# zhongyoo_parser in Dafny

A model of the Chinese-herbal-medicine scraping and cleaning pipeline of
zhongyoo_parser, with proofs of what its parsing, filtering and
book-keeping promise. The pipeline has three parts:

- **The zysj crawler** (`zysj_crawler.py`) reads the zysj index page. It keeps
  the links that look like herbs and de-duplicates them by cleaned name. For
  each herb page it runs a state machine over the page's paragraphs:
  - section headers such as 【性味归经】 open a field;
  - body lines fill the field that is open;
  - chapter headings and repeated titles are dropped.
  
  It then splits numbered items, splits a lone comma list of affiliated herbs,
  and groups formula and literature paragraphs into entries. The crawl loop
  keeps the records that have content, counts successes and failures, and
  writes the file whenever the success count is a multiple of five.
- **The zhongyoo crawler** (`zhongyoo_crawler.py`) does the following:
  - decodes pages by a cascade of encodings, checking for valid Chinese text;
  - reads the category links, leaving out 首页 and 更多;
  - builds one record per herb page: meridians de-duplicated, function and
    indication items filtered, a detailed category, a dosage that only a
    longer usage text replaces, and the herb images;
  - stamps each record with a running id;
  - saves every five records.
- **The data processor** (`data_processor.py`) cleans each record:
  - text whitelisting;
  - pinyin capitalisation;
  - meridian canonicalisation;
  - prescription and image-URL cleaning;
  - validation of the required fields.
  
  It also computes coverage statistics.

Modules, one per concern:

| module | what it holds |
|---|---|
| `Wrappers` | Option and Result |
| `Strings` | Python's `strip`, `split`, `join`, `in`, `lower` and order-keeping de-duplication |
| `Json` | JSON-like values and Python truthiness |
| `Cleaning` | the text functions of the data processor |
| `Normaliser` | record processing |
| `Statistics` | the statistics |
| `ZysjSections` | the section state machine |
| `ZysjShaping` | numbered splitting and grouping |
| `ZysjIndex` | the index link filter and de-duplication |
| `ZysjCrawl` | the detail record and the crawl loop |
| `ZhongyooText` | the text tests and extractors of the zhongyoo crawler |
| `ZhongyooCrawl` | the zhongyoo decode loop, categories, records and crawler object |

Loops that the Python code runs are Dafny methods proved equal to a
specification function. The facts below are proved about those functions.
The two crawler objects are classes: their record list, next id and file
saves are fields, and the crawl methods state the whole new state.

Where the code does not do what its own comments, docstrings or names
suggest, the model follows the code:
- `standardize_meridians` (data_processor.py:76-106) is documented as
  standardising meridians, but it keeps a value that neither ends in 经 nor
  names an organ (lines 101-104). So not every output ends in 经
  (`Normaliser.CanonicalMeridianShape`).
- `standardize_dosage` carries the comment `3~9g -> 3-9g`
  (data_processor.py:116), but it does not do that rewrite. `clean_text` has
  already deleted the `~` by then (see Findings).
- `process_single_herbal` (data_processor.py:195-225) never calls
  `standardize_dosage` or `parse_properties_and_taste`, though the processor
  defines both. So the dosage field passes through it unchanged
  (`Normaliser.ProcessedRecordKeepsDosage`).
- The zhongyoo category filter refuses 首页 and 更多 only in its first pass
  (zhongyoo_crawler.py:120). The fallback pass takes them
  (`ZhongyooCrawl.HomeLinkAdmittedByFallback`).
- The zhongyoo meridian pattern `[肺心肝脾肾胃肠膀胱胆]经`
  (zhongyoo_crawler.py:324) is a character class, although it lists 膀胱
  as if it were a name. So 膀胱经 is found as 胱经 and 大肠经 as 肠经, and that
  is what the model extracts (`ZhongyooText.IsMeridian`).
- The zysj save comment says data is saved once every five successes
  (zysj_crawler.py:669). The code saves whenever the success count is a
  multiple of five, including zero and after a failure. So it saves after
  every failure that comes before the first success
  (`ZysjCrawl.ZysjCrawler.CrawlAllHerbs`).

## Model

| member | source | states |
|---|---|---|
| `Cleaning.CollapseSpace` | data_processor.py:34 | runs of whitespace become one plain space: the result has no double space and no other whitespace, and is empty only for empty input |
| `Cleaning.NonSpaceTrimStart` | data_processor.py:34 | skipping leading whitespace keeps every other character |
| `Cleaning.CollapseSpaceKeepsText` | data_processor.py:34 | collapsing changes only whitespace: with whitespace removed, the result equals the input with whitespace removed, so every other character is kept in order |
| `Cleaning.NonSpaceAppend` | data_processor.py:34 | the non-space text of a concatenation is that of each part, in order |
| `Cleaning.NonSpaceOfWord` | data_processor.py:50 | a word without whitespace is its own non-space text |
| `Cleaning.NonSpaceTrimEnd` | data_processor.py:42 | dropping trailing whitespace keeps every other character |
| `Cleaning.NonSpaceStrip` | data_processor.py:34 | `strip()` keeps every character other than whitespace, in order |
| `Cleaning.StripTags` | data_processor.py:37 | removing `<...>` tags never lengthens the text and leaves text without `<` unchanged |
| `Cleaning.IndexOfFirst` | data_processor.py:37 | the search for `>` stops at the first one |
| `Cleaning.StripTagsPlainPrefix` | data_processor.py:37 | text without `<` is kept as it is, and the rest is cleaned on its own |
| `Cleaning.StripTagsTag` | data_processor.py:37 | a tag, `<`, at least one character other than `>`, then `>`, is deleted whole, and the text after it is cleaned on its own |
| `Cleaning.KeepAllowed` | data_processor.py:40 | only whitelisted characters survive (CJK, word characters, whitespace and the listed punctuation) |
| `Cleaning.KeepAllowedAppend` | data_processor.py:40 | the whitelist filters a concatenation part by part, so every whitelisted character is kept in its place in the order |
| `Cleaning.KeepAllowedOne` | data_processor.py:40 | one character is kept exactly when it is whitelisted (or in the extra set) |
| `Cleaning.NonSpaceKeepAllowed` | data_processor.py:40 | whitespace is always whitelisted, so dropping it commutes with the whitelist filter |
| `Cleaning.CleanTextKeeping` | data_processor.py:28-42 | the cleaning pipeline with extra allowed characters: "" for empty input; no edge whitespace; only allowed characters; plain single spaces |
| `Cleaning.CleanText` | data_processor.py:28-42 | `clean_text`: "" for empty input, no leading or trailing whitespace, only whitelisted characters (so no `<`, `>`, `~` or `-`), plain spaces only |
| `Cleaning.CleanTextKeepsText` | data_processor.py:28-42 | for text without `<`, the non-space text of the result is exactly the whitelisted non-space characters of the input, in order |
| `Cleaning.CleanTextChars` | data_processor.py:28-42 | every character of the cleaned text is a space or comes from the input |
| `Cleaning.CleanTextFixpoint` | data_processor.py:28-42 | text that is already clean is returned unchanged |
| `Cleaning.CleanTextIdempotentWhenNoDoubleSpace` | data_processor.py:28-42 | cleaning twice equals cleaning once whenever the first result has no double space |
| `Cleaning.CleanTextNotIdempotent` | data_processor.py:34-42 | cleaning is not idempotent in general: "a ~ b" cleans to "a  b", which cleans to "a b" (spaces are collapsed before the whitelist deletes `~`) |
| `Cleaning.SplitWords` | data_processor.py:50 | `split()` yields non-empty words without whitespace |
| `Cleaning.SplitWordsKeepsText` | data_processor.py:50 | the words put back together are the input's non-space text, in order |
| `Cleaning.Capitalize` | data_processor.py:51 | `capitalize()` keeps the length and does not introduce whitespace |
| `Cleaning.CapitalizeAll` | data_processor.py:51 | capitalises each word, keeping the word count |
| `Cleaning.SplitWordsJoin` | data_processor.py:50-51 | splitting a space-join of words gives back the words (split/join round trip) |
| `Cleaning.StandardizePinyinIdempotent` | data_processor.py:44-51 | standardising pinyin twice equals doing it once |
| `Cleaning.StandardizePinyinShape` | data_processor.py:44-51 | standardised pinyin has no edge whitespace, only plain single spaces |
| `Cleaning.CapitalizeLowerCapitalize` | data_processor.py:50-51 | lower-casing then capitalising a capitalised word gives it back |
| `Cleaning.MatchedKeywords` | data_processor.py:66-72 | the matched keywords are the table entries found in the text, in table order (a subsequence of the table; k is in the result iff it is in the table and in the text) |
| `Cleaning.ParsePropertiesAndTaste` | data_processor.py:53-56 | empty text gives two empty strings |
| `Cleaning.SlightImpliesBase` | data_processor.py:59-68 | when 微X is found as a property, the base X is found as well |
| `Cleaning.SlightTasteImpliesBase` | data_processor.py:61-72 | when 微X is found as a taste, the base X is found as well |
| `Cleaning.ParsePropertiesAndTasteRoundTrip` | data_processor.py:53-74 | splitting the two returned strings on 、 gives back exactly the matched keyword lists |
| `Cleaning.MatchedKeywordsRoundTrip` | data_processor.py:74 | joining matched keywords with a separator they lack and splitting again is the identity |
| `Cleaning.RewriteFromNoTilde` | data_processor.py:117 | without a tilde the range rewrite changes nothing |
| `Cleaning.RangeRewritten` | data_processor.py:117 | the rewrite turns "a~b" followed by a unit into "a-b" followed by the unit |
| `Cleaning.StandardizeDosageIsCleanText` | data_processor.py:108-119 | as written, `standardize_dosage` equals `clean_text`: the rewrite never finds a tilde |
| `Cleaning.StandardizeDosageDropsRange` | data_processor.py:108-119 | as written, "3~9g" becomes "39g" |
| `Cleaning.StandardizeDosageFixedRange` | data_processor.py:116-117 | with the rewrite done first, "a~b" followed by a unit becomes "a-b" followed by the unit |
| `Strings.Dedup` | data_processor.py:167-168 | `list(dict.fromkeys(...))`: no duplicates, the same elements as the input, an order-keeping subsequence, survivors in the order of their first occurrence |
| `Normaliser.FirstAlias` | data_processor.py:97-101 | the index of the first alias whose key occurs in the meridian, or -1 when none does |
| `Normaliser.ScanAliases` | data_processor.py:97-101 | the alias loop returns the first matching alias |
| `Normaliser.CanonicalizeEntry` | data_processor.py:90-104 | one meridian entry is canonicalised as the specification function says |
| `Normaliser.CanonicalizeAll` | data_processor.py:89-104 | the loop over the entries gives the canonical list, or the error of the first entry that is not a string |
| `Normaliser.StandardizeMeridians` | data_processor.py:76-106 | the standardised meridians have no duplicates, and a name is in them exactly when it is among the canonicalised entries |
| `Normaliser.CanonicalMeridiansErr` | data_processor.py:89-90 | once an entry fails, the whole list fails with that error |
| `Normaliser.AliasValuesEndInJing` | data_processor.py:82-86 | every alias maps to a name ending in 经, and every key is non-empty |
| `Normaliser.CanonicalMeridianShape` | data_processor.py:90-104 | a cleaned entry is dropped exactly when it is empty. Otherwise its canonical form ends in 经, or it is the entry itself and names no organ of the alias table |
| `Normaliser.PericardiumAliasShadowed` | data_processor.py:82-100 | the 心包 alias is never the first match, because 心 comes before it in the table |
| `Normaliser.CanonicalMeridiansShape` | data_processor.py:89-104 | every canonical meridian is non-empty and either ends in 经 or names no organ of the alias table |
| `Normaliser.StandardizedMeridiansSet` | data_processor.py:78-106 | falsy input gives []; a successful result is duplicate-free and has the same members as the canonical list |
| `Normaliser.CleanedPrescriptions` | data_processor.py:127-137 | at most one entry per input item, each clean and non-empty |
| `Normaliser.CleanedPrescriptionsMeaning` | data_processor.py:127-137 | every kept item (a non-empty string that does not clean to "") contributes its `clean_text`, and nothing else appears; cleaning a concatenation concatenates the results, so order and repetitions follow the input |
| `Normaliser.PrescriptionsOf` | data_processor.py:121-137 | `clean_prescriptions`: a falsy value or a non-list gives [], every entry clean and non-empty |
| `Normaliser.CleanPrescriptions` | data_processor.py:121-137 | the loop equals the specification function |
| `Normaliser.BeforeQuery` | data_processor.py:184 | the text before the first '?': a '?'-free prefix, followed by '?' when shorter |
| `Normaliser.ImageUrlQueryIgnored` | data_processor.py:170-187 | an http(s) URL with an image extension stays valid whatever query string is appended |
| `Normaliser.ValidImageUrls` | data_processor.py:156-165 | the kept URLs are valid and stripped, at most one per item |
| `Normaliser.ValidImageUrlsMeaning` | data_processor.py:156-165 | every kept item (a non-empty string valid once stripped) contributes its stripped URL, and nothing else appears; the list of a concatenation is the concatenation of the lists, so order and repetitions follow the input |
| `Normaliser.CollectImageUrls` | data_processor.py:156-165 | the loop equals the specification function |
| `Normaliser.ImageUrlsOf` | data_processor.py:149-168 | `clean_image_urls`: [] for a falsy value or a non-list; otherwise duplicate-free, valid and stripped, holding exactly the URLs the loop kept, in the order of their first occurrence |
| `Normaliser.CleanImageUrls` | data_processor.py:149-168 | `clean_image_urls` equals `ImageUrlsOf`: duplicate-free, valid, stripped, exactly the kept URLs, in first-occurrence order |
| `Normaliser.ValidateHerbalData` | data_processor.py:139-147 | a record is valid exactly when `id` and `name` are present and truthy |
| `Normaliser.HasFields` | data_processor.py:143-147 | true exactly when every listed field is present and truthy |
| `Normaliser.TextFieldsNotLists` | data_processor.py:200-223 | the text fields do not include meridians, prescriptions, images or dosage, and do include pinyin |
| `Normaliser.CleanedFields` | data_processor.py:205-207 | the keys are unchanged, and fields that are not text fields are untouched |
| `Normaliser.PinyinStep` | data_processor.py:210-211 | pinyin becomes `standardize_pinyin` of its value; nothing else changes |
| `Normaliser.MeridianStep` | data_processor.py:214-215 | meridians become the standardised list; nothing else changes; the step fails exactly when the meridians cannot be standardised |
| `Normaliser.CleanLists` | data_processor.py:218-223 | prescriptions become `clean_prescriptions` and images `clean_image_urls` of their values; nothing else changes |
| `Normaliser.ProcessedRecord` | data_processor.py:195-225 | the same keys; an error exactly when the meridians fail; other non-text, non-list fields unchanged |
| `Normaliser.ProcessedRecordKeepsDosage` | data_processor.py:195-225 | the dosage field passes through processing unchanged |
| `Normaliser.ProcessedRecordTextClean` | data_processor.py:205-207 | every text field except pinyin is the cleaned `str()` of its old value |
| `Normaliser.ProcessedRecordLists` | data_processor.py:209-223 | pinyin is `standardize_pinyin` of the cleaned text; meridians, prescriptions and images are the standardised lists of the loaded values |
| `Normaliser.CleanTextFields` | data_processor.py:205-207 | the text-field loop equals the specification function |
| `Normaliser.ProcessSingleHerbal` | data_processor.py:195-225 | the method equals `ProcessedRecord` |
| `Normaliser.Filtered` | data_processor.py:240-241 | an order-keeping subsequence of the input; the kept items pass the test, and every input item that passes is kept |
| `Normaliser.FilteredCount` | data_processor.py:240-241 | an accepted item occurs in the output exactly as often as in the input, a rejected one never |
| `Normaliser.RunKeptValid` | data_processor.py:239-245 | on success, output i is the processed i-th kept item |
| `Normaliser.RunKeptSucceeds` | data_processor.py:239-245 | if every kept item processes, the run succeeds |
| `Normaliser.RunKeptErr` | data_processor.py:239-245 | the first failing prefix decides the result |
| `Normaliser.ValidRecords` | data_processor.py:240-241 | an order-keeping subsequence of the input holding every valid record and only valid ones |
| `Normaliser.ValidRecordsCount` | data_processor.py:240-241 | a valid record is kept as often as it occurs; an invalid one never |
| `Normaliser.ProcessedAllValid` | data_processor.py:239-245 | the i-th output is the i-th valid input record, processed; one output per valid record, in input order |
| `Normaliser.ProcessedAllSucceeds` | data_processor.py:239-245 | when every valid record processes, so does the batch |
| `Normaliser.ProcessedAllErr` | data_processor.py:239-245 | an error in a prefix is the error of the whole batch |
| `Normaliser.ProcessAllData` | data_processor.py:239-245 | the loop equals the specification function |
| `Normaliser.VisitRecord` | data_processor.py:240-243 | one pass of the record loop: a valid record is processed and appended, an invalid one skipped, an error ends the run |
| `Statistics.Bump` | data_processor.py:285-295 | one more for key k, with every other count unchanged |
| `Statistics.Increment` | data_processor.py:285-295 | one bump adds one to the total of the histogram |
| `Statistics.CountedSum` | data_processor.py:283-295 | counting n keys adds n to the histogram total |
| `Statistics.CountedErr` | data_processor.py:283-295 | an unhashable key in a prefix is the error of the whole count |
| `Statistics.CountInto` | data_processor.py:291-295 | the counting loop equals the specification function |
| `Statistics.BumpKey` | data_processor.py:291-295 | the two-branch increment equals `Bump` |
| `Statistics.CountedKey` | data_processor.py:283-295 | each bucket grows by the number of times its key was counted; a key is present exactly when it was present or was counted |
| `Statistics.CountFields` | data_processor.py:302-310 | each coverage counter goes up by one exactly when the record covers that field |
| `Statistics.CoverCount` | data_processor.py:302-310 | no field is covered by more records than there are |
| `Statistics.ImageCount` | data_processor.py:298-299 | no more records with images than there are records |
| `Statistics.TallyCounters` | data_processor.py:281-310 | after the loop, the image count and every field count are the numbers of records that cover them |
| `Statistics.TallyHistograms` | data_processor.py:281-295 | the category histogram sums to the number of records with a category; the meridian histogram sums to the total number of meridians |
| `Statistics.TallyBuckets` | data_processor.py:281-295 | each category bucket holds the number of records with that category, each meridian bucket the number of occurrences of that entry; a key is present exactly when its count is positive |
| `Statistics.TallyErr` | data_processor.py:281-295 | an unhashable key in a prefix is the error of the whole batch |
| `Statistics.Percentage` | data_processor.py:313-323 | 0 for an empty batch, otherwise between 0 and 100 when count <= total |
| `Statistics.StatisticsBounds` | data_processor.py:263-325 | total_count = len(data); no count exceeds it; the histograms sum as described; an empty batch has every percentage 0 |
| `Statistics.CountFieldsOf` | data_processor.py:302-310 | the field loop equals the specification function |
| `Statistics.CountCategory` | data_processor.py:283-288 | the category step equals counting the record's truthy category |
| `Statistics.TallyHerb` | data_processor.py:281-310 | one record's tally equals the specification step and keeps the field keys |
| `Statistics.GenerateStatistics` | data_processor.py:263-325 | the method equals the specification function |
| `ZysjSections.FirstAlt` | zysj_crawler.py:466-467 | the first alternative of a pattern that matches at the start of the text |
| `ZysjSections.SearchFrom` | zysj_crawler.py:467 | the leftmost position at which the pattern matches; none before it |
| `ZysjSections.FirstPattern` | zysj_crawler.py:466-467 | none exactly when no pattern of the section is found |
| `ZysjSections.FirstSection` | zysj_crawler.py:465-483 | the first section, in table order, with a matching pattern; no earlier section matches |
| `ZysjSections.Detect` | zysj_crawler.py:465-483 | the header match ends within the text |
| `ZysjSections.FindHeader` | zysj_crawler.py:465-483 | the nested pattern loop equals the first matching section |
| `ZysjSections.RestOfLine` | zysj_crawler.py:471 | `(.*)` after the header: a newline-free slice right after the match |
| `ZysjSections.ParseSections` | zysj_crawler.py:438-501 | the element loop equals running the state machine over the elements |
| `ZysjSections.VisitElement` | zysj_crawler.py:443-501 | one element of the loop equals one step of the state machine |
| `ZysjSections.TableRanks` | zysj_crawler.py:453-464 | ten sections, tried in the order of the table |
| `ZysjSections.HeaderFirstMatchWins` | zysj_crawler.py:465-483 | if section k matches, a header is detected and its rank is at most k |
| `ZysjSections.RunAppend` | zysj_crawler.py:440 | running over a + b is running over a, then over b |
| `ZysjSections.RunIgnored` | zysj_crawler.py:443-490 | empty elements, body text before the first header, excluded headings and repeats of the header text leave the state as it was |
| `ZysjSections.StepBody` | zysj_crawler.py:486-501 | a body line is added to the open field and nothing else changes |
| `ZysjSections.RunScalarBody` | zysj_crawler.py:493-497 | body lines of a text field are newline-joined onto it; other fields are unchanged |
| `ZysjSections.RunListBody` | zysj_crawler.py:499-501 | body lines of a list field are appended to it in order; other fields are unchanged |
| `ZysjSections.HeaderOpens` | zysj_crawler.py:469-481 | a header opens its section. Text after it overwrites a text field or is appended to a list field, and is ignored when empty |
| `ZysjSections.SectionCollects` | zysj_crawler.py:465-501 | a header followed by body lines leaves exactly the header content and those lines in its field |
| `ZysjShaping.OrdinalsEnd` | zysj_crawler.py:512 | the end of a run of Chinese ordinals |
| `ZysjShaping.MarkerEnd` | zysj_crawler.py:512 | a numbered marker ends after its start |
| `ZysjShaping.NextSplit` | zysj_crawler.py:514 | the first newline followed by a numbered marker; none earlier |
| `ZysjShaping.Pieces` | zysj_crawler.py:514 | the `findall` pieces of a numbered item concatenate back to the item from its first marker |
| `ZysjShaping.StripAll` | zysj_crawler.py:516 | one stripped item per item |
| `ZysjShaping.SubItems` | zysj_crawler.py:512-518 | a numbered item gives at least one sub-item |
| `ZysjShaping.CommaParts` | zysj_crawler.py:533 | the comma parts are non-empty and stripped |
| `ZysjShaping.CommaSplitParts` | zysj_crawler.py:533 | the comma parts are non-empty, stripped and free of '，' |
| `ZysjShaping.ShapeNumbered` | zysj_crawler.py:504-541 | the shaping loop equals the specification function |
| `ZysjShaping.NumberedOfEmpty` | zysj_crawler.py:510-524 | no numbered sub-items exactly when no item is numbered |
| `ZysjShaping.NumberedOfFrom` | zysj_crawler.py:510-518 | every numbered sub-item comes from a numbered item |
| `ZysjShaping.PlainOfAll` | zysj_crawler.py:519-521 | without numbered items every item is kept, stripped |
| `ZysjShaping.ShapedNumbered` | zysj_crawler.py:524-525 | numbered items win: if one item is numbered, every entry comes from a numbered item |
| `ZysjShaping.ShapedPlain` | zysj_crawler.py:526-541 | without numbered items the field is its stripped items. The exception is a lone affiliated-herb entry that is a comma list with no 。 or ；, which is split on '，' |
| `ZysjShaping.Kept` | zysj_crawler.py:549-554 | the stripped items kept for grouping are non-empty |
| `ZysjShaping.GroupStep` | zysj_crawler.py:557-568 | one kept item either closes a non-empty entry or extends the current one; the current entry is then non-empty |
| `ZysjShaping.GroupState` | zysj_crawler.py:544-568 | every finished entry is non-empty |
| `ZysjShaping.GroupEntries` | zysj_crawler.py:544-574 | the grouping loop equals the specification function |
| `ZysjShaping.GroupStateMeaning` | zysj_crawler.py:544-574 | the grouping invariant holds after every item |
| `ZysjShaping.GroupedMeaning` | zysj_crawler.py:544-574 | grouping only re-cuts the kept items. Their newline join is unchanged, there are no more entries than items, every entry after the first starts at a header, every header item starts its own entry (one entry per header, plus one for items before the first header), and no entry is empty |
| `ZysjIndex.EffectiveCategory` | zysj_crawler.py:234-235 | the section title, else the chapter title; empty only when both are |
| `ZysjIndex.AdmitLink` | zysj_crawler.py:213-241 | a link is taken exactly when its href is a herb page, its stripped name is herb-like with 2-10 characters, and there is a category |
| `ZysjIndex.AdmitFallback` | zysj_crawler.py:317-345 | the fallback takes a link exactly when its title is non-empty and herb-like and its href is a herb page; a missing category becomes 未分类药材 |
| `ZysjIndex.CleanName` | zysj_crawler.py:354 | the cleaned name has none of the removed characters |
| `ZysjIndex.UniqueFrom` | zysj_crawler.py:352-366 | the kept herbs are a subsequence of the input, with names neither skipped nor seen |
| `ZysjIndex.UniqueFromDistinct` | zysj_crawler.py:362-366 | the kept herbs have distinct cleaned names |
| `ZysjIndex.UniqueFromCovers` | zysj_crawler.py:356-366 | every herb that is not skipped has its cleaned name among the kept herbs or already seen |
| `ZysjIndex.DedupHerbs` | zysj_crawler.py:349-369 | the de-duplication loop equals the specification function |
| `ZysjIndex.UniqueMeaning` | zysj_crawler.py:349-369 | an order-keeping subsequence whose names are not digits-only, are at least 2 long and are distinct, covering every name that is not skipped |
| `ZysjIndex.UniqueKeepsFirst` | zysj_crawler.py:362-366 | each kept herb is the first occurrence of its cleaned name |
| `ZysjCrawl.IndicatorCount` | zysj_crawler.py:403-404 | zero exactly when no indicator occurs |
| `ZysjCrawl.ShapeFields` | zysj_crawler.py:503-574 | the text fields are not changed by list shaping |
| `ZysjCrawl.ImagesOf` | zysj_crawler.py:577-581 | the images are an order-keeping subsequence of the srcs holding every non-empty src and no empty one |
| `ZysjCrawl.ImagesOfCount` | zysj_crawler.py:577-581 | a non-empty src is kept as often as the page lists it, an empty one never |
| `ZysjCrawl.HerbDetailOf` | zysj_crawler.py:375-590 | a record exactly when the page was fetched and not rejected (fewer than 2 indicators and an error phrase), carrying the herb's name, category and url and the sections' text fields |
| `ZysjCrawl.CollectImages` | zysj_crawler.py:577-581 | the image loop equals the specification function |
| `ZysjCrawl.ParseHerbDetail` | zysj_crawler.py:375-590 | the method equals the specification function |
| `ZysjCrawl.Collected` | zysj_crawler.py:648-666 | the kept records have content and number at most the outcomes |
| `ZysjCrawl.Successes` | zysj_crawler.py:648-666 | no more successes than herbs |
| `ZysjCrawl.ZysjCrawler.constructor` | zysj_crawler.py:53-66 | an empty record list and no saves yet |
| `ZysjCrawl.ZysjCrawler.SaveData` | zysj_crawler.py:713-724 | a save writes the current records and changes nothing else |
| `ZysjCrawl.ZysjCrawler.RecordOutcome` | zysj_crawler.py:648-670 | a record with content is appended and counted as a success, anything else is a failure; a save follows whenever the success count is a multiple of five |
| `ZysjCrawl.ZysjCrawler.CrawlHerb` | zysj_crawler.py:644-670 | one pass of the loop: parse, then record the outcome as above |
| `ZysjCrawl.ZysjCrawler.CrawlAllHerbs` | zysj_crawler.py:626-683 | the records are exactly the successful outcomes in order. success = their number, and success + fail = the number of herbs. The saves are the empty initial one, the checkpoints, then the final one |
| `ZysjCrawl.CollectedExactly` | zysj_crawler.py:648-666 | the kept records number the successes, and every success is kept |
| `ZysjCrawl.CheckpointsMultiplesOfFive` | zysj_crawler.py:669-670 | every checkpoint inside the loop writes a multiple of five records, no more than were collected, and they never decrease |
| `ZhongyooText.CjkSearch` | zhongyoo_crawler.py:93-94 | the first CJK character at or after i |
| `ZhongyooText.GarbledSearch` | zhongyoo_crawler.py:97-98 | the first run of three '?' at or after i |
| `ZhongyooText.IsValidChineseText` | zhongyoo_crawler.py:90-100 | valid exactly when the text has a CJK character and no run of three '?' |
| `ZhongyooText.FirstValidDecode` | zhongyoo_crawler.py:66-73 | none exactly when no listed encoding decodes to valid text, and a result is valid |
| `ZhongyooText.FirstValidDecodeIsFirst` | zhongyoo_crawler.py:66-73 | the result is that of the first encoding that decodes to valid text |
| `ZhongyooText.DecodeCascadeMeaning` | zhongyoo_crawler.py:63-84 | the first valid listed decoding; else the detected encoding when usable; else the lossy gbk decoding |
| `ZhongyooText.AnyKeyword` | zhongyoo_crawler.py:442-443 | true exactly when some keyword occurs |
| `ZhongyooText.ClassificationTextIff` | zhongyoo_crawler.py:440-443 | classification text exactly when it mentions 属 or 分类 |
| `ZhongyooText.DosageTextIff` | zhongyoo_crawler.py:480-483 | dosage text exactly when it mentions 用量, 煎服, 外用, 研末 or 浸渍 |
| `ZhongyooText.ParseInt` | zhongyoo_crawler.py:817 | `int()` of an attribute: a value only for a non-blank string |
| `ZhongyooText.ParseIntShow` | zhongyoo_crawler.py:817 | `int` reads back what `str` writes |
| `ZhongyooText.IsHerbImage` | zhongyoo_crawler.py:797-824 | refused exactly when the lower-cased src has a blocked word, or 'ad' without 'allimg', or both sizes parse and one is below 50 |
| `ZhongyooText.IsHerbImageIgnoresCase` | zhongyoo_crawler.py:802-810 | the verdict does not depend on the case of the src |
| `ZhongyooText.SmallImageRefused` | zhongyoo_crawler.py:813-820 | an image declared narrower or shorter than 50 is refused |
| `ZhongyooText.Without` | zhongyoo_crawler.py:385 | the text without the separator characters |
| `ZhongyooText.SplitAny` | zhongyoo_crawler.py:385 | `re.split` on a character class: at least one piece, none containing a separator |
| `ZhongyooText.SplitAnyMeaning` | zhongyoo_crawler.py:385 | the pieces concatenate to the text without separators, one more piece than separators |
| `ZhongyooText.Items` | zhongyoo_crawler.py:387 | each item is shorter than 50, has no keyword and does not end in 。 |
| `ZhongyooText.ItemsMeaning` | zhongyoo_crawler.py:387 | an item is kept exactly when its piece passes the filter |
| `ZhongyooText.FunctionItems` | zhongyoo_crawler.py:385-387 | function items are short, never mention 属 or 分类, and hold no separator |
| `ZhongyooText.IndicationItems` | zhongyoo_crawler.py:411-413 | indication items are short, never dosage text, and hold no separator |
| `ZhongyooText.MeridianMatches` | zhongyoo_crawler.py:324 | `findall` yields meridian names only |
| `ZhongyooText.MeridianMatchesSound` | zhongyoo_crawler.py:324 | every match occurs in the text |
| `ZhongyooText.MeridianMatchesComplete` | zhongyoo_crawler.py:324 | every occurrence of a meridian name is matched |
| `ZhongyooText.MeridianMatchesIff` | zhongyoo_crawler.py:324 | m is matched exactly when it is a meridian name occurring in the text |
| `ZhongyooText.MeridianSet` | zhongyoo_crawler.py:324-326 | `list(set(...))`: duplicate-free, exactly the meridian names occurring in the text |
| `ZhongyooText.FallbackMeridians` | zhongyoo_crawler.py:343-360 | duplicate-free meridian names; empty exactly when no capture has a match |
| `ZhongyooText.FallbackMeridiansIsFirst` | zhongyoo_crawler.py:353-360 | the list is exactly the meridians named in the first capture that holds one, or empty when no capture holds one; earlier captures hold none |
| `ZhongyooText.MeridiansOf` | zhongyoo_crawler.py:320-360 | the meridians of a record are duplicate-free meridian names |
| `ZhongyooText.MeridiansOfMeaning` | zhongyoo_crawler.py:320-326 | when the taste-and-meridian field names a meridian, the fallbacks are not used and the result is exactly the meridians in that field |
| `ZhongyooText.MeridiansOfFallback` | zhongyoo_crawler.py:320-360 | when the taste-and-meridian field names no meridian, the record takes the fallback list |
| `ZhongyooText.UsageAfter` | zhongyoo_crawler.py:531-561 | the dosage never gets shorter; it is either unchanged or a longer qualifying usage text |
| `ZhongyooText.UsageAfterFirst` | zhongyoo_crawler.py:531-561 | a replacement is the first qualifying candidate, and none before it qualifies |
| `ZhongyooText.UsageStopsAtFirstQualifying` | zhongyoo_crawler.py:557-561 | candidates after the first qualifying one are never looked at |
| `ZhongyooCrawl.GetPageText` | zhongyoo_crawler.py:63-84 | the decode loop equals the cascade |
| `ZhongyooCrawl.PrimaryCategories` | zhongyoo_crawler.py:114-123 | the first pass never yields an empty name, 首页 or 更多 |
| `ZhongyooCrawl.FallbackCategories` | zhongyoo_crawler.py:126-139 | fallback names have 2-9 characters and the URLs are distinct |
| `ZhongyooCrawl.CategoriesOf` | zhongyoo_crawler.py:102-150 | every category has a non-empty name |
| `ZhongyooCrawl.HomeLinkAdmittedByFallback` | zhongyoo_crawler.py:120-139 | when the first pass finds nothing, a 首页 link under /gx/ is taken |
| `ZhongyooCrawl.CategoriesOfMeaning` | zhongyoo_crawler.py:114-139 | with first-pass results no navigation word is a category; from the fallback no URL repeats |
| `ZhongyooCrawl.FirstShort` | zhongyoo_crawler.py:377-388 | a short capture of the list; none exactly when all are long |
| `ZhongyooCrawl.FirstShortIsFirst` | zhongyoo_crawler.py:377-388 | the capture chosen is the earliest short one: every capture before it is 300 characters or longer once stripped |
| `ZhongyooCrawl.FindShortCapture` | zhongyoo_crawler.py:377-381 | the pattern loop equals the specification function |
| `ZhongyooCrawl.DetailedCategory` | zhongyoo_crawler.py:485-511 | the list-page category, or a stripped capture that is non-empty and shorter than 20 |
| `ZhongyooCrawl.DetailedCategorySkip` | zhongyoo_crawler.py:495-509 | a capture that is empty or 20 characters or longer once stripped is passed over |
| `ZhongyooCrawl.DetailedCategoryIsFirst` | zhongyoo_crawler.py:495-509 | the category is the first capture that is non-empty and shorter than 20 once stripped (located by `Strings.FirstWhere`), stripped; it stays the list-page category exactly when no capture is accepted |
| `ZhongyooCrawl.FindDetailedCategory` | zhongyoo_crawler.py:495-509 | the pattern loop equals the specification function |
| `ZhongyooCrawl.FindMeridians` | zhongyoo_crawler.py:320-360 | the meridian extraction equals the specification function |
| `ZhongyooCrawl.UpdateDosage` | zhongyoo_crawler.py:531-561 | the usage loop equals the specification function |
| `ZhongyooCrawl.ImageUrls` | zhongyoo_crawler.py:773-787 | a URL is listed exactly when some kept image tag has it |
| `ZhongyooCrawl.CollectImages` | zhongyoo_crawler.py:767-795 | the image loop, then de-duplication |
| `ZhongyooCrawl.RecordOf` | zhongyoo_crawler.py:203-256 | the record carries the given id, the item's name and the item's url |
| `ZhongyooCrawl.RecordMeridians` | zhongyoo_crawler.py:320-360 | a record's meridians are distinct meridian names |
| `ZhongyooCrawl.RecordItems` | zhongyoo_crawler.py:385-413 | function items never mention 属 or 分类, indication items are never dosage text, and all are shorter than 50 |
| `ZhongyooCrawl.RecordDosageImages` | zhongyoo_crawler.py:403-405 | the dosage is at least as long as the one from the indications, and the images are distinct URLs of kept image tags |
| `ZhongyooCrawl.RecordOfStamps` | zhongyoo_crawler.py:217 | the record builder stamps the id it is given |
| `ZhongyooCrawl.Fetched` | zhongyoo_crawler.py:916-918 | no more fetched items than items |
| `ZhongyooCrawl.Crawled` | zhongyoo_crawler.py:914-921 | one record per successful fetch |
| `ZhongyooCrawl.CrawledStamped` | zhongyoo_crawler.py:217-247 | the records of a run carry consecutive ids after the earlier ones |
| `ZhongyooCrawl.FetchedAppend` | zhongyoo_crawler.py:914-921 | the fetch count of two runs adds up |
| `ZhongyooCrawl.CrawledAppend` | zhongyoo_crawler.py:914-921 | the records of a + b are those of a followed by those of b, numbered on |
| `ZhongyooCrawl.CheckpointsAppend` | zhongyoo_crawler.py:924-925 | the checkpoints of a + b are those of a followed by those of b |
| `ZhongyooCrawl.CheckpointsShape` | zhongyoo_crawler.py:924-925 | each checkpoint is a positive multiple of five no larger than the record count, and they never decrease |
| `ZhongyooCrawl.Limit` | zhongyoo_crawler.py:897-898 | `xs[:m]` under `if m:` is a prefix of length m when 0 < m <= len; the whole list for None or 0 |
| `ZhongyooCrawl.CrawledIds` | zhongyoo_crawler.py:217-247 | crawling after records with ids 1..n keeps ids 1, 2, 3, ... in order |
| `ZhongyooCrawl.ZhongyooCrawler.constructor` | zhongyoo_crawler.py:36-51 | no records, next id 1, no saves |
| `ZhongyooCrawl.ZhongyooCrawler.ParseHerbDetailPage` | zhongyoo_crawler.py:203-256 | a fetched page gives the record stamped with the current id and advances the id; a failed fetch gives none and keeps the id |
| `ZhongyooCrawl.ZhongyooCrawler.SaveData` | zhongyoo_crawler.py:934-946 | writes the records, and nothing when there are none |
| `ZhongyooCrawl.ZhongyooCrawler.CrawlHerb` | zhongyoo_crawler.py:914-925 | one herb: its record (if fetched) is appended, then a checkpoint when the count is a positive multiple of five; the next id stays one past the count |
| `ZhongyooCrawl.ZhongyooCrawler.CrawlHerbs` | zhongyoo_crawler.py:914-925 | the inner loop appends the crawled records and their checkpoints |
| `ZhongyooCrawl.ZhongyooCrawler.CrawlCategory` | zhongyoo_crawler.py:903-925 | an empty herb list changes nothing; otherwise the limited list is crawled |
| `ZhongyooCrawl.ZhongyooCrawler.CrawlCategories` | zhongyoo_crawler.py:900-929 | the category loop crawls every category's limited list in order |
| `ZhongyooCrawl.ZhongyooCrawler.CrawlNextCategory` | zhongyoo_crawler.py:900-929 | one turn of the category loop extends the records and checkpoints of the categories so far by those of the next category |
| `ZhongyooCrawl.ZhongyooCrawler.CrawlAllCategories` | zhongyoo_crawler.py:885-932 | nothing happens without categories. Otherwise every herb of the limited categories is crawled in order, with ids kept in order, the checkpoints written and a final save |

## Left out

- Networking, sleeping, logging, `urljoin`, BeautifulSoup and `chardet` are not modelled. A fetched page is given as the values its regular expressions and DOM queries produce: section captures, element texts, image tags and links with their joined URLs. The encodings' decoders are a parameter.
- Regular expressions are modelled as literal-alternative searches with their matching order. Python's `\w` is approximated by ASCII letters, digits, underscore and the CJK block U+4E00-U+9FFF. `lower()` and `capitalize()` act on ASCII letters only.
- Python `str()` of a list or dict is modelled by a simplified rendering without escaping.
- `list(set(...))` is modelled as order-keeping de-duplication. Python's set order is arbitrary, so the lemmas claim only membership and absence of duplicates.
- A fetch is a deterministic function of the herb; retries and HTTP status handling in `get_page` are not modelled.
- Dictionaries updated in place are modelled as values: each processing stage returns a new record.
- `is_main_herb_image` is abstracted as a per-tag verdict (`isMain`), because it walks the surrounding DOM.
- The zhongyoo crawler's pinyin, taste, pairings, cautions and description extractors are not modelled; the record holds the fields named above. The removal patterns of `clean_functions_text` and `clean_indications_text` and the dosage patterns are abstracted as the capture's `cleaned` and `dosage` texts.
- The herb-link filter of `parse_category_list_page` is not modelled; a category's herb list is a parameter.
- The traversal of the index page's nested lists in `parse_index_page` is not modelled; the link filter and de-duplication applied to what it finds are.
- JSON loading and saving, `backup_json_file`, `print_field_description`, the `main` scripts and `run.py` are not modelled. A save is recorded as the number of records written.
- The percentages are exact ratios, not rounded with `round(…, 2)`.
- Python's merging of `True` and `1` as equal dictionary keys in the histograms is not modelled.
- The exception branch of `crawl_all_herbs` (lines 672-676) cannot be reached in the model, because no modelled operation raises.
- Regular-expression `\d` (zysj_crawler.py:218, 260, 326, 357 and 512-514; data_processor.py:117) is modelled as the ASCII digits 0-9. Python 3 string patterns also match every other Unicode decimal digit, so for example a full-width "１）" opens a numbered item in the source but not in the model.
- JSON numbers are modelled as integers: `Json.Value` has no floating-point case, so a record holding a float is outside the model.
- `int()` is modelled for whitespace, an optional sign and ASCII digits; underscores and non-ASCII digits are not accepted.
- ZysjCrawl.ShapeFields: its contract states only that the text fields are unchanged; the list fields are stated by `ZysjShaping.ShapedNumbered`, `ZysjShaping.ShapedPlain` and `ZysjShaping.GroupedMeaning`.
- ZhongyooCrawl.RecordOf: its contract states only the id, name and url; the other fields are stated by `RecordMeridians`, `RecordItems` and `RecordDosageImages`.

## Findings

| source | as written | input that shows it | evidently intended | confidence | as-written member | corrected member |
|---|---|---|---|---|---|---|
| data_processor.py:108-119 | `clean_text` runs first and deletes `~`, `～` and `-`, so the range rewrite never fires | "3~9g" gives "39g" | "3~9g" gives "3-9g", as the comment on line 116 says | high; not executed | `Cleaning.StandardizeDosageDropsRange` | `Cleaning.StandardizeDosageFixedRange` |

The corrected normaliser, `Cleaning.StandardizeDosageFixed`, rewrites ranges first and keeps the `-` it introduces. `Cleaning.StandardizeDosageIsCleanText` shows that the function as written is just `clean_text`. `process_single_herbal` does not call either function, so the dosage field of a processed record is unaffected.
