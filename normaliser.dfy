/** The record-level steps of the batch processor: meridian canonicalisation,
    prescription and image-URL cleaning, record validation, the per-record
    field pass and the loop that keeps the valid records. */
module Normaliser {
  import opened Wrappers
  import opened Strings
  import opened Json
  import opened Cleaning

  /** A list of strings as the JSON list the processor stores. */
  function Strs(ss: seq<string>): (r: seq<Value>)
    ensures |r| == |ss|
    ensures forall i :: 0 <= i < |r| ==> r[i] == Str(ss[i])
  {
    seq(|ss|, i requires 0 <= i < |ss| => Str(ss[i]))
  }

  // ---------------------------------------------------------------------------
  // Meridians

  /** The alias table, in the order the dictionary literal declares it. */
  const MeridianAliases: seq<(string, string)> := [
    ("肺", "肺经"), ("大肠", "大肠经"), ("胃", "胃经"), ("脾", "脾经"),
    ("心", "心经"), ("小肠", "小肠经"), ("膀胱", "膀胱经"), ("肾", "肾经"),
    ("心包", "心包经"), ("三焦", "三焦经"), ("胆", "胆经"), ("肝", "肝经")]

  /** Index of the first alias key that occurs in `m`, or -1 when none does. */
  function FirstAlias(table: seq<(string, string)>, m: string): (k: int)
    ensures -1 <= k < |table|
    ensures k >= 0 ==> Contains(m, table[k].0)
    ensures forall j :: 0 <= j < |table| && (k == -1 || j < k) ==> !Contains(m, table[j].0)
    decreases |table|
  {
    if table == [] then -1
    else if Contains(m, table[0].0) then 0
    else
      var k := FirstAlias(table[1..], m);
      if k == -1 then -1 else k + 1
  }

  /** What one cleaned entry contributes: itself when it already ends in 经,
      else the value of the first alias key it contains, else itself when
      non-empty; an empty entry contributes nothing. */
  function CanonicalMeridian(m: string): Option<string>
  {
    if EndsWith(m, "经") then Some(m)
    else
      var k := FirstAlias(MeridianAliases, m);
      if k >= 0 then Some(MeridianAliases[k].1)
      else if m != [] then Some(m)
      else None
  }

  /** The elements `for x in v` visits once `v` is truthy: the characters of a
      string, the items of a list, the keys of an object; anything else is
      not iterable. */
  function Iterated(v: Value): Result<seq<Value>>
  {
    match v
    case Str(s) => Ok(seq(|s|, i requires 0 <= i < |s| => Str([s[i]])))
    case List(items) => Ok(items)
    case Obj(fields) => Ok(seq(|fields|, i requires 0 <= i < |fields| => Str(fields[i].0)))
    case _ => Err("TypeError: object is not iterable")
  }

  /** `clean_text(x)` applied to one element: a falsy element gives "", a
      truthy element that is not a string has no `strip` method. */
  function CleanItem(v: Value): Result<string>
  {
    if !Truthy(v) then Ok([])
    else if v.Str? then Ok(CleanText(v.s))
    else Err("AttributeError: object has no attribute 'strip'")
  }

  /** The `standardized` list after the loop has visited `items`, or the
      error of the first element that makes it raise. */
  function CanonicalMeridians(items: seq<Value>): Result<seq<string>>
    decreases |items|
  {
    if items == [] then Ok([])
    else
      var last := items[|items| - 1];
      match CanonicalMeridians(items[..|items| - 1])
      case Err(e) => Err(e)
      case Ok(done) =>
        match CleanItem(last)
        case Err(e) => Err(e)
        case Ok(m) =>
          match CanonicalMeridian(m)
          case None => Ok(done)
          case Some(c) => Ok(done + [c])
  }

  /** The list `standardize_meridians` builds before removing duplicates. */
  function MeridianList(v: Value): Result<seq<string>>
  {
    if !Truthy(v) then Ok([])
    else
      match Iterated(v)
      case Err(e) => Err(e)
      case Ok(items) => CanonicalMeridians(items)
  }

  /** `standardize_meridians(v)`: the canonical list with duplicates removed.
      Python's `list(set(...))` has no fixed order; this model keeps first
      occurrences, and the lemmas below only use membership. */
  function StandardizedMeridians(v: Value): Result<seq<string>>
  {
    match MeridianList(v)
    case Err(e) => Err(e)
    case Ok(ms) => Ok(Dedup(ms))
  }

  /** Once a prefix of the elements raises, the whole loop raises the same error. */
  lemma {:induction false} CanonicalMeridiansErr(items: seq<Value>, n: nat)
    requires n <= |items|
    requires CanonicalMeridians(items[..n]).Err?
    ensures CanonicalMeridians(items) == CanonicalMeridians(items[..n])
    decreases |items| - n
  {
    if n < |items| {
      assert items[..n + 1][..n] == items[..n];
      CanonicalMeridiansErr(items, n + 1);
    } else {
      assert items[..n] == items;
    }
  }

  /** The `for key, value in table` scan: stops at the first key found in `m`. */
  method ScanAliases(table: seq<(string, string)>, m: string) returns (k: int)
    ensures k == FirstAlias(table, m)
  {
    k := 0;
    while k < |table|
      invariant 0 <= k <= |table|
      invariant forall j :: 0 <= j < k ==> !Contains(m, table[j].0)
    {
      if Contains(m, table[k].0) {
        return;
      }
      k := k + 1;
    }
    k := -1;
  }

  /** The body of the loop for one cleaned entry: the `endswith('经')` test,
      then the alias scan and its `else` branch. */
  method CanonicalizeEntry(m: string) returns (c: Option<string>)
    ensures c == CanonicalMeridian(m)
  {
    if EndsWith(m, "经") {
      return Some(m);
    }
    var k := ScanAliases(MeridianAliases, m);
    if k >= 0 {
      c := Some(MeridianAliases[k].1);
    } else if m != [] {
      c := Some(m);
    } else {
      c := None;
    }
  }

  /** The loop of `standardize_meridians` over the iterated elements. */
  method CanonicalizeAll(items: seq<Value>) returns (r: Result<seq<string>>)
    ensures r == CanonicalMeridians(items)
  {
    var standardized: seq<string> := [];
    var i := 0;
    while i < |items|
      invariant 0 <= i <= |items|
      invariant CanonicalMeridians(items[..i]) == Ok(standardized)
    {
      assert items[..i + 1][..i] == items[..i];
      var cleaned := CleanItem(items[i]);
      if cleaned.Err? {
        CanonicalMeridiansErr(items, i + 1);
        return Err(cleaned.error);
      }
      var c := CanonicalizeEntry(cleaned.value);
      if c.Some? {
        standardized := standardized + [c.value];
      }
      i := i + 1;
    }
    assert items[..i] == items;
    r := Ok(standardized);
  }

  method StandardizeMeridians(v: Value) returns (r: Result<seq<string>>)
    ensures r == StandardizedMeridians(v)
    ensures r.Ok? ==> NoDuplicates(r.value)
    ensures r.Ok? ==> forall x :: x in r.value <==> x in MeridianList(v).value
  {
    if !Truthy(v) {
      return Ok([]);
    }
    var it := Iterated(v);
    if it.Err? {
      return Err(it.error);
    }
    var standardized := CanonicalizeAll(it.value);
    if standardized.Err? {
      return Err(standardized.error);
    }
    var deduped := Dedup(standardized.value);
    forall x | x in standardized.value ensures x in deduped {
      var j :| 0 <= j < |standardized.value| && standardized.value[j] == x;
    }
    r := Ok(deduped);
  }

  /** The empty string contains no non-empty key. */
  lemma EmptyHasNoAlias(table: seq<(string, string)>)
    requires forall k :: 0 <= k < |table| ==> table[k].0 != []
    ensures FirstAlias(table, []) == -1
  {
  }

  /** Every value of the alias table ends in 经. */
  lemma AliasValuesEndInJing()
    ensures forall k :: 0 <= k < |MeridianAliases| ==> EndsWith(MeridianAliases[k].1, "经")
    ensures forall k :: 0 <= k < |MeridianAliases| ==> MeridianAliases[k].0 != []
  {
  }

  /** An entry contributes nothing exactly when it cleans to ""; otherwise it
      contributes a canonical 经 name, or itself when it contains no alias key. */
  lemma CanonicalMeridianShape(m: string)
    ensures CanonicalMeridian(m).None? <==> m == []
    ensures CanonicalMeridian(m).Some? ==>
      var c := CanonicalMeridian(m).value;
      MeridianShaped(c) && (EndsWith(c, "经") || c == m)
  {
    if m == [] {
      AliasValuesEndInJing();
      EmptyHasNoAlias(MeridianAliases);
    }
    if !EndsWith(m, "经") {
      var k := FirstAlias(MeridianAliases, m);
      if k >= 0 {
        AliasValuesEndInJing();
        assert EndsWith(MeridianAliases[k].1, "经");
      } else {
        assert NoAliasKey(m);
      }
    }
  }

  /** Because '心' comes before '心包' in the table, the 心包 alias can never be
      the first match: an entry naming the pericardium maps to 心经. */
  lemma PericardiumAliasShadowed(m: string)
    ensures FirstAlias(MeridianAliases, m) != 8
  {
    var k := FirstAlias(MeridianAliases, m);
    if k == 8 {
      assert Contains(m, "心包");
      assert Contains("心包", "心") by {
        assert StartsWith("心包", "心");
      }
      ContainsPiece(m, "心包", "心");
    }
  }

  /** No alias key occurs in `m`. */
  predicate NoAliasKey(m: string)
  {
    forall k :: 0 <= k < |MeridianAliases| ==> !Contains(m, MeridianAliases[k].0)
  }

  /** A non-empty name that ends in 经 or has no alias key in it. */
  predicate MeridianShaped(c: string)
  {
    c != [] && (EndsWith(c, "经") || NoAliasKey(c))
  }

  /** Every entry of the standardised list is non-empty and either ends in 经
      or is a cleaned entry in which no alias key occurs. */
  lemma {:induction false} CanonicalMeridiansShape(items: seq<Value>)
    requires CanonicalMeridians(items).Ok?
    ensures forall i :: 0 <= i < |CanonicalMeridians(items).value| ==>
      MeridianShaped(CanonicalMeridians(items).value[i])
    decreases |items|
  {
    if items != [] {
      var prefix := items[..|items| - 1];
      CanonicalMeridiansShape(prefix);
      var m := CleanItem(items[|items| - 1]).value;
      CanonicalMeridianShape(m);
    }
  }

  /** `standardize_meridians` of a falsy value is [], and otherwise each
      canonical name appears exactly once. */
  lemma StandardizedMeridiansSet(v: Value)
    ensures !Truthy(v) ==> StandardizedMeridians(v) == Ok([])
    ensures StandardizedMeridians(v).Ok? ==>
      NoDuplicates(StandardizedMeridians(v).value) &&
      forall x :: x in StandardizedMeridians(v).value <==> x in MeridianList(v).value
  {
    if StandardizedMeridians(v).Ok? {
      var ms := MeridianList(v).value;
      var d := Dedup(ms);
      forall x | x in ms ensures x in d {
        var j :| 0 <= j < |ms| && ms[j] == x;
      }
    }
  }

  // ---------------------------------------------------------------------------
  // Prescriptions

  /** A non-empty string with no whitespace at its ends and only plain spaces. */
  predicate CleanEntry(s: string)
  {
    s != [] && NoEdgeSpace(s) && PlainSpaces(s)
  }

  /** An item the loop keeps: a non-empty string that does not clean to "". */
  predicate KeptPrescription(x: Value)
  {
    x.Str? && x.s != [] && CleanText(x.s) != []
  }

  /** `clean_text` of a string item. */
  function CleanedItem(x: Value): string
  {
    if x.Str? then CleanText(x.s) else []
  }

  /** The `cleaned` list after the loop has visited `items`: non-empty strings
      only, each through `clean_text`, dropping those that clean to "". */
  function CleanedPrescriptions(items: seq<Value>): (r: seq<string>)
    ensures |r| <= |items|
    ensures forall i :: 0 <= i < |r| ==> CleanEntry(r[i])
  {
    FilterMapAll(items, KeptPrescription, CleanedItem, CleanEntry);
    FilterMap(items, KeptPrescription, CleanedItem)
  }

  /** Every kept item's cleaned text is in the list and nothing else is, and
      the list is built item by item, so order and repetitions follow the
      input. */
  lemma CleanedPrescriptionsMeaning(items: seq<Value>, more: seq<Value>)
    ensures forall i :: 0 <= i < |items| && KeptPrescription(items[i]) ==>
      CleanText(items[i].s) in CleanedPrescriptions(items)
    ensures forall u :: u in CleanedPrescriptions(items) ==>
      exists i :: 0 <= i < |items| && KeptPrescription(items[i]) && u == CleanText(items[i].s)
    ensures CleanedPrescriptions(items + more) == CleanedPrescriptions(items) + CleanedPrescriptions(more)
    ensures |more| == 1 ==>
      CleanedPrescriptions(more) == if KeptPrescription(more[0]) then [CleanText(more[0].s)] else []
  {
    FilterMapMembers(items, KeptPrescription, CleanedItem);
    FilterMapAppend(items, more, KeptPrescription, CleanedItem);
  }

  lemma PrescriptionsStep(items: seq<Value>, i: nat, kept: bool, c: string)
    requires i < |items|
    requires kept == KeptPrescription(items[i])
    requires kept ==> c == CleanText(items[i].s)
    ensures CleanedPrescriptions(items[..i + 1]) == CleanedPrescriptions(items[..i]) + (if kept then [c] else [])
  {
    FilterMapStep(items, i, KeptPrescription, CleanedItem);
  }

  /** `clean_prescriptions(v)`: [] unless `v` is a non-empty list. */
  function PrescriptionsOf(v: Value): (r: seq<string>)
    ensures !Truthy(v) || !v.List? ==> r == []
    ensures v.List? ==> |r| <= |v.items|
    ensures forall i :: 0 <= i < |r| ==> CleanEntry(r[i])
  {
    if Truthy(v) && v.List? then CleanedPrescriptions(v.items) else []
  }

  method CleanPrescriptions(v: Value) returns (r: seq<string>)
    ensures r == PrescriptionsOf(v)
  {
    if !Truthy(v) || !v.List? {
      return [];
    }
    var items := v.items;
    var cleaned: seq<string> := [];
    var i := 0;
    while i < |items|
      invariant 0 <= i <= |items|
      invariant cleaned == CleanedPrescriptions(items[..i])
    {
      var x := items[i];
      if x.Str? && x.s != [] {
        var c := CleanText(x.s);
        if c != [] {
          PrescriptionsStep(items, i, true, c);
          cleaned := cleaned + [c];
        } else {
          PrescriptionsStep(items, i, false, c);
        }
      } else {
        PrescriptionsStep(items, i, false, "");
      }
      i := i + 1;
    }
    assert items[..i] == items;
    r := cleaned;
  }

  // ---------------------------------------------------------------------------
  // Image URLs

  const ImageExtensions: seq<string> := [".jpg", ".jpeg", ".png", ".gif", ".webp", ".bmp", ".svg"]
  const ImageKeywords: seq<string> := ["image", "img", "photo", "pic", "thumb"]

  /** `s.split('?')[0]`: everything before the first '?'. */
  function BeforeQuery(s: string): (r: string)
    ensures Lacks(r, '?')
    ensures |r| <= |s| && r == s[..|r|]
    ensures |r| < |s| ==> s[|r|] == '?'
  {
    var k := IndexOf(s, '?');
    if k < 0 then s else s[..k]
  }

  /** `is_valid_image_url`: an http(s) URL whose lower-cased path (before any
      query) ends in an image extension, or whose lower-cased text names an
      image keyword anywhere. */
  predicate IsValidImageUrl(url: string)
  {
    && url != []
    && (StartsWith(url, "http://") || StartsWith(url, "https://"))
    && (HasImageExtension(BeforeQuery(Lower(url))) || HasImageKeyword(Lower(url)))
  }

  /** `any(path.endswith(ext) for ext in valid_extensions)`. */
  predicate HasImageExtension(path: string)
  {
    exists k :: 0 <= k < |ImageExtensions| && EndsWith(path, ImageExtensions[k])
  }

  /** `any(keyword in url for keyword in ...)`. */
  predicate HasImageKeyword(url: string)
  {
    exists k :: 0 <= k < |ImageKeywords| && Contains(url, ImageKeywords[k])
  }

  /** A URL `clean_image_urls` keeps: valid and already stripped. */
  predicate GoodImageUrl(url: string)
  {
    IsValidImageUrl(url) && NoEdgeSpace(url)
  }

  /** Lower-casing never produces a '?' from another character. */
  lemma LowerLacksQuery(s: string)
    requires Lacks(s, '?')
    ensures Lacks(Lower(s), '?')
  {
  }

  /** A query string never hides an image extension: an http(s) URL without a
      '?' whose lower-cased form ends in a listed extension stays valid with any
      query appended. */
  lemma ImageUrlQueryIgnored(base: string, query: string, k: nat)
    requires StartsWith(base, "http://") || StartsWith(base, "https://")
    requires Lacks(base, '?')
    requires k < |ImageExtensions| && EndsWith(Lower(base), ImageExtensions[k])
    ensures IsValidImageUrl(base + "?" + query)
    ensures HasImageExtension(BeforeQuery(Lower(base + "?" + query)))
  {
    var url := base + "?" + query;
    LowerBeforeQuery(base, query);
    assert url[..|base|] == base;
    assert StartsWith(url, "http://") || StartsWith(url, "https://");
  }

  /** The part before the first '?' ends where a '?' follows a '?'-free prefix. */
  lemma BeforeQueryAt(s: string, k: nat)
    requires k < |s| && s[k] == '?' && Lacks(s[..k], '?')
    ensures BeforeQuery(s) == s[..k]
  {
  }

  /** The path the extension test sees is the lower-cased part before the
      first '?'. */
  lemma LowerBeforeQuery(base: string, query: string)
    requires Lacks(base, '?')
    ensures BeforeQuery(Lower(base + "?" + query)) == Lower(base)
  {
    var url := base + "?" + query;
    var s := Lower(url);
    assert url[|base|] == '?';
    assert s[|base|] == '?';
    assert s[..|base|] == Lower(base);
    LowerLacksQuery(base);
    BeforeQueryAt(s, |base|);
  }

  /** An element the loop keeps: a non-empty string valid once stripped. */
  predicate KeptUrl(x: Value)
  {
    x.Str? && x.s != [] && IsValidImageUrl(Strip(x.s))
  }

  /** `img_url.strip()` of a string item. */
  function StrippedItem(x: Value): string
  {
    if x.Str? then Strip(x.s) else []
  }

  /** The `cleaned_images` list after the loop has visited `items`: the
      stripped non-empty strings that pass `is_valid_image_url`. */
  function ValidImageUrls(items: seq<Value>): (r: seq<string>)
    ensures |r| <= |items|
    ensures forall i :: 0 <= i < |r| ==> GoodImageUrl(r[i])
  {
    FilterMapAll(items, KeptUrl, StrippedItem, GoodImageUrl);
    FilterMap(items, KeptUrl, StrippedItem)
  }

  /** Every kept item's stripped URL is in the list and nothing else is, and
      the list is built item by item, so order and repetitions follow the
      input. */
  lemma ValidImageUrlsMeaning(items: seq<Value>, more: seq<Value>)
    ensures forall i :: 0 <= i < |items| && KeptUrl(items[i]) ==> Strip(items[i].s) in ValidImageUrls(items)
    ensures forall u :: u in ValidImageUrls(items) ==>
      exists i :: 0 <= i < |items| && KeptUrl(items[i]) && u == Strip(items[i].s)
    ensures ValidImageUrls(items + more) == ValidImageUrls(items) + ValidImageUrls(more)
    ensures |more| == 1 ==>
      ValidImageUrls(more) == if KeptUrl(more[0]) then [Strip(more[0].s)] else []
  {
    FilterMapMembers(items, KeptUrl, StrippedItem);
    FilterMapAppend(items, more, KeptUrl, StrippedItem);
  }

  lemma ValidImageUrlsStep(items: seq<Value>, i: nat, kept: bool, url: string)
    requires i < |items|
    requires kept == KeptUrl(items[i])
    requires kept ==> url == Strip(items[i].s)
    ensures ValidImageUrls(items[..i + 1]) == ValidImageUrls(items[..i]) + (if kept then [url] else [])
  {
    FilterMapStep(items, i, KeptUrl, StrippedItem);
  }

  /** `clean_image_urls(v)`: [] unless `v` is a non-empty list, then the valid
      URLs with duplicates removed, first occurrence kept. */
  function ImageUrlsOf(v: Value): (r: seq<string>)
    ensures !Truthy(v) || !v.List? ==> r == []
    ensures NoDuplicates(r)
    ensures forall i :: 0 <= i < |r| ==> GoodImageUrl(r[i])
    ensures Truthy(v) && v.List? ==> forall u :: u in r <==> u in ValidImageUrls(v.items)
    ensures Truthy(v) && v.List? ==> forall i, j :: 0 <= i < j < |r| ==>
      FirstIndex(ValidImageUrls(v.items), r[i]) < FirstIndex(ValidImageUrls(v.items), r[j])
  {
    if Truthy(v) && v.List? then
      var urls := ValidImageUrls(v.items);
      DedupKeeps(urls, GoodImageUrl);
      Dedup(urls)
    else []
  }

  /** The `for url in image_urls` loop: the valid URLs, in order. */
  method CollectImageUrls(items: seq<Value>) returns (cleaned: seq<string>)
    ensures cleaned == ValidImageUrls(items)
  {
    cleaned := [];
    var i := 0;
    while i < |items|
      invariant 0 <= i <= |items|
      invariant cleaned == ValidImageUrls(items[..i])
    {
      var x := items[i];
      if x.Str? && x.s != [] {
        var url := Strip(x.s);
        if IsValidImageUrl(url) {
          ValidImageUrlsStep(items, i, true, url);
          cleaned := cleaned + [url];
        } else {
          ValidImageUrlsStep(items, i, false, url);
        }
      } else {
        ValidImageUrlsStep(items, i, false, "");
      }
      i := i + 1;
    }
    assert items[..i] == items;
  }

  method CleanImageUrls(v: Value) returns (r: seq<string>)
    ensures r == ImageUrlsOf(v)
    ensures NoDuplicates(r)
    ensures forall i :: 0 <= i < |r| ==> GoodImageUrl(r[i])
    ensures Truthy(v) && v.List? ==> forall u :: u in r <==> u in ValidImageUrls(v.items)
    ensures Truthy(v) && v.List? ==> forall i, j :: 0 <= i < j < |r| ==>
      FirstIndex(ValidImageUrls(v.items), r[i]) < FirstIndex(ValidImageUrls(v.items), r[j])
  {
    if !Truthy(v) || !v.List? {
      return [];
    }
    var cleaned := CollectImageUrls(v.items);
    r := Dedup(cleaned);
  }

  // ---------------------------------------------------------------------------
  // Record validation

  const RequiredFields: seq<string> := ["id", "name"]

  /** The `for field in required_fields` loop: every listed field is present
      and truthy. */
  function HasFields(record: Record, fields: seq<string>): (ok: bool)
    ensures ok <==> forall k :: 0 <= k < |fields| ==> fields[k] in record && Truthy(record[fields[k]])
    decreases |fields|
  {
    if fields == [] then true
    else if fields[0] !in record || !Truthy(record[fields[0]]) then false
    else HasFields(record, fields[1..])
  }

  /** `validate_herbal_data`: both 'id' and 'name' present and truthy, so an
      id of 0 or an empty name fails. */
  function ValidateHerbalData(record: Record): (ok: bool)
    ensures ok <==> "id" in record && Truthy(record["id"]) && "name" in record && Truthy(record["name"])
  {
    var ok := HasFields(record, RequiredFields);
    assert RequiredFields[0] == "id" && RequiredFields[1] == "name";
    ok
  }

  // ---------------------------------------------------------------------------
  // One record

  /** The fields cleaned as text, in the order the list declares them. */
  const TextFields: seq<string> := [
    "name", "pinyin", "category", "taste", "contraindications", "morphology",
    "medicinal_part", "distribution", "processing", "characteristics",
    "pharmacology", "main_components", "clinical_application"]

  /** Fields the record pass rewrites after the text fields. */
  predicate ListField(f: string)
  {
    f == "meridians" || f == "prescriptions" || f == "images"
  }

  lemma TextFieldsDistinct()
    ensures NoDuplicates(TextFields)
  {
  }

  /** The text fields are not the list fields, and 'dosage' is none of them. */
  lemma TextFieldsNotLists()
    ensures "meridians" !in TextFields && "prescriptions" !in TextFields && "images" !in TextFields
    ensures "dosage" !in TextFields && "pinyin" in TextFields
  {
  }

  /** `clean_text(str(v))`. */
  function CleanField(v: Value): Value
  {
    Str(CleanText(PyStr(v)))
  }

  /** The record after the text-field loop: listed fields that are present
      are cleaned, nothing is added. */
  function CleanedFields(h: Record): (t: Record)
    ensures t.Keys == h.Keys
    ensures forall f :: f in h && f !in TextFields ==> t[f] == h[f]
  {
    map f | f in h :: if f in TextFields then CleanField(h[f]) else h[f]
  }

  /** `record[key] = v` when the key is present; every other entry stays. */
  function SetIfPresent(r: Record, key: string, v: Value): (q: Record)
    ensures q.Keys == r.Keys
    ensures forall f :: f in r && f != key ==> q[f] == r[f]
    ensures key in r ==> q[key] == v
  {
    if key in r then r[key := v] else r
  }

  /** The pinyin step: `standardize_pinyin` of the already cleaned value. */
  function PinyinStep(t: Record): (p: Record)
    ensures p.Keys == t.Keys
    ensures forall f :: f in t && f != "pinyin" ==> p[f] == t[f]
    ensures "pinyin" in t ==> p["pinyin"] == Str(StandardizePinyin(PyStr(t["pinyin"])))
  {
    if "pinyin" in t then SetIfPresent(t, "pinyin", Str(StandardizePinyin(PyStr(t["pinyin"])))) else t
  }

  /** The prescriptions and images steps, which cannot fail. */
  function CleanLists(p: Record): (q: Record)
    ensures q.Keys == p.Keys
    ensures forall f :: f in p && f != "prescriptions" && f != "images" ==> q[f] == p[f]
    ensures "prescriptions" in p ==> q["prescriptions"] == List(Strs(PrescriptionsOf(p["prescriptions"])))
    ensures "images" in p ==> q["images"] == List(Strs(ImageUrlsOf(p["images"])))
  {
    var q := if "prescriptions" in p then SetIfPresent(p, "prescriptions", List(Strs(PrescriptionsOf(p["prescriptions"])))) else p;
    if "images" in q then SetIfPresent(q, "images", List(Strs(ImageUrlsOf(q["images"])))) else q
  }

  /** The meridian step, the only one that can raise. */
  function MeridianStep(p: Record): (r: Result<Record>)
    ensures r.Ok? ==> r.value.Keys == p.Keys
    ensures r.Ok? ==> forall f :: f in p && f != "meridians" ==> r.value[f] == p[f]
    ensures r.Err? <==> "meridians" in p && StandardizedMeridians(p["meridians"]).Err?
    ensures r.Ok? && "meridians" in p ==>
      r.value["meridians"] == List(Strs(StandardizedMeridians(p["meridians"]).value))
  {
    if "meridians" in p then
      match StandardizedMeridians(p["meridians"])
      case Err(e) => Err(e)
      case Ok(ms) => Ok(SetIfPresent(p, "meridians", List(Strs(ms))))
    else Ok(p)
  }

  /** `process_single_herbal(h)`: text fields cleaned, pinyin standardised,
      then meridians, prescriptions and images rewritten when present. No
      field is added, only the meridian step can raise, and every other
      field keeps its loaded value. */
  function ProcessedRecord(h: Record): (r: Result<Record>)
    ensures r.Ok? ==> r.value.Keys == h.Keys
    ensures r.Err? <==> "meridians" in h && StandardizedMeridians(h["meridians"]).Err?
    ensures r.Ok? ==> forall f :: f in h && f !in TextFields && !ListField(f) ==> r.value[f] == h[f]
  {
    TextFieldsNotLists();
    match MeridianStep(PinyinStep(CleanedFields(h)))
    case Err(e) => Err(e)
    case Ok(m) => Ok(CleanLists(m))
  }

  /** 'dosage' is neither a text field nor a list field: the record pass
      leaves it exactly as loaded. */
  lemma ProcessedRecordKeepsDosage(h: Record)
    requires "dosage" in h && ProcessedRecord(h).Ok?
    ensures "dosage" in ProcessedRecord(h).value && ProcessedRecord(h).value["dosage"] == h["dosage"]
  {
    TextFieldsNotLists();
  }

  /** Every text field other than pinyin ends up a cleaned string. */
  lemma ProcessedRecordTextClean(h: Record, f: string)
    requires f in h && f in TextFields && f != "pinyin" && ProcessedRecord(h).Ok?
    ensures ProcessedRecord(h).value[f] == Str(CleanText(PyStr(h[f])))
  {
    TextFieldsNotLists();
    var t := CleanedFields(h);
    assert t[f] == CleanField(h[f]);
    var p := PinyinStep(t);
    var m := MeridianStep(p).value;
    assert m[f] == t[f];
  }

  /** The rewritten fields: pinyin is the cleaned text put through
      `standardize_pinyin`, and meridians, prescriptions and images are the
      standardised lists of the loaded values. */
  lemma ProcessedRecordLists(h: Record)
    requires ProcessedRecord(h).Ok?
    ensures "pinyin" in h ==>
      ProcessedRecord(h).value["pinyin"] == Str(StandardizePinyin(CleanText(PyStr(h["pinyin"]))))
    ensures "meridians" in h ==>
      ProcessedRecord(h).value["meridians"] == List(Strs(StandardizedMeridians(h["meridians"]).value))
    ensures "prescriptions" in h ==>
      ProcessedRecord(h).value["prescriptions"] == List(Strs(PrescriptionsOf(h["prescriptions"])))
    ensures "images" in h ==>
      ProcessedRecord(h).value["images"] == List(Strs(ImageUrlsOf(h["images"])))
  {
    TextFieldsNotLists();
    var t := CleanedFields(h);
    var p := PinyinStep(t);
    var m := MeridianStep(p).value;
    if "pinyin" in h {
      assert t["pinyin"] == CleanField(h["pinyin"]);
      assert m["pinyin"] == p["pinyin"];
    }
    if "meridians" in h {
      assert p["meridians"] == h["meridians"];
    }
    if "prescriptions" in h {
      assert m["prescriptions"] == h["prescriptions"];
    }
    if "images" in h {
      assert m["images"] == h["images"];
    }
  }

  /** The `for field in text_fields` loop. */
  method CleanTextFields(h: Record) returns (processed: Record)
    ensures processed == CleanedFields(h)
  {
    TextFieldsDistinct();
    processed := h;
    var i := 0;
    while i < |TextFields|
      invariant 0 <= i <= |TextFields|
      invariant processed.Keys == h.Keys
      invariant forall f :: f in h ==> processed[f] == if f in TextFields[..i] then CleanField(h[f]) else h[f]
    {
      var field := TextFields[i];
      if field in processed {
        assert field !in TextFields[..i];
        processed := processed[field := CleanField(processed[field])];
      }
      assert TextFields[..i + 1] == TextFields[..i] + [field];
      i := i + 1;
    }
    assert TextFields[..i] == TextFields;
  }

  method ProcessSingleHerbal(h: Record) returns (r: Result<Record>)
    ensures r == ProcessedRecord(h)
  {
    var processed := CleanTextFields(h);
    if "pinyin" in processed {
      processed := processed["pinyin" := Str(StandardizePinyin(PyStr(processed["pinyin"])))];
    }
    assert processed == PinyinStep(CleanedFields(h));
    if "meridians" in processed {
      var ms := StandardizeMeridians(processed["meridians"]);
      if ms.Err? {
        return Err(ms.error);
      }
      processed := processed["meridians" := List(Strs(ms.value))];
    }
    assert MeridianStep(PinyinStep(CleanedFields(h))) == Ok(processed);
    if "prescriptions" in processed {
      var ps := CleanPrescriptions(processed["prescriptions"]);
      processed := processed["prescriptions" := List(Strs(ps))];
    }
    if "images" in processed {
      var urls := CleanImageUrls(processed["images"]);
      processed := processed["images" := List(Strs(urls))];
    }
    r := Ok(processed);
  }

  // ---------------------------------------------------------------------------
  // All records

  /** The elements of `data` that `keep` accepts, in input order: an
      order-keeping subsequence holding every accepted element and no
      rejected one. */
  function Filtered<T>(data: seq<T>, keep: T -> bool): (r: seq<T>)
    ensures |r| <= |data|
    ensures forall i :: 0 <= i < |r| ==> keep(r[i]) && r[i] in data
    ensures forall i :: 0 <= i < |data| && keep(data[i]) ==> data[i] in r
    ensures IsSubsequence(r, data)
    decreases |data|
  {
    if data == [] then []
    else
      var pre := data[..|data| - 1];
      var done := Filtered(pre, keep);
      var last := data[|data| - 1];
      assert data == pre + [last];
      if keep(last) then
        SubsequenceSnoc(done, pre, last);
        done + [last]
      else
        SubsequenceExtend(done, pre, last);
        done
  }

  /** An accepted element occurs in the output exactly as often as in the
      input, a rejected one not at all. */
  lemma {:induction false} FilteredCount<T>(data: seq<T>, keep: T -> bool, x: T)
    ensures multiset(Filtered(data, keep))[x] == if keep(x) then multiset(data)[x] else 0
    decreases |data|
  {
    if data != [] {
      var pre := data[..|data| - 1];
      var last := data[|data| - 1];
      assert data == pre + [last];
      FilteredCount(pre, keep, x);
    }
  }

  /** `proc` applied to each element `keep` accepts, in order; the first
      failure ends the run. */
  function RunKept<T, U>(data: seq<T>, keep: T -> bool, proc: T -> Result<U>): Result<seq<U>>
    decreases |data|
  {
    if data == [] then Ok([])
    else
      var last := data[|data| - 1];
      match RunKept(data[..|data| - 1], keep, proc)
      case Err(e) => Err(e)
      case Ok(done) =>
        if !keep(last) then Ok(done)
        else
          match proc(last)
          case Err(e) => Err(e)
          case Ok(p) => Ok(done + [p])
  }

  /** One more iteration of the record loop, stated over the outcome of
      `keep` and `proc` for the new element. */
  lemma RunKeptStep<T, U>(data: seq<T>, i: nat, keep: T -> bool, proc: T -> Result<U>,
                          done: seq<U>, kept: bool, p: Result<U>)
    requires i < |data| && RunKept(data[..i], keep, proc) == Ok(done)
    requires kept == keep(data[i]) && (kept ==> p == proc(data[i]))
    ensures RunKept(data[..i + 1], keep, proc) ==
      if !kept then Ok(done) else if p.Err? then Err(p.error) else Ok(done + [p.value])
  {
    assert data[..i + 1][..i] == data[..i];
  }

  lemma {:induction false} RunKeptValid<T, U>(data: seq<T>, keep: T -> bool, proc: T -> Result<U>)
    requires RunKept(data, keep, proc).Ok?
    ensures |RunKept(data, keep, proc).value| == |Filtered(data, keep)|
    ensures forall i :: 0 <= i < |Filtered(data, keep)| ==>
      proc(Filtered(data, keep)[i]) == Ok(RunKept(data, keep, proc).value[i])
    decreases |data|
  {
    if data != [] {
      var pre := data[..|data| - 1];
      var last := data[|data| - 1];
      RunKeptValid(pre, keep, proc);
    }
  }

  lemma {:induction false} RunKeptSucceeds<T, U>(data: seq<T>, keep: T -> bool, proc: T -> Result<U>)
    requires forall i :: 0 <= i < |data| && keep(data[i]) ==> proc(data[i]).Ok?
    ensures RunKept(data, keep, proc).Ok?
    decreases |data|
  {
    if data != [] {
      var prefix := data[..|data| - 1];
      assert forall i :: 0 <= i < |prefix| ==> prefix[i] == data[i];
      RunKeptSucceeds(prefix, keep, proc);
    }
  }

  lemma {:induction false} RunKeptErr<T, U>(data: seq<T>, n: nat, keep: T -> bool, proc: T -> Result<U>)
    requires n <= |data|
    requires RunKept(data[..n], keep, proc).Err?
    ensures RunKept(data, keep, proc) == RunKept(data[..n], keep, proc)
    decreases |data| - n
  {
    if n < |data| {
      assert data[..n + 1][..n] == data[..n];
      RunKeptErr(data, n + 1, keep, proc);
    } else {
      assert data[..n] == data;
    }
  }

  /** The records `validate_herbal_data` accepts, in input order. */
  function ValidRecords(data: seq<Record>): (r: seq<Record>)
    ensures |r| <= |data|
    ensures forall i :: 0 <= i < |r| ==> ValidateHerbalData(r[i]) && r[i] in data
    ensures forall i :: 0 <= i < |data| && ValidateHerbalData(data[i]) ==> data[i] in r
    ensures IsSubsequence(r, data)
  {
    Filtered(data, ValidateHerbalData)
  }

  /** A valid record is kept as often as it occurs, an invalid one never. */
  lemma ValidRecordsCount(data: seq<Record>, x: Record)
    ensures multiset(ValidRecords(data))[x] == if ValidateHerbalData(x) then multiset(data)[x] else 0
  {
    FilteredCount(data, ValidateHerbalData, x);
  }

  /** The `processed_data` list of `process_all_data`: each valid record
      processed, invalid ones skipped; an exception while processing a valid
      record ends the run. */
  function ProcessedAll(data: seq<Record>): Result<seq<Record>>
  {
    RunKept(data, ValidateHerbalData, ProcessedRecord)
  }

  /** The output is exactly the valid records, in order, each processed. */
  lemma ProcessedAllValid(data: seq<Record>)
    requires ProcessedAll(data).Ok?
    ensures |ProcessedAll(data).value| == |ValidRecords(data)| <= |data|
    ensures forall i :: 0 <= i < |ValidRecords(data)| ==>
      ProcessedRecord(ValidRecords(data)[i]) == Ok(ProcessedAll(data).value[i])
  {
    RunKeptValid(data, ValidateHerbalData, ProcessedRecord);
  }

  /** The run succeeds whenever every valid record can be processed. */
  predicate AllProcessable(data: seq<Record>)
  {
    forall i :: 0 <= i < |data| && ValidateHerbalData(data[i]) ==> ProcessedRecord(data[i]).Ok?
  }

  lemma ProcessedAllSucceeds(data: seq<Record>)
    requires AllProcessable(data)
    ensures ProcessedAll(data).Ok?
  {
    RunKeptSucceeds(data, ValidateHerbalData, ProcessedRecord);
  }

  lemma ProcessedAllErr(data: seq<Record>, n: nat)
    requires n <= |data|
    requires ProcessedAll(data[..n]).Err?
    ensures ProcessedAll(data) == ProcessedAll(data[..n])
  {
    RunKeptErr(data, n, ValidateHerbalData, ProcessedRecord);
  }

  /** The filtering loop of `process_all_data`; loading and saving are not
      part of the model. */
  method ProcessAllData(data: seq<Record>) returns (r: Result<seq<Record>>)
    ensures r == ProcessedAll(data)
  {
    if data == [] {
      return Ok([]);
    }
    var processedData: seq<Record> := [];
    var i := 0;
    while i < |data|
      invariant 0 <= i <= |data|
      invariant ProcessedAll(data[..i]) == Ok(processedData)
    {
      var next := VisitRecord(data, i, processedData);
      if next.Err? {
        ProcessedAllErr(data, i + 1);
        return next;
      }
      processedData := next.value;
      i := i + 1;
    }
    assert data[..i] == data;
    r := Ok(processedData);
  }

  /** The body of the record loop: a valid record is processed and appended,
      an invalid one skipped. */
  method VisitRecord(data: seq<Record>, i: nat, processedData: seq<Record>) returns (r: Result<seq<Record>>)
    requires i < |data| && ProcessedAll(data[..i]) == Ok(processedData)
    ensures r == ProcessedAll(data[..i + 1])
  {
    if ValidateHerbalData(data[i]) {
      var p := ProcessSingleHerbal(data[i]);
      RunKeptStep(data, i, ValidateHerbalData, ProcessedRecord, processedData, true, p);
      if p.Err? {
        return Err(p.error);
      }
      r := Ok(processedData + [p.value]);
    } else {
      RunKeptStep(data, i, ValidateHerbalData, ProcessedRecord, processedData, false, Ok(map[]));
      r := Ok(processedData);
    }
  }
}
