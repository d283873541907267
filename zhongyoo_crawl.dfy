/** The zhongyoo.com crawler (zhongyoo_crawler.py) around its text tests: the
    decode loop of `get_page`, the category links, the record a detail page
    gives, and the crawler object whose `herbal_data`, `current_id` and saved
    checkpoints advance as categories are crawled. The fetched pages are
    given as the values the page's regular expressions and DOM queries
    produce; the site is given as two functions, the herb list of a category
    and the parsed page of a herb (`None` when fetching fails). */
module ZhongyooCrawl {
  import opened Wrappers
  import opened Strings
  import opened ZhongyooText

  // ---------------------------------------------------------------------------
  // `get_page`: the decode loop

  /** The body of `get_page` after the fetch: tries the listed encodings in
      order, then detection, then the lossy decode. */
  method GetPageText(decode: Decoder, detected: Detection, lossy: string) returns (text: string)
    ensures text == DecodeCascade(decode, detected, lossy)
  {
    var i := 0;
    while i < |Encodings|
      invariant 0 <= i <= |Encodings|
      invariant FirstValidDecode(Encodings, decode) == FirstValidDecode(Encodings[i..], decode)
    {
      var d := decode(Encodings[i]);
      if d.Some? && IsValidChineseText(d.value) {
        return d.value;
      }
      assert Encodings[i..][1..] == Encodings[i + 1..];
      i := i + 1;
    }
    var e := detected.encoding;
    if e.Some? && e.value != "" && detected.confidence > 0.5 {
      var d := decode(e.value);
      if d.Some? {
        return d.value;
      }
    }
    return lossy;
  }

  // ---------------------------------------------------------------------------
  // `parse_category_page`

  /** An anchor of the category page: its href, its stripped text and the
      absolute URL `urljoin` makes of the href. */
  datatype Link = Link(href: string, text: string, url: string)

  datatype Category = Category(name: string, url: string)

  /** What follows '/gx/' in a category href: one non-empty segment without
      '/', then '/' at the end or just before a final newline (where `$`
      also matches). */
  predicate SegmentTail(t: string)
  {
    || (|t| >= 2 && t[|t| - 1] == '/' && '/' !in t[..|t| - 1])
    || (|t| >= 3 && t[|t| - 2..] == "/\n" && '/' !in t[..|t| - 2])
  }

  /** A match of `/gx/[^/]+/$` starts at `i`. */
  predicate CategoryHrefAt(href: string, i: int)
  {
    0 <= i <= |href| - 4 && href[i..i + 4] == "/gx/" && SegmentTail(href[i + 4..])
  }

  /** The href passes `re.compile(r'/gx/[^/]+/$')`. */
  predicate CategoryHref(href: string)
  {
    exists i :: 0 <= i <= |href| - 4 && CategoryHrefAt(href, i)
  }

  /** The first pass: category hrefs whose text is neither empty nor one of
      the navigation words. */
  function PrimaryCategories(links: seq<Link>): (r: seq<Category>)
    ensures |r| <= |links|
    ensures forall k :: 0 <= k < |r| ==> r[k].name != "" && r[k].name != "首页" && r[k].name != "更多"
  {
    if links == [] then []
    else
      var l := links[0];
      (if CategoryHref(l.href) && l.text != "" && l.text != "首页" && l.text != "更多"
       then [Category(l.text, l.url)] else [])
      + PrimaryCategories(links[1..])
  }

  /** The second pass, over every anchor: an href mentioning '/gx/' and
      ending in '/', a text of 2 to 9 characters, and a URL not taken yet. */
  function FallbackCategories(links: seq<Link>, seen: set<string>): (r: seq<Category>)
    ensures |r| <= |links|
    ensures forall k :: 0 <= k < |r| ==> 1 < |r[k].name| < 10 && r[k].url !in seen
    ensures forall j, k :: 0 <= j < k < |r| ==> r[j].url != r[k].url
  {
    if links == [] then []
    else
      var l := links[0];
      if Contains(l.href, "/gx/") && EndsWith(l.href, "/") && 1 < |l.text| < 10 && l.url !in seen
      then [Category(l.text, l.url)] + FallbackCategories(links[1..], seen + {l.url})
      else FallbackCategories(links[1..], seen)
  }

  /** `parse_category_page`: the first pass, or the second when the first
      finds nothing. Every category has a non-empty name. */
  function CategoriesOf(links: seq<Link>): (r: seq<Category>)
    ensures forall k :: 0 <= k < |r| ==> r[k].name != ""
  {
    var primary := PrimaryCategories(links);
    if primary != [] then primary else FallbackCategories(links, {})
  }

  /** The navigation words are refused only by the first pass: when it finds
      nothing, a '首页' anchor under '/gx/' is taken as a category. */
  lemma HomeLinkAdmittedByFallback(l: Link)
    requires l.text == "首页" && Contains(l.href, "/gx/") && EndsWith(l.href, "/")
    ensures CategoriesOf([l]) == [Category("首页", l.url)]
  {
    assert PrimaryCategories([l]) == [] + PrimaryCategories([]);
  }

  /** When the first pass finds categories, none of them is a navigation
      word; in either pass no category URL repeats in the second. */
  lemma CategoriesOfMeaning(links: seq<Link>)
    ensures PrimaryCategories(links) != [] ==>
      forall k :: 0 <= k < |CategoriesOf(links)| ==>
        CategoriesOf(links)[k].name != "首页" && CategoriesOf(links)[k].name != "更多"
    ensures PrimaryCategories(links) == [] ==>
      forall j, k :: 0 <= j < k < |CategoriesOf(links)| ==> CategoriesOf(links)[j].url != CategoriesOf(links)[k].url
  {
  }

  // ---------------------------------------------------------------------------
  // The record of a detail page

  datatype HerbItem = HerbItem(name: string, url: string, category: string)

  /** A section captured by one of the page's patterns: the captured text,
      what the source's removal patterns leave of it once stripped, and (for
      the indications) the dosage its dosage patterns extract. */
  datatype Capture = Capture(raw: string, cleaned: string, dosage: string)

  /** An `<img>` tag: src ("" when missing), the width and height
      attributes, the main-image verdict and the absolute URL of the src. */
  datatype ImgTag = ImgTag(src: string, width: Option<string>, height: Option<string>, isMain: bool, url: string)

  /** What the page's patterns produce, in pattern order: the
      taste-and-meridian field, the fallback meridian captures, the function
      and indication captures, the detailed-category captures, the usage
      candidates (after the removal patterns, before the edge strip) and the
      image tags. */
  datatype PageData = PageData(
    tasteMeridian: string,
    meridianCaptures: seq<string>,
    functionCaptures: seq<Capture>,
    indicationCaptures: seq<Capture>,
    categoryCaptures: seq<string>,
    usageCandidates: seq<string>,
    images: seq<ImgTag>)

  datatype HerbRecord = HerbRecord(
    id: nat,
    name: string,
    category: string,
    sourceUrl: string,
    meridians: seq<string>,
    functions: seq<string>,
    indications: seq<string>,
    dosage: string,
    images: seq<string>)

  /** A capture `extract_effects_info` accepts: under 300 characters once
      stripped. */
  predicate Short(c: Capture)
  {
    |Strip(c.raw)| < 300
  }

  /** The first capture shorter than 300 characters once stripped; longer
      ones are passed over. */
  function FirstShort(cs: seq<Capture>): (r: Option<Capture>)
    ensures r.Some? ==> r.value in cs && Short(r.value)
    ensures r.None? <==> forall k :: 0 <= k < |cs| ==> !Short(cs[k])
  {
    if cs == [] then None
    else if Short(cs[0]) then Some(cs[0])
    else
      var r := FirstShort(cs[1..]);
      assert forall k :: 1 <= k < |cs| ==> cs[k] == cs[1..][k - 1];
      r
  }

  /** `FirstShort` picks the earliest short capture: it is `cs[k]`, and every
      capture before index `k` is too long. */
  lemma {:induction false} FirstShortIsFirst(cs: seq<Capture>) returns (k: nat)
    requires FirstShort(cs).Some?
    ensures k < |cs| && FirstShort(cs).value == cs[k]
    ensures forall j :: 0 <= j < k ==> !Short(cs[j])
  {
    if Short(cs[0]) {
      k := 0;
    } else {
      assert FirstShort(cs) == FirstShort(cs[1..]);
      var k' := FirstShortIsFirst(cs[1..]);
      k := k' + 1;
      forall j | 0 <= j < k
        ensures !Short(cs[j])
      {
        if j > 0 {
          assert cs[j] == cs[1..][j - 1];
        }
      }
    }
  }

  /** The pattern loop of `extract_effects_info`. */
  method FindShortCapture(cs: seq<Capture>) returns (r: Option<Capture>)
    ensures r == FirstShort(cs)
  {
    var i := 0;
    while i < |cs|
      invariant 0 <= i <= |cs|
      invariant FirstShort(cs) == FirstShort(cs[i..])
    {
      if Short(cs[i]) {
        return Some(cs[i]);
      }
      assert cs[i..][1..] == cs[i + 1..];
      i := i + 1;
    }
    return None;
  }

  /** A capture `extract_detailed_category` accepts: non-empty and shorter
      than 20 characters once stripped. */
  predicate CategoryCapture(c: string)
  {
    Strip(c) != "" && |Strip(c)| < 20
  }

  /** The category after `extract_detailed_category`: the first capture that
      is non-empty and shorter than 20 characters once stripped, else the
      category of the list page. */
  function DetailedCategory(category: string, captures: seq<string>): (r: string)
    ensures r == category || (exists k :: 0 <= k < |captures| && r == Strip(captures[k]) && CategoryCapture(captures[k]))
  {
    if captures == [] then category
    else if CategoryCapture(captures[0]) then Strip(captures[0])
    else
      var r := DetailedCategory(category, captures[1..]);
      assert forall k :: 1 <= k < |captures| ==> captures[k] == captures[1..][k - 1];
      r
  }

  /** A capture that is not accepted is passed over. */
  lemma DetailedCategorySkip(category: string, captures: seq<string>)
    requires captures != [] && !CategoryCapture(captures[0])
    ensures DetailedCategory(category, captures) == DetailedCategory(category, captures[1..])
  {
  }

  /** What `DetailedCategory` returns, exactly: with `k` the index of the
      first accepted capture (`|captures|` when none is accepted), the
      capture at `k`, stripped, or the list-page category when there is
      none. */
  lemma {:induction false} DetailedCategoryIsFirst(category: string, captures: seq<string>)
    ensures var k := FirstWhere(captures, CategoryCapture);
      DetailedCategory(category, captures) == if k < |captures| then Strip(captures[k]) else category
  {
    if captures != [] && !CategoryCapture(captures[0]) {
      DetailedCategorySkip(category, captures);
      DetailedCategoryIsFirst(category, captures[1..]);
      var k' := FirstWhere(captures[1..], CategoryCapture);
      assert FirstWhere(captures, CategoryCapture) == k' + 1;
      if k' < |captures[1..]| {
        assert captures[k' + 1] == captures[1..][k'];
      }
    }
  }

  /** The pattern loop of `extract_detailed_category`. */
  method FindDetailedCategory(category: string, captures: seq<string>) returns (r: string)
    ensures r == DetailedCategory(category, captures)
  {
    var i := 0;
    while i < |captures|
      invariant 0 <= i <= |captures|
      invariant DetailedCategory(category, captures) == DetailedCategory(category, captures[i..])
    {
      if CategoryCapture(captures[i]) {
        return Strip(captures[i]);
      }
      assert captures[i..][1..] == captures[i + 1..];
      i := i + 1;
    }
    return category;
  }

  /** The fallback loop of `extract_taste_and_meridians`, after the
      taste-and-meridian field gave none. */
  method FindMeridians(primary: string, fallbacks: seq<string>) returns (ms: seq<string>)
    ensures ms == MeridiansOf(primary, fallbacks)
  {
    if primary != "" && MeridianMatches(primary) != [] {
      return MeridianSet(primary);
    }
    var i := 0;
    while i < |fallbacks|
      invariant 0 <= i <= |fallbacks|
      invariant FallbackMeridians(fallbacks) == FallbackMeridians(fallbacks[i..])
    {
      if MeridianMatches(fallbacks[i]) != [] {
        return MeridianSet(fallbacks[i]);
      }
      assert fallbacks[i..][1..] == fallbacks[i + 1..];
      i := i + 1;
    }
    return [];
  }

  /** The pattern loop of `extract_usage_info`: the first candidate that
      qualifies ends the loop, replacing the dosage only when longer. */
  method UpdateDosage(current: string, candidates: seq<string>) returns (dosage: string)
    ensures dosage == UsageAfter(current, candidates)
  {
    var i := 0;
    while i < |candidates|
      invariant 0 <= i <= |candidates|
      invariant UsageAfter(current, candidates) == UsageAfter(current, candidates[i..])
    {
      var t := StripChars(candidates[i], UsageEdge);
      if UsageQualifies(t) {
        if |t| > |current| {
          return t;
        }
        return current;
      }
      assert candidates[i..][1..] == candidates[i + 1..];
      i := i + 1;
    }
    return current;
  }

  /** An image tag `extract_images` keeps: a src, the herb-image test and
      the main-image verdict. */
  predicate KeptImage(img: ImgTag)
  {
    img.src != "" && IsHerbImage(img.src, img.width, img.height) && img.isMain
  }

  /** The URLs of the kept image tags, in page order. */
  function ImageUrls(imgs: seq<ImgTag>): (r: seq<string>)
    ensures |r| <= |imgs|
    ensures forall u :: u in r <==> exists k :: 0 <= k < |imgs| && KeptImage(imgs[k]) && imgs[k].url == u
    decreases |imgs|
  {
    if imgs == [] then []
    else
      var prev := ImageUrls(imgs[..|imgs| - 1]);
      var last := imgs[|imgs| - 1];
      assert forall k :: 0 <= k < |imgs| - 1 ==> imgs[k] == imgs[..|imgs| - 1][k];
      prev + (if KeptImage(last) then [last.url] else [])
  }

  /** The image loop of `extract_images`, then `list(set(images))`. */
  method CollectImages(imgs: seq<ImgTag>) returns (urls: seq<string>)
    ensures urls == Dedup(ImageUrls(imgs))
  {
    var found := [];
    var i := 0;
    while i < |imgs|
      invariant 0 <= i <= |imgs|
      invariant found == ImageUrls(imgs[..i])
    {
      var img := imgs[i];
      if img.src != "" && IsHerbImage(img.src, img.width, img.height) && img.isMain {
        found := found + [img.url];
      }
      assert imgs[..i + 1][..i] == imgs[..i];
      i := i + 1;
    }
    assert imgs[..i] == imgs;
    urls := Dedup(found);
  }

  /** The function items of a page. */
  function FunctionsOf(page: PageData): seq<string>
  {
    match FirstShort(page.functionCaptures)
    case None => []
    case Some(c) => FunctionItems(c.cleaned)
  }

  /** The indication items of a page. */
  function IndicationsOf(page: PageData): seq<string>
  {
    match FirstShort(page.indicationCaptures)
    case None => []
    case Some(c) => IndicationItems(c.cleaned)
  }

  /** The dosage before the usage patterns: what the indications section
      yields (the record starts with an empty dosage). */
  function IndicationDosage(page: PageData): string
  {
    match FirstShort(page.indicationCaptures)
    case None => ""
    case Some(c) => c.dosage
  }

  /** The record `parse_herb_detail_page` builds for a fetched page, stamped
      with `id`. */
  function RecordOf(item: HerbItem, page: PageData, id: nat): (r: HerbRecord)
    ensures r.id == id && r.name == item.name && r.sourceUrl == item.url
  {
    HerbRecord(
      id,
      item.name,
      DetailedCategory(item.category, page.categoryCaptures),
      item.url,
      MeridiansOf(page.tasteMeridian, page.meridianCaptures),
      FunctionsOf(page),
      IndicationsOf(page),
      UsageAfter(IndicationDosage(page), page.usageCandidates),
      Dedup(ImageUrls(page.images)))
  }

  /** A record's meridians are distinct meridian names. */
  lemma RecordMeridians(item: HerbItem, page: PageData, id: nat)
    ensures NoDuplicates(RecordOf(item, page, id).meridians)
    ensures forall m <- RecordOf(item, page, id).meridians :: IsMeridian(m)
  {
  }

  /** No function item of a record mentions '属' or '分类', no indication
      item talks about dosage, and no item reaches 50 characters. */
  lemma RecordItems(item: HerbItem, page: PageData, id: nat)
    ensures forall f <- RecordOf(item, page, id).functions :: |f| < 50 && !Contains(f, "属") && !Contains(f, "分类")
    ensures forall t <- RecordOf(item, page, id).indications :: |t| < 50 && !IsDosageText(t)
  {
  }

  /** A record's dosage is at least as long as the one from the indications
      section, and its images are distinct URLs of kept images. */
  lemma RecordDosageImages(item: HerbItem, page: PageData, id: nat)
    ensures |RecordOf(item, page, id).dosage| >= |IndicationDosage(page)|
    ensures NoDuplicates(RecordOf(item, page, id).images)
    ensures forall u <- RecordOf(item, page, id).images ::
      exists k :: 0 <= k < |page.images| && KeptImage(page.images[k]) && page.images[k].url == u
  {
  }

  // ---------------------------------------------------------------------------
  // Crawl bookkeeping

  /** The herb fetcher: the parsed page of a herb, `None` when fetching it
      fails (the one failure `parse_herb_detail_page` reports). */
  type Fetcher = HerbItem -> Option<PageData>

  /** How a fetched page becomes a record stamped with an id (`RecordOf` in
      the crawler; the bookkeeping below holds for any such builder). */
  type Builder = (HerbItem, PageData, nat) -> HerbRecord

  ghost predicate Stamps(build: Builder)
  {
    forall x, p, id :: build(x, p, id).id == id
  }

  lemma RecordOfStamps()
    ensures Stamps(RecordOf)
  {
  }

  /** The number of items of `work` whose fetch succeeds. */
  function Fetched(work: seq<HerbItem>, fetch: Fetcher): (n: nat)
    ensures n <= |work|
    decreases |work|
  {
    if work == [] then 0
    else Fetched(work[..|work| - 1], fetch) + (if fetch(work[|work| - 1]).Some? then 1 else 0)
  }

  /** The records a run over `work` appends after `n0` earlier ones: one per
      successful fetch, in order, each built with the next id. */
  function Crawled(work: seq<HerbItem>, fetch: Fetcher, build: Builder, n0: nat): (r: seq<HerbRecord>)
    ensures |r| == Fetched(work, fetch)
    decreases |work|
  {
    if work == [] then []
    else
      var prev := Crawled(work[..|work| - 1], fetch, build, n0);
      var x := work[|work| - 1];
      match fetch(x)
      case None => prev
      case Some(p) => prev + [build(x, p, n0 + |prev| + 1)]
  }

  /** With a builder that stamps the id it is given, the records of a run
      carry ids `n0 + 1`, `n0 + 2`, ... */
  lemma {:induction false} CrawledStamped(work: seq<HerbItem>, fetch: Fetcher, build: Builder, n0: nat)
    requires Stamps(build)
    ensures forall k :: 0 <= k < |Crawled(work, fetch, build, n0)| ==> Crawled(work, fetch, build, n0)[k].id == n0 + k + 1
    decreases |work|
  {
    if work != [] {
      CrawledStamped(work[..|work| - 1], fetch, build, n0);
    }
  }

  /** The save the checkpoint writes when there are `n` records: one when
      `n` is a positive multiple of 5, none otherwise (saving an empty list
      does nothing). */
  function CheckpointAt(n: nat): seq<nat>
  {
    if n % 5 == 0 && n > 0 then [n] else []
  }

  /** The record counts at which the checkpoints after the items of `work`
      write the file. A count stays a multiple of 5 across failed items, so
      it can repeat. */
  function Checkpoints(work: seq<HerbItem>, fetch: Fetcher, n0: nat): seq<nat>
    decreases |work|
  {
    if work == [] then []
    else
      var n := n0 + Fetched(work, fetch);
      Checkpoints(work[..|work| - 1], fetch, n0) + CheckpointAt(n)
  }

  /** A run over one item: its record if its fetch succeeds, then a
      checkpoint when the new count is a positive multiple of 5. */
  lemma OneItem(x: HerbItem, fetch: Fetcher, build: Builder, n: nat)
    ensures Crawled([x], fetch, build, n) == if fetch(x).Some? then [build(x, fetch(x).value, n + 1)] else []
    ensures Checkpoints([x], fetch, n) == CheckpointAt(n + |Crawled([x], fetch, build, n)|)
  {
    assert [x][..0] == [];
  }

  /** One herb in terms of what the parser returned for it: the record, when
      there is one, is appended. */
  lemma HerbStep(data0: seq<HerbRecord>, data: seq<HerbRecord>, x: HerbItem, fetch: Fetcher,
                 build: Builder, got: Option<HerbRecord>)
    requires fetch(x).None? ==> got.None?
    requires fetch(x).Some? ==> got == Some(build(x, fetch(x).value, |data0| + 1))
    requires data == data0 + (if got.Some? then [got.value] else [])
    ensures data == data0 + Crawled([x], fetch, build, |data0|)
  {
    OneItem(x, fetch, build, |data0|);
  }

  /** The checkpoint after one herb: when the count is a positive multiple
      of 5. */
  lemma HerbCheckpoint(data0: seq<HerbRecord>, data: seq<HerbRecord>, saves0: seq<nat>, saves: seq<nat>,
                       x: HerbItem, fetch: Fetcher, build: Builder)
    requires data == data0 + Crawled([x], fetch, build, |data0|)
    requires saves == saves0 + (if |data| % 5 == 0 && data != [] then [|data|] else [])
    ensures saves == saves0 + Checkpoints([x], fetch, |data0|)
  {
    OneItem(x, fetch, build, |data0|);
    assert |data| == |data0| + |Crawled([x], fetch, build, |data0|)|;
  }

  lemma TakeSnoc<T>(s: seq<T>, j: nat)
    requires j < |s|
    ensures s[..j + 1] == s[..j] + [s[j]]
  {
  }

  lemma AppendAssoc<T>(a: seq<T>, b: seq<T>, c: seq<T>)
    ensures (a + b) + c == a + (b + c)
  {
  }

  lemma {:induction false} FetchedAppend(w1: seq<HerbItem>, w2: seq<HerbItem>, fetch: Fetcher)
    ensures Fetched(w1 + w2, fetch) == Fetched(w1, fetch) + Fetched(w2, fetch)
    decreases |w2|
  {
    if w2 != [] {
      var w2' := w2[..|w2| - 1];
      assert (w1 + w2)[..|w1 + w2| - 1] == w1 + w2';
      FetchedAppend(w1, w2', fetch);
    } else {
      assert w1 + w2 == w1;
    }
  }

  /** A run over two lists is the run over the first, then the run over the
      second numbered on from it. */
  lemma {:induction false} CrawledAppend(w1: seq<HerbItem>, w2: seq<HerbItem>, fetch: Fetcher, build: Builder, n0: nat)
    ensures Crawled(w1 + w2, fetch, build, n0)
      == Crawled(w1, fetch, build, n0) + Crawled(w2, fetch, build, n0 + Fetched(w1, fetch))
    decreases |w2|
  {
    if w2 != [] {
      var w2' := w2[..|w2| - 1];
      assert (w1 + w2)[..|w1 + w2| - 1] == w1 + w2';
      CrawledAppend(w1, w2', fetch, build, n0);
    } else {
      assert w1 + w2 == w1;
    }
  }

  lemma {:induction false} CheckpointsAppend(w1: seq<HerbItem>, w2: seq<HerbItem>, fetch: Fetcher, n0: nat)
    ensures Checkpoints(w1 + w2, fetch, n0)
      == Checkpoints(w1, fetch, n0) + Checkpoints(w2, fetch, n0 + Fetched(w1, fetch))
    decreases |w2|
  {
    if w2 != [] {
      var w2' := w2[..|w2| - 1];
      assert (w1 + w2)[..|w1 + w2| - 1] == w1 + w2';
      CheckpointsAppend(w1, w2', fetch, n0);
      FetchedAppend(w1, w2, fetch);
    } else {
      assert w1 + w2 == w1;
    }
  }

  /** Every checkpoint is a positive multiple of 5, no larger than the final
      record count, and they never decrease. */
  lemma {:induction false} CheckpointsShape(work: seq<HerbItem>, fetch: Fetcher, n0: nat)
    ensures forall k :: 0 <= k < |Checkpoints(work, fetch, n0)| ==>
      var c := Checkpoints(work, fetch, n0)[k];
      c % 5 == 0 && 0 < c <= n0 + Fetched(work, fetch)
    ensures forall j, k :: 0 <= j < k < |Checkpoints(work, fetch, n0)| ==>
      Checkpoints(work, fetch, n0)[j] <= Checkpoints(work, fetch, n0)[k]
    decreases |work|
  {
    if work != [] {
      CheckpointsShape(work[..|work| - 1], fetch, n0);
    }
  }

  /** Python's `xs[:m]` under `if m:`: no limit when `m` is None or 0, a
      negative `m` drops that many from the end. */
  function Limit<T>(xs: seq<T>, m: Option<int>): (r: seq<T>)
    ensures IsPrefix(r, xs)
    ensures m.Some? && 0 < m.value <= |xs| ==> |r| == m.value
    ensures m.None? || m.value == 0 ==> r == xs
  {
    if m.None? || m.value == 0 then xs
    else if m.value > 0 then xs[..if m.value < |xs| then m.value else |xs|]
    else xs[..if |xs| + m.value > 0 then |xs| + m.value else 0]
  }

  predicate IsPrefix<T(==)>(a: seq<T>, b: seq<T>)
  {
    |a| <= |b| && b[..|a|] == a
  }

  /** The herbs crawled for a list of categories, in order: each category's
      list, cut to `maxHerbs`. */
  function Work(cats: seq<Category>, listing: Category -> seq<HerbItem>, maxHerbs: Option<int>): seq<HerbItem>
    decreases |cats|
  {
    if cats == [] then []
    else Work(cats[..|cats| - 1], listing, maxHerbs) + Limit(listing(cats[|cats| - 1]), maxHerbs)
  }

  /** The work list of the categories up to `i`, then that of category `i`. */
  lemma WorkSnoc(cats: seq<Category>, i: nat, listing: Category -> seq<HerbItem>, maxHerbs: Option<int>)
    requires i < |cats|
    ensures Work(cats[..i + 1], listing, maxHerbs) == Work(cats[..i], listing, maxHerbs) + Limit(listing(cats[i]), maxHerbs)
  {
    assert cats[..i + 1][..i] == cats[..i];
  }

  /** Records of a later run (when it ran) follow those of an earlier one,
      numbered on from them. */
  lemma RecordsFollow(data0: seq<HerbRecord>, data: seq<HerbRecord>, data': seq<HerbRecord>,
                        before: seq<HerbItem>, items: seq<HerbItem>, ran: bool, fetch: Fetcher, build: Builder)
    requires data == data0 + Crawled(before, fetch, build, |data0|)
    requires !ran ==> items == [] && data' == data
    requires ran ==> data' == data + Crawled(items, fetch, build, |data|)
    ensures data' == data0 + Crawled(before + items, fetch, build, |data0|)
  {
    if !ran {
      assert before + items == before;
    } else {
      var prev := Crawled(before, fetch, build, |data0|);
      var n := |data0| + Fetched(before, fetch);
      assert |data| == n;
      CrawledAppend(before, items, fetch, build, |data0|);
      AppendAssoc(data0, prev, Crawled(items, fetch, build, n));
    }
  }

  /** Checkpoints of a later run (when it ran) follow those of an earlier
      one, counted on from its records. */
  lemma CheckpointsFollow(saves0: seq<nat>, saves: seq<nat>, saves': seq<nat>, n0: nat, n: nat,
                            before: seq<HerbItem>, items: seq<HerbItem>, ran: bool, fetch: Fetcher)
    requires saves == saves0 + Checkpoints(before, fetch, n0)
    requires n == n0 + Fetched(before, fetch)
    requires !ran ==> items == [] && saves' == saves
    requires ran ==> saves' == saves + Checkpoints(items, fetch, n)
    ensures saves' == saves0 + Checkpoints(before + items, fetch, n0)
  {
    if !ran {
      assert before + items == before;
    } else {
      CheckpointsAppend(before, items, fetch, n0);
      AppendAssoc(saves0, Checkpoints(before, fetch, n0), Checkpoints(items, fetch, n));
    }
  }

  /** Record `k` carries id `k + 1`. */
  ghost predicate IdsInOrder(data: seq<HerbRecord>)
  {
    forall k :: 0 <= k < |data| ==> data[k].id == k + 1
  }

  /** Crawling after records with ids 1..n0 keeps the ids in order. */
  lemma CrawledIds(data0: seq<HerbRecord>, work: seq<HerbItem>, fetch: Fetcher, n0: nat)
    requires IdsInOrder(data0) && |data0| == n0
    ensures IdsInOrder(data0 + Crawled(work, fetch, RecordOf, n0))
  {
    RecordOfStamps();
    CrawledStamped(work, fetch, RecordOf, n0);
    var c := Crawled(work, fetch, RecordOf, n0);
    forall k | 0 <= k < |data0 + c|
      ensures (data0 + c)[k].id == k + 1
    {
      if k >= |data0| {
        assert (data0 + c)[k] == c[k - n0];
      }
    }
  }

  /** The crawler object: the records so far, the next id, and the record
      counts of the files written so far. */
  class ZhongyooCrawler {
    var herbalData: seq<HerbRecord>
    var currentId: nat
    var saves: seq<nat>

    /** The next id follows the number of records kept so far. */
    predicate Counted()
      reads this
    {
      currentId == |herbalData| + 1
    }

    /** Ids are 1, 2, 3, ... in order, and the next id follows the last. */
    ghost predicate Valid()
      reads this
    {
      Counted() && IdsInOrder(herbalData)
    }

    constructor()
      ensures herbalData == [] && currentId == 1 && saves == []
      ensures Valid()
    {
      herbalData := [];
      currentId := 1;
      saves := [];
    }

    /** `parse_herb_detail_page`: a fetched page gives the record stamped
        with the current id, and only then does the id advance. */
    method ParseHerbDetailPage(item: HerbItem, page: Option<PageData>) returns (r: Option<HerbRecord>)
      modifies this`currentId
      ensures page.None? ==> r.None? && currentId == old(currentId)
      ensures page.Some? ==> r == Some(RecordOf(item, page.value, old(currentId))) && currentId == old(currentId) + 1
    {
      if page.None? {
        return None;
      }
      var p := page.value;
      var meridians := FindMeridians(p.tasteMeridian, p.meridianCaptures);
      var functions: seq<string> := [];
      var fc := FindShortCapture(p.functionCaptures);
      if fc.Some? {
        functions := FunctionItems(fc.value.cleaned);
      }
      var indications: seq<string> := [];
      var dosage := "";
      var ic := FindShortCapture(p.indicationCaptures);
      if ic.Some? {
        if ic.value.dosage != "" && dosage == "" {
          dosage := ic.value.dosage;
        }
        indications := IndicationItems(ic.value.cleaned);
      }
      var category := FindDetailedCategory(item.category, p.categoryCaptures);
      dosage := UpdateDosage(dosage, p.usageCandidates);
      var images := CollectImages(p.images);
      r := Some(HerbRecord(currentId, item.name, category, item.url, meridians, functions, indications, dosage, images));
      currentId := currentId + 1;
    }

    /** `save_data`: writes the whole list, and does nothing when it is empty. */
    method SaveData()
      modifies this`saves
      ensures saves == old(saves) + (if herbalData == [] then [] else [|herbalData|])
    {
      if herbalData != [] {
        saves := saves + [|herbalData|];
      }
    }

    /** One step of the inner loop of `crawl_all_categories`: parse the
        herb, append its record, then checkpoint when the count is a
        multiple of 5. */
    method CrawlHerb(item: HerbItem, fetch: Fetcher)
      requires Counted()
      modifies this
      ensures Counted()
      ensures herbalData == old(herbalData) + Crawled([item], fetch, RecordOf, |old(herbalData)|)
      ensures saves == old(saves) + Checkpoints([item], fetch, |old(herbalData)|)
    {
      ghost var data0 := herbalData;
      ghost var saves0 := saves;
      var r := ParseHerbDetailPage(item, fetch(item));
      if r.Some? {
        herbalData := herbalData + [r.value];
      }
      HerbStep(data0, herbalData, item, fetch, RecordOf, r);
      if |herbalData| % 5 == 0 {
        SaveData();
      }
      HerbCheckpoint(data0, herbalData, saves0, saves, item, fetch, RecordOf);
    }

    /** The inner loop of `crawl_all_categories` over one category's herbs. */
    method CrawlHerbs(items: seq<HerbItem>, fetch: Fetcher)
      requires Counted()
      modifies this
      ensures Counted()
      ensures herbalData == old(herbalData) + Crawled(items, fetch, RecordOf, |old(herbalData)|)
      ensures saves == old(saves) + Checkpoints(items, fetch, |old(herbalData)|)
    {
      ghost var n0 := |herbalData|;
      ghost var data0 := herbalData;
      ghost var saves0 := saves;
      var j := 0;
      while j < |items|
        invariant 0 <= j <= |items|
        invariant Counted()
        invariant herbalData == data0 + Crawled(items[..j], fetch, RecordOf, n0)
        invariant saves == saves0 + Checkpoints(items[..j], fetch, n0)
      {
        ghost var data := herbalData;
        ghost var saved := saves;
        CrawlHerb(items[j], fetch);
        TakeSnoc(items, j);
        RecordsFollow(data0, data, herbalData, items[..j], [items[j]], true, fetch, RecordOf);
        CheckpointsFollow(saves0, saved, saves, n0, |data|, items[..j], [items[j]], true, fetch);
        j := j + 1;
      }
      assert items[..j] == items;
    }

    /** One category of `crawl_all_categories`: its herb list, cut to
        `maxHerbs`, is crawled, unless the list is empty. */
    method CrawlCategory(category: Category, listing: Category -> seq<HerbItem>, maxHerbs: Option<int>, fetch: Fetcher)
      requires Counted()
      modifies this
      ensures Counted()
      ensures listing(category) == [] ==> herbalData == old(herbalData) && saves == old(saves)
      ensures listing(category) != [] ==>
        && herbalData == old(herbalData) + Crawled(Limit(listing(category), maxHerbs), fetch, RecordOf, |old(herbalData)|)
        && saves == old(saves) + Checkpoints(Limit(listing(category), maxHerbs), fetch, |old(herbalData)|)
    {
      var items := listing(category);
      if items != [] {
        items := Limit(items, maxHerbs);
        CrawlHerbs(items, fetch);
      }
    }

    /** The loop of `crawl_all_categories` over the categories: each one's
        (limited) herb list is crawled in turn. */
    method CrawlCategories(categories: seq<Category>, listing: Category -> seq<HerbItem>, maxHerbs: Option<int>,
                           fetch: Fetcher)
      requires Counted()
      modifies this
      ensures Counted()
      ensures herbalData == old(herbalData) + Crawled(Work(categories, listing, maxHerbs), fetch, RecordOf, |old(herbalData)|)
      ensures saves == old(saves) + Checkpoints(Work(categories, listing, maxHerbs), fetch, |old(herbalData)|)
    {
      ghost var n0 := |herbalData|;
      ghost var data0 := herbalData;
      ghost var saves0 := saves;
      var i := 0;
      while i < |categories|
        invariant 0 <= i <= |categories|
        invariant Counted()
        invariant herbalData == data0 + Crawled(Work(categories[..i], listing, maxHerbs), fetch, RecordOf, n0)
        invariant saves == saves0 + Checkpoints(Work(categories[..i], listing, maxHerbs), fetch, n0)
      {
        CrawlNextCategory(categories, i, listing, maxHerbs, fetch, data0, saves0);
        i := i + 1;
      }
      assert categories[..i] == categories;
    }

    /** One turn of the loop of `crawl_all_categories`: crawling category
        `i` extends the records and checkpoints of the first `i` categories
        to those of the first `i + 1`. */
    method CrawlNextCategory(categories: seq<Category>, i: nat, listing: Category -> seq<HerbItem>,
                             maxHerbs: Option<int>, fetch: Fetcher, ghost data0: seq<HerbRecord>,
                             ghost saves0: seq<nat>)
      requires i < |categories| && Counted()
      requires herbalData == data0 + Crawled(Work(categories[..i], listing, maxHerbs), fetch, RecordOf, |data0|)
      requires saves == saves0 + Checkpoints(Work(categories[..i], listing, maxHerbs), fetch, |data0|)
      modifies this
      ensures Counted()
      ensures herbalData == data0 + Crawled(Work(categories[..i + 1], listing, maxHerbs), fetch, RecordOf, |data0|)
      ensures saves == saves0 + Checkpoints(Work(categories[..i + 1], listing, maxHerbs), fetch, |data0|)
    {
      ghost var data := herbalData;
      ghost var saved := saves;
      CrawlCategory(categories[i], listing, maxHerbs, fetch);
      WorkSnoc(categories, i, listing, maxHerbs);
      ghost var before := Work(categories[..i], listing, maxHerbs);
      ghost var next := Limit(listing(categories[i]), maxHerbs);
      ghost var ran := listing(categories[i]) != [];
      RecordsFollow(data0, data, herbalData, before, next, ran, fetch, RecordOf);
      CheckpointsFollow(saves0, saved, saves, |data0|, |data|, before, next, ran, fetch);
    }

    /** `crawl_all_categories`: nothing happens without categories; otherwise
        every herb of the (limited) categories is crawled in order, the
        checkpoints are written along the way, and a final save follows. */
    method CrawlAllCategories(links: seq<Link>, maxCategories: Option<int>, maxHerbs: Option<int>,
                              listing: Category -> seq<HerbItem>, fetch: Fetcher)
      requires Valid()
      modifies this
      ensures Valid()
      ensures CategoriesOf(links) == [] ==> herbalData == old(herbalData) && saves == old(saves)
      ensures CategoriesOf(links) != [] ==>
        var work := Work(Limit(CategoriesOf(links), maxCategories), listing, maxHerbs);
        && herbalData == old(herbalData) + Crawled(work, fetch, RecordOf, |old(herbalData)|)
        && saves == old(saves) + Checkpoints(work, fetch, |old(herbalData)|)
                    + (if herbalData == [] then [] else [|herbalData|])
    {
      var categories := CategoriesOf(links);
      if categories == [] {
        return;
      }
      categories := Limit(categories, maxCategories);
      ghost var data0 := herbalData;
      CrawlCategories(categories, listing, maxHerbs, fetch);
      CrawledIds(data0, Work(categories, listing, maxHerbs), fetch, |data0|);
      SaveData();
    }
  }
}
