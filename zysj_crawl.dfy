/** Detail-page assembly and the crawl loop of the zysj crawler: which pages
    yield a record, which records are kept, how the success and failure
    counters move and when the data file is written. */
module ZysjCrawl {
  import opened Wrappers
  import opened Strings
  import opened ZysjSections
  import opened ZysjShaping
  import opened ZysjIndex

  /** What the parser sees of a fetched detail page: the text of its content
      area, the texts of its paragraph and heading elements in document
      order, and the `src` attributes of its images ("" when missing). */
  datatype Page = Page(content: string, elements: seq<string>, imageSrcs: seq<string>)

  /** The record built for one herb. */
  datatype HerbDetail = HerbDetail(name: string, category: string, url: string, fields: Detail, images: seq<string>)

  // ---------------------------------------------------------------------------
  // Page rejection

  const HerbIndicators: seq<string> := ["性味", "归经", "功效", "主治", "用法", "用量", "药用", "入药", "中药"]

  /** How many of `words` occur in `content`. */
  function IndicatorCount(content: string, words: seq<string>): (n: nat)
    ensures n <= |words|
    ensures n == 0 <==> forall k :: 0 <= k < |words| ==> !Contains(content, words[k])
    decreases |words|
  {
    if words == [] then 0
    else IndicatorCount(content, words[..|words| - 1]) + (if Contains(content, words[|words| - 1]) then 1 else 0)
  }

  /** A page with fewer than two herb indicators that says its content is
      missing, deleted or not found. */
  predicate Rejected(content: string)
  {
    IndicatorCount(content, HerbIndicators) < 2 &&
    (Contains(content, "找不到") || Contains(content, "不存在") || Contains(content, "已删除"))
  }

  // ---------------------------------------------------------------------------
  // Assembling a detail record

  /** The list fields after numbered shaping and grouping. */
  function ShapeFields(d: Detail): (r: Detail)
    ensures r.text == d.text
  {
    d.(items := d.items
      [ClinicalApplication := Shaped(ItemsOf(d, ClinicalApplication), false)]
      [Notes := Shaped(ItemsOf(d, Notes), false)]
      [AffiliatedHerbs := Shaped(ItemsOf(d, AffiliatedHerbs), true)]
      [Formulas := Grouped(ItemsOf(d, Formulas), true)]
      [Literature := Grouped(ItemsOf(d, Literature), false)])
  }

  /** The image links of a page: every non-empty `src`, in order. */
  function ImagesOf(srcs: seq<string>): (r: seq<string>)
    ensures |r| <= |srcs|
    ensures forall i :: 0 <= i < |r| ==> r[i] != [] && r[i] in srcs
    ensures forall i :: 0 <= i < |srcs| && srcs[i] != [] ==> srcs[i] in r
    ensures IsSubsequence(r, srcs)
    decreases |srcs|
  {
    if srcs == [] then []
    else
      var pre := srcs[..|srcs| - 1];
      var init := ImagesOf(pre);
      var src := srcs[|srcs| - 1];
      assert forall i :: 0 <= i < |srcs| - 1 ==> srcs[i] == pre[i];
      assert srcs == pre + [src];
      if src != [] then
        SubsequenceSnoc(init, pre, src);
        init + [src]
      else
        SubsequenceExtend(init, pre, src);
        init
  }

  /** A non-empty `src` is kept as often as the page lists it, an empty one
      never. */
  lemma {:induction false} ImagesOfCount(srcs: seq<string>, x: string)
    ensures multiset(ImagesOf(srcs))[x] == if x != [] then multiset(srcs)[x] else 0
    decreases |srcs|
  {
    if srcs != [] {
      var pre := srcs[..|srcs| - 1];
      assert srcs == pre + [srcs[|srcs| - 1]];
      ImagesOfCount(pre, x);
    }
  }

  /** The record `parse_herb_detail` returns for `herb`, given its fetched
      page (None when the fetch or the content lookup failed). */
  function HerbDetailOf(herb: Herb, page: Option<Page>): (r: Option<HerbDetail>)
    ensures r.Some? <==> page.Some? && !Rejected(page.value.content)
    ensures r.Some? ==> r.value.name == herb.name && r.value.category == herb.category && r.value.url == herb.url
    ensures r.Some? ==> r.value.fields.text == Sections(page.value.elements).text
  {
    if page.None? || Rejected(page.value.content) then None
    else
      Some(HerbDetail(herb.name, herb.category, herb.url,
        ShapeFields(Sections(page.value.elements)), ImagesOf(page.value.imageSrcs)))
  }

  /** The image loop of `parse_herb_detail`. */
  method CollectImages(srcs: seq<string>) returns (images: seq<string>)
    ensures images == ImagesOf(srcs)
  {
    images := [];
    var i := 0;
    while i < |srcs|
      invariant i <= |srcs|
      invariant images == ImagesOf(srcs[..i])
    {
      assert srcs[..i + 1][..i] == srcs[..i];
      assert srcs[..i + 1] == srcs[..i] + [srcs[i]];
      if srcs[i] != [] {
        images := images + [srcs[i]];
      }
      i := i + 1;
    }
    assert srcs[..i] == srcs;
  }

  /** `parse_herb_detail`: the element loop, the shaping of the list fields
      and the image loop. */
  method ParseHerbDetail(herb: Herb, page: Option<Page>) returns (r: Option<HerbDetail>)
    ensures r == HerbDetailOf(herb, page)
  {
    if page.None? || Rejected(page.value.content) {
      return None;
    }
    var p := page.value;
    var d := ParseSections(HeaderTable, p.elements);
    var clinical := ShapeNumbered(ItemsOf(d, ClinicalApplication), false);
    var notes := ShapeNumbered(ItemsOf(d, Notes), false);
    var affiliated := ShapeNumbered(ItemsOf(d, AffiliatedHerbs), true);
    var formulas := GroupEntries(ItemsOf(d, Formulas), true);
    var literature := GroupEntries(ItemsOf(d, Literature), false);
    var shaped := d.(items := d.items[ClinicalApplication := clinical][Notes := notes]
      [AffiliatedHerbs := affiliated][Formulas := formulas][Literature := literature]);
    var images := CollectImages(p.imageSrcs);
    r := Some(HerbDetail(herb.name, herb.category, herb.url, shaped, images));
  }

  // ---------------------------------------------------------------------------
  // The crawl

  /** A detail worth keeping: it has a medicinal part, a taste and meridian
      text or an effects text. */
  predicate HasContent(d: HerbDetail)
  {
    TextOf(d.fields, MedicinalPart) != [] || TextOf(d.fields, TasteMeridian) != [] ||
    TextOf(d.fields, Effects) != []
  }

  /** A parse outcome the crawl counts as a success. */
  predicate Good(o: Option<HerbDetail>)
  {
    o.Some? && HasContent(o.value)
  }

  /** What `parse_herb_detail` returns for each herb, in order. */
  function Outcomes(herbs: seq<Herb>, pages: seq<Option<Page>>): (r: seq<Option<HerbDetail>>)
    requires |pages| == |herbs|
    ensures |r| == |herbs|
    ensures forall i :: 0 <= i < |herbs| ==> r[i] == HerbDetailOf(herbs[i], pages[i])
  {
    seq(|herbs|, i requires 0 <= i < |herbs| => HerbDetailOf(herbs[i], pages[i]))
  }

  /** `herbal_data` after the crawl has seen the outcomes `os`. */
  function Collected(os: seq<Option<HerbDetail>>): (r: seq<HerbDetail>)
    ensures |r| <= |os|
    ensures forall i :: 0 <= i < |r| ==> HasContent(r[i])
    decreases |os|
  {
    if os == [] then []
    else
      var o := os[|os| - 1];
      Collected(os[..|os| - 1]) + (if Good(o) then [o.value] else [])
  }

  /** How many of the outcomes `os` are successes. */
  function Successes(os: seq<Option<HerbDetail>>): (n: nat)
    ensures n <= |os|
    decreases |os|
  {
    if os == [] then 0
    else Successes(os[..|os| - 1]) + (if Good(os[|os| - 1]) then 1 else 0)
  }

  /** The record counts written by the saves inside the loop: one after every
      outcome at which the success count is a multiple of five. */
  function Checkpoints(os: seq<Option<HerbDetail>>): (r: seq<nat>)
    decreases |os|
  {
    if os == [] then []
    else
      var count := Successes(os);
      Checkpoints(os[..|os| - 1]) + (if count % 5 == 0 then [count] else [])
  }

  /** One more outcome: kept when good, counted, and a checkpoint when the
      success count is a multiple of five. */
  lemma OutcomeStep(os: seq<Option<HerbDetail>>, i: nat)
    requires i < |os|
    ensures Collected(os[..i + 1]) == Collected(os[..i]) + (if Good(os[i]) then [os[i].value] else [])
    ensures Successes(os[..i + 1]) == Successes(os[..i]) + (if Good(os[i]) then 1 else 0)
    ensures Checkpoints(os[..i + 1]) == Checkpoints(os[..i]) +
      (if Successes(os[..i + 1]) % 5 == 0 then [Successes(os[..i + 1])] else [])
  {
    assert os[..i + 1][..i] == os[..i];
  }

  lemma SavesStep(base: seq<nat>, saved: seq<nat>, saves: seq<nat>, os: seq<Option<HerbDetail>>, i: nat)
    requires i < |os|
    requires saved == base + Checkpoints(os[..i])
    requires saves == saved + (if Successes(os[..i + 1]) % 5 == 0 then [Successes(os[..i + 1])] else [])
    ensures saves == base + Checkpoints(os[..i + 1])
  {
    OutcomeStep(os, i);
  }

  /** The crawler's state: the records collected so far and, for every call
      of `save_data`, how many records it wrote. */
  class ZysjCrawler {
    var herbalData: seq<HerbDetail>
    var saves: seq<nat>

    constructor()
      ensures herbalData == [] && saves == []
    {
      herbalData := [];
      saves := [];
    }

    /** `save_data`: writes the whole list (the file itself is not modelled). */
    method SaveData()
      modifies this
      ensures herbalData == old(herbalData)
      ensures saves == old(saves) + [|herbalData|]
    {
      saves := saves + [|herbalData|];
    }

    /** One pass of the crawl loop after the detail was parsed: keep it and
        count a success, or count a failure; then save when the success
        count is a multiple of five. */
    method RecordOutcome(detail: Option<HerbDetail>, success: nat, fail: nat) returns (success': nat, fail': nat)
      requires success == |herbalData|
      modifies this
      ensures herbalData == old(herbalData) + (if Good(detail) then [detail.value] else [])
      ensures success' == success + (if Good(detail) then 1 else 0) == |herbalData|
      ensures success' + fail' == success + fail + 1
      ensures saves == old(saves) + (if success' % 5 == 0 then [success'] else [])
    {
      success', fail' := success, fail;
      if detail.Some? {
        var d := detail.value;
        if HasContent(d) {
          herbalData := herbalData + [d];
          success' := success' + 1;
        } else {
          fail' := fail' + 1;
        }
      } else {
        fail' := fail' + 1;
      }
      if success' % 5 == 0 {
        SaveData();
      }
    }

    /** One pass of the crawl loop: parse the detail page of `herb`, whose
        outcome is `o`, and record it. */
    method CrawlHerb(herb: Herb, page: Option<Page>, ghost o: Option<HerbDetail>, success: nat, fail: nat)
      returns (success': nat, fail': nat)
      requires o == HerbDetailOf(herb, page)
      requires success == |herbalData|
      modifies this
      ensures herbalData == old(herbalData) + (if Good(o) then [o.value] else [])
      ensures success' == success + (if Good(o) then 1 else 0) == |herbalData|
      ensures success' + fail' == success + fail + 1
      ensures saves == old(saves) + (if success' % 5 == 0 then [success'] else [])
    {
      var detail := ParseHerbDetail(herb, page);
      success', fail' := RecordOutcome(detail, success, fail);
    }

    /** `crawl_all_herbs` over the de-duplicated index `herbs`; `pages[i]` is
        what fetching the page of `herbs[i]` gave. */
    method CrawlAllHerbs(herbs: seq<Herb>, pages: seq<Option<Page>>) returns (success: nat, fail: nat)
      requires |pages| == |herbs|
      modifies this
      ensures herbalData == Collected(Outcomes(herbs, pages))
      ensures success == |herbalData| == Successes(Outcomes(herbs, pages))
      ensures success + fail == |herbs|
      ensures saves == old(saves) + [0] + Checkpoints(Outcomes(herbs, pages)) + [success]
    {
      ghost var os := Outcomes(herbs, pages);
      herbalData := [];
      SaveData();
      ghost var base := saves;
      success := 0;
      fail := 0;
      var i := 0;
      while i < |herbs|
        invariant i <= |herbs|
        invariant herbalData == Collected(os[..i])
        invariant success == |herbalData| == Successes(os[..i])
        invariant success + fail == i
        invariant saves == base + Checkpoints(os[..i])
      {
        ghost var saved := saves;
        OutcomeStep(os, i);
        success, fail := CrawlHerb(herbs[i], pages[i], os[i], success, fail);
        SavesStep(base, saved, saves, os, i);
        i := i + 1;
      }
      assert os[..i] == os;
      SaveData();
    }
  }

  // ---------------------------------------------------------------------------
  // What the crawl promises

  /** The kept records are exactly the successful outcomes, in order: their
      number is the success count, and every success is among them. */
  lemma {:induction false} CollectedExactly(os: seq<Option<HerbDetail>>)
    ensures |Collected(os)| == Successes(os)
    ensures forall i :: 0 <= i < |os| && Good(os[i]) ==> os[i].value in Collected(os)
    decreases |os|
  {
    if os != [] {
      var n := |os| - 1;
      CollectedExactly(os[..n]);
      forall i | 0 <= i < n && Good(os[i]) ensures os[i].value in Collected(os) {
        assert os[..n][i] == os[i];
      }
    }
  }

  /** Every save inside the loop writes a multiple of five records, no more
      than were collected, and the counts never decrease. */
  lemma {:induction false} CheckpointsMultiplesOfFive(os: seq<Option<HerbDetail>>)
    ensures forall k :: 0 <= k < |Checkpoints(os)| ==>
      Checkpoints(os)[k] % 5 == 0 && Checkpoints(os)[k] <= Successes(os)
    ensures forall k, l :: 0 <= k < l < |Checkpoints(os)| ==> Checkpoints(os)[k] <= Checkpoints(os)[l]
    decreases |os|
  {
    if os != [] {
      CheckpointsMultiplesOfFive(os[..|os| - 1]);
    }
  }
}
