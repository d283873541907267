/** The post-processing of the zysj index page (`parse_index_page`): which
    links are taken for herbs, and the de-duplication by cleaned name. */
module ZysjIndex {
  import opened Wrappers
  import opened Strings

  /** One entry of `herbs_data`; the link is kept as written (`urljoin` with
      the site's base address is not part of this model). */
  datatype Herb = Herb(name: string, url: string, category: string)

  // ---------------------------------------------------------------------------
  // The link filter

  /** `/\d+\.html` at the very end of `b`. */
  predicate NumberedPage(b: string)
  {
    EndsWith(b, ".html") &&
    exists k :: 0 <= k && k + 2 <= |b| - 5 && b[k] == '/' && AllDigits(b[k + 1..|b| - 5])
  }

  /** `re.search(r'/\d+\.html$', href)`: `$` also matches before a final newline. */
  predicate NumberedPageHref(h: string)
  {
    NumberedPage(h) || (h != [] && h[|h| - 1] == '\n' && NumberedPage(h[..|h| - 1]))
  }

  /** The link points at a herb page. */
  predicate IsHerbHref(h: string)
  {
    NumberedPageHref(h) || (Contains(h, "zhongyaoxue") && EndsWith(h, ".html"))
  }

  /** `re.search(r'第(.+?)([章节])', name)`: 第, at least one character other
      than a newline, then 章 or 节, anywhere in the name. */
  predicate MentionsChapter(name: string)
  {
    exists i, j :: 0 <= i && i + 2 <= j < |name| && name[i] == '第' &&
      (name[j] == '章' || name[j] == '节') && Lacks(name[i + 1..j], '\n')
  }

  /** Words that mark overview and appendix entries rather than herbs. */
  const NonHerbWords: seq<string> :=
    ["概述", "分类", "简介", "总论", "前言", "附录", "索引", "目录", "凡例",
     "方剂", "制剂", "炮制", "附方", "附表"]

  predicate MentionsAny(name: string, words: seq<string>)
  {
    exists k :: 0 <= k < |words| && Contains(name, words[k])
  }

  /** The name tests every branch applies: no chapter or section heading, no
      usage notes, no "others" entry, no overview word and at most ten
      characters. */
  predicate HerbLikeName(name: string)
  {
    !MentionsChapter(name) && !Contains(name, "应用注意事项") && !Contains(name, "其它") &&
    !MentionsAny(name, NonHerbWords) && |name| <= 10
  }

  /** The category a link is filed under: the section title when there is
      one, otherwise the chapter title ("" stands for none). */
  function EffectiveCategory(section: string, chapter: string): (c: string)
    ensures c == [] <==> section == [] && chapter == []
  {
    if section != [] then section else chapter
  }

  /** A link found under a chapter or section: its stripped text is the name,
      which must be herb-like and at least two characters long, and there
      must be a category. */
  function AdmitLink(href: string, text: string, category: string): (r: Option<Herb>)
    ensures r.Some? ==> 2 <= |r.value.name| <= 10 && NoEdgeSpace(r.value.name)
    ensures r.Some? ==> HerbLikeName(r.value.name) && IsHerbHref(r.value.url)
    ensures r.Some? ==> r.value.category == category != []
    ensures r.None? <==> !IsHerbHref(href) || !HerbLikeName(Strip(text)) || |Strip(text)| < 2 || category == []
  {
    var name := Strip(text);
    if IsHerbHref(href) && name != [] && HerbLikeName(name) && |name| > 1 && category != [] then
      Some(Herb(name, href, category))
    else None
  }

  /** The direct fallback parse: the name is the link's title attribute as
      written, and a missing category becomes 未分类药材. */
  function AdmitFallback(href: string, title: string, category: string): (r: Option<Herb>)
    ensures r.Some? ==> 1 <= |r.value.name| <= 10 && HerbLikeName(r.value.name)
    ensures r.Some? ==> r.value.category != [] && (category != [] ==> r.value.category == category)
    ensures r.None? <==> title == [] || !IsHerbHref(href) || !HerbLikeName(title)
  {
    if title != [] && IsHerbHref(href) && HerbLikeName(title) then
      Some(Herb(title, href, if category != [] then category else "未分类药材"))
    else None
  }

  // ---------------------------------------------------------------------------
  // De-duplication by cleaned name

  /** Characters `[\s\*\(\)（）\[\]【】]` removed before names are compared. */
  predicate Junk(c: char)
  {
    IsSpace(c) || c in {'*', '(', ')', '（', '）', '[', ']', '【', '】'}
  }

  /** The name with whitespace, asterisks and brackets removed. */
  function CleanName(s: string): (r: string)
    ensures |r| <= |s|
    ensures forall i :: 0 <= i < |r| ==> !Junk(r[i])
  {
    if s == [] then []
    else if Junk(s[0]) then CleanName(s[1..])
    else [s[0]] + CleanName(s[1..])
  }

  /** A cleaned name that is a page number or a single character. */
  predicate Skipped(c: string)
  {
    |c| <= 1 || AllDigits(c)
  }

  function Key(h: Herb): string
  {
    CleanName(h.name)
  }

  /** `unique_herbs` built from `herbs` when the cleaned names in `seen` are
      already taken. */
  function UniqueFrom(herbs: seq<Herb>, seen: set<string>): (r: seq<Herb>)
    ensures IsSubsequence(r, herbs)
    ensures forall i :: 0 <= i < |r| ==> !Skipped(Key(r[i])) && Key(r[i]) !in seen
    decreases |herbs|
  {
    if herbs == [] then []
    else
      var h := herbs[0];
      var c := Key(h);
      assert [h] + herbs[1..] == herbs;
      if Skipped(c) || c in seen then
        var r := UniqueFrom(herbs[1..], seen);
        SubsequenceSkipOne(r, herbs[1..], h);
        r
      else
        var rest := UniqueFrom(herbs[1..], seen + {c});
        SubsequenceCons(h, rest, herbs[1..]);
        [h] + rest
  }

  /** No two herbs of `r` share a cleaned name. */
  predicate DistinctKeys(r: seq<Herb>)
  {
    forall i, j :: 0 <= i < j < |r| ==> Key(r[i]) != Key(r[j])
  }

  lemma DistinctCons(h: Herb, rest: seq<Herb>)
    requires DistinctKeys(rest)
    requires forall k :: 0 <= k < |rest| ==> Key(rest[k]) != Key(h)
    ensures DistinctKeys([h] + rest)
  {
    var r := [h] + rest;
    forall i, j | 0 <= i < j < |r| ensures Key(r[i]) != Key(r[j]) {
      assert r[j] == rest[j - 1];
      if i > 0 {
        assert r[i] == rest[i - 1];
      }
    }
  }

  /** No two kept herbs share a cleaned name. */
  lemma {:induction false} UniqueFromDistinct(herbs: seq<Herb>, seen: set<string>)
    ensures DistinctKeys(UniqueFrom(herbs, seen))
    decreases |herbs|
  {
    if herbs != [] {
      var c := Key(herbs[0]);
      if Skipped(c) || c in seen {
        UniqueFromDistinct(herbs[1..], seen);
      } else {
        UniqueFromDistinct(herbs[1..], seen + {c});
        DistinctCons(herbs[0], UniqueFrom(herbs[1..], seen + {c}));
      }
    }
  }

  /** Every herb whose cleaned name is not skipped is represented. */
  lemma {:induction false} UniqueFromCovers(herbs: seq<Herb>, seen: set<string>, i: nat)
    requires i < |herbs| && !Skipped(Key(herbs[i]))
    ensures Key(herbs[i]) in seen ||
      exists k :: 0 <= k < |UniqueFrom(herbs, seen)| && Key(UniqueFrom(herbs, seen)[k]) == Key(herbs[i])
    decreases |herbs|
  {
    var c := Key(herbs[0]);
    var r := UniqueFrom(herbs, seen);
    if i == 0 {
      if !(Skipped(c) || c in seen) {
        assert r == [herbs[0]] + UniqueFrom(herbs[1..], seen + {c});
        assert 0 < |r| && Key(r[0]) == Key(herbs[i]);
        assert exists k :: 0 <= k < |UniqueFrom(herbs, seen)| && Key(UniqueFrom(herbs, seen)[k]) == Key(herbs[i]);
      }
    } else {
      assert herbs[1..][i - 1] == herbs[i];
      if Skipped(c) || c in seen {
        UniqueFromCovers(herbs[1..], seen, i - 1);
        assert r == UniqueFrom(herbs[1..], seen);
        if Key(herbs[i]) !in seen {
          var k :| 0 <= k < |r| && Key(UniqueFrom(herbs[1..], seen)[k]) == Key(herbs[1..][i - 1]);
          assert Key(r[k]) == Key(herbs[i]);
          assert exists k :: 0 <= k < |UniqueFrom(herbs, seen)| && Key(UniqueFrom(herbs, seen)[k]) == Key(herbs[i]);
        }
      } else {
        UniqueFromCovers(herbs[1..], seen + {c}, i - 1);
        var rest := UniqueFrom(herbs[1..], seen + {c});
        assert r == [herbs[0]] + rest;
        if Key(herbs[i]) !in seen + {c} {
          var k :| 0 <= k < |rest| && Key(rest[k]) == Key(herbs[i]);
          assert r[k + 1] == rest[k];
          assert exists k :: 0 <= k < |UniqueFrom(herbs, seen)| && Key(UniqueFrom(herbs, seen)[k]) == Key(herbs[i]);
        } else if Key(herbs[i]) == c {
          assert 0 < |r| && Key(r[0]) == Key(herbs[i]);
          assert exists k :: 0 <= k < |UniqueFrom(herbs, seen)| && Key(UniqueFrom(herbs, seen)[k]) == Key(herbs[i]);
        }
      }
    }
  }

  /** The herbs of the index page, each cleaned name once, first occurrence kept. */
  function Unique(herbs: seq<Herb>): seq<Herb>
  {
    UniqueFrom(herbs, {})
  }

  /** The de-duplication loop of `parse_index_page`. */
  method DedupHerbs(herbs: seq<Herb>) returns (unique: seq<Herb>)
    ensures unique == Unique(herbs)
  {
    unique := [];
    var seen: set<string> := {};
    var i := 0;
    while i < |herbs|
      invariant i <= |herbs|
      invariant unique + UniqueFrom(herbs[i..], seen) == Unique(herbs)
    {
      var h := herbs[i];
      var c := CleanName(h.name);
      assert herbs[i..][1..] == herbs[i + 1..];
      if !(Skipped(c) || c in seen) {
        seen := seen + {c};
        unique := unique + [h];
      }
      i := i + 1;
    }
  }

  /** The de-duplicated list keeps input order, drops page numbers and
      one-character names, lists each cleaned name once and misses none. */
  lemma UniqueMeaning(herbs: seq<Herb>)
    ensures IsSubsequence(Unique(herbs), herbs)
    ensures forall i :: 0 <= i < |Unique(herbs)| ==>
      |Key(Unique(herbs)[i])| >= 2 && !AllDigits(Key(Unique(herbs)[i]))
    ensures DistinctKeys(Unique(herbs))
    ensures forall i :: 0 <= i < |herbs| && !Skipped(Key(herbs[i])) ==>
      exists k :: 0 <= k < |Unique(herbs)| && Key(Unique(herbs)[k]) == Key(herbs[i])
  {
    UniqueFromDistinct(herbs, {});
    assert Unique(herbs) == UniqueFrom(herbs, {});
    forall i | 0 <= i < |herbs| && !Skipped(Key(herbs[i]))
      ensures exists k :: 0 <= k < |Unique(herbs)| && Key(Unique(herbs)[k]) == Key(herbs[i])
    {
      UniqueFromCovers(herbs, {}, i);
    }
  }

  /** The entry kept for a cleaned name is its first occurrence. */
  lemma {:induction false} UniqueKeepsFirst(herbs: seq<Herb>, seen: set<string>, k: nat)
    requires k < |UniqueFrom(herbs, seen)|
    ensures exists i :: 0 <= i < |herbs| && herbs[i] == UniqueFrom(herbs, seen)[k] &&
                        forall j :: 0 <= j < i ==> Key(herbs[j]) != Key(herbs[i])
    decreases |herbs|
  {
    var h := herbs[0];
    var c := Key(h);
    if Skipped(c) || c in seen {
      var r := UniqueFrom(herbs[1..], seen);
      assert UniqueFrom(herbs, seen) == r;
      UniqueKeepsFirst(herbs[1..], seen, k);
      var i :| 0 <= i < |herbs[1..]| && herbs[1..][i] == r[k] &&
        forall j :: 0 <= j < i ==> Key(herbs[1..][j]) != Key(herbs[1..][i]);
      assert Key(r[k]) != c;
      FirstAfterHead(herbs, i);
    } else if k == 0 {
      assert herbs[0] == UniqueFrom(herbs, seen)[0];
    } else {
      var seen' := seen + {c};
      var r := UniqueFrom(herbs[1..], seen');
      assert UniqueFrom(herbs, seen)[k] == r[k - 1];
      UniqueKeepsFirst(herbs[1..], seen', k - 1);
      var i :| 0 <= i < |herbs[1..]| && herbs[1..][i] == r[k - 1] &&
        forall j :: 0 <= j < i ==> Key(herbs[1..][j]) != Key(herbs[1..][i]);
      assert Key(r[k - 1]) !in seen';
      FirstAfterHead(herbs, i);
    }
  }

  /** A first occurrence in the tail whose name differs from the head's is a
      first occurrence in the whole sequence. */
  lemma FirstAfterHead(herbs: seq<Herb>, i: nat)
    requires i + 1 < |herbs|
    requires forall j :: 0 <= j < i ==> Key(herbs[1..][j]) != Key(herbs[1..][i])
    requires Key(herbs[0]) != Key(herbs[i + 1])
    ensures forall j :: 0 <= j < i + 1 ==> Key(herbs[j]) != Key(herbs[i + 1])
  {
    forall j | 1 <= j < i + 1 ensures Key(herbs[j]) != Key(herbs[i + 1]) {
      assert herbs[j] == herbs[1..][j - 1];
    }
  }
}
