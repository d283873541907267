/** The section state machine of the zysj detail-page parser
    (`parse_herb_detail`): each element text of the content area is either a
    section header, which switches the current section, or body text, which
    goes to the current section's field. */
module ZysjSections {
  import opened Wrappers
  import opened Strings
  import opened Cleaning

  /** The fields a detail page is split into. */
  datatype Section =
    | MedicinalPart | TasteMeridian | Effects | ClinicalApplication
    | PrescriptionName | UsageDosage | Notes | Formulas | Literature | AffiliatedHerbs

  /** Scalar fields hold one string; the others hold a list of entries. */
  predicate IsScalar(s: Section)
  {
    s.MedicinalPart? || s.TasteMeridian? || s.Effects? || s.PrescriptionName? || s.UsageDosage?
  }

  /** Position of a section in the header table. */
  function Rank(s: Section): nat
  {
    match s
    case MedicinalPart => 0
    case TasteMeridian => 1
    case Effects => 2
    case ClinicalApplication => 3
    case PrescriptionName => 4
    case UsageDosage => 5
    case Notes => 6
    case Formulas => 7
    case Literature => 8
    case AffiliatedHerbs => 9
  }

  /** A regular expression used here is a choice of literal alternatives
      (character classes and optional characters written out, in the order
      the regular-expression engine tries them). */
  type Pattern = seq<string>

  type Table = seq<(Section, seq<Pattern>)>

  /** `title_patterns`, in the order its dictionary literal declares it. */
  const HeaderTable: Table := [
    (MedicinalPart, [["【药用】"], ["【药用部位】"], ["药用：", "药用:"]]),
    (TasteMeridian, [["【性味与归经】"], ["【性味归经】"],
                     ["性味与归经：", "性味与归经:", "性味归经：", "性味归经:"]]),
    (Effects, [["【功效】"], ["功效：", "功效:"]]),
    (ClinicalApplication, [["【临床应用】"], ["临床应用：", "临床应用:"], ["应用：", "应用:"]]),
    (PrescriptionName, [["【处方用名】"], ["处方用名：", "处方用名:"]]),
    (UsageDosage, [["【一般用量与用法】"], ["【用法用量】"],
                   ["用法与用量：", "用法与用量:", "用法用量：", "用法用量:"]]),
    (Notes, [["【按语】"], ["按语：", "按语:"]]),
    (Formulas, [["【方剂举例】"], ["方剂举例：", "方剂举例:"]]),
    (Literature, [["【文献摘录】"], ["文献摘录：", "文献摘录:"]]),
    (AffiliatedHerbs, [["【附药】"], ["附药：", "附药:"]])]

  // ---------------------------------------------------------------------------
  // re.search over literal alternatives

  /** The first alternative of `p`, from index `k` on, that `s` starts with. */
  function FirstAlt(s: string, p: Pattern, k: nat): (r: Option<nat>)
    requires k <= |p|
    ensures r.Some? ==> k <= r.value < |p| && StartsWith(s, p[r.value])
    ensures forall j :: k <= j < |p| && (r.None? || j < r.value) ==> !StartsWith(s, p[j])
    decreases |p| - k
  {
    if k == |p| then None
    else if StartsWith(s, p[k]) then Some(k)
    else FirstAlt(s, p, k + 1)
  }

  /** `re.search(p, text)` from position `i`: the leftmost match, as its
      (start, end). */
  function SearchFrom(text: string, p: Pattern, i: nat): (r: Option<(nat, nat)>)
    requires i <= |text|
    ensures r.Some? ==> i <= r.value.0 <= r.value.1 <= |text|
    ensures r.Some? ==> FirstAlt(text[r.value.0..], p, 0).Some?
    ensures forall j :: i <= j <= |text| && (r.None? || j < r.value.0) ==>
      FirstAlt(text[j..], p, 0).None?
    decreases |text| - i
  {
    match FirstAlt(text[i..], p, 0)
    case Some(k) => Some((i, i + |p[k]|))
    case None => if i == |text| then None else SearchFrom(text, p, i + 1)
  }

  function Search(text: string, p: Pattern): Option<(nat, nat)>
  {
    SearchFrom(text, p, 0)
  }

  /** The end of the match of the first pattern of `ps`, from index `k` on,
      that is found in `text`. */
  function FirstPattern(ps: seq<Pattern>, text: string, k: nat): (r: Option<nat>)
    requires k <= |ps|
    ensures r.None? <==> forall j :: k <= j < |ps| ==> Search(text, ps[j]).None?
    ensures r.Some? ==> r.value <= |text|
    decreases |ps| - k
  {
    if k == |ps| then None
    else
      match Search(text, ps[k])
      case Some(m) => Some(m.1)
      case None => FirstPattern(ps, text, k + 1)
  }

  /** Header detection: the first entry of `table`, from index `k` on, one of
      whose patterns is found in `text`, with the end of the match. */
  function FirstSection(table: Table, text: string, k: nat): (r: Option<(nat, nat)>)
    requires k <= |table|
    ensures r.Some? ==> k <= r.value.0 < |table| && FirstPattern(table[r.value.0].1, text, 0) == Some(r.value.1)
    ensures forall j :: k <= j < |table| && (r.None? || j < r.value.0) ==>
      FirstPattern(table[j].1, text, 0).None?
    decreases |table| - k
  {
    if k == |table| then None
    else
      match FirstPattern(table[k].1, text, 0)
      case Some(e) => Some((k, e))
      case None => FirstSection(table, text, k + 1)
  }

  /** The section an element text opens, and where its header ends. */
  function Detect(table: Table, text: string): (r: Option<(Section, nat)>)
    ensures r.Some? ==> r.value.1 <= |text|
  {
    match FirstSection(table, text, 0)
    case None => None
    case Some(m) => Some((table[m.0].0, m.1))
  }

  /** The header scan: the nested loops over sections and their patterns,
      stopping at the first pattern found. */
  method FindHeader(table: Table, text: string) returns (r: Option<(nat, nat)>)
    ensures r == FirstSection(table, text, 0)
  {
    var k := 0;
    while k < |table|
      invariant k <= |table|
      invariant FirstSection(table, text, 0) == FirstSection(table, text, k)
    {
      var ps := table[k].1;
      var j := 0;
      while j < |ps|
        invariant j <= |ps|
        invariant FirstPattern(ps, text, 0) == FirstPattern(ps, text, j)
      {
        var m := Search(text, ps[j]);
        if m.Some? {
          return Some((k, m.value.1));
        }
        j := j + 1;
      }
      k := k + 1;
    }
    return None;
  }

  // ---------------------------------------------------------------------------
  // Body lines that are never stored

  predicate IsOrdinal(c: char)
  {
    c in {'一', '二', '三', '四', '五', '六', '七', '八', '九', '十'}
  }

  /** `^第.+?[章节]`: 第, at least one character other than a newline, then 章 or 节. */
  predicate ChapterPrefix(t: string)
  {
    |t| >= 3 && t[0] == '第' &&
    exists j :: 2 <= j < |t| && (t[j] == '章' || t[j] == '节') && Lacks(t[1..j], '\n')
  }

  /** `^[一二三四五六七八九十]+、`. */
  predicate OrdinalPrefix(t: string)
  {
    exists j :: 1 <= j < |t| && t[j] == '、' && forall i :: 0 <= i < j ==> IsOrdinal(t[i])
  }

  /** The 各论 heading, chapter and section headings and Chinese-ordinal
      headings. */
  predicate Excluded(t: string)
  {
    t == "各论" || ChapterPrefix(t) || OrdinalPrefix(t)
  }

  /** `(.*)` after a match: the rest of the line. */
  function RestOfLine(text: string, e: nat): (r: string)
    requires e <= |text|
    ensures Lacks(r, '\n')
    ensures |r| <= |text| - e && r == text[e..e + |r|]
  {
    var k := IndexOf(text[e..], '\n');
    if k < 0 then text[e..]
    else
      assert text[e..][..k] == text[e..e + k];
      text[e..e + k]
  }

  // ---------------------------------------------------------------------------
  // The fields and the state machine

  /** `herb_detail`'s section fields: strings for scalars, lists for the rest. */
  datatype Detail = Detail(text: map<Section, string>, items: map<Section, seq<string>>)

  function TextOf(d: Detail, s: Section): string
  {
    if s in d.text then d.text[s] else ""
  }

  function ItemsOf(d: Detail, s: Section): seq<string>
  {
    if s in d.items then d.items[s] else []
  }

  /** Every scalar field "" and every list field []. */
  function EmptyDetail(): Detail
  {
    Detail(
      map[MedicinalPart := "", TasteMeridian := "", Effects := "", PrescriptionName := "", UsageDosage := ""],
      map[ClinicalApplication := [], Notes := [], Formulas := [], Literature := [], AffiliatedHerbs := []])
  }

  /** Header content: a scalar field is overwritten, a list field gets an entry. */
  function Put(d: Detail, s: Section, c: string): Detail
  {
    if IsScalar(s) then d.(text := d.text[s := c])
    else d.(items := d.items[s := ItemsOf(d, s) + [c]])
  }

  /** Body text: a scalar field is set when empty and otherwise extended
      after a newline; a list field gets an entry. */
  function Add(d: Detail, s: Section, t: string): Detail
  {
    if IsScalar(s) then
      d.(text := d.text[s := if TextOf(d, s) == "" then t else TextOf(d, s) + "\n" + t])
    else d.(items := d.items[s := ItemsOf(d, s) + [t]])
  }

  /** `current_section`, `last_section_title` and `herb_detail`. */
  datatype State = State(current: Option<Section>, lastTitle: Option<string>, detail: Detail)

  function InitialState(): State
  {
    State(None, None, EmptyDetail())
  }

  /** One element of `all_elements`. */
  function Step(table: Table, st: State, t: string): State
  {
    if t == [] then st
    else
      match Detect(table, t)
      case Some(h) =>
        var content := Strip(RestOfLine(t, h.1));
        State(Some(h.0), Some(t), if content != [] then Put(st.detail, h.0, content) else st.detail)
      case None =>
        if st.current.None? || Excluded(t) || st.lastTitle == Some(t) then st
        else st.(detail := Add(st.detail, st.current.value, t))
  }

  /** The state after the loop has visited `elements`. */
  function Run(table: Table, st: State, elements: seq<string>): State
    decreases |elements|
  {
    if elements == [] then st
    else Step(table, Run(table, st, elements[..|elements| - 1]), elements[|elements| - 1])
  }

  /** The section fields of a page whose content elements have the texts `elements`. */
  function Sections(elements: seq<string>): Detail
  {
    Run(HeaderTable, InitialState(), elements).detail
  }

  /** The element loop of `parse_herb_detail`. */
  method ParseSections(table: Table, elements: seq<string>) returns (d: Detail)
    ensures d == Run(table, InitialState(), elements).detail
  {
    var current: Option<Section> := None;
    var lastTitle: Option<string> := None;
    d := EmptyDetail();
    var i := 0;
    while i < |elements|
      invariant i <= |elements|
      invariant State(current, lastTitle, d) == Run(table, InitialState(), elements[..i])
    {
      assert elements[..i + 1][..i] == elements[..i];
      current, lastTitle, d := VisitElement(table, current, lastTitle, d, elements[i]);
      i := i + 1;
    }
    assert elements[..i] == elements;
  }

  /** The body of the element loop for the element text `t`. */
  method VisitElement(table: Table, current: Option<Section>, lastTitle: Option<string>, d: Detail, t: string)
    returns (current': Option<Section>, lastTitle': Option<string>, d': Detail)
    ensures State(current', lastTitle', d') == Step(table, State(current, lastTitle, d), t)
  {
    current', lastTitle', d' := current, lastTitle, d;
    if t != [] {
      var h := FindHeader(table, t);
      if h.Some? {
        var section := table[h.value.0].0;
        var content := Strip(RestOfLine(t, h.value.1));
        if content != [] {
          if IsScalar(section) {
            d' := d.(text := d.text[section := content]);
          } else {
            d' := d.(items := d.items[section := ItemsOf(d, section) + [content]]);
          }
        }
        current' := Some(section);
        lastTitle' := Some(t);
      } else if current.Some? && !Excluded(t) && lastTitle != Some(t) {
        var s := current.value;
        if IsScalar(s) {
          if TextOf(d, s) == "" {
            d' := d.(text := d.text[s := t]);
          } else {
            d' := d.(text := d.text[s := TextOf(d, s) + "\n" + t]);
          }
        } else {
          d' := d.(items := d.items[s := ItemsOf(d, s) + [t]]);
        }
      }
    }
  }

  // ---------------------------------------------------------------------------
  // What the state machine promises

  lemma TableRanks()
    ensures |HeaderTable| == 10
    ensures forall j :: 0 <= j < |HeaderTable| ==> Rank(HeaderTable[j].0) == j
  {
  }

  /** When an element contains the headers of several sections, the section
      declared first wins. */
  lemma HeaderFirstMatchWins(t: string, k: nat)
    requires k < |HeaderTable| && FirstPattern(HeaderTable[k].1, t, 0).Some?
    ensures Detect(HeaderTable, t).Some?
    ensures Rank(Detect(HeaderTable, t).value.0) <= k
  {
    TableRanks();
    var m := FirstSection(HeaderTable, t, 0);
    assert m.Some? && m.value.0 <= k;
  }

  lemma {:induction false} RunAppend(table: Table, st: State, a: seq<string>, b: seq<string>)
    ensures Run(table, st, a + b) == Run(table, Run(table, st, a), b)
    decreases |b|
  {
    if b == [] {
      assert a + b == a;
    } else {
      assert (a + b)[..|a + b| - 1] == a + b[..|b| - 1];
      RunAppend(table, st, a, b[..|b| - 1]);
    }
  }

  /** An element the loop skips without touching the state. */
  predicate Ignored(table: Table, st: State, t: string)
  {
    t == [] || (Detect(table, t).None? && (st.current.None? || Excluded(t) || st.lastTitle == Some(t)))
  }

  /** Empty elements, body text before the first header, excluded headings
      and repetitions of the header text leave everything as it was. */
  lemma {:induction false} RunIgnored(table: Table, st: State, xs: seq<string>)
    requires forall i :: 0 <= i < |xs| ==> Ignored(table, st, xs[i])
    ensures Run(table, st, xs) == st
    decreases |xs|
  {
    if xs != [] {
      RunIgnored(table, st, xs[..|xs| - 1]);
    }
  }

  /** A body line stored under the current section. */
  predicate IsBody(table: Table, title: string, t: string)
  {
    t != [] && Detect(table, t).None? && !Excluded(t) && t != title
  }

  /** The entries a scalar field's body lines are joined from, after what it held. */
  function Lines(prior: string, xs: seq<string>): seq<string>
  {
    (if prior == "" then [] else [prior]) + xs
  }

  lemma JoinNonEmpty(parts: seq<string>)
    requires parts != [] && parts[0] != []
    ensures Join("\n", parts) != []
  {
  }

  /** `d1` differs from `d0` at most in the text of section `s`. */
  predicate OnlyText(d0: Detail, d1: Detail, s: Section)
  {
    d1.items == d0.items && forall s' :: s' != s ==> TextOf(d1, s') == TextOf(d0, s')
  }

  /** `d1` differs from `d0` at most in the entries of section `s`. */
  predicate OnlyItems(d0: Detail, d1: Detail, s: Section)
  {
    d1.text == d0.text && forall s' :: s' != s ==> ItemsOf(d1, s') == ItemsOf(d0, s')
  }

  lemma StepBody(table: Table, st: State, t: string)
    requires st.current.Some? && st.lastTitle.Some? && IsBody(table, st.lastTitle.value, t)
    ensures Step(table, st, t) == st.(detail := Add(st.detail, st.current.value, t))
  {
  }

  /** Body lines under a scalar section are joined with newlines, after what
      the field held; nothing else changes. */
  lemma {:induction false} RunScalarBody(table: Table, st: State, xs: seq<string>)
    requires st.current.Some? && IsScalar(st.current.value) && st.lastTitle.Some?
    requires forall i :: 0 <= i < |xs| ==> IsBody(table, st.lastTitle.value, xs[i])
    ensures Run(table, st, xs).current == st.current && Run(table, st, xs).lastTitle == st.lastTitle
    ensures TextOf(Run(table, st, xs).detail, st.current.value) ==
      Join("\n", Lines(TextOf(st.detail, st.current.value), xs))
    ensures OnlyText(st.detail, Run(table, st, xs).detail, st.current.value)
    decreases |xs|
  {
    var s := st.current.value;
    var prior := TextOf(st.detail, s);
    if xs == [] {
      if prior != "" {
        assert Lines(prior, xs) == [prior];
      }
    } else {
      var ys := xs[..|xs| - 1];
      RunScalarBody(table, st, ys);
      StepBody(table, Run(table, st, ys), xs[|xs| - 1]);
      JoinLinesSnoc(prior, ys, xs[|xs| - 1]);
      assert ys + [xs[|xs| - 1]] == xs;
    }
  }

  /** Appending a body line to a scalar field extends the newline join. */
  lemma JoinLinesSnoc(prior: string, ys: seq<string>, t: string)
    requires t != []
    requires forall i :: 0 <= i < |ys| ==> ys[i] != []
    ensures var before := Join("\n", Lines(prior, ys));
      Join("\n", Lines(prior, ys + [t])) == if before == "" then t else before + "\n" + t
  {
    assert Lines(prior, ys + [t]) == Lines(prior, ys) + [t];
    if Lines(prior, ys) == [] {
      assert Lines(prior, ys + [t]) == [t];
    } else {
      JoinNonEmpty(Lines(prior, ys));
      JoinSnoc("\n", Lines(prior, ys), t);
    }
  }

  /** Body lines under a list section become its next entries, in order;
      nothing else changes. */
  lemma {:induction false} RunListBody(table: Table, st: State, xs: seq<string>)
    requires st.current.Some? && !IsScalar(st.current.value) && st.lastTitle.Some?
    requires forall i :: 0 <= i < |xs| ==> IsBody(table, st.lastTitle.value, xs[i])
    ensures Run(table, st, xs).current == st.current && Run(table, st, xs).lastTitle == st.lastTitle
    ensures ItemsOf(Run(table, st, xs).detail, st.current.value) == ItemsOf(st.detail, st.current.value) + xs
    ensures OnlyItems(st.detail, Run(table, st, xs).detail, st.current.value)
    decreases |xs|
  {
    if xs != [] {
      var ys := xs[..|xs| - 1];
      RunListBody(table, st, ys);
      StepBody(table, Run(table, st, ys), xs[|xs| - 1]);
      assert ys + [xs[|xs| - 1]] == xs;
    }
  }

  /** What one section collects: a header element followed by body lines. A
      scalar field becomes the header's own content (or, when that is empty,
      what the field held) and the body lines, joined by newlines; a list
      field gains the header's content, when there is any, and one entry per
      body line. */
  lemma SectionCollects(table: Table, st: State, h: string, xs: seq<string>)
    requires h != [] && Detect(table, h).Some?
    requires forall i :: 0 <= i < |xs| ==> IsBody(table, h, xs[i])
    ensures var s := Detect(table, h).value.0;
      var c := Strip(RestOfLine(h, Detect(table, h).value.1));
      var r := Run(table, st, [h] + xs);
      r.current == Some(s) &&
      (IsScalar(s) ==>
        TextOf(r.detail, s) == Join("\n", Lines(if c != [] then c else TextOf(st.detail, s), xs))) &&
      (!IsScalar(s) ==>
        ItemsOf(r.detail, s) == ItemsOf(st.detail, s) + (if c != [] then [c] else []) + xs)
  {
    RunAppend(table, st, [h], xs);
    HeaderOpens(table, st, h);
    var st1 := Run(table, st, [h]);
    if IsScalar(st1.current.value) {
      RunScalarBody(table, st1, xs);
    } else {
      RunListBody(table, st1, xs);
    }
  }

  /** A header line opens its section and puts its own content there. */
  lemma HeaderOpens(table: Table, st: State, h: string)
    requires h != [] && Detect(table, h).Some?
    ensures var s := Detect(table, h).value.0;
      var c := Strip(RestOfLine(h, Detect(table, h).value.1));
      var st1 := Run(table, st, [h]);
      st1.current == Some(s) && st1.lastTitle == Some(h) &&
      (IsScalar(s) ==> TextOf(st1.detail, s) == if c != [] then c else TextOf(st.detail, s)) &&
      (!IsScalar(s) ==> ItemsOf(st1.detail, s) == ItemsOf(st.detail, s) + (if c != [] then [c] else []))
  {
    assert [h][..0] == [];
  }
}
