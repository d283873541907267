/** The list post-processing of the zysj detail-page parser: numbered items
    are re-split, a lone comma-separated affiliated-herb entry is split on
    its commas, and formula and literature paragraphs are grouped into
    entries. */
module ZysjShaping {
  import opened Wrappers
  import opened Strings
  import opened Cleaning
  import opened ZysjSections

  // ---------------------------------------------------------------------------
  // Numbered prefixes

  /** End of the run of Chinese ordinals starting at `i`. */
  function OrdinalsEnd(s: string, i: nat): (j: nat)
    requires i <= |s|
    ensures i <= j <= |s|
    ensures j == |s| || !IsOrdinal(s[j])
    decreases |s| - i
  {
    if i < |s| && IsOrdinal(s[i]) then OrdinalsEnd(s, i + 1) else i
  }

  /** Where the marker `\d+\.|[一二三四五六七八九十]+、|\(\d+\)|\d+）`
      starting at `i` ends, alternatives tried in that order. */
  function MarkerEnd(s: string, i: nat): (r: Option<nat>)
    requires i <= |s|
    ensures r.Some? ==> i < r.value <= |s|
  {
    var d := DigitsEnd(s, i);
    var o := OrdinalsEnd(s, i);
    if d > i && d < |s| && s[d] == '.' then Some(d + 1)
    else if o > i && o < |s| && s[o] == '、' then Some(o + 1)
    else if i < |s| && s[i] == '(' && DigitsEnd(s, i + 1) > i + 1 && DigitsEnd(s, i + 1) < |s|
      && s[DigitsEnd(s, i + 1)] == ')' then Some(DigitsEnd(s, i + 1) + 1)
    else if d > i && d < |s| && s[d] == '）' then Some(d + 1)
    else None
  }

  /** `\s*` followed by a marker, from `i`: where the marker ends. */
  function MarkerAfterSpace(s: string, i: nat): (r: Option<nat>)
    requires i <= |s|
    ensures r.Some? ==> i < r.value <= |s|
  {
    MarkerEnd(s, SpacesEnd(s, i))
  }

  /** `re.match(r'^\s*(?:\d+\.|[一二三四五六七八九十]+、|\(\d+\)|\d+）)', item)`. */
  predicate IsNumbered(t: string)
  {
    MarkerAfterSpace(t, 0).Some?
  }

  /** A newline at `q` that is followed by a numbered prefix. */
  predicate SplitPoint(s: string, q: nat)
  {
    q < |s| && s[q] == '\n' && MarkerAfterSpace(s, q + 1).Some?
  }

  /** The first split point at or after `p`, or `|s|`. */
  function NextSplit(s: string, p: nat): (q: nat)
    requires p <= |s|
    ensures p <= q <= |s|
    ensures q < |s| ==> SplitPoint(s, q)
    ensures forall k :: p <= k < q ==> !SplitPoint(s, k)
    decreases |s| - p
  {
    if p == |s| || SplitPoint(s, p) then p else NextSplit(s, p + 1)
  }

  /** The pieces `re.findall` returns for a numbered item, from a piece
      starting at `start` whose marker ends at `me`: each piece runs up to the
      next newline that is followed by a numbered prefix. Together the pieces
      make up the rest of the item. */
  function Pieces(s: string, start: nat, me: nat): (r: seq<string>)
    requires start < me <= |s|
    ensures |r| >= 1
    ensures Concat(r) == s[start..]
    decreases |s| - start
  {
    var q := NextSplit(s, me);
    if q == |s| then [s[start..]]
    else
      var rest := Pieces(s, q, MarkerAfterSpace(s, q + 1).value);
      assert s[start..] == s[start..q] + s[q..];
      [s[start..q]] + rest
  }

  /** `[p.strip() for p in ps]`. */
  function StripAll(ps: seq<string>): (r: seq<string>)
    ensures |r| == |ps|
    decreases |ps|
  {
    if ps == [] then [] else StripAll(ps[..|ps| - 1]) + [Strip(ps[|ps| - 1])]
  }

  /** The stripped sub-items of a numbered item. */
  function SubItems(item: string): (r: seq<string>)
    requires IsNumbered(item)
    ensures |r| >= 1
  {
    StripAll(Pieces(item, 0, MarkerAfterSpace(item, 0).value))
  }

  /** `numbered_items`: the sub-items of the numbered items, in order. */
  function NumberedOf(items: seq<string>): seq<string>
    decreases |items|
  {
    if items == [] then []
    else
      var last := items[|items| - 1];
      NumberedOf(items[..|items| - 1]) + (if IsNumbered(last) then SubItems(last) else [])
  }

  /** `non_numbered_items`: the other items, stripped, in order. */
  function PlainOf(items: seq<string>): seq<string>
    decreases |items|
  {
    if items == [] then []
    else
      var last := items[|items| - 1];
      PlainOf(items[..|items| - 1]) + (if IsNumbered(last) then [] else [Strip(last)])
  }

  /** `[s.strip() for s in t.split('，') if s.strip()]`. */
  function CommaParts(parts: seq<string>): (r: seq<string>)
    ensures |r| <= |parts|
    ensures forall i :: 0 <= i < |r| ==> r[i] != [] && NoEdgeSpace(r[i])
    decreases |parts|
  {
    if parts == [] then []
    else
      var p := Strip(parts[|parts| - 1]);
      CommaParts(parts[..|parts| - 1]) + (if p != [] then [p] else [])
  }

  function CommaSplit(t: string): seq<string>
  {
    CommaParts(SplitOn(t, '，'))
  }

  /** A lone affiliated-herb entry that lists names separated by '，' and is
      no sentence. */
  predicate CommaList(plain: seq<string>)
  {
    |plain| == 1 && '，' in plain[0] && '。' !in plain[0] && '；' !in plain[0]
  }

  /** The shaped value of a clinical-application, notes or affiliated-herbs
      list (`affiliated` for the last). */
  function Shaped(items: seq<string>, affiliated: bool): seq<string>
  {
    if items == [] then []
    else if NumberedOf(items) != [] then NumberedOf(items)
    else if affiliated && CommaList(PlainOf(items)) && |CommaSplit(PlainOf(items)[0])| > 1 then
      CommaSplit(PlainOf(items)[0])
    else PlainOf(items)
  }

  lemma ShapeStep(items: seq<string>, i: nat)
    requires i < |items|
    ensures NumberedOf(items[..i + 1]) ==
      NumberedOf(items[..i]) + (if IsNumbered(items[i]) then SubItems(items[i]) else [])
    ensures PlainOf(items[..i + 1]) == PlainOf(items[..i]) + (if IsNumbered(items[i]) then [] else [Strip(items[i])])
  {
    assert items[..i + 1][..i] == items[..i];
  }

  /** The numbered-item loop and the choice that follows it. */
  method ShapeNumbered(items: seq<string>, affiliated: bool) returns (r: seq<string>)
    ensures r == Shaped(items, affiliated)
  {
    if items == [] {
      return items;
    }
    var numbered: seq<string> := [];
    var plain: seq<string> := [];
    var i := 0;
    while i < |items|
      invariant i <= |items|
      invariant numbered == NumberedOf(items[..i])
      invariant plain == PlainOf(items[..i])
    {
      ShapeStep(items, i);
      if IsNumbered(items[i]) {
        numbered := numbered + SubItems(items[i]);
      } else {
        plain := plain + [Strip(items[i])];
      }
      i := i + 1;
    }
    assert items[..i] == items;
    if numbered != [] {
      r := numbered;
    } else if affiliated && CommaList(plain) {
      var split := CommaSplit(plain[0]);
      r := if |split| > 1 then split else plain;
    } else {
      r := plain;
    }
  }

  // ---------------------------------------------------------------------------
  // What the numbered shaping promises

  /** There are numbered sub-items exactly when some item is numbered. */
  lemma {:induction false} NumberedOfEmpty(items: seq<string>)
    ensures NumberedOf(items) == [] <==> forall i :: 0 <= i < |items| ==> !IsNumbered(items[i])
    decreases |items|
  {
    if items != [] {
      var init := items[..|items| - 1];
      NumberedOfEmpty(init);
      assert forall i :: 0 <= i < |init| ==> init[i] == items[i];
    }
  }

  /** Every numbered sub-item comes from a numbered item. */
  lemma {:induction false} NumberedOfFrom(items: seq<string>, x: string)
    requires x in NumberedOf(items)
    ensures exists j :: 0 <= j < |items| && IsNumbered(items[j]) && x in SubItems(items[j])
    decreases |items|
  {
    var init := items[..|items| - 1];
    var last := items[|items| - 1];
    var tail := if IsNumbered(last) then SubItems(last) else [];
    assert NumberedOf(items) == NumberedOf(init) + tail;
    if x in NumberedOf(init) {
      NumberedOfFrom(init, x);
      var j :| 0 <= j < |init| && IsNumbered(init[j]) && x in SubItems(init[j]);
      assert items[j] == init[j];
    } else {
      assert x in tail;
      assert IsNumbered(last);
    }
  }

  /** Without numbered items every item is kept, stripped. */
  lemma {:induction false} PlainOfAll(items: seq<string>)
    requires forall i :: 0 <= i < |items| ==> !IsNumbered(items[i])
    ensures PlainOf(items) == StripAll(items)
    decreases |items|
  {
    if items != [] {
      var init := items[..|items| - 1];
      var last := items[|items| - 1];
      assert forall i :: 0 <= i < |init| ==> init[i] == items[i];
      PlainOfAll(init);
      assert !IsNumbered(last);
    }
  }

  /** Numbered items win: once one item is numbered, the field holds only
      sub-items of numbered items. */
  lemma ShapedNumbered(items: seq<string>, affiliated: bool, x: string)
    requires exists j :: 0 <= j < |items| && IsNumbered(items[j])
    requires x in Shaped(items, affiliated)
    ensures exists j :: 0 <= j < |items| && IsNumbered(items[j]) && x in SubItems(items[j])
  {
    NumberedOfEmpty(items);
    NumberedOfFrom(items, x);
  }

  /** Without numbered items the field holds every item stripped, except a
      lone affiliated-herb entry that lists names separated by '，': that one
      becomes its parts when there are several. */
  lemma ShapedPlain(items: seq<string>, affiliated: bool)
    requires forall j :: 0 <= j < |items| ==> !IsNumbered(items[j])
    ensures Shaped(items, affiliated) ==
      if affiliated && |items| == 1 && CommaList([Strip(items[0])]) && |CommaSplit(Strip(items[0]))| > 1
      then CommaSplit(Strip(items[0]))
      else StripAll(items)
  {
    if items != [] {
      NumberedOfEmpty(items);
      ShapedUnnumbered(items, affiliated);
      PlainOfAll(items);
      var plain := PlainOf(items);
      if |items| == 1 {
        assert items == [items[0]];
        PlainOfOne(items[0]);
        assert plain[0] == Strip(items[0]);
      } else {
        assert !CommaList(plain);
      }
    }
  }

  lemma ShapedUnnumbered(items: seq<string>, affiliated: bool)
    requires items != [] && NumberedOf(items) == []
    ensures Shaped(items, affiliated) ==
      if affiliated && CommaList(PlainOf(items)) && |CommaSplit(PlainOf(items)[0])| > 1
      then CommaSplit(PlainOf(items)[0])
      else PlainOf(items)
  {
  }

  lemma PlainOfOne(x: string)
    requires !IsNumbered(x)
    ensures PlainOf([x]) == [Strip(x)]
  {
    assert [x][..0] == [];
  }

  /** The parts of a comma split are non-empty, stripped and free of '，'. */
  lemma CommaSplitParts(t: string)
    ensures forall i :: 0 <= i < |CommaSplit(t)| ==>
      CommaSplit(t)[i] != [] && NoEdgeSpace(CommaSplit(t)[i]) && '，' !in CommaSplit(t)[i]
  {
    CommaPartsLack(SplitOn(t, '，'));
  }

  lemma {:induction false} CommaPartsLack(parts: seq<string>)
    requires forall k :: 0 <= k < |parts| ==> '，' !in parts[k]
    ensures forall i :: 0 <= i < |CommaParts(parts)| ==> '，' !in CommaParts(parts)[i]
    decreases |parts|
  {
    if parts != [] {
      var init := parts[..|parts| - 1];
      CommaPartsLack(init);
      var last := parts[|parts| - 1];
      StripKeeps(last, c => c != '，');
    }
  }

  // ---------------------------------------------------------------------------
  // Formula and literature grouping

  predicate IsColon(c: char)
  {
    c == '：' || c == ':'
  }

  /** `^[opens].+?[closes][：:]`: an opening bracket, a name without newlines,
      a closing bracket and a colon. */
  predicate BracketHead(t: string, opens: set<char>, closes: set<char>)
  {
    |t| >= 4 && t[0] in opens &&
    exists j :: 2 <= j < |t| - 1 && t[j] in closes && IsColon(t[j + 1]) && Lacks(t[1..j], '\n')
  }

  /** A formula entry starts at `[【\[（(]name[】\]）)][：:]`, a literature entry
      at `[《【\[]name[》】\]][：:]`. */
  predicate EntryStart(t: string, formulas: bool)
  {
    if formulas then BracketHead(t, {'【', '[', '（', '('}, {'】', ']', '）', ')'})
    else BracketHead(t, {'《', '【', '['}, {'》', '】', ']'})
  }

  /** Items the grouping drops: blank, 各论 and chapter or section headings. */
  predicate Dropped(t: string)
  {
    t == [] || t == "各论" || ChapterPrefix(t)
  }

  /** The stripped items the grouping keeps, in order. */
  function Kept(items: seq<string>): (r: seq<string>)
    ensures |r| <= |items|
    ensures forall i :: 0 <= i < |r| ==> r[i] != []
    decreases |items|
  {
    if items == [] then []
    else
      var t := Strip(items[|items| - 1]);
      Kept(items[..|items| - 1]) + (if Dropped(t) then [] else [t])
  }

  /** One kept item: a header closes the entry in progress and opens a new
      one; other text extends the entry in progress after a newline. */
  function GroupStep(done: seq<string>, cur: string, t: string, formulas: bool): (r: (seq<string>, string))
    ensures r.0 == done || (cur != [] && r.0 == done + [cur])
    ensures r.1 != [] <== t != []
  {
    if EntryStart(t, formulas) then (if cur != [] then done + [cur] else done, t)
    else (done, if cur != [] then cur + "\n" + t else t)
  }

  /** `cleaned_items` and `current_item` after the loop has visited `items`. */
  function GroupState(items: seq<string>, formulas: bool): (r: (seq<string>, string))
    ensures forall i :: 0 <= i < |r.0| ==> r.0[i] != []
    decreases |items|
  {
    if items == [] then ([], "")
    else
      var prev := GroupState(items[..|items| - 1], formulas);
      var t := Strip(items[|items| - 1]);
      if Dropped(t) then prev else GroupStep(prev.0, prev.1, t, formulas)
  }

  /** The grouped entries: the finished ones and the last, when non-empty. */
  function Grouped(items: seq<string>, formulas: bool): seq<string>
  {
    var (done, cur) := GroupState(items, formulas);
    if cur != [] then done + [cur] else done
  }

  lemma GroupStateSnoc(items: seq<string>, i: nat, formulas: bool)
    requires i < |items|
    ensures GroupState(items[..i + 1], formulas) ==
      var t := Strip(items[i]);
      if Dropped(t) then GroupState(items[..i], formulas)
      else GroupStep(GroupState(items[..i], formulas).0, GroupState(items[..i], formulas).1, t, formulas)
  {
    assert items[..i + 1][..i] == items[..i];
  }

  /** The grouping loop of `parse_herb_detail`. */
  method GroupEntries(items: seq<string>, formulas: bool) returns (r: seq<string>)
    ensures r == Grouped(items, formulas)
  {
    var done: seq<string> := [];
    var cur := "";
    var i := 0;
    while i < |items|
      invariant i <= |items|
      invariant (done, cur) == GroupState(items[..i], formulas)
    {
      var t := Strip(items[i]);
      GroupStateSnoc(items, i, formulas);
      if !Dropped(t) {
        if EntryStart(t, formulas) {
          if cur != [] {
            done := done + [cur];
          }
          cur := t;
        } else if cur != [] {
          cur := cur + "\n" + t;
        } else {
          cur := t;
        }
      }
      i := i + 1;
    }
    assert items[..i] == items;
    r := if cur != [] then done + [cur] else done;
  }

  // ---------------------------------------------------------------------------
  // What the grouping promises

  lemma JoinExtendLast(done: seq<string>, c: string, t: string)
    ensures Join("\n", done + [c + "\n" + t]) == Join("\n", done + [c]) + "\n" + t
  {
    if done == [] {
      assert done + [c + "\n" + t] == [c + "\n" + t];
      assert done + [c] == [c];
    } else {
      JoinSnoc("\n", done, c + "\n" + t);
      JoinSnoc("\n", done, c);
    }
  }

  /** An entry start stays one when text is appended after it. */
  lemma EntryStartExtends(c: string, x: string, formulas: bool)
    requires EntryStart(c, formulas)
    ensures EntryStart(c + x, formulas)
  {
    var opens: set<char> := if formulas then {'【', '[', '（', '('} else {'《', '【', '['};
    var closes: set<char> := if formulas then {'】', ']', '）', ')'} else {'》', '】', ']'};
    assert BracketHead(c, opens, closes);
    var j :| 2 <= j < |c| - 1 && c[j] in closes && IsColon(c[j + 1]) && Lacks(c[1..j], '\n');
    assert (c + x)[1..j] == c[1..j];
    assert (c + x)[j] == c[j] && (c + x)[j + 1] == c[j + 1];
  }

  /** The entries in progress, the current one included when non-empty. */
  function Open(done: seq<string>, cur: string): seq<string>
  {
    if cur != [] then done + [cur] else done
  }

  /** Every entry but the first starts at an entry header. */
  predicate HeadedAfterFirst(es: seq<string>, formulas: bool)
  {
    forall i :: 1 <= i < |es| ==> EntryStart(es[i], formulas)
  }

  /** How many of `kept` are entry headers. */
  function HeaderCount(kept: seq<string>, formulas: bool): (n: nat)
    ensures n <= |kept|
  {
    if kept == [] then 0
    else HeaderCount(kept[..|kept| - 1], formulas) + (if EntryStart(kept[|kept| - 1], formulas) then 1 else 0)
  }

  /** The entries grouping should produce: one per header item, plus one
      for leading items that come before any header. */
  function EntryCount(kept: seq<string>, formulas: bool): nat
  {
    HeaderCount(kept, formulas) + (if kept != [] && !EntryStart(kept[0], formulas) then 1 else 0)
  }

  lemma EntryCountSnoc(kept: seq<string>, t: string, formulas: bool)
    ensures EntryCount(kept + [t], formulas) ==
      EntryCount(kept, formulas) + (if EntryStart(t, formulas) || kept == [] then 1 else 0)
  {
    assert (kept + [t])[..|kept|] == kept;
    assert (kept + [t])[0] == if kept == [] then t else kept[0];
  }

  /** Invariant of the grouping loop, after the items `kept` were kept. */
  predicate GroupInv(done: seq<string>, cur: string, kept: seq<string>, formulas: bool)
  {
    (cur == [] <==> kept == []) && (cur == [] ==> done == []) &&
    Join("\n", Open(done, cur)) == Join("\n", kept) &&
    |Open(done, cur)| <= |kept| &&
    |Open(done, cur)| == EntryCount(kept, formulas) &&
    HeadedAfterFirst(Open(done, cur), formulas)
  }

  lemma GroupStepKeeps(done: seq<string>, cur: string, kept: seq<string>, t: string, formulas: bool)
    requires t != [] && GroupInv(done, cur, kept, formulas)
    ensures var (done', cur') := GroupStep(done, cur, t, formulas);
      GroupInv(done', cur', kept + [t], formulas)
  {
    EntryCountSnoc(kept, t, formulas);
    if kept != [] {
      JoinSnoc("\n", kept, t);
    } else {
      assert kept + [t] == [t];
    }
    if EntryStart(t, formulas) {
      if cur != [] {
        JoinSnoc("\n", done + [cur], t);
      }
    } else if cur != [] {
      JoinExtendLast(done, cur, t);
      if |done| >= 1 {
        assert Open(done, cur)[|done|] == cur;
        EntryStartExtends(cur, "\n" + t, formulas);
        assert cur + "\n" + t == cur + ("\n" + t);
      }
      var grown := done + [cur + "\n" + t];
      assert Open(done, cur + "\n" + t) == grown;
      assert Open(done, cur) == done + [cur];
      forall i | 1 <= i < |grown| ensures EntryStart(grown[i], formulas) {
        if i < |done| {
          assert grown[i] == (done + [cur])[i];
        }
      }
    }
  }

  lemma {:induction false} GroupStateMeaning(items: seq<string>, formulas: bool)
    ensures GroupInv(GroupState(items, formulas).0, GroupState(items, formulas).1, Kept(items), formulas)
    decreases |items|
  {
    if items != [] {
      var init := items[..|items| - 1];
      GroupStateMeaning(init, formulas);
      var (done, cur) := GroupState(init, formulas);
      var t := Strip(items[|items| - 1]);
      assert Kept(items) == Kept(init) + (if Dropped(t) then [] else [t]);
      if !Dropped(t) {
        assert GroupState(items, formulas) == GroupStep(done, cur, t, formulas);
        GroupStepKeeps(done, cur, Kept(init), t, formulas);
      } else {
        assert Kept(items) == Kept(init);
      }
    }
  }

  /** The newline join of the entries is the newline join of the kept items,
      there are no more entries than kept items, a new entry starts only at a
      bracketed name followed by a colon, and every such header item starts
      one: there is one entry per header, plus one for any items before the
      first header. */
  lemma GroupedMeaning(items: seq<string>, formulas: bool)
    ensures Join("\n", Grouped(items, formulas)) == Join("\n", Kept(items))
    ensures |Grouped(items, formulas)| <= |Kept(items)|
    ensures |Grouped(items, formulas)| == EntryCount(Kept(items), formulas)
    ensures HeadedAfterFirst(Grouped(items, formulas), formulas)
    ensures forall i :: 0 <= i < |Grouped(items, formulas)| ==> Grouped(items, formulas)[i] != []
  {
    GroupStateMeaning(items, formulas);
  }
}
