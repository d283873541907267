/** The text normalisers of the batch processor: whitelist cleanup, pinyin
    capitalisation, the property/taste keyword split and dosage rewriting. */
module Cleaning {
  import opened Strings
  import opened Wrappers

  // ---------------------------------------------------------------------------
  // clean_text

  /** The punctuation the cleanup whitelist keeps besides CJK, word characters
      and whitespace. The source writes the class as two adjacent literals, so
      the ASCII apostrophe is not in it while the double quote is. */
  const Punctuation: set<char> :=
    {',', '，', ';', '；', '、', '。', '！', '？', '"', '(', ')', '（', '）',
     '【', '】', '[', ']', ':', '：', '·'}

  /** The characters the cleanup keeps. */
  predicate Allowed(c: char)
  {
    IsCjk(c) || IsWordChar(c) || IsSpace(c) || c in Punctuation
  }

  /** `re.sub(r'\s+', ' ', s)`: every run of whitespace becomes one space. */
  function CollapseSpace(s: string): (r: string)
    ensures |r| <= |s| && (r == [] <==> s == [])
    ensures PlainSpaces(r)
    ensures NoDoubleSpace(r)
    ensures s != [] ==> (r[0] == ' ' <==> IsSpace(s[0]))
    decreases |s|
  {
    if s == [] then []
    else if IsSpace(s[0]) then [' '] + CollapseSpace(TrimStart(s[1..]))
    else [s[0]] + CollapseSpace(s[1..])
  }

  /** Collapsing only adds spaces, so a property of all input characters that
      the space also has holds of the result. */
  lemma {:induction false} CollapseSpaceKeeps(s: string, P: char -> bool)
    requires P(' ') && AllChars(s, P)
    ensures AllChars(CollapseSpace(s), P)
    decreases |s|
  {
    if s != [] {
      if IsSpace(s[0]) {
        var t := TrimStart(s[1..]);
        assert AllChars(t, P) by {
          forall i | 0 <= i < |t| ensures P(t[i]) {
            assert t[i] == s[1..][|s[1..]| - |t| + i];
          }
        }
        CollapseSpaceKeeps(t, P);
      } else {
        CollapseSpaceKeeps(s[1..], P);
      }
    }
  }

  /** The characters of `s` that are not whitespace, in order. */
  function NonSpace(s: string): (r: string)
    ensures |r| <= |s|
    ensures forall i :: 0 <= i < |r| ==> !IsSpace(r[i])
  {
    if s == [] then []
    else if IsSpace(s[0]) then NonSpace(s[1..])
    else [s[0]] + NonSpace(s[1..])
  }

  /** Skipping leading whitespace loses no other character. */
  lemma {:induction false} NonSpaceTrimStart(s: string)
    ensures NonSpace(TrimStart(s)) == NonSpace(s)
    decreases |s|
  {
    if s != [] && IsSpace(s[0]) {
      NonSpaceTrimStart(s[1..]);
    }
  }

  lemma {:induction false} NonSpaceAppend(a: string, b: string)
    ensures NonSpace(a + b) == NonSpace(a) + NonSpace(b)
    decreases |a|
  {
    if a == [] {
      assert a + b == b;
    } else {
      assert (a + b)[0] == a[0] && (a + b)[1..] == a[1..] + b;
      NonSpaceAppend(a[1..], b);
    }
  }

  /** A word without whitespace is its own non-space text. */
  lemma {:induction false} NonSpaceOfWord(w: string)
    requires NoSpace(w)
    ensures NonSpace(w) == w
    decreases |w|
  {
    if w != [] {
      assert NoSpace(w[1..]) by {
        forall i | 0 <= i < |w[1..]| ensures !IsSpace(w[1..][i]) {
          assert w[1..][i] == w[i + 1];
        }
      }
      NonSpaceOfWord(w[1..]);
    }
  }

  /** Dropping trailing whitespace loses no other character. */
  lemma {:induction false} NonSpaceTrimEnd(s: string)
    ensures NonSpace(TrimEnd(s)) == NonSpace(s)
    decreases |s|
  {
    if s != [] && IsSpace(s[|s| - 1]) {
      var init := s[..|s| - 1];
      NonSpaceTrimEnd(init);
      assert s == init + [s[|s| - 1]];
      NonSpaceAppend(init, [s[|s| - 1]]);
      assert [s[|s| - 1]][1..] == [];
    }
  }

  /** `str.strip()` loses no character other than whitespace. */
  lemma NonSpaceStrip(s: string)
    ensures NonSpace(Strip(s)) == NonSpace(s)
  {
    NonSpaceTrimStart(s);
    NonSpaceTrimEnd(TrimStart(s));
  }

  /** Whitespace is always whitelisted, so dropping it and filtering by the
      whitelist can be done in either order. */
  lemma {:induction false} NonSpaceKeepAllowed(s: string, extra: set<char>)
    ensures NonSpace(KeepAllowed(s, extra)) == KeepAllowed(NonSpace(s), extra)
    decreases |s|
  {
    if s != [] {
      NonSpaceKeepAllowed(s[1..], extra);
      if IsSpace(s[0]) {
        assert Allowed(s[0]);
        assert ([s[0]] + KeepAllowed(s[1..], extra))[1..] == KeepAllowed(s[1..], extra);
      } else if Allowed(s[0]) || s[0] in extra {
        assert ([s[0]] + KeepAllowed(s[1..], extra))[1..] == KeepAllowed(s[1..], extra);
        assert ([s[0]] + NonSpace(s[1..]))[1..] == NonSpace(s[1..]);
      } else {
        assert ([s[0]] + NonSpace(s[1..]))[1..] == NonSpace(s[1..]);
      }
    }
  }

  /** Collapsing changes only the whitespace: the other characters of the
      text are all kept, in their order, and none is added. */
  lemma {:induction false} CollapseSpaceKeepsText(s: string)
    ensures NonSpace(CollapseSpace(s)) == NonSpace(s)
    decreases |s|
  {
    if s != [] {
      if IsSpace(s[0]) {
        var t := TrimStart(s[1..]);
        var c := CollapseSpace(t);
        NonSpaceTrimStart(s[1..]);
        CollapseSpaceKeepsText(t);
        assert ([' '] + c)[1..] == c;
      } else {
        var c := CollapseSpace(s[1..]);
        CollapseSpaceKeepsText(s[1..]);
        assert ([s[0]] + c)[1..] == c;
      }
    }
  }

  /** Index of the first occurrence of `c` in `s`, or -1. */
  function IndexOf(s: string, c: char): (r: int)
    ensures -1 <= r < |s|
    ensures r >= 0 ==> s[r] == c && Lacks(s[..r], c)
    ensures r == -1 ==> Lacks(s, c)
  {
    if s == [] then -1
    else if s[0] == c then 0
    else
      var k := IndexOf(s[1..], c);
      if k == -1 then -1 else k + 1
  }

  /** `re.sub(r'<[^>]+>', '', s)`: a `<`, at least one character other than
      `>`, and the first `>` after it are deleted, scanning left to right. */
  function StripTags(s: string): (r: string)
    ensures |r| <= |s|
    ensures Lacks(s, '<') ==> r == s
    decreases |s|
  {
    if s == [] then []
    else
      var p := IndexOf(s[1..], '>');
      if s[0] == '<' && p >= 1 then StripTags(s[p + 2..])
      else [s[0]] + StripTags(s[1..])
  }

  /** Tag removal only deletes characters. */
  lemma {:induction false} StripTagsKeeps(s: string, P: char -> bool)
    requires AllChars(s, P)
    ensures AllChars(StripTags(s), P)
    decreases |s|
  {
    if s != [] {
      var p := IndexOf(s[1..], '>');
      if s[0] == '<' && p >= 1 {
        var t := s[p + 2..];
        assert AllChars(t, P) by {
          forall i | 0 <= i < |t| ensures P(t[i]) {
            assert t[i] == s[p + 2 + i];
          }
        }
        StripTagsKeeps(t, P);
      } else {
        assert AllChars(s[1..], P) by {
          forall i | 0 <= i < |s[1..]| ensures P(s[1..][i]) {
            assert s[1..][i] == s[i + 1];
          }
        }
        StripTagsKeeps(s[1..], P);
      }
    }
  }

  /** `IndexOf` stops at the first occurrence. */
  lemma {:induction false} IndexOfFirst(t: string, c: char, b: string)
    requires Lacks(t, c)
    ensures IndexOf(t + [c] + b, c) == |t|
    decreases |t|
  {
    var s := t + [c] + b;
    if t != [] {
      assert s[0] == t[0] && s[1..] == t[1..] + [c] + b;
      assert Lacks(t[1..], c) by {
        forall i | 0 <= i < |t[1..]| ensures t[1..][i] != c {
          assert t[1..][i] == t[i + 1];
        }
      }
      IndexOfFirst(t[1..], c, b);
    }
  }

  /** Text without `<` passes tag removal untouched, and what follows it is
      cleaned on its own. */
  lemma {:induction false} StripTagsPlainPrefix(a: string, b: string)
    requires Lacks(a, '<')
    ensures StripTags(a + b) == a + StripTags(b)
    decreases |a|
  {
    if a == [] {
      assert a + b == b;
    } else {
      var s := a + b;
      var tail := a[1..];
      assert s[0] == a[0] && a[0] != '<';
      assert s[1..] == tail + b;
      assert StripTags(s) == [a[0]] + StripTags(tail + b);
      assert Lacks(tail, '<') by {
        forall i | 0 <= i < |tail| ensures tail[i] != '<' {
          assert tail[i] == a[i + 1];
        }
      }
      StripTagsPlainPrefix(tail, b);
      assert a == [a[0]] + tail;
    }
  }

  /** A tag, `<` then at least one character other than `>` then `>`, is
      deleted, and the text after it is cleaned on its own. */
  lemma StripTagsTag(t: string, b: string)
    requires t != [] && Lacks(t, '>')
    ensures StripTags(['<'] + t + ['>'] + b) == StripTags(b)
  {
    var s := ['<'] + t + ['>'] + b;
    assert s[1..] == t + ['>'] + b;
    IndexOfFirst(t, '>', b);
    assert s[|t| + 2..] == b;
  }

  /** Deletes every character outside the whitelist, also keeping `extra`. */
  function KeepAllowed(s: string, extra: set<char>): (r: string)
    ensures |r| <= |s|
    ensures forall i :: 0 <= i < |r| ==> Allowed(r[i]) || r[i] in extra
    ensures (forall i :: 0 <= i < |s| ==> Allowed(s[i]) || s[i] in extra) ==> r == s
  {
    if s == [] then []
    else if Allowed(s[0]) || s[0] in extra then [s[0]] + KeepAllowed(s[1..], extra)
    else KeepAllowed(s[1..], extra)
  }

  /** Filtering only deletes characters. */
  lemma {:induction false} KeepAllowedKeeps(s: string, extra: set<char>, P: char -> bool)
    requires AllChars(s, P)
    ensures AllChars(KeepAllowed(s, extra), P)
    decreases |s|
  {
    if s != [] {
      assert AllChars(s[1..], P) by {
        forall i | 0 <= i < |s[1..]| ensures P(s[1..][i]) {
          assert s[1..][i] == s[i + 1];
        }
      }
      KeepAllowedKeeps(s[1..], extra, P);
    }
  }

  /** The whitelist works character by character: filtering a concatenation
      filters each part. */
  lemma {:induction false} KeepAllowedAppend(a: string, b: string, extra: set<char>)
    ensures KeepAllowed(a + b, extra) == KeepAllowed(a, extra) + KeepAllowed(b, extra)
    decreases |a|
  {
    if a == [] {
      assert a + b == b;
    } else {
      assert (a + b)[0] == a[0] && (a + b)[1..] == a[1..] + b;
      KeepAllowedAppend(a[1..], b, extra);
    }
  }

  /** One character is kept exactly when it is whitelisted or in `extra`. */
  lemma KeepAllowedOne(c: char, extra: set<char>)
    ensures KeepAllowed([c], extra) == if Allowed(c) || c in extra then [c] else []
  {
    assert [c][1..] == [];
  }

  /** clean_text with the whitelist widened by `extra`: strip, collapse
      whitespace, delete tags, delete characters outside the whitelist, strip. */
  function CleanTextKeeping(text: string, extra: set<char>): (r: string)
    ensures text == [] ==> r == []
    ensures NoEdgeSpace(r)
    ensures forall i :: 0 <= i < |r| ==> Allowed(r[i]) || r[i] in extra
    ensures PlainSpaces(r)
  {
    if text == [] then []
    else
      var b := CollapseSpace(Strip(text));
      var d := KeepAllowed(StripTags(b), extra);
      var Plain := (x: char) => IsSpace(x) ==> x == ' ';
      var Kept := (x: char) => Allowed(x) || x in extra;
      assert AllChars(b, Plain);
      StripTagsKeeps(b, Plain);
      KeepAllowedKeeps(StripTags(b), extra, Plain);
      StripKeeps(d, Plain);
      StripKeeps(d, Kept);
      Strip(d)
  }

  /** Cleanup introduces no character but the space: any property every
      input character and the space share holds of every output character. */
  lemma CleanTextKeepingKeeps(text: string, extra: set<char>, P: char -> bool)
    requires P(' ') && AllChars(text, P)
    ensures AllChars(CleanTextKeeping(text, extra), P)
  {
    if text != [] {
      var b := CollapseSpace(Strip(text));
      StripKeeps(text, P);
      CollapseSpaceKeeps(Strip(text), P);
      StripTagsKeeps(b, P);
      KeepAllowedKeeps(StripTags(b), extra, P);
      StripKeeps(KeepAllowed(StripTags(b), extra), P);
    }
  }

  /** `clean_text`: empty input gives "", and otherwise the result has no
      whitespace at either end, no whitespace but plain spaces, and only
      whitelisted characters, so no `<` or `>`. */
  function CleanText(text: string): (r: string)
    ensures text == [] ==> r == []
    ensures NoEdgeSpace(r)
    ensures forall i :: 0 <= i < |r| ==> Allowed(r[i]) && r[i] != '<' && r[i] != '>'
    ensures PlainSpaces(r)
  {
    var r := CleanTextKeeping(text, {});
    assert forall i :: 0 <= i < |r| ==> r[i] != '<' && r[i] != '>' by {
      forall i | 0 <= i < |r| ensures r[i] != '<' && r[i] != '>' {
        AllowedExcludes(r[i]);
      }
    }
    r
  }

  /** For text without tags, cleaning keeps exactly the whitelisted
      characters other than whitespace, in their order: besides the
      whitelist, only the whitespace is reshaped. */
  lemma CleanTextKeepsText(text: string)
    requires Lacks(text, '<')
    ensures NonSpace(CleanText(text)) == KeepAllowed(NonSpace(text), {})
  {
    if text != [] {
      var a := Strip(text);
      var b := CollapseSpace(a);
      var NoOpen := (x: char) => x != '<';
      assert AllChars(text, NoOpen);
      StripKeeps(text, NoOpen);
      CollapseSpaceKeeps(a, NoOpen);
      assert Lacks(b, '<');
      var d := KeepAllowed(b, {});
      assert CleanText(text) == Strip(d);
      NonSpaceStrip(d);
      NonSpaceKeepAllowed(b, {});
      CollapseSpaceKeepsText(a);
      NonSpaceStrip(text);
    }
  }

  /** Every character of the cleaned text is a space or occurs in the input. */
  lemma CleanTextChars(text: string)
    ensures var r := CleanText(text);
      forall i :: 0 <= i < |r| ==> r[i] == ' ' || r[i] in text
  {
    CleanTextKeepingKeeps(text, {}, (x: char) => x == ' ' || x in text);
  }

  /** Tag brackets, tildes and the hyphen are outside the whitelist. */
  lemma AllowedExcludes(c: char)
    requires Allowed(c)
    ensures c != '<' && c != '>' && !IsTilde(c) && c != '-'
  {
  }

  /** One unfolding of the cleanup pipeline. */
  lemma CleanTextKeepingSteps(text: string, extra: set<char>)
    requires text != []
    ensures CleanTextKeeping(text, extra) ==
            Strip(KeepAllowed(StripTags(CollapseSpace(Strip(text))), extra))
  {
  }

  /** A string already in the shape cleanup produces passes through it
      unchanged. */
  lemma CleanTextKeepingFixed(s: string, extra: set<char>)
    requires NoEdgeSpace(s) && Lacks(s, '<')
    requires PlainSpaces(s)
    requires NoDoubleSpace(s)
    requires forall i :: 0 <= i < |s| ==> Allowed(s[i]) || s[i] in extra
    ensures CleanTextKeeping(s, extra) == s
  {
    if s != [] {
      CleanTextKeepingSteps(s, extra);
      StripNoEdges(s);
      CollapseFixed(s);
      assert StripTags(s) == s;
      assert KeepAllowed(s, extra) == s;
    }
  }

  /** A string cleanup leaves unchanged: whitelisted, no whitespace at the
      ends, only plain spaces, never two in a row. */
  ghost predicate IsClean(s: string)
  {
    && NoEdgeSpace(s)
    && (forall i :: 0 <= i < |s| ==> Allowed(s[i]))
    && PlainSpaces(s)
    && NoDoubleSpace(s)
  }

  lemma {:induction false} CollapseFixed(s: string)
    requires PlainSpaces(s)
    requires NoDoubleSpace(s)
    ensures CollapseSpace(s) == s
    decreases |s|
  {
    if s != [] {
      CollapseFixed(s[1..]);
      if IsSpace(s[0]) {
        assert s[1..] == [] || !IsSpace(s[1]);
        assert TrimStart(s[1..]) == s[1..];
      }
      assert [s[0]] + s[1..] == s;
    }
  }

  /** Clean strings are exactly left alone by `clean_text`. */
  lemma CleanTextFixpoint(s: string)
    requires IsClean(s)
    ensures CleanText(s) == s
  {
    forall i | 0 <= i < |s| ensures s[i] != '<' {
      AllowedExcludes(s[i]);
    }
    CleanTextKeepingFixed(s, {});
  }

  /** Cleaning twice is cleaning once whenever the first pass leaves no
      two adjacent spaces. */
  lemma CleanTextIdempotentWhenNoDoubleSpace(t: string)
    requires NoDoubleSpace(CleanText(t))
    ensures CleanText(CleanText(t)) == CleanText(t)
  {
    CleanTextFixpoint(CleanText(t));
  }

  /** Deleting a character after collapsing whitespace can leave two spaces
      side by side, so `clean_text` is not idempotent. */
  lemma CleanTextNotIdempotent()
    ensures CleanText("a ~ b") == "a  b"
    ensures CleanText("a  b") == "a b"
  {
    CleanTextDeletesTilde();
    CleanTextCollapsesDoubleSpace();
  }

  lemma CleanTextDeletesTilde()
    ensures CleanText("a ~ b") == "a  b"
  {
    CleanTextKeepingSteps("a ~ b", {});
    TildeExampleShape();
    PassesBeforeFilter("a ~ b");
    DropsTilde();
    StripDoubleSpaced();
  }

  lemma CleanTextCollapsesDoubleSpace()
    ensures CleanText("a  b") == "a b"
  {
    CleanTextKeepingSteps("a  b", {});
    StripDoubleSpaced();
    CollapsesDoubleSpace();
    CleanTextKeepingSteps("a b", {});
    SpacedExampleShape();
    PassesBeforeFilter("a b");
    CleanTextKeepingFixed("a b", {});
  }

  lemma TildeExampleShape()
    ensures NoEdgeSpace("a ~ b") && Lacks("a ~ b", '<')
    ensures PlainSpaces("a ~ b") && NoDoubleSpace("a ~ b")
  {
  }

  lemma SpacedExampleShape()
    ensures NoEdgeSpace("a b") && Lacks("a b", '<')
    ensures PlainSpaces("a b") && NoDoubleSpace("a b")
    ensures forall i :: 0 <= i < |"a b"| ==> Allowed("a b"[i])
  {
  }

  lemma StripDoubleSpaced()
    ensures Strip("a  b") == "a  b"
  {
    StripNoEdges("a  b");
  }

  /** A clean-shaped string is left alone by everything before the filter. */
  lemma PassesBeforeFilter(s: string)
    requires NoEdgeSpace(s) && Lacks(s, '<')
    requires PlainSpaces(s)
    requires NoDoubleSpace(s)
    ensures StripTags(CollapseSpace(Strip(s))) == s
  {
    StripNoEdges(s);
    CollapseFixed(s);
    StripTagsNoTag(s);
  }

  lemma StripTagsNoTag(s: string)
    requires Lacks(s, '<')
    ensures StripTags(s) == s
  {
  }

  lemma DropsTilde()
    ensures KeepAllowed("a ~ b", {}) == "a  b"
  {
    DropsTildeTail();
    assert "a ~ b"[1..] == " ~ b";
    assert " ~ b"[1..] == "~ b";
    assert KeepAllowed(" ~ b", {}) == "  b";
  }

  lemma DropsTildeTail()
    ensures KeepAllowed("~ b", {}) == " b"
  {
    assert !Allowed('~');
    assert "~ b"[1..] == " b";
    assert " b"[1..] == "b";
    assert KeepAllowed("b", {}) == "b";
  }

  lemma KeepAllowedSpaced()
    ensures KeepAllowed("a b", {}) == "a b"
  {
  }

  lemma CollapsesDoubleSpace()
    ensures CollapseSpace("a  b") == "a b"
  {
    CollapsesAfterFirst();
    CollapsesLeadingSpaces();
    ConsSpaced();
  }

  lemma CollapsesAfterFirst()
    ensures CollapseSpace("a  b") == ['a'] + CollapseSpace("  b")
  {
    assert "a  b" == ['a'] + "  b";
    CollapseSpaceCons('a', "  b");
  }

  lemma ConsSpaced()
    ensures ['a'] + " b" == "a b"
  {
  }

  lemma CollapsesLeadingSpaces()
    ensures CollapseSpace("  b") == " b"
  {
    assert "  b"[1..] == " b";
    TrimsOneSpace();
    CollapseFixed("b");
  }

  lemma TrimsOneSpace()
    ensures TrimStart(" b") == "b"
  {
    assert " b"[1..] == "b";
  }

  lemma CollapseSpaceCons(c: char, s: string)
    requires !IsSpace(c)
    ensures CollapseSpace([c] + s) == [c] + CollapseSpace(s)
  {
    assert ([c] + s)[1..] == s;
  }

  // ---------------------------------------------------------------------------
  // standardize_pinyin

  /** Length of the leading run of non-whitespace characters. */
  function WordEnd(s: string): (n: nat)
    ensures n <= |s|
    ensures forall i :: 0 <= i < n ==> !IsSpace(s[i])
    ensures n == |s| || IsSpace(s[n])
  {
    if s == [] || IsSpace(s[0]) then 0 else 1 + WordEnd(s[1..])
  }

  predicate NoSpace(w: string)
  {
    forall i :: 0 <= i < |w| ==> !IsSpace(w[i])
  }

  /** Python's `str.split()` with no argument: the maximal runs of
      non-whitespace characters. */
  function SplitWords(s: string): (r: seq<string>)
    ensures forall k :: 0 <= k < |r| ==> r[k] != [] && NoSpace(r[k])
    decreases |s|
  {
    if s == [] then []
    else if IsSpace(s[0]) then SplitWords(s[1..])
    else
      var n := WordEnd(s);
      [s[..n]] + SplitWords(s[n..])
  }

  /** `split()` loses no character other than whitespace: the words, put back
      together, are the non-space text of `s` in order. */
  lemma {:induction false} SplitWordsKeepsText(s: string)
    ensures Concat(SplitWords(s)) == NonSpace(s)
    decreases |s|
  {
    if s != [] {
      if IsSpace(s[0]) {
        SplitWordsKeepsText(s[1..]);
      } else {
        var n := WordEnd(s);
        var ws := SplitWords(s);
        assert ws[0] == s[..n] && ws[1..] == SplitWords(s[n..]);
        SplitWordsKeepsText(s[n..]);
        assert s == s[..n] + s[n..];
        NonSpaceAppend(s[..n], s[n..]);
        NonSpaceOfWord(s[..n]);
      }
    }
  }

  /** `str.capitalize()`: first character upper case, the rest lower case. */
  function Capitalize(w: string): (r: string)
    ensures |r| == |w|
    ensures NoSpace(w) ==> NoSpace(r)
  {
    if w == [] then [] else [ToUpper(w[0])] + Lower(w[1..])
  }

  function CapitalizeAll(ws: seq<string>): (r: seq<string>)
    ensures |r| == |ws|
    ensures forall k :: 0 <= k < |r| ==> r[k] == Capitalize(ws[k])
  {
    if ws == [] then [] else [Capitalize(ws[0])] + CapitalizeAll(ws[1..])
  }

  /** `standardize_pinyin`: lower-case, split on whitespace, capitalise each
      word, join with single spaces. */
  function StandardizePinyin(pinyin: string): (r: string)
  {
    if pinyin == [] then []
    else Join(" ", CapitalizeAll(SplitWords(Lower(pinyin))))
  }

  lemma {:induction false} SplitWordsJoin(ws: seq<string>)
    requires forall k :: 0 <= k < |ws| ==> ws[k] != [] && NoSpace(ws[k])
    ensures SplitWords(Join(" ", ws)) == ws
    decreases |ws|
  {
    if ws == [] {
    } else if |ws| == 1 {
      SplitWordsOne(ws[0], []);
      assert ws[0] + [] == ws[0];
    } else {
      SplitWordsJoin(ws[1..]);
      var rest := Join(" ", ws[1..]);
      assert Join(" ", ws) == ws[0] + (" " + rest);
      SplitWordsOne(ws[0], " " + rest);
      assert SplitWords(" " + rest) == SplitWords(rest) by {
        assert (" " + rest)[1..] == rest;
      }
    }
  }

  lemma {:induction false} SplitWordsOne(w: string, tail: string)
    requires w != [] && NoSpace(w)
    requires tail == [] || IsSpace(tail[0])
    ensures SplitWords(w + tail) == [w] + SplitWords(tail)
  {
    var s := w + tail;
    WordEndOf(w, tail);
    assert s[..|w|] == w && s[|w|..] == tail;
  }

  lemma {:induction false} WordEndOf(w: string, tail: string)
    requires NoSpace(w)
    requires tail == [] || IsSpace(tail[0])
    ensures WordEnd(w + tail) == |w|
    decreases |w|
  {
    if w != [] {
      WordEndOf(w[1..], tail);
      assert (w + tail)[1..] == w[1..] + tail;
    }
  }

  lemma {:induction false} LowerJoin(ws: seq<string>)
    ensures Lower(Join(" ", ws)) == Join(" ", LowerAll(ws))
    decreases |ws|
  {
    if |ws| > 1 {
      LowerJoin(ws[1..]);
      LowerAppend(ws[0], " " + Join(" ", ws[1..]));
      LowerAppend(" ", Join(" ", ws[1..]));
      assert LowerAll(ws)[1..] == LowerAll(ws[1..]);
    }
  }

  function LowerAll(ws: seq<string>): (r: seq<string>)
    ensures |r| == |ws|
    ensures forall k :: 0 <= k < |r| ==> r[k] == Lower(ws[k])
  {
    if ws == [] then [] else [Lower(ws[0])] + LowerAll(ws[1..])
  }

  lemma LowerTwice(s: string)
    ensures Lower(Lower(s)) == Lower(s)
  {
  }

  lemma CapitalizeLowerCapitalize(w: string)
    ensures Capitalize(Lower(Capitalize(w))) == Capitalize(w)
  {
    if w != [] {
      var u := ToUpper(w[0]);
      var rest := Lower(w[1..]);
      assert Capitalize(w) == [u] + rest;
      LowerAppend([u], rest);
      LowerTwice(w[1..]);
      var l := Lower([u]) + rest;
      assert Lower(Capitalize(w)) == l;
      assert l[0] == ToLower(u) && l[1..] == rest;
      assert ToUpper(ToLower(u)) == u;
    }
  }

  /** Standardising pinyin a second time changes nothing. */
  lemma StandardizePinyinIdempotent(p: string)
    ensures StandardizePinyin(StandardizePinyin(p)) == StandardizePinyin(p)
  {
    var ws := SplitWords(Lower(p));
    var cs := CapitalizeAll(ws);
    var out := StandardizePinyin(p);
    if p != [] && out != [] {
      assert out == Join(" ", cs);
      LowerJoin(cs);
      var ls := LowerAll(cs);
      forall k | 0 <= k < |ls| ensures ls[k] != [] && NoSpace(ls[k]) {
        assert ls[k] == Lower(Capitalize(ws[k]));
      }
      SplitWordsJoin(ls);
      assert CapitalizeAll(ls) == cs by {
        forall k | 0 <= k < |cs| ensures CapitalizeAll(ls)[k] == cs[k] {
          CapitalizeLowerCapitalize(ws[k]);
        }
      }
    }
  }

  /** The standardised form has words separated by single plain spaces and
      no whitespace at either end. */
  lemma StandardizePinyinShape(p: string)
    ensures var r := StandardizePinyin(p);
      && NoEdgeSpace(r)
      && PlainSpaces(r)
      && NoDoubleSpace(r)
  {
    if p != [] {
      var cs := CapitalizeAll(SplitWords(Lower(p)));
      JoinWordsShape(cs);
    }
  }

  lemma {:induction false} JoinWordsShape(ws: seq<string>)
    requires forall k :: 0 <= k < |ws| ==> ws[k] != [] && NoSpace(ws[k])
    ensures var r := Join(" ", ws);
      && NoEdgeSpace(r)
      && PlainSpaces(r)
      && NoDoubleSpace(r)
    decreases |ws|
  {
    if |ws| > 1 {
      JoinWordsShape(ws[1..]);
      var rest := Join(" ", ws[1..]);
      var r := ws[0] + " " + rest;
      assert Join(" ", ws) == r;
      forall i, j | 0 <= i < j < |r| && j == i + 1 ensures !(r[i] == ' ' && r[j] == ' ') {
        if i < |ws[0]| {
          assert r[i] == ws[0][i];
        } else if i > |ws[0]| {
          assert r[i] == rest[i - |ws[0]| - 1] && r[i + 1] == rest[i - |ws[0]|];
        }
      }
      forall i | 0 <= i < |r| ensures IsSpace(r[i]) ==> r[i] == ' ' {
        if i < |ws[0]| {
          assert r[i] == ws[0][i];
        } else if i > |ws[0]| {
          assert r[i] == rest[i - |ws[0]| - 1];
        }
      }
    }
  }

  // ---------------------------------------------------------------------------
  // parse_properties_and_taste

  const PropertyKeywords: seq<string> := ["寒", "凉", "平", "温", "热", "微寒", "微凉", "微温", "微热"]
  const TasteKeywords: seq<string> := ["甘", "苦", "辛", "酸", "咸", "淡", "涩", "微甘", "微苦", "微辛"]

  /** The entries of `table`, in table order, that occur in `text`. */
  function MatchedKeywords(table: seq<string>, text: string): (r: seq<string>)
    ensures IsSubsequence(r, table)
    ensures forall k :: k in r <==> k in table && Contains(text, k)
  {
    if table == [] then []
    else
      var rest := MatchedKeywords(table[1..], text);
      SubsequenceSkipOne(rest, table[1..], table[0]);
      assert [table[0]] + table[1..] == table;
      if Contains(text, table[0]) then
        SubsequenceCons(table[0], rest, table[1..]);
        [table[0]] + rest
      else rest
  }

  /** `parse_properties_and_taste`: the `、`-joined property and taste keywords found. */
  function ParsePropertiesAndTaste(text: string): (r: (string, string))
    ensures text == [] ==> r == ([], [])
  {
    if text == [] then ([], [])
    else (Join("、", MatchedKeywords(PropertyKeywords, text)),
          Join("、", MatchedKeywords(TasteKeywords, text)))
  }

  /** Containment matching: a "slight" keyword found means its base keyword is
      listed too. */
  lemma SlightImpliesBase(text: string, base: string)
    requires base in ["寒", "凉", "温", "热"]
    requires "微" + base in MatchedKeywords(PropertyKeywords, text)
    ensures base in MatchedKeywords(PropertyKeywords, text)
  {
    var slight := "微" + base;
    assert slight[1..] == base;
    assert OccursAt(slight, base, 1);
    ContainsIff(slight, base);
    ContainsPiece(text, slight, base);
  }

  /** The same for the taste table. */
  lemma SlightTasteImpliesBase(text: string, base: string)
    requires base in ["甘", "苦", "辛"]
    requires "微" + base in MatchedKeywords(TasteKeywords, text)
    ensures base in MatchedKeywords(TasteKeywords, text)
  {
    var slight := "微" + base;
    assert OccursAt(slight, base, 1);
    ContainsIff(slight, base);
    ContainsPiece(text, slight, base);
  }

  /** Splitting either joined list on `、` gives back the matched keywords. */
  lemma ParsePropertiesAndTasteRoundTrip(text: string)
    requires text != []
    ensures var ps := MatchedKeywords(PropertyKeywords, text);
      ps != [] ==> SplitOn(ParsePropertiesAndTaste(text).0, '、') == ps
    ensures var ts := MatchedKeywords(TasteKeywords, text);
      ts != [] ==> SplitOn(ParsePropertiesAndTaste(text).1, '、') == ts
  {
    KeywordTablesLackSeparator();
    MatchedKeywordsRoundTrip(PropertyKeywords, text, '、');
    MatchedKeywordsRoundTrip(TasteKeywords, text, '、');
  }

  lemma KeywordTablesLackSeparator()
    ensures forall j :: 0 <= j < |PropertyKeywords| ==> '、' !in PropertyKeywords[j]
    ensures forall j :: 0 <= j < |TasteKeywords| ==> '、' !in TasteKeywords[j]
  {
  }

  /** Joining the matches with a separator no table entry contains can be
      undone by splitting on it. */
  lemma MatchedKeywordsRoundTrip(table: seq<string>, text: string, sep: char)
    requires forall j :: 0 <= j < |table| ==> sep !in table[j]
    ensures var r := MatchedKeywords(table, text);
      r != [] ==> SplitOn(Join([sep], r), sep) == r
  {
    var r := MatchedKeywords(table, text);
    MatchedKeywordsLack(table, text, sep);
    if r != [] {
      SplitJoin(r, sep);
    }
  }

  /** A character no table entry contains is in no matched keyword. */
  lemma {:induction false} MatchedKeywordsLack(table: seq<string>, text: string, c: char)
    requires forall j :: 0 <= j < |table| ==> c !in table[j]
    ensures forall k :: 0 <= k < |MatchedKeywords(table, text)| ==> c !in MatchedKeywords(table, text)[k]
    decreases |table|
  {
    if table != [] {
      var rest := MatchedKeywords(table[1..], text);
      assert forall j :: 0 <= j < |table[1..]| ==> c !in table[1..][j] by {
        forall j | 0 <= j < |table[1..]| ensures c !in table[1..][j] {
          assert table[1..][j] == table[j + 1];
        }
      }
      MatchedKeywordsLack(table[1..], text, c);
      if Contains(text, table[0]) {
        var r := [table[0]] + rest;
        forall k | 0 <= k < |r| ensures c !in r[k] {
          if k > 0 {
            assert r[k] == rest[k - 1];
          } else {
            assert r[k] == table[0];
          }
        }
      }
    }
  }

  // ---------------------------------------------------------------------------
  // standardize_dosage

  predicate IsTilde(c: char)
  {
    c == '~' || c == '～'
  }

  /** End of the run of ASCII digits starting at `i`. */
  function DigitsEnd(s: string, i: nat): (j: nat)
    requires i <= |s|
    ensures i <= j <= |s|
    ensures j == |s| || !IsDigit(s[j])
    decreases |s| - i
  {
    if i < |s| && IsDigit(s[i]) then DigitsEnd(s, i + 1) else i
  }

  /** End of the run of whitespace starting at `i`. */
  function SpacesEnd(s: string, i: nat): (j: nat)
    requires i <= |s|
    ensures i <= j <= |s|
    ensures j == |s| || !IsSpace(s[j])
    decreases |s| - i
  {
    if i < |s| && IsSpace(s[i]) then SpacesEnd(s, i + 1) else i
  }

  /** Where the range pattern matches at `i`: the end of the first digit run,
      the start and the end of the second. */
  function RangeAt(s: string, i: nat): (r: Option<(nat, nat, nat)>)
    requires i <= |s|
    ensures r.Some? ==> i < r.value.0 < r.value.1 < r.value.2 <= |s|
  {
    var n1 := DigitsEnd(s, i);
    var k := SpacesEnd(s, n1);
    if n1 > i && k < |s| && IsTilde(s[k]) then
      var m := SpacesEnd(s, k + 1);
      var n2 := DigitsEnd(s, m);
      if n2 > m then Some((n1, m, n2)) else None
    else None
  }

  /** `re.sub(r'(\d+)\s*[~～]\s*(\d+)', r'\1-\2', s[i:])`: a digit run,
      optional whitespace, a tilde, optional whitespace and a digit run become
      the two runs joined by `-`. Backtracking into either digit run cannot
      rescue a failed match, so only the maximal runs are tried. */
  function RewriteFrom(s: string, i: nat): (r: string)
    requires i <= |s|
    decreases |s| - i
  {
    if i == |s| then []
    else
      match RangeAt(s, i)
      case Some((n1, m, n2)) => s[i..n1] + "-" + s[m..n2] + RewriteFrom(s, n2)
      case None => [s[i]] + RewriteFrom(s, i + 1)
  }

  function RewriteRanges(s: string): (r: string)
  {
    RewriteFrom(s, 0)
  }

  /** Without a tilde the pattern never matches and the text is unchanged. */
  lemma {:induction false} RewriteFromNoTilde(s: string, i: nat)
    requires i <= |s|
    requires forall j :: i <= j < |s| ==> !IsTilde(s[j])
    ensures RewriteFrom(s, i) == s[i..]
    decreases |s| - i
  {
    if i < |s| {
      RewriteFromNoTilde(s, i + 1);
      assert s[i..] == [s[i]] + s[i + 1..];
    }
  }

  /** `standardize_dosage` as written: clean first, then rewrite ranges. */
  function StandardizeDosage(dosage: string): (r: string)
  {
    if dosage == [] then [] else RewriteRanges(CleanText(dosage))
  }

  /** Cleanup already deleted every tilde, so the range rewrite never fires and
      the dosage normaliser is just `clean_text`. */
  lemma StandardizeDosageIsCleanText(dosage: string)
    ensures StandardizeDosage(dosage) == CleanText(dosage)
  {
    var r := CleanText(dosage);
    forall i | 0 <= i < |r| ensures !IsTilde(r[i]) {
      AllowedExcludes(r[i]);
    }
    RewriteFromNoTilde(r, 0);
  }

  /** The commented example does not hold: "3~9g" loses its separator. */
  lemma StandardizeDosageDropsRange()
    ensures StandardizeDosage("3~9g") == "39g"
  {
    CleanTextKeepingSteps("3~9g", {});
    RangeExampleShape();
    PassesBeforeFilter("3~9g");
    DropsRangeTilde();
    StripNoEdges("39g");
    StandardizeDosageIsCleanText("3~9g");
  }

  lemma RangeExampleShape()
    ensures NoEdgeSpace("3~9g") && Lacks("3~9g", '<')
    ensures PlainSpaces("3~9g") && NoDoubleSpace("3~9g")
  {
  }

  lemma DropsRangeTilde()
    ensures KeepAllowed("3~9g", {}) == "39g"
  {
    assert !Allowed('~');
    assert "3~9g"[1..] == "~9g";
    assert "~9g"[1..] == "9g";
    assert "9g"[1..] == "g";
    assert KeepAllowed("g", {}) == "g";
    assert KeepAllowed("9g", {}) == "9g";
    assert KeepAllowed("~9g", {}) == "9g";
  }

  /** The evidently intended normaliser: rewrite ranges first and keep the `-`
      the rewrite introduces. */
  function StandardizeDosageFixed(dosage: string): (r: string)
  {
    if dosage == [] then [] else CleanTextKeeping(RewriteRanges(dosage), {'-'})
  }

  /** With the intended order, "digits~digits" followed by a clean unit becomes
      "digits-digits" followed by the unit. */
  lemma StandardizeDosageFixedRange(a: string, b: string, unit: string)
    requires a != [] && AllDigits(a) && b != [] && AllDigits(b)
    requires unit == [] || !IsDigit(unit[0])
    requires forall i :: 0 <= i < |unit| ==> !IsTilde(unit[i]) && !IsSpace(unit[i]) && Allowed(unit[i])
    ensures StandardizeDosageFixed(a + "~" + b + unit) == a + "-" + b + unit
  {
    RangeRewritten(a, b, unit);
    RangeResultShape(a, b, unit);
    CleanTextKeepingFixed(a + "-" + b + unit, {'-'});
  }

  /** The characters a rewritten range and its unit consist of. */
  predicate DosageChar(c: char)
  {
    !IsSpace(c) && c != '<' && (Allowed(c) || c == '-')
  }

  /** The rewritten range is already in cleaned form once `-` is kept. */
  lemma RangeResultShape(a: string, b: string, unit: string)
    requires a != [] && AllDigits(a) && b != [] && AllDigits(b)
    requires forall i :: 0 <= i < |unit| ==> !IsSpace(unit[i]) && Allowed(unit[i])
    ensures var t := a + "-" + b + unit;
      && NoEdgeSpace(t) && Lacks(t, '<') && PlainSpaces(t) && NoDoubleSpace(t)
      && forall i :: 0 <= i < |t| ==> Allowed(t[i]) || t[i] in {'-'}
  {
    RangeResultChars(a, b, unit);
  }

  lemma RangeResultChars(a: string, b: string, unit: string)
    requires AllDigits(a) && AllDigits(b)
    requires forall i :: 0 <= i < |unit| ==> !IsSpace(unit[i]) && Allowed(unit[i])
    ensures AllChars(a + "-" + b + unit, DosageChar)
  {
    assert AllChars(a, DosageChar) && AllChars(b, DosageChar) && AllChars("-", DosageChar);
    assert AllChars(unit, DosageChar) by {
      forall i | 0 <= i < |unit| ensures DosageChar(unit[i]) {
        AllowedExcludes(unit[i]);
      }
    }
    AllCharsConcat(a, "-", DosageChar);
    AllCharsConcat(a + "-", b, DosageChar);
    AllCharsConcat(a + "-" + b, unit, DosageChar);
  }

  /** The range rewrite itself on "digits~digits" followed by a tilde-free unit. */
  lemma RangeRewritten(a: string, b: string, unit: string)
    requires a != [] && AllDigits(a) && b != [] && AllDigits(b)
    requires unit == [] || !IsDigit(unit[0])
    requires forall i :: 0 <= i < |unit| ==> !IsTilde(unit[i])
    ensures RewriteRanges(a + "~" + b + unit) == a + "-" + b + unit
  {
    var s := a + "~" + b + unit;
    var n2 := |a| + 1 + |b|;
    RangePositions(a, b, unit);
    RangePieces(a, b, unit);
    RewriteFromNoTilde(s, n2);
  }

  lemma RangePositions(a: string, b: string, unit: string)
    requires a != [] && AllDigits(a) && b != [] && AllDigits(b)
    requires unit == [] || !IsDigit(unit[0])
    ensures var s := a + "~" + b + unit;
      RangeAt(s, 0) == Some((|a|, |a| + 1, |a| + 1 + |b|))
  {
    var s := a + "~" + b + unit;
    DigitsEndAt(s, 0, |a|);
    DigitsEndAt(s, |a| + 1, |a| + 1 + |b|);
  }

  lemma RangePieces(a: string, b: string, unit: string)
    ensures var s := a + "~" + b + unit;
      && s[..|a|] == a && s[|a| + 1..|a| + 1 + |b|] == b && s[|a| + 1 + |b|..] == unit
      && (forall j :: |a| + 1 + |b| <= j < |s| ==> s[j] == unit[j - |a| - 1 - |b|])
  {
  }

  /** A digit run ending in a non-digit is the one `DigitsEnd` finds. */
  lemma {:induction false} DigitsEndAt(s: string, i: nat, j: nat)
    requires i <= j <= |s|
    requires forall k :: i <= k < j ==> IsDigit(s[k])
    requires j == |s| || !IsDigit(s[j])
    ensures DigitsEnd(s, i) == j
    decreases j - i
  {
    if i < j {
      DigitsEndAt(s, i + 1, j);
    }
  }
}
