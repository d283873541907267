/** The text tests of the zhongyoo.com crawler (zhongyoo_crawler.py): the
    "is this real Chinese text" check behind the decode cascade, the image
    filter, the keyword filters, the item splitting of the effects section,
    the meridian extraction and the dosage replacement rule. The regular
    expressions are written out as the scans `re.search`, `re.findall` and
    `re.split` perform for these particular patterns. */
module ZhongyooText {
  import opened Wrappers
  import opened Strings
  import Cleaning

  // ---------------------------------------------------------------------------
  // `_is_valid_chinese_text`

  /** `re.search` for the CJK block U+4E00..U+9FFF from position `i`: the
      leftmost CJK character. */
  function CjkSearch(text: string, i: nat): (r: Option<nat>)
    requires i <= |text|
    ensures r.Some? ==> i <= r.value < |text| && IsCjk(text[r.value])
    ensures forall j :: i <= j < |text| && (r.None? || j < r.value) ==> !IsCjk(text[j])
    decreases |text| - i
  {
    if i == |text| then None
    else if IsCjk(text[i]) then Some(i)
    else CjkSearch(text, i + 1)
  }

  /** Three question marks start at `i`. */
  predicate GarbledAt(text: string, i: int)
  {
    0 <= i && i + 3 <= |text| && text[i] == '?' && text[i + 1] == '?' && text[i + 2] == '?'
  }

  /** `re.search(r'[?]{3,}', text)` from position `i`: the leftmost run of
      at least three question marks. */
  function GarbledSearch(text: string, i: nat): (r: Option<nat>)
    requires i <= |text|
    ensures r.Some? ==> i <= r.value && GarbledAt(text, r.value)
    ensures forall j :: i <= j && (r.None? || j < r.value) ==> !GarbledAt(text, j)
    decreases |text| - i
  {
    if i + 3 > |text| then None
    else if GarbledAt(text, i) then Some(i)
    else GarbledSearch(text, i + 1)
  }

  /** `_is_valid_chinese_text`: both searches, combined as the source does.
      The text is valid exactly when it holds a CJK character and no run of
      three or more '?'. */
  function IsValidChineseText(text: string): (r: bool)
    ensures r <==> (exists i :: 0 <= i < |text| && IsCjk(text[i])) && !(exists i :: GarbledAt(text, i))
  {
    CjkSearch(text, 0).Some? && GarbledSearch(text, 0).None?
  }

  // ---------------------------------------------------------------------------
  // The decode cascade of `get_page`

  /** Decoding the fetched body under a named encoding: `Some(text)`, or
      `None` where Python raises (a decode error or an unknown codec). */
  type Decoder = string -> Option<string>

  /** The encodings `get_page` tries, in order. */
  const Encodings: seq<string> := ["gbk", "gb2312", "gb18030", "utf-8"]

  /** What character-set detection reports: an encoding (possibly missing or
      empty) and a confidence. */
  datatype Detection = Detection(encoding: Option<string>, confidence: real)

  predicate DecodesValid(decode: Decoder, e: string)
  {
    decode(e).Some? && IsValidChineseText(decode(e).value)
  }

  /** The first encoding of the list whose decode succeeds and passes the
      validity test. */
  function FirstValidDecode(encodings: seq<string>, decode: Decoder): (r: Option<string>)
    ensures r.None? <==> forall k :: 0 <= k < |encodings| ==> !DecodesValid(decode, encodings[k])
    ensures r.Some? ==> IsValidChineseText(r.value)
  {
    if encodings == [] then None
    else if DecodesValid(decode, encodings[0]) then Some(decode(encodings[0]).value)
    else
      var r := FirstValidDecode(encodings[1..], decode);
      assert forall k :: 1 <= k < |encodings| ==> encodings[k] == encodings[1..][k - 1];
      r
  }

  /** Detection is used when it names an encoding with confidence above 0.5
      and that encoding decodes the body. */
  predicate DetectionUsable(decode: Decoder, detected: Detection)
  {
    && detected.encoding.Some? && detected.encoding.value != ""
    && detected.confidence > 0.5
    && decode(detected.encoding.value).Some?
  }

  /** The text `get_page` returns for a body: the listed encodings first,
      then detection, then the lossy gbk decode `lossy`, which always
      succeeds. */
  function DecodeCascade(decode: Decoder, detected: Detection, lossy: string): string
  {
    match FirstValidDecode(Encodings, decode)
    case Some(t) => t
    case None =>
      if DetectionUsable(decode, detected) then decode(detected.encoding.value).value
      else lossy
  }

  /** The index of the encoding `FirstValidDecode` picks: it is the first one
      that decodes to valid text, and every earlier one fails. */
  lemma {:induction false} FirstValidDecodeIsFirst(encodings: seq<string>, decode: Decoder) returns (k: nat)
    requires FirstValidDecode(encodings, decode).Some?
    ensures k < |encodings| && DecodesValid(decode, encodings[k])
    ensures FirstValidDecode(encodings, decode) == decode(encodings[k])
    ensures forall j :: 0 <= j < k ==> !DecodesValid(decode, encodings[j])
  {
    if DecodesValid(decode, encodings[0]) {
      k := 0;
    } else {
      var k' := FirstValidDecodeIsFirst(encodings[1..], decode);
      k := k' + 1;
      assert forall j :: 1 <= j < k ==> encodings[j] == encodings[1..][j - 1];
    }
  }

  /** What the cascade returns: the first listed encoding giving valid text
      when there is one; otherwise detection's decode when usable; otherwise
      the lossy decode. A fetched body therefore always yields text. */
  lemma DecodeCascadeMeaning(decode: Decoder, detected: Detection, lossy: string) returns (k: nat)
    ensures var r := DecodeCascade(decode, detected, lossy);
      if exists j :: 0 <= j < |Encodings| && DecodesValid(decode, Encodings[j]) then
        && k < |Encodings| && DecodesValid(decode, Encodings[k])
        && Some(r) == decode(Encodings[k]) && IsValidChineseText(r)
        && (forall j :: 0 <= j < k ==> !DecodesValid(decode, Encodings[j]))
      else if DetectionUsable(decode, detected) then Some(r) == decode(detected.encoding.value)
      else r == lossy
  {
    if FirstValidDecode(Encodings, decode).Some? {
      k := FirstValidDecodeIsFirst(Encodings, decode);
    } else {
      k := 0;
    }
  }

  // ---------------------------------------------------------------------------
  // Keyword tests

  /** `any(keyword in text for keyword in keywords)`. */
  function AnyKeyword(text: string, keywords: seq<string>): (r: bool)
    ensures r <==> exists k :: 0 <= k < |keywords| && Contains(text, keywords[k])
  {
    if keywords == [] then false
    else
      var r := Contains(text, keywords[0]) || AnyKeyword(text, keywords[1..]);
      assert forall k :: 1 <= k < |keywords| ==> keywords[k] == keywords[1..][k - 1];
      r
  }

  /** A keyword found in a prefix is found in the whole text. */
  lemma AnyKeywordPrefix(t: string, n: nat, keywords: seq<string>)
    requires n <= |t|
    ensures AnyKeyword(t[..n], keywords) ==> AnyKeyword(t, keywords)
  {
    if AnyKeyword(t[..n], keywords) {
      var k :| 0 <= k < |keywords| && Contains(t[..n], keywords[k]);
      ContainsInMiddle([], t[..n], t[n..], keywords[k]);
      assert [] + t[..n] + t[n..] == t;
    }
  }

  const ClassificationKeywords: seq<string> := ["属", "下属分类", "分类"]

  /** `is_classification_text`. */
  predicate IsClassificationText(text: string)
  {
    AnyKeyword(text, ClassificationKeywords)
  }

  /** '下属分类' contains '属', so the classification test comes down to the
      two keywords '属' and '分类'. */
  lemma ClassificationTextIff(text: string)
    ensures IsClassificationText(text) <==> Contains(text, "属") || Contains(text, "分类")
  {
    if Contains(text, "下属分类") {
      assert OccursAt("下属分类", "属", 1);
      OccursContains("下属分类", "属", 1);
      ContainsPiece(text, "下属分类", "属");
    }
    assert ClassificationKeywords[0] == "属" && ClassificationKeywords[2] == "分类";
  }

  const DosageKeywords: seq<string> := ["用量", "煎服", "外用", "研末", "浸渍"]

  /** `is_dosage_text`. */
  predicate IsDosageText(text: string)
  {
    AnyKeyword(text, DosageKeywords)
  }

  /** The dosage test is exactly "mentions one of the five keywords". */
  lemma DosageTextIff(text: string)
    ensures IsDosageText(text) <==>
      || Contains(text, "用量") || Contains(text, "煎服") || Contains(text, "外用")
      || Contains(text, "研末") || Contains(text, "浸渍")
  {
    assert DosageKeywords[0] == "用量" && DosageKeywords[1] == "煎服" && DosageKeywords[2] == "外用";
    assert DosageKeywords[3] == "研末" && DosageKeywords[4] == "浸渍";
  }

  // ---------------------------------------------------------------------------
  // `is_herb_image`

  const ExcludedImageWords: seq<string> := ["logo", "icon", "button", "banner", "nav"]

  function DigitValue(c: char): nat
    requires IsDigit(c)
  {
    c as int - '0' as int
  }

  /** The value of a string of decimal digits. */
  function DigitsValue(s: string): nat
    requires AllDigits(s)
    decreases |s|
  {
    if s == [] then 0 else DigitsValue(s[..|s| - 1]) * 10 + DigitValue(s[|s| - 1])
  }

  /** Python's `int(s)` on a string: surrounding whitespace, an optional sign
      and at least one ASCII digit; `None` stands for the `ValueError`. */
  function ParseInt(s: string): (r: Option<int>)
    ensures r.Some? ==> Strip(s) != []
  {
    var t := Strip(s);
    if t != [] && (t[0] == '-' || t[0] == '+') then
      if |t| > 1 && AllDigits(t[1..]) then
        var v: int := DigitsValue(t[1..]);
        Some(if t[0] == '-' then -v else v)
      else None
    else if t != [] && AllDigits(t) then Some(DigitsValue(t))
    else None
  }

  function DigitChar(d: nat): (c: char)
    requires d < 10
    ensures IsDigit(c) && DigitValue(c) == d
  {
    ('0' as int + d) as char
  }

  /** Python's `str(n)` for a natural number. */
  function ShowNat(n: nat): (r: string)
    ensures r != [] && AllDigits(r)
  {
    if n < 10 then [DigitChar(n)] else ShowNat(n / 10) + [DigitChar(n % 10)]
  }

  /** Python's `str(n)` for an integer. */
  function ShowInt(n: int): string
  {
    if n < 0 then "-" + ShowNat(-n) else ShowNat(n)
  }

  lemma {:induction false} DigitsValueShow(n: nat)
    ensures DigitsValue(ShowNat(n)) == n
  {
    if n >= 10 {
      var s := ShowNat(n);
      assert s[..|s| - 1] == ShowNat(n / 10);
      DigitsValueShow(n / 10);
    }
  }

  /** `int` reads back what `str` writes: an attribute `width="30"` parses to 30. */
  lemma ParseIntShow(n: int)
    ensures ParseInt(ShowInt(n)) == Some(n)
  {
    var s := ShowInt(n);
    var m: nat := if n < 0 then -n else n;
    var digits := ShowNat(m);
    DigitsValueShow(m);
    assert forall i :: 0 <= i < |digits| ==> IsDigit(digits[i]);
    if n < 0 {
      assert s == "-" + digits && s[1..] == digits;
      assert forall i :: 0 <= i < |s| ==> !IsSpace(s[i]) by {
        forall i | 0 <= i < |s| ensures !IsSpace(s[i]) {
          if i > 0 {
            assert s[i] == digits[i - 1];
          }
        }
      }
      StripNoSpace(s);
    } else {
      assert s == digits;
      StripNoSpace(s);
    }
  }

  /** Python truthiness of an attribute: present and non-empty. */
  predicate Truthy(a: Option<string>)
  {
    a.Some? && a.value != ""
  }

  /** Both size attributes are present, both parse, and one is below 50. */
  predicate TooSmall(width: Option<string>, height: Option<string>)
  {
    && Truthy(width) && Truthy(height)
    && ParseInt(width.value).Some? && ParseInt(height.value).Some?
    && (ParseInt(width.value).value < 50 || ParseInt(height.value).value < 50)
  }

  /** `is_herb_image`, in the source's order of checks: the blocked words on
      the lower-cased src, then 'ad' unless inside 'allimg', then the size
      attributes (a size that does not parse is ignored). The order does not
      matter: the image is refused exactly when one of the three holds. */
  function IsHerbImage(src: string, width: Option<string>, height: Option<string>): (r: bool)
    ensures !r <==>
      || AnyKeyword(Lower(src), ExcludedImageWords)
      || (Contains(Lower(src), "ad") && !Contains(Lower(src), "allimg"))
      || TooSmall(width, height)
  {
    var lower := Lower(src);
    if AnyKeyword(lower, ExcludedImageWords) then false
    else if Contains(lower, "ad") && !Contains(lower, "allimg") then false
    else if Truthy(width) && Truthy(height) then
      match (ParseInt(width.value), ParseInt(height.value))
      case (Some(w), Some(h)) => !(w < 50 || h < 50)
      case _ => true
    else true
  }

  /** The test ignores the case of the src. */
  lemma IsHerbImageIgnoresCase(src: string, width: Option<string>, height: Option<string>)
    ensures IsHerbImage(Lower(src), width, height) == IsHerbImage(src, width, height)
  {
    Cleaning.LowerTwice(src);
  }

  /** An image declared narrower or lower than 50 pixels is refused,
      whatever its src. */
  lemma SmallImageRefused(src: string, w: int, h: int)
    requires w < 50 || h < 50
    ensures !IsHerbImage(src, Some(ShowInt(w)), Some(ShowInt(h)))
  {
    ParseIntShow(w);
    ParseIntShow(h);
  }

  // ---------------------------------------------------------------------------
  // Splitting the effects section into items

  /** The separators of `re.split(r'[，、；;]', ...)`. */
  const ItemSeparators: set<char> := {'，', '、', '；', ';'}

  predicate NoneOf(s: string, cs: set<char>)
  {
    forall i :: 0 <= i < |s| ==> s[i] !in cs
  }

  /** `s` with every character of `cs` removed. */
  function Without(s: string, cs: set<char>): (r: string)
    ensures NoneOf(r, cs)
  {
    if s == [] then [] else (if s[0] in cs then [] else [s[0]]) + Without(s[1..], cs)
  }

  /** The number of characters of `s` that belong to `cs`. */
  function CountOf(s: string, cs: set<char>): nat
  {
    if s == [] then 0 else (if s[0] in cs then 1 else 0) + CountOf(s[1..], cs)
  }

  /** `re.split` on a one-character class: the pieces between separators,
      empty pieces included. */
  function SplitAny(s: string, cs: set<char>): (r: seq<string>)
    ensures |r| >= 1
    ensures forall k :: 0 <= k < |r| ==> NoneOf(r[k], cs)
    decreases |s|
  {
    if s == [] then [[]]
    else
      var rest := SplitAny(s[1..], cs);
      if s[0] in cs then [[]] + rest else [[s[0]] + rest[0]] + rest[1..]
  }

  /** The split loses exactly the separators: there is one piece more than
      there are separators, and the pieces put together give `s` without
      them. */
  lemma {:induction false} SplitAnyMeaning(s: string, cs: set<char>)
    ensures Concat(SplitAny(s, cs)) == Without(s, cs)
    ensures |SplitAny(s, cs)| == CountOf(s, cs) + 1
    decreases |s|
  {
    if s != [] {
      var rest := SplitAny(s[1..], cs);
      SplitAnyMeaning(s[1..], cs);
      if s[0] !in cs {
        assert Concat(rest) == rest[0] + Concat(rest[1..]);
        assert Concat([[s[0]] + rest[0]] + rest[1..]) == [s[0]] + rest[0] + Concat(rest[1..]);
      } else {
        assert Concat([[]] + rest) == Concat(rest);
      }
    }
  }

  /** An item as the source cleans it: `piece.strip().rstrip('。')`. */
  function CleanItem(p: string): string
  {
    RStripChar(Strip(p), '。')
  }

  /** The comprehension's test: the stripped piece is non-empty, shorter
      than 50 characters, and mentions none of the keywords. */
  predicate KeepsItem(p: string, keywords: seq<string>)
  {
    var t := Strip(p);
    t != [] && |t| < 50 && !AnyKeyword(t, keywords)
  }

  /** `[clean(p) for p in pieces if keeps(p)]`. Every item is shorter than
      50 characters, mentions none of the keywords and does not end in '。'. */
  function Items(pieces: seq<string>, keywords: seq<string>): (r: seq<string>)
    ensures |r| <= |pieces|
    ensures forall k :: 0 <= k < |r| ==>
      |r[k]| < 50 && !AnyKeyword(r[k], keywords) && (r[k] == [] || r[k][|r[k]| - 1] != '。')
  {
    if pieces == [] then []
    else
      var rest := Items(pieces[1..], keywords);
      if KeepsItem(pieces[0], keywords) then
        AnyKeywordPrefix(Strip(pieces[0]), |CleanItem(pieces[0])|, keywords);
        [CleanItem(pieces[0])] + rest
      else rest
  }

  /** The items are exactly the cleaned kept pieces, in order: every kept
      piece gives an item, and every item comes from a kept piece. */
  lemma {:induction false} ItemsMeaning(pieces: seq<string>, keywords: seq<string>)
    ensures forall j :: 0 <= j < |pieces| && KeepsItem(pieces[j], keywords) ==>
      CleanItem(pieces[j]) in Items(pieces, keywords)
    ensures forall x :: x in Items(pieces, keywords) ==>
      exists j :: 0 <= j < |pieces| && KeepsItem(pieces[j], keywords) && x == CleanItem(pieces[j])
  {
    if pieces != [] {
      ItemsMeaning(pieces[1..], keywords);
      assert forall j :: 1 <= j < |pieces| ==> pieces[j] == pieces[1..][j - 1];
      forall x | x in Items(pieces, keywords)
        ensures exists j :: 0 <= j < |pieces| && KeepsItem(pieces[j], keywords) && x == CleanItem(pieces[j])
      {
        if x in Items(pieces[1..], keywords) {
          var j :| 0 <= j < |pieces[1..]| && KeepsItem(pieces[1..][j], keywords) && x == CleanItem(pieces[1..][j]);
          assert pieces[j + 1] == pieces[1..][j];
        } else {
          assert KeepsItem(pieces[0], keywords) && x == CleanItem(pieces[0]);
        }
      }
    }
  }

  /** A character property every piece has is kept by every item. */
  lemma {:induction false} ItemsKeep(pieces: seq<string>, keywords: seq<string>, P: char -> bool)
    requires forall k :: 0 <= k < |pieces| ==> AllChars(pieces[k], P)
    ensures forall k :: 0 <= k < |Items(pieces, keywords)| ==> AllChars(Items(pieces, keywords)[k], P)
  {
    if pieces != [] {
      ItemsKeep(pieces[1..], keywords, P);
      StripKeeps(pieces[0], P);
      var c := CleanItem(pieces[0]);
      assert c == Strip(pieces[0])[..|c|];
      assert AllChars(c, P);
    }
  }

  /** The function items of a capture: split on the separators, keeping the
      pieces that are short and say nothing about classification. No item
      holds '属', '分类' or a separator, and each is shorter than 50. */
  function FunctionItems(text: string): (r: seq<string>)
    ensures forall k :: 0 <= k < |r| ==>
      && |r[k]| < 50 && !Contains(r[k], "属") && !Contains(r[k], "分类")
      && NoneOf(r[k], ItemSeparators)
  {
    var pieces := SplitAny(text, ItemSeparators);
    var r := Items(pieces, ClassificationKeywords);
    ItemsKeep(pieces, ClassificationKeywords, c => c !in ItemSeparators);
    forall k | 0 <= k < |r| ensures !Contains(r[k], "属") && !Contains(r[k], "分类") {
      ClassificationTextIff(r[k]);
    }
    r
  }

  /** The indication items of a capture: as the function items, but refusing
      the pieces that talk about dosage. No item mentions 用量, 煎服, 外用,
      研末 or 浸渍. */
  function IndicationItems(text: string): (r: seq<string>)
    ensures forall k :: 0 <= k < |r| ==>
      && |r[k]| < 50 && !IsDosageText(r[k]) && NoneOf(r[k], ItemSeparators)
  {
    var pieces := SplitAny(text, ItemSeparators);
    ItemsKeep(pieces, DosageKeywords, c => c !in ItemSeparators);
    Items(pieces, DosageKeywords)
  }

  // ---------------------------------------------------------------------------
  // Meridians

  /** The character class `[肺心肝脾肾胃肠膀胱胆]`: single characters, so
      '膀' and '胱' count separately. */
  const Organs: set<char> := {'肺', '心', '肝', '脾', '肾', '胃', '肠', '膀', '胱', '胆'}

  /** One organ character followed by '经'. */
  predicate IsMeridian(m: string)
  {
    |m| == 2 && m[0] in Organs && m[1] == '经'
  }

  /** `re.findall(r'[肺心肝脾肾胃肠膀胱胆]经', s)`: the non-overlapping matches
      from left to right. */
  function MeridianMatches(s: string): (r: seq<string>)
    ensures forall k :: 0 <= k < |r| ==> IsMeridian(r[k])
    decreases |s|
  {
    if |s| < 2 then []
    else if s[0] in Organs && s[1] == '经' then [s[..2]] + MeridianMatches(s[2..])
    else MeridianMatches(s[1..])
  }

  /** Every match occurs in the text. */
  lemma {:induction false} MeridianMatchesSound(s: string, m: string)
    requires m in MeridianMatches(s)
    ensures Contains(s, m)
    decreases |s|
  {
    if s[0] in Organs && s[1] == '经' && m == s[..2] {
      assert OccursAt(s, m, 0);
      OccursContains(s, m, 0);
    } else {
      var d := if s[0] in Organs && s[1] == '经' then 2 else 1;
      MeridianMatchesSound(s[d..], m);
      ContainsInMiddle(s[..d], s[d..], [], m);
      assert s[..d] + s[d..] + [] == s;
    }
  }

  /** Every meridian name occurring in the text is matched: no occurrence is
      hidden by an overlapping match, since '经' is not an organ character. */
  lemma {:induction false} MeridianMatchesComplete(s: string, m: string, i: nat)
    requires IsMeridian(m) && OccursAt(s, m, i)
    ensures m in MeridianMatches(s)
    decreases |s|
  {
    if i > 0 {
      var d := if s[0] in Organs && s[1] == '经' then 2 else 1;
      if i >= d {
        assert s[d..][i - d..i - d + 2] == s[i..i + 2];
        MeridianMatchesComplete(s[d..], m, i - d);
      }
    }
  }

  /** The matches are exactly the meridian names occurring in the text. */
  lemma MeridianMatchesIff(s: string, m: string)
    ensures m in MeridianMatches(s) <==> IsMeridian(m) && Contains(s, m)
  {
    if m in MeridianMatches(s) {
      MeridianMatchesSound(s, m);
    }
    if IsMeridian(m) && Contains(s, m) {
      var i := ContainsOccurs(s, m);
      MeridianMatchesComplete(s, m, i);
    }
  }

  /** `list(set(re.findall(...)))`: the matches without repetition (first
      occurrence order; Python's set order is left open). */
  function MeridianSet(s: string): (r: seq<string>)
    ensures NoDuplicates(r)
    ensures forall k :: 0 <= k < |r| ==> IsMeridian(r[k]) && Contains(s, r[k])
    ensures forall m :: IsMeridian(m) && Contains(s, m) ==> m in r
  {
    var ms := MeridianMatches(s);
    forall m | m in ms ensures Contains(s, m) {
      MeridianMatchesIff(s, m);
    }
    forall m | IsMeridian(m) && Contains(s, m) ensures m in ms {
      MeridianMatchesIff(s, m);
    }
    Dedup(ms)
  }

  /** The fallback captures of `extract_taste_and_meridians`, in pattern
      order: the first one holding a meridian gives the list, and the list
      stays empty only when none holds one. */
  function FallbackMeridians(captures: seq<string>): (r: seq<string>)
    ensures NoDuplicates(r) && forall k :: 0 <= k < |r| ==> IsMeridian(r[k])
    ensures r == [] <==> forall k :: 0 <= k < |captures| ==> MeridianMatches(captures[k]) == []
  {
    if captures == [] then []
    else if MeridianMatches(captures[0]) != [] then
      var r := MeridianSet(captures[0]);
      assert MeridianMatches(captures[0])[0] in r;
      r
    else
      var r := FallbackMeridians(captures[1..]);
      assert forall k :: 1 <= k < |captures| ==> captures[k] == captures[1..][k - 1];
      r
  }

  /** The meridians of a page: from the taste-and-meridian field when it
      holds any, else from the fallback captures. */
  function MeridiansOf(primary: string, fallbacks: seq<string>): (r: seq<string>)
    ensures NoDuplicates(r) && forall k :: 0 <= k < |r| ==> IsMeridian(r[k])
  {
    if primary != "" && MeridianMatches(primary) != [] then MeridianSet(primary)
    else FallbackMeridians(fallbacks)
  }

  /** When the taste-and-meridian field names a meridian, the list is exactly
      the meridians named there; otherwise it is the first fallback's. */
  lemma MeridiansOfMeaning(primary: string, fallbacks: seq<string>, m: string)
    requires IsMeridian(m) && Contains(primary, m)
    ensures forall x :: x in MeridiansOf(primary, fallbacks) <==> IsMeridian(x) && Contains(primary, x)
  {
    MeridianMatchesIff(primary, m);
    assert primary != "";
  }

  /** What `FallbackMeridians` returns, exactly: `k` is the index of the
      first capture holding a meridian (or `|captures|` when none does); the
      list is then the meridians named in that capture and no others, or
      empty when there is no such capture. */
  lemma {:induction false} FallbackMeridiansIsFirst(captures: seq<string>) returns (k: nat)
    ensures k <= |captures|
    ensures forall j :: 0 <= j < k ==> MeridianMatches(captures[j]) == []
    ensures k == |captures| ==> FallbackMeridians(captures) == []
    ensures k < |captures| ==>
      MeridianMatches(captures[k]) != [] &&
      forall x :: x in FallbackMeridians(captures) <==> IsMeridian(x) && Contains(captures[k], x)
  {
    if captures == [] {
      k := 0;
    } else if MeridianMatches(captures[0]) != [] {
      k := 0;
      forall x | x in FallbackMeridians(captures)
        ensures IsMeridian(x) && Contains(captures[0], x)
      {
        var r := FallbackMeridians(captures);
        var i :| 0 <= i < |r| && r[i] == x;
      }
    } else {
      assert FallbackMeridians(captures) == FallbackMeridians(captures[1..]);
      var k' := FallbackMeridiansIsFirst(captures[1..]);
      k := k' + 1;
      forall j | 0 <= j < k
        ensures MeridianMatches(captures[j]) == []
      {
        if j > 0 {
          assert captures[j] == captures[1..][j - 1];
        }
      }
    }
  }

  /** When the taste-and-meridian field names no meridian, the page's list is
      the fallback one. */
  lemma MeridiansOfFallback(primary: string, fallbacks: seq<string>)
    requires forall m :: IsMeridian(m) ==> !Contains(primary, m)
    ensures MeridiansOf(primary, fallbacks) == FallbackMeridians(fallbacks)
  {
    var ms := MeridianMatches(primary);
    if ms != [] {
      MeridianMatchesIff(primary, ms[0]);
      assert false;
    }
  }

  // ---------------------------------------------------------------------------
  // The replacement rule of `extract_usage_info`

  /** The characters `.strip('。，；：】')` removes at both ends. */
  const UsageEdge: set<char> := {'。', '，', '；', '：', '】'}

  /** A candidate is taken when it mentions '用量' or '克' and has between 11
      and 499 characters. */
  predicate UsageQualifies(t: string)
  {
    (Contains(t, "用量") || Contains(t, "克")) && 10 < |t| < 500
  }

  /** The dosage after the usage patterns: the first candidate that
      qualifies ends the search, and replaces the current dosage only when it
      is longer. Later candidates are never looked at, even longer ones. */
  function UsageAfter(current: string, candidates: seq<string>): (r: string)
    ensures |r| >= |current|
    ensures r == current || (UsageQualifies(r) && |r| > |current|)
  {
    if candidates == [] then current
    else
      var t := StripChars(candidates[0], UsageEdge);
      if UsageQualifies(t) then (if |t| > |current| then t else current)
      else UsageAfter(current, candidates[1..])
  }

  /** A replaced dosage is the stripped form of the first qualifying
      candidate, and nothing before it qualified. */
  lemma {:induction false} UsageAfterFirst(current: string, candidates: seq<string>) returns (k: nat)
    requires UsageAfter(current, candidates) != current
    ensures k < |candidates|
    ensures UsageAfter(current, candidates) == StripChars(candidates[k], UsageEdge)
    ensures forall j :: 0 <= j < k ==> !UsageQualifies(StripChars(candidates[j], UsageEdge))
  {
    if UsageQualifies(StripChars(candidates[0], UsageEdge)) {
      k := 0;
    } else {
      var k' := UsageAfterFirst(current, candidates[1..]);
      k := k' + 1;
      assert forall j :: 1 <= j < k ==> candidates[j] == candidates[1..][j - 1];
    }
  }

  /** Only the first qualifying candidate counts: whatever follows it, the
      outcome is the one that candidate alone gives. */
  lemma UsageStopsAtFirstQualifying(current: string, c: string, later: seq<string>)
    requires UsageQualifies(StripChars(c, UsageEdge))
    ensures UsageAfter(current, [c] + later) == UsageAfter(current, [c])
  {
  }
}
