/** `generate_statistics`: record count, the category and meridian
    histograms, image coverage and per-field coverage of a processed batch. */
module Statistics {
  import opened Wrappers
  import opened Strings
  import opened Json
  import opened Normaliser

  /** The fields whose coverage is counted, in the order the list declares them. */
  const CoverageFields: seq<string> := [
    "name", "pinyin", "category", "taste", "meridians", "morphology",
    "medicinal_part", "distribution", "processing", "characteristics",
    "pharmacology", "main_components", "clinical_application",
    "prescriptions", "contraindications", "images"]

  lemma CoverageFieldsDistinct()
    ensures NoDuplicates(CoverageFields)
  {
  }

  /** `herb.get(key, default)`. */
  function Get(herb: Record, key: string, default: Value): Value
  {
    if key in herb then herb[key] else default
  }

  /** Lists and dictionaries cannot be dictionary keys. */
  predicate Hashable(v: Value)
  {
    !v.List? && !v.Obj?
  }

  // ---------------------------------------------------------------------------
  // Sums of counts

  /** The sum of the counts stored under `keys`. */
  ghost function SumOver(m: map<Value, nat>, keys: set<Value>): nat
    requires keys <= m.Keys
    decreases keys
  {
    if keys == {} then 0
    else
      var k :| k in keys;
      m[k] + SumOver(m, keys - {k})
  }

  /** The sum of all counts of a histogram. */
  ghost function MapSum(m: map<Value, nat>): nat
  {
    SumOver(m, m.Keys)
  }

  /** Any key can be taken out first. */
  lemma {:induction false} SumOverRemove(m: map<Value, nat>, keys: set<Value>, k: Value)
    requires keys <= m.Keys && k in keys
    ensures SumOver(m, keys) == m[k] + SumOver(m, keys - {k})
    decreases keys
  {
    var j :| j in keys && SumOver(m, keys) == m[j] + SumOver(m, keys - {j});
    if j != k {
      SumOverRemove(m, keys - {j}, k);
      SumOverRemove(m, keys - {k}, j);
      assert keys - {j} - {k} == keys - {k} - {j};
    }
  }

  /** Counts outside `keys` do not matter. */
  lemma {:induction false} SumOverOthers(m: map<Value, nat>, m': map<Value, nat>, keys: set<Value>)
    requires keys <= m.Keys && keys <= m'.Keys
    requires forall k :: k in keys ==> m[k] == m'[k]
    ensures SumOver(m, keys) == SumOver(m', keys)
    decreases keys
  {
    if keys != {} {
      var k :| k in keys;
      SumOverRemove(m, keys, k);
      SumOverRemove(m', keys, k);
      SumOverOthers(m, m', keys - {k});
    }
  }

  /** One more occurrence of `k` raises the sum by one. */
  lemma Increment(m: map<Value, nat>, k: Value)
    ensures MapSum(Bump(m, k)) == MapSum(m) + 1
  {
    var m' := Bump(m, k);
    var rest := m.Keys - {k};
    assert m'.Keys - {k} == rest;
    SumOverRemove(m', m'.Keys, k);
    SumOverOthers(m, m', rest);
    if k in m {
      SumOverRemove(m, m.Keys, k);
    } else {
      assert m.Keys == rest;
    }
  }

  // ---------------------------------------------------------------------------
  // Histograms

  /** `d[k] += 1` if present, else `d[k] = 1`. */
  function Bump(m: map<Value, nat>, k: Value): (r: map<Value, nat>)
    ensures r.Keys == m.Keys + {k}
    ensures r[k] == (if k in m then m[k] else 0) + 1
    ensures forall j :: j in m && j != k ==> r[j] == m[j]
  {
    if k in m then m[k := m[k] + 1] else m[k := 1]
  }

  /** The histogram after counting `keys` in order into `m`; an unhashable
      key raises. */
  function Counted(m: map<Value, nat>, keys: seq<Value>): (r: Result<map<Value, nat>>)
    decreases |keys|
  {
    if keys == [] then Ok(m)
    else
      var last := keys[|keys| - 1];
      match Counted(m, keys[..|keys| - 1])
      case Err(e) => Err(e)
      case Ok(h) =>
        if Hashable(last) then Ok(Bump(h, last)) else Err("TypeError: unhashable type")
  }

  /** Counting `n` keys adds exactly `n` to the histogram's sum. */
  lemma {:induction false} CountedSum(m: map<Value, nat>, keys: seq<Value>)
    requires Counted(m, keys).Ok?
    ensures MapSum(Counted(m, keys).value) == MapSum(m) + |keys|
    decreases |keys|
  {
    if keys != [] {
      var prefix := keys[..|keys| - 1];
      CountedSum(m, prefix);
      Increment(Counted(m, prefix).value, keys[|keys| - 1]);
    }
  }

  /** The count a histogram holds for `k`: 0 when `k` is absent. */
  function CountOf(m: map<Value, nat>, k: Value): nat
  {
    if k in m then m[k] else 0
  }

  /** Each key's bucket grows by the number of times the key was counted, and
      a key is present exactly when it was present before or was counted. */
  lemma {:induction false} CountedKey(m: map<Value, nat>, keys: seq<Value>, k: Value)
    requires Counted(m, keys).Ok?
    ensures CountOf(Counted(m, keys).value, k) == CountOf(m, k) + multiset(keys)[k]
    ensures k in Counted(m, keys).value <==> k in m || k in keys
    decreases |keys|
  {
    if keys != [] {
      var prefix := keys[..|keys| - 1];
      assert keys == prefix + [keys[|keys| - 1]];
      CountedKey(m, prefix, k);
    }
  }

  lemma {:induction false} CountedErr(m: map<Value, nat>, keys: seq<Value>, n: nat)
    requires n <= |keys|
    requires Counted(m, keys[..n]).Err?
    ensures Counted(m, keys) == Counted(m, keys[..n])
    decreases |keys| - n
  {
    if n < |keys| {
      assert keys[..n + 1][..n] == keys[..n];
      CountedErr(m, keys, n + 1);
    } else {
      assert keys[..n] == keys;
    }
  }

  lemma CountedStep(m: map<Value, nat>, keys: seq<Value>, i: nat, counts: map<Value, nat>)
    requires i < |keys| && Counted(m, keys[..i]) == Ok(counts)
    ensures Counted(m, keys[..i + 1]) ==
      if Hashable(keys[i]) then Ok(Bump(counts, keys[i])) else Err("TypeError: unhashable type")
  {
    assert keys[..i + 1][..i] == keys[..i];
  }

  /** `counts[key] = counts.get(key, 0) + 1`, written as the source's two
      branches. */
  method BumpKey(counts: map<Value, nat>, key: Value) returns (r: map<Value, nat>)
    ensures r == Bump(counts, key)
  {
    if key in counts {
      r := counts[key := counts[key] + 1];
    } else {
      r := counts[key := 1];
    }
  }

  /** The `for meridian in ...` counting loop. */
  method CountInto(m: map<Value, nat>, keys: seq<Value>) returns (r: Result<map<Value, nat>>)
    ensures r == Counted(m, keys)
  {
    var counts := m;
    var i := 0;
    while i < |keys|
      invariant 0 <= i <= |keys|
      invariant Counted(m, keys[..i]) == Ok(counts)
    {
      CountedStep(m, keys, i, counts);
      var key := keys[i];
      if !Hashable(key) {
        CountedErr(m, keys, i + 1);
        return Err("TypeError: unhashable type");
      }
      counts := BumpKey(counts, key);
      i := i + 1;
    }
    assert keys[..i] == keys;
    r := Ok(counts);
  }

  // ---------------------------------------------------------------------------
  // Per-record tallies

  /** The counters while the loop runs. */
  datatype Tallies = Tallies(
    categories: map<Value, nat>,
    meridians: map<Value, nat>,
    images: nat,
    fields: map<string, nat>)

  /** The starting counters: empty histograms, every coverage field at 0. */
  function InitialTallies(): Tallies
  {
    Tallies(map[], map[], 0, map f | f in CoverageFields :: 0)
  }

  /** The categories a record contributes: its category when truthy. */
  function CategoryKeys(herb: Record): seq<Value>
  {
    var c := Get(herb, "category", Str(""));
    if Truthy(c) then [c] else []
  }

  /** The meridians a record contributes: what `for` visits in
      `herb.get('meridians', [])`. */
  function MeridianKeys(herb: Record): Result<seq<Value>>
  {
    Iterated(Get(herb, "meridians", List([])))
  }

  /** Whether a field counts as covered: present and truthy. */
  predicate Covers(herb: Record, f: string)
  {
    f in herb && Truthy(herb[f])
  }

  /** The field-coverage counters after one record. */
  function CountFields(fc: map<string, nat>, herb: Record): (r: map<string, nat>)
    ensures r.Keys == fc.Keys
    ensures forall f :: f in fc ==> r[f] == fc[f] + (if Covers(herb, f) then 1 else 0)
  {
    map f | f in fc :: fc[f] + (if Covers(herb, f) then 1 else 0)
  }

  /** The body of the loop over records. */
  function Step(t: Tallies, herb: Record): Result<Tallies>
  {
    match Counted(t.categories, CategoryKeys(herb))
    case Err(e) => Err(e)
    case Ok(cats) =>
      match MeridianKeys(herb)
      case Err(e) => Err(e)
      case Ok(ms) =>
        match Counted(t.meridians, ms)
        case Err(e) => Err(e)
        case Ok(mers) =>
          var images := t.images + (if Truthy(Get(herb, "images", List([]))) then 1 else 0);
          Ok(Tallies(cats, mers, images, CountFields(t.fields, herb)))
  }

  /** The counters after the loop has visited `data`. */
  function Tally(data: seq<Record>): Result<Tallies>
    decreases |data|
  {
    if data == [] then Ok(InitialTallies())
    else
      match Tally(data[..|data| - 1])
      case Err(e) => Err(e)
      case Ok(t) => Step(t, data[|data| - 1])
  }

  /** The number of records covering field `f`. */
  function CoverCount(data: seq<Record>, f: string): (n: nat)
    ensures n <= |data|
    decreases |data|
  {
    if data == [] then 0
    else CoverCount(data[..|data| - 1], f) + (if Covers(data[|data| - 1], f) then 1 else 0)
  }

  /** The number of records with a truthy 'images' value. */
  function ImageCount(data: seq<Record>): (n: nat)
    ensures n <= |data|
    decreases |data|
  {
    if data == [] then 0
    else ImageCount(data[..|data| - 1]) + (if Truthy(Get(data[|data| - 1], "images", List([]))) then 1 else 0)
  }

  /** The number of meridian entries across all records. */
  function MeridianTotal(data: seq<Record>): nat
    decreases |data|
  {
    if data == [] then 0
    else
      var ms := MeridianKeys(data[|data| - 1]);
      MeridianTotal(data[..|data| - 1]) + (if ms.Ok? then |ms.value| else 0)
  }

  /** What the counters mean: the image counter and every field counter count
      records, the category histogram sums to the number of records with a
      category, and the meridian histogram to the number of meridian entries. */
  lemma {:induction false} TallyCounters(data: seq<Record>)
    requires Tally(data).Ok?
    ensures Tally(data).value.images == ImageCount(data)
    ensures Tally(data).value.fields.Keys == set f | f in CoverageFields
    ensures forall f :: f in Tally(data).value.fields ==> Tally(data).value.fields[f] == CoverCount(data, f)
    decreases |data|
  {
    if data != [] {
      TallyCounters(data[..|data| - 1]);
    }
  }

  lemma {:induction false} TallyHistograms(data: seq<Record>)
    requires Tally(data).Ok?
    ensures MapSum(Tally(data).value.categories) == CoverCount(data, "category")
    ensures MapSum(Tally(data).value.meridians) == MeridianTotal(data)
    decreases |data|
  {
    if data == [] {
      assert MapSum(map[]) == 0;
    } else {
      var prefix := data[..|data| - 1];
      var herb := data[|data| - 1];
      TallyHistograms(prefix);
      var t := Tally(prefix).value;
      CountedSum(t.categories, CategoryKeys(herb));
      CountedSum(t.meridians, MeridianKeys(herb).value);
    }
  }

  /** The number of records whose truthy category is `c`. */
  function CategoryCount(data: seq<Record>, c: Value): (n: nat)
    ensures n <= |data|
    decreases |data|
  {
    if data == [] then 0
    else
      var herb := data[|data| - 1];
      CategoryCount(data[..|data| - 1], c) + (if Truthy(c) && Get(herb, "category", Str("")) == c then 1 else 0)
  }

  /** The number of times `k` appears among the records' meridian entries. */
  function MeridianCount(data: seq<Record>, k: Value): nat
    decreases |data|
  {
    if data == [] then 0
    else
      var ms := MeridianKeys(data[|data| - 1]);
      MeridianCount(data[..|data| - 1], k) + (if ms.Ok? then multiset(ms.value)[k] else 0)
  }

  /** A successful step counts the record's category and meridian keys into
      the two histograms. */
  lemma StepHistograms(t: Tallies, herb: Record)
    requires Step(t, herb).Ok?
    ensures Counted(t.categories, CategoryKeys(herb)) == Ok(Step(t, herb).value.categories)
    ensures MeridianKeys(herb).Ok?
    ensures Counted(t.meridians, MeridianKeys(herb).value) == Ok(Step(t, herb).value.meridians)
  {
  }

  /** What each bucket holds: the category histogram counts the records with
      that category, the meridian histogram the occurrences of that entry,
      and a key is present exactly when its count is positive. */
  lemma {:induction false} TallyBuckets(data: seq<Record>, k: Value)
    requires Tally(data).Ok?
    ensures CountOf(Tally(data).value.categories, k) == CategoryCount(data, k)
    ensures CountOf(Tally(data).value.meridians, k) == MeridianCount(data, k)
    ensures k in Tally(data).value.categories <==> CategoryCount(data, k) > 0
    ensures k in Tally(data).value.meridians <==> MeridianCount(data, k) > 0
    decreases |data|
  {
    if data != [] {
      var prefix := data[..|data| - 1];
      var herb := data[|data| - 1];
      TallyBuckets(prefix, k);
      var t := Tally(prefix).value;
      assert Tally(data) == Step(t, herb);
      StepHistograms(t, herb);
      CountedKey(t.categories, CategoryKeys(herb), k);
      CountedKey(t.meridians, MeridianKeys(herb).value, k);
    }
  }

  lemma TallySnoc(data: seq<Record>, i: nat)
    requires i < |data| && Tally(data[..i]).Ok?
    ensures Tally(data[..i + 1]) == Step(Tally(data[..i]).value, data[i])
  {
    assert data[..i + 1][..i] == data[..i];
  }

  lemma {:induction false} TallyErr(data: seq<Record>, n: nat)
    requires n <= |data|
    requires Tally(data[..n]).Err?
    ensures Tally(data) == Tally(data[..n])
    decreases |data| - n
  {
    if n < |data| {
      assert data[..n + 1][..n] == data[..n];
      TallyErr(data, n + 1);
    } else {
      assert data[..n] == data;
    }
  }

  // ---------------------------------------------------------------------------
  // The result

  /** A coverage entry; the percentage is the exact ratio, before rounding. */
  datatype Coverage = Coverage(count: nat, percentage: real)

  datatype Stats = Stats(
    totalCount: nat,
    categories: map<Value, nat>,
    meridians: map<Value, nat>,
    imageCoverage: Coverage,
    fieldsCoverage: map<string, Coverage>)

  /** `count / total * 100`, or 0 for an empty batch. */
  function Percentage(count: nat, total: nat): (p: real)
    ensures total == 0 ==> p == 0.0
    ensures count <= total ==> 0.0 <= p <= 100.0
  {
    if total == 0 then 0.0 else (count as real) / (total as real) * 100.0
  }

  function StatsOf(total: nat, t: Tallies): Stats
  {
    Stats(total, t.categories, t.meridians,
          Coverage(t.images, Percentage(t.images, total)),
          map f | f in t.fields :: Coverage(t.fields[f], Percentage(t.fields[f], total)))
  }

  /** `generate_statistics(data)`, or the error of a record whose category
      or meridians cannot be counted. */
  function Statistics(data: seq<Record>): Result<Stats>
  {
    match Tally(data)
    case Err(e) => Err(e)
    case Ok(t) => Ok(StatsOf(|data|, t))
  }

  /** The promised bounds: the total is the number of records, no counter
      exceeds it, the histograms sum as described, and an empty batch has
      every percentage 0. */
  lemma StatisticsBounds(data: seq<Record>)
    requires Statistics(data).Ok?
    ensures Statistics(data).value.totalCount == |data|
    ensures Statistics(data).value.imageCoverage.count <= |data|
    ensures forall f :: f in Statistics(data).value.fieldsCoverage ==>
      Statistics(data).value.fieldsCoverage[f].count == CoverCount(data, f) <= |data|
    ensures MapSum(Statistics(data).value.categories) == CoverCount(data, "category") <= |data|
    ensures MapSum(Statistics(data).value.meridians) == MeridianTotal(data)
    ensures data == [] ==>
      Statistics(data).value.imageCoverage.percentage == 0.0 &&
      forall f :: f in Statistics(data).value.fieldsCoverage ==> Statistics(data).value.fieldsCoverage[f].percentage == 0.0
  {
    TallyCounters(data);
    TallyHistograms(data);
  }

  /** The inner `for field in fields` loop. Its three branches (a non-empty
      list, a non-empty string, any other truthy value) all count the field,
      so together they test truthiness. */
  method CountFieldsOf(fields: seq<string>, fc: map<string, nat>, herb: Record) returns (r: map<string, nat>)
    requires NoDuplicates(fields)
    requires fc.Keys == set f | f in fields
    ensures r == CountFields(fc, herb)
  {
    r := fc;
    var j := 0;
    while j < |fields|
      invariant 0 <= j <= |fields|
      invariant r.Keys == fc.Keys
      invariant forall f :: f in fc ==> r[f] == fc[f] + (if f in fields[..j] && Covers(herb, f) then 1 else 0)
    {
      var field := fields[j];
      assert field !in fields[..j];
      if field in herb {
        var value := herb[field];
        if (value.List? && value.items != []) || (value.Str? && value.s != []) || Truthy(value) {
          r := r[field := r[field] + 1];
        }
      }
      assert fields[..j + 1] == fields[..j] + [field];
      j := j + 1;
    }
    assert fields[..j] == fields;
  }

  /** The category counter of one pass: `category_counts[category] += 1`
      when the record has a truthy category. */
  method CountCategory(categories: map<Value, nat>, herb: Record) returns (r: Result<map<Value, nat>>)
    ensures r == Counted(categories, CategoryKeys(herb))
  {
    var category := Get(herb, "category", Str(""));
    assert [category][..0] == [];
    if !Truthy(category) {
      return Ok(categories);
    }
    assert CategoryKeys(herb) == [category];
    if !Hashable(category) {
      return Err("TypeError: unhashable type");
    }
    if category in categories {
      r := Ok(categories[category := categories[category] + 1]);
    } else {
      r := Ok(categories[category := 1]);
    }
  }

  /** One pass of the loop over records. */
  method TallyHerb(t: Tallies, herb: Record) returns (r: Result<Tallies>)
    requires t.fields.Keys == set f | f in CoverageFields
    ensures r == Step(t, herb)
    ensures r.Ok? ==> r.value.fields.Keys == t.fields.Keys
  {
    var categories := CountCategory(t.categories, herb);
    if categories.Err? {
      return Err(categories.error);
    }
    var ms := MeridianKeys(herb);
    if ms.Err? {
      return Err(ms.error);
    }
    var meridians := CountInto(t.meridians, ms.value);
    if meridians.Err? {
      return Err(meridians.error);
    }
    var images := t.images;
    if Truthy(Get(herb, "images", List([]))) {
      images := images + 1;
    }
    CoverageFieldsDistinct();
    var fields := CountFieldsOf(CoverageFields, t.fields, herb);
    r := Ok(Tallies(categories.value, meridians.value, images, fields));
  }

  method GenerateStatistics(data: seq<Record>) returns (r: Result<Stats>)
    ensures r == Statistics(data)
  {
    var t := InitialTallies();
    var i := 0;
    while i < |data|
      invariant 0 <= i <= |data|
      invariant Tally(data[..i]) == Ok(t)
      invariant t.fields.Keys == set f | f in CoverageFields
    {
      TallySnoc(data, i);
      var next := TallyHerb(t, data[i]);
      if next.Err? {
        TallyErr(data, i + 1);
        return Err(next.error);
      }
      t := next.value;
      i := i + 1;
    }
    assert data[..i] == data;
    // The closing `for field, count in field_counts.items()` loop and the
    // image entry build the coverage dictionaries from the counters.
    r := Ok(StatsOf(|data|, t));
  }
}
