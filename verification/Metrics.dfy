/** `metrics.py`: the cumulative histogram, and the escaping of label values. */
module Metrics {
  import opened Hashing

  type LabelKey = seq<(string, string)>

  datatype MetricError = LabelMismatch

  // ----- Labels -----

  function Freeze(names: seq<string>, labels: map<string, string>): (r: Result<LabelKey, MetricError>)
    ensures r.Ok? <==> labels.Keys == set n | n in names
    ensures r.Ok? ==> |r.value| == |names| && forall i :: 0 <= i < |names| ==> names[i] in labels && r.value[i] == (names[i], labels[names[i]])
  {
    if labels.Keys != (set n | n in names) then Err(LabelMismatch)
    else
      assert forall i :: 0 <= i < |names| ==> names[i] in labels.Keys;
      Ok(seq(|names|, i requires 0 <= i < |names| => (names[i], labels[names[i]])))
  }

  // ----- Counting -----

  function Multiplicity(bounds: seq<real>, b: real): (n: nat) {
    if bounds == [] then 0 else Multiplicity(bounds[..|bounds| - 1], b) + (if bounds[|bounds| - 1] == b then 1 else 0)
  }

  /** How many observations are at or below a bound. */
  function AtMost(seen: seq<real>, b: real): (n: nat)
    ensures n <= |seen|
  {
    if seen == [] then 0 else AtMost(seen[..|seen| - 1], b) + (if seen[|seen| - 1] <= b then 1 else 0)
  }

  function Sum(seen: seq<real>): (t: real) {
    if seen == [] then 0.0 else Sum(seen[..|seen| - 1]) + seen[|seen| - 1]
  }

  lemma {:induction false} AtMostMonotone(seen: seq<real>, a: real, b: real)
    requires a <= b
    ensures AtMost(seen, a) <= AtMost(seen, b)
  {
    if seen != [] {
      AtMostMonotone(seen[..|seen| - 1], a, b);
    }
  }

  lemma Snoc(seen: seq<real>, x: real)
    ensures (seen + [x])[..|seen|] == seen
    ensures Sum(seen + [x]) == Sum(seen) + x
    ensures forall b :: AtMost(seen + [x], b) == AtMost(seen, b) + (if x <= b then 1 else 0)
    ensures forall b :: Multiplicity(seen + [x], b) == Multiplicity(seen, b) + (if x == b then 1 else 0)
  {
    assert (seen + [x])[..|seen|] == seen;
  }

  ghost predicate Distinct(bounds: seq<real>) {
    forall i, j :: 0 <= i < j < |bounds| ==> bounds[i] != bounds[j]
  }

  lemma {:induction false} MultiplicityAt(bounds: seq<real>, i: nat)
    requires i < |bounds|
    ensures Multiplicity(bounds, bounds[i]) >= 1
  {
    if i < |bounds| - 1 {
      MultiplicityAt(bounds[..|bounds| - 1], i);
    }
  }

  lemma {:induction false} AbsentIsZero(bounds: seq<real>, b: real)
    requires b !in bounds
    ensures Multiplicity(bounds, b) == 0
  {
    if bounds != [] {
      AbsentIsZero(bounds[..|bounds| - 1], b);
    }
  }

  lemma {:induction false} DistinctIsOne(bounds: seq<real>, i: nat)
    requires Distinct(bounds) && i < |bounds|
    ensures Multiplicity(bounds, bounds[i]) == 1
  {
    var n := |bounds| - 1;
    if i < n {
      DistinctIsOne(bounds[..n], i);
    } else {
      AbsentIsZero(bounds[..n], bounds[n]);
    }
  }

  lemma {:induction false} TwiceIsTwo(bounds: seq<real>, i: nat, j: nat)
    requires i < j < |bounds| && bounds[i] == bounds[j]
    ensures Multiplicity(bounds, bounds[i]) >= 2
  {
    var n := |bounds| - 1;
    if j < n {
      TwiceIsTwo(bounds[..n], i, j);
    } else {
      MultiplicityAt(bounds[..n], i);
    }
  }

  // ----- What is rendered -----

  datatype Sample = Bucket(le: real, value: nat) | Infinite(value: nat) | Total(sum: real) | Count(value: nat)

  /** The samples of one label set after the observations `seen`. */
  function Rendered(bounds: seq<real>, seen: seq<real>): (s: seq<Sample>)
    ensures |s| == |bounds| + 3
  {
    seq(|bounds|, i requires 0 <= i < |bounds| => Bucket(bounds[i], Multiplicity(bounds, bounds[i]) * AtMost(seen, bounds[i])))
    + [Infinite(|seen|), Total(Sum(seen)), Count(|seen|)]
  }

  /** Every bucket shows the number of observations at or below its bound. */
  ghost predicate Truthful(bounds: seq<real>, seen: seq<real>) {
    forall i :: 0 <= i < |bounds| ==> Rendered(bounds, seen)[i] == Bucket(bounds[i], AtMost(seen, bounds[i]))
  }

  /** The buckets tell the truth about every run of observations exactly when no bound was given twice. */
  lemma TruthfulExactlyWhenDistinct(bounds: seq<real>)
    ensures (forall seen :: Truthful(bounds, seen)) <==> Distinct(bounds)
  {
    if Distinct(bounds) {
      forall seen ensures Truthful(bounds, seen) {
        forall i | 0 <= i < |bounds| ensures Rendered(bounds, seen)[i] == Bucket(bounds[i], AtMost(seen, bounds[i])) {
          DistinctIsOne(bounds, i);
        }
      }
    } else {
      var i, j :| 0 <= i < j < |bounds| && bounds[i] == bounds[j];
      TwiceIsTwo(bounds, i, j);
      var b := bounds[i];
      assert AtMost([b], b) == 1 by { Snoc([], b); assert [] + [b] == [b]; }
      assert Rendered(bounds, [b])[i] == Bucket(b, Multiplicity(bounds, b) * AtMost([b], b));
      assert Multiplicity(bounds, b) * AtMost([b], b) == Multiplicity(bounds, b);
      assert !Truthful(bounds, [b]);
    }
  }

  /** The failing input: one bound given twice counts a single observation twice. */
  lemma RepeatedBoundCountsTwice()
    ensures Rendered([1.0, 1.0], [0.5])[0] == Bucket(1.0, 2)
  {
    var bounds: seq<real> := [1.0, 1.0];
    assert bounds[..1] == [1.0] && bounds[..1][..0] == [];
    assert Multiplicity(bounds, 1.0) == 2;
    var seen: seq<real> := [0.5];
    assert seen[..0] == [];
    assert AtMost(seen, 1.0) == 1;
  }

  /** With distinct ascending bounds the rendered counts never fall, and none exceeds the +Inf sample, which is the count. */
  lemma RenderedIsCumulative(bounds: seq<real>, seen: seq<real>, i: nat, j: nat)
    requires Distinct(bounds) && i <= j < |bounds| && bounds[i] <= bounds[j]
    ensures var s := Rendered(bounds, seen);
            && s[i].Bucket? && s[j].Bucket? && s[i].value <= s[j].value <= |seen|
            && s[|bounds|] == Infinite(|seen|) && s[|bounds| + 2] == Count(|seen|)
  {
    DistinctIsOne(bounds, i);
    DistinctIsOne(bounds, j);
    AtMostMonotone(seen, bounds[i], bounds[j]);
  }

  predicate Ascending(bounds: seq<real>) {
    forall i, j :: 0 <= i < j < |bounds| ==> bounds[i] <= bounds[j]
  }

  function InsertBound(b: real, s: seq<real>): (r: seq<real>) {
    if s == [] || b <= s[0] then [b] + s else [s[0]] + InsertBound(b, s[1..])
  }

  /** `sorted(buckets)`. */
  function SortBounds(s: seq<real>): (r: seq<real>) {
    if s == [] then [] else InsertBound(s[|s| - 1], SortBounds(s[..|s| - 1]))
  }

  lemma {:induction false} InsertMembers(b: real, s: seq<real>)
    ensures multiset(InsertBound(b, s)) == multiset(s) + multiset{b}
  {
    if s != [] && b > s[0] {
      InsertMembers(b, s[1..]);
      assert s == [s[0]] + s[1..];
    }
  }

  lemma {:induction false} InsertSorts(b: real, s: seq<real>)
    requires Ascending(s)
    ensures Ascending(InsertBound(b, s))
  {
    if s != [] && b > s[0] {
      InsertSorts(b, s[1..]);
      InsertMembers(b, s[1..]);
      var rest := InsertBound(b, s[1..]);
      forall j | 0 <= j < |rest| ensures s[0] <= rest[j] {
        assert rest[j] in multiset(rest);
        assert rest[j] == b || rest[j] in s[1..];
      }
    }
  }

  lemma SortUnfold(s: seq<real>)
    requires s != []
    ensures var n := |s| - 1; SortBounds(s) == InsertBound(s[n], SortBounds(s[..n]))
  {
    hide InsertBound;
  }

  lemma LastMember(s: seq<real>)
    requires s != []
    ensures multiset(s) == multiset(s[..|s| - 1]) + multiset{s[|s| - 1]}
  {
    assert s == s[..|s| - 1] + [s[|s| - 1]];
  }

  /** The bounds kept are the bounds given, in ascending order. */
  lemma {:induction false} BoundsSorted(s: seq<real>)
    ensures Ascending(SortBounds(s)) && multiset(SortBounds(s)) == multiset(s)
  {
    if s != [] {
      var n := |s| - 1;
      SortUnfold(s);
      LastMember(s);
      hide *;
      BoundsSorted(s[..n]);
      InsertSorts(s[n], SortBounds(s[..n]));
      InsertMembers(s[n], SortBounds(s[..n]));
    }
  }

  type Buckets = map<LabelKey, map<real, nat>>

  /** The stored count, zero where nothing was stored yet. */
  function Stored(m: Buckets, key: LabelKey, b: real): (n: nat) {
    if key in m && b in m[key] then m[key][b] else 0
  }

  function SeenFor(seen: map<LabelKey, seq<real>>, key: LabelKey): (s: seq<real>) {
    if key in seen then seen[key] else []
  }

  type History = map<LabelKey, seq<real>>

  ghost predicate TotalsTrue(counts: map<LabelKey, nat>, sums: map<LabelKey, real>, seen: History) {
    && counts.Keys == sums.Keys == seen.Keys
    && (forall key :: key in seen ==> counts[key] == |seen[key]| && sums[key] == Sum(seen[key]))
  }

  ghost predicate BucketsTrue(bounds: seq<real>, m: Buckets, seen: History) {
    forall key, b :: b in bounds ==> Stored(m, key, b) == Multiplicity(bounds, b) * AtMost(SeenFor(seen, key), b)
  }

  lemma TotalsStep(counts: map<LabelKey, nat>, sums: map<LabelKey, real>, seen: History, key: LabelKey, value: real)
    requires TotalsTrue(counts, sums, seen)
    ensures TotalsTrue(counts[key := (if key in counts then counts[key] else 0) + 1], sums[key := (if key in sums then sums[key] else 0.0) + value],
                       seen[key := SeenFor(seen, key) + [value]])
  {
    Snoc(SeenFor(seen, key), value);
  }

  /** Each occurrence of a bound at or above the value has added one to the counts of the label set. */
  ghost predicate Raised(bounds: seq<real>, m: Buckets, m': Buckets, key: LabelKey, value: real) {
    && (forall b :: Stored(m', key, b) == Stored(m, key, b) + (if value <= b then Multiplicity(bounds, b) else 0))
    && (forall k, b :: k != key ==> Stored(m', k, b) == Stored(m, k, b))
  }

  lemma BucketsStep(bounds: seq<real>, m: Buckets, m': Buckets, seen: History, key: LabelKey, value: real)
    requires BucketsTrue(bounds, m, seen)
    requires Raised(bounds, m, m', key, value)
    ensures BucketsTrue(bounds, m', seen[key := SeenFor(seen, key) + [value]])
  {
    Snoc(SeenFor(seen, key), value);
    hide Multiplicity, AtMost, Stored;
    var after := seen[key := SeenFor(seen, key) + [value]];
    forall k, b | b in bounds ensures Stored(m', k, b) == Multiplicity(bounds, b) * AtMost(SeenFor(after, k), b) {
      if k == key {
        Distribute(Multiplicity(bounds, b), AtMost(SeenFor(seen, key), b), value <= b);
      }
    }
  }

  class HistogramMetric {
    const names: seq<string>
    const bounds: seq<real>
    var bucketCounts: Buckets
    var counts: map<LabelKey, nat>
    var sums: map<LabelKey, real>
    /** All observations so far, per label set. */
    ghost var seen: History

    ghost predicate Valid()
      reads this
    {
      TotalsTrue(counts, sums, seen) && BucketsTrue(bounds, bucketCounts, seen)
    }

    lemma ValidMeans()
      ensures Valid() <==> TotalsTrue(counts, sums, seen) && BucketsTrue(bounds, bucketCounts, seen)
    {
      hide TotalsTrue, BucketsTrue;
    }

    constructor (names: seq<string>, buckets: seq<real>)
      ensures Valid() && seen == map[] && this.names == names && bounds == SortBounds(buckets)
    {
      this.names, bounds := names, SortBounds(buckets);
      bucketCounts, counts, sums, seen := map[], map[], map[], map[];
    }

    /** The loop of `observe`. */
    method Raise(key: LabelKey, value: real)
      modifies this`bucketCounts
      ensures Raised(bounds, old(bucketCounts), bucketCounts, key, value)
    {
      ghost var start := bucketCounts;
      for i := 0 to |bounds|
        invariant forall b :: Stored(bucketCounts, key, b) == Stored(start, key, b) + (if value <= b then Multiplicity(bounds[..i], b) else 0)
        invariant forall k, b :: k != key ==> Stored(bucketCounts, k, b) == Stored(start, k, b)
      {
        var bucket := bounds[i];
        assert bounds[..i + 1] == bounds[..i] + [bucket];
        Snoc(bounds[..i], bucket);
        if value <= bucket {
          var row := if key in bucketCounts then bucketCounts[key] else map[];
          var stored := if bucket in row then row[bucket] else 0;
          bucketCounts := bucketCounts[key := row[bucket := stored + 1]];
        }
      }
      assert bounds[..|bounds|] == bounds;
    }

    /** One observation under its label set: count, sum and buckets. */
    method Add(key: LabelKey, value: real)
      requires Valid()
      modifies this
      ensures Valid() && seen == old(seen)[key := SeenFor(old(seen), key) + [value]]
    {
      ValidMeans();
      hide *;
      ghost var past, start := seen, bucketCounts;
      TotalsStep(counts, sums, seen, key, value);
      counts := counts[key := (if key in counts then counts[key] else 0) + 1];
      sums := sums[key := (if key in sums then sums[key] else 0.0) + value];
      seen := seen[key := SeenFor(seen, key) + [value]];
      Raise(key, value);
      BucketsStep(bounds, start, bucketCounts, past, key, value);
      ValidMeans();
    }

    /** `observe`. */
    method Observe(value: real, labels: map<string, string>) returns (r: Result<LabelKey, MetricError>)
      requires Valid()
      modifies this
      ensures Valid() && r == Freeze(names, labels)
      ensures r.Err? ==> seen == old(seen) && counts == old(counts) && sums == old(sums) && bucketCounts == old(bucketCounts)
      ensures r.Ok? ==> seen == old(seen)[r.value := SeenFor(old(seen), r.value) + [value]]
    {
      r := Freeze(names, labels);
      hide *;
      if r.Ok? {
        Add(r.value, value);
      }
    }

    /** `render` for one label set. */
    method RenderSet(key: LabelKey) returns (lines: seq<Sample>)
      requires Valid() && key in counts
      ensures lines == Rendered(bounds, seen[key])
    {
      lines := [];
      for i := 0 to |bounds|
        invariant |lines| == i && forall k :: 0 <= k < i ==> lines[k] == Rendered(bounds, seen[key])[k]
      {
        assert bounds[i] in bounds;
        lines := lines + [Bucket(bounds[i], Stored(bucketCounts, key, bounds[i]))];
      }
      lines := lines + [Infinite(counts[key]), Total(sums[key]), Count(counts[key])];
    }
  }

  lemma Distribute(m: nat, n: nat, up: bool)
    ensures m * n + (if up then m else 0) == m * (n + if up then 1 else 0)
  {
  }

  // ----- Escaping label values -----

  /** `s.replace(c, t)` for a single character. */
  function Replace(s: string, c: char, t: string): (r: string) {
    if s == "" then "" else (if s[0] == c then t else [s[0]]) + Replace(s[1..], c, t)
  }

  /** `_escape_label_value`: three passes. */
  function Escape(s: string): (r: string) {
    Replace(Replace(Replace(s, '\\', "\\\\"), '\n', "\\n"), '"', "\\\"")
  }

  function EscapeChar(c: char): (t: string) {
    if c == '\\' then "\\\\" else if c == '\n' then "\\n" else if c == '"' then "\\\"" else [c]
  }

  /** One pass that reads escapes back. */
  function Unescape(s: string): (r: string) {
    if s == "" then ""
    else if s[0] == '\\' && |s| >= 2 then (if s[1] == 'n' then "\n" else [s[1]]) + Unescape(s[2..])
    else [s[0]] + Unescape(s[1..])
  }

  lemma {:induction false} ReplaceConcat(a: string, b: string, c: char, t: string)
    ensures Replace(a + b, c, t) == Replace(a, c, t) + Replace(b, c, t)
  {
    if a == "" {
      assert a + b == b;
    } else {
      assert (a + b)[1..] == a[1..] + b;
      ReplaceConcat(a[1..], b, c, t);
    }
  }

  lemma ReplaceOne(x: char, c: char, t: string)
    ensures Replace([x], c, t) == (if x == c then t else [x])
  {
  }

  lemma ReplaceTwo(x: char, y: char, c: char, t: string)
    ensures Replace([x, y], c, t) == (if x == c then t else [x]) + (if y == c then t else [y])
  {
    assert [x, y] == [x] + [y];
    ReplaceConcat([x], [y], c, t);
    ReplaceOne(x, c, t);
    ReplaceOne(y, c, t);
  }

  /** The three passes do not interfere: together they escape character by character. */
  lemma {:induction false} EscapeStep(s: string)
    requires s != ""
    ensures Escape(s) == EscapeChar(s[0]) + Escape(s[1..])
  {
    var x, rest := s[0], s[1..];
    var first := Replace([x], '\\', "\\\\");
    ReplaceOne(x, '\\', "\\\\");
    assert s == [x] + rest;
    ReplaceConcat([x], rest, '\\', "\\\\");
    var r1 := Replace(rest, '\\', "\\\\");
    ReplaceConcat(first, r1, '\n', "\\n");
    var second := Replace(first, '\n', "\\n");
    var r2 := Replace(r1, '\n', "\\n");
    ReplaceConcat(second, r2, '"', "\\\"");
    assert Replace(second, '"', "\\\"") == EscapeChar(x) by {
      ReplaceOne(x, '\n', "\\n");
      ReplaceOne(x, '"', "\\\"");
      ReplaceTwo('\\', '\\', '\n', "\\n");
      ReplaceTwo('\\', '\\', '"', "\\\"");
      ReplaceTwo('\\', 'n', '"', "\\\"");
    }
  }

  /** Escaped label values can be read back, so different values never look alike. */
  lemma {:induction false} EscapeRoundTrip(s: string)
    ensures Unescape(Escape(s)) == s
  {
    if s != "" {
      EscapeStep(s);
      EscapeRoundTrip(s[1..]);
      var e, rest := EscapeChar(s[0]), Escape(s[1..]);
      hide Escape, Replace;
      assert s == [s[0]] + s[1..];
      if |e| == 2 {
        assert (e + rest)[2..] == rest;
      } else {
        assert (e + rest)[1..] == rest;
      }
    }
  }
}
