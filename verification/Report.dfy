/** Load-test metrics: nearest-rank percentiles, and per-window statistics of a run. */
module Report {
  import opened Wrappers
  import opened Sets

  // ---------- Percentiles ----------

  function Inserted(x: real, sorted: seq<real>): seq<real> {
    if sorted == [] || x <= sorted[0] then [x] + sorted else [sorted[0]] + Inserted(x, sorted[1..])
  }

  function Ordered(values: seq<real>): seq<real> {
    if values == [] then [] else Inserted(values[0], Ordered(values[1..]))
  }

  function Ceil(x: real): int {
    -((-x).Floor)
  }

  /** The 1-based rank that the p-th percentile of n values asks for. */
  function Rank(p: real, n: nat): int {
    var r := Ceil(p / 100.0 * n as real);
    if r < 1 then 1 else r
  }

  datatype PercentileError = IndexError

  function Percentile(values: seq<real>, p: real): Result<real, PercentileError> {
    if values == [] then Ok(0.0)
    else
      var ordered := Ordered(values);
      var index := Rank(p, |values|) - 1;
      if index < |ordered| then Ok(ordered[index]) else Err(IndexError)
  }

  function Count(values: seq<real>, test: real -> bool): nat {
    if values == [] then 0 else (if test(values[0]) then 1 else 0) + Count(values[1..], test)
  }

  ghost predicate IsSorted(values: seq<real>) {
    forall i, j :: 0 <= i < j < |values| ==> values[i] <= values[j]
  }

  lemma {:induction false} InsertedMembers(x: real, sorted: seq<real>)
    ensures |Inserted(x, sorted)| == |sorted| + 1
    ensures forall y :: y in Inserted(x, sorted) <==> y == x || y in sorted
  {
    if sorted != [] && x > sorted[0] {
      InsertedMembers(x, sorted[1..]);
      assert sorted == [sorted[0]] + sorted[1..];
    }
  }

  lemma {:induction false} InsertedCounts(x: real, sorted: seq<real>, test: real -> bool)
    ensures Count(Inserted(x, sorted), test) == Count(sorted, test) + if test(x) then 1 else 0
  {
    if sorted == [] || x <= sorted[0] {
      assert ([x] + sorted)[1..] == sorted;
    } else {
      var rest := Inserted(x, sorted[1..]);
      InsertedCounts(x, sorted[1..], test);
      assert ([sorted[0]] + rest)[1..] == rest;
    }
  }

  lemma SortedCons(x: real, rest: seq<real>)
    requires IsSorted(rest) && forall y :: y in rest ==> x <= y
    ensures IsSorted([x] + rest)
  {
    assert forall j :: 0 <= j < |rest| ==> rest[j] in rest;
  }

  lemma {:induction false} InsertedSorts(x: real, sorted: seq<real>)
    requires IsSorted(sorted)
    ensures IsSorted(Inserted(x, sorted))
  {
    if sorted == [] || x <= sorted[0] {
      SortedCons(x, sorted);
    } else {
      InsertedSorts(x, sorted[1..]);
      InsertedMembers(x, sorted[1..]);
      SortedCons(sorted[0], Inserted(x, sorted[1..]));
    }
  }

  lemma {:induction false} OrderedSorts(values: seq<real>, test: real -> bool)
    ensures IsSorted(Ordered(values)) && |Ordered(values)| == |values|
    ensures forall y :: y in Ordered(values) <==> y in values
    ensures Count(Ordered(values), test) == Count(values, test)
  {
    if values != [] {
      OrderedSorts(values[1..], test);
      InsertedSorts(values[0], Ordered(values[1..]));
      InsertedMembers(values[0], Ordered(values[1..]));
      InsertedCounts(values[0], Ordered(values[1..]), test);
      assert values == [values[0]] + values[1..];
    }
  }

  lemma {:induction false} CountSplits(a: seq<real>, b: seq<real>, test: real -> bool)
    ensures Count(a + b, test) == Count(a, test) + Count(b, test)
  {
    if a == [] {
      assert a + b == b;
    } else {
      assert (a + b)[1..] == a[1..] + b;
      CountSplits(a[1..], b, test);
    }
  }

  lemma {:induction false} CountExtremes(values: seq<real>, test: real -> bool)
    ensures Count(values, test) <= |values|
    ensures (forall i :: 0 <= i < |values| ==> test(values[i])) ==> Count(values, test) == |values|
    ensures (forall i :: 0 <= i < |values| ==> !test(values[i])) ==> Count(values, test) == 0
  {
    if values != [] {
      CountExtremes(values[1..], test);
    }
  }

  /** At least `rank` values are at most v, and fewer than `rank` are below it. */
  ghost predicate HasRank(values: seq<real>, v: real, rank: int) {
    v in values && Count(values, x => x <= v) >= rank && Count(values, x => x < v) < rank
  }

  /** A test that holds of the first k values holds at least k times, and no more often if it fails from there on. */
  lemma CountPrefix(values: seq<real>, k: nat, test: real -> bool)
    requires k <= |values|
    ensures (forall i :: 0 <= i < k ==> test(values[i])) ==> Count(values, test) >= k
    ensures (forall i :: k <= i < |values| ==> !test(values[i])) ==> Count(values, test) <= k
  {
    assert values == values[..k] + values[k..];
    CountSplits(values[..k], values[k..], test);
    CountExtremes(values[..k], test);
    CountExtremes(values[k..], test);
  }

  lemma RankInSorted(sorted: seq<real>, index: nat)
    requires IsSorted(sorted) && index < |sorted|
    ensures HasRank(sorted, sorted[index], index + 1)
  {
    var v := sorted[index];
    CountPrefix(sorted, index + 1, x => x <= v);
    CountPrefix(sorted, index, x => x < v);
  }

  /** A percentile that exists is a member of the sample with exactly the required rank. */
  lemma PercentileHasRank(values: seq<real>, p: real)
    requires values != []
    ensures Percentile(values, p).Ok? <==> Rank(p, |values|) <= |values|
    ensures Percentile(values, p).Ok? ==> HasRank(values, Percentile(values, p).value, Rank(p, |values|))
  {
    OrderedSorts(values, x => true);
    if Percentile(values, p).Ok? {
      var v := Percentile(values, p).value;
      RankInSorted(Ordered(values), Rank(p, |values|) - 1);
      OrderedSorts(values, x => x <= v);
      OrderedSorts(values, x => x < v);
    }
  }

  lemma CeilIsCeiling(x: real)
    ensures (Ceil(x) - 1) as real < x <= Ceil(x) as real
  {
  }

  lemma HundredthsOf(p: real, n: real)
    ensures 100.0 * (p / 100.0 * n) == p * n
  {
    assert 100.0 * (p / 100.0) == p;
    assert 100.0 * (p / 100.0 * n) == 100.0 * (p / 100.0) * n;
  }

  /** The rank is the least whole number that is at least p percent of n, and at least one. */
  lemma RankIsLeast(p: real, n: nat)
    ensures Rank(p, n) >= 1
    ensures 100.0 * Rank(p, n) as real >= p * n as real
    ensures p * n as real > 0.0 ==> 100.0 * (Rank(p, n) - 1) as real < p * n as real
    ensures p * n as real <= 0.0 ==> Rank(p, n) == 1
  {
    var x := p / 100.0 * n as real;
    HundredthsOf(p, n as real);
    CeilIsCeiling(x);
    CeilingOfProduct(x, p * n as real, Ceil(x));
  }

  lemma CeilingOfProduct(x: real, product: real, c: int)
    requires 100.0 * x == product && (c - 1) as real < x <= c as real
    ensures 100.0 * c as real >= product
    ensures product > 0.0 ==> c >= 1 && 100.0 * (c - 1) as real < product
    ensures product <= 0.0 ==> c < 1
  {
  }

  /** At least p percent of the values are at most v, and less than p percent are below it. */
  ghost predicate IsPercentile(values: seq<real>, v: real, p: real) {
    && v in values
    && 100.0 * Count(values, x => x <= v) as real >= p * |values| as real
    && 100.0 * Count(values, x => x < v) as real < p * |values| as real
  }

  ghost predicate IsMinimum(values: seq<real>, v: real) {
    v in values && forall x :: x in values ==> v <= x
  }

  lemma RankOneIsMinimum(values: seq<real>, v: real)
    requires HasRank(values, v, 1)
    ensures IsMinimum(values, v)
  {
    forall x | x in values ensures v <= x {
      if x < v {
        CountsMember(values, y => y < v, x);
      }
    }
  }

  lemma {:induction false} CountsMember(values: seq<real>, test: real -> bool, x: real)
    requires x in values && test(x)
    ensures Count(values, test) >= 1
  {
    if values[0] != x {
      CountsMember(values[1..], test, x);
    }
  }

  /** What a rank has to be for a percentile. */
  ghost predicate RankFits(p: real, n: nat, rank: int) {
    if p <= 0.0 then rank == 1
    else 100.0 * rank as real >= p * n as real && 100.0 * (rank - 1) as real < p * n as real
  }

  lemma RankOfPercentileFits(p: real, n: nat)
    requires n > 0
    ensures RankFits(p, n, Rank(p, n))
  {
    RankIsLeast(p, n);
    SignOfProduct(p, n as real);
  }

  lemma FittingRankIsMinimum(values: seq<real>, v: real, p: real, rank: int)
    requires HasRank(values, v, rank) && RankFits(p, |values|, rank) && p <= 0.0
    ensures IsMinimum(values, v)
  {
    RankOneIsMinimum(values, v);
  }

  lemma FittingRankIsPercentile(values: seq<real>, v: real, p: real, rank: int)
    requires HasRank(values, v, rank) && RankFits(p, |values|, rank) && p > 0.0
    ensures IsPercentile(values, v, p)
  {
    assert Count(values, x => x < v) <= rank - 1;
  }

  lemma PercentileFits(values: seq<real>, p: real) returns (v: real, rank: int)
    requires values != [] && p <= 100.0
    ensures Percentile(values, p) == Ok(v) && HasRank(values, v, rank) && RankFits(p, |values|, rank)
  {
    PercentileExists(values, p);
    PercentileHasRank(values, p);
    RankOfPercentileFits(p, |values|);
    v, rank := Percentile(values, p).value, Rank(p, |values|);
  }

  /** What a percentile is, without ranks: the zero of an empty sample, the minimum, or a value with its share. */
  lemma PercentileMeans(values: seq<real>, p: real)
    ensures values == [] ==> Percentile(values, p) == Ok(0.0)
    ensures values != [] && p <= 0.0 ==> Percentile(values, p).Ok? && IsMinimum(values, Percentile(values, p).value)
    ensures values != [] && 0.0 < p <= 100.0 ==>
              Percentile(values, p).Ok? && IsPercentile(values, Percentile(values, p).value, p)
  {
    if values != [] && p <= 100.0 {
      var v, rank := PercentileFits(values, p);
      if p <= 0.0 {
        FittingRankIsMinimum(values, v, p, rank);
      } else {
        FittingRankIsPercentile(values, v, p, rank);
      }
    }
  }

  lemma SignOfProduct(p: real, n: real)
    requires n > 0.0
    ensures p * n > 0.0 <==> p > 0.0
  {
  }

  /** Every percentile up to 100 exists. */
  lemma PercentileExists(values: seq<real>, p: real)
    requires values != [] && p <= 100.0
    ensures Percentile(values, p).Ok?
  {
    var n := |values| as real;
    var x := p / 100.0 * n;
    assert x <= n by {
      assert (1.0 - p / 100.0) * n >= 0.0;
    }
    assert Ceil(x) <= |values| by {
      assert -x >= (-|values|) as real;
    }
    PercentileHasRank(values, p);
  }

  lemma {:induction false} CountGrows(values: seq<real>, test: real -> bool, wider: real -> bool)
    requires forall x :: test(x) ==> wider(x)
    ensures Count(values, test) <= Count(values, wider)
  {
    if values != [] {
      CountGrows(values[1..], test, wider);
    }
  }

  /** No other value has that rank, so the rank is a complete description. */
  lemma RankIsUnique(values: seq<real>, v: real, w: real, rank: int)
    requires HasRank(values, v, rank) && HasRank(values, w, rank)
    ensures v == w
  {
    if v < w {
      CountGrows(values, x => x <= v, x => x < w);
    } else if w < v {
      CountGrows(values, x => x <= w, x => x < v);
    }
  }

  // ---------- Windows ----------

  datatype Row = Row(ts: int, ms: real, failed: int)

  datatype Stats = Stats(
    requests: nat, rps: real, avg: real, min: real, max: real, p95: real, errors: real, t: int, vus: real, errorsPerSecond: real)

  const MS: Row -> real := (r: Row) => r.ms

  const FAILED: Row -> real := (r: Row) => r.failed as real

  function Total(rows: seq<Row>, of: Row -> real): real {
    if rows == [] then 0.0 else Total(rows[..|rows| - 1], of) + of(rows[|rows| - 1])
  }

  function Milliseconds(rows: seq<Row>): seq<real> {
    seq(|rows|, i requires 0 <= i < |rows| => rows[i].ms)
  }

  function Smallest(values: seq<real>): real {
    if values == [] then 0.0
    else if |values| == 1 || values[0] <= Smallest(values[1..]) then values[0]
    else Smallest(values[1..])
  }

  function Largest(values: seq<real>): real {
    if values == [] then 0.0
    else if |values| == 1 || values[0] >= Largest(values[1..]) then values[0]
    else Largest(values[1..])
  }

  function Average(rows: seq<Row>): real {
    if rows == [] then 0.0 else Total(rows, MS) / |rows| as real
  }

  function Percent(part: real, n: nat): real {
    if n == 0 then 0.0 else part / n as real * 100.0
  }

  /** summarize, with the two fields that buckets adds. */
  function Summary(rows: seq<Row>, t: int, vus: real): Stats {
    var values := Milliseconds(rows);
    var p95 := Percentile(values, 95.0);
    Stats(
      |rows|, |rows| as real / 5.0, Average(rows), Smallest(values), Largest(values),
      if p95.Ok? then p95.value else 0.0,
      Percent(Total(rows, FAILED), |rows|),
      t, vus, Total(rows, FAILED) / 5.0)
  }

  /** The window of a row; a window is five seconds long. */
  function IndexOf(r: Row, start: int): int {
    (r.ts - start) / 5
  }

  /** The rows of one window, in their order. */
  function Window(rows: seq<Row>, start: int, index: int): seq<Row> {
    if rows == [] then []
    else
      var init, r := Window(rows[..|rows| - 1], start, index), rows[|rows| - 1];
      if IndexOf(r, start) == index then init + [r] else init
  }

  /** The virtual users seen in a window: the largest of its samples. */
  function WindowVus(vus: map<int, real>, t0: int): real {
    Largest(Samples(vus, t0, t0 + 5))
  }

  function Samples(vus: map<int, real>, from: int, end: int): seq<real>
    decreases end - from
  {
    if from >= end then [] else (if from in vus then [vus[from]] else []) + Samples(vus, from + 1, end)
  }

  function BucketOf(items: seq<Row>, vus: map<int, real>, start: int, index: int): Stats {
    Summary(items, index * 5, WindowVus(vus, start + index * 5))
  }

  /** One past the last window; rows before `start` have negative windows, which are not reported. */
  function Windows(rows: seq<Row>, start: int): nat {
    if rows == [] then 0
    else
      var n, index := Windows(rows[..|rows| - 1], start), IndexOf(rows[|rows| - 1], start);
      if index + 1 > n then index + 1 else n
  }

  ghost predicate Grouped(rows: seq<Row>, start: int, groups: map<int, seq<Row>>) {
    forall index ::
      && (index in groups <==> Window(rows, start, index) != [])
      && (index in groups ==> groups[index] == Window(rows, start, index))
  }

  lemma {:induction false} WindowsIsTop(rows: seq<Row>, start: int)
    ensures forall index :: Window(rows, start, index) != [] ==> index < Windows(rows, start)
    ensures Windows(rows, start) > 0 ==> Window(rows, start, Windows(rows, start) - 1) != []
  {
    if rows != [] {
      WindowsIsTop(rows[..|rows| - 1], start);
    }
  }

  lemma GroupGrows(rows: seq<Row>, start: int, groups: map<int, seq<Row>>, r: Row)
    requires Grouped(rows, start, groups)
    ensures var index := IndexOf(r, start);
            Grouped(rows + [r], start, groups[index := (if index in groups then groups[index] else []) + [r]])
  {
    assert (rows + [r])[..|rows|] == rows;
    assert forall i :: Window(rows + [r], start, i) == Window(rows, start, i) + if IndexOf(r, start) == i then [r] else [];
  }

  method Group(rows: seq<Row>, start: int) returns (groups: map<int, seq<Row>>)
    ensures Grouped(rows, start, groups)
  {
    groups := map[];
    for j := 0 to |rows|
      invariant Grouped(rows[..j], start, groups)
    {
      var index := IndexOf(rows[j], start);
      GroupGrows(rows[..j], start, groups, rows[j]);
      assert rows[..j + 1] == rows[..j] + [rows[j]];
      groups := groups[index := (if index in groups then groups[index] else []) + [rows[j]]];
    }
    assert rows[..|rows|] == rows;
  }

  /** max(grouped, default=-1), or -1 where every window is negative; either way none is reported. */
  method LastKey(keys: set<int>) returns (top: int)
    ensures top >= -1 && (top == -1 || top in keys)
    ensures forall k :: k in keys ==> k <= top || k < 0
  {
    top := -1;
    var left := keys;
    while left != {}
      invariant left <= keys && top >= -1 && (top == -1 || top in keys)
      invariant forall k :: k in keys && k !in left ==> k <= top
      decreases |left|
    {
      HasMember(left);
      var k :| k in left;
      if k > top {
        top := k;
      }
      left := left - {k};
    }
  }

  /** One bucket per window from `start` to the last one with a row, empty windows included. */
  method BucketsWith(rows: seq<Row>, start: int, summarize: (seq<Row>, int) -> Stats) returns (result: seq<Stats>)
    ensures |result| == Windows(rows, start)
    ensures forall i :: 0 <= i < |result| ==> result[i] == summarize(Window(rows, start, i), i)
  {
    var groups := Group(rows, start);
    var top := LastKey(groups.Keys);
    WindowsIsTop(rows, start);
    assert top + 1 == Windows(rows, start);
    result := [];
    for index := 0 to top + 1
      invariant |result| == index
      invariant forall i :: 0 <= i < index ==> result[i] == summarize(Window(rows, start, i), i)
    {
      var items := if index in groups then groups[index] else [];
      assert items == Window(rows, start, index);
      result := result + [summarize(items, index)];
    }
  }

  method Buckets(rows: seq<Row>, vus: map<int, real>, start: int) returns (result: seq<Stats>)
    ensures AreBuckets(result, rows, vus, start)
  {
    result := BucketsWith(rows, start, (items: seq<Row>, index: int) => BucketOf(items, vus, start, index));
  }

  // ---------- The windows partition the rows ----------

  /** The rows of the windows below n. */
  function Covered(rows: seq<Row>, start: int, n: int): seq<Row> {
    if rows == [] then []
    else
      var init, r := Covered(rows[..|rows| - 1], start, n), rows[|rows| - 1];
      if 0 <= IndexOf(r, start) < n then init + [r] else init
  }

  function AtOrAfter(rows: seq<Row>, start: int): seq<Row> {
    if rows == [] then []
    else
      var init, r := AtOrAfter(rows[..|rows| - 1], start), rows[|rows| - 1];
      if r.ts >= start then init + [r] else init
  }

  lemma TotalGrows(rows: seq<Row>, r: Row, of: Row -> real)
    ensures Total(rows + [r], of) == Total(rows, of) + of(r)
  {
    assert (rows + [r])[..|rows|] == rows;
  }

  lemma {:induction false} NextWindowTotal(rows: seq<Row>, start: int, n: nat, of: Row -> real)
    ensures Total(Covered(rows, start, n + 1), of) == Total(Covered(rows, start, n), of) + Total(Window(rows, start, n), of)
  {
    if rows != [] {
      var init, r := rows[..|rows| - 1], rows[|rows| - 1];
      NextWindowTotal(init, start, n, of);
      TotalGrows(Covered(init, start, n + 1), r, of);
      TotalGrows(Covered(init, start, n), r, of);
      TotalGrows(Window(init, start, n), r, of);
    }
  }

  lemma {:induction false} NextWindowRows(rows: seq<Row>, start: int, n: nat)
    ensures |Covered(rows, start, n + 1)| == |Covered(rows, start, n)| + |Window(rows, start, n)|
  {
    if rows != [] {
      NextWindowRows(rows[..|rows| - 1], start, n);
    }
  }

  lemma {:induction false} CoveredIsAtOrAfter(rows: seq<Row>, start: int, n: nat)
    requires n >= Windows(rows, start)
    ensures Covered(rows, start, n) == AtOrAfter(rows, start)
  {
    if rows != [] {
      CoveredIsAtOrAfter(rows[..|rows| - 1], start, n);
    }
  }

  lemma {:induction false} AtOrAfterIsAllIff(rows: seq<Row>, start: int)
    ensures |AtOrAfter(rows, start)| <= |rows|
    ensures |AtOrAfter(rows, start)| == |rows| <==> forall i :: 0 <= i < |rows| ==> rows[i].ts >= start
  {
    if rows != [] {
      AtOrAfterIsAllIff(rows[..|rows| - 1], start);
    }
  }

  function SumOf(values: seq<real>): real {
    if values == [] then 0.0 else SumOf(values[..|values| - 1]) + values[|values| - 1]
  }

  ghost function Durations(rows: seq<Row>): seq<real> {
    seq(|rows|, i requires 0 <= i < |rows| => rows[i].ms)
  }

  ghost function Flags(rows: seq<Row>): seq<real> {
    seq(|rows|, i requires 0 <= i < |rows| => rows[i].failed as real)
  }

  /** The totals are the sums of the rows' times and failure flags. */
  lemma {:induction false} TotalsAreSums(rows: seq<Row>)
    ensures Total(rows, MS) == SumOf(Durations(rows)) && Total(rows, FAILED) == SumOf(Flags(rows))
  {
    if rows != [] {
      var n := |rows| - 1;
      TotalsAreSums(rows[..n]);
      assert Durations(rows)[..n] == Durations(rows[..n]) && Flags(rows)[..n] == Flags(rows[..n]);
    }
  }

  function CountOf(counts: seq<nat>): nat {
    if counts == [] then 0 else CountOf(counts[..|counts| - 1]) + counts[|counts| - 1]
  }

  /** The request counts of the windows. */
  function Requests(stats: seq<Stats>): seq<nat> {
    seq(|stats|, i requires 0 <= i < |stats| => stats[i].requests)
  }

  /** n times x as a sum: the proofs below reason about sums, their results about products. */
  ghost function Times(n: nat, x: real): real {
    if n == 0 then 0.0 else Times(n - 1, x) + x
  }

  lemma {:induction false} TimesIsProduct(n: nat, x: real)
    ensures Times(n, x) == n as real * x
  {
    if n > 0 {
      TimesIsProduct(n - 1, x);
      assert n as real == (n - 1) as real + 1.0;
      assert ((n - 1) as real + 1.0) * x == (n - 1) as real * x + x;
    }
  }

  lemma TimesQuotient(n: nat, total: real)
    requires n > 0
    ensures Times(n, total / n as real) == total
  {
    TimesIsProduct(n, total / n as real);
  }

  ghost function Repeated(s: Stats): real {
    Times(s.requests, s.avg)
  }

  ghost function RepeatedAverages(stats: seq<Stats>): seq<real> {
    seq(|stats|, i requires 0 <= i < |stats| => Repeated(stats[i]))
  }

  function Weight(s: Stats): real {
    s.requests as real * s.avg
  }

  /** The window averages, each weighted by the requests of its window. */
  function WeightedAverages(stats: seq<Stats>): seq<real> {
    seq(|stats|, i requires 0 <= i < |stats| => Weight(stats[i]))
  }

  lemma WeightsAreSums(stats: seq<Stats>)
    ensures WeightedAverages(stats) == RepeatedAverages(stats)
  {
    forall i | 0 <= i < |stats| ensures WeightedAverages(stats)[i] == RepeatedAverages(stats)[i] {
      TimesIsProduct(stats[i].requests, stats[i].avg);
    }
  }

  lemma AverageTimesCount(rows: seq<Row>)
    ensures Times(|rows|, Average(rows)) == Total(rows, MS)
  {
    if rows != [] {
      TimesQuotient(|rows|, Total(rows, MS));
    }
  }

  /** These statistics count and average the windows of these rows. */
  ghost predicate Describes(stats: seq<Stats>, rows: seq<Row>, start: int) {
    forall i :: 0 <= i < |stats| ==> Measures(stats[i], Window(rows, start, i))
  }

  /** Its average times its requests is the time the window took in all. */
  ghost predicate Measures(s: Stats, window: seq<Row>) {
    s.requests == |window| && Repeated(s) == Total(window, MS)
  }

  lemma {:induction false} CountsCover(rows: seq<Row>, start: int, counts: seq<nat>)
    requires forall i :: 0 <= i < |counts| ==> counts[i] == |Window(rows, start, i)|
    ensures CountOf(counts) == |Covered(rows, start, |counts|)|
  {
    if counts == [] {
      NothingCovered(rows, start);
    } else {
      CountsCover(rows, start, counts[..|counts| - 1]);
      NextWindowRows(rows, start, |counts| - 1);
    }
  }

  lemma {:induction false} TotalsCover(rows: seq<Row>, start: int, totals: seq<real>, of: Row -> real)
    requires forall i :: 0 <= i < |totals| ==> totals[i] == Total(Window(rows, start, i), of)
    ensures SumOf(totals) == Total(Covered(rows, start, |totals|), of)
  {
    if totals == [] {
      NothingCovered(rows, start);
    } else {
      TotalsCover(rows, start, totals[..|totals| - 1], of);
      NextWindowTotal(rows, start, |totals| - 1, of);
    }
  }

  lemma {:induction false} NothingCovered(rows: seq<Row>, start: int)
    ensures Covered(rows, start, 0) == []
  {
    if rows != [] {
      NothingCovered(rows[..|rows| - 1], start);
    }
  }

  /** What Buckets returns: one summary per window. */
  ghost predicate AreBuckets(stats: seq<Stats>, rows: seq<Row>, vus: map<int, real>, start: int) {
    && |stats| == Windows(rows, start)
    && (forall i :: 0 <= i < |stats| ==> stats[i] == BucketOf(Window(rows, start, i), vus, start, i))
  }

  /** The requests of the windows add up to the rows at or after the start; to all rows iff none is before it. */
  lemma BucketsCountRows(rows: seq<Row>, vus: map<int, real>, start: int, stats: seq<Stats>)
    requires AreBuckets(stats, rows, vus, start)
    ensures CountOf(Requests(stats)) == |AtOrAfter(rows, start)|
    ensures CountOf(Requests(stats)) == |rows| <==> forall i :: 0 <= i < |rows| ==> rows[i].ts >= start
  {
    BucketsDescribe(rows, vus, start, stats);
    CountsCover(rows, start, Requests(stats));
    CoveredIsAtOrAfter(rows, start, Windows(rows, start));
    AtOrAfterIsAllIff(rows, start);
  }

  lemma AveragesAddUp(rows: seq<Row>, vus: map<int, real>, start: int, stats: seq<Stats>)
    requires AreBuckets(stats, rows, vus, start)
    ensures SumOf(RepeatedAverages(stats)) == Total(AtOrAfter(rows, start), MS)
  {
    BucketsDescribe(rows, vus, start, stats);
    TotalsCover(rows, start, RepeatedAverages(stats), MS);
    CoveredIsAtOrAfter(rows, start, Windows(rows, start));
  }

  /** The window averages, weighted by their requests, add up to the total and give the overall average of those rows. */
  lemma BucketsAverageRows(rows: seq<Row>, vus: map<int, real>, start: int, stats: seq<Stats>)
    requires AreBuckets(stats, rows, vus, start)
    ensures SumOf(WeightedAverages(stats)) == Total(AtOrAfter(rows, start), MS)
    ensures AtOrAfter(rows, start) != [] ==>
              SumOf(WeightedAverages(stats)) / |AtOrAfter(rows, start)| as real == Average(AtOrAfter(rows, start))
  {
    WeightsAreSums(stats);
    AveragesAddUp(rows, vus, start, stats);
  }

  /** The failures of a window, from its rate. */
  function FailuresOf(s: Stats): real {
    s.errorsPerSecond * 5.0
  }

  function WindowFailures(stats: seq<Stats>): seq<real> {
    seq(|stats|, i requires 0 <= i < |stats| => FailuresOf(stats[i]))
  }

  lemma RateTimesSeconds(window: seq<Row>, vus: map<int, real>, start: int, index: int)
    ensures FailuresOf(BucketOf(window, vus, start, index)) == Total(window, FAILED)
  {
  }

  /** The failure rates of the windows account for every failure at or after the start. */
  lemma BucketsKeepFailures(rows: seq<Row>, vus: map<int, real>, start: int, stats: seq<Stats>)
    requires AreBuckets(stats, rows, vus, start)
    ensures SumOf(WindowFailures(stats)) == Total(AtOrAfter(rows, start), FAILED)
  {
    forall i | 0 <= i < |stats| ensures FailuresOf(stats[i]) == Total(Window(rows, start, i), FAILED) {
      RateTimesSeconds(Window(rows, start, i), vus, start, i);
    }
    TotalsCover(rows, start, WindowFailures(stats), FAILED);
    CoveredIsAtOrAfter(rows, start, Windows(rows, start));
  }

  /** `percent` of n is `part`. */
  ghost predicate IsPercentage(percent: real, part: real, n: nat) {
    n as real * percent == part * 100.0
  }

  lemma PercentIsPercentage(part: real, n: nat)
    requires n == 0 ==> part == 0.0
    ensures IsPercentage(Percent(part, n), part, n)
  {
    if n > 0 {
      assert part / n as real * 100.0 == part * 100.0 / n as real;
    }
  }

  /** The error percentage of a bucket, times its requests, is a hundred times the failures of its window. */
  lemma BucketErrors(window: seq<Row>, vus: map<int, real>, start: int, index: int)
    ensures IsPercentage(BucketOf(window, vus, start, index).errors, Total(window, FAILED), |window|)
  {
    PercentIsPercentage(Total(window, FAILED), |window|);
  }

  lemma BucketsDescribe(rows: seq<Row>, vus: map<int, real>, start: int, stats: seq<Stats>)
    requires forall i :: 0 <= i < |stats| ==> stats[i] == BucketOf(Window(rows, start, i), vus, start, i)
    ensures Describes(stats, rows, start)
  {
    forall i | 0 <= i < |stats| ensures Measures(stats[i], Window(rows, start, i)) {
      BucketMeasures(Window(rows, start, i), vus, start, i);
    }
  }

  lemma AveragesMeasure(s: Stats, window: seq<Row>)
    requires s.requests == |window| && s.avg == Average(window)
    ensures Measures(s, window)
  {
    AverageTimesCount(window);
  }

  lemma BucketMeasures(window: seq<Row>, vus: map<int, real>, start: int, index: int)
    ensures Measures(BucketOf(window, vus, start, index), window)
  {
    AveragesMeasure(BucketOf(window, vus, start, index), window);
  }

  lemma {:induction false} LargestIsLargest(values: seq<real>)
    requires values != []
    ensures Largest(values) in values && forall v :: v in values ==> v <= Largest(values)
  {
    if |values| > 1 {
      LargestIsLargest(values[1..]);
      assert values == [values[0]] + values[1..];
    }
  }

  lemma {:induction false} SmallestIsSmallest(values: seq<real>)
    requires values != []
    ensures Smallest(values) in values && forall v :: v in values ==> Smallest(values) <= v
  {
    if |values| > 1 {
      SmallestIsSmallest(values[1..]);
      assert values == [values[0]] + values[1..];
    }
  }

  /** The samples of the seconds from `from` up to `end`, and nothing else. */
  lemma {:induction false} SamplesAreRecorded(vus: map<int, real>, from: int, end: int)
    ensures forall t :: from <= t < end && t in vus ==> vus[t] in Samples(vus, from, end)
    ensures forall x :: x in Samples(vus, from, end) ==> x in RecordedIn(vus, from, end)
    decreases end - from
  {
    if from < end {
      SamplesAreRecorded(vus, from + 1, end);
      assert RecordedIn(vus, from + 1, end) <= RecordedIn(vus, from, end);
    }
  }

  ghost function RecordedIn(vus: map<int, real>, from: int, end: int): set<real> {
    set t | t in vus && from <= t < end :: vus[t]
  }

  /** The extremes and the 95th percentile of a window with rows. */
  lemma BucketExtremes(window: seq<Row>, vus: map<int, real>, start: int, index: int)
    requires window != []
    ensures var s, values := BucketOf(window, vus, start, index), Milliseconds(window);
            && |values| == |window| && (forall i :: 0 <= i < |window| ==> values[i] == window[i].ms)
            && (exists i :: 0 <= i < |window| && window[i].ms == s.min)
            && (exists i :: 0 <= i < |window| && window[i].ms == s.max)
            && (forall i :: 0 <= i < |window| ==> s.min <= window[i].ms <= s.max)
            && IsPercentile(values, s.p95, 95.0)
  {
    var values := Milliseconds(window);
    assert forall i :: 0 <= i < |window| ==> values[i] in values && values[i] == window[i].ms;
    LargestIsLargest(Milliseconds(window));
    SmallestIsSmallest(Milliseconds(window));
    PercentileMeans(Milliseconds(window), 95.0);
  }

  /** The largest of the samples, or zero if there is none. */
  ghost predicate IsPeak(most: real, recorded: set<real>) {
    (forall x :: x in recorded ==> x <= most) && ((recorded == {} && most == 0.0) || most in recorded)
  }

  lemma LargestIsPeak(vus: map<int, real>, from: int, end: int)
    ensures IsPeak(Largest(Samples(vus, from, end)), RecordedIn(vus, from, end))
  {
    var samples, recorded := Samples(vus, from, end), RecordedIn(vus, from, end);
    SamplesAreRecorded(vus, from, end);
    assert forall x :: x in recorded ==> x in samples;
    if samples != [] {
      LargestIsLargest(samples);
      assert Largest(samples) in recorded;
    } else {
      assert recorded == {};
    }
  }

  lemma WindowVusIsPeak(vus: map<int, real>, t0: int)
    ensures IsPeak(WindowVus(vus, t0), RecordedIn(vus, t0, t0 + 5))
  {
    LargestIsPeak(vus, t0, t0 + 5);
  }

  /** The virtual users of a window: the most that any of its seconds recorded, or zero if none did. */
  lemma BucketVus(window: seq<Row>, vus: map<int, real>, start: int, index: int)
    ensures var t0 := start + index * 5;
            IsPeak(BucketOf(window, vus, start, index).vus, RecordedIn(vus, t0, t0 + 5))
  {
    WindowVusIsPeak(vus, start + index * 5);
  }

  lemma WindowBounds(r: Row, start: int, i: int)
    ensures IndexOf(r, start) == i <==> start + 5 * i <= r.ts < start + 5 * i + 5
  {
  }

  /** Requests and failures per second, and the second at which the window begins. */
  lemma BucketRates(window: seq<Row>, vus: map<int, real>, start: int, index: int)
    ensures var s := BucketOf(window, vus, start, index);
            && s.requests == |window| && s.t == 5 * index
            && s.rps * 5.0 == |window| as real && s.errorsPerSecond * 5.0 == Total(window, FAILED)
  {
  }

  /** A window without rows is all zeros. */
  lemma EmptyBucket(vus: map<int, real>, start: int, index: int)
    ensures var s := BucketOf([], vus, start, index);
            && s.requests == 0 && s.rps == 0.0 && s.avg == 0.0 && s.min == 0.0 && s.max == 0.0
            && s.p95 == 0.0 && s.errors == 0.0 && s.errorsPerSecond == 0.0
  {
  }

  /** The windows end with the last one that has a row; there is none if no row is at or after the start. */
  lemma WindowsEndAtLastRow(rows: seq<Row>, start: int)
    ensures var end := start + 5 * Windows(rows, start);
            && (forall i :: 0 <= i < |rows| ==> rows[i].ts < end)
            && (Windows(rows, start) > 0 ==> exists i :: 0 <= i < |rows| && end - 5 <= rows[i].ts)
  {
    WindowsIsTop(rows, start);
    var n := Windows(rows, start);
    forall i | 0 <= i < |rows| ensures rows[i].ts < start + 5 * n {
      WindowHolds(rows, start, i);
      WindowBounds(rows[i], start, IndexOf(rows[i], start));
    }
    if n > 0 {
      var i := RowOfWindow(rows, start, n - 1);
      WindowBounds(rows[i], start, n - 1);
    }
  }

  lemma {:induction false} WindowHolds(rows: seq<Row>, start: int, i: nat)
    requires i < |rows|
    ensures Window(rows, start, IndexOf(rows[i], start)) != []
  {
    if i < |rows| - 1 {
      WindowHolds(rows[..|rows| - 1], start, i);
    }
  }

  lemma {:induction false} RowOfWindow(rows: seq<Row>, start: int, index: int) returns (i: nat)
    requires Window(rows, start, index) != []
    ensures i < |rows| && IndexOf(rows[i], start) == index
  {
    if IndexOf(rows[|rows| - 1], start) == index {
      i := |rows| - 1;
    } else {
      i := RowOfWindow(rows[..|rows| - 1], start, index);
    }
  }

  /** All occurrences of a row are in the one window that contains its second, and that window is reported. */
  lemma RowInOneWindow(rows: seq<Row>, start: int, index: int, r: Row)
    ensures multiset(Window(rows, start, index))[r]
            == if start + 5 * index <= r.ts < start + 5 * index + 5 then multiset(rows)[r] else 0
    ensures r in rows && r.ts >= start ==> exists i :: 0 <= i < Windows(rows, start) && start + 5 * i <= r.ts < start + 5 * i + 5
  {
    RowInWindowOfIndex(rows, start, index, r);
    WindowBounds(r, start, index);
    WindowBounds(r, start, IndexOf(r, start));
  }

  lemma {:induction false} RowInWindowOfIndex(rows: seq<Row>, start: int, index: int, r: Row)
    ensures multiset(Window(rows, start, index))[r] == if IndexOf(r, start) == index then multiset(rows)[r] else 0
    ensures r in rows && r.ts >= start ==> 0 <= IndexOf(r, start) < Windows(rows, start)
  {
    if rows != [] {
      RowInWindowOfIndex(rows[..|rows| - 1], start, index, r);
      assert rows == rows[..|rows| - 1] + [rows[|rows| - 1]];
    }
  }
}
