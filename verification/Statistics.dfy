/** Averages, interpolated percentiles and bootstrap intervals, in exact real arithmetic. The random
    generator is an arbitrary list of index draws. */
module Statistics {
  import opened Sorting
  import opened Options

  predicate RealLe(x: real, y: real) { x <= y }

  lemma RealLeOrders()
    ensures TotalPreorder(RealLe) && forall s :: KeysDistinguish(s, RealLe)
  {
  }

  // ---- Average ----

  function Sum(s: seq<real>): real {
    if s == [] then 0.0 else s[0] + Sum(s[1..])
  }

  function Average(s: seq<real>): real {
    if s == [] then 0.0 else Sum(s) / |s| as real
  }

  // ---- Percentile ----

  function Blend(a: real, b: real, weight: real): real {
    a * (1.0 - weight) + b * weight
  }

  /** Linear interpolation at position `at` between the ranks of a sorted list. */
  function Interpolate(ordered: seq<real>, at: real): real
    requires ordered != [] && 0.0 <= at <= (|ordered| - 1) as real
  {
    var lower := at.Floor;
    var upper := if lower + 1 <= |ordered| - 1 then lower + 1 else |ordered| - 1;
    var weight := at - lower as real;
    Blend(ordered[lower], ordered[upper], weight)
  }

  function Position(count: nat, p: real): (at: real)
    requires 0.0 <= p <= 1.0 && count > 0
    ensures 0.0 <= at <= (count - 1) as real
  {
    Scale((count - 1) as real, p);
    (count - 1) as real * p
  }

  lemma Scale(n: real, p: real)
    requires 0.0 <= n && 0.0 <= p <= 1.0
    ensures 0.0 <= n * p <= n
  {
    assert n * (1.0 - p) >= 0.0;
  }

  function Percentile(values: seq<real>, p: real): real
    requires 0.0 <= p <= 1.0
  {
    if values == [] then 0.0
    else
      var ordered := Sort(values, RealLe);
      if |ordered| == 1 then ordered[0] else Interpolate(ordered, Position(|ordered|, p))
  }

  // ---- Order statistics ----

  function CountLe(s: seq<real>, x: real): (n: nat)
    ensures n <= |s|
  {
    if s == [] then 0 else CountLe(s[1..], x) + (if s[0] <= x then 1 else 0)
  }

  lemma {:induction false} CountLeInsert(v: real, s: seq<real>, x: real)
    ensures CountLe(Insert(v, s, RealLe), x) == CountLe(s, x) + (if v <= x then 1 else 0)
  {
    if s != [] && !RealLe(v, s[0]) {
      CountLeInsert(v, s[1..], x);
      assert Insert(v, s, RealLe)[1..] == Insert(v, s[1..], RealLe);
    } else {
      assert Insert(v, s, RealLe)[1..] == s;
    }
  }

  lemma {:induction false} CountLeSort(s: seq<real>, x: real)
    ensures CountLe(Sort(s, RealLe), x) == CountLe(s, x)
  {
    if s == [] {
    } else {
      CountLeSort(s[1..], x);
      CountLeInsert(s[0], Sort(s[1..], RealLe), x);
    }
  }

  /** In a sorted list, position k holds at most x iff more than k elements are at most x. */
  lemma {:induction false} RankByCount(s: seq<real>, k: nat, x: real)
    requires SortedBy(s, RealLe) && k < |s|
    ensures s[k] <= x <==> k < CountLe(s, x)
  {
    if s[0] <= x {
      if k > 0 { RankByCount(s[1..], k - 1, x); }
    } else {
      NoneBelow(s, x);
      assert RealLe(s[0], s[k]) || k == 0;
    }
  }

  lemma {:induction false} NoneBelow(s: seq<real>, x: real)
    requires forall k | 0 <= k < |s| :: s[k] > x
    ensures CountLe(s, x) == 0
  {
    if s == [] {
    } else {
      NoneBelow(s[1..], x);
    }
  }

  predicate Below(a: seq<real>, b: seq<real>) {
    |a| == |b| && forall k | 0 <= k < |a| :: a[k] <= b[k]
  }

  lemma {:induction false} CountLeBelow(a: seq<real>, b: seq<real>, x: real)
    requires Below(a, b)
    ensures CountLe(b, x) <= CountLe(a, x)
  {
    if a == [] {
    } else {
      CountLeBelow(a[1..], b[1..], x);
    }
  }

  /** Pointwise domination carries over to every order statistic. */
  lemma SortBelow(a: seq<real>, b: seq<real>)
    requires Below(a, b)
    ensures Below(Sort(a, RealLe), Sort(b, RealLe))
  {
    var sa, sb := Sort(a, RealLe), Sort(b, RealLe);
    forall k | 0 <= k < |sa| ensures sa[k] <= sb[k] {
      OrderStatistic(b, k, sb[k]);
      CountLeBelow(a, b, sb[k]);
      OrderStatistic(a, k, sb[k]);
    }
  }

  function Shift(s: seq<real>, c: real): (r: seq<real>)
    ensures |r| == |s| && forall k | 0 <= k < |s| :: r[k] == s[k] + c
  {
    seq(|s|, k requires 0 <= k < |s| => s[k] + c)
  }

  lemma {:induction false} CountLeShift(s: seq<real>, c: real, x: real)
    ensures CountLe(Shift(s, c), x + c) == CountLe(s, x)
  {
    if s == [] {
    } else {
      CountLeShift(s[1..], c, x);
      assert Shift(s, c)[1..] == Shift(s[1..], c);
    }
  }

  lemma OrderStatistic(s: seq<real>, k: nat, x: real)
    requires k < |s|
    ensures Sort(s, RealLe)[k] <= x <==> k < CountLe(s, x)
  {
    RealLeOrders();
    SortSorts(s, RealLe);
    RankByCount(Sort(s, RealLe), k, x);
    CountLeSort(s, x);
  }

  lemma EqualCounts(a: seq<real>, b: seq<real>, k: nat, x: real, y: real)
    requires k < |a| && |a| == |b|
    requires CountLe(a, x) == CountLe(b, y)
    ensures Sort(a, RealLe)[k] <= x <==> Sort(b, RealLe)[k] <= y
  {
    OrderStatistic(a, k, x);
    OrderStatistic(b, k, y);
  }

  lemma OrderStatisticShift(s: seq<real>, c: real, k: nat, x: real)
    requires k < |s|
    ensures Sort(Shift(s, c), RealLe)[k] <= x + c <==> Sort(s, RealLe)[k] <= x
  {
    hide *;
    CountLeShift(s, c, x);
    assert CountLe(Shift(s, c), x + c) == CountLe(s, x);
    assert |Shift(s, c)| == |s|;
    EqualCounts(Shift(s, c), s, k, x + c, x);
  }

  lemma SortShiftAt(s: seq<real>, c: real, k: nat)
    requires k < |s|
    ensures Sort(Shift(s, c), RealLe)[k] == Sort(s, RealLe)[k] + c
  {
    hide Sort;
    var x, y := Sort(s, RealLe)[k], Sort(Shift(s, c), RealLe)[k];
    OrderStatisticShift(s, c, k, x);
    OrderStatisticShift(s, c, k, y - c);
  }

  /** Moving a sample moves its order statistics. */
  lemma SortShift(s: seq<real>, c: real)
    ensures Sort(Shift(s, c), RealLe) == Shift(Sort(s, RealLe), c)
  {
    hide Sort;
    forall k | 0 <= k < |s| ensures Sort(Shift(s, c), RealLe)[k] == Sort(s, RealLe)[k] + c {
      SortShiftAt(s, c, k);
    }
  }

  // ---- Ranks by counting ----

  function CountLess(values: seq<real>, v: real): nat {
    CountBy(values, x => x < v)
  }

  function CountMore(values: seq<real>, v: real): nat {
    CountBy(values, x => x > v)
  }

  function CountBetween(values: seq<real>, v: real, w: real): nat {
    CountBy(values, x => v <= x <= w)
  }

  /** `x` stands at position `k`, from zero, of the values in ascending order: at most k values are
      smaller and more than k are not larger. */
  predicate AtRank(values: seq<real>, k: int, x: real) {
    CountLess(values, x) <= k < CountLe(values, x)
  }

  lemma {:induction false} CountsOrdered(values: seq<real>, v: real, w: real)
    ensures v < w ==> CountLe(values, v) <= CountLess(values, w)
    ensures CountLess(values, v) <= CountLe(values, v)
    ensures CountLe(values, v) + CountMore(values, v) == |values|
    ensures v <= w ==> CountLess(values, v) + CountBetween(values, v, w) + CountMore(values, w) == |values|
  {
    if values == [] {
    } else {
      CountsOrdered(values[1..], v, w);
    }
  }

  /** No two values stand at one rank. */
  lemma RankIsUnique(values: seq<real>, k: int, x: real, y: real)
    requires AtRank(values, k, x) && AtRank(values, k, y)
    ensures x == y
  {
    CountsOrdered(values, x, y);
    CountsOrdered(values, y, x);
  }

  lemma {:induction false} FewBelow(ordered: seq<real>, k: nat, x: real)
    requires SortedBy(ordered, RealLe) && k < |ordered| && x <= ordered[k]
    ensures CountLess(ordered, x) <= k
  {
    if k == 0 {
      forall j | 0 <= j < |ordered| ensures !(ordered[j] < x) { Ordered(ordered, 0, j); }
      CountRange(ordered, y => y < x, 0, 0);
    } else {
      FewBelow(ordered[1..], k - 1, x);
    }
  }

  /** Sorting puts at each position the value of that rank. */
  lemma SortedAtRank(values: seq<real>, k: nat)
    requires k < |values|
    ensures AtRank(values, k, Sort(values, RealLe)[k])
  {
    RealLeOrders();
    SortSorts(values, RealLe);
    var ordered := Sort(values, RealLe);
    OrderStatistic(values, k, ordered[k]);
    FewBelow(ordered, k, ordered[k]);
    CountSort(values, RealLe, y => y < ordered[k]);
  }

  /** `percentile` interpolates between the values of the two ranks around p(n - 1), in proportion. */
  lemma PercentileExactly(values: seq<real>, p: real, low: real, high: real)
    requires 0.0 <= p <= 1.0 && values != []
    requires
      var at := p * (|values| - 1) as real;
      var next := if at.Floor + 1 < |values| then at.Floor + 1 else |values| - 1;
      AtRank(values, at.Floor, low) && AtRank(values, next, high)
    ensures
      var at := p * (|values| - 1) as real;
      Percentile(values, p) == low + (at - at.Floor as real) * (high - low)
  {
    hide AtRank, Blend;
    var at := Position(|values|, p);
    assert at == p * (|values| - 1) as real;
    var next := if at.Floor + 1 < |values| then at.Floor + 1 else |values| - 1;
    var ordered := Sort(values, RealLe);
    SortedAtRank(values, at.Floor);
    SortedAtRank(values, next);
    RankIsUnique(values, at.Floor, low, ordered[at.Floor]);
    RankIsUnique(values, next, high, ordered[next]);
    BlendProportion(low, high, at - at.Floor as real);
    assert |values| == 1 ==> at == 0.0;
  }

  lemma BlendProportion(a: real, b: real, w: real)
    ensures Blend(a, b, w) == a + w * (b - a)
  {
  }

  /** A mean times its count is the total: means combine in proportion to their counts. */
  lemma AverageExactly(a: seq<real>, b: seq<real>, x: real)
    ensures Average([]) == 0.0 && Average([x]) == x
    ensures Average(a + b) * |a + b| as real == Average(a) * |a| as real + Average(b) * |b| as real
  {
    AverageOfOne(x);
    hide Average, Sum;
    SumAppend(a, b);
    AverageTimesCount(a);
    AverageTimesCount(b);
    AverageTimesCount(a + b);
  }

  lemma AverageOfOne(x: real)
    ensures Average([]) == 0.0 && Average([x]) == x
  {
    assert [x][1..] == [] && Sum([x]) == x;
  }

  lemma AverageTimesCount(s: seq<real>)
    ensures Average(s) * |s| as real == Sum(s)
  {
  }

  lemma {:induction false} SumAppend(a: seq<real>, b: seq<real>)
    ensures Sum(a + b) == Sum(a) + Sum(b)
  {
    if a == [] {
      assert a + b == b;
    } else {
      SumAppend(a[1..], b);
      assert (a + b)[1..] == a[1..] + b;
    }
  }

  // ---- Location statistics ----

  predicate Constant(s: seq<real>, c: real) {
    forall k | 0 <= k < |s| :: s[k] == c
  }

  /** A statistic that respects pointwise order, moves along with its sample and is fixed by constants. */
  ghost predicate Location(stat: seq<real> -> real) {
    && (forall a, b | Below(a, b) && a != [] :: stat(a) <= stat(b))
    && (forall a, c | a != [] :: stat(Shift(a, c)) == stat(a) + c)
    && (forall a, c | Constant(a, c) && a != [] :: stat(a) == c)
  }

  lemma {:induction false} SumBelow(a: seq<real>, b: seq<real>)
    requires Below(a, b)
    ensures Sum(a) <= Sum(b)
  {
    if a == [] {
    } else {
      SumBelow(a[1..], b[1..]);
    }
  }

  lemma {:induction false} SumShift(s: seq<real>, c: real)
    ensures Sum(Shift(s, c)) == Sum(s) + c * |s| as real
  {
    if s == [] {
    } else {
      SumShift(s[1..], c);
      assert Shift(s, c)[1..] == Shift(s[1..], c);
    }
  }

  lemma {:induction false} SumConstant(s: seq<real>, c: real)
    requires Constant(s, c)
    ensures Sum(s) == c * |s| as real
  {
    if s == [] {
    } else {
      SumConstant(s[1..], c);
    }
  }

  lemma DivideMonotone(x: real, y: real, n: real)
    requires x <= y && n > 0.0
    ensures x / n <= y / n
  {
  }

  lemma AverageBelow(a: seq<real>, b: seq<real>)
    requires Below(a, b) && a != []
    ensures Average(a) <= Average(b)
  {
    SumBelow(a, b);
    DivideMonotone(Sum(a), Sum(b), |a| as real);
  }

  lemma AverageShift(a: seq<real>, c: real)
    requires a != []
    ensures Average(Shift(a, c)) == Average(a) + c
  {
    SumShift(a, c);
    AddAfterDivide(Sum(a), c, |a| as real);
  }

  lemma AverageConstant(a: seq<real>, c: real)
    requires a != [] && Constant(a, c)
    ensures Average(a) == c
  {
    SumConstant(a, c);
  }

  /** The mean is a location statistic. */
  lemma AverageIsLocation()
    ensures Location(Average)
  {
    hide Average, Shift;
    forall a, b | Below(a, b) && a != [] ensures Average(a) <= Average(b) { AverageBelow(a, b); }
    forall a, c | a != [] ensures Average(Shift(a, c)) == Average(a) + c { AverageShift(a, c); }
    forall a, c | Constant(a, c) && a != [] ensures Average(a) == c { AverageConstant(a, c); }
  }

  lemma AddAfterDivide(x: real, c: real, n: real)
    requires n > 0.0
    ensures (x + c * n) / n == x / n + c
  {
  }

  lemma Between(a: real, b: real, w: real)
    requires 0.0 <= w <= 1.0 && a <= b
    ensures a <= Blend(a, b, w) <= b
  {
    assert a * (1.0 - w) + b * w == a + (b - a) * w;
    ProductNonNegative(b - a, w);
    ProductNonNegative(b - a, 1.0 - w);
    assert (b - a) * (1.0 - w) == (b - a) - (b - a) * w;
  }

  lemma Mix(a: real, b: real, c: real, d: real, w: real)
    requires 0.0 <= w <= 1.0 && a <= c && b <= d
    ensures Blend(a, b, w) <= Blend(c, d, w)
  {
    assert 0.0 <= (c - a) * (1.0 - w) && 0.0 <= (d - b) * w;
  }

  lemma InterpolateBelow(a: seq<real>, b: seq<real>, at: real)
    requires Below(a, b) && a != [] && 0.0 <= at <= (|a| - 1) as real
    ensures Interpolate(a, at) <= Interpolate(b, at)
  {
    hide Blend;
    var lower := at.Floor;
    var upper := if lower + 1 <= |a| - 1 then lower + 1 else |a| - 1;
    Mix(a[lower], a[upper], b[lower], b[upper], at - lower as real);
  }

  lemma MixShift(a: real, b: real, c: real, w: real)
    ensures Blend(a + c, b + c, w) == Blend(a, b, w) + c
  {
  }

  lemma InterpolateShift(s: seq<real>, c: real, at: real)
    requires s != [] && 0.0 <= at <= (|s| - 1) as real
    ensures Interpolate(Shift(s, c), at) == Interpolate(s, at) + c
  {
    hide Blend;
    var i := at.Floor;
    var up := if i + 1 <= |s| - 1 then i + 1 else |s| - 1;
    MixShift(s[i], s[up], c, at - i as real);
  }

  lemma PercentileBelow(a: seq<real>, b: seq<real>, p: real)
    requires Below(a, b) && 0.0 <= p <= 1.0
    ensures Percentile(a, p) <= Percentile(b, p)
  {
    SortBelow(a, b);
    if |a| > 1 { InterpolateBelow(Sort(a, RealLe), Sort(b, RealLe), Position(|a|, p)); }
  }

  lemma PercentileShift(s: seq<real>, c: real, p: real)
    requires s != [] && 0.0 <= p <= 1.0
    ensures Percentile(Shift(s, c), p) == Percentile(s, p) + c
  {
    SortShift(s, c);
    if |s| > 1 { InterpolateShift(Sort(s, RealLe), c, Position(|s|, p)); }
  }

  lemma PercentileConstant(s: seq<real>, c: real, p: real)
    requires s != [] && 0.0 <= p <= 1.0 && Constant(s, c)
    ensures Percentile(s, p) == c
  {
    var ordered := Sort(s, RealLe);
    forall k | 0 <= k < |ordered| ensures ordered[k] == c {
      assert ordered[k] in multiset(ordered);
      assert ordered[k] in s;
    }
  }

  function PercentileAt(p: real): (stat: seq<real> -> real)
    requires 0.0 <= p <= 1.0
    ensures forall values :: stat(values) == Percentile(values, p)
  {
    values => Percentile(values, p)
  }

  /** Every percentile is a location statistic. */
  lemma PercentileIsLocation(p: real)
    requires 0.0 <= p <= 1.0
    ensures Location(PercentileAt(p))
  {
    hide Percentile, Shift;
    var stat := PercentileAt(p);
    forall a, b | Below(a, b) && a != [] ensures stat(a) <= stat(b) { PercentileBelow(a, b, p); }
    forall a, c | a != [] ensures stat(Shift(a, c)) == stat(a) + c { PercentileShift(a, c, p); }
    forall a, c | Constant(a, c) && a != [] ensures stat(a) == c { PercentileConstant(a, c, p); }
  }

  /** `percentile` depends only on which values occur, and how often. */
  lemma PercentilePermutation(a: seq<real>, b: seq<real>, p: real)
    requires multiset(a) == multiset(b) && 0.0 <= p <= 1.0
    ensures Percentile(a, p) == Percentile(b, p)
  {
    RealLeOrders();
    SortPermutation(a, b, RealLe);
    assert |multiset(a)| == |a| && |multiset(b)| == |b|;
  }

  lemma ProductNonNegative(x: real, y: real)
    requires x >= 0.0 && y >= 0.0
    ensures x * y >= 0.0
  {
  }

  lemma MixMonotone(a: real, b: real, v: real, w: real)
    requires a <= b && v <= w
    ensures Blend(a, b, v) <= Blend(a, b, w)
  {
    ProductNonNegative(b - a, w - v);
    assert a * (1.0 - v) + b * v == a + (b - a) * v;
    assert a * (1.0 - w) + b * w == a + (b - a) * w;
    assert (b - a) * (w - v) == (b - a) * w - (b - a) * v;
  }

  lemma InterpolateBetween(s: seq<real>, at: real)
    requires SortedBy(s, RealLe) && s != [] && 0.0 <= at <= (|s| - 1) as real
    ensures s[at.Floor] <= Interpolate(s, at)
    ensures forall j | at.Floor < j < |s| :: Interpolate(s, at) <= s[j]
  {
    hide Blend;
    var i := at.Floor;
    var up := if i + 1 <= |s| - 1 then i + 1 else |s| - 1;
    Ordered(s, i, up);
    var w := at - i as real;
    Between(s[i], s[up], w);
    assert Interpolate(s, at) == Blend(s[i], s[up], w);
    forall j | i < j < |s| ensures Interpolate(s, at) <= s[j] { Ordered(s, up, j); }
  }

  lemma InterpolateMonotone(s: seq<real>, at: real, to: real)
    requires SortedBy(s, RealLe) && s != [] && 0.0 <= at <= to <= (|s| - 1) as real
    ensures Interpolate(s, at) <= Interpolate(s, to)
  {
    hide Blend;
    var i := at.Floor;
    if i == to.Floor {
      var up := if i + 1 <= |s| - 1 then i + 1 else |s| - 1;
      Ordered(s, i, up);
      MixMonotone(s[i], s[up], at - i as real, to - i as real);
    } else {
      hide Interpolate;
      InterpolateBetween(s, at);
      InterpolateBetween(s, to);
    }
  }

  lemma Ordered(s: seq<real>, i: nat, j: nat)
    requires SortedBy(s, RealLe) && i <= j < |s|
    ensures s[i] <= s[j]
  {
    assert i == j || RealLe(s[i], s[j]);
  }

  /** `percentile` is monotone in the requested fraction. */
  lemma PercentileMonotone(values: seq<real>, p: real, q: real)
    requires 0.0 <= p <= q <= 1.0
    ensures Percentile(values, p) <= Percentile(values, q)
  {
    RealLeOrders();
    SortSorts(values, RealLe);
    if |values| > 1 {
      var n := (|values| - 1) as real;
      ProductNonNegative(n, q - p);
      assert n * (q - p) == n * q - n * p;
      InterpolateMonotone(Sort(values, RealLe), Position(|values|, p), Position(|values|, q));
    }
  }

  // ---- Bootstrap ----

  /** `draws[j]` holds the indices chosen for resample j. */
  predicate DrawsFor(draws: seq<seq<nat>>, count: nat) {
    draws != [] && AllIndices(draws, count)
  }

  predicate AllIndices(draws: seq<seq<nat>>, count: nat) {
    forall j | 0 <= j < |draws| :: IndicesFor(draws[j], count)
  }

  predicate IndicesFor(indices: seq<nat>, count: nat) {
    |indices| == count && IndicesInto(indices, count)
  }

  predicate IndicesInto(indices: seq<nat>, count: nat) {
    forall k | 0 <= k < |indices| :: indices[k] < count
  }

  function Pick(values: seq<real>, indices: seq<nat>): (r: seq<real>)
    requires IndicesInto(indices, |values|)
    ensures |r| == |indices| && forall k | 0 <= k < |r| :: r[k] == values[indices[k]]
  {
    seq(|indices|, k requires 0 <= k < |indices| => values[indices[k]])
  }

  function LowIndex(n: nat): (i: nat)
    requires n > 0
    ensures i < n
  {
    (0.025 * (n - 1) as real).Floor
  }

  function HighIndex(n: nat): (i: nat)
    requires n > 0
    ensures LowIndex(n) <= i < n
  {
    (0.975 * (n - 1) as real).Floor
  }

  function Interval(estimates: seq<real>): (real, real)
    requires estimates != []
  {
    var ordered := Sort(estimates, RealLe);
    (ordered[LowIndex(|ordered|)], ordered[HighIndex(|ordered|)])
  }

  function Estimates(values: seq<real>, stat: seq<real> -> real, draws: seq<seq<nat>>): (r: seq<real>)
    requires AllIndices(draws, |values|)
    ensures |r| == |draws|
    ensures forall j | 0 <= j < |draws| :: r[j] == stat(Pick(values, draws[j]))
  {
    seq(|draws|, j requires 0 <= j < |draws| => stat(Pick(values, draws[j])))
  }

  function DeltaEstimates(baseline: seq<real>, candidate: seq<real>, stat: seq<real> -> real,
      draws: seq<seq<nat>>): (r: seq<real>)
    requires AllIndices(draws, Paired(baseline, candidate))
    ensures |r| == |draws|
    ensures forall j | 0 <= j < |draws| ::
      r[j] == stat(Pick(candidate, draws[j])) - stat(Pick(baseline, draws[j]))
  {
    seq(|draws|, j requires 0 <= j < |draws| =>
      stat(Pick(candidate, draws[j])) - stat(Pick(baseline, draws[j])))
  }

  function Paired(baseline: seq<real>, candidate: seq<real>): (n: nat)
    ensures n <= |baseline| && n <= |candidate|
  {
    if |baseline| <= |candidate| then |baseline| else |candidate|
  }

  function ConfidenceInterval(values: seq<real>, stat: seq<real> -> real, draws: seq<seq<nat>>): (real, real)
    requires DrawsFor(draws, |values|)
  {
    if |values| < 3 then (0.0, 0.0) else Interval(Estimates(values, stat, draws))
  }

  function DeltaInterval(baseline: seq<real>, candidate: seq<real>, stat: seq<real> -> real,
      draws: seq<seq<nat>>): (real, real)
    requires DrawsFor(draws, Paired(baseline, candidate))
  {
    if baseline == [] || candidate == [] then (0.0, 0.0)
    else Interval(DeltaEstimates(baseline, candidate, stat, draws))
  }

  /** The ends of an interval by their ranks among the estimates: 2.5 and 97.5 percent of the way up. */
  predicate Central(estimates: seq<real>, lower: real, upper: real) {
    var last := (|estimates| - 1) as real;
    AtRank(estimates, (0.025 * last).Floor, lower) && AtRank(estimates, (0.975 * last).Floor, upper)
  }

  /** At most 24 values lie below the interval, at most 25 above it and at least 951 in it. */
  predicate MostInside(values: seq<real>, lower: real, upper: real) {
    && CountLess(values, lower) <= 24 && CountMore(values, upper) <= 25
    && CountBetween(values, lower, upper) >= 951
  }

  /** Of 1000 estimates at most 24 lie below a central interval, at most 25 above it and at least 951
      in it; and it could not be narrower: 25 are not above its lower end, 26 not below its upper. */
  lemma CentralThousand(estimates: seq<real>, lower: real, upper: real)
    requires |estimates| == 1000 && Central(estimates, lower, upper)
    ensures lower <= upper
    ensures MostInside(estimates, lower, upper)
    ensures CountLe(estimates, lower) >= 25 && 1000 - CountLess(estimates, upper) >= 26
  {
    assert (0.025 * 999.0).Floor == 24 && (0.975 * 999.0).Floor == 974;
    CountsOrdered(estimates, lower, upper);
    CountsOrdered(estimates, upper, lower);
    CountsOrdered(estimates, upper, upper);
  }

  lemma IntervalIsCentral(estimates: seq<real>)
    requires estimates != []
    ensures Central(estimates, Interval(estimates).0, Interval(estimates).1)
    ensures |estimates| == 1000 ==> MostInside(estimates, Interval(estimates).0, Interval(estimates).1)
  {
    hide AtRank;
    SortedAtRank(estimates, LowIndex(|estimates|));
    SortedAtRank(estimates, HighIndex(|estimates|));
    if |estimates| == 1000 { CentralThousand(estimates, Interval(estimates).0, Interval(estimates).1); }
  }

  /** `bootstrap_ci`; `draws` is what the seeded generator would return. */
  method BootstrapCi(values: seq<real>, stat: seq<real> -> real, draws: seq<seq<nat>>)
      returns (lower: real, upper: real)
    requires DrawsFor(draws, |values|)
    ensures (lower, upper) == ConfidenceInterval(values, stat, draws)
    ensures |values| < 3 ==> lower == upper == 0.0
    ensures |values| >= 3 ==> Central(Estimates(values, stat, draws), lower, upper)
    ensures |values| >= 3 && |draws| == 1000 ==>
      MostInside(Estimates(values, stat, draws), lower, upper)
  {
    hide Central;
    if |values| < 3 {
      return 0.0, 0.0;
    }
    var estimates: seq<real> := [];
    for j := 0 to |draws|
      invariant estimates == Estimates(values, stat, draws)[..j]
    {
      assert IndicesFor(draws[j], |values|);
      var sample := Pick(values, draws[j]);
      estimates := estimates + [stat(sample)];
    }
    assert estimates == Estimates(values, stat, draws);
    IntervalIsCentral(estimates);
    var ordered := Sort(estimates, RealLe);
    return ordered[LowIndex(|draws|)], ordered[HighIndex(|draws|)];
  }

  /** `bootstrap_delta_ci`: both runs are resampled with the same indices. */
  method BootstrapDeltaCi(baseline: seq<real>, candidate: seq<real>, stat: seq<real> -> real,
      draws: seq<seq<nat>>) returns (lower: real, upper: real)
    requires DrawsFor(draws, Paired(baseline, candidate))
    ensures (lower, upper) == DeltaInterval(baseline, candidate, stat, draws)
    ensures baseline == [] || candidate == [] ==> lower == upper == 0.0
    ensures baseline != [] && candidate != [] ==>
      Central(DeltaEstimates(baseline, candidate, stat, draws), lower, upper)
    ensures baseline != [] && candidate != [] && |draws| == 1000 ==>
      MostInside(DeltaEstimates(baseline, candidate, stat, draws), lower, upper)
  {
    if baseline == [] || candidate == [] {
      return 0.0, 0.0;
    }
    var estimates: seq<real> := [];
    for j := 0 to |draws|
      invariant estimates == DeltaEstimates(baseline, candidate, stat, draws)[..j]
    {
      assert IndicesFor(draws[j], Paired(baseline, candidate));
      var baselineSample := Pick(baseline, draws[j]);
      var candidateSample := Pick(candidate, draws[j]);
      estimates := estimates + [stat(candidateSample) - stat(baselineSample)];
    }
    assert estimates == DeltaEstimates(baseline, candidate, stat, draws);
    IntervalIsCentral(estimates);
    var ordered := Sort(estimates, RealLe);
    return ordered[LowIndex(|draws|)], ordered[HighIndex(|draws|)];
  }

  predicate Within(s: seq<real>, low: real, high: real) {
    forall k | 0 <= k < |s| :: low <= s[k] <= high
  }

  lemma IntervalWithin(estimates: seq<real>, low: real, high: real)
    requires estimates != [] && Within(estimates, low, high)
    ensures low <= Interval(estimates).0 <= Interval(estimates).1 <= high
  {
    RealLeOrders();
    SortSorts(estimates, RealLe);
    var ordered := Sort(estimates, RealLe);
    var i, j := LowIndex(|ordered|), HighIndex(|ordered|);
    Ordered(ordered, i, j);
    assert ordered[i] in multiset(ordered) && ordered[j] in multiset(ordered);
    assert ordered[i] in estimates && ordered[j] in estimates;
  }

  /** The two ends of an interval never cross, whatever the generator and the statistic. */
  lemma IntervalOrdered(estimates: seq<real>)
    requires estimates != []
    ensures Interval(estimates).0 <= Interval(estimates).1
  {
    RealLeOrders();
    SortSorts(estimates, RealLe);
    var ordered := Sort(estimates, RealLe);
    Ordered(ordered, LowIndex(|ordered|), HighIndex(|ordered|));
  }

  function Constantly(n: nat, c: real): (r: seq<real>)
    ensures |r| == n && Constant(r, c)
  {
    seq(n, _ => c)
  }

  /** A location statistic lies between any bounds on its sample. */
  lemma StatWithin(s: seq<real>, stat: seq<real> -> real, low: real, high: real)
    requires Location(stat) && s != [] && Within(s, low, high)
    ensures low <= stat(s) <= high
  {
    var bottom, top := Constantly(|s|, low), Constantly(|s|, high);
    assert Below(bottom, s) && Below(s, top);
    assert Constant(bottom, low) && Constant(top, high);
  }

  /** A confidence interval stays within the bounds of the sample it resamples. */
  lemma ConfidenceWithinSample(values: seq<real>, stat: seq<real> -> real, draws: seq<seq<nat>>,
      low: real, high: real)
    requires DrawsFor(draws, |values|) && |values| >= 3
    requires Location(stat) && Within(values, low, high)
    ensures var ci := ConfidenceInterval(values, stat, draws); low <= ci.0 <= ci.1 <= high
  {
    var estimates := Estimates(values, stat, draws);
    forall j | 0 <= j < |estimates| ensures low <= estimates[j] <= high {
      assert IndicesFor(draws[j], |values|);
      StatWithin(Pick(values, draws[j]), stat, low, high);
    }
    IntervalWithin(estimates, low, high);
  }

  /** Candidate minus baseline stays between `low` and `high` at every index. */
  predicate DifferencesWithin(baseline: seq<real>, candidate: seq<real>, low: real, high: real) {
    && |baseline| == |candidate|
    && forall k | 0 <= k < |baseline| :: low <= candidate[k] - baseline[k] <= high
  }

  lemma DeltaWithin(baseline: seq<real>, candidate: seq<real>, stat: seq<real> -> real, low: real, high: real)
    requires Location(stat) && baseline != [] && DifferencesWithin(baseline, candidate, low, high)
    ensures low <= stat(candidate) - stat(baseline) <= high
  {
    assert Below(Shift(baseline, low), candidate);
    assert Below(candidate, Shift(baseline, high));
  }

  /** A delta interval stays within the bounds of the per-case differences, whatever the generator. */
  lemma DeltaIntervalWithin(baseline: seq<real>, candidate: seq<real>, stat: seq<real> -> real,
      draws: seq<seq<nat>>, low: real, high: real)
    requires DrawsFor(draws, Paired(baseline, candidate)) && Location(stat)
    requires baseline != [] && DifferencesWithin(baseline, candidate, low, high)
    ensures var ci := DeltaInterval(baseline, candidate, stat, draws); low <= ci.0 <= ci.1 <= high
  {
    var estimates := DeltaEstimates(baseline, candidate, stat, draws);
    forall j | 0 <= j < |estimates| ensures low <= estimates[j] <= high {
      assert IndicesFor(draws[j], |baseline|);
      DeltaWithin(Pick(baseline, draws[j]), Pick(candidate, draws[j]), stat, low, high);
    }
    IntervalWithin(estimates, low, high);
  }

  // ---- Significance ----

  datatype Finding = Significant | Possible | NotSignificant

  /** `is_significant_regression` without its message text: Significant is the source's True. */
  function Regression(baseline: seq<real>, candidate: seq<real>, stat: seq<real> -> real,
      draws: seq<seq<nat>>, direction: string, tolerance: real): Result<Finding, string>
    requires DrawsFor(draws, Paired(baseline, candidate))
  {
    var point := stat(candidate) - stat(baseline);
    var delta := DeltaInterval(baseline, candidate, stat, draws);
    if direction == "higher_better" then Ok(Judge(point, delta.1, tolerance))
    else if direction == "lower_better" then Ok(Judge(-point, -delta.0, tolerance))
    else Err("direction must be 'higher_better' or 'lower_better'")
  }

  function Judge(point: real, bound: real, tolerance: real): Finding {
    if bound < -tolerance then Significant else if point < -tolerance then Possible else NotSignificant
  }
}
