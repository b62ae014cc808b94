/** Tied ranks and the two correlations of evaluator scores with gold labels, in exact arithmetic. */
module Calibration {
  import opened Sorting
  import opened Statistics
  import opened Rounding

  // ---- Ranks ----

  function CountEqual(values: seq<real>, v: real): nat {
    CountBy(values, x => x == v)
  }

  /** The middle of the positions that elements equal to `v` occupy, counting from one. */
  function MidRank(values: seq<real>, v: real): real {
    CountLess(values, v) as real + (CountEqual(values, v) + 1) as real / 2.0
  }

  function MidRanks(values: seq<real>): (r: seq<real>)
    ensures |r| == |values| && forall k | 0 <= k < |values| :: r[k] == MidRank(values, values[k])
  {
    seq(|values|, k requires 0 <= k < |values| => MidRank(values, values[k]))
  }

  predicate PairLe(a: (real, nat), b: (real, nat)) {
    a.0 < b.0 || (a.0 == b.0 && a.1 <= b.1)
  }

  /** `enumerate(values)`, counting from `start`. */
  function Numbered(values: seq<real>, start: nat): (r: seq<(real, nat)>)
    ensures |r| == |values| && forall k | 0 <= k < |values| :: r[k] == (values[k], start + k)
  {
    seq(|values|, k requires 0 <= k < |values| => (values[k], start + k))
  }

  lemma {:induction false} NumberedCounts(values: seq<real>, start: nat, p: real -> bool, q: ((real, nat)) -> bool)
    requires forall x, n :: q((x, n)) == p(x)
    ensures CountBy(Numbered(values, start), q) == CountBy(values, p)
  {
    if values == [] {
    } else {
      NumberedCounts(values[1..], start + 1, p, q);
      assert Numbered(values, start)[1..] == Numbered(values[1..], start + 1);
    }
  }

  /** The (value, index) pairs in ascending order. */
  function InOrder(values: seq<real>): (r: seq<(real, nat)>)
    ensures |r| == |values|
  {
    Sort(Numbered(values, 0), PairLe)
  }

  lemma OrderedPairs(values: seq<real>)
    ensures forall j, k | 0 <= j <= k < |values| :: InOrder(values)[j].0 <= InOrder(values)[k].0
    ensures forall k | 0 <= k < |values| ::
      InOrder(values)[k].1 < |values| && values[InOrder(values)[k].1] == InOrder(values)[k].0
  {
    assert TotalPreorder(PairLe);
    SortSorts(Numbered(values, 0), PairLe);
    var r, pairs := InOrder(values), Numbered(values, 0);
    forall j, k | 0 <= j <= k < |values| ensures r[j].0 <= r[k].0 {
      assert j == k || PairLe(r[j], r[k]);
    }
    forall k | 0 <= k < |values| ensures r[k].1 < |values| && values[r[k].1] == r[k].0 {
      assert r[k] in multiset(r);
      assert r[k] in pairs;
    }
  }

  lemma EveryIndexOrdered(values: seq<real>, i: nat) returns (k: nat)
    requires i < |values|
    ensures k < |values| && InOrder(values)[k] == (values[i], i)
  {
    var r, pairs := InOrder(values), Numbered(values, 0);
    assert pairs[i] in multiset(pairs);
    assert pairs[i] in r;
    k :| 0 <= k < |r| && r[k] == pairs[i];
  }

  /** A maximal run of equal values from `position` to `end` has the average of its positions as rank. */
  lemma RunRank(values: seq<real>, position: nat, end: nat)
    requires position <= end < |values|
    requires var r := InOrder(values);
      && (forall k | 0 <= k < |values| :: r[k].0 < r[position].0 <==> k < position)
      && (forall k | 0 <= k < |values| :: r[k].0 == r[position].0 <==> position <= k <= end)
    ensures MidRank(values, InOrder(values)[position].0) == (position + end + 2) as real / 2.0
  {
    var pairs, r := Numbered(values, 0), InOrder(values);
    var v := r[position].0;
    var less, equal := (x: (real, nat)) => x.0 < v, (x: (real, nat)) => x.0 == v;
    CountRange(r, less, 0, position);
    CountSort(pairs, PairLe, less);
    NumberedCounts(values, 0, x => x < v, less);
    CountRange(r, equal, position, end + 1);
    CountSort(pairs, PairLe, equal);
    NumberedCounts(values, 0, x => x == v, equal);
  }

  /** `rank`: walks the ordered pairs one run of ties at a time. */
  method Rank(values: seq<real>) returns (ranks: array<real>)
    ensures fresh(ranks) && ranks[..] == MidRanks(values)
  {
    hide MidRank, InOrder;
    var ordered := InOrder(values);
    OrderedPairs(values);
    ranks := new real[|values|](_ => 0.0);
    var position := 0;
    while position < |ordered|
      invariant position <= |ordered|
      invariant 0 < position < |ordered| ==> ordered[position - 1].0 < ordered[position].0
      invariant forall k | 0 <= k < position :: ranks[ordered[k].1] == MidRank(values, ordered[k].0)
    {
      var end := position;
      while end + 1 < |ordered| && ordered[end + 1].0 == ordered[position].0
        invariant position <= end < |ordered|
        invariant ordered[end].0 == ordered[position].0
      {
        end := end + 1;
      }
      var averageRank := (position + end + 2) as real / 2.0;
      RunRank(values, position, end);
      for k := position to end + 1
        invariant forall j | 0 <= j < k :: ranks[ordered[j].1] == MidRank(values, ordered[j].0)
      {
        ranks[ordered[k].1] := averageRank;
      }
      position := end + 1;
    }
    forall i | 0 <= i < |values| ensures ranks[i] == MidRanks(values)[i] {
      var k := EveryIndexOrdered(values, i);
    }
  }

  // ---- What the ranks mean ----

  lemma {:induction false} CountsSplit(values: seq<real>, v: real, w: real)
    requires v < w
    ensures CountLess(values, v) + CountEqual(values, v) <= CountLess(values, w)
  {
    if values == [] {
    } else {
      CountsSplit(values[1..], v, w);
    }
  }

  lemma {:induction false} Occurs(values: seq<real>, i: nat)
    requires i < |values|
    ensures CountEqual(values, values[i]) > 0
  {
    if i > 0 { Occurs(values[1..], i - 1); }
  }

  /** Ranks order indices exactly as the values do; so ties, and only ties, share a rank. */
  lemma RanksKeepOrder(values: seq<real>, i: nat, j: nat)
    requires i < |values| && j < |values|
    ensures MidRanks(values)[i] < MidRanks(values)[j] <==> values[i] < values[j]
    ensures MidRanks(values)[i] == MidRanks(values)[j] <==> values[i] == values[j]
  {
    Occurs(values, i);
    Occurs(values, j);
    if values[i] < values[j] { CountsSplit(values, values[i], values[j]); }
    if values[j] < values[i] { CountsSplit(values, values[j], values[i]); }
  }

  /** Twice the smaller elements plus the equal ones, summed over `a` against `b`. */
  function Against(a: seq<real>, b: seq<real>): nat {
    if a == [] then 0 else 2 * CountLess(b, a[0]) + CountEqual(b, a[0]) + Against(a[1..], b)
  }

  lemma {:induction false} AgainstEmpty(a: seq<real>)
    ensures Against(a, []) == 0
  {
    if a == [] {
    } else {
      AgainstEmpty(a[1..]);
    }
  }

  lemma {:induction false} AgainstCons(a: seq<real>, b: seq<real>, x: real)
    ensures Against(b, [x] + a) + 2 * CountLess(b, x) + CountEqual(b, x) == Against(b, a) + 2 * |b|
  {
    if b == [] {
    } else {
      AgainstCons(a, b[1..], x);
      assert ([x] + a)[1..] == a;
    }
  }

  lemma GrowProduct(m: nat, n: nat)
    ensures 2 * (m + 1) * n == 2 * m * n + 2 * n
  {
  }

  lemma {:induction false} AgainstBothWays(a: seq<real>, b: seq<real>)
    ensures Against(a, b) + Against(b, a) == 2 * |a| * |b|
  {
    if a == [] {
      AgainstEmpty(b);
    } else {
      hide CountLess, CountEqual;
      AgainstBothWays(a[1..], b);
      assert a == [a[0]] + a[1..];
      AgainstCons(a[1..], b, a[0]);
      GrowProduct(|a[1..]|, |b|);
    }
  }

  lemma {:induction false} SumOfRanks(part: seq<real>, values: seq<real>, ranks: seq<real>)
    requires |ranks| == |part| && forall k | 0 <= k < |part| :: ranks[k] == MidRank(values, part[k])
    ensures 2.0 * Sum(ranks) == (Against(part, values) + |part|) as real
  {
    if part == [] {
    } else {
      SumOfRanks(part[1..], values, ranks[1..]);
    }
  }

  /** Ties never change the total: ranks of n values sum to n(n + 1) / 2. */
  lemma RanksSum(values: seq<real>)
    ensures 2.0 * Sum(MidRanks(values)) == (|values| * (|values| + 1)) as real
  {
    hide MidRank, Against;
    SumOfRanks(values, values, MidRanks(values));
    AgainstBothWays(values, values);
  }

  function Transform(values: seq<real>, f: real -> real): (r: seq<real>)
    ensures |r| == |values| && forall k | 0 <= k < |values| :: r[k] == f(values[k])
  {
    seq(|values|, k requires 0 <= k < |values| => f(values[k]))
  }

  ghost predicate StrictlyIncreasing(f: real -> real) {
    forall x, y | x < y :: f(x) < f(y)
  }

  lemma {:induction false} TransformedCounts(values: seq<real>, f: real -> real, v: real)
    requires StrictlyIncreasing(f)
    ensures CountLess(Transform(values, f), f(v)) == CountLess(values, v)
    ensures CountEqual(Transform(values, f), f(v)) == CountEqual(values, v)
  {
    if values == [] {
    } else {
      TransformedCounts(values[1..], f, v);
      assert Transform(values, f)[1..] == Transform(values[1..], f);
      Reflects(f, values[0], v);
    }
  }

  lemma Reflects(f: real -> real, x: real, v: real)
    requires StrictlyIncreasing(f)
    ensures f(x) < f(v) <==> x < v
    ensures f(x) == f(v) <==> x == v
  {
    if v < x { assert f(v) < f(x); }
  }

  /** Ranks depend only on the order of the values: any strictly increasing transform keeps them. */
  lemma RanksInvariant(values: seq<real>, f: real -> real)
    requires StrictlyIncreasing(f)
    ensures MidRanks(Transform(values, f)) == MidRanks(values)
  {
    forall k | 0 <= k < |values| ensures MidRanks(Transform(values, f))[k] == MidRanks(values)[k] {
      TransformedCounts(values, f, values[k]);
    }
  }

  ghost predicate StrictlyDecreasing(f: real -> real) {
    forall x, y | x < y :: f(x) > f(y)
  }

  lemma {:induction false} ReversedCounts(values: seq<real>, f: real -> real, v: real)
    requires StrictlyDecreasing(f)
    ensures CountLess(Transform(values, f), f(v)) + CountLess(values, v) + CountEqual(values, v) == |values|
    ensures CountEqual(Transform(values, f), f(v)) == CountEqual(values, v)
  {
    if values == [] {
    } else {
      ReversedCounts(values[1..], f, v);
      assert Transform(values, f)[1..] == Transform(values[1..], f);
      Inverts(f, values[0], v);
    }
  }

  lemma Inverts(f: real -> real, x: real, v: real)
    requires StrictlyDecreasing(f)
    ensures f(x) < f(v) <==> x > v
    ensures f(x) == f(v) <==> x == v
  {
    if x < v { assert f(x) > f(v); }
  }

  /** Reversing the order of the values reverses the ranks: r becomes n + 1 - r, ties or not. */
  lemma RanksReversed(values: seq<real>, f: real -> real)
    requires StrictlyDecreasing(f)
    ensures forall k | 0 <= k < |values| ::
      MidRanks(Transform(values, f))[k] == (|values| + 1) as real - MidRanks(values)[k]
  {
    forall k | 0 <= k < |values|
      ensures MidRanks(Transform(values, f))[k] == (|values| + 1) as real - MidRanks(values)[k]
    {
      ReversedCounts(values, f, values[k]);
    }
  }

  // ---- Correlation ----

  function Times(x: real, y: real): real {
    x * y
  }

  function Dot(a: seq<real>, b: seq<real>): real
    requires |a| == |b|
  {
    if a == [] then 0.0 else Times(a[0], b[0]) + Dot(a[1..], b[1..])
  }

  function Centred(s: seq<real>): (r: seq<real>)
    requires s != []
    ensures |r| == |s|
  {
    Shift(s, -(Sum(s) / |s| as real))
  }

  ghost predicate SquareRoot(sqrt: real -> real) {
    forall x | x >= 0.0 :: sqrt(x) >= 0.0 && sqrt(x) * sqrt(x) == x
  }

  /** The uncentred quotient: 0 when a norm vanishes. */
  function Quotient(a: seq<real>, b: seq<real>, sqrt: real -> real): real
    requires |a| == |b|
  {
    Ratio(Dot(a, b), sqrt(Dot(a, a)), sqrt(Dot(b, b)))
  }

  function Ratio(numerator: real, dx: real, dy: real): real {
    if dx == 0.0 || dy == 0.0 then 0.0
    else
      ProductNonZero(dx, dy);
      numerator / (dx * dy)
  }

  /** The correlation of two equally long lists, before rounding: 0 when either does not vary. */
  function Correlation(x: seq<real>, y: seq<real>, sqrt: real -> real): real
    requires |x| == |y| >= 2
  {
    Quotient(Centred(x), Centred(y), sqrt)
  }

  lemma ProductNonZero(x: real, y: real)
    requires x != 0.0 && y != 0.0
    ensures x * y != 0.0
  {
  }

  function NormalizeGoldLabel(gold: real): real {
    (gold - 1.0) / 4.0
  }

  function NormalizeAll(labels: seq<real>): (r: seq<real>)
    ensures |r| == |labels| && forall k | 0 <= k < |r| :: r[k] == NormalizeGoldLabel(labels[k])
  {
    seq(|labels|, k requires 0 <= k < |labels| => NormalizeGoldLabel(labels[k]))
  }

  /** `pearson_correlation`. */
  function Pearson(scores: seq<real>, labels: seq<real>, sqrt: real -> real): real {
    if |scores| != |labels| || |scores| < 2 then 0.0
    else Round6(Correlation(scores, NormalizeAll(labels), sqrt))
  }

  /** `spearman_correlation`. */
  method Spearman(scores: seq<real>, labels: seq<real>, sqrt: real -> real) returns (r: real)
    ensures r == Pearson(MidRanks(scores), MidRanks(labels), sqrt)
    ensures |scores| != |labels| || |scores| < 2 ==> r == 0.0
  {
    if |scores| != |labels| || |scores| < 2 {
      return 0.0;
    }
    var scoreRanks := Rank(scores);
    var labelRanks := Rank(labels);
    return Pearson(scoreRanks[..], labelRanks[..], sqrt);
  }

  // ---- Cauchy-Schwarz ----

  lemma SquareNonNegative(x: real)
    ensures x * x >= 0.0
  {
  }

  lemma {:induction false} DotNonNegative(a: seq<real>)
    ensures Dot(a, a) >= 0.0
  {
    if a == [] {
    } else {
      DotNonNegative(a[1..]);
      SquareNonNegative(a[0]);
    }
  }

  /** The square of x - t y, from the squares and the product of x and y. */
  function Square(xx: real, xy: real, yy: real, t: real): real {
    xx - 2.0 * t * xy + t * t * yy
  }

  lemma SquareOfDifference(x: real, y: real, t: real)
    ensures Square(Times(x, x), Times(x, y), Times(y, y), t) >= 0.0
  {
    SquareNonNegative(x - t * y);
    assert (x - t * y) * (x - t * y) == Square(x * x, x * y, y * y, t);
  }

  lemma AddSquares(p: real, q: real, r: real, u: real, v: real, w: real, t: real)
    ensures Square(p + u, q + v, r + w, t) == Square(p, q, r, t) + Square(u, v, w, t)
  {
  }

  lemma {:induction false} Quadratic(a: seq<real>, b: seq<real>, t: real)
    requires |a| == |b|
    ensures Square(Dot(a, a), Dot(a, b), Dot(b, b), t) >= 0.0
  {
    if a == [] {
    } else {
      hide Square, Times;
      Quadratic(a[1..], b[1..], t);
      SquareOfDifference(a[0], b[0], t);
      AddSquares(Times(a[0], a[0]), Times(a[0], b[0]), Times(b[0], b[0]),
        Dot(a[1..], a[1..]), Dot(a[1..], b[1..]), Dot(b[1..], b[1..]), t);
    }
  }

  lemma FlatQuadratic(xx: real, xy: real) returns (t: real)
    requires xy != 0.0
    ensures Square(xx, xy, 0.0, t) < 0.0
  {
    t := (xx + 1.0) / (2.0 * xy);
    assert t * (2.0 * xy) == xx + 1.0;
    FlatAt(xx, xy, t);
  }

  lemma FlatAt(xx: real, xy: real, t: real)
    requires t * (2.0 * xy) == xx + 1.0
    ensures Square(xx, xy, 0.0, t) == -1.0
  {
    assert 2.0 * t * xy == t * (2.0 * xy);
    assert t * t * 0.0 == 0.0;
  }

  lemma BestQuadratic(xx: real, xy: real, yy: real)
    requires yy > 0.0
    requires Square(xx, xy, yy, xy / yy) >= 0.0
    ensures xy * xy <= xx * yy
  {
    var t := xy / yy;
    assert t * yy == xy;
    assert t * t * yy == t * xy;
    assert xx - t * xy >= 0.0;
    ProductNonNegative(xx - t * xy, yy);
    assert (xx - t * xy) * yy == xx * yy - t * yy * xy;
  }

  /** The numerator of the correlation never exceeds its denominator. */
  lemma CauchySchwarz(a: seq<real>, b: seq<real>)
    requires |a| == |b|
    ensures Dot(a, b) * Dot(a, b) <= Dot(a, a) * Dot(b, b)
  {
    hide Dot, Square;
    var xx, xy, yy := Dot(a, a), Dot(a, b), Dot(b, b);
    DotNonNegative(b);
    if yy > 0.0 {
      Quadratic(a, b, xy / yy);
      BestQuadratic(xx, xy, yy);
    } else if xy != 0.0 {
      var t := FlatQuadratic(xx, xy);
      Quadratic(a, b, t);
      assert false;
    }
  }

  lemma SquaresGrow(r: real, s: real)
    requires 0.0 <= r < s
    ensures r * r < s * s
  {
    var d := s - r;
    ProductNonNegative(d, r);
    assert d * d > 0.0;
    assert s * s == r * r + 2.0 * (d * r) + d * d;
  }

  lemma SquaresCompare(n: real, p: real)
    requires p > 0.0 && n * n <= p * p
    ensures -1.0 <= n / p <= 1.0
  {
    if n > p { SquaresGrow(p, n); }
    if n < -p {
      SquaresGrow(p, -n);
      assert (-n) * (-n) == n * n;
    }
    DivideMonotone(n, p, p);
    DivideMonotone(-p, n, p);
  }

  lemma ProductOfRoots(dx: real, dy: real, xx: real, yy: real)
    requires dx * dx == xx && dy * dy == yy
    ensures (dx * dy) * (dx * dy) == xx * yy
  {
  }

  lemma CorrelationBounded(x: seq<real>, y: seq<real>, sqrt: real -> real)
    requires |x| == |y| >= 2 && SquareRoot(sqrt)
    ensures -1.0 <= Correlation(x, y, sqrt) <= 1.0
  {
    hide Dot, Centred;
    var a, b := Centred(x), Centred(y);
    DotNonNegative(a);
    DotNonNegative(b);
    CauchySchwarz(a, b);
    var dx, dy := sqrt(Dot(a, a)), sqrt(Dot(b, b));
    ProductOfRoots(dx, dy, Dot(a, a), Dot(b, b));
    ProductNonNegative(dx, dy);
    if dx * dy != 0.0 { SquaresCompare(Dot(a, b), dx * dy); }
  }

  /** Pearson, and with it Spearman, always lies between -1 and 1. */
  lemma PearsonBounded(scores: seq<real>, labels: seq<real>, sqrt: real -> real)
    requires SquareRoot(sqrt)
    ensures -1.0 <= Pearson(scores, labels, sqrt) <= 1.0
  {
    if |scores| == |labels| >= 2 {
      var r := Correlation(scores, NormalizeAll(labels), sqrt);
      CorrelationBounded(scores, NormalizeAll(labels), sqrt);
      RoundMonotone(-1.0, r);
      RoundMonotone(r, 1.0);
      RoundFixesGrid(1.0);
      RoundFixesGrid(-1.0);
    }
  }

  // ---- Affine invariance ----

  function Line(scale: real, offset: real, x: real): real {
    scale * x + offset
  }

  function Affine(s: seq<real>, scale: real, offset: real): (r: seq<real>)
    ensures |r| == |s| && forall k | 0 <= k < |s| :: r[k] == Line(scale, offset, s[k])
  {
    seq(|s|, k requires 0 <= k < |s| => Line(scale, offset, s[k]))
  }

  lemma AffineTail(s: seq<real>, scale: real, offset: real)
    requires s != []
    ensures Affine(s, scale, offset) == [Line(scale, offset, s[0])] + Affine(s[1..], scale, offset)
    ensures Affine(s, scale, offset)[1..] == Affine(s[1..], scale, offset)
  {
    hide Line;
  }

  lemma SumStep(scale: real, offset: real, x: real, rest: real, n: real)
    ensures Line(scale, offset, x) + (scale * rest + offset * n) == scale * (x + rest) + offset * (n + 1.0)
  {
  }

  lemma {:induction false} SumAffine(s: seq<real>, scale: real, offset: real)
    ensures Sum(Affine(s, scale, offset)) == scale * Sum(s) + offset * |s| as real
  {
    hide Line, Affine;
    if s == [] {
    } else {
      SumAffine(s[1..], scale, offset);
      AffineTail(s, scale, offset);
      SumStep(scale, offset, s[0], Sum(s[1..]), |s[1..]| as real);
    }
  }

  lemma AffineMean(sum: real, n: real, scale: real, offset: real)
    requires n > 0.0
    ensures (scale * sum + offset * n) / n == Line(scale, offset, sum / n)
  {
    assert scale * sum == scale * (sum / n) * n;
  }

  lemma LineDifference(scale: real, offset: real, x: real, mean: real)
    ensures Line(scale, offset, x) - Line(scale, offset, mean) == Line(scale, 0.0, x - mean)
  {
  }

  lemma CentredAffine(s: seq<real>, scale: real, offset: real)
    requires s != []
    ensures Centred(Affine(s, scale, offset)) == Affine(Centred(s), scale, 0.0)
  {
    hide Line, Affine, Sum, Shift;
    SumAffine(s, scale, offset);
    var mean := Sum(s) / |s| as real;
    AffineMean(Sum(s), |s| as real, scale, offset);
    forall k | 0 <= k < |s| ensures Centred(Affine(s, scale, offset))[k] == Affine(Centred(s), scale, 0.0)[k] {
      LineDifference(scale, offset, s[k], mean);
    }
  }

  lemma DotStep(a: real, b: real, scale: real, ab: real, bb: real)
    ensures Times(a, Line(scale, 0.0, b)) + Line(scale, 0.0, ab) == Line(scale, 0.0, Times(a, b) + ab)
    ensures Times(Line(scale, 0.0, b), Line(scale, 0.0, b)) + Line(scale, 0.0, Line(scale, 0.0, bb))
      == Line(scale, 0.0, Line(scale, 0.0, Times(b, b) + bb))
  {
    assert a * (scale * b) == scale * (a * b);
    assert (scale * b) * (scale * b) == scale * (scale * (b * b));
  }

  lemma DotUnfold(a: seq<real>, b: seq<real>, x: real, y: real)
    requires |a| == |b|
    ensures Dot([x] + a, [y] + b) == Times(x, y) + Dot(a, b)
  {
    hide Times;
    assert ([x] + a)[1..] == a && ([y] + b)[1..] == b;
  }

  lemma {:induction false} DotScaled(a: seq<real>, b: seq<real>, scale: real)
    requires |a| == |b|
    ensures Dot(a, Affine(b, scale, 0.0)) == Line(scale, 0.0, Dot(a, b))
    ensures Dot(Affine(b, scale, 0.0), Affine(b, scale, 0.0)) == Line(scale, 0.0, Line(scale, 0.0, Dot(b, b)))
  {
    if a == [] {
      assert Affine(b, scale, 0.0) == [];
    } else {
      hide *;
      var x, y, xs, ys := a[0], b[0], a[1..], b[1..];
      DotScaled(xs, ys, scale);
      AffineTail(b, scale, 0.0);
      assert a == [x] + xs && b == [y] + ys;
      DotUnfold(xs, Affine(ys, scale, 0.0), x, Line(scale, 0.0, y));
      DotUnfold(Affine(ys, scale, 0.0), Affine(ys, scale, 0.0), Line(scale, 0.0, y), Line(scale, 0.0, y));
      DotUnfold(xs, ys, x, y);
      DotUnfold(ys, ys, y, y);
      DotStep(x, y, scale, Dot(xs, ys), Dot(ys, ys));
    }
  }

  lemma RootUnique(r: real, s: real)
    requires r >= 0.0 && s >= 0.0 && r * r == s * s
    ensures r == s
  {
    if r < s { SquaresGrow(r, s); }
    if s < r { SquaresGrow(s, r); }
  }

  lemma ScaledRoot(sqrt: real -> real, x: real, y: real, scale: real)
    requires SquareRoot(sqrt) && x >= 0.0 && scale > 0.0 && y == scale * scale * x
    ensures sqrt(y) == scale * sqrt(x)
  {
    ProductNonNegative(scale, scale);
    ProductNonNegative(scale * scale, x);
    ProductNonNegative(scale, sqrt(x));
    assert (scale * sqrt(x)) * (scale * sqrt(x)) == scale * scale * (sqrt(x) * sqrt(x));
    RootUnique(sqrt(y), scale * sqrt(x));
  }

  lemma CancelScale(n: real, dx: real, dy: real, scale: real)
    requires scale > 0.0 && dx != 0.0 && dy != 0.0
    ensures dx * dy != 0.0 && dx * (scale * dy) != 0.0
    ensures (scale * n) / (dx * (scale * dy)) == n / (dx * dy)
  {
    var q := n / (dx * dy);
    assert q * (dx * dy) == n;
    assert dx * (scale * dy) == scale * (dx * dy);
    assert q * (scale * (dx * dy)) == scale * n;
  }

  /** Correlation ignores the unit and the origin of its second list. */
  lemma AffineInvariant(x: seq<real>, y: seq<real>, sqrt: real -> real, scale: real, offset: real)
    requires |x| == |y| >= 2 && SquareRoot(sqrt) && scale > 0.0
    ensures Correlation(x, Affine(y, scale, offset), sqrt) == Correlation(x, y, sqrt)
  {
    hide Dot, Centred, Affine, SquareRoot;
    CentredAffine(y, scale, offset);
    QuotientScaled(Centred(x), Centred(y), sqrt, scale);
  }

  lemma RatioScaled(n: real, dx: real, dy: real, scale: real, scaled: real, ey: real)
    requires scale > 0.0 && scaled == scale * n && ey == scale * dy
    ensures Ratio(scaled, dx, ey) == Ratio(n, dx, dy)
  {
    if dx != 0.0 && dy != 0.0 { CancelScale(n, dx, dy, scale); }
  }

  lemma QuotientScaled(a: seq<real>, b: seq<real>, sqrt: real -> real, scale: real)
    requires |a| == |b| && SquareRoot(sqrt) && scale > 0.0
    ensures Quotient(a, Affine(b, scale, 0.0), sqrt) == Quotient(a, b, sqrt)
  {
    hide Dot, Affine, SquareRoot, Ratio;
    var moved := Affine(b, scale, 0.0);
    DotScaled(a, b, scale);
    DotNonNegative(b);
    ScaledRoot(sqrt, Dot(b, b), Dot(moved, moved), scale);
    RatioScaled(Dot(a, b), sqrt(Dot(a, a)), sqrt(Dot(b, b)), scale, Dot(a, moved), sqrt(Dot(moved, moved)));
  }

  /** Spearman is the plain rounded correlation of the two rank lists, although the second passes
      through the gold-label normaliser. */
  lemma SpearmanIsRankCorrelation(scores: seq<real>, labels: seq<real>, sqrt: real -> real)
    requires |scores| == |labels| >= 2 && SquareRoot(sqrt)
    ensures Pearson(MidRanks(scores), MidRanks(labels), sqrt)
      == Round6(Correlation(MidRanks(scores), MidRanks(labels), sqrt))
  {
    var ranks := MidRanks(labels);
    hide MidRank, Correlation;
    assert NormalizeAll(ranks) == Affine(ranks, 0.25, -0.25);
    AffineInvariant(MidRanks(scores), ranks, sqrt, 0.25, -0.25);
  }

  // ---- Sign and size ----

  /** The sum of the products of deviations from two centres. */
  function CoSum(x: seq<real>, y: seq<real>, p: real, q: real): real
    requires |x| == |y|
  {
    if x == [] then 0.0 else (x[0] - p) * (y[0] - q) + CoSum(x[1..], y[1..], p, q)
  }

  lemma {:induction false} CoSumIsDot(x: seq<real>, y: seq<real>, p: real, q: real)
    requires |x| == |y|
    ensures CoSum(x, y, p, q) == Dot(Shift(x, -p), Shift(y, -q))
  {
    if x == [] {
    } else {
      CoSumIsDot(x[1..], y[1..], p, q);
      assert Shift(x, -p)[1..] == Shift(x[1..], -p) && Shift(y, -q)[1..] == Shift(y[1..], -q);
    }
  }

  lemma CentreIsMean(s: seq<real>, mean: real)
    requires s != [] && mean * |s| as real == Sum(s)
    ensures Centred(s) == Shift(s, -mean)
  {
    hide Sum, Shift;
    QuotientIs(Sum(s), |s| as real, mean);
  }

  lemma QuotientIs(total: real, n: real, mean: real)
    requires n > 0.0 && mean * n == total
    ensures total / n == mean
  {
  }

  lemma RatioTimes(n: real, dx: real, dy: real)
    requires dx == 0.0 || dy == 0.0 ==> n == 0.0
    ensures Ratio(n, dx, dy) * dx * dy == n
  {
    if dx != 0.0 && dy != 0.0 {
      ProductNonZero(dx, dy);
      assert Ratio(n, dx, dy) * (dx * dy) == n;
    }
  }

  lemma VanishingNorm(a: seq<real>, b: seq<real>)
    requires |a| == |b| && (Dot(a, a) == 0.0 || Dot(b, b) == 0.0)
    ensures Dot(a, b) == 0.0
  {
    hide Dot;
    CauchySchwarz(a, b);
    SquareNonNegative(Dot(a, b));
    if Dot(a, b) > 0.0 { SquaresGrow(0.0, Dot(a, b)); }
    if Dot(a, b) < 0.0 { SquaresGrow(0.0, -Dot(a, b)); }
  }

  lemma QuotientTimes(a: seq<real>, b: seq<real>, sqrt: real -> real, r: real, t: real)
    requires |a| == |b| && SquareRoot(sqrt)
    requires r >= 0.0 && t >= 0.0 && r * r == Dot(a, a) && t * t == Dot(b, b)
    ensures Quotient(a, b, sqrt) * r * t == Dot(a, b)
  {
    DotNonNegative(a);
    DotNonNegative(b);
    hide Dot, Ratio;
    RootUnique(r, sqrt(Dot(a, a)));
    RootUnique(t, sqrt(Dot(b, b)));
    if r == 0.0 || t == 0.0 { VanishingNorm(a, b); }
    RatioTimes(Dot(a, b), r, t);
  }

  /** The correlation times the roots of the two sums of squared deviations from the means is the sum of the
      products of deviations. */
  lemma CorrelationExactly(x: seq<real>, y: seq<real>, sqrt: real -> real, p: real, q: real, r: real, t: real)
    requires |x| == |y| >= 2 && SquareRoot(sqrt)
    requires p * |x| as real == Sum(x) && q * |y| as real == Sum(y)
    requires r >= 0.0 && t >= 0.0 && r * r == CoSum(x, x, p, p) && t * t == CoSum(y, y, q, q)
    ensures Correlation(x, y, sqrt) * r * t == CoSum(x, y, p, q)
  {
    hide Dot, Centred, CoSum, Quotient, Shift;
    CentreIsMean(x, p);
    CentreIsMean(y, q);
    CoSumIsDot(x, x, p, p);
    CoSumIsDot(y, y, q, q);
    CoSumIsDot(x, y, p, q);
    QuotientTimes(Centred(x), Centred(y), sqrt, r, t);
  }

  lemma RatioNegated(n: real, dx: real, dy: real)
    ensures Ratio(-n, dx, dy) == -Ratio(n, dx, dy)
  {
  }

  lemma QuotientNegated(a: seq<real>, b: seq<real>, sqrt: real -> real)
    requires |a| == |b|
    ensures Quotient(a, Affine(b, -1.0, 0.0), sqrt) == -Quotient(a, b, sqrt)
  {
    hide Dot, Affine, Ratio;
    DotScaled(a, b, -1.0);
    RatioNegated(Dot(a, b), sqrt(Dot(a, a)), sqrt(Dot(b, b)));
  }

  /** Mirroring the second list negates the correlation. */
  lemma MirrorNegates(x: seq<real>, y: seq<real>, sqrt: real -> real, offset: real)
    requires |x| == |y| >= 2
    ensures Correlation(x, Affine(y, -1.0, offset), sqrt) == -Correlation(x, y, sqrt)
  {
    hide Dot, Centred, Affine, Quotient;
    CentredAffine(y, -1.0, offset);
    QuotientNegated(Centred(x), Centred(y), sqrt);
  }

  lemma ExactRatio(n: real, dx: real, dy: real)
    requires n == dx * dy
    ensures Ratio(n, dx, dy) == if dx == 0.0 || dy == 0.0 then 0.0 else 1.0
  {
  }

  predicate Varies(s: seq<real>) {
    exists j, k | 0 <= j < |s| && 0 <= k < |s| :: s[j] != s[k]
  }

  lemma {:induction false} SquaresVanish(a: seq<real>)
    ensures Dot(a, a) == 0.0 <==> Constant(a, 0.0)
  {
    if a == [] {
    } else {
      SquaresVanish(a[1..]);
      DotNonNegative(a[1..]);
      SquareVanishes(a[0]);
      hide Times;
      assert Constant(a, 0.0) <==> a[0] == 0.0 && Constant(a[1..], 0.0);
    }
  }

  lemma SquareVanishes(x: real)
    ensures Times(x, x) >= 0.0 && (Times(x, x) == 0.0 <==> x == 0.0)
  {
    if x > 0.0 { SquaresGrow(0.0, x); }
    if x < 0.0 {
      SquaresGrow(0.0, -x);
      assert (-x) * (-x) == x * x;
    }
  }

  /** A list has deviations from its mean exactly when two of its values differ. */
  lemma DeviationsVanish(s: seq<real>)
    requires s != []
    ensures Constant(Centred(s), 0.0) <==> !Varies(s)
  {
    var mean := Sum(s) / |s| as real;
    if Varies(s) {
      var j, k :| 0 <= j < |s| && 0 <= k < |s| && s[j] != s[k];
      assert Centred(s)[j] != Centred(s)[k];
    } else {
      SumConstant(s, s[0]);
      QuotientIs(Sum(s), |s| as real, s[0]);
      hide Sum;
      assert forall k | 0 <= k < |s| :: s[k] == s[0] == mean;
    }
  }

  /** A list correlates with itself at 1, or at 0 when nothing varies. */
  lemma SelfCorrelation(s: seq<real>, sqrt: real -> real)
    requires |s| >= 2 && SquareRoot(sqrt)
    ensures Correlation(s, s, sqrt) == if Varies(s) then 1.0 else 0.0
  {
    var a := Centred(s);
    DeviationsVanish(s);
    SquaresVanish(a);
    DotNonNegative(a);
    hide Dot, Centred, Ratio, Constant, Varies;
    var d := sqrt(Dot(a, a));
    ExactRatio(Dot(a, a), d, d);
    RootVanishes(Dot(a, a), d);
  }

  lemma RootVanishes(x: real, d: real)
    requires d * d == x
    ensures d == 0.0 <==> x == 0.0
  {
    SquareVanishes(d);
  }

  lemma RanksVary(values: seq<real>)
    ensures Varies(MidRanks(values)) <==> Varies(values)
  {
    hide MidRanks;
    forall j, k | 0 <= j < |values| && 0 <= k < |values|
      ensures MidRanks(values)[j] == MidRanks(values)[k] <==> values[j] == values[k]
    {
      RanksKeepOrder(values, j, k);
    }
  }

  lemma WholeRounds()
    ensures Round6(1.0) == 1.0 && Round6(0.0) == 0.0 && Round6(-1.0) == -1.0
  {
    RoundFixesGrid(1.0);
    RoundFixesGrid(0.0);
    RoundFixesGrid(-1.0);
  }

  /** Labels that grow strictly with the scores give Spearman 1 exactly when two scores differ, else 0. */
  lemma MonotoneLabelsCorrelate(scores: seq<real>, f: real -> real, sqrt: real -> real)
    requires |scores| >= 2 && SquareRoot(sqrt) && StrictlyIncreasing(f)
    ensures Pearson(MidRanks(scores), MidRanks(Transform(scores, f)), sqrt) == if Varies(scores) then 1.0 else 0.0
  {
    hide MidRanks, Transform, Correlation, Round6, Varies, Pearson;
    var labels := Transform(scores, f);
    RanksInvariant(scores, f);
    SpearmanIsRankCorrelation(scores, labels, sqrt);
    SelfCorrelation(MidRanks(scores), sqrt);
    RanksVary(scores);
    WholeRounds();
  }

  /** Labels that fall strictly as the scores grow give Spearman -1 exactly when two scores differ, else 0. */
  lemma FallingLabelsCorrelate(scores: seq<real>, f: real -> real, sqrt: real -> real)
    requires |scores| >= 2 && SquareRoot(sqrt) && StrictlyDecreasing(f)
    ensures Pearson(MidRanks(scores), MidRanks(Transform(scores, f)), sqrt) == if Varies(scores) then -1.0 else 0.0
  {
    hide MidRank, Correlation, Round6, Varies, Pearson;
    var ranks, labels := MidRanks(scores), Transform(scores, f);
    RanksReversed(scores, f);
    assert MidRanks(labels) == Affine(ranks, -1.0, (|scores| + 1) as real);
    SpearmanIsRankCorrelation(scores, labels, sqrt);
    MirrorNegates(ranks, ranks, sqrt, (|scores| + 1) as real);
    SelfCorrelation(ranks, sqrt);
    RanksVary(scores);
    WholeRounds();
  }
}
