/** `round(x, 6)`: to the nearest multiple of one millionth, ties to even, in exact arithmetic. */
module Rounding {

  const MILLION := 1000000.0

  function RoundWhole(y: real): int {
    var rest := y - y.Floor as real;
    if rest < 0.5 then y.Floor
    else if rest > 0.5 then y.Floor + 1
    else if y.Floor % 2 == 0 then y.Floor
    else y.Floor + 1
  }

  function Round6(x: real): real {
    RoundWhole(x * MILLION) as real / MILLION
  }

  predicate OnGrid(x: real) {
    (x * MILLION).Floor as real == x * MILLION
  }

  lemma WholeMonotone(x: real, y: real)
    requires x <= y
    ensures RoundWhole(x) <= RoundWhole(y)
  {
    assert x.Floor <= y.Floor;
  }

  lemma WholeOdd(y: real)
    ensures RoundWhole(-y) == -RoundWhole(y)
  {
    var f := y.Floor;
    if y == f as real {
      assert (-y).Floor == -f;
    } else {
      assert (-y).Floor == -f - 1;
    }
  }

  lemma WholeNear(y: real)
    ensures y - 0.5 <= RoundWhole(y) as real <= y + 0.5
  {
  }

  lemma RoundMonotone(x: real, y: real)
    requires x <= y
    ensures Round6(x) <= Round6(y)
  {
    WholeMonotone(x * MILLION, y * MILLION);
  }

  lemma RoundOdd(x: real)
    ensures Round6(-x) == -Round6(x)
  {
    WholeOdd(x * MILLION);
    assert -x * MILLION == -(x * MILLION);
  }

  lemma RoundNear(x: real)
    ensures x - 0.0000005 <= Round6(x) <= x + 0.0000005
  {
    WholeNear(x * MILLION);
  }

  /** Half-way values go to the even multiple; with nearness and the grid this settles every value. */
  lemma RoundTiesToEven(n: int)
    ensures Round6((n as real + 0.5) / MILLION) == (if n % 2 == 0 then n else n + 1) as real / MILLION
  {
    assert (n as real + 0.5) / MILLION * MILLION == n as real + 0.5;
    assert (n as real + 0.5).Floor == n;
  }

  /** Rounding fixes exactly the multiples of one millionth. */
  lemma RoundFixesGrid(x: real)
    ensures Round6(x) == x <==> OnGrid(x)
  {
  }

  /** Rounded values are multiples of one millionth. */
  lemma RoundedOnGrid(x: real)
    ensures OnGrid(Round6(x))
  {
    assert Round6(x) * MILLION == RoundWhole(x * MILLION) as real;
  }
}
