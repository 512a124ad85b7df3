/** Sums, means and Python's `round(x, 2)` over exact reals. */
module Stats {

  function Sum(s: seq<real>): real
  {
    if s == [] then 0.0 else s[0] + Sum(s[1..])
  }

  /** The arithmetic mean, as pandas' `Series.mean` computes it for a non-empty column. */
  function Mean(s: seq<real>): real
    requires |s| > 0
  {
    Sum(s) / (|s| as real)
  }

  lemma {:induction false} SumBounds(s: seq<real>, lo: real, hi: real)
    requires forall i :: 0 <= i < |s| ==> lo <= s[i] <= hi
    ensures (|s| as real) * lo <= Sum(s) <= (|s| as real) * hi
  {
    if s != [] {
      SumBounds(s[1..], lo, hi);
    }
  }

  /** A mean lies between any lower and upper bound of its values. */
  lemma MeanBounds(s: seq<real>, lo: real, hi: real)
    requires |s| > 0
    requires forall i :: 0 <= i < |s| ==> lo <= s[i] <= hi
    ensures lo <= Mean(s) <= hi
  {
    SumBounds(s, lo, hi);
    var n := |s| as real;
    assert Mean(s) * n == Sum(s);
  }

  function Abs(x: real): real { if x < 0.0 then -x else x }

  /** The integer nearest to `y`, ties going to the even one (Python's rounding rule). */
  function RoundHalfEven(y: real): (m: int)
    ensures Abs(m as real - y) <= 0.5
  {
    var n := y.Floor;
    var f := y - n as real;
    if f > 0.5 then n + 1 else if f < 0.5 then n else if n % 2 == 0 then n else n + 1
  }

  /** `round(x, 2)`: `x` rounded to a whole number of hundredths. */
  function Round2(x: real): (r: real)
    ensures Abs(r - x) <= 0.005
    ensures (r * 100.0).Floor as real == r * 100.0
  {
    var m := RoundHalfEven(x * 100.0);
    assert (m as real / 100.0) * 100.0 == m as real;
    assert m as real / 100.0 - x == (m as real - x * 100.0) / 100.0;
    m as real / 100.0
  }

  /** No whole number of hundredths is nearer to `x` than `Round2(x)`. */
  lemma Round2Nearest(x: real, k: int)
    ensures Abs(Round2(x) * 100.0 - x * 100.0) <= Abs(k as real - x * 100.0)
  {
    var y := x * 100.0;
    var n := y.Floor;
    var m := RoundHalfEven(y);
    assert Round2(x) * 100.0 == m as real;
    if k <= n {
      assert y - k as real >= y - n as real;
    } else {
      assert k as real - y >= (n + 1) as real - y;
    }
  }

  /** On an exact tie `Round2(x)` is the even number of hundredths next to `x`. */
  lemma Round2TieEven(x: real)
    requires x * 100.0 - (x * 100.0).Floor as real == 0.5
    ensures Round2(x) == RoundHalfEven(x * 100.0) as real / 100.0
    ensures RoundHalfEven(x * 100.0) % 2 == 0
  {
  }

  /** A value that already is a whole number of hundredths is unchanged. */
  lemma Round2Exact(k: int)
    ensures Round2(k as real / 100.0) == k as real / 100.0
  {
    assert (k as real / 100.0) * 100.0 == k as real;
    assert (k as real).Floor == k;
  }

  /** Bounds that are whole numbers of hundredths survive rounding. */
  lemma Round2Within(x: real, lo: int, hi: int)
    requires lo as real <= x * 100.0 <= hi as real
    ensures lo as real <= Round2(x) * 100.0 <= hi as real
  {
    var y := x * 100.0;
    var n := y.Floor;
    var m := RoundHalfEven(y);
    assert Round2(x) * 100.0 == m as real;
    assert lo <= n <= hi;
    if n == hi {
      assert y == n as real;
    }
  }
}
