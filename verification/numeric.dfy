/** Real arithmetic shared by both engines: clamping, squared distance and the square root. */
module Numeric {

  /** Python's `max(lo, min(hi, x))`. */
  function Clamp(lo: real, hi: real, x: real): (r: real)
    ensures lo <= hi ==> lo <= r <= hi
    ensures lo <= x <= hi ==> r == x
    ensures x < lo ==> r == lo
    ensures lo <= hi < x ==> r == hi
  {
    var m := if hi < x then hi else x;
    if lo > m then lo else m
  }

  /** Clamping never reverses the order of two inputs. */
  lemma ClampMonotone(lo: real, hi: real, x: real, y: real)
    requires lo <= hi
    requires x <= y
    ensures Clamp(lo, hi, x) <= Clamp(lo, hi, y)
  {
  }

  /** Python's `x ** 2`. */
  function Square(x: real): real {
    x * x
  }

  lemma MulPositive(x: real, y: real)
    requires x > 0.0 && y > 0.0
    ensures x * y > 0.0
  {
  }

  /** Dividing by a positive number keeps the order. */
  lemma DivMonotone(a: real, b: real, m: real)
    requires m > 0.0
    requires a <= b
    ensures a / m <= b / m
  {
    var qa, qb := a / m, b / m;
    assert qa * m == a && qb * m == b;
    if qb < qa {
      MulPositive(qa - qb, m);
    }
  }

  /** A quotient is below one exactly when the numerator is below the positive denominator. */
  lemma DivBelowOne(d: real, m: real)
    requires m > 0.0
    ensures d / m < 1.0 <==> d < m
  {
    var q := d / m;
    assert q * m == d;
    if q < 1.0 {
      MulPositive(1.0 - q, m);
    } else if q > 1.0 {
      MulPositive(q - 1.0, m);
    }
  }

  /** Adding one more value within [lo, hi] to a sum of `m` such values gives a sum of `n = m + 1`. */
  lemma SumStepBounds(m: real, n: real, sum: real, x: real, lo: real, hi: real)
    requires n == m + 1.0
    requires m * lo <= sum <= m * hi
    requires lo <= x <= hi
    ensures n * lo <= sum + x <= n * hi
  {
    assert n * lo == m * lo + lo && n * hi == m * hi + hi;
  }

  /** A mean lies between the bounds of the values summed. */
  lemma MeanBounds(sum: real, n: real, lo: real, hi: real)
    requires n > 0.0
    requires n * lo <= sum <= n * hi
    ensures lo <= sum / n <= hi
  {
    var q := sum / n;
    assert q * n == sum;
    if q < lo {
      MulPositive(lo - q, n);
    }
    if q > hi {
      MulPositive(q - hi, n);
    }
  }

  /** Scaling by a non-negative factor keeps the order. */
  lemma ScaleMonotone(x: real, y: real, w: real)
    requires x <= y
    requires w >= 0.0
    ensures x * w <= y * w
  {
    if x < y && w > 0.0 {
      MulPositive(y - x, w);
    }
  }

  /** Dividing a non-negative number by more gives less. */
  lemma DivByMore(sum: real, a: real, b: real)
    requires sum >= 0.0
    requires 0.0 < a <= b
    ensures sum / b <= sum / a
  {
    var qa, qb := sum / a, sum / b;
    assert qa * a == sum && qb * b == sum;
    if qb > qa {
      MulPositive(qb - qa, b);
      ScaleMonotone(a, b, qa);
    }
  }

  /** Squaring is strictly increasing on the non-negative reals. */
  lemma SquareStrict(a: real, b: real)
    requires 0.0 <= a < b
    ensures Square(a) < Square(b)
  {
    MulPositive(b - a, b + a);
    assert (b - a) * (b + a) == b * b - a * a;
  }

  /** A square is zero only at zero, and positive everywhere else. */
  lemma SquarePositive(d: real)
    ensures Square(d) >= 0.0
    ensures d != 0.0 ==> Square(d) > 0.0
  {
    if d > 0.0 {
      SquareStrict(0.0, d);
    } else if d < 0.0 {
      SquareStrict(0.0, -d);
    }
  }

  /** The sum of squared componentwise differences, the square of the Euclidean distance. */
  function SumSq(u: seq<real>, c: seq<real>): (r: real)
    requires |u| == |c|
    ensures r >= 0.0
  {
    if |u| == 0 then 0.0
    else
      SquarePositive(u[0] - c[0]);
      Square(u[0] - c[0]) + SumSq(u[1..], c[1..])
  }

  lemma {:induction false} SumSqSymmetric(u: seq<real>, c: seq<real>)
    requires |u| == |c|
    ensures SumSq(u, c) == SumSq(c, u)
  {
    if |u| > 0 {
      SumSqSymmetric(u[1..], c[1..]);
      assert Square(u[0] - c[0]) == Square(c[0] - u[0]);
    }
  }

  /** The squared distance is zero exactly when the two vectors are equal. */
  lemma {:induction false} SumSqZeroIff(u: seq<real>, c: seq<real>)
    requires |u| == |c|
    ensures SumSq(u, c) == 0.0 <==> u == c
  {
    if |u| > 0 {
      SumSqZeroIff(u[1..], c[1..]);
      SquarePositive(u[0] - c[0]);
      if SumSq(u, c) == 0.0 {
        assert u == [u[0]] + u[1..] && c == [c[0]] + c[1..];
      }
      if u == c {
        assert u[1..] == c[1..];
      }
    }
  }

  /** A constant vector of length `n`. */
  function Repeat(x: real, n: nat): (r: seq<real>)
    ensures |r| == n
    ensures forall i :: 0 <= i < n ==> r[i] == x
  {
    if n == 0 then [] else [x] + Repeat(x, n - 1)
  }

  lemma {:induction false} SumSqRepeat(a: real, b: real, n: nat)
    ensures SumSq(Repeat(a, n), Repeat(b, n)) == (n as real) * Square(a - b)
  {
    if n > 0 {
      SumSqRepeat(a, b, n - 1);
      assert Repeat(a, n)[1..] == Repeat(a, n - 1);
      assert Repeat(b, n)[1..] == Repeat(b, n - 1);
    }
  }

  /** The `5 * 4 ** 2` under the hard-coded maximum distance, whatever the vectors' length. */
  const MaxDistanceSquared: real := 5.0 * Square(4.0)

  /** `sqrt` is the square root on the non-negative reals (numpy's `sqrt` in `calculate_match_score` and `calculate_personality_similarity`). */
  ghost predicate IsSqrt(sqrt: real -> real) {
    forall x: real :: x >= 0.0 ==> sqrt(x) >= 0.0 && Square(sqrt(x)) == x
  }

  lemma SqrtZero(sqrt: real -> real)
    requires IsSqrt(sqrt)
    ensures sqrt(0.0) == 0.0
  {
    SquarePositive(sqrt(0.0));
  }

  lemma SqrtPositive(sqrt: real -> real, x: real)
    requires IsSqrt(sqrt)
    requires x > 0.0
    ensures sqrt(x) > 0.0
  {
    assert Square(sqrt(x)) == x;
  }

  lemma SqrtMonotone(sqrt: real -> real, x: real, y: real)
    requires IsSqrt(sqrt)
    requires 0.0 <= x <= y
    ensures sqrt(x) <= sqrt(y)
  {
    var a, b := sqrt(x), sqrt(y);
    assert a >= 0.0 && b >= 0.0 && Square(a) == x && Square(b) == y;
    if b < a {
      SquareStrict(b, a);
    }
  }

  lemma SqrtStrict(sqrt: real -> real, x: real, y: real)
    requires IsSqrt(sqrt)
    requires 0.0 <= x < y
    ensures sqrt(x) < sqrt(y)
  {
    var a, b := sqrt(x), sqrt(y);
    assert a >= 0.0 && b >= 0.0 && Square(a) == x && Square(b) == y;
    if b < a {
      SquareStrict(b, a);
    }
  }
}
