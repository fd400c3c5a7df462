/** Integer arithmetic as C# performs it on `int`. */
module Arith {

  const MinInt32: int := -0x8000_0000
  const MaxInt32: int := 0x7FFF_FFFF

  /** The values of a C# `int`. */
  type Int32 = x: int | MinInt32 <= x <= MaxInt32

  function Abs(a: int): nat {
    if a < 0 then -a else a
  }

  /** `q` is the quotient of `a` by `b` truncated toward zero: the remainder
      `a - q * b` is smaller than `b` in magnitude and has the sign of `a`. */
  ghost predicate IsTruncQuotient(a: int, b: int, q: int) {
    && Abs(a - q * b) < Abs(b)
    && (a >= 0 ==> a - q * b >= 0)
    && (a <= 0 ==> a - q * b <= 0)
  }

  /** C#'s `/` on `int`, which truncates toward zero (Dafny's `/` is Euclidean). */
  function TDiv(a: int, b: int): (q: int)
    requires b != 0
    ensures IsTruncQuotient(a, b, q)
  {
    if a >= 0 && b > 0 then PosPos(a, b); a / b
    else if a < 0 && b < 0 then NegNeg(a, b); (-a) / (-b)
    else if a >= 0 then PosNeg(a, b); -(a / (-b))
    else NegPos(a, b); -((-a) / b)
  }

  /** A quotient whose remainder is small and has the dividend's sign truncates. */
  lemma FromRemainder(a: int, b: int, q: int, r: int)
    requires a - q * b == r && Abs(r) < Abs(b)
    requires a >= 0 ==> r >= 0
    requires a <= 0 ==> r <= 0
    ensures IsTruncQuotient(a, b, q)
  {
  }

  /** Euclidean division of naturals: quotient times divisor plus remainder. */
  lemma Euclid(x: nat, y: nat)
    requires y > 0
    ensures x == (x / y) * y + x % y && 0 <= x % y < y
  {
  }

  lemma MulNeg(x: int, y: int)
    ensures (-x) * y == -(x * y) && x * (-y) == -(x * y) && (-x) * (-y) == x * y
  {
  }

  lemma PosPos(a: nat, b: nat)
    requires b > 0
    ensures IsTruncQuotient(a, b, a / b)
  {
    Euclid(a, b);
    FromRemainder(a, b, a / b, a % b);
  }

  lemma NegNeg(a: int, b: int)
    requires a < 0 && b < 0
    ensures IsTruncQuotient(a, b, (-a) / (-b))
  {
    var m := (-a) / (-b);
    Euclid(-a, -b);
    MulNeg(m, b);
    FromRemainder(a, b, m, -((-a) % (-b)));
  }

  lemma PosNeg(a: int, b: int)
    requires a >= 0 && b < 0
    ensures IsTruncQuotient(a, b, -(a / (-b)))
  {
    var m := a / (-b);
    Euclid(a, -b);
    MulNeg(m, b);
    FromRemainder(a, b, -m, a % (-b));
  }

  lemma NegPos(a: int, b: int)
    requires a < 0 && b > 0
    ensures IsTruncQuotient(a, b, -((-a) / b))
  {
    var m := (-a) / b;
    Euclid(-a, b);
    MulNeg(m, b);
    FromRemainder(a, b, -m, -((-a) % b));
  }

  /** On a non-negative dividend and a positive divisor C# and Dafny agree. */
  lemma TDivNonNegative(a: int, b: int)
    requires a >= 0 && b > 0
    ensures TDiv(a, b) == a / b
  {
  }

  /** `n / d` rounded up for a positive `d`, and 0 when `n` is not positive:
      the number of values `0, d, 2d, ...` below `n`. */
  function CeilDiv(n: int, d: int): (k: nat)
    requires d > 0
    ensures n <= 0 ==> k == 0
    ensures n > 0 ==> (k - 1) * d < n <= k * d
  {
    if n <= 0 then 0 else (n + d - 1) / d
  }

  /** Adding the divisor once adds one to a Euclidean quotient. */
  lemma DivAddDivisor(x: int, d: int)
    requires x >= 0 && d > 0
    ensures (x + d) / d == x / d + 1
  {
    var q := x / d;
    var r := x % d;
    assert x + d == (q + 1) * d + r;
    DivUnique(x + d, d, q + 1, r);
  }

  /** Euclidean division has one quotient for each remainder in range. */
  lemma DivUnique(n: int, d: int, q: int, r: int)
    requires d > 0 && 0 <= r < d && n == q * d + r
    ensures n / d == q && n % d == r
  {
    var q' := n / d;
    var r' := n % d;
    var t := q' - q;
    assert t * d == q' * d - q * d;
    assert t * d == r - r';
    SmallMultipleIsZero(t, d);
  }

  /** The only multiple of `d` strictly between `-d` and `d` is zero. */
  lemma SmallMultipleIsZero(t: int, d: int)
    requires d > 0 && -d < t * d < d
    ensures t == 0
  {
    if t > 0 {
      MulMonotonic(1, t, d);
    } else if t < 0 {
      MulMonotonic(1, -t, d);
    }
  }

  lemma MulMonotonic(a: int, b: int, d: int)
    requires 0 <= a <= b && d > 0
    ensures a * d <= b * d
  {
    assert b * d - a * d == (b - a) * d;
  }

  /** Taking one step of `d` off a positive count of steps removes one of them. */
  lemma CeilDivStep(n: int, d: int)
    requires d > 0 && n > 0
    ensures CeilDiv(n, d) == 1 + CeilDiv(n - d, d)
  {
    if n - d <= 0 {
      DivUnique(n + d - 1, d, 1, n - 1);
    } else {
      DivAddDivisor(n - 1, d);
    }
  }

  /** Moving a value by one step keeps its remainder. */
  lemma ModShift(a: int, d: int)
    requires d > 0
    ensures (a - d) % d == a % d
  {
    var q := (a - d) / d;
    var r := (a - d) % d;
    assert a == (q + 1) * d + r;
    DivUnique(a, d, q + 1, r);
  }
}
