/** Integer division and remainder as C++ defines them for signed operands:
    the quotient is truncated toward zero and the remainder takes the sign
    of the dividend. Dafny's own `/` and `%` are Euclidean, so the two
    differ when an operand is negative. */
module CppInt {

  function Abs(a: int): (n: nat)
  {
    if a < 0 then -a else a
  }

  /** C++ `a / b` for `b != 0`. */
  function CDiv(a: int, b: int): (q: int)
    requires b != 0
  {
    if (a < 0) == (b < 0) then Abs(a) / Abs(b) else -(Abs(a) / Abs(b))
  }

  /** C++ `a % b` for `b != 0`. */
  function CMod(a: int, b: int): (r: int)
    requires b != 0
  {
    a - b * CDiv(a, b)
  }

  /** The identities the C++ standard requires of `/` and `%`: quotient
      times divisor plus remainder gives back the dividend, the remainder is
      smaller than the divisor in magnitude, and it is never of the opposite
      sign to the dividend. */
  lemma CDivModSpec(a: int, b: int)
    requires b != 0
    ensures CDiv(a, b) * b + CMod(a, b) == a
    ensures Abs(CMod(a, b)) < Abs(b)
    ensures a >= 0 ==> CMod(a, b) >= 0
    ensures a <= 0 ==> CMod(a, b) <= 0
  {
    var q, m := Abs(a) / Abs(b), Abs(a) % Abs(b);
    assert Abs(a) == Abs(b) * q + m && 0 <= m < Abs(b);
    var d := CDiv(a, b);
    assert d == if (a < 0) == (b < 0) then q else -q;
    SignedRemainder(a, b, d, q, m);
    assert CMod(a, b) == a - b * d;
  }

  /** Sign bookkeeping behind `CDivModSpec`, free of division: if the
      magnitudes satisfy |a| == |b| * q + m and the quotient d is q with the
      sign of a / b, then a - b * d is m with the sign of a. */
  lemma SignedRemainder(a: int, b: int, d: int, q: int, m: int)
    requires Abs(a) == Abs(b) * q + m
    requires d == if (a < 0) == (b < 0) then q else -q
    ensures a - b * d == if a < 0 then -m else m
  {
    var A, B := Abs(a), Abs(b);
    if a >= 0 && b >= 0 {
      assert a - b * d == A - B * q;
    } else if a < 0 && b < 0 {
      assert b * q == -(B * q);
    } else if a < 0 {
      assert b * -q == -(B * q);
    } else {
      assert b * -q == B * q;
    }
  }

  /** On a non-negative dividend and a positive divisor, C++ and Euclidean
      division agree. */
  lemma CDivModNonNegative(a: int, b: int)
    requires a >= 0 && b > 0
    ensures CDiv(a, b) == a / b && CMod(a, b) == a % b
  {
    assert CDiv(a, b) == a / b;
    assert a == (a / b) * b + a % b;
  }

  /** Below zero, whenever the division is not exact, they part by one:
      truncation rounds the quotient up toward zero where Euclidean division
      rounds it down, and the remainder is the Euclidean one minus the
      divisor. */
  lemma CDivOfNegativeDividend(a: int, b: int)
    requires a < 0 < b && a % b != 0
    ensures CDiv(a, b) == a / b + 1
    ensures CMod(a, b) == a % b - b
  {
    var q, r := a / b, a % b;
    assert a == q * b + r && 0 < r < b;
    assert -a == (-q - 1) * b + (b - r);
    Decompose(-a, b, -q - 1, b - r);
    assert Abs(a) == -a && Abs(b) == b;
  }

  /** Below zero they part: truncation rounds -1 / 2 up to 0, where
      Euclidean division rounds it down to -1. */
  lemma CDivTruncatesTowardZero()
    ensures CDiv(-1, 2) == 0 && -1 / 2 == -1
    ensures CMod(-1, 2) == -1 && -1 % 2 == 1
  {
  }

  // ---------------------------------------------------------------------------
  // Quotients and remainders are unique

  lemma NonNegativeProduct(a: int, b: int)
    requires a >= 0 && b >= 0
    ensures a * b >= 0
  {
  }

  /** A non-zero multiple of d is at least d away from zero. */
  lemma MultipleMagnitude(k: int, d: int)
    requires d > 0
    ensures k >= 1 ==> k * d >= d
    ensures k <= -1 ==> k * d <= -d
  {
    if k >= 1 {
      NonNegativeProduct(k - 1, d);
      assert (k - 1) * d == k * d - d;
    }
    if k <= -1 {
      NonNegativeProduct(-k - 1, d);
      assert (-k - 1) * d == -(k * d) - d;
    }
  }

  /** A quotient/remainder pair is unique. */
  lemma Decompose(n: int, d: int, q: int, r: int)
    requires d > 0 && 0 <= r < d && n == q * d + r
    ensures n / d == q && n % d == r
  {
    var q', r' := n / d, n % d;
    assert n == q' * d + r' && 0 <= r' < d;
    assert (q - q') * d == r' - r;
    MultipleMagnitude(q - q', d);
  }
}
