/** Rounding half to even on exact integers: the rule of `Decimal.quantize`.

    A quantity in units of 1/10000 is an integer; the quotient being rounded is given by
    its numerator and denominator, or, for the cosine score, by its square. */
module Rounding {

  // ----- num / den -----

  function HalfEven(num: int, den: int): (q: int)
    requires den > 0
    ensures num >= 0 ==> q >= 0
  {
    var f, r := num / den, num % den;
    if 2 * r < den || (2 * r == den && f % 2 == 0) then f else f + 1
  }

  /** q is a nearest integer to num/den, and the even one when two are equally near. */
  ghost predicate IsHalfEven(num: int, den: int, q: int)
    requires den > 0
  {
    && (2 * q - 1) * den <= 2 * num <= (2 * q + 1) * den
    && ((2 * num == (2 * q - 1) * den || 2 * num == (2 * q + 1) * den) ==> q % 2 == 0)
  }

  lemma HalfEvenIsNearest(num: int, den: int)
    requires den > 0
    ensures IsHalfEven(num, den, HalfEven(num, den))
  {
    var f, r := num / den, num % den;
    assert num == f * den + r;
    assert (2 * f - 1) * den == 2 * (f * den) - den;
    assert (2 * f + 1) * den == 2 * (f * den) + den;
    assert (2 * (f + 1) - 1) * den == 2 * (f * den) + den;
    assert (2 * (f + 1) + 1) * den == 2 * (f * den) + 3 * den;
  }

  /** Rounding respects the order of the quotients, compared by cross multiplication. */
  lemma HalfEvenMonotone(num: int, den: int, q: int, num': int, den': int, q': int)
    requires den > 0 && den' > 0
    requires IsHalfEven(num, den, q) && IsHalfEven(num', den', q')
    requires num * den' <= num' * den
    ensures q <= q'
  {
    if q > q' {
      var lo, hi := 2 * q - 1, 2 * q' + 1;
      MulAssoc(2, num, den');
      MulAssoc(2, num', den);
      Sandwich(lo, hi, 2 * num, 2 * num', den, den');
      assert false;
    }
  }

  lemma HalfEvenUnique(num: int, den: int, q: int)
    requires den > 0 && IsHalfEven(num, den, q)
    ensures q == HalfEven(num, den)
  {
    HalfEvenIsNearest(num, den);
    HalfEvenMonotone(num, den, q, num, den, HalfEven(num, den));
    HalfEvenMonotone(num, den, HalfEven(num, den), num, den, q);
  }

  // ----- x / sqrt(n) -----

  function Sq(x: int): int { x * x }

  /** The largest f <= hi with f * f * n <= x * x. */
  function FloorRootQuotient(x: nat, n: nat, hi: nat): nat
  {
    if hi == 0 || Sq(hi) * n <= Sq(x) then hi else FloorRootQuotient(x, n, hi - 1)
  }

  /** x / sqrt(n) rounded half to even, computed without a square root. */
  function RootQuotient(x: nat, n: nat): nat
    requires n > 0
  {
    var f := FloorRootQuotient(x, n, x);
    var below := Sq(2 * f + 1) * n;
    if 4 * Sq(x) < below || (4 * Sq(x) == below && f % 2 == 0) then f else f + 1
  }

  /** q is a nearest integer to x / sqrt(n), the even one on a tie; every comparison is squared. */
  ghost predicate IsRootQuotient(x: nat, n: nat, q: nat)
  {
    && (q > 0 ==> Sq(2 * q - 1) * n <= 4 * Sq(x))
    && 4 * Sq(x) <= Sq(2 * q + 1) * n
    && (q > 0 && Sq(2 * q - 1) * n == 4 * Sq(x) ==> q % 2 == 0)
    && (4 * Sq(x) == Sq(2 * q + 1) * n ==> q % 2 == 0)
  }

  lemma {:induction false} FloorRootQuotientBounds(x: nat, n: nat, hi: nat)
    requires Sq(x) < Sq(hi + 1) * n
    ensures var f := FloorRootQuotient(x, n, hi); Sq(f) * n <= Sq(x) < Sq(f + 1) * n
  {
    if hi == 0 || Sq(hi) * n <= Sq(x) {
      assert Sq(0) * n == 0;
    } else {
      FloorRootQuotientBounds(x, n, hi - 1);
    }
  }

  lemma RootQuotientIsNearest(x: nat, n: nat)
    requires n > 0
    ensures IsRootQuotient(x, n, RootQuotient(x, n))
  {
    MulLe(1, n, Sq(x + 1));
    SqLt(x, x + 1);
    FloorRootQuotientBounds(x, n, x);
    var f := FloorRootQuotient(x, n, x);
    NearestOfFloor(x, n, f, Sq(2 * f + 1) * n);
  }

  /** The nearest of f and f + 1 is found by looking at the middle between them. */
  lemma NearestOfFloor(x: nat, n: nat, f: nat, middle: int)
    requires n > 0 && Sq(f) * n <= Sq(x) < Sq(f + 1) * n && middle == Sq(2 * f + 1) * n
    ensures IsRootQuotient(x, n, if 4 * Sq(x) < middle || (4 * Sq(x) == middle && f % 2 == 0) then f else f + 1)
  {
    if 4 * Sq(x) < middle || (4 * Sq(x) == middle && f % 2 == 0) {
      BelowFloor(x, n, f);
    } else {
      NextIsNearest(x, n, f);
    }
  }

  lemma NextIsNearest(x: nat, n: nat, f: nat)
    requires n > 0 && Sq(x) < Sq(f + 1) * n
    requires 4 * Sq(x) >= Sq(2 * f + 1) * n && (4 * Sq(x) == Sq(2 * f + 1) * n ==> f % 2 == 1)
    ensures IsRootQuotient(x, n, f + 1)
  {
    AboveNext(x, n, f);
    IsNext(x, n, f + 1, Sq(2 * f + 1), Sq(2 * (f + 1) + 1));
  }

  lemma IsNext(x: nat, n: nat, q: nat, below: int, above: int)
    requires q > 0 && below == Sq(2 * q - 1) && above == Sq(2 * q + 1)
    requires below * n <= 4 * Sq(x) < above * n
    requires below * n == 4 * Sq(x) ==> q % 2 == 0
    ensures IsRootQuotient(x, n, q)
  {}

  lemma BelowFloor(x: nat, n: nat, f: nat)
    requires n > 0 && Sq(f) * n <= Sq(x)
    ensures f > 0 ==> Sq(2 * f - 1) * n < 4 * Sq(x)
  {
    SqDouble(f, n);
    if f > 0 {
      SqLt(2 * f - 1, 2 * f);
      MulLt(Sq(2 * f - 1), Sq(2 * f), n);
    }
  }

  lemma AboveNext(x: nat, n: nat, f: nat)
    requires n > 0 && Sq(x) < Sq(f + 1) * n
    ensures 4 * Sq(x) < Sq(2 * (f + 1) + 1) * n
  {
    SqDouble(f + 1, n);
    SqLt(2 * (f + 1), 2 * (f + 1) + 1);
    MulLt(Sq(2 * (f + 1)), Sq(2 * (f + 1) + 1), n);
  }

  lemma RootQuotientMonotone(x: nat, n: nat, q: nat, x': nat, n': nat, q': nat)
    requires n > 0 && n' > 0
    requires IsRootQuotient(x, n, q) && IsRootQuotient(x', n', q')
    requires Sq(x) * n' <= Sq(x') * n
    ensures q <= q'
  {
    if q > q' {
      var lo, hi := Sq(2 * q - 1), Sq(2 * q' + 1);
      SqLe(2 * q' + 1, 2 * q - 1);
      MulAssoc(4, Sq(x), n');
      MulAssoc(4, Sq(x'), n);
      Sandwich(lo, hi, 4 * Sq(x), 4 * Sq(x'), n, n');
      SqCancel(2 * q - 1, 2 * q' + 1);
      assert false;
    }
  }

  /** The squared inequalities determine the rounded value. */
  lemma RootQuotientUnique(x: nat, n: nat, q: nat)
    requires n > 0 && IsRootQuotient(x, n, q)
    ensures q == RootQuotient(x, n)
  {
    RootQuotientIsNearest(x, n);
    RootQuotientMonotone(x, n, q, x, n, RootQuotient(x, n));
    RootQuotientMonotone(x, n, RootQuotient(x, n), x, n, q);
  }

  // ----- small facts about multiplication -----

  lemma MulLe(a: int, b: int, c: int)
    requires a <= b && c >= 0
    ensures a * c <= b * c
  {}

  lemma MulLt(a: int, b: int, c: int)
    requires a < b && c > 0
    ensures a * c < b * c
  {}

  lemma MulCancel(a: int, b: int, c: int)
    requires a * c <= b * c && c > 0
    ensures a <= b
  {
    if a > b { MulLt(b, a, c); }
  }

  lemma MulAssoc(a: int, b: int, c: int)
    ensures a * b * c == a * (b * c) == a * c * b
  {}

  /** Two scaled bounds around quotients in order are in order themselves, and meet only when tight. */
  lemma Sandwich(lo: int, hi: int, p: int, p': int, n: int, n': int)
    requires n > 0 && n' > 0
    requires lo * n <= p && p' <= hi * n' && p * n' <= p' * n
    ensures lo <= hi
    ensures lo == hi ==> lo * n == p && p' == hi * n'
  {
    MulLe(lo * n, p, n');
    MulLe(p', hi * n', n);
    assert lo * n * n' == lo * (n * n') by { MulAssoc(lo, n, n'); }
    assert hi * n' * n == hi * (n * n') by { MulAssoc(hi, n', n); }
    MulLt(0, n, n');
    MulCancel(lo, hi, n * n');
    if lo == hi {
      MulCancel(p, lo * n, n');
      MulCancel(hi * n', p', n);
    }
  }

  lemma SqDouble(a: int, n: int)
    ensures Sq(2 * a) * n == 4 * (Sq(a) * n)
  {
    assert Sq(2 * a) == 4 * Sq(a);
    MulAssoc(4, Sq(a), n);
  }

  lemma SqLe(a: int, b: int)
    requires 0 <= a <= b
    ensures Sq(a) <= Sq(b)
  {
    MulLe(a, b, a);
    MulLe(a, b, b);
  }

  lemma SqLt(a: int, b: int)
    requires 0 <= a < b
    ensures Sq(a) < Sq(b)
  {
    MulLe(a, b, a);
    MulLt(a, b, b);
  }

  lemma SqCancel(a: int, b: int)
    requires 0 <= a && 0 <= b && Sq(a) <= Sq(b)
    ensures a <= b
  {
    if a > b { SqLt(b, a); }
  }
}
