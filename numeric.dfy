/** Numeric helpers: factorials, binomial and trinomial coefficients, parity
    and primality. */
module Numeric {

  /** n!, extended to every integer as `factorial` does: every n <= 1 gives 1. */
  function Fact(n: int): (r: nat)
    ensures r >= 1
    ensures n >= 1 ==> r >= n
  {
    if n <= 1 then 1 else n * Fact(n - 1)
  }

  /** `factorial`: a running product over 2..num. */
  method Factorial(num: int) returns (result: int)
    ensures result == Fact(num)
  {
    if num == 0 || num == 1 {
      return 1;
    }
    result := 1;
    var i := 2;
    while i <= num
      invariant 2 <= i <= if num < 2 then 2 else num + 1
      invariant result == Fact(i - 1)
    {
      result := i * result;
      i := i + 1;
    }
  }

  /** The binomial coefficient by Pascal's rule; it is 0 when k > n, as
      `math.comb` is. */
  function Binom(n: nat, k: nat): nat
  {
    if k == 0 then 1
    else if n == 0 then 0
    else Binom(n - 1, k - 1) + Binom(n - 1, k)
  }

  /** Choosing more elements than there are gives 0. */
  lemma {:induction false} BinomAbove(n: nat, k: nat)
    requires k > n
    ensures Binom(n, k) == 0
  {
    if n > 0 {
      BinomAbove(n - 1, k - 1);
      BinomAbove(n - 1, k);
    }
  }

  /** Choosing all elements can be done one way. */
  lemma {:induction false} BinomAll(n: nat)
    ensures Binom(n, n) == 1
  {
    if n > 0 {
      BinomAll(n - 1);
      BinomAbove(n - 1, n);
    }
  }

  /** Within range the binomial coefficient is positive. */
  lemma {:induction false} BinomPositive(n: nat, k: nat)
    requires k <= n
    ensures Binom(n, k) >= 1
  {
    if k > 0 {
      BinomPositive(n - 1, k - 1);
    }
  }

  /** The factorial formula: C(n, k) * k! * (n - k)! == n!. */
  lemma {:induction false} BinomFactorials(n: nat, k: nat)
    requires k <= n
    ensures Binom(n, k) * Fact(k) * Fact(n - k) == Fact(n)
  {
    if k == 0 {
    } else if k == n {
      BinomAll(n);
    } else {
      var b1, b2 := Binom(n - 1, k - 1), Binom(n - 1, k);
      BinomFactorials(n - 1, k - 1);
      BinomFactorials(n - 1, k);
      var p, f1, f2 := Fact(n - 1), Fact(k - 1), Fact(n - k - 1);
      var m := n - k;
      assert Fact(k) == k * f1;
      assert Fact(m) == m * f2;
      assert Fact(n) == n * p;
      Regroup(b1, b2, k, m, f1, f2, p);
      assert Binom(n, k) == b1 + b2;
    }
  }

  /** Ring arithmetic behind the inductive step of BinomFactorials. */
  lemma Regroup(b1: int, b2: int, k: int, m: int, f1: int, f2: int, p: int)
    requires b1 * f1 * (m * f2) == p
    requires b2 * (k * f1) * f2 == p
    ensures (b1 + b2) * (k * f1) * (m * f2) == (k + m) * p
  {
    assert (b1 + b2) * (k * f1) * (m * f2) == k * (b1 * f1 * (m * f2)) + m * (b2 * (k * f1) * f2);
  }

  /** Multiplying by a non-negative factor keeps the order. */
  lemma MulMono(a: int, b: int, d: int)
    ensures a <= b && d >= 0 ==> a * d <= b * d
  {
  }

  /** `x * d == y * d` with d positive forces x == y. */
  lemma MulCancel(x: int, y: int, d: int)
    requires d > 0
    requires x * d == y * d
    ensures x == y
  {
    assert (x - y) * d == x * d - y * d;
    MulMono(1, x - y, d);
    MulMono(x - y, -1, d);
  }

  /** Dividing an exact multiple gives back the factor. */
  lemma DivExact(a: int, d: int)
    requires d > 0
    ensures (a * d) / d == a
    ensures (a * d) % d == 0
  {
    var q, m := (a * d) / d, (a * d) % d;
    assert a * d == q * d + m && 0 <= m < d;
    assert (a - q) * d == m;
    MulMono(1, a - q, d);
    MulMono(a - q, -1, d);
  }

  /** The absorption identity k * C(m, k) == (m - k + 1) * C(m, k - 1). */
  lemma Absorption(m: nat, k: nat)
    requires 1 <= k <= m
    ensures k * Binom(m, k) == (m - k + 1) * Binom(m, k - 1)
  {
    var a, b := Binom(m, k), Binom(m, k - 1);
    BinomFactorials(m, k);
    BinomFactorials(m, k - 1);
    var f1, f2 := Fact(k - 1), Fact(m - k);
    assert Fact(k) == k * f1;
    assert Fact(m - (k - 1)) == (m - k + 1) * f2;
    CancelCommon(a, b, k, m - k + 1, f1, f2);
  }

  /** Cancelling the common positive factor f1 * f2. */
  lemma CancelCommon(a: int, b: int, k: int, j: int, f1: int, f2: int)
    requires f1 > 0 && f2 > 0
    requires a * (k * f1) * f2 == b * f1 * (j * f2)
    ensures k * a == j * b
  {
    assert a * (k * f1) * f2 == (k * a) * (f1 * f2);
    assert b * f1 * (j * f2) == (j * b) * (f1 * f2);
    MulMono(1, f1, f2);
    MulCancel(k * a, j * b, f1 * f2);
  }

  /** `trinomial`: the number of ways to split n items into groups of i, j and
      n - i - j, or 0 when i + j > n. */
  function Trinomial(n: int, i: int, j: int): (r: int)
    ensures r >= 0
    ensures i + j > n ==> r == 0
  {
    var k := n - i - j;
    if k < 0 then 0
    else
      QuotientNonNegative(Fact(n), Fact(i), Fact(j), Fact(k));
      Fact(n) / (Fact(i) * Fact(j) * Fact(k))
  }

  /** A non-negative number divided by a product of positive factors is
      non-negative. */
  lemma QuotientNonNegative(f: int, a: int, b: int, c: int)
    requires f >= 0 && a >= 1 && b >= 1 && c >= 1
    ensures a * b * c >= 1 && f / (a * b * c) >= 0
  {
    MulMono(1, a, b);
    MulMono(1, a * b, c);
  }

  /** The trinomial coefficient is a product of two binomials, so the
      division in `trinomial` is exact; it is positive inside its range and
      symmetric in i and j. */
  lemma TrinomialExact(n: nat, i: nat, j: nat)
    requires i + j <= n
    ensures Trinomial(n, i, j) == Binom(n, i) * Binom(n - i, j)
    ensures Trinomial(n, i, j) * (Fact(i) * Fact(j) * Fact(n - i - j)) == Fact(n)
    ensures Trinomial(n, i, j) >= 1
    ensures Trinomial(n, i, j) == Trinomial(n, j, i)
  {
    var t := Binom(n, i) * Binom(n - i, j);
    var fi, fj, fk := Fact(i), Fact(j), Fact(n - i - j);
    TrinomialFactors(n, i, j);
    PositiveFactors(fi, fj, fk);
    DivExact(t, fi * fj * fk);
    assert Trinomial(n, i, j) == t;
    assert Trinomial(n, j, i) == t;
    BinomPositive(n, i);
    BinomPositive(n - i, j);
    MulMono(1, Binom(n, i), Binom(n - i, j));
  }

  /** n! is C(n, i) * C(n - i, j) times the three factorials of the parts. */
  lemma TrinomialFactors(n: nat, i: nat, j: nat)
    requires i + j <= n
    ensures Binom(n, i) * Binom(n - i, j) * (Fact(i) * Fact(j) * Fact(n - i - j)) == Fact(n)
  {
    BinomFactorials(n, i);
    BinomFactorials(n - i, j);
    Regroup3(Binom(n, i), Binom(n - i, j), Fact(i), Fact(j), Fact(n - i - j), Fact(n - i), Fact(n));
  }

  /** The product of three positive factors is positive, and swapping the
      first two or the last two factors does not change it. */
  lemma PositiveFactors(a: int, b: int, c: int)
    requires a >= 1 && b >= 1 && c >= 1
    ensures a * b * c >= 1
    ensures a * b * c == b * a * c && a * b * c == a * c * b
  {
    MulMono(1, a, b);
    MulMono(1, a * b, c);
  }

  /** Ring arithmetic behind TrinomialFactors. */
  lemma Regroup3(bi: int, bj: int, fi: int, fj: int, fk: int, fni: int, f: int)
    requires bi * fi * fni == f
    requires bj * fj * fk == fni
    ensures (bi * bj) * (fi * fj * fk) == f
  {
    assert (bi * bj) * (fi * fj * fk) == bi * fi * (bj * fj * fk);
  }

  /** A triple outside the simplex has trinomial coefficient 0. */
  lemma TrinomialOutside(n: int, i: int, j: int)
    requires i + j > n
    ensures Trinomial(n, i, j) == 0
  {
  }

  /** `is_even`: `num % 2 == 0`, which holds exactly for the multiples of 2. */
  function IsEven(num: int): (r: bool)
    ensures r <==> exists h :: num == 2 * h
  {
    if num % 2 == 0 then
      assert num == 2 * (num / 2);
      true
    else
      assert forall h :: num != 2 * h by {
        forall h ensures (2 * h) % 2 == 0 { }
      }
      false
  }

  /** `is_odd`: `num % 2 != 0`, the exact complement of `is_even`. */
  function IsOdd(num: int): (r: bool)
    ensures r <==> !IsEven(num)
    ensures r <==> exists h :: num == 2 * h + 1
  {
    if num % 2 != 0 then
      assert num == 2 * (num / 2) + 1;
      true
    else
      assert forall h :: num != 2 * h + 1 by {
        forall h ensures (2 * h + 1) % 2 == 1 { }
      }
      false
  }

  /** Primality: at least 2 and no divisor strictly between 1 and itself. */
  ghost predicate Prime(num: int)
  {
    num >= 2 && forall d :: 2 <= d < num ==> num % d != 0
  }

  /** A divisor d with 2 <= d < num has a partner num / d, and the smaller of
      the two is at most the square root of num. */
  lemma SmallDivisor(num: int, d: int)
    ensures 2 <= d < num && num % d == 0 ==>
      exists s :: 2 <= s && s * s <= num && num % s == 0
  {
    if 2 <= d < num && num % d == 0 {
      var e := num / d;
      assert num == d * e;
      MulMono(e, 1, d);
      assert e >= 2;
      if d <= e {
        MulMono(d, e, d);
        assert d * d <= num;
      } else {
        MulMono(e, d, e);
        assert e * e <= num;
        DivExact(d, e);
        assert num % e == 0;
      }
    }
  }

  /** No divisor up to the square root means no divisor at all below num. */
  lemma SquareRootBound(num: int)
    requires num >= 2 && NoSmallDivisor(num)
    ensures Prime(num)
  {
    forall d | 2 <= d < num ensures num % d != 0 {
      SmallDivisor(num, d);
    }
  }

  /** The trial divisions `is_prime` performs: the d with 2 <= d and d * d <= num. */
  ghost predicate NoSmallDivisor(num: int)
  {
    forall d :: 2 <= d && d * d <= num ==> num % d != 0
  }

  /** `is_prime`: false below 2, otherwise trial division by 2, 3, ... while
      the square of the divisor does not exceed num. */
  method IsPrime(num: int) returns (r: bool)
    ensures r <==> num >= 2 && NoSmallDivisor(num)
    ensures r <==> Prime(num)
  {
    if num < 2 {
      return false;
    }
    var i := 2;
    while i * i <= num
      invariant 2 <= i
      invariant forall d :: 2 <= d < i ==> num % d != 0
      decreases num - i
    {
      if num % i == 0 {
        MulMono(2, i, i);
        assert i < num;
        return false;
      }
      i := i + 1;
    }
    forall d | 2 <= d && d * d <= num ensures num % d != 0 {
      MulMono(i, d, i);
      MulMono(i, d, d);
    }
    SquareRootBound(num);
    return true;
  }
}
