/** The integer sequences the generators call: Fibonacci, Tribonacci, Lucas,
    Pell, Pell-Lucas and Catalan numbers. Each is a recursive definition over
    the naturals plus the iterative procedure that computes it; the procedures
    take any integer, as the originals do. */
module Sequences {

  function Fib(n: nat): nat
  {
    if n <= 1 then n else Fib(n - 1) + Fib(n - 2)
  }

  function Trib(n: nat): nat
  {
    if n <= 1 then 0 else if n == 2 then 1 else Trib(n - 1) + Trib(n - 2) + Trib(n - 3)
  }

  function Lucas(n: nat): nat
  {
    if n == 0 then 2 else if n == 1 then 1 else Lucas(n - 1) + Lucas(n - 2)
  }

  function Pell(n: nat): nat
  {
    if n <= 1 then n else 2 * Pell(n - 1) + Pell(n - 2)
  }

  function PellLucas(n: nat): nat
  {
    if n <= 1 then 2 else 2 * PellLucas(n - 1) + PellLucas(n - 2)
  }

  /** The Catalan numbers by Segner's recurrence:
      C(n) = sum of C(i) * C(n - 1 - i) over i < n, and C(0) = C(1) = 1. */
  function CatalanNumber(n: nat): nat
    decreases n, 1
  {
    if n <= 1 then 1 else Convolution(n, n)
  }

  /** The first m terms of Segner's sum for C(n). */
  function Convolution(n: nat, m: nat): nat
    requires m <= n
    decreases n, 0, m
  {
    if m == 0 then 0 else Convolution(n, m - 1) + CatalanNumber(m - 1) * CatalanNumber(n - m)
  }

  /** `fibonacci`: n itself for n <= 1, else the pair (a, b) slides along the
      sequence from (F(0), F(1)). */
  method Fibonacci(n: int) returns (r: int)
    ensures n <= 1 ==> r == n
    ensures n >= 0 ==> r == Fib(n)
  {
    if n <= 1 {
      return n;
    }
    var a, b := 0, 1;
    var k := 2;
    while k <= n
      invariant 2 <= k <= n + 1
      invariant a == Fib(k - 2) && b == Fib(k - 1)
    {
      a, b := b, a + b;
      k := k + 1;
    }
    return b;
  }

  /** `tribonacci`: 0, 0, 1 for n = 0, 1, 2; otherwise a window of three
      consecutive terms slides from (T(0), T(1), T(2)). A negative n skips the
      loop and yields 1. */
  method Tribonacci(n: int) returns (r: int)
    ensures n < 0 ==> r == 1
    ensures n >= 0 ==> r == Trib(n)
  {
    if n == 0 {
      return 0;
    } else if n == 1 || n == 2 {
      return if n == 1 then 0 else 1;
    }
    var a, b, c := 0, 0, 1;
    var k := 3;
    while k <= n
      invariant 3 <= k <= if n < 3 then 3 else n + 1
      invariant n >= 3 ==> a == Trib(k - 3) && b == Trib(k - 2) && c == Trib(k - 1)
      invariant n < 3 ==> c == 1
    {
      a, b, c := b, c, a + b + c;
      k := k + 1;
    }
    return c;
  }

  /** `lucas`: 2 and 1 for n = 0 and 1, then the Fibonacci step from (2, 1).
      A negative n skips the loop and yields 1. */
  method LucasNumber(n: int) returns (r: int)
    ensures n < 0 ==> r == 1
    ensures n >= 0 ==> r == Lucas(n)
  {
    if n == 0 {
      return 2;
    }
    if n == 1 {
      return 1;
    }
    var a, b := 2, 1;
    var k := 2;
    while k <= n
      invariant 2 <= k <= if n < 2 then 2 else n + 1
      invariant n >= 2 ==> a == Lucas(k - 2) && b == Lucas(k - 1)
      invariant n < 2 ==> b == 1
    {
      a, b := b, a + b;
      k := k + 1;
    }
    return b;
  }

  /** `pell`: 0 and 1 for n = 0 and 1, then b := 2b + a from (0, 1). A
      negative n skips the loop and yields 1. */
  method PellNumber(n: int) returns (r: int)
    ensures n < 0 ==> r == 1
    ensures n >= 0 ==> r == Pell(n)
  {
    if n == 0 {
      return 0;
    }
    if n == 1 {
      return 1;
    }
    var a, b := 0, 1;
    var k := 2;
    while k <= n
      invariant 2 <= k <= if n < 2 then 2 else n + 1
      invariant n >= 2 ==> a == Pell(k - 2) && b == Pell(k - 1)
      invariant n < 2 ==> b == 1
    {
      a, b := b, 2 * b + a;
      k := k + 1;
    }
    return b;
  }

  /** `pell_lucas`: 2 and 2 for n = 0 and 1, then b := 2b + a from (2, 2). A
      negative n skips the loop and yields 2. */
  method PellLucasNumber(n: int) returns (r: int)
    ensures n < 0 ==> r == 2
    ensures n >= 0 ==> r == PellLucas(n)
  {
    if n == 0 {
      return 2;
    }
    if n == 1 {
      return 2;
    }
    var a, b := 2, 2;
    var k := 2;
    while k <= n
      invariant 2 <= k <= if n < 2 then 2 else n + 1
      invariant n >= 2 ==> a == PellLucas(k - 2) && b == PellLucas(k - 1)
      invariant n < 2 ==> b == 2
    {
      a, b := b, 2 * b + a;
      k := k + 1;
    }
    return b;
  }

  /** `catalan`: 1 for n <= 1, otherwise the recursive calls accumulated over
      Segner's sum. */
  method Catalan(n: int) returns (r: int)
    ensures n <= 1 ==> r == 1
    ensures n >= 0 ==> r == CatalanNumber(n)
    decreases if n < 0 then 0 else n
  {
    if n <= 1 {
      return 1;
    }
    var res := 0;
    var i := 0;
    while i < n
      invariant 0 <= i <= n
      invariant res == Convolution(n, i)
    {
      var left := Catalan(i);
      var right := Catalan(n - 1 - i);
      res := res + left * right;
      i := i + 1;
    }
    return res;
  }

  /** Every Catalan number is positive. */
  lemma {:induction false} CatalanPositive(n: nat)
    ensures CatalanNumber(n) >= 1
    decreases n, 1
  {
    if n > 1 {
      ConvolutionPositive(n, n);
    }
  }

  /** A non-empty part of Segner's sum is positive. */
  lemma {:induction false} ConvolutionPositive(n: nat, m: nat)
    requires 1 <= m <= n
    ensures Convolution(n, m) >= 1
    decreases n, 0, m
  {
    CatalanPositive(m - 1);
    CatalanPositive(n - m);
    var p := CatalanNumber(m - 1) * CatalanNumber(n - m);
    assert p >= 1 by {
      assert CatalanNumber(m - 1) >= 1 && CatalanNumber(n - m) >= 1;
    }
    if m > 1 {
      ConvolutionPositive(n, m - 1);
    }
  }

  /** The Lucas numbers are sums of two Fibonacci numbers:
      L(n) = F(n - 1) + F(n + 1) for n >= 1. */
  lemma {:induction false} LucasFromFibonacci(n: nat)
    requires n >= 1
    ensures Lucas(n) == Fib(n - 1) + Fib(n + 1)
  {
    if n == 2 {
      assert Fib(3) == 2;
    } else if n > 2 {
      LucasFromFibonacci(n - 1);
      LucasFromFibonacci(n - 2);
    }
  }

  /** The same relation for the Pell family: Q(n) = P(n - 1) + P(n + 1). */
  lemma {:induction false} PellLucasFromPell(n: nat)
    requires n >= 1
    ensures PellLucas(n) == Pell(n - 1) + Pell(n + 1)
  {
    if n == 2 {
      assert Pell(3) == 5;
    } else if n > 2 {
      PellLucasFromPell(n - 1);
      PellLucasFromPell(n - 2);
    }
  }

  /** Fibonacci numbers never decrease, and they are positive from F(1) on. */
  lemma {:induction false} FibMonotone(n: nat)
    ensures Fib(n) <= Fib(n + 1)
    ensures n >= 1 ==> Fib(n) >= 1
  {
    if n >= 2 {
      FibMonotone(n - 1);
    }
  }

  /** The first values, as listed in OEIS A000045, A000032, A000129, A002203
      and A000108. */
  lemma FirstValues()
    ensures Fib(10) == 55
    ensures Lucas(6) == 18
    ensures Trib(7) == 13
    ensures Pell(5) == 29
    ensures PellLucas(4) == 34
    ensures CatalanNumber(5) == 42
  {
  }
}
