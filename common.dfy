/** The pieces of Python semantics the triangle code relies on: the exceptions
    it can raise, list indexing with negative indices, floored `%`, `sum` and
    slicing in reverse. */
module Common {

  /** The exceptions raised by the modelled code. */
  datatype Error = IndexError | ValueError | ZeroDivisionError | NotImplementedError

  /** A value, or the exception that was raised instead of producing it. */
  datatype Result<T> = Ok(value: T) | Err(error: Error)

  /** Python's `sum` of a list of integers, folded from the left. */
  function Sum(s: seq<int>): int
  {
    if |s| == 0 then 0 else Sum(s[..|s| - 1]) + s[|s| - 1]
  }

  /** The list `[f(0), f(1), ..., f(m - 1)]` a generator builds by appending
      one item per step. */
  function Table<T>(f: nat -> T, m: nat): (r: seq<T>)
    ensures |r| == m
    ensures forall i :: 0 <= i < m ==> r[i] == f(i)
  {
    if m == 0 then [] else Table(f, m - 1) + [f(m - 1)]
  }

  /** Appending f(m) to the first m items gives the first m + 1. */
  lemma TableSnoc<T>(f: nat -> T, m: nat)
    ensures Table(f, m + 1) == Table(f, m) + [f(m)]
  {
  }

  /** Adding one more element to a prefix adds that element to its sum. */
  lemma SumPrefix(s: seq<int>, j: nat)
    requires j < |s|
    ensures Sum(s[..j + 1]) == Sum(s[..j]) + s[j]
  {
    assert s[..j + 1][..j] == s[..j];
  }

  /** `sum(a + b) == sum(a) + sum(b)`. */
  lemma {:induction false} SumConcat(a: seq<int>, b: seq<int>)
    ensures Sum(a + b) == Sum(a) + Sum(b)
    decreases |b|
  {
    if |b| == 0 {
      assert a + b == a;
    } else {
      var b' := b[..|b| - 1];
      assert (a + b)[..|a + b| - 1] == a + b';
      SumConcat(a, b');
    }
  }

  /** The sum of the sequence 1, 2, ..., m is the m-th triangular number. */
  lemma {:induction false} SumOfRange(m: nat)
    ensures Sum(seq(m, k => k + 1)) == m * (m + 1) / 2
  {
    if m > 0 {
      var s := seq(m, k => k + 1);
      assert s[..m - 1] == seq(m - 1, k => k + 1);
      SumOfRange(m - 1);
    }
  }

  /** The position a Python index names in a list of length n: a negative
      index counts back from the end. */
  function Wrap(n: nat, k: int): int
  {
    if k < 0 then n + k else k
  }

  /** Python's `s[k]` on a list: a non-negative index counts from the front, a
      negative one from the end; anything else raises IndexError. */
  function PyIndex<T>(s: seq<T>, k: int): (r: Result<T>)
    ensures r.Ok? <==> -|s| <= k < |s|
    ensures r.Ok? ==> r.value == s[Wrap(|s|, k)]
    ensures r.Err? ==> r.error == IndexError
  {
    if 0 <= k < |s| then Ok(s[k])
    else if -|s| <= k < 0 then Ok(s[|s| + k])
    else Err(IndexError)
  }

  /** Index `k - len(s)` names the same element as index `k`. */
  lemma PyIndexFromEnd<T>(s: seq<T>, k: nat)
    requires k < |s|
    ensures PyIndex(s, k) == Ok(s[k])
    ensures PyIndex(s, k - |s|) == PyIndex(s, k)
  {
  }

  /** Python's `a % k`: the remainder of floored division, which has the sign
      of the divisor (Dafny's own `%` is Euclidean, never negative). */
  function PyMod(a: int, k: int): (r: int)
    requires k != 0
    ensures k > 0 ==> 0 <= r < k
    ensures k < 0 ==> k < r <= 0
    ensures exists q :: a == q * k + r
  {
    var e := a % k;
    assert a == (a / k) * k + e;
    if k > 0 || e == 0 then e
    else
      assert a == (a / k - 1) * k + (e + k);
      e + k
  }

  /** Python's `s[::-1]`. */
  function Reverse<T>(s: seq<T>): (r: seq<T>)
    ensures |r| == |s|
    ensures forall k, m :: 0 <= k < |s| && k + m == |s| - 1 ==> r[k] == s[m]
  {
    if |s| == 0 then [] else [s[|s| - 1]] + Reverse(s[..|s| - 1])
  }

  /** A list that equals its own reverse. */
  predicate Palindrome<T(==)>(s: seq<T>)
  {
    s == Reverse(s)
  }

  /** A palindrome is a list that reads the same from both ends. */
  lemma PalindromeMirror<T>(s: seq<T>)
    ensures Palindrome(s) <==> forall k, m :: 0 <= k < |s| && k + m == |s| - 1 ==> s[k] == s[m]
  {
    var back := Reverse(s);
    if forall k, m :: 0 <= k < |s| && k + m == |s| - 1 ==> s[k] == s[m] {
      forall k | 0 <= k < |s| ensures s[k] == back[k] {
        assert back[k] == s[|s| - 1 - k];
      }
      assert s == back;
    }
  }
}
