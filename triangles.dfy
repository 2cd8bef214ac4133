/** The concrete triangles. Each generator builds its rows one entry at a
    time, reading the row before it, and is proved equal to a recursive
    definition of the rows; the properties of each triangle are lemmas about
    that definition. */
module TriangleKinds {
  import opened Common
  import opened Numeric
  import Sequences
  import opened TriangleBase

  // ---------------------------------------------------------------------
  // The construction shared by Pascal, Fibonacci-Pascal and Lucas-Pascal

  /** The sums of neighbouring entries: entry k is p[k] + p[k + 1]. */
  function AdjacentSums(p: seq<int>): (r: seq<int>)
    ensures |r| == if |p| == 0 then 0 else |p| - 1
    ensures forall k {:trigger r[k]} :: 0 <= k < |r| ==> r[k] == p[k] + p[k + 1]
  {
    if |p| <= 1 then [] else seq(|p| - 1, k requires 0 <= k < |p| - 1 => p[k] + p[k + 1])
  }

  /** The row after p: an edge value, the sums of neighbours in p, and the
      edge value again. */
  function NextRow(p: seq<int>, edge: int): (r: seq<int>)
    requires |p| > 0
    ensures |r| == |p| + 1
    ensures r[0] == edge && r[|p|] == edge
    ensures forall k {:trigger r[k]} :: 1 <= k < |p| ==> r[k] == p[k - 1] + p[k]
  {
    seq(|p| + 1, k requires 0 <= k <= |p| => if k == 0 || k == |p| then edge else p[k - 1] + p[k])
  }

  /** The same row as a concatenation: edge, neighbour sums, edge. */
  lemma NextRowConcat(p: seq<int>, edge: int)
    requires |p| > 0
    ensures NextRow(p, edge) == [edge] + AdjacentSums(p) + [edge]
  {
  }

  /** The row after a palindrome is a palindrome. */
  lemma NextRowPalindrome(p: seq<int>, edge: int)
    requires |p| > 0 && Palindrome(p)
    ensures Palindrome(NextRow(p, edge))
  {
    var r := NextRow(p, edge);
    var back := Reverse(r);
    forall k | 0 <= k < |r| ensures r[k] == back[k] {
      var m := |p| - k;
      assert back[k] == r[m];
      if 1 <= k < |p| {
        assert p[k - 1] == Reverse(p)[k - 1] == p[m];
        assert p[k] == Reverse(p)[k] == p[m - 1];
        assert r[m] == p[m - 1] + p[m];
      }
    }
    assert r == back;
  }

  /** The sums of neighbours count every entry twice except the two ends. */
  lemma {:induction false} SumAdjacent(p: seq<int>)
    requires |p| > 0
    ensures Sum(AdjacentSums(p)) == 2 * Sum(p) - p[0] - p[|p| - 1]
    decreases |p|
  {
    if |p| > 1 {
      var q, a := p[..|p| - 1], AdjacentSums(p);
      SumAdjacent(q);
      assert a[..|a| - 1] == AdjacentSums(q);
      assert Sum(a) == Sum(AdjacentSums(q)) + p[|p| - 2] + p[|p| - 1];
      assert Sum(p) == Sum(q) + p[|p| - 1];
      assert q[0] == p[0] && q[|q| - 1] == p[|p| - 2];
    }
  }

  /** The inner loop of the Fibonacci-Pascal and Lucas-Pascal generators:
      appends `last[k] + last[k + 1]` to the row under construction for each
      k below `len(last) - 1`. */
  method AppendNeighbourSums(row: seq<int>, last: seq<int>) returns (extended: seq<int>)
    ensures extended == row + AdjacentSums(last)
  {
    extended := row;
    var k := 0;
    while k < |last| - 1
      invariant 0 <= k <= (if |last| == 0 then 0 else |last| - 1)
      invariant extended == row + AdjacentSums(last)[..k]
    {
      assert AdjacentSums(last)[..k + 1] == AdjacentSums(last)[..k] + [last[k] + last[k + 1]];
      extended := extended + [last[k] + last[k + 1]];
      k := k + 1;
    }
    assert AdjacentSums(last)[..k] == AdjacentSums(last);
  }

  // ---------------------------------------------------------------------
  // Pascal

  /** Row i of Pascal's triangle: the binomial coefficients C(i, 0), ...,
      C(i, i). */
  function PascalRow(i: nat): (r: seq<int>)
    ensures |r| == i + 1
  {
    seq(i + 1, j requires 0 <= j => Binom(i, j))
  }

  /** The start `[[1]]` is unconditional, so any n <= 1 gives one row. */
  function PascalRows(n: int): seq<seq<int>>
  {
    Table(PascalRow, if n <= 1 then 1 else n)
  }

  /** One pass of the outer loop in `PascalTriangle.generate_triangle`:
      a 1, the sums `prev[j - 1] + prev[j]` for j from 1 to len(prev) - 1,
      and a closing 1. */
  method PascalNext(prev: seq<int>) returns (row: seq<int>)
    requires |prev| > 0
    ensures row == NextRow(prev, 1)
  {
    row := [1];
    var j := 1;
    while j < |prev|
      invariant 1 <= j <= |prev|
      invariant row == [1] + AdjacentSums(prev)[..j - 1]
    {
      assert AdjacentSums(prev)[..j] == AdjacentSums(prev)[..j - 1] + [prev[j - 1] + prev[j]];
      row := row + [prev[j - 1] + prev[j]];
      j := j + 1;
    }
    assert AdjacentSums(prev)[..j - 1] == AdjacentSums(prev);
    row := row + [1];
    NextRowConcat(prev, 1);
  }

  /** `PascalTriangle.generate_triangle`: `[[1]]`, then one row for each i
      from 1 to n - 1. */
  method GeneratePascal(n: int) returns (triangle: seq<seq<int>>)
    ensures triangle == PascalRows(n)
  {
    triangle := [[1]];
    assert PascalRow(0) == [1];
    var i := 1;
    while i < n
      invariant 1 <= i <= (if n <= 1 then 1 else n)
      invariant triangle == Table(PascalRow, i)
    {
      var prev := triangle[i - 1];
      assert prev == PascalRow(i - 1);
      var row := PascalNext(prev);
      PascalRule(i);
      TableSnoc(PascalRow, i);
      triangle := triangle + [row];
      i := i + 1;
    }
  }

  /** Pascal's rule: each row is the row before it with 1 at both ends and
      the sums of neighbours inside. */
  lemma PascalRule(i: nat)
    requires i >= 1
    ensures PascalRow(i) == NextRow(PascalRow(i - 1), 1)
  {
    var p, r := PascalRow(i - 1), NextRow(PascalRow(i - 1), 1);
    forall j | 0 <= j <= i ensures PascalRow(i)[j] == r[j] {
      if j == i {
        BinomAll(i);
      } else if j > 0 {
        assert r[j] == p[j - 1] + p[j];
      }
    }
  }

  /** Every row of Pascal's triangle is a palindrome. */
  lemma {:induction false} PascalPalindrome(i: nat)
    ensures Palindrome(PascalRow(i))
  {
    if i == 0 {
      PalindromeMirror(PascalRow(0));
    } else {
      PascalPalindrome(i - 1);
      PascalRule(i);
      NextRowPalindrome(PascalRow(i - 1), 1);
    }
  }

  /** 2 to the power i. */
  function Pow2(i: nat): nat
  {
    if i == 0 then 1 else 2 * Pow2(i - 1)
  }

  /** Row i of Pascal's triangle sums to 2^i. */
  lemma {:induction false} PascalRowSum(i: nat)
    ensures Sum(PascalRow(i)) == Pow2(i)
  {
    if i > 0 {
      var p := PascalRow(i - 1);
      var a := AdjacentSums(p);
      PascalRowSum(i - 1);
      SumAdjacent(p);
      PascalRule(i);
      NextRowConcat(p, 1);
      SumConcat([1] + a, [1]);
      SumConcat([1], a);
      assert Sum(PascalRow(i)) == Sum(a) + 2;
      assert p[0] == 1 && p[|p| - 1] == 1 by {
        BinomAll(i - 1);
      }
    }
  }

  // ---------------------------------------------------------------------
  // Bell

  /** The first j + 1 entries of the row after p in Bell's triangle: it
      starts with the last entry of p, and each further entry adds p[j - 1]
      to the entry before it. */
  function BellPrefix(p: seq<int>, j: nat): (r: seq<int>)
    requires |p| > 0 && j <= |p|
    ensures |r| == j + 1
  {
    if j == 0 then [p[|p| - 1]]
    else
      var q := BellPrefix(p, j - 1);
      q + [q[j - 1] + p[j - 1]]
  }

  /** The whole row after p. */
  function BellNext(p: seq<int>): (r: seq<int>)
    requires |p| > 0
    ensures |r| == |p| + 1
  {
    BellPrefix(p, |p|)
  }

  /** Closed form of a Bell row: entry k is the last entry of the row before
      plus the sum of its first k entries. */
  lemma {:induction false} BellClosedForm(p: seq<int>, j: nat)
    requires |p| > 0 && j <= |p|
    ensures forall k :: 0 <= k <= j ==> BellPrefix(p, j)[k] == p[|p| - 1] + Sum(p[..k])
  {
    if j == 0 {
      assert p[..0] == [];
    } else {
      BellClosedForm(p, j - 1);
      SumPrefix(p, j - 1);
    }
  }

  /** Row i of Bell's triangle. */
  function BellRow(i: nat): (r: seq<int>)
    ensures |r| == i + 1
  {
    if i == 0 then [1] else BellNext(BellRow(i - 1))
  }

  /** The start `[[1]]` is unconditional, so any n <= 1 gives one row. */
  function BellRows(n: int): seq<seq<int>>
  {
    Table(BellRow, if n <= 1 then 1 else n)
  }

  /** One pass of the outer loop in `BellTriangle.generate_triangle`: start
      from the last entry of prev and add `prev[j - 1]` to the running last
      entry for each j from 1 to len(prev). */
  method BellNextRow(prev: seq<int>) returns (row: seq<int>)
    requires |prev| > 0
    ensures row == BellNext(prev)
  {
    row := [prev[|prev| - 1]];
    var j := 1;
    while j < |prev| + 1
      invariant 1 <= j <= |prev| + 1
      invariant row == BellPrefix(prev, j - 1)
    {
      row := row + [row[|row| - 1] + prev[j - 1]];
      j := j + 1;
    }
  }

  /** `BellTriangle.generate_triangle`: `[[1]]`, then one row for each i
      from 1 to n - 1. */
  method GenerateBell(n: int) returns (triangle: seq<seq<int>>)
    ensures triangle == BellRows(n)
  {
    triangle := [[1]];
    var i := 1;
    while i < n
      invariant 1 <= i <= (if n <= 1 then 1 else n)
      invariant triangle == Table(BellRow, i)
    {
      var prev := triangle[i - 1];
      assert prev == BellRow(i - 1);
      var row := BellNextRow(prev);
      TableSnoc(BellRow, i);
      triangle := triangle + [row];
      i := i + 1;
    }
  }

  /** Bell's rule: a row starts with the last entry of the row before, and
      each later entry is its left neighbour plus the entry above that
      neighbour. */
  lemma BellRecurrence(i: nat, j: nat)
    requires 1 <= i && 1 <= j <= i
    ensures BellRow(i)[0] == BellRow(i - 1)[i - 1]
    ensures BellRow(i)[j] == BellRow(i)[j - 1] + BellRow(i - 1)[j - 1]
  {
    var p := BellRow(i - 1);
    BellClosedForm(p, |p|);
    assert p[..0] == [];
    SumPrefix(p, j - 1);
  }

  // ---------------------------------------------------------------------
  // Catalan

  /** Entry (n, k) of the Catalan triangle, `(n - k + 1) * C(n + k, k) // (n + 1)`;
      for the k <= n the generator uses the numerator is non-negative, so
      floored and Euclidean division agree. */
  function CatalanEntry(n: nat, k: nat): int
  {
    (n - k + 1) * Binom(n + k, k) / (n + 1)
  }

  /** Row n of the Catalan triangle. */
  function CatalanRow(n: nat): seq<int>
  {
    seq(n + 1, k requires 0 <= k => CatalanEntry(n, k))
  }

  function CatalanRows(n: int): seq<seq<int>>
  {
    Table(CatalanRow, if n <= 0 then 0 else n)
  }

  /** `CatalanTriangle.generate_triangle`. */
  method GenerateCatalan(n: int) returns (triangle: seq<seq<int>>)
    ensures triangle == CatalanRows(n)
  {
    triangle := [];
    var i := 0;
    while i < n
      invariant 0 <= i <= (if n <= 0 then 0 else n)
      invariant triangle == Table(CatalanRow, i)
    {
      var row := [];
      var k := 0;
      while k < i + 1
        invariant 0 <= k <= i + 1
        invariant |row| == k
        invariant forall m :: 0 <= m < k ==> row[m] == CatalanEntry(i, m)
      {
        var value := (i - k + 1) * Binom(i + k, k) / (i + 1);
        row := row + [value];
        k := k + 1;
      }
      assert row == CatalanRow(i);
      TableSnoc(CatalanRow, i);
      triangle := triangle + [row];
      i := i + 1;
    }
  }

  /** The ballot number C(n + k, k) - C(n + k, k - 1), with value 1 at k == 0. */
  function Ballot(n: nat, k: nat): int
  {
    if k == 0 then 1 else Binom(n + k, k) - Binom(n + k, k - 1)
  }

  /** The division in the Catalan formula is exact: up to k == n + 1 the entry
      is the ballot number, and (n + 1) times it is the numerator. */
  lemma CatalanEntryBallot(n: nat, k: nat)
    requires k <= n + 1
    ensures (n + 1) * Ballot(n, k) == (n - k + 1) * Binom(n + k, k)
    ensures CatalanEntry(n, k) == Ballot(n, k)
  {
    var x := Binom(n + k, k);
    var b := Ballot(n, k);
    if k > 0 {
      var y := Binom(n + k, k - 1);
      Absorption(n + k, k);
      BallotArith(n, k, x, y);
    }
    assert (n + 1) * b == (n - k + 1) * x;
    ExactQuotient((n - k + 1) * x, n + 1, b);
  }

  /** A product q * d divided by d is q. */
  lemma ExactQuotient(p: int, d: int, q: int)
    requires d > 0 && p == d * q
    ensures p / d == q
  {
    DivExact(q, d);
    assert d * q == q * d;
  }

  /** The ring step of CatalanEntryBallot: from k x == (n + 1) y follows
      (n + 1)(x - y) == (n - k + 1) x. */
  lemma BallotArith(n: int, k: int, x: int, y: int)
    requires k * x == (n + 1) * y
    ensures (n + 1) * (x - y) == (n - k + 1) * x
  {
    assert (n + 1) * (x - y) == (n + 1) * x - (n + 1) * y;
    assert (n - k + 1) * x == (n + 1) * x - k * x;
  }

  /** Ballot numbers add like the paths they count: (n, k) is reached from
      (n, k - 1) and from (n - 1, k). */
  lemma BallotStep(n: nat, k: nat)
    requires 1 <= k <= n
    ensures Ballot(n, k) == Ballot(n, k - 1) + Ballot(n - 1, k)
  {
    if k == 1 {
      assert Binom(n + 1, 1) == Binom(n, 0) + Binom(n, 1);
    } else {
      assert Binom(n + k, k) == Binom(n + k - 1, k - 1) + Binom(n + k - 1, k);
      assert Binom(n + k, k - 1) == Binom(n + k - 1, k - 2) + Binom(n + k - 1, k - 1);
    }
  }

  /** The Catalan rule: inside row n, entry k is its left neighbour plus the
      entry above it. */
  lemma CatalanRecurrence(n: nat, k: nat)
    requires 1 <= k < n
    ensures CatalanEntry(n, k) == CatalanEntry(n, k - 1) + CatalanEntry(n - 1, k)
  {
    BallotStep(n, k);
    CatalanEntryBallot(n, k);
    CatalanEntryBallot(n, k - 1);
    CatalanEntryBallot(n - 1, k);
  }

  /** The entry above the last one of row n would be 0, so the last two
      entries of a row agree. */
  lemma CatalanLastTwo(n: nat)
    requires 1 <= n
    ensures CatalanEntry(n, n) == CatalanEntry(n, n - 1)
  {
    BallotStep(n, n);
    CatalanEntryBallot(n - 1, n);
    var above := Ballot(n - 1, n);
    assert n * above == 0 * Binom(n - 1 + n, n);
    assert above * n == 0 * n;
    MulCancel(above, 0, n);
    CatalanEntryBallot(n, n);
    CatalanEntryBallot(n, n - 1);
  }

  /** The last entry of row n is the Catalan number C(n) of Segner's
      recurrence; checked here for the listed rows. */
  lemma CatalanLastSmall()
    ensures forall n :: 0 <= n < 4 ==> CatalanEntry(n, n) == Sequences.CatalanNumber(n)
  {
    CatalanExample();
    var rows := CatalanRows(4);
    assert rows[2] == CatalanRow(2) && rows[3] == CatalanRow(3);
    assert Sequences.CatalanNumber(2) == 2;
    assert Sequences.CatalanNumber(3) == 5;
  }

  /** Every entry of the Catalan triangle is positive and row n starts with 1. */
  lemma {:induction false} CatalanEntryPositive(n: nat, k: nat)
    requires k <= n
    ensures CatalanEntry(n, k) >= 1
    ensures CatalanEntry(n, 0) == 1
    decreases n, k
  {
    CatalanEntryBallot(n, 0);
    if k > 0 {
      CatalanEntryPositive(n, k - 1);
      if k < n {
        CatalanRecurrence(n, k);
        CatalanEntryPositive(n - 1, k);
      } else {
        CatalanLastTwo(n);
      }
    }
  }

  // ---------------------------------------------------------------------
  // Floyd

  /** The k-th triangular number k * (k + 1) / 2. */
  function Triangular(k: nat): nat
  {
    k * (k + 1) / 2
  }

  /** The next triangular number adds k + 1. */
  lemma TriangularStep(k: nat)
    ensures Triangular(k + 1) == Triangular(k) + k + 1
  {
    assert (k + 1) * (k + 2) == k * (k + 1) + 2 * (k + 1);
  }

  /** Row i counts on from the last number of row i - 1. */
  function FloydRow(i: nat): seq<int>
  {
    seq(i + 1, j => Triangular(i) + j + 1)
  }

  function FloydRows(n: int): seq<seq<int>>
  {
    Table(FloydRow, if n <= 0 then 0 else n)
  }

  /** `FloydsTriangle.generate_triangle`: a running counter `num` fills the
      rows 1, 2, ..., n entries long. */
  method GenerateFloyd(n: int) returns (triangle: seq<seq<int>>)
    ensures triangle == FloydRows(n)
  {
    triangle := [];
    var num := 1;
    var i := 1;
    while i <= n
      invariant 1 <= i <= (if n <= 0 then 1 else n + 1)
      invariant triangle == Table(FloydRow, i - 1)
      invariant num == Triangular(i - 1) + 1
    {
      var row := [];
      var c := 0;
      while c < i
        invariant 0 <= c <= i
        invariant |row| == c
        invariant num == Triangular(i - 1) + c + 1
        invariant forall j :: 0 <= j < c ==> row[j] == Triangular(i - 1) + j + 1
      {
        row := row + [num];
        num := num + 1;
        c := c + 1;
      }
      TriangularStep(i - 1);
      assert row == FloydRow(i - 1);
      TableSnoc(FloydRow, i - 1);
      triangle := triangle + [row];
      i := i + 1;
    }
  }

  /** Read row by row, Floyd's triangle of m rows is 1, 2, ..., m(m + 1)/2. */
  lemma {:induction false} FloydFlatten(m: nat)
    ensures Flatten(FloydRows(m)) == seq(Triangular(m), k => k + 1)
  {
    if m > 0 {
      var rows := FloydRows(m);
      assert rows[..m - 1] == FloydRows(m - 1);
      FloydFlatten(m - 1);
      TriangularStep(m - 1);
      assert Flatten(rows) == seq(Triangular(m - 1), k => k + 1) + rows[m - 1];
    }
  }

  // ---------------------------------------------------------------------
  // Hosoya

  /** Entry (i, j) of Hosoya's triangle, F(j + 1) * F(i - j + 1). */
  function HosoyaEntry(i: nat, j: nat): int
    requires j <= i
  {
    Sequences.Fib(j + 1) * Sequences.Fib(i - j + 1)
  }

  function HosoyaRow(i: nat): seq<int>
  {
    seq(i + 1, j requires 0 <= j <= i => HosoyaEntry(i, j))
  }

  function HosoyaRows(n: int): seq<seq<int>>
  {
    Table(HosoyaRow, if n <= 0 then 0 else n)
  }

  /** `HosoyaTriangle.generate_triangle`: two calls of `fibonacci` per entry. */
  method GenerateHosoya(n: int) returns (triangle: seq<seq<int>>)
    ensures triangle == HosoyaRows(n)
  {
    triangle := [];
    var i := 0;
    while i < n
      invariant 0 <= i <= (if n <= 0 then 0 else n)
      invariant triangle == Table(HosoyaRow, i)
    {
      var row := [];
      var j := 0;
      while j < i + 1
        invariant 0 <= j <= i + 1
        invariant |row| == j
        invariant forall k :: 0 <= k < j ==> row[k] == HosoyaEntry(i, k)
      {
        var left := Sequences.Fibonacci(j + 1);
        var right := Sequences.Fibonacci(i - j + 1);
        row := row + [left * right];
        j := j + 1;
      }
      assert row == HosoyaRow(i);
      TableSnoc(HosoyaRow, i);
      triangle := triangle + [row];
      i := i + 1;
    }
  }

  /** Every row of Hosoya's triangle is a palindrome, its edges are Fibonacci
      numbers, and below row 1 an entry off the right edge is the sum of the
      two entries above it in its column. */
  lemma HosoyaProperties(i: nat, j: nat)
    requires j <= i
    ensures HosoyaEntry(i, j) == HosoyaEntry(i, i - j)
    ensures HosoyaEntry(i, 0) == Sequences.Fib(i + 1)
    ensures j + 2 <= i ==> HosoyaEntry(i, j) == HosoyaEntry(i - 1, j) + HosoyaEntry(i - 2, j)
  {
    var f := Sequences.Fib(j + 1);
    if j + 2 <= i {
      assert Sequences.Fib(i - j + 1) == Sequences.Fib(i - j) + Sequences.Fib(i - j - 1);
      assert f * (Sequences.Fib(i - j) + Sequences.Fib(i - j - 1)) ==
        f * Sequences.Fib(i - j) + f * Sequences.Fib(i - j - 1);
    }
  }

  /** Hence every row of the generated Hosoya triangle is a palindrome. */
  lemma HosoyaSymmetric(n: int)
    ensures FullShape(HosoyaRows(n)) && AllPalindromes(HosoyaRows(n))
  {
    var rows := HosoyaRows(n);
    forall i | 0 <= i < |rows| ensures Palindrome(rows[i]) {
      forall j | 0 <= j <= i ensures rows[i][j] == rows[i][|rows[i]| - 1 - j] {
        HosoyaProperties(i, j);
      }
      PalindromeMirror(rows[i]);
    }
  }

  // ---------------------------------------------------------------------
  // Fibonacci-Pascal and Lucas-Pascal

  /** Row i: both edges F(i + 1), the inside as in Pascal's triangle. */
  function FibonacciPascalRow(i: nat): (r: seq<int>)
    ensures |r| == i + 1
  {
    if i == 0 then [1] else NextRow(FibonacciPascalRow(i - 1), Sequences.Fib(i + 1))
  }

  /** Row i >= 1 is F(i + 1), the sums of neighbours in row i - 1, and
      F(i + 1) again. */
  lemma FibonacciPascalRowStep(i: nat)
    requires i >= 1
    ensures FibonacciPascalRow(i) == [Sequences.Fib(i + 1)] + AdjacentSums(FibonacciPascalRow(i - 1)) + [Sequences.Fib(i + 1)]
  {
    NextRowConcat(FibonacciPascalRow(i - 1), Sequences.Fib(i + 1));
  }

  /** n == 0 returns early with no rows; any other n <= 1 keeps the first row. */
  function FibonacciPascalRows(n: int): seq<seq<int>>
  {
    if n == 0 then [] else Table(FibonacciPascalRow, if n < 1 then 1 else n)
  }

  /** One pass of the loop in `FibonacciPascalTriangle.generate_triangle`: 1-based row rowNum
      is `fibonacci(rowNum)`, the sums of neighbours in the last row, and
      `fibonacci(rowNum)` again. */
  method FibonacciPascalNext(lastRow: seq<int>, rowNum: int) returns (newRow: seq<int>)
    requires rowNum >= 2 && lastRow == FibonacciPascalRow(rowNum - 2)
    ensures newRow == FibonacciPascalRow(rowNum - 1)
  {
    var first := Sequences.Fibonacci(rowNum);
    newRow := [first];
    newRow := AppendNeighbourSums(newRow, lastRow);
    var last := Sequences.Fibonacci(rowNum);
    newRow := newRow + [last];
    FibonacciPascalRowStep(rowNum - 1);
  }

  /** `FibonacciPascalTriangle.generate_triangle`: no rows for n == 0, else `[[1]]` and one
      more row for each rowNum from 2 to n. */
  method GenerateFibonacciPascal(n: int) returns (triangle: seq<seq<int>>)
    ensures triangle == FibonacciPascalRows(n)
  {
    if n == 0 {
      return [];
    }
    triangle := [[1]];
    var rowNum := 2;
    while rowNum <= n
      invariant 2 <= rowNum <= (if n < 2 then 2 else n + 1)
      invariant triangle == Table(FibonacciPascalRow, rowNum - 1)
    {
      var lastRow := triangle[|triangle| - 1];
      assert lastRow == FibonacciPascalRow(rowNum - 2);
      var newRow := FibonacciPascalNext(lastRow, rowNum);
      TableSnoc(FibonacciPascalRow, rowNum - 1);
      triangle := triangle + [newRow];
      rowNum := rowNum + 1;
    }
  }

  /** Every row of the Fibonacci-Pascal triangle is a palindrome. */
  lemma {:induction false} FibonacciPascalPalindrome(i: nat)
    ensures Palindrome(FibonacciPascalRow(i))
  {
    if i == 0 {
      PalindromeMirror(FibonacciPascalRow(0));
    } else {
      FibonacciPascalPalindrome(i - 1);
      NextRowPalindrome(FibonacciPascalRow(i - 1), Sequences.Fib(i + 1));
    }
  }

  /** Row i: both edges L(i + 1), the inside as in Pascal's triangle. */
  function LucasPascalRow(i: nat): (r: seq<int>)
    ensures |r| == i + 1
  {
    if i == 0 then [1] else NextRow(LucasPascalRow(i - 1), Sequences.Lucas(i + 1))
  }

  /** Row i >= 1 is L(i + 1), the sums of neighbours in row i - 1, and
      L(i + 1) again. */
  lemma LucasPascalRowStep(i: nat)
    requires i >= 1
    ensures LucasPascalRow(i) == [Sequences.Lucas(i + 1)] + AdjacentSums(LucasPascalRow(i - 1)) + [Sequences.Lucas(i + 1)]
  {
    NextRowConcat(LucasPascalRow(i - 1), Sequences.Lucas(i + 1));
  }

  /** n == 0 returns early with no rows; any other n <= 1 keeps the first row. */
  function LucasPascalRows(n: int): seq<seq<int>>
  {
    if n == 0 then [] else Table(LucasPascalRow, if n < 1 then 1 else n)
  }

  /** One pass of the loop in `LucasPascalTriangle.generate_triangle`: 1-based row rowNum
      is `lucas(rowNum)`, the sums of neighbours in the last row, and
      `lucas(rowNum)` again. */
  method LucasPascalNext(lastRow: seq<int>, rowNum: int) returns (newRow: seq<int>)
    requires rowNum >= 2 && lastRow == LucasPascalRow(rowNum - 2)
    ensures newRow == LucasPascalRow(rowNum - 1)
  {
    var first := Sequences.LucasNumber(rowNum);
    newRow := [first];
    newRow := AppendNeighbourSums(newRow, lastRow);
    var last := Sequences.LucasNumber(rowNum);
    newRow := newRow + [last];
    LucasPascalRowStep(rowNum - 1);
  }

  /** `LucasPascalTriangle.generate_triangle`: no rows for n == 0, else `[[1]]` and one
      more row for each rowNum from 2 to n. */
  method GenerateLucasPascal(n: int) returns (triangle: seq<seq<int>>)
    ensures triangle == LucasPascalRows(n)
  {
    if n == 0 {
      return [];
    }
    triangle := [[1]];
    var rowNum := 2;
    while rowNum <= n
      invariant 2 <= rowNum <= (if n < 2 then 2 else n + 1)
      invariant triangle == Table(LucasPascalRow, rowNum - 1)
    {
      var lastRow := triangle[|triangle| - 1];
      assert lastRow == LucasPascalRow(rowNum - 2);
      var newRow := LucasPascalNext(lastRow, rowNum);
      TableSnoc(LucasPascalRow, rowNum - 1);
      triangle := triangle + [newRow];
      rowNum := rowNum + 1;
    }
  }

  /** Every row of the Lucas-Pascal triangle is a palindrome. */
  lemma {:induction false} LucasPascalPalindrome(i: nat)
    ensures Palindrome(LucasPascalRow(i))
  {
    if i == 0 {
      PalindromeMirror(LucasPascalRow(0));
    } else {
      LucasPascalPalindrome(i - 1);
      NextRowPalindrome(LucasPascalRow(i - 1), Sequences.Lucas(i + 1));
    }
  }

  // ---------------------------------------------------------------------
  // The kinds of triangle and their construction

  /** The triangle classes: the abstract base class and the seven concrete
      ones. */
  datatype Kind =
    | AbstractTriangle
    | BellTriangle
    | CatalanTriangle
    | FloydsTriangle
    | HosoyaTriangle
    | PascalTriangle
    | FibonacciPascalTriangle
    | LucasPascalTriangle

  /** What `generate_triangle` returns for each kind; the base class raises
      NotImplementedError. */
  function Rows(kind: Kind, n: int): Result<seq<seq<int>>>
  {
    match kind
    case AbstractTriangle => Err(NotImplementedError)
    case BellTriangle => Ok(BellRows(n))
    case CatalanTriangle => Ok(CatalanRows(n))
    case FloydsTriangle => Ok(FloydRows(n))
    case HosoyaTriangle => Ok(HosoyaRows(n))
    case PascalTriangle => Ok(PascalRows(n))
    case FibonacciPascalTriangle => Ok(FibonacciPascalRows(n))
    case LucasPascalTriangle => Ok(LucasPascalRows(n))
  }

  /** How many rows a kind produces for n: Bell and Pascal always start with
      one row, Fibonacci-Pascal and Lucas-Pascal return early only for n == 0,
      the others produce one row per number in `range(n)`. */
  function RowCount(kind: Kind, n: int): nat
  {
    match kind
    case BellTriangle | PascalTriangle => if n <= 1 then 1 else n
    case FibonacciPascalTriangle | LucasPascalTriangle => if n == 0 then 0 else if n < 1 then 1 else n
    case _ => if n <= 0 then 0 else n
  }

  /** `generate_triangle`, dispatched on the kind. */
  method Generate(kind: Kind, n: int) returns (res: Result<seq<seq<int>>>)
    ensures res == Rows(kind, n)
  {
    match kind
    case AbstractTriangle => res := Err(NotImplementedError);
    case BellTriangle => var rows := GenerateBell(n); res := Ok(rows);
    case CatalanTriangle => var rows := GenerateCatalan(n); res := Ok(rows);
    case FloydsTriangle => var rows := GenerateFloyd(n); res := Ok(rows);
    case HosoyaTriangle => var rows := GenerateHosoya(n); res := Ok(rows);
    case PascalTriangle => var rows := GeneratePascal(n); res := Ok(rows);
    case FibonacciPascalTriangle => var rows := GenerateFibonacciPascal(n); res := Ok(rows);
    case LucasPascalTriangle => var rows := GenerateLucasPascal(n); res := Ok(rows);
  }

  /** `Triangle.__init__`: records n and stores the generated rows; on the
      base class the generator raises. */
  method Construct(kind: Kind, n: int) returns (res: Result<Triangle>)
    ensures res.Err? <==> kind == AbstractTriangle
    ensures res.Err? ==> res.error == NotImplementedError
    ensures res.Ok? ==> res.value.n == n && Rows(kind, n) == Ok(res.value.rows)
  {
    var rows := Generate(kind, n);
    if rows.Err? {
      return Err(rows.error);
    }
    return Ok(Triangle(n, rows.value));
  }

  /** Every concrete kind produces a full triangle (row i has i + 1 entries)
      with the documented number of rows. */
  lemma ConcreteShape(kind: Kind, n: int)
    requires kind != AbstractTriangle
    ensures Rows(kind, n).Ok?
    ensures |Rows(kind, n).value| == RowCount(kind, n)
    ensures FullShape(Rows(kind, n).value)
  {
  }

  /** Hence on every constructed triangle the row queries succeed: the column
      sums exist once there is a row, the row differences always do, and the
      right and left diagonals all exist. */
  lemma ConcreteQueries(kind: Kind, n: int, d: nat)
    requires kind != AbstractTriangle
    ensures NonShrinking(Rows(kind, n).value)
    ensures |Rows(kind, n).value| > 0 ==> LastIsWidest(Rows(kind, n).value)
    ensures DiagonalOf(Rows(kind, n).value, d, "right").Ok? && DiagonalOf(Rows(kind, n).value, d, "left").Ok?
  {
    ConcreteShape(kind, n);
    DiagonalOfFullShape(Rows(kind, n).value, d);
  }

  /** Pascal's triangle and its two relatives are symmetric, so `is_symmetric`
      holds of them and their right and left diagonals coincide. */
  lemma PascalLikeSymmetric(kind: Kind, n: int, d: nat)
    requires kind == PascalTriangle || kind == FibonacciPascalTriangle || kind == LucasPascalTriangle
    ensures AllPalindromes(Rows(kind, n).value)
    ensures DiagonalOf(Rows(kind, n).value, d, "right") == DiagonalOf(Rows(kind, n).value, d, "left")
  {
    var rows := Rows(kind, n).value;
    forall i | 0 <= i < |rows| ensures Palindrome(rows[i]) {
      match kind
      case PascalTriangle => PascalPalindrome(i);
      case FibonacciPascalTriangle => FibonacciPascalPalindrome(i);
      case LucasPascalTriangle => LucasPascalPalindrome(i);
    }
    ConcreteShape(kind, n);
    SymmetricDiagonals(rows, d);
  }

  // The first rows of each triangle.

  lemma BellExample()
    ensures BellRows(5) == [[1], [1, 2], [2, 3, 5], [5, 7, 10, 15], [15, 20, 27, 37, 52]]
  {
    assert BellRow(0) == [1];
    assert BellRow(1) == [1, 2];
    assert BellRow(2) == [2, 3, 5];
    assert BellRow(3) == [5, 7, 10, 15];
    assert BellRow(4) == [15, 20, 27, 37, 52];
  }

  lemma CatalanExample()
    ensures CatalanRows(4) == [[1], [1, 1], [1, 2, 2], [1, 3, 5, 5]]
  {
    assert CatalanRow(0) == [1];
    assert CatalanRow(1) == [1, 1];
    assert CatalanRow(2) == [1, 2, 2];
    assert CatalanRow(3) == [1, 3, 5, 5];
  }

  lemma FloydExample()
    ensures FloydRows(4) == [[1], [2, 3], [4, 5, 6], [7, 8, 9, 10]]
  {
    assert FloydRow(0) == [1];
    assert FloydRow(1) == [2, 3];
    assert FloydRow(2) == [4, 5, 6];
    assert FloydRow(3) == [7, 8, 9, 10];
  }

  lemma HosoyaExample()
    ensures HosoyaRows(5) == [[1], [1, 1], [2, 1, 2], [3, 2, 2, 3], [5, 3, 4, 3, 5]]
  {
    assert HosoyaRow(0) == [1];
    assert HosoyaRow(1) == [1, 1];
    assert HosoyaRow(2) == [2, 1, 2];
    assert HosoyaRow(3) == [3, 2, 2, 3];
    assert HosoyaRow(4) == [5, 3, 4, 3, 5];
  }

  lemma PascalExample()
    ensures PascalRows(5) == [[1], [1, 1], [1, 2, 1], [1, 3, 3, 1], [1, 4, 6, 4, 1]]
  {
    assert PascalRow(0) == [1];
    assert PascalRow(1) == [1, 1];
    assert PascalRow(2) == [1, 2, 1];
    assert PascalRow(3) == [1, 3, 3, 1];
    assert PascalRow(4) == [1, 4, 6, 4, 1];
  }

  lemma FibonacciPascalExample()
    ensures FibonacciPascalRows(5) == [[1], [1, 1], [2, 2, 2], [3, 4, 4, 3], [5, 7, 8, 7, 5]]
  {
    assert FibonacciPascalRow(0) == [1];
    assert FibonacciPascalRow(1) == [1, 1];
    assert FibonacciPascalRow(2) == [2, 2, 2];
    assert FibonacciPascalRow(3) == [3, 4, 4, 3];
    assert FibonacciPascalRow(4) == [5, 7, 8, 7, 5];
  }

  lemma LucasPascalExample()
    ensures LucasPascalRows(5) == [[1], [3, 3], [4, 6, 4], [7, 10, 10, 7], [11, 17, 20, 17, 11]]
  {
    assert LucasPascalRow(0) == [1];
    assert LucasPascalRow(1) == [3, 3];
    assert LucasPascalRow(2) == [4, 6, 4];
    assert LucasPascalRow(3) == [7, 10, 10, 7];
    assert LucasPascalRow(4) == [11, 17, 20, 17, 11];
  }
}
