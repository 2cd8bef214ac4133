/** The shared triangle abstraction: a materialised array of rows and the
    read-only queries every kind of triangle answers. Each query reads only
    the rows (the `triangle` attribute); the rising-diagonal sums also read
    the requested row count `n`. */
module TriangleBase {
  import opened Common
  import opened Numeric

  /** A triangle as constructed: the requested row count and the rows the
      generator produced for it. */
  datatype Triangle = Triangle(n: int, rows: seq<seq<int>>)

  /** Row i holds exactly i + 1 entries: the shape every generator produces. */
  predicate FullShape(rows: seq<seq<int>>)
  {
    forall i :: 0 <= i < |rows| ==> |rows[i]| == i + 1
  }

  /** `len(t)`: the number of rows. */
  function Length(t: Triangle): nat
  {
    |t.rows|
  }

  /** `t[key]`: Python indexing into the rows. */
  function GetItem(t: Triangle, key: int): (r: Result<seq<int>>)
    ensures r.Ok? <==> -|t.rows| <= key < |t.rows|
    ensures 0 <= key < |t.rows| ==> r == Ok(t.rows[key])
    ensures -|t.rows| <= key < 0 ==> r == Ok(t.rows[|t.rows| + key])
    ensures r.Err? ==> r.error == IndexError
  {
    PyIndex(t.rows, key)
  }

  /** `rows[i][j]` with Python indexing at both levels. */
  function Cell(rows: seq<seq<int>>, i: int, j: int): (r: Result<int>)
    ensures 0 <= i < |rows| && 0 <= j < |rows[i]| ==> r == Ok(rows[i][j])
    ensures r.Ok? <==> -|rows| <= i < |rows| && -|rows[Wrap(|rows|, i)]| <= j < |rows[Wrap(|rows|, i)]|
    ensures r.Ok? ==> r.value == rows[Wrap(|rows|, i)][Wrap(|rows[Wrap(|rows|, i)]|, j)]
    ensures r.Err? ==> r.error == IndexError
  {
    match PyIndex(rows, i)
    case Err(e) => Err(e)
    case Ok(row) => PyIndex(row, j)
  }

  // ---------------------------------------------------------------------
  // Flattening and row sums

  /** `flatten`: the entries row by row, left to right within a row. */
  function Flatten(rows: seq<seq<int>>): (r: seq<int>)
    ensures |r| == Sum(Sizes(rows))
  {
    if |rows| == 0 then []
    else
      assert Sizes(rows)[..|rows| - 1] == Sizes(rows[..|rows| - 1]);
      Flatten(rows[..|rows| - 1]) + rows[|rows| - 1]
  }

  /** The row lengths. */
  function Sizes(rows: seq<seq<int>>): seq<int>
  {
    seq(|rows|, i requires 0 <= i < |rows| => |rows[i]|)
  }

  /** `row_sums`: one sum per row, in row order. */
  function RowSums(rows: seq<seq<int>>): (r: seq<int>)
    ensures |r| == |rows|
  {
    seq(|rows|, i requires 0 <= i < |rows| => Sum(rows[i]))
  }

  /** `cumulative_row_sums`: entry i is the total of the first i + 1 row sums. */
  function CumulativeRowSums(rows: seq<seq<int>>): (r: seq<int>)
    ensures |r| == |rows|
  {
    var sums := RowSums(rows);
    seq(|rows|, i requires 0 <= i < |rows| => Sum(sums[..i + 1]))
  }

  /** Flattening holds every entry once: its length is the total of the row
      lengths and its sum is the total of the row sums. */
  lemma {:induction false} FlattenTotals(rows: seq<seq<int>>)
    ensures |Flatten(rows)| == Sum(Sizes(rows))
    ensures Sum(Flatten(rows)) == Sum(RowSums(rows))
  {
    if |rows| > 0 {
      var init := rows[..|rows| - 1];
      FlattenTotals(init);
      assert Sizes(rows)[..|rows| - 1] == Sizes(init);
      assert RowSums(rows)[..|rows| - 1] == RowSums(init);
      SumConcat(Flatten(init), rows[|rows| - 1]);
    }
  }

  /** Entry j of row i sits in the flattened list right after all entries of
      the earlier rows. */
  lemma {:induction false} FlattenAt(rows: seq<seq<int>>, i: nat, j: nat)
    requires i < |rows| && j < |rows[i]|
    ensures 0 <= Sum(Sizes(rows[..i])) + j < |Flatten(rows)| &&
            Flatten(rows)[Sum(Sizes(rows[..i])) + j] == rows[i][j]
    decreases |rows|
  {
    FlattenTotals(rows[..i]);
    var init := rows[..|rows| - 1];
    FlattenTotals(init);
    assert rows[..|rows| - 1][..i] == rows[..i] || i == |rows| - 1;
    if i == |rows| - 1 {
      assert rows[..i] == init;
    } else {
      assert init[..i] == rows[..i];
      FlattenAt(init, i, j);
    }
  }

  /** A full triangle of m rows holds m * (m + 1) / 2 entries. */
  lemma {:induction false} FullShapeSize(rows: seq<seq<int>>)
    requires FullShape(rows)
    ensures |Flatten(rows)| == |rows| * (|rows| + 1) / 2
  {
    FlattenTotals(rows);
    assert Sizes(rows) == seq(|rows|, k => k + 1);
    SumOfRange(|rows|);
  }

  /** Each cumulative sum adds the next row sum to the one before it. */
  lemma CumulativeRowSumsStep(rows: seq<seq<int>>, i: nat)
    requires 1 <= i < |rows|
    ensures CumulativeRowSums(rows)[i] == CumulativeRowSums(rows)[i - 1] + RowSums(rows)[i]
  {
    SumPrefix(RowSums(rows), i);
  }

  /** The first cumulative sum is the first row sum. */
  lemma CumulativeRowSumsFirst(rows: seq<seq<int>>)
    requires |rows| > 0
    ensures CumulativeRowSums(rows)[0] == RowSums(rows)[0]
  {
    SumPrefix(RowSums(rows), 0);
  }

  /** The last cumulative sum is the total of the flattened triangle. */
  lemma CumulativeRowSumsLast(rows: seq<seq<int>>)
    requires |rows| > 0
    ensures CumulativeRowSums(rows)[|rows| - 1] == Sum(Flatten(rows))
  {
    var sums := RowSums(rows);
    assert sums[..|rows|] == sums;
    FlattenTotals(rows);
  }

  // ---------------------------------------------------------------------
  // Column sums and row differences

  /** The sum of entry c over the rows that are longer than c. */
  function ColumnTotal(rows: seq<seq<int>>, c: nat): int
  {
    if |rows| == 0 then 0
    else ColumnTotal(rows[..|rows| - 1], c) + (if c < |rows[|rows| - 1]| then rows[|rows| - 1][c] else 0)
  }

  /** No row is longer than the last one. */
  predicate LastIsWidest(rows: seq<seq<int>>)
    requires |rows| > 0
  {
    forall i :: 0 <= i < |rows| ==> |rows[i]| <= |rows[|rows| - 1]|
  }

  /** `column_sums`: as many sums as the last row has entries, each filled in
      place by walking every row. An empty triangle, or a row longer than the
      last, raises IndexError. */
  method ColumnSums(rows: seq<seq<int>>) returns (res: Result<seq<int>>)
    ensures res.Ok? <==> |rows| > 0 && LastIsWidest(rows)
    ensures res.Err? ==> res.error == IndexError
    ensures res.Ok? ==> (|res.value| == |rows[|rows| - 1]| &&
      forall c :: 0 <= c < |res.value| ==> res.value[c] == ColumnTotal(rows, c))
  {
    if |rows| == 0 {
      return Err(IndexError);
    }
    var width := |rows[|rows| - 1]|;
    var sums := new int[width](_ => 0);
    var r := 0;
    while r < |rows|
      invariant 0 <= r <= |rows|
      invariant forall i :: 0 <= i < r ==> |rows[i]| <= width
      invariant forall c :: 0 <= c < width ==> sums[c] == ColumnTotal(rows[..r], c)
    {
      var row := rows[r];
      assert rows[..r + 1][..r] == rows[..r];
      var j := 0;
      while j < |row|
        invariant 0 <= j <= |row| && j <= width
        invariant forall c :: 0 <= c < width ==>
          sums[c] == ColumnTotal(rows[..r], c) + (if c < j then row[c] else 0)
      {
        if j >= width {
          return Err(IndexError);
        }
        sums[j] := sums[j] + row[j];
        j := j + 1;
      }
      r := r + 1;
    }
    assert rows[..|rows|] == rows;
    return Ok(sums[..]);
  }

  /** Each row is at least as long as the one before it. */
  predicate NonShrinking(rows: seq<seq<int>>)
  {
    forall i :: 1 <= i < |rows| ==> |rows[i - 1]| <= |rows[i]|
  }

  /** `row_differences`: for each row after the first, the entrywise
      difference with its predecessor over the predecessor's columns. A row
      shorter than its predecessor raises IndexError. */
  method RowDifferences(rows: seq<seq<int>>) returns (res: Result<seq<seq<int>>>)
    ensures res.Ok? <==> NonShrinking(rows)
    ensures res.Err? ==> res.error == IndexError
    ensures res.Ok? ==> |res.value| == (if |rows| == 0 then 0 else |rows| - 1)
    ensures res.Ok? ==> forall i :: 0 <= i < |res.value| ==>
      |res.value[i]| == |rows[i]| &&
      forall j :: 0 <= j < |rows[i]| ==> res.value[i][j] == rows[i + 1][j] - rows[i][j]
  {
    var differences := [];
    var i := 1;
    while i < |rows|
      invariant 1 <= i <= if |rows| == 0 then 1 else |rows|
      invariant |differences| == i - 1
      invariant forall k :: 1 <= k < i ==> |rows[k - 1]| <= |rows[k]|
      invariant forall k :: 0 <= k < i - 1 ==>
        |differences[k]| == |rows[k]| &&
        forall j :: 0 <= j < |rows[k]| ==> differences[k][j] == rows[k + 1][j] - rows[k][j]
    {
      if |rows[i]| < |rows[i - 1]| {
        return Err(IndexError);
      }
      var diff := seq(|rows[i - 1]|, j requires 0 <= j < |rows[i - 1]| => rows[i][j] - rows[i - 1][j]);
      differences := differences + [diff];
      i := i + 1;
    }
    return Ok(differences);
  }

  // ---------------------------------------------------------------------
  // Diagonals

  /** The number of cells on diagonal d: `range(d, len)` and `range(len - d)`
      both have len - d elements, or none. */
  function DiagonalLength(rows: seq<seq<int>>, d: int): nat
  {
    if d < |rows| then |rows| - d else 0
  }

  /** The recognised directions. */
  predicate IsDirection(direction: string)
  {
    direction == "right" || direction == "left"
  }

  /** Step k of diagonal d: `rows[d + k][d]` going right, `rows[k + d][k]`
      going left. */
  function DiagonalCell(rows: seq<seq<int>>, d: int, direction: string, k: int): Result<int>
  {
    if direction == "right" then Cell(rows, d + k, d) else Cell(rows, k + d, k)
  }

  /** Diagonal d in a direction: ValueError for an unknown direction,
      IndexError when a visited cell is missing, else the visited cells in
      order. */
  function DiagonalOf(rows: seq<seq<int>>, d: int, direction: string): (r: Result<seq<int>>)
    ensures r.Ok? ==> |r.value| == DiagonalLength(rows, d)
  {
    if !IsDirection(direction) then Err(ValueError)
    else if forall k :: 0 <= k < DiagonalLength(rows, d) ==> DiagonalCell(rows, d, direction, k).Ok? then
      Ok(seq(DiagonalLength(rows, d), k requires 0 <= k < DiagonalLength(rows, d) && DiagonalCell(rows, d, direction, k).Ok? =>
        DiagonalCell(rows, d, direction, k).value))
    else Err(IndexError)
  }

  /** `diagonal`: walks the cells of diagonal d one by one and collects them. */
  method Diagonal(rows: seq<seq<int>>, d: int, direction: string := "right") returns (res: Result<seq<int>>)
    ensures res == DiagonalOf(rows, d, direction)
  {
    var diagonal := [];
    if direction == "right" {
      var i := d;
      while i < |rows|
        invariant d <= i && (i <= |rows| || i == d)
        invariant |diagonal| == i - d
        invariant forall k :: 0 <= k < i - d ==> DiagonalCell(rows, d, direction, k) == Ok(diagonal[k])
      {
        var v := Cell(rows, i, d);
        if v.Err? {
          assert DiagonalCell(rows, d, direction, i - d).Err?;
          return Err(IndexError);
        }
        diagonal := diagonal + [v.value];
        i := i + 1;
      }
    } else if direction == "left" {
      var i := 0;
      while i < |rows| - d
        invariant 0 <= i && (i <= |rows| - d || i == 0)
        invariant |diagonal| == i
        invariant forall k :: 0 <= k < i ==> DiagonalCell(rows, d, direction, k) == Ok(diagonal[k])
      {
        var v := Cell(rows, i + d, i);
        if v.Err? {
          assert DiagonalCell(rows, d, direction, i).Err?;
          return Err(IndexError);
        }
        diagonal := diagonal + [v.value];
        i := i + 1;
      }
    } else {
      return Err(ValueError);
    }
    var expected := DiagonalOf(rows, d, direction);
    assert expected.Ok?;
    assert diagonal == expected.value;
    return Ok(diagonal);
  }

  /** On a full triangle every diagonal d >= 0 exists: going right it is column
      d from row d down, going left the cells (k + d, k). */
  lemma DiagonalOfFullShape(rows: seq<seq<int>>, d: nat)
    requires FullShape(rows)
    ensures DiagonalOf(rows, d, "right").Ok? && DiagonalOf(rows, d, "left").Ok?
    ensures forall k :: 0 <= k < DiagonalLength(rows, d) ==>
      DiagonalOf(rows, d, "right").value[k] == rows[d + k][d] &&
      DiagonalOf(rows, d, "left").value[k] == rows[k + d][k]
  {
    forall k | 0 <= k < DiagonalLength(rows, d)
      ensures DiagonalCell(rows, d, "right", k) == Ok(rows[d + k][d])
      ensures DiagonalCell(rows, d, "left", k) == Ok(rows[k + d][k])
    {
      assert |rows[d + k]| == d + k + 1;
    }
  }

  /** On a full triangle whose rows are palindromes, the right and the left
      diagonal with the same index coincide. */
  lemma SymmetricDiagonals(rows: seq<seq<int>>, d: nat)
    requires FullShape(rows) && AllPalindromes(rows)
    ensures DiagonalOf(rows, d, "right") == DiagonalOf(rows, d, "left")
  {
    DiagonalOfFullShape(rows, d);
    var right, left := DiagonalOf(rows, d, "right").value, DiagonalOf(rows, d, "left").value;
    forall k | 0 <= k < DiagonalLength(rows, d) ensures right[k] == left[k] {
      var row := rows[d + k];
      PalindromeMirror(row);
      assert row[d] == row[|row| - 1 - d];
    }
    assert right == left;
  }

  /** `diagonal_sums`: the sum of every diagonal d in 0 .. len - 1, or the first
      exception one of them raises; an empty triangle asks for none. */
  method DiagonalSums(rows: seq<seq<int>>, direction: string := "right") returns (res: Result<seq<int>>)
    ensures res.Ok? <==> forall d :: 0 <= d < |rows| ==> DiagonalOf(rows, d, direction).Ok?
    ensures res.Err? ==> res.error == if IsDirection(direction) then IndexError else ValueError
    ensures res.Ok? ==> (|res.value| == |rows| &&
      forall d :: 0 <= d < |rows| ==> res.value[d] == Sum(DiagonalOf(rows, d, direction).value))
  {
    var sums := [];
    var d := 0;
    while d < |rows|
      invariant 0 <= d <= |rows|
      invariant |sums| == d
      invariant forall e :: 0 <= e < d ==> (DiagonalOf(rows, e, direction).Ok? &&
        sums[e] == Sum(DiagonalOf(rows, e, direction).value))
    {
      var diagonal := Diagonal(rows, d, direction);
      if diagonal.Err? {
        return Err(diagonal.error);
      }
      sums := sums + [Sum(diagonal.value)];
      d := d + 1;
    }
    return Ok(sums);
  }

  // ---------------------------------------------------------------------
  // Rising diagonals

  /** The walk up and to the right from (row, col): it collects `rows[row][col]`
      and moves to (row - 1, col + 1) while the row is non-negative and the
      column lies inside it; it stops at the first cell that does not exist. */
  function RisingWalk(rows: seq<seq<int>>, row: int, col: nat): (d: seq<int>)
    requires row < |rows|
    ensures row - |d| < 0 || col + |d| >= |rows[row - |d|]|
    decreases row + 1
  {
    if row < 0 || col >= |rows[row]| then []
    else [rows[row][col]] + RisingWalk(rows, row - 1, col + 1)
  }

  /** Step k of the walk is the cell k rows up and k columns right, and that
      cell exists. */
  lemma {:induction false} RisingWalkCells(rows: seq<seq<int>>, row: int, col: nat, k: nat)
    requires row < |rows| && k < |RisingWalk(rows, row, col)|
    ensures 0 <= row - k && col + k < |rows[row - k]|
    ensures RisingWalk(rows, row, col)[k] == rows[row - k][col + k]
    decreases k
  {
    if k > 0 {
      RisingWalkCells(rows, row - 1, col + 1, k - 1);
    }
  }

  /** `rising_diagonal`: the walk from the leftmost entry of row r. Asking for a
      row past the end raises IndexError. */
  method RisingDiagonal(rows: seq<seq<int>>, r: int) returns (res: Result<seq<int>>)
    ensures r >= |rows| ==> res == Err(IndexError)
    ensures r < |rows| ==> res == Ok(RisingWalk(rows, r, 0))
  {
    if r >= |rows| {
      return Err(IndexError);
    }
    var diagonal := [];
    var row, col := r, 0;
    while row >= 0 && col < |rows[row]|
      invariant row < |rows| && col >= 0 && row + col == r
      invariant diagonal + RisingWalk(rows, row, col) == RisingWalk(rows, r, 0)
      decreases row + 1
    {
      assert RisingWalk(rows, row, col) == [rows[row][col]] + RisingWalk(rows, row - 1, col + 1);
      diagonal := diagonal + [rows[row][col]];
      row := row - 1;
      col := col + 1;
    }
    assert diagonal + RisingWalk(rows, row, col) == diagonal;
    return Ok(diagonal);
  }

  /** On a full triangle the walk from (row, col) with col <= row visits
      (row - col) / 2 + 1 cells. */
  lemma {:induction false} RisingWalkLength(rows: seq<seq<int>>, row: nat, col: nat)
    requires FullShape(rows) && row < |rows| && col <= row
    ensures |RisingWalk(rows, row, col)| == (row - col) / 2 + 1
    decreases row
  {
    if row >= 1 && col + 1 <= row - 1 {
      RisingWalkLength(rows, row - 1, col + 1);
    } else if row >= 1 {
      assert RisingWalk(rows, row - 1, col + 1) == [];
    }
  }

  /** `rising_diagonal_sums`: one sum per row index below `n`; an `n` larger
      than the number of rows makes the walk raise IndexError. */
  method RisingDiagonalSums(t: Triangle) returns (res: Result<seq<int>>)
    ensures res.Ok? <==> t.n <= |t.rows|
    ensures res.Err? ==> res.error == IndexError
    ensures res.Ok? ==> (|res.value| == (if t.n < 0 then 0 else t.n) &&
      forall i :: 0 <= i < |res.value| ==> res.value[i] == Sum(RisingWalk(t.rows, i, 0)))
  {
    var sums := [];
    var i := 0;
    while i < t.n
      invariant 0 <= i && (i <= t.n || i == 0)
      invariant i <= |t.rows|
      invariant |sums| == i
      invariant forall k :: 0 <= k < i ==> sums[k] == Sum(RisingWalk(t.rows, k, 0))
    {
      var diagonal := RisingDiagonal(t.rows, i);
      if diagonal.Err? {
        return Err(IndexError);
      }
      sums := sums + [Sum(diagonal.value)];
      i := i + 1;
    }
    return Ok(sums);
  }

  // ---------------------------------------------------------------------
  // Parity, residues, centres and symmetry

  /** Same number of rows and the same length for each row. */
  predicate SameShape(a: seq<seq<int>>, b: seq<seq<int>>)
  {
    |a| == |b| && forall i :: 0 <= i < |a| ==> |a[i]| == |b[i]|
  }

  /** `parity_pattern`: the same shape, 1 where the entry is odd and 0 where
      it is even. */
  function ParityPattern(rows: seq<seq<int>>): (r: seq<seq<int>>)
    ensures SameShape(r, rows)
    ensures forall i, j :: 0 <= i < |rows| && 0 <= j < |rows[i]| ==>
      (r[i][j] == 0 || r[i][j] == 1) && (r[i][j] == 1 <==> IsOdd(rows[i][j]))
  {
    seq(|rows|, i requires 0 <= i < |rows| =>
      seq(|rows[i]|, j requires 0 <= j < |rows[i]| => if rows[i][j] % 2 == 1 then 1 else 0))
  }

  /** Some row has at least one entry. */
  predicate HasEntry(rows: seq<seq<int>>)
  {
    exists i :: 0 <= i < |rows| && |rows[i]| > 0
  }

  /** `mod_triangle`: every entry replaced by its Python remainder modulo k;
      k == 0 raises ZeroDivisionError as soon as there is an entry to divide. */
  function ModTriangle(rows: seq<seq<int>>, k: int): (r: Result<seq<seq<int>>>)
    ensures r.Err? <==> k == 0 && HasEntry(rows)
    ensures r.Err? ==> r.error == ZeroDivisionError
    ensures r.Ok? ==> SameShape(r.value, rows)
    ensures r.Ok? ==> forall i, j :: 0 <= i < |rows| && 0 <= j < |rows[i]| ==>
      (k > 0 ==> 0 <= r.value[i][j] < k) && (k < 0 ==> k < r.value[i][j] <= 0) &&
      exists q :: rows[i][j] == q * k + r.value[i][j]
  {
    if k == 0 then
      if HasEntry(rows) then Err(ZeroDivisionError) else Ok(rows)
    else
      Ok(seq(|rows|, i requires 0 <= i < |rows| =>
        seq(|rows[i]|, j requires 0 <= j < |rows[i]| => PyMod(rows[i][j], k))))
  }

  /** The parity pattern is the triangle modulo 2. */
  lemma ParityIsModTwo(rows: seq<seq<int>>)
    ensures ModTriangle(rows, 2) == Ok(ParityPattern(rows))
  {
    var m := ModTriangle(rows, 2).value;
    var p := ParityPattern(rows);
    forall i | 0 <= i < |rows| ensures m[i] == p[i] {
      assert |m[i]| == |p[i]| == |rows[i]|;
      forall j | 0 <= j < |rows[i]| ensures m[i][j] == p[i][j] {
        assert PyMod(rows[i][j], 2) == rows[i][j] % 2;
      }
    }
    assert m == p;
  }

  /** The middle entries of the odd-length rows, in row order. */
  function Centers(rows: seq<seq<int>>): seq<int>
  {
    if |rows| == 0 then []
    else
      var last := rows[|rows| - 1];
      Centers(rows[..|rows| - 1]) + (if |last| % 2 == 1 then [last[|last| / 2]] else [])
  }

  /** `center`: walks the rows and keeps `row[len(row) // 2]` of each
      odd-length row. */
  method Center(rows: seq<seq<int>>) returns (middle: seq<int>)
    ensures middle == Centers(rows)
  {
    middle := [];
    var i := 0;
    while i < |rows|
      invariant 0 <= i <= |rows|
      invariant middle == Centers(rows[..i])
    {
      var row := rows[i];
      assert rows[..i + 1][..i] == rows[..i];
      if |row| % 2 == 1 {
        middle := middle + [row[|row| / 2]];
      }
      i := i + 1;
    }
    assert rows[..|rows|] == rows;
  }

  /** In a full triangle exactly the even-numbered rows have odd length, so
      the centres are the entries (2k, k). */
  lemma {:induction false} CentersOfFullShape(rows: seq<seq<int>>)
    requires FullShape(rows)
    ensures |Centers(rows)| == (|rows| + 1) / 2
    ensures forall k :: 0 <= k < |Centers(rows)| ==> Centers(rows)[k] == rows[2 * k][k]
  {
    if |rows| > 0 {
      var init := rows[..|rows| - 1];
      CentersOfFullShape(init);
    }
  }

  /** Every row is a palindrome. */
  predicate AllPalindromes(rows: seq<seq<int>>)
  {
    forall i :: 0 <= i < |rows| ==> Palindrome(rows[i])
  }

  /** `is_symmetric`: compares every row with its reverse and stops at the
      first mismatch. */
  method IsSymmetric(rows: seq<seq<int>>) returns (r: bool)
    ensures r <==> AllPalindromes(rows)
    ensures r <==> forall i, j, m :: 0 <= i < |rows| && 0 <= j < |rows[i]| && j + m == |rows[i]| - 1 ==> rows[i][j] == rows[i][m]
  {
    var i := 0;
    while i < |rows|
      invariant 0 <= i <= |rows|
      invariant forall k :: 0 <= k < i ==> Palindrome(rows[k])
    {
      if rows[i] != Reverse(rows[i]) {
        PalindromeMirror(rows[i]);
        return false;
      }
      i := i + 1;
    }
    forall k | 0 <= k < |rows| ensures forall j, m :: 0 <= j < |rows[k]| && j + m == |rows[k]| - 1 ==> rows[k][j] == rows[k][m] {
      PalindromeMirror(rows[k]);
    }
    return true;
  }
}
