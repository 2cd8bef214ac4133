# triforce in Dafny

A model of the core of `triforce`, a small Python library of number
triangles and pyramids, and proofs about that model.

- **A triangle** is a list of integer rows. The base class answers
  read-only queries about it: indexing, flattening, row, column and
  diagonal sums, rising diagonals, cumulative sums, row differences,
  parity and modulo patterns, the centre column and symmetry.
- **Seven concrete triangles** run their own generators: Bell, Catalan,
  Floyd, Hosoya, Pascal, Fibonacci-Pascal and Lucas-Pascal.
- **A pyramid** is a list of layers, each layer a triangle. The base class
  answers indexing, flattening and layer sums. Two concrete pyramids have
  generators: Pascal's pyramid of trinomial coefficients and Hosoya's
  pyramid of Fibonacci products.
- **Supporting code:**
  - integer sequences: Fibonacci, Tribonacci, Lucas, Pell, Pell-Lucas and
    Catalan;
  - numeric helpers: factorial, trinomial coefficient, parity and a
    primality test.

Modules (one per source file):

| module | file | models |
|---|---|---|
| `Common` | `common.dfy` | Python semantics the core relies on |
| `Numeric` | `numeric.dfy` | `triforce/numeric.py` |
| `Sequences` | `sequences.dfy` | `triforce/sequences.py` |
| `TriangleBase` | `triangle.dfy` | `triforce/triangle.py` |
| `TriangleKinds` | `triangles.dfy` | `triforce/triangles.py` |
| `PyramidBase` | `pyramid.dfy` | `triforce/pyramid.py` |
| `PyramidKinds` | `pyramids.dfy` | `triforce/pyramids.py` |

`Common` covers:
- the `Result` type, whose errors are `IndexError`, `ValueError`,
  `ZeroDivisionError` and `NotImplementedError`;
- negative list indexing;
- Python's floored `%`;
- `sum` and list reversal.

How each kind of code is modelled:

- **Loops become methods.**
  - Each generator is an imperative `method` with the source's loops. It is
    proved equal to a pure definition of the rows it builds.
  - Pascal's rows are then proved to satisfy Pascal's rule, to be
    symmetric and to sum to `2^i`.
  - Bell's rows are proved to satisfy their recurrence and closed form.
  - The queries written as loops are methods. Each one's `ensures` gives
    the result in full: its length and every element.
  - The sequence functions are loop methods tied to recursive definitions.
- **Comprehensions become functions.** The queries written as list
  comprehensions are functions.
- **The class hierarchy** becomes a `Kind` datatype, in `TriangleKinds` and
  again in `PyramidKinds`.
  - `Construct` models `__init__`: it stores `n` and the generated rows.
  - On the abstract base class it fails with `NotImplementedError`.

For small `n` the generators behave differently:

| generator | `n <= 0` | `n == 1` |
|---|---|---|
| Pascal, Bell | `[[1]]` | `[[1]]` |
| Fibonacci-Pascal, Lucas-Pascal | `[]` for `n == 0`; `[[1]]` for negative `n` | `[[1]]` |
| Catalan, Floyd, Hosoya, both pyramids | `[]` | one row |

A negative `n` does not raise an error, and the model does not either.

## Model

| member | source | states |
|---|---|---|
| Common.PyIndex | triforce/triangle.py:13-14 | `s[k]` succeeds exactly when `-len(s) <= k < len(s)` and gives the item at `k` (counted from the end when negative), otherwise IndexError |
| Common.SumConcat | triforce/triangle.py:50 | Python's `sum` (`Common.Sum`, a left fold) of a concatenation is the sum of the parts |
| Common.PyIndexFromEnd | triforce/triangle.py:13-14 | a negative key `k - len(s)` selects the same element as `k` |
| Common.PyMod | triforce/triangle.py:89 | `a % k` has the sign of `k`, is smaller than `k` in magnitude and differs from `a` by a multiple of `k` |
| Common.Reverse | triforce/triangle.py:104 | `row[::-1]` has the same length and mirrors every position |
| Common.PalindromeMirror | triforce/triangle.py:104 | `row == row[::-1]` exactly when every entry equals its mirror entry |
| Numeric.Fact | triforce/numeric.py:32-39 | the factorial is at least 1, and at least `num` for `num >= 1` |
| Numeric.Factorial | triforce/numeric.py:32-39 | the loop returns `Fact(num)`: 1 for `num <= 1`, else `2 * ... * num` |
| Numeric.BinomAbove | triforce/triangles.py:37 | `comb(n, k)` is 0 when `k > n` |
| Numeric.BinomAll | triforce/triangles.py:37 | `comb(n, n)` is 1 |
| Numeric.BinomPositive | triforce/triangles.py:37 | `comb(n, k)` is positive for `k <= n` |
| Numeric.BinomFactorials | triforce/triangles.py:37 | `comb(n, k) * k! * (n - k)! == n!` |
| Numeric.Absorption | triforce/triangles.py:37 | `k * comb(m, k) == (m - k + 1) * comb(m, k - 1)` |
| Numeric.Trinomial | triforce/numeric.py:24-29 | `trinomial` is never negative and is 0 when `i + j > n`. TrinomialExact gives its value inside the range |
| Numeric.TrinomialExact | triforce/numeric.py:24-29 | inside `i + j <= n` the floor division is exact, equals `comb(n, i) * comb(n - i, j)`, is positive and symmetric in `i`, `j` |
| Numeric.TrinomialFactors | triforce/numeric.py:29 | `comb(n, i) * comb(n - i, j)` times the three factorials is `n!` |
| Numeric.TrinomialOutside | triforce/numeric.py:26-28 | the coefficient is 0 when `i + j > n` |
| Numeric.IsEven | triforce/numeric.py:14-16 | true exactly when `num` is twice an integer (negatives included) |
| Numeric.IsOdd | triforce/numeric.py:19-21 | true exactly when not even, i.e. `num == 2h + 1` |
| Numeric.SmallDivisor | triforce/numeric.py:8 | a composite number has a divisor `d` with `d * d <= num` |
| Numeric.SquareRootBound | triforce/numeric.py:8-11 | no divisor up to the square root means prime |
| Numeric.IsPrime | triforce/numeric.py:4-11 | the trial-division loop returns true exactly when `num` is prime |
| Sequences.Fibonacci | triforce/sequences.py:7-14 | `n` itself for `n <= 1`, otherwise `F(n)` |
| Sequences.Tribonacci | triforce/sequences.py:17-27 | `T(n)` (0, 0, 1, 1, 2, ...), and 1 for negative `n` |
| Sequences.LucasNumber | triforce/sequences.py:30-39 | `L(n)` (2, 1, 3, 4, ...), and 1 for negative `n` |
| Sequences.PellNumber | triforce/sequences.py:42-51 | `P(n)` (0, 1, 2, 5, ...), and 1 for negative `n` |
| Sequences.PellLucasNumber | triforce/sequences.py:54-63 | `Q(n)` (2, 2, 6, 14, ...), and 2 for negative `n` |
| Sequences.Catalan | triforce/sequences.py:66-73 | the recursive convolution returns `C(n)`, and 1 for `n <= 1` |
| Sequences.CatalanPositive | triforce/sequences.py:66-73 | every Catalan number is positive |
| Sequences.ConvolutionPositive | triforce/sequences.py:70-72 | the partial sum in the loop stays positive |
| Sequences.LucasFromFibonacci | triforce/sequences.py:30-39 | `L(n) == F(n - 1) + F(n + 1)` |
| Sequences.PellLucasFromPell | triforce/sequences.py:54-63 | `Q(n) == P(n - 1) + P(n + 1)` |
| Sequences.FibMonotone | triforce/sequences.py:7-14 | `F` never decreases and is positive from `n = 1` |
| Sequences.FirstValues | triforce/sequences.py:7-73 | known values: `F(10) = 55`, `L(6) = 18`, `T(7) = 13`, `P(5) = 29`, `Q(4) = 34`, `C(5) = 42` |
| TriangleBase.GetItem | triforce/triangle.py:13-14 | `t[key]` returns row `key`, or row `len + key` for a negative key, else IndexError |
| TriangleBase.Cell | triforce/triangle.py:13-14 | `t[i][j]` is `rows[i][j]` for in-range indices. Negative indices count from the end at both levels. It succeeds exactly when both indices are in Python's range, otherwise IndexError |
| TriangleBase.Flatten | triforce/triangle.py:44-46 | the flattened list has one item per entry of every row |
| TriangleBase.RowSums | triforce/triangle.py:48-50 | one sum per row |
| TriangleBase.CumulativeRowSums | triforce/triangle.py:69-72 | one running total per row |
| TriangleBase.CumulativeRowSumsFirst | triforce/triangle.py:69-72 | the first running total is the first row sum |
| TriangleBase.CumulativeRowSumsStep | triforce/triangle.py:69-72 | each running total is the previous one plus this row's sum |
| TriangleBase.CumulativeRowSumsLast | triforce/triangle.py:69-72 | the last running total is the sum of the flattened triangle |
| TriangleBase.FlattenTotals | triforce/triangle.py:44-50 | the flattened list has as many items as all rows together, and its sum is the sum of the row sums |
| TriangleBase.FlattenAt | triforce/triangle.py:44-46 | entry `(i, j)` sits at position (sizes of rows before `i`) + `j` |
| TriangleBase.FullShapeSize | triforce/triangle.py:44-46 | a triangle whose row `i` has `i + 1` entries flattens to `n(n+1)/2` items |
| TriangleBase.ColumnSums | triforce/triangle.py:52-59 | IndexError on an empty triangle or when a row is wider than the last; otherwise column `c`'s total over all rows, for every column of the last row |
| TriangleBase.RowDifferences | triforce/triangle.py:61-67 | IndexError exactly when a row is longer than its successor; otherwise `len - 1` lists, with entry `j` of list `i` equal to `rows[i+1][j] - rows[i][j]` |
| TriangleBase.DiagonalOf | triforce/triangle.py:108-131 | a successful diagonal has `max(len(rows) - d, 0)` entries |
| TriangleBase.Diagonal | triforce/triangle.py:108-131 | the loops give the right or left diagonal; `direction` defaults to `"right"`. An unknown direction raises ValueError and a short row raises IndexError |
| TriangleBase.DiagonalOfFullShape | triforce/triangle.py:120-127 | on a full triangle both directions succeed: the right diagonal `d` is column `d` from row `d` on, and the left diagonal is entries `(k + d, k)` |
| TriangleBase.SymmetricDiagonals | triforce/triangle.py:108-131 | in a full triangle of palindromic rows the left and right diagonals coincide |
| TriangleBase.DiagonalSums | triforce/triangle.py:74-81 | one sum per diagonal index, with `direction` defaulting to `"right"`. It succeeds exactly when every diagonal does. ValueError for an unknown direction, IndexError for a short row |
| TriangleBase.RisingWalk | triforce/triangle.py:28-32 | the walk stops only above the top row or past the end of a row |
| TriangleBase.RisingWalkCells | triforce/triangle.py:28-32 | the `k`-th item of the walk is `rows[row - k][col + k]` |
| TriangleBase.RisingDiagonal | triforce/triangle.py:23-34 | IndexError for a start row past the end, otherwise the walk up and right from column 0 |
| TriangleBase.RisingWalkLength | triforce/triangle.py:23-34 | in a full triangle the walk from `(row, col)` has `(row - col) / 2 + 1` items |
| TriangleBase.RisingDiagonalSums | triforce/triangle.py:36-42 | one sum for each of `range(n)`; IndexError exactly when `n` exceeds the row count |
| TriangleBase.ParityPattern | triforce/triangle.py:83-85 | same shape; an entry is 1 exactly when the value is odd, else 0 |
| TriangleBase.ModTriangle | triforce/triangle.py:87-89 | ZeroDivisionError exactly when `k == 0` and some entry exists; otherwise same shape with each entry the floored residue |
| TriangleBase.ParityIsModTwo | triforce/triangle.py:83-89 | the parity pattern is the triangle modulo 2 |
| TriangleBase.Center | triforce/triangle.py:91-99 | the loop collects the middle entry of each odd-length row, in order |
| TriangleBase.CentersOfFullShape | triforce/triangle.py:91-99 | in a full triangle the centres are `rows[2k][k]`, `(len + 1) / 2` of them |
| TriangleBase.IsSymmetric | triforce/triangle.py:101-106 | true exactly when every row reads the same reversed |
| TriangleKinds.AdjacentSums | triforce/triangles.py:109-110 | one less item than the row; item `k` is `p[k] + p[k+1]` |
| TriangleKinds.AppendNeighbourSums | triforce/triangles.py:109-110 | the loop appends exactly the adjacent sums of the last row |
| TriangleKinds.NextRow | triforce/triangles.py:83-86 | one entry longer, the edge value at both ends, neighbour sums inside |
| TriangleKinds.NextRowConcat | triforce/triangles.py:83-86 | the next row is `[edge] + adjacent sums + [edge]` |
| TriangleKinds.NextRowPalindrome | triforce/triangles.py:83-86 | the step keeps a palindromic row palindromic |
| TriangleKinds.SumAdjacent | triforce/triangles.py:84-85 | adjacent sums total twice the row minus its two ends |
| TriangleKinds.PascalRow | triforce/triangles.py:76-88 | row `i` holds `comb(i, j)` and has `i + 1` entries |
| TriangleKinds.PascalNext | triforce/triangles.py:83-86 | the inner loop builds the next row from the previous one with edges 1 |
| TriangleKinds.GeneratePascal | triforce/triangles.py:79-88 | the generator returns rows `0 .. max(n, 1) - 1` of binomial coefficients |
| TriangleKinds.PascalRule | triforce/triangles.py:85 | Pascal's rule: each row of binomials is the next row of the previous one |
| TriangleKinds.PascalPalindrome | triforce/triangles.py:79-88 | every Pascal row is symmetric |
| TriangleKinds.PascalRowSum | triforce/triangles.py:79-88 | row `i` sums to `2^i` |
| TriangleKinds.BellPrefix | triforce/triangles.py:19-21 | the partial row after `j` steps has `j + 1` entries |
| TriangleKinds.BellNext | triforce/triangles.py:19-21 | the next Bell row is one entry longer than the previous one |
| TriangleKinds.BellClosedForm | triforce/triangles.py:19-21 | entry `k` is the previous row's last entry plus the sum of its first `k` entries |
| TriangleKinds.BellRow | triforce/triangles.py:14-23 | row `i` has `i + 1` entries |
| TriangleKinds.BellNextRow | triforce/triangles.py:19-21 | the inner loop builds the next Bell row |
| TriangleKinds.GenerateBell | triforce/triangles.py:14-23 | the generator returns Bell rows `0 .. max(n, 1) - 1` |
| TriangleKinds.BellRecurrence | triforce/triangles.py:19-21 | a row starts with the previous row's last entry, and each entry is its left neighbour plus the entry above-left |
| TriangleKinds.GenerateCatalan | triforce/triangles.py:29-41 | the generator returns rows `0 .. n - 1` of `(n - k + 1) * comb(n + k, k) // (n + 1)` |
| TriangleKinds.CatalanEntryBallot | triforce/triangles.py:37 | the floor division is exact: it equals the ballot number |
| TriangleKinds.BallotStep | triforce/triangles.py:36-37 | ballot numbers satisfy `B(n, k) = B(n, k - 1) + B(n - 1, k)` |
| TriangleKinds.CatalanRecurrence | triforce/triangles.py:36-37 | each inner entry is its left neighbour plus the entry above it |
| TriangleKinds.CatalanLastTwo | triforce/triangles.py:36-37 | the last two entries of a row are equal |
| TriangleKinds.CatalanLastSmall | triforce/triangles.py:33-39 | for `n < 4` the last entry of row `n` is `catalan(n)` |
| TriangleKinds.CatalanEntryPositive | triforce/triangles.py:37 | every entry is positive, and every row starts with 1 |
| TriangleKinds.GenerateFloyd | triforce/triangles.py:47-58 | row `i` holds the `i + 1` numbers after the first `i(i + 1)/2` |
| TriangleKinds.FloydFlatten | triforce/triangles.py:47-58 | the flattened triangle is `1, 2, ..., m(m + 1)/2` |
| TriangleKinds.GenerateHosoya | triforce/triangles.py:64-73 | entry `(i, j)` is `F(j + 1) * F(i - j + 1)` |
| TriangleKinds.HosoyaProperties | triforce/triangles.py:70 | entries are symmetric, the edge is `F(i + 1)`, and each entry is the sum of the two entries one and two rows above it |
| TriangleKinds.HosoyaSymmetric | triforce/triangles.py:64-73 | the Hosoya triangle is full and every row is a palindrome |
| TriangleKinds.FibonacciPascalRow | triforce/triangles.py:93-118 | row `i` has `i + 1` entries |
| TriangleKinds.FibonacciPascalRowStep | triforce/triangles.py:102-116 | row `i` is `[F(i + 1)]` + adjacent sums of row `i - 1` + `[F(i + 1)]` |
| TriangleKinds.FibonacciPascalNext | triforce/triangles.py:103-113 | one outer-loop pass turns row `rowNum - 2` into row `rowNum - 1` |
| TriangleKinds.GenerateFibonacciPascal | triforce/triangles.py:93-118 | `[]` for `n == 0`, otherwise rows `0 .. max(n, 1) - 1` |
| TriangleKinds.FibonacciPascalPalindrome | triforce/triangles.py:93-118 | every Fibonacci-Pascal row is symmetric |
| TriangleKinds.LucasPascalRow | triforce/triangles.py:124-149 | row `i` has `i + 1` entries |
| TriangleKinds.LucasPascalRowStep | triforce/triangles.py:133-147 | row `i` is `[L(i + 1)]` + adjacent sums of row `i - 1` + `[L(i + 1)]` |
| TriangleKinds.LucasPascalNext | triforce/triangles.py:134-144 | one outer-loop pass turns row `rowNum - 2` into row `rowNum - 1` |
| TriangleKinds.GenerateLucasPascal | triforce/triangles.py:124-149 | `[]` for `n == 0`, otherwise rows `0 .. max(n, 1) - 1` |
| TriangleKinds.LucasPascalPalindrome | triforce/triangles.py:124-149 | every Lucas-Pascal row is symmetric |
| TriangleKinds.Generate | triforce/triangle.py:19-21 | `generate_triangle` by kind; the base class raises NotImplementedError |
| TriangleKinds.Construct | triforce/triangle.py:5-8 | construction fails exactly for the base class (NotImplementedError), otherwise stores `n` and the generated rows |
| TriangleKinds.ConcreteShape | triforce/triangles.py:11-149 | every concrete kind returns its row count, and row `i` has `i + 1` entries |
| TriangleKinds.ConcreteQueries | triforce/triangle.py:52-131 | on a generated triangle, `column_sums` (when it has rows), `row_differences` and both diagonals never raise |
| TriangleKinds.PascalLikeSymmetric | triforce/triangle.py:101-131 | the three Pascal-like triangles are symmetric, and their left and right diagonals agree |
| TriangleKinds.BellExample | tests/test_triangles.py:14-24 | `BellTriangle(5)` gives the expected rows |
| TriangleKinds.CatalanExample | tests/test_triangles.py:27-36 | `CatalanTriangle(4)` gives the expected rows |
| TriangleKinds.FloydExample | tests/test_triangles.py:39-48 | `FloydsTriangle(4)` gives the expected rows |
| TriangleKinds.HosoyaExample | tests/test_triangles.py:51-61 | `HosoyaTriangle(5)` gives the expected rows |
| TriangleKinds.PascalExample | tests/test_triangles.py:64-74 | `PascalTriangle(5)` gives the expected rows |
| TriangleKinds.FibonacciPascalExample | tests/test_triangles.py:77-87 | `FibonacciPascalTriangle(5)` gives the expected rows |
| TriangleKinds.LucasPascalExample | tests/test_triangles.py:90-100 | `LucasPascalTriangle(5)` gives the expected rows |
| PyramidBase.GetItem | triforce/pyramid.py:13-14 | `p[key]` returns layer `key`, or `len + key` for a negative key, else IndexError |
| PyramidBase.Flatten | triforce/pyramid.py:23-25 | the flattened pyramid has one item per entry of every layer |
| PyramidBase.LayerSums | triforce/pyramid.py:27-29 | one sum per layer |
| PyramidBase.FlattenTotals | triforce/pyramid.py:23-29 | the flattened pyramid has one item per entry, and its sum is the sum of the layer sums |
| PyramidBase.FlattenAt | triforce/pyramid.py:23-25 | entry `(l, i, j)` follows all earlier layers' entries and the earlier rows of its layer |
| PyramidKinds.GeneratePascalPyramid | triforce/pyramids.py:7-16 | layer `m`, row `i`, entry `j` is `trinomial(m, i, j)` for `j <= m - i` |
| PyramidKinds.PascalLayerEntries | triforce/pyramids.py:13 | entries are `comb(m, i) * comb(m - i, j)`, positive, and symmetric in row and column |
| PyramidKinds.PascalLayerEdge | triforce/pyramids.py:13 | the first row of layer `m` is row `m` of Pascal's triangle |
| PyramidKinds.GenerateHosoyaPyramid | triforce/pyramids.py:20-29 | entry `(i, j, k)` is `F(i + 1) * F(j + 1) * F(k + 1)` |
| PyramidKinds.HosoyaLayerRow | triforce/pyramids.py:26 | row `j` of layer `i` is `F(i + 1) * F(j + 1)` times `F(1) .. F(i - j + 1)` |
| PyramidKinds.HosoyaLayerAt | triforce/pyramids.py:26 | layer `i` has `i + 1` rows, row `j` of it `i - j + 1` entries, and entry `k` is `F(i + 1) * F(j + 1) * F(k + 1)` |
| PyramidKinds.HosoyaLayerEntry | triforce/pyramids.py:26 | entries are positive and symmetric in row and column |
| PyramidKinds.Generate | triforce/pyramid.py:19-21 | `generate_pyramid` by kind; the base class raises NotImplementedError |
| PyramidKinds.Construct | triforce/pyramid.py:5-8 | construction fails exactly for the base class, otherwise stores `n` and the layers |
| PyramidKinds.ConcreteShape | triforce/pyramids.py:6-29 | `len` is `max(n, 0)`; layer `m` has `m + 1` rows, and row `i` of it has `m - i + 1` entries |

## Left out

- `__str__`, `format_triangle` and `format_pyramid`: text layout and ANSI
  highlighting only; no other member depends on them.
- `WythoffTriangle` and the Wythoff sequences: they take floors of products
  with the floating-point golden ratio.
- `triforce/plots.py`, `triforce/constants.py` and the example scripts:
  plotting, float constants and printing.
- Numeric.IsPrime: the loop bound `int(num ** 0.5)` is a float square root.
  The model uses the exact bound `d * d <= num`. The two can differ when
  rounding is wrong for very large `num`. The model also returns a result
  for integers beyond float range (above about 1.8e308), where `num ** 0.5`
  raises OverflowError.
- TriangleBase.GetItem and PyramidBase.GetItem: integer keys only; slice
  keys are not modelled.
- `math.comb` is modelled by `Numeric.Binom`, defined by Pascal's rule.
- TriangleKinds.CatalanLastSmall: the last entry of a Catalan row equals
  `catalan(n)` for every `n`, but it is proved only for `n < 4`. The
  general proof, which links Segner's convolution to the ballot closed
  form, is not done.
- The generators' loop bodies are split into helper methods, each proved
  against the row definition. `PascalNext`, `BellNextRow` and the
  Fibonacci- and Lucas-Pascal `Next` methods hold a generator's inner loop.
  `AppendNeighbourSums` holds the neighbour-sum loop. The order of `append`
  calls is kept.
- PyramidKinds.GenerateHosoyaPyramid evaluates the recursive
  `Sequences.Fib` in its row comprehension instead of running the
  `fibonacci` loop. `Sequences.Fibonacci` is proved to return `Fib`.
- PyramidKinds.GeneratePascalPyramid evaluates `Numeric.Trinomial` over the
  recursive `Numeric.Fact` instead of running the `factorial` loop that
  `trinomial` calls. `Numeric.Factorial` is proved to return `Fact`.
- List aliasing and in-place `append` are modelled as building new
  sequences. `__getitem__` hands out the stored row or layer list itself,
  so a caller that mutates `t[0]` changes the triangle. The model returns
  values and does not capture that aliasing.
- The triangle's and the pyramid's `__len__` (`Length`) return the list
  length directly and need no contract of their own.
