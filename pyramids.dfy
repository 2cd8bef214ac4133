/** The concrete pyramids: Pascal's pyramid of trinomial coefficients and
    Hosoya's pyramid of Fibonacci products. Each generator appends rows to a
    layer and layers to the pyramid, and is proved equal to a definition of
    the layers. */
module PyramidKinds {
  import opened Common
  import opened Numeric
  import Sequences
  import TriangleKinds
  import opened PyramidBase

  // ---------------------------------------------------------------------
  // Pascal's pyramid

  /** Layer m: row i holds `trinomial(m, i, j)` for j from 0 to m - i. */
  function PascalLayer(m: nat): seq<seq<int>>
  {
    seq(m + 1, i requires 0 <= i <= m => seq(m - i + 1, j requires 0 <= j => Trinomial(m, i, j)))
  }

  function PascalPyramidLayers(n: int): seq<seq<seq<int>>>
  {
    seq(if n <= 0 then 0 else n, m requires 0 <= m => PascalLayer(m))
  }

  /** `PascalPyramid.generate_pyramid`. */
  method GeneratePascalPyramid(n: int) returns (pyramid: seq<seq<seq<int>>>)
    ensures pyramid == PascalPyramidLayers(n)
  {
    pyramid := [];
    var m := 0;
    while m < n
      invariant 0 <= m <= (if n <= 0 then 0 else n)
      invariant |pyramid| == m
      invariant forall l {:trigger pyramid[l]} :: 0 <= l < m ==> pyramid[l] == PascalLayer(l)
    {
      var layer := [];
      var i := 0;
      while i < m + 1
        invariant 0 <= i <= m + 1
        invariant |layer| == i
        invariant forall r {:trigger layer[r]} :: 0 <= r < i ==> layer[r] == PascalLayer(m)[r]
      {
        var row := seq(m - i + 1, j requires 0 <= j => Trinomial(m, i, j));
        layer := layer + [row];
        i := i + 1;
      }
      assert layer == PascalLayer(m);
      pyramid := pyramid + [layer];
      m := m + 1;
    }
    assert pyramid == PascalPyramidLayers(n);
  }

  /** Layer m has m + 1 rows and row i of it m - i + 1 entries; every entry
      lies inside the range where the trinomial coefficient is positive, is
      the product C(m, i) * C(m - i, j), and swapping i and j gives the same
      value. */
  lemma PascalLayerEntries(m: nat, i: nat, j: nat)
    requires i <= m && j <= m - i
    ensures |PascalLayer(m)| == m + 1 && |PascalLayer(m)[i]| == m - i + 1
    ensures PascalLayer(m)[i][j] == Binom(m, i) * Binom(m - i, j)
    ensures PascalLayer(m)[i][j] >= 1
    ensures PascalLayer(m)[i][j] == PascalLayer(m)[j][i]
  {
    TrinomialExact(m, i, j);
  }

  /** The first row of layer m is row m of Pascal's triangle. */
  lemma PascalLayerEdge(m: nat)
    ensures PascalLayer(m)[0] == TriangleKinds.PascalRow(m)
  {
    var row := PascalLayer(m)[0];
    forall j | 0 <= j <= m ensures row[j] == TriangleKinds.PascalRow(m)[j] {
      TrinomialExact(m, 0, j);
    }
  }

  // ---------------------------------------------------------------------
  // Hosoya's pyramid

  /** Layer i: row j holds F(i + 1) * F(j + 1) * F(k + 1) for k from 0 to
      i - j. */
  function HosoyaLayer(i: nat): seq<seq<int>>
  {
    seq(i + 1, j requires 0 <= j <= i =>
      seq(i - j + 1, k requires 0 <= k => Sequences.Fib(i + 1) * Sequences.Fib(j + 1) * Sequences.Fib(k + 1)))
  }

  function HosoyaPyramidLayers(n: int): seq<seq<seq<int>>>
  {
    seq(if n <= 0 then 0 else n, i requires 0 <= i => HosoyaLayer(i))
  }

  /** `HosoyaPyramid.generate_pyramid`. */
  method GenerateHosoyaPyramid(n: int) returns (pyramid: seq<seq<seq<int>>>)
    ensures pyramid == HosoyaPyramidLayers(n)
  {
    pyramid := [];
    var i := 0;
    while i < n
      invariant 0 <= i <= (if n <= 0 then 0 else n)
      invariant |pyramid| == i
      invariant forall l {:trigger pyramid[l]} :: 0 <= l < i ==> pyramid[l] == HosoyaLayer(l)
    {
      var layer := [];
      var j := 0;
      while j < i + 1
        invariant 0 <= j <= i + 1
        invariant |layer| == j
        invariant forall r {:trigger layer[r]} :: 0 <= r < j ==> layer[r] == HosoyaLayer(i)[r]
      {
        var row := seq(i - j + 1, k requires 0 <= k =>
          Sequences.Fib(i + 1) * Sequences.Fib(j + 1) * Sequences.Fib(k + 1));
        layer := layer + [row];
        j := j + 1;
      }
      assert layer == HosoyaLayer(i);
      pyramid := pyramid + [layer];
      i := i + 1;
    }
    assert pyramid == HosoyaPyramidLayers(n);
  }

  /** Every entry of a list multiplied by c. */
  function Scale(c: int, s: seq<int>): (r: seq<int>)
    ensures |r| == |s|
    ensures forall k :: 0 <= k < |s| ==> r[k] == c * s[k]
  {
    seq(|s|, k requires 0 <= k < |s| => c * s[k])
  }

  /** F(1), F(2), ..., F(m). */
  function FibonacciPrefix(m: nat): (r: seq<int>)
    ensures |r| == m
  {
    seq(m, k requires 0 <= k => Sequences.Fib(k + 1))
  }

  /** Row j of layer i is F(i + 1) * F(j + 1) times F(1), ..., F(i - j + 1). */
  lemma HosoyaLayerRow(i: nat, j: nat)
    requires j <= i
    ensures |HosoyaLayer(i)| == i + 1
    ensures HosoyaLayer(i)[j] == Scale(Sequences.Fib(i + 1) * Sequences.Fib(j + 1), FibonacciPrefix(i - j + 1))
  {
    var row := HosoyaLayer(i)[j];
    var scaled := Scale(Sequences.Fib(i + 1) * Sequences.Fib(j + 1), FibonacciPrefix(i - j + 1));
    assert |row| == |scaled|;
    forall k | 0 <= k < |row| ensures row[k] == scaled[k] {
      assert FibonacciPrefix(i - j + 1)[k] == Sequences.Fib(k + 1);
    }
  }

  /** Entry k of row j of layer i is F(i + 1) * F(j + 1) * F(k + 1). */
  lemma HosoyaLayerAt(i: nat, j: nat, k: nat)
    requires j <= i && k <= i - j
    ensures |HosoyaLayer(i)| == i + 1 && |HosoyaLayer(i)[j]| == i - j + 1
    ensures HosoyaLayer(i)[j][k] == Sequences.Fib(i + 1) * Sequences.Fib(j + 1) * Sequences.Fib(k + 1)
  {
  }

  /** Every entry of Hosoya's pyramid is positive, and swapping the row and
      the column index inside a layer gives the same value. */
  lemma HosoyaLayerEntry(i: nat, j: nat, k: nat)
    requires j <= i && k <= i - j
    ensures HosoyaLayer(i)[j][k] >= 1
    ensures k <= i && j <= i - k && HosoyaLayer(i)[j][k] == HosoyaLayer(i)[k][j]
  {
    HosoyaLayerAt(i, j, k);
    HosoyaLayerAt(i, k, j);
    Sequences.FibMonotone(i + 1);
    Sequences.FibMonotone(j + 1);
    Sequences.FibMonotone(k + 1);
    PositiveFactors(Sequences.Fib(i + 1), Sequences.Fib(j + 1), Sequences.Fib(k + 1));
  }

  // ---------------------------------------------------------------------
  // The kinds of pyramid and their construction

  /** The pyramid classes: the abstract base class and the two concrete ones. */
  datatype Kind = AbstractPyramid | PascalPyramid | HosoyaPyramid

  /** What `generate_pyramid` returns for each kind; the base class raises
      NotImplementedError. */
  function Layers(kind: Kind, n: int): Result<seq<seq<seq<int>>>>
  {
    match kind
    case AbstractPyramid => Err(NotImplementedError)
    case PascalPyramid => Ok(PascalPyramidLayers(n))
    case HosoyaPyramid => Ok(HosoyaPyramidLayers(n))
  }

  /** `generate_pyramid`, dispatched on the kind. */
  method Generate(kind: Kind, n: int) returns (res: Result<seq<seq<seq<int>>>>)
    ensures res == Layers(kind, n)
  {
    match kind
    case AbstractPyramid => res := Err(NotImplementedError);
    case PascalPyramid => var layers := GeneratePascalPyramid(n); res := Ok(layers);
    case HosoyaPyramid => var layers := GenerateHosoyaPyramid(n); res := Ok(layers);
  }

  /** `Pyramid.__init__`: records n and stores the generated layers; on the
      base class the generator raises. */
  method Construct(kind: Kind, n: int) returns (res: Result<Pyramid>)
    ensures res.Err? <==> kind == AbstractPyramid
    ensures res.Err? ==> res.error == NotImplementedError
    ensures res.Ok? ==> res.value.n == n && Layers(kind, n) == Ok(res.value.layers)
  {
    var layers := Generate(kind, n);
    if layers.Err? {
      return Err(layers.error);
    }
    return Ok(Pyramid(n, layers.value));
  }

  /** Both concrete pyramids have one layer per number in `range(n)`: none for
      n <= 0. Layer m has m + 1 rows and row i of it m - i + 1 entries. */
  lemma ConcreteShape(kind: Kind, n: int, m: nat, i: nat)
    requires kind != AbstractPyramid
    ensures Layers(kind, n).Ok?
    ensures Length(Pyramid(n, Layers(kind, n).value)) == if n <= 0 then 0 else n
    ensures m < |Layers(kind, n).value| ==> |Layers(kind, n).value[m]| == m + 1
    ensures m < |Layers(kind, n).value| && i <= m ==> |Layers(kind, n).value[m][i]| == m - i + 1
  {
  }
}
