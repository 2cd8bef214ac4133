/** The shared pyramid abstraction: a list of layers, each layer a list of
    rows, and the read-only queries every kind of pyramid answers. */
module PyramidBase {
  import opened Common
  import TriangleBase

  /** A pyramid as constructed: the requested layer count and the layers its
      generator produced. */
  datatype Pyramid = Pyramid(n: int, layers: seq<seq<seq<int>>>)

  /** `len(p)`: the number of layers. */
  function Length(p: Pyramid): nat
  {
    |p.layers|
  }

  /** `p[key]`: Python indexing into the layers. */
  function GetItem(p: Pyramid, key: int): (r: Result<seq<seq<int>>>)
    ensures r.Ok? <==> -|p.layers| <= key < |p.layers|
    ensures 0 <= key < |p.layers| ==> r == Ok(p.layers[key])
    ensures -|p.layers| <= key < 0 ==> r == Ok(p.layers[|p.layers| + key])
    ensures r.Err? ==> r.error == IndexError
  {
    PyIndex(p.layers, key)
  }

  /** `flatten`: layer by layer, each layer row by row. */
  function Flatten(layers: seq<seq<seq<int>>>): (r: seq<int>)
    ensures |r| == Sum(LayerSizes(layers))
  {
    if |layers| == 0 then []
    else
      assert LayerSizes(layers)[..|layers| - 1] == LayerSizes(layers[..|layers| - 1]);
      Flatten(layers[..|layers| - 1]) + TriangleBase.Flatten(layers[|layers| - 1])
  }

  /** The number of entries of each layer. */
  function LayerSizes(layers: seq<seq<seq<int>>>): seq<int>
  {
    seq(|layers|, l requires 0 <= l < |layers| => Sum(TriangleBase.Sizes(layers[l])))
  }

  /** `layer_sums`: one value per layer, the total of its row sums. */
  function LayerSums(layers: seq<seq<seq<int>>>): (r: seq<int>)
    ensures |r| == |layers|
  {
    seq(|layers|, l requires 0 <= l < |layers| => Sum(TriangleBase.RowSums(layers[l])))
  }

  /** The flattened pyramid holds every entry once: its length is the total
      number of entries and its sum is the total of the layer sums. */
  lemma {:induction false} FlattenTotals(layers: seq<seq<seq<int>>>)
    ensures |Flatten(layers)| == Sum(LayerSizes(layers))
    ensures Sum(Flatten(layers)) == Sum(LayerSums(layers))
  {
    if |layers| > 0 {
      var init := layers[..|layers| - 1];
      var last := layers[|layers| - 1];
      FlattenTotals(init);
      TriangleBase.FlattenTotals(last);
      assert LayerSizes(layers)[..|layers| - 1] == LayerSizes(init);
      assert LayerSums(layers)[..|layers| - 1] == LayerSums(init);
      SumConcat(Flatten(init), TriangleBase.Flatten(last));
    }
  }

  /** Entry (l, i, j) sits in the flattened pyramid after all entries of the
      earlier layers and, within its layer, after all entries of the earlier
      rows. */
  lemma {:induction false} FlattenAt(layers: seq<seq<seq<int>>>, l: nat, i: nat, j: nat)
    requires l < |layers| && i < |layers[l]| && j < |layers[l][i]|
    ensures 0 <= Sum(LayerSizes(layers[..l])) + Sum(TriangleBase.Sizes(layers[l][..i])) + j < |Flatten(layers)| &&
            Flatten(layers)[Sum(LayerSizes(layers[..l])) + Sum(TriangleBase.Sizes(layers[l][..i])) + j] == layers[l][i][j]
    decreases |layers|
  {
    var init, last := layers[..|layers| - 1], layers[|layers| - 1];
    var before, inLayer := Sum(LayerSizes(layers[..l])), Sum(TriangleBase.Sizes(layers[l][..i]));
    var whole, front, back := Flatten(layers), Flatten(init), TriangleBase.Flatten(last);
    assert whole == front + back;
    if l == |layers| - 1 {
      assert layers[..l] == init;
      assert |front| == before;
      TriangleBase.FlattenAt(last, i, j);
      assert back[inLayer + j] == last[i][j];
    } else {
      assert init[..l] == layers[..l] && init[l] == layers[l];
      FlattenAt(init, l, i, j);
      assert front[before + inLayer + j] == layers[l][i][j];
    }
  }
}
