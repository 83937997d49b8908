/** Elementwise gather and accumulating scatter, built on coordinate tensors. */
module GatherScatter {
  import opened Sums
  import opened IndexBoxes

  // ---------------------------------------------------------------- primitives

  function Arange(n: nat): Tensor<int> { Tensor([n], i => if |i| == 1 then i[0] else 0) }

  /** Stack along a new last axis. */
  function Stack(parts: seq<Tensor<int>>, shape: seq<nat>): Tensor<int> {
    Tensor(shape + [|parts|],
           i => if |i| > 0 && 0 <= i[|i| - 1] < |parts| then parts[i[|i| - 1]].at(i[..|i| - 1]) else 0)
  }

  /** The coordinate vector stored at position `i` of a coordinate tensor. */
  function CoordAt(coords: Tensor<int>, rank: nat, i: seq<int>): seq<int> {
    seq(rank, a requires 0 <= a < rank => coords.at(i + [a]))
  }

  /** `gather_nd` with no batch dimensions and full coordinate vectors. */
  function GatherNd(input: Tensor<real>, coords: Tensor<int>): Tensor<real>
    requires |coords.shape| > 0 && coords.shape[|coords.shape| - 1] == |input.shape|
  {
    Tensor(coords.shape[..|coords.shape| - 1], i => input.at(CoordAt(coords, |input.shape|, i)))
  }

  /** `scatter_nd_add`: a copy of `input` with every update added at its coordinate. */
  function UpdateAt(updates: Tensor<real>, coords: Tensor<int>, rank: nat, p: seq<int>): int -> real {
    u => if CoordAt(coords, rank, [u]) == p then updates.at([u]) else 0.0
  }
  function ScatterNdAdd(input: Tensor<real>, updates: Tensor<real>, coords: Tensor<int>): Tensor<real>
    requires |updates.shape| == 1 && coords.shape == [updates.shape[0], |input.shape|]
  {
    Tensor(input.shape, p => input.at(p) + Sum(updates.shape[0], UpdateAt(updates, coords, |input.shape|, p)))
  }

  // ------------------------------------------------------------------ mappings

  function AxisCoords(index: Tensor<int>, axis: nat): Tensor<int>
    requires axis < |index.shape|
  {
    BroadcastTo(Reshape(Arange(index.shape[axis]), AxisShape(|index.shape|, axis, index.shape[axis])), index.shape)
  }

  /** `_dim_coords`: one coordinate tensor per axis, `index` itself on axis `dim`. */
  function DimCoords(rank: nat, dim: int, index: Tensor<int>): Tensor<int>
    requires |index.shape| == rank > 0
  {
    Stack(seq(rank, a requires 0 <= a < rank => if a == dim % rank then index else AxisCoords(index, a)), index.shape)
  }

  function Gather(input: Tensor<real>, dim: int, index: Tensor<int>): Tensor<real>
    requires |index.shape| == |input.shape| > 0
  {
    GatherNd(input, DimCoords(|input.shape|, dim, index))
  }

  /** `aten_scatter_add`. The flattened updates and coordinates must have the same count. */
  function ScatterAdd(input: Tensor<real>, dim: int, index: Tensor<int>, src: Tensor<real>): Tensor<real>
    requires |index.shape| == |input.shape| > 0 && Numel(src.shape) == Numel(index.shape)
  {
    var coords := DimCoords(|input.shape|, dim, index);
    ScatterNdAdd(input, Reshape(src, [Numel(src.shape)]), Reshape(coords, [Numel(index.shape), |input.shape|]))
  }

  /** `aten_index_add` with `alpha`. */
  function Scaled(src: Tensor<real>, alpha: real): Tensor<real> {
    if alpha == 1.0 then src else Tensor(src.shape, i => src.at(i) * alpha)
  }
  function SpreadIndex(index: Tensor<int>, dim: int, shape: seq<nat>): Tensor<int>
    requires |index.shape| == 1 && |shape| > 0
  {
    BroadcastTo(Reshape(index, AxisShape(|shape|, dim % |shape|, index.shape[0])), shape)
  }
  function IndexAdd(input: Tensor<real>, dim: int, index: Tensor<int>, source: Tensor<real>, alpha: real): Tensor<real>
    requires |index.shape| == 1 && |source.shape| == |input.shape| > 0
  {
    var src := Scaled(source, alpha);
    ScatterAdd(input, dim, SpreadIndex(index, dim, src.shape), src)
  }

  // --------------------------------------------------------------- what they mean

  /** `i` with its `dim`-th coordinate replaced by the index value there. */
  function Target(dim: int, index: Tensor<int>, i: seq<int>): seq<int>
    requires |i| > 0
  {
    i[dim % |i| := index.at(i)]
  }

  /** The coordinate tensor holds exactly the torch-style target of every position. */
  lemma CoordsAreTargets(dim: int, index: Tensor<int>, i: seq<int>)
    requires |index.shape| > 0 && InBox(i, index.shape)
    ensures CoordAt(DimCoords(|index.shape|, dim, index), |index.shape|, i) == Target(dim, index, i)
  {
    var rank := |index.shape|;
    var got, want := CoordAt(DimCoords(rank, dim, index), rank, i), Target(dim, index, i);
    forall a | 0 <= a < rank ensures got[a] == want[a] {
      assert (i + [a])[..|i + [a]| - 1] == i;
      if a != dim % rank {
        AlongAxis(Arange(index.shape[a]), index.shape[a], a, index.shape, i);
      }
    }
  }

  /** Elementwise gather: `out[i] == input[i with index[i] on axis dim]`. */
  lemma GatherAt(input: Tensor<real>, dim: int, index: Tensor<int>, i: seq<int>)
    requires |index.shape| == |input.shape| > 0 && InBox(i, index.shape)
    ensures Gather(input, dim, index).shape == index.shape
    ensures Gather(input, dim, index).at(i) == input.at(Target(dim, index, i))
  {
    CoordsAreTargets(dim, index, i);
    assert (index.shape + [|input.shape|])[..|index.shape|] == index.shape;
  }

  /** Accumulation as torch describes it: for each source position in turn, `out[target] += src`. */
  function AddAt(t: seq<int> -> real, p: seq<int>, v: real): seq<int> -> real {
    q => if q == p then t(q) + v else t(q)
  }
  function Accumulate(t: seq<int> -> real, dim: int, index: Tensor<int>, src: Tensor<real>, n: nat): seq<int> -> real
    requires |index.shape| > 0
  {
    if n == 0 then t else
    var i := Unravel(index.shape, n - 1);
    if |i| == 0 then t else
    AddAt(Accumulate(t, dim, index, src, n - 1), Target(dim, index, i), src.at(i))
  }

  /** The update number `u` of the flattened scatter, at `p`. */
  function Arrives(dim: int, index: Tensor<int>, src: Tensor<real>, p: seq<int>): int -> real {
    u => var i := Unravel(index.shape, u); if |i| > 0 && Target(dim, index, i) == p then src.at(i) else 0.0
  }

  lemma {:induction false} AccumulateAt(t: seq<int> -> real, dim: int, index: Tensor<int>, src: Tensor<real>, n: nat,
                                        p: seq<int>)
    requires |index.shape| > 0 && n <= Numel(index.shape)
    ensures Accumulate(t, dim, index, src, n)(p) == t(p) + Sum(n, Arrives(dim, index, src, p))
  {
    if n > 0 {
      AccumulateAt(t, dim, index, src, n - 1, p);
      UnravelInBox(index.shape, n - 1);
    }
  }

  lemma FlatEntry(coords: Tensor<int>, shape: seq<nat>, rank: nat, u: int, i: seq<int>, a: int)
    requires coords.shape == shape + [rank] && InBox(i, shape) && Ravel(shape, i) == u && 0 <= a < rank
    ensures Reshape(coords, [Numel(shape), rank]).at([u] + [a]) == coords.at(i + [a])
  {
    hide Numel, Unravel;
    PairRavel(Numel(shape), rank, u, a);
    RavelAppend(shape, rank, i, a);
    RavelInRange(shape + [rank], i + [a]);
  }

  /** Reshaped to rows, the coordinate tensor's row `u` is the target of the `u`-th position. */
  lemma FlatCoords(dim: int, index: Tensor<int>, u: int)
    requires |index.shape| > 0 && 0 <= u < Numel(index.shape)
    ensures CoordAt(Reshape(DimCoords(|index.shape|, dim, index), [Numel(index.shape), |index.shape|]), |index.shape|, [u])
         == Target(dim, index, Unravel(index.shape, u))
  {
    var rank, n := |index.shape|, Numel(index.shape);
    var coords := DimCoords(rank, dim, index);
    var i := Unravel(index.shape, u);
    UnravelInBox(index.shape, u);
    CoordsAreTargets(dim, index, i);
    hide Numel, Ravel, Unravel, DimCoords, Reshape;
    var flat := Reshape(coords, [n, rank]);
    assert coords.shape == index.shape + [rank] by { CoordsShape(dim, index); }
    forall a | 0 <= a < rank ensures flat.at([u] + [a]) == coords.at(i + [a]) {
      FlatEntry(coords, index.shape, rank, u, i, a);
    }
    assert CoordAt(flat, rank, [u]) == CoordAt(coords, rank, i);
  }

  lemma CoordsShape(dim: int, index: Tensor<int>)
    requires |index.shape| > 0
    ensures DimCoords(|index.shape|, dim, index).shape == index.shape + [|index.shape|]
  {}

  lemma PairRavel(n: nat, rank: nat, u: int, a: int)
    ensures Ravel([n, rank], [u] + [a]) == u * rank + a
  {
    assert [u] + [a] == [u, a];
    assert [n, rank][1..] == [rank] && [u, a][1..] == [a] && [rank][1..] == [] && [a][1..] == [];
    assert Numel([rank]) == rank * Numel([]);
    assert Ravel([rank], [a]) == a * Numel([]) + Ravel([], []);
  }

  lemma FlatSource(src: Tensor<real>, u: int)
    ensures Reshape(src, [Numel(src.shape)]).at([u]) == src.at(Unravel(src.shape, u))
  {
    assert [Numel(src.shape)][1..] == [] && [u][1..] == [];
    assert Ravel([Numel(src.shape)], [u]) == u;
  }

  /** The scatter of the mapping equals the accumulation loop, repeated targets included. */
  lemma ScatterAddAt(input: Tensor<real>, dim: int, index: Tensor<int>, src: Tensor<real>, p: seq<int>)
    requires |index.shape| == |input.shape| > 0 && src.shape == index.shape
    ensures ScatterAdd(input, dim, index, src).at(p)
         == input.at(p) + Sum(Numel(index.shape), Arrives(dim, index, src, p))
    ensures ScatterAdd(input, dim, index, src).at(p)
         == Accumulate(input.at, dim, index, src, Numel(index.shape))(p)
  {
    var n, rank := Numel(index.shape), |input.shape|;
    var updates := Reshape(src, [n]);
    var coords := Reshape(DimCoords(rank, dim, index), [n, rank]);
    forall u | 0 <= u < n ensures UpdateAt(updates, coords, rank, p)(u) == Arrives(dim, index, src, p)(u) {
      FlatCoords(dim, index, u);
      FlatSource(src, u);
      UnravelInBox(index.shape, u);
    }
    SumEq(n, UpdateAt(updates, coords, rank, p), Arrives(dim, index, src, p));
    AccumulateAt(input.at, dim, index, src, n, p);
  }

  // ------------------------------------------------------------- laws of the pair

  /** What ATen requires of the index: no longer than `shape` off `dim`, values in range on it. */
  ghost predicate InRange(dim: int, index: Tensor<int>, shape: seq<nat>) {
    && |index.shape| == |shape| > 0
    && (forall a :: 0 <= a < |shape| && a != dim % |shape| ==> index.shape[a] <= shape[a])
    && (forall i :: InBox(i, index.shape) ==> 0 <= index.at(i) < shape[dim % |shape|])
  }

  lemma TargetInBox(dim: int, index: Tensor<int>, shape: seq<nat>, u: int)
    requires InRange(dim, index, shape) && 0 <= u < Numel(index.shape)
    ensures InBox(Target(dim, index, Unravel(index.shape, u)), shape)
  {
    UnravelInBox(index.shape, u);
  }

  /** The contribution of update `u` to cell `l`, weighted by `x`. */
  function Delivery(dim: int, index: Tensor<int>, src: Tensor<real>, x: Tensor<real>): (int, int) -> real {
    (u, l) => Arrives(dim, index, src, Unravel(x.shape, l))(u) * x.at(Unravel(x.shape, l))
  }

  lemma CellReceives(input: Tensor<real>, dim: int, index: Tensor<int>, src: Tensor<real>, x: Tensor<real>, l: int)
    requires |index.shape| == |input.shape| > 0 && src.shape == index.shape && x.shape == input.shape
    ensures CellProducts(ScatterAdd(input, dim, index, src), x)(l)
         == CellProducts(input, x)(l) + Sum(Numel(index.shape), Col(Delivery(dim, index, src, x), l))
  {
    hide Sum, Numel, Unravel, ScatterAdd, Arrives;
    var p := Unravel(input.shape, l);
    ScatterAddAt(input, dim, index, src, p);
    ScatterShape(input, dim, index, src);
    SumScale(Numel(index.shape), x.at(p), Arrives(dim, index, src, p), Col(Delivery(dim, index, src, x), l));
  }

  lemma UpdateDelivers(dim: int, index: Tensor<int>, src: Tensor<real>, x: Tensor<real>, u: int)
    requires InRange(dim, index, x.shape) && src.shape == index.shape && 0 <= u < Numel(index.shape)
    ensures CellProducts(src, Gather(x, dim, index))(u) == Sum(Numel(x.shape), Row(Delivery(dim, index, src, x), u))
  {
    hide Sum, Numel, Unravel, Gather;
    var i := Unravel(index.shape, u);
    UnravelInBox(index.shape, u);
    TargetInBox(dim, index, x.shape, u);
    GatherAt(x, dim, index, i);
    var row, t := Row(Delivery(dim, index, src, x), u), Target(dim, index, i);
    assert forall l :: row(l) == Arrives(dim, index, src, Unravel(x.shape, l))(u) * x.at(Unravel(x.shape, l));
    DeliverOnce(x.shape, t, src.at(i), x, Row(Delivery(dim, index, src, x), u));
  }

  /** `<scatter_add(input, index, src), x> == <input, x> + <src, gather(x, index)>`. */
  lemma ScatterGatherPairing(input: Tensor<real>, dim: int, index: Tensor<int>, src: Tensor<real>, x: Tensor<real>)
    requires InRange(dim, index, input.shape) && src.shape == index.shape && x.shape == input.shape
    ensures Inner(ScatterAdd(input, dim, index, src), x) == Inner(input, x) + Inner(src, Gather(x, dim, index))
  {
    hide Sum, Numel, ScatterAdd, Gather, Delivery, CellProducts;
    var n, m := Numel(index.shape), Numel(input.shape);
    var out, delivery := ScatterAdd(input, dim, index, src), Delivery(dim, index, src, x);
    ScatterShape(input, dim, index, src);
    var gathered := (l: int) => Sum(n, Col(delivery, l));
    forall l ensures CellProducts(out, x)(l) == CellProducts(input, x)(l) + gathered(l) {
      CellReceives(input, dim, index, src, x, l);
    }
    SumAdd(m, CellProducts(input, x), gathered, CellProducts(out, x));
    forall u | 0 <= u < n ensures CellProducts(src, Gather(x, dim, index))(u) == Sum(m, Row(delivery, u)) {
      UpdateDelivers(dim, index, src, x, u);
    }
    SumSwap(n, m, delivery, CellProducts(src, Gather(x, dim, index)), gathered);
  }

  lemma ScatterShape(input: Tensor<real>, dim: int, index: Tensor<int>, src: Tensor<real>)
    requires |index.shape| == |input.shape| > 0 && Numel(src.shape) == Numel(index.shape)
    ensures ScatterAdd(input, dim, index, src).shape == input.shape
  {}

  /** An update lands on exactly one cell of the box. */
  lemma DeliverOnce(shape: seq<nat>, t: seq<int>, v: real, x: Tensor<real>, row: int -> real)
    requires InBox(t, shape)
    requires forall l :: row(l) == (if t == Unravel(shape, l) then v else 0.0) * x.at(Unravel(shape, l))
    ensures Sum(Numel(shape), row) == v * x.at(t)
  {
    hide Sum, Numel, Ravel, Unravel;
    RavelInRange(shape, t);
    forall l | 0 <= l < Numel(shape) && l != Ravel(shape, t) ensures row(l) == 0.0 {
      UnravelInBox(shape, l);
      assert Unravel(shape, l) != t;
    }
    SumDelta(Numel(shape), Ravel(shape, t), row);
  }

  function Constant(shape: seq<nat>, v: real): Tensor<real> { Tensor(shape, i => v) }

  /** Scattering into zeros is the adjoint of gathering. */
  lemma ScatterGatherAdjoint(dim: int, index: Tensor<int>, src: Tensor<real>, x: Tensor<real>)
    requires InRange(dim, index, x.shape) && src.shape == index.shape
    ensures Inner(ScatterAdd(Constant(x.shape, 0.0), dim, index, src), x) == Inner(src, Gather(x, dim, index))
  {
    var zero := Constant(x.shape, 0.0);
    ScatterGatherPairing(zero, dim, index, src, x);
    SumScale(Numel(x.shape), 0.0, CellProducts(zero, x), CellProducts(zero, x));
  }

  lemma PairedWithOnes(t: Tensor<real>, ones: Tensor<real>)
    requires forall l :: 0 <= l < Numel(t.shape) ==> ones.at(Unravel(t.shape, l)) == 1.0
    ensures Inner(t, ones) == Total(t)
  {
    hide Sum;
    SumEq(Numel(t.shape), CellProducts(t, ones), Cells(t));
  }

  /** Nothing is lost: the total grows by exactly the total of the source. */
  lemma ScatterConserves(input: Tensor<real>, dim: int, index: Tensor<int>, src: Tensor<real>)
    requires InRange(dim, index, input.shape) && src.shape == index.shape
    ensures Total(ScatterAdd(input, dim, index, src)) == Total(input) + Total(src)
  {
    hide Numel, Unravel, ScatterAdd, Gather, Sum, Inner, Total;
    var ones := Constant(input.shape, 1.0);
    ScatterGatherPairing(input, dim, index, src, ones);
    PairedWithOnes(ScatterAdd(input, dim, index, src), ones);
    PairedWithOnes(input, ones);
    forall u | 0 <= u < Numel(src.shape) ensures Gather(ones, dim, index).at(Unravel(src.shape, u)) == 1.0 {
      UnravelInBox(index.shape, u);
      GatherAt(ones, dim, index, Unravel(index.shape, u));
    }
    PairedWithOnes(src, Gather(ones, dim, index));
  }

  /** The broadcast 1-D index reads the coordinate of `dim` alone. */
  lemma SpreadIndexAt(index: Tensor<int>, dim: int, shape: seq<nat>, i: seq<int>)
    requires |index.shape| == 1 && |shape| > 0 && InBox(i, shape) && shape[dim % |shape|] == index.shape[0]
    ensures SpreadIndex(index, dim, shape).at(i) == index.at([i[dim % |shape|]])
  {
    AlongAxis(index, index.shape[0], dim % |shape|, shape, i);
  }

  lemma ScaledPairing(source: Tensor<real>, alpha: real, y: Tensor<real>)
    ensures Inner(Scaled(source, alpha), y) == alpha * Inner(source, y)
    ensures Total(Scaled(source, alpha)) == alpha * Total(source)
  {
    hide Sum, Numel, Unravel;
    var src := Scaled(source, alpha);
    SumScale(Numel(src.shape), alpha, CellProducts(source, y), CellProducts(src, y));
    SumScale(Numel(src.shape), alpha, Cells(source), Cells(src));
  }

  /** What ATen requires of `index_add`. */
  ghost predicate IndexAddOperands(input: Tensor<real>, dim: int, index: Tensor<int>, source: Tensor<real>) {
    && |index.shape| == 1 && |source.shape| == |input.shape| > 0
    && source.shape == input.shape[dim % |input.shape| := index.shape[0]]
    && forall k :: 0 <= k < index.shape[0] ==> 0 <= index.at([k]) < input.shape[dim % |input.shape|]
  }

  lemma SpreadInRange(input: Tensor<real>, dim: int, index: Tensor<int>, source: Tensor<real>)
    requires IndexAddOperands(input, dim, index, source)
    ensures InRange(dim, SpreadIndex(index, dim, source.shape), input.shape)
    ensures SpreadIndex(index, dim, source.shape).shape == source.shape
  {
    var spread := SpreadIndex(index, dim, source.shape);
    forall i | InBox(i, spread.shape) ensures 0 <= spread.at(i) < input.shape[dim % |input.shape|] {
      SpreadIndexAt(index, dim, source.shape, i);
    }
  }

  /** `index_add`: paired with any `x`, the source contributes `alpha` times its pairing with the gathered slices;
  the total grows by `alpha` times the source's. */
  lemma IndexAddLaws(input: Tensor<real>, dim: int, index: Tensor<int>, source: Tensor<real>, alpha: real,
                     x: Tensor<real>, spread: Tensor<int>, out: Tensor<real>)
    requires IndexAddOperands(input, dim, index, source) && x.shape == input.shape
    requires spread == SpreadIndex(index, dim, source.shape)
    requires out == IndexAdd(input, dim, index, source, alpha)
    ensures |spread.shape| == |x.shape|
    ensures Inner(out, x) == Inner(input, x) + alpha * Inner(source, Gather(x, dim, spread))
    ensures Total(out) == Total(input) + alpha * Total(source)
  {
    hide *;
    IndexAddIsScatter(input, dim, index, source, alpha);
    var src := Scaled(source, alpha);
    ScatterGatherPairing(input, dim, spread, src, x);
    ScatterConserves(input, dim, spread, src);
    ScaledPairing(source, alpha, Gather(x, dim, spread));
  }

  /** What source position `u` of `index_add` contributes at `p`: its entry when it lands there. */
  function Lands(dim: int, index: Tensor<int>, source: Tensor<real>, p: seq<int>): int -> real {
    u => var i := Unravel(source.shape, u);
      if |i| > 0 && i[dim % |i| := index.at([i[dim % |i|]])] == p then source.at(i) else 0.0
  }

  /** Cell by cell: `alpha` times every source entry whose index value sends it there. */
  lemma IndexAddAt(input: Tensor<real>, dim: int, index: Tensor<int>, source: Tensor<real>, alpha: real, p: seq<int>)
    requires IndexAddOperands(input, dim, index, source)
    ensures IndexAdd(input, dim, index, source, alpha).at(p)
         == input.at(p) + alpha * Sum(Numel(source.shape), Lands(dim, index, source, p))
  {
    hide *;
    IndexAddIsScatter(input, dim, index, source, alpha);
    var spread, src, n := SpreadIndex(index, dim, source.shape), Scaled(source, alpha), Numel(source.shape);
    ScatterAddAt(input, dim, spread, src, p);
    forall u | 0 <= u < n ensures Arrives(dim, spread, src, p)(u) == alpha * Lands(dim, index, source, p)(u) {
      ArrivesWhereItLands(input, dim, index, source, alpha, p, u);
    }
    SumScale(n, alpha, Lands(dim, index, source, p), Arrives(dim, spread, src, p));
  }
  lemma ArrivesWhereItLands(input: Tensor<real>, dim: int, index: Tensor<int>, source: Tensor<real>, alpha: real, p: seq<int>,
                            u: int)
    requires IndexAddOperands(input, dim, index, source) && 0 <= u < Numel(source.shape)
    ensures Arrives(dim, SpreadIndex(index, dim, source.shape), Scaled(source, alpha), p)(u)
         == alpha * Lands(dim, index, source, p)(u)
  {
    hide Numel, Unravel, Ravel;
    SpreadInRange(input, dim, index, source);
    UnravelInBox(source.shape, u);
    SpreadIndexAt(index, dim, source.shape, Unravel(source.shape, u));
  }

  lemma IndexAddIsScatter(input: Tensor<real>, dim: int, index: Tensor<int>, source: Tensor<real>, alpha: real)
    requires IndexAddOperands(input, dim, index, source)
    ensures |index.shape| == 1 && |source.shape| == |input.shape| > 0
    ensures var spread, src := SpreadIndex(index, dim, source.shape), Scaled(source, alpha);
            && src.shape == spread.shape == source.shape && InRange(dim, spread, input.shape)
            && IndexAdd(input, dim, index, source, alpha) == ScatterAdd(input, dim, spread, src)
  {
    hide ScatterAdd;
    SpreadInRange(input, dim, index, source);
  }
}
