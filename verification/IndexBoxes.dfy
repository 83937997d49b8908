/** Tensors of any rank as functions on the index box of their shape, and row-major enumeration. */
module IndexBoxes {
  import opened Sums

  datatype Tensor<T> = Tensor(shape: seq<nat>, at: seq<int> -> T)

  function Numel(shape: seq<nat>): nat {
    if shape == [] then 1 else shape[0] * Numel(shape[1..])
  }

  predicate InBox(i: seq<int>, shape: seq<nat>) {
    |i| == |shape| && forall a :: 0 <= a < |i| ==> 0 <= i[a] < shape[a]
  }

  /** The `l`-th index of the box in row-major order, and back. */
  function Unravel(shape: seq<nat>, l: int): seq<int> {
    if shape == [] then [] else
    var inner := Numel(shape[1..]);
    if inner == 0 then seq(|shape|, _ => 0) else [l / inner] + Unravel(shape[1..], l % inner)
  }
  function Ravel(shape: seq<nat>, i: seq<int>): int
    requires |i| == |shape|
  {
    if shape == [] then 0 else i[0] * Numel(shape[1..]) + Ravel(shape[1..], i[1..])
  }

  lemma {:induction false} UnravelInBox(shape: seq<nat>, l: int)
    requires 0 <= l < Numel(shape)
    ensures InBox(Unravel(shape, l), shape)
    ensures Ravel(shape, Unravel(shape, l)) == l
  {
    if shape != [] {
      var rest := shape[1..];
      UnflatIndex(l, shape[0], Numel(rest));
      UnravelInBox(rest, l % Numel(rest));
      assert Unravel(shape, l)[1..] == Unravel(rest, l % Numel(rest));
    }
  }

  lemma {:induction false} RavelInRange(shape: seq<nat>, i: seq<int>)
    requires InBox(i, shape)
    ensures 0 <= Ravel(shape, i) < Numel(shape)
    ensures Unravel(shape, Ravel(shape, i)) == i
  {
    if shape != [] {
      var rest := shape[1..];
      RavelInRange(rest, i[1..]);
      FlatBound(i[0], Ravel(rest, i[1..]), shape[0], Numel(rest));
      FlatIndex(i[0], Ravel(rest, i[1..]), Numel(rest));
      assert [i[0]] + i[1..] == i;
    }
  }

  lemma {:induction false} NumelAppend(shape: seq<nat>, n: nat)
    ensures Numel(shape + [n]) == Numel(shape) * n
  {
    if shape == [] {
      assert (shape + [n])[1..] == [];
    } else {
      assert (shape + [n])[1..] == shape[1..] + [n];
      NumelAppend(shape[1..], n);
      assert shape[0] * (Numel(shape[1..]) * n) == shape[0] * Numel(shape[1..]) * n;
    }
  }

  lemma {:induction false} RavelAppend(shape: seq<nat>, n: nat, i: seq<int>, a: int)
    requires |i| == |shape|
    ensures Ravel(shape + [n], i + [a]) == Ravel(shape, i) * n + a
  {
    if shape == [] {
      assert (shape + [n])[1..] == [] && (i + [a])[1..] == [];
    } else {
      assert (shape + [n])[1..] == shape[1..] + [n] && (i + [a])[1..] == i[1..] + [a];
      RavelAppend(shape[1..], n, i[1..], a);
      NumelAppend(shape[1..], n);
      var m, r := Numel(shape[1..]), Ravel(shape[1..], i[1..]);
      assert i[0] * (m * n) + (r * n + a) == (i[0] * m + r) * n + a by { FlatAssoc(i[0], r, a, m, n); }
    }
  }

  /** Sums over a box. */
  function Cells(t: Tensor<real>): int -> real { l => t.at(Unravel(t.shape, l)) }
  function Total(t: Tensor<real>): real { Sum(Numel(t.shape), Cells(t)) }

  function CellProducts(a: Tensor<real>, b: Tensor<real>): int -> real {
    l => a.at(Unravel(a.shape, l)) * b.at(Unravel(a.shape, l))
  }
  function Inner(a: Tensor<real>, b: Tensor<real>): real { Sum(Numel(a.shape), CellProducts(a, b)) }

  /** Row-major reshape. */
  function Reshape<T>(t: Tensor<T>, shape: seq<nat>): Tensor<T> {
    Tensor(shape, i => if |i| == |shape| then t.at(Unravel(t.shape, Ravel(shape, i))) else t.at(i))
  }

  /** Broadcast of a tensor whose extents are one or the target's. */
  function BroadcastIndex(from: seq<nat>, i: seq<int>): seq<int>
    requires |from| == |i|
  {
    seq(|i|, a requires 0 <= a < |i| => if from[a] == 1 then 0 else i[a])
  }
  function BroadcastTo<T>(t: Tensor<T>, shape: seq<nat>): Tensor<T> {
    Tensor(shape, i => if |i| == |t.shape| then t.at(BroadcastIndex(t.shape, i)) else t.at(i))
  }

  /** The shape that is `n` on one axis and one elsewhere. */
  function AxisShape(rank: nat, axis: nat, n: nat): seq<nat> { seq(rank, a => if a == axis then n else 1) }

  lemma {:induction false} OnesNumel(shape: seq<nat>)
    requires forall a :: 0 <= a < |shape| ==> shape[a] == 1
    ensures Numel(shape) == 1
  {
    if shape != [] { OnesNumel(shape[1..]); }
  }

  lemma {:induction false} ZeroRavel(shape: seq<nat>, i: seq<int>)
    requires |i| == |shape| && forall a :: 0 <= a < |i| ==> i[a] == 0
    ensures Ravel(shape, i) == 0
  {
    if shape != [] { ZeroRavel(shape[1..], i[1..]); }
  }

  /** Along a single axis the row-major position is the coordinate. */
  lemma {:induction false} AxisRavel(shape: seq<nat>, axis: nat, i: seq<int>)
    requires axis < |shape| == |i|
    requires forall a :: 0 <= a < |shape| && a != axis ==> shape[a] == 1 && i[a] == 0
    ensures Ravel(shape, i) == i[axis]
  {
    if axis == 0 {
      OnesNumel(shape[1..]);
      ZeroRavel(shape[1..], i[1..]);
    } else {
      AxisRavel(shape[1..], axis - 1, i[1..]);
    }
  }

  /** A vector laid along `axis` and broadcast reads its own coordinate. */
  lemma AlongAxis<T>(v: Tensor<T>, n: nat, axis: nat, shape: seq<nat>, i: seq<int>)
    requires v.shape == [n] && axis < |shape| && shape[axis] == n && InBox(i, shape)
    ensures BroadcastTo(Reshape(v, AxisShape(|shape|, axis, n)), shape).at(i) == v.at([i[axis]])
  {
    var laid := AxisShape(|shape|, axis, n);
    var j := BroadcastIndex(laid, i);
    assert j[axis] == i[axis];
    AxisRavel(laid, axis, j);
    assert Unravel([n], i[axis]) == [i[axis]] by { assert Numel([n][1..]) == 1; assert Unravel([n][1..], 0) == []; }
  }
}
