/** Dense tensors of rank two to four and the graph primitives the convolution mappings use.

An element function is only meaningful inside the index box its extents span. Every primitive
has its usual definition; a reshape is row-major. */
module Tensors {
  import opened Sums

  datatype Tensor2 = Tensor2(d0: nat, d1: nat, at: (int, int) -> real)
  datatype Tensor3 = Tensor3(d0: nat, d1: nat, d2: nat, at: (int, int, int) -> real)
  datatype Tensor4 = Tensor4(d0: nat, d1: nat, d2: nat, d3: nat, at: (int, int, int, int) -> real)

  ghost predicate SameShape(a: Tensor4, b: Tensor4) {
    a.d0 == b.d0 && a.d1 == b.d1 && a.d2 == b.d2 && a.d3 == b.d3
  }

  /** Axis order of a permute: output axis `i` is input axis `p_i`. */
  datatype Axes = Axes(p0: nat, p1: nat, p2: nat, p3: nat)
  {
    function Where(axis: nat, i: int, j: int, k: int, l: int): int {
      if p0 == axis then i else if p1 == axis then j else if p2 == axis then k else l
    }
  }

  function Extent(t: Tensor4, axis: nat): nat {
    if axis == 0 then t.d0 else if axis == 1 then t.d1 else if axis == 2 then t.d2 else t.d3
  }

  function Permute(t: Tensor4, p: Axes): Tensor4 {
    Tensor4(Extent(t, p.p0), Extent(t, p.p1), Extent(t, p.p2), Extent(t, p.p3),
            (i, j, k, l) => t.at(p.Where(0, i, j, k, l), p.Where(1, i, j, k, l),
                                 p.Where(2, i, j, k, l), p.Where(3, i, j, k, l)))
  }

  lemma PermuteAt(t: Tensor4, p: Axes, i: int, j: int, k: int, l: int)
    ensures Permute(t, p).at(i, j, k, l) == t.at(p.Where(0, i, j, k, l), p.Where(1, i, j, k, l),
                                                 p.Where(2, i, j, k, l), p.Where(3, i, j, k, l))
  {}

  /** A slice of `len` entries of one axis, starting at `lo`. */
  function Slice0(t: Tensor4, lo: nat, len: nat): Tensor4 {
    Tensor4(len, t.d1, t.d2, t.d3, (i, j, k, l) => t.at(lo + i, j, k, l))
  }
  function Slice1(t: Tensor4, lo: nat, len: nat): Tensor4 {
    Tensor4(t.d0, len, t.d2, t.d3, (i, j, k, l) => t.at(i, lo + j, k, l))
  }
  function Slice3(t: Tensor4, lo: nat, len: nat): Tensor4 {
    Tensor4(t.d0, t.d1, t.d2, len, (i, j, k, l) => t.at(i, j, k, lo + l))
  }
  function SliceColumns(t: Tensor3, lo: nat, len: nat): Tensor3 {
    Tensor3(t.d0, len, t.d2, (i, j, l) => t.at(i, lo + j, l))
  }

  ghost predicate AllLike(parts: seq<Tensor4>) {
    |parts| > 0 && forall p :: 0 <= p < |parts| ==> SameShape(parts[p], parts[0])
  }

  /** Concatenation of equally shaped parts along axis 0 or axis 1. */
  function Concat0(parts: seq<Tensor4>): Tensor4
    requires AllLike(parts)
  {
    var m := parts[0].d0;
    Tensor4(|parts| * m, parts[0].d1, parts[0].d2, parts[0].d3,
            (i, j, k, l) => if m > 0 && 0 <= i / m < |parts| then parts[i / m].at(i % m, j, k, l) else 0.0)
  }
  function Concat1(parts: seq<Tensor4>): Tensor4
    requires AllLike(parts)
  {
    var m := parts[0].d1;
    Tensor4(parts[0].d0, |parts| * m, parts[0].d2, parts[0].d3,
            (i, j, k, l) => if m > 0 && 0 <= j / m < |parts| then parts[j / m].at(i, j % m, k, l) else 0.0)
  }

  /** Inner products. */
  function Products(a: Tensor4, b: Tensor4, i: int): (int, int, int) -> real {
    (j, k, l) => a.at(i, j, k, l) * b.at(i, j, k, l)
  }
  function Sample(a: Tensor4, b: Tensor4): int -> real {
    i => Sum3(a.d1, a.d2, a.d3, Products(a, b, i))
  }
  function Dot(a: Tensor4, b: Tensor4): real { Sum(a.d0, Sample(a, b)) }

  lemma DotCong(a: Tensor4, b: Tensor4, c: Tensor4, d: Tensor4)
    requires SameShape(a, c)
    requires forall i, j, k, l :: 0 <= i < a.d0 && 0 <= j < a.d1 && 0 <= k < a.d2 && 0 <= l < a.d3
               ==> a.at(i, j, k, l) * b.at(i, j, k, l) == c.at(i, j, k, l) * d.at(i, j, k, l)
    ensures Dot(a, b) == Dot(c, d)
  {
    forall i | 0 <= i < a.d0 ensures Sample(a, b)(i) == Sample(c, d)(i) {
      Sum3Eq(a.d1, a.d2, a.d3, Products(a, b, i), Products(c, d, i));
    }
    SumEq(a.d0, Sample(a, b), Sample(c, d));
  }

  /** One at a single cell and zero elsewhere. */
  function Unit(t: Tensor4, i: int, j: int, k: int, l: int): Tensor4 {
    t.(at := (i', j', k', l') => if i' == i && j' == j && k' == k && l' == l then 1.0 else 0.0)
  }
  lemma DotUnit(t: Tensor4, i: int, j: int, k: int, l: int)
    requires 0 <= i < t.d0 && 0 <= j < t.d1 && 0 <= k < t.d2 && 0 <= l < t.d3
    ensures Dot(Unit(t, i, j, k, l), t) == t.at(i, j, k, l)
  {
    var unit := Unit(t, i, j, k, l);
    forall n | 0 <= n < t.d0 ensures Sample(unit, t)(n) == if n == i then t.at(i, j, k, l) else 0.0 {
      Sum3Delta(t.d1, t.d2, t.d3, if n == i then j else -1, k, l, Products(unit, t, n));
    }
    SumDelta(t.d0, i, Sample(unit, t));
  }

  /** The inner product is the sum of the inner products of the slices of axis 0. */
  function Slice0Dots(a: Tensor4, b: Tensor4, m: nat): int -> real {
    g => if g < 0 then 0.0 else Dot(Slice0(a, g * m, m), Slice0(b, g * m, m))
  }
  lemma DotBySlices0(a: Tensor4, b: Tensor4, parts: nat, m: nat)
    requires a.d0 == parts * m
    ensures Dot(a, b) == Sum(parts, Slice0Dots(a, b, m))
  {
    var f := (g: int, i: int) => Sample(a, b)(g * m + i);
    forall g | 0 <= g < parts ensures Slice0Dots(a, b, m)(g) == Sum(m, Row(f, g)) {
      var sa, sb := Slice0(a, g * m, m), Slice0(b, g * m, m);
      forall i | 0 <= i < m ensures Sample(sa, sb)(i) == Row(f, g)(i) {
        Sum3Eq(a.d1, a.d2, a.d3, Products(sa, sb, i), Products(a, b, g * m + i));
        assert Row(f, g)(i) == Sample(a, b)(g * m + i);
      }
      SumEq(m, Sample(sa, sb), Row(f, g));
    }
    SumReshape(parts, m, f, Slice0Dots(a, b, m), Sample(a, b));
  }

  /** ... and of the slices of axis 1. */
  function Slice1Dots(a: Tensor4, b: Tensor4, m: nat): int -> real {
    g => if g < 0 then 0.0 else Dot(Slice1(a, g * m, m), Slice1(b, g * m, m))
  }
  lemma DotBySlices1(a: Tensor4, b: Tensor4, parts: nat, m: nat)
    requires a.d1 == parts * m
    ensures Dot(a, b) == Sum(parts, Slice1Dots(a, b, m))
  {
    var f := (i: int, g: int) => if g < 0 then 0.0 else Sample(Slice1(a, g * m, m), Slice1(b, g * m, m))(i);
    forall i | 0 <= i < a.d0 ensures Sample(a, b)(i) == Sum(parts, Row(f, i)) {
      SampleBySlices(a, b, parts, m, i, Row(f, i));
    }
    forall g | 0 <= g < parts ensures Slice1Dots(a, b, m)(g) == Sum(a.d0, Col(f, g)) {
      SumEq(a.d0, Sample(Slice1(a, g * m, m), Slice1(b, g * m, m)), Col(f, g));
    }
    SumSwap(a.d0, parts, f, Sample(a, b), Slice1Dots(a, b, m));
  }

  lemma SampleBySlices(a: Tensor4, b: Tensor4, parts: nat, m: nat, i: int, rows: int -> real)
    requires a.d1 == parts * m
    requires forall g :: 0 <= g < parts ==> rows(g) == Sample(Slice1(a, g * m, m), Slice1(b, g * m, m))(i)
    ensures Sample(a, b)(i) == Sum(parts, rows)
  {
    var channels := Inner3(a.d2, a.d3, Products(a, b, i));
    var f := (g: int, j: int) => channels(g * m + j);
    forall g | 0 <= g < parts ensures rows(g) == Sum(m, Row(f, g)) {
      var sa, sb := Slice1(a, g * m, m), Slice1(b, g * m, m);
      var sliced := Inner3(a.d2, a.d3, Products(sa, sb, i));
      forall j | 0 <= j < m ensures sliced(j) == Row(f, g)(j) {
        Sum2Eq(a.d2, a.d3, Row3(Products(sa, sb, i), j), Row3(Products(a, b, i), g * m + j));
      }
      SumEq(m, sliced, Row(f, g));
    }
    SumReshape(parts, m, f, rows, channels);
  }
}
