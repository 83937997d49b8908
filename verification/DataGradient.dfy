/** The data gradient: why folding `weight^T * grad_output` into the padded image and cropping
is the adjoint of the forward convolution. */
module DataGradient {
  import opened Sums
  import opened Tensors
  import opened Convolution

  lemma UnflatFlat3(c: int, r: int, s: int, m: int, n: int)
    requires 0 <= r < m && 0 <= s < n
    ensures m * n > 0
    ensures Flat3(c, r, s, m, n) / (m * n) == c
    ensures Flat3(c, r, s, m, n) % (m * n) == r * n + s
    ensures (r * n + s) / n == r && (r * n + s) % n == s
  {
    FlatAssoc(c, r, s, m, n);
    FlatBound(r, s, m, n);
    FlatIndex(c, r * n + s, m * n);
    FlatIndex(r, s, n);
  }

  /** The im2col patch matrix of sample `n`: row `j` is a (channel, tap) triple, column `l` a window. */
  function Patches(x: Tensor4, kh: nat, kw: nat, lw: nat, geo: Geometry, n: int): (int, int) -> real {
    (j, l) => if lw == 0 || kw == 0 || kh * kw == 0 then 0.0 else
      ReadNchw(x, n, j / (kh * kw),
               l / lw * geo.sh + j % (kh * kw) / kw * geo.dh - geo.ph,
               l % lw * geo.sw + j % (kh * kw) % kw * geo.dw - geo.pw)
  }

  lemma PatchAt(x: Tensor4, kh: nat, kw: nat, lw: nat, geo: Geometry, n: int, c: int, r: int, s: int, l: int)
    requires 0 <= r < kh && 0 <= s < kw && lw > 0
    ensures Patches(x, kh, kw, lw, geo, n)(Flat3(c, r, s, kh, kw), l)
         == ReadNchw(x, n, c, l / lw * geo.sh + r * geo.dh - geo.ph, l % lw * geo.sw + s * geo.dw - geo.pw)
  {
    UnflatFlat3(c, r, s, kh, kw);
  }

  lemma WeightMatrixAt(w: Tensor4, k: int, c: int, r: int, s: int)
    requires 0 <= r < w.d2 && 0 <= s < w.d3
    ensures ReshapeWeight(w).at(k, Flat3(c, r, s, w.d2, w.d3)) == w.at(k, c, r, s)
  {
    UnflatFlat3(c, r, s, w.d2, w.d3);
  }

  /** `<W P, G> == <P, W^T G>` for matrices given entrywise. */
  function RowTerms(w: (int, int) -> real, p: (int, int) -> real, k: int, l: int): int -> real {
    j => w(k, j) * p(j, l)
  }
  function ColTerms(w: (int, int) -> real, g: (int, int) -> real, j: int, l: int): int -> real {
    k => w(k, j) * g(k, l)
  }
  lemma MatVecAdjoint(rows: nat, cols: nat, w: (int, int) -> real, p: (int, int) -> real, g: (int, int) -> real,
                      l: int, lhs: int -> real, rhs: int -> real)
    requires forall k :: 0 <= k < rows ==> lhs(k) == Sum(cols, RowTerms(w, p, k, l)) * g(k, l)
    requires forall j :: 0 <= j < cols ==> rhs(j) == p(j, l) * Sum(rows, ColTerms(w, g, j, l))
    ensures Sum(rows, lhs) == Sum(cols, rhs)
  {
    var f := (k: int, j: int) => w(k, j) * p(j, l) * g(k, l);
    forall k | 0 <= k < rows ensures lhs(k) == Sum(cols, Row(f, k)) {
      SumScale(cols, g(k, l), RowTerms(w, p, k, l), Row(f, k));
    }
    forall j | 0 <= j < cols ensures rhs(j) == Sum(rows, Col(f, j)) {
      SumScale(rows, p(j, l), ColTerms(w, g, j, l), Col(f, j));
    }
    SumSwap(rows, cols, f, lhs, rhs);
  }
  lemma MatrixAdjoint(rows: nat, cols: nat, wins: nat,
                      w: (int, int) -> real, p: (int, int) -> real, g: (int, int) -> real,
                      wpg: (int, int) -> real, pwg: (int, int) -> real)
    requires forall k, l :: 0 <= k < rows && 0 <= l < wins ==> wpg(k, l) == Sum(cols, RowTerms(w, p, k, l)) * g(k, l)
    requires forall j, l :: 0 <= j < cols && 0 <= l < wins ==> pwg(j, l) == p(j, l) * Sum(rows, ColTerms(w, g, j, l))
    ensures Sum2(rows, wins, wpg) == Sum2(cols, wins, pwg)
  {
    hide Sum;
    var byWindow := (l: int) => Sum(rows, Col(wpg, l));
    SumSwap(rows, wins, wpg, Inner2(wins, wpg), byWindow);
    forall l | 0 <= l < wins ensures byWindow(l) == Sum(cols, Col(pwg, l)) {
      MatVecAdjoint(rows, cols, w, p, g, l, Col(wpg, l), Col(pwg, l));
    }
    SumSwap(cols, wins, pwg, Inner2(wins, pwg), byWindow);
  }

  /** Gathering entries of an image and adding values back at the same places are adjoint. */
  function Hits(row: (int, int) -> int, col: (int, int) -> int, val: (int, int, int) -> real, i: int, j: int)
    : (int, int, int) -> real
  {
    (r, s, l) => if row(r, l) == i && col(s, l) == j then val(r, s, l) else 0.0
  }
  /** One image line of the exchange below. */
  lemma LineAdjoint(w: nat, a: nat, b: nat, c: nat, img: int -> real, i: int,
                    row: (int, int) -> int, col: (int, int) -> int, val: (int, int, int) -> real,
                    placed: int -> real, line: (int, int, int) -> real)
    requires forall j :: 0 <= j < w ==> placed(j) == img(j) * Sum3(a, b, c, Hits(row, col, val, i, j))
    requires forall r, s, l :: line(r, s, l) ==
               if row(r, l) == i && 0 <= col(s, l) < w then img(col(s, l)) * val(r, s, l) else 0.0
    ensures Sum(w, placed) == Sum3(a, b, c, line)
  {
    hide Sum, Sum3;
    var pixel := (j: int, r: int, s: int, l: int) => img(j) * Hits(row, col, val, i, j)(r, s, l);
    forall j | 0 <= j < w ensures placed(j) == Sum3(a, b, c, Row4(pixel, j)) {
      Sum3Scale(a, b, c, img(j), Hits(row, col, val, i, j), Row4(pixel, j));
    }
    forall r, s, l ensures line(r, s, l) == Sum(w, Col4(pixel, r, s, l)) {
      SumDelta(w, if row(r, l) == i then col(s, l) else -1, Col4(pixel, r, s, l));
    }
    SumSwap3(w, a, b, c, pixel, placed, line);
  }

  lemma PlacementAdjoint(h: nat, w: nat, a: nat, b: nat, c: nat, img: (int, int) -> real,
                         row: (int, int) -> int, col: (int, int) -> int, val: (int, int, int) -> real,
                         placed: (int, int) -> real, read: (int, int, int) -> real)
    requires forall i, j :: 0 <= i < h && 0 <= j < w ==>
               placed(i, j) == img(i, j) * Sum3(a, b, c, Hits(row, col, val, i, j))
    requires forall r, s, l :: 0 <= r < a && 0 <= s < b && 0 <= l < c ==>
               read(r, s, l) == if 0 <= row(r, l) < h && 0 <= col(s, l) < w
                                then img(row(r, l), col(s, l)) * val(r, s, l) else 0.0
    ensures Sum2(h, w, placed) == Sum3(a, b, c, read)
  {
    hide Sum, Sum3;
    var line := (i: int, r: int, s: int, l: int) =>
      if row(r, l) == i && 0 <= col(s, l) < w then img(i, col(s, l)) * val(r, s, l) else 0.0;
    forall i | 0 <= i < h ensures Inner2(w, placed)(i) == Sum3(a, b, c, Row4(line, i)) {
      LineAdjoint(w, a, b, c, Row(img, i), i, row, col, val, Row(placed, i), Row4(line, i));
    }
    forall r, s, l | 0 <= r < a && 0 <= s < b && 0 <= l < c
      ensures read(r, s, l) == Sum(h, Col4(line, r, s, l))
    {
      SumDelta(h, row(r, l), Col4(line, r, s, l));
    }
    SumSwap3(h, a, b, c, line, Inner2(w, placed), read);
  }

  /** A forward output is a row of the weight matrix times a column of the patch matrix. */
  lemma CorrelateIsMatMul(x: Tensor4, w: Tensor4, geo: Geometry, lw: nat, n: int, k: int, l: int, wp: int -> real)
    requires lw > 0
    requires forall j :: wp(j) == ReshapeWeight(w).at(k, j) * Patches(x, w.d2, w.d3, lw, geo, n)(j, l)
    ensures CorrelateAt(x, w, geo, n, k, l / lw, l % lw) == Sum(w.d1 * (w.d2 * w.d3), wp)
  {
    var taps := Taps(x, w, geo, n, k, l / lw, l % lw);
    forall c, r, s | 0 <= c < w.d1 && 0 <= r < w.d2 && 0 <= s < w.d3
      ensures wp(Flat3(c, r, s, w.d2, w.d3)) == taps(c, r, s)
    {
      PatchAt(x, w.d2, w.d3, lw, geo, n, c, r, s, l);
      WeightMatrixAt(w, k, c, r, s);
    }
    Sum3Flat(w.d1, w.d2, w.d3, taps, wp);
  }

  /** `<y, g>` of one sample, with the window positions flattened. */
  function ColumnProducts(y: Tensor4, g: Tensor4, n: int): (int, int) -> real {
    (k, l) => if g.d3 == 0 then 0.0 else y.at(n, k, l / g.d3, l % g.d3) * g.at(n, k, l / g.d3, l % g.d3)
  }
  lemma SampleAsColumns(y: Tensor4, g: Tensor4, n: int)
    requires SameShape(y, g)
    ensures Sample(y, g)(n) == Sum2(y.d1, y.d2 * y.d3, ColumnProducts(y, g, n))
  {
    var f := ColumnProducts(y, g, n);
    var planes := Inner3(y.d2, y.d3, Products(y, g, n));
    forall k | 0 <= k < y.d1 ensures planes(k) == Inner2(y.d2 * y.d3, f)(k) {
      forall i, j | 0 <= i < y.d2 && 0 <= j < y.d3
        ensures Row(f, k)(i * y.d3 + j) == Row3(Products(y, g, n), k)(i, j)
      {
        FlatIndex(i, j, y.d3);
      }
      Sum2Flat(y.d2, y.d3, Row3(Products(y, g, n), k), Row(f, k));
    }
    SumEq(y.d1, planes, Inner2(y.d2 * y.d3, f));
  }

  /** The patch matrix against the folded columns: `sum_j sum_l patches(j, l) * M(j, l)`. */
  function PatchTerms(x: Tensor4, m: Tensor3, kh: nat, kw: nat, lw: nat, geo: Geometry, n: int): (int, int) -> real {
    (j, l) => Patches(x, kh, kw, lw, geo, n)(j, l) * m.at(n, j, l)
  }

  function SampleColumns(g: Tensor4, n: int): (int, int) -> real { (k, l) => ReshapeColumns(g).at(n, k, l) }

  lemma ForwardEntries(x: Tensor4, w: Tensor4, geo: Geometry, lw: nat, gn: (int, int) -> real, yg: (int, int) -> real,
                       n: int, cols: nat)
    requires lw > 0 && cols == w.d1 * (w.d2 * w.d3)
    requires forall k, l :: yg(k, l) == CorrelateAt(x, w, geo, n, k, l / lw, l % lw) * gn(k, l)
    ensures forall k, l :: yg(k, l)
              == Sum(cols, RowTerms(ReshapeWeight(w).at, Patches(x, w.d2, w.d3, lw, geo, n), k, l)) * gn(k, l)
  {
    hide Sum, Patches, CorrelateAt, ReshapeWeight;
    forall k, l ensures yg(k, l)
              == Sum(cols, RowTerms(ReshapeWeight(w).at, Patches(x, w.d2, w.d3, lw, geo, n), k, l)) * gn(k, l)
    {
      CorrelateIsMatMul(x, w, geo, lw, n, k, l,
                        RowTerms(ReshapeWeight(w).at, Patches(x, w.d2, w.d3, lw, geo, n), k, l));
    }
  }

  lemma BackwardEntries(w: Tensor4, g: Tensor4, p: (int, int) -> real, pm: (int, int) -> real, n: int)
    requires g.d1 == w.d0
    requires forall j, l :: pm(j, l) == p(j, l) * TransposedMatMul(ReshapeWeight(w), ReshapeColumns(g)).at(n, j, l)
    ensures forall j, l :: pm(j, l) == p(j, l) * Sum(w.d0, ColTerms(ReshapeWeight(w).at, SampleColumns(g, n), j, l))
  {
    forall j, l ensures pm(j, l) == p(j, l) * Sum(w.d0, ColTerms(ReshapeWeight(w).at, SampleColumns(g, n), j, l)) {
      SumEq(w.d0, ColTerms(ReshapeWeight(w).at, SampleColumns(g, n), j, l),
            WeightTerms(ReshapeWeight(w), ReshapeColumns(g), n, j, l));
    }
  }

  /** Forward side: `<W p, g>` over all windows of one sample equals `<p, W^T g>`. */
  lemma ForwardSide(x: Tensor4, w: Tensor4, g: Tensor4, geo: Geometry, n: int, cols: nat, wins: nat,
                    yg: (int, int) -> real, pm: (int, int) -> real)
    requires g.d3 > 0 && g.d1 == w.d0 && cols == w.d1 * (w.d2 * w.d3)
    requires forall k, l :: yg(k, l) == CorrelateAt(x, w, geo, n, k, l / g.d3, l % g.d3) * SampleColumns(g, n)(k, l)
    requires forall j, l :: pm(j, l) == Patches(x, w.d2, w.d3, g.d3, geo, n)(j, l)
                                        * TransposedMatMul(ReshapeWeight(w), ReshapeColumns(g)).at(n, j, l)
    ensures Sum2(w.d0, wins, yg) == Sum2(cols, wins, pm)
  {
    hide *;
    var wm, p, gn := ReshapeWeight(w), Patches(x, w.d2, w.d3, g.d3, geo, n), SampleColumns(g, n);
    ForwardEntries(x, w, geo, g.d3, gn, yg, n, cols);
    BackwardEntries(w, g, p, pm, n);
    MatrixAdjoint(w.d0, cols, wins, wm.at, p, gn, yg, pm);
  }

  function TapRow(geo: Geometry, lw: nat): (int, int) -> int {
    (r, l) => if lw == 0 then 0 else l / lw * geo.sh + r * geo.dh - geo.ph
  }
  function TapCol(geo: Geometry, lw: nat): (int, int) -> int {
    (s, l) => if lw == 0 then 0 else l % lw * geo.sw + s * geo.dw - geo.pw
  }
  function TapValue(m: Tensor3, kh: nat, kw: nat, n: int, c: int): (int, int, int) -> real {
    (r, s, l) => m.at(n, Flat3(c, r, s, kh, kw), l)
  }

  /** Fold into the padded image and crop: the crop shifts every hit by the border. */
  lemma FoldThenCrop(m: Tensor3, kh: nat, kw: nat, lw: nat, geo: Geometry, n: int, c: int, i: int, j: int)
    requires lw > 0
    ensures Sum3(kh, kw, m.d2, FoldHits(m, kh, kw, lw, geo, n, c, geo.ph + i, geo.pw + j))
         == Sum3(kh, kw, m.d2, Hits(TapRow(geo, lw), TapCol(geo, lw), TapValue(m, kh, kw, n, c), i, j))
  {
    hide Sum, Sum3;
    Sum3Eq(kh, kw, m.d2, FoldHits(m, kh, kw, lw, geo, n, c, geo.ph + i, geo.pw + j),
           Hits(TapRow(geo, lw), TapCol(geo, lw), TapValue(m, kh, kw, n, c), i, j));
  }

  /** One channel of `<x, fold-and-crop(m)>`. */
  lemma ChannelAdjoint(x: Tensor4, gi: Tensor4, m: Tensor3, kh: nat, kw: nat, lw: nat, geo: Geometry, n: int, c: int,
                       read: (int, int, int) -> real)
    requires lw > 0
    requires forall i, j :: gi.at(n, c, i, j)
               == Sum3(kh, kw, m.d2, FoldHits(m, kh, kw, lw, geo, n, c, geo.ph + i, geo.pw + j))
    requires forall r, s, l :: 0 <= r < kh && 0 <= s < kw ==>
               read(r, s, l) == PatchTerms(x, m, kh, kw, lw, geo, n)(Flat3(c, r, s, kh, kw), l)
    ensures Sum2(x.d2, x.d3, Row3(Products(x, gi, n), c)) == Sum3(kh, kw, m.d2, read)
  {
    hide Sum, Sum2, Sum3, Patches, Flat3;
    var row, col, val := TapRow(geo, lw), TapCol(geo, lw), TapValue(m, kh, kw, n, c);
    var img := (i: int, j: int) => x.at(n, c, i, j);
    var placed := Row3(Products(x, gi, n), c);
    forall i, j ensures placed(i, j) == img(i, j) * Sum3(kh, kw, m.d2, Hits(row, col, val, i, j)) {
      FoldThenCrop(m, kh, kw, lw, geo, n, c, i, j);
    }
    forall r, s, l | 0 <= r < kh && 0 <= s < kw && 0 <= l < m.d2
      ensures read(r, s, l) == if 0 <= row(r, l) < x.d2 && 0 <= col(s, l) < x.d3
                               then img(row(r, l), col(s, l)) * val(r, s, l) else 0.0
    {
      PatchAt(x, kh, kw, lw, geo, n, c, r, s, l);
    }
    PlacementAdjoint(x.d2, x.d3, kh, kw, m.d2, img, row, col, val, placed, read);
  }

  /** Backward side: `<x, fold-and-crop(m)>` of one sample is the patches against the columns. */
  lemma BackwardSide(x: Tensor4, gi: Tensor4, m: Tensor3, kh: nat, kw: nat, lw: nat, geo: Geometry, n: int)
    requires lw > 0
    requires forall c, i, j :: gi.at(n, c, i, j)
               == Sum3(kh, kw, m.d2, FoldHits(m, kh, kw, lw, geo, n, c, geo.ph + i, geo.pw + j))
    ensures Sample(x, gi)(n) == Sum2(x.d1 * (kh * kw), m.d2, PatchTerms(x, m, kh, kw, lw, geo, n))
  {
    hide Sum, Patches, FoldHits;
    var pt := PatchTerms(x, m, kh, kw, lw, geo, n);
    var byTap := (c: int, r: int, s: int) => Inner2(m.d2, pt)(Flat3(c, r, s, kh, kw));
    var channels := Inner3(x.d2, x.d3, Products(x, gi, n));
    forall c | 0 <= c < x.d1 ensures channels(c) == Inner3(kh, kw, byTap)(c) {
      var read := (r: int, s: int, l: int) => pt(Flat3(c, r, s, kh, kw), l);
      ChannelAdjoint(x, gi, m, kh, kw, lw, geo, n, c, read);
      forall r, s | 0 <= r < kh && 0 <= s < kw ensures Row3(byTap, c)(r, s) == Sum(m.d2, Line3(read, r, s)) {
        SumEq(m.d2, Row(pt, Flat3(c, r, s, kh, kw)), Line3(read, r, s));
        assert Inner2(m.d2, pt)(Flat3(c, r, s, kh, kw)) == Sum(m.d2, Row(pt, Flat3(c, r, s, kh, kw)));
        assert byTap(c, r, s) == Inner2(m.d2, pt)(Flat3(c, r, s, kh, kw));
      }
      Sum3Inner(kh, kw, m.d2, read, Row3(byTap, c));
    }
    SumEq(x.d1, channels, Inner3(kh, kw, byTap));
    Sum3Flat(x.d1, kh, kw, byTap, Inner2(m.d2, pt));
  }

  /** The columns of one group, ready to fold. */
  function GroupMatrix(g: Tensor4, w: Tensor4): Tensor3
    requires g.d1 == w.d0
  { TransposedMatMul(ReshapeWeight(w), ReshapeColumns(g)) }

  ghost predicate FoldedAndCropped(gi: Tensor4, m: Tensor3, kh: nat, kw: nat, lw: nat, geo: Geometry) {
    forall n, c, i, j :: gi.at(n, c, i, j)
      == Sum3(kh, kw, m.d2, FoldHits(m, kh, kw, lw, geo, n, c, geo.ph + i, geo.pw + j))
  }

  lemma SampleForward(x: Tensor4, w: Tensor4, g: Tensor4, geo: Geometry, n: int, y: Tensor4)
    requires g.d3 > 0 && g.d1 == w.d0
    requires forall k, oh, ow :: y.at(n, k, oh, ow) == CorrelateAt(x, w, geo, n, k, oh, ow)
    ensures Sum2(w.d0, g.d2 * g.d3, ColumnProducts(y, g, n))
         == Sum2(w.d1 * (w.d2 * w.d3), g.d2 * g.d3, PatchTerms(x, GroupMatrix(g, w), w.d2, w.d3, g.d3, geo, n))
  {
    hide Sum, Sum2, Sum3, Patches, CorrelateAt, TransposedMatMul, ReshapeWeight;
    ForwardSide(x, w, g, geo, n, w.d1 * (w.d2 * w.d3), g.d2 * g.d3, ColumnProducts(y, g, n),
                PatchTerms(x, GroupMatrix(g, w), w.d2, w.d3, g.d3, geo, n));
  }

  lemma SampleAdjoint(x: Tensor4, w: Tensor4, g: Tensor4, geo: Geometry, gi: Tensor4, y: Tensor4, n: int)
    requires g.d3 > 0 && g.d1 == w.d0 && x.d1 == w.d1 && SameShape(gi, x) && SameShape(y, g)
    requires forall n, k, oh, ow :: y.at(n, k, oh, ow) == CorrelateAt(x, w, geo, n, k, oh, ow)
    requires FoldedAndCropped(gi, GroupMatrix(g, w), w.d2, w.d3, g.d3, geo)
    ensures Sample(y, g)(n) == Sample(x, gi)(n)
  {
    hide Sum, Sum2, Sum3, Patches, FoldHits, CorrelateAt, ReshapeWeight, PatchTerms, ColumnProducts;
    SampleAsColumns(y, g, n);
    SampleForward(x, w, g, geo, n, y);
    BackwardSide(x, gi, GroupMatrix(g, w), w.d2, w.d3, g.d3, geo, n);
  }

  /** The data gradient of an ungrouped convolution is the adjoint of the forward pass. */
  lemma UngroupedAdjoint(x: Tensor4, w: Tensor4, g: Tensor4, geo: Geometry, gi: Tensor4)
    requires Operands(g, x, w, geo, 1) && SameShape(gi, x)
    requires FoldedAndCropped(gi, GroupMatrix(g, w), w.d2, w.d3, g.d3, geo)
    ensures Dot(Correlate(x, w, geo), g) == Dot(x, gi)
  {
    hide Sum, Sum2, Sum3, Sample, CorrelateAt, FoldedAndCropped, GroupMatrix;
    var y := Correlate(x, w, geo);
    forall n | 0 <= n < x.d0 ensures Sample(y, g)(n) == Sample(x, gi)(n) {
      SampleAdjoint(x, w, g, geo, gi, y, n);
    }
    SumEq(x.d0, Sample(y, g), Sample(x, gi));
  }
}
