/** The weight gradient: a convolution whose batch is the channel axis, whose channels are the
batch, and whose stride and dilation are exchanged. */
module WeightGradient {
  import opened Sums
  import opened Tensors
  import opened Convolution

  /** The geometry of the exchanged convolution. */
  function Exchanged(geo: Geometry): Geometry {
    geo.(sh := geo.dh, sw := geo.dw, dh := geo.sh, dw := geo.sw)
  }

  /** The exchanged convolution fits, and its output is never smaller than the kernel. */
  lemma ExchangedExtent(size: int, pad: nat, kernel: int, stride: nat, dilation: nat)
    requires stride >= 1 && dilation >= 1 && kernel >= 1
    requires size + 2 * pad >= dilation * (kernel - 1) + 1
    ensures var windows := Windows(size + 2 * pad, kernel, stride, dilation);
            && size + 2 * pad >= stride * (windows - 1) + 1
            && Windows(size + 2 * pad, windows, dilation, stride) >= kernel
  {
    var room := size + 2 * pad - dilation * (kernel - 1) - 1;
    var q := room / stride;
    assert stride * q <= room;
    var left := size + 2 * pad - stride * q - 1;
    assert left >= dilation * (kernel - 1);
    DivAtLeast(left, kernel - 1, dilation);
  }

  lemma DivAtLeast(a: int, q: int, d: nat)
    requires d >= 1 && a >= d * q
    ensures a / d >= q
  {
    MulMono(a / d + 1, q, d);
  }

  /** Every tap the exchanged convolution needs for the kernel extent lies in the padded image. */
  lemma TapsInside(size: int, pad: nat, kernel: int, stride: nat, dilation: nat, o: int, r: int)
    requires stride >= 1 && dilation >= 1 && kernel >= 1
    requires size + 2 * pad >= dilation * (kernel - 1) + 1
    requires 0 <= o < Windows(size + 2 * pad, kernel, stride, dilation) && 0 <= r < kernel
    ensures 0 <= o * stride + r * dilation < size + 2 * pad
  {
    ExchangedExtent(size, pad, kernel, stride, dilation);
    MulMono(o, Windows(size + 2 * pad, kernel, stride, dilation) - 1, stride);
    MulMono(r, kernel - 1, dilation);
    MulMono(0, o, stride);
    MulMono(0, r, dilation);
    InsideBound(size, pad, kernel, stride, dilation);
  }

  lemma InsideBound(size: int, pad: nat, kernel: int, stride: nat, dilation: nat)
    requires stride >= 1 && dilation >= 1 && size + 2 * pad >= dilation * (kernel - 1) + 1
    ensures (Windows(size + 2 * pad, kernel, stride, dilation) - 1) * stride + (kernel - 1) * dilation < size + 2 * pad
  {}

  function GradTaps(x: Tensor4, g: Tensor4, geo: Geometry, k: int, c: int, r: int, s: int): (int, int, int) -> real {
    (n, oh, ow) => ReadNchw(x, n, c, oh * geo.sh + r * geo.dh - geo.ph, ow * geo.sw + s * geo.dw - geo.pw)
                   * g.at(n, k, oh, ow)
  }

  ghost predicate GathersTaps(gw: Tensor4, x: Tensor4, g: Tensor4, geo: Geometry) {
    forall k, c, r, s :: 0 <= k < gw.d0 ==> gw.at(k, c, r, s) == Sum3(x.d0, g.d2, g.d3, GradTaps(x, g, geo, k, c, r, s))
  }

  /** Output channel `k`: the two triple sums exchange. */
  lemma ChannelWeightAdjoint(x: Tensor4, w: Tensor4, g: Tensor4, geo: Geometry, gw: Tensor4, k: int,
                             yg: (int, int, int) -> real)
    requires forall n, oh, ow :: yg(n, oh, ow) == CorrelateAt(x, w, geo, n, k, oh, ow) * g.at(n, k, oh, ow)
    requires GathersTaps(gw, x, g, geo) && 0 <= k < gw.d0
    ensures Sum3(x.d0, g.d2, g.d3, yg) == Sum3(w.d1, w.d2, w.d3, Products(w, gw, k))
  {
    hide Sum, Sum3, ReadNchw;
    var t := (n: int, oh: int, ow: int) => TapsTimes(x, w, g, geo, n, k, oh, ow);
    forall n, oh, ow ensures yg(n, oh, ow) == Sum3(w.d1, w.d2, w.d3, t(n, oh, ow)) {
      Sum3Scale(w.d1, w.d2, w.d3, g.at(n, k, oh, ow), Taps(x, w, geo, n, k, oh, ow), t(n, oh, ow));
    }
    var inner := Products(w, gw, k);
    forall c, r, s ensures inner(c, r, s) == Sum3(x.d0, g.d2, g.d3, Across(t, c, r, s)) {
      Sum3Scale(x.d0, g.d2, g.d3, w.at(k, c, r, s), GradTaps(x, g, geo, k, c, r, s), Across(t, c, r, s));
    }
    Sum3Swap3(x.d0, g.d2, g.d3, w.d1, w.d2, w.d3, t, yg, inner);
  }

  function TapsTimes(x: Tensor4, w: Tensor4, g: Tensor4, geo: Geometry, n: int, k: int, oh: int, ow: int)
    : (int, int, int) -> real
  {
    (c, r, s) => Taps(x, w, geo, n, k, oh, ow)(c, r, s) * g.at(n, k, oh, ow)
  }

  /** The inner product with the output-channel axis outermost. */
  function ChannelProducts(y: Tensor4, g: Tensor4, k: int): (int, int, int) -> real {
    (n, i, j) => y.at(n, k, i, j) * g.at(n, k, i, j)
  }
  lemma DotByChannels(y: Tensor4, g: Tensor4, byChannel: int -> real)
    requires forall k :: 0 <= k < y.d1 ==> byChannel(k) == Sum3(y.d0, y.d2, y.d3, ChannelProducts(y, g, k))
    ensures Dot(y, g) == Sum(y.d1, byChannel)
  {
    hide Sum;
    var planes := (n: int, k: int) => Sum2(y.d2, y.d3, Row3(Products(y, g, n), k));
    forall n | 0 <= n < y.d0 ensures Sample(y, g)(n) == Sum(y.d1, Row(planes, n)) {
      SumEq(y.d1, Inner3(y.d2, y.d3, Products(y, g, n)), Row(planes, n));
    }
    forall k | 0 <= k < y.d1 ensures byChannel(k) == Sum(y.d0, Col(planes, k)) {
      forall n | 0 <= n < y.d0 ensures Inner3(y.d2, y.d3, ChannelProducts(y, g, k))(n) == Col(planes, k)(n) {
        Sum2Eq(y.d2, y.d3, Row3(ChannelProducts(y, g, k), n), Row3(Products(y, g, n), k));
      }
      SumEq(y.d0, Inner3(y.d2, y.d3, ChannelProducts(y, g, k)), Col(planes, k));
    }
    SumSwap(y.d0, y.d1, planes, Sample(y, g), byChannel);
  }

  lemma WeightAdjointFor(x: Tensor4, w: Tensor4, g: Tensor4, geo: Geometry, gw: Tensor4, y: Tensor4)
    requires SameShape(y, g) && SameShape(gw, w) && g.d1 == w.d0 && g.d0 == x.d0
    requires forall n, k, oh, ow :: y.at(n, k, oh, ow) == CorrelateAt(x, w, geo, n, k, oh, ow)
    requires GathersTaps(gw, x, g, geo)
    ensures Dot(y, g) == Dot(w, gw)
  {
    hide Sum, Sum3, GathersTaps, CorrelateAt;
    forall k | 0 <= k < w.d0 ensures Sample(w, gw)(k) == Sum3(y.d0, y.d2, y.d3, ChannelProducts(y, g, k)) {
      ChannelWeightAdjoint(x, w, g, geo, gw, k, ChannelProducts(y, g, k));
    }
    DotByChannels(y, g, Sample(w, gw));
  }

  /** The weight gradient of an ungrouped convolution is the adjoint in the weight. */
  lemma UngroupedWeightAdjoint(x: Tensor4, w: Tensor4, g: Tensor4, geo: Geometry, gw: Tensor4)
    requires Operands(g, x, w, geo, 1) && SameShape(gw, w)
    requires GathersTaps(gw, x, g, geo)
    ensures Dot(Correlate(x, w, geo), g) == Dot(w, gw)
  {
    hide GathersTaps, CorrelateAt, Dot;
    WeightAdjointFor(x, w, g, geo, gw, Correlate(x, w, geo));
  }
}
