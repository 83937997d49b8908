/** The forward convolution mapping and its three gradients.

The forward pass is the NHWC/RSCF `conv2d` primitive between permutes. The data gradient is a
matrix product folded into the padded image and cropped; the weight gradient is a convolution
with the roles of batch and channel, and of stride and dilation, exchanged. */
module Convolution {
  import opened Outcomes
  import opened Sums
  import opened Tensors

  /** Stride, symmetric padding and dilation of the two spatial axes. */
  datatype Geometry = Geometry(sh: nat, sw: nat, ph: nat, pw: nat, dh: nat, dw: nat)

  ghost predicate Fits(h: int, w: int, kh: int, kw: int, geo: Geometry) {
    && geo.sh >= 1 && geo.sw >= 1 && geo.dh >= 1 && geo.dw >= 1 && kh >= 1 && kw >= 1
    && h + 2 * geo.ph >= geo.dh * (kh - 1) + 1
    && w + 2 * geo.pw >= geo.dw * (kw - 1) + 1
  }

  /** Number of window positions along an axis. */
  function Windows(padded: int, kernel: int, stride: int, dilation: int): (r: nat)
    requires stride >= 1 && padded >= dilation * (kernel - 1) + 1
  {
    (padded - dilation * (kernel - 1) - 1) / stride + 1
  }

  // ---------------------------------------------------------------- primitives

  function ReadNhwc(x: Tensor4, n: int, i: int, j: int, c: int): real {
    if 0 <= i < x.d1 && 0 <= j < x.d2 then x.at(n, i, j, c) else 0.0
  }

  function GroupOf(k: int, perGroup: int): int { if perGroup == 0 then 0 else k / perGroup }

  function Conv2dTaps(x: Tensor4, f: Tensor4, geo: Geometry, base: int, n: int, oh: int, ow: int, k: int)
    : (int, int, int) -> real
  {
    (c, r, s) => ReadNhwc(x, n, oh * geo.sh + r * geo.dh - geo.ph, ow * geo.sw + s * geo.dw - geo.pw, base + c)
                 * f.at(r, s, c, k)
  }

  /** `conv2d` on an NHWC input and an RSCF filter. */
  function Conv2d(x: Tensor4, f: Tensor4, bias: Option<int -> real>, geo: Geometry, groups: nat): Tensor4
    requires groups >= 1 && Fits(x.d1, x.d2, f.d0, f.d1, geo)
  {
    Tensor4(x.d0, Windows(x.d1 + 2 * geo.ph, f.d0, geo.sh, geo.dh), Windows(x.d2 + 2 * geo.pw, f.d1, geo.sw, geo.dw),
            f.d3,
            (n, oh, ow, k) =>
              Sum3(f.d2, f.d0, f.d1, Conv2dTaps(x, f, geo, GroupOf(k, f.d3 / groups) * f.d2, n, oh, ow, k))
              + (if bias.Some? then bias.value(k) else 0.0))
  }

  /** `fold` (col2im) with zero padding: every column entry is added at the pixel it came from. */
  function FoldHits(cols: Tensor3, kh: nat, kw: nat, lw: nat, geo: Geometry, n: int, c: int, y: int, x: int)
    : (int, int, int) -> real
  {
    (r, s, l) => if lw > 0 && l / lw * geo.sh + r * geo.dh == y && l % lw * geo.sw + s * geo.dw == x
                 then cols.at(n, Flat3(c, r, s, kh, kw), l) else 0.0
  }
  function Fold(cols: Tensor3, height: nat, width: nat, kh: nat, kw: nat, geo: Geometry): Tensor4
    requires Fits(height, width, kh, kw, geo.(ph := 0, pw := 0))
    requires cols.d2 == Windows(height, kh, geo.sh, geo.dh) * Windows(width, kw, geo.sw, geo.dw)
  {
    var lw := Windows(width, kw, geo.sw, geo.dw);
    Tensor4(cols.d0, if kh * kw == 0 then 0 else cols.d1 / (kh * kw), height, width,
            (n, c, y, x) => Sum3(kh, kw, cols.d2, FoldHits(cols, kh, kw, lw, geo, n, c, y, x)))
  }

  function WeightTerms(w: Tensor2, g: Tensor3, n: int, j: int, l: int): int -> real {
    k => w.at(k, j) * g.at(n, k, l)
  }
  /** `matmul(transpose(w), g)`, batched over the samples of `g`. */
  function TransposedMatMul(w: Tensor2, g: Tensor3): Tensor3
    requires w.d0 == g.d1
  {
    Tensor3(g.d0, w.d1, g.d2, (n, j, l) => Sum(w.d0, WeightTerms(w, g, n, j, l)))
  }

  function ReshapeColumns(g: Tensor4): Tensor3 {
    Tensor3(g.d0, g.d1, g.d2 * g.d3, (n, k, l) => if g.d3 == 0 then 0.0 else g.at(n, k, l / g.d3, l % g.d3))
  }
  function ReshapeWeight(w: Tensor4): Tensor2 {
    var p := w.d2 * w.d3;
    Tensor2(w.d0, w.d1 * p,
            (k, j) => if w.d3 == 0 || p == 0 then 0.0 else w.at(k, j / p, j % p / w.d3, j % p % w.d3))
  }

  /** `[:, :, ph:-ph, pw:-pw]`, with the whole axis where the border is zero. */
  function Crop(t: Tensor4, ph: nat, pw: nat): Tensor4
    requires t.d2 >= 2 * ph && t.d3 >= 2 * pw
  {
    Tensor4(t.d0, t.d1, t.d2 - 2 * ph, t.d3 - 2 * pw, (n, c, i, j) => t.at(n, c, ph + i, pw + j))
  }

  // ------------------------------------------------------------------- mappings

  /** The forward mapping for rank-4 input, not transposed. */
  function Forward(x: Tensor4, w: Tensor4, bias: Option<int -> real>, geo: Geometry, groups: nat): Tensor4
    requires groups >= 1 && Fits(x.d2, x.d3, w.d2, w.d3, geo)
  {
    Permute(Conv2d(Permute(x, Axes(0, 2, 3, 1)), Permute(w, Axes(2, 3, 1, 0)), bias, geo, groups), Axes(0, 3, 1, 2))
  }

  /** What the backward mapping is given: operands of one legal forward call. */
  ghost predicate Operands(g: Tensor4, x: Tensor4, w: Tensor4, geo: Geometry, groups: nat) {
    && groups >= 1 && Fits(x.d2, x.d3, w.d2, w.d3, geo)
    && x.d1 == groups * w.d1
    && g.d0 == x.d0 && g.d1 == w.d0
    && g.d2 == Windows(x.d2 + 2 * geo.ph, w.d2, geo.sh, geo.dh)
    && g.d3 == Windows(x.d3 + 2 * geo.pw, w.d3, geo.sw, geo.dw)
  }

  /** One group's contribution to the data gradient, before the crop. */
  function GroupColumns(g: Tensor3, w: Tensor4, geo: Geometry, height: nat, width: nat): Tensor4
    requires g.d1 == w.d0 && Fits(height, width, w.d2, w.d3, geo.(ph := 0, pw := 0))
    requires g.d2 == Windows(height, w.d2, geo.sh, geo.dh) * Windows(width, w.d3, geo.sw, geo.dw)
  {
    Fold(TransposedMatMul(ReshapeWeight(w), g), height, width, w.d2, w.d3, geo)
  }

  // ------------------------------------------------- the ungrouped reference form

  function ReadNchw(x: Tensor4, n: int, c: int, i: int, j: int): real {
    if 0 <= i < x.d2 && 0 <= j < x.d3 then x.at(n, c, i, j) else 0.0
  }
  function Taps(x: Tensor4, w: Tensor4, geo: Geometry, n: int, k: int, oh: int, ow: int): (int, int, int) -> real {
    (c, r, s) => ReadNchw(x, n, c, oh * geo.sh + r * geo.dh - geo.ph, ow * geo.sw + s * geo.dw - geo.pw)
                 * w.at(k, c, r, s)
  }
  function CorrelateAt(x: Tensor4, w: Tensor4, geo: Geometry, n: int, k: int, oh: int, ow: int): real {
    Sum3(w.d1, w.d2, w.d3, Taps(x, w, geo, n, k, oh, ow))
  }
  /** Cross-correlation of a zero-padded image, written out directly. */
  function Correlate(x: Tensor4, w: Tensor4, geo: Geometry): Tensor4
    requires Fits(x.d2, x.d3, w.d2, w.d3, geo)
  {
    Tensor4(x.d0, w.d0, Windows(x.d2 + 2 * geo.ph, w.d2, geo.sh, geo.dh),
            Windows(x.d3 + 2 * geo.pw, w.d3, geo.sw, geo.dw),
            (n, k, oh, ow) => CorrelateAt(x, w, geo, n, k, oh, ow))
  }

  lemma ReadAgrees(x: Tensor4, base: nat, len: nat, n: int, c: int, i: int, j: int)
    ensures ReadNhwc(Permute(x, Axes(0, 2, 3, 1)), n, i, j, base + c) == ReadNchw(Slice1(x, base, len), n, c, i, j)
  {
    PermuteAt(x, Axes(0, 2, 3, 1), n, i, j, base + c);
  }

  lemma WeightAgrees(w: Tensor4, base: nat, len: nat, k: int, c: int, r: int, s: int)
    ensures Permute(w, Axes(2, 3, 1, 0)).at(r, s, c, base + k) == Slice0(w, base, len).at(k, c, r, s)
  {
    PermuteAt(w, Axes(2, 3, 1, 0), r, s, c, base + k);
  }

  lemma TapsAgree(x: Tensor4, w: Tensor4, geo: Geometry, cBase: nat, kBase: nat, kLen: nat,
                  n: int, k: int, oh: int, ow: int)
    ensures Sum3(w.d1, w.d2, w.d3, Taps(Slice1(x, cBase, w.d1), Slice0(w, kBase, kLen), geo, n, k, oh, ow))
         == Sum3(w.d1, w.d2, w.d3, Conv2dTaps(Permute(x, Axes(0, 2, 3, 1)), Permute(w, Axes(2, 3, 1, 0)), geo, cBase,
                                              n, oh, ow, kBase + k))
  {
    var xs, ws := Slice1(x, cBase, w.d1), Slice0(w, kBase, kLen);
    var px, pw := Permute(x, Axes(0, 2, 3, 1)), Permute(w, Axes(2, 3, 1, 0));
    var direct, primitive := Taps(xs, ws, geo, n, k, oh, ow), Conv2dTaps(px, pw, geo, cBase, n, oh, ow, kBase + k);
    forall c, r, s ensures direct(c, r, s) == primitive(c, r, s) {
      ReadAgrees(x, cBase, w.d1, n, c, oh * geo.sh + r * geo.dh - geo.ph, ow * geo.sw + s * geo.dw - geo.pw);
      WeightAgrees(w, kBase, kLen, k, c, r, s);
    }
    Sum3Eq(w.d1, w.d2, w.d3, direct, primitive);
  }

  /** The grouped primitive, group by group, is the direct form on the group's channels. */
  lemma ForwardGroup(x: Tensor4, w: Tensor4, geo: Geometry, groups: nat, q: nat, kg: nat,
                     n: int, k: int, oh: int, ow: int)
    requires groups >= 1 && Fits(x.d2, x.d3, w.d2, w.d3, geo) && w.d0 == groups * kg && q < groups
    requires 0 <= k < kg
    ensures Forward(x, w, None, geo, groups).at(n, q * kg + k, oh, ow)
         == Correlate(Slice1(x, q * w.d1, w.d1), Slice0(w, q * kg, kg), geo).at(n, k, oh, ow)
  {
    FlatIndex(q, k, kg);
    DivModUnique(w.d0, kg, 0, groups);
    assert GroupOf(q * kg + k, w.d0 / groups) == q;
    var px, pw := Permute(x, Axes(0, 2, 3, 1)), Permute(w, Axes(2, 3, 1, 0));
    PermuteAt(Conv2d(px, pw, None, geo, groups), Axes(0, 3, 1, 2), n, q * kg + k, oh, ow);
    TapsAgree(x, w, geo, q * w.d1, q * kg, kg, n, k, oh, ow);
  }
}
