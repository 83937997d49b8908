/** The backward mappings themselves, with their loops over the groups, and the adjoint laws they
satisfy for every group count. */
module ConvolutionBackward {
  import opened Outcomes
  import opened Sums
  import opened Tensors
  import opened Convolution
  import opened DataGradient
  import opened WeightGradient

  /** `grad` pairs with every input of the shape as `g` pairs with that input's convolution. */
  ghost predicate InputAdjoint(grad: Tensor4, input: Tensor4, w: Tensor4, g: Tensor4, geo: Geometry, groups: nat) {
    && Operands(g, input, w, geo, groups) && SameShape(grad, input)
    && forall x: Tensor4 :: SameShape(x, input) ==> Dot(Forward(x, w, None, geo, groups), g) == Dot(x, grad)
  }
  ghost predicate WeightAdjoint(grad: Tensor4, input: Tensor4, w: Tensor4, g: Tensor4, geo: Geometry, groups: nat) {
    && Operands(g, input, w, geo, groups) && SameShape(grad, w)
    && forall v: Tensor4 :: SameShape(v, w) ==> Dot(Forward(input, v, None, geo, groups), g) == Dot(v, grad)
  }

  ghost predicate SameCells(a: Tensor4, b: Tensor4) {
    SameShape(a, b)
    && forall i, j, k, l :: 0 <= i < a.d0 && 0 <= j < a.d1 && 0 <= k < a.d2 && 0 <= l < a.d3 ==> a.at(i, j, k, l) == b.at(i, j, k, l)
  }

  /** The pairing determines every cell of a gradient. */
  lemma AdjointsAgree(a: Tensor4, b: Tensor4, input: Tensor4, w: Tensor4, g: Tensor4, geo: Geometry, groups: nat)
    ensures InputAdjoint(a, input, w, g, geo, groups) && InputAdjoint(b, input, w, g, geo, groups) ==> SameCells(a, b)
    ensures WeightAdjoint(a, input, w, g, geo, groups) && WeightAdjoint(b, input, w, g, geo, groups) ==> SameCells(a, b)
  {
    hide Dot, Forward, Operands;
    forall i, j, k, l | SameShape(a, b) && 0 <= i < a.d0 && 0 <= j < a.d1 && 0 <= k < a.d2 && 0 <= l < a.d3
      ensures Dot(Unit(a, i, j, k, l), a) == Dot(Unit(a, i, j, k, l), b) ==> a.at(i, j, k, l) == b.at(i, j, k, l)
    {
      DotUnit(a, i, j, k, l);
      DotUnit(b, i, j, k, l);
      DotCong(Unit(a, i, j, k, l), b, Unit(b, i, j, k, l), b);
    }
  }

  // ------------------------------------------------------------------ data gradient

  /** `ws` is the slice of `len` output channels of `w` from `lo`; likewise for gradient columns. */
  ghost predicate IsWeightGroup(ws: Tensor4, w: Tensor4, lo: nat, len: nat) {
    && ws.d0 == len && ws.d1 == w.d1 && ws.d2 == w.d2 && ws.d3 == w.d3
    && forall k, c, r, s :: ws.at(k, c, r, s) == w.at(lo + k, c, r, s)
  }
  ghost predicate IsColumnGroup(gc: Tensor3, g: Tensor4, lo: nat, len: nat) {
    && gc.d0 == g.d0 && gc.d1 == len && gc.d2 == g.d2 * g.d3
    && forall n, k, l :: gc.at(n, k, l) == ReshapeColumns(g).at(n, lo + k, l)
  }

  /** `part` holds group `q`'s folded columns on the padded image. */
  ghost predicate IsPart(part: Tensor4, g: Tensor4, w: Tensor4, geo: Geometry, height: nat, width: nat, q: nat, kg: nat) {
    && part.d0 == g.d0 && part.d1 == w.d1 && part.d2 == height && part.d3 == width
    && forall n, c, y, x :: part.at(n, c, y, x)
         == Sum3(w.d2, w.d3, g.d2 * g.d3,
                 FoldHits(GroupMatrix(Slice1(g, q * kg, kg), Slice0(w, q * kg, kg)), w.d2, w.d3, g.d3, geo, n, c, y, x))
  }

  lemma WeightEntries(ws: Tensor4, w: Tensor4, lo: nat, len: nat, k: int, j: int)
    requires IsWeightGroup(ws, w, lo, len)
    ensures ReshapeWeight(ws).at(k, j) == ReshapeWeight(Slice0(w, lo, len)).at(k, j)
  {}

  lemma MatrixEntry(gc: Tensor3, ws: Tensor4, g: Tensor4, w: Tensor4, lo: nat, len: nat, n: int, j: int, l: int)
    requires IsWeightGroup(ws, w, lo, len) && IsColumnGroup(gc, g, lo, len)
    ensures TransposedMatMul(ReshapeWeight(ws), gc).at(n, j, l)
         == GroupMatrix(Slice1(g, lo, len), Slice0(w, lo, len)).at(n, j, l)
  {
    hide Sum, ReshapeWeight;
    var mine := WeightTerms(ReshapeWeight(ws), gc, n, j, l);
    var theirs := WeightTerms(ReshapeWeight(Slice0(w, lo, len)), ReshapeColumns(Slice1(g, lo, len)), n, j, l);
    forall k ensures mine(k) == theirs(k) {
      WeightEntries(ws, w, lo, len, k, j);
    }
    assert ReshapeWeight(ws).d0 == len by { WeightRows(ws); }
    assert ReshapeWeight(Slice0(w, lo, len)).d0 == len by { WeightRows(Slice0(w, lo, len)); }
    SumEq(len, mine, theirs);
  }

  lemma WeightRows(w: Tensor4)
    ensures ReshapeWeight(w).d0 == w.d0
  {}

  lemma ChannelCount(w: Tensor4)
    requires w.d2 >= 1 && w.d3 >= 1
    ensures ReshapeWeight(w).d1 / (w.d2 * w.d3) == w.d1 && w.d2 * w.d3 >= 1
  {
    MulMono(1, w.d2, w.d3);
    DivModUnique(w.d1 * (w.d2 * w.d3), w.d1, 0, w.d2 * w.d3);
  }

  lemma SameHits(mine: Tensor3, theirs: Tensor3, kh: nat, kw: nat, wins: nat, lw: nat, geo: Geometry,
                 n: int, c: int, y: int, x: int)
    requires forall n, j, l :: mine.at(n, j, l) == theirs.at(n, j, l)
    ensures Sum3(kh, kw, wins, FoldHits(mine, kh, kw, lw, geo, n, c, y, x))
         == Sum3(kh, kw, wins, FoldHits(theirs, kh, kw, lw, geo, n, c, y, x))
  {
    hide Sum, Flat3;
    Sum3Eq(kh, kw, wins, FoldHits(mine, kh, kw, lw, geo, n, c, y, x), FoldHits(theirs, kh, kw, lw, geo, n, c, y, x));
  }

  /** What one pass of the loop appends. */
  lemma GroupColumnsArePart(gc: Tensor3, ws: Tensor4, g: Tensor4, w: Tensor4, geo: Geometry,
                            height: nat, width: nat, q: nat, kg: nat)
    requires Fits(height, width, w.d2, w.d3, geo.(ph := 0, pw := 0))
    requires g.d2 == Windows(height, w.d2, geo.sh, geo.dh) && g.d3 == Windows(width, w.d3, geo.sw, geo.dw)
    requires IsWeightGroup(ws, w, q * kg, kg) && IsColumnGroup(gc, g, q * kg, kg)
    ensures IsPart(GroupColumns(gc, ws, geo, height, width), g, w, geo, height, width, q, kg)
  {
    var part := GroupColumns(gc, ws, geo, height, width);
    var mine := TransposedMatMul(ReshapeWeight(ws), gc);
    var theirs := GroupMatrix(Slice1(g, q * kg, kg), Slice0(w, q * kg, kg));
    ChannelCount(ws);
    assert part.d0 == g.d0 && part.d1 == w.d1;
    hide Windows, ReshapeWeight;
    forall n, j, l ensures mine.at(n, j, l) == theirs.at(n, j, l) {
      MatrixEntry(gc, ws, g, w, q * kg, kg, n, j, l);
    }
    hide Sum, Sum3, TransposedMatMul, GroupMatrix, ReshapeColumns;
    forall n, c, y, x
      ensures part.at(n, c, y, x) == Sum3(w.d2, w.d3, g.d2 * g.d3, FoldHits(theirs, w.d2, w.d3, g.d3, geo, n, c, y, x))
    {
      SameHits(mine, theirs, w.d2, w.d3, g.d2 * g.d3, g.d3, geo, n, c, y, x);
    }
  }

  ghost predicate AreParts(parts: seq<Tensor4>, g: Tensor4, w: Tensor4, geo: Geometry, height: nat, width: nat, kg: nat) {
    forall q :: 0 <= q < |parts| ==> IsPart(parts[q], g, w, geo, height, width, q, kg)
  }

  /** `padded` holds the parts one after the other along the channel axis. */
  ghost predicate StacksChannels(padded: Tensor4, parts: seq<Tensor4>, cg: nat) {
    && padded.d1 == |parts| * cg
    && forall q :: 0 <= q < |parts| ==> HoldsPart(Slice1(padded, q * cg, cg), parts[q])
  }
  ghost predicate HoldsPart(slice: Tensor4, part: Tensor4) {
    forall n, c, y, x :: 0 <= c < slice.d1 ==> slice.at(n, c, y, x) == part.at(n, c, y, x)
  }

  lemma ConcatStacks(parts: seq<Tensor4>)
    requires AllLike(parts)
    ensures StacksChannels(Concat1(parts), parts, parts[0].d1)
  {
    var cg := parts[0].d1;
    forall q | 0 <= q < |parts| ensures HoldsPart(Slice1(Concat1(parts), q * cg, cg), parts[q]) {
      ConcatHolds(parts, q);
    }
  }

  lemma SinglePartStacks(part: Tensor4)
    ensures StacksChannels(part, [part], part.d1)
  {}

  lemma ConcatHolds(parts: seq<Tensor4>, q: nat)
    requires AllLike(parts) && q < |parts|
    ensures HoldsPart(Slice1(Concat1(parts), q * parts[0].d1, parts[0].d1), parts[q])
  {
    var cg := parts[0].d1;
    forall n, c, y, x | 0 <= c < cg
      ensures Slice1(Concat1(parts), q * cg, cg).at(n, c, y, x) == parts[q].at(n, c, y, x)
    {
      FlatIndex(q, c, cg);
    }
  }

  /** One group of the assembled gradient satisfies the ungrouped adjoint law. */
  lemma GroupAdjoint(x: Tensor4, w: Tensor4, g: Tensor4, geo: Geometry, groups: nat, gi: Tensor4, q: nat, kg: nat,
                     part: Tensor4)
    requires Operands(g, x, w, geo, groups) && w.d0 == groups * kg && q < groups
    requires SameShape(gi, x)
    requires IsPart(part, g, w, geo, x.d2 + 2 * geo.ph, x.d3 + 2 * geo.pw, q, kg)
    requires forall n, c, i, j :: 0 <= c < w.d1 ==>
               Slice1(gi, q * w.d1, w.d1).at(n, c, i, j) == part.at(n, c, geo.ph + i, geo.pw + j)
    ensures Dot(Correlate(Slice1(x, q * w.d1, w.d1), Slice0(w, q * kg, kg), geo), Slice1(g, q * kg, kg))
         == Dot(Slice1(x, q * w.d1, w.d1), Slice1(gi, q * w.d1, w.d1))
  {
    hide Sum, Sum3, FoldHits, Dot, Correlate, Windows, GroupMatrix;
    var xs, ws, gs := Slice1(x, q * w.d1, w.d1), Slice0(w, q * kg, kg), Slice1(g, q * kg, kg);
    var whole := Tensor4(x.d0, w.d1, x.d2, x.d3, (n, c, i, j) => part.at(n, c, geo.ph + i, geo.pw + j));
    MatrixColumns(gs, ws);
    UngroupedAdjoint(xs, ws, gs, geo, whole);
    DotCong(xs, whole, xs, Slice1(gi, q * w.d1, w.d1));
  }

  lemma MatrixColumns(g: Tensor4, w: Tensor4)
    requires g.d1 == w.d0
    ensures GroupMatrix(g, w).d2 == g.d2 * g.d3
  {}

  /** The grouped forward output restricted to one group. */
  lemma ForwardSlice(x: Tensor4, w: Tensor4, g: Tensor4, geo: Geometry, groups: nat, q: nat, kg: nat)
    requires Operands(g, x, w, geo, groups) && w.d0 == groups * kg && q < groups
    ensures Dot(Slice1(Forward(x, w, None, geo, groups), q * kg, kg), Slice1(g, q * kg, kg))
         == Dot(Correlate(Slice1(x, q * w.d1, w.d1), Slice0(w, q * kg, kg), geo), Slice1(g, q * kg, kg))
  {
    var y := Forward(x, w, None, geo, groups);
    var ys, cs := Slice1(y, q * kg, kg), Correlate(Slice1(x, q * w.d1, w.d1), Slice0(w, q * kg, kg), geo);
    assert SameShape(ys, cs);
    hide Windows, Sum, Conv2d, Forward, CorrelateAt;
    forall n, k, oh, ow | 0 <= k < kg ensures ys.at(n, k, oh, ow) == cs.at(n, k, oh, ow) {
      ForwardGroup(x, w, geo, groups, q, kg, n, k, oh, ow);
    }
    DotCong(ys, Slice1(g, q * kg, kg), cs, Slice1(g, q * kg, kg));
  }

  lemma CropHolds(padded: Tensor4, part: Tensor4, geo: Geometry, q: nat, cg: nat)
    requires padded.d2 >= 2 * geo.ph && padded.d3 >= 2 * geo.pw
    requires HoldsPart(Slice1(padded, q * cg, cg), part)
    ensures forall n, c, i, j :: 0 <= c < cg ==>
              Slice1(Crop(padded, geo.ph, geo.pw), q * cg, cg).at(n, c, i, j) == part.at(n, c, geo.ph + i, geo.pw + j)
  {}

  /** The assembled data gradient is the adjoint of the grouped forward pass. */
  lemma StackedPartsAdjoint(x: Tensor4, w: Tensor4, g: Tensor4, geo: Geometry, groups: nat, kg: nat,
                            parts: seq<Tensor4>, padded: Tensor4)
    requires Operands(g, x, w, geo, groups) && w.d0 == groups * kg && |parts| == groups
    requires AreParts(parts, g, w, geo, x.d2 + 2 * geo.ph, x.d3 + 2 * geo.pw, kg)
    requires StacksChannels(padded, parts, w.d1)
    requires padded.d0 == g.d0 && padded.d2 == x.d2 + 2 * geo.ph && padded.d3 == x.d3 + 2 * geo.pw
    ensures SameShape(Crop(padded, geo.ph, geo.pw), x)
    ensures Dot(Forward(x, w, None, geo, groups), g) == Dot(x, Crop(padded, geo.ph, geo.pw))
  {
    var gi, y := Crop(padded, geo.ph, geo.pw), Forward(x, w, None, geo, groups);
    assert y.d1 == w.d0;
    hide Sum, Windows, IsPart, HoldsPart, Dot, Conv2d, Forward, Correlate;
    DotBySlices1(y, g, groups, kg);
    DotBySlices1(x, gi, groups, w.d1);
    forall q | 0 <= q < groups ensures Slice1Dots(y, g, kg)(q) == Slice1Dots(x, gi, w.d1)(q) {
      CropHolds(padded, parts[q], geo, q, w.d1);
      GroupAdjoint(x, w, g, geo, groups, gi, q, kg, parts[q]);
      ForwardSlice(x, w, g, geo, groups, q, kg);
    }
    SumEq(groups, Slice1Dots(y, g, kg), Slice1Dots(x, gi, w.d1));
  }

  /** `_conv2d_backward_input`: fold per group, concatenate, crop. Only the shape of `input` is used. */
  method Conv2dBackwardInput(g: Tensor4, input: Tensor4, w: Tensor4, geo: Geometry, groups: nat)
    returns (r: Result<Tensor4>)
    requires Operands(g, input, w, geo, groups)
    ensures r.Failure? <==> groups != 1 && w.d0 % groups != 0
    ensures r.Failure? ==> r.error == ValueError
    ensures r.Success? ==> InputAdjoint(r.value, input, w, g, geo, groups)
  {
    hide Windows, Sum, Sum3, Sample, IsPart, IsWeightGroup, IsColumnGroup, HoldsPart, Conv2d, ReshapeColumns, ReshapeWeight;
    ReshapedShape(g);
    var gradCols := ReshapeColumns(g);
    var height, width := input.d2 + 2 * geo.ph, input.d3 + 2 * geo.pw;
    var weightGroups: seq<Tensor4>, gradGroups: seq<Tensor3>;
    var kg := w.d0 / groups;
    if groups == 1 {
      weightGroups, gradGroups := [w], [gradCols];
    } else {
      if w.d0 % groups != 0 {
        return Failure(ValueError);
      }
      weightGroups := seq(groups, q requires 0 <= q < groups => Slice0(w, q * kg, kg));
      gradGroups := seq(groups, q requires 0 <= q < groups => SliceColumns(gradCols, q * kg, kg));
    }
    var parts: seq<Tensor4> := [];
    ExactGroups(w.d0, groups);
    GroupsAreSlices(g, w, groups, kg, weightGroups, gradGroups);
    for q := 0 to groups
      invariant |parts| == q
      invariant AreParts(parts, g, w, geo, height, width, kg)
    {
      GroupColumnsArePart(gradGroups[q], weightGroups[q], g, w, geo, height, width, q, kg);
      parts := parts + [GroupColumns(gradGroups[q], weightGroups[q], geo, height, width)];
    }
    PartsAlike(parts, g, w, geo, height, width, kg);
    ConcatStacks(parts);
    var padded := if |parts| == 1 then parts[0] else Concat1(parts);
    if |parts| == 1 { SinglePartStacks(parts[0]); }
    r := Success(Crop(padded, geo.ph, geo.pw));
    forall x: Tensor4 | SameShape(x, input)
      ensures SameShape(r.value, input) && Dot(Forward(x, w, None, geo, groups), g) == Dot(x, r.value)
    {
      StackedPartsAdjoint(x, w, g, geo, groups, kg, parts, padded);
    }
  }

  lemma PartsAlike(parts: seq<Tensor4>, g: Tensor4, w: Tensor4, geo: Geometry, height: nat, width: nat, kg: nat)
    requires |parts| > 0 && AreParts(parts, g, w, geo, height, width, kg)
    ensures AllLike(parts) && parts[0].d1 == w.d1
    ensures parts[0].d0 == g.d0 && parts[0].d2 == height && parts[0].d3 == width
  {}

  lemma GroupsAreSlices(g: Tensor4, w: Tensor4, groups: nat, kg: nat, ws: seq<Tensor4>, gs: seq<Tensor3>)
    requires g.d1 == w.d0 == groups * kg && |ws| == |gs| == groups
    requires groups == 1 ==> ws == [w] && gs == [ReshapeColumns(g)]
    requires groups != 1 ==> forall q :: 0 <= q < groups ==> ws[q] == Slice0(w, q * kg, kg)
    requires groups != 1 ==> forall q :: 0 <= q < groups ==> gs[q] == SliceColumns(ReshapeColumns(g), q * kg, kg)
    ensures forall q :: 0 <= q < groups ==> IsWeightGroup(ws[q], w, q * kg, kg) && IsColumnGroup(gs[q], g, q * kg, kg)
  {
    hide ReshapeColumns;
    ReshapedShape(g);
    forall q | 0 <= q < groups ensures IsWeightGroup(ws[q], w, q * kg, kg) && IsColumnGroup(gs[q], g, q * kg, kg) {
      if groups == 1 {
        assert q * kg == 0 && kg == w.d0;
      }
    }
  }

  lemma ReshapedShape(g: Tensor4)
    ensures ReshapeColumns(g).d0 == g.d0 && ReshapeColumns(g).d1 == g.d1 && ReshapeColumns(g).d2 == g.d2 * g.d3
  {}

  lemma ExactGroups(total: nat, groups: nat)
    requires groups >= 1 && total % groups == 0
    ensures total == groups * (total / groups)
  {}

  // ---------------------------------------------------------------- weight gradient

  ghost predicate IsInputGroup(ig: Tensor4, x: Tensor4, lo: nat, len: nat) {
    && ig.d0 == len && ig.d1 == x.d2 && ig.d2 == x.d3 && ig.d3 == x.d0
    && forall c, i, j, n :: ig.at(c, i, j, n) == x.at(n, lo + c, i, j)
  }
  ghost predicate IsGradGroup(gg: Tensor4, g: Tensor4, lo: nat, len: nat) {
    && gg.d0 == g.d2 && gg.d1 == g.d3 && gg.d2 == g.d0 && gg.d3 == len
    && forall oh, ow, n, k :: gg.at(oh, ow, n, k) == g.at(n, lo + k, oh, ow)
  }

  /** `[:, :kh, :kw, :]` of a tensor that reaches that far. */
  function CropKernel(t: Tensor4, kh: nat, kw: nat): Tensor4
    requires t.d1 >= kh && t.d2 >= kw
  {
    Tensor4(t.d0, kh, kw, t.d3, (i, j, k, l) => t.at(i, j, k, l))
  }

  lemma ExchangedFits(g: Tensor4, x: Tensor4, w: Tensor4, geo: Geometry, groups: nat)
    requires Operands(g, x, w, geo, groups)
    ensures Fits(x.d2, x.d3, g.d2, g.d3, Exchanged(geo))
    ensures Windows(x.d2 + 2 * geo.ph, g.d2, geo.dh, geo.sh) >= w.d2
    ensures Windows(x.d3 + 2 * geo.pw, g.d3, geo.dw, geo.sw) >= w.d3
  {
    ExchangedExtent(x.d2, geo.ph, w.d2, geo.sh, geo.dh);
    ExchangedExtent(x.d3, geo.pw, w.d3, geo.sw, geo.dw);
  }

  /** One group's weight gradient as the mapping computes it. */
  function GroupWeightGrad(ig: Tensor4, gg: Tensor4, geo: Geometry, kh: nat, kw: nat): Tensor4
    requires Fits(ig.d1, ig.d2, gg.d0, gg.d1, Exchanged(geo))
    requires Windows(ig.d1 + 2 * geo.ph, gg.d0, geo.dh, geo.sh) >= kh
    requires Windows(ig.d2 + 2 * geo.pw, gg.d1, geo.dw, geo.sw) >= kw
  {
    Permute(CropKernel(Conv2d(ig, gg, None, Exchanged(geo), 1), kh, kw), Axes(3, 0, 1, 2))
  }

  lemma ExchangedTaps(ig: Tensor4, gg: Tensor4, x: Tensor4, g: Tensor4, geo: Geometry, cLo: nat, cLen: nat,
                      kLo: nat, kLen: nat, k: int, c: int, r: int, s: int)
    requires IsInputGroup(ig, x, cLo, cLen) && IsGradGroup(gg, g, kLo, kLen)
    ensures Sum3(x.d0, g.d2, g.d3, Conv2dTaps(ig, gg, Exchanged(geo), 0, c, r, s, k))
         == Sum3(x.d0, g.d2, g.d3, GradTaps(Slice1(x, cLo, cLen), Slice1(g, kLo, kLen), geo, k, c, r, s))
  {
    hide Sum;
    var mine := Conv2dTaps(ig, gg, Exchanged(geo), 0, c, r, s, k);
    var theirs := GradTaps(Slice1(x, cLo, cLen), Slice1(g, kLo, kLen), geo, k, c, r, s);
    forall n, oh, ow ensures mine(n, oh, ow) == theirs(n, oh, ow) {
      var i, j := r * geo.dh + oh * geo.sh - geo.ph, s * geo.dw + ow * geo.sw - geo.pw;
      assert ReadNhwc(ig, c, i, j, n) == ReadNchw(Slice1(x, cLo, cLen), n, c, i, j);
    }
    Sum3Eq(x.d0, g.d2, g.d3, mine, theirs);
  }

  ghost predicate IsWeightPart(part: Tensor4, x: Tensor4, g: Tensor4, w: Tensor4, geo: Geometry, q: nat, kg: nat) {
    && part.d0 == kg && part.d1 == w.d1 && part.d2 == w.d2 && part.d3 == w.d3
    && GathersTaps(part, Slice1(x, q * w.d1, w.d1), Slice1(g, q * kg, kg), geo)
  }

  lemma GroupWeightGradIsPart(ig: Tensor4, gg: Tensor4, x: Tensor4, g: Tensor4, w: Tensor4, geo: Geometry,
                              groups: nat, q: nat, kg: nat)
    requires Operands(g, x, w, geo, groups)
    requires IsInputGroup(ig, x, q * w.d1, w.d1) && IsGradGroup(gg, g, q * kg, kg)
    ensures Fits(ig.d1, ig.d2, gg.d0, gg.d1, Exchanged(geo))
    ensures Windows(ig.d1 + 2 * geo.ph, gg.d0, geo.dh, geo.sh) >= w.d2
    ensures Windows(ig.d2 + 2 * geo.pw, gg.d1, geo.dw, geo.sw) >= w.d3
    ensures IsWeightPart(GroupWeightGrad(ig, gg, geo, w.d2, w.d3), x, g, w, geo, q, kg)
  {
    ExchangedFits(g, x, w, geo, groups);
    var part := GroupWeightGrad(ig, gg, geo, w.d2, w.d3);
    var correlated := Conv2d(ig, gg, None, Exchanged(geo), 1);
    hide Windows, Sum, Sum3, Fits, Conv2dTaps, GradTaps;
    forall k, c, r, s | 0 <= k < kg
      ensures part.at(k, c, r, s)
           == Sum3(x.d0, g.d2, g.d3, GradTaps(Slice1(x, q * w.d1, w.d1), Slice1(g, q * kg, kg), geo, k, c, r, s))
    {
      PermuteAt(CropKernel(correlated, w.d2, w.d3), Axes(3, 0, 1, 2), k, c, r, s);
      assert GroupOf(k, gg.d3 / 1) == 0;
      ExchangedTaps(ig, gg, x, g, geo, q * w.d1, w.d1, q * kg, kg, k, c, r, s);
    }
  }

  ghost predicate AreWeightParts(parts: seq<Tensor4>, x: Tensor4, g: Tensor4, w: Tensor4, geo: Geometry, kg: nat) {
    forall q :: 0 <= q < |parts| ==> IsWeightPart(parts[q], x, g, w, geo, q, kg)
  }

  /** `whole` holds the parts one after the other along the output-channel axis. */
  ghost predicate StacksOutputs(whole: Tensor4, parts: seq<Tensor4>, kg: nat) {
    && whole.d0 == |parts| * kg
    && forall q :: 0 <= q < |parts| ==> HoldsOutputs(Slice0(whole, q * kg, kg), parts[q])
  }
  ghost predicate HoldsOutputs(slice: Tensor4, part: Tensor4) {
    forall k, c, r, s :: 0 <= k < slice.d0 ==> slice.at(k, c, r, s) == part.at(k, c, r, s)
  }

  lemma Concat0Stacks(parts: seq<Tensor4>)
    requires AllLike(parts)
    ensures StacksOutputs(Concat0(parts), parts, parts[0].d0)
  {
    var kg := parts[0].d0;
    forall q | 0 <= q < |parts| ensures HoldsOutputs(Slice0(Concat0(parts), q * kg, kg), parts[q]) {
      forall k, c, r, s | 0 <= k < kg ensures Slice0(Concat0(parts), q * kg, kg).at(k, c, r, s) == parts[q].at(k, c, r, s)
      {
        FlatIndex(q, k, kg);
      }
    }
  }

  lemma SingleOutputStacks(part: Tensor4)
    ensures StacksOutputs(part, [part], part.d0)
  {}

  lemma WeightPartsAlike(parts: seq<Tensor4>, x: Tensor4, g: Tensor4, w: Tensor4, geo: Geometry, kg: nat)
    requires |parts| > 0 && AreWeightParts(parts, x, g, w, geo, kg)
    ensures AllLike(parts)
    ensures parts[0].d0 == kg && parts[0].d1 == w.d1 && parts[0].d2 == w.d2 && parts[0].d3 == w.d3
  {}

  lemma PartGathers(part: Tensor4, gw: Tensor4, x: Tensor4, g: Tensor4, w: Tensor4, shape: Tensor4, geo: Geometry, q: nat, kg: nat)
    requires IsWeightPart(part, x, g, shape, geo, q, kg) && HoldsOutputs(Slice0(gw, q * kg, kg), part)
    requires shape.d1 == w.d1
    ensures GathersTaps(Slice0(gw, q * kg, kg), Slice1(x, q * w.d1, w.d1), Slice1(g, q * kg, kg), geo)
  {}

  lemma OperandsOfGroup(g: Tensor4, x: Tensor4, w: Tensor4, geo: Geometry, groups: nat, q: nat, kg: nat)
    requires Operands(g, x, w, geo, groups) && w.d0 == groups * kg && q < groups
    ensures Operands(Slice1(g, q * kg, kg), Slice1(x, q * w.d1, w.d1), Slice0(w, q * kg, kg), geo, 1)
  {}

  lemma GroupWeightAdjoint(x: Tensor4, w: Tensor4, shape: Tensor4, g: Tensor4, geo: Geometry, groups: nat, kg: nat,
                           part: Tensor4, gw: Tensor4, q: nat)
    requires Operands(g, x, w, geo, groups) && w.d0 == groups * kg && q < groups
    requires SameShape(w, shape) && SameShape(gw, w)
    requires IsWeightPart(part, x, g, shape, geo, q, kg) && HoldsOutputs(Slice0(gw, q * kg, kg), part)
    ensures Dot(Slice1(Forward(x, w, None, geo, groups), q * kg, kg), Slice1(g, q * kg, kg))
         == Dot(Slice0(w, q * kg, kg), Slice0(gw, q * kg, kg))
  {
    hide Sum, Windows, Dot, Conv2d, Forward, Correlate, GathersTaps, Operands, HoldsOutputs, IsWeightPart, Fits;
    ForwardSlice(x, w, g, geo, groups, q, kg);
    PartGathers(part, gw, x, g, w, shape, geo, q, kg);
    OperandsOfGroup(g, x, w, geo, groups, q, kg);
    UngroupedWeightAdjoint(Slice1(x, q * w.d1, w.d1), Slice0(w, q * kg, kg), Slice1(g, q * kg, kg), geo,
                           Slice0(gw, q * kg, kg));
  }

  /** The assembled weight gradient is the adjoint in the weight of the grouped forward pass. */
  lemma StackedWeightsAdjoint(x: Tensor4, w: Tensor4, shape: Tensor4, g: Tensor4, geo: Geometry, groups: nat, kg: nat,
                              parts: seq<Tensor4>, gw: Tensor4)
    requires Operands(g, x, w, geo, groups) && w.d0 == groups * kg && |parts| == groups
    requires SameShape(w, shape) && SameShape(gw, w)
    requires AreWeightParts(parts, x, g, shape, geo, kg) && StacksOutputs(gw, parts, kg)
    ensures Dot(Forward(x, w, None, geo, groups), g) == Dot(w, gw)
  {
    var y := Forward(x, w, None, geo, groups);
    assert y.d1 == w.d0;
    hide Sum, Windows, Dot, Conv2d, Forward, Correlate, GathersTaps, Operands, HoldsOutputs, IsWeightPart;
    assert g.d1 == w.d0 by { OperandShapes(g, x, w, geo, groups); }
    DotBySlices1(y, g, groups, kg);
    DotBySlices0(w, gw, groups, kg);
    forall q | 0 <= q < groups ensures Slice1Dots(y, g, kg)(q) == Slice0Dots(w, gw, kg)(q) {
      GroupWeightAdjoint(x, w, shape, g, geo, groups, kg, parts[q], gw, q);
    }
    SumEq(groups, Slice1Dots(y, g, kg), Slice0Dots(w, gw, kg));
  }

  lemma OperandShapes(g: Tensor4, x: Tensor4, w: Tensor4, geo: Geometry, groups: nat)
    requires Operands(g, x, w, geo, groups)
    ensures g.d1 == w.d0 && x.d1 == groups * w.d1 && groups >= 1
  {}

  /** `_conv2d_backward_weight`: one exchanged convolution per group, cropped to the kernel extent and
  concatenated. Only the shape of `w` is used. */
  method Conv2dBackwardWeight(g: Tensor4, input: Tensor4, w: Tensor4, geo: Geometry, groups: nat)
    returns (r: Result<Tensor4>)
    requires Operands(g, input, w, geo, groups)
    ensures r.Failure? <==> groups != 1 && (input.d1 % groups != 0 || w.d0 % groups != 0)
    ensures r.Failure? ==> r.error == ValueError
    ensures r.Success? ==> WeightAdjoint(r.value, input, w, g, geo, groups)
  {
    OperandShapes(g, input, w, geo, groups);
    hide Operands, Windows, Fits, Dot, Forward, Sum, Sum3, Sample, IsWeightPart, IsInputGroup, IsGradGroup, Conv2d, HoldsOutputs,
         Permute, Slice0, Slice3;
    var inputNhwc, gradRscf := Permute(input, Axes(1, 2, 3, 0)), Permute(g, Axes(2, 3, 0, 1));
    var cg, kg := input.d1 / groups, w.d0 / groups;
    var inputs: seq<Tensor4>, grads: seq<Tensor4>;
    if groups == 1 {
      inputs, grads := [inputNhwc], [gradRscf];
    } else {
      if input.d1 % groups != 0 || g.d1 % groups != 0 {
        return Failure(ValueError);
      }
      inputs := seq(groups, q requires 0 <= q < groups => Slice0(inputNhwc, q * cg, cg));
      grads := seq(groups, q requires 0 <= q < groups => Slice3(gradRscf, q * kg, kg));
    }
    ExactGroups(w.d0, groups);
    DivModUnique(input.d1, w.d1, 0, groups);
    WeightGroups(input, g, groups, cg, kg, inputs, grads);
    var parts: seq<Tensor4> := [];
    for q := 0 to groups
      invariant |parts| == q
      invariant AreWeightParts(parts, input, g, w, geo, kg)
    {
      GroupWeightGradIsPart(inputs[q], grads[q], input, g, w, geo, groups, q, kg);
      parts := parts + [GroupWeightGrad(inputs[q], grads[q], geo, w.d2, w.d3)];
    }
    WeightPartsAlike(parts, input, g, w, geo, kg);
    Concat0Stacks(parts);
    if |parts| == 1 { SingleOutputStacks(parts[0]); }
    r := Success(if |parts| == 1 then parts[0] else Concat0(parts));
    forall v: Tensor4 | SameShape(v, w) ensures Dot(Forward(input, v, None, geo, groups), g) == Dot(v, r.value) {
      StackedWeightsAdjoint(input, v, w, g, geo, groups, kg, parts, r.value);
    }
  }

  lemma WeightGroups(x: Tensor4, g: Tensor4, groups: nat, cg: nat, kg: nat, inputs: seq<Tensor4>, grads: seq<Tensor4>)
    requires x.d1 == groups * cg && g.d1 == groups * kg && |inputs| == |grads| == groups
    requires groups == 1 ==> inputs == [Permute(x, Axes(1, 2, 3, 0))] && grads == [Permute(g, Axes(2, 3, 0, 1))]
    requires groups != 1 ==> forall q :: 0 <= q < groups ==> inputs[q] == Slice0(Permute(x, Axes(1, 2, 3, 0)), q * cg, cg)
    requires groups != 1 ==> forall q :: 0 <= q < groups ==> grads[q] == Slice3(Permute(g, Axes(2, 3, 0, 1)), q * kg, kg)
    ensures forall q :: 0 <= q < groups ==> IsInputGroup(inputs[q], x, q * cg, cg) && IsGradGroup(grads[q], g, q * kg, kg)
  {
    forall q | 0 <= q < groups ensures IsInputGroup(inputs[q], x, q * cg, cg) && IsGradGroup(grads[q], g, q * kg, kg) {
      if groups == 1 {
        assert q * cg == 0 && cg == x.d1 && q * kg == 0 && kg == g.d1;
      }
      PermutedInput(x, inputs[q], q * cg, cg);
      PermutedGrad(g, grads[q], q * kg, kg);
    }
  }

  lemma PermutedInput(x: Tensor4, ig: Tensor4, lo: nat, len: nat)
    requires ig == Slice0(Permute(x, Axes(1, 2, 3, 0)), lo, len)
          || (ig == Permute(x, Axes(1, 2, 3, 0)) && lo == 0 && len == x.d1)
    ensures IsInputGroup(ig, x, lo, len)
  {
    forall c, i, j, n ensures ig.at(c, i, j, n) == x.at(n, lo + c, i, j) {
      PermuteAt(x, Axes(1, 2, 3, 0), lo + c, i, j, n);
    }
  }

  lemma PermutedGrad(g: Tensor4, gg: Tensor4, lo: nat, len: nat)
    requires gg == Slice3(Permute(g, Axes(2, 3, 0, 1)), lo, len)
          || (gg == Permute(g, Axes(2, 3, 0, 1)) && lo == 0 && len == g.d1)
    ensures IsGradGroup(gg, g, lo, len)
  {
    forall oh, ow, n, k ensures gg.at(oh, ow, n, k) == g.at(n, lo + k, oh, ow) {
      PermuteAt(g, Axes(2, 3, 0, 1), oh, ow, n, lo + k);
    }
  }

  // -------------------------------------------------------------- bias and the whole call

  function BiasTerms(g: Tensor4, k: int): (int, int, int) -> real { (n, i, j) => g.at(n, k, i, j) }
  /** `sum(grad_output, dim=[0, 2, 3])`. */
  function GradBias(g: Tensor4): int -> real { k => Sum3(g.d0, g.d2, g.d3, BiasTerms(g, k)) }

  function BiasProducts(b: int -> real, grad: int -> real): int -> real { k => b(k) * grad(k) }

  lemma ForwardBiasAt(x: Tensor4, w: Tensor4, b: int -> real, geo: Geometry, groups: nat, n: int, k: int, oh: int, ow: int)
    requires groups >= 1 && Fits(x.d2, x.d3, w.d2, w.d3, geo)
    ensures Forward(x, w, Some(b), geo, groups).at(n, k, oh, ow) == Forward(x, w, None, geo, groups).at(n, k, oh, ow) + b(k)
  {
    hide Sum3;
    var px, pw := Permute(x, Axes(0, 2, 3, 1)), Permute(w, Axes(2, 3, 1, 0));
    PermuteAt(Conv2d(px, pw, Some(b), geo, groups), Axes(0, 3, 1, 2), n, k, oh, ow);
    PermuteAt(Conv2d(px, pw, None, geo, groups), Axes(0, 3, 1, 2), n, k, oh, ow);
  }

  lemma ChannelBias(with: Tensor4, without: Tensor4, g: Tensor4, b: int -> real, k: int)
    requires forall n, k, i, j :: with.at(n, k, i, j) == without.at(n, k, i, j) + b(k)
    ensures Sum3(g.d0, g.d2, g.d3, ChannelProducts(with, g, k))
         == Sum3(g.d0, g.d2, g.d3, ChannelProducts(without, g, k)) + BiasProducts(b, GradBias(g))(k)
  {
    hide Sum, Sum3;
    var scaled := (n: int, i: int, j: int) => b(k) * g.at(n, k, i, j);
    Sum3Scale(g.d0, g.d2, g.d3, b(k), BiasTerms(g, k), scaled);
    Sum3Add(g.d0, g.d2, g.d3, ChannelProducts(without, g, k), scaled, ChannelProducts(with, g, k));
  }

  /** The forward pass is affine in the bias, and `grad_output` summed over batch and space is the
  adjoint of the bias broadcast. */
  lemma BiasAdjoint(x: Tensor4, w: Tensor4, b: int -> real, g: Tensor4, geo: Geometry, groups: nat)
    requires Operands(g, x, w, geo, groups)
    ensures Dot(Forward(x, w, Some(b), geo, groups), g)
         == Dot(Forward(x, w, None, geo, groups), g) + Sum(w.d0, BiasProducts(b, GradBias(g)))
  {
    var with, without := Forward(x, w, Some(b), geo, groups), Forward(x, w, None, geo, groups);
    assert SameShape(with, g) && SameShape(without, g);
    hide Sum, Sum3, Windows, Fits, Dot, Forward, Conv2d;
    var f := k => Sum3(g.d0, g.d2, g.d3, ChannelProducts(with, g, k));
    var h := k => Sum3(g.d0, g.d2, g.d3, ChannelProducts(without, g, k));
    forall n, k, i, j ensures with.at(n, k, i, j) == without.at(n, k, i, j) + b(k) {
      ForwardBiasAt(x, w, b, geo, groups, n, k, i, j);
    }
    forall k | 0 <= k < w.d0 ensures f(k) == h(k) + BiasProducts(b, GradBias(g))(k) {
      ChannelBias(with, without, g, b, k);
    }
    SumAdd(w.d0, h, BiasProducts(b, GradBias(g)), f);
    DotByChannels(with, g, f);
    DotByChannels(without, g, h);
  }

  datatype Gradients = Gradients(input: Option<Tensor4>, weight: Option<Tensor4>, bias: Option<int -> real>)

  /** Top, bottom, left and right padding. */
  datatype Padding = Padding(top: nat, bottom: nat, left: nat, right: nat)
  {
    predicate Symmetric() { top == bottom && left == right }
  }

  /** The bias enters the pairing with `g` as its product with `grad`. */
  ghost predicate BiasPairs(grad: int -> real, input: Tensor4, w: Tensor4, g: Tensor4, geo: Geometry, groups: nat) {
    && Operands(g, input, w, geo, groups)
    && forall b: int -> real :: Dot(Forward(input, w, Some(b), geo, groups), g)
                             == Dot(Forward(input, w, None, geo, groups), g) + Sum(w.d0, BiasProducts(b, grad))
  }
  lemma BiasSumPairs(grad: int -> real, input: Tensor4, w: Tensor4, g: Tensor4, geo: Geometry, groups: nat)
    requires Operands(g, input, w, geo, groups) && IsBiasSum(grad, g)
    ensures BiasPairs(grad, input, w, g, geo, groups)
  {
    hide Forward, Dot, Sum, GradBias, Windows, Fits;
    forall b: int -> real
      ensures Dot(Forward(input, w, Some(b), geo, groups), g)
           == Dot(Forward(input, w, None, geo, groups), g) + Sum(w.d0, BiasProducts(b, grad))
    {
      BiasAdjoint(input, w, b, g, geo, groups);
      SumEq(w.d0, BiasProducts(b, grad), BiasProducts(b, GradBias(g)));
    }
  }
  ghost predicate IsBiasSum(grad: int -> real, g: Tensor4) { forall k :: grad(k) == GradBias(g)(k) }

  /** The channels do not divide into the groups. */
  predicate Uneven(channels: nat, groups: nat) { groups > 1 && channels % groups != 0 }

  /** `aten_convolution_backward` on rank-4 operands: which calls raise, and what the requested gradients satisfy
  against the forward mapping, for every input, weight and bias of the given shapes. */
  method AtenConvolutionBackward(g: Tensor4, input: Tensor4, w: Tensor4, sh: nat, sw: nat, pads: Padding,
                                 dh: nat, dw: nat, transposed: bool, groups: nat,
                                 wantInput: bool, wantWeight: bool, wantBias: bool)
    returns (r: Result<Gradients>)
    requires !transposed && pads.top == pads.bottom && pads.left == pads.right ==>
               Operands(g, input, w, Geometry(sh, sw, pads.top, pads.left, dh, dw), groups)
    ensures r.Failure? && r.error == NotImplemented <==> transposed || pads.top != pads.bottom || pads.left != pads.right
    ensures !transposed && pads.top == pads.bottom && pads.left == pads.right ==>
              (r.Failure? <==> (wantInput || wantWeight) && Uneven(w.d0, groups))
    ensures r.Success? ==>
              (r.value.input.Some? <==> wantInput) && (r.value.weight.Some? <==> wantWeight)
              && (r.value.bias.Some? <==> wantBias)
    ensures r.Success? ==>
              var geo := Geometry(sh, sw, pads.top, pads.left, dh, dw);
              && (wantInput ==> InputAdjoint(r.value.input.value, input, w, g, geo, groups))
              && (wantWeight ==> WeightAdjoint(r.value.weight.value, input, w, g, geo, groups))
              && (wantBias ==> IsBiasSum(r.value.bias.value, g) && BiasPairs(r.value.bias.value, input, w, g, geo, groups))
  {
    if transposed {
      return Failure(NotImplemented);
    }
    if !pads.Symmetric() {
      return Failure(NotImplemented);
    }
    var geo := Geometry(sh, sw, pads.top, pads.left, dh, dw);
    OperandShapes(g, input, w, geo, groups);
    ExactChannels(input.d1, groups, w.d1);
    var gradInput, gradWeight, gradBias := None, None, None;
    hide Fits, Dot, Forward, GradBias, Windows, BiasPairs, IsBiasSum, InputAdjoint, WeightAdjoint;
    if wantInput {
      var t :- Conv2dBackwardInput(g, input, w, geo, groups);
      gradInput := Some(t);
    }
    if wantWeight {
      var t :- Conv2dBackwardWeight(g, input, w, geo, groups);
      gradWeight := Some(t);
    }
    if wantBias {
      BiasSumPairs(GradBias(g), input, w, g, geo, groups);
      gradBias := Some(GradBias(g));
    }
    r := Success(Gradients(gradInput, gradWeight, gradBias));
  }

  lemma ExactChannels(total: nat, groups: nat, per: nat)
    requires groups >= 1 && total == groups * per
    ensures total % groups == 0
  {
    DivModUnique(total, per, 0, groups);
  }
}
