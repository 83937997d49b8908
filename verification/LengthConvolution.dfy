/** Rank-3 convolution: the forward mapping puts the length on the H axis of a unit-width image, the backward
mapping puts it on the W axis of a unit-height one; the gradients are adjoint to the forward map all the same. */
module LengthConvolution {
  import opened Outcomes
  import opened Sums
  import opened Tensors
  import opened Convolution
  import opened ConvolutionBackward

  function Unsqueeze2(t: Tensor3): Tensor4 { Tensor4(t.d0, t.d1, 1, t.d2, (i, j, k, l) => t.at(i, j, l)) }
  function Unsqueeze3(t: Tensor3): Tensor4 { Tensor4(t.d0, t.d1, t.d2, 1, (i, j, k, l) => t.at(i, j, k)) }
  /** Squeezing an axis of extent one. */
  function Squeeze2(t: Tensor4): Tensor3 { Tensor3(t.d0, t.d1, t.d3, (i, j, l) => t.at(i, j, 0, l)) }
  function Squeeze3(t: Tensor4): Tensor3
    requires t.d3 == 1
  { Tensor3(t.d0, t.d1, t.d2, (i, j, k) => t.at(i, j, k, 0)) }

  ghost predicate SameLengths(a: Tensor3, b: Tensor3) { a.d0 == b.d0 && a.d1 == b.d1 && a.d2 == b.d2 }
  function Products3(a: Tensor3, b: Tensor3): (int, int, int) -> real { (i, j, k) => a.at(i, j, k) * b.at(i, j, k) }
  function Dot3(a: Tensor3, b: Tensor3): real { Sum3(a.d0, a.d1, a.d2, Products3(a, b)) }

  /** Stride, padding and dilation along the length. */
  datatype Stepping = Stepping(stride: nat, padding: nat, dilation: nat)
  {
    function OnHeight(): Geometry { Geometry(stride, 1, padding, 0, dilation, 1) }
    function OnWidth(): Geometry { Geometry(1, stride, 0, padding, 1, dilation) }
  }
  ghost predicate LengthFits(length: nat, kernel: nat, st: Stepping) {
    st.stride >= 1 && st.dilation >= 1 && kernel >= 1 && length + 2 * st.padding >= st.dilation * (kernel - 1) + 1
  }

  /** The forward mapping for rank-3 input, not transposed. */
  function Forward1(x: Tensor3, w: Tensor3, bias: Option<int -> real>, st: Stepping, groups: nat): Tensor3
    requires groups >= 1 && LengthFits(x.d2, w.d2, st)
  {
    var image := Conv2d(Permute(Unsqueeze3(x), Axes(0, 2, 3, 1)), Permute(Unsqueeze2(w), Axes(3, 2, 1, 0)), bias, st.OnHeight(), groups);
    Squeeze3(Permute(image, Axes(0, 3, 1, 2)))
  }

  /** A unit axis inside a double sum. */
  lemma UnitInner(m: nat, f: (int, int) -> real, h: int -> real)
    requires forall i :: 0 <= i < m ==> h(i) == f(i, 0)
    ensures Sum2(m, 1, f) == Sum(m, h)
  {}
  lemma UnitOuter(m: nat, f: (int, int) -> real, h: int -> real)
    requires forall j :: 0 <= j < m ==> h(j) == f(0, j)
    ensures Sum2(1, m, f) == Sum(m, h)
  {}
  /** Moving a unit axis from the last place to the middle. */
  lemma UnitMoves(l: nat, m: nat, f: (int, int, int) -> real, g: (int, int, int) -> real)
    requires forall i, j :: 0 <= i < l && 0 <= j < m ==> f(i, j, 0) == g(i, 0, j)
    ensures Sum3(l, m, 1, f) == Sum3(l, 1, m, g)
  {
    forall i | 0 <= i < l ensures Inner3(m, 1, f)(i) == Inner3(1, m, g)(i) {
      var h := j => f(i, j, 0);
      UnitInner(m, Row3(f, i), h);
      UnitOuter(m, Row3(g, i), h);
    }
    SumEq(l, Inner3(m, 1, f), Inner3(1, m, g));
  }

  function TallTaps(x: Tensor3, w: Tensor3, st: Stepping, base: int, n: int, k: int, at: int): (int, int, int) -> real {
    Conv2dTaps(Permute(Unsqueeze3(x), Axes(0, 2, 3, 1)), Permute(Unsqueeze2(w), Axes(3, 2, 1, 0)), st.OnHeight(), base, n, at, 0, k)
  }
  function WideTaps(x: Tensor3, w: Tensor3, st: Stepping, base: int, n: int, k: int, at: int): (int, int, int) -> real {
    Conv2dTaps(Permute(Unsqueeze2(x), Axes(0, 2, 3, 1)), Permute(Unsqueeze2(w), Axes(2, 3, 1, 0)), st.OnWidth(), base, n, 0, at, k)
  }
  lemma LengthTapsAgree(x: Tensor3, w: Tensor3, st: Stepping, base: int, n: int, k: int, at: int)
    ensures Sum3(w.d1, w.d2, 1, TallTaps(x, w, st, base, n, k, at)) == Sum3(w.d1, 1, w.d2, WideTaps(x, w, st, base, n, k, at))
  {
    hide Sum3;
    var f, g := TallTaps(x, w, st, base, n, k, at), WideTaps(x, w, st, base, n, k, at);
    forall c, r | 0 <= c < w.d1 && 0 <= r < w.d2 ensures f(c, r, 0) == g(c, 0, r) {
      var pixel := at * st.stride + r * st.dilation - st.padding;
      PermuteAt(Unsqueeze3(x), Axes(0, 2, 3, 1), n, pixel, 0, base + c);
      PermuteAt(Unsqueeze2(x), Axes(0, 2, 3, 1), n, 0, pixel, base + c);
      PermuteAt(Unsqueeze2(w), Axes(3, 2, 1, 0), r, 0, c, k);
      PermuteAt(Unsqueeze2(w), Axes(2, 3, 1, 0), 0, r, c, k);
    }
    UnitMoves(w.d1, w.d2, f, g);
  }

  /** The forward mapping along H is the rank-4 mapping along W. */
  lemma ForwardTurns(x: Tensor3, w: Tensor3, bias: Option<int -> real>, st: Stepping, groups: nat, n: int, k: int, at: int)
    requires groups >= 1 && LengthFits(x.d2, w.d2, st)
    ensures Fits(1, x.d2, 1, w.d2, st.OnWidth())
    ensures Forward1(x, w, bias, st, groups).at(n, k, at)
         == Forward(Unsqueeze2(x), Unsqueeze2(w), bias, st.OnWidth(), groups).at(n, k, 0, at)
  {
    hide Forward, Forward1, TallTaps, WideTaps, GroupOf, LengthFits, Fits, Sum3;
    TallAt(x, w, bias, st, groups, n, k, at);
    WideAt(x, w, bias, st, groups, n, k, at);
    LengthTapsAgree(x, w, st, GroupOf(k, w.d0 / groups) * w.d1, n, k, at);
  }

  function BiasAt(bias: Option<int -> real>, k: int): real { if bias.Some? then bias.value(k) else 0.0 }
  lemma TallAt(x: Tensor3, w: Tensor3, bias: Option<int -> real>, st: Stepping, groups: nat, n: int, k: int, at: int)
    requires groups >= 1 && LengthFits(x.d2, w.d2, st)
    ensures Forward1(x, w, bias, st, groups).at(n, k, at)
         == Sum3(w.d1, w.d2, 1, TallTaps(x, w, st, GroupOf(k, w.d0 / groups) * w.d1, n, k, at)) + BiasAt(bias, k)
  {
    hide Sum3, Windows, Conv2dTaps, GroupOf;
    var tall, column := Permute(Unsqueeze3(x), Axes(0, 2, 3, 1)), Permute(Unsqueeze2(w), Axes(3, 2, 1, 0));
    PermuteAt(Conv2d(tall, column, bias, st.OnHeight(), groups), Axes(0, 3, 1, 2), n, k, at, 0);
  }
  lemma WideAt(x: Tensor3, w: Tensor3, bias: Option<int -> real>, st: Stepping, groups: nat, n: int, k: int, at: int)
    requires groups >= 1 && LengthFits(x.d2, w.d2, st)
    ensures Fits(1, x.d2, 1, w.d2, st.OnWidth())
    ensures Forward(Unsqueeze2(x), Unsqueeze2(w), bias, st.OnWidth(), groups).at(n, k, 0, at)
         == Sum3(w.d1, 1, w.d2, WideTaps(x, w, st, GroupOf(k, w.d0 / groups) * w.d1, n, k, at)) + BiasAt(bias, k)
  {
    hide Sum3, Windows, Conv2dTaps, GroupOf;
    var wide, line := Permute(Unsqueeze2(x), Axes(0, 2, 3, 1)), Permute(Unsqueeze2(w), Axes(2, 3, 1, 0));
    PermuteAt(Conv2d(wide, line, bias, st.OnWidth(), groups), Axes(0, 3, 1, 2), n, k, 0, at);
  }

  lemma DotSqueezed(a: Tensor4, b: Tensor4, a': Tensor3, b': Tensor3)
    requires a.d2 == 1 && a'.d0 == a.d0 && a'.d1 == a.d1 && a'.d2 == a.d3
    requires forall i, j, l :: 0 <= i < a.d0 && 0 <= j < a.d1 && 0 <= l < a.d3
               ==> a.at(i, j, 0, l) == a'.at(i, j, l) && b.at(i, j, 0, l) == b'.at(i, j, l)
    ensures Dot(a, b) == Dot3(a', b')
  {
    var terms := Products3(a', b');
    forall i | 0 <= i < a.d0 ensures Sample(a, b)(i) == Inner3(a.d1, a.d3, terms)(i) {
      var f := Products(a, b, i);
      forall j | 0 <= j < a.d1 ensures Inner3(1, a.d3, f)(j) == Inner2(a.d3, Row3(terms, i))(j) {
        UnitOuter(a.d3, Row3(f, j), Row(Row3(terms, i), j));
      }
      SumEq(a.d1, Inner3(1, a.d3, f), Inner2(a.d3, Row3(terms, i)));
    }
    SumEq(a.d0, Sample(a, b), Inner3(a.d1, a.d3, terms));
  }

  /** Operands of one legal rank-3 call. */
  ghost predicate LengthOperands(g: Tensor3, x: Tensor3, w: Tensor3, st: Stepping, groups: nat) {
    && groups >= 1 && LengthFits(x.d2, w.d2, st) && x.d1 == groups * w.d1 && g.d0 == x.d0 && g.d1 == w.d0
    && g.d2 == Windows(x.d2 + 2 * st.padding, w.d2, st.stride, st.dilation)
  }

  lemma OperandsUnsqueeze(g: Tensor3, x: Tensor3, w: Tensor3, st: Stepping, groups: nat)
    requires LengthOperands(g, x, w, st, groups)
    ensures groups >= 1 && Operands(Unsqueeze2(g), Unsqueeze2(x), Unsqueeze2(w), st.OnWidth(), groups)
  {
    hide Windows, Fits, LengthFits;
    WidthFits(x.d2, w.d2, st);
  }
  lemma WidthFits(length: nat, kernel: nat, st: Stepping)
    requires LengthFits(length, kernel, st)
    ensures Fits(1, length, 1, kernel, st.OnWidth()) && Windows(1, 1, 1, 1) == 1
  {}

  /** The inner product with the output gradient, in either orientation. */
  lemma ForwardPairing(x: Tensor3, w: Tensor3, bias: Option<int -> real>, g: Tensor3, st: Stepping, groups: nat)
    requires LengthOperands(g, x, w, st, groups)
    ensures Fits(1, x.d2, 1, w.d2, st.OnWidth())
    ensures Dot3(Forward1(x, w, bias, st, groups), g)
         == Dot(Forward(Unsqueeze2(x), Unsqueeze2(w), bias, st.OnWidth(), groups), Unsqueeze2(g))
  {
    hide Forward, Forward1, Unsqueeze2, Dot, Dot3, Windows, Fits, LengthFits;
    ForwardExtents(x, w, bias, g, st, groups);
    var turned, forward := Forward(Unsqueeze2(x), Unsqueeze2(w), bias, st.OnWidth(), groups), Forward1(x, w, bias, st, groups);
    forall i, j, l | 0 <= i < turned.d0 && 0 <= j < turned.d1 && 0 <= l < turned.d3
      ensures turned.at(i, j, 0, l) == forward.at(i, j, l) && Unsqueeze2(g).at(i, j, 0, l) == g.at(i, j, l)
    {
      ForwardTurns(x, w, bias, st, groups, i, j, l);
      UnsqueezeAt(g, i, j, l);
    }
    DotSqueezed(turned, Unsqueeze2(g), forward, g);
  }
  lemma UnsqueezeAt(t: Tensor3, i: int, j: int, l: int)
    ensures Unsqueeze2(t).at(i, j, 0, l) == t.at(i, j, l)
  {}
  lemma ForwardExtents(x: Tensor3, w: Tensor3, bias: Option<int -> real>, g: Tensor3, st: Stepping, groups: nat)
    requires LengthOperands(g, x, w, st, groups)
    ensures Fits(1, x.d2, 1, w.d2, st.OnWidth())
    ensures Fits(Unsqueeze2(x).d2, Unsqueeze2(x).d3, Unsqueeze2(w).d2, Unsqueeze2(w).d3, st.OnWidth())
    ensures var turned := Forward(Unsqueeze2(x), Unsqueeze2(w), bias, st.OnWidth(), groups);
            turned.d2 == 1 && turned.d0 == g.d0 && turned.d1 == g.d1 && turned.d3 == g.d2
    ensures SameLengths(Forward1(x, w, bias, st, groups), g)
  {
    hide Windows, Fits, LengthFits;
    WidthFits(x.d2, w.d2, st);
  }

  /** A gradient for the unsqueezed operand, squeezed, pairs with the operand itself. */
  lemma GradientPairing(x: Tensor3, grad: Tensor4)
    requires SameShape(grad, Unsqueeze2(x))
    ensures SameLengths(Squeeze2(grad), x) && Dot(Unsqueeze2(x), grad) == Dot3(x, Squeeze2(grad))
  {
    DotSqueezed(Unsqueeze2(x), grad, x, Squeeze2(grad));
  }

  datatype LengthGradients = LengthGradients(input: Option<Tensor3>, weight: Option<Tensor3>, bias: Option<int -> real>)

  /** Every gradient that is present pairs as the forward mapping demands. */
  ghost predicate Lawful(grads: LengthGradients, input: Tensor3, w: Tensor3, g: Tensor3, st: Stepping, groups: nat) {
    && InputLaw(grads.input, input, w, g, st, groups)
    && WeightLaw(grads.weight, input, w, g, st, groups)
    && BiasLaw(grads.bias, input, w, g, st, groups)
  }
  ghost predicate InputLaw(grad: Option<Tensor3>, input: Tensor3, w: Tensor3, g: Tensor3, st: Stepping, groups: nat) {
    grad.Some? ==> IsInputGradient(grad.value, input, w, g, st, groups)
  }
  ghost predicate WeightLaw(grad: Option<Tensor3>, input: Tensor3, w: Tensor3, g: Tensor3, st: Stepping, groups: nat) {
    grad.Some? ==> IsWeightGradient(grad.value, input, w, g, st, groups)
  }
  ghost predicate BiasLaw(grad: Option<int -> real>, input: Tensor3, w: Tensor3, g: Tensor3, st: Stepping, groups: nat) {
    grad.Some? ==> IsBiasGradient(grad.value, input, w, g, st, groups)
  }

  /** `convolution_backward` for rank-3 input. */
  method AtenConvolutionBackward1(g: Tensor3, input: Tensor3, w: Tensor3, st: Stepping, transposed: bool, groups: nat,
                                  wantInput: bool, wantWeight: bool, wantBias: bool)
    returns (r: Result<LengthGradients>)
    requires !transposed ==> LengthOperands(g, input, w, st, groups)
    ensures r.Failure? && r.error == NotImplemented <==> transposed
    ensures !transposed ==> (r.Failure? <==> (wantInput || wantWeight) && Uneven(w.d0, groups))
    ensures r.Success? ==>
              && (r.value.input.Some? <==> wantInput) && (r.value.weight.Some? <==> wantWeight)
              && (r.value.bias.Some? <==> wantBias)
    ensures r.Success? ==> Lawful(r.value, input, w, g, st, groups)
  {
    hide Operands, LengthOperands, InputAdjoint, WeightAdjoint, IsInputGradient,
         IsWeightGradient, IsBiasGradient, IsBiasSum, BiasPairs, Squeeze2, Uneven;
    if transposed {
      return Failure(NotImplemented);
    }
    OperandsUnsqueeze(g, input, w, st, groups);
    var full :- AtenConvolutionBackward(Unsqueeze2(g), Unsqueeze2(input), Unsqueeze2(w), 1, st.stride,
                                        Padding(0, 0, st.padding, st.padding), 1, st.dilation, transposed, groups,
                                        wantInput, wantWeight, wantBias);
    if wantInput { SqueezedInput(full.input.value, input, w, g, st, groups); }
    if wantWeight { SqueezedWeight(full.weight.value, input, w, g, st, groups); }
    if wantBias { SqueezedBias(full.bias.value, input, w, g, st, groups); }
    r := Success(LengthGradients(SqueezeSome(full.input), SqueezeSome(full.weight), full.bias));
  }
  function SqueezeSome(t: Option<Tensor4>): Option<Tensor3> { if t.Some? then Some(Squeeze2(t.value)) else None }

  ghost predicate IsInputGradient(grad: Tensor3, input: Tensor3, w: Tensor3, g: Tensor3, st: Stepping, groups: nat) {
    && LengthOperands(g, input, w, st, groups) && SameLengths(grad, input)
    && forall x: Tensor3 :: SameLengths(x, input) ==> Dot3(Forward1(x, w, None, st, groups), g) == Dot3(x, grad)
  }
  ghost predicate IsWeightGradient(grad: Tensor3, input: Tensor3, w: Tensor3, g: Tensor3, st: Stepping, groups: nat) {
    && LengthOperands(g, input, w, st, groups) && SameLengths(grad, w)
    && forall v: Tensor3 :: SameLengths(v, w) ==> Dot3(Forward1(input, v, None, st, groups), g) == Dot3(v, grad)
  }
  ghost predicate IsBiasGradient(grad: int -> real, input: Tensor3, w: Tensor3, g: Tensor3, st: Stepping, groups: nat) {
    && LengthOperands(g, input, w, st, groups)
    && forall b: int -> real :: Dot3(Forward1(input, w, Some(b), st, groups), g)
                             == Dot3(Forward1(input, w, None, st, groups), g) + Sum(w.d0, BiasProducts(b, grad))
  }

  lemma SqueezedInput(grad: Tensor4, input: Tensor3, w: Tensor3, g: Tensor3, st: Stepping, groups: nat)
    requires LengthOperands(g, input, w, st, groups)
    requires InputAdjoint(grad, Unsqueeze2(input), Unsqueeze2(w), Unsqueeze2(g), st.OnWidth(), groups)
    ensures IsInputGradient(Squeeze2(grad), input, w, g, st, groups)
  {
    hide Forward, Forward1, Dot, Dot3, Windows, LengthFits, Fits;
    GradientPairing(input, grad);
    forall x: Tensor3 | SameLengths(x, input)
      ensures Dot3(Forward1(x, w, None, st, groups), g) == Dot3(x, Squeeze2(grad))
    {
      ForwardPairing(x, w, None, g, st, groups);
      GradientPairing(x, grad);
    }
  }

  lemma SqueezedWeight(grad: Tensor4, input: Tensor3, w: Tensor3, g: Tensor3, st: Stepping, groups: nat)
    requires LengthOperands(g, input, w, st, groups)
    requires WeightAdjoint(grad, Unsqueeze2(input), Unsqueeze2(w), Unsqueeze2(g), st.OnWidth(), groups)
    ensures IsWeightGradient(Squeeze2(grad), input, w, g, st, groups)
  {
    hide Forward, Forward1, Dot, Dot3, Windows, LengthFits, Fits;
    GradientPairing(w, grad);
    forall v: Tensor3 | SameLengths(v, w)
      ensures Dot3(Forward1(input, v, None, st, groups), g) == Dot3(v, Squeeze2(grad))
    {
      ForwardPairing(input, v, None, g, st, groups);
      GradientPairing(v, grad);
    }
  }

  lemma SqueezedBias(grad: int -> real, input: Tensor3, w: Tensor3, g: Tensor3, st: Stepping, groups: nat)
    requires LengthOperands(g, input, w, st, groups)
    requires BiasPairs(grad, Unsqueeze2(input), Unsqueeze2(w), Unsqueeze2(g), st.OnWidth(), groups)
    ensures IsBiasGradient(grad, input, w, g, st, groups)
  {
    hide Forward, Forward1, Dot, Dot3, Sum, Windows, Fits, LengthFits;
    forall b: int -> real
      ensures Dot3(Forward1(input, w, Some(b), st, groups), g)
           == Dot3(Forward1(input, w, None, st, groups), g) + Sum(w.d0, BiasProducts(b, grad))
    {
      ForwardPairing(input, w, Some(b), g, st, groups);
      ForwardPairing(input, w, None, g, st, groups);
    }
  }
}
