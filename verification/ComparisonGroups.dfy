/** The table the comparison folds owners with, and what its rows then add up to. */
module ComparisonGroups {
  import opened SetSums
  import opened KernelAttribution
  import opened ComparisonRows

  /** A group both backends name alike, whatever the pass. */
  function Same(title: string, names: set<string>): Group { Group(title, AnyPass, names, names) }

  const LINEAR_FORWARD := Group("Linear GEMM (forward)", Forward,
    {"aten::mm"},
    {"aten::linear"})
  const LINEAR_BACKWARD := Group("Linear GEMM (backward)", Backward,
    {"aten::mm"},
    {"aten::linear", "aten::linear_backward"})
  const SDPA_FORWARD := Group("SDPA (forward)", AnyPass,
    {"aten::_flash_attention_forward", "aten::scaled_dot_product_attention"},
    {"_FusedFlashAttentionAutograd", "_ScaledDotProductAttentionAutograd"})
  const SDPA_BACKWARD := Group("SDPA (backward)", AnyPass,
    {"aten::_flash_attention_backward"},
    {"_FusedFlashAttentionAutogradBackward", "_ScaledDotProductAttentionAutogradBackward"})
  const COPIES := Same("Copies / dtype casts / layout",
    {"aten::_to_copy", "aten::clone", "aten::contiguous", "aten::copy_"})
  const LAYERNORM_FORWARD := Same("LayerNorm (forward)",
    {"aten::native_layer_norm"})
  const LAYERNORM_BACKWARD := Same("LayerNorm (backward)",
    {"aten::native_layer_norm_backward"})
  const CROSS_ENTROPY_FORWARD := Same("Cross entropy (forward)",
    {"aten::_log_softmax", "aten::nll_loss_forward"})
  const CROSS_ENTROPY_BACKWARD := Same("Cross entropy (backward)",
    {"aten::_log_softmax_backward_data", "aten::nll_loss_backward"})
  const GELU_FORWARD := Same("GELU (forward)",
    {"aten::gelu"})
  const GELU_BACKWARD := Same("GELU (backward)",
    {"aten::gelu_backward"})
  const ELEMENTWISE := Same("Residual / elementwise add",
    {"aten::add", "aten::add_", "aten::mul", "aten::mul_"})
  const EMBEDDING := Same("Embedding",
    {"aten::embedding", "aten::embedding_dense_backward"})
  const CONCAT := Same("Concat / stack",
    {"aten::cat", "aten::stack"})
  const FILLS := Same("Zero / fill grads",
    {"aten::fill_", "aten::zero_", "aten::zeros", "aten::zeros_like"})
  const OPTIMIZER := Same("Optimizer (fused AdamW)",
    {"aten::_foreach_add_", "aten::_fused_adamw_"})
  const CLIPPING := Same("Gradient clipping",
    {"aten::_foreach_mul_", "aten::_foreach_norm", "aten::clamp", "aten::linalg_vector_norm", "aten::reciprocal"})
  const MISC := Same("Misc reductions / indexing",
    {"aten::arange", "aten::gather", "aten::ones_like", "aten::sum"})

  const GROUPS: seq<Group> := [
    LINEAR_FORWARD, LINEAR_BACKWARD, SDPA_FORWARD, SDPA_BACKWARD, COPIES, LAYERNORM_FORWARD, LAYERNORM_BACKWARD,
    CROSS_ENTROPY_FORWARD, CROSS_ENTROPY_BACKWARD, GELU_FORWARD, GELU_BACKWARD, ELEMENTWISE, EMBEDDING, CONCAT,
    FILLS, OPTIMIZER, CLIPPING, MISC]

  // A length and two characters tell the groups' names apart.

  function Family(n: string): nat {
    var c, d := if |n| > 10 then n[10] else if n == [] then ' ' else n[|n| - 1], if |n| < 2 then ' ' else n[|n| - 2];
    if |n| == 8 then 0
    else if |n| == 9 then (if c == 't' then 13 else if c == 'm' then 17 else 11)
    else if |n| == 10 then (if c == 'u' then 9 else 11)
    else if |n| == 11 then (if d == 'c' then 13 else if d == 'm' then 16 else if d == 'n' || d == 'y' then 4 else 14)
    else if |n| == 12 then (if c == 'a' then 0 else 17)
    else if |n| == 14 then 4
    else if |n| == 15 then (if c == 'd' then 12 else 17)
    else if |n| == 16 then (if c == 'i' then 4 else if c == 's' then 14 else 16)
    else if |n| == 18 then 7
    else if |n| == 19 then (if c == '_' then 10 else if d == 'w' || d == 'd' then 15 else 16)
    else if |n| == 21 then 0
    else if |n| == 22 then 7
    else if |n| == 23 then (if c == 'v' then 5 else 8)
    else if |n| == 24 then 16
    else if |n| == 28 then 2
    else if |n| == 30 then (if c == 's' then 2 else 12)
    else if |n| == 31 then 3
    else if |n| == 32 then (if c == 'v' then 6 else 8)
    else if |n| == 34 then 2
    else if |n| == 36 then 3
    else if |n| == 42 then 3
    else |GROUPS|
  }

  /** The two Linear groups share names and differ in the pass. */
  function FamilyOf(k: nat): nat { if k == 1 then 0 else k }

  ghost predicate OfFamily(g: Group, family: nat) {
    (forall n :: n in g.rocm ==> Family(n) == family) && (forall n :: n in g.mojo ==> Family(n) == family)
  }

  lemma LinearForwardFamily()
    ensures OfFamily(LINEAR_FORWARD, 0)
  {}
  lemma LinearBackwardFamily()
    ensures OfFamily(LINEAR_BACKWARD, 0)
  {}
  lemma SdpaForwardNames()
    ensures Family("_FusedFlashAttentionAutograd") == 2
    ensures Family("_ScaledDotProductAttentionAutograd") == 2
    ensures Family("aten::_flash_attention_forward") == 2
    ensures Family("aten::scaled_dot_product_attention") == 2
  {}
  lemma SdpaForwardFamily()
    ensures OfFamily(SDPA_FORWARD, 2)
  {
    hide Family;
    SdpaForwardNames();
  }
  lemma SdpaBackwardFamily()
    ensures OfFamily(SDPA_BACKWARD, 3)
  {}
  lemma CopiesNames()
    ensures Family("aten::_to_copy") == 4
    ensures Family("aten::clone") == 4
    ensures Family("aten::contiguous") == 4
    ensures Family("aten::copy_") == 4
  {}
  lemma CopiesFamily()
    ensures OfFamily(COPIES, 4)
  {
    hide Family;
    CopiesNames();
  }
  lemma LayernormForwardFamily()
    ensures OfFamily(LAYERNORM_FORWARD, 5)
  {}
  lemma LayernormBackwardFamily()
    ensures OfFamily(LAYERNORM_BACKWARD, 6)
  {}
  lemma CrossEntropyForwardFamily()
    ensures OfFamily(CROSS_ENTROPY_FORWARD, 7)
  {}
  lemma CrossEntropyBackwardFamily()
    ensures OfFamily(CROSS_ENTROPY_BACKWARD, 8)
  {}
  lemma GeluForwardFamily()
    ensures OfFamily(GELU_FORWARD, 9)
  {}
  lemma GeluBackwardFamily()
    ensures OfFamily(GELU_BACKWARD, 10)
  {}
  lemma ElementwiseNames()
    ensures Family("aten::add") == 11
    ensures Family("aten::add_") == 11
    ensures Family("aten::mul") == 11
    ensures Family("aten::mul_") == 11
  {}
  lemma ElementwiseFamily()
    ensures OfFamily(ELEMENTWISE, 11)
  {
    hide Family;
    ElementwiseNames();
  }
  lemma EmbeddingFamily()
    ensures OfFamily(EMBEDDING, 12)
  {}
  lemma ConcatFamily()
    ensures OfFamily(CONCAT, 13)
  {}
  lemma FillsNames()
    ensures Family("aten::fill_") == 14
    ensures Family("aten::zero_") == 14
    ensures Family("aten::zeros") == 14
    ensures Family("aten::zeros_like") == 14
  {}
  lemma FillsFamily()
    ensures OfFamily(FILLS, 14)
  {
    hide Family;
    FillsNames();
  }
  lemma OptimizerFamily()
    ensures OfFamily(OPTIMIZER, 15)
  {}
  lemma ClippingNames()
    ensures Family("aten::_foreach_mul_") == 16
    ensures Family("aten::_foreach_norm") == 16
    ensures Family("aten::clamp") == 16
    ensures Family("aten::linalg_vector_norm") == 16
    ensures Family("aten::reciprocal") == 16
  {}
  lemma ClippingFamily()
    ensures OfFamily(CLIPPING, 16)
  {
    hide Family;
    ClippingNames();
  }
  lemma MiscNames()
    ensures Family("aten::arange") == 17
    ensures Family("aten::gather") == 17
    ensures Family("aten::ones_like") == 17
    ensures Family("aten::sum") == 17
  {}
  lemma MiscFamily()
    ensures OfFamily(MISC, 17)
  {
    hide Family;
    MiscNames();
  }

  lemma EachOfItsFamily(k: nat)
    requires k < |GROUPS|
    ensures OfFamily(GROUPS[k], FamilyOf(k))
  {
    hide OfFamily;
    LinearForwardFamily();
    LinearBackwardFamily();
    SdpaForwardFamily();
    SdpaBackwardFamily();
    CopiesFamily();
    LayernormForwardFamily();
    LayernormBackwardFamily();
    CrossEntropyForwardFamily();
    CrossEntropyBackwardFamily();
    GeluForwardFamily();
    GeluBackwardFamily();
    ElementwiseFamily();
    EmbeddingFamily();
    ConcatFamily();
    FillsFamily();
    OptimizerFamily();
    ClippingFamily();
    MiscFamily();
  }

  /** No name is asked for twice in a pass, on either side. */
  lemma TableIsDisjoint()
    ensures GroupsDisjoint(RocmSide(GROUPS)) && GroupsDisjoint(MojoSide(GROUPS))
  {
    forall k | 0 <= k < |GROUPS| ensures OfFamily(GROUPS[k], FamilyOf(k)) { EachOfItsFamily(k); }
    assert GROUPS[0].pass == Forward && GROUPS[1].pass == Backward;
    hide OfFamily, FamilyOf;
    DisjointByFamily(GROUPS);
  }
  lemma DisjointByFamily(groups: seq<Group>)
    requires forall k: nat :: k < |groups| ==> OfFamily(groups[k], FamilyOf(k))
    requires |groups| >= 2 && groups[0].pass == Forward && groups[1].pass == Backward
    ensures GroupsDisjoint(RocmSide(groups)) && GroupsDisjoint(MojoSide(groups))
  {
    hide Family, OfFamily;
    forall i: nat, j: nat | i < j < |groups|
      ensures PassesApart(RocmSide(groups)[i], RocmSide(groups)[j]) && PassesApart(MojoSide(groups)[i], MojoSide(groups)[j])
    {
      if i != 0 || j != 1 { FamiliesApart(groups[i], FamilyOf(i), groups[j], FamilyOf(j)); }
    }
  }
  lemma FamiliesApart(a: Group, f: nat, b: Group, g: nat)
    requires OfFamily(a, f) && OfFamily(b, g) && f != g
    ensures a.rocm !! b.rocm && a.mojo !! b.mojo
  {
    hide Family;
  }

  /** With the table itself: on either side the rows add up to the total plus the time of the keys counted twice,
  and to the total exactly when those took no time. */
  lemma TableAccounting(rocm: Table, mojo: Table)
    requires Nonnegative(rocm) && Nonnegative(mojo)
    ensures RowsAddUp(GROUPS, rocm, mojo)
  {
    TableIsDisjoint();
    hide *;
    BothSidesExact(GROUPS, rocm, mojo);
  }

  /** The kernel counts of either side, with the table itself. */
  lemma TableCounts(rocm: Table, mojo: Table)
    ensures |RocmSide(GROUPS)| == |MojoSide(GROUPS)| == |GROUPS|
    ensures CountsAddUp(rocm, RocmSide(GROUPS), mojo, MojoSide(GROUPS), GROUPS, rocm, mojo)
    ensures CountsAddUp(mojo, MojoSide(GROUPS), rocm, RocmSide(GROUPS), GROUPS, rocm, mojo)
  {
    TableIsDisjoint();
    assert |RocmSide(GROUPS)| == |MojoSide(GROUPS)| == |GROUPS|;
    hide *;
    SideCounts(rocm, RocmSide(GROUPS), mojo, MojoSide(GROUPS), GROUPS, rocm, mojo);
    SideCounts(mojo, MojoSide(GROUPS), rocm, RocmSide(GROUPS), GROUPS, rocm, mojo);
  }

  // ------------------------------------------------------------------- witnesses

  lemma {:induction false} ClaimedBy(stats: Table, side: seq<Request>, n: nat, k: nat, key: string)
    requires k < n <= |side| && key in Matching(stats, side[k].names, side[k].pass)
    ensures key in Claimed(stats, side, n)
  {
    hide Matching;
    if k < n - 1 { ClaimedBy(stats, side, n - 1, k, key); }
  }
  lemma {:induction false} ClaimedByNone(stats: Table, side: seq<Request>, n: nat, key: string)
    requires n <= |side| && forall k :: 0 <= k < n ==> key !in Matching(stats, side[k].names, side[k].pass)
    ensures key !in Claimed(stats, side, n)
  {
    hide Matching;
    if n > 0 { ClaimedByNone(stats, side, n - 1, key); }
  }

  /** A key of one owner. */
  function Only(name: string, us: real, kernels: nat): Table { map[name := Stat(name, us, kernels, map[])] }
  lemma OnlySums(name: string, us: real, kernels: nat)
    ensures SumOver(Only(name, us, kernels).Keys, Time(Only(name, us, kernels))) == us
    ensures SumOver(Only(name, us, kernels).Keys, Count(Only(name, us, kernels))) == kernels as real
  {
    var only := Only(name, us, kernels);
    assert only.Keys == {name} && {name} - {name} == {};
    SumRemove({name}, name, Time(only));
    SumRemove({name}, name, Count(only));
  }

  lemma MmIsForward()
    ensures !IsBackward("aten::mm") && BaseName("aten::mm") == "aten::mm" && Family("aten::mm") == 0
  {
    assert |"aten::mm"| == 8 && |BACKWARD_SUFFIX| == 9;
  }
  lemma MmNotMojo(k: nat)
    requires k < |GROUPS|
    ensures "aten::mm" !in GROUPS[k].mojo
  {
    MmIsForward();
    EachOfItsFamily(k);
    hide Family;
    assert |"aten::mm"| == 8 && |"aten::linear"| == 12 && |"aten::linear_backward"| == 21;
  }

  /** `aten::mm` is claimed by the table on the ROCm side and not on the Mojo side, so when both traces have it
  the ROCm time is listed twice. */
  lemma DoubleCountWitness()
    ensures var rocm, mojo := Only("aten::mm", 5.0, 1), Only("aten::mm", 3.0, 1);
            && CountedTwice(rocm, RocmSide(GROUPS), mojo, MojoSide(GROUPS)) == {"aten::mm"}
            && SumOver(rocm.Keys, Time(rocm)) == 5.0
            && GroupTime(rocm, RocmSide(GROUPS), |GROUPS|) + SumOver(ResidualNames(rocm, mojo, GROUPS), Time(rocm)) == 10.0
  {
    var rocm, mojo, key := Only("aten::mm", 5.0, 1), Only("aten::mm", 3.0, 1), "aten::mm";
    assert rocm.Keys == {key} && mojo.Keys == {key};
    assert Nonnegative(rocm) && Nonnegative(mojo);
    hide *;
    TableAccounting(rocm, mojo);
    OnlySums(key, 5.0, 1);
    MmListedTwice(rocm, mojo);
    RocmAccounted(GROUPS, rocm, mojo);
  }
  lemma MmListedTwice(rocm: Table, mojo: Table)
    requires "aten::mm" in rocm && mojo.Keys == {"aten::mm"}
    ensures CountedTwice(rocm, RocmSide(GROUPS), mojo, MojoSide(GROUPS)) == {"aten::mm"}
  {
    var key := "aten::mm";
    MmIsForward();
    var side := RocmSide(GROUPS);
    assert side[0].names == {key} && side[0].pass == Forward;
    ClaimedBy(rocm, side, |side|, 0, key);
    forall k | 0 <= k < |GROUPS| ensures key !in Matching(mojo, MojoSide(GROUPS)[k].names, MojoSide(GROUPS)[k].pass) {
      MmNotMojo(k);
    }
    ClaimedByNone(mojo, MojoSide(GROUPS), |GROUPS|, key);
  }

  /** Three kernels of no duration in a claimed owner: no row shows them. */
  lemma HiddenKernelsWitness()
    ensures var rocm: Table, mojo: Table := Only("aten::mm", 0.0, 3), map[];
            && SumOver(rocm.Keys, Count(rocm)) == 3.0
            && Shown(GROUPS, rocm, mojo, |GROUPS|) == [] && ResidualNames(rocm, mojo, GROUPS) == {}
  {
    var rocm: Table, mojo: Table, key := Only("aten::mm", 0.0, 3), map[], "aten::mm";
    OnlySums(key, 0.0, 3);
    MmIsForward();
    var side := RocmSide(GROUPS);
    assert side[0].names == {key} && side[0].pass == Forward;
    ClaimedBy(rocm, side, |side|, 0, key);
    TimelessShowsNothing(GROUPS, rocm, mojo, |GROUPS|);
  }
  lemma {:induction false} TimelessShowsNothing(groups: seq<Group>, rocm: Table, mojo: Table, n: nat)
    requires n <= |groups| && (forall k :: Time(rocm)(k) == 0.0 && Time(mojo)(k) == 0.0)
    ensures Shown(groups, rocm, mojo, n) == []
  {
    if n > 0 {
      SumNonNegative(Matching(rocm, groups[n - 1].rocm, groups[n - 1].pass), Time(rocm));
      SumNonNegative(Matching(mojo, groups[n - 1].mojo, groups[n - 1].pass), Time(mojo));
      TimelessShowsNothing(groups, rocm, mojo, n - 1);
    }
  }
}
