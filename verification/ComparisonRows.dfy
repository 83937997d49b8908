/** `build_rows`: folding the owners of two traces into group rows and residual rows, and what the two
tables together account for. */
module ComparisonRows {
  import opened Sorting
  import opened SetSums
  import opened KernelAttribution
  import opened RangeNesting

  datatype Pass = Forward | Backward | AnyPass
  datatype Group = Group(title: string, pass: Pass, rocm: set<string>, mojo: set<string>)
  datatype Row = Row(title: string, rocmUs: real, mojoUs: real, rocmKernels: int, mojoKernels: int, gapUs: real)

  type Table = map<string, Stat>

  predicate IsBackward(key: string) {
    |BACKWARD_SUFFIX| <= |key| && key[|key| - |BACKWARD_SUFFIX|..] == BACKWARD_SUFFIX
  }
  function BaseName(key: string): string { if IsBackward(key) then key[..|key| - |BACKWARD_SUFFIX|] else key }

  /** Whether a key's base name and pass match a group's request. */
  predicate Matches(key: string, names: set<string>, pass: Pass) {
    BaseName(key) in names && (pass == Forward ==> !IsBackward(key)) && (pass == Backward ==> IsBackward(key))
  }
  function Matching(stats: Table, names: set<string>, pass: Pass): set<string> {
    set k | k in stats && Matches(k, names, pass)
  }

  // how the keys of `attribute` are read back

  /** A backward key is a name with the tag, and its base name is that name. */
  lemma BackwardKeys(key: string)
    ensures IsBackward(key) <==> exists stem: string :: key == stem + "#backward"
    ensures forall stem: string :: key == stem + "#backward" ==> BaseName(key) == stem
    ensures !IsBackward(key) ==> BaseName(key) == key
  {
    if IsBackward(key) {
      assert key == key[..|key| - |BACKWARD_SUFFIX|] + "#backward";
    }
    forall stem: string | key == stem + "#backward" ensures IsBackward(key) && BaseName(key) == stem {
      assert key[|key| - 9..] == "#backward" && key[..|key| - 9] == stem;
    }
  }

  /** The owner of a kernel says exactly its range's name and pass; an unowned kernel is unattributed. */
  lemma OwnerReadsBack(e: Event, owners: Owners)
    ensures e.externalId.Some? && e.externalId.value in owners && !IsBackward(owners[e.externalId.value].0) ==>
              var (name, flag) := owners[e.externalId.value];
              (IsBackward(OwnerOf(e, owners)) <==> flag) && BaseName(OwnerOf(e, owners)) == name
    ensures e.externalId.None? || e.externalId.value !in owners ==> OwnerOf(e, owners) == "<<unattributed>>"
  {
    BackwardKeys(OwnerOf(e, owners));
    hide IsBackward, BaseName;
    if e.externalId.Some? && e.externalId.value in owners && owners[e.externalId.value].1 {
      assert OwnerOf(e, owners) == owners[e.externalId.value].0 + "#backward";
    }
  }

  /** A group claims the kernels of a range exactly when it asks for the range's name in the range's pass. */
  lemma GroupClaims(e: Event, owners: Owners, names: set<string>, pass: Pass)
    requires e.externalId.Some? && e.externalId.value in owners && !IsBackward(owners[e.externalId.value].0)
    ensures var (name, flag) := owners[e.externalId.value];
            Matches(OwnerOf(e, owners), names, pass) <==>
              name in names && (pass == AnyPass || (pass == Backward && flag) || (pass == Forward && !flag))
  {
    OwnerReadsBack(e, owners);
  }

  /** Two ranges share an owner exactly when name and pass agree, or one's name is the other's with the tag. */
  lemma OwnersShared(name: string, flag: bool, name': string, flag': bool)
    ensures Key(name, flag) == Key(name', flag')
       <==> (name == name' && flag == flag')
            || (flag && !flag' && name' == name + "#backward") || (!flag && flag' && name == name' + "#backward")
  {
    if flag && flag' {
      assert (name + "#backward")[..|name + "#backward"| - 9] == name;
      assert (name' + "#backward")[..|name' + "#backward"| - 9] == name';
    } else if name == name' && flag != flag' {
      assert |name + "#backward"| == |name| + 9;
    }
  }

  method MatchingKeys(stats: Table, names: set<string>, pass: Pass) returns (keys: set<string>)
    ensures keys == Matching(stats, names, pass)
  {
    hide BaseName, IsBackward;
    keys := {};
    var rest := stats.Keys;
    while rest != {}
      invariant rest <= stats.Keys
      invariant keys == set k | k in stats && k !in rest && Matches(k, names, pass)
      decreases |rest|
    {
      var key :| key in rest;
      rest := rest - {key};
      if BaseName(key) !in names { continue; }
      if pass == Forward && IsBackward(key) { continue; }
      if pass == Backward && !IsBackward(key) { continue; }
      keys := keys + {key};
    }
  }

  method GroupTotal(stats: Table, keys: set<string>) returns (us: real, kernels: int)
    requires keys <= stats.Keys
    ensures us == SumOver(keys, Time(stats))
    ensures kernels as real == SumOver(keys, Count(stats))
  {
    hide SumOver;
    us, kernels := 0.0, 0;
    var rest, done := keys, {};
    SumEmpty(Time(stats));
    SumEmpty(Count(stats));
    while rest != {}
      invariant rest <= keys && done == keys - rest
      invariant us == SumOver(done, Time(stats)) && kernels as real == SumOver(done, Count(stats))
      decreases |rest|
    {
      var key :| key in rest;
      SumAdd(done, key, Time(stats));
      SumAdd(done, key, Count(stats));
      us := us + stats[key].us;
      kernels := kernels + stats[key].kernels;
      rest, done := rest - {key}, done + {key};
    }
    assert done == keys;
  }

  // ----------------------------------------------------------- one side of the table

  /** The names each group asks for on one side, with its pass. */
  datatype Request = Request(names: set<string>, pass: Pass)
  function RocmSide(groups: seq<Group>): seq<Request> { seq(|groups|, i requires 0 <= i < |groups| => Request(groups[i].rocm, groups[i].pass)) }
  function MojoSide(groups: seq<Group>): seq<Request> { seq(|groups|, i requires 0 <= i < |groups| => Request(groups[i].mojo, groups[i].pass)) }

  function Claimed(stats: Table, side: seq<Request>, n: nat): set<string>
    requires n <= |side|
  {
    if n == 0 then {} else Claimed(stats, side, n - 1) + Matching(stats, side[n - 1].names, side[n - 1].pass)
  }
  /** A measure of the keys, time or kernels, summed group by group. */
  ghost function GroupSum(stats: Table, side: seq<Request>, n: nat, f: string -> real): real
    requires n <= |side|
  {
    if n == 0 then 0.0 else
    GroupSum(stats, side, n - 1, f) + SumOver(Matching(stats, side[n - 1].names, side[n - 1].pass), f)
  }
  ghost function GroupTime(stats: Table, side: seq<Request>, n: nat): real
    requires n <= |side|
  { GroupSum(stats, side, n, Time(stats)) }
  ghost predicate Measures(stats: Table, f: string -> real) { forall k :: f(k) >= 0.0 && (k !in stats ==> f(k) == 0.0) }

  ghost predicate Nonnegative(stats: Table) { forall k :: k in stats ==> stats[k].us >= 0.0 }

  /** No name is asked for twice in the same pass. */
  ghost predicate GroupsDisjoint(side: seq<Request>) {
    forall i, j :: 0 <= i < j < |side| ==> PassesApart(side[i], side[j])
  }
  ghost predicate PassesApart(a: Request, b: Request) {
    a.names !! b.names || (a.pass == Forward && b.pass == Backward) || (a.pass == Backward && b.pass == Forward)
  }

  lemma ApartMatches(stats: Table, a: Request, b: Request)
    requires PassesApart(a, b)
    ensures Matching(stats, a.names, a.pass) !! Matching(stats, b.names, b.pass)
  {}

  lemma {:induction false} ClaimedApart(stats: Table, side: seq<Request>, n: nat, j: nat)
    requires GroupsDisjoint(side) && n <= j < |side|
    ensures Claimed(stats, side, n) !! Matching(stats, side[j].names, side[j].pass)
  {
    if n > 0 {
      ClaimedApart(stats, side, n - 1, j);
      ApartMatches(stats, side[n - 1], side[j]);
    }
  }

  lemma {:induction false} ClaimedKeys(stats: Table, side: seq<Request>, n: nat)
    requires n <= |side|
    ensures Claimed(stats, side, n) <= stats.Keys
  {
    if n > 0 { ClaimedKeys(stats, side, n - 1); }
  }

  lemma NonnegativePart(keys: set<string>, stats: Table, f: string -> real)
    requires Measures(stats, f)
    ensures SumOver(keys, f) >= 0.0
  {
    SumNonNegative(keys, f);
  }

  lemma {:induction false} GroupSumCoversClaims(stats: Table, side: seq<Request>, n: nat, f: string -> real)
    requires Measures(stats, f) && n <= |side|
    ensures GroupSum(stats, side, n, f) >= SumOver(Claimed(stats, side, n), f)
    ensures GroupsDisjoint(side) ==> GroupSum(stats, side, n, f) == SumOver(Claimed(stats, side, n), f)
  {
    if n == 0 {
      SumEmpty(f);
    } else {
      hide SumOver, Matching, Measures, GroupsDisjoint;
      var before, now := Claimed(stats, side, n - 1), Matching(stats, side[n - 1].names, side[n - 1].pass);
      GroupSumCoversClaims(stats, side, n - 1, f);
      SumUnion(before, now, f);
      NonnegativePart(before * now, stats, f);
      if GroupsDisjoint(side) {
        ClaimedApart(stats, side, n - 1, n - 1);
        assert before * now == {};
        SumEmpty(f);
      }
    }
  }

  /** Group rows count every claimed key at least once, and exactly once when the groups are disjoint. */
  lemma GroupTimeCoversClaims(stats: Table, side: seq<Request>, n: nat)
    requires Nonnegative(stats) && n <= |side|
    ensures GroupTime(stats, side, n) >= SumOver(Claimed(stats, side, n), Time(stats))
    ensures GroupsDisjoint(side) ==> GroupTime(stats, side, n) == SumOver(Claimed(stats, side, n), Time(stats))
  {
    hide GroupSum, SumOver, Claimed, GroupsDisjoint;
    GroupSumCoversClaims(stats, side, n, Time(stats));
  }

  // ----------------------------------------------------------------- the two tables

  function ResidualNames(rocm: Table, mojo: Table, groups: seq<Group>): set<string> {
    (rocm.Keys - Claimed(rocm, RocmSide(groups), |groups|)) + (mojo.Keys - Claimed(mojo, MojoSide(groups), |groups|))
  }

  function RocmSum(rows: seq<Row>): real { if rows == [] then 0.0 else RocmSum(rows[..|rows| - 1]) + rows[|rows| - 1].rocmUs }
  function MojoSum(rows: seq<Row>): real { if rows == [] then 0.0 else MojoSum(rows[..|rows| - 1]) + rows[|rows| - 1].mojoUs }

  function RocmKernels(rows: seq<Row>): int {
    if rows == [] then 0 else RocmKernels(rows[..|rows| - 1]) + rows[|rows| - 1].rocmKernels
  }
  function MojoKernels(rows: seq<Row>): int {
    if rows == [] then 0 else MojoKernels(rows[..|rows| - 1]) + rows[|rows| - 1].mojoKernels
  }

  ghost predicate HasTime(group: Group, rocm: Table, mojo: Table) {
    || SumOver(Matching(rocm, group.rocm, group.pass), Time(rocm)) > 0.0
    || SumOver(Matching(mojo, group.mojo, group.pass), Time(mojo)) > 0.0
  }
  /** The groups with time on either side, in table order. */
  ghost function Shown(groups: seq<Group>, rocm: Table, mojo: Table, n: nat): seq<Group>
    requires n <= |groups|
  {
    if n == 0 then [] else
    Shown(groups, rocm, mojo, n - 1) + if HasTime(groups[n - 1], rocm, mojo) then [groups[n - 1]] else []
  }
  /** A row carries its group's title and its own side's time and kernel count in each column. */
  ghost predicate Describes(r: Row, group: Group, rocm: Table, mojo: Table) {
    && r.title == group.title && r.gapUs == r.mojoUs - r.rocmUs
    && r.rocmUs == SumOver(Matching(rocm, group.rocm, group.pass), Time(rocm))
    && r.mojoUs == SumOver(Matching(mojo, group.mojo, group.pass), Time(mojo))
    && r.rocmKernels as real == SumOver(Matching(rocm, group.rocm, group.pass), Count(rocm))
    && r.mojoKernels as real == SumOver(Matching(mojo, group.mojo, group.pass), Count(mojo))
  }
  ghost predicate DescribesEach(rows: seq<Row>, groups: seq<Group>, rocm: Table, mojo: Table) {
    |rows| == |groups| && forall i :: 0 <= i < |rows| ==> Describes(rows[i], groups[i], rocm, mojo)
  }

  /** The row of one group, unless neither side spent time in it. */
  method GroupRow(group: Group, rocm: Table, mojo: Table)
    returns (row: seq<Row>, rocmKeys: set<string>, mojoKeys: set<string>)
    requires Nonnegative(rocm) && Nonnegative(mojo)
    ensures rocmKeys == Matching(rocm, group.rocm, group.pass) && mojoKeys == Matching(mojo, group.mojo, group.pass)
    ensures DescribesEach(row, if HasTime(group, rocm, mojo) then [group] else [], rocm, mojo)
    ensures RocmSum(row) == SumOver(Matching(rocm, group.rocm, group.pass), Time(rocm))
    ensures MojoSum(row) == SumOver(Matching(mojo, group.mojo, group.pass), Time(mojo))
  {
    rocmKeys := MatchingKeys(rocm, group.rocm, group.pass);
    mojoKeys := MatchingKeys(mojo, group.mojo, group.pass);
    SumNonNegative(rocmKeys, Time(rocm));
    SumNonNegative(mojoKeys, Time(mojo));
    hide SumOver, Matching, Nonnegative;
    var rocmUs, rocmKernels := GroupTotal(rocm, rocmKeys);
    var mojoUs, mojoKernels := GroupTotal(mojo, mojoKeys);
    if rocmUs <= 0.0 && mojoUs <= 0.0 { return [], rocmKeys, mojoKeys; }
    row := [Row(group.title, rocmUs, mojoUs, rocmKernels, mojoKernels, mojoUs - rocmUs)];
    assert row[..0] == [];
  }

  lemma {:induction false} RowSums(a: seq<Row>, b: seq<Row>)
    ensures RocmSum(a + b) == RocmSum(a) + RocmSum(b) && MojoSum(a + b) == MojoSum(a) + MojoSum(b)
  {
    if b == [] {
      assert a + b == a;
    } else {
      RowSums(a, b[..|b| - 1]);
      assert (a + b)[..|a + b| - 1] == a + b[..|b| - 1];
    }
  }

  /** The loop over the groups: their rows and the keys they claim. */
  method GroupRows(groups: seq<Group>, rocm: Table, mojo: Table)
    returns (rows: seq<Row>, claimedRocm: set<string>, claimedMojo: set<string>)
    requires Nonnegative(rocm) && Nonnegative(mojo)
    ensures RocmSum(rows) == GroupTime(rocm, RocmSide(groups), |groups|)
    ensures MojoSum(rows) == GroupTime(mojo, MojoSide(groups), |groups|)
    ensures DescribesEach(rows, Shown(groups, rocm, mojo, |groups|), rocm, mojo)
    ensures claimedRocm == Claimed(rocm, RocmSide(groups), |groups|)
    ensures claimedMojo == Claimed(mojo, MojoSide(groups), |groups|)
  {
    hide SumOver, Matching, Nonnegative, Describes, HasTime, RocmSum, MojoSum;
    rows, claimedRocm, claimedMojo := [], {}, {};
    NoRows();
    for i := 0 to |groups|
      invariant DescribesEach(rows, Shown(groups, rocm, mojo, i), rocm, mojo)
      invariant RocmSum(rows) == GroupTime(rocm, RocmSide(groups), i)
      invariant MojoSum(rows) == GroupTime(mojo, MojoSide(groups), i)
      invariant claimedRocm == Claimed(rocm, RocmSide(groups), i)
      invariant claimedMojo == Claimed(mojo, MojoSide(groups), i)
    {
      var row, rocmKeys, mojoKeys := GroupRow(groups[i], rocm, mojo);
      claimedRocm, claimedMojo := claimedRocm + rocmKeys, claimedMojo + mojoKeys;
      RowSums(rows, row);
      rows := rows + row;
    }
  }
  lemma NoRows()
    ensures RocmSum([]) == 0.0 && MojoSum([]) == 0.0
  {}

  /** `build_rows`: a row for each group with time on either side, then a residual row for every name
  unclaimed on the side it appears on, in name order. */
  method BuildRows(groups: seq<Group>, rocm: Table, mojo: Table) returns (rows: seq<Row>, residual: seq<Row>)
    requires Nonnegative(rocm) && Nonnegative(mojo)
    ensures RocmSum(rows) == GroupTime(rocm, RocmSide(groups), |groups|)
    ensures MojoSum(rows) == GroupTime(mojo, MojoSide(groups), |groups|)
    ensures RocmSum(residual) == SumOver(ResidualNames(rocm, mojo, groups), Time(rocm))
    ensures MojoSum(residual) == SumOver(ResidualNames(rocm, mojo, groups), Time(mojo))
    ensures DescribesEach(rows, Shown(groups, rocm, mojo, |groups|), rocm, mojo)
    ensures ListsResiduals(residual, groups, rocm, mojo)
  {
    hide SumOver, ShownCount, GroupTime, Claimed, DescribesEach, Shown, Nonnegative, RocmKernels, MojoKernels, RocmSum, MojoSum;
    var claimedRocm, claimedMojo;
    rows, claimedRocm, claimedMojo := GroupRows(groups, rocm, mojo);
    var names := SortedNames((rocm.Keys - claimedRocm) + (mojo.Keys - claimedMojo));
    residual := [];
    for i := 0 to |names|
      invariant residual == ResidualRows(names[..i], rocm, mojo)
    {
      assert names[..i + 1][..i] == names[..i];
      residual := residual + [ResidualRow(names[i], rocm, mojo)];
    }
    assert names[..|names|] == names;
    ResidualSums(names, rocm, mojo, ResidualNames(rocm, mojo, groups));
  }

  /** One row for each unclaimed name, in name order. */
  ghost predicate ListsResiduals(residual: seq<Row>, groups: seq<Group>, rocm: Table, mojo: Table) {
    exists names :: Sorted(names, StringLe) && Distinct(names)
      && (forall n :: n in names <==> n in ResidualNames(rocm, mojo, groups)) && ResidualRows(names, rocm, mojo) == residual
  }

  /** The kernel columns of the two tables `BuildRows` returns. */
  lemma KernelColumns(groups: seq<Group>, rocm: Table, mojo: Table, rows: seq<Row>, residual: seq<Row>)
    requires DescribesEach(rows, Shown(groups, rocm, mojo, |groups|), rocm, mojo)
    requires ListsResiduals(residual, groups, rocm, mojo)
    ensures RocmKernels(rows) as real == ShownCount(rocm, RocmSide(groups), groups, rocm, mojo, |groups|)
    ensures MojoKernels(rows) as real == ShownCount(mojo, MojoSide(groups), groups, rocm, mojo, |groups|)
    ensures RocmKernels(residual) as real == SumOver(ResidualNames(rocm, mojo, groups), Count(rocm))
    ensures MojoKernels(residual) as real == SumOver(ResidualNames(rocm, mojo, groups), Count(mojo))
  {
    hide SumOver, ShownCount, Shown, DescribesEach, RocmKernels, MojoKernels, ResidualNames, ResidualRows, Sorted, RocmSide, MojoSide;
    ShownKernels(groups, rocm, mojo, |groups|, rows);
    var names :| Sorted(names, StringLe) && Distinct(names)
      && (forall n :: n in names <==> n in ResidualNames(rocm, mojo, groups)) && ResidualRows(names, rocm, mojo) == residual;
    ResidualKernels(names, rocm, mojo, ResidualNames(rocm, mojo, groups));
  }

  /** The kernel columns of the group rows. */
  lemma {:induction false} ShownKernels(groups: seq<Group>, rocm: Table, mojo: Table, n: nat, rows: seq<Row>)
    requires n <= |groups| && DescribesEach(rows, Shown(groups, rocm, mojo, n), rocm, mojo)
    ensures RocmKernels(rows) as real == ShownCount(rocm, RocmSide(groups), groups, rocm, mojo, n)
    ensures MojoKernels(rows) as real == ShownCount(mojo, MojoSide(groups), groups, rocm, mojo, n)
  {
    hide SumOver, Matching, HasTime;
    if n > 0 {
      var shown := Shown(groups, rocm, mojo, n - 1);
      if HasTime(groups[n - 1], rocm, mojo) {
        var init := rows[..|rows| - 1];
        assert Shown(groups, rocm, mojo, n)[..|shown|] == shown;
        forall i | 0 <= i < |init| ensures Describes(init[i], shown[i], rocm, mojo) {
          assert Describes(rows[i], Shown(groups, rocm, mojo, n)[i], rocm, mojo);
        }
        ShownKernels(groups, rocm, mojo, n - 1, init);
        assert Describes(rows[|shown|], groups[n - 1], rocm, mojo);
      } else {
        ShownKernels(groups, rocm, mojo, n - 1, rows);
      }
    }
  }

  function ResidualRow(name: string, rocm: Table, mojo: Table): Row {
    var rocmUs, mojoUs := Time(rocm)(name), Time(mojo)(name);
    Row("[residual] " + name, rocmUs, mojoUs, if name in rocm then rocm[name].kernels else 0,
        if name in mojo then mojo[name].kernels else 0, mojoUs - rocmUs)
  }
  function ResidualRows(names: seq<string>, rocm: Table, mojo: Table): seq<Row> {
    if names == [] then [] else
    ResidualRows(names[..|names| - 1], rocm, mojo) + [ResidualRow(names[|names| - 1], rocm, mojo)]
  }

  /** Every residual row carries its own name, times and counts, and their difference. */
  lemma {:induction false} ResidualRowsMean(names: seq<string>, rocm: Table, mojo: Table, i: nat)
    requires i < |names|
    ensures |ResidualRows(names, rocm, mojo)| == |names|
    ensures var r, name := ResidualRows(names, rocm, mojo)[i], names[i];
            && r.title == "[residual] " + name
            && (name in rocm ==> r.rocmUs == rocm[name].us && r.rocmKernels == rocm[name].kernels)
            && (name in mojo ==> r.mojoUs == mojo[name].us && r.mojoKernels == mojo[name].kernels)
            && (name !in rocm ==> r.rocmUs == 0.0 && r.rocmKernels == 0)
            && (name !in mojo ==> r.mojoUs == 0.0 && r.mojoKernels == 0)
            && r.gapUs == r.mojoUs - r.rocmUs
  {
    var init := names[..|names| - 1];
    if i < |names| - 1 {
      ResidualRowsMean(init, rocm, mojo, i);
    } else if init != [] {
      ResidualRowsMean(init, rocm, mojo, 0);
    }
  }

  lemma {:induction false} ResidualSums(names: seq<string>, rocm: Table, mojo: Table, all: set<string>)
    requires Distinct(names) && forall n :: n in names <==> n in all
    ensures RocmSum(ResidualRows(names, rocm, mojo)) == SumOver(all, Time(rocm))
    ensures MojoSum(ResidualRows(names, rocm, mojo)) == SumOver(all, Time(mojo))
  {
    if names == [] {
      assert all == {};
    } else {
      var init, last := names[..|names| - 1], names[|names| - 1];
      assert names == init + [last];
      forall n ensures n in init <==> n in all - {last} { assert n in names <==> n in init || n == last; }
      ResidualSums(init, rocm, mojo, all - {last});
      SumRemove(all, last, Time(rocm));
      SumRemove(all, last, Time(mojo));
      var rows := ResidualRows(init, rocm, mojo);
      assert (rows + [ResidualRow(last, rocm, mojo)])[..|rows|] == rows;
    }
  }

  lemma {:induction false} ResidualKernels(names: seq<string>, rocm: Table, mojo: Table, all: set<string>)
    requires Distinct(names) && forall n :: n in names <==> n in all
    ensures RocmKernels(ResidualRows(names, rocm, mojo)) as real == SumOver(all, Count(rocm))
    ensures MojoKernels(ResidualRows(names, rocm, mojo)) as real == SumOver(all, Count(mojo))
  {
    if names == [] {
      assert all == {};
    } else {
      var init, last := names[..|names| - 1], names[|names| - 1];
      assert names == init + [last];
      forall n ensures n in init <==> n in all - {last} { assert n in names <==> n in init || n == last; }
      ResidualKernels(init, rocm, mojo, all - {last});
      hide SumOver;
      SumRemove(all, last, Count(rocm));
      SumRemove(all, last, Count(mojo));
      var rows := ResidualRows(init, rocm, mojo);
      assert (rows + [ResidualRow(last, rocm, mojo)])[..|rows|] == rows;
    }
  }

  // ------------------------------------------------------------------- accounting

  /** Keys of one side that a group claims and the residual table lists again, because the other side has
  them unclaimed. */
  function CountedTwice(mine: Table, mySide: seq<Request>, theirs: Table, theirSide: seq<Request>): set<string> {
    Claimed(mine, mySide, |mySide|) * (theirs.Keys - Claimed(theirs, theirSide, |theirSide|))
  }

  lemma SideAccountingOf(mine: Table, mySide: seq<Request>, theirs: Table, theirSide: seq<Request>, f: string -> real)
    requires Measures(mine, f)
    ensures var mineLeft := mine.Keys - Claimed(mine, mySide, |mySide|);
            var residual := mineLeft + (theirs.Keys - Claimed(theirs, theirSide, |theirSide|));
            var accounted := GroupSum(mine, mySide, |mySide|, f) + SumOver(residual, f);
            var twice := CountedTwice(mine, mySide, theirs, theirSide);
            && accounted >= SumOver(mine.Keys, f) + SumOver(twice, f)
            && (GroupsDisjoint(mySide) ==> accounted == SumOver(mine.Keys, f) + SumOver(twice, f))
            && (SumOver(twice, f) == 0.0 <==> forall k :: k in twice ==> f(k) == 0.0)
  {
    var claimed := Claimed(mine, mySide, |mySide|);
    var mineLeft, theirsLeft := mine.Keys - claimed, theirs.Keys - Claimed(theirs, theirSide, |theirSide|);
    var twice, absent := claimed * theirsLeft, theirsLeft - mine.Keys;
    ClaimedKeys(mine, mySide, |mySide|);
    GroupSumCoversClaims(mine, mySide, |mySide|, f);
    hide Claimed, GroupSum, GroupsDisjoint, SumOver;
    assert mineLeft + theirsLeft == (mineLeft + twice) + absent;
    SumDisjoint(mineLeft, twice, f);
    SumDisjoint(mineLeft + twice, absent, f);
    SumNonNegative(absent, f);
    SumNonNegative(twice, f);
    SumDisjoint(claimed, mineLeft, f);
    assert claimed + mineLeft == mine.Keys;
  }

  /** One side: group time plus residual time is at least the total; with disjoint groups the excess is
  exactly the time of the keys counted twice. */
  lemma SideAccounting(mine: Table, mySide: seq<Request>, theirs: Table, theirSide: seq<Request>)
    requires Nonnegative(mine)
    ensures var mineLeft := mine.Keys - Claimed(mine, mySide, |mySide|);
            var residual := mineLeft + (theirs.Keys - Claimed(theirs, theirSide, |theirSide|));
            var accounted := GroupTime(mine, mySide, |mySide|) + SumOver(residual, Time(mine));
            var twice := CountedTwice(mine, mySide, theirs, theirSide);
            && accounted >= SumOver(mine.Keys, Time(mine)) + SumOver(twice, Time(mine))
            && (GroupsDisjoint(mySide) ==> accounted == SumOver(mine.Keys, Time(mine)) + SumOver(twice, Time(mine)))
            && (GroupsDisjoint(mySide) ==>
                  (accounted == SumOver(mine.Keys, Time(mine)) <==> forall k :: k in twice ==> Time(mine)(k) == 0.0))
  {
    hide Claimed, GroupSum, GroupsDisjoint, SumOver, CountedTwice;
    SideAccountingOf(mine, mySide, theirs, theirSide, Time(mine));
  }

  // the kernel counts

  /** The kernels of the groups that get a row, and of those that do not. */
  ghost function ShownCount(stats: Table, side: seq<Request>, groups: seq<Group>, rocm: Table, mojo: Table, n: nat): real
    requires n <= |groups| == |side|
  {
    if n == 0 then 0.0 else
    ShownCount(stats, side, groups, rocm, mojo, n - 1)
      + if HasTime(groups[n - 1], rocm, mojo) then SumOver(Matching(stats, side[n - 1].names, side[n - 1].pass), Count(stats)) else 0.0
  }
  ghost function HiddenCount(stats: Table, side: seq<Request>, groups: seq<Group>, rocm: Table, mojo: Table, n: nat): real
    requires n <= |groups| == |side|
  {
    if n == 0 then 0.0 else
    HiddenCount(stats, side, groups, rocm, mojo, n - 1)
      + if HasTime(groups[n - 1], rocm, mojo) then 0.0 else SumOver(Matching(stats, side[n - 1].names, side[n - 1].pass), Count(stats))
  }

  /** No group without a row has kernels on this side. */
  ghost predicate NothingHidden(stats: Table, side: seq<Request>, groups: seq<Group>, rocm: Table, mojo: Table, n: nat)
    requires n <= |groups| == |side|
  {
    forall i, k :: 0 <= i < n && !HasTime(groups[i], rocm, mojo) && k in Matching(stats, side[i].names, side[i].pass)
      ==> Count(stats)(k) == 0.0
  }

  lemma {:induction false} CountsSplit(stats: Table, side: seq<Request>, groups: seq<Group>, rocm: Table, mojo: Table, n: nat)
    requires n <= |groups| == |side|
    ensures ShownCount(stats, side, groups, rocm, mojo, n) + HiddenCount(stats, side, groups, rocm, mojo, n)
         == GroupSum(stats, side, n, Count(stats))
    ensures HiddenCount(stats, side, groups, rocm, mojo, n) >= 0.0
    ensures HiddenCount(stats, side, groups, rocm, mojo, n) == 0.0 <==> NothingHidden(stats, side, groups, rocm, mojo, n)
  {
    hide HasTime, SumOver, Matching;
    if n > 0 {
      CountsSplit(stats, side, groups, rocm, mojo, n - 1);
      SumNonNegative(Matching(stats, side[n - 1].names, side[n - 1].pass), Count(stats));
    }
  }

  /** Kernel counts: the two tables hold the total, plus the kernels of the keys counted twice, less those of the
  groups without time; that loss is zero exactly when those groups have no kernels on this side. */
  ghost predicate CountsAddUp(mine: Table, mySide: seq<Request>, theirs: Table, theirSide: seq<Request>,
                              groups: seq<Group>, rocm: Table, mojo: Table)
    requires |mySide| == |groups|
  {
    var residual := (mine.Keys - Claimed(mine, mySide, |mySide|)) + (theirs.Keys - Claimed(theirs, theirSide, |theirSide|));
    var hidden := HiddenCount(mine, mySide, groups, rocm, mojo, |groups|);
    && ShownCount(mine, mySide, groups, rocm, mojo, |groups|) + SumOver(residual, Count(mine))
       == SumOver(mine.Keys, Count(mine)) + SumOver(CountedTwice(mine, mySide, theirs, theirSide), Count(mine)) - hidden
    && hidden >= 0.0 && (hidden == 0.0 <==> NothingHidden(mine, mySide, groups, rocm, mojo, |groups|))
  }
  lemma SideCounts(mine: Table, mySide: seq<Request>, theirs: Table, theirSide: seq<Request>,
                   groups: seq<Group>, rocm: Table, mojo: Table)
    requires |mySide| == |groups| && GroupsDisjoint(mySide)
    ensures CountsAddUp(mine, mySide, theirs, theirSide, groups, rocm, mojo)
  {
    hide Claimed, GroupSum, GroupsDisjoint, SumOver, CountedTwice, ShownCount, HiddenCount, NothingHidden;
    SideAccountingOf(mine, mySide, theirs, theirSide, Count(mine));
    CountsSplit(mine, mySide, groups, rocm, mojo, |groups|);
  }

  /** On either side the rows add up to the total plus the time of the keys counted twice, and to the total
  exactly when those took no time. */
  ghost predicate RowsAddUp(groups: seq<Group>, rocm: Table, mojo: Table) {
    var residual := ResidualNames(rocm, mojo, groups);
    && AddsUp(rocm, RocmSide(groups), mojo, MojoSide(groups), residual)
    && AddsUp(mojo, MojoSide(groups), rocm, RocmSide(groups), residual)
  }
  ghost predicate AddsUp(mine: Table, mySide: seq<Request>, theirs: Table, theirSide: seq<Request>, residual: set<string>) {
    var total, twice := SumOver(mine.Keys, Time(mine)), CountedTwice(mine, mySide, theirs, theirSide);
    var accounted := GroupTime(mine, mySide, |mySide|) + SumOver(residual, Time(mine));
    && accounted == total + SumOver(twice, Time(mine))
    && (accounted == total <==> forall k :: k in twice ==> Time(mine)(k) == 0.0)
  }
  lemma BothSidesExact(groups: seq<Group>, rocm: Table, mojo: Table)
    requires Nonnegative(rocm) && Nonnegative(mojo)
    requires GroupsDisjoint(RocmSide(groups)) && GroupsDisjoint(MojoSide(groups))
    ensures RowsAddUp(groups, rocm, mojo)
  {
    var r, m := RocmSide(groups), MojoSide(groups);
    var rocmLeft, mojoLeft := rocm.Keys - Claimed(rocm, r, |r|), mojo.Keys - Claimed(mojo, m, |m|);
    var residual := ResidualNames(rocm, mojo, groups);
    assert residual == rocmLeft + mojoLeft && residual == mojoLeft + rocmLeft;
    hide *;
    OneSideExact(rocm, r, mojo, m, residual);
    OneSideExact(mojo, m, rocm, r, residual);
    BothAddUp(groups, rocm, mojo);
  }
  lemma OneSideExact(mine: Table, mySide: seq<Request>, theirs: Table, theirSide: seq<Request>, residual: set<string>)
    requires Nonnegative(mine) && GroupsDisjoint(mySide)
    requires residual == (mine.Keys - Claimed(mine, mySide, |mySide|)) + (theirs.Keys - Claimed(theirs, theirSide, |theirSide|))
    ensures AddsUp(mine, mySide, theirs, theirSide, residual)
  {
    hide GroupsDisjoint, Claimed, GroupTime, SumOver, Nonnegative, CountedTwice;
    SideAccounting(mine, mySide, theirs, theirSide);
  }
  lemma RocmAccounted(groups: seq<Group>, rocm: Table, mojo: Table)
    requires RowsAddUp(groups, rocm, mojo)
    ensures GroupTime(rocm, RocmSide(groups), |groups|) + SumOver(ResidualNames(rocm, mojo, groups), Time(rocm))
         == SumOver(rocm.Keys, Time(rocm)) + SumOver(CountedTwice(rocm, RocmSide(groups), mojo, MojoSide(groups)), Time(rocm))
  {
    hide SumOver, GroupTime, CountedTwice, ResidualNames, Time;
  }
  lemma BothAddUp(groups: seq<Group>, rocm: Table, mojo: Table)
    requires AddsUp(rocm, RocmSide(groups), mojo, MojoSide(groups), ResidualNames(rocm, mojo, groups))
    requires AddsUp(mojo, MojoSide(groups), rocm, RocmSide(groups), ResidualNames(rocm, mojo, groups))
    ensures RowsAddUp(groups, rocm, mojo)
  {}
}
