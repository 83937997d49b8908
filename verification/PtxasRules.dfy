/** Which PTX assembler suits a driver and a set of GPUs: the acceptance rule, the choice among candidates
and the installation advice. */
module PtxasRules {
  import opened Outcomes

  /** A CUDA release, and the first two components that the tables speak of. */
  datatype Version = Version(major: int, minor: int, patch: int)
  datatype Release = Release(major: int, minor: int)

  predicate ReleaseLe(a: Release, b: Release) { a.major < b.major || (a.major == b.major && a.minor <= b.minor) }
  predicate VersionLe(a: Version, b: Version) {
    a.major < b.major || (a.major == b.major && (a.minor < b.minor || (a.minor == b.minor && a.patch <= b.patch)))
  }
  function ReleaseOf(v: Version): Release { Release(v.major, v.minor) }

  /** First release that can target an architecture's name. */
  const ARCH_MIN_CUDA: map<nat, Release> := map[
    50 := Release(6, 0), 52 := Release(6, 5), 53 := Release(7, 0), 60 := Release(8, 0), 61 := Release(8, 0),
    62 := Release(8, 0), 70 := Release(9, 0), 72 := Release(9, 1), 75 := Release(10, 0), 80 := Release(11, 0),
    86 := Release(11, 1), 87 := Release(11, 4), 88 := Release(13, 0), 89 := Release(11, 8), 90 := Release(12, 0),
    100 := Release(12, 8), 101 := Release(12, 8), 103 := Release(12, 9), 110 := Release(13, 0),
    120 := Release(12, 8), 121 := Release(12, 9)]

  /** Last major that still targets it, 99 when it was never dropped. */
  const DROPPED_AFTER_12: set<nat> := {50, 52, 53, 60, 61, 62, 70, 72, 101}
  function LastMajor(arch: nat): int { if arch in DROPPED_AFTER_12 then 12 else 99 }

  const ARCH_A_VARIANT: set<nat> := {90, 100, 101, 103, 110, 120, 121}

  /** The --gpu-name value: the sm number and whether it carries the `a` suffix. */
  datatype Target = Target(arch: nat, specific: bool)
  function TargetName(arch: nat): Target { Target(arch, arch in ARCH_A_VARIANT) }

  /** The targets a release supports, per the tables. */
  function TableArches(v: Version): set<Target> {
    set arch | arch in ARCH_MIN_CUDA && ReleaseLe(ARCH_MIN_CUDA[arch], ReleaseOf(v)) && v.major <= LastMajor(arch) :: TargetName(arch)
  }

  lemma TableHas(v: Version, arch: nat)
    ensures TargetName(arch) in TableArches(v)
       <==> arch in ARCH_MIN_CUDA && ReleaseLe(ARCH_MIN_CUDA[arch], ReleaseOf(v)) && v.major <= LastMajor(arch)
  {}

  // ------------------------------------------------------------------ candidates

  datatype Source = EnvironmentVariable | BuiltIn | Discovered(place: string)

  /** One assembler: `help` is what its own help text lists, empty when that cannot be parsed. */
  datatype Candidate = Candidate(path: string, source: Source, version: Option<Version>, help: set<Target>)
  {
    predicate IsBuiltin() { source.BuiltIn? }
  }

  datatype Reason = Unreadable | TooNew | TooOld(missing: set<Target>)

  function Supported(c: Candidate): set<Target>
    requires c.version.Some?
  { if c.IsBuiltin() then TableArches(c.version.value) else c.help }

  function Needed(arches: seq<nat>): set<Target> { set a | a in arches :: TargetName(a) }

  /** `rejection`: the first ground on which the acceptance rule turns a candidate down, if any. */
  function Rejection(c: Candidate, driver: Option<Release>, arches: seq<nat>): Option<Reason> {
    if c.version.None? then (if c.IsBuiltin() then None else Some(Unreadable))
    else if driver.Some? && c.version.value.major > driver.value.major then Some(TooNew)
    else if Supported(c) != {} && Needed(arches) - Supported(c) != {} then Some(TooOld(Needed(arches) - Supported(c)))
    else None
  }

  /** The ranking key: an unknown version ranks below every known one. */
  function Rank(c: Candidate): Version { if c.version.Some? then c.version.value else Version(-1, -1, -1) }

  /** A version that was read has nonnegative components. */
  predicate Readable(c: Candidate) { c.version.Some? ==> c.version.value.major >= 0 }

  function UsableAmong(found: seq<Candidate>, driver: Option<Release>, arches: seq<nat>): seq<Candidate> {
    if found == [] then [] else
    var rest, c := UsableAmong(found[..|found| - 1], driver, arches), found[|found| - 1];
    if Rejection(c, driver, arches).None? then rest + [c] else rest
  }
  function RejectedAmong(found: seq<Candidate>, driver: Option<Release>, arches: seq<nat>): seq<(Candidate, Reason)> {
    if found == [] then [] else
    var rest, c := RejectedAmong(found[..|found| - 1], driver, arches), found[|found| - 1];
    if Rejection(c, driver, arches).Some? then rest + [(c, Rejection(c, driver, arches).value)] else rest
  }

  /** The first of the highest ranked. */
  ghost predicate IsBest(best: Candidate, usable: seq<Candidate>) {
    exists i :: 0 <= i < |usable| && usable[i] == best
      && (forall j :: 0 <= j < |usable| ==> VersionLe(Rank(usable[j]), Rank(best)))
      && (forall j :: 0 <= j < i ==> !VersionLe(Rank(best), Rank(usable[j])))
  }

  /** `choose` as a function: the first maximum of the usable candidates. */
  function Best(usable: seq<Candidate>): (best: Candidate)
    requires usable != []
    ensures best in usable
    ensures forall c :: c in usable ==> VersionLe(Rank(c), Rank(best))
  {
    if |usable| == 1 then usable[0] else
    var best, last := Best(usable[..|usable| - 1]), usable[|usable| - 1];
    if VersionLe(Rank(last), Rank(best)) then best else last
  }
  function Choice(found: seq<Candidate>, driver: Option<Release>, arches: seq<nat>): Option<Candidate> {
    var usable := UsableAmong(found, driver, arches);
    if usable == [] then None else Some(Best(usable))
  }

  lemma {:induction false} UsableMeaning(found: seq<Candidate>, driver: Option<Release>, arches: seq<nat>)
    ensures forall c :: c in UsableAmong(found, driver, arches) <==> c in found && Rejection(c, driver, arches).None?
  {
    if found != [] {
      UsableMeaning(found[..|found| - 1], driver, arches);
      assert found == found[..|found| - 1] + [found[|found| - 1]];
    }
  }

  /** What is chosen is accepted and has the highest release, unknown releases last; nothing is chosen only
  when every candidate is rejected. */
  lemma ChoiceMeaning(found: seq<Candidate>, driver: Option<Release>, arches: seq<nat>)
    ensures Choice(found, driver, arches).None? <==> forall c :: c in found ==> Rejection(c, driver, arches).Some?
    ensures Choice(found, driver, arches).Some? ==>
              var best := Choice(found, driver, arches).value;
              && best in found && Rejection(best, driver, arches).None?
              && (forall c :: c in found && Rejection(c, driver, arches).None? ==> VersionLe(Rank(c), Rank(best)))
              && (best.version.None? ==>
                    forall c :: c in found && Rejection(c, driver, arches).None? && Readable(c) ==> c.version.None?)
  {
    UsableMeaning(found, driver, arches);
    var usable := UsableAmong(found, driver, arches);
    if usable != [] { assert usable[0] in usable; }
  }

  /** Python's `max` with a key: the first of the highest ranked. */
  method FirstMaximum(usable: seq<Candidate>) returns (best: Candidate)
    requires usable != []
    ensures best == Best(usable) && IsBest(best, usable)
  {
    hide VersionLe, Rank, Best;
    var at := 0;
    best := usable[0];
    VersionOrder();
    BestStep([best]);
    assert usable[..1] == [best];
    for i := 1 to |usable|
      invariant 0 <= at < i && usable[at] == best && best == Best(usable[..i])
      invariant forall j :: 0 <= j < i ==> VersionLe(Rank(usable[j]), Rank(best))
      invariant forall j :: 0 <= j < at ==> !VersionLe(Rank(best), Rank(usable[j]))
    {
      assert usable[..i + 1][..i] == usable[..i];
      BestStep(usable[..i + 1]);
      if !VersionLe(Rank(usable[i]), Rank(best)) {
        best, at := usable[i], i;
      }
    }
    assert usable[..|usable|] == usable;
  }
  lemma BestStep(usable: seq<Candidate>)
    requires usable != []
    ensures var init, last := usable[..|usable| - 1], usable[|usable| - 1];
            Best(usable) == if init != [] && VersionLe(Rank(last), Rank(Best(init))) then Best(init) else last
  {}
  lemma VersionOrder()
    ensures forall a, b :: VersionLe(a, b) || VersionLe(b, a)
    ensures forall a, b, c :: VersionLe(a, b) && VersionLe(b, c) ==> VersionLe(a, c)
  {}

  /** `choose`. */
  method Choose(driver: Option<Release>, arches: seq<nat>, found: seq<Candidate>)
    returns (chosen: Option<Candidate>, rejected: seq<(Candidate, Reason)>)
    ensures chosen == Choice(found, driver, arches)
    ensures rejected == RejectedAmong(found, driver, arches)
    ensures chosen.Some? ==> IsBest(chosen.value, UsableAmong(found, driver, arches))
  {
    var usable: seq<Candidate> := [];
    rejected := [];
    for i := 0 to |found|
      invariant usable == UsableAmong(found[..i], driver, arches)
      invariant rejected == RejectedAmong(found[..i], driver, arches)
    {
      assert found[..i + 1][..i] == found[..i];
      var why := Rejection(found[i], driver, arches);
      if why.None? {
        usable := usable + [found[i]];
      } else {
        rejected := rejected + [(found[i], why.value)];
      }
    }
    assert found[..|found|] == found;
    if usable == [] {
      return None, rejected;
    }
    var best := FirstMaximum(usable);
    chosen := Some(best);
  }

  // ---------------------------------------------------------------------- advice

  /** A version specifier: `==major.minor.*`, or `>=lo,<below`. */
  datatype Spec = Pinned(release: Release) | Between(lo: Release, below: int)
  predicate Admits(s: Spec, v: Version) {
    match s
    case Pinned(r) => ReleaseOf(v) == r
    case Between(lo, below) => ReleaseLe(lo, ReleaseOf(v)) && v.major < below
  }

  /** A project on the package index and the release series it is pinned to. */
  datatype Wheel = Wheel(project: string, release: Release)
  const CU11 := "nvidia-cuda-nvcc-cu11"
  const CU12 := "nvidia-cuda-nvcc-cu12"
  const UNSUFFIXED := "nvidia-cuda-nvcc"
  const WHEELS: map<int, Wheel> :=
    map[11 := Wheel(CU11, Release(11, 8)), 12 := Wheel(CU12, Release(12, 8)), 13 := Wheel(UNSUFFIXED, Release(13, 0))]
  const PINNED_WHEEL := Wheel(CU12, Release(12, 8))

  /** The releases a project holds: one major for each suffixed project, 13 and later for the renamed one. */
  predicate Publishes(project: string, v: Version) {
    (project == CU11 ==> v.major == 11) && (project == CU12 ==> v.major == 12) && (project == UNSUFFIXED ==> v.major >= 13)
  }
  lemma ProjectsDiffer()
    ensures CU11 != CU12 && CU12 != UNSUFFIXED && CU11 != UNSUFFIXED
  {
    assert |UNSUFFIXED| == 16 && |CU11| == 21 && |CU12| == 21;
    assert CU11[20] == '1' && CU12[20] == '2';
  }

  datatype Advice = Install(project: string, spec: Spec, oldDriver: bool) | NoRelease | UpdateDriver

  /** A release that following the advice can install. */
  ghost predicate Offers(a: Advice, v: Version) {
    a.Install? && Genuine(v) && Publishes(a.project, v) && Admits(a.spec, v)
  }

  function MinRelease(arch: nat): Release { if arch in ARCH_MIN_CUDA then ARCH_MIN_CUDA[arch] else Release(0, 0) }
  /** The latest first release, and the earliest last major, over the architectures. */
  function LatestFirst(arches: seq<nat>): Release {
    if arches == [] then Release(0, 0) else
    var rest, mine := LatestFirst(arches[1..]), MinRelease(arches[0]);
    if ReleaseLe(rest, mine) then mine else rest
  }
  function EarliestLast(arches: seq<nat>): int {
    if arches == [] then 99 else
    var rest, mine := EarliestLast(arches[1..]), LastMajor(arches[0]);
    if mine <= rest then mine else rest
  }

  /** `install_advice`. */
  function InstallAdvice(driver: Option<Release>, arches: seq<nat>): Advice {
    if driver.None? then Install(PINNED_WHEEL.project, Pinned(PINNED_WHEEL.release), false) else
    var needed, ceiling := LatestFirst(arches), EarliestLast(arches);
    var major := if driver.value.major <= ceiling then driver.value.major else ceiling;
    if needed.major > ceiling then NoRelease
    else if needed.major > major then UpdateDriver
    else
      var wheel := if major in WHEELS then WHEELS[major] else PINNED_WHEEL;
      Install(wheel.project, if ReleaseLe(needed, wheel.release) then Pinned(wheel.release) else Between(needed, major + 1), major < 12)
  }

  ghost predicate Known(arches: seq<nat>) { forall a :: a in arches ==> a in ARCH_MIN_CUDA }

  /** The driver bound and the tables together: what a release must satisfy. */
  ghost predicate Passes(v: Version, driver: Option<Release>, arches: seq<nat>) {
    && (driver.Some? ==> v.major <= driver.value.major)
    && Needed(arches) <= TableArches(v)
  }

  predicate Genuine(v: Version) { v.major >= 0 && v.minor >= 0 }

  lemma {:induction false} FirstsMeaning(arches: seq<nat>, r: Release)
    requires r.major >= 0 && r.minor >= 0
    ensures ReleaseLe(LatestFirst(arches), r) <==> forall a :: a in arches ==> ReleaseLe(MinRelease(a), r)
  {
    if arches != [] {
      FirstsMeaning(arches[1..], r);
      assert arches == [arches[0]] + arches[1..];
    }
  }
  lemma {:induction false} LastsMeaning(arches: seq<nat>, major: int)
    ensures major <= EarliestLast(arches) <==> major <= 99 && forall a :: a in arches ==> major <= LastMajor(a)
  {
    if arches != [] {
      LastsMeaning(arches[1..], major);
      assert arches == [arches[0]] + arches[1..];
    }
  }

  /** Targeting every architecture means lying between the latest first release and the earliest last major. */
  lemma NeedsMeaning(arches: seq<nat>, v: Version)
    requires Known(arches) && Genuine(v)
    ensures Needed(arches) <= TableArches(v)
       <==> ReleaseLe(LatestFirst(arches), ReleaseOf(v)) && (arches == [] || v.major <= EarliestLast(arches))
  {
    FirstsMeaning(arches, ReleaseOf(v));
    LastsMeaning(arches, v.major);
    hide TableArches, TargetName, ReleaseLe;
    forall a ensures TargetName(a) in TableArches(v) <==> a in ARCH_MIN_CUDA && ReleaseLe(ARCH_MIN_CUDA[a], ReleaseOf(v)) && v.major <= LastMajor(a) {
      TableHas(v, a);
    }
    if Needed(arches) <= TableArches(v) {
      forall a | a in arches ensures ReleaseLe(MinRelease(a), ReleaseOf(v)) && v.major <= LastMajor(a) {
        assert TargetName(a) in Needed(arches);
      }
      if arches != [] { assert arches[0] in arches; }
    }
  }

  /** The lowest release that targets every architecture. */
  function LowestRelease(arches: seq<nat>): Version { Version(LatestFirst(arches).major, LatestFirst(arches).minor, 0) }

  lemma {:induction false} LatestFirstGenuine(arches: seq<nat>)
    ensures Genuine(LowestRelease(arches))
  {
    if arches != [] {
      LatestFirstGenuine(arches[1..]);
      FirstGenuine(arches[0]);
    }
  }
  lemma FirstGenuine(arch: nat)
    ensures MinRelease(arch).major >= 0 && MinRelease(arch).minor >= 0
  {}

  /** An advice to give up is given exactly when no release passes: "no release" when none would on any driver,
  "update the driver" when one would but none does on this one. */
  lemma RefusalsExact(driver: Release, arches: seq<nat>)
    requires Known(arches) && driver.major >= 0
    ensures var advice := InstallAdvice(Some(driver), arches);
            var covered := exists v :: Genuine(v) && Passes(v, None, arches);
            var covered' := exists v :: Genuine(v) && Passes(v, Some(driver), arches);
            && (advice.NoRelease? <==> !covered)
            && (advice.UpdateDriver? <==> covered && !covered')
            && (advice.Install? <==> covered')
  {
    hide Needed, TableArches;
    var advice, lowest := InstallAdvice(Some(driver), arches), LowestRelease(arches);
    LatestFirstGenuine(arches);
    NeedsMeaning(arches, lowest);
    if advice.NoRelease? {
      forall v | Genuine(v) ensures !Passes(v, None, arches) { NeedsMeaning(arches, v); }
    } else {
      assert Passes(lowest, None, arches);
    }
    if advice.Install? {
      assert Passes(lowest, Some(driver), arches);
    } else {
      forall v | Genuine(v) ensures !Passes(v, Some(driver), arches) { NeedsMeaning(arches, v); }
    }
  }

  /** The advice can be followed and whatever it installs passes. */
  ghost predicate Sound(advice: Advice, driver: Option<Release>, arches: seq<nat>) {
    && (exists v :: Offers(advice, v))
    && (forall v :: Offers(advice, v) ==> Passes(v, driver, arches))
  }

  /** Architectures that appeared by the last release with a project of its own major, 12. */
  ghost predicate Before13(arches: seq<nat>) { forall a :: a in arches ==> MinRelease(a).major < 13 }

  lemma Before13Means(arches: seq<nat>)
    ensures LatestFirst(arches).major < 13 <==> Before13(arches)
    ensures ReleaseLe(LatestFirst(arches), Release(13, 0))
  {
    FirstsMeaning(arches, Release(12, 9));
    FirstsMeaning(arches, Release(13, 0));
    forall a ensures ReleaseLe(MinRelease(a), Release(13, 0)) && (MinRelease(a).major < 13 ==> ReleaseLe(MinRelease(a), Release(12, 9))) {
      FirstsByTable(a);
    }
  }
  lemma FirstsByTable(a: nat)
    ensures ReleaseLe(MinRelease(a), Release(13, 0))
    ensures MinRelease(a).major < 13 ==> ReleaseLe(MinRelease(a), Release(12, 9))
    ensures MinRelease(a).major < 12 ==> ReleaseLe(MinRelease(a), Release(11, 8))
  {}
  lemma LatestByTable(arches: seq<nat>)
    ensures LatestFirst(arches).major < 12 ==> ReleaseLe(LatestFirst(arches), Release(11, 8))
    ensures LatestFirst(arches).major < 13 ==> ReleaseLe(LatestFirst(arches), Release(12, 9))
  {
    if arches != [] {
      LatestByTable(arches[1..]);
      FirstsByTable(arches[0]);
    }
  }

  /** The acceptance rule in terms of releases and targets: the driver bound, and what the tables or the help text
  list covering the needs, an empty list being no objection. */
  lemma AcceptanceMeans(c: Candidate, driver: Option<Release>, arches: seq<nat>)
    ensures c.version.Some? && c.IsBuiltin() && TableArches(c.version.value) != {} ==>
              (Rejection(c, driver, arches).None? <==> Passes(c.version.value, driver, arches))
    ensures c.version.Some? && !c.IsBuiltin() && c.help != {} ==>
              (Rejection(c, driver, arches).None? <==>
                 (driver.None? || c.version.value.major <= driver.value.major) && Needed(arches) <= c.help)
    ensures c.version.Some? && (if c.IsBuiltin() then TableArches(c.version.value) else c.help) == {} ==>
              (Rejection(c, driver, arches).None? <==> driver.None? || c.version.value.major <= driver.value.major)
    ensures c.version.None? ==> (Rejection(c, driver, arches).None? <==> c.source.BuiltIn?)
  {
    hide TableArches, Needed;
    if c.version.Some? {
      var needed, supported := Needed(arches), Supported(c);
      if needed - supported == {} {
        forall t | t in needed ensures t in supported { assert t !in needed - supported; }
      }
    }
  }

  /** Why a candidate is turned down. */
  lemma ReasonsMean(c: Candidate, driver: Option<Release>, arches: seq<nat>)
    requires c.version.Some?
    ensures Rejection(c, driver, arches) == Some(TooNew) <==> driver.Some? && c.version.value.major > driver.value.major
    ensures Rejection(c, driver, arches).Some? && Rejection(c, driver, arches).value.TooOld? ==>
              var missing := Rejection(c, driver, arches).value.missing;
              missing != {} && forall t :: t in missing <==> t in Needed(arches) && t !in Supported(c)
  {
    hide TableArches, Needed;
  }

  /** An assembler installed on a sound advice, whose help covers the needs, is accepted. */
  lemma AdviceIsAccepted(c: Candidate, driver: Option<Release>, arches: seq<nat>)
    requires Sound(InstallAdvice(driver, arches), driver, arches)
    requires c.version.Some? && Offers(InstallAdvice(driver, arches), c.version.value)
    requires c.IsBuiltin() || c.help == {} || Needed(arches) <= c.help
    ensures Rejection(c, driver, arches).None?
  {
    assert Passes(c.version.value, driver, arches);
    hide InstallAdvice, TableArches, Needed, Offers;
    AcceptanceMeans(c, driver, arches);
  }

  /** The driver's own major is accepted, and the plain name of an architecture with an `a` form is not enough. */
  lemma AcceptedExample()
    ensures Rejection(Candidate("/usr/bin/ptxas", Discovered("PATH"), Some(Version(12, 8, 93)), {Target(90, true)}),
                      Some(Release(12, 8)), [90]).None?
    ensures Rejection(Candidate("/usr/bin/ptxas", Discovered("PATH"), Some(Version(12, 8, 93)), {Target(90, false)}),
                      Some(Release(12, 8)), [90]) == Some(TooOld({Target(90, true)}))
    ensures Rejection(Candidate("/usr/bin/ptxas", Discovered("PATH"), Some(Version(13, 0, 0)), {Target(90, true)}),
                      Some(Release(12, 8)), [90]) == Some(TooNew)
  {
    forall t ensures t in Needed([90]) <==> t == Target(90, true) {
      assert 90 in [90] && TargetName(90) == Target(90, true);
    }
    assert Needed([90]) == {Target(90, true)};
    assert Target(90, true) != Target(90, false);
    assert {Target(90, true)} - {Target(90, false)} == {Target(90, true)};
    assert {Target(90, true)} - {Target(90, true)} == {};
  }

  /** Of two patches of one release the newer is chosen, wherever it stands. */
  lemma NewestExample()
    ensures var old', new' := Candidate("a", Discovered("x"), Some(Version(12, 8, 61)), {}), Candidate("b", Discovered("y"), Some(Version(12, 8, 93)), {});
            Choice([old', new'], None, []) == Some(new') && Choice([new', old'], None, []) == Some(new')
  {
    var old', new' := Candidate("a", Discovered("x"), Some(Version(12, 8, 61)), {}), Candidate("b", Discovered("y"), Some(Version(12, 8, 93)), {});
    ChoiceMeaning([old', new'], None, []);
    ChoiceMeaning([new', old'], None, []);
    assert old' in [old', new'] && new' in [old', new'] && old' in [new', old'] && new' in [new', old'];
  }

  /** CUDA 13 dropped the oldest architectures: they need a 12.x assembler, and none serves them beside one that
  needs 13. */
  lemma DroppedArchitectures()
    ensures InstallAdvice(Some(Release(13, 0)), [70]) == Install(CU12, Pinned(Release(12, 8)), false)
    ensures InstallAdvice(Some(Release(13, 0)), [70, 110]) == NoRelease
    ensures Target(70, false) in TableArches(Version(12, 9, 0)) && Target(70, false) !in TableArches(Version(13, 0, 0))
  {
    assert [70, 110][1..] == [110] && [110][1..] == [] && [70][1..] == [];
    assert LatestFirst([110]) == Release(13, 0) && EarliestLast([110]) == 99;
    assert LatestFirst([70]) == Release(9, 0) && EarliestLast([70]) == 12;
    assert LatestFirst([70, 110]) == Release(13, 0) && EarliestLast([70, 110]) == 12;
    TableHas(Version(12, 9, 0), 70);
    TableHas(Version(13, 0, 0), 70);
    assert TargetName(70) == Target(70, false);
  }

  /** The note about an old driver is added exactly below major 12. */
  lemma OldDriverNote(driver: Release, arches: seq<nat>)
    requires Known(arches) && InstallAdvice(Some(driver), arches).Install?
    ensures InstallAdvice(Some(driver), arches).oldDriver <==> driver.major < 12
  {
    LastsMeaning(arches, 12);
  }

  /** The installation advice is sound exactly when the driver is no older than the oldest wheel, CUDA 11, and
  either its major has a wheel of its own or every architecture appeared before release 13. */
  lemma AdviceSoundExactly(driver: Release, arches: seq<nat>)
    requires Known(arches) && driver.major >= 0 && InstallAdvice(Some(driver), arches).Install?
    ensures Sound(InstallAdvice(Some(driver), arches), Some(driver), arches)
       <==> driver.major >= 11 && (driver.major in WHEELS || Before13(arches))
  {
    hide Needed, TableArches, InstallAdvice;
    if driver.major < 11 {
      OldDriverAdvice(driver, arches);
    } else if driver.major !in WHEELS && !Before13(arches) {
      NewDriverAdvice(driver, arches);
    } else {
      SoundAdvice(driver, arches);
    }
  }

  /** Too old a driver: the CUDA 12 wheel is advised and nothing it installs loads. */
  lemma OldDriverAdvice(driver: Release, arches: seq<nat>)
    requires Known(arches) && 0 <= driver.major < 11 && InstallAdvice(Some(driver), arches).Install?
    ensures InstallAdvice(Some(driver), arches) == Install(CU12, Pinned(Release(12, 8)), true)
    ensures forall v :: Offers(InstallAdvice(Some(driver), arches), v) ==> !Passes(v, Some(driver), arches)
    ensures !Sound(InstallAdvice(Some(driver), arches), Some(driver), arches)
  {
    hide Needed, TableArches;
    LastsMeaning(arches, 12);
    LastsMeaning(arches, EarliestLast(arches));
  }

  /** A driver newer than every wheel with an architecture of release 13: the CUDA 12 project is asked for a
  release it does not hold. */
  lemma NewDriverAdvice(driver: Release, arches: seq<nat>)
    requires Known(arches) && driver.major > 13 && !Before13(arches) && InstallAdvice(Some(driver), arches).Install?
    ensures InstallAdvice(Some(driver), arches).project == CU12
    ensures forall v :: !Offers(InstallAdvice(Some(driver), arches), v)
  {
    Before13Means(arches);
    LastsMeaning(arches, EarliestLast(arches));
    LastsMeaning(arches, 99);
  }

  lemma SoundAdvice(driver: Release, arches: seq<nat>)
    requires Known(arches) && driver.major >= 11 && InstallAdvice(Some(driver), arches).Install?
    requires driver.major in WHEELS || Before13(arches)
    ensures Sound(InstallAdvice(Some(driver), arches), Some(driver), arches)
  {
    var advice := InstallAdvice(Some(driver), arches);
    hide Needed, TableArches;
    Before13Means(arches);
    LatestByTable(arches);
    LastsMeaning(arches, 12);
    LastsMeaning(arches, EarliestLast(arches));
    LatestFirstGenuine(arches);
    ProjectsDiffer();
    var sample := if advice.spec.Pinned? then Version(advice.spec.release.major, advice.spec.release.minor, 0) else LowestRelease(arches);
    assert Offers(advice, sample);
    forall v | Offers(advice, v) ensures Passes(v, Some(driver), arches) { NeedsMeaning(arches, v); }
  }

  /** Three calls whose advice does not serve: an old driver, a driver newer than every wheel, no driver at all. */
  lemma UnsoundAdvice()
    ensures InstallAdvice(Some(Release(10, 2)), [75]) == Install(CU12, Pinned(Release(12, 8)), true)
    ensures !Sound(InstallAdvice(Some(Release(10, 2)), [75]), Some(Release(10, 2)), [75])
    ensures InstallAdvice(Some(Release(14, 0)), [110]) == Install(CU12, Between(Release(13, 0), 15), false)
    ensures !Sound(InstallAdvice(Some(Release(14, 0)), [110]), Some(Release(14, 0)), [110])
    ensures InstallAdvice(None, [110]) == Install(CU12, Pinned(Release(12, 8)), false)
    ensures !Sound(InstallAdvice(None, [110]), None, [110])
  {
    assert LatestFirst([75]) == Release(10, 0) && EarliestLast([75]) == 99;
    assert LatestFirst([110]) == Release(13, 0) && EarliestLast([110]) == 99;
    AdviceSoundExactly(Release(10, 2), [75]);
    assert 110 in [110] && MinRelease(110).major == 13;
    AdviceSoundExactly(Release(14, 0), [110]);
    DriverlessAdvice([110]);
  }

  /** An architecture past the pinned minor release: a range is advised, and without a driver the pin does not serve. */
  lemma PastThePin()
    ensures InstallAdvice(Some(Release(12, 9)), [103]) == Install(CU12, Between(Release(12, 9), 13), false)
    ensures !Sound(InstallAdvice(None, [103]), None, [103])
  {
    assert LatestFirst([103]) == Release(12, 9) && EarliestLast([103]) == 99;
    assert 103 in [103] && !ReleaseLe(ARCH_MIN_CUDA[103], Release(12, 8));
    DriverlessAdvice([103]);
  }

  /** Without a driver the pinned wheel is advised whatever the architectures; that is sound exactly when each
  first appeared by 12.8. */
  lemma DriverlessAdvice(arches: seq<nat>)
    requires Known(arches)
    ensures InstallAdvice(None, arches) == Install(CU12, Pinned(Release(12, 8)), false)
    ensures Sound(InstallAdvice(None, arches), None, arches)
       <==> forall a :: a in arches ==> ReleaseLe(ARCH_MIN_CUDA[a], Release(12, 8))
  {
    hide Needed, TableArches;
    var sample := Version(12, 8, 0);
    ProjectsDiffer();
    assert Offers(InstallAdvice(None, arches), sample);
    FirstsMeaning(arches, Release(12, 8));
    LastsMeaning(arches, 12);
    forall v | Offers(InstallAdvice(None, arches), v)
      ensures Passes(v, None, arches) <==> forall a :: a in arches ==> ReleaseLe(ARCH_MIN_CUDA[a], Release(12, 8))
    {
      NeedsMeaning(arches, v);
    }
  }
}
