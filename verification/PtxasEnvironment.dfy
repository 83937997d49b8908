/** The two environment variables that carry the assembler choice, through imports, registration checks and
child processes. */
module PtxasEnvironment {
  import opened Outcomes
  import opened PtxasRules

  const BUILTIN_MARK := "<max built-in>"

  /** The compiler path variable and the record of our own choice; a process also remembers a passed check. */
  datatype State = State(env: Option<string>, auto: Option<string>, checked: bool)

  /** A path in the variable that is not the recorded automatic choice. */
  function ExplicitIn(s: State): Option<string> {
    if s.env.None? || s.env.value == "" || s.env == s.auto then None else s.env
  }

  function Adopted(s: State, c: Candidate): State {
    if c.IsBuiltin() then s.(env := None, auto := Some(BUILTIN_MARK)) else s.(env := Some(c.path), auto := Some(c.path))
  }

  /** What MAX assembles with: the built-in compiler when the variable is absent. */
  predicate InForce(s: State, c: Candidate) { if c.IsBuiltin() then s.env.None? else s.env == Some(c.path) }

  /** One machine, as one call sees it. */
  datatype Machine = Machine(driver: Option<Release>, devices: seq<nat>, found: seq<Candidate>, wheel: Option<string>,
                             refusalOff: bool)

  datatype Outcome = NothingToPick | Kept(current: Candidate) | Selected(chosen: Candidate) | Warned | Raised

  function CurrentSetting(found: seq<Candidate>): Option<Candidate> {
    if found == [] then None
    else if found[0].source.EnvironmentVariable? then Some(found[0]) else CurrentSetting(found[1..])
  }

  /** `_check_now`: what it decides. */
  function Decide(s: State, m: Machine): Outcome {
    if m.driver.None? || m.devices == [] then NothingToPick else
    var refusal := if m.refusalOff then Warned else Raised;
    if ExplicitIn(s).Some? then
      var current := CurrentSetting(m.found);
      if current.Some? && Rejection(current.value, m.driver, m.devices).None? then Kept(current.value) else refusal
    else
      var chosen := Choice(m.found, m.driver, m.devices);
      if chosen.Some? then Selected(chosen.value) else refusal
  }

  class Process {
    var env: Option<string>
    var auto: Option<string>
    var checked: bool

    ghost function Now(): State
      reads this
    { State(env, auto, checked) }

    /** A process starts from the environment it inherits, with nothing checked. */
    constructor (env: Option<string>, auto: Option<string>)
      ensures Now() == State(env, auto, false)
    {
      this.env, this.auto, checked := env, auto, false;
    }

    function ExplicitChoice(): (r: Option<string>)
      reads this
      ensures r == ExplicitIn(Now())
    {
      ExplicitIn(State(env, auto, checked))
    }

    method Adopt(path: string)
      modifies this
      ensures Now() == old(Now()).(env := Some(path), auto := Some(path))
    {
      env, auto := Some(path), Some(path);
    }

    method AdoptBuiltin()
      modifies this
      ensures Now() == old(Now()).(env := None, auto := Some(BUILTIN_MARK))
    {
      env, auto := None, Some(BUILTIN_MARK);
    }

    method AdoptCandidate(c: Candidate)
      modifies this
      ensures Now() == Adopted(old(Now()), c)
    {
      if c.IsBuiltin() { AdoptBuiltin(); } else { Adopt(c.path); }
    }

    /** `apply_default`, at import: the driver's bound only, no architectures. */
    method ApplyDefault(m: Machine)
      modifies this
      ensures Now() == AfterImport(old(Now()), m)
    {
      if ExplicitChoice().Some? {
        return;
      }
      if m.driver.None? {
        if m.wheel.Some? {
          Adopt(m.wheel.value);
        }
        return;
      }
      var chosen, _ := Choose(m.driver, [], m.found);
      if chosen.Some? {
        AdoptCandidate(chosen.value);
      }
    }

    /** `_check_now`, at device registration. */
    method CheckNow(m: Machine) returns (r: Outcome)
      modifies this
      ensures r == Decide(old(Now()), m)
      ensures Now() == if r.Selected? then Adopted(old(Now()), r.chosen) else old(Now())
    {
      if m.driver.None? || m.devices == [] {
        return NothingToPick;
      }
      var explicit := ExplicitChoice();
      var current := CurrentSetting(m.found);
      var chosen, _ := Choose(m.driver, m.devices, m.found);
      if explicit.Some? {
        if current.Some? && Rejection(current.value, m.driver, m.devices).None? {
          return Kept(current.value);
        }
      } else if chosen.Some? {
        AdoptCandidate(chosen.value);
        return Selected(chosen.value);
      }
      if m.refusalOff {
        return Warned;
      }
      return Raised;
    }

    /** `check`: later calls do nothing once one has passed or warned; after a refusal they decide afresh. */
    method Check(m: Machine, force: bool) returns (r: Option<Outcome>)
      modifies this
      ensures (Now(), r) == AfterCheck(old(Now()), m, force)
    {
      if checked && !force {
        return None;
      }
      var outcome := CheckNow(m);
      r := Some(outcome);
      if outcome.Raised? {
        return;
      }
      checked := true;
    }
  }

  function AfterImport(s: State, m: Machine): State {
    if ExplicitIn(s).Some? then s
    else if m.driver.None? then (if m.wheel.Some? then s.(env := m.wheel, auto := m.wheel) else s)
    else
      var chosen := Choice(m.found, m.driver, []);
      if chosen.Some? then Adopted(s, chosen.value) else s
  }
  function AfterCheck(s: State, m: Machine, force: bool): (State, Option<Outcome>) {
    if s.checked && !force then (s, None) else
    var r := Decide(s, m);
    var after := if r.Selected? then Adopted(s, r.chosen) else s;
    (if r.Raised? then after else after.(checked := true), Some(r))
  }

  // ------------------------------------------------------------------------ runs

  /** What can happen along a line of processes: an import, a check, or carrying on in a child that inherits
  the environment. */
  datatype Step = Import(machine: Machine) | Checked(machine: Machine, force: bool) | Child

  function After(s: State, step: Step): State {
    match step
    case Import(m) => AfterImport(s, m)
    case Checked(m, force) => AfterCheck(s, m, force).0
    case Child => s.(checked := false)
  }
  function Run(s: State, steps: seq<Step>): State {
    if steps == [] then s else After(Run(s, steps[..|steps| - 1]), steps[|steps| - 1])
  }

  /** A path of the user's own is never changed, nor is the record beside it, over any run. */
  lemma {:induction false} UserChoiceStands(s: State, steps: seq<Step>)
    requires ExplicitIn(s).Some?
    ensures Run(s, steps).env == s.env && Run(s, steps).auto == s.auto
    ensures ExplicitIn(Run(s, steps)) == ExplicitIn(s)
  {
    if steps != [] { UserChoiceStands(s, steps[..|steps| - 1]); }
  }

  /** Starting without one, no state of any run looks like a choice of the user's. */
  lemma {:induction false} NeverMistakenForUser(s: State, steps: seq<Step>)
    requires ExplicitIn(s).None?
    ensures ExplicitIn(Run(s, steps)).None?
  {
    if steps != [] { NeverMistakenForUser(s, steps[..|steps| - 1]); }
  }

  /** The accepted candidate of highest release, unknown releases last. */
  ghost predicate BestOf(c: Candidate, m: Machine) {
    && c in m.found && Rejection(c, m.driver, m.devices).None?
    && forall d :: d in m.found && Rejection(d, m.driver, m.devices).None? ==> VersionLe(Rank(d), Rank(c))
  }

  /** The setting found in the environment variable, when the rule accepts it. */
  ghost predicate AcceptedSetting(c: Candidate, m: Machine) {
    c in m.found && c.source.EnvironmentVariable? && Rejection(c, m.driver, m.devices).None?
  }

  /** Discovery lists the variable's path under the variable's name exactly as the user's choice. */
  ghost predicate SettingListed(s: State, m: Machine) {
    forall c :: c in m.found && c.source.EnvironmentVariable? ==> ExplicitIn(s) == Some(c.path)
  }

  /** Wherever in a run a check completes on an NVIDIA machine without warning, what is then in force is accepted
  by the rule: the user's own setting, left alone, or else the best candidate. A refusal leaves everything as
  it was and is met again by the next check. */
  lemma CompletedCheck(s: State, steps: seq<Step>, m: Machine, force: bool)
    requires m.driver.Some? && m.devices != []
    ensures var before := Run(s, steps);
            var (after, r) := AfterCheck(before, m, force);
            && (r.Some? && r.value.Selected? ==> ExplicitIn(before).None? && InForce(after, r.value.chosen) && BestOf(r.value.chosen, m))
            && (r.Some? && r.value.Kept? ==> ExplicitIn(before).Some? && after == before.(checked := true))
            && (r.Some? && r.value.Kept? ==> AcceptedSetting(r.value.current, m))
            && (r.Some? && r.value.Kept? && SettingListed(before, m) ==> InForce(after, r.value.current))
            && (r.Some? ==> !r.value.NothingToPick?)
            && (r.Some? && r.value.Raised? ==> after == before && AfterCheck(after, m, force) == (after, r))
            && (r.Some? && (r.value.Raised? || r.value.Warned?) && ExplicitIn(before).None? ==>
                  forall c :: c in m.found ==> Rejection(c, m.driver, m.devices).Some?)
  {
    ChoiceMeaning(m.found, m.driver, m.devices);
    SettingIsFound(m.found);
  }

  lemma {:induction false} SettingIsFound(found: seq<Candidate>)
    ensures CurrentSetting(found).Some? ==>
              CurrentSetting(found).value in found && CurrentSetting(found).value.source.EnvironmentVariable?
  {
    if found != [] && !found[0].source.EnvironmentVariable? { SettingIsFound(found[1..]); }
  }

  /** A child that inherits an automatic choice is free to select again for its own GPU, and a check in the
  child selects exactly what it would from an empty environment. */
  lemma ChildReselects(s: State, m: Machine)
    requires ExplicitIn(s).None?
    ensures var blank := State(None, None, false);
            && Decide(After(s, Child), m) == Decide(blank, m)
            && (Decide(blank, m).Selected? ==>
                  AfterCheck(After(s, Child), m, false) == AfterCheck(blank, m, false))
  {}

  /** A path counts as the user's exactly when it is set, not empty and not our own record. */
  lemma ExplicitMeans(s: State, path: string)
    ensures ExplicitIn(s) == Some(path) <==> s.env == Some(path) && path != "" && s.auto != Some(path)
  {}

  /** What an import leaves behind: a user's choice untouched; without a driver the wheel's path, if there is one;
  otherwise the best candidate the driver's bound allows, if there is one. */
  lemma ImportMeans(s: State, m: Machine)
    ensures var after := AfterImport(s, m);
            && (ExplicitIn(s).Some? ==> after == s)
            && (ExplicitIn(s).None? && m.driver.None? && m.wheel.Some? ==>
                  after == State(m.wheel, m.wheel, s.checked))
            && (ExplicitIn(s).None? && m.driver.None? && m.wheel.None? ==> after == s)
            && (ExplicitIn(s).None? && m.driver.Some? ==>
                  if forall c :: c in m.found ==> Rejection(c, m.driver, []).Some? then after == s
                  else exists c :: BestOf(c, m.(devices := [])) && InForce(after, c) && after.checked == s.checked
                                   && after.auto == Some(if c.IsBuiltin() then "<max built-in>" else c.path))
  {
    if ExplicitIn(s).None? && m.driver.Some? {
      ChoiceMeaning(m.found, m.driver, []);
      var chosen := Choice(m.found, m.driver, []);
      if chosen.Some? { assert BestOf(chosen.value, m.(devices := [])); }
    }
  }

  /** Every outcome of a check, by what the machine and the environment hold. */
  lemma OutcomesMean(s: State, m: Machine)
    ensures Decide(s, m).NothingToPick? <==> m.driver.None? || m.devices == []
    ensures m.driver.Some? && m.devices != [] ==>
              var setting := CurrentSetting(m.found);
              var usable := if ExplicitIn(s).Some? then setting.Some? && Rejection(setting.value, m.driver, m.devices).None?
                            else exists c :: c in m.found && Rejection(c, m.driver, m.devices).None?;
              && (Decide(s, m).Kept? <==> usable && ExplicitIn(s).Some?)
              && (Decide(s, m).Selected? <==> usable && ExplicitIn(s).None?)
              && (Decide(s, m).Warned? <==> !usable && m.refusalOff)
              && (Decide(s, m).Raised? <==> !usable && !m.refusalOff)
  {
    ChoiceMeaning(m.found, m.driver, m.devices);
  }

  /** An assembler of the driver's own major that covers the GPU is selected. */
  lemma SelectedExample()
    ensures var c := Candidate("/usr/bin/ptxas", Discovered("PATH"), Some(Version(12, 8, 93)), {Target(90, true)});
            Decide(State(None, None, false), Machine(Some(Release(12, 8)), [90], [c], None, false)) == Selected(c)
  {
    var c := Candidate("/usr/bin/ptxas", Discovered("PATH"), Some(Version(12, 8, 93)), {Target(90, true)});
    AcceptedExample();
    hide Rejection;
    ChoiceMeaning([c], Some(Release(12, 8)), [90]);
    assert c in [c];
  }
}
