/** The version constraints of a whole registry: every required dependency has to be listed, in a
    version that satisfies its constraint. */
module VersionConstraints {
  import opened Outcomes
  import opened Trimming
  import opened DependencySort
  import opened Planner
  import VersionPolicy
  import Ordering

  /** The version listed for each id, the last one if several are. */
  function VersionsOf(states: seq<ModuleState>): (versions: map<string, string>)
    ensures forall id :: id in versions <==> exists s :: s in states && s.id == id
    ensures forall id :: id in versions ==>
              exists k :: IsLastOf(states, id, k) && versions[id] == states[k].metadata.version
  {
    if states == [] then map[]
    else
      var last := states[|states| - 1];
      assert states == states[..|states| - 1] + [last];
      assert IsLastOf(states, last.id, |states| - 1);
      assert forall id, k :: IsLastOf(states[..|states| - 1], id, k) && id != last.id ==> IsLastOf(states, id, k);
      VersionsOf(states[..|states| - 1])[last.id := last.metadata.version]
  }

  ghost predicate IsLastOf(states: seq<ModuleState>, id: string, k: int) {
    0 <= k < |states| && states[k].id == id && forall j :: k < j < |states| ==> states[j].id != id
  }

  predicate VersionFits(version: string, constraint: string) {
    TrimSpace(constraint) == "" || VersionPolicy.Satisfies(version, constraint) == Ok(true)
  }

  predicate DependencyHolds(versions: map<string, string>, d: Dependency) {
    d.required ==> d.id in versions && VersionFits(versions[d.id], d.versionConstraint)
  }

  ghost predicate ConstraintsHold(states: seq<ModuleState>) {
    forall s, d :: s in states && d in s.metadata.dependencies ==> DependencyHolds(VersionsOf(states), d)
  }

  method DependencyVersionErrors(state: ModuleState, versions: map<string, string>)
    returns (errs: seq<(string, string)>)
    ensures forall e :: e in errs <==>
            exists d :: d in state.metadata.dependencies && !DependencyHolds(versions, d) && e == (state.id, d.id)
  {
    hide VersionPolicy.Satisfies, TrimSpace;
    errs := [];
    var dependencies := state.metadata.dependencies;
    for i := 0 to |dependencies|
      invariant forall e :: e in errs <==>
                exists k ::
                  0 <= k < i && !DependencyHolds(versions, dependencies[k]) && e == (state.id, dependencies[k].id)
    {
      var d := dependencies[i];
      if !d.required {
        continue;
      }
      if d.id !in versions {
        errs := errs + [(state.id, d.id)];
        continue;
      }
      if TrimSpace(d.versionConstraint) == "" {
        continue;
      }
      var ok := VersionPolicy.VersionSatisfies(versions[d.id], d.versionConstraint);
      if ok != Ok(true) {
        errs := errs + [(state.id, d.id)];
      }
    }
  }

  /** No error exactly when every constraint holds; otherwise the errors name the modules and the
      dependencies that fail. */
  method ValidateVersionConstraints(states: seq<ModuleState>) returns (errs: seq<(string, string)>)
    ensures errs == [] <==> ConstraintsHold(states)
    ensures forall e :: e in errs <==>
              exists s, d ::
                s in states && d in s.metadata.dependencies && !DependencyHolds(VersionsOf(states), d)
                  && e == (s.id, d.id)
  {
    hide DependencyHolds;
    var versions: map<string, string> := map[];
    for i := 0 to |states|
      invariant versions == VersionsOf(states[..i])
    {
      assert states[..i + 1][..i] == states[..i];
      versions := versions[states[i].id := states[i].metadata.version];
    }
    assert states[..|states|] == states;
    errs := [];
    for i := 0 to |states|
      invariant forall e :: e in errs <==>
                  exists k, d ::
                    0 <= k < i && d in states[k].metadata.dependencies && !DependencyHolds(versions, d)
                      && e == (states[k].id, d.id)
    {
      var more := DependencyVersionErrors(states[i], versions);
      errs := errs + more;
    }
    if !ConstraintsHold(states) {
      ghost var s, d :| s in states && d in s.metadata.dependencies && !DependencyHolds(versions, d);
      assert (s.id, d.id) in errs;
    }
    if errs != [] { assert errs[0] in errs; }
  }

  // --- what it means -----------------------------------------------------------------------------------------

  /** The required dependency is met by a listed module whose version fits every part of the constraint. */
  ghost predicate Met(states: seq<ModuleState>, d: Dependency) {
    exists t :: t in states && t.id == d.id && VersionPolicy.FitsAll(t.metadata.version, d.versionConstraint)
  }

  lemma VersionFitsMeaning(version: string, constraint: string)
    ensures VersionFits(version, constraint) <==> VersionPolicy.FitsAll(version, constraint)
  {
    hide TrimSpace, VersionPolicy.Satisfies, IsTrimOf;
    TrimSpaceMeaning(constraint, "");
    VersionPolicy.SatisfiesMeaning(version, constraint);
  }

  const StateId: ModuleState -> string := (s: ModuleState) => s.id

  lemma {:induction false} ListedVersion(states: seq<ModuleState>, t: ModuleState)
    requires Ordering.DistinctKeys(states, StateId) && t in states
    ensures t.id in VersionsOf(states) && VersionsOf(states)[t.id] == t.metadata.version
  {
    var front, last := states[..|states| - 1], states[|states| - 1];
    assert states == front + [last];
    if t != last {
      var i :| 0 <= i < |front| && front[i] == t;
      assert StateId(states[i]) != StateId(states[|states| - 1]);
      ListedVersion(front, t);
    }
  }

  /** With distinct ids the constraints hold exactly if each required dependency is met by a listed
      module of that id, whose version satisfies the constraint. */
  lemma ConstraintsMeanMet(states: seq<ModuleState>)
    requires Ordering.DistinctKeys(states, StateId)
    ensures ConstraintsHold(states) <==>
            forall s, d :: s in states && d in s.metadata.dependencies && d.required ==> Met(states, d)
  {
    hide VersionFits, VersionsOf;
    forall d: Dependency | d.required ensures DependencyHolds(VersionsOf(states), d) <==> Met(states, d) {
      DependencyIsMet(states, d);
    }
    assert forall d: Dependency :: !d.required ==> DependencyHolds(VersionsOf(states), d);
    hide DependencyHolds, Met;
  }

  lemma DependencyIsMet(states: seq<ModuleState>, d: Dependency)
    requires Ordering.DistinctKeys(states, StateId) && d.required
    ensures DependencyHolds(VersionsOf(states), d) <==> Met(states, d)
  {
    hide VersionFits, VersionPolicy.FitsAll;
    forall t | t in states ensures VersionFits(t.metadata.version, d.versionConstraint) <==>
                                   VersionPolicy.FitsAll(t.metadata.version, d.versionConstraint)
    {
      VersionFitsMeaning(t.metadata.version, d.versionConstraint);
    }
    if t :| t in states && t.id == d.id {
      ListedVersion(states, t);
      forall u | u in states && u.id == d.id ensures VersionsOf(states)[d.id] == u.metadata.version {
        ListedVersion(states, u);
      }
    }
  }
}
