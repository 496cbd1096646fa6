/** The registry's projections: which modules are disabled and why, and the registered,
    lifecycle and active lists. Disabling spreads along required dependencies. */
module RegistryKernel {
  import opened DependencySort
  import Ordering

  const EXPLICIT := "disabled by MODULE_DISABLED"

  function DependencyReason(dependencyId: string): string {
    "disabled because dependency " + dependencyId + " is disabled"
  }

  // --- what is promised ----------------------------------------------------------------------------

  ghost predicate Requires(source: seq<Module>, a: string, b: string) {
    exists m, d :: m in source && m.id == a && d in m.dependencies && d.required && d.id == b
  }

  /** A chain of required dependencies from the module to an explicitly disabled one. */
  ghost predicate IsDisablingChain(source: seq<Module>, disabled: set<string>, chain: seq<string>) {
    && |chain| > 0
    && (forall i :: 0 < i < |chain| ==> Requires(source, chain[i - 1], chain[i]))
    && chain[|chain| - 1] in Ids(source) && chain[|chain| - 1] in disabled
  }

  ghost predicate Unavailable(source: seq<Module>, disabled: set<string>, id: string) {
    exists chain: seq<string> :: IsDisablingChain(source, disabled, chain) && chain[0] == id
  }

  /** The reasons are those of exactly the modules that reach an explicitly disabled one. */
  ghost predicate Covers(source: seq<Module>, disabled: set<string>) {
    forall id :: id in DisabledReasons(source, disabled) <==> Unavailable(source, disabled, id)
  }

  /** No source module that is required by one with the empty id, from a third module that itself
      requires the empty id. */
  ghost predicate EmptyIdHarmless(source: seq<Module>) {
    forall a, x :: Requires(source, a, "") && Requires(source, "", x) && x in Ids(source) ==>
      a == "" || x == "" || x == a
  }

  // --- the computation as functions ------------------------------------------------------------------

  /** The id of the first required dependency that has a reason, "" if there is none. */
  function FirstDisabled(dependencies: seq<Dependency>, reasons: map<string, string>): string {
    if dependencies == [] then ""
    else if dependencies[0].required && dependencies[0].id in reasons then dependencies[0].id
    else FirstDisabled(dependencies[1..], reasons)
  }

  function Explain(m: Module, reasons: map<string, string>): map<string, string> {
    if m.id in reasons || FirstDisabled(m.dependencies, reasons) == "" then reasons
    else reasons[m.id := DependencyReason(FirstDisabled(m.dependencies, reasons))]
  }

  function Pass(source: seq<Module>, reasons: map<string, string>): map<string, string> {
    if source == [] then reasons else Pass(source[1..], Explain(source[0], reasons))
  }

  function SourceIds(source: seq<Module>): set<string> {
    set m | m in source :: m.id
  }

  lemma ExplainGrows(m: Module, reasons: map<string, string>)
    ensures var next := Explain(m, reasons);
      && reasons.Keys <= next.Keys <= reasons.Keys + {m.id}
      && (forall id :: id in reasons ==> next[id] == reasons[id])
      && (next.Keys == reasons.Keys ==> next == reasons)
  {
    hide FirstDisabled, DependencyReason;
  }

  lemma {:induction false} PassGrows(source: seq<Module>, reasons: map<string, string>)
    ensures reasons.Keys <= Pass(source, reasons).Keys <= reasons.Keys + SourceIds(source)
    ensures forall id :: id in reasons ==> Pass(source, reasons)[id] == reasons[id]
    ensures Pass(source, reasons) != reasons <==> Pass(source, reasons).Keys != reasons.Keys
  {
    hide Explain;
    if source != [] {
      ExplainGrows(source[0], reasons);
      PassGrows(source[1..], Explain(source[0], reasons));
      assert source == [source[0]] + source[1..];
    }
    if Pass(source, reasons).Keys == reasons.Keys { assert Pass(source, reasons) == reasons; }
  }

  function Fixpoint(source: seq<Module>, reasons: map<string, string>): map<string, string>
    decreases |SourceIds(source) - reasons.Keys|
  {
    var next := Pass(source, reasons);
    if next == reasons then reasons
    else
      assert |SourceIds(source) - next.Keys| < |SourceIds(source) - reasons.Keys| by { PassShrinks(source, reasons); }
      Fixpoint(source, next)
  }

  lemma PassShrinks(source: seq<Module>, reasons: map<string, string>)
    requires Pass(source, reasons) != reasons
    ensures |SourceIds(source) - Pass(source, reasons).Keys| < |SourceIds(source) - reasons.Keys|
  {
    hide Pass, SourceIds;
    PassGrows(source, reasons);
    var smaller, larger := SourceIds(source) - Pass(source, reasons).Keys, SourceIds(source) - reasons.Keys;
    var id :| id in Pass(source, reasons).Keys && id !in reasons.Keys;
    assert id in larger && id !in smaller && smaller <= larger - {id};
    SubsetSize(smaller, larger - {id});
  }

  lemma {:induction false} SubsetSize(a: set<string>, b: set<string>)
    requires a <= b
    ensures |a| <= |b|
  {
    if a != {} {
      var x :| x in a;
      SubsetSize(a - {x}, b - {x});
    }
  }

  function ExplicitReasons(source: seq<Module>, disabled: set<string>): map<string, string> {
    map id | id in SourceIds(source) && id in disabled :: EXPLICIT
  }

  function DisabledReasons(source: seq<Module>, disabled: set<string>): map<string, string> {
    Fixpoint(source, ExplicitReasons(source, disabled))
  }

  // --- it is the least fixpoint ------------------------------------------------------------------------

  ghost predicate Sound(source: seq<Module>, disabled: set<string>, reasons: map<string, string>) {
    forall id :: id in reasons ==> Unavailable(source, disabled, id)
  }

  /** A reason that is not explicit was spread by another module with a reason. */
  ghost predicate Caused(source: seq<Module>, disabled: set<string>, reasons: map<string, string>, id: string) {
    id in reasons ==> id in disabled || exists x :: x != "" && x in reasons && Requires(source, id, x)
  }

  lemma {:induction false} FirstDisabledIsRequired(dependencies: seq<Dependency>, reasons: map<string, string>)
    ensures var f := FirstDisabled(dependencies, reasons);
      && (f != "" ==> f in reasons && exists d :: d in dependencies && d.required && d.id == f)
      && (f == "" ==> forall d :: d in dependencies && d.required && d.id in reasons ==>
          "" in reasons && exists e :: e in dependencies && e.required && e.id == "")
  {
    if dependencies != [] {
      FirstDisabledIsRequired(dependencies[1..], reasons);
      assert dependencies == [dependencies[0]] + dependencies[1..];
      if dependencies[0].required && dependencies[0].id in reasons {
        assert dependencies[0] in dependencies;
      }
    }
  }

  lemma ExplainIsSound(source: seq<Module>, disabled: set<string>, m: Module, reasons: map<string, string>)
    requires Sound(source, disabled, reasons) && m in source
    ensures Sound(source, disabled, Explain(m, reasons))
  {
    FirstDisabledIsRequired(m.dependencies, reasons);
    var f := FirstDisabled(m.dependencies, reasons);
    if m.id !in reasons && f != "" {
      var chain: seq<string> :| IsDisablingChain(source, disabled, chain) && chain[0] == f;
      var longer := [m.id] + chain;
      assert Requires(source, m.id, f);
      forall i | 0 < i < |longer| ensures Requires(source, longer[i - 1], longer[i]) {
        if i > 1 { assert Requires(source, chain[i - 2], chain[i - 1]); }
      }
      assert IsDisablingChain(source, disabled, longer) && longer[0] == m.id;
    }
  }

  lemma {:induction false} PassIsSound(source: seq<Module>, disabled: set<string>, rest: seq<Module>,
                                       reasons: map<string, string>)
    requires Sound(source, disabled, reasons) && forall m :: m in rest ==> m in source
    ensures Sound(source, disabled, Pass(rest, reasons))
  {
    if rest != [] {
      ExplainIsSound(source, disabled, rest[0], reasons);
      PassIsSound(source, disabled, rest[1..], Explain(rest[0], reasons));
    }
  }

  lemma ExplainKeepsCauses(source: seq<Module>, disabled: set<string>, m: Module, reasons: map<string, string>,
                           id: string)
    requires Caused(source, disabled, reasons, id) && m in source
    ensures Caused(source, disabled, Explain(m, reasons), id)
  {
    hide FirstDisabled, DependencyReason, Requires;
    FirstDisabledIsRequired(m.dependencies, reasons);
    var f := FirstDisabled(m.dependencies, reasons);
    if m.id !in reasons && f != "" {
      RequiresOf(source, m, f);
    }
  }

  lemma RequiresOf(source: seq<Module>, m: Module, b: string)
    requires m in source && exists d :: d in m.dependencies && d.required && d.id == b
    ensures Requires(source, m.id, b)
  {
  }

  lemma {:induction false} PassKeepsCauses(source: seq<Module>, disabled: set<string>, rest: seq<Module>,
                                           reasons: map<string, string>, id: string)
    requires Caused(source, disabled, reasons, id) && forall m :: m in rest ==> m in source
    ensures Caused(source, disabled, Pass(rest, reasons), id)
  {
    hide Explain, Caused;
    if rest != [] {
      ExplainKeepsCauses(source, disabled, rest[0], reasons, id);
      PassKeepsCauses(source, disabled, rest[1..], Explain(rest[0], reasons), id);
    }
  }

  lemma {:induction false} FixpointKeepsCauses(source: seq<Module>, disabled: set<string>, reasons: map<string, string>,
                                               id: string)
    requires Caused(source, disabled, reasons, id)
    ensures Caused(source, disabled, Fixpoint(source, reasons), id)
    decreases |SourceIds(source) - reasons.Keys|
  {
    hide Pass, Caused;
    var next := Pass(source, reasons);
    if next != reasons {
      PassShrinks(source, reasons);
      PassKeepsCauses(source, disabled, source, reasons, id);
      FixpointKeepsCauses(source, disabled, next, id);
    }
  }

  lemma {:induction false} IdlePass(source: seq<Module>, reasons: map<string, string>)
    requires Pass(source, reasons) == reasons
    ensures forall m :: m in source && m.id !in reasons ==> FirstDisabled(m.dependencies, reasons) == ""
  {
    if source != [] {
      PassGrows(source[1..], Explain(source[0], reasons));
      assert Explain(source[0], reasons) == reasons;
      IdlePass(source[1..], reasons);
      assert source == [source[0]] + source[1..];
    }
  }

  lemma {:induction false} FixpointIsStable(source: seq<Module>, disabled: set<string>, reasons: map<string, string>)
    requires Sound(source, disabled, reasons)
    ensures Sound(source, disabled, Fixpoint(source, reasons))
    ensures reasons.Keys <= Fixpoint(source, reasons).Keys
    ensures Pass(source, Fixpoint(source, reasons)) == Fixpoint(source, reasons)
    decreases |SourceIds(source) - reasons.Keys|
  {
    var next := Pass(source, reasons);
    if next != reasons {
      PassShrinks(source, reasons);
      PassGrows(source, reasons);
      PassIsSound(source, disabled, source, reasons);
      FixpointIsStable(source, disabled, next);
    }
  }

  lemma InitialReasonsAreSound(source: seq<Module>, disabled: set<string>)
    ensures Sound(source, disabled, ExplicitReasons(source, disabled))
  {
    forall id | id in ExplicitReasons(source, disabled) ensures Unavailable(source, disabled, id) {
      var m :| m in source && m.id == id;
      var i :| 0 <= i < |source| && source[i] == m;
      assert Ids(source)[i] == id;
      assert IsDisablingChain(source, disabled, [id]);
    }
  }

  /** A module without a reason although it requires one that has a reason. */
  ghost predicate Hides(m: Module, reasons: map<string, string>) {
    m.id !in reasons && exists d :: d in m.dependencies && d.required && d.id in reasons
  }

  /** At a fixpoint every chain is covered, unless a module hides its dependency. */
  lemma {:induction false} ChainIsExplained(source: seq<Module>, disabled: set<string>, reasons: map<string, string>,
                                            chain: seq<string>)
    requires (forall m :: m in source ==> !Hides(m, reasons)) && ExplicitReasons(source, disabled).Keys <= reasons.Keys
    requires IsDisablingChain(source, disabled, chain)
    ensures chain[0] in reasons
    decreases |chain|
  {
    if |chain| == 1 {
      ListedIds(source, chain[0]);
      assert chain[0] in ExplicitReasons(source, disabled);
    } else {
      var rest := chain[1..];
      forall i | 0 < i < |rest| ensures Requires(source, rest[i - 1], rest[i]) {
        assert Requires(source, chain[i], chain[i + 1]);
      }
      ChainIsExplained(source, disabled, reasons, rest);
      assert Requires(source, chain[0], chain[1]);
      var m, d :| m in source && m.id == chain[0] && d in m.dependencies && d.required && d.id == chain[1];
      assert !Hides(m, reasons);
    }
  }

  lemma ListedIds(source: seq<Module>, id: string)
    ensures id in Ids(source) <==> id in SourceIds(source)
  {
    if id in Ids(source) {
      var i :| 0 <= i < |source| && Ids(source)[i] == id;
      assert source[i] in source;
    }
    if id in SourceIds(source) {
      var m :| m in source && m.id == id;
      var i :| 0 <= i < |source| && source[i] == m;
      assert Ids(source)[i] == id;
    }
  }

  lemma {:induction false} FixpointKeysAreSourceIds(source: seq<Module>, reasons: map<string, string>)
    requires reasons.Keys <= SourceIds(source)
    ensures Fixpoint(source, reasons).Keys <= SourceIds(source)
    decreases |SourceIds(source) - reasons.Keys|
  {
    if Pass(source, reasons) != reasons {
      PassShrinks(source, reasons);
      PassGrows(source, reasons);
      FixpointKeysAreSourceIds(source, Pass(source, reasons));
    }
  }

  /** What the fixpoint computes, for every source and every disabled set: a hidden dependency is
      exactly what keeps the reasons from covering the unavailable modules. */
  lemma CoversIffNothingHidden(source: seq<Module>, disabled: set<string>)
    ensures Covers(source, disabled) <==> forall m :: m in source ==> !Hides(m, DisabledReasons(source, disabled))
  {
    hide Unavailable, IsDisablingChain, Fixpoint, Pass, ExplicitReasons, Hides;
    var reasons := DisabledReasons(source, disabled);
    InitialReasonsAreSound(source, disabled);
    FixpointIsStable(source, disabled, ExplicitReasons(source, disabled));
    if forall m :: m in source ==> !Hides(m, reasons) {
      forall id | Unavailable(source, disabled, id) ensures id in reasons {
        UnavailableIsExplained(source, disabled, reasons, id);
      }
    }
    if m :| m in source && Hides(m, reasons) {
      HiddenIsUnavailable(source, disabled, reasons, m);
    }
  }

  lemma UnavailableIsExplained(source: seq<Module>, disabled: set<string>, reasons: map<string, string>, id: string)
    requires (forall m :: m in source ==> !Hides(m, reasons)) && ExplicitReasons(source, disabled).Keys <= reasons.Keys
    requires Unavailable(source, disabled, id)
    ensures id in reasons
  {
    var chain: seq<string> :| IsDisablingChain(source, disabled, chain) && chain[0] == id;
    ChainIsExplained(source, disabled, reasons, chain);
  }

  lemma HiddenIsUnavailable(source: seq<Module>, disabled: set<string>, reasons: map<string, string>, m: Module)
    requires Sound(source, disabled, reasons) && m in source && Hides(m, reasons)
    ensures m.id !in reasons && Unavailable(source, disabled, m.id)
  {
    hide Unavailable;
    var d :| d in m.dependencies && d.required && d.id in reasons;
    assert Requires(source, m.id, d.id);
    UnavailabilitySpreads(source, disabled, m.id, d.id);
  }

  /** A module that hides a dependency does so behind the empty id. */
  lemma OnlyTheEmptyIdHides(source: seq<Module>, reasons: map<string, string>, m: Module)
    requires Pass(source, reasons) == reasons && m in source && Hides(m, reasons)
    ensures "" in reasons && Requires(source, m.id, "")
  {
    IdlePass(source, reasons);
    FirstDisabledIsRequired(m.dependencies, reasons);
  }

  /** The empty id, which no disabled set names, can have been spread to; if it is harmless, the
      modules with a reason are exactly those that reach an explicitly disabled one. */
  lemma ReasonsCoverUnavailable(source: seq<Module>, disabled: set<string>)
    requires "" !in disabled && EmptyIdHarmless(source)
    ensures Covers(source, disabled)
  {
    hide Unavailable, Fixpoint, Pass, ExplicitReasons, Hides, Requires;
    CoversIffNothingHidden(source, disabled);
    var reasons := DisabledReasons(source, disabled);
    InitialReasonsAreSound(source, disabled);
    FixpointIsStable(source, disabled, ExplicitReasons(source, disabled));
    ExplicitReasonsAreCaused(source, disabled);
    FixpointKeepsCauses(source, disabled, ExplicitReasons(source, disabled), "");
    FixpointKeysAreSourceIds(source, ExplicitReasons(source, disabled));
    forall m | m in source ensures !Hides(m, reasons) {
      if Hides(m, reasons) {
        NothingHidden(source, disabled, reasons, m);
      }
    }
  }

  lemma ExplicitReasonsAreCaused(source: seq<Module>, disabled: set<string>)
    ensures ExplicitReasons(source, disabled).Keys <= SourceIds(source)
    ensures forall id :: Caused(source, disabled, ExplicitReasons(source, disabled), id)
  {
  }

  lemma NothingHidden(source: seq<Module>, disabled: set<string>, reasons: map<string, string>, m: Module)
    requires "" !in disabled && EmptyIdHarmless(source) && Caused(source, disabled, reasons, "")
    requires Pass(source, reasons) == reasons && reasons.Keys <= SourceIds(source) && m in source
    ensures !Hides(m, reasons)
  {
    hide Pass, Requires, SourceIds;
    if Hides(m, reasons) {
      OnlyTheEmptyIdHides(source, reasons, m);
      var x :| x != "" && x in reasons && Requires(source, "", x);
      ListedIds(source, x);
      assert false;
    }
  }

  // --- the code ------------------------------------------------------------------------------------------

  /** The reason map that the propagation passes update in place. */
  class ReasonTable {
    var reasons: map<string, string>

    constructor (source: seq<Module>, disabled: set<string>)
      ensures reasons == ExplicitReasons(source, disabled)
    {
      reasons := map[];
      new;
      for i := 0 to |source|
        invariant reasons == ExplicitReasons(source[..i], disabled)
      {
        assert source[..i + 1] == source[..i] + [source[i]];
        assert SourceIds(source[..i + 1]) == SourceIds(source[..i]) + {source[i].id};
        if source[i].id in disabled {
          reasons := reasons[source[i].id := EXPLICIT];
        }
      }
      assert source[..|source|] == source;
    }

    method FirstDisabledDependency(m: Module) returns (id: string)
      ensures id == FirstDisabled(m.dependencies, reasons)
    {
      for i := 0 to |m.dependencies|
        invariant FirstDisabled(m.dependencies, reasons) == FirstDisabled(m.dependencies[i..], reasons)
      {
        assert m.dependencies[i..][1..] == m.dependencies[i + 1..];
        if m.dependencies[i].required && m.dependencies[i].id in reasons {
          return m.dependencies[i].id;
        }
      }
      return "";
    }

    method PropagateDependencyReasons(source: seq<Module>) returns (changed: bool)
      modifies this
      ensures reasons == Pass(source, old(reasons))
      ensures changed <==> reasons != old(reasons)
    {
      changed := false;
      for i := 0 to |source|
        invariant Pass(source, old(reasons)) == Pass(source[i..], reasons)
        invariant old(reasons).Keys <= reasons.Keys
        invariant changed <==> reasons.Keys != old(reasons).Keys
        invariant !changed ==> reasons == old(reasons)
      {
        assert source[i..][1..] == source[i + 1..];
        if source[i].id in reasons {
          continue;
        }
        var dependencyId := FirstDisabledDependency(source[i]);
        if dependencyId != "" {
          reasons := reasons[source[i].id := DependencyReason(dependencyId)];
          changed := true;
          assert source[i].id in reasons.Keys && source[i].id !in old(reasons).Keys;
        }
      }
    }
  }

  /** Repeats passes until one changes nothing: at most one more than there are distinct ids. */
  method PropagateDisabledReasons(source: seq<Module>, disabled: set<string>)
    returns (reasons: map<string, string>, ghost passes: nat)
    ensures reasons == DisabledReasons(source, disabled)
    ensures passes <= |SourceIds(source)| + 1
  {
    var table := new ReasonTable(source, disabled);
    passes := 0;
    var changed := true;
    while changed
      invariant changed ==> Fixpoint(source, table.reasons) == DisabledReasons(source, disabled)
      invariant !changed ==> table.reasons == DisabledReasons(source, disabled)
      invariant passes + |SourceIds(source) - table.reasons.Keys| <= |SourceIds(source)| + if changed then 0 else 1
      decreases changed, |SourceIds(source) - table.reasons.Keys|
    {
      ghost var before := table.reasons;
      changed := table.PropagateDependencyReasons(source);
      passes := passes + 1;
      if changed { PassShrinks(source, before); }
    }
    reasons := table.reasons;
  }

  // --- the texts of the reasons --------------------------------------------------------------------------

  /** Disabled by name, or by a required dependency that is disabled itself. */
  ghost predicate IsReason(source: seq<Module>, disabled: set<string>, id: string, text: string) {
    if id in disabled then text == "disabled by MODULE_DISABLED"
    else exists d :: d in DisabledReasons(source, disabled) && Requires(source, id, d)
                     && text == "disabled because dependency " + d + " is disabled"
  }

  ghost predicate IsReasonIn(source: seq<Module>, disabled: set<string>, reasons: map<string, string>, id: string) {
    && id in reasons
    && if id in disabled then reasons[id] == "disabled by MODULE_DISABLED"
       else exists d :: d in reasons && Requires(source, id, d)
                        && reasons[id] == "disabled because dependency " + d + " is disabled"
  }

  ghost predicate AreReasons(source: seq<Module>, disabled: set<string>, reasons: map<string, string>) {
    && (forall id :: id in reasons ==> IsReasonIn(source, disabled, reasons, id))
    && (forall m :: m in source && m.id in disabled ==> m.id in reasons)
  }

  lemma ExplainKeepsReasons(source: seq<Module>, disabled: set<string>, m: Module, reasons: map<string, string>)
    requires AreReasons(source, disabled, reasons) && m in source
    ensures AreReasons(source, disabled, Explain(m, reasons))
  {
    hide Requires;
    var next := Explain(m, reasons);
    var f := FirstDisabled(m.dependencies, reasons);
    FirstDisabledIsRequired(m.dependencies, reasons);
    forall id | id in next ensures IsReasonIn(source, disabled, next, id) {
      if id in reasons {
        assert next[id] == reasons[id] && IsReasonIn(source, disabled, reasons, id);
      } else {
        RequiresItsDependency(source, m, f);
      }
    }
  }

  lemma RequiresItsDependency(source: seq<Module>, m: Module, f: string)
    requires m in source && exists d :: d in m.dependencies && d.required && d.id == f
    ensures Requires(source, m.id, f)
  {
  }

  lemma {:induction false} PassKeepsReasons(source: seq<Module>, disabled: set<string>, rest: seq<Module>,
                                            reasons: map<string, string>)
    requires AreReasons(source, disabled, reasons) && forall m :: m in rest ==> m in source
    ensures AreReasons(source, disabled, Pass(rest, reasons))
  {
    hide AreReasons;
    if rest != [] {
      ExplainKeepsReasons(source, disabled, rest[0], reasons);
      PassKeepsReasons(source, disabled, rest[1..], Explain(rest[0], reasons));
    }
  }

  lemma {:induction false} FixpointKeepsReasons(source: seq<Module>, disabled: set<string>,
                                                reasons: map<string, string>)
    requires AreReasons(source, disabled, reasons)
    ensures AreReasons(source, disabled, Fixpoint(source, reasons))
    decreases |SourceIds(source) - reasons.Keys|
  {
    hide AreReasons;
    PassKeepsReasons(source, disabled, source, reasons);
    if Pass(source, reasons) != reasons {
      PassShrinks(source, reasons);
      FixpointKeepsReasons(source, disabled, Pass(source, reasons));
    }
  }

  /** A reason names what disabled the module: the configuration, or a required dependency that has a reason. */
  lemma ReasonTexts(source: seq<Module>, disabled: set<string>)
    ensures forall id :: id in DisabledReasons(source, disabled) ==>
              IsReason(source, disabled, id, DisabledReasons(source, disabled)[id])
              && DisabledReasons(source, disabled)[id] != ""
  {
    hide Fixpoint, Requires;
    assert AreReasons(source, disabled, ExplicitReasons(source, disabled));
    FixpointKeepsReasons(source, disabled, ExplicitReasons(source, disabled));
    var reasons := DisabledReasons(source, disabled);
    forall id | id in reasons ensures IsReason(source, disabled, id, reasons[id]) && reasons[id] != "" {
      assert IsReasonIn(source, disabled, reasons, id);
    }
  }

  // --- the projections -----------------------------------------------------------------------------------

  datatype Kernel = Kernel(
    source: seq<Module>,
    registered: seq<Module>,
    lifecycle: seq<Module>,
    active: seq<Module>,
    reasons: map<string, string>
  )

  /** The modules whose id is not banned, in their order. */
  function Without(modules: seq<Module>, banned: set<string>): (kept: seq<Module>)
    ensures forall m :: m in kept <==> m in modules && m.id !in banned
  {
    if modules == [] then []
    else
      var last := modules[|modules| - 1];
      assert modules == modules[..|modules| - 1] + [last];
      Without(modules[..|modules| - 1], banned) + if last.id in banned then [] else [last]
  }

  ghost function NotBanned(banned: set<string>): Module -> bool {
    (m: Module) => m.id !in banned
  }

  lemma {:induction false} WithoutMeaning(modules: seq<Module>, banned: set<string>)
    ensures Ordering.KeepsExactly(Without(modules, banned), modules, NotBanned(banned))
  {
    hide Ordering.KeepsExactly;
    if modules == [] {
      Ordering.KeepsNothing(NotBanned(banned));
    } else {
      var front, last := modules[..|modules| - 1], modules[|modules| - 1];
      WithoutMeaning(front, banned);
      Ordering.KeepsOneMore(Without(front, banned), front, NotBanned(banned), last);
      assert modules == front + [last] && Without(front, banned) + [] == Without(front, banned);
    }
  }

  method ExcludeModules(modules: seq<Module>, banned: set<string>) returns (kept: seq<Module>)
    ensures kept == Without(modules, banned)
    ensures Ordering.KeepsExactly(kept, modules, NotBanned(banned))
  {
    hide Ordering.KeepsExactly;
    WithoutMeaning(modules, banned);
    kept := [];
    for i := 0 to |modules|
      invariant kept == Without(modules[..i], banned)
    {
      assert modules[..i + 1][..i] == modules[..i];
      if modules[i].id !in banned {
        kept := kept + [modules[i]];
      }
    }
    assert modules[..|modules|] == modules;
  }

  /** Sorted if it can be, else the list as given. */
  ghost predicate SortedOrGiven(given: seq<Module>, result: seq<Module>) {
    && multiset(result) == multiset(given)
    && (if DistinctIds(given) && !HasCycle(given) then DistinctIds(result)
        && DependenciesFirst(result) else result == given)
  }

  method SortedOrOriginal(source: seq<Module>) returns (result: seq<Module>)
    ensures SortedOrGiven(source, result)
  {
    var r := SortModulesByDependencies(source);
    result := if r.Err? then source else r.value;
  }

  /** What the code builds, list by list. */
  ghost predicate KernelOf(k: Kernel, items: seq<Module>, disabled: set<string>) {
    && k.source == items
    && k.reasons == DisabledReasons(items, disabled)
    && SortedOrGiven(Without(items, disabled), k.registered)
    && SortedOrGiven(items, k.lifecycle)
    && k.active == Without(k.registered, k.reasons.Keys)
  }

  method NewRegistryKernel(items: seq<Module>, disabled: set<string>) returns (k: Kernel)
    ensures KernelOf(k, items, disabled)
  {
    var enabled := ExcludeModules(items, disabled);
    var registered := SortedOrOriginal(enabled);
    var lifecycle := SortedOrOriginal(items);
    var reasons, _ := PropagateDisabledReasons(items, disabled);
    var active := ExcludeModules(registered, reasons.Keys);
    return Kernel(items, registered, lifecycle, active, reasons);
  }

  lemma UnavailabilitySpreads(source: seq<Module>, disabled: set<string>, a: string, b: string)
    requires Requires(source, a, b) && Unavailable(source, disabled, b)
    ensures Unavailable(source, disabled, a)
  {
    var chain: seq<string> :| IsDisablingChain(source, disabled, chain) && chain[0] == b;
    var longer := [a] + chain;
    forall i | 0 < i < |longer| ensures Requires(source, longer[i - 1], longer[i]) {
      if i > 1 { assert Requires(source, chain[i - 2], chain[i - 1]); }
    }
    assert IsDisablingChain(source, disabled, longer) && longer[0] == a;
  }

  lemma ExplicitIsUnavailable(source: seq<Module>, disabled: set<string>, m: Module)
    requires m in source && m.id in disabled
    ensures Unavailable(source, disabled, m.id)
  {
    var i :| 0 <= i < |source| && source[i] == m;
    assert Ids(source)[i] == m.id;
    assert IsDisablingChain(source, disabled, [m.id]);
  }

  /** The active list is exactly the available modules, and it is closed: an active module's
      required dependencies, where they exist at all, are active too. */
  lemma ActiveIsClosed(k: Kernel, items: seq<Module>, disabled: set<string>)
    requires KernelOf(k, items, disabled) && "" !in disabled && EmptyIdHarmless(items)
    ensures forall m :: m in k.active <==> m in items && !Unavailable(items, disabled, m.id)
    ensures forall m, d :: m in k.active && d in m.dependencies && d.required && d.id in Ids(items) ==>
            d.id in Ids(k.active)
  {
    hide Unavailable, DisabledReasons, DependenciesFirst, DistinctIds, HasCycle;
    ReasonsCoverUnavailable(items, disabled);
    Ordering.SameElements(k.registered, Without(items, disabled));
    forall m ensures m in k.active <==> m in items && !Unavailable(items, disabled, m.id) {
      if m in items && m.id in disabled { ExplicitIsUnavailable(items, disabled, m); }
    }
    forall m, d | m in k.active && d in m.dependencies && d.required && d.id in Ids(items)
      ensures d.id in Ids(k.active) {
      assert Requires(items, m.id, d.id);
      if Unavailable(items, disabled, d.id) { UnavailabilitySpreads(items, disabled, m.id, d.id); }
      var i :| 0 <= i < |items| && Ids(items)[i] == d.id;
      assert items[i] in k.active;
      var j :| 0 <= j < |k.active| && k.active[j] == items[i];
      assert Ids(k.active)[j] == d.id;
    }
  }
}
