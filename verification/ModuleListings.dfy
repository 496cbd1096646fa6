/** The order in which a source lists its modules, and a module its dependencies, decides which
    reason is found first. Over all such orders, and over every disabled set that the environment
    can name, the reasons cover the unavailable modules exactly if the empty id is harmless. */
module ModuleListings {
  import opened DependencySort
  import opened RegistryKernel
  import Ordering

  /** The same module with its dependencies in some order. */
  ghost predicate SameModule(a: Module, b: Module) {
    multiset(a.dependencies) == multiset(b.dependencies) && b == a.(dependencies := b.dependencies)
  }

  ghost predicate SameModules(a: seq<Module>, b: seq<Module>) {
    |a| == |b| && forall i :: 0 <= i < |a| ==> SameModule(a[i], b[i])
  }

  /** The same modules in some order, each with its dependencies in some order. */
  ghost predicate Relists(source: seq<Module>, listing: seq<Module>) {
    exists same: seq<Module> :: SameModules(source, same) && multiset(same) == multiset(listing)
  }

  ghost predicate AlwaysCovers(source: seq<Module>) {
    forall listing, disabled: set<string> :: Relists(source, listing) && "" !in disabled ==> Covers(listing, disabled)
  }

  // --- requirements do not depend on the order -----------------------------------------------------------

  lemma SameRequirements(a: seq<Module>, b: seq<Module>)
    requires SameModules(a, b)
    ensures forall x, y :: Requires(a, x, y) <==> Requires(b, x, y)
    ensures forall x :: x in Ids(a) <==> x in Ids(b)
  {
    forall x, y | Requires(a, x, y) ensures Requires(b, x, y) {
      var m, d :| m in a && m.id == x && d in m.dependencies && d.required && d.id == y;
      var i :| 0 <= i < |a| && a[i] == m;
      assert d in multiset(b[i].dependencies) && b[i] in b;
    }
    forall x, y | Requires(b, x, y) ensures Requires(a, x, y) {
      var m, d :| m in b && m.id == x && d in m.dependencies && d.required && d.id == y;
      var i :| 0 <= i < |b| && b[i] == m;
      assert d in multiset(a[i].dependencies) && a[i] in a;
    }
    assert Ids(a) == Ids(b);
  }

  lemma PermutedRequirements(a: seq<Module>, b: seq<Module>)
    requires multiset(a) == multiset(b)
    ensures forall x, y :: Requires(a, x, y) <==> Requires(b, x, y)
    ensures forall x :: x in Ids(a) <==> x in Ids(b)
  {
    Ordering.SameElements(a, b);
    forall x ensures x in Ids(a) <==> x in Ids(b) {
      ListedIds(a, x);
      ListedIds(b, x);
    }
  }

  lemma RelistedRequirements(source: seq<Module>, listing: seq<Module>)
    requires Relists(source, listing)
    ensures forall x, y :: Requires(source, x, y) <==> Requires(listing, x, y)
    ensures forall x :: x in Ids(source) <==> x in Ids(listing)
  {
    hide SameModules, Requires;
    var same :| SameModules(source, same) && multiset(same) == multiset(listing);
    SameRequirements(source, same);
    PermutedRequirements(same, listing);
  }

  // --- the order that hides a module -------------------------------------------------------------------------

  function Keep<T(!new)>(s: seq<T>, p: T -> bool): (kept: seq<T>)
    ensures forall x :: x in kept <==> x in s && p(x)
  {
    if s == [] then [] else
      assert s == [s[0]] + s[1..];
      (if p(s[0]) then [s[0]] else []) + Keep(s[1..], p)
  }

  /** Those with the property first. */
  function Front<T(!new)>(s: seq<T>, p: T -> bool): seq<T> {
    Keep(s, p) + Keep(s, x => !p(x))
  }

  lemma {:induction false} FrontPermutes<T(!new)>(s: seq<T>, p: T -> bool)
    ensures multiset(Front(s, p)) == multiset(s)
  {
    if s != [] {
      FrontPermutes(s[1..], p);
      assert s == [s[0]] + s[1..];
    }
  }

  lemma FrontIsFirst<T(!new)>(s: seq<T>, p: T -> bool)
    requires exists x :: x in s && p(x)
    ensures Front(s, p) != [] && p(Front(s, p)[0])
  {
    var x :| x in s && p(x);
    assert x in Keep(s, p);
    assert Keep(s, p)[0] in Keep(s, p);
  }

  const RequiresEmpty: Dependency -> bool := (d: Dependency) => d.required && d.id == ""

  const HasEmptyId: Module -> bool := (m: Module) => m.id == ""

  function EmptyDependencyFirst(m: Module): Module {
    m.(dependencies := Front(m.dependencies, RequiresEmpty))
  }

  function EmptyDependenciesFirst(source: seq<Module>): (same: seq<Module>)
    ensures |same| == |source| && forall i :: 0 <= i < |source| ==> same[i] == EmptyDependencyFirst(source[i])
  {
    seq(|source|, i requires 0 <= i < |source| => EmptyDependencyFirst(source[i]))
  }

  /** Every dependency on the empty id goes first, and so does the module with the empty id. */
  function EmptyFirst(source: seq<Module>): seq<Module> {
    Front(EmptyDependenciesFirst(source), HasEmptyId)
  }

  lemma EmptyFirstRelists(source: seq<Module>)
    ensures Relists(source, EmptyFirst(source))
  {
    var same := EmptyDependenciesFirst(source);
    forall i | 0 <= i < |source| ensures SameModule(source[i], same[i]) {
      FrontPermutes(source[i].dependencies, RequiresEmpty);
    }
    assert SameModules(source, same);
    FrontPermutes(same, HasEmptyId);
  }

  /** Each module with this id has the empty id as its first required dependency. */
  ghost predicate HiddenBehindEmpty(modules: seq<Module>, a: string) {
    forall m :: m in modules && m.id == a ==> m.dependencies != [] && RequiresEmpty(m.dependencies[0])
  }

  lemma {:induction false} PassKeepsHidden(modules: seq<Module>, reasons: map<string, string>, a: string)
    requires HiddenBehindEmpty(modules, a) && "" in reasons && a !in reasons
    ensures a !in Pass(modules, reasons) && "" in Pass(modules, reasons)
  {
    if modules != [] {
      var m := modules[0];
      assert m in modules;
      if m.id == a {
        assert FirstDisabled(m.dependencies, reasons) == "";
      }
      ExplainGrows(m, reasons);
      PassKeepsHidden(modules[1..], Explain(m, reasons), a);
    }
  }

  lemma {:induction false} FixpointKeepsHidden(modules: seq<Module>, reasons: map<string, string>, a: string)
    requires HiddenBehindEmpty(modules, a) && "" in reasons && a !in reasons
    ensures a !in Fixpoint(modules, reasons)
    decreases |SourceIds(modules) - reasons.Keys|
  {
    hide HiddenBehindEmpty;
    PassKeepsHidden(modules, reasons, a);
    if Pass(modules, reasons) != reasons {
      PassShrinks(modules, reasons);
      FixpointKeepsHidden(modules, Pass(modules, reasons), a);
    }
  }

  lemma {:induction false} OnlyDisabledIsFound(dependencies: seq<Dependency>, reasons: map<string, string>, x: string)
    requires reasons.Keys == {x} && x != "" && exists d :: d in dependencies && d.required && d.id == x
    ensures FirstDisabled(dependencies, reasons) == x
  {
    assert dependencies == [dependencies[0]] + dependencies[1..];
    if !(dependencies[0].required && dependencies[0].id in reasons) {
      OnlyDisabledIsFound(dependencies[1..], reasons, x);
    }
  }

  /** With the empty id listed first and required first, disabling x reaches the empty id before the
      module a, which then stays without a reason. */
  lemma FixpointHides(listing: seq<Module>, reasons: map<string, string>, a: string, x: string)
    requires listing != [] && listing[0].id == "" && HiddenBehindEmpty(listing, a)
    requires reasons.Keys == {x} && a != "" && x != "" && x != a
    requires exists d :: d in listing[0].dependencies && d.required && d.id == x
    ensures a !in Fixpoint(listing, reasons)
  {
    OnlyDisabledIsFound(listing[0].dependencies, reasons, x);
    var next := Explain(listing[0], reasons);
    assert "" in next && a !in next;
    assert HiddenBehindEmpty(listing[1..], a);
    PassKeepsHidden(listing[1..], next, a);
    assert Pass(listing, reasons) == Pass(listing[1..], next);
    FixpointKeepsHidden(listing, Pass(listing, reasons), a);
  }

  lemma ModuleWithId(modules: seq<Module>, m: Module, other: Module)
    requires DistinctIds(modules) && m in modules && other in modules && m.id == other.id
    ensures m == other
  {
    var i :| 0 <= i < |modules| && modules[i] == m;
    var j :| 0 <= j < |modules| && modules[j] == other;
    assert i == j;
  }

  lemma RelistedIdsAreDistinct(source: seq<Module>)
    requires DistinctIds(source)
    ensures DistinctIds(EmptyFirst(source))
  {
    var same := EmptyDependenciesFirst(source);
    var id := (m: Module) => m.id;
    assert Ordering.DistinctKeys(same, id);
    FrontPermutes(same, HasEmptyId);
    Ordering.DistinctKeysPermute(same, EmptyFirst(source), id);
  }

  lemma OriginalOf(source: seq<Module>, m: Module) returns (n: Module)
    requires m in EmptyFirst(source)
    ensures n in source && m == EmptyDependencyFirst(n)
  {
    hide Front, EmptyDependencyFirst;
    var same := EmptyDependenciesFirst(source);
    FrontPermutes(same, HasEmptyId);
    Ordering.SameElements(same, EmptyFirst(source));
    var i :| 0 <= i < |same| && same[i] == m;
    n := source[i];
  }

  lemma EmptyDependencyIsFirst(m: Module, d: Dependency)
    requires d in m.dependencies && d.required && d.id == ""
    ensures var first := EmptyDependencyFirst(m); first.dependencies != [] && RequiresEmpty(first.dependencies[0])
  {
    hide Front;
    assert RequiresEmpty(d);
    FrontIsFirst(m.dependencies, RequiresEmpty);
  }

  lemma EmptyFirstHides(source: seq<Module>, a: string)
    requires DistinctIds(source) && Requires(source, a, "")
    ensures HiddenBehindEmpty(EmptyFirst(source), a)
  {
    hide EmptyFirst, Front, DistinctIds;
    var n, d :| n in source && n.id == a && d in n.dependencies && d.required && d.id == "";
    EmptyDependencyIsFirst(n, d);
    forall m | m in EmptyFirst(source) && m.id == a ensures m.dependencies != [] && RequiresEmpty(m.dependencies[0]) {
      var original := OriginalOf(source, m);
      ModuleWithId(source, n, original);
    }
  }

  lemma EmptyIdIsFirst(source: seq<Module>, x: string)
    requires DistinctIds(source) && Requires(source, "", x)
    ensures var listing := EmptyFirst(source);
      listing != [] && listing[0].id == "" && exists d :: d in listing[0].dependencies && d.required && d.id == x
  {
    hide Requires;
    EmptyFirstRelists(source);
    RelistedRequirements(source, EmptyFirst(source));
    RelistedIdsAreDistinct(source);
    EmptyModuleIsFirst(source, x);
  }

  lemma EmptyModuleIsFirst(source: seq<Module>, x: string)
    requires DistinctIds(EmptyFirst(source)) && Requires(EmptyFirst(source), "", x)
    ensures var listing := EmptyFirst(source);
      listing != [] && listing[0].id == "" && exists d :: d in listing[0].dependencies && d.required && d.id == x
  {
    var same, listing := EmptyDependenciesFirst(source), EmptyFirst(source);
    var m, d :| m in listing && m.id == "" && d in m.dependencies && d.required && d.id == x;
    FrontPermutes(same, HasEmptyId);
    Ordering.SameElements(same, listing);
    assert m in same && HasEmptyId(m);
    FrontIsFirst(same, HasEmptyId);
    ModuleWithId(listing, m, listing[0]);
  }

  lemma SpreadsThroughEmpty(modules: seq<Module>, a: string, x: string)
    requires Requires(modules, a, "") && Requires(modules, "", x) && x in Ids(modules)
    ensures Unavailable(modules, {x}, a)
  {
    hide Requires, Unavailable;
    ListedIds(modules, x);
    var m :| m in modules && m.id == x;
    ExplicitIsUnavailable(modules, {x}, m);
    UnavailabilitySpreads(modules, {x}, "", x);
    UnavailabilitySpreads(modules, {x}, a, "");
  }

  lemma OneExplicitReason(modules: seq<Module>, x: string)
    requires x in Ids(modules)
    ensures ExplicitReasons(modules, {x}).Keys == {x}
  {
    ListedIds(modules, x);
  }

  lemma HarmfulOrderFails(source: seq<Module>, a: string, x: string)
    requires DistinctIds(source) && Requires(source, a, "") && Requires(source, "", x) && x in Ids(source)
    requires a != "" && x != "" && x != a
    ensures Relists(source, EmptyFirst(source)) && !Covers(EmptyFirst(source), {x})
  {
    hide Requires, Relists, HiddenBehindEmpty, Unavailable, EmptyFirst, DistinctIds, Fixpoint, ExplicitReasons;
    var listing := EmptyFirst(source);
    EmptyFirstRelists(source);
    RelistedRequirements(source, listing);
    EmptyFirstHides(source, a);
    EmptyIdIsFirst(source, x);
    OneExplicitReason(listing, x);
    FixpointHides(listing, ExplicitReasons(listing, {x}), a, x);
    SpreadsThroughEmpty(listing, a, x);
  }

  /** Exact condition: in every order, and whatever the environment disables, the modules with a
      reason are those that reach an explicitly disabled one, if and only if no source module is
      required by the one with the empty id while a third module requires the empty id. */
  lemma AlwaysCoversIffHarmless(source: seq<Module>)
    ensures EmptyIdHarmless(source) ==> AlwaysCovers(source)
    ensures DistinctIds(source) ==> (AlwaysCovers(source) <==> EmptyIdHarmless(source))
  {
    hide Requires, Covers, Relists;
    if EmptyIdHarmless(source) {
      forall listing, disabled: set<string> | Relists(source, listing) && "" !in disabled
        ensures Covers(listing, disabled) {
        RelistedRequirements(source, listing);
        ReasonsCoverUnavailable(listing, disabled);
      }
    }
    if DistinctIds(source) && !EmptyIdHarmless(source) {
      var a, x :| Requires(source, a, "") && Requires(source, "", x) && x in Ids(source) && a != "" && x != ""
        && x != a;
      HarmfulOrderFails(source, a, x);
    }
  }

  // --- a source that fails -----------------------------------------------------------------------------------

  const Nothing := Lifecycle("", "", "", "", "")

  function Plain(id: string, dependencies: seq<Dependency>): Module {
    Module(id, "1.0.0", dependencies, Nothing)
  }

  /** Module x is disabled, the module with the empty id requires it, and a requires the empty id. */
  const FailingSource := [Plain("", [Dependency("x", "", true)]), Plain("x", []),
                          Plain("a", [Dependency("", "", true)])]

  lemma DisabledModuleIsMissed()
    ensures "a" !in DisabledReasons(FailingSource, {"x"}) && Unavailable(FailingSource, {"x"}, "a")
  {
    var e, x, a := FailingSource[0], FailingSource[1], FailingSource[2];
    assert e in FailingSource && x in FailingSource && a in FailingSource;
    assert e.dependencies[0] in e.dependencies && a.dependencies[0] in a.dependencies;
    assert x.id in SourceIds(FailingSource);
    FixpointHides(FailingSource, ExplicitReasons(FailingSource, {"x"}), "a", "x");
    assert Requires(FailingSource, "", "x") && Requires(FailingSource, "a", "");
    ListedIds(FailingSource, "x");
    SpreadsThroughEmpty(FailingSource, "a", "x");
  }
}
