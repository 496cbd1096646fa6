/** Exact-version dependency resolution: a memoised depth-first walk selects one version
    per id, then a second walk lists the selection with dependencies first. */
module Resolver {
  import opened Outcomes
  import opened Ordering
  import opened ModuleIndex
  import opened VersionPattern
  import DepthFirst

  /** The index with its two tests: which versions are exact, and which entries agree with
      the sources already present. */
  datatype Index = Index(entries: map<string, Entry>, exact: string -> bool, agrees: Entry -> bool)

  datatype ResolveError =
    | InexactVersion(id: string)
    | VersionConflict(id: string)
    | DependencyCycle(key: string)
    | MissingDependency(key: string)
    | SourceMismatch(id: string)

  // --- what is promised --------------------------------------------------------------------------------

  function RefOf(d: IndexDependency): Ref {
    Ref(d.id, d.versionConstraint)
  }

  /** a's entry requires exactly b. */
  ghost predicate Step(ix: Index, a: Ref, b: Ref) {
    Key(a) in ix.entries && exists d :: d in ix.entries[Key(a)].dependencies && d.required && RefOf(d) == b
  }

  ghost predicate IsChain(ix: Index, p: seq<Ref>) {
    |p| > 0 && forall i :: 0 < i < |p| ==> Step(ix, p[i - 1], p[i])
  }

  /** In the closure of the requests under required dependencies. */
  ghost predicate Reachable(ix: Index, requested: seq<Ref>, r: Ref) {
    exists p: seq<Ref> :: IsChain(ix, p) && p[0] in requested && p[|p| - 1] == r
  }

  ghost predicate Good(ix: Index, r: Ref) {
    ix.exact(r.version) && Key(r) in ix.entries && ix.agrees(ix.entries[Key(r)])
  }

  ghost predicate Cyclic(ix: Index, r: Ref) {
    exists p: seq<Ref> :: IsChain(ix, p) && |p| > 1 && p[0] == r && p[|p| - 1] == r
  }

  /** The closure exists in the index with exact versions and matching sources, has one
      version per id and no cycle. */
  ghost predicate Admissible(ix: Index, requested: seq<Ref>) {
    && (forall r :: Reachable(ix, requested, r) ==> Good(ix, r) && !Cyclic(ix, r))
    && (forall a, b :: Reachable(ix, requested, a) && Reachable(ix, requested, b) && a.id == b.id ==> a == b)
  }

  /** What an error says of the closure: a version that is not exact, two versions of one id, a cycle, a missing
      entry, or a present source that disagrees. */
  ghost predicate IsRefusal(ix: Index, requested: seq<Ref>, e: ResolveError) {
    match e
    case InexactVersion(id) => exists r :: Reachable(ix, requested, r) && r.id == id && !ix.exact(r.version)
    case VersionConflict(id) =>
      exists a, b :: Reachable(ix, requested, a) && Reachable(ix, requested, b) && a.id == b.id == id && a != b
    case DependencyCycle(key) => exists r :: Reachable(ix, requested, r) && Key(r) == key && Cyclic(ix, r)
    case MissingDependency(key) => exists r :: Reachable(ix, requested, r) && Key(r) == key && key !in ix.entries
    case SourceMismatch(id) =>
      exists r :: Reachable(ix, requested, r) && Key(r) in ix.entries && ix.entries[Key(r)].id == id
                  && !ix.agrees(ix.entries[Key(r)])
  }

  /** An error is a reason why the closure is not admissible. */
  lemma RefusalIsRight(ix: Index, requested: seq<Ref>, e: ResolveError)
    requires IsRefusal(ix, requested, e)
    ensures !Admissible(ix, requested)
  {
  }

  lemma RequestIsReachable(ix: Index, requested: seq<Ref>, r: Ref)
    requires r in requested
    ensures Reachable(ix, requested, r)
  {
    assert IsChain(ix, [r]);
  }

  lemma StepIsReachable(ix: Index, requested: seq<Ref>, a: Ref, b: Ref)
    requires Reachable(ix, requested, a) && Step(ix, a, b)
    ensures Reachable(ix, requested, b)
  {
    var p: seq<Ref> :| IsChain(ix, p) && p[0] in requested && p[|p| - 1] == a;
    assert IsChain(ix, p + [b]);
  }

  /** Exact versions contain no key separator, so keys of exact references are unambiguous,
      and every entry is listed under its own key with an exact version. */
  ghost predicate WellFormed(ix: Index) {
    && (forall v :: ix.exact(v) ==> '@' !in v)
    && (forall k :: k in ix.entries ==>
        ix.exact(ix.entries[k].version) && k == KeyOf(ix.entries[k].id, ix.entries[k].version))
  }

  lemma EntryIsItsReference(ix: Index, r: Ref)
    requires WellFormed(ix) && ix.exact(r.version) && Key(r) in ix.entries
    ensures ix.entries[Key(r)].id == r.id && ix.entries[Key(r)].version == r.version
  {
    var e := ix.entries[Key(r)];
    LastPartIsDetermined('@', r.id, r.version, e.id, e.version);
  }

  lemma KeyNamesReference(ix: Index, a: Ref, b: Ref)
    requires WellFormed(ix) && ix.exact(a.version) && ix.exact(b.version) && Key(a) == Key(b)
    ensures a == b
  {
    LastPartIsDetermined('@', a.id, a.version, b.id, b.version);
  }

  // --- the first walk ------------------------------------------------------------------------------------

  /** References listed after everything they require. */
  ghost predicate Settled(ix: Index, order: seq<Ref>) {
    forall i, b :: 0 <= i < |order| && Step(ix, order[i], b) ==> b in order[..i]
  }

  lemma {:induction false} ChainDescends(ix: Index, order: seq<Ref>, p: seq<Ref>, i: nat)
    requires Settled(ix, order) && IsChain(ix, p) && i < |order| && p[0] == order[i]
    ensures p[|p| - 1] in order
    ensures |p| > 1 ==> p[|p| - 1] in order[..i]
    decreases |p|
  {
    if |p| > 1 {
      assert Step(ix, p[0], p[1]);
      var k :| 0 <= k < i && order[..i][k] == p[1];
      forall j | 0 < j < |p[1..]| ensures Step(ix, p[1..][j - 1], p[1..][j]) {
        assert Step(ix, p[j], p[j + 1]);
      }
      ChainDescends(ix, order, p[1..], k);
      assert forall x :: x in order[..k] ==> x in order[..i];
    }
  }

  lemma SettledAppend(ix: Index, order: seq<Ref>, r: Ref)
    requires Settled(ix, order) && forall b :: Step(ix, r, b) ==> b in order
    ensures Settled(ix, order + [r])
  {
    var longer := order + [r];
    forall i, b | 0 <= i < |longer| && Step(ix, longer[i], b) ensures b in longer[..i] {
      if i < |order| { assert longer[..i] == order[..i]; } else { assert longer[..i] == order; }
    }
  }

  /** How far the walk has come: what is settled, in order, and the chain being visited. */
  datatype Progress = Progress(resolved: set<string>, visiting: set<string>, selected: map<string, string>,
                               order: seq<Ref>, stack: seq<Ref>)

  predicate Picked(selected: map<string, string>, r: Ref) {
    r.id in selected && selected[r.id] == r.version
  }

  ghost predicate Keyed(keys: set<string>, refs: seq<Ref>) {
    && (forall r :: r in refs ==> Key(r) in keys)
    && (forall k :: k in keys ==> exists r :: r in refs && Key(r) == k)
  }

  ghost predicate AllFound(ix: Index, requested: seq<Ref>, selected: map<string, string>, refs: seq<Ref>) {
    forall r :: r in refs ==> Good(ix, r) && Reachable(ix, requested, r) && Picked(selected, r)
  }

  ghost predicate OrderOk(ix: Index, requested: seq<Ref>, p: Progress) {
    Settled(ix, p.order) && Distinct(p.order) && AllFound(ix, requested, p.selected, p.order)
      && Keyed(p.resolved, p.order)
  }

  ghost predicate StackOk(ix: Index, requested: seq<Ref>, p: Progress) {
    && (p.stack == [] || IsChain(ix, p.stack)) && Distinct(p.stack)
    && AllFound(ix, requested, p.selected, p.stack) && Keyed(p.visiting, p.stack)
    && (forall r :: r in p.stack ==> r !in p.order)
  }

  /** Every selected version belongs to a reference that is settled or being visited. */
  ghost predicate SelectedOk(p: Progress) {
    forall id :: id in p.selected ==> Ref(id, p.selected[id]) in p.order || Ref(id, p.selected[id]) in p.stack
  }

  ghost predicate ProgressOk(ix: Index, requested: seq<Ref>, p: Progress) {
    WellFormed(ix) && OrderOk(ix, requested, p) && StackOk(ix, requested, p) && SelectedOk(p)
  }

  ghost predicate Follows(ix: Index, stack: seq<Ref>, r: Ref) {
    stack == [] || Step(ix, stack[|stack| - 1], r)
  }

  lemma KeyedAppend(keys: set<string>, refs: seq<Ref>, r: Ref)
    requires Keyed(keys, refs)
    ensures Keyed(keys + {Key(r)}, refs + [r])
  {
    forall k | k in keys + {Key(r)} ensures exists x :: x in refs + [r] && Key(x) == k {
      if k == Key(r) {
        assert r in refs + [r];
      } else {
        var x :| x in refs && Key(x) == k;
        assert x in refs + [r];
      }
    }
  }

  lemma KeyedDrop(ix: Index, keys: set<string>, refs: seq<Ref>, r: Ref)
    requires WellFormed(ix) && Keyed(keys, refs + [r]) && r !in refs
    requires forall x :: x in refs + [r] ==> ix.exact(x.version)
    ensures Keyed(keys - {Key(r)}, refs)
  {
    assert r in refs + [r];
    forall x | x in refs ensures Key(x) in keys - {Key(r)} {
      assert x in refs + [r];
      if Key(x) == Key(r) { KeyNamesReference(ix, x, r); }
    }
    forall k | k in keys - {Key(r)} ensures exists x :: x in refs && Key(x) == k {
      var x :| x in refs + [r] && Key(x) == k;
      assert x in refs;
    }
  }

  lemma ChainAppend(ix: Index, stack: seq<Ref>, r: Ref)
    requires stack == [] || IsChain(ix, stack)
    requires Follows(ix, stack, r)
    ensures IsChain(ix, stack + [r])
  {
  }

  lemma ChainDrop(ix: Index, stack: seq<Ref>, r: Ref)
    requires IsChain(ix, stack + [r])
    ensures stack == [] || IsChain(ix, stack)
  {
    var longer := stack + [r];
    forall i | 0 < i < |stack| ensures Step(ix, stack[i - 1], stack[i]) {
      assert Step(ix, longer[i - 1], longer[i]);
    }
  }

  lemma AllFoundAppend(ix: Index, requested: seq<Ref>, selected: map<string, string>, refs: seq<Ref>, r: Ref)
    requires AllFound(ix, requested, selected, refs) && AllFound(ix, requested, selected, [r])
    ensures AllFound(ix, requested, selected, refs + [r])
  {
    assert r in [r];
  }

  lemma PickKeepsFound(ix: Index, requested: seq<Ref>, selected: map<string, string>, refs: seq<Ref>, r: Ref)
    requires AllFound(ix, requested, selected, refs) && (r.id in selected ==> selected[r.id] == r.version)
    ensures AllFound(ix, requested, selected[r.id := r.version], refs)
  {
  }

  function Entered(p: Progress, r: Ref): Progress {
    p.(visiting := p.visiting + {Key(r)}, selected := p.selected[r.id := r.version], stack := p.stack + [r])
  }

  lemma EnterStackOk(ix: Index, requested: seq<Ref>, p: Progress, r: Ref)
    requires StackOk(ix, requested, p) && AllFound(ix, requested, p.selected, [r]) && Follows(ix, p.stack, r)
    requires Keyed(p.resolved, p.order) && Key(r) !in p.resolved && Key(r) !in p.visiting
    ensures StackOk(ix, requested, p.(visiting := p.visiting + {Key(r)}, stack := p.stack + [r]))
  {
    hide IsChain, Follows, AllFound, Keyed, Key;
    NotOnStack(ix, requested, p, r);
    ChainAppend(ix, p.stack, r);
    KeyedAppend(p.visiting, p.stack, r);
    AllFoundAppend(ix, requested, p.selected, p.stack, r);
  }

  lemma NotOnStack(ix: Index, requested: seq<Ref>, p: Progress, r: Ref)
    requires StackOk(ix, requested, p) && Keyed(p.resolved, p.order) && Key(r) !in p.resolved && Key(r) !in p.visiting
    ensures r !in p.stack && r !in p.order
  {
  }

  lemma PickOk(ix: Index, requested: seq<Ref>, p: Progress, r: Ref)
    requires OrderOk(ix, requested, p) && StackOk(ix, requested, p)
             && (r.id in p.selected ==> p.selected[r.id] == r.version)
    ensures OrderOk(ix, requested, p.(selected := p.selected[r.id := r.version]))
    ensures StackOk(ix, requested, p.(selected := p.selected[r.id := r.version]))
  {
    PickKeepsFound(ix, requested, p.selected, p.order, r);
    PickKeepsFound(ix, requested, p.selected, p.stack, r);
  }

  lemma EnterKeeps(ix: Index, requested: seq<Ref>, p: Progress, r: Ref)
    requires ProgressOk(ix, requested, p) && Reachable(ix, requested, r) && Good(ix, r) && Follows(ix, p.stack, r)
    requires r.id in p.selected ==> p.selected[r.id] == r.version
    requires Key(r) !in p.resolved && Key(r) !in p.visiting
    ensures ProgressOk(ix, requested, Entered(p, r))
  {
    hide StackOk, SelectedOk, Reachable, Good, Follows;
    var picked := p.(selected := p.selected[r.id := r.version]);
    PickOk(ix, requested, p, r);
    assert AllFound(ix, requested, picked.selected, [r]);
    EnterStackOk(ix, requested, picked, r);
    EnterSelectedOk(p, r);
  }

  lemma EnterSelectedOk(p: Progress, r: Ref)
    requires SelectedOk(p)
    ensures SelectedOk(Entered(p, r))
  {
    var q := Entered(p, r);
    forall id | id in q.selected ensures Ref(id, q.selected[id]) in q.order || Ref(id, q.selected[id]) in q.stack {
      if id == r.id { assert r in q.stack; }
    }
  }

  function Left(p: Progress, rest: seq<Ref>, r: Ref): Progress {
    p.(visiting := p.visiting - {Key(r)}, resolved := p.resolved + {Key(r)}, order := p.order + [r], stack := rest)
  }

  lemma LeaveOrderOk(ix: Index, requested: seq<Ref>, p: Progress, r: Ref)
    requires OrderOk(ix, requested, p) && AllFound(ix, requested, p.selected, [r]) && r !in p.order
    requires forall b :: Step(ix, r, b) ==> b in p.order
    ensures OrderOk(ix, requested, p.(resolved := p.resolved + {Key(r)}, order := p.order + [r]))
  {
    SettledAppend(ix, p.order, r);
    KeyedAppend(p.resolved, p.order, r);
    AllFoundAppend(ix, requested, p.selected, p.order, r);
  }

  lemma DistinctDrop(rest: seq<Ref>, r: Ref)
    requires Distinct(rest + [r])
    ensures Distinct(rest) && r !in rest
  {
    var longer := rest + [r];
    assert longer[|rest|] == r;
    forall i | 0 <= i < |rest| ensures rest[i] != r {
      assert longer[i] != longer[|rest|];
    }
    forall i, j | 0 <= i < j < |rest| ensures rest[i] != rest[j] {
      assert longer[i] != longer[j];
    }
  }

  lemma LeaveStackOk(ix: Index, requested: seq<Ref>, p: Progress, rest: seq<Ref>, r: Ref)
    requires WellFormed(ix) && StackOk(ix, requested, p) && p.stack == rest + [r]
    ensures r !in rest && r !in p.order && AllFound(ix, requested, p.selected, [r])
    ensures StackOk(ix, requested, p.(visiting := p.visiting - {Key(r)}, order := p.order + [r], stack := rest))
  {
    assert r in p.stack && forall x :: x in rest ==> x in p.stack;
    DistinctDrop(rest, r);
    ChainDrop(ix, rest, r);
    KeyedDrop(ix, p.visiting, rest, r);
  }

  lemma LeaveSelectedOk(p: Progress, rest: seq<Ref>, r: Ref)
    requires SelectedOk(p) && p.stack == rest + [r]
    ensures SelectedOk(Left(p, rest, r))
  {
    var q := Left(p, rest, r);
    forall id | id in q.selected ensures Ref(id, q.selected[id]) in q.order || Ref(id, q.selected[id]) in q.stack {
      if Ref(id, q.selected[id]) == r { assert q.order[|p.order|] == r; }
    }
  }

  lemma LeaveKeeps(ix: Index, requested: seq<Ref>, p: Progress, rest: seq<Ref>, r: Ref)
    requires ProgressOk(ix, requested, p) && p.stack == rest + [r]
    requires forall b :: Step(ix, r, b) ==> b in p.order
    ensures ProgressOk(ix, requested, Left(p, rest, r))
  {
    LeaveStackOk(ix, requested, p, rest, r);
    LeaveOrderOk(ix, requested, p, r);
    LeaveSelectedOk(p, rest, r);
  }

  /** A reference whose key is resolved is settled itself. */
  lemma ResolvedIsSettled(ix: Index, requested: seq<Ref>, p: Progress, r: Ref)
    requires ProgressOk(ix, requested, p) && ix.exact(r.version) && Key(r) in p.resolved
    ensures r in p.order && Picked(p.selected, r)
  {
    var x :| x in p.order && Key(x) == Key(r);
    KeyNamesReference(ix, x, r);
  }

  lemma ConflictRefuses(ix: Index, requested: seq<Ref>, p: Progress, r: Ref)
    requires ProgressOk(ix, requested, p) && Reachable(ix, requested, r)
    requires r.id in p.selected && p.selected[r.id] != r.version
    ensures IsRefusal(ix, requested, VersionConflict(r.id))
  {
    var other := Ref(r.id, p.selected[r.id]);
    assert Reachable(ix, requested, other);
  }

  lemma StackLoop(ix: Index, stack: seq<Ref>, i: nat, r: Ref)
    requires IsChain(ix, stack) && i < |stack| && stack[i] == r && Follows(ix, stack, r)
    ensures Cyclic(ix, r)
  {
    var loop := stack[i..] + [r];
    forall j | 0 < j < |loop| ensures Step(ix, loop[j - 1], loop[j]) {
      if j < |stack| - i { assert Step(ix, stack[i + j - 1], stack[i + j]); }
    }
    assert IsChain(ix, loop);
  }

  lemma CycleRefuses(ix: Index, requested: seq<Ref>, p: Progress, r: Ref)
    requires ProgressOk(ix, requested, p) && Reachable(ix, requested, r) && ix.exact(r.version)
    requires Follows(ix, p.stack, r) && Key(r) in p.visiting
    ensures IsRefusal(ix, requested, DependencyCycle(Key(r)))
  {
    var x :| x in p.stack && Key(x) == Key(r);
    KeyNamesReference(ix, x, r);
    var i :| 0 <= i < |p.stack| && p.stack[i] == r;
    StackLoop(ix, p.stack, i, r);
  }

  lemma RequiredAreSteps(ix: Index, r: Ref, dependencies: seq<IndexDependency>)
    requires Key(r) in ix.entries && forall d :: d in dependencies <==> d in ix.entries[Key(r)].dependencies
    ensures forall d :: d in dependencies && d.required ==> Step(ix, r, RefOf(d))
  {
  }

  lemma StepsAreRequired(ix: Index, r: Ref, dependencies: seq<IndexDependency>, order: seq<Ref>)
    requires Key(r) in ix.entries && forall d :: d in dependencies <==> d in ix.entries[Key(r)].dependencies
    requires forall d :: d in dependencies && d.required ==> RefOf(d) in order
    ensures forall b :: Step(ix, r, b) ==> b in order
  {
  }

  /** The variables the first closure captures; 'order' and 'stack' record its progress. */
  class Selection {
    const ix: Index
    ghost const requested: seq<Ref>
    var resolved: map<string, Entry>
    var visiting: set<string>
    var selected: map<string, string>
    ghost var order: seq<Ref>
    ghost var stack: seq<Ref>

    ghost function Now(): Progress
      reads this
    {
      Progress(resolved.Keys, visiting, selected, order, stack)
    }

    ghost predicate Valid()
      reads this
    {
      && ProgressOk(ix, requested, Now())
      && forall k :: k in resolved ==> k in ix.entries && resolved[k] == ix.entries[k]
    }

    constructor (ix: Index, ghost requested: seq<Ref>)
      requires WellFormed(ix)
      ensures Valid() && this.ix == ix && this.requested == requested && order == [] && stack == []
    {
      this.ix, this.requested := ix, requested;
      resolved, visiting, selected := map[], {}, map[];
      order, stack := [], [];
    }

    /** Succeeds only by settling the reference; fails only if the closure is not admissible. */
    method Visit(reference: Ref) returns (failure: Option<ResolveError>)
      requires Valid() && Reachable(ix, requested, reference) && Follows(ix, stack, reference)
      modifies this
      ensures failure.None? ==>
              Valid() && stack == old(stack) && visiting == old(visiting) && old(order) <= order && reference in order
      ensures failure.Some? ==> IsRefusal(ix, requested, failure.value)
      decreases ix.entries.Keys - visiting, 1
    {
      hide ProgressOk, Reachable, Step;
      if !ix.exact(reference.version) {
        return Some(InexactVersion(reference.id));
      }
      if reference.id in selected && selected[reference.id] != reference.version {
        ConflictRefuses(ix, requested, Now(), reference);
        return Some(VersionConflict(reference.id));
      }
      ghost var before := Now();
      selected := selected[reference.id := reference.version];
      var key := Key(reference);
      if key in resolved {
        ResolvedIsSettled(ix, requested, before, reference);
        assert selected == before.selected;
        return None;
      }
      if key in visiting {
        CycleRefuses(ix, requested, before, reference);
        return Some(DependencyCycle(key));
      }
      if key !in ix.entries {
        return Some(MissingDependency(key));
      }
      var entry := ix.entries[key];
      if !ix.agrees(entry) {
        return Some(SourceMismatch(entry.id));
      }
      failure := Settle(reference, before);
    }

    /** The rest of the closure: everything the entry requires is settled before it is. */
    method Settle(reference: Ref, ghost before: Progress) returns (failure: Option<ResolveError>)
      requires ProgressOk(ix, requested, before)
               && (forall k :: k in resolved ==> k in ix.entries && resolved[k] == ix.entries[k])
      requires Now() == before.(selected := before.selected[reference.id := reference.version])
      requires Reachable(ix, requested, reference) && Good(ix, reference) && Follows(ix, stack, reference)
      requires reference.id in before.selected ==> before.selected[reference.id] == reference.version
      requires Key(reference) !in resolved && Key(reference) !in visiting && Key(reference) in ix.entries
      modifies this
      ensures failure.None? ==>
              Valid() && stack == old(stack) && visiting == old(visiting) && old(order) <= order && reference in order
      ensures failure.Some? ==> IsRefusal(ix, requested, failure.value)
      decreases ix.entries.Keys - visiting, 0
    {
      hide ProgressOk, Reachable, Good, Admissible, Step, Key, StableSort, SortedBy;
      var entry := ix.entries[Key(reference)];
      EnterKeeps(ix, requested, before, reference);
      Mark(reference);
      var dependencies := StableSort(entry.dependencies, ById);
      StableSortSorts(entry.dependencies, ById);
      RequiredAreSteps(ix, reference, dependencies);
      failure := VisitDependencies(reference, dependencies);
      if failure.Some? {
        return;
      }
      StepsAreRequired(ix, reference, dependencies, order);
      LeaveKeeps(ix, requested, Now(), before.stack, reference);
      Unmark(reference, entry, before.stack);
      assert visiting == old(visiting);
    }

    method Mark(reference: Ref)
      modifies this`visiting, this`stack
      ensures visiting == old(visiting) + {Key(reference)} && stack == old(stack) + [reference]
    {
      visiting := visiting + {Key(reference)};
      stack := stack + [reference];
    }

    method Unmark(reference: Ref, entry: Entry, ghost rest: seq<Ref>)
      modifies this`visiting, this`resolved, this`order, this`stack
      ensures visiting == old(visiting) - {Key(reference)} && resolved == old(resolved)[Key(reference) := entry]
      ensures order == old(order) + [reference] && stack == rest
      ensures Now() == Left(old(Now()), rest, reference)
    {
      visiting := visiting - {Key(reference)};
      resolved := resolved[Key(reference) := entry];
      order := order + [reference];
      stack := rest;
    }

    /** The closure's loop over one entry's dependencies. */
    method VisitDependencies(parent: Ref, dependencies: seq<IndexDependency>) returns (failure: Option<ResolveError>)
      requires Valid() && stack != [] && stack[|stack| - 1] == parent && Reachable(ix, requested, parent)
      requires forall d :: d in dependencies && d.required ==> Step(ix, parent, RefOf(d))
      modifies this
      ensures failure.None? ==>
                && Valid() && stack == old(stack) && visiting == old(visiting) && old(order) <= order
                && forall d :: d in dependencies && d.required ==> RefOf(d) in order
      ensures failure.Some? ==> IsRefusal(ix, requested, failure.value)
      decreases ix.entries.Keys - visiting, 2
    {
      hide ProgressOk, Reachable, Step;
      for i := 0 to |dependencies|
        invariant Valid() && stack == old(stack) && visiting == old(visiting) && old(order) <= order
        invariant forall k :: 0 <= k < i && dependencies[k].required ==> RefOf(dependencies[k]) in order
      {
        var d := dependencies[i];
        if !d.required {
          continue;
        }
        StepIsReachable(ix, requested, parent, RefOf(d));
        if !ix.exact(d.versionConstraint) {
          assert !Good(ix, RefOf(d));
          return Some(InexactVersion(d.id));
        }
        failure := Visit(RefOf(d));
        if failure.Some? {
          return;
        }
      }
      return None;
    }

    /** The loop over the requests. */
    method SelectAll(references: seq<Ref>) returns (failure: Option<ResolveError>)
      requires Valid() && stack == [] && references == requested
      modifies this
      ensures failure.None? ==> Valid() && stack == [] && forall r :: r in requested ==> r in order
      ensures failure.Some? ==> IsRefusal(ix, requested, failure.value)
    {
      hide ProgressOk, Reachable, Admissible, Good;
      for i := 0 to |references|
        invariant Valid() && stack == []
        invariant forall k :: 0 <= k < i ==> references[k] in order
      {
        RequestIsReachable(ix, requested, references[i]);
        failure := Visit(references[i]);
        if failure.Some? {
          return;
        }
      }
      return None;
    }
  }

  lemma ReachableIsSettled(ix: Index, requested: seq<Ref>, order: seq<Ref>, r: Ref)
    requires Settled(ix, order) && (forall q :: q in requested ==> q in order) && Reachable(ix, requested, r)
    ensures r in order
  {
    var chain: seq<Ref> :| IsChain(ix, chain) && chain[0] in requested && chain[|chain| - 1] == r;
    var i :| 0 <= i < |order| && order[i] == chain[0];
    ChainDescends(ix, order, chain, i);
  }

  lemma SettledHasNoCycle(ix: Index, order: seq<Ref>, r: Ref)
    requires Settled(ix, order) && Distinct(order) && r in order
    ensures !Cyclic(ix, r)
  {
    if Cyclic(ix, r) {
      var loop: seq<Ref> :| IsChain(ix, loop) && |loop| > 1 && loop[0] == r && loop[|loop| - 1] == r;
      var i :| 0 <= i < |order| && order[i] == r;
      ChainDescends(ix, order, loop, i);
    }
  }

  /** With nothing left on the stack, what is settled is exactly the closure, and it is admissible. */
  lemma SettledIsAdmissible(ix: Index, requested: seq<Ref>, p: Progress)
    requires ProgressOk(ix, requested, p) && p.stack == [] && forall r :: r in requested ==> r in p.order
    ensures Admissible(ix, requested)
    ensures forall r :: Reachable(ix, requested, r) <==> r in p.order
  {
    hide Reachable, Good, Cyclic, Settled, Distinct;
    forall r ensures Reachable(ix, requested, r) <==> r in p.order {
      if Reachable(ix, requested, r) { ReachableIsSettled(ix, requested, p.order, r); }
    }
    forall r | r in p.order ensures !Cyclic(ix, r) {
      SettledHasNoCycle(ix, p.order, r);
    }
  }

  // --- the listing ---------------------------------------------------------------------------------------

  const EntryId: Entry -> string := (e: Entry) => e.id

  /** The entries of the closure, in any order. */
  ghost predicate ClosureEntries(ix: Index, requested: seq<Ref>, entries: seq<Entry>) {
    forall e :: e in entries <==> InClosure(ix, requested, e)
  }

  ghost predicate InClosure(ix: Index, requested: seq<Ref>, e: Entry) {
    exists r :: Reachable(ix, requested, r) && Key(r) in ix.entries && ix.entries[Key(r)] == e
  }

  /** Every required dependency, at its exact version, comes earlier. */
  ghost predicate DependenciesFirst(entries: seq<Entry>) {
    forall i, d :: 0 <= i < |entries| && d in entries[i].dependencies && d.required ==> ListedBefore(entries, i, d)
  }

  ghost predicate ListedBefore(entries: seq<Entry>, i: nat, d: IndexDependency)
    requires i < |entries|
  {
    exists j :: 0 <= j < i && entries[j].id == d.id && entries[j].version == d.versionConstraint
  }

  method ListEntries(resolved: map<string, Entry>) returns (modules: seq<Entry>)
    requires forall j, k :: j in resolved && k in resolved && j != k ==> resolved[j].id != resolved[k].id
    ensures forall e :: e in modules <==> exists k :: k in resolved && resolved[k] == e
    ensures DistinctKeys(modules, EntryId)
  {
    modules := [];
    var keys := resolved.Keys;
    while keys != {}
      invariant keys <= resolved.Keys && DistinctKeys(modules, EntryId)
      invariant forall e :: e in modules <==> exists k :: k in resolved && k !in keys && resolved[k] == e
      decreases |keys|
    {
      var k :| k in keys;
      keys := keys - {k};
      forall i | 0 <= i < |modules| ensures EntryId(modules[i]) != EntryId(resolved[k]) {
        assert modules[i] in modules;
      }
      modules := modules + [resolved[k]];
    }
  }

  // --- the second walk -----------------------------------------------------------------------------------

  function RequiredIds(dependencies: seq<IndexDependency>): seq<string> {
    if dependencies == [] then []
    else (if dependencies[0].required then [dependencies[0].id] else []) + RequiredIds(dependencies[1..])
  }

  lemma {:induction false} RequiredIdsMembers(dependencies: seq<IndexDependency>)
    ensures forall id :: id in RequiredIds(dependencies) <==> exists d :: d in dependencies && d.required && d.id == id
  {
    if dependencies != [] {
      RequiredIdsMembers(dependencies[1..]);
      assert dependencies == [dependencies[0]] + dependencies[1..];
    }
  }

  function EntryIds(entries: seq<Entry>): (ids: seq<string>)
    ensures |ids| == |entries| && forall i :: 0 <= i < |ids| ==> ids[i] == entries[i].id
  {
    seq(|entries|, i requires 0 <= i < |entries| => entries[i].id)
  }

  function EntriesById(entries: seq<Entry>): map<string, Entry> {
    if entries == [] then map[]
    else
      var last := entries[|entries| - 1];
      EntriesById(entries[..|entries| - 1])[last.id := last]
  }

  function GraphOf(byId: map<string, Entry>): DepthFirst.Graph {
    map id | id in byId :: RequiredIds(byId[id].dependencies)
  }

  /** The captured variables of the second closure. */
  class Listing {
    const byId: map<string, Entry>
    ghost const graph: DepthFirst.Graph
    var visited: set<string>
    var visiting: set<string>
    var ordered: seq<Entry>

    ghost predicate Valid()
      reads this
    {
      && graph.Keys == byId.Keys && DepthFirst.Closed(graph)
      && (forall id :: id in byId ==> byId[id].id == id && graph[id] == RequiredIds(byId[id].dependencies))
      && (forall id :: id in visited <==> id in EntryIds(ordered))
      && (forall e :: e in ordered ==> e.id in byId && e == byId[e.id])
      && visiting <= byId.Keys
    }

    constructor (byId: map<string, Entry>)
      requires (forall id :: id in byId ==> byId[id].id == id) && DepthFirst.Closed(GraphOf(byId))
      ensures Valid() && this.byId == byId && graph == GraphOf(byId) && visiting == {} && ordered == []
    {
      this.byId, graph := byId, GraphOf(byId);
      visited, visiting, ordered := {}, {}, [];
    }

    method Visit(id: string) returns (failure: Option<ResolveError>)
      requires Valid() && id in graph
      modifies this
      ensures failure.Some? ==> DepthFirst.Visit(graph, id, old(visiting), EntryIds(old(ordered))) == None
      ensures failure.None? ==>
                && Valid() && visiting == old(visiting)
                && DepthFirst.Visit(graph, id, old(visiting), EntryIds(old(ordered))) == Some(EntryIds(ordered))
      decreases byId.Keys - visiting, 0
    {
      hide RequiredIds, DepthFirst.VisitAll;
      if id in visited {
        return None;
      }
      if id in visiting {
        return Some(DependencyCycle(id));
      }
      var entry := byId[id];
      visiting := visiting + {id};
      failure := VisitRequired(entry.dependencies);
      if failure.Some? {
        return;
      }
      visiting := visiting - {id};
      visited := visited + {id};
      assert EntryIds(ordered + [entry]) == EntryIds(ordered) + [id];
      ordered := ordered + [entry];
      assert visiting == old(visiting);
    }

    method VisitRequired(dependencies: seq<IndexDependency>) returns (failure: Option<ResolveError>)
      requires Valid() && forall n :: n in RequiredIds(dependencies) ==> n in graph
      modifies this
      ensures failure.Some? ==>
              DepthFirst.VisitAll(graph, RequiredIds(dependencies), old(visiting), EntryIds(old(ordered))) == None
      ensures failure.None? ==>
                && Valid() && visiting == old(visiting)
                && DepthFirst.VisitAll(graph, RequiredIds(dependencies), old(visiting), EntryIds(old(ordered))) ==
                   Some(EntryIds(ordered))
      decreases byId.Keys - visiting, 1
    {
      for i := 0 to |dependencies|
        invariant Valid() && visiting == old(visiting)
        invariant forall n :: n in RequiredIds(dependencies[i..]) ==> n in graph
        invariant DepthFirst.VisitAll(graph, RequiredIds(dependencies), visiting, EntryIds(old(ordered)))
               == DepthFirst.VisitAll(graph, RequiredIds(dependencies[i..]), visiting, EntryIds(ordered))
      {
        var d := dependencies[i];
        RequiredIdsStep(dependencies, i);
        if !d.required {
          continue;
        }
        DepthFirst.VisitAllStep(graph, d.id, RequiredIds(dependencies[i + 1..]), visiting, EntryIds(ordered));
        failure := Visit(d.id);
        if failure.Some? {
          return;
        }
      }
      assert dependencies[|dependencies|..] == [];
      return None;
    }

    /** The outer loop over the sorted modules. */
    method VisitListed(modules: seq<Entry>) returns (failure: Option<ResolveError>)
      requires Valid() && forall n :: n in EntryIds(modules) ==> n in graph
      modifies this
      ensures failure.Some? ==>
              DepthFirst.VisitAll(graph, EntryIds(modules), old(visiting), EntryIds(old(ordered))) == None
      ensures failure.None? ==>
                && Valid() && visiting == old(visiting)
                && DepthFirst.VisitAll(graph, EntryIds(modules), old(visiting), EntryIds(old(ordered))) ==
                   Some(EntryIds(ordered))
    {
      hide DepthFirst.VisitAll, DepthFirst.Visit, DepthFirst.Closed, RequiredIds;
      ghost var roots := EntryIds(modules);
      assert roots[0..] == roots;
      for i := 0 to |modules|
        invariant Valid() && visiting == old(visiting)
        invariant forall n :: n in roots[i..] ==> n in graph
        invariant DepthFirst.VisitAll(graph, roots, visiting, EntryIds(old(ordered)))
               == DepthFirst.VisitAll(graph, roots[i..], visiting, EntryIds(ordered))
      {
        assert roots[i..] == [modules[i].id] + roots[i + 1..];
        DepthFirst.VisitAllStep(graph, modules[i].id, roots[i + 1..], visiting, EntryIds(ordered));
        failure := Visit(modules[i].id);
        if failure.Some? {
          return;
        }
      }
      assert roots[|modules|..] == [];
      DepthFirst.VisitNone(graph, visiting, EntryIds(ordered));
      return None;
    }
  }

  lemma RequiredIdsStep(dependencies: seq<IndexDependency>, i: nat)
    requires i < |dependencies|
    ensures RequiredIds(dependencies[i..]) ==
            if dependencies[i].required then [dependencies[i].id] + RequiredIds(dependencies[i + 1..])
            else RequiredIds(dependencies[i + 1..])
  {
    assert dependencies[i..][1..] == dependencies[i + 1..];
  }

  lemma {:induction false} EntriesByIdMeaning(entries: seq<Entry>)
    requires DistinctKeys(entries, EntryId)
    ensures forall e :: e in entries ==> e.id in EntriesById(entries) && EntriesById(entries)[e.id] == e
    ensures forall id :: id in EntriesById(entries) ==>
            EntriesById(entries)[id] in entries && EntriesById(entries)[id].id == id
    ensures forall id :: id in EntryIds(entries) <==> id in EntriesById(entries)
  {
    if entries != [] {
      var front, last := entries[..|entries| - 1], entries[|entries| - 1];
      assert entries == front + [last] && EntryIds(entries) == EntryIds(front) + [last.id];
      EntriesByIdMeaning(front);
      forall e | e in front ensures e.id != last.id {
        var i :| 0 <= i < |front| && front[i] == e;
        assert EntryId(entries[i]) != EntryId(entries[|front|]);
      }
    }
  }

  /** The post-order of the second walk over a listing. */
  ghost function PostOrder(listing: seq<Entry>): Option<seq<string>>
    requires DistinctKeys(listing, EntryId) && DepthFirst.Closed(GraphOf(EntriesById(listing)))
  {
    EntriesByIdMeaning(listing);
    DepthFirst.VisitAll(GraphOf(EntriesById(listing)), EntryIds(listing), {}, [])
  }

  method IndexById(modules: seq<Entry>) returns (byId: map<string, Entry>)
    ensures byId == EntriesById(modules)
  {
    byId := map[];
    for i := 0 to |modules|
      invariant byId == EntriesById(modules[..i])
    {
      assert modules[..i + 1][..i] == modules[..i];
      byId := byId[modules[i].id := modules[i]];
    }
    assert modules[..|modules|] == modules;
  }

  method DependencyOrdered(modules: seq<Entry>) returns (r: Result<seq<Entry>, ResolveError>)
    requires DistinctKeys(modules, EntryId) && DepthFirst.Closed(GraphOf(EntriesById(modules)))
    ensures r.Ok? <==> PostOrder(modules).Some?
    ensures r.Ok? ==> PostOrder(modules) == Some(EntryIds(r.value)) && forall e :: e in r.value ==> e in modules
  {
    EntriesByIdMeaning(modules);
    var byId := IndexById(modules);
    var walk := new Listing(byId);
    var failure := walk.VisitListed(modules);
    if failure.Some? {
      return Err(failure.value);
    }
    return Ok(walk.ordered);
  }

  // --- what the two walks give together ------------------------------------------------------------------

  /** Every required dependency is listed at its exact version. */
  ghost predicate VersionClosed(entries: seq<Entry>) {
    forall e, d :: e in entries && d in e.dependencies && d.required ==> Provided(entries, d)
  }

  ghost predicate Provided(entries: seq<Entry>, d: IndexDependency) {
    exists f :: f in entries && f.id == d.id && f.version == d.versionConstraint
  }

  lemma ClosureIsVersionClosed(ix: Index, requested: seq<Ref>, entries: seq<Entry>)
    requires WellFormed(ix) && Admissible(ix, requested) && ClosureEntries(ix, requested, entries)
    ensures VersionClosed(entries)
  {
    forall e, d | e in entries && d in e.dependencies && d.required ensures Provided(entries, d) {
      assert InClosure(ix, requested, e);
      var r :| Reachable(ix, requested, r) && Key(r) in ix.entries && ix.entries[Key(r)] == e;
      assert Step(ix, r, RefOf(d));
      StepIsReachable(ix, requested, r, RefOf(d));
      EntryIsItsReference(ix, RefOf(d));
      assert InClosure(ix, requested, ix.entries[Key(RefOf(d))]);
    }
  }

  lemma VersionClosedGraph(listing: seq<Entry>)
    requires VersionClosed(listing) && DistinctKeys(listing, EntryId)
    ensures DepthFirst.Closed(GraphOf(EntriesById(listing)))
  {
    EntriesByIdMeaning(listing);
    var byId := EntriesById(listing);
    var g := GraphOf(byId);
    forall n, m | n in g && m in g[n] ensures m in g {
      RequiredIdsMembers(byId[n].dependencies);
      var d :| d in byId[n].dependencies && d.required && d.id == m;
      assert Provided(listing, d);
    }
  }

  /** A settled order of references is an order of the listing's graph, so it has no cycle. */
  function OrderIds(order: seq<Ref>): (ids: seq<string>)
    ensures |ids| == |order| && forall i :: 0 <= i < |ids| ==> ids[i] == order[i].id
  {
    seq(|order|, i requires 0 <= i < |order| => order[i].id)
  }

  lemma SettledOrdersGraph(ix: Index, order: seq<Ref>, listing: seq<Entry>)
    requires WellFormed(ix) && Settled(ix, order) && DistinctKeys(listing, EntryId) && VersionClosed(listing)
    requires forall r :: r in order ==> Good(ix, r) && ix.entries[Key(r)] in listing
    requires forall e :: e in listing ==> exists r :: r in order && Key(r) in ix.entries && ix.entries[Key(r)] == e
    requires forall i, j :: 0 <= i < j < |order| ==> order[i].id != order[j].id
    ensures DepthFirst.Closed(GraphOf(EntriesById(listing))) && !DepthFirst.Cyclic(GraphOf(EntriesById(listing)))
  {
    hide WellFormed, Settled, Good, VersionClosed, Key, DepthFirst.Closed, DepthFirst.Cyclic, EntriesById, GraphOf;
    VersionClosedGraph(listing);
    var g, ids := GraphOf(EntriesById(listing)), OrderIds(order);
    forall i | 0 <= i < |ids| ensures ids[i] in g && forall m :: m in g[ids[i]] ==> m in ids[..i] {
      DependenciesComeBefore(ix, order, listing, i);
    }
    forall n | n in g ensures n in ids {
      GraphIdIsOrdered(ix, order, listing, n);
    }
    DepthFirst.OrderExcludesCycles(g, ids);
  }

  lemma DependenciesComeBefore(ix: Index, order: seq<Ref>, listing: seq<Entry>, i: nat)
    requires WellFormed(ix) && Settled(ix, order) && DistinctKeys(listing, EntryId) && i < |order|
    requires Good(ix, order[i]) && ix.entries[Key(order[i])] in listing
    ensures order[i].id in GraphOf(EntriesById(listing))
    ensures forall m :: m in GraphOf(EntriesById(listing))[order[i].id] ==> m in OrderIds(order)[..i]
  {
    EntriesByIdMeaning(listing);
    hide EntriesById;
    var byId, r := EntriesById(listing), order[i];
    EntryIsItsReference(ix, r);
    RequiredIdsMembers(byId[r.id].dependencies);
    forall m | m in GraphOf(byId)[r.id] ensures m in OrderIds(order)[..i] {
      var d :| d in byId[r.id].dependencies && d.required && d.id == m;
      assert Step(ix, r, RefOf(d));
      var k :| 0 <= k < i && order[..i][k] == RefOf(d);
      assert OrderIds(order)[..i][k] == m;
    }
  }

  lemma GraphIdIsOrdered(ix: Index, order: seq<Ref>, listing: seq<Entry>, n: string)
    requires WellFormed(ix) && DistinctKeys(listing, EntryId) && n in GraphOf(EntriesById(listing))
    requires forall r :: r in order ==> Good(ix, r)
    requires forall e :: e in listing ==> exists r :: r in order && Key(r) in ix.entries && ix.entries[Key(r)] == e
    ensures n in OrderIds(order)
  {
    EntriesByIdMeaning(listing);
    hide EntriesById;
    var byId := EntriesById(listing);
    var r :| r in order && Key(r) in ix.entries && ix.entries[Key(r)] == byId[n];
    EntryIsItsReference(ix, r);
    var k :| 0 <= k < |order| && order[k] == r;
    assert OrderIds(order)[k] == n;
  }

  /** The listing the second walk makes of a sorted closure. */
  ghost predicate ListedFrom(listing: seq<Entry>, modules: seq<Entry>) {
    && DistinctKeys(listing, EntryId) && DepthFirst.Closed(GraphOf(EntriesById(listing)))
    && PostOrder(listing) == Some(EntryIds(modules))
    && (forall e :: e in modules <==> e in listing)
  }

  lemma ListedElements(listing: seq<Entry>, modules: seq<Entry>)
    requires DistinctKeys(listing, EntryId) && DepthFirst.Closed(GraphOf(EntriesById(listing)))
    requires PostOrder(listing) == Some(EntryIds(modules)) && forall e :: e in modules ==> e in listing
    ensures ListedFrom(listing, modules) && DistinctKeys(modules, EntryId)
    ensures DepthFirst.Ordered(GraphOf(EntriesById(listing)), EntryIds(modules))
  {
    hide EntriesById, RequiredIds, DepthFirst.VisitAll, DepthFirst.Cyclic, DepthFirst.Closed, DepthFirst.Ordered;
    EntriesByIdMeaning(listing);
    var byId := EntriesById(listing);
    DepthFirst.VisitAllDecidesCycles(GraphOf(byId), EntryIds(listing));
    OrderedIdsAreDistinct(GraphOf(byId), modules);
    forall e | e in listing ensures e in modules {
      assert e.id in GraphOf(byId);
      ListedById(listing, modules, e);
    }
  }

  lemma OrderedIdsAreDistinct(g: DepthFirst.Graph, modules: seq<Entry>)
    requires DepthFirst.Ordered(g, EntryIds(modules))
    ensures DistinctKeys(modules, EntryId)
  {
    var ids := EntryIds(modules);
    forall i, j | 0 <= i < j < |modules| ensures EntryId(modules[i]) != EntryId(modules[j]) {
      assert ids[i] != ids[j];
    }
  }

  lemma ListedById(listing: seq<Entry>, modules: seq<Entry>, e: Entry)
    requires DistinctKeys(listing, EntryId) && e in listing && e.id in EntryIds(modules)
    requires forall m :: m in modules ==> m in listing
    ensures e in modules
  {
    var k :| 0 <= k < |modules| && EntryIds(modules)[k] == e.id;
    assert modules[k] in listing;
    var i :| 0 <= i < |listing| && listing[i] == e;
    var j :| 0 <= j < |listing| && listing[j] == modules[k];
    assert EntryId(listing[i]) == EntryId(listing[j]);
  }

  lemma OrderedListsFirst(listing: seq<Entry>, modules: seq<Entry>, i: nat, d: IndexDependency)
    requires VersionClosed(listing) && DistinctKeys(listing, EntryId)
    requires DepthFirst.Ordered(GraphOf(EntriesById(listing)), EntryIds(modules)) && forall e :: e in modules ==>
             e in listing
    requires i < |modules| && d in modules[i].dependencies && d.required
    ensures ListedBefore(modules, i, d)
  {
    EntriesByIdMeaning(listing);
    var byId, ids := EntriesById(listing), EntryIds(modules);
    assert modules[i] in listing && byId[ids[i]] == modules[i];
    RequiredIdsMembers(modules[i].dependencies);
    assert d.id in GraphOf(byId)[ids[i]];
    var j :| 0 <= j < i && ids[..i][j] == d.id;
    assert Provided(listing, d);
    var f :| f in listing && f.id == d.id && f.version == d.versionConstraint;
    assert modules[j] in listing && byId[ids[j]] == modules[j] && byId[f.id] == f;
  }

  lemma ListedDependenciesFirst(listing: seq<Entry>, modules: seq<Entry>)
    requires VersionClosed(listing) && DistinctKeys(listing, EntryId)
             && DepthFirst.Closed(GraphOf(EntriesById(listing)))
    requires PostOrder(listing) == Some(EntryIds(modules)) && forall e :: e in modules ==> e in listing
    ensures ListedFrom(listing, modules) && DistinctKeys(modules, EntryId) && DependenciesFirst(modules)
  {
    ListedElements(listing, modules);
    forall i, d | 0 <= i < |modules| && d in modules[i].dependencies && d.required ensures ListedBefore(modules, i, d) {
      OrderedListsFirst(listing, modules, i, d);
    }
  }

  /** What a successful resolution returns. */
  ghost predicate IsResolution(ix: Index, requested: seq<Ref>, modules: seq<Entry>) {
    && ClosureEntries(ix, requested, modules)
    && DistinctKeys(modules, EntryId) && DependenciesFirst(modules)
    && exists listing ::
       StrictlySortedBy(listing, EntryId) && ClosureEntries(ix, requested, listing) && ListedFrom(listing, modules)
  }

  function Agreement(byKey: map<string, Source>, byId: map<string, Source>): Entry -> bool {
    (e: Entry) => SourceAgrees(KeyOf(e.id, e.version), e, byKey, byId)
  }

  function IndexOf(modules: seq<Entry>, sources: seq<Source>): Index {
    Index(EntriesOf(modules), ExactVersion, Agreement(SourcesByKey(sources), SourcesById(sources)))
  }

  lemma IndexIsWellFormed(modules: seq<Entry>, sources: seq<Source>)
    requires Normalised(modules)
    ensures WellFormed(IndexOf(modules, sources))
  {
    EntriesMatchTheirKeys(modules);
    forall v | ExactVersion(v) ensures '@' !in v { NoAtInExact(v); }
  }

  /** What is looked up in the index: the last entry under each key, the exact versions, and the entries that
      the sources let through. */
  ghost predicate Describes(ix: Index, modules: seq<Entry>, sources: seq<Source>) {
    && (forall key :: key in ix.entries ==> exists k :: IsLastEntry(modules, key, k) && ix.entries[key] == modules[k])
    && (forall e :: e in modules ==> e.id + "@" + e.version in ix.entries)
    && (forall version :: ix.exact(version) <==> IsRelease(version, {'-', '+'}))
    && (forall e :: ix.agrees(e) ==> AgreesWith(sources, e))
    && (forall e :: AgreesWith(sources, e) && DistinctKeys(e.dependencies, ById) ==> ix.agrees(e))
  }

  lemma IndexMeaning(modules: seq<Entry>, sources: seq<Source>)
    ensures Describes(IndexOf(modules, sources), modules, sources)
  {
    hide EntriesOf, SourcesByKey, SourcesById, SourceAgrees, AgreesWith, IsVersionText, IsRelease, DistinctKeys,
         Agreement;
    var ix := IndexOf(modules, sources);
    forall key ensures key in ix.entries <==> exists k :: IsLastEntry(modules, key, k)
      ensures forall k :: IsLastEntry(modules, key, k) ==> key in ix.entries && ix.entries[key] == modules[k]
    {
      EntriesOfMeaning(modules, key);
    }
    forall e | e in modules ensures e.id + "@" + e.version in ix.entries {
      var i :| 0 <= i < |modules| && modules[i] == e;
      EntryIsListed(modules, i);
    }
    forall version ensures ix.exact(version) <==> IsRelease(version, {'-', '+'}) {
      VersionTextMeaning(version, {'-', '+'});
    }
    forall e ensures ix.agrees(e) ==> AgreesWith(sources, e)
      ensures AgreesWith(sources, e) && DistinctKeys(e.dependencies, ById) ==> ix.agrees(e)
    {
      AgreementMeaning(sources, e);
      AgreementOf(sources, e);
    }
  }

  lemma AgreementOf(sources: seq<Source>, e: Entry)
    ensures Agreement(SourcesByKey(sources), SourcesById(sources))(e)
            <==> SourceAgrees(KeyOf(e.id, e.version), e, SourcesByKey(sources), SourcesById(sources))
  {
  }

  lemma {:induction false} EntryIsListed(modules: seq<Entry>, i: nat)
    requires i < |modules|
    ensures modules[i].id + "@" + modules[i].version in EntriesOf(modules)
  {
    if i < |modules| - 1 { EntryIsListed(modules[..|modules| - 1], i); }
  }

  method BuildIndex(modules: seq<Entry>, sources: seq<Source>) returns (ix: Index)
    ensures ix == IndexOf(modules, sources) && Describes(ix, modules, sources)
  {
    hide Describes;
    IndexMeaning(modules, sources);
    var entries: map<string, Entry> := map[];
    for i := 0 to |modules|
      invariant entries == EntriesOf(modules[..i])
    {
      assert modules[..i + 1][..i] == modules[..i];
      entries := entries[KeyOf(modules[i].id, modules[i].version) := modules[i]];
    }
    var byKey: map<string, Source>, byId: map<string, Source> := map[], map[];
    for i := 0 to |sources|
      invariant byKey == SourcesByKey(sources[..i]) && byId == SourcesById(sources[..i])
    {
      assert sources[..i + 1][..i] == sources[..i];
      byKey := byKey[KeyOf(sources[i].id, sources[i].version) := sources[i]];
      byId := byId[sources[i].id := sources[i]];
    }
    assert modules[..|modules|] == modules && sources[..|sources|] == sources;
    return Index(entries, ExactVersion, Agreement(byKey, byId));
  }

  lemma ClosureComesFromIndex(ix: Index, modules: seq<Entry>, sources: seq<Source>, requested: seq<Ref>, e: Entry)
    requires Describes(ix, modules, sources) && Admissible(ix, requested) && InClosure(ix, requested, e)
    ensures e in modules && AgreesWith(sources, e)
  {
    hide Reachable, AgreesWith;
    var r :| Reachable(ix, requested, r) && Key(r) in ix.entries && ix.entries[Key(r)] == e;
    var k :| IsLastEntry(modules, Key(r), k) && e == modules[k];
  }

  /** Resolution succeeds exactly when the closure of the requests is admissible, and then
      returns exactly that closure, each id once, every required dependency first. */
  method Resolve(index: seq<Entry>, requested: seq<Ref>, sources: seq<Source>)
    returns (r: Result<seq<Entry>, ResolveError>)
    requires Normalised(index)
    ensures r.Ok? <==> Admissible(IndexOf(index, sources), requested)
    ensures r.Ok? ==> IsResolution(IndexOf(index, sources), requested, r.value)
    ensures r.Err? ==> IsRefusal(IndexOf(index, sources), requested, r.error)
    ensures r.Ok? ==> forall e :: e in r.value ==> e in index && AgreesWith(sources, e)
    ensures Describes(IndexOf(index, sources), index, sources)
  {
    hide IsRefusal, Describes, Admissible, ProgressOk, WellFormed, InClosure, IndexOf;
    IndexIsWellFormed(index, sources);
    var ix := BuildIndex(index, sources);
    var selection := new Selection(ix, requested);
    var failure := selection.SelectAll(requested);
    if failure.Some? {
      RefusalIsRight(ix, requested, failure.value);
      return Err(failure.value);
    }
    ghost var p := selection.Now();
    SettledIsAdmissible(ix, requested, p);
    forall e ensures (exists k :: k in selection.resolved && selection.resolved[k] == e) <==>
      InClosure(ix, requested, e) {
      ResolvedIsClosure(ix, requested, p, selection.resolved, e);
    }
    forall j, k | j in selection.resolved && k in selection.resolved && j != k
      ensures selection.resolved[j].id != selection.resolved[k].id
    {
      ResolvedHasDistinctIds(ix, requested, p, selection.resolved, j, k);
    }
    var modules := ListEntries(selection.resolved);
    var listing := StableSort(modules, EntryId);
    StableSortSorts(modules, EntryId);
    DistinctKeysPermute(modules, listing, EntryId);
    SortedDistinctIsStrict(listing, EntryId);
    ClosureIsVersionClosed(ix, requested, listing);
    SettledOrdersListing(ix, requested, p, listing);
    var ordered := DependencyOrdered(listing);
    ListedDependenciesFirst(listing, ordered.value);
    assert ClosureEntries(ix, requested, ordered.value);
    forall e | e in ordered.value ensures e in index && AgreesWith(sources, e) {
      assert InClosure(ix, requested, e);
      ClosureComesFromIndex(ix, index, sources, requested, e);
    }
    return Ok(ordered.value);
  }

  /** The resolved map holds exactly the entries of the settled references. */
  ghost predicate ResolvedEntries(ix: Index, p: Progress, resolved: map<string, Entry>) {
    p.resolved == resolved.Keys && forall k :: k in resolved ==> k in ix.entries && resolved[k] == ix.entries[k]
  }

  lemma ResolvedIsClosure(ix: Index, requested: seq<Ref>, p: Progress, resolved: map<string, Entry>, e: Entry)
    requires ProgressOk(ix, requested, p) && ResolvedEntries(ix, p, resolved)
    requires forall r :: Reachable(ix, requested, r) <==> r in p.order
    ensures (exists k :: k in resolved && resolved[k] == e) <==> InClosure(ix, requested, e)
  {
    hide Reachable, Settled, StackOk;
    if exists k :: k in resolved && resolved[k] == e {
      var k :| k in resolved && resolved[k] == e;
      var r :| r in p.order && Key(r) == k;
      assert Reachable(ix, requested, r) && ix.entries[Key(r)] == e;
    }
    if InClosure(ix, requested, e) {
      var r :| Reachable(ix, requested, r) && Key(r) in ix.entries && ix.entries[Key(r)] == e;
      assert Key(r) in resolved;
    }
  }

  lemma ResolvedHasDistinctIds(ix: Index, requested: seq<Ref>, p: Progress, resolved: map<string, Entry>, j: string,
                               k: string)
    requires ProgressOk(ix, requested, p) && ResolvedEntries(ix, p, resolved)
    requires j in resolved && k in resolved && j != k
    ensures resolved[j].id != resolved[k].id
  {
    hide Reachable, Settled, StackOk;
    var r :| r in p.order && Key(r) == j;
    var q :| q in p.order && Key(q) == k;
    EntryIsItsReference(ix, r);
    EntryIsItsReference(ix, q);
    assert Picked(p.selected, r) && Picked(p.selected, q);
  }

  lemma SettledOrdersListing(ix: Index, requested: seq<Ref>, p: Progress, listing: seq<Entry>)
    requires ProgressOk(ix, requested, p) && forall r :: Reachable(ix, requested, r) <==> r in p.order
    requires ClosureEntries(ix, requested, listing) && DistinctKeys(listing, EntryId) && VersionClosed(listing)
    ensures DepthFirst.Closed(GraphOf(EntriesById(listing))) && PostOrder(listing).Some?
  {
    hide Reachable, StackOk;
    forall r | r in p.order ensures Good(ix, r) && ix.entries[Key(r)] in listing {
      assert InClosure(ix, requested, ix.entries[Key(r)]);
    }
    forall e | e in listing ensures exists r :: r in p.order && Key(r) in ix.entries && ix.entries[Key(r)] == e {
      assert InClosure(ix, requested, e);
    }
    forall i, j | 0 <= i < j < |p.order| ensures p.order[i].id != p.order[j].id {
      assert Picked(p.selected, p.order[i]) && Picked(p.selected, p.order[j]) && p.order[i] != p.order[j];
    }
    SettledOrdersGraph(ix, p.order, listing);
    EntriesByIdMeaning(listing);
    DepthFirst.VisitAllDecidesCycles(GraphOf(EntriesById(listing)), EntryIds(listing));
  }

  // --- independence of the request list ------------------------------------------------------------------

  lemma SameRequestsSameClosure(ix: Index, a: seq<Ref>, b: seq<Ref>)
    requires forall r :: r in a <==> r in b
    ensures forall r :: Reachable(ix, a, r) <==> Reachable(ix, b, r)
    ensures Admissible(ix, a) <==> Admissible(ix, b)
    ensures forall e :: InClosure(ix, a, e) <==> InClosure(ix, b, e)
  {
  }

  lemma SameIdSameEntry(m: seq<Entry>, i: nat, e: Entry)
    requires DistinctKeys(m, EntryId) && i < |m| && e in m && e.id == m[i].id
    ensures e == m[i]
  {
    var k :| 0 <= k < |m| && m[k] == e;
    assert EntryId(m[k]) == EntryId(m[i]);
  }

  /** Neither the outcome nor the returned sequence depends on order or repetition in the requests. */
  lemma RequestOrderIsIrrelevant(ix: Index, a: seq<Ref>, b: seq<Ref>, m: seq<Entry>, n: seq<Entry>)
    requires forall r :: r in a <==> r in b
    ensures Admissible(ix, a) <==> Admissible(ix, b)
    ensures IsResolution(ix, a, m) && IsResolution(ix, b, n) ==> m == n
  {
    SameRequestsSameClosure(ix, a, b);
    if IsResolution(ix, a, m) && IsResolution(ix, b, n) {
      var x :| StrictlySortedBy(x, EntryId) && ClosureEntries(ix, a, x) && ListedFrom(x, m);
      var y :| StrictlySortedBy(y, EntryId) && ClosureEntries(ix, b, y) && ListedFrom(y, n);
      StrictListingIsUnique(x, y, EntryId);
      assert EntryIds(m) == EntryIds(n);
      forall i | 0 <= i < |m| ensures m[i] == n[i] {
        assert EntryIds(m)[i] == EntryIds(n)[i] && n[i] in m;
        SameIdSameEntry(m, i, n[i]);
      }
    }
  }
}
