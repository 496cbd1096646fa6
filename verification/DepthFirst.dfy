/** Depth-first post-order over a finite graph of string nodes, as a function. The
    repository's recursive closures are proved to compute it; what it computes is proved here. */
module DepthFirst {
  import opened Outcomes
  import opened Ordering

  type Graph = map<string, seq<string>>

  ghost predicate Closed(g: Graph) {
    forall n, m :: n in g && m in g[n] ==> m in g
  }

  function Visit(g: Graph, n: string, visiting: set<string>, done: seq<string>): Option<seq<string>>
    requires Closed(g) && n in g
    decreases g.Keys - visiting, 0, 0
  {
    if n in done then Some(done)
    else if n in visiting then None
    else
      var inner := VisitAll(g, g[n], visiting + {n}, done);
      if inner.None? then None else Some(inner.value + [n])
  }

  function VisitAll(g: Graph, ns: seq<string>, visiting: set<string>, done: seq<string>): Option<seq<string>>
    requires Closed(g) && forall n :: n in ns ==> n in g
    decreases g.Keys - visiting, 1, |ns|
  {
    if ns == [] then Some(done)
    else
      var first := Visit(g, ns[0], visiting, done);
      if first.None? then None else VisitAll(g, ns[1..], visiting, first.value)
  }

  lemma VisitAllStep(g: Graph, n: string, rest: seq<string>, visiting: set<string>, done: seq<string>)
    requires Closed(g) && n in g && forall m :: m in rest ==> m in g
    ensures VisitAll(g, [n] + rest, visiting, done) ==
            var first := Visit(g, n, visiting, done);
            if first.None? then None else VisitAll(g, rest, visiting, first.value)
  {
    assert ([n] + rest)[1..] == rest;
  }

  lemma VisitNone(g: Graph, visiting: set<string>, done: seq<string>)
    requires Closed(g)
    ensures VisitAll(g, [], visiting, done) == Some(done)
  {
  }

  /** Distinct nodes, each after all its successors. */
  ghost predicate Ordered(g: Graph, order: seq<string>) {
    && Distinct(order)
    && (forall i :: 0 <= i < |order| ==> order[i] in g && forall m :: m in g[order[i]] ==> m in order[..i])
  }

  predicate Edge(g: Graph, a: string, b: string) {
    a in g && b in g[a]
  }

  ghost predicate IsPath(g: Graph, p: seq<string>) {
    && |p| > 0
    && (forall i :: 0 <= i < |p| ==> p[i] in g)
    && (forall i :: 0 < i < |p| ==> Edge(g, p[i - 1], p[i]))
  }

  ghost predicate Cyclic(g: Graph) {
    exists p: seq<string> :: IsPath(g, p) && |p| > 1 && p[0] == p[|p| - 1]
  }

  // --- what a successful visit adds ------------------------------------------------------------

  ghost predicate Grows(g: Graph, visiting: set<string>, done: seq<string>, order: seq<string>) {
    && Ordered(g, order)
    && done <= order
    && (forall n :: n in order && n !in done ==> n !in visiting)
  }

  lemma {:induction false} VisitGrows(g: Graph, n: string, visiting: set<string>, done: seq<string>)
    requires Closed(g) && n in g && Ordered(g, done)
    requires Visit(g, n, visiting, done).Some?
    ensures Grows(g, visiting, done, Visit(g, n, visiting, done).value)
    ensures n in Visit(g, n, visiting, done).value
    decreases g.Keys - visiting, 0, 0
  {
    if n !in done {
      VisitAllGrows(g, g[n], visiting + {n}, done);
      var inner := VisitAll(g, g[n], visiting + {n}, done).value;
      var order := inner + [n];
      assert n !in inner;
      forall i | 0 <= i < |order| ensures order[i] in g && forall m :: m in g[order[i]] ==> m in order[..i] {
        if i < |inner| { assert order[..i] == inner[..i]; } else { assert order[..i] == inner; }
      }
    }
  }

  lemma {:induction false} VisitAllGrows(g: Graph, ns: seq<string>, visiting: set<string>, done: seq<string>)
    requires Closed(g) && (forall n :: n in ns ==> n in g) && Ordered(g, done)
    requires VisitAll(g, ns, visiting, done).Some?
    ensures Grows(g, visiting, done, VisitAll(g, ns, visiting, done).value)
    ensures forall n :: n in ns ==> n in VisitAll(g, ns, visiting, done).value
    decreases g.Keys - visiting, 1, |ns|
  {
    if ns != [] {
      VisitGrows(g, ns[0], visiting, done);
      var first := Visit(g, ns[0], visiting, done).value;
      VisitAllGrows(g, ns[1..], visiting, first);
    }
  }

  // --- a failed visit has met a cycle ----------------------------------------------------------

  ghost predicate StackOf(g: Graph, stack: seq<string>, visiting: set<string>) {
    && visiting == (set n | n in stack)
    && (stack == [] || IsPath(g, stack))
  }

  lemma {:induction false} VisitFailsOnCycle(g: Graph, n: string, stack: seq<string>, visiting: set<string>,
                                             done: seq<string>)
    requires Closed(g) && n in g && StackOf(g, stack, visiting)
    requires stack == [] || n in g[stack[|stack| - 1]]
    requires Visit(g, n, visiting, done) == None
    ensures Cyclic(g)
    decreases g.Keys - visiting, 0, 0
  {
    if n in visiting {
      var i :| 0 <= i < |stack| && stack[i] == n;
      var p := stack[i..] + [n];
      assert IsPath(g, p) && p[0] == p[|p| - 1] && |p| > 1;
    } else {
      assert IsPath(g, stack + [n]);
      VisitAllFailsOnCycle(g, g[n], stack + [n], visiting + {n}, done);
    }
  }

  lemma {:induction false} VisitAllFailsOnCycle(g: Graph, ns: seq<string>, stack: seq<string>, visiting: set<string>,
                                                done: seq<string>)
    requires Closed(g) && (forall n :: n in ns ==> n in g) && StackOf(g, stack, visiting)
    requires stack == [] || (forall n :: n in ns ==> n in g[stack[|stack| - 1]])
    requires VisitAll(g, ns, visiting, done) == None
    ensures Cyclic(g)
    decreases g.Keys - visiting, 1, |ns|
  {
    var first := Visit(g, ns[0], visiting, done);
    assert ns[0] in ns && forall n :: n in ns[1..] ==> n in ns;
    if first.None? {
      VisitFailsOnCycle(g, ns[0], stack, visiting, done);
    } else {
      VisitAllFailsOnCycle(g, ns[1..], stack, visiting, first.value);
    }
  }

  // --- an order excludes cycles ------------------------------------------------------------------

  lemma {:induction false} PathDescends(g: Graph, order: seq<string>, p: seq<string>, i: nat)
    requires Ordered(g, order) && IsPath(g, p) && i < |order| && p[0] == order[i]
    ensures |p| > 1 ==> p[|p| - 1] in order[..i]
    decreases |p|
  {
    if |p| > 1 {
      assert Edge(g, p[0], p[1]);
      var k :| 0 <= k < i && order[k] == p[1];
      PathDescends(g, order, p[1..], k);
      assert forall x :: x in order[..k] ==> x in order[..i];
    }
  }

  lemma OrderExcludesCycles(g: Graph, order: seq<string>)
    requires Ordered(g, order) && forall n :: n in g ==> n in order
    ensures !Cyclic(g)
  {
    if Cyclic(g) {
      var p :| IsPath(g, p) && |p| > 1 && p[0] == p[|p| - 1];
      var i :| 0 <= i < |order| && order[i] == p[0];
      PathDescends(g, order, p, i);
    }
  }

  /** Visiting every node succeeds exactly on acyclic graphs, and then lists each node once,
      after its successors. */
  lemma VisitAllDecidesCycles(g: Graph, roots: seq<string>)
    requires Closed(g) && (forall n :: n in roots <==> n in g)
    ensures VisitAll(g, roots, {}, []).Some? <==> !Cyclic(g)
    ensures VisitAll(g, roots, {}, []).Some? ==>
              && Ordered(g, VisitAll(g, roots, {}, []).value)
              && (forall n :: n in VisitAll(g, roots, {}, []).value <==> n in g)
  {
    if VisitAll(g, roots, {}, []).Some? {
      VisitAllGrows(g, roots, {}, []);
      OrderExcludesCycles(g, VisitAll(g, roots, {}, []).value);
    } else {
      VisitAllFailsOnCycle(g, roots, [], {}, []);
    }
  }

  // --- stability ---------------------------------------------------------------------------------

  lemma {:induction false} VisitingDoneIsIdle(g: Graph, ns: seq<string>, visiting: set<string>, done: seq<string>)
    requires Closed(g) && (forall n :: n in ns ==> n in g) && (forall n :: n in ns ==> n in done)
    ensures VisitAll(g, ns, visiting, done) == Some(done)
  {
    if ns != [] { VisitingDoneIsIdle(g, ns[1..], visiting, done); }
  }

  lemma {:induction false} OrderedRootsStay(g: Graph, roots: seq<string>, i: nat)
    requires Closed(g) && Ordered(g, roots) && i <= |roots|
    ensures VisitAll(g, roots[i..], {}, roots[..i]) == Some(roots)
    decreases |roots| - i
  {
    if i == |roots| {
      assert roots[..i] == roots && roots[i..] == [];
    } else {
      var n, done := roots[i], roots[..i];
      assert n !in done;
      VisitingDoneIsIdle(g, g[n], {n}, done);
      assert {} + {n} == {n};
      assert done + [n] == roots[..i + 1] && roots[i..][1..] == roots[i + 1..];
      OrderedRootsStay(g, roots, i + 1);
    }
  }

  /** An order that is already right is left as it is. */
  lemma OrderedRootsAreKept(g: Graph, roots: seq<string>)
    requires Closed(g) && Ordered(g, roots)
    ensures VisitAll(g, roots, {}, []) == Some(roots)
  {
    OrderedRootsStay(g, roots, 0);
    assert roots[0..] == roots && roots[..0] == [];
  }
}
