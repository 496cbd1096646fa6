/** The commands one Execute call runs: each at its first occurrence only. */
module CommandTrace {
  import opened Ordering

  function Elements(s: seq<string>): (e: set<string>)
    ensures forall c :: c in e <==> c in s
  {
    set c | c in s
  }

  /** The commands of the list not in 'seen', each at its first occurrence. */
  function FirstNew(list: seq<string>, seen: set<string>): seq<string> {
    if list == [] then []
    else if list[0] in seen then FirstNew(list[1..], seen)
    else [list[0]] + FirstNew(list[1..], seen + {list[0]})
  }

  lemma FirstNewOfNone(seen: set<string>)
    ensures FirstNew([], seen) == []
  {
  }

  lemma {:induction false} FirstNewOfConcat(a: seq<string>, b: seq<string>, seen: set<string>)
    ensures FirstNew(a + b, seen) == FirstNew(a, seen) + FirstNew(b, seen + Elements(a))
  {
    if a == [] {
      assert a + b == b && seen + Elements(a) == seen;
    } else {
      assert (a + b)[1..] == a[1..] + b;
      var next := if a[0] in seen then seen else seen + {a[0]};
      FirstNewOfConcat(a[1..], b, next);
      assert next + Elements(a[1..]) == seen + Elements(a);
    }
  }

  /** The commands come in the order of their first occurrences in the list. */
  ghost predicate InFirstOrder(list: seq<string>, r: seq<string>) {
    forall i, j :: 0 <= i < j < |r| ==> FirstIndex(list, r[i]) < FirstIndex(list, r[j])
  }

  /** What the list means: no command twice, exactly the new ones, and in order of first occurrence. */
  lemma {:induction false} FirstNewMeaning(list: seq<string>, seen: set<string>)
    ensures var r := FirstNew(list, seen);
            Distinct(r) && (forall c :: c in r <==> c in list && c !in seen) && InFirstOrder(list, r)
  {
    FirstNewMembers(list, seen);
    FirstNewInOrder(list, seen);
    RisingIsDistinct(list, FirstNew(list, seen));
  }

  lemma RisingIsDistinct(list: seq<string>, r: seq<string>)
    requires InFirstOrder(list, r)
    ensures Distinct(r)
  {
  }

  lemma {:induction false} FirstNewMembers(list: seq<string>, seen: set<string>)
    ensures forall c :: c in FirstNew(list, seen) <==> c in list && c !in seen
  {
    if list != [] {
      FirstNewMembers(list[1..], if list[0] in seen then seen else seen + {list[0]});
      assert list == [list[0]] + list[1..];
    }
  }

  lemma FirstIndexStep(list: seq<string>, c: string)
    requires list != []
    ensures FirstIndex(list, c) == if c == list[0] then 0 else 1 + FirstIndex(list[1..], c)
  {
  }

  lemma {:induction false} FirstNewInOrder(list: seq<string>, seen: set<string>)
    ensures InFirstOrder(list, FirstNew(list, seen))
  {
    if list != [] {
      var rest, next := list[1..], if list[0] in seen then seen else seen + {list[0]};
      FirstNewInOrder(rest, next);
      FirstNewMembers(rest, next);
      OrderGrows(list, FirstNew(rest, next));
    }
  }

  lemma OrderGrows(list: seq<string>, r: seq<string>)
    requires list != [] && InFirstOrder(list[1..], r) && list[0] !in r
    ensures InFirstOrder(list, r) && InFirstOrder(list, [list[0]] + r)
  {
    forall c ensures c in r ==> FirstIndex(list, c) == 1 + FirstIndex(list[1..], c) {
      FirstIndexStep(list, c);
    }
    FirstIndexStep(list, list[0]);
  }

  function FirstIndex(list: seq<string>, c: string): nat {
    if list == [] || list[0] == c then 0 else 1 + FirstIndex(list[1..], c)
  }
}
