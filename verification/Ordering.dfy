/** Go's string order and a stable sort by a string key. */
module Ordering {

  predicate Less(a: string, b: string) {
    if b == "" then false
    else if a == "" then true
    else a[0] < b[0] || (a[0] == b[0] && Less(a[1..], b[1..]))
  }

  lemma {:induction false} LessIsTotal(a: string, b: string)
    ensures !(Less(a, b) && Less(b, a))
    ensures Less(a, b) || Less(b, a) || a == b
    ensures a == b ==> !Less(a, b)
  {
    if a != "" && b != "" && a[0] == b[0] {
      LessIsTotal(a[1..], b[1..]);
      assert a == [a[0]] + a[1..] && b == [b[0]] + b[1..];
    }
  }

  lemma {:induction false} LessIsTransitive(a: string, b: string, c: string)
    requires Less(a, b) && Less(b, c)
    ensures Less(a, c)
  {
    if a != "" && a[0] == b[0] && b[0] == c[0] {
      LessIsTransitive(a[1..], b[1..], c[1..]);
    }
  }

  lemma NotLessIsTransitive(a: string, b: string, c: string)
    requires !Less(b, a) && !Less(c, b)
    ensures !Less(c, a)
  {
    LessIsTotal(a, b);
    LessIsTotal(b, c);
    LessIsTotal(a, c);
    if a != b && b != c { LessIsTransitive(a, b, c); }
  }

  /** The texts are the same up to i, where the first one has the smaller character. */
  ghost predicate IsSmallerAt(a: string, b: string, i: int) {
    0 <= i < |a| && i < |b| && a[..i] == b[..i] && a[i] as int < b[i] as int
  }

  /** The order is decided where two texts first differ; a text comes before its continuations. */
  lemma {:induction false} LessMeaning(a: string, b: string)
    ensures Less(a, b) <==> (a <= b && a != b) || exists i :: IsSmallerAt(a, b, i)
  {
    if a != "" && b != "" {
      assert a == [a[0]] + a[1..] && b == [b[0]] + b[1..];
      if a[0] == b[0] {
        LessMeaning(a[1..], b[1..]);
        assert a <= b <==> a[1..] <= b[1..];
        forall i | IsSmallerAt(a[1..], b[1..], i) ensures IsSmallerAt(a, b, i + 1) {
          assert a[..i + 1] == [a[0]] + a[1..][..i] && b[..i + 1] == [b[0]] + b[1..][..i];
        }
        forall i | IsSmallerAt(a, b, i) ensures IsSmallerAt(a[1..], b[1..], i - 1) {
          assert a[1..][..i - 1] == a[..i][1..] && b[1..][..i - 1] == b[..i][1..];
        }
      } else {
        forall i | IsSmallerAt(a, b, i) ensures i == 0 || a[0] == b[0] { SameFront(a, b, i); }
        assert a[0] < b[0] ==> IsSmallerAt(a, b, 0);
      }
    }
  }

  lemma SameFront(a: string, b: string, i: int)
    requires IsSmallerAt(a, b, i)
    ensures i == 0 || a[0] == b[0]
  {
    if i > 0 { assert a[..i][0] == b[..i][0]; }
  }

  ghost predicate SortedBy<T>(s: seq<T>, key: T -> string) {
    forall i, j :: 0 <= i < j < |s| ==> !Less(key(s[j]), key(s[i]))
  }

  /** Put x behind every element that is not greater. */
  function Insert<T>(s: seq<T>, x: T, key: T -> string): seq<T> {
    if s == [] then [x]
    else if Less(key(x), key(s[|s| - 1])) then Insert(s[..|s| - 1], x, key) + [s[|s| - 1]]
    else s + [x]
  }

  function StableSort<T>(s: seq<T>, key: T -> string): seq<T> {
    if s == [] then [] else Insert(StableSort(s[..|s| - 1], key), s[|s| - 1], key)
  }

  lemma {:induction false} InsertKeeps<T>(s: seq<T>, x: T, key: T -> string)
    requires SortedBy(s, key)
    ensures multiset(Insert(s, x, key)) == multiset(s) + multiset{x}
    ensures SortedBy(Insert(s, x, key), key)
  {
    InsertPermutes(s, x, key);
    if s != [] {
      var front, last := s[..|s| - 1], s[|s| - 1];
      if Less(key(x), key(last)) {
        InsertKeeps(front, x, key);
        LessIsTotal(key(x), key(last));
        InsertBounded(front, x, key, last);
        hide Insert, Less;
      } else {
        forall i | 0 <= i < |s| ensures !Less(key(x), key(s[i])) {
          LessIsTotal(key(s[i]), key(last));
          NotLessIsTransitive(key(s[i]), key(last), key(x));
        }
      }
    }
  }

  lemma {:induction false} InsertPermutes<T>(s: seq<T>, x: T, key: T -> string)
    ensures multiset(Insert(s, x, key)) == multiset(s) + multiset{x}
  {
    hide Less;
    if s != [] {
      assert s == s[..|s| - 1] + [s[|s| - 1]];
      InsertPermutes(s[..|s| - 1], x, key);
    }
  }

  lemma InsertBounded<T>(s: seq<T>, x: T, key: T -> string, last: T)
    requires !Less(key(last), key(x)) && forall i :: 0 <= i < |s| ==> !Less(key(last), key(s[i]))
    ensures forall i :: 0 <= i < |Insert(s, x, key)| ==> !Less(key(last), key(Insert(s, x, key)[i]))
  {
    hide Insert, Less;
    InsertPermutes(s, x, key);
    var placed := Insert(s, x, key);
    forall i | 0 <= i < |placed| ensures !Less(key(last), key(placed[i])) {
      assert placed[i] in multiset(s) + multiset{x};
      assert placed[i] == x || placed[i] in s;
    }
  }

  lemma EmptyIsSorted<T>(key: T -> string)
    ensures SortedBy([], key)
  {
  }

  lemma {:induction false} StableSortSorts<T>(s: seq<T>, key: T -> string)
    ensures multiset(StableSort(s, key)) == multiset(s) && SortedBy(StableSort(s, key), key)
    ensures forall x :: x in StableSort(s, key) <==> x in s
  {
    hide Insert, SortedBy;
    EmptyIsSorted(key);
    if s != [] {
      StableSortSorts(s[..|s| - 1], key);
      InsertKeeps(StableSort(s[..|s| - 1], key), s[|s| - 1], key);
      assert s == s[..|s| - 1] + [s[|s| - 1]];
    }
    SameElements(StableSort(s, key), s);
  }

  lemma SameElements<T>(a: seq<T>, b: seq<T>)
    requires multiset(a) == multiset(b)
    ensures forall x :: x in a <==> x in b
  {
    forall x ensures x in a <==> x in b {
      assert x in a <==> x in multiset(a);
      assert x in b <==> x in multiset(b);
    }
  }

  // --- some of the elements, in order ---------------------------------------------------------------

  /** The places in 'all' of the elements kept: exactly those that pass the test, in order. */
  ghost predicate AreKeptAt<T(!new)>(at: seq<nat>, kept: seq<T>, all: seq<T>, test: T -> bool) {
    && |at| == |kept| && (forall i, j :: 0 <= i < j < |at| ==> at[i] < at[j])
    && (forall i :: 0 <= i < |at| ==> at[i] < |all| && all[at[i]] == kept[i])
    && (forall k :: 0 <= k < |all| ==> (k in at <==> test(all[k])))
  }

  ghost predicate KeepsExactly<T(!new)>(kept: seq<T>, all: seq<T>, test: T -> bool) {
    exists at :: AreKeptAt(at, kept, all, test)
  }

  lemma KeepsNothing<T(!new)>(test: T -> bool)
    ensures KeepsExactly([], [], test)
  {
    assert AreKeptAt([], [], [], test);
  }

  lemma KeptAtEnd<T(!new)>(at: seq<nat>, kept: seq<T>, all: seq<T>, test: T -> bool, x: T)
    requires AreKeptAt(at, kept, all, test) && test(x)
    ensures AreKeptAt(at + [|all|], kept + [x], all + [x], test)
  {
    var n: nat, more := |all|, all + [x];
    var places := at + [n];
    assert more[n] == x;
    forall k | 0 <= k < |more| ensures k in places <==> test(more[k]) {
      if k < n { assert more[k] == all[k] && (k in places <==> k in at); }
    }
  }

  lemma NotKept<T(!new)>(at: seq<nat>, kept: seq<T>, all: seq<T>, test: T -> bool, x: T)
    requires AreKeptAt(at, kept, all, test) && !test(x)
    ensures AreKeptAt(at, kept, all + [x], test)
  {
    assert |all| !in at;
  }

  lemma KeepsOneMore<T(!new)>(kept: seq<T>, all: seq<T>, test: T -> bool, x: T)
    requires KeepsExactly(kept, all, test)
    ensures KeepsExactly(if test(x) then kept + [x] else kept, all + [x], test)
  {
    hide AreKeptAt;
    var at :| AreKeptAt(at, kept, all, test);
    if test(x) { KeptAtEnd(at, kept, all, test, x); } else { NotKept(at, kept, all, test, x); }
  }

  // --- distinct keys ---------------------------------------------------------------------------------

  ghost predicate Distinct<T>(s: seq<T>) {
    forall i, j :: 0 <= i < j < |s| ==> s[i] != s[j]
  }

  ghost predicate DistinctKeys<T, K>(s: seq<T>, key: T -> K) {
    forall i, j :: 0 <= i < j < |s| ==> key(s[i]) != key(s[j])
  }

  ghost predicate StrictlySortedBy<T>(s: seq<T>, key: T -> string) {
    forall i, j :: 0 <= i < j < |s| ==> Less(key(s[i]), key(s[j]))
  }

  lemma {:induction false} CountOfDistinctKeys<T, K>(s: seq<T>, key: T -> K, x: T)
    requires DistinctKeys(s, key)
    ensures multiset(s)[x] == if x in s then 1 else 0
  {
    if s != [] {
      assert s == [s[0]] + s[1..];
      CountOfDistinctKeys(s[1..], key, x);
    }
  }

  lemma DistinctKeysPermute<T, K>(a: seq<T>, b: seq<T>, key: T -> K)
    requires multiset(a) == multiset(b) && DistinctKeys(a, key)
    ensures DistinctKeys(b, key)
  {
    forall i, j | 0 <= i < j < |b| ensures key(b[i]) != key(b[j]) {
      assert b[i] in multiset(a) && b[j] in multiset(a);
      assert b == b[..j] + [b[j]] + b[j + 1..] && b[i] in b[..j];
      assert b[i] == b[j] ==> multiset(b)[b[i]] >= 2;
      CountOfDistinctKeys(a, key, b[i]);
    }
  }

  lemma SortedDistinctIsStrict<T>(s: seq<T>, key: T -> string)
    requires SortedBy(s, key) && DistinctKeys(s, key)
    ensures StrictlySortedBy(s, key)
  {
    forall i, j | 0 <= i < j < |s| ensures Less(key(s[i]), key(s[j])) {
      LessIsTotal(key(s[i]), key(s[j]));
    }
  }

  lemma HeadsAgree<T>(a: seq<T>, b: seq<T>, key: T -> string)
    requires StrictlySortedBy(a, key) && StrictlySortedBy(b, key) && a != [] && b != []
    requires a[0] in b && b[0] in a
    ensures a[0] == b[0]
  {
    var i :| 0 <= i < |b| && b[i] == a[0];
    var j :| 0 <= j < |a| && a[j] == b[0];
    LessIsTotal(key(a[0]), key(b[0]));
  }

  /** A set of elements has only one strictly sorted listing. */
  lemma {:induction false} StrictListingIsUnique<T>(a: seq<T>, b: seq<T>, key: T -> string)
    requires StrictlySortedBy(a, key) && StrictlySortedBy(b, key) && forall x :: x in a <==> x in b
    ensures a == b
  {
    assert |b| > 0 ==> b[0] in a;
    assert |a| > 0 ==> a[0] in b;
    if a != [] && b != [] {
      HeadsAgree(a, b, key);
      var x, y := a[1..], b[1..];
      TailMembers(a, key);
      TailMembers(b, key);
      StrictListingIsUnique(x, y, key);
      assert a == [a[0]] + x && b == [b[0]] + y;
    }
  }

  lemma TailMembers<T>(a: seq<T>, key: T -> string)
    requires StrictlySortedBy(a, key) && a != []
    ensures forall x :: x in a[1..] <==> x in a && x != a[0]
  {
    LessIsTotal(key(a[0]), key(a[0]));
    forall x | x in a[1..] ensures x != a[0] {
      var i :| 0 <= i < |a[1..]| && a[1..][i] == x;
      assert Less(key(a[0]), key(a[i + 1]));
    }
    assert a == [a[0]] + a[1..];
  }

  /** A text joined with a separator is determined by its last part, if that has no separator. */
  lemma LastPartIsDetermined(separator: char, a: string, x: string, b: string, y: string)
    requires a + [separator] + x == b + [separator] + y && separator !in x && separator !in y
    ensures a == b && x == y
  {
    var s := a + [separator] + x;
    assert s[|a|] == separator && s[|b|] == separator;
    assert s[..|a|] == a && s[..|b|] == b;
    assert s[|a| + 1..] == x && s[|b| + 1..] == y;
  }
}
