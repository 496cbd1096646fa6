/** The database store's single statements and the operator's clean-up of stale locks.
    A transaction that has locked its rows is one atomic method here. */
module DbStore {
  import opened Outcomes
  import opened LeaseTable
  import opened LifecycleTypes
  import Ordering

  /** A lock row together with its key, as the clean-up reads it. */
  datatype LockRow = LockRow(key: string, row: Row)

  predicate Stale(row: Row, now: int) {
    row.expires.Some? && row.expires.value < now
  }

  ghost predicate StillStale(rows: map<string, Row>, r: LockRow, now: int) {
    r.key in rows && rows[r.key] == r.row && r.row.expires.Some? && r.row.expires.value < now
  }

  function Expiry(r: LockRow): int {
    if r.row.expires.Some? then r.row.expires.value else 0
  }

  predicate ByExpiry(found: seq<LockRow>) {
    forall i, j :: 0 <= i < j < |found| ==> Expiry(found[i]) <= Expiry(found[j])
  }

  function InsertByExpiry(found: seq<LockRow>, r: LockRow): seq<LockRow> {
    if found == [] || Expiry(r) <= Expiry(found[0]) then [r] + found
    else [found[0]] + InsertByExpiry(found[1..], r)
  }

  function SortByExpiry(found: seq<LockRow>): seq<LockRow> {
    if found == [] then [] else InsertByExpiry(SortByExpiry(found[1..]), found[0])
  }

  lemma {:induction false} InsertPermutes(found: seq<LockRow>, r: LockRow)
    ensures multiset(InsertByExpiry(found, r)) == multiset(found) + multiset{r}
  {
    hide Expiry;
    if found != [] {
      assert found == [found[0]] + found[1..];
      InsertPermutes(found[1..], r);
    }
  }

  lemma InFront(r: LockRow, found: seq<LockRow>)
    requires ByExpiry(found) && forall x :: x in found ==> Expiry(r) <= Expiry(x)
    ensures ByExpiry([r] + found)
  {
    hide Expiry;
    forall i | 0 <= i < |found| ensures Expiry(r) <= Expiry(found[i]) {
      assert found[i] in found;
    }
  }

  lemma FirstExpiresFirst(found: seq<LockRow>)
    requires ByExpiry(found) && found != []
    ensures ByExpiry(found[1..]) && forall x :: x in found ==> Expiry(found[0]) <= Expiry(x)
  {
    hide Expiry;
  }

  lemma {:induction false} InsertedByExpiry(found: seq<LockRow>, r: LockRow)
    requires ByExpiry(found)
    ensures ByExpiry(InsertByExpiry(found, r))
  {
    hide Expiry;
    if found == [] {
    } else {
      FirstExpiresFirst(found);
      if Expiry(r) <= Expiry(found[0]) {
        InFront(r, found);
      } else {
        var placed := InsertByExpiry(found[1..], r);
        InsertedByExpiry(found[1..], r);
        InsertPermutes(found[1..], r);
        forall x | x in placed ensures Expiry(found[0]) <= Expiry(x) {
          assert x in multiset(found[1..]) + multiset{r};
        }
        InFront(found[0], placed);
      }
    }
  }

  lemma {:induction false} SortedByExpiry(found: seq<LockRow>)
    ensures multiset(SortByExpiry(found)) == multiset(found) && ByExpiry(SortByExpiry(found))
  {
    hide Expiry, ByExpiry, InsertByExpiry;
    if found != [] {
      assert found == [found[0]] + found[1..];
      SortedByExpiry(found[1..]);
      InsertedByExpiry(SortByExpiry(found[1..]), found[0]);
      InsertPermutes(SortByExpiry(found[1..]), found[0]);
    } else {
      NothingToSort();
    }
  }

  lemma NothingToSort()
    ensures ByExpiry([])
  {
  }

  ghost predicate ExpiresNoLater(a: LockRow, b: LockRow) {
    a.row.expires.Some? && b.row.expires.Some? && a.row.expires.value <= b.row.expires.value
  }

  lemma StaleByExpiry(found: seq<LockRow>, rows: map<string, Row>, now: int)
    requires ByExpiry(found) && forall r :: r in found ==> StillStale(rows, r, now)
    ensures forall i, j :: 0 <= i < j < |found| ==> ExpiresNoLater(found[i], found[j])
  {
    forall i, j | 0 <= i < j < |found| ensures ExpiresNoLater(found[i], found[j]) {
      assert found[i] in found && found[j] in found;
      assert Expiry(found[i]) <= Expiry(found[j]);
    }
  }

  const KeyOfRow: LockRow -> string := (r: LockRow) => r.key

  class DBLifecycleStore {
    var rows: map<string, Row>
    var runs: map<string, Status>

    constructor ()
      ensures rows == map[] && runs == map[]
    {
      rows, runs := map[], map[];
    }

    /** The lock handed back on success is still marked acquired. */
    method Renew(now: int, lock: LifecycleLock, requestTtl: int) returns (r: Result<LifecycleLock, Error>)
      modifies this`rows
      ensures r.Ok? <==> lock.acquired && Holds(old(rows), lock.key, lock.owner, lock.runKey)
      ensures r.Ok? ==> r.value == lock.(expiresAt := now + EffectiveTtl(requestTtl)) && r.value.acquired
      ensures rows == if lock.acquired then RenewRows(old(rows), lock.key, lock.owner, lock.runKey, requestTtl, now)
              else old(rows)
    {
      if !lock.acquired {
        return Err(Plain("module lifecycle lock is not acquired"));
      }
      var ttl := if requestTtl <= 0 then MINUTE else requestTtl;
      if lock.key in rows && rows[lock.key].owner == lock.owner && rows[lock.key].runKey == lock.runKey {
        rows := rows[lock.key := rows[lock.key].(expires := Some(now + ttl))];
        return Ok(lock.(expiresAt := now + ttl));
      }
      return Err(Plain("module lifecycle lock lost: " + lock.key));
    }

    method Release(lock: LifecycleLock)
      modifies this`rows
      ensures rows == if lock.acquired then ReleaseRows(old(rows), lock.key, lock.owner, lock.runKey) else old(rows)
    {
      if lock.acquired && lock.key in rows && rows[lock.key].owner == lock.owner
        && rows[lock.key].runKey == lock.runKey {
        rows := rows - {lock.key};
      }
    }

    /** A run recorded as succeeded is never restarted: the update skips it and the insert collides. */
    method BeginRun(key: string) returns (began: bool)
      modifies this`runs
      ensures began <==> !(key in old(runs) && old(runs)[key] == Succeeded)
      ensures runs == if began then old(runs)[key := Running] else old(runs)
    {
      if key in runs && runs[key] != Succeeded {
        runs := runs[key := Running];
        return true;
      }
      if key in runs {
        return false;
      }
      runs := runs[key := Running];
      return true;
    }

    /** Unlike the in-memory store, completing an unknown run creates nothing. */
    method CompleteRun(key: string, status: Status)
      modifies this`runs
      ensures runs == if key in old(runs) then old(runs)[key := status] else old(runs)
    {
      if key in runs {
        runs := runs[key := status];
      }
    }

    /** The stale rows, of one key or of all, the one that expired first at the front. */
    method FindStaleLocks(key: string, now: int) returns (found: seq<LockRow>)
      ensures forall r :: r in found <==> StillStale(rows, r, now) && (key == "" || r.key == key)
      ensures Ordering.DistinctKeys(found, KeyOfRow)
      ensures forall i, j :: 0 <= i < j < |found| ==> ExpiresNoLater(found[i], found[j])
    {
      hide ByExpiry, SortByExpiry;
      var matching: seq<LockRow> := [];
      var keys := rows.Keys;
      while keys != {}
        invariant keys <= rows.Keys
        invariant forall r :: r in matching <==>
                  StillStale(rows, r, now) && (key == "" || r.key == key) && r.key !in keys
        invariant Ordering.DistinctKeys(matching, KeyOfRow)
        decreases |keys|
      {
        var k :| k in keys;
        keys := keys - {k};
        if Stale(rows[k], now) && (key == "" || k == key) {
          matching := matching + [LockRow(k, rows[k])];
        }
      }
      found := SortByExpiry(matching);
      SortedByExpiry(matching);
      Ordering.SameElements(found, matching);
      Ordering.DistinctKeysPermute(matching, found, KeyOfRow);
      StaleByExpiry(found, rows, now);
    }

    /** Re-read each observed row under the transaction: keep those unchanged and expired by now. */
    method LockObservedStaleRows(observed: seq<LockRow>, now: int) returns (locked: seq<LockRow>)
      ensures forall r :: r in locked <==> r in observed && StillStale(rows, r, now)
    {
      locked := [];
      for i := 0 to |observed|
        invariant forall r :: r in locked <==> r in observed[..i] && StillStale(rows, r, now)
      {
        var r := observed[i];
        assert observed[..i + 1] == observed[..i] + [r];
        if r.row.expires.Some? && r.key in rows && rows[r.key] == r.row && r.row.expires.value < now {
          locked := locked + [r];
        }
      }
    }

    /** Exactly the observed rows that are still unchanged and expired are deleted, each
        reported once; a refused gate deletes nothing. No live lease is touched. */
    method DeleteObservedStaleLocks(observed: seq<LockRow>, now: int, gateOpen: bool) returns (released: seq<LockRow>)
      modifies this`rows
      ensures forall r :: r in released <==> gateOpen && r in observed && StillStale(old(rows), r, now)
      ensures forall i, j :: 0 <= i < j < |released| ==> released[i].key != released[j].key
      ensures rows == old(rows) - set r | r in released :: r.key
      ensures forall k :: k in old(rows) && Live(old(rows)[k], now) ==> k in rows && rows[k] == old(rows)[k]
    {
      released := [];
      var locked := LockObservedStaleRows(observed, now);
      if !gateOpen {
        return;
      }
      for i := 0 to |locked|
        invariant forall r :: r in released <==> r in locked[..i]
        invariant forall a, b :: 0 <= a < b < |released| ==> released[a].key != released[b].key
        invariant rows == old(rows) - set r | r in released :: r.key
      {
        var r := locked[i];
        assert locked[..i + 1] == locked[..i] + [r];
        assert StillStale(old(rows), r, now);
        if r.key in rows && rows[r.key] == r.row {
          rows := rows - {r.key};
          released := released + [r];
        } else {
          assert r.key !in rows;
          var q :| q in released && q.key == r.key;
          assert StillStale(old(rows), q, now);
        }
      }
      assert locked[..|locked|] == locked;
    }
  }
}
