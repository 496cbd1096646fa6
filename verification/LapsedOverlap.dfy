/** What a lapsed lease costs: once a running command's row has expired, another execution of its
    module can take the row and start a command of its own. */
module LapsedOverlap {
  import opened Outcomes
  import opened LeaseTable
  import opened ExecutionProtocol

  ghost predicate IsSystemPath(path: seq<System>) {
    |path| > 0 && forall i :: 0 < i < |path| ==> SystemNext(path[i - 1], path[i])
  }

  lemma ActionIsNext(s: System, a: Action)
    requires ActionEnabled(s, a)
    ensures SystemNext(s, ActionApply(s, a))
  {
  }

  /** Execution id stands in this phase, with a row of its own if it is past the acquire, and nobody
      else has moved. */
  ghost predicate Stands(start: System, s: System, id: nat, e: Exec, phase: Phase, pending: Option<int>) {
    && s.execs == start.execs[id := e.(phase := phase, pending := pending)]
    && s.lease.now == start.lease.now
    && (phase == Acquiring ==> s.lease == start.lease)
    && (phase != Acquiring ==> HasFreshRow(s, e))
    && (phase == Acquiring || phase == Held || phase.Cleared? ==> s.runs == start.runs)
    && (forall r :: r in s.lease.grants ==> r in start.lease.grants || r == e.runKey)
    && (forall k :: k != e.idempotencyKey && Blocks(s.runs, k) ==> Blocks(start.runs, k))
  }

  ghost predicate HasFreshRow(s: System, e: Exec) {
    var key := LockKey(e.moduleId);
    && Holds(s.lease.rows, key, e.owner, e.runKey)
    && s.lease.rows[key].expires.Some? && s.lease.rows[key].expires.value <= s.lease.now + EffectiveTtl(e.ttl)
  }

  lemma RenewsLease(start: System, s: System, id: nat, e: Exec, phase: Phase, pending: Option<int>, m: Move,
                    next: Phase, nextPending: Option<int>)
    requires Stands(start, s, id, e, phase, pending) && (m.RenewStart? || m.RenewCommit?)
    requires pending.Some? ==> pending.value <= start.lease.now
    requires IsOwnMove(m, start.lease.now, phase, pending, next, nextPending)
    ensures ActionEnabled(s, Act(id, m)) && Stands(start, ActionApply(s, Act(id, m)), id, e, next, nextPending)
  {
    hide Blocks, Free, Live;
  }

  lemma Proceeds(start: System, s: System, id: nat, e: Exec, phase: Phase, pending: Option<int>, m: Move, next: Phase,
                 nextPending: Option<int>)
    requires Stands(start, s, id, e, phase, pending) && !Blocks(start.runs, e.idempotencyKey) && !m.RenewStart?
             && !m.RenewCommit?
    requires IsOwnMove(m, start.lease.now, phase, pending, next, nextPending)
    ensures ActionEnabled(s, Act(id, m)) && Stands(start, ActionApply(s, Act(id, m)), id, e, next, nextPending)
  {
    hide Free, Live, HasFreshRow;
    FreshRowStays(s, e);
  }

  lemma FreshRowStays(s: System, e: Exec)
    ensures forall t: System :: t.lease == s.lease ==> (HasFreshRow(t, e) <==> HasFreshRow(s, e))
  {
  }

  lemma Acts(start: System, s: System, id: nat, e: Exec, phase: Phase, pending: Option<int>, m: Move, next: Phase,
             nextPending: Option<int>)
    requires Stands(start, s, id, e, phase, pending) && !Blocks(start.runs, e.idempotencyKey)
    requires pending.Some? ==> pending.value <= start.lease.now
    requires IsOwnMove(m, start.lease.now, phase, pending, next, nextPending)
    ensures ActionEnabled(s, Act(id, m)) && Stands(start, ActionApply(s, Act(id, m)), id, e, next, nextPending)
  {
    hide Stands, ActionEnabled, ActionApply, IsOwnMove, Blocks;
    if m.RenewStart? || m.RenewCommit? {
      RenewsLease(start, s, id, e, phase, pending, m, next, nextPending);
    } else {
      Proceeds(start, s, id, e, phase, pending, m, next, nextPending);
    }
  }

  /** The moves from the lock to the first running command. */
  predicate IsOwnMove(m: Move, now: int, phase: Phase, pending: Option<int>, next: Phase, nextPending: Option<int>) {
    || (m == ReadRun(false, true) && phase == Held && next == Cleared(true) && pending == nextPending == None)
    || (m == Move.BeginRun(true, false) && phase == Cleared(true) && next == Begun(true)
        && pending == nextPending == None)
    || (m == RenewStart && phase == next == Begun(true) && pending == None && nextPending == Some(now))
    || (m == RenewCommit && phase == Begun(true) && next == Ready && pending.Some? && nextPending == None)
    || (m == StartCommand && phase == Ready && next == Commanding && pending == nextPending == None)
  }

  lemma Acquires(start: System, s: System, id: nat, e: Exec)
    requires Stands(start, s, id, e, Acquiring, None) && Free(start.lease.rows, LockKey(e.moduleId), e.captured)
    requires e.captured <= start.lease.now && e.runKey !in start.lease.grants
    ensures var a := Act(id, AcquireAnswer(false));
      ActionEnabled(s, a) && Stands(start, ActionApply(s, a), id, e, Held, None)
  {
  }

  lemma Enters(start: System, id: nat, e: Exec)
    requires ActionEnabled(start, Spawn(id, e))
    ensures Stands(start, ActionApply(start, Spawn(id, e)), id, e, Acquiring, None)
  {
  }

  /** The path leads from the start to the execution in this phase. */
  ghost predicate Reaches(start: System, path: seq<System>, id: nat, e: Exec, phase: Phase, pending: Option<int>) {
    IsSystemPath(path) && path[0] == start && Stands(start, path[|path| - 1], id, e, phase, pending)
  }

  lemma PathGrows(path: seq<System>, a: Action) returns (longer: seq<System>)
    requires IsSystemPath(path) && ActionEnabled(path[|path| - 1], a)
    ensures IsSystemPath(longer) && longer[0] == path[0] && longer[|longer| - 1] == ActionApply(path[|path| - 1], a)
  {
    hide ActionEnabled, ActionApply, SystemNext;
    longer := path + [ActionApply(path[|path| - 1], a)];
    ActionIsNext(path[|path| - 1], a);
  }

  lemma MovesOn(start: System, path: seq<System>, id: nat, e: Exec, phase: Phase, pending: Option<int>, m: Move,
                next: Phase,
                nextPending: Option<int>) returns (longer: seq<System>)
    requires Reaches(start, path, id, e, phase, pending) && !Blocks(start.runs, e.idempotencyKey)
    requires pending.Some? ==> pending.value <= start.lease.now
    requires IsOwnMove(m, start.lease.now, phase, pending, next, nextPending)
    ensures Reaches(start, longer, id, e, next, nextPending)
  {
    hide Stands, ActionEnabled, ActionApply, IsSystemPath, IsOwnMove, Blocks;
    PathIsNonEmpty(path);
    Acts(start, path[|path| - 1], id, e, phase, pending, m, next, nextPending);
    longer := PathGrows(path, Act(id, m));
    PathIsNonEmpty(longer);
  }

  lemma PathIsNonEmpty(path: seq<System>)
    requires IsSystemPath(path)
    ensures path != []
  {
  }

  lemma EntersAndAcquires(start: System, id: nat, e: Exec) returns (path: seq<System>)
    requires ActionEnabled(start, Spawn(id, e)) && Free(start.lease.rows, LockKey(e.moduleId), e.captured)
    ensures Reaches(start, path, id, e, Held, None)
  {
    Enters(start, id, e);
    SpawnCondition(start, id, e);
    hide Stands, ActionEnabled, ActionApply, Free;
    path := PathGrows([start], Spawn(id, e));
    Acquires(start, path[|path| - 1], id, e);
    path := PathGrows(path, Act(id, AcquireAnswer(false)));
  }

  lemma SpawnCondition(s: System, id: nat, e: Exec)
    requires ActionEnabled(s, Spawn(id, e))
    ensures e.captured <= s.lease.now && e.runKey !in s.lease.grants && e.pending == None && id !in s.execs
  {
  }

  /** An execution that finds its row free, and its run not recorded, can get as far as a running command. */
  lemma CanStartCommand(start: System, id: nat, e: Exec) returns (path: seq<System>)
    requires ActionEnabled(start, Spawn(id, e)) && !Blocks(start.runs, e.idempotencyKey)
    requires Free(start.lease.rows, LockKey(e.moduleId), e.captured)
    ensures Reaches(start, path, id, e, Commanding, None)
  {
    hide Reaches, ActionEnabled, Blocks, Free;
    var read := Some(start.lease.now);
    path := EntersAndAcquires(start, id, e);
    path := MovesOn(start, path, id, e, Held, None, ReadRun(false, true), Cleared(true), None);
    path := MovesOn(start, path, id, e, Cleared(true), None, Move.BeginRun(true, false), Begun(true), None);
    path := MovesOn(start, path, id, e, Begun(true), None, RenewStart, Begun(true), read);
    path := MovesOn(start, path, id, e, Begun(true), read, RenewCommit, Ready, None);
    path := MovesOn(start, path, id, e, Ready, None, StartCommand, Commanding, None);
  }

  /** From every state with a runner whose row is free, two runners of the module can be reached: an
      execution that reads the clock now and whose run is not recorded gets to a command of its own. */
  lemma LapseCanOverlap(start: System, i: nat, id: nat, e: Exec) returns (path: seq<System>)
    requires i in start.execs && RunnerActive(start.execs[i].phase) && start.execs[i].moduleId == e.moduleId
    requires Free(start.lease.rows, LockKey(e.moduleId), start.lease.now)
    requires ActionEnabled(start, Spawn(id, e)) && e.captured == start.lease.now
             && !Blocks(start.runs, e.idempotencyKey)
    ensures IsSystemPath(path) && path[0] == start
    ensures var s := path[|path| - 1];
      && i in s.execs && id in s.execs && i != id && s.execs[i].moduleId == s.execs[id].moduleId
      && RunnerActive(s.execs[i].phase) && RunnerActive(s.execs[id].phase)
  {
    hide Blocks, Free;
    SpawnCondition(start, id, e);
    hide ActionEnabled;
    path := CanStartCommand(start, id, e);
  }

  // --- a run that overlaps ---------------------------------------------------------------------------------------

  const Empty := System(State(0, map[], map[]), map[], map[])

  /** An execution of one module, at some version. */
  function Asker(version: string, captured: int): Exec {
    Exec("m", "install:m:" + version, "owner", version, 1, captured, None, Acquiring)
  }

  lemma Joined(a: seq<System>, b: seq<System>)
    requires IsSystemPath(a) && IsSystemPath(b) && a[|a| - 1] == b[0]
    ensures IsSystemPath(a + b[1..])
  {
    hide SystemNext;
    var c := a + b[1..];
    forall i | 0 < i < |c| ensures SystemNext(c[i - 1], c[i]) {
      if i >= |a| { assert c[i] == b[i - |a| + 1] && c[i - 1] == b[i - |a|]; }
    }
  }

  lemma EmptyCanSpawn(version: string)
    ensures ActionEnabled(Empty, Spawn(0, Asker(version, 0))) && StartsEmpty(Empty)
    ensures Free(Empty.lease.rows, LockKey("m"), 0) && !Blocks(Empty.runs, Asker(version, 0).idempotencyKey)
  {
  }

  /** The clock passes the expiry. */
  lemma LeaseRunsOut(s: System, first: Exec, version: string)
    requires Stands(Empty, s, 0, first, Commanding, None) && first == Asker("1", 0) && version == "2"
    ensures var tick := Environment(Advance(1));
      && ActionEnabled(s, tick)
      && var t := ActionApply(s, tick);
         && t.execs == s.execs && t.lease.now == 1 && Free(t.lease.rows, LockKey("m"), 1)
         && ActionEnabled(t, Spawn(1, Asker(version, 1))) && !Blocks(t.runs, Asker(version, 1).idempotencyKey)
  {
    VersionsDiffer();
  }

  lemma VersionsDiffer()
    ensures "1" != "2" && Asker("1", 0).idempotencyKey != Asker("2", 1).idempotencyKey
  {
    var one, two := "install:m:" + "1", "install:m:" + "2";
    assert one[10] == '1' && two[10] == '2';
  }

  /** Two executions of one module at different versions. The second starts when the first one's lease has run out. */
  lemma OverlappingRun() returns (run: seq<System>)
    ensures IsProtocolRun(run)
    ensures var s := run[|run| - 1];
      && 0 in s.execs && 1 in s.execs && s.execs[0].moduleId == s.execs[1].moduleId
      && RunnerActive(s.execs[0].phase) && RunnerActive(s.execs[1].phase)
    ensures exists k :: 0 < k < |run| && TakeoverNext(run[k - 1], run[k])
  {
    hide Stands, SystemNext, TakeoverNext, Blocks, Free, ActionEnabled, ActionApply;
    var first, second := Asker("1", 0), Asker("2", 1);
    EmptyCanSpawn("1");
    var path := CanStartCommand(Empty, 0, first);
    FirstStands(path, first);
    LeaseRunsOut(path[|path| - 1], first, "2");
    path := PathGrows(path, Environment(Advance(1)));
    var rest := LapseCanOverlap(path[|path| - 1], 0, 1, second);
    Joined(path, rest);
    run := path + rest[1..];
    assert run[|run| - 1] == rest[|rest| - 1];
    OverlapNeedsTakeover(run, |run| - 1, 0, 1);
  }

  lemma FirstStands(path: seq<System>, first: Exec)
    requires Reaches(Empty, path, 0, first, Commanding, None)
    ensures path != [] && path[|path| - 1].execs == map[0 := first.(phase := Commanding, pending := None)]
  {
  }
}
