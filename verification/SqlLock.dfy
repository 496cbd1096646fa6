/** DBLifecycleStore.Acquire: an UPDATE, then an INSERT, then a SELECT, each atomic,
    with any other lock traffic in between. The protocol refines the one-step Acquire
    of the in-memory store, so lease safety carries over to it. */
module SqlLock {
  import opened Outcomes
  import opened LeaseTable

  datatype Answer = Acquired(row: Row) | Blocked(seen: Row) | Failed

  datatype Pc = Updating | Inserting | Reading | Finished(answer: Answer)

  datatype Call = Call(key: string, owner: string, runKey: RunKey, ttl: int, captured: int, pc: Pc)

  datatype SqlState = SqlState(lease: State, calls: map<nat, Call>)

  datatype SqlStep =
    | Environment(step: Step)
    | Begin(id: nat, key: string, owner: string, runKey: RunKey, ttl: int)
    | Update(id: nat, fails: bool)
    | Insert(id: nat, fails: bool)
    | Read(id: nat, fails: bool)

  ghost predicate Reserved(s: SqlState, runKey: RunKey) {
    exists id :: id in s.calls && s.calls[id].runKey == runKey
  }

  ghost predicate SqlEnabled(s: SqlState, step: SqlStep) {
    match step
    case Environment(e) => Enabled(s.lease, e) && (e.Acquire? ==> !Reserved(s, e.runKey))
    case Begin(id, _, _, runKey, _) => id !in s.calls && runKey !in s.lease.grants && !Reserved(s, runKey)
    case Update(id, _) => id in s.calls && s.calls[id].pc == Updating
    case Insert(id, _) => id in s.calls && s.calls[id].pc == Inserting
    case Read(id, _) => id in s.calls && s.calls[id].pc == Reading
  }

  function NewRow(c: Call): Row {
    Row(c.owner, c.runKey, Some(c.captured + EffectiveTtl(c.ttl)))
  }

  /** One conditional write of the lock row on behalf of a call. */
  function Write(s: SqlState, id: nat): SqlState
    requires id in s.calls
  {
    var c := s.calls[id];
    SqlState(
      s.lease.(rows := s.lease.rows[c.key := NewRow(c)],
               grants := s.lease.grants[c.runKey := Grant(c.key, c.owner, NewRow(c).expires, false)]),
      s.calls[id := c.(pc := Finished(Acquired(NewRow(c))))])
  }

  function Goto(s: SqlState, id: nat, pc: Pc): SqlState
    requires id in s.calls
  {
    s.(calls := s.calls[id := s.calls[id].(pc := pc)])
  }

  ghost function SqlApply(s: SqlState, step: SqlStep): SqlState
    requires SqlEnabled(s, step)
  {
    match step
    case Environment(e) => s.(lease := Apply(s.lease, e))
    case Begin(id, key, owner, runKey, ttl) =>
      var pc := if key == "" || owner == "" then Finished(Failed) else Updating;
      s.(calls := s.calls[id := Call(key, owner, runKey, ttl, s.lease.now, pc)])
    case Update(id, fails) =>
      var c := s.calls[id];
      if fails then Goto(s, id, Finished(Failed))
      else if c.key in s.lease.rows && !Live(s.lease.rows[c.key], c.captured) then Write(s, id)
      else Goto(s, id, Inserting)
    case Insert(id, fails) =>
      var c := s.calls[id];
      if !fails && c.key !in s.lease.rows then Write(s, id) else Goto(s, id, Reading)
    case Read(id, fails) =>
      var c := s.calls[id];
      if fails || c.key !in s.lease.rows then Goto(s, id, Finished(Failed))
      else if Live(s.lease.rows[c.key], c.captured) then Goto(s, id, Finished(Blocked(s.lease.rows[c.key])))
      else Goto(s, id, Finished(Failed))
  }

  ghost predicate SqlNext(s: SqlState, t: SqlState) {
    exists step: SqlStep :: SqlEnabled(s, step) && t == SqlApply(s, step)
  }

  ghost predicate IsSqlRun(run: seq<SqlState>) {
    && |run| > 0 && Init(run[0].lease) && run[0].calls == map[]
    && (forall i :: 0 < i < |run| ==> SqlNext(run[i - 1], run[i]))
  }

  function AsStep(c: Call): Step {
    Acquire(c.key, c.owner, c.runKey, c.ttl, c.captured)
  }

  ghost predicate CallInv(s: SqlState, c: Call) {
    && c.captured <= s.lease.now
    && (c.runKey in s.lease.grants <==> c.pc.Finished? && c.pc.answer.Acquired?)
    && (c.pc.Finished? && c.pc.answer.Acquired? ==> c.pc.answer.row == NewRow(c))
    && (c.pc.Finished? && c.pc.answer.Blocked? ==> Live(c.pc.answer.seen, c.captured))
  }

  ghost predicate SqlInv(s: SqlState) {
    && (forall id :: id in s.calls ==> CallInv(s, s.calls[id]))
    && (forall i, j :: i in s.calls && j in s.calls && s.calls[i].runKey == s.calls[j].runKey ==> i == j)
  }

  lemma EnvironmentKeepsSqlInv(s: SqlState, e: Step)
    requires SqlInv(s) && SqlEnabled(s, Environment(e))
    ensures SqlInv(SqlApply(s, Environment(e)))
  {
    var t := SqlApply(s, Environment(e));
    forall id | id in t.calls ensures CallInv(t, t.calls[id]) {
      assert CallInv(s, s.calls[id]);
      if e.Acquire? { assert e.runKey != s.calls[id].runKey; }
    }
  }

  lemma BeginKeepsSqlInv(s: SqlState, step: SqlStep)
    requires SqlInv(s) && SqlEnabled(s, step) && step.Begin?
    ensures SqlInv(SqlApply(s, step))
  {
    var t := SqlApply(s, step);
    forall id | id in t.calls ensures CallInv(t, t.calls[id]) {
      if id != step.id { assert CallInv(s, s.calls[id]); }
    }
  }

  /** A statement that writes nothing only moves its own call on. */
  lemma GotoKeepsSqlInv(s: SqlState, id: nat, pc: Pc)
    requires SqlInv(s) && id in s.calls && !s.calls[id].pc.Finished?
    requires pc.Finished? ==>
             !pc.answer.Acquired? && (pc.answer.Blocked? ==> Live(pc.answer.seen, s.calls[id].captured))
    ensures SqlInv(Goto(s, id, pc))
  {
    var t := Goto(s, id, pc);
    forall i | i in t.calls ensures CallInv(t, t.calls[i]) {
      assert CallInv(s, s.calls[i]);
    }
  }

  /** The conditional write is the atomic Acquire of its call. */
  lemma WriteIsAcquire(s: SqlState, id: nat)
    requires SqlInv(s) && id in s.calls && !s.calls[id].pc.Finished?
             && Free(s.lease.rows, s.calls[id].key, s.calls[id].captured)
    ensures Enabled(s.lease, AsStep(s.calls[id])) && Write(s, id).lease == Apply(s.lease, AsStep(s.calls[id]))
  {
    assert CallInv(s, s.calls[id]);
  }

  lemma WriteKeepsSqlInv(s: SqlState, id: nat)
    requires SqlInv(s) && id in s.calls && !s.calls[id].pc.Finished?
    ensures SqlInv(Write(s, id))
  {
    var t := Write(s, id);
    forall i | i in t.calls ensures CallInv(t, t.calls[i]) {
      assert CallInv(s, s.calls[i]);
    }
  }

  lemma IdleIsNext(lease: State)
    ensures Next(lease, lease)
  {
    assert Enabled(lease, Advance(lease.now));
  }

  /** Each SQL statement is one step of the atomic protocol, or leaves the table alone. */
  lemma StatementRefinesAtomicStep(s: SqlState, step: SqlStep)
    requires SqlInv(s) && SqlEnabled(s, step)
    ensures SqlInv(SqlApply(s, step))
    ensures Next(s.lease, SqlApply(s, step).lease)
  {
    hide SqlInv, Write, Goto, Next, AcquireRows, RenewRows, ReleaseRows, DeleteRows;
    IdleIsNext(s.lease);
    match step {
      case Environment(e) =>
        EnvironmentKeepsSqlInv(s, e);
        EnabledIsNext(s.lease, e);
      case Begin(_, _, _, _, _) => BeginKeepsSqlInv(s, step);
      case Update(id, fails) => StatementKeeps(s, step, id);
      case Insert(id, fails) => StatementKeeps(s, step, id);
      case Read(id, fails) => StatementKeeps(s, step, id);
    }
  }

  lemma EnabledIsNext(lease: State, e: Step)
    requires Enabled(lease, e)
    ensures Next(lease, Apply(lease, e))
  {
  }

  lemma GotoLeavesLease(s: SqlState, id: nat, pc: Pc)
    requires id in s.calls
    ensures Goto(s, id, pc).lease == s.lease
  {
  }

  lemma StatementKeeps(s: SqlState, step: SqlStep, id: nat)
    requires SqlInv(s) && SqlEnabled(s, step) && (step.Update? || step.Insert? || step.Read?) && step.id == id
    ensures SqlInv(SqlApply(s, step))
    ensures Next(s.lease, SqlApply(s, step).lease)
  {
    hide SqlInv, Write, Goto, Next, Apply, NewRow;
    IdleIsNext(s.lease);
    var c := s.calls[id];
    if SqlApply(s, step) == Write(s, id) && Free(s.lease.rows, c.key, c.captured) {
      WriteIsAcquire(s, id);
      WriteKeepsSqlInv(s, id);
      EnabledIsNext(s.lease, AsStep(c));
    } else {
      var pc := if step.Update? && !step.fails then Inserting
                else if step.Insert? then Reading
                else if step.Read? && !step.fails && c.key in s.lease.rows && Live(s.lease.rows[c.key], c.captured)
                then Finished(Blocked(s.lease.rows[c.key]))
                else Finished(Failed);
      assert SqlApply(s, step) == Goto(s, id, pc);
      GotoKeepsSqlInv(s, id, pc);
      GotoLeavesLease(s, id, pc);
    }
  }

  lemma {:induction false} SqlRunInv(run: seq<SqlState>, i: nat)
    requires IsSqlRun(run) && i < |run|
    ensures SqlInv(run[i])
  {
    if i > 0 {
      SqlRunInv(run, i - 1);
      assert SqlNext(run[i - 1], run[i]);
      var step: SqlStep :| SqlEnabled(run[i - 1], step) && run[i] == SqlApply(run[i - 1], step);
      StatementRefinesAtomicStep(run[i - 1], step);
    }
  }

  /** Every interleaved SQL run is a run of the atomic lock table. */
  lemma SqlRunIsLeaseRun(run: seq<SqlState>)
    requires IsSqlRun(run)
    ensures IsRun(seq(|run|, i requires 0 <= i < |run| => run[i].lease))
  {
    var leases := seq(|run|, i requires 0 <= i < |run| => run[i].lease);
    forall i | 0 < i < |leases| ensures Next(leases[i - 1], leases[i]) {
      SqlRunInv(run, i - 1);
      assert SqlNext(run[i - 1], run[i]);
      var step: SqlStep :| SqlEnabled(run[i - 1], step) && run[i] == SqlApply(run[i - 1], step);
      StatementRefinesAtomicStep(run[i - 1], step);
    }
  }

  lemma CallPersistsOnce(s: SqlState, t: SqlState, id: nat)
    requires SqlNext(s, t) && id in s.calls
    ensures id in t.calls && t.calls[id].(pc := Updating) == s.calls[id].(pc := Updating)
    ensures s.calls[id].pc.Finished? ==> t.calls[id].pc == s.calls[id].pc
  {
    hide Enabled, Apply, NewRow;
  }

  /** A call keeps its request, and an answered call keeps its answer. */
  lemma {:induction false} CallPersists(run: seq<SqlState>, i: nat, j: nat, id: nat)
    requires IsSqlRun(run) && i <= j < |run| && id in run[i].calls
    ensures id in run[j].calls && run[j].calls[id].(pc := Updating) == run[i].calls[id].(pc := Updating)
    ensures run[i].calls[id].pc.Finished? ==> run[j].calls[id].pc == run[i].calls[id].pc
    decreases j
  {
    hide SqlNext;
    if i < j {
      CallPersists(run, i, j - 1, id);
      CallPersistsOnce(run[j - 1], run[j], id);
    }
  }

  /** The moment a call received its answer. */
  lemma {:induction false} AnswerPoint(run: seq<SqlState>, j: nat, id: nat) returns (m: nat)
    requires IsSqlRun(run) && j < |run| && id in run[j].calls && run[j].calls[id].pc.Finished?
    ensures m <= j && m > 0
    ensures id in run[m].calls && run[m].calls[id] == run[j].calls[id]
    ensures id in run[m - 1].calls ==> !run[m - 1].calls[id].pc.Finished?
    ensures SqlNext(run[m - 1], run[m])
  {
    assert j > 0;
    assert SqlNext(run[j - 1], run[j]);
    if id in run[j - 1].calls && run[j - 1].calls[id].pc.Finished? {
      m := AnswerPoint(run, j - 1, id);
      CallPersists(run, j - 1, j, id);
    } else {
      m := j;
    }
  }

  /** At step m the call's write is the atomic Acquire: the row was absent or expired at
      the captured time, and the row left behind is the one the answer reports. */
  ghost predicate CommitsAt(run: seq<SqlState>, m: nat, c: Call)
    requires 0 < m < |run|
  {
    && Free(run[m - 1].lease.rows, c.key, c.captured)
    && Enabled(run[m - 1].lease, AsStep(c))
    && run[m].lease == Apply(run[m - 1].lease, AsStep(c))
    && c.pc == Finished(Acquired(NewRow(c))) && c.key in run[m].lease.rows && run[m].lease.rows[c.key] == NewRow(c)
  }

  /** Step m is where the run key became a holder. */
  ghost predicate GrantedAt(run: seq<SqlState>, m: nat, runKey: RunKey)
    requires 0 < m < |run|
  {
    runKey in run[m].lease.grants && runKey !in run[m - 1].lease.grants
  }

  /** A run key is granted at most once in a run. */
  lemma GrantPointIsUnique(run: seq<SqlState>, m: nat, n: nat, runKey: RunKey)
    requires IsSqlRun(run) && 0 < m < |run| && 0 < n < |run|
    requires GrantedAt(run, m, runKey) && GrantedAt(run, n, runKey)
    ensures m == n
  {
    SqlRunIsLeaseRun(run);
    var leases := seq(|run|, i requires 0 <= i < |run| => run[i].lease);
    if m < n { GrantsPersist(leases, m, n - 1, runKey); }
    if n < m { GrantsPersist(leases, n, m - 1, runKey); }
  }

  /** An Acquired answer has a commit point; by GrantPointIsUnique it has only one. */
  lemma AcquiredHasOneCommitPoint(run: seq<SqlState>, j: nat, id: nat)
    requires IsSqlRun(run) && j < |run| && id in run[j].calls
    requires run[j].calls[id].pc.Finished? && run[j].calls[id].pc.answer.Acquired?
    ensures exists m :: 0 < m <= j && CommitsAt(run, m, run[j].calls[id]) && GrantedAt(run, m, run[j].calls[id].runKey)
  {
    hide IsSqlRun, SqlNext;
    var m := AnswerPoint(run, j, id);
    SqlRunInv(run, m - 1);
    AnswerCommits(run, m, id);
  }

  lemma AnswerCommits(run: seq<SqlState>, m: nat, id: nat)
    requires 0 < m < |run| && SqlInv(run[m - 1]) && SqlNext(run[m - 1], run[m])
    requires id in run[m - 1].calls ==> !run[m - 1].calls[id].pc.Finished?
    requires id in run[m].calls && run[m].calls[id].pc.Finished? && run[m].calls[id].pc.answer.Acquired?
    ensures CommitsAt(run, m, run[m].calls[id]) && GrantedAt(run, m, run[m].calls[id].runKey)
  {
    hide SqlInv, Enabled, Apply;
    var s := run[m - 1];
    var step: SqlStep :| SqlEnabled(s, step) && run[m] == SqlApply(s, step);
    OnlyAWriteAcquires(s, step, id);
    WriteIsAcquire(s, id);
    UnansweredHoldsNothing(s, id);
  }

  /** No other statement than the conditional write of a call answers it with Acquired. */
  lemma OnlyAWriteAcquires(s: SqlState, step: SqlStep, id: nat)
    requires SqlEnabled(s, step) && (id in s.calls ==> !s.calls[id].pc.Finished?)
    requires var t := SqlApply(s, step); id in t.calls && t.calls[id].pc.Finished? && t.calls[id].pc.answer.Acquired?
    ensures id in s.calls && !s.calls[id].pc.Finished? && SqlApply(s, step) == Write(s, id)
    ensures Free(s.lease.rows, s.calls[id].key, s.calls[id].captured)
  {
    hide Enabled, Apply, NewRow;
  }

  lemma UnansweredHoldsNothing(s: SqlState, id: nat)
    requires SqlInv(s) && id in s.calls && !s.calls[id].pc.Finished?
    ensures s.calls[id].runKey !in s.lease.grants
  {
    assert CallInv(s, s.calls[id]);
  }

  /** A not-acquired answer without error saw a row live at the captured time, and
      neither it nor a failed call ever became a holder. */
  lemma NotAcquiredNeverHeld(run: seq<SqlState>, j: nat, id: nat)
    requires IsSqlRun(run) && j < |run| && id in run[j].calls
    requires run[j].calls[id].pc.Finished? && !run[j].calls[id].pc.answer.Acquired?
    ensures run[j].calls[id].pc.answer.Blocked? ==>
              var c := run[j].calls[id];
              exists m :: 0 < m <= j && c.captured <= run[m].lease.now
                          && c.key in run[m].lease.rows && run[m].lease.rows[c.key] == c.pc.answer.seen
                          && Live(c.pc.answer.seen, c.captured)
    ensures forall i :: 0 <= i <= j ==> run[j].calls[id].runKey !in run[i].lease.grants
  {
    hide IsSqlRun, SqlNext, IsRun, CallInv;
    var m := AnswerPoint(run, j, id);
    var c := run[j].calls[id];
    SqlRunInv(run, m);
    SqlRunInv(run, m - 1);
    SqlRunInv(run, j);
    RefusedHoldsNothing(run[j], id);
    BlockedSawLiveRow(run[m - 1], run[m], id);
    SqlRunIsLeaseRun(run);
    var leases := seq(|run|, i requires 0 <= i < |run| => run[i].lease);
    forall i | 0 <= i <= j ensures c.runKey !in run[i].lease.grants {
      if c.runKey in run[i].lease.grants { GrantsPersist(leases, i, j, c.runKey); }
    }
  }

  lemma RefusedHoldsNothing(s: SqlState, id: nat)
    requires SqlInv(s) && id in s.calls && s.calls[id].pc.Finished? && !s.calls[id].pc.answer.Acquired?
    ensures s.calls[id].runKey !in s.lease.grants
  {
    assert CallInv(s, s.calls[id]);
  }

  lemma BlockedSawLiveRow(s: SqlState, t: SqlState, id: nat)
    requires SqlInv(t) && SqlNext(s, t) && (id in s.calls ==> !s.calls[id].pc.Finished?)
    requires id in t.calls && t.calls[id].pc.Finished?
    ensures var c := t.calls[id];
      c.pc.answer.Blocked? ==>
        && c.captured <= t.lease.now && c.key in t.lease.rows && t.lease.rows[c.key] == c.pc.answer.seen
        && Live(c.pc.answer.seen, c.captured)
  {
    hide Enabled, Apply, NewRow;
    assert CallInv(t, t.calls[id]);
  }

  /** Lease safety for the database store: an acquired run key whose lease is still current
      has carried its row ever since its commit point. */
  lemma SqlLeaseSafety(run: seq<SqlState>, i: nat, j: nat, runKey: RunKey)
    requires IsSqlRun(run) && i <= j < |run|
    requires runKey in run[i].lease.grants && Current(run[j].lease, runKey)
    ensures forall m :: i <= m <= j ==> Carries(run[m].lease, runKey)
  {
    SqlRunIsLeaseRun(run);
    LeaseSafety(seq(|run|, k requires 0 <= k < |run| => run[k].lease), i, j, runKey);
    var leases := seq(|run|, k requires 0 <= k < |run| => run[k].lease);
    forall m | i <= m <= j ensures Carries(run[m].lease, runKey) {
      assert Carries(leases[m], runKey);
    }
  }
}
