/** The statements with which an execution of the protocol acquires its lock in the database are the
    statements of SqlLock, so what is proved of the protocol holds for the three-statement acquire. */
module ProtocolStatements {
  import opened ExecutionProtocol
  import SqlLock

  /** The acquire that an execution still waits for, as a call of the database store. */
  function CallOf(e: Exec): SqlLock.Call
    requires Asks(e.phase)
  {
    SqlLock.Call(LockKey(e.moduleId), e.owner, e.runKey, e.ttl, e.captured,
                 match e.phase
                 case Acquiring => SqlLock.Updating
                 case Inserting => SqlLock.Inserting
                 case Reading => SqlLock.Reading)
  }

  predicate IsStatement(m: Move) {
    m.UpdateRow? || m.InsertRow? || m.ReadRow?
  }

  function StatementOf(id: nat, m: Move): SqlLock.SqlStep
    requires IsStatement(m)
  {
    match m
    case UpdateRow(fails) => SqlLock.Update(id, fails)
    case InsertRow(fails) => SqlLock.Insert(id, fails)
    case ReadRow => SqlLock.Read(id, false)
  }

  /** The execution waits where the call does, and it holds the lock exactly when the call acquired it. */
  ghost predicate Agrees(e: Exec, c: SqlLock.Call) {
    if Asks(e.phase) then c == CallOf(e)
    else c.pc.Finished? && (c.pc.answer.Acquired? <==> e.phase == Held) && (e.phase == Held || e.phase == Done)
  }

  /** Each statement moves the execution as it moves the call, and leaves the same lock table. */
  lemma StatementIsSqlStatement(s: System, id: nat, m: Move, sql: SqlLock.SqlState)
    requires ActionEnabled(s, Act(id, m)) && IsStatement(m)
    requires sql.lease == s.lease && id in sql.calls && sql.calls[id] == CallOf(s.execs[id])
    ensures SqlLock.SqlEnabled(sql, StatementOf(id, m))
    ensures var after := SqlLock.SqlApply(sql, StatementOf(id, m));
      && after.lease == ActionApply(s, Act(id, m)).lease
      && Agrees(ActionApply(s, Act(id, m)).execs[id], after.calls[id])
  {
    var e := s.execs[id];
    if EffectOf(s, e, m).step.Acquire? {
      WritesTheRow(s, id, m, sql);
    }
  }

  lemma WritesTheRow(s: System, id: nat, m: Move, sql: SqlLock.SqlState)
    requires ActionEnabled(s, Act(id, m)) && IsStatement(m) && EffectOf(s, s.execs[id], m).step.Acquire?
    requires sql.lease == s.lease && id in sql.calls && sql.calls[id] == CallOf(s.execs[id])
    ensures ActionApply(s, Act(id, m)).lease == SqlLock.Write(sql, id).lease
  {
  }
}
