/** Any number of executeItem calls, late-runner watchers and clean-ups over one lock
    table and one run table. An execution is one call of executeItem together with
    the watcher it may leave behind; every store call is one step, and the clock value
    used by a lock statement is captured in an earlier step. */
module ExecutionProtocol {
  import opened Outcomes
  import opened LeaseTable
  import opened LifecycleTypes

  datatype Phase =
    | Acquiring                                  // clock read, lock statement or UPDATE outstanding
    | Inserting                                  // UPDATE matched no row, INSERT outstanding
    | Reading                                    // INSERT failed, SELECT outstanding
    | Held                                       // lease held, run record not read yet
    | Cleared(valid: bool)                       // run record allows a run; commands valid or not
    | Begun(valid: bool)                         // run recorded as running, no command active
    | Ready                                      // lease renewed for the next command
    | Commanding                                 // runner active, executeItem waiting for it
    | Failing                                    // outcome decided, not yet recorded
    | Late                                       // handed to the watcher, runner still active
    | LateDone                                   // runner ended, watcher recording and releasing
    | Orphan(running: bool, unrecorded: bool)    // watcher stopped after a failed renewal
    | Exiting                                    // deferred release outstanding
    | Done

  datatype Exec = Exec(
    moduleId: string,
    idempotencyKey: string,
    owner: string,
    runKey: RunKey,
    ttl: int,
    captured: int,
    pending: Option<int>,   // clock value read by a renewal not yet committed
    phase: Phase
  )

  datatype System = System(lease: State, runs: map<string, Status>, execs: map<nat, Exec>)

  /** What one execution may do next. */
  datatype Move =
    | AcquireAnswer(fails: bool)      // the in-memory store's critical section
    | UpdateRow(fails: bool)          // the database store's three statements
    | InsertRow(fails: bool)
    | ReadRow
    | ReadRun(fails: bool, valid: bool)
    | Refuse
    | BeginRun(writes: bool, fails: bool)
    | RenewStart
    | RenewCommit
    | RenewFail
    | StartCommand
    | CommandEnds(ok: bool)
    | GiveUp
    | Finish(status: Status, writes: bool)
    | LateRunnerEnds
    | RecordReconciliation(writes: bool)
    | ReleaseLock(applied: bool)

  datatype Action =
    | Environment(step: Step)            // the clock, or an operator's clean-up
    | Spawn(id: nat, exec: Exec)
    | Act(id: nat, move: Move)

  /** A move's effect: one lock statement (advancing the clock to now is none), at most
      one write of the run record, and the execution's next state. */
  datatype Effect = Effect(step: Step, write: Option<Status>, exec: Exec)

  function LockKey(moduleId: string): string {
    "module-lifecycle:" + moduleId
  }

  predicate RunnerActive(p: Phase) {
    p.Commanding? || p.Late? || (p.Orphan? && p.running)
  }

  /** No answer to the acquire yet. */
  predicate Asks(p: Phase) {
    p.Acquiring? || p.Inserting? || p.Reading?
  }

  /** From the grant of the lease until it is disposed of; an orphaned runner counts until
      it has ended and its lease failure has been recorded. */
  predicate Active(p: Phase) {
    !Asks(p) && !p.Done? && (p.Orphan? ==> p.running || p.unrecorded)
  }

  /** The phases in which a renewal may be outstanding. */
  predicate Renews(p: Phase) {
    p == Begun(true) || p == Commanding || p == Late
  }

  /** Past the idempotency check and not yet recorded. */
  predicate InProgress(p: Phase) {
    p.Cleared? || p.Begun? || p.Ready? || p.Commanding? || p.Failing?
  }

  predicate Blocks(runs: map<string, Status>, key: string) {
    key in runs && BlocksAutomaticRetry(runs[key])
  }

  predicate MoveEnabled(s: System, e: Exec, m: Move) {
    match m
    case AcquireAnswer(_) => e.phase == Acquiring
    case UpdateRow(_) => e.phase == Acquiring
    case InsertRow(_) => e.phase == Inserting
    case ReadRow => e.phase == Reading
    case ReadRun(_, _) => e.phase == Held
    case Refuse => e.phase.Cleared?
    case BeginRun(_, _) => e.phase.Cleared?
    case RenewStart => e.pending == None && Renews(e.phase)
    case RenewCommit => e.pending.Some? && Holds(s.lease.rows, LockKey(e.moduleId), e.owner, e.runKey)
    case RenewFail => e.pending.Some?
    case StartCommand => e.phase == Ready
    case CommandEnds(_) => e.phase == Commanding && e.pending == None
    case GiveUp => e.phase == Commanding && e.pending == None
    case Finish(status, _) =>
      && e.pending == None
      && (status == Failed || status == ManualRequired || (status == Succeeded && e.phase == Begun(true)))
      && (e.phase.Begun? || e.phase == Failing)
    case LateRunnerEnds => (e.phase == Late && e.pending == None) || (e.phase.Orphan? && e.phase.running)
    case RecordReconciliation(_) => e.phase == Late || e.phase == LateDone || (e.phase.Orphan? && e.phase.unrecorded)
    case ReleaseLock(_) => e.phase == Exiting || e.phase == LateDone
  }

  function EffectOf(s: System, e: Exec, m: Move): Effect
    requires MoveEnabled(s, e, m)
  {
    var key := LockKey(e.moduleId);
    var idle := Advance(s.lease.now);
    match m
    case AcquireAnswer(fails) =>
      if !fails && Free(s.lease.rows, key, e.captured)
      then Effect(Acquire(key, e.owner, e.runKey, e.ttl, e.captured), None, e.(phase := Held))
      else Effect(idle, None, e.(phase := Done))
    case UpdateRow(fails) =>
      if fails then Effect(idle, None, e.(phase := Done))
      else if key in s.lease.rows && !Live(s.lease.rows[key], e.captured)
      then Effect(Acquire(key, e.owner, e.runKey, e.ttl, e.captured), None, e.(phase := Held))
      else Effect(idle, None, e.(phase := Inserting))
    case InsertRow(fails) =>
      if !fails && key !in s.lease.rows
      then Effect(Acquire(key, e.owner, e.runKey, e.ttl, e.captured), None, e.(phase := Held))
      else Effect(idle, None, e.(phase := Reading))
    case ReadRow => Effect(idle, None, e.(phase := Done))
    case ReadRun(fails, valid) =>
      Effect(idle, None, e.(phase := if fails || Blocks(s.runs, e.idempotencyKey) then Exiting else Cleared(valid)))
    case Refuse => Effect(idle, None, e.(phase := Exiting))
    case BeginRun(writes, fails) =>
      Effect(idle, if writes || !fails then Some(Running) else None,
             e.(phase := if fails then Exiting else Begun(e.phase.valid)))
    case RenewStart => Effect(idle, None, e.(pending := Some(s.lease.now)))
    case RenewCommit =>
      Effect(Renew(key, e.owner, e.runKey, e.ttl, e.pending.value), None,
             e.(pending := None, phase := if e.phase.Begun? then Ready else e.phase))
    case RenewFail =>
      Effect(idle, None,
             e.(pending := None,
                phase := if e.phase.Begun? then Failing else if e.phase == Late then Orphan(true, true) else e.phase))
    case StartCommand => Effect(idle, None, e.(phase := Commanding))
    case CommandEnds(ok) => Effect(idle, None, e.(phase := if ok then Begun(true) else Failing))
    case GiveUp => Effect(idle, None, e.(phase := Late))
    case Finish(status, writes) => Effect(idle, if writes then Some(status) else None, e.(phase := Exiting))
    case LateRunnerEnds =>
      Effect(idle, None, e.(phase := if e.phase == Late then LateDone else e.phase.(running := false)))
    case RecordReconciliation(writes) =>
      Effect(idle, if writes then Some(ReconciliationRequired) else None,
             e.(phase := if e.phase.Orphan? then e.phase.(unrecorded := false) else e.phase))
    case ReleaseLock(applied) => Effect(Release(key, e.owner, e.runKey, applied), None, e.(phase := Done))
  }

  ghost predicate ActionEnabled(s: System, a: Action) {
    match a
    case Environment(step) => Enabled(s.lease, step) && (step.Advance? || step.DeleteStale?)
    case Spawn(id, exec) =>
      && id !in s.execs && exec.phase == Acquiring && exec.pending == None && exec.captured <= s.lease.now
      && exec.runKey !in s.lease.grants
      && (forall i :: i in s.execs ==> s.execs[i].runKey != exec.runKey)
      // an idempotency key names its module; see IdempotencyKeys.IdempotencyKeyNamesItsModule
      && (forall i :: i in s.execs && s.execs[i].idempotencyKey == exec.idempotencyKey ==>
          s.execs[i].moduleId == exec.moduleId)
    case Act(id, move) =>
      && id in s.execs && MoveEnabled(s, s.execs[id], move)
      && Enabled(s.lease, EffectOf(s, s.execs[id], move).step)
  }

  function Recorded(runs: map<string, Status>, key: string, write: Option<Status>): map<string, Status> {
    if write.Some? then runs[key := write.value] else runs
  }

  ghost function ActionApply(s: System, a: Action): System
    requires ActionEnabled(s, a)
  {
    match a
    case Environment(step) => s.(lease := Apply(s.lease, step))
    case Spawn(id, exec) => s.(execs := s.execs[id := exec])
    case Act(id, move) =>
      var f := EffectOf(s, s.execs[id], move);
      System(Apply(s.lease, f.step), Recorded(s.runs, s.execs[id].idempotencyKey, f.write), s.execs[id := f.exec])
  }

  ghost predicate SystemNext(s: System, t: System) {
    exists a: Action :: ActionEnabled(s, a) && t == ActionApply(s, a)
  }

  // --- runs ------------------------------------------------------------------------------------------------

  /** The step puts another row in the key's place, or deletes the row: an acquire that commits, or a
      clean-up whose observed row is still there. */
  ghost predicate TakesRow(s: System, a: Action, key: string)
    requires ActionEnabled(s, a)
  {
    match a
    case Environment(step) =>
      step.DeleteStale? && step.key == key && key in s.lease.rows && s.lease.rows[key] == step.observed
    case Spawn(_, _) => false
    case Act(id, move) =>
      var step := EffectOf(s, s.execs[id], move).step;
      step.Acquire? && step.key == key
  }

  /** The step takes the row of an active execution away from it. */
  ghost predicate TakesOver(s: System, a: Action)
    requires ActionEnabled(s, a)
  {
    exists i :: i in s.execs && Active(s.execs[i].phase) && TakesRow(s, a, LockKey(s.execs[i].moduleId))
  }

  ghost predicate SafeNext(s: System, t: System) {
    exists a: Action :: ActionEnabled(s, a) && !TakesOver(s, a) && t == ActionApply(s, a)
  }

  ghost predicate TakeoverNext(s: System, t: System) {
    exists a: Action :: ActionEnabled(s, a) && TakesOver(s, a) && t == ActionApply(s, a)
  }

  ghost predicate StartsEmpty(s: System) {
    Init(s.lease) && s.execs == map[]
  }

  ghost predicate IsProtocolRun(run: seq<System>) {
    && |run| > 0 && StartsEmpty(run[0])
    && (forall i :: 0 < i < |run| ==> SystemNext(run[i - 1], run[i]))
  }

  /** A run in which no active execution loses its row. */
  ghost predicate IsExecutionRun(run: seq<System>) {
    && |run| > 0 && StartsEmpty(run[0])
    && (forall i :: 0 < i < |run| ==> SafeNext(run[i - 1], run[i]))
  }

  /** No lease lapses: every lease that is not disposed of is still before its expiry. */
  ghost predicate NoLapse(s: System) {
    forall i :: i in s.execs && Active(s.execs[i].phase) ==> Current(s.lease, s.execs[i].runKey)
  }

  // --- what every run keeps ----------------------------------------------------------------------------------

  ghost predicate ExecInv(s: System, e: Exec) {
    && e.captured <= s.lease.now
    && (e.pending.Some? ==> e.pending.value <= s.lease.now && Renews(e.phase))
    && (Asks(e.phase) ==> e.runKey !in s.lease.grants)
    && (Active(e.phase) ==> Holds(s.lease.rows, LockKey(e.moduleId), e.owner, e.runKey))
    && (InProgress(e.phase) ==> !Blocks(s.runs, e.idempotencyKey))
  }

  ghost predicate SystemInv(s: System) {
    && Inv(s.lease)
    && (forall i :: i in s.execs ==> ExecInv(s, s.execs[i]))
    && (forall i, j :: i in s.execs && j in s.execs && s.execs[i].runKey == s.execs[j].runKey ==> i == j)
    && (forall i, j :: i in s.execs && j in s.execs && s.execs[i].idempotencyKey == s.execs[j].idempotencyKey
          ==> s.execs[i].moduleId == s.execs[j].moduleId)
  }

  /** At most one execution is active per module: the one that holds the row. */
  lemma OneActivePerModule(s: System, i: nat, j: nat)
    requires SystemInv(s)
    requires i in s.execs && j in s.execs && s.execs[i].moduleId == s.execs[j].moduleId
    requires Active(s.execs[i].phase) && Active(s.execs[j].phase)
    ensures i == j
  {
    assert ExecInv(s, s.execs[i]) && ExecInv(s, s.execs[j]);
  }

  /** Whose grants and rows a lock statement leaves alone. */
  lemma OthersStay(lease: State, step: Step, key: string, owner: string, runKey: RunKey)
    requires Enabled(lease, step)
    requires step.Acquire? || step.Renew? || step.Release? ==> step.runKey != runKey
    ensures (runKey in Apply(lease, step).grants) == (runKey in lease.grants)
    ensures lease.now <= Apply(lease, step).now
    ensures Holds(lease.rows, key, owner, runKey)
            && !(step.Acquire? && step.key == key && Free(lease.rows, key, step.captured))
            && !(step.DeleteStale? && step.key == key && lease.rows[key] == step.observed)
            ==> Holds(Apply(lease, step).rows, key, owner, runKey)
  {
  }

  /** A move keeps the execution's identity, its lock statement uses its own run key, and
      it writes only while active: past the check it may write anything, later only
      reconciliation_required. */
  lemma MoveShape(s: System, e: Exec, m: Move)
    requires MoveEnabled(s, e, m) && ExecInv(s, e)
    ensures var f := EffectOf(s, e, m);
      && f.exec.(phase := Done, pending := None) == e.(phase := Done, pending := None)
      && f.step == (if f.step.Advance? then Advance(s.lease.now) else f.step)
      && (!f.step.Advance? ==> (f.step.Acquire? || f.step.Renew? || f.step.Release?) && f.step.runKey == e.runKey)
      && (f.write.Some? ==> Active(e.phase) && (InProgress(e.phase) || f.write.value == ReconciliationRequired))
      && (f.write.Some? && InProgress(f.exec.phase) ==> !BlocksAutomaticRetry(f.write.value))
      && (InProgress(f.exec.phase) && !InProgress(e.phase) ==> !Blocks(s.runs, e.idempotencyKey) && f.write == None)
  {
  }

  /** What the execution's own lock statement leaves it with. */
  ghost predicate KeepsLease(s: System, e: Exec, m: Move)
    requires MoveEnabled(s, e, m) && Enabled(s.lease, EffectOf(s, e, m).step)
  {
    var f := EffectOf(s, e, m);
    var after := Apply(s.lease, f.step);
    && f.exec.captured <= after.now
    && (f.exec.pending.Some? ==> f.exec.pending.value <= after.now && Renews(f.exec.phase))
    && (Asks(f.exec.phase) ==> f.exec.runKey !in after.grants)
    && (Active(f.exec.phase) ==> Holds(after.rows, LockKey(e.moduleId), e.owner, e.runKey))
  }

  lemma AskerKeepsLease(s: System, e: Exec, m: Move)
    requires MoveEnabled(s, e, m) && ExecInv(s, e) && Enabled(s.lease, EffectOf(s, e, m).step)
    requires Asks(e.phase)
    ensures KeepsLease(s, e, m)
  {
    hide Blocks;
  }

  lemma HolderKeepsLease(s: System, e: Exec, m: Move)
    requires MoveEnabled(s, e, m) && ExecInv(s, e) && Enabled(s.lease, EffectOf(s, e, m).step)
    requires !Asks(e.phase)
    ensures KeepsLease(s, e, m)
  {
    hide Blocks, Free, Live;
  }

  lemma ActorKeepsLease(s: System, e: Exec, m: Move)
    requires MoveEnabled(s, e, m) && ExecInv(s, e) && Enabled(s.lease, EffectOf(s, e, m).step)
    ensures KeepsLease(s, e, m)
  {
    hide KeepsLease, MoveEnabled, EffectOf, ExecInv;
    if Asks(e.phase) { AskerKeepsLease(s, e, m); } else { HolderKeepsLease(s, e, m); }
  }

  lemma ActorKeepsInv(s: System, id: nat, m: Move)
    requires SystemInv(s) && ActionEnabled(s, Act(id, m))
    ensures ExecInv(ActionApply(s, Act(id, m)), EffectOf(s, s.execs[id], m).exec)
  {
    var e := s.execs[id];
    assert ExecInv(s, e);
    MoveShape(s, e, m);
    ActorKeepsLease(s, e, m);
  }

  lemma BystanderKeepsInv(s: System, id: nat, m: Move, i: nat)
    requires SystemInv(s) && ActionEnabled(s, Act(id, m)) && !TakesOver(s, Act(id, m))
    requires i in s.execs && id != i
    ensures ExecInv(ActionApply(s, Act(id, m)), s.execs[i])
  {
    hide Apply, EffectOf, MoveEnabled, Inv, Free, Holds;
    var a, e := s.execs[id], s.execs[i];
    assert ExecInv(s, a) && ExecInv(s, e);
    MoveShape(s, a, m);
    OthersStay(s.lease, EffectOf(s, a, m).step, LockKey(e.moduleId), e.owner, e.runKey);
    assert Active(e.phase) ==> !TakesRow(s, Act(id, m), LockKey(e.moduleId));
    if InProgress(e.phase) && EffectOf(s, a, m).write.Some? && a.idempotencyKey == e.idempotencyKey {
      OneActivePerModule(s, i, id);
    }
  }

  lemma LeaseStep(s: System, a: Action)
    requires SystemInv(s) && ActionEnabled(s, a)
    ensures Inv(ActionApply(s, a).lease)
  {
    match a {
      case Environment(step) => StepKeepsInv(s.lease, step);
      case Spawn(_, _) =>
      case Act(id, move) => StepKeepsInv(s.lease, EffectOf(s, s.execs[id], move).step);
    }
  }

  lemma IdentitiesStay(s: System, id: nat, m: Move)
    requires SystemInv(s) && ActionEnabled(s, Act(id, m))
    ensures var e, f := s.execs[id], EffectOf(s, s.execs[id], m).exec;
      f.runKey == e.runKey && f.idempotencyKey == e.idempotencyKey && f.moduleId == e.moduleId
  {
    assert ExecInv(s, s.execs[id]);
    MoveShape(s, s.execs[id], m);
  }

  lemma EnvironmentKeepsInv(s: System, step: Step, i: nat)
    requires SystemInv(s) && ActionEnabled(s, Environment(step)) && !TakesOver(s, Environment(step)) && i in s.execs
    ensures ExecInv(ActionApply(s, Environment(step)), s.execs[i])
  {
    hide Apply, Inv, Free;
    var e := s.execs[i];
    assert ExecInv(s, e);
    OthersStay(s.lease, step, LockKey(e.moduleId), e.owner, e.runKey);
    assert Active(e.phase) ==> !TakesRow(s, Environment(step), LockKey(e.moduleId));
  }

  lemma EachKeepsInv(s: System, a: Action, i: nat)
    requires SystemInv(s) && ActionEnabled(s, a) && !TakesOver(s, a) && i in ActionApply(s, a).execs
    ensures ExecInv(ActionApply(s, a), ActionApply(s, a).execs[i])
  {
    hide Apply, EffectOf, MoveEnabled, Inv;
    match a {
      case Environment(step) =>
        EnvironmentKeepsInv(s, step, i);
      case Spawn(id, _) => if i != id { assert ExecInv(s, s.execs[i]); }
      case Act(id, move) => if i == id { ActorKeepsInv(s, id, move); } else { BystanderKeepsInv(s, id, move, i); }
    }
  }

  lemma StepKeepsSystemInv(s: System, a: Action)
    requires SystemInv(s) && ActionEnabled(s, a) && !TakesOver(s, a)
    ensures SystemInv(ActionApply(s, a))
  {
    hide Apply, EffectOf, MoveEnabled, Inv, TakesOver, ExecInv;
    var t := ActionApply(s, a);
    LeaseStep(s, a);
    forall i | i in t.execs ensures ExecInv(t, t.execs[i]) {
      EachKeepsInv(s, a, i);
    }
    if a.Act? { IdentitiesStay(s, a.id, a.move); }
  }

  lemma SafeStep(s: System, t: System)
    requires SystemInv(s) && SafeNext(s, t)
    ensures SystemInv(t)
  {
    hide SystemInv, ActionApply, TakesOver;
    var a: Action :| ActionEnabled(s, a) && !TakesOver(s, a) && t == ActionApply(s, a);
    StepKeepsSystemInv(s, a);
  }

  lemma {:induction false} ExecutionRunInv(run: seq<System>, i: nat)
    requires IsExecutionRun(run) && i < |run|
    ensures SystemInv(run[i])
  {
    hide SafeNext;
    if i > 0 {
      ExecutionRunInv(run, i - 1);
      SafeStep(run[i - 1], run[i]);
    }
  }

  /** In every run in which no active execution loses its row, runners for one module never overlap, whether
      executeItem still waits for them or only a watcher does. */
  lemma CommandsNeverOverlap(run: seq<System>, m: nat, i: nat, j: nat)
    requires IsExecutionRun(run) && m < |run|
    requires i in run[m].execs && j in run[m].execs && i != j
    requires RunnerActive(run[m].execs[i].phase) && RunnerActive(run[m].execs[j].phase)
    ensures run[m].execs[i].moduleId != run[m].execs[j].moduleId
  {
    ExecutionRunInv(run, m);
    if run[m].execs[i].moduleId == run[m].execs[j].moduleId { OneActivePerModule(run[m], i, j); }
  }

  // --- when a row can be lost ----------------------------------------------------------------------------------

  /** The row of an active execution is taken only after its lease has run out. */
  lemma TakeoverNeedsLapse(s: System, a: Action)
    requires SystemInv(s) && ActionEnabled(s, a) && TakesOver(s, a)
    ensures !NoLapse(s)
  {
    hide EffectOf, MoveEnabled;
    var i :| i in s.execs && Active(s.execs[i].phase) && TakesRow(s, a, LockKey(s.execs[i].moduleId));
    assert ExecInv(s, s.execs[i]);
    if a.Act? {
      assert ExecInv(s, s.execs[a.id]);
      AcquireMeetsFreeRow(s, s.execs[a.id], a.move);
    }
  }

  lemma AcquireMeetsFreeRow(s: System, e: Exec, m: Move)
    requires MoveEnabled(s, e, m) && ExecInv(s, e) && EffectOf(s, e, m).step.Acquire?
    ensures var step := EffectOf(s, e, m).step;
            Free(s.lease.rows, step.key, step.captured) && step.captured <= s.lease.now
  {
  }

  lemma NextIsSafeOrTakeover(s: System, t: System)
    requires SystemNext(s, t)
    ensures SafeNext(s, t) || TakeoverNext(s, t)
  {
    hide ActionEnabled, ActionApply, TakesOver;
    var a: Action :| ActionEnabled(s, a) && t == ActionApply(s, a);
    if TakesOver(s, a) {}
  }

  /** So runs in which no lease lapses are among those. */
  lemma {:induction false} NoLapseIsSafe(run: seq<System>)
    requires IsProtocolRun(run) && forall i :: 0 <= i < |run| - 1 ==> NoLapse(run[i])
    ensures IsExecutionRun(run)
  {
    hide SystemNext, NoLapse, SafeNext, StartsEmpty;
    if |run| > 1 {
      var front := run[..|run| - 1];
      NoLapseIsSafe(front);
      ExecutionRunInv(front, |front| - 1);
      LapseFreeStep(run[|run| - 2], run[|run| - 1]);
      forall i | 0 < i < |run| ensures SafeNext(run[i - 1], run[i]) {
        if i < |run| - 1 { assert SafeNext(front[i - 1], front[i]); }
      }
    }
  }

  lemma LapseFreeStep(s: System, t: System)
    requires SystemInv(s) && NoLapse(s) && SystemNext(s, t)
    ensures SafeNext(s, t)
  {
    hide ActionApply, SystemInv, NoLapse, TakesOver;
    var a: Action :| ActionEnabled(s, a) && t == ActionApply(s, a);
    if TakesOver(s, a) { TakeoverNeedsLapse(s, a); }
  }

  /** And a run can overlap only after a step that took an active execution's row. */
  lemma OverlapNeedsTakeover(run: seq<System>, m: nat, i: nat, j: nat)
    requires IsProtocolRun(run) && m < |run|
    requires i in run[m].execs && j in run[m].execs && i != j && run[m].execs[i].moduleId == run[m].execs[j].moduleId
    requires RunnerActive(run[m].execs[i].phase) && RunnerActive(run[m].execs[j].phase)
    ensures exists k :: 0 < k <= m && TakeoverNext(run[k - 1], run[k])
  {
    hide SystemNext, SafeNext, TakeoverNext, StartsEmpty;
    var front := run[..m + 1];
    if forall k :: 0 < k <= m ==> SafeNext(run[k - 1], run[k]) {
      assert IsExecutionRun(front);
      CommandsNeverOverlap(front, m, i, j);
    } else {
      var k :| 0 < k <= m && !SafeNext(run[k - 1], run[k]);
      NextIsSafeOrTakeover(run[k - 1], run[k]);
    }
  }

  // --- recorded outcomes -----------------------------------------------------------------------------------------

  lemma BlockedStep(s: System, a: Action, key: string)
    requires SystemInv(s) && ActionEnabled(s, a) && Blocks(s.runs, key)
    ensures Blocks(ActionApply(s, a).runs, key)
  {
    if a.Act? {
      assert ExecInv(s, s.execs[a.id]);
      MoveShape(s, s.execs[a.id], a.move);
    }
  }

  lemma NextKeepsBlocked(s: System, t: System, key: string)
    requires SystemInv(s) && SafeNext(s, t) && Blocks(s.runs, key)
    ensures Blocks(t.runs, key)
  {
    hide TakesOver;
    var a: Action :| ActionEnabled(s, a) && !TakesOver(s, a) && t == ActionApply(s, a);
    BlockedStep(s, a, key);
  }

  /** In every run in which no active execution loses its row, a key once recorded succeeded or
      reconciliation_required stays so recorded, and from then on no execution of that
      key is past the idempotency check: none starts or runs a command again. */
  lemma {:induction false} RecordedOutcomeIsFinal(run: seq<System>, i: nat, j: nat, key: string)
    requires IsExecutionRun(run) && i <= j < |run| && Blocks(run[i].runs, key)
    ensures Blocks(run[j].runs, key)
    ensures forall id :: id in run[j].execs && run[j].execs[id].idempotencyKey == key ==>
            !InProgress(run[j].execs[id].phase)
    decreases j
  {
    hide SafeNext, Inv, InProgress;
    ExecutionRunInv(run, j);
    if i < j {
      RecordedOutcomeIsFinal(run, i, j - 1, key);
      ExecutionRunInv(run, j - 1);
      NextKeepsBlocked(run[j - 1], run[j], key);
    }
    forall id | id in run[j].execs && run[j].execs[id].idempotencyKey == key
      ensures !InProgress(run[j].execs[id].phase) {
      assert ExecInv(run[j], run[j].execs[id]);
    }
  }
}
