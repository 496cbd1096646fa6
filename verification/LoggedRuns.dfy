/** Any number of executeItem calls with their watchers, each with the log of the calls it has
    made, over one lock table and one run table. Between two logged calls of one of them the others,
    the renewal goroutines and the environment may do anything. Every such run is a run of
    the execution protocol, so what is proved there holds of the logs. */
module LoggedRuns {
  import opened Outcomes
  import opened LeaseTable
  import opened LifecycleTypes
  import opened ExecutionProtocol
  import opened ExecutorPath
  import ItemCourse
  import Planner

  /** One executeItem call and its watcher. 'pending' is the clock value of an outstanding renewal, the
      executor's own or its renewal goroutine's; 'orphanEnded' tells of a runner nobody waits for. */
  datatype Party = Party(
    moduleId: string,
    idempotencyKey: string,
    owner: string,
    runKey: RunKey,
    ttl: int,
    captured: int,
    pending: Option<int>,
    asking: Asking,
    orphanEnded: bool,
    log: seq<Event>
  )

  /** Which statement of the acquire is outstanding; the in-memory store has only the first. */
  datatype Asking = AtUpdate | AtInsert | AtRead

  datatype LogState = LogState(lease: State, runs: map<string, Status>, parties: map<nat, Party>)

  /** A call that reports an error, or whose answer nobody reads, may have taken effect or not: 'applied'. */
  datatype LogStep =
    | Outside(step: Step)
    | Enter(id: nat, party: Party)
    | UpdateMisses(id: nat)     // the acquire's UPDATE matched no row
    | InsertFails(id: nat)
    | Call(id: nat, event: Event, applied: bool)
    | GoroutineStarts(id: nat)
    | GoroutineRenews(id: nat)
    | GoroutineFails(id: nat)
    | OrphanEnds(id: nat)

  function ControlOf(p: Party): Control {
    var c := ControlAfter(p.log);
    if c.Some? then c.value else AtStart
  }

  // --- what a call needs and does ------------------------------------------------------------------------

  /** The answer that the event carries is the one the shared tables give. */
  predicate Truthful(s: LogState, p: Party, e: Event) {
    match e
    case LockGranted(lock) =>
      && lock.key == LockKey(p.moduleId) && lock.owner == p.owner && lock.runKey == p.runKey
      && (match p.asking
          case AtUpdate => Free(s.lease.rows, lock.key, p.captured)
          case AtInsert => lock.key !in s.lease.rows
          case AtRead => false)
    case LockFailed => p.asking != AtInsert
    case LockHeldBy(holder) =>
      var key := LockKey(p.moduleId);
      p.asking != AtInsert && !Free(s.lease.rows, key, p.captured) && s.lease.rows[key].owner == holder
    case RunRead(found, failed, _) => failed || found == Blocks(s.runs, p.idempotencyKey)
    case RenewalAnswered(renewed) => renewed ==> Holds(s.lease.rows, LockKey(p.moduleId), p.owner, p.runKey)
    case CommandEnded(_, _, _) => p.pending == None     // the call returns when its goroutine has
    case CommandGivenUp(_) => p.pending == None
    case _ => true
  }

  /** The lock statement that the call issues. */
  function Statement(s: LogState, p: Party, e: Event, applied: bool): Step {
    match e
    case LockGranted(lock) => Acquire(lock.key, lock.owner, lock.runKey, p.ttl, p.captured)
    case RenewalAnswered(renewed) =>
      if renewed && p.pending.Some? then Renew(LockKey(p.moduleId), p.owner, p.runKey, p.ttl, p.pending.value)
        else Advance(s.lease.now)
    case LockReleased(lock) => Release(lock.key, lock.owner, lock.runKey, applied)
    case _ => Advance(s.lease.now)
  }

  /** The status that the call stores in the run record. */
  function Stores(e: Event, applied: bool): Option<Status> {
    match e
    case RunBegun(failed) => if applied || !failed then Some(Running) else None
    case RunFinished(status, wrote) => if applied || wrote then Some(status) else None
    case _ => None
  }

  function Logged(s: LogState, p: Party, e: Event): Party {
    p.(log := p.log + [e],
       pending := if e.RenewalStarted? then Some(s.lease.now) else if e.RenewalAnswered? then None else p.pending)
  }

  predicate CallEnabled(s: LogState, p: Party, e: Event, applied: bool) {
    && ControlAfter(p.log + [e]).Some? && Truthful(s, p, e)
    && Enabled(s.lease, Statement(s, p, e, applied))
  }

  ghost predicate LogEnabled(s: LogState, step: LogStep) {
    match step
    case Outside(e) => Enabled(s.lease, e) && (e.Advance? || e.DeleteStale?)
    case Enter(id, p) =>
      && id !in s.parties && p.log == [] && p.pending == None && p.asking == AtUpdate && !p.orphanEnded
      && p.captured <= s.lease.now
      && p.runKey !in s.lease.grants
      && (forall i :: i in s.parties ==> s.parties[i].runKey != p.runKey)
      && (forall i :: i in s.parties && s.parties[i].idempotencyKey == p.idempotencyKey ==>
          s.parties[i].moduleId == p.moduleId)
    case UpdateMisses(id) =>
      && id in s.parties && s.parties[id].log == [] && s.parties[id].asking == AtUpdate
      && var key := LockKey(s.parties[id].moduleId);
         key in s.lease.rows ==> Live(s.lease.rows[key], s.parties[id].captured)
    case InsertFails(id) => id in s.parties && s.parties[id].log == [] && s.parties[id].asking == AtInsert
    case Call(id, e, applied) => id in s.parties && CallEnabled(s, s.parties[id], e, applied)
    case GoroutineStarts(id) =>
      id in s.parties && ControlOf(s.parties[id]).phase == Commanding && s.parties[id].pending == None
    case GoroutineRenews(id) =>
      && id in s.parties && ControlOf(s.parties[id]).phase == Commanding && s.parties[id].pending.Some?
      && Holds(s.lease.rows, LockKey(s.parties[id].moduleId), s.parties[id].owner, s.parties[id].runKey)
      && Enabled(s.lease, GoroutineStatement(s.parties[id]))
    case GoroutineFails(id) =>
      id in s.parties && ControlOf(s.parties[id]).phase == Commanding && s.parties[id].pending.Some?
    case OrphanEnds(id) =>
      id in s.parties && ControlOf(s.parties[id]).phase.Orphan? && ControlOf(s.parties[id]).phase.running
        && !s.parties[id].orphanEnded
  }

  function GoroutineStatement(p: Party): Step
    requires p.pending.Some?
  {
    Renew(LockKey(p.moduleId), p.owner, p.runKey, p.ttl, p.pending.value)
  }

  ghost function LogApply(s: LogState, step: LogStep): LogState
    requires LogEnabled(s, step)
  {
    match step
    case Outside(e) => s.(lease := Apply(s.lease, e))
    case Enter(id, p) => s.(parties := s.parties[id := p])
    case UpdateMisses(id) => s.(parties := s.parties[id := s.parties[id].(asking := AtInsert)])
    case InsertFails(id) => s.(parties := s.parties[id := s.parties[id].(asking := AtRead)])
    case Call(id, e, applied) =>
      var p := s.parties[id];
      LogState(Apply(s.lease, Statement(s, p, e, applied)), Recorded(s.runs, p.idempotencyKey, Stores(e, applied)),
               s.parties[id := Logged(s, p, e)])
    case GoroutineStarts(id) => s.(parties := s.parties[id := s.parties[id].(pending := Some(s.lease.now))])
    case GoroutineRenews(id) =>
      LogState(Apply(s.lease, GoroutineStatement(s.parties[id])), s.runs,
               s.parties[id := s.parties[id].(pending := None)])
    case GoroutineFails(id) => s.(parties := s.parties[id := s.parties[id].(pending := None)])
    case OrphanEnds(id) => s.(parties := s.parties[id := s.parties[id].(orphanEnded := true)])
  }

  ghost predicate LogNext(s: LogState, t: LogState) {
    exists step: LogStep :: LogEnabled(s, step) && t == LogApply(s, step)
  }

  /** The next call of an item's course is one the log can take: only its answer depends on the tables. */
  lemma CourseCanBeLogged(item: Planner.PlanItem, seen: set<string>, es: seq<Event>, n: nat, err: Option<Error>,
                          s: LogState, p: Party, k: nat, applied: bool)
    requires ItemCourse.ItemRuns(item, seen, es, n, err) && k < |es| && p.log == es[..k]
    ensures CallEnabled(s, p, es[k], applied) <==>
            Truthful(s, p, es[k]) && Enabled(s.lease, Statement(s, p, es[k], applied))
  {
    hide ItemCourse.ItemRuns, ControlAfter, Truthful, Enabled, Statement;
    ItemCourse.CourseIsPath(item, seen, es, n, err);
    PrefixIsPath(es, k + 1);
    assert es[..k + 1] == p.log + [es[k]];
  }

  // --- seen as the protocol -------------------------------------------------------------------------------

  function PhaseOf(p: Party): Phase {
    var phase := ControlOf(p).phase;
    if phase.Orphan? then Orphan(phase.running && !p.orphanEnded, phase.unrecorded)
    else if phase.Acquiring? then (match p.asking case AtUpdate => Acquiring case AtInsert => Inserting case AtRead =>
                                   Reading)
    else phase
  }

  function ExecOf(p: Party): Exec {
    Exec(p.moduleId, p.idempotencyKey, p.owner, p.runKey, p.ttl, p.captured, p.pending, PhaseOf(p))
  }

  function SystemOf(s: LogState): System {
    System(s.lease, s.runs, map id | id in s.parties :: ExecOf(s.parties[id]))
  }

  /** The log is a path, its lock is the party's own, and a renewal is outstanding only where the
      log says so or while the command's goroutine runs. */
  ghost predicate PartyInv(p: Party) {
    && ControlAfter(p.log).Some?
    && ControlInv(p, ControlOf(p))
  }

  predicate ControlInv(p: Party, c: Control) {
    && (c.lock.acquired ==> c.lock.key == LockKey(p.moduleId) && c.lock.owner == p.owner && c.lock.runKey == p.runKey)
    && (c.renewing ==> p.pending.Some? && (c.phase == Begun(true) || c.phase == Late))
    && (p.pending.Some? ==> c.renewing || c.phase == Commanding)
    && (p.orphanEnded ==> c.phase.Orphan?)
  }

  ghost predicate LogInv(s: LogState) {
    forall id :: id in s.parties ==> PartyInv(s.parties[id])
  }

  /** The protocol move that a call is; a call that only notes something is none. */
  function MoveOf(asking: Asking, c: Control, e: Event, applied: bool): Option<Move> {
    match e
    case LockGranted(_) => Some(if asking == AtUpdate then AcquireAnswer(false) else InsertRow(false))
    case LockFailed => Some(if asking == AtUpdate then AcquireAnswer(true) else ReadRow)
    case LockHeldBy(_) => Some(if asking == AtUpdate then AcquireAnswer(false) else ReadRow)
    case RunRead(_, failed, valid) => Some(ReadRun(failed, valid))
    case GateRefused => Some(Refuse)
    case RunBegun(failed) => Some(Move.BeginRun(applied || !failed, failed))
    case RenewalStarted => Some(RenewStart)
    case RenewalAnswered(renewed) => Some(if renewed then RenewCommit else RenewFail)
    case CommandStarted(_) => Some(StartCommand)
    case CommandEnded(_, _, ok) => Some(CommandEnds(ok))
    case CommandGivenUp(_) => Some(GiveUp)
    case RunFinished(status, wrote) =>
      Some(if Finishes(c, status) then Finish(status, applied || wrote) else RecordReconciliation(applied || wrote))
    case LateRunnerEnded => Some(LateRunnerEnds)
    case LockReleased(_) => Some(ReleaseLock(applied))
    case StepRecorded(_, _, _) => None
    case CommandPassed(_) => None
    case GateOpened => None
    case StateWritten(_) => None
    case HandedOver(_) => None
  }

  lemma LoggedControl(s: LogState, p: Party, e: Event)
    requires ControlAfter(p.log).Some? && ControlAfter(p.log + [e]).Some?
    ensures After(ControlOf(p), e) == Some(ControlOf(Logged(s, p, e)))
  {
    hide After;
    PathGrows(p.log, e);
  }

  /** c and d are where the log stands before and after the call. */
  ghost predicate Continues(s: LogState, p: Party, c: Control, d: Control, e: Event) {
    c == ControlOf(p) && d == ControlOf(Logged(s, p, e)) && After(c, e) == Some(d) && ControlInv(p, c)
      && Truthful(s, p, e)
  }

  lemma CallKeepsControlInv(s: LogState, p: Party, c: Control, d: Control, e: Event)
    requires Continues(s, p, c, d, e)
    ensures ControlInv(Logged(s, p, e), d)
  {
    hide ControlAfter, ControlOf;
  }

  lemma CallIsAllowed(s: LogState, p: Party, c: Control, d: Control, e: Event, applied: bool)
    requires Continues(s, p, c, d, e) && MoveOf(p.asking, c, e, applied).Some?
    ensures MoveEnabled(SystemOf(s), ExecOf(p), MoveOf(p.asking, c, e, applied).value)
  {
    hide ControlAfter, ControlOf, Free, Blocks, LockKey;
  }

  /** The calls up to the end of a command. */
  predicate IsEarly(e: Event) {
    e.LockGranted? || e.LockFailed? || e.LockHeldBy? || e.RunRead? || e.GateRefused? || e.RunBegun? || e.RenewalStarted?
      || e.RenewalAnswered? || e.CommandStarted? || e.CommandEnded? || e.CommandGivenUp?
  }

  lemma EarlyCallHasMoveEffect(s: LogState, p: Party, c: Control, d: Control, e: Event, applied: bool)
    requires Continues(s, p, c, d, e) && MoveOf(p.asking, c, e, applied).Some? && IsEarly(e)
    requires MoveEnabled(SystemOf(s), ExecOf(p), MoveOf(p.asking, c, e, applied).value)
    ensures EffectOf(SystemOf(s), ExecOf(p), MoveOf(p.asking, c, e, applied).value)
         == Effect(Statement(s, p, e, applied), Stores(e, applied), ExecOf(Logged(s, p, e)))
  {
    hide ControlAfter, ControlOf, MoveEnabled, Finishes, Reconciles;
  }

  lemma LaterCallHasMoveEffect(s: LogState, p: Party, c: Control, d: Control, e: Event, applied: bool)
    requires Continues(s, p, c, d, e) && MoveOf(p.asking, c, e, applied).Some? && !IsEarly(e)
    requires MoveEnabled(SystemOf(s), ExecOf(p), MoveOf(p.asking, c, e, applied).value)
    ensures EffectOf(SystemOf(s), ExecOf(p), MoveOf(p.asking, c, e, applied).value)
         == Effect(Statement(s, p, e, applied), Stores(e, applied), ExecOf(Logged(s, p, e)))
  {
    hide ControlAfter, ControlOf, MoveEnabled, Free, Blocks, Holds;
  }

  /** The call's effect is the move's effect, told from the executor's side. */
  lemma CallHasMoveEffect(s: LogState, p: Party, c: Control, d: Control, e: Event, applied: bool)
    requires Continues(s, p, c, d, e) && MoveOf(p.asking, c, e, applied).Some?
    requires MoveEnabled(SystemOf(s), ExecOf(p), MoveOf(p.asking, c, e, applied).value)
    ensures EffectOf(SystemOf(s), ExecOf(p), MoveOf(p.asking, c, e, applied).value)
         == Effect(Statement(s, p, e, applied), Stores(e, applied), ExecOf(Logged(s, p, e)))
  {
    hide Continues, MoveEnabled, EffectOf, MoveOf, SystemOf, ExecOf, Statement, Stores;
    if IsEarly(e) { EarlyCallHasMoveEffect(s, p, c, d, e, applied); }
      else { LaterCallHasMoveEffect(s, p, c, d, e, applied); }
  }

  lemma CallOnlyNotes(s: LogState, p: Party, c: Control, d: Control, e: Event, applied: bool)
    requires Continues(s, p, c, d, e) && MoveOf(p.asking, c, e, applied).None?
    ensures ExecOf(Logged(s, p, e)) == ExecOf(p) && Statement(s, p, e, applied) == Advance(s.lease.now)
            && Stores(e, applied) == None
  {
    hide ControlAfter, ControlOf;
  }

  // --- one step ----------------------------------------------------------------------------------------------

  /** The move that a statement of the acquire makes, a renewal goroutine, or an orphaned runner. */
  function MoveBehind(step: LogStep): Move
    requires IsUnlogged(step)
  {
    match step
    case UpdateMisses(_) => UpdateRow(false)
    case InsertFails(_) => InsertRow(true)
    case GoroutineStarts(_) => RenewStart
    case GoroutineRenews(_) => RenewCommit
    case GoroutineFails(_) => RenewFail
    case OrphanEnds(_) => LateRunnerEnds
  }

  predicate IsUnlogged(step: LogStep) {
    !step.Outside? && !step.Enter? && !step.Call?
  }

  /** The step as an action of the protocol. */
  ghost function ActionOf(s: LogState, step: LogStep): Action
    requires LogEnabled(s, step)
  {
    match step
    case Outside(e) => Environment(e)
    case Enter(id, p) => Spawn(id, ExecOf(p))
    case Call(id, e, applied) =>
      var move := MoveOf(s.parties[id].asking, ControlOf(s.parties[id]), e, applied);
      if move.Some? then Act(id, move.value) else Environment(Advance(s.lease.now))
    case _ => Act(step.id, MoveBehind(step))
  }

  /** The protocol allows the action, and it leads where the step leads. */
  ghost predicate Simulated(s: System, a: Action, t: System) {
    ActionEnabled(s, a) && t == ActionApply(s, a)
  }

  lemma ExecIdentity(p: Party)
    ensures ExecOf(p).idempotencyKey == p.idempotencyKey && ExecOf(p).moduleId == p.moduleId
            && ExecOf(p).runKey == p.runKey
  {
  }

  lemma ActedSystem(s: LogState, t: LogState, id: nat, m: Move, f: Effect)
    requires id in s.parties && MoveEnabled(SystemOf(s), ExecOf(s.parties[id]), m)
    requires f == EffectOf(SystemOf(s), ExecOf(s.parties[id]), m) && Enabled(s.lease, f.step)
    requires t.lease == Apply(s.lease, f.step) && t.runs == Recorded(s.runs, s.parties[id].idempotencyKey, f.write)
    requires t.parties.Keys == s.parties.Keys && ExecOf(t.parties[id]) == f.exec
    requires forall i :: i in s.parties && i != id ==> t.parties[i] == s.parties[i]
    ensures Simulated(SystemOf(s), Act(id, m), SystemOf(t))
  {
    hide MoveEnabled, EffectOf, Enabled, Apply, ExecOf;
    ExecIdentity(s.parties[id]);
    var a := Act(id, m);
    assert SystemOf(s).execs[id] == ExecOf(s.parties[id]);
    assert ActionEnabled(SystemOf(s), a);
    assert SystemOf(t) == ActionApply(SystemOf(s), a);
  }

  lemma IdleSystem(s: LogState, t: LogState)
    requires SystemOf(t) == SystemOf(s)
    ensures Simulated(SystemOf(s), Environment(Advance(s.lease.now)), SystemOf(t))
  {
    var a := Environment(Advance(s.lease.now));
    assert ActionEnabled(SystemOf(s), a) && ActionApply(SystemOf(s), a) == SystemOf(s);
  }

  lemma CallStep(s: LogState, id: nat, e: Event, applied: bool)
    requires LogInv(s) && LogEnabled(s, Call(id, e, applied))
    ensures var step := Call(id, e, applied); var t := LogApply(s, step);
      PartyInv(t.parties[id]) && Simulated(SystemOf(s), ActionOf(s, step), SystemOf(t))
  {
    hide MoveEnabled, EffectOf, Enabled, Apply, ExecOf, ControlAfter, After, ControlOf, ControlInv, Truthful, Statement,
         Stores,
         Simulated, Recorded;
    var t, p := LogApply(s, Call(id, e, applied)), s.parties[id];
    assert PartyInv(p);
    var q := Logged(s, p, e);
    LoggedControl(s, p, e);
    CallKeepsControlInv(s, p, ControlOf(p), ControlOf(q), e);
    if MoveOf(p.asking, ControlOf(p), e, applied).Some? {
      var m := MoveOf(p.asking, ControlOf(p), e, applied).value;
      CallIsAllowed(s, p, ControlOf(p), ControlOf(q), e, applied);
      CallHasMoveEffect(s, p, ControlOf(p), ControlOf(q), e, applied);
      ActedSystem(s, t, id, m, EffectOf(SystemOf(s), ExecOf(p), m));
    } else {
      CallOnlyNotes(s, p, ControlOf(p), ControlOf(q), e, applied);
      NotedSystem(s, t, id, q);
    }
  }

  lemma NotedSystem(s: LogState, t: LogState, id: nat, q: Party)
    requires id in s.parties && ExecOf(q) == ExecOf(s.parties[id]) && Enabled(s.lease, Advance(s.lease.now))
    requires t == LogState(Apply(s.lease, Advance(s.lease.now)), Recorded(s.runs, s.parties[id].idempotencyKey, None),
                           s.parties[id := q])
    ensures Simulated(SystemOf(s), Environment(Advance(s.lease.now)), SystemOf(t))
  {
    hide ExecOf, Simulated;
    assert t.lease == s.lease && t.runs == s.runs;
    IdleSystem(s, t);
  }

  lemma UnloggedMove(s: LogState, step: LogStep, q: Party)
    requires LogEnabled(s, step) && IsUnlogged(step)
    requires PartyInv(s.parties[step.id]) && q == LogApply(s, step).parties[step.id]
    ensures PartyInv(q)
    ensures var p := s.parties[step.id];
      && MoveEnabled(SystemOf(s), ExecOf(p), MoveBehind(step))
      && EffectOf(SystemOf(s), ExecOf(p), MoveBehind(step)) ==
         Effect(if step.GoroutineRenews? then GoroutineStatement(p) else Advance(s.lease.now), None, ExecOf(q))
  {
    hide ControlAfter, Enabled, Apply;
    assert q.log == s.parties[step.id].log;
    EmptyLogAsks(s.parties[step.id]);
  }

  lemma EmptyLogAsks(p: Party)
    ensures p.log == [] ==> ControlOf(p) == AtStart
  {
  }

  lemma UnloggedStep(s: LogState, step: LogStep)
    requires LogInv(s) && LogEnabled(s, step) && IsUnlogged(step)
    ensures PartyInv(LogApply(s, step).parties[step.id])
            && Simulated(SystemOf(s), ActionOf(s, step), SystemOf(LogApply(s, step)))
  {
    hide PartyInv, Simulated, SystemOf, MoveEnabled, EffectOf, ExecOf, ControlOf;
    var t := LogApply(s, step);
    UnloggedMove(s, step, t.parties[step.id]);
    ActedSystem(s, t, step.id, MoveBehind(step), EffectOf(SystemOf(s), ExecOf(s.parties[step.id]), MoveBehind(step)));
  }

  lemma EnterStep(s: LogState, id: nat, p: Party)
    requires LogInv(s) && LogEnabled(s, Enter(id, p))
    ensures PartyInv(p) && Simulated(SystemOf(s), Spawn(id, ExecOf(p)), SystemOf(LogApply(s, Enter(id, p))))
  {
    hide ExecOf, PartyInv, SystemOf;
    ExecAtStart(p);
    MaySpawn(s, id, p);
    WithParty(s, id, p);
  }

  lemma WithParty(s: LogState, id: nat, p: Party)
    ensures SystemOf(s.(parties := s.parties[id := p])) == SystemOf(s).(execs := SystemOf(s).execs[id := ExecOf(p)])
  {
    hide ExecOf;
  }

  lemma ExecAtStart(p: Party)
    requires p.log == [] && p.pending == None && p.asking == AtUpdate && !p.orphanEnded
    ensures PartyInv(p) && ExecOf(p) == Exec(p.moduleId, p.idempotencyKey, p.owner, p.runKey, p.ttl, p.captured, None,
                                             Acquiring)
  {
  }

  lemma MaySpawn(s: LogState, id: nat, p: Party)
    requires LogEnabled(s, Enter(id, p))
    ensures ActionEnabled(SystemOf(s), Spawn(id, ExecOf(p)))
  {
    hide ExecOf;
    ExecAtStart(p);
    forall i | i in s.parties
      ensures SystemOf(s).execs[i] == ExecOf(s.parties[i]) && ExecOf(s.parties[i]).runKey != p.runKey {
      ExecIdentity(s.parties[i]);
    }
    forall i | i in s.parties && SystemOf(s).execs[i].idempotencyKey == p.idempotencyKey
      ensures SystemOf(s).execs[i].moduleId == p.moduleId {
      ExecIdentity(s.parties[i]);
    }
  }

  lemma OutsideStep(s: LogState, e: Step)
    requires LogEnabled(s, Outside(e))
    ensures Simulated(SystemOf(s), Environment(e), SystemOf(LogApply(s, Outside(e))))
  {
    hide Apply, Enabled;
    var a, t := Environment(e), LogApply(s, Outside(e));
    assert ActionEnabled(SystemOf(s), a);
    assert SystemOf(t) == ActionApply(SystemOf(s), a);
  }

  /** Simulation: whatever an executor, a watcher, a renewal goroutine or the environment does next is one
      step of the protocol. */
  lemma LogStepIsProtocolStep(s: LogState, step: LogStep)
    requires LogInv(s) && LogEnabled(s, step)
    ensures LogInv(LogApply(s, step)) && Simulated(SystemOf(s), ActionOf(s, step), SystemOf(LogApply(s, step)))
  {
    hide PartyInv, Simulated, SystemOf, Apply, Enabled, CallEnabled, ControlOf;
    match step {
      case Outside(e) => OutsideStep(s, e);
      case Enter(id, p) => EnterStep(s, id, p);
      case Call(id, e, applied) => CallStep(s, id, e, applied);
      case _ => UnloggedStep(s, step);
    }
  }

  // --- losing a row ----------------------------------------------------------------------------------------------

  /** A grant that is logged, or a clean-up whose observed row is still there. */
  ghost predicate LogTakesRow(s: LogState, step: LogStep, key: string)
    requires LogEnabled(s, step)
  {
    match step
    case Outside(e) => e.DeleteStale? && e.key == key && key in s.lease.rows && s.lease.rows[key] == e.observed
    case Call(id, e, _) => e.LockGranted? && LockKey(s.parties[id].moduleId) == key
    case _ => false
  }

  /** The step takes the row of a party that has its lock. */
  ghost predicate LogTakesOver(s: LogState, step: LogStep)
    requires LogEnabled(s, step)
  {
    exists i :: i in s.parties && Active(PhaseOf(s.parties[i])) && LogTakesRow(s, step, LockKey(s.parties[i].moduleId))
  }

  lemma SameRowTaken(s: LogState, step: LogStep, key: string)
    requires LogInv(s) && LogEnabled(s, step) && ActionEnabled(SystemOf(s), ActionOf(s, step))
    ensures TakesRow(SystemOf(s), ActionOf(s, step), key) <==> LogTakesRow(s, step, key)
  {
    hide MoveEnabled, EffectOf, Enabled, Apply, ExecOf, ControlAfter, After, ControlOf, ControlInv, Stores;
    if step.Call? {
      var p := s.parties[step.id];
      assert PartyInv(p);
      LoggedControl(s, p, step.event);
      var q := Logged(s, p, step.event);
      if MoveOf(p.asking, ControlOf(p), step.event, step.applied).Some? {
        CallHasMoveEffect(s, p, ControlOf(p), ControlOf(q), step.event, step.applied);
      }
    } else if IsUnlogged(step) {
      assert PartyInv(s.parties[step.id]);
      UnloggedMove(s, step, LogApply(s, step).parties[step.id]);
    }
  }

  lemma SameTakeover(s: LogState, step: LogStep)
    requires LogInv(s) && LogEnabled(s, step) && ActionEnabled(SystemOf(s), ActionOf(s, step))
    ensures TakesOver(SystemOf(s), ActionOf(s, step)) <==> LogTakesOver(s, step)
  {
    hide ActionEnabled, TakesRow, LogTakesRow, LogEnabled, LogInv, ActionOf;
    forall i | i in s.parties
      ensures i in SystemOf(s).execs && SystemOf(s).execs[i].phase == PhaseOf(s.parties[i])
              && SystemOf(s).execs[i].moduleId == s.parties[i].moduleId
      ensures TakesRow(SystemOf(s), ActionOf(s, step), LockKey(s.parties[i].moduleId))
              <==> LogTakesRow(s, step, LockKey(s.parties[i].moduleId))
    {
      SameRowTaken(s, step, LockKey(s.parties[i].moduleId));
    }
  }

  // --- whole runs ----------------------------------------------------------------------------------------------

  ghost predicate SafeLogNext(s: LogState, t: LogState) {
    exists step: LogStep :: LogEnabled(s, step) && !LogTakesOver(s, step) && t == LogApply(s, step)
  }

  /** A run of executors, watchers and goroutines in which nobody who has the lock loses its row. */
  ghost predicate IsLoggedRun(run: seq<LogState>) {
    && |run| > 0 && Init(run[0].lease) && run[0].parties == map[]
    && (forall i :: 0 < i < |run| ==> SafeLogNext(run[i - 1], run[i]))
  }

  function Systems(run: seq<LogState>): (systems: seq<System>)
    ensures |systems| == |run| && forall i :: 0 <= i < |run| ==> systems[i] == SystemOf(run[i])
  {
    seq(|run|, i requires 0 <= i < |run| => SystemOf(run[i]))
  }

  lemma LogNextIsSafeNext(s: LogState, t: LogState)
    requires LogInv(s) && SafeLogNext(s, t)
    ensures LogInv(t) && SafeNext(SystemOf(s), SystemOf(t)) && LogNext(s, t)
  {
    hide LogInv, SystemOf, LogEnabled, LogApply, LogTakesOver, ActionOf, ActionEnabled, ActionApply, TakesOver;
    var step: LogStep :| LogEnabled(s, step) && !LogTakesOver(s, step) && t == LogApply(s, step);
    LogStepIsProtocolStep(s, step);
    SameTakeover(s, step);
  }

  lemma {:induction false} LoggedRunInv(run: seq<LogState>, i: nat)
    requires IsLoggedRun(run) && i < |run|
    ensures LogInv(run[i])
  {
    hide SafeLogNext, LogNext, SafeNext, SystemOf;
    if i > 0 {
      LoggedRunInv(run, i - 1);
      LogNextIsSafeNext(run[i - 1], run[i]);
    }
  }

  /** Every run of executors and watchers over the shared tables is a run of the protocol. */
  lemma LoggedRunIsExecutionRun(run: seq<LogState>)
    requires IsLoggedRun(run)
    ensures IsExecutionRun(Systems(run))
  {
    hide SafeLogNext, LogNext, SafeNext, SystemOf, LogInv;
    FirstSystem(run[0]);
    forall i | 0 < i < |run| ensures SafeNext(Systems(run)[i - 1], Systems(run)[i]) {
      LoggedRunInv(run, i - 1);
      LogNextIsSafeNext(run[i - 1], run[i]);
    }
  }

  /** A run in which no lease lapses is such a run. */
  lemma {:induction false} NoLapseIsLogged(run: seq<LogState>)
    requires |run| > 0 && Init(run[0].lease) && run[0].parties == map[]
    requires forall i :: 0 < i < |run| ==> LogNext(run[i - 1], run[i])
    requires forall i :: 0 <= i < |run| - 1 ==> NoLapse(SystemOf(run[i]))
    ensures IsLoggedRun(run)
  {
    hide LogNext, SafeLogNext, NoLapse, SystemOf, LogInv, SystemInv;
    if |run| > 1 {
      var front := run[..|run| - 1];
      NoLapseIsLogged(front);
      LoggedRunInv(front, |front| - 1);
      LoggedRunIsExecutionRun(front);
      ExecutionRunInv(Systems(front), |front| - 1);
      LapseFreeLogStep(run[|run| - 2], run[|run| - 1]);
      forall i | 0 < i < |run| ensures SafeLogNext(run[i - 1], run[i]) {
        if i < |run| - 1 { assert SafeLogNext(front[i - 1], front[i]); }
      }
    }
  }

  lemma LapseFreeLogStep(s: LogState, t: LogState)
    requires LogInv(s) && SystemInv(SystemOf(s)) && NoLapse(SystemOf(s)) && LogNext(s, t)
    ensures SafeLogNext(s, t)
  {
    hide LogInv, SystemInv, NoLapse, SystemOf, LogEnabled, LogApply, LogTakesOver, ActionOf, ActionEnabled, ActionApply,
         TakesOver;
    var step: LogStep :| LogEnabled(s, step) && t == LogApply(s, step);
    LogStepIsProtocolStep(s, step);
    SameTakeover(s, step);
    if LogTakesOver(s, step) { TakeoverNeedsLapse(SystemOf(s), ActionOf(s, step)); }
  }

  lemma FirstSystem(s: LogState)
    requires s.parties == map[]
    ensures SystemOf(s).lease == s.lease && SystemOf(s).execs == map[]
  {
  }

  // --- what the logs say -----------------------------------------------------------------------------------------

  function Starts(log: seq<Event>): nat {
    if log == [] then 0 else Starts(log[..|log| - 1]) + if log[|log| - 1].CommandStarted? then 1 else 0
  }

  function Ends(log: seq<Event>): nat {
    if log == [] then 0
    else Ends(log[..|log| - 1]) + if log[|log| - 1].CommandEnded? || log[|log| - 1].LateRunnerEnded? then 1 else 0
  }

  /** A started runner has not ended, as far as the log tells, and not ended unheard either. */
  predicate HasRunner(p: Party) {
    Starts(p.log) > Ends(p.log) && !p.orphanEnded
  }

  /** At most one runner at a time, and the log tells whether there is one. */
  predicate OneRunner(c: Control, starts: nat, ends: nat) {
    && starts == ends + (if RunnerActive(c.phase) then 1 else 0)
    && (c.phase.Orphan? ==> c.phase.running)
  }

  lemma RunnerStep(c: Control, e: Event, starts: nat, ends: nat)
    requires OneRunner(c, starts, ends) && After(c, e).Some?
    ensures OneRunner(After(c, e).value, starts + (if e.CommandStarted? then 1 else 0),
                      ends + if e.CommandEnded? || e.LateRunnerEnded? then 1 else 0)
  {
  }

  lemma {:induction false} LogTellsRunner(log: seq<Event>)
    requires ControlAfter(log).Some?
    ensures OneRunner(ControlAfter(log).value, Starts(log), Ends(log))
  {
    hide After, OneRunner;
    if log != [] {
      LastCall(log);
      LogTellsRunner(log[..|log| - 1]);
      RunnerStep(ControlAfter(log[..|log| - 1]).value, log[|log| - 1], Starts(log[..|log| - 1]),
                 Ends(log[..|log| - 1]));
    } else {
      NoRunnerAtStart();
    }
  }

  lemma NoRunnerAtStart()
    ensures OneRunner(AtStart, 0, 0)
  {
  }

  lemma RunningIsActive(p: Party)
    requires PartyInv(p) && HasRunner(p)
    ensures RunnerActive(PhaseOf(p))
  {
    hide ControlAfter;
    LogTellsRunner(p.log);
  }

  /** In every run in which nobody loses its row, two calls for one module never both have a runner: at any
      moment, one of their logs has an end for every start. */
  lemma LoggedCommandsNeverOverlap(run: seq<LogState>, m: nat, i: nat, j: nat)
    requires IsLoggedRun(run) && m < |run| && i in run[m].parties && j in run[m].parties && i != j
    requires HasRunner(run[m].parties[i]) && HasRunner(run[m].parties[j])
    ensures run[m].parties[i].moduleId != run[m].parties[j].moduleId
  {
    hide IsLoggedRun, IsExecutionRun, HasRunner, PartyInv, PhaseOf;
    LoggedRunInv(run, m);
    LoggedRunIsExecutionRun(run);
    RunningIsActive(run[m].parties[i]);
    RunningIsActive(run[m].parties[j]);
    CommandsNeverOverlap(Systems(run), m, i, j);
  }

  /** The command starts that the party with this id has logged. */
  function StartsBy(s: LogState, id: nat): nat {
    if id in s.parties then Starts(s.parties[id].log) else 0
  }

  lemma StartsGrow(log: seq<Event>, e: Event)
    ensures Starts(log + [e]) == Starts(log) + if e.CommandStarted? then 1 else 0
  {
    assert (log + [e])[..|log|] == log;
  }

  lemma StartNeedsReady(c: Control, e: Event)
    requires After(c, e).Some? && e.CommandStarted?
    ensures InProgress(c.phase)
  {
  }

  lemma NoStartWhenBarred(s: LogState, t: LogState, id: nat)
    requires LogInv(s) && LogNext(s, t) && id in t.parties
    requires id in s.parties ==> !InProgress(PhaseOf(s.parties[id]))
    ensures StartsBy(t, id) == StartsBy(s, id)
  {
    hide After, ControlAfter, InProgress, Apply, Enabled, Truthful, Statement, Stores;
    var step: LogStep :| LogEnabled(s, step) && t == LogApply(s, step);
    if step.Call? && step.id == id {
      var p := s.parties[id];
      assert PartyInv(p);
      LoggedControl(s, p, step.event);
      StartsGrow(p.log, step.event);
      if step.event.CommandStarted? {
        StartNeedsReady(ControlOf(p), step.event);
        OrphanIsNotInProgress(p);
      }
    }
  }

  lemma PartyStays(s: LogState, t: LogState, id: nat)
    requires LogNext(s, t) && id in s.parties
    ensures id in t.parties && t.parties[id].idempotencyKey == s.parties[id].idempotencyKey
  {
    hide ControlAfter, Apply, Enabled, Truthful, Statement, Stores;
  }

  lemma {:induction false} PartyPersists(run: seq<LogState>, i: nat, j: nat, id: nat)
    requires IsLoggedRun(run) && i <= j < |run| && id in run[i].parties
    ensures id in run[j].parties && run[j].parties[id].idempotencyKey == run[i].parties[id].idempotencyKey
    decreases j
  {
    hide LogNext, SafeLogNext, SystemOf;
    if i < j {
      PartyPersists(run, i, j - 1, id);
      NextOf(run, j);
      PartyStays(run[j - 1], run[j], id);
    }
  }

  lemma OrphanIsNotInProgress(p: Party)
    ensures InProgress(ControlOf(p).phase) ==> InProgress(PhaseOf(p))
  {
  }

  lemma NextOf(run: seq<LogState>, j: nat)
    requires IsLoggedRun(run) && 0 < j < |run|
    ensures LogNext(run[j - 1], run[j])
  {
    hide LogEnabled, LogApply, LogTakesOver;
    assert SafeLogNext(run[j - 1], run[j]);
  }

  lemma KeyIsBarred(run: seq<LogState>, i: nat, j: nat, key: string)
    requires IsLoggedRun(run) && i <= j < |run| && Blocks(run[i].runs, key)
    ensures Blocks(run[j].runs, key)
    ensures forall id :: id in run[j].parties && run[j].parties[id].idempotencyKey == key ==>
            !InProgress(PhaseOf(run[j].parties[id]))
  {
    hide IsLoggedRun, IsExecutionRun, InProgress;
    LoggedRunIsExecutionRun(run);
    RecordedOutcomeIsFinal(Systems(run), i, j, key);
    forall id | id in run[j].parties && run[j].parties[id].idempotencyKey == key
      ensures !InProgress(PhaseOf(run[j].parties[id])) {
      assert Systems(run)[j].execs[id] == ExecOf(run[j].parties[id]);
    }
  }

  /** In every run in which nobody loses its row, once succeeded or reconciliation_required is recorded for a key
      it stays recorded, and from then on no executor logs another command start for that key. */
  lemma {:induction false} LoggedOutcomeIsFinal(run: seq<LogState>, i: nat, j: nat, key: string)
    requires IsLoggedRun(run) && i <= j < |run| && Blocks(run[i].runs, key)
    ensures Blocks(run[j].runs, key)
    ensures forall id :: id in run[j].parties && run[j].parties[id].idempotencyKey == key ==>
            StartsBy(run[j], id) == StartsBy(run[i], id)
    decreases j
  {
    hide IsLoggedRun, InProgress, LogInv, LogNext, PhaseOf, Starts;
    KeyIsBarred(run, i, j, key);
    if i < j {
      LoggedOutcomeIsFinal(run, i, j - 1, key);
      LoggedRunInv(run, j - 1);
      KeyIsBarred(run, i, j - 1, key);
      NextOf(run, j);
      forall id | id in run[j].parties && run[j].parties[id].idempotencyKey == key
        ensures StartsBy(run[j], id) == StartsBy(run[i], id) {
        if id in run[j - 1].parties {
          PartyPersists(run, j - 1, j, id);
        } else if id in run[i].parties {
          PartyPersists(run, i, j - 1, id);
        }
        NoStartWhenBarred(run[j - 1], run[j], id);
      }
    }
  }
}
