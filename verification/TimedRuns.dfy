/** Runs of the execution protocol in which every holder of a lock keeps to the timing of LeaseContinuity. If
    the timing fits the TTL no lease ever lapses, so nothing has to be assumed of the leases: commands
    of one module never overlap and recorded outcomes are final. */
module TimedRuns {
  import opened Outcomes
  import opened LeaseTable
  import opened ExecutionProtocol
  import opened LeaseContinuity

  /** The protocol's state, and for each execution that was granted its lock how old its row is. */
  datatype TimedSystem = TimedSystem(system: System, holders: map<nat, Holder>)

  /** An action of the protocol, or what only the holder's clock sees: a tick that is served, a watcher
      that starts. */
  datatype TimedStep =
    | Do(action: Action)
    | Served(id: nat)
    | Watched(id: nat)

  /** What an execution's move is for its holder; the others do not touch its row's age. */
  function HolderMove(e: Exec, m: Move): Option<HolderStep> {
    match m
    case RenewCommit =>
      if e.pending.None? then None
      else if e.phase == Commanding then Some(Renewed(e.pending.value))
      else if e.phase == Late then Some(LateRenewed(e.pending.value))
      else Some(RenewFirst(e.pending.value))
    case CommandEnds(_) => Some(EndCommand)
    case GiveUp => Some(LeaveCommand)
    case LateRunnerEnds => Some(EndRunner)
    case ReleaseLock(_) => Some(LetGo)
    case _ => None
  }

  /** The move comes in its time: a renewal reads the store's clock after its tick, and the watcher's
      renewals do not fail. */
  predicate InTurn(t: Timing, now: int, h: Holder, e: Exec, m: Move) {
    && (HolderMove(e, m).Some? ==> HolderEnabled(t, Moment(now, h), HolderMove(e, m).value))
    && (m.RenewStart? && e.phase == Commanding ==> h.stage == Renewing)
    && (m.RenewStart? && e.phase == Late ==> h.stage == LateRenewing)
    && !(m.RenewFail? && e.phase == Late)
  }

  function FirstHolder(e: Exec): Holder {
    Holder(e.captured, e.captured, Between)
  }

  ghost predicate TimedEnabled(t: Timing, s: TimedSystem, step: TimedStep) {
    match step
    case Served(id) =>
      && id in s.system.execs && id in s.holders && RunnerActive(s.system.execs[id].phase)
      && (s.holders[id].stage == Waiting || s.holders[id].stage == Watching)
      && HolderEnabled(t, Moment(s.system.lease.now, s.holders[id]), TickOf(s.holders[id]))
    case Watched(id) => id in s.system.execs && id in s.holders && s.holders[id].stage == Handing
    case Do(a) =>
      && ActionEnabled(s.system, a)
      && match a {
           case Environment(e) =>
             e.Advance? ==> forall i :: i in s.holders && s.holders[i].stage != Over ==>
               e.until <= Limit(t, s.holders[i])
           case Spawn(_, exec) => EffectiveTtl(exec.ttl) == t.ttl
           case Act(id, m) =>
             var e := s.system.execs[id];
             if EffectOf(s.system, e, m).step.Acquire? then Granted(t, Moment(s.system.lease.now, FirstHolder(e)))
             else !Asks(e.phase) ==> id in s.holders && InTurn(t, s.system.lease.now, s.holders[id], e, m)
         }
  }

  function TickOf(h: Holder): HolderStep {
    if h.stage == Waiting then Tick else LateTick
  }

  ghost function TimedApply(t: Timing, s: TimedSystem, step: TimedStep): TimedSystem
    requires TimedEnabled(t, s, step)
  {
    var now := s.system.lease.now;
    match step
    case Served(id) =>
      s.(holders := s.holders[id := HolderApply(Moment(now, s.holders[id]), TickOf(s.holders[id])).holder])
    case Watched(id) => s.(holders := s.holders[id := HolderApply(Moment(now, s.holders[id]), StartWatch).holder])
    case Do(a) => TimedSystem(ActionApply(s.system, a), HoldersAfter(s, a))
  }

  ghost function HoldersAfter(s: TimedSystem, a: Action): map<nat, Holder>
    requires ActionEnabled(s.system, a)
  {
    if !a.Act? then s.holders
    else
      var e := s.system.execs[a.id];
      if EffectOf(s.system, e, a.move).step.Acquire? then s.holders[a.id := FirstHolder(e)]
      else if a.id in s.holders && HolderMove(e, a.move).Some? then
        s.holders[a.id := HolderApply(Moment(s.system.lease.now, s.holders[a.id]), HolderMove(e, a.move).value).holder]
      else s.holders
  }

  ghost predicate TimedNext(t: Timing, s: TimedSystem, u: TimedSystem) {
    exists step: TimedStep :: TimedEnabled(t, s, step) && u == TimedApply(t, s, step)
  }

  ghost predicate IsTimedRun(t: Timing, run: seq<TimedSystem>) {
    && |run| > 0 && StartsEmpty(run[0].system) && run[0].holders == map[]
    && (forall i :: 0 < i < |run| ==> TimedNext(t, run[i - 1], run[i]))
  }

  // --- what every timed run keeps -------------------------------------------------------------------

  /** The stages in which an execution's phase can find its holder. */
  predicate StageOf(p: Phase, stage: Stage) {
    match p
    case Ready => stage == Waiting
    case Commanding => stage == Waiting || stage == Renewing
    case Late => stage == Handing || stage == Watching || stage == LateRenewing
    case LateDone => stage == Completing
    case Orphan(_, _) => false
    case _ => stage == Between
  }

  /** The grant is the holder's: it runs from the last write of the row, and a renewal that has read its
      clock did so in its turn. */
  ghost predicate Tracks(t: Timing, lease: State, e: Exec, h: Holder) {
    && e.runKey in lease.grants && !lease.grants[e.runKey].released
    && lease.grants[e.runKey].expires == Some(h.captured + t.ttl)
    && StageOf(e.phase, h.stage)
    && (e.pending.Some? ==>
          h.since <= e.pending.value
          && (e.phase == Commanding ==> h.stage == Renewing) && (e.phase == Late ==> h.stage == LateRenewing))
  }

  ghost predicate HolderInv(t: Timing, s: TimedSystem, id: nat)
    requires id in s.system.execs
  {
    && EffectiveTtl(s.system.execs[id].ttl) == t.ttl
    && (id in s.holders ==> InTime(t, Moment(s.system.lease.now, s.holders[id])))
    && (Active(s.system.execs[id].phase) ==>
        id in s.holders && Tracks(t, s.system.lease, s.system.execs[id], s.holders[id]))
  }

  ghost predicate TimedInv(t: Timing, s: TimedSystem) {
    && (forall id :: id in s.holders ==> id in s.system.execs)
    && (forall id :: id in s.system.execs ==> HolderInv(t, s, id))
  }

  /** The holder after its execution's move. */
  function HolderAfter(now: int, h: Holder, e: Exec, m: Move): Holder {
    if HolderMove(e, m).Some? then HolderApply(Moment(now, h), HolderMove(e, m).value).holder else h
  }

  lemma RenewalTracks(t: Timing, s: System, e: Exec, h: Holder)
    requires MoveEnabled(s, e, RenewCommit) && Enabled(s.lease, EffectOf(s, e, RenewCommit).step)
    requires Tracks(t, s.lease, e, h) && InTurn(t, s.lease.now, h, e, RenewCommit) && EffectiveTtl(e.ttl) == t.ttl
             && Renews(e.phase)
    ensures var f := EffectOf(s, e, RenewCommit);
      Tracks(t, Apply(s.lease, f.step), f.exec, HolderAfter(s.lease.now, h, e, RenewCommit))
  {
    hide Limit;
  }

  /** The other moves leave the grant as it is. */
  lemma MoveTracks(t: Timing, s: System, e: Exec, h: Holder, m: Move)
    requires MoveEnabled(s, e, m) && m != RenewCommit && Active(e.phase) && (e.pending.Some? ==> Renews(e.phase))
    requires Tracks(t, s.lease, e, h) && InTurn(t, s.lease.now, h, e, m) && h.since <= s.lease.now
    requires Active(EffectOf(s, e, m).exec.phase)
    ensures EffectOf(s, e, m).step == Advance(s.lease.now)
    ensures Tracks(t, s.lease, EffectOf(s, e, m).exec, HolderAfter(s.lease.now, h, e, m))
  {
    hide Limit, Blocks, Free, Live, Holds;
  }

  lemma MoveInTime(t: Timing, now: int, h: Holder, e: Exec, m: Move)
    requires IsTiming(t) && InTime(t, Moment(now, h)) && InTurn(t, now, h, e, m)
    ensures InTime(t, Moment(now, HolderAfter(now, h, e, m)))
  {
    hide InTime, HolderEnabled;
    if HolderMove(e, m).Some? {
      StepKeepsInTime(t, Moment(now, h), HolderMove(e, m).value);
      ClockStays(now, h, HolderMove(e, m).value);
    }
  }

  lemma ClockStays(now: int, h: Holder, step: HolderStep)
    requires !step.Pass?
    ensures HolderApply(Moment(now, h), step).now == now
  {
  }

  lemma GrantTracks(t: Timing, s: System, e: Exec, m: Move)
    requires MoveEnabled(s, e, m) && EffectOf(s, e, m).step.Acquire? && Enabled(s.lease, EffectOf(s, e, m).step)
    requires e.pending == None && EffectiveTtl(e.ttl) == t.ttl
    ensures var f := EffectOf(s, e, m);
            Tracks(t, Apply(s.lease, f.step), f.exec, FirstHolder(e)) && Active(f.exec.phase)
  {
  }

  /** An execution that waits for its acquire gets active by the grant alone. */
  lemma NoGrantNotActive(s: System, e: Exec, m: Move)
    requires MoveEnabled(s, e, m) && !EffectOf(s, e, m).step.Acquire? && !Active(e.phase)
    ensures !Active(EffectOf(s, e, m).exec.phase)
  {
  }

  lemma ClockOnlyAdvances(lease: State, step: Step)
    requires Enabled(lease, step) && (!step.Advance? || step.until == lease.now)
    ensures Apply(lease, step).now == lease.now
  {
  }

  lemma GrantOfOther(lease: State, step: Step, runKey: RunKey)
    requires Enabled(lease, step) && (step.Acquire? || step.Renew? || step.Release? ==> step.runKey != runKey)
    ensures runKey in lease.grants ==>
            runKey in Apply(lease, step).grants && Apply(lease, step).grants[runKey] == lease.grants[runKey]
  {
  }

  // --- one step -----------------------------------------------------------------------------------------

  lemma OwnStep(t: Timing, s: TimedSystem, id: nat, m: Move)
    requires IsTiming(t) && SystemInv(s.system) && TimedInv(t, s) && TimedEnabled(t, s, Do(Act(id, m)))
    ensures HolderInv(t, TimedApply(t, s, Do(Act(id, m))), id)
  {
    hide MoveEnabled, EffectOf, Enabled, Apply, Inv, Tracks, InTime, Granted, InTurn, HolderMove;
    var e, now := s.system.execs[id], s.system.lease.now;
    assert HolderInv(t, s, id) && ExecInv(s.system, e);
    MoveShape(s.system, e, m);
    var f := EffectOf(s.system, e, m);
    ClockOnlyAdvances(s.system.lease, f.step);
    if f.step.Acquire? {
      AcquirerAsks(s.system, e, m);
      GrantTracks(t, s.system, e, m);
      FirstInTime(t, now, e);
    } else if !Asks(e.phase) {
      MoveInTime(t, now, s.holders[id], e, m);
      HeldStep(t, s, id, m);
    } else {
      NoGrantNotActive(s.system, e, m);
      AskerHasNoHolderMove(s.system, e, m);
    }
  }

  lemma AskerHasNoHolderMove(s: System, e: Exec, m: Move)
    requires MoveEnabled(s, e, m) && ExecInv(s, e) && Asks(e.phase)
    ensures HolderMove(e, m).None?
  {
  }

  lemma AcquirerAsks(s: System, e: Exec, m: Move)
    requires MoveEnabled(s, e, m) && ExecInv(s, e) && EffectOf(s, e, m).step.Acquire?
    ensures Asks(e.phase) && e.pending == None
  {
  }

  lemma FirstInTime(t: Timing, now: int, e: Exec)
    requires IsTiming(t) && Granted(t, Moment(now, FirstHolder(e)))
    ensures InTime(t, Moment(now, FirstHolder(e)))
  {
    GrantedInTime(t, Moment(now, FirstHolder(e)));
  }

  lemma HeldStep(t: Timing, s: TimedSystem, id: nat, m: Move)
    requires SystemInv(s.system) && TimedInv(t, s) && TimedEnabled(t, s, Do(Act(id, m)))
    requires !Asks(s.system.execs[id].phase) && !EffectOf(s.system, s.system.execs[id], m).step.Acquire?
    ensures var e := s.system.execs[id]; var f := EffectOf(s.system, e, m);
      id in s.holders &&
      (Active(f.exec.phase) ==>
       Tracks(t, Apply(s.system.lease, f.step), f.exec, HolderAfter(s.system.lease.now, s.holders[id], e, m)))
  {
    hide Apply, Enabled, Inv, InTurn, HolderMove, Limit, EffectOf, MoveEnabled, StageOf;
    var e := s.system.execs[id];
    assert HolderInv(t, s, id) && ExecInv(s.system, e);
    if Active(EffectOf(s.system, e, m).exec.phase) {
      ActiveBefore(s.system, e, m);
      if m == RenewCommit {
        RenewalIsPending(s.system, e);
        RenewalTracks(t, s.system, e, s.holders[id]);
      } else {
        MoveTracks(t, s.system, e, s.holders[id], m);
        IdleApply(s.system.lease);
      }
    }
  }

  lemma RenewalIsPending(s: System, e: Exec)
    requires MoveEnabled(s, e, RenewCommit) && ExecInv(s, e)
    ensures Renews(e.phase)
  {
  }

  lemma IdleApply(lease: State)
    ensures Enabled(lease, Advance(lease.now)) && Apply(lease, Advance(lease.now)) == lease
  {
  }

  lemma ActiveBefore(s: System, e: Exec, m: Move)
    requires MoveEnabled(s, e, m) && !Asks(e.phase) && Active(EffectOf(s, e, m).exec.phase)
    ensures Active(e.phase)
  {
  }

  lemma ActedParts(t: Timing, s: TimedSystem, id: nat, m: Move, i: nat)
    requires TimedEnabled(t, s, Do(Act(id, m))) && i in s.system.execs && i != id
    ensures var u := TimedApply(t, s, Do(Act(id, m)));
      && i in u.system.execs && u.system.execs[i] == s.system.execs[i]
      && (i in u.holders <==> i in s.holders) && (i in s.holders ==> u.holders[i] == s.holders[i])
      && u.system.lease == Apply(s.system.lease, EffectOf(s.system, s.system.execs[id], m).step)
  {
    hide MoveEnabled, EffectOf, Enabled, Apply, Granted, InTurn, HolderMove;
  }

  lemma OthersStep(t: Timing, s: TimedSystem, id: nat, m: Move, i: nat)
    requires SystemInv(s.system) && TimedInv(t, s) && TimedEnabled(t, s, Do(Act(id, m))) && i in s.system.execs
             && i != id
    ensures i in TimedApply(t, s, Do(Act(id, m))).system.execs && HolderInv(t, TimedApply(t, s, Do(Act(id, m))), i)
  {
    hide MoveEnabled, EffectOf, Enabled, Apply, Inv, InTime, Granted, InTurn, HolderMove, HoldersAfter, TimedApply,
         StageOf;
    var e := s.system.execs[id];
    assert HolderInv(t, s, i) && ExecInv(s.system, e);
    ActedParts(t, s, id, m, i);
    MoveShape(s.system, e, m);
    var step := EffectOf(s.system, e, m).step;
    ClockOnlyAdvances(s.system.lease, step);
    GrantOfOther(s.system.lease, step, s.system.execs[i].runKey);
  }

  lemma OutsideStep(t: Timing, s: TimedSystem, e: Step, i: nat)
    requires IsTiming(t) && TimedInv(t, s) && TimedEnabled(t, s, Do(Environment(e))) && i in s.system.execs
    ensures HolderInv(t, TimedApply(t, s, Do(Environment(e))), i)
  {
    hide InTime, Inv, Limit;
    assert HolderInv(t, s, i);
    GrantOfOther(s.system.lease, e, s.system.execs[i].runKey);
    if i in s.holders && e.Advance? {
      var m := Moment(s.system.lease.now, s.holders[i]);
      StepKeepsInTime(t, m, Pass(e.until));
    } else {
      ClockOnlyAdvances(s.system.lease, if e.Advance? then Advance(s.system.lease.now) else e);
    }
  }

  lemma HolderStep(t: Timing, s: TimedSystem, step: TimedStep)
    requires IsTiming(t) && TimedInv(t, s) && TimedEnabled(t, s, step) && !step.Do?
    ensures HolderInv(t, TimedApply(t, s, step), step.id)
  {
    hide InTime, Inv, Limit;
    assert HolderInv(t, s, step.id);
    var m := Moment(s.system.lease.now, s.holders[step.id]);
    StepKeepsInTime(t, m, if step.Watched? then StartWatch else TickOf(s.holders[step.id]));
  }

  lemma SpawnStep(t: Timing, s: TimedSystem, id: nat, e: Exec)
    requires IsTiming(t) && TimedInv(t, s) && TimedEnabled(t, s, Do(Spawn(id, e)))
    ensures TimedInv(t, TimedApply(t, s, Do(Spawn(id, e))))
  {
    hide InTime, Tracks;
    var u := TimedApply(t, s, Do(Spawn(id, e)));
    forall i | i in u.system.execs ensures HolderInv(t, u, i) {
      if i != id { assert HolderInv(t, s, i); }
    }
  }

  lemma SameElsewhere(t: Timing, s: TimedSystem, step: TimedStep, i: nat)
    requires TimedInv(t, s) && TimedEnabled(t, s, step) && !step.Do? && i in s.system.execs && i != step.id
    ensures HolderInv(t, TimedApply(t, s, step), i)
  {
    hide InTime, Tracks;
    assert HolderInv(t, s, i);
  }

  lemma EachHolder(t: Timing, s: TimedSystem, step: TimedStep, i: nat)
    requires IsTiming(t) && SystemInv(s.system) && TimedInv(t, s) && TimedEnabled(t, s, step)
    requires i in s.system.execs && !(step.Do? && step.action.Spawn?)
    ensures i in TimedApply(t, s, step).system.execs && HolderInv(t, TimedApply(t, s, step), i)
  {
    hide TimedEnabled, HolderInv, SystemInv, TimedInv, TimedApply;
    SameExecs(t, s, step);
    match step {
      case Served(id) => if i == id { HolderStep(t, s, step); } else { SameElsewhere(t, s, step, i); }
      case Watched(id) => if i == id { HolderStep(t, s, step); } else { SameElsewhere(t, s, step, i); }
      case Do(a) =>
        match a {
          case Environment(e) => OutsideStep(t, s, e, i);
          case Act(id, m) => if i == id { OwnStep(t, s, id, m); } else { OthersStep(t, s, id, m, i); }
        }
    }
  }

  lemma SameExecs(t: Timing, s: TimedSystem, step: TimedStep)
    requires TimedEnabled(t, s, step) && !(step.Do? && step.action.Spawn?) && TimedInv(t, s)
    ensures TimedApply(t, s, step).system.execs.Keys == s.system.execs.Keys
    ensures forall i :: i in TimedApply(t, s, step).holders ==> i in s.system.execs
  {
    hide MoveEnabled, EffectOf, Enabled, Apply, Granted, InTurn, HolderMove, HolderInv;
  }

  lemma StepKeepsTimedInv(t: Timing, s: TimedSystem, step: TimedStep)
    requires IsTiming(t) && SystemInv(s.system) && TimedInv(t, s) && TimedEnabled(t, s, step)
    ensures TimedInv(t, TimedApply(t, s, step))
  {
    hide TimedEnabled, HolderInv, SystemInv, TimedApply;
    if step.Do? && step.action.Spawn? {
      SpawnStep(t, s, step.action.id, step.action.exec);
    } else {
      SameExecs(t, s, step);
      forall i | i in s.system.execs ensures HolderInv(t, TimedApply(t, s, step), i) {
        EachHolder(t, s, step, i);
      }
    }
  }

  // --- no lease lapses ------------------------------------------------------------------------------------

  lemma ActiveStage(p: Phase, stage: Stage)
    requires Active(p) && StageOf(p, stage)
    ensures stage in AllStages
  {
  }

  /** A holder whose row is live has a current grant. */
  lemma FittingHolderIsCurrent(t: Timing, s: TimedSystem, id: nat)
    requires IsTiming(t) && Fits(t) && id in s.system.execs && HolderInv(t, s, id) && Active(s.system.execs[id].phase)
    ensures Current(s.system.lease, s.system.execs[id].runKey)
  {
    hide InTime, StageOf;
    var m := Moment(s.system.lease.now, s.holders[id]);
    ActiveStage(s.system.execs[id].phase, m.holder.stage);
    InTimeIsHeld(t, m);
  }

  lemma FittingNeverLapses(t: Timing, s: TimedSystem)
    requires IsTiming(t) && Fits(t) && TimedInv(t, s)
    ensures NoLapse(s.system)
  {
    hide HolderInv, Current, Fits;
    forall i | i in s.system.execs && Active(s.system.execs[i].phase)
      ensures Current(s.system.lease, s.system.execs[i].runKey) {
      FittingHolderIsCurrent(t, s, i);
    }
  }

  lemma TimedStepIsSafe(t: Timing, s: TimedSystem, u: TimedSystem)
    requires IsTiming(t) && Fits(t) && SystemInv(s.system) && TimedInv(t, s) && TimedNext(t, s, u)
    ensures TimedInv(t, u) && SystemInv(u.system) && SafeNext(s.system, u.system)
  {
    hide SystemInv, TimedInv, Fits, SafeNext, TakesOver;
    var step: TimedStep :| TimedEnabled(t, s, step) && u == TimedApply(t, s, step);
    StepKeepsTimedInv(t, s, step);
    FittingNeverLapses(t, s);
    SystemSteps(t, s, step);
    LapseFreeStep(s.system, u.system);
    SafeStep(s.system, u.system);
  }

  lemma SystemSteps(t: Timing, s: TimedSystem, step: TimedStep)
    requires TimedEnabled(t, s, step)
    ensures SystemNext(s.system, TimedApply(t, s, step).system)
  {
    hide EffectOf, MoveEnabled, Granted, InTurn, HoldersAfter;
    if step.Do? {
      assert ActionEnabled(s.system, step.action);
    } else {
      IdleApply(s.system.lease);
      assert ActionEnabled(s.system, Environment(Advance(s.system.lease.now)));
      assert ActionApply(s.system, Environment(Advance(s.system.lease.now))) == s.system;
    }
  }

  function SystemsOf(run: seq<TimedSystem>): (systems: seq<System>)
    ensures |systems| == |run| && forall i :: 0 <= i < |run| ==> systems[i] == run[i].system
  {
    seq(|run|, i requires 0 <= i < |run| => run[i].system)
  }

  lemma {:induction false} TimedRunInv(t: Timing, run: seq<TimedSystem>, i: nat)
    requires IsTiming(t) && Fits(t) && IsTimedRun(t, run) && i < |run|
    ensures TimedInv(t, run[i]) && SystemInv(run[i].system)
    ensures i > 0 ==> SafeNext(run[i - 1].system, run[i].system)
  {
    hide TimedNext, TimedInv, SystemInv, SafeNext, Fits, StartsEmpty;
    if i == 0 {
      FirstTimed(t, run[0]);
    } else {
      TimedRunInv(t, run, i - 1);
      TimedStepIsSafe(t, run[i - 1], run[i]);
    }
  }

  lemma FirstTimed(t: Timing, s: TimedSystem)
    requires StartsEmpty(s.system) && s.holders == map[]
    ensures TimedInv(t, s) && SystemInv(s.system)
  {
  }

  /** If the timing fits the TTL, no lease lapses in any timed run, and no active execution loses its row. */
  lemma TimedRunNeverLapses(t: Timing, run: seq<TimedSystem>)
    requires IsTiming(t) && Fits(t) && IsTimedRun(t, run)
    ensures IsExecutionRun(SystemsOf(run))
    ensures forall i :: 0 <= i < |run| ==> NoLapse(run[i].system)
  {
    hide TimedNext, TimedInv, SystemInv, SafeNext, Fits, StartsEmpty, NoLapse;
    forall i | 0 <= i < |run| ensures NoLapse(run[i].system) && (i > 0 ==> SafeNext(run[i - 1].system, run[i].system)) {
      TimedRunInv(t, run, i);
      FittingNeverLapses(t, run[i]);
    }
  }

  /** So commands of one module never overlap, and a recorded outcome is final, with nothing assumed of the leases. */
  lemma TimedCommandsAreSafe(t: Timing, run: seq<TimedSystem>, i: nat, m: nat)
    requires IsTiming(t) && Fits(t) && IsTimedRun(t, run) && i <= m < |run|
    ensures forall a, b :: a in run[m].system.execs && b in run[m].system.execs && a != b
              && RunnerActive(run[m].system.execs[a].phase) && RunnerActive(run[m].system.execs[b].phase)
              ==> run[m].system.execs[a].moduleId != run[m].system.execs[b].moduleId
    ensures forall key :: Blocks(run[i].system.runs, key) ==>
              && Blocks(run[m].system.runs, key)
              && forall id :: id in run[m].system.execs && run[m].system.execs[id].idempotencyKey == key
                   ==> !InProgress(run[m].system.execs[id].phase)
  {
    hide IsTimedRun, Fits, IsExecutionRun, Blocks, InProgress, RunnerActive, NoLapse;
    TimedRunNeverLapses(t, run);
    forall a, b | a in run[m].system.execs && b in run[m].system.execs && a != b
      && RunnerActive(run[m].system.execs[a].phase) && RunnerActive(run[m].system.execs[b].phase)
      ensures run[m].system.execs[a].moduleId != run[m].system.execs[b].moduleId
    {
      CommandsNeverOverlap(SystemsOf(run), m, a, b);
    }
    forall key | Blocks(run[i].system.runs, key)
      ensures Blocks(run[m].system.runs, key)
      ensures forall id :: id in run[m].system.execs && run[m].system.execs[id].idempotencyKey == key
                ==> !InProgress(run[m].system.execs[id].phase)
    {
      RecordedOutcomeIsFinal(SystemsOf(run), i, m, key);
    }
  }
}
