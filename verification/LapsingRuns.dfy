/** The timing condition is exact for the protocol too: every history of a single holder is that of an
    execution in some timed run, so a timing that does not fit lets a lease lapse. */
module LapsingRuns {
  import opened Outcomes
  import opened LeaseTable
  import opened LifecycleTypes
  import opened ExecutionProtocol
  import opened LeaseContinuity
  import opened TimedRuns

  ghost predicate IsTimedPath(t: Timing, path: seq<TimedSystem>) {
    |path| > 0 && forall i :: 0 < i < |path| ==> TimedNext(t, path[i - 1], path[i])
  }

  lemma OneMore(t: Timing, path: seq<TimedSystem>, step: TimedStep) returns (longer: seq<TimedSystem>)
    requires IsTimedPath(t, path) && TimedEnabled(t, path[|path| - 1], step)
    ensures IsTimedPath(t, longer) && longer[0] == path[0]
            && longer[|longer| - 1] == TimedApply(t, path[|path| - 1], step)
  {
    hide TimedEnabled, TimedApply;
    longer := path + [TimedApply(t, path[|path| - 1], step)];
    assert TimedNext(t, path[|path| - 1], longer[|path|]);
    forall i | 0 < i < |longer| ensures TimedNext(t, longer[i - 1], longer[i]) {
      if i < |path| { assert TimedNext(t, path[i - 1], path[i]); }
    }
  }

  // --- one holder's execution -----------------------------------------------------------------------

  /** The execution whose holder is watched, with its lock's clock value. */
  function Sole(t: Timing, captured: int): Exec {
    Exec("m", "k", "owner", "r", t.ttl, captured, None, Acquiring)
  }

  function PhaseFor(stage: Stage): Phase {
    match stage
    case Between => Begun(true)
    case Waiting => Commanding
    case Renewing => Commanding
    case Handing => Late
    case Watching => Late
    case LateRenewing => Late
    case Completing => LateDone
    case Over => Done
  }

  /** The timed system has one execution, in this phase, and its holder is where the moment says. */
  ghost predicate EmbedsAt(t: Timing, captured: int, m: Moment, s: TimedSystem, phase: Phase, pending: Option<int>) {
    && s.system.execs == map[0 := Sole(t, captured).(phase := phase, pending := pending)]
    && s.holders == map[0 := m.holder]
    && s.system.lease.now == m.now && captured <= m.now
    && (m.holder.stage != Over ==> Granting(t, m.holder, s.system.lease))
  }

  ghost predicate Granting(t: Timing, h: Holder, lease: State) {
    && Holds(lease.rows, LockKey("m"), "owner", "r")
    && "r" in lease.grants && lease.grants["r"] == Grant(LockKey("m"), "owner", Some(h.captured + t.ttl), false)
  }

  ghost predicate Embeds(t: Timing, captured: int, m: Moment, s: TimedSystem) {
    EmbedsAt(t, captured, m, s, PhaseFor(m.holder.stage), None)
  }

  /** What a move of the only execution comes to. */
  lemma SoleActs(t: Timing, s: TimedSystem, e: Exec, h: Holder, m: Move)
    requires s.system.execs == map[0 := e] && s.holders == map[0 := h] && !Asks(e.phase)
    requires MoveEnabled(s.system, e, m) && InTurn(t, s.system.lease.now, h, e, m)
    requires Enabled(s.system.lease, EffectOf(s.system, e, m).step) && !EffectOf(s.system, e, m).step.Acquire?
    ensures var timed, f := Do(Act(0, m)), EffectOf(s.system, e, m);
      && TimedEnabled(t, s, timed)
      && var u := TimedApply(t, s, timed);
         && u.system.execs == map[0 := f.exec] && u.holders == map[0 := HolderAfter(s.system.lease.now, h, e, m)]
         && u.system.lease == Apply(s.system.lease, f.step)
  {
    hide MoveEnabled, EffectOf, Enabled, Apply, InTurn, HolderMove;
  }

  lemma PassEmbeds(t: Timing, captured: int, m: Moment, s: TimedSystem, until: int)
    requires IsTiming(t) && Embeds(t, captured, m, s) && HolderEnabled(t, m, Pass(until))
    ensures var step := Do(Environment(Advance(until)));
      TimedEnabled(t, s, step) && Embeds(t, captured, HolderApply(m, Pass(until)), TimedApply(t, s, step))
  {
  }

  lemma TickEmbeds(t: Timing, captured: int, m: Moment, s: TimedSystem, step: HolderStep)
    requires IsTiming(t) && Embeds(t, captured, m, s) && HolderEnabled(t, m, step) && (step.Tick? || step.LateTick?)
    ensures TimedEnabled(t, s, Served(0)) && Embeds(t, captured, HolderApply(m, step), TimedApply(t, s, Served(0)))
  {
    hide LockRenewTimeout, Limit, MoveEnabled, EffectOf, Granting;
    GrantingStays(t, m.holder, HolderApply(m, step).holder, s.system.lease);
  }

  /** Only the last write of the row matters to the grant. */
  lemma GrantingStays(t: Timing, h: Holder, i: Holder, lease: State)
    requires Granting(t, h, lease) && i.captured == h.captured
    ensures Granting(t, i, lease)
  {
  }

  lemma WatchEmbeds(t: Timing, captured: int, m: Moment, s: TimedSystem)
    requires IsTiming(t) && Embeds(t, captured, m, s) && m.holder.stage == Handing
    ensures TimedEnabled(t, s, Watched(0)) && Embeds(t, captured, HolderApply(m, StartWatch),
                                                     TimedApply(t, s, Watched(0)))
  {
    hide LockRenewTimeout, Limit, MoveEnabled, EffectOf, Granting;
    GrantingStays(t, m.holder, HolderApply(m, StartWatch).holder, s.system.lease);
  }

  /** The move that ends a stage at once. */
  function MoveFor(step: HolderStep): Move {
    match step
    case EndCommand => CommandEnds(true)
    case LeaveCommand => GiveUp
    case EndRunner => LateRunnerEnds
    case _ => ReleaseLock(true)
  }

  lemma MoveEmbeds(t: Timing, captured: int, m: Moment, s: TimedSystem, step: HolderStep)
    requires IsTiming(t) && Embeds(t, captured, m, s) && HolderEnabled(t, m, step)
    requires step.EndCommand? || step.LeaveCommand? || step.EndRunner?
    ensures var timed := Do(Act(0, MoveFor(step)));
      TimedEnabled(t, s, timed) && Embeds(t, captured, HolderApply(m, step), TimedApply(t, s, timed))
  {
    hide TimedEnabled, TimedApply, Limit, LockRenewTimeout, Blocks, Free, Granting;
    SoleActs(t, s, s.system.execs[0], m.holder, MoveFor(step));
    GrantingStays(t, m.holder, HolderApply(m, step).holder, s.system.lease);
  }

  // --- renewals -------------------------------------------------------------------------------------

  lemma ReadEmbeds(t: Timing, captured: int, m: Moment, s: TimedSystem)
    requires IsTiming(t) && Embeds(t, captured, m, s)
    requires m.holder.stage == Between || m.holder.stage == Renewing || m.holder.stage == LateRenewing
    ensures var timed := Do(Act(0, RenewStart));
      && TimedEnabled(t, s, timed)
      && EmbedsAt(t, captured, m, TimedApply(t, s, timed), PhaseFor(m.holder.stage), Some(m.now))
  {
    hide TimedEnabled, TimedApply, Limit, LockRenewTimeout, Blocks, Free, Granting;
    SoleActs(t, s, s.system.execs[0], m.holder, RenewStart);
  }

  function RenewalFor(m: Moment): HolderStep {
    match m.holder.stage
    case Renewing => Renewed(m.now)
    case LateRenewing => LateRenewed(m.now)
    case _ => RenewFirst(m.now)
  }

  lemma CommitEmbeds(t: Timing, captured: int, m: Moment, s: TimedSystem)
    requires IsTiming(t) && EmbedsAt(t, captured, m, s, PhaseFor(m.holder.stage), Some(m.now))
    requires m.holder.stage == Between || m.holder.stage == Renewing || m.holder.stage == LateRenewing
    requires HolderEnabled(t, m, RenewalFor(m))
    ensures var timed := Do(Act(0, RenewCommit)); var n := HolderApply(m, RenewalFor(m));
      && TimedEnabled(t, s, timed)
      && EmbedsAt(t, captured, n, TimedApply(t, s, timed),
                  if m.holder.stage == Between then Ready else PhaseFor(n.holder.stage), None)
  {
    hide TimedEnabled, TimedApply, Limit, LockRenewTimeout, Blocks, Free, Granting;
    var e := s.system.execs[0];
    RenewalGrants(t, m.holder, s.system.lease, e.captured, m.now);
    RenewsIts(s.system, e, m.now);
    RenewsInTurn(t, m, e);
    hide MoveEnabled, EffectOf, HolderEnabled, HolderMove, InTurn, Enabled, Apply;
    SoleActs(t, s, e, m.holder, RenewCommit);
    GrantingStays(t, Holder(m.now, m.now, Waiting), HolderApply(m, RenewalFor(m)).holder,
                  TimedApply(t, s, Do(Act(0, RenewCommit))).system.lease);
  }

  lemma RenewsInTurn(t: Timing, m: Moment, e: Exec)
    requires e.phase == PhaseFor(m.holder.stage) && e.pending == Some(m.now)
    requires m.holder.stage == Between || m.holder.stage == Renewing || m.holder.stage == LateRenewing
    requires HolderEnabled(t, m, RenewalFor(m))
    ensures HolderMove(e, RenewCommit) == Some(RenewalFor(m)) && InTurn(t, m.now, m.holder, e, RenewCommit)
  {
  }

  /** The renewal's statement, and what the move makes of the execution. */
  lemma RenewsIts(s: System, e: Exec, now: int)
    requires e.pending == Some(now) && Holds(s.lease.rows, LockKey(e.moduleId), e.owner, e.runKey)
    ensures MoveEnabled(s, e, RenewCommit)
    ensures var f := EffectOf(s, e, RenewCommit);
      && f.step == Renew(LockKey(e.moduleId), e.owner, e.runKey, e.ttl, now)
      && f.exec == e.(pending := None, phase := if e.phase.Begun? then Ready else e.phase)
  {
  }

  lemma RenewalGrants(t: Timing, h: Holder, lease: State, captured: int, now: int)
    requires IsTiming(t) && Granting(t, h, lease) && now == lease.now
    ensures Holds(lease.rows, LockKey("m"), "owner", "r")
    ensures var renewal := Renew(LockKey("m"), "owner", "r", t.ttl, now);
      && Enabled(lease, renewal) && Apply(lease, renewal).now == now
      && Granting(t, Holder(now, now, Waiting), Apply(lease, renewal))
  {
  }

  lemma StartEmbeds(t: Timing, captured: int, m: Moment, s: TimedSystem)
    requires IsTiming(t) && EmbedsAt(t, captured, m, s, Ready, None) && m.holder.stage == Waiting
    ensures var timed := Do(Act(0, StartCommand));
      TimedEnabled(t, s, timed) && Embeds(t, captured, m, TimedApply(t, s, timed))
  {
    hide TimedEnabled, TimedApply, Limit, LockRenewTimeout, Blocks, Free, Granting;
    SoleActs(t, s, s.system.execs[0], m.holder, StartCommand);
  }

  // --- the release --------------------------------------------------------------------------------------

  lemma FinishEmbeds(t: Timing, captured: int, m: Moment, s: TimedSystem)
    requires IsTiming(t) && Embeds(t, captured, m, s) && m.holder.stage == Between
    ensures var timed := Do(Act(0, Finish(Failed, true)));
      TimedEnabled(t, s, timed) && EmbedsAt(t, captured, m, TimedApply(t, s, timed), Exiting, None)
  {
    hide TimedEnabled, TimedApply, Limit, LockRenewTimeout, Blocks, Free, Granting;
    SoleActs(t, s, s.system.execs[0], m.holder, Finish(Failed, true));
  }

  lemma ReleaseEmbeds(t: Timing, captured: int, m: Moment, s: TimedSystem, phase: Phase)
    requires IsTiming(t) && EmbedsAt(t, captured, m, s, phase, None)
    requires (phase == Exiting && m.holder.stage == Between) || (phase == LateDone && m.holder.stage == Completing)
    ensures var timed := Do(Act(0, ReleaseLock(true)));
      TimedEnabled(t, s, timed) && Embeds(t, captured, HolderApply(m, LetGo), TimedApply(t, s, timed))
  {
    hide TimedEnabled, TimedApply, Limit, LockRenewTimeout, Blocks, Free, Granting, Holds;
    SoleActs(t, s, s.system.execs[0], m.holder, ReleaseLock(true));
  }

  // --- the grant ------------------------------------------------------------------------------------------

  /** Nothing is locked or recorded, and the clock stands at the value that the first acquire reads. */
  function Unlocked(captured: int): TimedSystem {
    TimedSystem(System(State(captured, map[], map[]), map[], map[]), map[])
  }

  ghost predicate Asking(t: Timing, captured: int, now: int, s: TimedSystem) {
    && s.system == System(State(now, map[], map[]), map[], map[0 := Sole(t, captured)]) && s.holders == map[]
    && captured <= now
  }

  lemma EnterAsks(t: Timing, captured: int)
    requires IsTiming(t)
    ensures var timed := Do(Spawn(0, Sole(t, captured)));
      TimedEnabled(t, Unlocked(captured), timed)
        && Asking(t, captured, captured, TimedApply(t, Unlocked(captured), timed))
    ensures StartsEmpty(Unlocked(captured).system)
  {
  }

  lemma PassAsks(t: Timing, captured: int, s: TimedSystem, now: int)
    requires Asking(t, captured, captured, s) && captured <= now
    ensures var timed := Do(Environment(Advance(now)));
      TimedEnabled(t, s, timed) && Asking(t, captured, now, TimedApply(t, s, timed))
  {
  }

  lemma GrantEmbeds(t: Timing, m: Moment, s: TimedSystem)
    requires IsTiming(t) && Granted(t, m) && Asking(t, m.holder.captured, m.now, s)
    ensures var timed := Do(Act(0, AcquireAnswer(false)));
      && TimedEnabled(t, s, timed)
      && EmbedsAt(t, m.holder.captured, m, TimedApply(t, s, timed), Held, None)
      && TimedApply(t, s, timed).system.runs == map[]
  {
  }

  lemma ClearEmbeds(t: Timing, captured: int, m: Moment, s: TimedSystem)
    requires IsTiming(t) && EmbedsAt(t, captured, m, s, Held, None) && s.system.runs == map[]
             && m.holder.stage == Between
    ensures var timed := Do(Act(0, ReadRun(false, true)));
      TimedEnabled(t, s, timed) && EmbedsAt(t, captured, m, TimedApply(t, s, timed), Cleared(true), None)
  {
    hide TimedEnabled, TimedApply, Limit, LockRenewTimeout, Free, Granting;
    SoleActs(t, s, s.system.execs[0], m.holder, ReadRun(false, true));
  }

  lemma BeginEmbeds(t: Timing, captured: int, m: Moment, s: TimedSystem)
    requires IsTiming(t) && EmbedsAt(t, captured, m, s, Cleared(true), None) && m.holder.stage == Between
    ensures var timed := Do(Act(0, Move.BeginRun(true, false)));
      TimedEnabled(t, s, timed) && Embeds(t, captured, m, TimedApply(t, s, timed))
  {
    hide TimedEnabled, TimedApply, Limit, LockRenewTimeout, Blocks, Free, Granting;
    SoleActs(t, s, s.system.execs[0], m.holder, Move.BeginRun(true, false));
  }

  /** The path leads from an unlocked table to this holder's moment. */
  ghost predicate LeadsTo(t: Timing, captured: int, path: seq<TimedSystem>, m: Moment) {
    IsTimedPath(t, path) && path[0] == Unlocked(captured) && Embeds(t, captured, m, path[|path| - 1])
  }

  lemma GrantIsTimed(t: Timing, m: Moment) returns (path: seq<TimedSystem>)
    requires IsTiming(t) && Granted(t, m)
    ensures LeadsTo(t, m.holder.captured, path, m)
  {
    hide TimedEnabled, TimedApply, Embeds, EmbedsAt, Asking, TimedNext, Unlocked, StartsEmpty;
    var captured := m.holder.captured;
    EnterAsks(t, captured);
    path := OneMore(t, [Unlocked(captured)], Do(Spawn(0, Sole(t, captured))));
    PassAsks(t, captured, path[|path| - 1], m.now);
    path := OneMore(t, path, Do(Environment(Advance(m.now))));
    GrantEmbeds(t, m, path[|path| - 1]);
    path := OneMore(t, path, Do(Act(0, AcquireAnswer(false))));
    ClearEmbeds(t, captured, m, path[|path| - 1]);
    path := OneMore(t, path, Do(Act(0, ReadRun(false, true))));
    BeginEmbeds(t, captured, m, path[|path| - 1]);
    path := OneMore(t, path, Do(Act(0, Move.BeginRun(true, false))));
  }

  // --- every history ------------------------------------------------------------------------------------------

  lemma StepIsTimed(t: Timing, captured: int, path: seq<TimedSystem>, m: Moment, step: HolderStep)
    returns (longer: seq<TimedSystem>)
    requires IsTiming(t) && LeadsTo(t, captured, path, m) && HolderEnabled(t, m, step) && IsPrompt(m, step)
    ensures LeadsTo(t, captured, longer, HolderApply(m, step))
  {
    hide TimedEnabled, TimedApply, Embeds, TimedNext, Unlocked, HolderApply, HolderEnabled, IsTimedPath, IsPrompt;
    PathIsNonEmpty(t, path);
    var s := path[|path| - 1];
    match step {
      case Pass(until) =>
        PassEmbeds(t, captured, m, s, until);
        longer := OneMore(t, path, Do(Environment(Advance(until))));
      case Tick =>
        TickEmbeds(t, captured, m, s, step);
        longer := OneMore(t, path, Served(0));
      case LateTick =>
        TickEmbeds(t, captured, m, s, step);
        longer := OneMore(t, path, Served(0));
      case StartWatch =>
        HandingToWatch(t, m);
        WatchEmbeds(t, captured, m, s);
        longer := OneMore(t, path, Watched(0));
      case LetGo => longer := ReleaseIsTimed(t, captured, path, m);
      case EndCommand =>
        MoveEmbeds(t, captured, m, s, step);
        longer := OneMore(t, path, Do(Act(0, MoveFor(step))));
      case LeaveCommand =>
        MoveEmbeds(t, captured, m, s, step);
        longer := OneMore(t, path, Do(Act(0, MoveFor(step))));
      case EndRunner =>
        MoveEmbeds(t, captured, m, s, step);
        longer := OneMore(t, path, Do(Act(0, MoveFor(step))));
      case _ => longer := RenewalIsTimed(t, captured, path, m, step);
    }
    PathIsNonEmpty(t, longer);
  }

  lemma PathIsNonEmpty(t: Timing, path: seq<TimedSystem>)
    requires IsTimedPath(t, path)
    ensures path != []
  {
  }

  lemma HandingToWatch(t: Timing, m: Moment)
    requires HolderEnabled(t, m, StartWatch)
    ensures m.holder.stage == Handing
  {
  }

  lemma ReleaseIsTimed(t: Timing, captured: int, path: seq<TimedSystem>, m: Moment) returns (longer: seq<TimedSystem>)
    requires IsTiming(t) && LeadsTo(t, captured, path, m) && HolderEnabled(t, m, LetGo)
    ensures LeadsTo(t, captured, longer, HolderApply(m, LetGo))
  {
    hide TimedEnabled, TimedApply, EmbedsAt, TimedNext, Unlocked, HolderApply;
    longer := path;
    if m.holder.stage == Between {
      FinishEmbeds(t, captured, m, path[|path| - 1]);
      longer := OneMore(t, path, Do(Act(0, Finish(Failed, true))));
      ReleaseEmbeds(t, captured, m, longer[|longer| - 1], Exiting);
    } else {
      ReleaseEmbeds(t, captured, m, path[|path| - 1], LateDone);
    }
    longer := OneMore(t, longer, Do(Act(0, ReleaseLock(true))));
  }

  lemma RenewalIsTimed(t: Timing, captured: int, path: seq<TimedSystem>, m: Moment, step: HolderStep)
    returns (longer: seq<TimedSystem>)
    requires IsTiming(t) && LeadsTo(t, captured, path, m) && HolderEnabled(t, m, step) && IsPrompt(m, step)
    requires step.RenewFirst? || step.Renewed? || step.LateRenewed?
    ensures LeadsTo(t, captured, longer, HolderApply(m, step))
  {
    hide TimedEnabled, TimedApply, EmbedsAt, TimedNext, Unlocked;
    assert step == RenewalFor(m);
    ReadEmbeds(t, captured, m, path[|path| - 1]);
    longer := OneMore(t, path, Do(Act(0, RenewStart)));
    CommitEmbeds(t, captured, m, longer[|longer| - 1]);
    longer := OneMore(t, longer, Do(Act(0, RenewCommit)));
    if m.holder.stage == Between {
      StartEmbeds(t, captured, HolderApply(m, step), longer[|longer| - 1]);
      longer := OneMore(t, longer, Do(Act(0, StartCommand)));
    }
  }

  /** Every history of a holder whose renewals are prompt is that of an execution in some timed run. */
  lemma {:induction false} HistoryIsTimed(t: Timing, run: seq<Moment>) returns (path: seq<TimedSystem>)
    requires IsTiming(t) && IsPromptHolding(t, run)
    ensures LeadsTo(t, run[0].holder.captured, path, run[|run| - 1])
    decreases |run|
  {
    hide PromptNext, LeadsTo, Granted;
    if |run| == 1 {
      path := GrantIsTimed(t, run[0]);
    } else {
      var front := run[..|run| - 1];
      path := HistoryIsTimed(t, front);
      path := NextIsTimed(t, run[0].holder.captured, path, front[|front| - 1], run[|run| - 1]);
    }
  }

  lemma NextIsTimed(t: Timing, captured: int, path: seq<TimedSystem>, m: Moment, n: Moment)
    returns (longer: seq<TimedSystem>)
    requires IsTiming(t) && LeadsTo(t, captured, path, m) && PromptNext(t, m, n)
    ensures LeadsTo(t, captured, longer, n)
  {
    hide LeadsTo, HolderEnabled, HolderApply, IsPrompt;
    var step: HolderStep :| HolderEnabled(t, m, step) && IsPrompt(m, step) && n == HolderApply(m, step);
    longer := StepIsTimed(t, captured, path, m, step);
  }

  // --- the exact condition ------------------------------------------------------------------------------------

  lemma PathIsRun(t: Timing, captured: int, path: seq<TimedSystem>, m: Moment)
    requires IsTiming(t) && LeadsTo(t, captured, path, m)
    ensures IsTimedRun(t, path)
  {
    hide TimedNext, Embeds;
    EnterAsks(t, captured);
  }

  lemma RunOutIsLapse(t: Timing, captured: int, m: Moment, s: TimedSystem)
    requires IsTiming(t) && Embeds(t, captured, m, s) && m.holder.stage in AllStages && !LeaseContinuity.Held(t, m)
    ensures !NoLapse(s.system)
  {
    assert Active(s.system.execs[0].phase) && !Current(s.system.lease, s.system.execs[0].runKey);
  }

  ghost predicate NeverLapses(t: Timing) {
    forall run: seq<TimedSystem>, i: nat :: IsTimedRun(t, run) && i < |run| ==> NoLapse(run[i].system)
  }

  /** Exactly: no lease lapses in any timed run, with any number of executions, if and only if the timing
      fits the TTL. */
  lemma NeverLapsesIffFits(t: Timing)
    requires IsTiming(t)
    ensures NeverLapses(t) <==> Fits(t)
  {
    hide IsTimedRun, Fits, NoLapse, IsPromptHolding, LeaseContinuity.Held, Embeds;
    if Fits(t) {
      forall run: seq<TimedSystem>, i: nat | IsTimedRun(t, run) && i < |run| ensures NoLapse(run[i].system) {
        TimedRunNeverLapses(t, run);
      }
    } else {
      var run := OldestIsTooOld(t);
      var path := HistoryIsTimed(t, run);
      PathIsRun(t, run[0].holder.captured, path, run[|run| - 1]);
      RunOutIsLapse(t, run[0].holder.captured, run[|run| - 1], path[|path| - 1]);
    }
  }
}
