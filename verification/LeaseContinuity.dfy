/** How long a lock row goes without a renewal, from its grant to its release: between the commands,
    while a command runs, while its outcome is recorded, and while a watcher waits for a runner that
    did not stop. Times and durations are whole nanoseconds. */
module LeaseContinuity {
  import LeaseTable

  const SECOND: int := 1_000_000_000
  const MINUTE: int := LeaseTable.MINUTE

  // --- the policy's values -----------------------------------------------------------------------

  function LockTtlValue(lockTtl: int): (ttl: int)
    ensures ttl > 0
  {
    if lockTtl <= 0 then 5 * MINUTE else lockTtl
  }

  function LockRenewIntervalValue(lockTtl: int, lockRenewInterval: int): int {
    if lockRenewInterval > 0 then lockRenewInterval
    else if LockTtlValue(lockTtl) <= SECOND then LockTtlValue(lockTtl) / 2
    else MINUTE
  }

  /** How long a renewal begun now may take; zero or less refuses it. */
  function LockRenewTimeout(expiresAt: int, now: int, interval: int): (timeout: int)
    ensures timeout > 0 ==> now + timeout <= expiresAt
    ensures timeout <= 0 <==> expiresAt <= now
  {
    var remaining := expiresAt - now;
    if remaining <= 0 then 0
    else if interval <= 0 || interval > remaining then remaining
    else interval
  }

  // --- a lock's holder ------------------------------------------------------------------------------

  /** The renewal interval, how late a tick may be served, the TTL, and the longest time from a grant
      or a command's end to the next renewal or release, from giving up a command to the start of its
      watcher, and from a late runner's end to the release. A tick is served when the renewal's deadline
      is set; for the first one the delay also covers the time since the clock read of the renewal
      before the command. */
  datatype Timing = Timing(interval: int, delay: int, ttl: int, between: int, handOver: int, completion: int)

  predicate IsTiming(t: Timing) {
    t.interval > 0 && t.delay >= 0 && t.ttl > 0 && t.between >= 0 && t.handOver >= 0 && t.completion >= 0
  }

  datatype Stage =
    | Between         // the lock is held, no command runs
    | Waiting         // a command runs, its goroutine waits for the next tick
    | Renewing        // the goroutine's renewal is in flight
    | Handing         // the command was given up, its outcome is being recorded
    | Watching        // the watcher waits for its next tick or for the runner
    | LateRenewing    // the watcher's renewal is in flight
    | Completing      // the runner has ended, the completion is being recorded
    | Over            // the lock is released

  /** 'captured' is the clock value of the row's last write, 'since' the moment from which the
      stage's time counts: the last tick, if there was one. */
  datatype Holder = Holder(captured: int, since: int, stage: Stage)

  datatype Moment = Moment(now: int, holder: Holder)

  /** How long the stage may last. A renewal is done by its deadline: the goroutine's is bounded by the
      remaining lease, the watcher's by the interval alone. */
  function Limit(t: Timing, h: Holder): int {
    match h.stage
    case Between => h.since + t.between
    case Waiting => h.since + t.interval + t.delay
    case Renewing => h.since + LockRenewTimeout(h.captured + t.ttl, h.since, t.interval)
    case Handing => h.since + t.handOver
    case Watching => h.since + t.interval + t.delay
    case LateRenewing => h.since + t.interval
    case Completing => h.since + t.completion
    case Over => h.since
  }

  /** What can happen while no renewal reports an error; 'read' is the clock value that the store read. */
  datatype HolderStep =
    | Pass(until: int)
    | RenewFirst(read: int)     // the renewal that precedes a command
    | Tick
    | Renewed(read: int)
    | EndCommand
    | LeaveCommand
    | StartWatch
    | LateTick
    | LateRenewed(read: int)
    | EndRunner
    | LetGo

  predicate HolderEnabled(t: Timing, m: Moment, step: HolderStep) {
    var h := m.holder;
    match step
    case Pass(until) => m.now <= until && (h.stage != Over ==> until <= Limit(t, h))
    case RenewFirst(read) => h.stage == Between && h.since <= read <= m.now <= read + t.interval + t.delay
    case Tick => h.stage == Waiting && LockRenewTimeout(h.captured + t.ttl, m.now, t.interval) > 0
    case Renewed(read) => h.stage == Renewing && h.since <= read <= m.now
    case EndCommand => h.stage == Waiting || h.stage == Renewing
    case LeaveCommand => h.stage == Waiting || h.stage == Renewing
    case StartWatch => h.stage == Handing
    case LateTick => h.stage == Watching
    case LateRenewed(read) => h.stage == LateRenewing && h.since <= read <= m.now
    case EndRunner => h.stage == Watching
    case LetGo => h.stage == Between || h.stage == Completing
  }

  function HolderApply(m: Moment, step: HolderStep): Moment {
    var h, now := m.holder, m.now;
    match step
    case Pass(until) => m.(now := until)
    case RenewFirst(read) => Moment(now, Holder(read, read, Waiting))
    case Tick => Moment(now, Holder(h.captured, now, Renewing))
    case Renewed(read) => Moment(now, Holder(read, h.since, Waiting))
    case EndCommand => Moment(now, Holder(h.captured, now, Between))
    case LeaveCommand => Moment(now, Holder(h.captured, now, Handing))
    case StartWatch => Moment(now, Holder(h.captured, now, Watching))
    case LateTick => Moment(now, Holder(h.captured, now, LateRenewing))
    case LateRenewed(read) => Moment(now, Holder(read, h.since, Watching))
    case EndRunner => Moment(now, Holder(h.captured, now, Completing))
    case LetGo => Moment(now, Holder(h.captured, now, Over))
  }

  /** A lock just granted at a clock value read before. */
  predicate Granted(t: Timing, m: Moment) {
    m.holder.stage == Between && m.holder.since == m.holder.captured <= m.now <= m.holder.captured + t.between
  }

  ghost predicate HolderNext(t: Timing, m: Moment, n: Moment) {
    exists step: HolderStep :: HolderEnabled(t, m, step) && n == HolderApply(m, step)
  }

  ghost predicate IsHolding(t: Timing, run: seq<Moment>) {
    && |run| > 0 && Granted(t, run[0])
    && (forall i :: 0 < i < |run| ==> HolderNext(t, run[i - 1], run[i]))
  }

  /** The row is live, as the stores see it: nobody else's acquire can take it. */
  predicate Held(t: Timing, m: Moment) {
    LeaseTable.Live(LeaseTable.LeaseRow("", "", t.ttl, m.holder.captured), m.now)
  }

  // --- how old a row can get ------------------------------------------------------------------------

  function Max(a: int, b: int): int {
    if a < b then b else a
  }

  /** The longest a row goes without a renewal while a command runs, and until a given-up one is watched for. */
  function CommandAge(t: Timing): int {
    2 * t.interval + t.delay
  }

  function WatchAge(t: Timing): int {
    CommandAge(t) + t.handOver + t.interval + t.delay
  }

  /** What every reachable moment keeps: how long ago the stage can have begun, counted from the
      row's last write, and that its time has not run out. */
  predicate InTime(t: Timing, m: Moment) {
    var h := m.holder;
    && h.captured <= m.now && h.since <= m.now
    && (h.stage != Over ==> m.now <= Limit(t, h))
    && (match h.stage
        case Between => h.since <= h.captured + CommandAge(t)
        case Waiting => h.since <= h.captured
        case Renewing =>
          h.since <= h.captured + t.interval + t.delay && LockRenewTimeout(h.captured + t.ttl, h.since, t.interval) > 0
        case Handing => h.since <= h.captured + CommandAge(t)
        case Watching => h.since <= h.captured + CommandAge(t) + t.handOver
        case LateRenewing => h.since <= h.captured + WatchAge(t)
        case Completing => h.since <= h.captured + WatchAge(t)
        case Over => true)
  }

  lemma StepKeepsInTime(t: Timing, m: Moment, step: HolderStep)
    requires IsTiming(t) && InTime(t, m) && HolderEnabled(t, m, step)
    ensures InTime(t, HolderApply(m, step))
  {
  }

  lemma {:induction false} HoldingInTime(t: Timing, run: seq<Moment>, i: nat)
    requires IsTiming(t) && IsHolding(t, run) && i < |run|
    ensures InTime(t, run[i])
  {
    hide HolderEnabled, HolderApply, InTime;
    if i == 0 {
      GrantedInTime(t, run[0]);
    } else {
      HoldingInTime(t, run, i - 1);
      assert HolderNext(t, run[i - 1], run[i]);
      var step: HolderStep :| HolderEnabled(t, run[i - 1], step) && run[i] == HolderApply(run[i - 1], step);
      StepKeepsInTime(t, run[i - 1], step);
    }
  }

  lemma GrantedInTime(t: Timing, m: Moment)
    requires IsTiming(t) && Granted(t, m)
    ensures InTime(t, m)
  {
  }

  /** Whatever the timing, the goroutine's renewals commit no later than the expiry they extend, since
      their deadline is the remaining lease. The watcher's have no such bound. */
  lemma RenewalsNeverLate(t: Timing, run: seq<Moment>, i: nat)
    requires IsTiming(t) && IsHolding(t, run) && 0 < i < |run|
    requires run[i - 1].holder.stage == Renewing && run[i].holder.stage == Waiting
    ensures run[i].now <= run[i - 1].holder.captured + t.ttl
  {
    HoldingInTime(t, run, i - 1);
    assert HolderNext(t, run[i - 1], run[i]);
  }

  // --- exactly when the row stays live --------------------------------------------------------------

  /** In every run of a holder the row is live at every moment of these stages. */
  ghost predicate AlwaysHeld(t: Timing, stages: set<Stage>) {
    forall run: seq<Moment>, i: nat :: IsHolding(t, run) && i < |run| && run[i].holder.stage in stages ==>
      Held(t, run[i])
  }

  const CommandStages := {Waiting, Renewing}
  const LateStages := {Handing, Watching, LateRenewing, Completing}

  /** Every stage in which the lock is not disposed of. */
  const AllStages := CommandStages + LateStages + {Between}

  lemma InTimeIsHeld(t: Timing, m: Moment)
    requires IsTiming(t) && InTime(t, m)
    ensures m.holder.stage in CommandStages && CommandAge(t) < t.ttl ==> Held(t, m)
    ensures m.holder.stage == Between && CommandAge(t) + t.between < t.ttl ==> Held(t, m)
    ensures m.holder.stage in LateStages && WatchAge(t) + Max(t.interval, t.completion) < t.ttl ==> Held(t, m)
  {
  }

  /** A renewal that commits at the very moment at which the store reads its clock. */
  predicate IsPrompt(m: Moment, step: HolderStep) {
    step.RenewFirst? || step.Renewed? || step.LateRenewed? ==> step.read == m.now
  }

  ghost predicate PromptNext(t: Timing, m: Moment, n: Moment) {
    exists step: HolderStep :: HolderEnabled(t, m, step) && IsPrompt(m, step) && n == HolderApply(m, step)
  }

  ghost predicate IsPromptHolding(t: Timing, run: seq<Moment>) {
    && |run| > 0 && Granted(t, run[0])
    && (forall i :: 0 < i < |run| ==> PromptNext(t, run[i - 1], run[i]))
  }

  lemma PromptIsHolding(t: Timing, run: seq<Moment>)
    requires IsPromptHolding(t, run)
    ensures IsHolding(t, run)
  {
    hide HolderEnabled, HolderApply;
    forall i | 0 < i < |run| ensures HolderNext(t, run[i - 1], run[i]) {
      assert PromptNext(t, run[i - 1], run[i]);
    }
  }

  /** The step can follow the run's last moment. */
  lemma Follows(t: Timing, run: seq<Moment>, step: HolderStep) returns (longer: seq<Moment>)
    requires IsPromptHolding(t, run) && HolderEnabled(t, run[|run| - 1], step) && IsPrompt(run[|run| - 1], step)
    ensures IsPromptHolding(t, longer) && |longer| > 0 && longer[|longer| - 1] == HolderApply(run[|run| - 1], step)
  {
    hide HolderEnabled, HolderApply, IsPrompt;
    longer := run + [HolderApply(run[|run| - 1], step)];
    assert PromptNext(t, run[|run| - 1], longer[|run|]);
    forall i | 0 < i < |longer| ensures PromptNext(t, longer[i - 1], longer[i]) {
      if i < |run| { assert PromptNext(t, run[i - 1], run[i]); }
    }
  }

  /** The row gets as old as a command can let it, or runs out before. */
  lemma OldestCommand(t: Timing) returns (run: seq<Moment>)
    requires IsTiming(t)
    ensures IsPromptHolding(t, run) && |run| > 0
    ensures var m := run[|run| - 1];
      m.holder.stage in CommandStages && m.holder.captured == 0 && m.now > 0
        && (m.now >= t.ttl || m.now == CommandAge(t))
  {
    hide IsPromptHolding;
    run := [Moment(0, Holder(0, 0, Between))];
    AtGrant(t, run);
    run := Follows(t, run, RenewFirst(0));
    run := Follows(t, run, Pass(t.interval + t.delay));
    if t.interval + t.delay < t.ttl {
      run := Follows(t, run, Tick);
      var m := run[|run| - 1];
      run := Follows(t, run, Pass(m.now + LockRenewTimeout(t.ttl, m.now, t.interval)));
    }
  }

  lemma AtGrant(t: Timing, run: seq<Moment>)
    requires IsTiming(t) && run == [Moment(0, Holder(0, 0, Between))]
    ensures IsPromptHolding(t, run)
  {
  }

  lemma OldestBetween(t: Timing) returns (run: seq<Moment>)
    requires IsTiming(t)
    ensures IsPromptHolding(t, run) && |run| > 0
    ensures var m := run[|run| - 1];
      m.holder.stage == Between && m.holder.captured == 0 && (m.now >= t.ttl || m.now == CommandAge(t) + t.between)
  {
    hide IsPromptHolding;
    run := OldestCommand(t);
    run := Follows(t, run, EndCommand);
    run := Follows(t, run, Pass(run[|run| - 1].now + t.between));
  }

  lemma OldestLate(t: Timing) returns (run: seq<Moment>)
    requires IsTiming(t)
    ensures IsPromptHolding(t, run) && |run| > 0
    ensures var m := run[|run| - 1];
      && m.holder.stage in LateStages && m.holder.captured == 0
      && (m.now >= t.ttl || m.now == WatchAge(t) + Max(t.interval, t.completion))
  {
    hide IsPromptHolding;
    run := OldestCommand(t);
    run := Follows(t, run, LeaveCommand);
    run := Follows(t, run, Pass(run[|run| - 1].now + t.handOver));
    run := Follows(t, run, StartWatch);
    run := Follows(t, run, Pass(run[|run| - 1].now + t.interval + t.delay));
    if t.interval < t.completion {
      run := Follows(t, run, EndRunner);
      run := Follows(t, run, Pass(run[|run| - 1].now + t.completion));
    } else {
      run := Follows(t, run, LateTick);
      run := Follows(t, run, Pass(run[|run| - 1].now + t.interval));
    }
  }

  lemma NotHeld(t: Timing, run: seq<Moment>, stages: set<Stage>)
    requires IsTiming(t) && IsPromptHolding(t, run) && |run| > 0
    requires var m := run[|run| - 1]; m.holder.stage in stages && m.holder.captured == 0 && m.now >= t.ttl
    ensures !AlwaysHeld(t, stages)
  {
    PromptIsHolding(t, run);
    hide IsHolding, IsPromptHolding;
    assert !Held(t, run[|run| - 1]);
  }

  lemma InTimeAlways(t: Timing, stages: set<Stage>)
    requires IsTiming(t)
    requires forall m :: InTime(t, m) && m.holder.stage in stages ==> Held(t, m)
    ensures AlwaysHeld(t, stages)
  {
    hide IsHolding, InTime, Held;
    forall run: seq<Moment>, i: nat | IsHolding(t, run) && i < |run| && run[i].holder.stage in stages
      ensures Held(t, run[i]) {
      HoldingInTime(t, run, i);
    }
  }

  /** While a command runs: exactly when two intervals and the delay are less than the TTL. */
  lemma CommandHeldIff(t: Timing)
    requires IsTiming(t)
    ensures AlwaysHeld(t, CommandStages) <==> 2 * t.interval + t.delay < t.ttl
  {
    hide AlwaysHeld, IsHolding, InTime, Held;
    if CommandAge(t) < t.ttl {
      forall m | InTime(t, m) && m.holder.stage in CommandStages ensures Held(t, m) { InTimeIsHeld(t, m); }
      InTimeAlways(t, CommandStages);
    } else {
      var run := OldestCommand(t);
      NotHeld(t, run, CommandStages);
    }
  }

  /** Between the commands, from the grant to the release. */
  lemma BetweenHeldIff(t: Timing)
    requires IsTiming(t)
    ensures AlwaysHeld(t, {Between}) <==> 2 * t.interval + t.delay + t.between < t.ttl
  {
    hide AlwaysHeld, IsHolding, InTime, Held;
    if CommandAge(t) + t.between < t.ttl {
      forall m | InTime(t, m) && m.holder.stage in {Between} ensures Held(t, m) { InTimeIsHeld(t, m); }
      InTimeAlways(t, {Between});
    } else {
      var run := OldestBetween(t);
      NotHeld(t, run, {Between});
    }
  }

  /** From giving up a command, over the hand-over and the watcher's renewals, to the late release: the
      watcher's ticker is a new one, and its renewals may take a whole interval. */
  lemma LateHeldIff(t: Timing)
    requires IsTiming(t)
    ensures AlwaysHeld(t, LateStages) <==>
            3 * t.interval + 2 * t.delay + t.handOver + Max(t.interval, t.completion) < t.ttl
  {
    hide AlwaysHeld, IsHolding, InTime, Held;
    if WatchAge(t) + Max(t.interval, t.completion) < t.ttl {
      forall m | InTime(t, m) && m.holder.stage in LateStages ensures Held(t, m) { InTimeIsHeld(t, m); }
      InTimeAlways(t, LateStages);
    } else {
      var run := OldestLate(t);
      NotHeld(t, run, LateStages);
    }
  }

  /** What the whole tenure of a lock takes, from its grant to its release. */
  predicate Fits(t: Timing) {
    CommandAge(t) + Max(t.between, t.handOver + t.interval + t.delay + Max(t.interval, t.completion)) < t.ttl
  }

  /** If it does not fit, some prompt holder's row runs out. */
  lemma OldestIsTooOld(t: Timing) returns (run: seq<Moment>)
    requires IsTiming(t) && !Fits(t)
    ensures IsPromptHolding(t, run) && |run| > 0
    ensures run[|run| - 1].holder.stage in AllStages && !Held(t, run[|run| - 1])
  {
    hide IsPromptHolding;
    if CommandAge(t) + t.between >= t.ttl {
      run := OldestBetween(t);
    } else {
      run := OldestLate(t);
    }
  }

  lemma HeldIffFits(t: Timing)
    requires IsTiming(t)
    ensures AlwaysHeld(t, AllStages) <==> Fits(t)
  {
    CommandHeldIff(t);
    BetweenHeldIff(t);
    LateHeldIff(t);
    hide IsHolding, Held;
  }

  // --- the configured values ----------------------------------------------------------------------------

  /** The interval is within the TTL except when it is longer outright, or is unset while the TTL lies
      strictly between a second and a minute. That alone does not keep a row live; see CommandHeldIff. */
  lemma ConfiguredIntervalFits(lockTtl: int, lockRenewInterval: int)
    ensures LockRenewIntervalValue(lockTtl, lockRenewInterval) <= LockTtlValue(lockTtl) <==>
            (if lockRenewInterval > 0 then lockRenewInterval <= LockTtlValue(lockTtl)
             else !(1_000_000_000 < lockTtl < 60_000_000_000))
  {
  }

  /** With the interval unset, a running command's row stays live exactly if the TTL is above two minutes and
      the delay; for a TTL of at most a second only an odd one does, with no delay at all. */
  lemma UnsetIntervalHeld(lockTtl: int, t: Timing)
    requires IsTiming(t) && t.ttl == LockTtlValue(lockTtl) && t.interval == LockRenewIntervalValue(lockTtl, 0)
    ensures AlwaysHeld(t, CommandStages) <==>
            if 0 < lockTtl <= 1_000_000_000 then lockTtl % 2 == 1 && t.delay == 0
              else 120_000_000_000 + t.delay < if lockTtl <= 0 then 300_000_000_000 else lockTtl
  {
    hide AlwaysHeld;
    CommandHeldIff(t);
  }

  /** The default TTL of five minutes and interval of one: which delays a running command allows, and which
      times the whole tenure. */
  lemma DefaultsHeld(t: Timing)
    requires IsTiming(t) && t.ttl == LockTtlValue(0) && t.interval == LockRenewIntervalValue(0, 0)
    ensures AlwaysHeld(t, CommandStages) <==> t.delay < 180_000_000_000
    ensures AlwaysHeld(t, AllStages) <==>
            && t.delay + t.between < 180_000_000_000
            && 2 * t.delay + t.handOver < 60_000_000_000
            && 2 * t.delay + t.handOver + t.completion < 120_000_000_000
  {
    hide AlwaysHeld;
    CommandHeldIff(t);
    HeldIffFits(t);
  }

  /** A TTL that is enough for every command and not for its watcher: the row can run out while the
      runner is still at work, with no error reported. */
  lemma HandOverGap(t: Timing)
    requires t == Timing(60_000_000_000, 0, 150_000_000_000, 0, 0, 0)
    ensures AlwaysHeld(t, CommandStages) && !AlwaysHeld(t, LateStages)
  {
    hide AlwaysHeld;
    CommandHeldIff(t);
    LateHeldIff(t);
  }
}
