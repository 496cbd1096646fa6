/** The calls one executeItem makes, and the watcher it may leave behind, as a path through the
    phases of the execution protocol. Each event carries the answer it got, so a path is
    either possible or not, whatever the stores and the runner do. */
module ExecutorPath {
  import opened Outcomes
  import opened LifecycleTypes
  import opened ExecutionProtocol

  datatype Event =
    | LockGranted(lock: LifecycleLock)
    | LockFailed
    | LockHeldBy(holder: string)
    | RunRead(found: bool, failed: bool, valid: bool)
    | GateRefused
    | GateOpened
    | RunBegun(failed: bool)
    | RenewalStarted
    | RenewalAnswered(renewed: bool)
    | CommandStarted(command: string)
    | CommandEnded(command: string, ran: bool, ok: bool)   // the runner returned nil; the call did
    | CommandGivenUp(command: string)
    | StepRecorded(step: string, command: string, status: Status)
    | CommandPassed(command: string)
    | RunFinished(status: Status, wrote: bool)
    | StateWritten(status: Status)
    | HandedOver(late: LifecycleLock)
    | LateRunnerEnded
    | LockReleased(lock: LifecycleLock)

  /** Where an execution stands: its protocol phase, the lock granted to it, whether a renewal is
      outstanding, the command that ended well and is not yet counted, whether the
      reconciliation has been recorded and whether a watcher has taken over. */
  datatype Control = Control(
    phase: Phase,
    lock: LifecycleLock,
    renewing: bool,
    ended: Option<string>,
    recorded: bool,
    watched: bool
  )

  const AtStart := Control(Acquiring, NoLock, false, None, false, false)

  predicate SameLease(a: LifecycleLock, b: LifecycleLock) {
    a.key == b.key && a.owner == b.owner && a.runKey == b.runKey && a.acquired && b.acquired
  }

  predicate Finishes(c: Control, status: Status) {
    && !c.renewing && (c.phase.Begun? || c.phase == Failing)
    && (status == Failed || status == ManualRequired || (status == Succeeded && c.phase == Begun(true)))
  }

  predicate Reconciles(c: Control, status: Status) {
    status == ReconciliationRequired && (c.phase == Late || c.phase == LateDone
                                         || (c.phase.Orphan? && c.phase.unrecorded))
  }

  function RenewalOutcome(p: Phase, renewed: bool): Phase {
    if p.Begun? then (if renewed then Ready else Failing)
    else if p == Late && !renewed then Orphan(true, true)
    else p
  }

  function After(c: Control, e: Event): Option<Control> {
    match e
    case LockGranted(lock) =>
      if c.phase == Acquiring && lock.acquired then Some(c.(phase := Held, lock := lock)) else None
    case LockFailed => if c.phase == Acquiring then Some(c.(phase := Done)) else None
    case LockHeldBy(_) => if c.phase == Acquiring then Some(c.(phase := Done)) else None
    case RunRead(found, failed, valid) =>
      if c.phase == Held then Some(c.(phase := if failed || found then Exiting else Cleared(valid))) else None
    case GateRefused => if c.phase.Cleared? then Some(c.(phase := Exiting)) else None
    case GateOpened => if c.phase.Cleared? then Some(c) else None
    case RunBegun(failed) =>
      if c.phase.Cleared? then Some(c.(phase := if failed then Exiting else Begun(c.phase.valid))) else None
    case RenewalStarted =>
      if !c.renewing && (c.phase == Begun(true) || (c.phase == Late && c.watched)) then Some(c.(renewing := true))
        else None
    case RenewalAnswered(renewed) =>
      if c.renewing && Renews(c.phase) then Some(c.(renewing := false, phase := RenewalOutcome(c.phase, renewed)))
        else None
    case CommandStarted(_) => if c.phase == Ready then Some(c.(phase := Commanding)) else None
    case CommandEnded(command, ran, ok) =>
      if c.phase == Commanding && !c.renewing && (ok ==> ran)
      then Some(c.(phase := if ok then Begun(true) else Failing, ended := if ok then Some(command) else None))
      else None
    case CommandGivenUp(_) => if c.phase == Commanding && !c.renewing then Some(c.(phase := Late)) else None
    case StepRecorded(_, _, _) => if c.phase == Acquiring || c.phase == Done then None else Some(c)
    case CommandPassed(command) => if c.ended == Some(command) && c.phase == Begun(true) then Some(c.(ended := None))
      else None
    case RunFinished(status, _) =>
      if Finishes(c, status) then Some(c.(phase := Exiting))
      else if Reconciles(c, status) then
        Some(c.(recorded := true, phase := if c.phase.Orphan? then c.phase.(unrecorded := false) else c.phase))
      else None
    case StateWritten(_) => if c.phase == Acquiring || c.phase == Done then None else Some(c)
    case HandedOver(late) =>
      if c.phase == Late && c.recorded && !c.watched && SameLease(late, c.lock)
      then Some(c.(watched := true, recorded := false))
      else None
    case LateRunnerEnded =>
      if c.phase == Late && c.watched && !c.renewing then Some(c.(phase := LateDone, recorded := false)) else None
    case LockReleased(lock) =>
      if SameLease(lock, c.lock) && (c.phase == Exiting || (c.phase == LateDone && c.recorded))
        then Some(c.(phase := Done)) else None
  }

  /** Where the calls lead, if they are a path at all. */
  function ControlAfter(es: seq<Event>): Option<Control> {
    if es == [] then Some(AtStart)
    else match ControlAfter(es[..|es| - 1])
      case None => None
      case Some(c) => After(c, es[|es| - 1])
  }

  /** The commands whose success was recorded, in order: those that executed commands are remembered by. */
  function PassedIn(es: seq<Event>): seq<string> {
    if es == [] then []
    else if es[|es| - 1].CommandPassed? then PassedIn(es[..|es| - 1]) + [es[|es| - 1].command]
    else PassedIn(es[..|es| - 1])
  }

  /** The commands that the runner ran to success, in order, whether or not that was recorded. */
  function RanIn(es: seq<Event>): seq<string> {
    if es == [] then []
    else
      var last := es[|es| - 1];
      RanIn(es[..|es| - 1]) + if last.CommandEnded? && last.ran then [last.command] else []
  }

  lemma PassedGrows(es: seq<Event>, e: Event)
    ensures PassedIn(es + [e]) == if e.CommandPassed? then PassedIn(es) + [e.command] else PassedIn(es)
  {
    assert (es + [e])[..|es|] == es;
  }

  lemma RanGrows(es: seq<Event>, e: Event)
    ensures RanIn(es + [e]) == RanIn(es) + if e.CommandEnded? && e.ran then [e.command] else []
  {
    assert (es + [e])[..|es|] == es;
  }

  /** Every command counted as passed was started and ended well in the same path. */
  lemma {:induction false} PassedCommandsRan(es: seq<Event>)
    requires ControlAfter(es).Some?
    ensures forall c :: c in PassedIn(es) || ControlAfter(es).value.ended == Some(c) ==>
            CommandEnded(c, true, true) in es
  {
    if es != [] {
      LastCall(es);
      PassedCommandsRan(es[..|es| - 1]);
      EndedStep(ControlAfter(es[..|es| - 1]).value, es[|es| - 1]);
      hide ControlAfter, After;
    }
  }

  lemma EndedStep(c: Control, e: Event)
    requires After(c, e).Some?
    ensures After(c, e).value.ended == (if e.CommandEnded? && e.ok then Some(e.command)
                                        else if e.CommandEnded? || e.CommandPassed? then None else c.ended)
    ensures e.CommandPassed? ==> c.ended == Some(e.command)
    ensures e.CommandEnded? && e.ok ==> e.ran
  {
  }

  lemma PathGrows(es: seq<Event>, e: Event)
    ensures ControlAfter(es + [e]) == match ControlAfter(es) case None => None case Some(c) => After(c, e)
  {
    assert (es + [e])[..|es|] == es;
  }

  lemma Members<T>(s: seq<T>)
    requires s != []
    ensures forall x :: x in s <==> x in s[..|s| - 1] || x == s[|s| - 1]
  {
    assert s == s[..|s| - 1] + [s[|s| - 1]];
  }

  /** The last call of a path, and where the calls before it lead. */
  lemma LastCall(es: seq<Event>)
    requires ControlAfter(es).Some? && es != []
    ensures ControlAfter(es[..|es| - 1]).Some?
            && ControlAfter(es) == After(ControlAfter(es[..|es| - 1]).value, es[|es| - 1])
    ensures forall e :: e in es <==> e in es[..|es| - 1] || e == es[|es| - 1]
  {
    hide After;
    Members(es);
  }

  lemma {:induction false} PrefixIsPath(es: seq<Event>, i: nat)
    requires ControlAfter(es).Some? && i <= |es|
    ensures ControlAfter(es[..i]).Some?
  {
    if i < |es| {
      PrefixIsPath(es[..|es| - 1], i);
      assert es[..|es| - 1][..i] == es[..i];
    } else {
      assert es[..i] == es;
    }
  }

  // --- the lock is disposed of exactly once ---------------------------------------------------------

  function Grants(es: seq<Event>): nat {
    if es == [] then 0 else Grants(es[..|es| - 1]) + if es[|es| - 1].LockGranted? then 1 else 0
  }

  function Releases(es: seq<Event>): nat {
    if es == [] then 0 else Releases(es[..|es| - 1]) + if es[|es| - 1].LockReleased? then 1 else 0
  }

  function HandOvers(es: seq<Event>): nat {
    if es == [] then 0 else HandOvers(es[..|es| - 1]) + if es[|es| - 1].HandedOver? then 1 else 0
  }

  predicate Holding(p: Phase) {
    p != Acquiring && p != Done
  }

  predicate WatchedPhase(p: Phase) {
    p == Late || p == LateDone || p == Done || p.Orphan?
  }

  lemma BalanceStep(c: Control, e: Event)
    requires After(c, e).Some?
    ensures var d := After(c, e).value;
      && (e.LockGranted? ==> c.phase == Acquiring && Holding(d.phase))
      && (e.LockReleased? ==> Holding(c.phase) && d.phase == Done)
      && (!e.LockGranted? && !e.LockReleased? ==> Holding(d.phase) == Holding(c.phase))
      && d.phase != Acquiring
      && d.watched == (c.watched || e.HandedOver?) && (e.HandedOver? ==> !c.watched && d.phase == Late)
      && (c.watched && WatchedPhase(c.phase) ==> WatchedPhase(d.phase))
  {
  }

  lemma {:induction false} LockBalance(es: seq<Event>)
    requires ControlAfter(es).Some?
    ensures var c := ControlAfter(es).value;
      && Grants(es) == Releases(es) + (if Holding(c.phase) then 1 else 0)
      && Grants(es) <= 1 && (c.phase == Acquiring ==> Grants(es) == 0)
      && HandOvers(es) == (if c.watched then 1 else 0)
      && (c.watched ==> WatchedPhase(c.phase) && Grants(es) == 1)
  {
    if es != [] {
      LastCall(es);
      LockBalance(es[..|es| - 1]);
      BalanceStep(ControlAfter(es[..|es| - 1]).value, es[|es| - 1]);
      hide ControlAfter, After;
    }
  }

  /** executeItem has returned: its lock, if any, is released or handed over. */
  predicate Settled(c: Control) {
    (c.phase == Done && !c.watched) || (c.phase == Late && c.watched)
  }

  /** When executeItem has returned, a granted lock has been released once or handed over once,
      not both; and a release is the last thing that happens. */
  lemma LockDisposedExactlyOnce(es: seq<Event>)
    requires ControlAfter(es).Some? && Settled(ControlAfter(es).value)
    ensures Grants(es) == Releases(es) + HandOvers(es) <= 1
    ensures ControlAfter(es).value.phase == Late <==> HandOvers(es) == 1
    ensures forall i :: 0 <= i < |es| && es[i].LockReleased? ==> i == |es| - 1
  {
    LockBalance(es);
    forall i | 0 <= i < |es| && es[i].LockReleased? ensures i == |es| - 1 {
      ReleaseIsLast(es, i);
    }
  }

  lemma NothingAfterDone(c: Control, e: Event)
    requires c.phase == Done
    ensures After(c, e).None?
  {
  }

  lemma {:induction false} ReleaseIsLast(es: seq<Event>, i: nat)
    requires ControlAfter(es).Some? && i < |es| && es[i].LockReleased?
    ensures i == |es| - 1 && ControlAfter(es).value.phase == Done
  {
    LastCall(es);
    if i < |es| - 1 {
      ReleaseIsLast(es[..|es| - 1], i);
      NothingAfterDone(ControlAfter(es[..|es| - 1]).value, es[|es| - 1]);
    } else {
      BalanceStep(ControlAfter(es[..|es| - 1]).value, es[|es| - 1]);
    }
    hide ControlAfter, After;
  }

  /** The phases in which the run has been begun and not yet finished normally. */
  predicate PastBegin(p: Phase) {
    p.Begun? || p == Ready || p == Commanding || p == Failing || p == Late || p == LateDone || p.Orphan?
  }

  predicate NotBlocked(e: Event) {
    e.RunRead? && !e.found && !e.failed
  }

  ghost predicate WasChecked(es: seq<Event>) {
    exists e :: e in es && NotBlocked(e)
  }

  lemma CheckStep(c: Control, e: Event)
    requires After(c, e).Some?
    ensures var d := After(c, e).value;
      && (d.phase.Cleared? || PastBegin(d.phase) ==> NotBlocked(e) || c.phase.Cleared? || PastBegin(c.phase))
      && (PastBegin(d.phase) ==> e == RunBegun(false) || PastBegin(c.phase))
  {
  }

  lemma {:induction false} CheckedAndBegun(es: seq<Event>)
    requires ControlAfter(es).Some?
    ensures var p := ControlAfter(es).value.phase;
      (p.Cleared? || PastBegin(p) ==> WasChecked(es)) && (PastBegin(p) ==> RunBegun(false) in es)
  {
    if es != [] {
      LastCall(es);
      CheckedAndBegun(es[..|es| - 1]);
      CheckStep(ControlAfter(es[..|es| - 1]).value, es[|es| - 1]);
      hide ControlAfter, After, PastBegin, NotBlocked;
    }
  }

  lemma StartsWhenReady(c: Control, command: string)
    requires After(c, CommandStarted(command)).Some?
    ensures c.phase == Ready && PastBegin(c.phase) && Holding(c.phase)
  {
  }

  /** A command starts only after the run record was read as not blocking and the run was begun,
      and while the granted lock has been neither released nor handed over. */
  lemma CommandsAreGuarded(es: seq<Event>, i: nat)
    requires ControlAfter(es).Some? && i < |es| && es[i].CommandStarted?
    ensures WasChecked(es[..i]) && RunBegun(false) in es[..i]
    ensures Grants(es[..i]) == 1 && Releases(es[..i]) == 0 && HandOvers(es[..i]) == 0
  {
    PrefixIsPath(es, i + 1);
    var front := es[..i];
    LastCall(es[..i + 1]);
    assert es[..i + 1][..i] == front;
    StartsWhenReady(ControlAfter(front).value, es[i].command);
    hide ControlAfter, After;
    CheckedAndBegun(front);
    LockBalance(front);
  }

  /** An attempt to record reconciliation_required, whether or not the store wrote it. */
  predicate IsReconciliation(e: Event) {
    e.RunFinished? && e.status == ReconciliationRequired
  }

  ghost predicate Reconciled(es: seq<Event>) {
    exists e :: e in es && IsReconciliation(e)
  }

  ghost predicate StoredReconciliation(es: seq<Event>) {
    exists e :: e in es && IsReconciliation(e) && e.wrote
  }

  /** Only a late runner, or the watcher that took it over, has its run reconciled. */
  predicate IsLate(c: Control) {
    c.phase == Late || c.phase == LateDone || c.phase.Orphan? || (c.phase == Done && c.watched)
  }

  predicate LateIsWatched(c: Control) {
    && (c.recorded && !c.watched ==> c.phase == Late)
    && (c.phase == LateDone || c.phase.Orphan? || (c.phase == Late && c.renewing) ==> c.watched)
  }

  lemma ReconcileStep(c: Control, e: Event)
    requires After(c, e).Some? && LateIsWatched(c)
    ensures var d := After(c, e).value;
      && LateIsWatched(d)
      && (IsReconciliation(e) || IsLate(c) ==> IsLate(d))
      && (d.recorded || d.watched ==> IsReconciliation(e) || c.recorded || c.watched)
  {
  }

  lemma {:induction false} ReconciledOnlyWhenLate(es: seq<Event>)
    requires ControlAfter(es).Some?
    ensures var c := ControlAfter(es).value;
      LateIsWatched(c) && (Reconciled(es) ==> IsLate(c)) && (c.recorded || c.watched ==> Reconciled(es))
  {
    if es != [] {
      LastCall(es);
      ReconciledOnlyWhenLate(es[..|es| - 1]);
      ReconcileStep(ControlAfter(es[..|es| - 1]).value, es[|es| - 1]);
      hide ControlAfter, After, LateIsWatched, IsLate, IsReconciliation;
    }
  }

  /** The lock is handed over exactly when recording reconciliation_required is attempted. */
  lemma HandOverIffReconciliation(es: seq<Event>)
    requires ControlAfter(es).Some? && Settled(ControlAfter(es).value)
    ensures HandOvers(es) == 1 <==> Reconciled(es)
  {
    hide ControlAfter, Reconciled;
    LockBalance(es);
    ReconciledOnlyWhenLate(es);
  }

  /** It is stored for the run exactly when the lock is handed over and the attempt did not fail. */
  lemma StoredIffHandedOverAndWritten(es: seq<Event>)
    requires ControlAfter(es).Some? && Settled(ControlAfter(es).value)
    ensures StoredReconciliation(es) <==> HandOvers(es) == 1 && exists e :: e in es && e.RunFinished? && e.wrote
  {
    HandOverIffReconciliation(es);
    LockBalance(es);
    if HandOvers(es) == 1 { OnlyReconciliations(es); }
  }

  lemma NotFinishedThenLate(c: Control, e: Event)
    requires After(c, e).Some? && PastFinish(c)
    ensures PastFinish(After(c, e).value)
  {
  }

  /** The run has its ordinary outcome: only the release is left. */
  predicate PastFinish(c: Control) {
    !c.watched && (c.phase == Exiting || c.phase == Done)
  }

  lemma FinishStep(c: Control, e: Event)
    requires After(c, e).Some? && e.RunFinished? && !IsReconciliation(e)
    ensures After(c, e).value.phase == Exiting && After(c, e).value.watched == c.watched
    ensures !(c.watched && WatchedPhase(c.phase))
  {
  }

  /** Where a lock was handed over, every attempted outcome is reconciliation_required. */
  lemma {:induction false} OnlyReconciliations(es: seq<Event>)
    requires ControlAfter(es).Some?
    ensures PastFinish(ControlAfter(es).value) || forall e :: e in es && e.RunFinished? ==> IsReconciliation(e)
  {
    if es != [] {
      LastCall(es);
      OnlyReconciliations(es[..|es| - 1]);
      LockBalance(es[..|es| - 1]);
      var c, e := ControlAfter(es[..|es| - 1]).value, es[|es| - 1];
      if PastFinish(c) {
        NotFinishedThenLate(c, e);
      } else if e.RunFinished? && !IsReconciliation(e) {
        FinishStep(c, e);
      }
      hide ControlAfter, After;
    }
  }

  /** An attempt to record how the run ended. */
  ghost predicate HasOutcome(es: seq<Event>) {
    exists e :: e in es && e.RunFinished?
  }

  lemma OutcomeStep(c: Control, e: Event)
    requires After(c, e).Some? && (PastBegin(c.phase) || e == RunBegun(false)) && LateIsWatched(c)
    ensures PastBegin(After(c, e).value.phase) || e.RunFinished? || c.recorded
  {
  }

  lemma {:induction false} FinishedOrInProgress(es: seq<Event>)
    requires ControlAfter(es).Some? && RunBegun(false) in es
    ensures PastBegin(ControlAfter(es).value.phase) || HasOutcome(es)
  {
    var front := es[..|es| - 1];
    LastCall(es);
    var c := ControlAfter(front).value;
    hide ControlAfter, After, PastBegin;
    ReconciledOnlyWhenLate(front);
    if RunBegun(false) in front { FinishedOrInProgress(front); }
    if PastBegin(c.phase) || es[|es| - 1] == RunBegun(false) {
      OutcomeStep(c, es[|es| - 1]);
    }
  }

  /** For a run that was begun, recording an outcome is attempted before executeItem returns. */
  lemma BegunRunIsFinished(es: seq<Event>)
    requires ControlAfter(es).Some? && Settled(ControlAfter(es).value) && RunBegun(false) in es
    ensures HasOutcome(es)
  {
    hide ControlAfter;
    FinishedOrInProgress(es);
    ReconciledOnlyWhenLate(es);
  }

  lemma ReleasedByWatcher(c: Control, lock: LifecycleLock)
    requires After(c, LockReleased(lock)).Some? && c.watched && WatchedPhase(c.phase)
    ensures c.phase == LateDone && c.recorded
  {
  }

  /** The watcher releases the lock once, after recording the outcome, or stops without releasing
      it when the lease is lost. */
  lemma WatcherReleasesAtMostOnce(es: seq<Event>)
    requires ControlAfter(es).Some? && ControlAfter(es).value.watched
    ensures Grants(es) == 1 && HandOvers(es) == 1
    ensures Releases(es) == if ControlAfter(es).value.phase == Done then 1 else 0
    ensures forall i :: 0 <= i < |es| && es[i].LockReleased? ==>
              && i == |es| - 1
              && ControlAfter(es[..i]).Some? && ControlAfter(es[..i]).value.phase == LateDone
              && ControlAfter(es[..i]).value.recorded
  {
    hide ControlAfter, After;
    LockBalance(es);
    forall i | 0 <= i < |es| && es[i].LockReleased?
      ensures i == |es| - 1 && ControlAfter(es[..i]).Some? && ControlAfter(es[..i]).value.phase == LateDone
              && ControlAfter(es[..i]).value.recorded
    {
      ReleaseIsLast(es, i);
      LastCall(es);
      LockBalance(es[..i]);
      BalanceStep(ControlAfter(es[..i]).value, es[i]);
      ReleasedByWatcher(ControlAfter(es[..i]).value, es[i].lock);
    }
  }

  lemma OrphanStays(c: Control, e: Event)
    requires After(c, e).Some? && c.phase.Orphan?
    ensures After(c, e).value.phase.Orphan? && Holding(After(c, e).value.phase)
  {
  }

  /** A watcher that lost the lease never releases it. */
  lemma {:induction false} OrphanKeepsTheLock(es: seq<Event>, i: nat)
    requires ControlAfter(es).Some? && i <= |es|
    requires ControlAfter(es[..i]).Some? && ControlAfter(es[..i]).value.phase.Orphan?
    ensures ControlAfter(es).value.phase.Orphan? && Releases(es) == 0
  {
    hide ControlAfter, After;
    if i == |es| {
      assert es[..i] == es;
    } else {
      assert es[..|es| - 1][..i] == es[..i];
      LastCall(es);
      OrphanKeepsTheLock(es[..|es| - 1], i);
      OrphanStays(ControlAfter(es[..|es| - 1]).value, es[|es| - 1]);
    }
    LockBalance(es);
  }
}
