/** Values shared by the lifecycle executor, its stores and its protocols. */
module LifecycleTypes {
  import opened Outcomes
  import opened LeaseTable

  datatype Status =
    | Unset
    | Planned
    | Running
    | Succeeded
    | Failed
    | Skipped
    | LockBlocked
    | ManualRequired
    | ReconciliationRequired

  /** A recorded run in one of these states is never retried automatically. */
  predicate BlocksAutomaticRetry(status: Status) {
    status == Succeeded || status == ReconciliationRequired
  }

  datatype LifecycleLock = LifecycleLock(key: string, owner: string, runKey: RunKey, acquired: bool, expiresAt: int)

  const NoLock := LifecycleLock("", "", "", false, 0)

  /** Errors as far as the executor looks into them: StillRunning wraps its cause
      and carries the late runner's lock, Joined is errors.Join of two errors. */
  datatype Error =
    | Plain(text: string)
    | Manual(command: string)
    | StillRunning(cause: Error, late: LifecycleLock)
    | Joined(left: Error, right: Error)

  /** errors.As for the still-running error: the first one on a left-to-right walk. */
  function LateRunner(e: Error): Option<LifecycleLock> {
    match e
    case Plain(_) => None
    case Manual(_) => None
    case StillRunning(_, late) => Some(late)
    case Joined(left, right) =>
      var l := LateRunner(left);
      if l.Some? then l else LateRunner(right)
  }

  predicate MayStillBeRunning(e: Error) {
    LateRunner(e).Some?
  }

  predicate IsManual(e: Error) {
    match e
    case Plain(_) => false
    case Manual(_) => true
    case StillRunning(cause, _) => IsManual(cause)
    case Joined(left, right) => IsManual(left) || IsManual(right)
  }

  function ErrorStatus(e: Error): Status {
    if MayStillBeRunning(e) then ReconciliationRequired
    else if IsManual(e) then ManualRequired
    else Failed
  }

  /** An error found on the way down from another one, the error itself included. */
  ghost predicate Within(part: Error, e: Error) {
    || part == e
    || (e.StillRunning? && Within(part, e.cause))
    || (e.Joined? && (Within(part, e.left) || Within(part, e.right)))
  }

  ghost predicate HasStillRunning(e: Error) {
    exists part :: Within(part, e) && part.StillRunning?
  }

  ghost predicate HasManual(e: Error) {
    exists part :: Within(part, e) && part.Manual?
  }

  /** A late runner anywhere needs reconciliation, else a manual step anywhere an operator; every other error fails. */
  lemma {:induction false} ErrorStatusMeaning(e: Error)
    ensures ErrorStatus(e) == ReconciliationRequired <==> HasStillRunning(e)
    ensures ErrorStatus(e) == ManualRequired <==> HasManual(e) && !HasStillRunning(e)
    ensures ErrorStatus(e) == Failed <==> !HasManual(e) && !HasStillRunning(e)
    ensures LateRunner(e).Some? ==>
              exists part :: Within(part, e) && part.StillRunning? && part.late == LateRunner(e).value
  {
    match e
    case Plain(_) =>
    case Manual(_) => assert Within(e, e);
    case StillRunning(cause, _) =>
      assert Within(e, e);
    case Joined(left, right) =>
      ErrorStatusMeaning(left);
      ErrorStatusMeaning(right);
      WithinJoined(left, right);
  }

  lemma WithinJoined(left: Error, right: Error)
    ensures HasStillRunning(Joined(left, right)) <==> HasStillRunning(left) || HasStillRunning(right)
    ensures HasManual(Joined(left, right)) <==> HasManual(left) || HasManual(right)
    ensures forall part :: Within(part, left) || Within(part, right) ==> Within(part, Joined(left, right))
  {
    var e := Joined(left, right);
    assert forall part :: Within(part, left) || Within(part, right) ==> Within(part, e);
    assert forall part :: Within(part, e) && part != e ==> Within(part, left) || Within(part, right);
  }
}
