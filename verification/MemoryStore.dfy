/** MemoryLifecycleStore: locks, runs, steps and states under one mutex. Each
    method body is one critical section; 'now' is the clock value read before it. */
module MemoryStore {
  import opened Outcomes
  import opened LeaseTable
  import opened LifecycleTypes

  datatype LockRequest = LockRequest(key: string, owner: string, runKey: RunKey, ttl: int)

  datatype RunRecord = RunRecord(idempotencyKey: string, moduleId: string, status: Status, error: string, finished: int)

  const NoRun := RunRecord("", "", Unset, "", 0)

  datatype StepRecord = StepRecord(
    attemptKey: string,
    command: string,
    status: Status,
    output: string,
    error: string,
    started: Option<int>,
    finished: Option<int>
  )

  function LockRows(locks: map<string, LifecycleLock>): map<string, Row> {
    map k | k in locks :: Row(locks[k].owner, locks[k].runKey, Some(locks[k].expiresAt))
  }

  function MergeStep(recorded: StepRecord, step: StepRecord): StepRecord {
    recorded.(started := if step.started.Some? then step.started else recorded.started,
          finished := if step.finished.Some? then step.finished else recorded.finished,
          status := step.status, output := step.output, error := step.error)
  }

  /** The position of the first record of an attempt, or the length of the log. */
  function AttemptPosition(steps: seq<StepRecord>, attemptKey: string, from: nat := 0): (p: nat)
    requires from <= |steps|
    ensures from <= p <= |steps|
    ensures p < |steps| ==> steps[p].attemptKey == attemptKey
    ensures forall i :: from <= i < p ==> steps[i].attemptKey != attemptKey
    decreases |steps| - from
  {
    if from == |steps| || steps[from].attemptKey == attemptKey then from
    else AttemptPosition(steps, attemptKey, from + 1)
  }

  function RecordedSteps(steps: seq<StepRecord>, step: StepRecord): seq<StepRecord> {
    var p := AttemptPosition(steps, step.attemptKey);
    if p < |steps| then steps[p := MergeStep(steps[p], step)] else steps + [step]
  }

  ghost predicate UniqueAttempts(steps: seq<StepRecord>) {
    forall i, j :: 0 <= i < j < |steps| ==> steps[i].attemptKey != steps[j].attemptKey
  }

  ghost predicate HasAttempt(steps: seq<StepRecord>, attemptKey: string) {
    exists i :: 0 <= i < |steps| && steps[i].attemptKey == attemptKey
  }

  /** An attempt's record after another report of it: the report's outcome, and its times where it has them. */
  ghost predicate IsMerged(after: StepRecord, before: StepRecord, step: StepRecord) {
    && after.attemptKey == before.attemptKey && after.command == before.command
    && after.status == step.status && after.output == step.output && after.error == step.error
    && (if step.started == None then after.started == before.started else after.started == step.started)
    && (if step.finished == None then after.finished == before.finished else after.finished == step.finished)
  }

  /** The step log keeps one record per attempt: recording an attempt touches only
      that attempt's record, never loses one, and grows the log exactly when the attempt is new. */
  lemma RecordingKeepsAttemptsUnique(steps: seq<StepRecord>, step: StepRecord)
    requires UniqueAttempts(steps)
    ensures var after := RecordedSteps(steps, step);
      && UniqueAttempts(after)
      && |after| == |steps| + (if HasAttempt(steps, step.attemptKey) then 0 else 1)
      && HasAttempt(after, step.attemptKey)
      && (forall i :: 0 <= i < |steps| && steps[i].attemptKey != step.attemptKey ==> after[i] == steps[i])
      && (forall i :: 0 <= i < |steps| && steps[i].attemptKey == step.attemptKey ==>
          IsMerged(after[i], steps[i], step))
      && (!HasAttempt(steps, step.attemptKey) ==> after[|steps|] == step)
  {
    var p, after := AttemptPosition(steps, step.attemptKey), RecordedSteps(steps, step);
    assert after[p].attemptKey == step.attemptKey;
    assert p < |steps| ==> HasAttempt(steps, step.attemptKey);
  }

  class MemoryLifecycleStore {
    var locks: map<string, LifecycleLock>
    var runs: map<string, RunRecord>
    var steps: seq<StepRecord>

    /** Every stored lock sits under its own key and is marked acquired. */
    ghost predicate Valid()
      reads this
    {
      && (forall k :: k in locks ==> locks[k].key == k && locks[k].acquired)
      && UniqueAttempts(steps)
    }

    constructor ()
      ensures Valid() && locks == map[] && runs == map[] && steps == []
    {
      locks, runs, steps := map[], map[], [];
    }

    method Acquire(now: int, request: LockRequest) returns (r: Result<LifecycleLock, Error>)
      requires Valid()
      modifies this`locks
      ensures Valid()
      ensures r.Err? <==> request.key == "" || request.owner == ""
      ensures r.Err? ==> locks == old(locks)
      ensures r.Ok? ==>
                && LockRows(locks) == AcquireRows(old(LockRows(locks)), request.key, request.owner, request.runKey,
                                                  request.ttl, now)
                && r.value.key == request.key
                && (r.value.acquired <==> Free(old(LockRows(locks)), request.key, now))
                && request.key in locks
                && r.value.(acquired := true) == locks[request.key]
      ensures r.Ok? && r.value.acquired ==>
                && r.value.owner == request.owner && r.value.runKey == request.runKey
                && r.value.expiresAt == now + if request.ttl <= 0 then 60_000_000_000 else request.ttl
    {
      if request.key == "" || request.owner == "" {
        return Err(Plain("module lifecycle lock key and owner are required"));
      }
      var ttl := if request.ttl <= 0 then MINUTE else request.ttl;
      if request.key in locks && now < locks[request.key].expiresAt {
        var current := locks[request.key];
        return Ok(LifecycleLock(request.key, current.owner, current.runKey, false, current.expiresAt));
      }
      var lock := LifecycleLock(request.key, request.owner, request.runKey, true, now + ttl);
      locks := locks[request.key := lock];
      return Ok(lock);
    }

    /** On success the lock handed back is still marked acquired: the renewal loop depends on it. */
    method Renew(now: int, lock: LifecycleLock, requestTtl: int) returns (r: Result<LifecycleLock, Error>)
      requires Valid()
      modifies this`locks
      ensures Valid()
      ensures r.Ok? <==> lock.acquired && Holds(old(LockRows(locks)), lock.key, lock.owner, lock.runKey)
      ensures r.Ok? ==> r.value == lock.(expiresAt := now + EffectiveTtl(requestTtl)) && r.value.acquired
      ensures LockRows(locks) ==
              if lock.acquired then RenewRows(old(LockRows(locks)), lock.key, lock.owner, lock.runKey, requestTtl, now)
              else old(LockRows(locks))
    {
      if !lock.acquired {
        return Err(Plain("module lifecycle lock is not acquired"));
      }
      var ttl := if requestTtl <= 0 then MINUTE else requestTtl;
      if lock.key !in locks || locks[lock.key].owner != lock.owner || locks[lock.key].runKey != lock.runKey {
        return Err(Plain("module lifecycle lock lost: " + lock.key));
      }
      var renewed := lock.(expiresAt := now + ttl);
      locks := locks[lock.key := renewed];
      return Ok(renewed);
    }

    method Release(lock: LifecycleLock)
      requires Valid()
      modifies this`locks
      ensures Valid()
      ensures LockRows(locks) ==
              if lock.acquired then ReleaseRows(old(LockRows(locks)), lock.key, lock.owner, lock.runKey)
              else old(LockRows(locks))
    {
      if !lock.acquired {
        return;
      }
      if lock.key in locks && locks[lock.key].owner == lock.owner && locks[lock.key].runKey == lock.runKey {
        locks := locks - {lock.key};
      }
    }

    method SuccessfulRunExists(key: string) returns (found: bool)
      ensures found <==> key in runs && runs[key].status in {Succeeded, ReconciliationRequired}
    {
      found := key in runs && BlocksAutomaticRetry(runs[key].status);
    }

    /** Unlike the database store, this one also restarts a run recorded as succeeded. */
    method BeginRun(run: RunRecord)
      modifies this`runs
      ensures runs == old(runs)[run.idempotencyKey := run.(status := Running)]
    {
      runs := runs[run.idempotencyKey := run.(status := Running)];
    }

    /** Completing a run that was never begun creates a record with only the completion's fields. */
    method CompleteRun(key: string, status: Status, error: string, finished: int)
      modifies this`runs
      ensures runs.Keys == old(runs).Keys + {key}
      ensures runs[key].status == status && runs[key].error == error && runs[key].finished == finished
      ensures runs[key].moduleId == if key in old(runs) then old(runs)[key].moduleId else ""
      ensures runs[key].idempotencyKey == if key in old(runs) then old(runs)[key].idempotencyKey else ""
      ensures forall k :: k in old(runs) && k != key ==> runs[k] == old(runs)[k]
    {
      var run := if key in runs then runs[key] else NoRun;
      runs := runs[key := run.(status := status, error := error, finished := finished)];
    }

    method RecordStep(step: StepRecord)
      requires Valid()
      modifies this`steps
      ensures Valid()
      ensures steps == RecordedSteps(old(steps), step)
      ensures forall i :: 0 <= i < |old(steps)| ==>
                if old(steps)[i].attemptKey == step.attemptKey then IsMerged(steps[i], old(steps)[i], step)
                else steps[i] == old(steps)[i]
      ensures |steps| == |old(steps)| || steps == old(steps) + [step]
    {
      RecordingKeepsAttemptsUnique(steps, step);
      var index := 0;
      while index < |steps|
        invariant 0 <= index <= |steps| && steps == old(steps)
        invariant AttemptPosition(steps, step.attemptKey) == AttemptPosition(steps, step.attemptKey, index)
      {
        if steps[index].attemptKey == step.attemptKey {
          steps := steps[index := MergeStep(steps[index], step)];
          return;
        }
        index := index + 1;
      }
      steps := steps + [step];
    }
  }
}
