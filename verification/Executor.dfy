/** lifecycleExecutor: one plan item under a lease, and the watcher for a runner that will not
    stop. Stores, runner and gate may answer anything they are allowed to; every call is
    logged, and the methods are proved against the courses of ItemCourse. */
module Executor {
  import opened Outcomes
  import opened LifecycleTypes
  import ExecutionProtocol
  import RenewalChannel
  import opened ExecutorPath
  import opened CommandPolicy
  import opened CommandTrace
  import opened ItemCourse
  import opened Planner

  datatype ResultItem = ResultItem(moduleId: string, action: string, status: Status, skipped: bool, error: string,
                                   idempotencyKey: string)

  function ErrorText(e: Error): string {
    match e
    case Plain(text) => text
    case Manual(command) => "manual lifecycle step requires operator action: " + command
    case StillRunning(cause, _) => ErrorText(cause)
    case Joined(left, right) => ErrorText(left) + "\n" + ErrorText(right)
  }

  function ResultOf(item: PlanItem): ResultItem {
    ResultItem(item.state.id, item.action, Unset, false, "", item.idempotencyKey)
  }

  function FailedItem(item: ResultItem, err: Error): ResultItem {
    item.(status := Failed, error := ErrorText(err))
  }

  /** errors.Join: a missing error drops out, and for errors.As a single joined error is itself. */
  function JoinErrors(left: Option<Error>, right: Option<Error>): (joined: Option<Error>)
    ensures joined.None? <==> left.None? && right.None?
    ensures left.Some? ==> Within(left.value, joined.value)
    ensures right.Some? ==> Within(right.value, joined.value)
  {
    if left.None? then right else if right.None? then left else Some(Joined(left.value, right.value))
  }

  // --- what an item answers ---------------------------------------------------------------------------

  ghost predicate IsBlocked(es: seq<Event>) {
    es != [] && es[0].LockHeldBy?
  }

  /** The run record was read and bars the run. */
  ghost predicate IsBarred(es: seq<Event>) {
    |es| > 1 && es[1].RunRead? && es[1].found && !es[1].failed
  }

  /** The item went on to the gate. */
  ghost predicate IsCleared(es: seq<Event>) {
    |es| > 1 && es[1] == RunRead(false, false, true)
  }

  /** What executeItem answers, read off its calls and its error: blocked exactly when the lock manager named
      a holder, skipped exactly when the run record bars the run, succeeded on every other end without an
      error, and otherwise the status of the error. */
  ghost predicate IsAnswerFor(item: PlanItem, es: seq<Event>, result: ResultItem, err: Option<Error>) {
    && result.moduleId == item.state.id && result.action == item.action && result.idempotencyKey == item.idempotencyKey
    && result.error == (if err.Some? then ErrorText(err.value) else "")
    && (result.skipped <==> result.status == LockBlocked || result.status == Skipped)
    && (result.status == LockBlocked <==> IsBlocked(es))
    && (IsBlocked(es) ==> err == Some(Plain("module lifecycle lock held by " + es[0].holder)))
    && (err.None? ==> result.status == if IsBarred(es) then Skipped else Succeeded)
    && (err.Some? && !IsBlocked(es) ==>
          result.status == if item.state.id == "" && IsCleared(es) then Failed else ErrorStatus(err.value))
  }

  /** The same for the calls made under the lock. */
  ghost predicate IsHeldAnswer(item: PlanItem, held: seq<Event>, result: ResultItem, err: Option<Error>) {
    && held != []
    && if err.Some? then
         result == if item.state.id == "" && held[0] == RunRead(false, false, true)
                   then FailedItem(ResultOf(item), err.value) else Failure(ResultOf(item), err.value).item
       else if held[0].RunRead? && held[0].found && !held[0].failed
       then result == ResultOf(item).(status := Skipped, skipped := true)
       else result == Success(ResultOf(item))
  }

  lemma HeldAnswer(item: PlanItem, lock: LifecycleLock, held: seq<Event>, release: seq<Event>, result: ResultItem,
                   err: Option<Error>)
    requires IsHeldAnswer(item, held, result, err)
    ensures IsAnswerFor(item, [LockGranted(lock)] + held + release, result, err)
  {
    hide ErrorText, MayStillBeRunning, IsManual;
    var es := [LockGranted(lock)] + held + release;
    assert es[0] == LockGranted(lock) && es[1] == held[0];
  }

  /** An item that went to the gate. */
  lemma GatedAnswer(item: PlanItem, held: seq<Event>, result: ResultItem, err: Option<Error>)
    requires held != [] && held[0] == RunRead(false, false, true)
    requires err.Some? ==> result == if item.state.id == "" then FailedItem(ResultOf(item), err.value)
                                     else Failure(ResultOf(item), err.value).item
    requires err.None? ==> result == Success(ResultOf(item))
    ensures IsHeldAnswer(item, held, result, err) && (result.status == Succeeded <==> err.None?)
  {
  }

  /** The answer without a lock. */
  lemma GrantedItem(item: PlanItem, seen: set<string>, lock: LifecycleLock, held: seq<Event>, n: nat,
                    result: ResultItem, err: Option<Error>)
    requires lock.acquired && lock.key == ExecutionProtocol.LockKey(item.state.id)
    requires HeldRuns(item, seen, lock, held, n, err) && IsHeldAnswer(item, held, result, err)
    ensures var es := [LockGranted(lock)] + held + ReleaseCalls(lock, err);
      es[0] == LockGranted(lock) && ItemRuns(item, seen, es, n, err) && IsAnswerFor(item, es, result, err)
  {
    hide HeldRuns, IsHeldAnswer, IsAnswerFor, ReleaseCalls;
    HeldAnswer(item, lock, held, ReleaseCalls(lock, err), result, err);
    assert IsHeld(item, seen, lock, held, [LockGranted(lock)] + held + ReleaseCalls(lock, err), n, err);
  }

  lemma NotGranted(item: PlanItem, seen: set<string>, e: Event, result: ResultItem, err: Option<Error>, asks: bool)
    requires err.Some? && err.value.Plain? && (e == LockFailed || e.LockHeldBy?)
    requires e == LockFailed ==> result == FailedItem(ResultOf(item), err.value)
    requires e.LockHeldBy? ==>
               && err.value.text == "module lifecycle lock held by " + e.holder
               && result == ResultOf(item).(status := LockBlocked, skipped := true, error := err.value.text)
    ensures ItemRuns(item, seen, [e], 0, err) && IsAnswerFor(item, [e], result, err) && GateKept([e], asks)
    ensures result.status == Failed || result.status == LockBlocked
  {
  }

  /** An item that stops under the lock before its mutation. */
  lemma EarlyAnswer(item: PlanItem, held: seq<Event>, result: ResultItem, err: Option<Error>)
    requires StopsEarly(item, held, err)
    requires err.Some? ==> result == Failure(ResultOf(item), err.value).item
    requires err.None? ==> result == ResultOf(item).(status := Skipped, skipped := true)
    ensures IsHeldAnswer(item, held, result, err) && result.status != Succeeded
  {
    hide ItemIsRunnable;
  }

  // --- lifecycleStateMachine ------------------------------------------------------------------------

  datatype FailureTransition = FailureTransition(item: ResultItem, retainLock: bool, watchLateRunner: bool)

  function Failure(item: ResultItem, err: Error): FailureTransition {
    FailureTransition(item.(status := ErrorStatus(err), error := ErrorText(err)), MayStillBeRunning(err),
                      MayStillBeRunning(err))
  }

  /** A store's own error fails the item. */
  lemma PlainFails(item: ResultItem, err: Error)
    requires err.Plain?
    ensures Failure(item, err).item == FailedItem(item, err)
  {
  }

  function Success(item: ResultItem): ResultItem {
    item.(status := Succeeded, error := "")
  }

  function StepStatus(err: Option<Error>): Status {
    if err.Some? then ErrorStatus(err.value) else Succeeded
  }

  function ReconciliationCalls(stepName: string, command: string, wrote: bool): seq<Event> {
    [StepRecorded(stepName, command, ReconciliationRequired), RunFinished(ReconciliationRequired, wrote),
     StateWritten(ReconciliationRequired)]
  }

  function CompletionCalls(late: LifecycleLock, stepName: string, command: string, wrote: bool): seq<Event> {
    [LateRunnerEnded] + ReconciliationCalls(stepName, command, wrote) + [LockReleased(late)]
  }

  function LossCalls(stepName: string, command: string, wrote: bool): seq<Event> {
    [RenewalStarted, RenewalAnswered(false)] + ReconciliationCalls(stepName, command, wrote)
  }

  function NotStopped(): Error {
    Plain("module lifecycle command cancellation did not stop runner")
  }

  /** What runCommandWithRenewal hands back: its error and whether the runner returned without one. */
  datatype CommandOutput = CommandOutput(output: string, ran: bool, err: Option<Error>)

  /** The output is an answer the two goroutines and their channels can give (see RenewalChannel). */
  ghost predicate IsAnswer(output: CommandOutput, lock: LifecycleLock) {
    exists run, renew, ctx: Option<RenewalChannel.Cause> :: AnswersWith(output, lock, run, renew, ctx)
  }

  predicate AnswersWith(output: CommandOutput, lock: LifecycleLock, run: RenewalChannel.Fault,
                        renew: RenewalChannel.Fault, ctx: Option<RenewalChannel.Cause>) {
    && renew != RenewalChannel.Nil
    && if output.err.Some? && MayStillBeRunning(output.err.value) then
         LateRunner(output.err.value) == Some(lock)
       else
         var result := RenewalChannel.ResultError(run, renew, ctx);
         output.ran == (run == RenewalChannel.Nil) && output.err.None? == (result == RenewalChannel.Nil)
  }

  lemma AnswerFrom(output: CommandOutput, lock: LifecycleLock, run: RenewalChannel.Fault, renew: RenewalChannel.Fault,
                   ctx: Option<RenewalChannel.Cause>)
    requires AnswersWith(output, lock, run, renew, ctx)
    ensures IsAnswer(output, lock)
  {
  }

  /** The output reports the outcome of a call: the error it made of it, or that its runner is late. */
  predicate Reports(output: CommandOutput, lock: LifecycleLock, outcome: RenewalChannel.Outcome,
                    runner: RenewalChannel.Runner) {
    match outcome
    case StillRunning => output.err.Some? && LateRunner(output.err.value) == Some(lock)
    case Finished(err) =>
      && (output.err.Some? ==> !MayStillBeRunning(output.err.value))
      && (output.err.None? <==> err == RenewalChannel.Nil)
      && (runner.Taken? ==> output.ran == (runner.err == RenewalChannel.Nil))
  }

  /** Every call that returns, in every interleaving of its two goroutines, gives such an answer. */
  lemma ReturnedCallAnswers(run: seq<RenewalChannel.State>, i: nat, output: CommandOutput, lock: LifecycleLock)
    requires RenewalChannel.IsRun(run, true) && i < |run| && run[i].caller.Returned?
    requires Reports(output, lock, run[i].caller.outcome, run[i].runner)
    ensures IsAnswer(output, lock)
  {
    hide RenewalChannel.IsRun, RenewalChannel.ResultError;
    RenewalChannel.OutcomeOfCall(run, i);
    AnswerFrom(output, lock, if run[i].runner.Taken? then run[i].runner.err else RenewalChannel.Nil, run[i].received[0],
               run[i].caller.ctxSeen);
  }

  lemma JoinedStatus(e: Error, recordErr: Error)
    requires recordErr.Plain?
    ensures LateRunner(Joined(e, recordErr)) == LateRunner(e) && ErrorStatus(Joined(e, recordErr)) == ErrorStatus(e)
  {
    assert LateRunner(recordErr).None? && !IsManual(recordErr);
  }

  /** The calls of one answered command. */
  function AnswerCalls(command: string, output: CommandOutput): seq<Event> {
    [CommandStarted(command),
     if output.err.Some? && MayStillBeRunning(output.err.value) then CommandGivenUp(command)
       else CommandEnded(command, output.ran, output.err.None?)]
  }

  /** A nil result means that the runner returned nil. */
  lemma NilMeansRan(output: CommandOutput, lock: LifecycleLock)
    requires IsAnswer(output, lock) && output.err.None?
    ensures output.ran
  {
  }

  /** What the watcher of a late runner sees next. */
  datatype WatchSignal = RunnerDone | Tick

  /** The watcher's calls: renewals, then either the late completion and the release, or the lost lease. */
  ghost predicate WatchRuns(es: seq<Event>, late: LifecycleLock, stepName: string, command: string,
                            signals: seq<WatchSignal>) {
    if signals == [] then es == []
    else if signals[0] == RunnerDone then
      exists wrote :: es == CompletionCalls(late, stepName, command, wrote)
    else
      || (exists wrote :: es == LossCalls(stepName, command, wrote))
      || ([RenewalStarted, RenewalAnswered(true)] <= es && WatchRuns(es[2..], late, stepName, command, signals[1..]))
  }

  class LifecycleExecutor {
    const gated: bool               // the security gate has a callback
    var gatePassed: bool
    var executedCommands: set<string>
    ghost var events: seq<Event>    // the calls made for the current item

    constructor (gated: bool)
      ensures this.gated == gated && !gatePassed && executedCommands == {} && events == []
    {
      this.gated := gated;
      gatePassed, executedCommands, events := false, {}, [];
    }

    // --- the answers of stores and runner -------------------------------------------------------------

    static method StoreAnswer() returns (err: Option<Error>)
      ensures err.Some? ==> err.value.Plain?
    {
      if * {
        return None;
      }
      var text: string := *;
      return Some(Plain(text));
    }

    method RecordStep(stepName: string, command: string, status: Status) returns (err: Option<Error>)
      modifies `events
      ensures events == old(events) + [StepRecorded(stepName, command, status)]
      ensures err.Some? ==> err.value.Plain?
    {
      err := StoreAnswer();
      events := events + [StepRecorded(stepName, command, status)];
    }

    method UpsertState(status: Status) returns (err: Option<Error>)
      modifies `events
      ensures events == old(events) + [StateWritten(status)]
      ensures err.Some? ==> err.value.Plain?
    {
      err := StoreAnswer();
      events := events + [StateWritten(status)];
    }

    method BeginRun() returns (err: Option<Error>)
      modifies `events
      ensures events == old(events) + [RunBegun(err.Some?)]
      ensures err.Some? ==> err.value.Plain?
    {
      err := StoreAnswer();
      events := events + [RunBegun(err.Some?)];
    }

    method FinishRun(status: Status) returns (err: Option<Error>)
      modifies `events
      ensures events == old(events) + [RunFinished(status, err.None?)]
      ensures err.Some? ==> err.value.Plain?
    {
      err := StoreAnswer();
      events := events + [RunFinished(status, err.None?)];
    }

    /** Both stores hand back the same lease, still acquired, with a new expiry. Whether they do is
        their answer; MemoryStore and DbStore say when. */
    method Renew(lock: LifecycleLock) returns (r: Result<LifecycleLock, Error>)
      requires lock.acquired
      modifies `events
      ensures events == old(events) + [RenewalStarted, RenewalAnswered(r.Ok?)]
      ensures r.Ok? ==> SameLease(r.value, lock)
      ensures r.Err? ==> r.error.Plain?
    {
      if * {
        var expiresAt: int := *;
        r := Ok(lock.(expiresAt := expiresAt));
      } else {
        var text: string := *;
        r := Err(Plain(text));
      }
      events := events + [RenewalStarted, RenewalAnswered(r.Ok?)];
    }

    /** Any error but a still-running one, which neither runner nor renewal makes. */
    static method CommandError() returns (err: Error)
      ensures !MayStillBeRunning(err)
    {
      err := *;
      if MayStillBeRunning(err) {
        err := NotStopped();
      }
    }

    /** The command runs while a second goroutine renews the lease. How runner, renewal and context
        end is open; the answer is what RenewalChannel shows the call to make of it. */
    method RunCommandWithRenewal(lock: LifecycleLock, command: string) returns (output: CommandOutput)
      modifies `events
      ensures IsAnswer(output, lock)
      ensures events == old(events) + AnswerCalls(command, output)
    {
      var text: string := *;
      var run, renew: RenewalChannel.Fault := *, *;
      var ctx: Option<RenewalChannel.Cause> := *;
      if renew == RenewalChannel.Nil {
        renew := RenewalChannel.Fault({RenewalChannel.Canceled});
      }
      var err := CommandError();
      if * {
        var result := RenewalChannel.ResultError(run, renew, ctx);
        output := CommandOutput(text, run == RenewalChannel.Nil,
                                if result == RenewalChannel.Nil then None else Some(err));
      } else {
        output := CommandOutput(text, false, Some(StillRunning(err, lock)));
      }
      AnswerFrom(output, lock, run, renew, ctx);
      events := events + AnswerCalls(command, output);
    }

    // --- one command --------------------------------------------------------------------------------------

    method StartCommandAttempt(lock: LifecycleLock, stepName: string, command: string)
      returns (r: Result<LifecycleLock, Error>)
      requires lock.acquired
      modifies `events
      ensures r.Ok? ==>
                && SameLease(r.value, lock) && ValidateCommand(command).None?
                && events == old(events) + [StepRecorded(stepName, command, Running), RenewalStarted,
                                            RenewalAnswered(true)]
      ensures r.Err? ==>
              exists calls :: events == old(events) + calls && CommandFails(stepName, command, lock, r.error, calls)
    {
      hide ValidateCommand;
      var invalid := ValidateCommand(command);
      ghost var before := events;
      if invalid.Some? {
        var _ := RecordStep(stepName, command, ErrorStatus(invalid.value));
        return Err(invalid.value);
      }
      var err := RecordStep(stepName, command, Running);
      if err.Some? {
        return Err(err.value);
      }
      r := Renew(lock);
      assert events == before + [StepRecorded(stepName, command, Running), RenewalStarted, RenewalAnswered(r.Ok?)];
      if r.Err? {
        var _ := RecordStep(stepName, command, Failed);
        assert events == before + [StepRecorded(stepName, command, Running), RenewalStarted, RenewalAnswered(false),
                                   StepRecorded(stepName, command, Failed)];
      }
    }

    /** A failed recording joins the command's own error; it turns a success into a failure. */
    method FinishCommandAttempt(stepName: string, command: string, output: CommandOutput) returns (err: Option<Error>)
      modifies `events
      ensures err.None? ==> output.err.None?
      ensures err.Some? && output.err.Some? ==>
              LateRunner(err.value) == LateRunner(output.err.value)
                && ErrorStatus(err.value) == ErrorStatus(output.err.value)
      ensures err.Some? && output.err.None? ==> err.value.Plain?
      ensures events == old(events) + [StepRecorded(stepName, command, StepStatus(output.err))]
                        + if err.None? then [CommandPassed(command)] else []
    {
      var status := StepStatus(output.err);
      var recordErr := RecordStep(stepName, command, status);
      if recordErr.Some? && output.err.Some? {
        JoinedStatus(output.err.value, recordErr.value);
        return Some(Joined(output.err.value, recordErr.value));
      }
      if recordErr.Some? {
        return recordErr;
      }
      if output.err.None? {
        events := events + [CommandPassed(command)];
      }
      return output.err;
    }

    method RunCommand(lock: LifecycleLock, stepName: string, command: string) returns (err: Option<Error>)
      requires lock.acquired
      modifies `events
      ensures err.None? ==> events == old(events) + PassingCalls(stepName, command)
      ensures err.Some? ==>
              exists calls :: events == old(events) + calls && CommandFails(stepName, command, lock, err.value, calls)
    {
      hide ValidateCommand, IsAnswer, AnswerCalls, StartCalls;
      ghost var before := events;
      var started := StartCommandAttempt(lock, stepName, command);
      if started.Err? {
        return Some(started.error);
      }
      var output := RunCommandWithRenewal(started.value, command);
      err := FinishCommandAttempt(stepName, command, output);
      AttemptCalls(stepName, command, lock, started.value, output, before, events, err);
    }

    /** Run the commands not executed before, up to the first failure. n counts the commands passed
        by: run to success now, or already executed. */
    method RunCommands(lock: LifecycleLock, stepName: string, value: string)
      returns (err: Option<Error>, ghost n: nat, ghost calls: seq<Event>)
      requires lock.acquired
      modifies `events, `executedCommands
      ensures events == old(events) + calls
      ensures GroupRuns(stepName, NormalizedCommands(value), old(executedCommands), lock, calls, n, err)
      ensures n <= |NormalizedCommands(value)|
              && executedCommands == old(executedCommands) + Elements(NormalizedCommands(value)[..n])
    {
      hide GroupRuns, NormalizedCommands, IsNormalized, CommandFails, PassingCalls;
      var commands := NormalizeLifecycleCommands(value);
      n, calls := 0, [];
      NoneRun(stepName, executedCommands, lock);
      assert commands[..0] == [];
      for i := 0 to |commands|
        invariant n == i && events == old(events) + calls
        invariant GroupRuns(stepName, commands[..i], old(executedCommands), lock, calls, i, None)
        invariant executedCommands == old(executedCommands) + Elements(commands[..i])
      {
        OneMoreRuns(stepName, commands, i, old(executedCommands), lock, calls);
        if commands[i] in executedCommands {
          n := n + 1;
          continue;
        }
        ghost var before := events;
        err := RunCommand(lock, stepName, commands[i]);
        if err.Some? {
          ghost var failed :| events == before + failed && CommandFails(stepName, commands[i], lock, err.value, failed);
          ThenFails(stepName, commands, i, old(executedCommands), lock, calls, failed, err.value);
          calls := calls + failed;
          return;
        }
        executedCommands := executedCommands + {commands[i]};
        n, calls := n + 1, calls + PassingCalls(stepName, commands[i]);
      }
      assert commands[..|commands|] == commands;
      err := None;
    }

    // --- outcomes ------------------------------------------------------------------------------------------

    /** The lock stays with a watcher exactly when the runner may still be running, which is exactly
        when the run is to be recorded as needing reconciliation. */
    method FinishFailure(item: ResultItem, err: Error) returns (result: ResultItem, releaseLock: bool)
      modifies `events
      ensures result == item.(status := ErrorStatus(err), error := ErrorText(err))
      ensures releaseLock <==> !MayStillBeRunning(err)
      ensures exists ending :: events == old(events) + ending && Ends(Some(err), ending, Some(err))
    {
      var transition := Failure(item, err);
      releaseLock := !transition.retainLock;
      var recordErr := FinishRun(transition.item.status);
      var _ := UpsertState(transition.item.status);
      if transition.watchLateRunner {
        events := events + [HandedOver(LateRunner(err).value)];
      }
      result := transition.item;
      assert events == old(events) + FailureCalls(err, recordErr.None?);
    }

    method FinishSuccess(item: ResultItem) returns (result: ResultItem, err: Option<Error>)
      modifies `events
      ensures err.Some? ==> err.value.Plain? && result == Failure(item, err.value).item
      ensures err.None? ==> result == Success(item)
      ensures exists ending :: events == old(events) + ending && Ends(None, ending, err)
    {
      result := Success(item);
      err := UpsertState(Succeeded);
      if err.Some? {
        result := FailedItem(result, err.value);
        var recordErr := FinishRun(Failed);
        assert events == old(events) + SuccessCalls(false, recordErr.None?);
        return;
      }
      err := FinishRun(Succeeded);
      assert events == old(events) + SuccessCalls(true, err.None?);
      if err.Some? {
        result := FailedItem(result, err.value);
      }
    }

    /** Commands that may not run: the run is begun and finished without running any. */
    method FailValidation(item: ResultItem, stepName: string, command: string, invalid: Error)
      returns (result: ResultItem, err: Error)
      modifies `events
      ensures result == Failure(item, err).item
      ensures (err.Plain? && events == old(events) + [RunBegun(true)])
              || (err == invalid && exists wrote ::
                  events == old(events) + ValidationCalls(stepName, command, ErrorStatus(invalid), wrote))
    {
      var failed := Failure(item, invalid).item;
      var begun := BeginRun();
      if begun.Some? {
        return FailedItem(failed, begun.value), begun.value;
      }
      var _ := RecordStep(stepName, command, failed.status);
      var recordErr := FinishRun(failed.status);
      var _ := UpsertState(failed.status);
      assert events == old(events) + ValidationCalls(stepName, command, failed.status, recordErr.None?);
      return failed, invalid;
    }

    static method ValidateItemCommands(item: PlanItem) returns (stepName: string, command: string, err: Option<Error>)
      ensures err.None? <==> ItemIsRunnable(item)
      ensures err.Some? ==> command in CommandList(item) && err == ValidateCommand(command)
    {
      hide NormalizedCommands, ValidateCommand;
      command, err := FirstInvalidLifecycleCommand(item.destructiveCheck);
      if err.Some? {
        return "destructive_check", command, err;
      }
      command, err := FirstInvalidLifecycleCommand(item.command);
      return "command", command, err;
    }

    /** Skip a run that is already recorded, refuse commands that may not run, go on otherwise. */
    method PreflightItem(item: PlanItem) returns (result: ResultItem, done: bool, err: Option<Error>)
      modifies `events
      ensures !done ==> err.None? && ItemIsRunnable(item) && events == old(events) + [RunRead(false, false, true)]
      ensures done ==>
              exists calls :: events == old(events) + calls && StopsEarly(item, calls, err) && !StartsCleared(calls)
      ensures err.Some? ==> !MayStillBeRunning(err.value) && result == Failure(ResultOf(item), err.value).item
      ensures !done ==> result == ResultOf(item)
      ensures done && err.None? ==> result == ResultOf(item).(status := Skipped, skipped := true)
    {
      hide CommandList, IsAllowedCommand, IsManualCommand, ItemIsRunnable;
      result, done := ResultOf(item), true;
      ghost var before := events;
      var storeErr := StoreAnswer();
      var found: bool := *;
      var stepName, command, invalid := ValidateItemCommands(item);
      events := events + [RunRead(found, storeErr.Some?, invalid.None?)];
      if storeErr.Some? {
        return FailedItem(result, storeErr.value), true, storeErr;
      }
      if found {
        return result.(status := Skipped, skipped := true), true, None;
      }
      if invalid.Some? {
        var refused: Error;
        result, refused := FailValidation(result, stepName, command, invalid.value);
        RefusalStops(item, stepName, command, invalid.value, before, events, refused);
        return result, true, Some(refused);
      }
      return result, false, None;
    }

    method ExecuteMutation(item: PlanItem, lock: LifecycleLock)
      returns (result: ResultItem, err: Option<Error>, releaseLock: bool, ghost n: nat)
      requires lock.acquired && ItemIsRunnable(item)
      modifies `events, `executedCommands
      ensures n <= |CommandList(item)| && executedCommands == old(executedCommands) + Elements(CommandList(item)[..n])
      ensures exists calls ::
              events == old(events) + calls && MutationCalls(item, old(executedCommands), lock, calls, n, err)
      ensures releaseLock <==> !(err.Some? && MayStillBeRunning(err.value))
      ensures err.Some? ==> result == Failure(ResultOf(item), err.value).item
      ensures err.None? ==> n == |CommandList(item)| && result == Success(ResultOf(item))
    {
      hide NormalizedCommands, MayStillBeRunning, LateRunner, ErrorText, IsManual, GroupRuns, Ends, ItemIsRunnable,
           MutationCalls, MutationRuns;
      result, releaseLock, n := ResultOf(item), true, 0;
      ghost var before, seen := events, executedCommands;
      err := BeginRun();
      if err.Some? {
        NotBegun(item, executedCommands, lock, err.value);
        PlainFails(result, err.value);
        result := FailedItem(result, err.value);
        return;
      }
      ghost var calls;
      err, n, calls := RunMutation(item, lock);
      ghost var during := events;
      assert during == before + ([RunBegun(false)] + calls);
      var inner := err;
      if err.Some? {
        StatusFinishes(err.value);
        result, releaseLock := FinishFailure(result, err.value);
      } else {
        result, err := FinishSuccess(result);
        PlainErrorsEnd(err);
      }
      ghost var ending :| events == during + ending && Ends(inner, ending, err);
      MutationEnds(item, seen, lock, calls, inner, ending, n, err);
      assert events == before + ([RunBegun(false)] + calls + ending);
    }

    /** The check, then the command. */
    method RunMutation(item: PlanItem, lock: LifecycleLock)
      returns (err: Option<Error>, ghost n: nat, ghost calls: seq<Event>)
      requires lock.acquired
      modifies `events, `executedCommands
      ensures events == old(events) + calls && MutationRuns(item, old(executedCommands), lock, calls, n, err)
      ensures n <= |CommandList(item)| && executedCommands == old(executedCommands) + Elements(CommandList(item)[..n])
      ensures err.None? ==> n == |CommandList(item)|
    {
      hide NormalizedCommands, GroupRuns, MutationRuns;
      ghost var seen, checks, commands := executedCommands, NormalizedCommands(item.destructiveCheck),
        NormalizedCommands(item.command);
      err, n, calls := RunCommands(lock, "destructive_check", item.destructiveCheck);
      GroupLength("destructive_check", checks, seen, lock, calls, n, err);
      PartOfFirst(checks, commands, n);
      if err.Some? {
        ChecksFail(item, seen, lock, calls, n, err);
        return;
      }
      ghost var first, next := calls, executedCommands;
      err, n, calls := RunCommands(lock, "command", item.command);
      assert checks[..|checks|] == checks;
      GroupLength("command", commands, next, lock, calls, n, err);
      PartOfSecond(checks, commands, n);
      ChecksThenCommands(item, seen, lock, first, calls, n, err);
      n, calls := |checks| + n, first + calls;
    }

    /** The mutation behind the security gate, which either runs it and returns its error or refuses. */
    method ExecuteGated(item: PlanItem, lock: LifecycleLock)
      returns (result: ResultItem, err: Option<Error>, releaseLock: bool, ghost n: nat)
      requires lock.acquired && ItemIsRunnable(item)
      modifies `events, `executedCommands, `gatePassed
      ensures n <= |CommandList(item)| && executedCommands == old(executedCommands) + Elements(CommandList(item)[..n])
      ensures exists calls ::
              events == old(events) + calls
                && GatedCalls(item, old(executedCommands), lock, gated && !old(gatePassed), calls, n, err)
      ensures releaseLock <==> !(err.Some? && MayStillBeRunning(err.value))
      ensures err.Some? ==> result == if item.state.id == "" then FailedItem(ResultOf(item), err.value)
                                      else Failure(ResultOf(item), err.value).item
      ensures err.None? ==> n == |CommandList(item)| && result == Success(ResultOf(item))
      ensures gatePassed == (old(gatePassed) || (gated && err.None?))
    {
      hide CommandList, MayStillBeRunning, MutationCalls, ItemIsRunnable;
      if gated && !gatePassed {
        if * {
          var text: string := *;
          err, releaseLock, n := Some(Plain(text)), true, 0;
          PlainErrorsEnd(err);
          assert CommandList(item)[..0] == [];
          events := events + [GateRefused];
          result := FailedItem(ResultOf(item), err.value);
          return;
        }
        events := events + [GateOpened];
        ghost var gateOpen := events;
        result, err, releaseLock, n := ExecuteMutation(item, lock);
        if err.None? {
          gatePassed := true;
        }
        ghost var calls :| events == gateOpen + calls
                           && MutationCalls(item, old(executedCommands), lock, calls, n, err);
        assert events == old(events) + ([GateOpened] + calls) && ([GateOpened] + calls)[1..] == calls;
      } else {
        result, err, releaseLock, n := ExecuteMutation(item, lock);
      }
      if err.Some? && result.moduleId == "" {
        result := FailedItem(ResultOf(item), err.value);
      }
    }

    /** The lock manager fails, names another holder, or grants a lease under the module's key. */
    method Acquire(item: PlanItem, owner: string) returns (r: Result<LifecycleLock, Error>)
      modifies `events
      ensures r.Err? ==> r.error.Plain? && events == old(events) + [LockFailed]
      ensures r.Ok? && !r.value.acquired ==> events == old(events) + [LockHeldBy(r.value.owner)]
      ensures r.Ok? && r.value.acquired ==>
                && events == old(events) + [LockGranted(r.value)]
                && r.value.key == ExecutionProtocol.LockKey(item.state.id) && r.value.owner == owner
    {
      var text: string := *;
      var expiresAt: int := *;
      var granted: bool := *;
      if * {
        r := Err(Plain(text));
      } else {
        var holder: string := *;
        r := Ok(LifecycleLock(ExecutionProtocol.LockKey(item.state.id), if granted then owner else holder, text,
                              granted, expiresAt));
      }
      events := events + [if r.Err? then LockFailed
                          else if r.value.acquired then LockGranted(r.value) else LockHeldBy(r.value.owner)];
    }

    /** What executeItem does while it holds the lock, with the deferred release. */
    method ExecuteLocked(item: PlanItem, lock: LifecycleLock)
      returns (result: ResultItem, err: Option<Error>, ghost n: nat, ghost held: seq<Event>)
      requires lock.acquired
      modifies `events, `executedCommands, `gatePassed
      ensures n <= |CommandList(item)| && executedCommands == old(executedCommands) + Elements(CommandList(item)[..n])
      ensures events == old(events) + held + ReleaseCalls(lock, err)
      ensures HeldRuns(item, old(executedCommands), lock, held, n, err) && IsHeldAnswer(item, held, result, err)
      ensures GateKept([LockGranted(lock)] + held + ReleaseCalls(lock, err), gated && !old(gatePassed))
      ensures gatePassed == (old(gatePassed) || (gated && result.status == Succeeded))
      ensures err.None? ==> n == if result.status == Succeeded then |CommandList(item)| else 0
    {
      hide CommandList, MayStillBeRunning, HeldRuns, StopsEarly, Mutates, GatedCalls, ItemIsRunnable, IsHeldAnswer,
           GateKept, IsAskedFirst, StartsCleared, Failure, FailedItem, Success, ResultOf, Elements;
      n := 0;
      ghost var before, seen, asks := events, executedCommands, gated && !gatePassed;
      assert CommandList(item)[..0] == [];
      var done, releaseLock := false, true;
      result, done, err := PreflightItem(item);
      if done {
        held :| events == before + held && StopsEarly(item, held, err) && !StartsCleared(held);
        EarlyAnswer(item, held, result, err);
        EarlyIsHeld(item, seen, lock, held, err);
        NotAsked(lock, held, ReleaseCalls(lock, err), asks);
      } else {
        ghost var cleared := events;
        result, err, releaseLock, n := ExecuteGated(item, lock);
        ghost var calls :| events == cleared + calls && GatedCalls(item, seen, lock, asks, calls, n, err);
        held := Entering([]) + calls;
        assert held == [RunRead(false, false, true)] + calls;
        assert events == before + held;
        GatedHeld(item, seen, lock, asks, calls, n, err);
        AskedFirst(lock, calls, ReleaseCalls(lock, err), asks);
        GatedAnswer(item, held, result, err);
      }
      if releaseLock {
        events := events + [LockReleased(lock)];
      }
      assert before + held + [] == before + held;
    }

    /** One item: its calls are a course of the item, so they are a path of the protocol that ends with the
        lock released or handed over, handed over exactly when the runner may still be running. */
    method ExecuteItem(item: PlanItem, owner: string) returns (result: ResultItem, err: Option<Error>, ghost n: nat)
      modifies `events, `executedCommands, `gatePassed
      ensures ItemRuns(item, old(executedCommands), events, n, err)
      ensures ControlAfter(events).Some? && Settled(ControlAfter(events).value)
      ensures ControlAfter(events).value.phase.Late? <==> err.Some? && MayStillBeRunning(err.value)
      ensures n <= |CommandList(item)| && executedCommands == old(executedCommands) + Elements(CommandList(item)[..n])
      ensures err.None? ==> n == if result.status == Succeeded then |CommandList(item)| else 0
      ensures IsAnswerFor(item, events, result, err)
      ensures GateKept(events, gated && !old(gatePassed))
      ensures gatePassed == (old(gatePassed) || (gated && result.status == Succeeded))
      ensures events[0].LockGranted? ==> events[0].lock.owner == if owner == "" then "module-lifecycle" else owner
    {
      hide ControlAfter, CommandList, MayStillBeRunning, HeldRuns, ReleaseCalls, IsHeldAnswer, IsAnswerFor, GateKept,
           ItemRuns, Settled;
      events, n := [], 0;
      ghost var seen := executedCommands;
      assert CommandList(item)[..0] == [];
      var acquired := Acquire(item, if owner == "" then "module-lifecycle" else owner);
      if acquired.Err? {
        result, err := FailedItem(ResultOf(item), acquired.error), Some(acquired.error);
        NotGranted(item, seen, LockFailed, result, err, gated && !gatePassed);
        assert events == [LockFailed];
      } else if !acquired.value.acquired {
        var message := "module lifecycle lock held by " + acquired.value.owner;
        result, err := ResultOf(item).(status := LockBlocked, skipped := true, error := message), Some(Plain(message));
        NotGranted(item, seen, LockHeldBy(acquired.value.owner), result, err, gated && !gatePassed);
        assert events == [LockHeldBy(acquired.value.owner)];
      } else {
        ghost var held;
        result, err, n, held := ExecuteLocked(item, acquired.value);
        assert [] + [LockGranted(acquired.value)] == [LockGranted(acquired.value)];
        GrantedItem(item, seen, acquired.value, held, n, result, err);
      }
      CourseIsPath(item, seen, events, n, err);
    }

    /** The watcher: renew on every tick until the runner ends or the lease is lost. */
    method WatchLateRunner(late: LifecycleLock, stepName: string, command: string, signals: seq<WatchSignal>)
      requires late.acquired
      modifies `events
      ensures exists calls :: events == old(events) + calls && WatchRuns(calls, late, stepName, command, signals)
    {
      hide WatchRuns, WatchedSoFar, ReconciliationCalls, CompletionCalls;
      var current := late;
      ghost var before, calls: seq<Event> := events, [];
      WatchStarts(late, stepName, command, signals);
      for i := 0 to |signals|
        invariant current.acquired && events == before + calls
        invariant WatchedSoFar(calls, late, stepName, command, signals, i)
      {
        if signals[i] == RunnerDone {
          var wrote := CompleteLate(late, stepName, command);
          WatchCompletes(calls, late, stepName, command, signals, i, wrote);
          Associate(before, calls, CompletionCalls(late, stepName, command, wrote));
          return;
        }
        var renewed := Renew(current);
        if renewed.Err? {
          var wrote := RecordReconciliation(stepName, command);
          WatchLoses(calls, late, stepName, command, signals, i, wrote);
          Associate(before + calls, [RenewalStarted, RenewalAnswered(false)],
                    ReconciliationCalls(stepName, command, wrote));
          Associate(before, calls, LossCalls(stepName, command, wrote));
          return;
        }
        current := renewed.value;
        WatchTicks(calls, late, stepName, command, signals, i);
        Associate(before, calls, [RenewalStarted, RenewalAnswered(true)]);
        calls := calls + [RenewalStarted, RenewalAnswered(true)];
      }
      WatchesOn(calls, late, stepName, command, signals);
    }

    /** The late runner has ended: record it, then release. */
    method CompleteLate(late: LifecycleLock, stepName: string, command: string) returns (wrote: bool)
      modifies `events
      ensures events == old(events) + CompletionCalls(late, stepName, command, wrote)
    {
      events := events + [LateRunnerEnded];
      wrote := RecordReconciliation(stepName, command);
      events := events + [LockReleased(late)];
      assert events == old(events) + CompletionCalls(late, stepName, command, wrote);
    }

    /** recordLateCompletion and recordLateLeaseFailure write the same records. */
    method RecordReconciliation(stepName: string, command: string) returns (wrote: bool)
      modifies `events
      ensures events == old(events) + ReconciliationCalls(stepName, command, wrote)
    {
      var _ := RecordStep(stepName, command, ReconciliationRequired);
      var recordErr := FinishRun(ReconciliationRequired);
      var _ := UpsertState(ReconciliationRequired);
      wrote := recordErr.None?;
    }
  }

  // --- the pieces put together -------------------------------------------------------------------------------

  lemma AttemptCalls(stepName: string, command: string, lock: LifecycleLock, renewed: LifecycleLock,
                     output: CommandOutput,
                     before: seq<Event>, after: seq<Event>, err: Option<Error>)
    requires SameLease(renewed, lock) && ValidateCommand(command).None? && IsAnswer(output, renewed)
    requires err.None? ==> output.err.None?
    requires err.Some? && output.err.Some? ==>
             LateRunner(err.value) == LateRunner(output.err.value)
               && ErrorStatus(err.value) == ErrorStatus(output.err.value)
    requires err.Some? && output.err.None? ==> err.value.Plain?
    requires after == before + [StepRecorded(stepName, command, Running), RenewalStarted, RenewalAnswered(true)]
             + AnswerCalls(command, output)
                      + [StepRecorded(stepName, command, StepStatus(output.err))] + if err.None?
                        then [CommandPassed(command)] else []
    ensures err.None? ==> after == before + PassingCalls(stepName, command)
    ensures err.Some? ==>
            exists calls :: after == before + calls && CommandFails(stepName, command, lock, err.value, calls)
  {
    hide ValidateCommand;
    if output.err.None? {
      NilMeansRan(output, renewed);
      if err.None? {
        assert after == before + PassingCalls(stepName, command);
      } else {
        assert after == before + UnrecordedCalls(stepName, command);
      }
    } else if MayStillBeRunning(output.err.value) {
      StatusFinishes(output.err.value);
      assert after == before + LateCalls(stepName, command);
    } else {
      assert after == before + ErrorCalls(stepName, command, output.ran, err.value);
    }
  }

  lemma NoneRun(stepName: string, seen: set<string>, lock: LifecycleLock)
    ensures GroupRuns(stepName, [], seen, lock, [], 0, None)
    ensures seen + Elements([]) == seen
  {
  }

  lemma OneMoreRuns(stepName: string, commands: seq<string>, i: nat, seen: set<string>, lock: LifecycleLock,
                    calls: seq<Event>)
    requires i < |commands| && GroupRuns(stepName, commands[..i], seen, lock, calls, i, None)
    ensures var more := if commands[i] in seen + Elements(commands[..i]) then calls
            else calls + PassingCalls(stepName, commands[i]);
      GroupRuns(stepName, commands[..i + 1], seen, lock, more, i + 1, None)
    ensures Elements(commands[..i + 1]) == Elements(commands[..i]) + {commands[i]}
  {
    hide GroupRuns, PassingCalls;
    var now := seen + Elements(commands[..i]);
    var one := if commands[i] in now then [] else PassingCalls(stepName, commands[i]);
    GroupOfOnePasses(stepName, commands[i], now, lock);
    GroupsJoin(stepName, commands[..i], [commands[i]], seen, lock, calls, one, 1, None);
    assert commands[..i + 1] == commands[..i] + [commands[i]];
    assert calls + [] == calls;
  }

  lemma ThenFails(stepName: string, commands: seq<string>, i: nat, seen: set<string>, lock: LifecycleLock,
                  calls: seq<Event>, failed: seq<Event>, err: Error)
    requires i < |commands| && GroupRuns(stepName, commands[..i], seen, lock, calls, i, None)
    requires commands[i] !in seen + Elements(commands[..i]) && CommandFails(stepName, commands[i], lock, err, failed)
    ensures GroupRuns(stepName, commands, seen, lock, calls + failed, i, Some(err))
  {
    hide GroupRuns, CommandFails;
    GroupOfRestFails(stepName, commands[i..], seen + Elements(commands[..i]), lock, failed, err);
    GroupsJoin(stepName, commands[..i], commands[i..], seen, lock, calls, failed, 0, Some(err));
    assert commands == commands[..i] + commands[i..];
  }

  lemma ChecksFail(item: PlanItem, seen: set<string>, lock: LifecycleLock, calls: seq<Event>, n: nat,
                   err: Option<Error>)
    requires n < |NormalizedCommands(item.destructiveCheck)|
    requires GroupRuns("destructive_check", NormalizedCommands(item.destructiveCheck), seen, lock, calls, n, err)
    ensures MutationRuns(item, seen, lock, calls, n, err)
  {
    hide GroupRuns, NormalizedCommands;
  }

  lemma ChecksThenCommands(item: PlanItem, seen: set<string>, lock: LifecycleLock, first: seq<Event>,
                           second: seq<Event>, n: nat, err: Option<Error>)
    requires var checks, commands := NormalizedCommands(item.destructiveCheck), NormalizedCommands(item.command);
      && GroupRuns("destructive_check", checks, seen, lock, first, |checks|, None)
      && GroupRuns("command", commands, seen + Elements(checks), lock, second, n, err)
    ensures MutationRuns(item, seen, lock, first + second, |NormalizedCommands(item.destructiveCheck)| + n, err)
  {
    hide GroupRuns, NormalizedCommands;
    var calls := first + second;
    assert calls[..|first|] == first && calls[|first|..] == second;
  }

  /** The calls of executeMutation. */
  ghost predicate MutationCalls(item: PlanItem, seen: set<string>, lock: LifecycleLock, calls: seq<Event>, n: nat,
                                err: Option<Error>) {
    || (n == 0 && err.Some? && err.value.Plain? && calls == [RunBegun(true)])
    || exists body, inner, ending :: IsMutation(item, seen, lock, [], body, inner, ending, Entering([]) + calls, n, err)
  }

  /** With the gate in front if it has to be asked: it refuses, or opens to the mutation. */
  ghost predicate GatedCalls(item: PlanItem, seen: set<string>, lock: LifecycleLock, asks: bool, calls: seq<Event>,
                             n: nat, err: Option<Error>) {
    if asks then
      || (n == 0 && err.Some? && err.value.Plain? && calls == [GateRefused])
      || ([GateOpened] <= calls && MutationCalls(item, seen, lock, calls[1..], n, err))
    else MutationCalls(item, seen, lock, calls, n, err)
  }

  /** An item that is cleared asks the gate exactly if it has to, before its run is begun. */
  ghost predicate GateKept(es: seq<Event>, asks: bool) {
    IsCleared(es) ==> |es| > 2 && if asks then es[2] == GateOpened || es[2] == GateRefused else es[2].RunBegun?
  }

  lemma NotBegun(item: PlanItem, seen: set<string>, lock: LifecycleLock, err: Error)
    requires err.Plain?
    ensures MutationCalls(item, seen, lock, [RunBegun(true)], 0, Some(err)) && !MayStillBeRunning(err)
    ensures seen + Elements(CommandList(item)[..0]) == seen
  {
  }

  lemma MutationEnds(item: PlanItem, seen: set<string>, lock: LifecycleLock, body: seq<Event>, inner: Option<Error>,
                     ending: seq<Event>, n: nat, err: Option<Error>)
    requires MutationRuns(item, seen, lock, body, n, inner) && Ends(inner, ending, err)
    ensures MutationCalls(item, seen, lock, [RunBegun(false)] + body + ending, n, err)
  {
    hide MutationRuns, Ends;
    var calls := [RunBegun(false)] + body + ending;
    assert Entering([]) + calls == Entering([]) + [RunBegun(false)] + body + ending;
    assert IsMutation(item, seen, lock, [], body, inner, ending, Entering([]) + calls, n, err);
  }

  ghost predicate StartsCleared(held: seq<Event>) {
    held == [] || held[0] == RunRead(false, false, true)
  }

  lemma NotAsked(lock: LifecycleLock, held: seq<Event>, release: seq<Event>, asks: bool)
    requires !StartsCleared(held)
    ensures GateKept([LockGranted(lock)] + held + release, asks)
  {
    var es := [LockGranted(lock)] + held + release;
    assert es[1] == held[0];
  }

  lemma EarlyIsHeld(item: PlanItem, seen: set<string>, lock: LifecycleLock, held: seq<Event>, err: Option<Error>)
    requires StopsEarly(item, held, err)
    ensures HeldRuns(item, seen, lock, held, 0, err)
  {
    hide StopsEarly, Mutates;
  }

  lemma GatedHeld(item: PlanItem, seen: set<string>, lock: LifecycleLock, asks: bool, calls: seq<Event>, n: nat,
                  err: Option<Error>)
    requires ItemIsRunnable(item) && GatedCalls(item, seen, lock, asks, calls, n, err)
    ensures HeldRuns(item, seen, lock, Entering([]) + calls, n, err) && IsAskedFirst(calls, asks)
  {
    hide ItemIsRunnable, IsMutation, MutationCalls, HeldRuns, Entering;
    if !asks {
      MutationStarts(item, seen, lock, calls, n, err);
      MutationIsHeld(item, seen, lock, calls, n, err);
    } else if [GateOpened] <= calls {
      assert calls[0] == GateOpened && calls == [GateOpened] + calls[1..];
      BehindTheGate(item, seen, lock, calls[1..], n, err);
    } else {
      RefusedIsHeld(item, seen, lock, err);
    }
  }

  ghost predicate IsAskedFirst(calls: seq<Event>, asks: bool) {
    calls != [] && if asks then calls[0] == GateOpened || calls[0] == GateRefused else calls[0].RunBegun?
  }

  lemma RefusedIsHeld(item: PlanItem, seen: set<string>, lock: LifecycleLock, err: Option<Error>)
    requires ItemIsRunnable(item) && err.Some? && err.value.Plain?
    ensures HeldRuns(item, seen, lock, Entering([]) + [GateRefused], 0, err)
  {
    hide ItemIsRunnable;
    assert Entering([]) + [GateRefused] == [RunRead(false, false, true), GateRefused];
  }

  lemma AskedFirst(lock: LifecycleLock, calls: seq<Event>, release: seq<Event>, asks: bool)
    requires IsAskedFirst(calls, asks)
    ensures GateKept([LockGranted(lock)] + (Entering([]) + calls) + release, asks)
  {
    var es := [LockGranted(lock)] + (Entering([]) + calls) + release;
    assert es[1] == RunRead(false, false, true) && es[2] == calls[0];
  }

  lemma MutationIsHeld(item: PlanItem, seen: set<string>, lock: LifecycleLock, calls: seq<Event>, n: nat,
                       err: Option<Error>)
    requires ItemIsRunnable(item) && MutationCalls(item, seen, lock, calls, n, err)
    ensures HeldRuns(item, seen, lock, Entering([]) + calls, n, err)
  {
    hide ItemIsRunnable, IsMutation;
  }

  lemma BehindTheGate(item: PlanItem, seen: set<string>, lock: LifecycleLock, inside: seq<Event>, n: nat,
                      err: Option<Error>)
    requires ItemIsRunnable(item) && MutationCalls(item, seen, lock, inside, n, err)
    ensures HeldRuns(item, seen, lock, Entering([]) + ([GateOpened] + inside), n, err)
  {
    hide ItemIsRunnable, MutationRuns, Ends;
    var es := Entering([]) + ([GateOpened] + inside);
    assert es == Entering([GateOpened]) + inside;
    if inside != [RunBegun(true)] || n != 0 || err.None? || !err.value.Plain? {
      var body, inner, ending :| IsMutation(item, seen, lock, [], body, inner, ending, Entering([]) + inside, n, err);
      assert inside == (Entering([]) + inside)[1..] == [RunBegun(false)] + body + ending;
      assert es == Entering([GateOpened]) + [RunBegun(false)] + body + ending;
      assert IsMutation(item, seen, lock, [GateOpened], body, inner, ending, es, n, err);
    }
  }

  lemma MutationStarts(item: PlanItem, seen: set<string>, lock: LifecycleLock, calls: seq<Event>, n: nat,
                       err: Option<Error>)
    requires MutationCalls(item, seen, lock, calls, n, err)
    ensures calls != [] && calls[0].RunBegun?
  {
    if body, inner, ending :| IsMutation(item, seen, lock, [], body, inner, ending, Entering([]) + calls, n, err) {
      assert (Entering([]) + calls)[1] == (Entering([]) + [RunBegun(false)] + body + ending)[1];
    }
  }

  lemma RefusalStops(item: PlanItem, stepName: string, command: string, invalid: Error, before: seq<Event>,
                     after: seq<Event>, err: Error)
    requires command in CommandList(item) && ValidateCommand(command) == Some(invalid)
    requires var read := before + [RunRead(false, false, false)];
      || (err.Plain? && after == read + [RunBegun(true)])
      || (err == invalid && exists wrote ::
          after == read + ValidationCalls(stepName, command, ErrorStatus(invalid), wrote))
    ensures exists calls :: after == before + calls && StopsEarly(item, calls, Some(err)) && !StartsCleared(calls)
    ensures !MayStillBeRunning(err) && (ErrorStatus(invalid) == Failed || ErrorStatus(invalid) == ManualRequired)
  {
    hide CommandList, ValidateCommand, ErrorStatus;
    InvalidIsNotLate(command);
    StatusFinishes(invalid);
    PlainErrorsEnd(Some(err));
    assert !ItemIsRunnable(item);
    var read := before + [RunRead(false, false, false)];
    if err.Plain? && after == read + [RunBegun(true)] {
      assert after == before + [RunRead(false, false, false), RunBegun(true)];
    } else {
      var wrote :| after == read + ValidationCalls(stepName, command, ErrorStatus(invalid), wrote);
      var calls := [RunRead(false, false, false)] + ValidationCalls(stepName, command, ErrorStatus(invalid), wrote);
      assert after == before + calls && FailsValidation(item, calls, err);
    }
  }

  lemma Associate(a: seq<Event>, b: seq<Event>, c: seq<Event>)
    ensures a + b + c == a + (b + c)
  {
  }

  // --- the watcher ---------------------------------------------------------------------------------------------

  /** Whatever the watcher does at the signals from i on completes the calls made so far. */
  ghost predicate WatchedSoFar(calls: seq<Event>, late: LifecycleLock, stepName: string, command: string,
                               signals: seq<WatchSignal>, i: nat)
    requires i <= |signals|
  {
    forall rest :: WatchRuns(rest, late, stepName, command, signals[i..]) ==>
      WatchRuns(calls + rest, late, stepName, command, signals)
  }

  lemma WatchStarts(late: LifecycleLock, stepName: string, command: string, signals: seq<WatchSignal>)
    ensures WatchedSoFar([], late, stepName, command, signals, 0)
  {
    hide WatchRuns;
    assert signals[0..] == signals && forall rest: seq<Event> :: [] + rest == rest;
  }

  lemma WatchesOn(calls: seq<Event>, late: LifecycleLock, stepName: string, command: string, signals: seq<WatchSignal>)
    requires WatchedSoFar(calls, late, stepName, command, signals, |signals|)
    ensures WatchRuns(calls, late, stepName, command, signals)
  {
    assert WatchRuns([], late, stepName, command, signals[|signals|..]);
    assert calls + [] == calls;
  }

  lemma WatchCompletes(calls: seq<Event>, late: LifecycleLock, stepName: string, command: string,
                       signals: seq<WatchSignal>, i: nat, wrote: bool)
    requires i < |signals| && WatchedSoFar(calls, late, stepName, command, signals, i) && signals[i] == RunnerDone
    ensures WatchRuns(calls + CompletionCalls(late, stepName, command, wrote), late, stepName, command, signals)
  {
    assert signals[i..][0] == RunnerDone;
    assert WatchRuns(CompletionCalls(late, stepName, command, wrote), late, stepName, command, signals[i..]);
  }

  lemma WatchLoses(calls: seq<Event>, late: LifecycleLock, stepName: string, command: string, signals: seq<WatchSignal>,
                   i: nat, wrote: bool)
    requires i < |signals| && WatchedSoFar(calls, late, stepName, command, signals, i) && signals[i] == Tick
    ensures WatchRuns(calls + LossCalls(stepName, command, wrote), late, stepName, command, signals)
  {
    assert signals[i..][0] == Tick;
    assert WatchRuns(LossCalls(stepName, command, wrote), late, stepName, command, signals[i..]);
  }

  lemma WatchTicks(calls: seq<Event>, late: LifecycleLock, stepName: string, command: string, signals: seq<WatchSignal>,
                   i: nat)
    requires i < |signals| && WatchedSoFar(calls, late, stepName, command, signals, i) && signals[i] == Tick
    ensures WatchedSoFar(calls + [RenewalStarted, RenewalAnswered(true)], late, stepName, command, signals, i + 1)
  {
    var tick := [RenewalStarted, RenewalAnswered(true)];
    forall rest | WatchRuns(rest, late, stepName, command, signals[i + 1..])
      ensures WatchRuns(calls + tick + rest, late, stepName, command, signals) {
      TickThen(rest, late, stepName, command, signals, i);
      assert calls + (tick + rest) == calls + tick + rest;
    }
  }

  lemma TickThen(rest: seq<Event>, late: LifecycleLock, stepName: string, command: string, signals: seq<WatchSignal>,
                 i: nat)
    requires i < |signals| && signals[i] == Tick && WatchRuns(rest, late, stepName, command, signals[i + 1..])
    ensures WatchRuns([RenewalStarted, RenewalAnswered(true)] + rest, late, stepName, command, signals[i..])
  {
    assert signals[i..][0] == Tick && signals[i..][1..] == signals[i + 1..];
    assert ([RenewalStarted, RenewalAnswered(true)] + rest)[2..] == rest;
  }

  lemma ReconciliationSteps(c: Control, stepName: string, command: string, wrote: bool)
    requires Reconciles(c, ReconciliationRequired) && !c.renewing
    ensures After(c, StepRecorded(stepName, command, ReconciliationRequired)) == Some(c)
    ensures var end := c.(recorded := true, phase := if c.phase.Orphan? then c.phase.(unrecorded := false)
                          else c.phase);
      && After(c, RunFinished(ReconciliationRequired, wrote)) == Some(end)
      && After(end, StateWritten(ReconciliationRequired)) == Some(end)
  {
  }

  lemma ReconciliationPath(pre: seq<Event>, stepName: string, command: string, wrote: bool)
    requires ControlAfter(pre).Some? && Reconciles(ControlAfter(pre).value, ReconciliationRequired)
             && !ControlAfter(pre).value.renewing
    ensures var c := ControlAfter(pre).value;
      ControlAfter(pre + ReconciliationCalls(stepName, command, wrote)) ==
      Some(c.(recorded := true, phase := if c.phase.Orphan? then c.phase.(unrecorded := false) else c.phase))
  {
    hide ControlAfter, After;
    ReconciliationSteps(ControlAfter(pre).value, stepName, command, wrote);
    var recorded := pre + [StepRecorded(stepName, command, ReconciliationRequired)];
    Path1(pre, StepRecorded(stepName, command, ReconciliationRequired));
    Path2(recorded, RunFinished(ReconciliationRequired, wrote), StateWritten(ReconciliationRequired));
    assert pre + ReconciliationCalls(stepName, command, wrote) ==
      recorded + [RunFinished(ReconciliationRequired, wrote), StateWritten(ReconciliationRequired)];
  }

  /** A watcher that has the lock, before its runner has ended. */
  predicate Watches(c: Control, late: LifecycleLock) {
    c.phase == ExecutionProtocol.Late && c.watched && !c.renewing && !c.recorded && SameLease(late, c.lock)
  }

  lemma WatcherSteps(c: Control, late: LifecycleLock)
    requires Watches(c, late)
    ensures After(c, LateRunnerEnded) == Some(c.(phase := ExecutionProtocol.LateDone))
    ensures After(c.(phase := ExecutionProtocol.LateDone, recorded := true), LockReleased(late)) ==
            Some(c.(phase := ExecutionProtocol.Done, recorded := true))
  {
  }

  lemma CompletionPath(pre: seq<Event>, late: LifecycleLock, stepName: string, command: string, wrote: bool)
    requires ControlAfter(pre).Some? && Watches(ControlAfter(pre).value, late)
    ensures ControlAfter(pre + CompletionCalls(late, stepName, command, wrote)) ==
            Some(ControlAfter(pre).value.(phase := ExecutionProtocol.Done, recorded := true))
  {
    hide ControlAfter, ReconciliationCalls, After;
    WatcherSteps(ControlAfter(pre).value, late);
    var ended := pre + [LateRunnerEnded];
    Path1(pre, LateRunnerEnded);
    ReconciliationPath(ended, stepName, command, wrote);
    Path1(ended + ReconciliationCalls(stepName, command, wrote), LockReleased(late));
    assert pre + CompletionCalls(late, stepName, command, wrote) ==
           ended + ReconciliationCalls(stepName, command, wrote) + [LockReleased(late)];
  }

  lemma LossPath(pre: seq<Event>, late: LifecycleLock, stepName: string, command: string, wrote: bool)
    requires ControlAfter(pre).Some? && Watches(ControlAfter(pre).value, late)
    ensures ControlAfter(pre + LossCalls(stepName, command, wrote)) ==
            Some(ControlAfter(pre).value.(phase := ExecutionProtocol.Orphan(true, false), recorded := true))
  {
    hide ControlAfter, ReconciliationCalls;
    var lost := pre + [RenewalStarted, RenewalAnswered(false)];
    Path2(pre, RenewalStarted, RenewalAnswered(false));
    ReconciliationPath(lost, stepName, command, wrote);
    assert pre + LossCalls(stepName, command, wrote) == lost + ReconciliationCalls(stepName, command, wrote);
  }

  lemma CompletionReleases(late: LifecycleLock, stepName: string, command: string, wrote: bool)
    ensures LockReleased(late) in CompletionCalls(late, stepName, command, wrote)
  {
    var es := CompletionCalls(late, stepName, command, wrote);
    assert es[|es| - 1] == LockReleased(late);
  }

  lemma LossReleasesNothing(late: LifecycleLock, stepName: string, command: string, wrote: bool)
    ensures LockReleased(late) !in LossCalls(stepName, command, wrote)
  {
  }

  lemma TickStays(c: Control, late: LifecycleLock)
    requires Watches(c, late)
    ensures After(c, RenewalStarted) == Some(c.(renewing := true))
            && After(c.(renewing := true), RenewalAnswered(true)) == Some(c)
  {
  }

  /** After an item whose lock was handed over, the watcher's calls carry the path on: to the release after
      recording the completion, to an orphaned runner whose lost lease is recorded, or it still watches. */
  lemma {:induction false} WatchIsPath(pre: seq<Event>, es: seq<Event>, late: LifecycleLock, stepName: string,
                                       command: string, signals: seq<WatchSignal>)
    requires ControlAfter(pre).Some? && Watches(ControlAfter(pre).value, late)
    requires WatchRuns(es, late, stepName, command, signals)
    ensures ControlAfter(pre + es).Some?
    ensures var c := ControlAfter(pre + es).value;
      || (c.phase == ExecutionProtocol.Done && RunnerDone in signals && LockReleased(late) in es)
      || (c.phase == ExecutionProtocol.Orphan(true, false) && LockReleased(late) !in es)
      || (Watches(c, late) && RunnerDone !in signals && LockReleased(late) !in es)
    decreases |signals|
  {
    hide ControlAfter, After, CompletionCalls, LossCalls, ReconciliationCalls;
    if signals == [] {
      assert pre + es == pre;
    } else if signals[0] == RunnerDone {
      var wrote :| es == CompletionCalls(late, stepName, command, wrote);
      CompletionPath(pre, late, stepName, command, wrote);
      CompletionReleases(late, stepName, command, wrote);
    } else if wrote :| es == LossCalls(stepName, command, wrote) {
      LossPath(pre, late, stepName, command, wrote);
      LossReleasesNothing(late, stepName, command, wrote);
    } else {
      var tick := [RenewalStarted, RenewalAnswered(true)];
      Path2(pre, RenewalStarted, RenewalAnswered(true));
      TickStays(ControlAfter(pre).value, late);
      assert pre + es == (pre + tick) + es[2..] && es == tick + es[2..];
      WatchIsPath(pre + tick, es[2..], late, stepName, command, signals[1..]);
      assert signals == [signals[0]] + signals[1..];
    }
  }

  lemma PartOfFirst(a: seq<string>, b: seq<string>, n: nat)
    requires n <= |a|
    ensures (a + b)[..n] == a[..n]
  {
  }

  lemma PartOfSecond(a: seq<string>, b: seq<string>, n: nat)
    requires n <= |b|
    ensures (a + b)[..|a| + n] == a + b[..n]
    ensures Elements(a + b[..n]) == Elements(a) + Elements(b[..n])
  {
  }
}
