/** The exact sequences of calls executeItem can make for one item, given the commands that have
    been executed before: what the executor's methods are proved against. */
module ItemCourse {
  import opened Outcomes
  import opened LifecycleTypes
  import opened ExecutionProtocol
  import opened ExecutorPath
  import opened CommandPolicy
  import opened CommandTrace
  import opened Planner

  function CommandList(item: PlanItem): seq<string> {
    NormalizedCommands(item.destructiveCheck) + NormalizedCommands(item.command)
  }

  ghost predicate ItemIsRunnable(item: PlanItem) {
    forall c :: c in CommandList(item) ==> ValidateCommand(c).None?
  }

  // --- the calls of one command ------------------------------------------------------------------------

  /** Recorded as running, lease renewed, started. */
  function StartCalls(step: string, command: string): seq<Event> {
    [StepRecorded(step, command, Running), RenewalStarted, RenewalAnswered(true), CommandStarted(command)]
  }

  /** A command that passes: started, ended well, recorded as succeeded. */
  function PassingCalls(step: string, command: string): seq<Event> {
    StartCalls(step, command) + [CommandEnded(command, true, true)]
      + [StepRecorded(step, command, Succeeded), CommandPassed(command)]
  }

  /** The runner was heard, but the call failed: the runner, the context or the renewal had an error. */
  function ErrorCalls(step: string, command: string, ran: bool, err: Error): seq<Event> {
    StartCalls(step, command) + [CommandEnded(command, ran, false)] + [StepRecorded(step, command, ErrorStatus(err))]
  }

  /** The command ended well, but that could not be recorded. */
  function UnrecordedCalls(step: string, command: string): seq<Event> {
    StartCalls(step, command) + [CommandEnded(command, true, true)] + [StepRecorded(step, command, Succeeded)]
  }

  function LateCalls(step: string, command: string): seq<Event> {
    StartCalls(step, command) + [CommandGivenUp(command), StepRecorded(step, command, ReconciliationRequired)]
  }

  /** Exactly the ways in which one command fails. */
  predicate CommandFails(step: string, command: string, lock: LifecycleLock, err: Error, es: seq<Event>) {
    || (ValidateCommand(command) == Some(err) && es == [StepRecorded(step, command, ErrorStatus(err))])
    || (ValidateCommand(command).None? && RunnableFails(step, command, lock, err, es))
  }

  predicate RunnableFails(step: string, command: string, lock: LifecycleLock, err: Error, es: seq<Event>) {
    || (err.Plain? && es == [StepRecorded(step, command, Running)])
    || (err.Plain? && es == [StepRecorded(step, command, Running), RenewalStarted, RenewalAnswered(false),
                             StepRecorded(step, command, Failed)])
    || (err.Plain? && es == UnrecordedCalls(step, command))
    || (!MayStillBeRunning(err) && (es == ErrorCalls(step, command, true, err)
                                    || es == ErrorCalls(step, command, false, err)))
    || (MayStillBeRunning(err) && SameLease(LateRunner(err).value, lock) && es == LateCalls(step, command))
  }

  // --- the calls of a list of commands --------------------------------------------------------------------

  /** Commands already seen are passed over, the others pass one after another; n are passed by, and
      then the list is at its end or the next command fails. */
  ghost predicate GroupRuns(step: string, list: seq<string>, seen: set<string>, lock: LifecycleLock, es: seq<Event>,
                            n: nat, err: Option<Error>)
    decreases |list|
  {
    if list == [] then es == [] && n == 0 && err.None?
    else if n == 0 then list[0] !in seen && err.Some? && CommandFails(step, list[0], lock, err.value, es)
    else if list[0] in seen then GroupRuns(step, list[1..], seen, lock, es, n - 1, err)
    else
      && PassingCalls(step, list[0]) <= es
      && GroupRuns(step, list[1..], seen + {list[0]}, lock, es[|PassingCalls(step, list[0])|..], n - 1, err)
  }

  lemma {:induction false} GroupsJoin(step: string, a: seq<string>, b: seq<string>, seen: set<string>,
                                      lock: LifecycleLock,
                                      x: seq<Event>, y: seq<Event>, n: nat, err: Option<Error>)
    requires GroupRuns(step, a, seen, lock, x, |a|, None)
    requires b != [] && GroupRuns(step, b, seen + Elements(a), lock, y, n, err)
    ensures GroupRuns(step, a + b, seen, lock, x + y, |a| + n, err)
    decreases |a|
  {
    hide PassingCalls, CommandFails;
    if a == [] {
      assert a + b == b && x + y == y && seen + Elements(a) == seen;
    } else {
      assert (a + b)[1..] == a[1..] + b;
      var next := if a[0] in seen then seen else seen + {a[0]};
      assert next + Elements(a[1..]) == seen + Elements(a);
      var k := if a[0] in seen then 0 else |PassingCalls(step, a[0])|;
      assert (x + y)[k..] == x[k..] + y;
      assert x[0..] == x;
      GroupsJoin(step, a[1..], b, next, lock, x[k..], y, n, err);
    }
  }

  lemma GroupOfOnePasses(step: string, command: string, seen: set<string>, lock: LifecycleLock)
    ensures GroupRuns(step, [command], seen, lock, if command in seen then [] else PassingCalls(step, command), 1, None)
  {
    hide PassingCalls, CommandFails;
    assert [command][1..] == [];
  }

  lemma GroupOfRestFails(step: string, rest: seq<string>, seen: set<string>, lock: LifecycleLock, es: seq<Event>,
                         err: Error)
    requires rest != [] && rest[0] !in seen && CommandFails(step, rest[0], lock, err, es)
    ensures GroupRuns(step, rest, seen, lock, es, 0, Some(err))
  {
  }

  lemma {:induction false} GroupLength(step: string, list: seq<string>, seen: set<string>, lock: LifecycleLock,
                                       es: seq<Event>, n: nat, err: Option<Error>)
    requires GroupRuns(step, list, seen, lock, es, n, err)
    ensures n <= |list| && (err.None? <==> n == |list|)
    decreases |list|
  {
    hide PassingCalls, CommandFails;
    if list != [] && n > 0 {
      if list[0] in seen {
        GroupLength(step, list[1..], seen, lock, es, n - 1, err);
      } else {
        GroupLength(step, list[1..], seen + {list[0]}, lock, es[|PassingCalls(step, list[0])|..], n - 1, err);
      }
    }
  }

  // --- the calls of one item --------------------------------------------------------------------------------

  /** The check list, then the command list. */
  ghost predicate MutationRuns(item: PlanItem, seen: set<string>, lock: LifecycleLock, es: seq<Event>, n: nat,
                               err: Option<Error>) {
    var checks, commands := NormalizedCommands(item.destructiveCheck), NormalizedCommands(item.command);
    if n < |checks| then GroupRuns("destructive_check", checks, seen, lock, es, n, err)
    else
      exists k: nat :: k <= |es|
        && GroupRuns("destructive_check", checks, seen, lock, es[..k], |checks|, None)
        && GroupRuns("command", commands, seen + Elements(checks), lock, es[k..], n - |checks|, err)
  }

  /** The calls that record a failed item, and the hand-over of a late runner. */
  function FailureCalls(err: Error, wrote: bool): seq<Event> {
    [RunFinished(ErrorStatus(err), wrote), StateWritten(ErrorStatus(err))] +
    if MayStillBeRunning(err) then [HandedOver(LateRunner(err).value)] else []
  }

  /** The state is written before the outcome; a state that cannot be written fails the item. */
  function SuccessCalls(stateWritten: bool, wrote: bool): seq<Event> {
    [StateWritten(Succeeded), RunFinished(if stateWritten then Succeeded else Failed, wrote)]
  }

  function ValidationCalls(step: string, command: string, status: Status, wrote: bool): seq<Event> {
    [RunBegun(false), StepRecorded(step, command, status), RunFinished(status, wrote), StateWritten(status)]
  }

  /** The mutation has ended with 'inner': what is recorded, and the item's error. */
  predicate Ends(inner: Option<Error>, es: seq<Event>, err: Option<Error>) {
    if inner.Some? then err == inner && (es == FailureCalls(err.value, true) || es == FailureCalls(err.value, false))
    else
      || (err.None? && es == SuccessCalls(true, true))
      || (err.Some? && err.value.Plain? && (es == SuccessCalls(true, false) || es == SuccessCalls(false, true)
                                            || es == SuccessCalls(false, false)))
  }

  /** The deferred release, unless the lock was handed over. */
  function ReleaseCalls(lock: LifecycleLock, err: Option<Error>): seq<Event> {
    if err.Some? && MayStillBeRunning(err.value) then [] else [LockReleased(lock)]
  }

  /** Cleared to run, and past the gate if it had to be asked. */
  function Entering(gate: seq<Event>): seq<Event> {
    [RunRead(false, false, true)] + gate
  }

  /** Under the lock, without a mutation: the run cannot be read, is recorded already, may not run, or is refused. */
  ghost predicate StopsEarly(item: PlanItem, es: seq<Event>, err: Option<Error>) {
    var runnable := ItemIsRunnable(item);
    || (err.None? && es == [RunRead(true, false, runnable)])
    || (err.Some? && err.value.Plain? && (es == [RunRead(true, true, runnable)]
                                          || es == [RunRead(false, true, runnable)]))
    || (!runnable && err.Some? && err.value.Plain? && es == [RunRead(false, false, false), RunBegun(true)])
    || (!runnable && err.Some? && FailsValidation(item, es, err.value))
    || (runnable && err.Some? && err.value.Plain? && es == [RunRead(false, false, true), GateRefused])
    || (runnable && err.Some? && err.value.Plain?
        && (es == Entering([]) + [RunBegun(true)] || es == Entering([GateOpened]) + [RunBegun(true)]))
  }

  ghost predicate FailsValidation(item: PlanItem, es: seq<Event>, err: Error) {
    exists step, c, wrote :: c in CommandList(item) && ValidateCommand(c) == Some(err)
      && es == [RunRead(false, false, false)] + ValidationCalls(step, c, ErrorStatus(err), wrote)
  }

  /** Under the lock, with a mutation. */
  ghost predicate Mutates(item: PlanItem, seen: set<string>, lock: LifecycleLock, es: seq<Event>, n: nat,
                          err: Option<Error>) {
    && ItemIsRunnable(item)
    && exists gate, body, inner, ending :: IsMutation(item, seen, lock, gate, body, inner, ending, es, n, err)
  }

  ghost predicate IsMutation(item: PlanItem, seen: set<string>, lock: LifecycleLock, gate: seq<Event>, body: seq<Event>,
                             inner: Option<Error>,
                             ending: seq<Event>, es: seq<Event>, n: nat, err: Option<Error>) {
    && MutationRuns(item, seen, lock, body, n, inner) && Ends(inner, ending, err)
    && (gate == [] || gate == [GateOpened])
    && es == Entering(gate) + [RunBegun(false)] + body + ending
  }

  ghost predicate HeldRuns(item: PlanItem, seen: set<string>, lock: LifecycleLock, es: seq<Event>, n: nat,
                           err: Option<Error>) {
    (n == 0 && StopsEarly(item, es, err)) || Mutates(item, seen, lock, es, n, err)
  }

  /** Exactly the calls of executeItem: n of the item's commands are passed by, and err is its error. */
  ghost predicate ItemRuns(item: PlanItem, seen: set<string>, es: seq<Event>, n: nat, err: Option<Error>) {
    || (n == 0 && err.Some? && err.value.Plain? && (es == [LockFailed] || exists holder :: es == [LockHeldBy(holder)]))
    || exists lock, held :: IsHeld(item, seen, lock, held, es, n, err)
  }

  ghost predicate IsHeld(item: PlanItem, seen: set<string>, lock: LifecycleLock, held: seq<Event>, es: seq<Event>,
                         n: nat, err: Option<Error>) {
    && lock.acquired && lock.key == LockKey(item.state.id) && HeldRuns(item, seen, lock, held, n, err)
    && es == [LockGranted(lock)] + held + ReleaseCalls(lock, err)
  }

  // --- every course is a path of the protocol ------------------------------------------------------------

  function Then(c: Option<Control>, e: Event): Option<Control> {
    if c.None? then None else After(c.value, e)
  }

  lemma Path1(pre: seq<Event>, a: Event)
    ensures ControlAfter(pre + [a]) == Then(ControlAfter(pre), a)
  {
    hide After;
    PathGrows(pre, a);
  }

  lemma Path2(pre: seq<Event>, a: Event, b: Event)
    ensures ControlAfter(pre + [a, b]) == Then(Then(ControlAfter(pre), a), b)
  {
    hide ControlAfter, Then;
    Path1(pre, a);
    Path1(pre + [a], b);
    assert pre + [a] + [b] == pre + [a, b];
  }

  lemma Path4(pre: seq<Event>, a: Event, b: Event, c: Event, d: Event)
    ensures ControlAfter(pre + [a, b, c, d]) == Then(Then(Then(Then(ControlAfter(pre), a), b), c), d)
  {
    hide ControlAfter, Then;
    Path2(pre, a, b);
    Path2(pre + [a, b], c, d);
    assert pre + [a, b] + [c, d] == pre + [a, b, c, d];
  }

  /** Between commands: the run is begun and nothing is outstanding. */
  predicate Idle(c: Control) {
    c.phase == Begun(true) && !c.renewing && c.ended == None && !c.recorded && !c.watched
  }

  /** After a failed command: either its runner is late, or there is nothing left to wait for. */
  predicate FailedWith(c: Control, err: Error) {
    && !c.renewing && !c.recorded && !c.watched
    && (if MayStillBeRunning(err) then c.phase == Late && SameLease(LateRunner(err).value, c.lock)
        else c.phase == Begun(true) || c.phase == Failing)
  }

  lemma StartPath(pre: seq<Event>, step: string, command: string)
    requires ControlAfter(pre).Some? && Idle(ControlAfter(pre).value)
    ensures ControlAfter(pre + StartCalls(step, command)) == Some(ControlAfter(pre).value.(phase := Commanding))
  {
    hide ControlAfter;
    Path4(pre, StepRecorded(step, command, Running), RenewalStarted, RenewalAnswered(true), CommandStarted(command));
  }

  lemma PassingPath(pre: seq<Event>, step: string, command: string)
    requires ControlAfter(pre).Some? && Idle(ControlAfter(pre).value)
    ensures ControlAfter(pre + PassingCalls(step, command)) == ControlAfter(pre)
  {
    hide ControlAfter;
    StartPath(pre, step, command);
    var started := pre + StartCalls(step, command);
    Path1(started, CommandEnded(command, true, true));
    Path2(started + [CommandEnded(command, true, true)], StepRecorded(step, command, Succeeded),
          CommandPassed(command));
    assert pre + PassingCalls(step, command) ==
           started + [CommandEnded(command, true, true)]
             + [StepRecorded(step, command, Succeeded), CommandPassed(command)];
  }

  lemma EndedPath(pre: seq<Event>, step: string, command: string, ran: bool, ok: bool, status: Status)
    requires ControlAfter(pre).Some? && Idle(ControlAfter(pre).value) && (ok ==> ran)
    ensures var es := pre + (StartCalls(step, command) + [CommandEnded(command, ran, ok)]
                             + [StepRecorded(step, command, status)]);
      ControlAfter(es) == Some(ControlAfter(pre).value.(phase := if ok then Begun(true) else Failing,
                                                        ended := if ok then Some(command) else None))
  {
    hide ControlAfter;
    StartPath(pre, step, command);
    var started := pre + StartCalls(step, command);
    Path2(started, CommandEnded(command, ran, ok), StepRecorded(step, command, status));
    assert pre + (StartCalls(step, command) + [CommandEnded(command, ran, ok)]
                  + [StepRecorded(step, command, status)]) ==
           started + [CommandEnded(command, ran, ok), StepRecorded(step, command, status)];
  }

  lemma LatePath(pre: seq<Event>, step: string, command: string)
    requires ControlAfter(pre).Some? && Idle(ControlAfter(pre).value)
    ensures ControlAfter(pre + LateCalls(step, command)) == Some(ControlAfter(pre).value.(phase := Late))
  {
    hide ControlAfter;
    StartPath(pre, step, command);
    var started := pre + StartCalls(step, command);
    Path2(started, CommandGivenUp(command), StepRecorded(step, command, ReconciliationRequired));
    assert pre + LateCalls(step, command) == started
      + [CommandGivenUp(command), StepRecorded(step, command, ReconciliationRequired)];
  }

  lemma InvalidIsNotLate(command: string)
    ensures ValidateCommand(command).Some? ==> !MayStillBeRunning(ValidateCommand(command).value)
  {
  }

  lemma FailingPath(pre: seq<Event>, step: string, command: string, lock: LifecycleLock, err: Error, es: seq<Event>)
    requires ControlAfter(pre).Some? && Idle(ControlAfter(pre).value) && ControlAfter(pre).value.lock == lock
    requires CommandFails(step, command, lock, err, es)
    ensures ControlAfter(pre + es).Some? && FailedWith(ControlAfter(pre + es).value, err)
            && ControlAfter(pre + es).value.lock == lock
  {
    hide ControlAfter, StartCalls, ValidateCommand, LateCalls;
    InvalidIsNotLate(command);
    EndedPath(pre, step, command, true, true, Succeeded);
    EndedPath(pre, step, command, true, false, ErrorStatus(err));
    EndedPath(pre, step, command, false, false, ErrorStatus(err));
    LatePath(pre, step, command);
    Path1(pre, StepRecorded(step, command, Running));
    Path1(pre, StepRecorded(step, command, ErrorStatus(err)));
    LostPath(pre, step, command);
  }

  lemma LostPath(pre: seq<Event>, step: string, command: string)
    requires ControlAfter(pre).Some? && Idle(ControlAfter(pre).value)
    ensures ControlAfter(pre + [StepRecorded(step, command, Running), RenewalStarted, RenewalAnswered(false),
                                StepRecorded(step, command, Failed)]) ==
            Some(ControlAfter(pre).value.(phase := Failing))
  {
    hide ControlAfter;
    Path4(pre, StepRecorded(step, command, Running), RenewalStarted, RenewalAnswered(false),
          StepRecorded(step, command, Failed));
  }

  lemma {:induction false} GroupPath(pre: seq<Event>, step: string, list: seq<string>, seen: set<string>,
                                     lock: LifecycleLock,
                                     es: seq<Event>, n: nat, err: Option<Error>)
    requires ControlAfter(pre).Some? && Idle(ControlAfter(pre).value) && ControlAfter(pre).value.lock == lock
    requires GroupRuns(step, list, seen, lock, es, n, err)
    ensures err.None? ==> ControlAfter(pre + es) == ControlAfter(pre)
    ensures err.Some? ==>
            ControlAfter(pre + es).Some? && FailedWith(ControlAfter(pre + es).value, err.value)
              && ControlAfter(pre + es).value.lock == lock
    decreases |list|
  {
    hide ControlAfter, PassingCalls, CommandFails, Idle;
    if list == [] {
      assert pre + es == pre;
    } else if n == 0 {
      FailingPath(pre, step, list[0], lock, err.value, es);
    } else if list[0] in seen {
      GroupPath(pre, step, list[1..], seen, lock, es, n - 1, err);
    } else {
      var first := PassingCalls(step, list[0]);
      PassingPath(pre, step, list[0]);
      assert pre + es == (pre + first) + es[|first|..];
      GroupPath(pre + first, step, list[1..], seen + {list[0]}, lock, es[|first|..], n - 1, err);
    }
  }

  lemma MutationPath(pre: seq<Event>, item: PlanItem, seen: set<string>, lock: LifecycleLock, es: seq<Event>, n: nat,
                     err: Option<Error>)
    requires ControlAfter(pre).Some? && Idle(ControlAfter(pre).value) && ControlAfter(pre).value.lock == lock
    requires MutationRuns(item, seen, lock, es, n, err)
    ensures err.None? ==> ControlAfter(pre + es) == ControlAfter(pre)
    ensures err.Some? ==>
            ControlAfter(pre + es).Some? && FailedWith(ControlAfter(pre + es).value, err.value)
              && ControlAfter(pre + es).value.lock == lock
  {
    hide ControlAfter, GroupRuns, NormalizedCommands, Idle, FailedWith;
    var checks, commands := NormalizedCommands(item.destructiveCheck), NormalizedCommands(item.command);
    if n < |checks| {
      GroupPath(pre, "destructive_check", checks, seen, lock, es, n, err);
    } else {
      var k: nat :| k <= |es|
        && GroupRuns("destructive_check", checks, seen, lock, es[..k], |checks|, None)
        && GroupRuns("command", commands, seen + Elements(checks), lock, es[k..], n - |checks|, err);
      GroupPath(pre, "destructive_check", checks, seen, lock, es[..k], |checks|, None);
      GroupPath(pre + es[..k], "command", commands, seen + Elements(checks), lock, es[k..], n - |checks|, err);
      assert pre + es[..k] + es[k..] == pre + es;
    }
  }

  lemma StatusFinishes(err: Error)
    ensures if MayStillBeRunning(err) then ErrorStatus(err) == ReconciliationRequired
            else ErrorStatus(err) == Failed || ErrorStatus(err) == ManualRequired
  {
  }

  lemma EndingPath(pre: seq<Event>, inner: Option<Error>, es: seq<Event>, err: Option<Error>)
    requires ControlAfter(pre).Some? && Ends(inner, es, err)
    requires if inner.Some? then FailedWith(ControlAfter(pre).value, inner.value) else Idle(ControlAfter(pre).value)
    ensures ControlAfter(pre + es).Some?
    ensures var c := ControlAfter(pre + es).value;
      && c.lock == ControlAfter(pre).value.lock
      && if err.Some? && MayStillBeRunning(err.value) then c.phase == Late && c.watched
         else c.phase == Exiting && !c.watched
  {
    hide ControlAfter, LateRunner, ErrorStatus, FailureCalls;
    if inner.Some? {
      HandOverPath(pre, inner.value, true);
      HandOverPath(pre, inner.value, false);
    } else {
      PlainErrorsEnd(err);
      Path2(pre, StateWritten(Succeeded), RunFinished(Succeeded, true));
      Path2(pre, StateWritten(Succeeded), RunFinished(Succeeded, false));
      Path2(pre, StateWritten(Succeeded), RunFinished(Failed, true));
      Path2(pre, StateWritten(Succeeded), RunFinished(Failed, false));
    }
  }

  lemma PlainErrorsEnd(err: Option<Error>)
    ensures err.Some? && err.value.Plain? ==> !MayStillBeRunning(err.value)
  {
  }

  lemma HandOverPath(pre: seq<Event>, e: Error, wrote: bool)
    requires ControlAfter(pre).Some? && FailedWith(ControlAfter(pre).value, e)
    ensures var end := ControlAfter(pre + FailureCalls(e, wrote));
      && end.Some? && end.value.lock == ControlAfter(pre).value.lock
      && if MayStillBeRunning(e) then end.value.phase == Late && end.value.watched
         else end.value.phase == Exiting && !end.value.watched
  {
    hide ControlAfter, LateRunner, ErrorStatus;
    StatusFinishes(e);
    var recorded := pre + [RunFinished(ErrorStatus(e), wrote), StateWritten(ErrorStatus(e))];
    Path2(pre, RunFinished(ErrorStatus(e), wrote), StateWritten(ErrorStatus(e)));
    if MayStillBeRunning(e) {
      Path1(recorded, HandedOver(LateRunner(e).value));
      assert recorded + [HandedOver(LateRunner(e).value)] == pre + FailureCalls(e, wrote);
    } else {
      assert recorded == pre + FailureCalls(e, wrote);
    }
  }

  /** The phase the course leaves behind before the deferred release. */
  predicate ReadyToReturn(c: Control, lock: LifecycleLock, err: Option<Error>) {
    && c.lock == lock
    && if err.Some? && MayStillBeRunning(err.value) then c.phase == Late && c.watched
       else c.phase == Exiting && !c.watched
  }

  lemma EarlyPath(pre: seq<Event>, item: PlanItem, lock: LifecycleLock, es: seq<Event>, err: Option<Error>)
    requires ControlAfter(pre) == Some(AtStart.(phase := Held, lock := lock)) && StopsEarly(item, es, err)
    ensures ControlAfter(pre + es).Some? && ReadyToReturn(ControlAfter(pre + es).value, lock, err)
  {
    hide ControlAfter, ItemIsRunnable, MayStillBeRunning;
    PlainErrorsEnd(err);
    Path1(pre, RunRead(true, false, ItemIsRunnable(item)));
    Path1(pre, RunRead(true, true, ItemIsRunnable(item)));
    Path1(pre, RunRead(false, true, ItemIsRunnable(item)));
    Path2(pre, RunRead(false, false, true), GateRefused);
    EnteringPath(pre, lock, [], true);
    EnteringPath(pre, lock, [GateOpened], true);
    Path2(pre, RunRead(false, false, false), RunBegun(true));
    if err.Some? && FailsValidation(item, es, err.value) {
      ValidationPath(pre, item, lock, es, err.value);
    }
  }

  lemma ValidationPath(pre: seq<Event>, item: PlanItem, lock: LifecycleLock, es: seq<Event>, err: Error)
    requires ControlAfter(pre) == Some(AtStart.(phase := Held, lock := lock)) && FailsValidation(item, es, err)
    ensures ControlAfter(pre + es).Some? && ReadyToReturn(ControlAfter(pre + es).value, lock, Some(err))
  {
    hide ControlAfter, CommandList, ErrorStatus, After, ValidateCommand, ValidationCalls;
    var step, c, wrote :| c in CommandList(item) && ValidateCommand(c) == Some(err)
      && es == [RunRead(false, false, false)] + ValidationCalls(step, c, ErrorStatus(err), wrote);
    InvalidIsNotLate(c);
    StatusFinishes(err);
    var cleared := pre + [RunRead(false, false, false)];
    ClearedPath(pre, lock);
    RefusedPath(cleared, lock, step, c, ErrorStatus(err), wrote);
    assert pre + es == cleared + ValidationCalls(step, c, ErrorStatus(err), wrote);
  }

  lemma ClearedPath(pre: seq<Event>, lock: LifecycleLock)
    requires ControlAfter(pre) == Some(AtStart.(phase := Held, lock := lock))
    ensures ControlAfter(pre + [RunRead(false, false, false)]) == Some(AtStart.(phase := Cleared(false), lock := lock))
  {
    hide ControlAfter;
    Path1(pre, RunRead(false, false, false));
  }

  lemma RefusedPath(pre: seq<Event>, lock: LifecycleLock, step: string, command: string, status: Status, wrote: bool)
    requires ControlAfter(pre) == Some(AtStart.(phase := Cleared(false), lock := lock))
    requires status == Failed || status == ManualRequired
    ensures ControlAfter(pre + ValidationCalls(step, command, status, wrote)) ==
            Some(AtStart.(phase := Exiting, lock := lock))
  {
    hide ControlAfter;
    Path4(pre, RunBegun(false), StepRecorded(step, command, status), RunFinished(status, wrote), StateWritten(status));
  }

  lemma EnteringPath(pre: seq<Event>, lock: LifecycleLock, gate: seq<Event>, failed: bool)
    requires ControlAfter(pre) == Some(AtStart.(phase := Held, lock := lock)) && (gate == [] || gate == [GateOpened])
    ensures ControlAfter(pre + (Entering(gate) + [RunBegun(failed)])) ==
            Some(AtStart.(phase := if failed then Exiting else Begun(true), lock := lock))
  {
    hide ControlAfter;
    Path1(pre, RunRead(false, false, true));
    var cleared := pre + [RunRead(false, false, true)];
    assert cleared + [] == cleared;
    Path1(cleared, GateOpened);
    Path1(cleared + gate, RunBegun(failed));
    assert pre + (Entering(gate) + [RunBegun(failed)]) == cleared + gate + [RunBegun(failed)];
  }

  lemma MutatesPath(pre: seq<Event>, item: PlanItem, seen: set<string>, lock: LifecycleLock, es: seq<Event>, n: nat,
                    err: Option<Error>)
    requires ControlAfter(pre) == Some(AtStart.(phase := Held, lock := lock)) && Mutates(item, seen, lock, es, n, err)
    ensures ControlAfter(pre + es).Some? && ReadyToReturn(ControlAfter(pre + es).value, lock, err)
  {
    hide ControlAfter, MutationRuns, Ends, MayStillBeRunning, FailedWith;
    var gate, body, inner, ending :| IsMutation(item, seen, lock, gate, body, inner, ending, es, n, err);
    var begun := pre + (Entering(gate) + [RunBegun(false)]);
    EnteringPath(pre, lock, gate, false);
    MutationPath(begun, item, seen, lock, body, n, inner);
    EndingPath(begun + body, inner, ending, err);
    assert pre + es == begun + body + ending;
  }

  /** Every course is a path of the protocol that ends with the lock released or handed over, handed
      over exactly when the error says that the runner may still be running. */
  lemma CourseIsPath(item: PlanItem, seen: set<string>, es: seq<Event>, n: nat, err: Option<Error>)
    requires ItemRuns(item, seen, es, n, err)
    ensures ControlAfter(es).Some? && Settled(ControlAfter(es).value)
    ensures ControlAfter(es).value.phase == Late <==> err.Some? && MayStillBeRunning(err.value)
  {
    hide ControlAfter, HeldRuns, MayStillBeRunning;
    StartIsPath();
    PlainErrorsEnd(err);
    Path1([], LockFailed);
    forall holder ensures ControlAfter([] + [LockHeldBy(holder)]) == Then(ControlAfter([]), LockHeldBy(holder)) {
      Path1([], LockHeldBy(holder));
    }
    if lock, held :| IsHeld(item, seen, lock, held, es, n, err) {
      HeldPath(item, seen, lock, held, n, err);
    }
  }

  lemma StartIsPath()
    ensures ControlAfter([]) == Some(AtStart)
    ensures forall e: Event :: [] + [e] == [e]
  {
  }

  lemma HeldPath(item: PlanItem, seen: set<string>, lock: LifecycleLock, held: seq<Event>, n: nat, err: Option<Error>)
    requires lock.acquired && HeldRuns(item, seen, lock, held, n, err)
    ensures var es := [LockGranted(lock)] + held + ReleaseCalls(lock, err);
      && ControlAfter(es).Some? && Settled(ControlAfter(es).value)
      && (ControlAfter(es).value.phase == Late <==> err.Some? && MayStillBeRunning(err.value))
  {
    hide ControlAfter, StopsEarly, Mutates, MayStillBeRunning;
    var pre := [LockGranted(lock)];
    StartIsPath();
    Path1([], LockGranted(lock));
    if n == 0 && StopsEarly(item, held, err) {
      EarlyPath(pre, item, lock, held, err);
    } else {
      MutatesPath(pre, item, seen, lock, held, n, err);
    }
    Path1(pre + held, LockReleased(lock));
    assert pre + held + [] == pre + held;
  }

  // --- what a course records and runs ----------------------------------------------------------------------

  lemma {:induction false} PassedOfConcat(a: seq<Event>, b: seq<Event>)
    ensures PassedIn(a + b) == PassedIn(a) + PassedIn(b)
  {
    if b == [] {
      assert a + b == a;
    } else {
      var front, last := b[..|b| - 1], b[|b| - 1];
      assert a + b == (a + front) + [last] && b == front + [last];
      PassedOfConcat(a, front);
      PassedGrows(a + front, last);
    }
  }

  lemma {:induction false} RanOfConcat(a: seq<Event>, b: seq<Event>)
    ensures RanIn(a + b) == RanIn(a) + RanIn(b)
  {
    if b == [] {
      assert a + b == a;
    } else {
      var front, last := b[..|b| - 1], b[|b| - 1];
      assert a + b == (a + front) + [last] && (a + b)[..|a + b| - 1] == a + front;
      RanOfConcat(a, front);
    }
  }

  /** The calls record the commands of 'passed', and ran those and then the commands of 'extra'. */
  predicate Traces(es: seq<Event>, passed: seq<string>, extra: seq<string>) {
    PassedIn(es) == passed && RanIn(es) == passed + extra
  }

  lemma TracesJoin(a: seq<Event>, b: seq<Event>, p: seq<string>, q: seq<string>, extra: seq<string>)
    requires Traces(a, p, []) && Traces(b, q, extra)
    ensures Traces(a + b, p + q, extra)
  {
    hide PassedIn, RanIn;
    PassedOfConcat(a, b);
    RanOfConcat(a, b);
    assert p + (q + extra) == (p + q) + extra;
  }

  lemma TracesThenQuiet(a: seq<Event>, b: seq<Event>, p: seq<string>, extra: seq<string>)
    requires Traces(a, p, extra) && Traces(b, [], [])
    ensures Traces(a + b, p, extra)
  {
    hide PassedIn, RanIn;
    PassedOfConcat(a, b);
    RanOfConcat(a, b);
    assert p + extra + ([] + []) == p + extra && p + [] == p;
  }

  predicate IsQuiet(e: Event) {
    !e.CommandPassed? && !(e.CommandEnded? && e.ran)
  }

  lemma {:induction false} QuietTraces(es: seq<Event>)
    requires forall i :: 0 <= i < |es| ==> IsQuiet(es[i])
    ensures Traces(es, [], [])
  {
    if es != [] { QuietTraces(es[..|es| - 1]); }
  }

  lemma RunnerTrace(step: string, command: string, ok: bool)
    ensures PassedIn(StartCalls(step, command) + [CommandEnded(command, true, ok)]) == []
    ensures RanIn(StartCalls(step, command) + [CommandEnded(command, true, ok)]) == [command]
  {
    hide StartCalls;
    StartIsQuiet(step, command);
    var start, last := StartCalls(step, command), CommandEnded(command, true, ok);
    PassedGrows(start, last);
    RanGrows(start, last);
    hide PassedIn, RanIn;
  }

  lemma StartIsQuiet(step: string, command: string)
    ensures Traces(StartCalls(step, command), [], [])
  {
    hide Traces;
    QuietTraces(StartCalls(step, command));
  }

  lemma RecordedTrace(step: string, command: string)
    ensures PassedIn([StepRecorded(step, command, Succeeded), CommandPassed(command)]) == [command]
    ensures RanIn([StepRecorded(step, command, Succeeded), CommandPassed(command)]) == []
  {
    var first, last := [StepRecorded(step, command, Succeeded)], CommandPassed(command);
    QuietTraces(first);
    PassedGrows(first, last);
    RanGrows(first, last);
    assert first + [last] == [StepRecorded(step, command, Succeeded), last];
    hide PassedIn, RanIn;
  }

  lemma PassingTrace(step: string, command: string)
    ensures Traces(PassingCalls(step, command), [command], [])
  {
    hide PassedIn, RanIn, StartCalls;
    RunnerTrace(step, command, true);
    RecordedTrace(step, command);
    var ran, recorded := StartCalls(step, command) + [CommandEnded(command, true, true)],
      [StepRecorded(step, command, Succeeded), CommandPassed(command)];
    PassedOfConcat(ran, recorded);
    RanOfConcat(ran, recorded);
  }

  /** A failing command records nothing, and may have run to success. */
  lemma FailingTrace(step: string, command: string, lock: LifecycleLock, err: Error, es: seq<Event>)
    returns (extra: seq<string>)
    requires CommandFails(step, command, lock, err, es)
    ensures Traces(es, [], extra)
    ensures extra == [] || (extra == [command] && !MayStillBeRunning(err))
  {
    hide PassedIn, RanIn, StartCalls, ValidateCommand;
    PlainErrorsEnd(Some(err));
    var started, recorded := StartCalls(step, command) + [CommandEnded(command, true, true)],
      [StepRecorded(step, command, Succeeded)];
    if es == UnrecordedCalls(step, command) && err.Plain? {
      RunnerTrace(step, command, true);
      QuietTraces(recorded);
      TracesThenQuiet(started, recorded, [], [command]);
      extra := [command];
    } else if es == ErrorCalls(step, command, true, err) && !MayStillBeRunning(err) {
      RunnerTrace(step, command, false);
      QuietTraces([StepRecorded(step, command, ErrorStatus(err))]);
      TracesThenQuiet(StartCalls(step, command) + [CommandEnded(command, true, false)],
                      [StepRecorded(step, command, ErrorStatus(err))], [], [command]);
      extra := [command];
    } else {
      QuietFailure(step, command, lock, err, es);
      extra := [];
    }
  }

  lemma QuietFailure(step: string, command: string, lock: LifecycleLock, err: Error, es: seq<Event>)
    requires CommandFails(step, command, lock, err, es)
    requires es != ErrorCalls(step, command, true, err) || MayStillBeRunning(err)
    requires es != UnrecordedCalls(step, command) || !err.Plain?
    ensures Traces(es, [], [])
  {
    hide Traces, ValidateCommand;
    QuietTraces(es);
  }

  /** What a list's calls record is its first new commands up to n; the one after them may have run unrecorded. */
  lemma {:induction false} GroupTrace(step: string, list: seq<string>, seen: set<string>, lock: LifecycleLock,
                                      es: seq<Event>, n: nat, err: Option<Error>)
    returns (extra: seq<string>)
    requires GroupRuns(step, list, seen, lock, es, n, err)
    ensures n <= |list| && Traces(es, FirstNew(list[..n], seen), extra)
    ensures extra == [] || IsUnrecorded(list, seen, n, err, extra)
    decreases |list|
  {
    hide PassingCalls, CommandFails, Traces, MayStillBeRunning, IsUnrecorded;
    GroupLength(step, list, seen, lock, es, n, err);
    FirstNewOfNone(seen);
    if list == [] {
      QuietTraces(es);
      extra := [];
      assert list[..0] == [];
    } else if n == 0 {
      assert list[..0] == [];
      extra := FailingTrace(step, list[0], lock, err.value, es);
      if extra != [] { UnrecordedFirst(list, seen, err, extra); }
    } else {
      var first, rest := PassingCalls(step, list[0]), list[1..];
      assert list[..n][1..] == rest[..n - 1];
      if list[0] in seen {
        extra := GroupTrace(step, rest, seen, lock, es, n - 1, err);
        if extra != [] { UnrecordedLater(list, seen, seen, n, err, extra); }
      } else {
        extra := GroupTrace(step, rest, seen + {list[0]}, lock, es[|first|..], n - 1, err);
        PassingTrace(step, list[0]);
        TracesJoin(first, es[|first|..], [list[0]], FirstNew(rest[..n - 1], seen + {list[0]}), extra);
        assert es == first + es[|first|..];
        if extra != [] { UnrecordedLater(list, seen, seen + {list[0]}, n, err, extra); }
      }
    }
  }

  /** The command after the first n ran, is new, and its failure is not a late runner. */
  predicate IsUnrecorded(list: seq<string>, seen: set<string>, n: nat, err: Option<Error>, extra: seq<string>) {
    && n < |list| && extra == [list[n]] && list[n] !in seen && list[n] !in list[..n]
    && err.Some? && !MayStillBeRunning(err.value)
  }

  lemma UnrecordedFirst(list: seq<string>, seen: set<string>, err: Option<Error>, extra: seq<string>)
    requires list != [] && list[0] !in seen && extra == [list[0]] && err.Some? && !MayStillBeRunning(err.value)
    ensures IsUnrecorded(list, seen, 0, err, extra)
  {
  }

  lemma UnrecordedLater(list: seq<string>, seen: set<string>, next: set<string>, n: nat, err: Option<Error>,
                        extra: seq<string>)
    requires list != [] && 0 < n && next == seen + {list[0]} && IsUnrecorded(list[1..], next, n - 1, err, extra)
    ensures IsUnrecorded(list, seen, n, err, extra)
  {
    assert list[..n] == [list[0]] + list[1..][..n - 1];
  }

  /** The whole item. */
  lemma MutationTrace(item: PlanItem, seen: set<string>, lock: LifecycleLock, es: seq<Event>, n: nat,
                      err: Option<Error>) returns (extra: seq<string>)
    requires MutationRuns(item, seen, lock, es, n, err)
    ensures n <= |CommandList(item)| && Traces(es, FirstNew(CommandList(item)[..n], seen), extra)
    ensures extra == [] || IsUnrecorded(CommandList(item), seen, n, err, extra)
    ensures err.None? ==> n == |CommandList(item)|
  {
    hide GroupRuns, NormalizedCommands, Traces, FirstNew;
    var checks, commands := NormalizedCommands(item.destructiveCheck), NormalizedCommands(item.command);
    if n < |checks| {
      GroupLength("destructive_check", checks, seen, lock, es, n, err);
      extra := GroupTrace("destructive_check", checks, seen, lock, es, n, err);
      assert (checks + commands)[..n] == checks[..n];
    } else {
      var k: nat :| k <= |es|
        && GroupRuns("destructive_check", checks, seen, lock, es[..k], |checks|, None)
        && GroupRuns("command", commands, seen + Elements(checks), lock, es[k..], n - |checks|, err);
      var next, m := seen + Elements(checks), n - |checks|;
      var none := GroupTrace("destructive_check", checks, seen, lock, es[..k], |checks|, None);
      extra := GroupTrace("command", commands, next, lock, es[k..], m, err);
      GroupLength("command", commands, next, lock, es[k..], m, err);
      assert checks[..|checks|] == checks && (checks + commands)[..n] == checks + commands[..m];
      FirstNewOfConcat(checks, commands[..m], seen);
      TracesJoin(es[..k], es[k..], FirstNew(checks, seen), FirstNew(commands[..m], next), extra);
      assert es == es[..k] + es[k..];
    }
  }

  lemma EndsQuietly(inner: Option<Error>, es: seq<Event>, err: Option<Error>)
    requires Ends(inner, es, err)
    ensures Traces(es, [], [])
    ensures inner.Some? ==> err == inner
  {
    hide Traces, ErrorStatus, MayStillBeRunning, LateRunner;
    QuietTraces(es);
  }

  lemma EarlyTrace(item: PlanItem, es: seq<Event>, err: Option<Error>)
    requires StopsEarly(item, es, err)
    ensures Traces(es, [], [])
  {
    hide Traces, ErrorStatus, ItemIsRunnable, CommandList, ValidateCommand;
    QuietTraces(es);
  }

  lemma MutatesTrace(item: PlanItem, seen: set<string>, lock: LifecycleLock, es: seq<Event>, n: nat, err: Option<Error>)
    returns (extra: seq<string>)
    requires Mutates(item, seen, lock, es, n, err)
    ensures n <= |CommandList(item)| && Traces(es, FirstNew(CommandList(item)[..n], seen), extra)
    ensures extra == [] || IsUnrecorded(CommandList(item), seen, n, err, extra)
    ensures err.None? ==> n == |CommandList(item)|
  {
    hide MutationRuns, Ends, Traces, FirstNew, CommandList, IsUnrecorded;
    var gate, body, inner, ending :| IsMutation(item, seen, lock, gate, body, inner, ending, es, n, err);
    var begun := Entering(gate) + [RunBegun(false)];
    extra := MutationTrace(item, seen, lock, body, n, inner);
    EndsQuietly(inner, ending, err);
    if extra != [] { UnrecordedError(CommandList(item), seen, n, inner, extra); }
    EndsWell(inner, ending, err);
    QuietTraces(begun);
    TracesJoin(begun, body, [], FirstNew(CommandList(item)[..n], seen), extra);
    TracesThenQuiet(begun + body, ending, [] + FirstNew(CommandList(item)[..n], seen), extra);
    assert [] + FirstNew(CommandList(item)[..n], seen) == FirstNew(CommandList(item)[..n], seen);
  }

  lemma UnrecordedError(list: seq<string>, seen: set<string>, n: nat, err: Option<Error>, extra: seq<string>)
    requires IsUnrecorded(list, seen, n, err, extra)
    ensures err.Some?
  {
  }

  lemma EndsWell(inner: Option<Error>, es: seq<Event>, err: Option<Error>)
    requires Ends(inner, es, err)
    ensures err.None? ==> inner.None?
  {
  }

  /** Recorded as succeeded are exactly the first new commands of the first n; what also ran is at most
      the command after them, and only in an item all of whose commands may run. */
  lemma CourseTrace(item: PlanItem, seen: set<string>, es: seq<Event>, n: nat, err: Option<Error>)
    returns (extra: seq<string>)
    requires ItemRuns(item, seen, es, n, err)
    ensures n <= |CommandList(item)| && Traces(es, FirstNew(CommandList(item)[..n], seen), extra)
    ensures extra == [] || (ItemIsRunnable(item) && IsUnrecorded(CommandList(item), seen, n, err, extra))
    ensures n > 0 ==> ItemIsRunnable(item)
    ensures err.None? ==> n == 0 || n == |CommandList(item)|
  {
    hide StopsEarly, Traces, FirstNew, CommandList, IsUnrecorded, IsMutation, ItemIsRunnable;
    extra := [];
    FirstNewOfNone(seen);
    assert CommandList(item)[..0] == [];
    if lock, held :| IsHeld(item, seen, lock, held, es, n, err) {
      if n == 0 && StopsEarly(item, held, err) {
        EarlyTrace(item, held, err);
      } else {
        extra := MutatesTrace(item, seen, lock, held, n, err);
        MutatesIsRunnable(item, seen, lock, held, n, err);
      }
      HeldTrace(lock, held, err, FirstNew(CommandList(item)[..n], seen), extra);
    } else {
      QuietTraces(es);
    }
  }

  lemma MutatesIsRunnable(item: PlanItem, seen: set<string>, lock: LifecycleLock, es: seq<Event>, n: nat,
                          err: Option<Error>)
    requires Mutates(item, seen, lock, es, n, err)
    ensures ItemIsRunnable(item)
  {
  }

  lemma HeldTrace(lock: LifecycleLock, held: seq<Event>, err: Option<Error>, passed: seq<string>, extra: seq<string>)
    requires Traces(held, passed, extra)
    ensures Traces([LockGranted(lock)] + held + ReleaseCalls(lock, err), passed, extra)
  {
    hide Traces, MayStillBeRunning;
    QuietTraces([LockGranted(lock)]);
    QuietTraces(ReleaseCalls(lock, err));
    TracesJoin([LockGranted(lock)], held, [], passed, extra);
    TracesThenQuiet([LockGranted(lock)] + held, ReleaseCalls(lock, err), [] + passed, extra);
    assert [] + passed == passed;
  }
}
