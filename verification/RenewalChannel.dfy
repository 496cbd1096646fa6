/** runCommandWithRenewal: the caller, the runner goroutine and the renewal goroutine,
    joined by two channels of capacity one. Contexts can end and select can pick any
    ready case, so every interleaving is a run of this machine. */
module RenewalChannel {
  import opened Outcomes

  datatype Cause = Canceled | DeadlineExceeded | Other

  /** An error value, as far as errors.Is can tell. */
  datatype Fault = Nil | Fault(causes: set<Cause>)

  predicate Is(f: Fault, c: Cause) {
    f.Fault? && c in f.causes
  }

  function Join(a: Fault, b: Fault): Fault {
    if a == Nil then b else if b == Nil then a else Fault(a.causes + b.causes)
  }

  function ResultError(run: Fault, renew: Fault, ctx: Option<Cause>): Fault {
    var renewErr := if Is(renew, Canceled) then Nil else renew;
    var runErr :=
      if ctx.Some? && !Is(run, ctx.value) && !Is(renewErr, ctx.value) then Join(run, Fault({ctx.value})) else run;
    Join(runErr, renewErr)
  }

  ghost predicate Has(f: Fault, c: Cause) {
    match f
    case Nil => false
    case Fault(causes) => c in causes
  }

  /** The joined error has every cause of runner and context, and those of the renewal unless it was cancelled;
      and there is none exactly if the runner returned nil, the context had not ended and renewal was cancelled
      or returned nil. */
  lemma ResultErrorMeaning(run: Fault, renew: Fault, ctx: Option<Cause>, c: Cause)
    ensures Has(ResultError(run, renew, ctx), c) <==>
            Has(run, c) || (Has(renew, c) && !Has(renew, Canceled)) || ctx == Some(c)
    ensures ResultError(run, renew, ctx) == Nil <==> run == Nil && ctx == None && (renew == Nil || Has(renew, Canceled))
  {
  }

  datatype Outcome = Finished(err: Fault) | StillRunning

  datatype Caller =
    | AwaitFirst                                  // first select of awaitCommand
    | Grace(renewErr: Fault)                      // waiting for output or the grace timer
    | Joining(output: Option<Fault>, renewErr: Fault)   // renewal cancelled; may still receive its value
    | Returned(outcome: Outcome, ctxSeen: Option<Cause>)

  datatype Renewer = Waiting | Renewing | Exited

  datatype Runner = Active | Posted(err: Fault) | Taken(err: Fault)

  datatype State = State(
    caller: Caller,
    renewer: Renewer,
    runner: Runner,
    ctx: Option<Cause>,         // how the command's context ended
    cancelled: bool,            // the renewal context
    buffer: Option<Fault>,      // the renewal channel
    sent: seq<Fault>,
    received: seq<Fault>,
    commits: nat
  )

  const Start := State(AwaitFirst, Waiting, Active, None, false, None, [], [], 0)

  datatype Step =
    | RunnerEnds(err: Fault)
    | CtxEnds(cause: Cause)
    | Tick
    | RenewSucceeds
    | RenewSucceedsUnacquired       // a store whose Renew drops the acquired mark
    | RenewFails(err: Fault)        // also: the lease expired before the renewal
    | SeesCancel
    | TakeOutput
    | TakeRenewal
    | SeeCtx
    | GraceTimer
    | Return

  predicate Enabled(s: State, step: Step, preservesAcquired: bool) {
    match step
    case RunnerEnds(_) => s.runner == Active
    case CtxEnds(cause) => s.ctx == None && cause != Other
    case Tick => s.renewer == Waiting
    case RenewSucceeds => s.renewer == Renewing
    case RenewSucceedsUnacquired => s.renewer == Renewing && !preservesAcquired
    case RenewFails(err) => s.renewer == Renewing && err != Nil
    case SeesCancel => s.renewer == Waiting && s.cancelled
    case TakeOutput => (s.caller == AwaitFirst || s.caller.Grace?) && s.runner.Posted?
    case TakeRenewal => s.caller == AwaitFirst && s.buffer.Some?
    case SeeCtx => s.caller == AwaitFirst && s.ctx.Some?
    case GraceTimer => s.caller.Grace?
    case Return => s.caller.Joining? && (s.caller.renewErr != Nil || s.buffer.Some?)
  }

  function Send(s: State, v: Fault): State {
    s.(renewer := Exited, buffer := Some(v), sent := s.sent + [v])
  }

  function Receive(s: State): State
    requires s.buffer.Some?
  {
    s.(buffer := None, received := s.received + [s.buffer.value])
  }

  function Apply(s: State, step: Step): State
    requires Enabled(s, step, true) || Enabled(s, step, false)
  {
    match step
    case RunnerEnds(err) => s.(runner := Posted(err))
    case CtxEnds(cause) => s.(ctx := Some(cause))
    case Tick => s.(renewer := Renewing)
    case RenewSucceeds => s.(renewer := Waiting, commits := s.commits + 1)
    case RenewSucceedsUnacquired => s.(renewer := Exited, commits := s.commits + 1)
    case RenewFails(err) => Send(s, err)
    case SeesCancel => Send(s, Fault({Canceled}))
    case TakeOutput =>
      s.(caller := Joining(Some(s.runner.err), if s.caller.Grace? then s.caller.renewErr else Nil),
         runner := Taken(s.runner.err), cancelled := true)
    case TakeRenewal =>
      Receive(s).(caller := Grace(s.buffer.value), ctx := if s.ctx.Some? then s.ctx else Some(Canceled))
    case SeeCtx => s.(caller := Grace(Nil))
    case GraceTimer => s.(caller := Joining(None, s.caller.renewErr), cancelled := true)
    case Return =>
      var renewErr := if s.caller.renewErr == Nil then s.buffer.value else s.caller.renewErr;
      var r := if s.caller.renewErr == Nil then Receive(s) else s;
      r.(caller := Returned(
           if s.caller.output.Some? then Finished(ResultError(s.caller.output.value, renewErr, s.ctx))
             else StillRunning,
           s.ctx))
  }

  ghost predicate Next(s: State, t: State, preservesAcquired: bool) {
    exists step: Step :: Enabled(s, step, preservesAcquired) && t == Apply(s, step)
  }

  ghost predicate IsPath(run: seq<State>, preservesAcquired: bool) {
    |run| > 0 && forall i :: 0 < i < |run| ==> Next(run[i - 1], run[i], preservesAcquired)
  }

  ghost predicate IsRun(run: seq<State>, preservesAcquired: bool) {
    IsPath(run, preservesAcquired) && run[0] == Start
  }

  /** Holds of every reachable state when Renew keeps the acquired mark. */
  ghost predicate Inv(s: State) {
    && |s.received| <= |s.sent| <= 1
    && (s.renewer == Exited <==> |s.sent| == 1)
    && (|s.sent| == 1 ==> s.sent[0] != Nil)
    && s.received == s.sent[..|s.received|]
    && s.buffer == (if |s.received| < |s.sent| then Some(s.sent[0]) else None)
    && match s.caller {
         case AwaitFirst => s.received == [] && !s.cancelled && !s.runner.Taken?
         case Grace(renewErr) =>
           && s.received == (if renewErr == Nil then [] else [renewErr])
           && !s.cancelled && s.ctx.Some? && !s.runner.Taken?
         case Joining(output, renewErr) =>
           && s.received == (if renewErr == Nil then [] else [renewErr])
           && s.cancelled
           && (output.Some? ==> s.runner == Taken(output.value))
           && (output.None? ==> !s.runner.Taken?)
           && (output.None? || renewErr != Nil ==> s.ctx.Some?)
         case Returned(outcome, ctxSeen) =>
           && |s.received| == 1
           && outcome == (if s.runner.Taken? then Finished(ResultError(s.runner.err, s.received[0], ctxSeen))
                          else StillRunning)
           && (!s.runner.Taken? ==> ctxSeen.Some?)
       }
  }

  lemma StepKeepsInv(s: State, step: Step)
    requires Inv(s) && Enabled(s, step, true)
    ensures Inv(Apply(s, step))
  {
  }

  lemma {:induction false} RunInv(run: seq<State>, i: nat)
    requires IsRun(run, true) && i < |run|
    ensures Inv(run[i])
  {
    if i > 0 {
      RunInv(run, i - 1);
      assert Next(run[i - 1], run[i], true);
      var step: Step :| Enabled(run[i - 1], step, true) && run[i] == Apply(run[i - 1], step);
      StepKeepsInv(run[i - 1], step);
    }
  }

  /** When the call has returned, the renewal goroutine has sent exactly one non-nil
      value, the caller has received it exactly once, and no renewal commits afterwards. */
  lemma {:induction false} OneValueThenSilence(run: seq<State>, i: nat, j: nat)
    requires IsRun(run, true) && i <= j < |run| && run[i].caller.Returned?
    ensures |run[j].sent| == 1 && run[j].sent[0] != Nil && run[j].received == run[j].sent
    ensures run[j].renewer == Exited && run[j].commits == run[i].commits
    ensures run[j].caller == run[i].caller
    decreases j
  {
    RunInv(run, j);
    if i < j {
      OneValueThenSilence(run, i, j - 1);
      RunInv(run, j - 1);
      assert Next(run[j - 1], run[j], true);
      ReturnedIsSilent(run[j - 1], run[j]);
    }
  }

  lemma ReturnedIsSilent(s: State, t: State)
    requires Inv(s) && s.caller.Returned? && Next(s, t, true)
    ensures t.sent == s.sent && t.received == s.received && t.renewer == s.renewer && t.commits == s.commits
            && t.caller == s.caller
  {
  }

  /** What a call answers: the runner's error joined with the renewal's and the command context's, if the
      runner was heard; else that the runner is still at work. */
  lemma OutcomeOfCall(run: seq<State>, i: nat)
    requires IsRun(run, true) && i < |run| && run[i].caller.Returned?
    ensures |run[i].received| == 1 && run[i].received[0] != Nil
    ensures run[i].caller.outcome == if run[i].runner.Taken?
                                     then Finished(ResultError(run[i].runner.err, run[i].received[0],
                                         run[i].caller.ctxSeen))
                                     else StillRunning
  {
    RunInv(run, i);
    OneValueThenSilence(run, i, i);
  }

  /** The call's error is nil exactly when the runner returned nil and was heard, the
      command's context had not ended, and renewal stopped only through cancellation. */
  lemma NilExactlyOnCleanFinish(run: seq<State>, i: nat)
    requires IsRun(run, true) && i < |run| && run[i].caller.Returned?
    ensures |run[i].received| == 1
    ensures run[i].caller.outcome == Finished(Nil) <==>
            run[i].runner == Taken(Nil) && run[i].caller.ctxSeen == None && Is(run[i].received[0], Canceled)
    ensures run[i].caller.outcome == StillRunning <==> !run[i].runner.Taken?
  {
    OneValueThenSilence(run, i, i);
    RunInv(run, i);
  }

  /** No deadlock: once the caller waits for the renewal goroutine, that goroutine alone
      can bring it to return within two steps. */
  lemma JoiningCanReturn(s: State) returns (path: seq<State>)
    requires Inv(s) && s.caller.Joining?
    ensures IsPath(path, true) && path[0] == s && path[|path| - 1].caller.Returned? && |path| <= 3
    ensures forall i :: 0 <= i < |path| ==> path[i].runner == s.runner && path[i].ctx == s.ctx
  {
    if Enabled(s, Return, true) {
      path := [s, Apply(s, Return)];
      assert Next(s, path[1], true);
    } else {
      var step := if s.renewer == Waiting then SeesCancel else RenewFails(Fault({Other}));
      var t := Apply(s, step);
      assert Enabled(s, step, true) && Next(s, t, true);
      assert Enabled(t, Return, true) && Next(t, Apply(t, Return), true);
      path := [s, t, Apply(t, Return)];
    }
  }

  ghost predicate Returns(s: State, path: seq<State>) {
    IsPath(path, true) && path[0] == s && path[|path| - 1].caller.Returned?
  }

  lemma StepFirst(s: State, step: Step, tail: seq<State>)
    requires Enabled(s, step, true) && Returns(Apply(s, step), tail)
    ensures Returns(s, [s] + tail)
  {
    hide Enabled, Apply;
    var path := [s] + tail;
    assert Next(s, Apply(s, step), true);
    forall i | 0 < i < |path| ensures Next(path[i - 1], path[i], true) {
      if i > 1 { assert Next(tail[i - 2], tail[i - 1], true); }
    }
  }

  lemma GraceCanReturn(s: State) returns (path: seq<State>)
    requires Inv(s) && s.caller.Grace?
    ensures Returns(s, path) && |path| <= 4
  {
    StepKeepsInv(s, GraceTimer);
    var tail := JoiningCanReturn(Apply(s, GraceTimer));
    StepFirst(s, GraceTimer, tail);
    path := [s] + tail;
  }

  lemma EndedCanReturn(s: State) returns (path: seq<State>)
    requires Inv(s) && s.caller == AwaitFirst && s.ctx.Some?
    ensures Returns(s, path) && |path| <= 5
  {
    StepKeepsInv(s, SeeCtx);
    var tail := GraceCanReturn(Apply(s, SeeCtx));
    StepFirst(s, SeeCtx, tail);
    path := [s] + tail;
  }

  lemma CanReturn(s: State) returns (path: seq<State>)
    requires Inv(s)
    ensures Returns(s, path) && |path| <= 6
  {
    match s.caller {
      case Returned(_, _) => path := [s];
      case Joining(_, _) => path := JoiningCanReturn(s);
      case Grace(_) => path := GraceCanReturn(s);
      case AwaitFirst =>
        if s.ctx.Some? {
          path := EndedCanReturn(s);
        } else {
          var step := CtxEnds(DeadlineExceeded);
          StepKeepsInv(s, step);
          var tail := EndedCanReturn(Apply(s, step));
          StepFirst(s, step, tail);
          path := [s] + tail;
        }
    }
  }

  /** From every reachable state the call can return, even if the runner never ends. */
  lemma CallCanReturn(run: seq<State>)
    requires IsRun(run, true)
    ensures exists rest: seq<State> :: Returns(run[|run| - 1], rest) && |rest| <= 6
  {
    RunInv(run, |run| - 1);
    var rest := CanReturn(run[|run| - 1]);
  }

  /** The caller waits for a value that nobody will send. */
  predicate Stuck(s: State) {
    s.caller.Joining? && s.caller.renewErr == Nil && s.renewer == Exited && s.buffer == None
  }

  lemma {:induction false} StuckForever(run: seq<State>, i: nat, j: nat)
    requires IsPath(run, false) && i <= j < |run| && Stuck(run[i])
    ensures Stuck(run[j])
    decreases j
  {
    if i < j {
      StuckForever(run, i, j - 1);
      assert Next(run[j - 1], run[j], false);
    }
  }

  /** The absence of deadlock rests on Renew handing back an acquired lock: with a store
      that does not, a run reaches a state in which the caller waits for ever. */
  lemma UnacquiredRenewalDeadlocks()
    ensures exists run: seq<State> :: IsRun(run, false) && Stuck(run[|run| - 1])
  {
    var s1 := Apply(Start, Tick);
    var s2 := Apply(s1, RenewSucceedsUnacquired);
    var s3 := Apply(s2, RunnerEnds(Nil));
    var s4 := Apply(s3, TakeOutput);
    assert Next(Start, s1, false);
    assert Enabled(s1, RenewSucceedsUnacquired, false) && Next(s1, s2, false);
    assert Enabled(s2, RunnerEnds(Nil), false) && Next(s2, s3, false);
    assert Enabled(s3, TakeOutput, false) && Next(s3, s4, false);
    assert IsRun([Start, s1, s2, s3, s4], false);
  }
}
