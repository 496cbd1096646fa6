/** What one execution of a plan is: the runs of its items, and the commands they record and run. */
module PlanExecution {
  import opened Outcomes
  import opened LifecycleTypes
  import opened ExecutorPath
  import opened CommandPolicy
  import opened CommandTrace
  import opened Planner
  import opened ItemCourse
  import opened Executor
  import opened Ordering

  /** One call of executeItem: what it was asked, the calls it made, how many of the item's
      commands were passed by, and what it answered. */
  datatype ItemRun = ItemRun(item: PlanItem, events: seq<Event>, passed: nat, result: ResultItem, err: Option<Error>)

  predicate EndedWell(item: ResultItem) {
    item.status == Succeeded || item.status == Skipped
  }

  ghost predicate IsItemRun(r: ItemRun) {
    && ControlAfter(r.events).Some? && Settled(ControlAfter(r.events).value)
    && (ControlAfter(r.events).value.phase.Late? <==> r.err.Some? && MayStillBeRunning(r.err.value))
    && r.passed <= |CommandList(r.item)|
    && IsAnswerFor(r.item, r.events, r.result, r.err)
    && (r.err.None? ==> r.passed == if r.result.status == Succeeded then |CommandList(r.item)| else 0)
  }

  // --- what an item's answer says of its calls ------------------------------------------------------------

  predicate IsCommandCall(e: Event) {
    e.StepRecorded? || e.RenewalStarted? || e.RenewalAnswered? || e.CommandStarted? || e.CommandEnded?
      || e.CommandGivenUp? || e.CommandPassed?
  }

  ghost predicate OnlyCommandCalls(es: seq<Event>) {
    forall e :: e in es ==> IsCommandCall(e)
  }

  lemma {:induction false} GroupsOnlyRunCommands(step: string, list: seq<string>, seen: set<string>,
                                                 lock: LifecycleLock, es: seq<Event>, n: nat, err: Option<Error>)
    requires GroupRuns(step, list, seen, lock, es, n, err)
    ensures OnlyCommandCalls(es)
    decreases |list|
  {
    hide ValidateCommand, MayStillBeRunning, ErrorStatus;
    if list != [] && n > 0 {
      if list[0] in seen {
        GroupsOnlyRunCommands(step, list[1..], seen, lock, es, n - 1, err);
      } else {
        var k := |PassingCalls(step, list[0])|;
        assert OnlyCommandCalls(PassingCalls(step, list[0]));
        GroupsOnlyRunCommands(step, list[1..], seen + {list[0]}, lock, es[k..], n - 1, err);
        assert es == es[..k] + es[k..];
      }
    }
  }

  lemma MutationOnlyRunsCommands(item: PlanItem, seen: set<string>, lock: LifecycleLock, es: seq<Event>, n: nat,
                                 err: Option<Error>)
    requires MutationRuns(item, seen, lock, es, n, err)
    ensures OnlyCommandCalls(es)
  {
    hide GroupRuns, NormalizedCommands;
    var checks, commands := NormalizedCommands(item.destructiveCheck), NormalizedCommands(item.command);
    if n < |checks| {
      GroupsOnlyRunCommands("destructive_check", checks, seen, lock, es, n, err);
    } else {
      var k: nat :| k <= |es|
        && GroupRuns("destructive_check", checks, seen, lock, es[..k], |checks|, None)
        && GroupRuns("command", commands, seen + Elements(checks), lock, es[k..], n - |checks|, err);
      GroupsOnlyRunCommands("destructive_check", checks, seen, lock, es[..k], |checks|, None);
      GroupsOnlyRunCommands("command", commands, seen + Elements(checks), lock, es[k..], n - |checks|, err);
      assert es == es[..k] + es[k..];
    }
  }

  /** A call that refuses the item before any command: the lock manager failed, the run could not be read or
      begun, or the gate refused. */
  ghost predicate IsRefusalOf(e: Event) {
    e == LockFailed || e == GateRefused || e == RunBegun(true) || (e.RunRead? && e.failed)
  }

  /** What every call of an item's mutation fits with. */
  ghost predicate FitsAnswer(e: Event, item: PlanItem, result: ResultItem) {
    && (IsRefusalOf(e) ==> result.status == Failed && !result.skipped)
    && (item.state.id != "" && e.RunFinished? && e.wrote ==> result.status == e.status)
  }

  lemma PlainStatus(err: Option<Error>)
    ensures err.Some? && err.value.Plain? ==> ErrorStatus(err.value) == Failed && !MayStillBeRunning(err.value)
  {
  }

  /** An item that is refused before its commands has failed, and an outcome that was stored is the one reported. */
  lemma AnswerFitsCalls(item: PlanItem, seen: set<string>, es: seq<Event>, n: nat, result: ResultItem,
                        err: Option<Error>, e: Event)
    requires ItemRuns(item, seen, es, n, err) && IsAnswerFor(item, es, result, err) && e in es
    ensures FitsAnswer(e, item, result)
  {
    hide HeldRuns, ErrorText, MayStillBeRunning, ErrorStatus;
    PlainStatus(err);
    if lock, held :| IsHeld(item, seen, lock, held, es, n, err) {
      assert es[0] == LockGranted(lock);
      HeldAnswerFits(item, seen, lock, held, ReleaseCalls(lock, err), n, result, err, e);
    }
  }

  lemma HeldAnswerFits(item: PlanItem, seen: set<string>, lock: LifecycleLock, held: seq<Event>, release: seq<Event>,
                       n: nat, result: ResultItem, err: Option<Error>, e: Event)
    requires HeldRuns(item, seen, lock, held, n, err)
    requires IsAnswerFor(item, [LockGranted(lock)] + held + release, result, err)
    requires release == [] || release == [LockReleased(lock)]
    requires e in [LockGranted(lock)] + held + release
    ensures FitsAnswer(e, item, result)
  {
    hide StopsEarly, Mutates, IsAnswerFor, FitsAnswer, ErrorStatus;
    if e in held {
      if StopsEarly(item, held, err) {
        EarlyAnswerFits(item, lock, held, release, result, err, e);
      } else {
        MutationAnswerFits(item, seen, lock, held, release, n, result, err, e);
      }
    } else {
      OtherCallFits(e, item, result);
    }
  }

  lemma OtherCallFits(e: Event, item: PlanItem, result: ResultItem)
    requires e.LockGranted? || e.LockReleased?
    ensures FitsAnswer(e, item, result)
  {
  }

  lemma EarlyAnswerFits(item: PlanItem, lock: LifecycleLock, held: seq<Event>, release: seq<Event>, result: ResultItem,
                        err: Option<Error>, e: Event)
    requires StopsEarly(item, held, err) && e in held
    requires IsAnswerFor(item, [LockGranted(lock)] + held + release, result, err)
    ensures FitsAnswer(e, item, result)
  {
    hide ItemIsRunnable, ErrorText, MayStillBeRunning, ErrorStatus, CommandList, ValidateCommand;
    var es := [LockGranted(lock)] + held + release;
    assert es[0] == LockGranted(lock) && es[1] == held[0];
    PlainStatus(err);
  }

  lemma MutationAnswerFits(item: PlanItem, seen: set<string>, lock: LifecycleLock, held: seq<Event>,
                           release: seq<Event>, n: nat, result: ResultItem, err: Option<Error>, e: Event)
    requires Mutates(item, seen, lock, held, n, err) && e in held
    requires IsAnswerFor(item, [LockGranted(lock)] + held + release, result, err)
    ensures FitsAnswer(e, item, result)
  {
    hide MutationRuns, ItemIsRunnable, ErrorText, MayStillBeRunning, ErrorStatus, Ends;
    var gate, body, inner, ending :| IsMutation(item, seen, lock, gate, body, inner, ending, held, n, err);
    var es := [LockGranted(lock)] + held + release;
    assert es[0] == LockGranted(lock) && es[1] == held[0] == RunRead(false, false, true);
    MutationOnlyRunsCommands(item, seen, lock, body, n, inner);
    if e in ending {
      EndingFits(inner, ending, err, e);
    } else {
      assert e in Entering(gate) || e == RunBegun(false) || e in body;
    }
  }

  lemma EndingFits(inner: Option<Error>, ending: seq<Event>, err: Option<Error>, e: Event)
    requires Ends(inner, ending, err) && e in ending
    ensures !IsRefusalOf(e)
    ensures e.RunFinished? && e.wrote ==> e.status == if err.Some? then ErrorStatus(err.value) else Succeeded
  {
    hide MayStillBeRunning, LateRunner;
    PlainStatus(err);
  }

  function DisabledItem(item: PlanItem): ResultItem {
    ResultOf(item).(status := Skipped, skipped := true,
                    error := if item.state.reason == "" then "module disabled" else item.state.reason)
  }

  /** The results in plan order: a disabled item is skipped, a dry run plans, else the run's own result. */
  function ResultsOf(items: seq<PlanItem>, execute: bool, runs: seq<ItemRun>): seq<ResultItem> {
    if items == [] then []
    else
      var front, last := items[..|items| - 1], items[|items| - 1];
      if !last.state.enabled then ResultsOf(front, execute, runs) + [DisabledItem(last)]
      else if !execute then ResultsOf(front, execute, runs) + [ResultOf(last).(status := Planned)]
      else if runs == [] then []
      else ResultsOf(front, execute, runs[..|runs| - 1]) + [runs[|runs| - 1].result]
  }

  function EnabledItems(items: seq<PlanItem>): seq<PlanItem> {
    if items == [] then []
    else EnabledItems(items[..|items| - 1]) + if items[|items| - 1].state.enabled then [items[|items| - 1]] else []
  }

  ghost function IsEnabled(): PlanItem -> bool {
    (item: PlanItem) => item.state.enabled
  }

  /** The enabled items in plan order. */
  lemma {:induction false} EnabledItemsMeaning(items: seq<PlanItem>)
    ensures KeepsExactly(EnabledItems(items), items, IsEnabled())
  {
    hide KeepsExactly;
    if items == [] {
      KeepsNothing(IsEnabled());
    } else {
      var front, last := items[..|items| - 1], items[|items| - 1];
      EnabledItemsMeaning(front);
      KeepsOneMore(EnabledItems(front), front, IsEnabled(), last);
      assert items == front + [last] && EnabledItems(front) + [] == EnabledItems(front);
    }
  }

  /** What is reported for a planned item: a disabled one is skipped with the reason, a dry run plans it, and
      else some run of it gave the result. */
  ghost predicate IsReported(item: PlanItem, result: ResultItem, execute: bool, runs: seq<ItemRun>) {
    if item.state.enabled && execute then
      exists r :: r in runs && r.item == item && r.result == result
    else
      && result.moduleId == item.state.id && result.action == item.action
      && result.idempotencyKey == item.idempotencyKey
      && (result.skipped <==> !item.state.enabled)
      && result.status == (if item.state.enabled then Planned else Skipped)
      && result.error == if item.state.enabled then "" else if item.state.reason == "" then "module disabled"
                                                            else item.state.reason
  }

  ghost predicate AreReported(items: seq<PlanItem>, results: seq<ResultItem>, execute: bool, runs: seq<ItemRun>) {
    |results| == |items| && forall k :: 0 <= k < |items| ==> IsReported(items[k], results[k], execute, runs)
  }

  lemma {:induction false} ResultsMeaning(items: seq<PlanItem>, execute: bool, runs: seq<ItemRun>)
    requires ItemsOf(runs) == if execute then EnabledItems(items) else []
    ensures AreReported(items, ResultsOf(items, execute, runs), execute, runs)
  {
    hide IsReported, AreReported, DisabledItem, ResultOf;
    if items == [] {
      NoneReported(execute, runs);
    } else {
      var front, last := items[..|items| - 1], items[|items| - 1];
      assert items == front + [last];
      if last.state.enabled && execute {
        var before, run := runs[..|runs| - 1], runs[|runs| - 1];
        LastRun(runs, front, last);
        ResultsMeaning(front, execute, before);
        StillReported(front, ResultsOf(front, execute, before), execute, before, run);
        RunIsReported(run, runs);
        OneMoreReported(front, ResultsOf(front, execute, before), execute, runs, last, run.result);
      } else {
        ResultsMeaning(front, execute, runs);
        NotRunIsReported(last, execute, runs);
        var result := if last.state.enabled then ResultOf(last).(status := Planned) else DisabledItem(last);
        OneMoreReported(front, ResultsOf(front, execute, runs), execute, runs, last, result);
      }
    }
  }

  lemma NoneReported(execute: bool, runs: seq<ItemRun>)
    ensures AreReported([], [], execute, runs)
  {
  }

  lemma LastRun(runs: seq<ItemRun>, front: seq<PlanItem>, last: PlanItem)
    requires ItemsOf(runs) == EnabledItems(front) + [last]
    ensures runs != [] && runs[|runs| - 1].item == last && ItemsOf(runs[..|runs| - 1]) == EnabledItems(front)
    ensures runs == runs[..|runs| - 1] + [runs[|runs| - 1]]
  {
    assert ItemsOf(runs)[|runs| - 1] == last;
    assert ItemsOf(runs[..|runs| - 1]) == ItemsOf(runs)[..|runs| - 1];
  }

  lemma OneMoreReported(items: seq<PlanItem>, results: seq<ResultItem>, execute: bool, runs: seq<ItemRun>,
                        item: PlanItem, result: ResultItem)
    requires AreReported(items, results, execute, runs) && IsReported(item, result, execute, runs)
    ensures AreReported(items + [item], results + [result], execute, runs)
  {
    hide IsReported;
  }

  lemma StillReported(items: seq<PlanItem>, results: seq<ResultItem>, execute: bool, runs: seq<ItemRun>, run: ItemRun)
    requires AreReported(items, results, execute, runs)
    ensures AreReported(items, results, execute, runs + [run])
  {
    forall k | 0 <= k < |items| ensures IsReported(items[k], results[k], execute, runs + [run]) {
      assert IsReported(items[k], results[k], execute, runs);
    }
  }

  lemma RunIsReported(run: ItemRun, runs: seq<ItemRun>)
    requires run in runs && run.item.state.enabled
    ensures IsReported(run.item, run.result, true, runs)
  {
  }

  lemma NotRunIsReported(item: PlanItem, execute: bool, runs: seq<ItemRun>)
    requires !(item.state.enabled && execute)
    ensures IsReported(item, if item.state.enabled then ResultOf(item).(status := Planned) else DisabledItem(item),
                       execute, runs)
  {
  }

  function ItemsOf(runs: seq<ItemRun>): (items: seq<PlanItem>)
    ensures |items| == |runs|
  {
    seq(|runs|, i requires 0 <= i < |runs| => runs[i].item)
  }

  /** The check-then-command lists of the executed items, each up to where it got. */
  function PassedBy(runs: seq<ItemRun>): seq<string> {
    if runs == [] then []
    else
      var last := runs[|runs| - 1];
      PassedBy(runs[..|runs| - 1]) +
      if last.passed <= |CommandList(last.item)| then CommandList(last.item)[..last.passed] else []
  }

  /** The commands whose success was recorded, over all runs. */
  function RecordedBy(runs: seq<ItemRun>): seq<string> {
    if runs == [] then [] else RecordedBy(runs[..|runs| - 1]) + PassedIn(runs[|runs| - 1].events)
  }

  /** The commands that the runner ran to success, recorded or not, over all runs. */
  function RanBy(runs: seq<ItemRun>): seq<string> {
    if runs == [] then [] else RanBy(runs[..|runs| - 1]) + RanIn(runs[|runs| - 1].events)
  }

  /** Each run is a course of its item after the commands executed before it. */
  ghost predicate Chained(runs: seq<ItemRun>) {
    forall k :: 0 <= k < |runs| ==> FollowsOn(runs, k)
  }

  ghost predicate FollowsOn(runs: seq<ItemRun>, k: nat)
    requires k < |runs|
  {
    ItemRuns(runs[k].item, Elements(PassedBy(runs[..k])), runs[k].events, runs[k].passed, runs[k].err)
  }

  // --- what one execution of a plan promises ------------------------------------------------------------

  /** The rollback item runs exactly when the plan has one, the failing item is the cutover or a later
      one, and no runner may still be running. */
  predicate RollsBack(plan: Plan, position: nat, cause: Error) {
    plan.rollback.Some? && position >= plan.rollbackAfter && !MayStillBeRunning(cause)
  }

  function StartedBefore(plan: Plan, execute: bool, position: nat): seq<PlanItem>
    requires position <= |plan.items|
  {
    if execute then EnabledItems(plan.items[..position]) else []
  }

  /** Everything before 'position' ended well, and its enabled items are what has been started. */
  ghost predicate AllWellBefore(plan: Plan, execute: bool, position: nat, items: seq<ResultItem>, runs: seq<ItemRun>) {
    && position <= |plan.items| && position == |items|
    && items == ResultsOf(plan.items[..position], execute, runs)
    && (forall k :: 0 <= k < position ==> EndedWell(items[k]) || (!execute && items[k].status == Planned))
    && (forall k :: 0 <= k < |runs| ==> IsItemRun(runs[k]) && runs[k].err.None?)
    && ItemsOf(runs) == StartedBefore(plan, execute, position)
  }

  /** The item at 'position' failed after everything before it had ended well; it is the last one
      started, except for the rollback. */
  ghost predicate FailedAt(plan: Plan, position: nat, items: seq<ResultItem>, err: Error, runs: seq<ItemRun>) {
    exists done: seq<ResultItem>, before: seq<ItemRun>, failing: ItemRun, rollback: Option<ItemRun> ::
      IsFailure(plan, position, done, before, failing, rollback, items, err, runs)
  }

  ghost predicate IsFailure(plan: Plan, position: nat, done: seq<ResultItem>, before: seq<ItemRun>, failing: ItemRun,
                            rollback: Option<ItemRun>, items: seq<ResultItem>, err: Error, runs: seq<ItemRun>) {
    && AllWellBefore(plan, true, position, done, before)
    && position < |plan.items| && failing.item == plan.items[position] && failing.item.state.enabled
    && IsItemRun(failing) && failing.err.Some?
    && (rollback.Some? <==> RollsBack(plan, position, failing.err.value))
    && (rollback.Some? ==> IsItemRun(rollback.value) && Some(rollback.value.item) == plan.rollback)
    && runs == before + [failing] + (if rollback.Some? then [rollback.value] else [])
    && items == done + [failing.result] + (if rollback.Some? then [rollback.value.result] else [])
    && Some(err) == JoinErrors(failing.err, if rollback.Some? then rollback.value.err else None)
  }

  /** The executions of a plan: courses of the items in order, all ending well, or up to
      the first failure and its rollback. */
  ghost predicate IsExecution(plan: Plan, runs: seq<ItemRun>) {
    && Chained(runs)
    && ((exists items :: AllWellBefore(plan, true, |plan.items|, items, runs))
        || (exists position, items, err :: FailedAt(plan, position, items, err, runs)))
  }

  /** The executed commands are those remembered, and the runs are courses. */
  ghost predicate Remembers(executed: set<string>, runs: seq<ItemRun>) {
    executed == Elements(PassedBy(runs)) && Chained(runs)
  }

  lemma ChainGrows(runs: seq<ItemRun>, run: ItemRun)
    requires Chained(runs) && ItemRuns(run.item, Elements(PassedBy(runs)), run.events, run.passed, run.err)
    ensures Chained(runs + [run])
  {
    hide ItemRuns, PassedBy;
    var more := runs + [run];
    forall k | 0 <= k < |more| ensures FollowsOn(more, k) {
      assert more[..k] == runs[..k];
      if k < |runs| { assert FollowsOn(runs, k); } else { assert runs[..k] == runs; }
    }
  }

  lemma RunAdds(executed: set<string>, runs: seq<ItemRun>, run: ItemRun, after: set<string>)
    requires Remembers(executed, runs) && run.passed <= |CommandList(run.item)|
    requires ItemRuns(run.item, executed, run.events, run.passed, run.err)
    requires after == executed + Elements(CommandList(run.item)[..run.passed])
    ensures Remembers(after, runs + [run])
  {
    hide CommandList, ItemRuns;
    ChainGrows(runs, run);
    assert (runs + [run])[..|runs|] == runs;
    assert Elements(PassedBy(runs + [run])) == after;
  }

  lemma SkipItem(plan: Plan, execute: bool, position: nat, items: seq<ResultItem>, runs: seq<ItemRun>,
                 result: ResultItem)
    requires AllWellBefore(plan, execute, position, items, runs) && position < |plan.items|
    requires if !plan.items[position].state.enabled then result == DisabledItem(plan.items[position])
             else !execute && result == ResultOf(plan.items[position]).(status := Planned)
    ensures AllWellBefore(plan, execute, position + 1, items + [result], runs)
  {
    assert plan.items[..position + 1][..position] == plan.items[..position];
  }

  lemma RanWell(plan: Plan, position: nat, items: seq<ResultItem>, runs: seq<ItemRun>, run: ItemRun)
    requires AllWellBefore(plan, true, position, items, runs) && position < |plan.items|
    requires IsItemRun(run) && run.err.None? && run.item == plan.items[position] && run.item.state.enabled
    ensures AllWellBefore(plan, true, position + 1, items + [run.result], runs + [run])
  {
    hide ControlAfter, CommandList, MayStillBeRunning, IsItemRun;
    assert plan.items[..position + 1][..position] == plan.items[..position];
    assert ItemsOf(runs + [run]) == ItemsOf(runs) + [run.item];
    assert (runs + [run])[..|runs|] == runs;
    RunEndedWell(run);
  }

  lemma RunEndedWell(run: ItemRun)
    requires IsItemRun(run)
    ensures run.err.None? <==> EndedWell(run.result)
  {
  }

  lemma StartOfPlan(plan: Plan, execute: bool)
    ensures AllWellBefore(plan, execute, 0, [], []) && Remembers({}, [])
  {
  }

  lemma FailureShape(plan: Plan, position: nat, done: seq<ResultItem>, before: seq<ItemRun>, failing: ItemRun,
                     rollback: Option<ItemRun>, items: seq<ResultItem>, err: Error, runs: seq<ItemRun>)
    requires IsFailure(plan, position, done, before, failing, rollback, items, err, runs)
    ensures FailedAt(plan, position, items, err, runs)
  {
  }

  lemma WellBefore(plan: Plan, execute: bool, position: nat, items: seq<ResultItem>, runs: seq<ItemRun>)
    requires AllWellBefore(plan, execute, position, items, runs)
    ensures |items| == position && forall k :: 0 <= k < position ==>
            EndedWell(items[k]) || (!execute && items[k].status == Planned)
    ensures AreReported(plan.items[..position], items, execute, runs)
    ensures execute ==> KeepsExactly(ItemsOf(runs), plan.items[..position], IsEnabled())
  {
    hide IsItemRun, EndedWell, KeepsExactly, IsReported;
    ResultsMeaning(plan.items[..position], execute, runs);
    EnabledItemsMeaning(plan.items[..position]);
  }

  // --- the gate --------------------------------------------------------------------------------------------

  ghost predicate SomeSucceeded(runs: seq<ItemRun>) {
    exists r :: r in runs && r.result.status == Succeeded
  }

  /** A gated execution asks the gate for each item until one has succeeded. */
  ghost predicate GateRespected(gated: bool, runs: seq<ItemRun>) {
    forall k :: 0 <= k < |runs| ==> AsksWhileNeeded(gated, runs, k)
  }

  ghost predicate AsksWhileNeeded(gated: bool, runs: seq<ItemRun>, k: nat)
    requires k < |runs|
  {
    GateKept(runs[k].events, gated && !SomeSucceeded(runs[..k]))
  }

  ghost predicate HasOpenedGate(r: ItemRun) {
    |r.events| > 2 && r.events[2] == GateOpened
  }

  lemma NoGate(gated: bool)
    ensures GateRespected(gated, []) && !SomeSucceeded([])
  {
  }

  lemma OneMoreAsks(gated: bool, runs: seq<ItemRun>, run: ItemRun)
    requires GateRespected(gated, runs) && GateKept(run.events, gated && !SomeSucceeded(runs))
    ensures GateRespected(gated, runs + [run])
    ensures SomeSucceeded(runs + [run]) <==> SomeSucceeded(runs) || run.result.status == Succeeded
  {
    hide GateKept;
    var more := runs + [run];
    forall k | 0 <= k < |more| ensures AsksWhileNeeded(gated, more, k) {
      assert more[..k] == runs[..k];
      if k < |runs| { assert AsksWhileNeeded(gated, runs, k); } else { assert runs[..k] == runs; }
    }
    if SomeSucceeded(runs) {
      var r :| r in runs && r.result.status == Succeeded;
      assert r in more;
    }
    assert run in more;
  }

  /** An item that starts a command, or ends well without being barred, was cleared and not refused by the gate. */
  lemma WorkIsCleared(item: PlanItem, seen: set<string>, es: seq<Event>, n: nat, err: Option<Error>)
    requires ItemRuns(item, seen, es, n, err)
    requires (exists c :: CommandStarted(c) in es) || (err.None? && !IsBarred(es))
    ensures IsCleared(es) && |es| > 2 && es[2] != GateRefused
  {
    hide HeldRuns, MayStillBeRunning;
    var lock, held :| IsHeld(item, seen, lock, held, es, n, err);
    HeldWorkIsCleared(item, seen, lock, held, n, err, ReleaseCalls(lock, err));
  }

  lemma HeldWorkIsCleared(item: PlanItem, seen: set<string>, lock: LifecycleLock, held: seq<Event>, n: nat,
                          err: Option<Error>, release: seq<Event>)
    requires HeldRuns(item, seen, lock, held, n, err) && (release == [] || release == [LockReleased(lock)])
    requires var es := [LockGranted(lock)] + held + release;
      (exists c :: CommandStarted(c) in es) || (err.None? && !IsBarred(es))
    ensures var es := [LockGranted(lock)] + held + release; IsCleared(es) && |es| > 2 && es[2] != GateRefused
  {
    hide StopsEarly, Mutates;
    var es := [LockGranted(lock)] + held + release;
    if StopsEarly(item, held, err) { EarlyDoesNotWork(item, held, err); }
    assert held != [] ==> es[1] == held[0];
    assert forall c :: CommandStarted(c) in es ==> CommandStarted(c) in held;
    MutationIsCleared(item, seen, lock, held, n, err);
    assert es[2] == held[1];
  }

  lemma EarlyDoesNotWork(item: PlanItem, held: seq<Event>, err: Option<Error>)
    requires StopsEarly(item, held, err)
    ensures held != [] && forall c :: CommandStarted(c) !in held
    ensures err.None? ==> held[0].RunRead? && held[0].found && !held[0].failed
  {
    hide ItemIsRunnable, ErrorStatus, MayStillBeRunning, CommandList, ValidateCommand;
  }

  lemma MutationIsCleared(item: PlanItem, seen: set<string>, lock: LifecycleLock, held: seq<Event>, n: nat,
                          err: Option<Error>)
    requires Mutates(item, seen, lock, held, n, err)
    ensures |held| > 1 && held[0] == RunRead(false, false, true) && held[1] != GateRefused
  {
    hide MutationRuns, Ends, ItemIsRunnable;
    var gate, body, inner, ending :| IsMutation(item, seen, lock, gate, body, inner, ending, held, n, err);
    assert held[1] == (gate + [RunBegun(false)])[0];
  }

  /** In a gated execution a command starts only after the gate has opened, for its own item or for an
      earlier one that succeeded. */
  lemma CommandsNeedTheGate(runs: seq<ItemRun>, k: nat, c: string)
    requires Chained(runs) && GateRespected(true, runs) && forall j :: 0 <= j < |runs| ==> IsItemRun(runs[j])
    requires k < |runs| && CommandStarted(c) in runs[k].events
    ensures HasOpenedGate(runs[k])
            || exists j :: 0 <= j < k && HasOpenedGate(runs[j]) && runs[j].result.status == Succeeded
  {
    hide ItemRuns, IsItemRun, PassedBy;
    assert FollowsOn(runs, k) && AsksWhileNeeded(true, runs, k);
    WorkIsCleared(runs[k].item, Elements(PassedBy(runs[..k])), runs[k].events, runs[k].passed, runs[k].err);
    if SomeSucceeded(runs[..k]) {
      var j := FirstSucceeded(runs, k);
      SucceededOpens(runs, j);
    }
  }

  lemma {:induction false} FirstSucceeded(runs: seq<ItemRun>, k: nat) returns (j: nat)
    requires k <= |runs| && SomeSucceeded(runs[..k])
    ensures j < k && runs[j].result.status == Succeeded && !SomeSucceeded(runs[..j])
  {
    if SomeSucceeded(runs[..k - 1]) {
      j := FirstSucceeded(runs, k - 1);
    } else {
      j := k - 1;
      assert runs[..k] == runs[..k - 1] + [runs[k - 1]];
    }
  }

  lemma SucceededOpens(runs: seq<ItemRun>, j: nat)
    requires Chained(runs) && GateRespected(true, runs) && j < |runs| && IsItemRun(runs[j])
    requires runs[j].result.status == Succeeded && !SomeSucceeded(runs[..j])
    ensures HasOpenedGate(runs[j])
  {
    hide ItemRuns, PassedBy, ControlAfter, CommandList, ErrorText, MayStillBeRunning;
    assert FollowsOn(runs, j) && AsksWhileNeeded(true, runs, j);
    WorkIsCleared(runs[j].item, Elements(PassedBy(runs[..j])), runs[j].events, runs[j].passed, runs[j].err);
  }

  // --- what is recorded, and what runs ------------------------------------------------------------------------

  lemma ChainShrinks(runs: seq<ItemRun>)
    requires Chained(runs) && runs != []
    ensures Chained(runs[..|runs| - 1]) && FollowsOn(runs, |runs| - 1)
  {
    hide ItemRuns, PassedBy;
    var front := runs[..|runs| - 1];
    forall k | 0 <= k < |front| ensures FollowsOn(front, k) {
      assert FollowsOn(runs, k) && front[..k] == runs[..k];
    }
  }

  /** Recorded as succeeded are the commands' first occurrences in the executed items' lists, up to
      where each got: every command at most once. */
  lemma {:induction false} RecordedOnce(runs: seq<ItemRun>)
    requires Chained(runs)
    ensures RecordedBy(runs) == FirstNew(PassedBy(runs), {}) && Distinct(RecordedBy(runs))
  {
    hide ItemRuns, CommandList, Chained, PassedIn, RanIn;
    FirstNewMeaning(PassedBy(runs), {});
    if runs == [] {
      FirstNewOfNone({});
    } else {
      var front, last := runs[..|runs| - 1], runs[|runs| - 1];
      ChainShrinks(runs);
      RecordedOnce(front);
      var extra := CourseTrace(last.item, Elements(PassedBy(front)), last.events, last.passed, last.err);
      FirstNewOfConcat(PassedBy(front), CommandList(last.item)[..last.passed], {});
      assert {} + Elements(PassedBy(front)) == Elements(PassedBy(front));
    }
  }

  /** While every item ends well, what runs is what is recorded. */
  lemma {:induction false} WellRunsRecord(runs: seq<ItemRun>)
    requires Chained(runs) && forall k :: 0 <= k < |runs| ==> runs[k].err.None?
    ensures RanBy(runs) == RecordedBy(runs)
  {
    hide ItemRuns, CommandList, Chained, PassedIn, RanIn;
    if runs != [] {
      var front, last := runs[..|runs| - 1], runs[|runs| - 1];
      ChainShrinks(runs);
      WellRunsRecord(front);
      var extra := CourseTrace(last.item, Elements(PassedBy(front)), last.events, last.passed, last.err);
      assert last.err.None?;
    }
  }
}
