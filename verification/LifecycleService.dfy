/** LifecycleService.Execute: plan, check the batch, execute the items in order, and roll a
    replacement back when it fails at its cutover or later. */
module LifecycleService {
  import opened Outcomes
  import opened LifecycleTypes
  import opened ExecutorPath
  import opened CommandPolicy
  import opened CommandTrace
  import opened IdempotencyKeys
  import opened Planner
  import opened ReplacementPlans
  import opened VersionConstraints
  import opened ItemCourse
  import opened Executor
  import opened PlanExecution
  import opened Ordering

  method RunItem(executor: LifecycleExecutor, item: PlanItem, owner: string, ghost runs: seq<ItemRun>)
    returns (result: ResultItem, err: Option<Error>, ghost run: ItemRun)
    requires Remembers(executor.executedCommands, runs)
    requires GateRespected(executor.gated, runs) && executor.gatePassed == (executor.gated && SomeSucceeded(runs))
    modifies executor
    ensures Remembers(executor.executedCommands, runs + [run])
    ensures GateRespected(executor.gated, runs + [run])
    ensures executor.gatePassed == (executor.gated && SomeSucceeded(runs + [run]))
    ensures IsItemRun(run) && run.item == item && run.result == result && run.err == err
  {
    hide CommandList, ItemRuns, ControlAfter, MayStillBeRunning, GateRespected, SomeSucceeded, GateKept;
    ghost var before := executor.executedCommands;
    ghost var n;
    result, err, n := executor.ExecuteItem(item, owner);
    run := ItemRun(item, executor.events, n, result, err);
    RunAdds(before, runs, run, executor.executedCommands);
    OneMoreAsks(executor.gated, runs, run);
  }

  method RollbackReplacement(executor: LifecycleExecutor, plan: Plan, position: nat, items: seq<ResultItem>,
                             cause: Error, owner: string,
                             ghost runs: seq<ItemRun>)
    returns (result: seq<ResultItem>, err: Error, ghost rollback: Option<ItemRun>)
    requires Remembers(executor.executedCommands, runs)
    requires GateRespected(executor.gated, runs) && executor.gatePassed == (executor.gated && SomeSucceeded(runs))
    modifies executor
    ensures rollback.Some? ==> GateRespected(executor.gated, runs + [rollback.value])
    ensures rollback.Some? <==> RollsBack(plan, position, cause)
    ensures rollback.None? ==> result == items && err == cause && Remembers(executor.executedCommands, runs)
    ensures rollback.Some? ==>
              && IsItemRun(rollback.value) && Some(rollback.value.item) == plan.rollback
              && result == items + [rollback.value.result]
              && Some(err) == JoinErrors(Some(cause), rollback.value.err)
              && Remembers(executor.executedCommands, runs + [rollback.value])
  {
    hide Remembers, IsItemRun, MayStillBeRunning, GateRespected, SomeSucceeded;
    if plan.rollback.None? || position < plan.rollbackAfter {
      return items, cause, None;
    }
    if MayStillBeRunning(cause) {
      return items, cause, None;
    }
    var item, rollbackErr;
    ghost var run;
    item, rollbackErr, run := RunItem(executor, plan.rollback.value, owner, runs);
    return items + [item], JoinErrors(Some(cause), rollbackErr).value, Some(run);
  }

  /** The results before the failure are still those of their runs. */
  lemma AfterFailure(items: seq<PlanItem>, done: seq<ResultItem>, before: seq<ItemRun>, failing: ItemRun,
                     rollback: Option<ItemRun>)
    requires AreReported(items, done, true, before)
    ensures AreReported(items, done, true,
                        before + [failing] + if rollback.Some? then [rollback.value] else [])
  {
    hide AreReported;
    StillReported(items, done, true, before, failing);
    if rollback.Some? {
      StillReported(items, done, true, before + [failing], rollback.value);
    } else {
      assert before + [failing] + [] == before + [failing];
    }
  }

  lemma Remembered(executed: set<string>, runs: seq<ItemRun>)
    requires Remembers(executed, runs)
    ensures Chained(runs)
  {
  }

  /** Items run in plan order and each starts only after all earlier ones ended succeeded or skipped.
      The runs are an execution of the plan; recorded as succeeded are the first occurrences in the
      executed items' lists. */
  method ExecuteLifecyclePlan(plan: Plan, execute: bool, gated: bool, owner: string)
    returns (items: seq<ResultItem>, err: Option<Error>, position: nat, ghost runs: seq<ItemRun>)
    ensures err.None? ==> position == |plan.items| && AllWellBefore(plan, execute, position, items, runs)
    ensures err.Some? ==> execute && FailedAt(plan, position, items, err.value, runs)
    ensures err.None? ==> |items| == |plan.items|
    ensures err.Some? ==> position < |plan.items| && position < |items| <= position + 2
    ensures forall k :: 0 <= k < position ==>
            k < |items| && (EndedWell(items[k]) || (!execute && items[k].status == Planned))
    ensures position <= |items| && AreReported(plan.items[..position], items[..position], execute, runs)
    ensures execute ==> IsExecution(plan, runs)
    ensures GateRespected(gated, runs)
    ensures RecordedBy(runs) == FirstNew(PassedBy(runs), {}) && Distinct(RecordedBy(runs))
  {
    hide Remembers, IsItemRun, AllWellBefore, FirstNew, FailedAt, RollsBack, RecordedBy, PassedBy, Distinct, Chained,
         AreReported, KeepsExactly, GateRespected, SomeSucceeded;
    items, runs, err, position := [], [], None, 0;
    var executor := new LifecycleExecutor(gated);
    StartOfPlan(plan, execute);
    NoGate(gated);
    while position < |plan.items|
      invariant fresh(executor)
      invariant position <= |plan.items| && err.None?
      invariant AllWellBefore(plan, execute, position, items, runs)
      invariant Remembers(executor.executedCommands, runs) && executor.gated == gated
      invariant GateRespected(gated, runs) && executor.gatePassed == (gated && SomeSucceeded(runs))
    {
      var planned := plan.items[position];
      var item := ResultOf(planned);
      if !planned.state.enabled {
        item := DisabledItem(planned);
        SkipItem(plan, execute, position, items, runs, item);
        items, position := items + [item], position + 1;
        continue;
      }
      if !execute {
        item := item.(status := Planned);
        SkipItem(plan, execute, position, items, runs, item);
        items, position := items + [item], position + 1;
        continue;
      }
      ghost var run;
      item, err, run := RunItem(executor, planned, owner, runs);
      if err.Some? {
        ghost var done, before := items, runs;
        var failure;
        ghost var rollback;
        items, failure, rollback := RollbackReplacement(executor, plan, position, items + [item], err.value, owner,
                                                        runs + [run]);
        runs := runs + [run] + if rollback.Some? then [rollback.value] else [];
        assert rollback.None? ==> runs == before + [run];
        FailureShape(plan, position, done, before, run, rollback, items, failure, runs);
        WellBefore(plan, execute, position, done, before);
        AfterFailure(plan.items[..position], done, before, run, rollback);
        assert items[..position] == done;
        err := Some(failure);
        Remembered(executor.executedCommands, runs);
        RecordedOnce(runs);
        return;
      }
      RanWell(plan, position, items, runs, run);
      items, runs, position := items + [item], runs + [run], position + 1;
    }
    WellBefore(plan, execute, position, items, runs);
    assert items[..position] == items;
    Remembered(executor.executedCommands, runs);
    RecordedOnce(runs);
  }

  // --- from request to result ------------------------------------------------------------------------------

  method ValidateBatch(items: seq<PlanItem>) returns (ok: bool)
    ensures ok <==> AllRunnable(items)
  {
    hide NormalizedCommands, ValidateCommand;
    for i := 0 to |items|
      invariant forall item :: item in items[..i] && item.state.enabled ==> ItemIsRunnable(item)
    {
      if !items[i].state.enabled {
        continue;
      }
      var _, _, err := LifecycleExecutor.ValidateItemCommands(items[i]);
      if err.Some? {
        assert items[i] in items;
        return false;
      }
    }
    assert items[..|items|] == items;
    return true;
  }

  datatype Executed = Executed(items: seq<ResultItem>, err: Option<Error>)

  /** The cutover of a replacement removal is item 5: target installed, five forward commands. */
  ghost predicate CutoverReached(plan: Plan, target: ModuleState, replacement: ReplacementPlan, position: nat) {
    exists c :: 0 <= c <= position && c < |plan.items| &&
      plan.items[c] == ReplacementItem(target, ForwardCommands(replacement)[4])
  }

  lemma RollbackStartsAtCutover(plan: Plan, target: ModuleState, replacement: ReplacementPlan, removal: PlanItem,
                                position: nat)
    requires IsReplacementRemoval(plan, target, replacement, [removal]) && position < |plan.items|
    requires removal.action == "uninstall"
    ensures position >= plan.rollbackAfter <==> CutoverReached(plan, target, replacement, position)
  {
    assert ForwardCommands(replacement)[4].phase == Cutover;
    assert plan.items[1 + 4] == ReplacementItem(target, ForwardCommands(replacement)[4]);
    forall c | 0 <= c < 5
      ensures plan.items[c].action != ReplacementItem(target, ForwardCommands(replacement)[4]).action {
      OnlyTheCutoverItem(plan, target, replacement, removal, c);
    }
  }

  lemma OnlyTheCutoverItem(plan: Plan, target: ModuleState, replacement: ReplacementPlan, removal: PlanItem, c: nat)
    requires IsReplacementRemoval(plan, target, replacement, [removal]) && c < 5
    ensures plan.items[c].action != ReplacementAction(PhaseText(Cutover), "cutover")
  {
    var cutover := ReplacementAction(PhaseText(Cutover), "cutover");
    assert cutover[12] == 'c';
    if c > 0 {
      assert plan.items[1 + (c - 1)] == ReplacementItem(target, ForwardCommands(replacement)[c - 1]);
      assert plan.items[c].action[12] != 'c';
    }
  }

  ghost predicate RemovalFailedAt(plan: Plan, target: ModuleState, replacement: ReplacementPlan, position: nat,
                                  items: seq<ResultItem>, err: Error, runs: seq<ItemRun>) {
    exists done: seq<ResultItem>, before: seq<ItemRun>, failing: ItemRun, rollback: Option<ItemRun> ::
      && IsFailure(plan, position, done, before, failing, rollback, items, err, runs)
      && (rollback.Some? <==>
          CutoverReached(plan, target, replacement, position) && !MayStillBeRunning(failing.err.value))
  }

  lemma RemovalFailure(plan: Plan, target: ModuleState, replacement: ReplacementPlan, removal: PlanItem, position: nat,
                       items: seq<ResultItem>, err: Error, runs: seq<ItemRun>)
    requires IsReplacementRemoval(plan, target, replacement, [removal]) && removal.action == "uninstall"
    requires FailedAt(plan, position, items, err, runs)
    ensures RemovalFailedAt(plan, target, replacement, position, items, err, runs)
  {
    hide IsReplacementRemoval, AllWellBefore, IsItemRun, CutoverReached, MayStillBeRunning;
    var done: seq<ResultItem>, before: seq<ItemRun>, failing: ItemRun, rollback: Option<ItemRun> :|
      IsFailure(plan, position, done, before, failing, rollback, items, err, runs);
    RollbackStartsAtCutover(plan, target, replacement, removal, position);
    RollbackIsInPlan(plan, target, replacement, removal);
  }

  lemma RollbackIsInPlan(plan: Plan, target: ModuleState, replacement: ReplacementPlan, removal: PlanItem)
    requires IsReplacementRemoval(plan, target, replacement, [removal])
    ensures plan.rollback.Some?
  {
  }

  lemma RemovalOf(plan: Plan, states: seq<ModuleState>, moduleId: string, replacement: ReplacementPlan)
    returns (target: ModuleState, removed: ModuleState)
    requires IsPlanFor(plan, states, "uninstall", moduleId, Some(replacement)) && moduleId != ""
    ensures target in states && target.id == replacement.toModule && removed in states && removed.id == moduleId
    ensures IsReplacementRemoval(plan, target, replacement, [NewPlanItem(removed, "uninstall")])
  {
    hide IsReplacementRemoval, NewPlanItem;
    var selected :| IsSelection(selected, states, "uninstall", moduleId)
      && exists t ::
         t in states && t.id == replacement.toModule
           && IsReplacementRemoval(plan, t, replacement, NewPlanItems(selected, "uninstall"));
    target :| target in states && target.id == replacement.toModule
      && IsReplacementRemoval(plan, target, replacement, NewPlanItems(selected, "uninstall"));
    removed := selected[0];
    assert NewPlanItems(selected, "uninstall") == [NewPlanItem(removed, "uninstall")];
  }

  ghost predicate AllRunnable(items: seq<PlanItem>) {
    forall item :: item in items && item.state.enabled ==> ItemIsRunnable(item)
  }

  /** A request that is checked and can be planned. */
  ghost predicate CanRequest(states: seq<ModuleState>, action: string, moduleId: string,
                             replacement: Option<ReplacementPlan>,
                             now: int, emergencyApproved: bool, policyHash: string -> string, execute: bool,
                               owner: string, reason: string) {
    && ValidAction(action) && (execute ==> owner != "" && reason != "") && ConstraintsHold(states)
    && CanPlan(states, action, moduleId, replacement, now, emergencyApproved, policyHash)
  }

  /** The whole request: exactly which ones are refused before anything starts, and what the execution of the
      others keeps. When the removal of a replaced module fails, the rollback runs exactly from the cutover on. */
  method Execute(states: seq<ModuleState>, action: string, moduleId: string, replacement: Option<ReplacementPlan>,
                 now: int, emergencyApproved: bool, policyHash: string -> string, execute: bool, gated: bool,
                   owner: string, reason: string)
    returns (r: Result<Executed, string>, position: nat, ghost plan: Plan, ghost runs: seq<ItemRun>)
    ensures r.Ok? ==>
            CanRequest(states, action, moduleId, replacement, now, emergencyApproved, policyHash, execute, owner,
                       reason)
    ensures CanRequest(states, action, moduleId, replacement, now, emergencyApproved, policyHash, execute, owner,
                       reason) ==>
              && IsPlanFor(plan, states, action, moduleId, replacement)
              && (r.Ok? <==> (execute && |plan.items| > 1 ==> AllRunnable(plan.items)))
    ensures r.Err? ==> runs == []
    ensures r.Ok? && r.value.err.None? ==> AllWellBefore(plan, execute, |plan.items|, r.value.items, runs)
    ensures r.Ok? && r.value.err.Some? ==> execute && FailedAt(plan, position, r.value.items, r.value.err.value, runs)
    ensures r.Ok? && execute ==> IsExecution(plan, runs) && GateRespected(gated, runs)
    ensures r.Ok? ==> RecordedBy(runs) == FirstNew(PassedBy(runs), {}) && Distinct(RecordedBy(runs))
    ensures r.Ok? && r.value.err.Some? && NeedsReplacement(action, moduleId, replacement) ==>
              exists target ::
                target in states && RemovalFailedAt(plan, target, replacement.value, position, r.value.items,
                                                    r.value.err.value, runs)
  {
    hide GateRespected, AllWellBefore, FailedAt, IsExecution, RecordedBy, PassedBy, FirstNew, Distinct, ItemIsRunnable,
         RemovalFailedAt,
         IsReplacementRemoval, IsPlanFor, CanPlan, ConstraintsHold, IsAsAsked, AreReported;
    plan, runs, position := Plan(action, [], None, 0), [], 0;
    if !ValidAction(action) {
      return Err("unsupported lifecycle action: " + action), 0, plan, [];
    }
    if execute && (owner == "" || reason == "") {
      return Err("module lifecycle execute requires owner and reason"), 0, plan, [];
    }
    var errs := ValidateVersionConstraints(states);
    if errs != [] {
      return Err("version constraints"), 0, plan, [];
    }
    var planned := PlanLifecycle(states, action, moduleId, replacement, now, emergencyApproved, policyHash);
    if planned.Err? {
      return Err(planned.error), 0, plan, [];
    }
    plan := planned.value;
    if execute && |planned.value.items| > 1 {
      var runnable := ValidateBatch(planned.value.items);
      if !runnable {
        return Err("module lifecycle batch command not allowed"), 0, plan, [];
      }
    }
    var items, err;
    items, err, position, runs := ExecuteLifecyclePlan(planned.value, execute, gated, owner);
    r := Ok(Executed(items, err));
    if err.Some? && NeedsReplacement(action, moduleId, replacement) {
      ghost var target, removed := RemovalOf(plan, states, moduleId, replacement.value);
      RemovalFailure(plan, target, replacement.value, NewPlanItem(removed, "uninstall"), position, items, err.value,
                     runs);
    }
  }
}
