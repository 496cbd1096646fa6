/** A command can run to success without that being recorded: its item fails, the command is not
    remembered, and a rollback that lists the same command runs it again. Exactly which plans
    can run a command to success twice in one execution. */
module UnrecordedSuccess {
  import opened Outcomes
  import opened LifecycleTypes
  import ExecutionProtocol
  import opened ExecutorPath
  import opened CommandPolicy
  import opened CommandTrace
  import opened Planner
  import opened ItemCourse
  import opened Executor
  import opened PlanExecution
  import opened Ordering

  ghost predicate Shares(a: PlanItem, b: PlanItem) {
    exists c :: c in CommandList(a) && c in CommandList(b)
  }

  /** The item may run, and so may its commands; it is at or after the rollback point; and it has a
      command in common with the rollback. */
  ghost predicate MayRepeatAt(plan: Plan, p: nat) {
    && plan.rollback.Some? && plan.rollbackAfter <= p < |plan.items|
    && plan.items[p].state.enabled && ItemIsRunnable(plan.items[p]) && Shares(plan.items[p], plan.rollback.value)
  }

  /** What a caller can check on the plan. */
  ghost predicate RollbackMayRepeat(plan: Plan) {
    plan.rollback.Some? && ItemIsRunnable(plan.rollback.value) && exists p :: MayRepeatAt(plan, p)
  }

  // --- otherwise nothing runs twice ---------------------------------------------------------------------------

  lemma RanAppend(runs: seq<ItemRun>, run: ItemRun)
    ensures RanBy(runs + [run]) == RanBy(runs) + RanIn(run.events)
    ensures RecordedBy(runs + [run]) == RecordedBy(runs) + PassedIn(run.events)
    ensures run.passed <= |CommandList(run.item)| ==>
            PassedBy(runs + [run]) == PassedBy(runs) + CommandList(run.item)[..run.passed]
  {
    hide RanIn, PassedIn, CommandList;
    assert (runs + [run])[..|runs|] == runs;
  }

  /** The trace of a last run: what was recorded so far, its own first new commands, and what ran unrecorded. */
  lemma LastRun(runs: seq<ItemRun>, run: ItemRun) returns (extra: seq<string>)
    requires Chained(runs + [run])
    ensures run.passed <= |CommandList(run.item)|
    ensures RanIn(run.events) == FirstNew(CommandList(run.item)[..run.passed], Elements(PassedBy(runs))) + extra
    ensures RecordedBy(runs + [run]) == RecordedBy(runs)
            + FirstNew(CommandList(run.item)[..run.passed], Elements(PassedBy(runs)))
    ensures extra == [] || (ItemIsRunnable(run.item)
                            && IsUnrecorded(CommandList(run.item), Elements(PassedBy(runs)), run.passed, run.err,
                                            extra))
    ensures run.passed > 0 ==> ItemIsRunnable(run.item)
    ensures run.err.None? ==> run.passed == 0 || run.passed == |CommandList(run.item)|
  {
    hide ItemRuns, CommandList, Chained, PassedIn, RanIn, FirstNew, IsUnrecorded, ItemIsRunnable;
    ChainShrinks(runs + [run]);
    assert (runs + [run])[..|runs|] == runs;
    extra := CourseTrace(run.item, Elements(PassedBy(runs)), run.events, run.passed, run.err);
    RanAppend(runs, run);
  }

  lemma NewIsNotRecorded(runs: seq<ItemRun>, run: ItemRun, extra: seq<string>)
    requires Chained(runs + [run]) && run.passed <= |CommandList(run.item)|
    requires extra == [] || IsUnrecorded(CommandList(run.item), Elements(PassedBy(runs)), run.passed, run.err, extra)
    ensures |extra| <= 1 && forall c :: c in extra ==> c !in RecordedBy(runs + [run]) && c in CommandList(run.item)
  {
    hide ItemRuns, CommandList, Chained, PassedIn, RanIn;
    RecordedOnce(runs + [run]);
    RanAppend(runs, run);
    FirstNewMeaning(PassedBy(runs + [run]), {});
  }

  lemma DistinctAppend(a: seq<string>, b: seq<string>)
    requires Distinct(a) && Distinct(b) && forall c :: c in b ==> c !in a
    ensures Distinct(a + b)
  {
    var s := a + b;
    forall i, j | 0 <= i < j < |s| ensures s[i] != s[j] {
      assert j >= |a| ==> s[j] in b;
      assert i < |a| ==> s[i] in a;
    }
  }

  lemma PartsDistinct(a: seq<string>, b: seq<string>)
    requires Distinct(a + b)
    ensures Distinct(b) && forall c :: c in b ==> c !in a
  {
    assert b == (a + b)[|a|..];
    forall i, j | 0 <= i < j < |b| ensures b[i] != b[j] {
      assert (a + b)[|a| + i] == b[i] && (a + b)[|a| + j] == b[j];
    }
    forall c | c in b ensures c !in a {
      var j :| 0 <= j < |b| && b[j] == c;
      assert (a + b)[|a| + j] == c;
      assert forall i :: 0 <= i < |a| ==> (a + b)[i] == a[i];
    }
  }

  /** With a failing last item and no rollback. */
  lemma FailureRunsOnce(before: seq<ItemRun>, failing: ItemRun) returns (extra: seq<string>)
    requires Chained(before + [failing]) && forall k :: 0 <= k < |before| ==> before[k].err.None?
    ensures RanBy(before + [failing]) == RecordedBy(before + [failing]) + extra && Distinct(RanBy(before + [failing]))
    ensures |extra| <= 1 && forall c :: c in extra ==>
            ItemIsRunnable(failing.item) && c in CommandList(failing.item) && c !in RecordedBy(before + [failing])
  {
    hide ItemRuns, CommandList, Chained, PassedIn, RanIn, FirstNew, IsUnrecorded, ItemIsRunnable, Distinct;
    ChainShrinks(before + [failing]);
    assert (before + [failing])[..|before|] == before;
    WellRunsRecord(before);
    extra := LastRun(before, failing);
    NewIsNotRecorded(before, failing, extra);
    RecordedOnce(before + [failing]);
    RanAppend(before, failing);
    var own := FirstNew(CommandList(failing.item)[..failing.passed], Elements(PassedBy(before)));
    assert RanBy(before + [failing]) == (RecordedBy(before) + own) + extra;
    ShortIsDistinct(extra);
    DistinctAppend(RecordedBy(before + [failing]), extra);
  }

  lemma ShortIsDistinct(s: seq<string>)
    requires |s| <= 1
    ensures Distinct(s)
  {
  }

  /** With a rollback that has no command in common with the failing item, or may not run at all. */
  lemma RollbackRunsOnce(before: seq<ItemRun>, failing: ItemRun, rollback: ItemRun)
    requires Chained(before + [failing] + [rollback]) && forall k :: 0 <= k < |before| ==> before[k].err.None?
    requires ItemIsRunnable(failing.item) && ItemIsRunnable(rollback.item) ==> !Shares(failing.item, rollback.item)
    ensures Distinct(RanBy(before + [failing] + [rollback]))
  {
    hide ItemRuns, CommandList, Chained, PassedIn, RanIn, FirstNew, IsUnrecorded, ItemIsRunnable, Distinct;
    var runs := before + [failing];
    ChainShrinks(runs + [rollback]);
    assert (runs + [rollback])[..|runs|] == runs;
    var x := FailureRunsOnce(before, failing);
    var y := LastRun(runs, rollback);
    NewIsNotRecorded(runs, rollback, y);
    RecordedOnce(runs + [rollback]);
    RanAppend(runs, rollback);
    var recorded, own := RecordedBy(runs), FirstNew(CommandList(rollback.item)[..rollback.passed],
                                                    Elements(PassedBy(runs)));
    PartsDistinct(recorded, own);
    ShortIsDistinct(y);
    DistinctAppend(own, y);
    OwnCommands(rollback, Elements(PassedBy(runs)));
    NothingShared(failing.item, rollback.item);
    forall c | c in own + y ensures c !in recorded + x {
      assert c in own ==> c in CommandList(rollback.item) && rollback.passed > 0;
    }
    DistinctAppend(recorded + x, own + y);
    assert RanBy(runs + [rollback]) == (recorded + x) + (own + y);
  }

  lemma NothingShared(a: PlanItem, b: PlanItem)
    requires ItemIsRunnable(a) && ItemIsRunnable(b) ==> !Shares(a, b)
    ensures ItemIsRunnable(a) && ItemIsRunnable(b) ==> forall c :: c in CommandList(a) ==> c !in CommandList(b)
  {
    hide CommandList, ItemIsRunnable;
  }

  lemma OwnCommands(run: ItemRun, seen: set<string>)
    requires run.passed <= |CommandList(run.item)|
    ensures forall c :: c in FirstNew(CommandList(run.item)[..run.passed], seen) ==>
            c in CommandList(run.item) && run.passed > 0
  {
    hide CommandList;
    FirstNewMeaning(CommandList(run.item)[..run.passed], seen);
  }

  lemma NotRepeatedAt(plan: Plan, p: nat)
    requires !RollbackMayRepeat(plan) && plan.rollback.Some? && plan.rollbackAfter <= p < |plan.items|
             && plan.items[p].state.enabled
    ensures ItemIsRunnable(plan.items[p]) && ItemIsRunnable(plan.rollback.value) ==>
            !Shares(plan.items[p], plan.rollback.value)
  {
    hide ItemIsRunnable, Shares;
    assert !(ItemIsRunnable(plan.rollback.value) && MayRepeatAt(plan, p));
  }

  lemma FailedRunsOnce(plan: Plan, position: nat, items: seq<ResultItem>, err: Error, runs: seq<ItemRun>)
    requires Chained(runs) && FailedAt(plan, position, items, err, runs) && !RollbackMayRepeat(plan)
    ensures Distinct(RanBy(runs))
  {
    hide ItemRuns, CommandList, Chained, RanBy, ItemIsRunnable, Distinct, IsItemRun, Shares, ResultsOf, StartedBefore,
         MayStillBeRunning;
    var done: seq<ResultItem>, before: seq<ItemRun>, failing: ItemRun, rollback: Option<ItemRun> :|
      IsFailure(plan, position, done, before, failing, rollback, items, err, runs);
    if rollback.Some? {
      assert runs == before + [failing] + [rollback.value];
      NotRepeatedAt(plan, position);
      RollbackRunsOnce(before, failing, rollback.value);
    } else {
      assert runs == before + [failing];
      var _ := FailureRunsOnce(before, failing);
    }
  }

  lemma ExecutionRunsOnce(plan: Plan, runs: seq<ItemRun>)
    requires IsExecution(plan, runs) && !RollbackMayRepeat(plan)
    ensures Distinct(RanBy(runs))
  {
    hide Chained, RanBy, RollbackMayRepeat, FailedAt, IsItemRun, ResultsOf, RecordedBy, Distinct;
    if items :| AllWellBefore(plan, true, |plan.items|, items, runs) {
      WellRunsRecord(runs);
      RecordedOnce(runs);
    } else {
      var position, items, err :| FailedAt(plan, position, items, err, runs);
      FailedRunsOnce(plan, position, items, err, runs);
    }
  }

  // --- such a plan can run a command twice -----------------------------------------------------------------------

  function SomeLock(item: PlanItem): LifecycleLock {
    LifecycleLock(ExecutionProtocol.LockKey(item.state.id), "", "", true, 0)
  }

  ghost function SkipRun(item: PlanItem): ItemRun {
    ItemRun(item, [LockGranted(SomeLock(item)), RunRead(true, false, ItemIsRunnable(item)),
                   LockReleased(SomeLock(item))],
            0, ResultOf(item).(status := Skipped, skipped := true), None)
  }

  /** An item whose run is recorded already is skipped. */
  lemma SkipIsRun(item: PlanItem, seen: set<string>)
    ensures var r := SkipRun(item);
            IsItemRun(r) && ItemRuns(item, seen, r.events, 0, None) && RanIn(r.events) == [] && PassedIn(r.events) == []
  {
    hide ItemIsRunnable, CommandList, ControlAfter, RanIn, PassedIn;
    var lock, held, es := SomeLock(item), [RunRead(true, false, ItemIsRunnable(item))], SkipRun(item).events;
    assert StopsEarly(item, held, None) && es == [LockGranted(lock)] + held + ReleaseCalls(lock, None);
    assert IsHeld(item, seen, lock, held, es, 0, None);
    CourseIsPath(item, seen, es, 0, None);
    QuietTraces(es);
  }

  /** Everything before position p skipped. */
  lemma {:induction false} SkipAll(plan: Plan, p: nat) returns (items: seq<ResultItem>, runs: seq<ItemRun>)
    requires p <= |plan.items|
    ensures AllWellBefore(plan, true, p, items, runs) && Chained(runs) && PassedBy(runs) == [] && RanBy(runs) == []
  {
    hide ItemRuns, CommandList, ControlAfter, IsItemRun, ItemIsRunnable, RanIn, PassedIn, AllWellBefore, Chained;
    if p == 0 {
      items, runs := [], [];
      StartOfPlan(plan, true);
      EmptyChain();
    } else {
      var item := plan.items[p - 1];
      items, runs := SkipAll(plan, p - 1);
      if !item.state.enabled {
        SkipItem(plan, true, p - 1, items, runs, DisabledItem(item));
        items := items + [DisabledItem(item)];
      } else {
        var run := SkipRun(item);
        SkipIsRun(item, Elements(PassedBy(runs)));
        RanWell(plan, p - 1, items, runs, run);
        ChainGrows(runs, run);
        RanAppend(runs, run);
        assert CommandList(item)[..0] == [];
        items, runs := items + [run.result], runs + [run];
      }
    }
  }

  lemma EmptyChain()
    ensures Chained([])
  {
  }

  /** All commands of a list that may run pass. */
  function PassAll(step: string, list: seq<string>, seen: set<string>): seq<Event> {
    if list == [] then []
    else if list[0] in seen then PassAll(step, list[1..], seen)
    else PassingCalls(step, list[0]) + PassAll(step, list[1..], seen + {list[0]})
  }

  lemma {:induction false} PassAllRuns(step: string, list: seq<string>, seen: set<string>, lock: LifecycleLock)
    ensures GroupRuns(step, list, seen, lock, PassAll(step, list, seen), |list|, None)
  {
    hide PassingCalls, CommandFails;
    if list != [] {
      PassAllRuns(step, list[1..], if list[0] in seen then seen else seen + {list[0]}, lock);
    }
  }

  const NotRecorded := Plain("step not recorded")

  function UpTo(step: string, list: seq<string>, q: nat, seen: set<string>): seq<Event>
    requires q < |list|
  {
    PassAll(step, list[..q], seen) + UnrecordedCalls(step, list[q])
  }

  /** The first q commands pass, and the success of the next one cannot be recorded. */
  lemma UpToRuns(step: string, list: seq<string>, q: nat, seen: set<string>, lock: LifecycleLock)
    requires q < |list| && ValidateCommand(list[q]).None? && list[q] !in seen + Elements(list[..q])
    ensures GroupRuns(step, list, seen, lock, UpTo(step, list, q, seen), q, Some(NotRecorded))
    ensures list[q] in RanIn(UpTo(step, list, q, seen))
  {
    hide GroupRuns, PassAll, UnrecordedCalls, ValidateCommand, RanIn;
    PassAllRuns(step, list[..q], seen, lock);
    assert CommandFails(step, list[q], lock, NotRecorded, UnrecordedCalls(step, list[q]));
    GroupOfRestFails(step, list[q..], seen + Elements(list[..q]), lock, UnrecordedCalls(step, list[q]), NotRecorded);
    GroupsJoin(step, list[..q], list[q..], seen, lock, PassAll(step, list[..q], seen), UnrecordedCalls(step, list[q]),
               0, Some(NotRecorded));
    assert list == list[..q] + list[q..];
    UnrecordedRan(step, list[q]);
    RanOfConcat(PassAll(step, list[..q], seen), UnrecordedCalls(step, list[q]));
  }

  lemma UnrecordedRan(step: string, command: string)
    ensures RanIn(UnrecordedCalls(step, command)) == [command]
  {
    hide RanIn, StartCalls, PassedIn;
    RunnerTrace(step, command, true);
    QuietTraces([StepRecorded(step, command, Succeeded)]);
    RanOfConcat(StartCalls(step, command) + [CommandEnded(command, true, true)],
                [StepRecorded(step, command, Succeeded)]);
  }

  function MutationUpTo(item: PlanItem, q: nat): seq<Event>
    requires q < |CommandList(item)|
  {
    var checks, commands := NormalizedCommands(item.destructiveCheck), NormalizedCommands(item.command);
    if q < |checks| then UpTo("destructive_check", checks, q, {})
    else PassAll("destructive_check", checks, {}) + UpTo("command", commands, q - |checks|, Elements(checks))
  }

  lemma MutationUpToRuns(item: PlanItem, q: nat, lock: LifecycleLock)
    requires ItemIsRunnable(item) && q < |CommandList(item)| && CommandList(item)[q] !in CommandList(item)[..q]
    ensures MutationRuns(item, {}, lock, MutationUpTo(item, q), q, Some(NotRecorded))
    ensures CommandList(item)[q] in RanIn(MutationUpTo(item, q))
  {
    hide GroupRuns, PassAll, UpTo, NormalizedCommands, RanIn, ValidateCommand;
    var checks, commands := NormalizedCommands(item.destructiveCheck), NormalizedCommands(item.command);
    var c := CommandList(item)[q];
    assert c in CommandList(item);
    if q < |checks| {
      assert CommandList(item)[..q] == checks[..q];
      UpToRuns("destructive_check", checks, q, {}, lock);
    } else {
      var m := q - |checks|;
      assert CommandList(item)[..q] == checks + commands[..m];
      PassAllRuns("destructive_check", checks, {}, lock);
      UpToRuns("command", commands, m, Elements(checks), lock);
      assert {} + Elements(checks) == Elements(checks);
      ChecksThenCommands(item, {}, lock, PassAll("destructive_check", checks, {}),
                         UpTo("command", commands, m, Elements(checks)), m, Some(NotRecorded));
      RanOfConcat(PassAll("destructive_check", checks, {}), UpTo("command", commands, m, Elements(checks)));
    }
  }

  function Begun(): seq<Event> {
    Entering([]) + [RunBegun(false)]
  }

  /** An item that runs the command at q to success and fails because that cannot be recorded. */
  lemma UnrecordedRun(item: PlanItem, q: nat) returns (run: ItemRun)
    requires ItemIsRunnable(item) && q < |CommandList(item)| && CommandList(item)[q] !in CommandList(item)[..q]
    ensures IsItemRun(run) && ItemRuns(item, {}, run.events, q, run.err)
    ensures run.item == item && run.passed == q && run.err == Some(NotRecorded)
    ensures CommandList(item)[q] in RanIn(run.events)
  {
    hide CommandList, MutationRuns, MutationUpTo, RanIn, ControlAfter, ItemIsRunnable;
    var lock, body, ending := SomeLock(item), MutationUpTo(item, q), FailureCalls(NotRecorded, true);
    var held := Begun() + body + ending;
    var es := [LockGranted(lock)] + held + ReleaseCalls(lock, Some(NotRecorded));
    MutationUpToRuns(item, q, lock);
    assert IsMutation(item, {}, lock, [], body, Some(NotRecorded), ending, held, q, Some(NotRecorded));
    assert IsHeld(item, {}, lock, held, es, q, Some(NotRecorded));
    CourseIsPath(item, {}, es, q, Some(NotRecorded));
    run := ItemRun(item, es, q, FailedItem(ResultOf(item), NotRecorded), Some(NotRecorded));
    PlainErrorsEnd(Some(NotRecorded));
    InsideRan(lock, body, ending, ReleaseCalls(lock, Some(NotRecorded)), CommandList(item)[q]);
  }

  lemma InsideRan(lock: LifecycleLock, body: seq<Event>, ending: seq<Event>, release: seq<Event>, command: string)
    requires command in RanIn(body)
    ensures command in RanIn([LockGranted(lock)] + (Begun() + body + ending) + release)
  {
    hide RanIn, Begun;
    RanOfConcat(Begun(), body);
    RanOfConcat(Begun() + body, ending);
    RanOfConcat([LockGranted(lock)], Begun() + body + ending);
    RanOfConcat([LockGranted(lock)] + (Begun() + body + ending), release);
  }

  /** The calls of a mutation all of whose commands pass. */
  function PassingMutation(item: PlanItem, seen: set<string>): seq<Event> {
    PassAll("destructive_check", NormalizedCommands(item.destructiveCheck), seen)
      + PassAll("command", NormalizedCommands(item.command),
                seen + Elements(NormalizedCommands(item.destructiveCheck)))
  }

  lemma PassingMutationRuns(item: PlanItem, seen: set<string>, lock: LifecycleLock)
    ensures MutationRuns(item, seen, lock, PassingMutation(item, seen), |CommandList(item)|, None)
  {
    hide MutationRuns, NormalizedCommands, PassAll, GroupRuns, CommandList;
    var checks, commands := NormalizedCommands(item.destructiveCheck), NormalizedCommands(item.command);
    PassAllRuns("destructive_check", checks, seen, lock);
    PassAllRuns("command", commands, seen + Elements(checks), lock);
    ChecksThenCommands(item, seen, lock, PassAll("destructive_check", checks, seen),
                       PassAll("command", commands, seen + Elements(checks)), |commands|, None);
    ListLength(item);
  }

  /** An item all of whose commands pass. */
  lemma PassingRun(item: PlanItem, seen: set<string>) returns (run: ItemRun)
    requires ItemIsRunnable(item)
    ensures IsItemRun(run) && ItemRuns(item, seen, run.events, run.passed, run.err)
    ensures run.item == item && run.err.None?
    ensures forall c :: c in CommandList(item) && c !in seen ==> c in RanIn(run.events)
  {
    hide CommandList, MutationRuns, RanIn, PassedIn, ControlAfter, ItemIsRunnable, PassingMutation, IsAnswerFor,
         IsHeldAnswer;
    var lock, n, body := SomeLock(item), |CommandList(item)|, PassingMutation(item, seen);
    var ending := SuccessCalls(true, true);
    var held := Begun() + body + ending;
    var es := [LockGranted(lock)] + held + ReleaseCalls(lock, None);
    PassingMutationRuns(item, seen, lock);
    assert IsMutation(item, seen, lock, [], body, None, ending, held, n, None);
    assert IsHeld(item, seen, lock, held, es, n, None);
    hide IsMutation, Mutates, HeldRuns, StopsEarly;
    GatedAnswer(item, held, Success(ResultOf(item)), None);
    HeldAnswer(item, lock, held, ReleaseCalls(lock, None), Success(ResultOf(item)), None);
    CourseIsPath(item, seen, es, n, None);
    run := ItemRun(item, es, n, Success(ResultOf(item)), None);
    var extra := CourseTrace(item, seen, es, n, None);
    assert CommandList(item)[..n] == CommandList(item);
    FirstNewMeaning(CommandList(item), seen);
  }

  lemma ListLength(item: PlanItem)
    ensures |CommandList(item)| == |NormalizedCommands(item.destructiveCheck)| + |NormalizedCommands(item.command)|
  {
  }

  lemma {:induction false} FirstAt(list: seq<string>, c: string) returns (q: nat)
    requires c in list
    ensures q < |list| && list[q] == c && c !in list[..q]
  {
    if list[0] == c {
      q := 0;
    } else {
      var r := FirstAt(list[1..], c);
      q := r + 1;
      assert list[..q] == [list[0]] + list[1..][..r];
    }
  }

  lemma TwiceIsNotDistinct(a: seq<string>, b: seq<string>, c: string)
    requires c in a && c in b
    ensures !Distinct(a + b)
  {
    var i :| 0 <= i < |a| && a[i] == c;
    var j :| 0 <= j < |b| && b[j] == c;
    assert (a + b)[i] == (a + b)[|a| + j];
  }

  /** Skip everything before p, fail p on recording the shared command's success, roll back. */
  lemma RepeatingExecution(plan: Plan, p: nat) returns (runs: seq<ItemRun>)
    requires plan.rollback.Some? && ItemIsRunnable(plan.rollback.value) && MayRepeatAt(plan, p)
    ensures IsExecution(plan, runs) && !Distinct(RanBy(runs))
  {
    hide ItemRuns, CommandList, Chained, RanIn, PassedIn, ItemIsRunnable, Distinct, IsItemRun, AllWellBefore,
         MayStillBeRunning;
    var item, back := plan.items[p], plan.rollback.value;
    var c :| c in CommandList(item) && c in CommandList(back);
    var q := FirstAt(CommandList(item), c);
    var done, before := SkipAll(plan, p);
    var failing := UnrecordedRun(item, q);
    assert Elements(PassedBy(before)) == {};
    ChainGrows(before, failing);
    RanAppend(before, failing);
    var started := before + [failing];
    assert PassedBy(started) == CommandList(item)[..q];
    var rollback := PassingRun(back, Elements(PassedBy(started)));
    ChainGrows(started, rollback);
    RanAppend(started, rollback);
    runs := started + [rollback];
    TwiceIsNotDistinct(RanBy(started), RanIn(rollback.events), c);
    PlainErrorsEnd(Some(NotRecorded));
    var items, err := done + [failing.result] + [rollback.result], JoinErrors(failing.err, rollback.err);
    FailureShape(plan, p, done, before, failing, Some(rollback), items, err.value, runs);
  }

  /** Exactly: every execution of a plan runs each command to success at most once if and only if the
      plan has no rollback, or one whose commands may not all run, or none of the items at or after the
      rollback point that can run anything has a command in common with it. */
  lemma RunsOnceIffNothingShared(plan: Plan)
    ensures (forall runs :: IsExecution(plan, runs) ==> Distinct(RanBy(runs))) <==> !RollbackMayRepeat(plan)
  {
    hide IsExecution, RanBy, Distinct, MayRepeatAt, ItemIsRunnable;
    if RollbackMayRepeat(plan) {
      var p :| MayRepeatAt(plan, p);
      var runs := RepeatingExecution(plan, p);
    } else {
      forall runs | IsExecution(plan, runs) ensures Distinct(RanBy(runs)) {
        ExecutionRunsOnce(plan, runs);
      }
    }
  }
}
