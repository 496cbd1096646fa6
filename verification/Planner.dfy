/** Lifecycle plans: one item per module state, in dependency order for install and upgrade
    and in reverse for rollback and uninstall; and the longer plan that removes a module
    which has a declared replacement. Texts are taken as already trimmed. */
module Planner {
  import opened Outcomes
  import opened DependencySort
  import opened RegistryKernel
  import opened IdempotencyKeys
  import opened ReplacementPlans

  datatype ModuleState = ModuleState(id: string, enabled: bool, reason: string, metadata: Module)

  datatype PlanItem = PlanItem(state: ModuleState, action: string, command: string, destructiveCheck: string,
                               idempotencyKey: string)

  datatype Plan = Plan(action: string, items: seq<PlanItem>, rollback: Option<PlanItem>, rollbackAfter: int)

  predicate ReversesOrder(action: string) {
    action == "rollback" || action == "uninstall"
  }

  function LifecycleCommand(lifecycle: Lifecycle, action: string): string {
    if action == "install" then lifecycle.install
    else if action == "upgrade" then lifecycle.upgrade
    else if action == "rollback" then lifecycle.rollback
    else if action == "uninstall" then lifecycle.uninstall
    else ""
  }

  function NewPlanItem(state: ModuleState, action: string): PlanItem {
    PlanItem(state, action, LifecycleCommand(state.metadata.lifecycle, action),
             state.metadata.lifecycle.destructiveCheck,
             IdempotencyKey(action, state.id, state.metadata.version))
  }

  /** The item that was asked for: the module's own command for the action, its check, and the key made of
      action, id and version. */
  ghost predicate IsItemOf(item: PlanItem, state: ModuleState, action: string) {
    && item.state == state && item.action == action
    && item.destructiveCheck == state.metadata.lifecycle.destructiveCheck
    && item.idempotencyKey == action + ":" + state.id + ":" + state.metadata.version
    && (action == "install" ==> item.command == state.metadata.lifecycle.install)
    && (action == "upgrade" ==> item.command == state.metadata.lifecycle.upgrade)
    && (action == "rollback" ==> item.command == state.metadata.lifecycle.rollback)
    && (action == "uninstall" ==> item.command == state.metadata.lifecycle.uninstall)
    && (!ValidAction(action) ==> item.command == "")
  }

  lemma NewPlanItemMeaning(item: PlanItem, state: ModuleState, action: string)
    ensures item == NewPlanItem(state, action) <==> IsItemOf(item, state, action)
  {
  }

  // --- ordered plans -------------------------------------------------------------------------------------

  function StateOf(m: Module, reasons: map<string, string>): ModuleState {
    var reason := if m.id in reasons then reasons[m.id] else "";
    ModuleState(m.id, m.id !in reasons, reason, m)
  }

  /** A module's state: disabled if the module has a reason, which the state then gives. */
  ghost predicate IsStateOf(state: ModuleState, items: seq<Module>, disabled: set<string>) {
    && state.id == state.metadata.id
    && (state.enabled <==> state.reason == "")
    && (state.enabled <==> state.id !in DisabledReasons(items, disabled))
    && (!state.enabled ==> IsReason(items, disabled, state.id, state.reason))
  }

  lemma StateOfMeaning(m: Module, items: seq<Module>, disabled: set<string>)
    ensures IsStateOf(StateOf(m, DisabledReasons(items, disabled)), items, disabled)
  {
    hide DisabledReasons;
    ReasonTexts(items, disabled);
  }

  method ProjectModuleStates(source: seq<Module>, reasons: map<string, string>) returns (states: seq<ModuleState>)
    ensures |states| == |source| && forall i :: 0 <= i < |source| ==> states[i] == StateOf(source[i], reasons)
  {
    states := [];
    for i := 0 to |source|
      invariant |states| == i && forall k :: 0 <= k < i ==> states[k] == StateOf(source[k], reasons)
    {
      states := states + [StateOf(source[i], reasons)];
    }
  }

  /** All states in order or in reverse, or the one with the given id: the first one
      going forward, the last one in reverse. */
  method OrderedStates(states: seq<ModuleState>, action: string, moduleId: string)
    returns (r: Result<seq<ModuleState>, string>)
    ensures moduleId == "" ==>
              && r.Ok? && |r.value| == |states|
              && forall i :: 0 <= i < |states| ==>
                 r.value[i] == states[if action in {"rollback", "uninstall"} then |states| - 1 - i else i]
    ensures moduleId != "" ==> (r.Ok? <==> exists s :: s in states && s.id == moduleId)
    ensures moduleId != "" && r.Ok? ==>
              exists k :: 0 <= k < |states| && r.value == [states[k]] && states[k].id == moduleId
                          && forall j :: 0 <= j < |states| && states[j].id == moduleId ==>
                             if action in {"rollback", "uninstall"} then j <= k else k <= j
  {
    if moduleId != "" {
      r := FilteredState(states, moduleId, ReversesOrder(action));
      return;
    }
    var items: seq<ModuleState> := [];
    if ReversesOrder(action) {
      var index := |states| - 1;
      while index >= 0
        invariant -1 <= index < |states| && |items| == |states| - 1 - index
        invariant forall i :: 0 <= i < |items| ==> items[i] == states[|states| - 1 - i]
      {
        items := items + [states[index]];
        index := index - 1;
      }
      return Ok(items);
    }
    for index := 0 to |states|
      invariant |items| == index && forall i :: 0 <= i < index ==> items[i] == states[i]
    {
      items := items + [states[index]];
    }
    return Ok(items);
  }

  method FilteredState(states: seq<ModuleState>, moduleId: string, reverse: bool)
    returns (r: Result<seq<ModuleState>, string>)
    ensures r.Ok? <==> exists s :: s in states && s.id == moduleId
    ensures r.Ok? ==>
              exists k :: 0 <= k < |states| && r.value == [states[k]] && states[k].id == moduleId
                          && forall j :: 0 <= j < |states| && states[j].id == moduleId ==>
                             if reverse then j <= k else k <= j
  {
    if reverse {
      var index := |states| - 1;
      while index >= 0
        invariant -1 <= index < |states| && forall j :: index < j < |states| ==> states[j].id != moduleId
      {
        if states[index].id == moduleId {
          return Ok([states[index]]);
        }
        index := index - 1;
      }
      return Err("module not found: " + moduleId);
    }
    for index := 0 to |states|
      invariant forall j :: 0 <= j < index ==> states[j].id != moduleId
    {
      if states[index].id == moduleId {
        return Ok([states[index]]);
      }
    }
    return Err("module not found: " + moduleId);
  }

  method PlanItems(states: seq<ModuleState>, action: string) returns (items: seq<PlanItem>)
    ensures |items| == |states| && forall i :: 0 <= i < |items| ==> items[i] == NewPlanItem(states[i], action)
  {
    items := [];
    for i := 0 to |states|
      invariant |items| == i && forall k :: 0 <= k < i ==> items[k] == NewPlanItem(states[k], action)
    {
      items := items + [NewPlanItem(states[i], action)];
    }
  }

  // --- from registry to plan -------------------------------------------------------------------------------

  function PlannedModules(items: seq<PlanItem>): seq<Module> {
    seq(|items|, i requires 0 <= i < |items| => items[i].state.metadata)
  }

  function Reverse<T>(s: seq<T>): (r: seq<T>)
    ensures |r| == |s| && forall i :: 0 <= i < |s| ==> r[i] == s[|s| - 1 - i]
  {
    if s == [] then [] else Reverse(s[1..]) + [s[0]]
  }

  lemma {:induction false} ReverseKeepsElements<T>(s: seq<T>)
    ensures multiset(Reverse(s)) == multiset(s)
  {
    if s != [] {
      ReverseKeepsElements(s[1..]);
      assert s == [s[0]] + s[1..];
    }
  }

  /** Item i depends on an item k that stands on the right side of it for the action. */
  ghost predicate DependencyPlaced(items: seq<PlanItem>, i: nat, d: Dependency, action: string)
    requires i < |items|
  {
    exists k :: 0 <= k < |items| && items[k].state.id == d.id && 
                if action in {"rollback", "uninstall"} then i < k else k < i
  }

  lemma ForwardPlacement(modules: seq<Module>, items: seq<PlanItem>, action: string, i: nat, d: Dependency)
    requires DependenciesFirst(modules) && |items| == |modules| && i < |items|
    requires forall k :: 0 <= k < |items| ==>
               items[k].state.id == modules[if ReversesOrder(action) then |items| - 1 - k else k].id
               && items[k].state.metadata == modules[if ReversesOrder(action) then |items| - 1 - k else k]
    requires d in items[i].state.metadata.dependencies && d.id in Ids(modules)
    ensures DependencyPlaced(items, i, d, action)
  {
    var at := if ReversesOrder(action) then |items| - 1 - i else i;
    assert PrecededByDependencies(modules, at);
    var k :| 0 <= k < at && Ids(modules[..at])[k] == d.id;
    assert modules[k].id == d.id;
    var back := if ReversesOrder(action) then |items| - 1 - k else k;
    assert items[back].state.id == d.id;
  }

  /** Every present dependency of every item stands on the side the action asks for. */
  ghost predicate DependenciesPlaced(items: seq<PlanItem>, modules: seq<Module>, action: string) {
    forall i, d :: 0 <= i < |items| && d in items[i].state.metadata.dependencies && d.id in Ids(modules)
      ==> DependencyPlaced(items, i, d, action)
  }

  lemma LifecycleOrderIsPlaced(items: seq<Module>, lifecycle: seq<Module>, planned: seq<PlanItem>, action: string)
    requires SortedOrGiven(items, lifecycle) && DistinctIds(items) && !HasCycle(items) && |planned| == |lifecycle|
    requires forall k :: 0 <= k < |planned| ==>
               planned[k].state.id == lifecycle[if ReversesOrder(action) then |planned| - 1 - k else k].id
               && planned[k].state.metadata == lifecycle[if ReversesOrder(action) then |planned| - 1 - k else k]
    ensures DependenciesPlaced(planned, items, action)
  {
    SameIds(lifecycle, items);
    forall i, d | 0 <= i < |planned| && d in planned[i].state.metadata.dependencies && d.id in Ids(items)
      ensures DependencyPlaced(planned, i, d, action)
    {
      ForwardPlacement(lifecycle, planned, action, i, d);
    }
  }

  /** End to end: a whole-registry plan lists each module exactly once. For a registry with
      distinct ids and no cycle, install and upgrade put every present dependency before its
      dependents, rollback and uninstall put it after them. */
  method PlanWholeRegistry(items: seq<Module>, disabled: set<string>, action: string) returns (r: Result<Plan, string>)
    ensures r.Ok? <==> ValidAction(action)
    ensures r.Ok? ==> multiset(PlannedModules(r.value.items)) == multiset(items) && r.value.rollback == None
    ensures r.Ok? ==> r.value.action == action
    ensures r.Ok? ==> forall i :: 0 <= i < |r.value.items| ==>
                        IsItemOf(r.value.items[i], r.value.items[i].state, action)
    ensures r.Ok? ==> forall i :: 0 <= i < |r.value.items| ==> IsStateOf(r.value.items[i].state, items, disabled)
    ensures r.Ok? && DistinctIds(items) && !HasCycle(items) ==> DependenciesPlaced(r.value.items, items, action)
    ensures r.Ok? && "" !in disabled && EmptyIdHarmless(items) ==>
              forall i :: 0 <= i < |r.value.items| ==>
                (r.value.items[i].state.enabled <==> !Unavailable(items, disabled, r.value.items[i].state.id))
  {
    hide DisabledReasons, Unavailable, HasCycle, DependenciesFirst, DistinctIds, DependenciesPlaced, IdempotencyKey,
         LifecycleCommand;
    if !ValidAction(action) {
      return Err("unsupported lifecycle action: " + action);
    }
    var kernel := NewRegistryKernel(items, disabled);
    var states := ProjectModuleStates(kernel.lifecycle, kernel.reasons);
    var ordered := OrderedStates(states, action, "");
    var planned := PlanItems(ordered.value, action);
    PlannedAre(kernel.lifecycle, planned, action);
    forall i | 0 <= i < |planned| ensures IsItemOf(planned[i], planned[i].state, action) {
      NewPlanItemMeaning(planned[i], planned[i].state, action);
    }
    forall i | 0 <= i < |planned| ensures IsStateOf(planned[i].state, items, disabled) {
      StateOfMeaning(planned[i].state.metadata, items, disabled);
    }
    if DistinctIds(items) && !HasCycle(items) { LifecycleOrderIsPlaced(items, kernel.lifecycle, planned, action); }
    if "" !in disabled && EmptyIdHarmless(items) { ReasonsCoverUnavailable(items, disabled); }
    return Ok(Plan(action, planned, None, 0));
  }

  lemma PlannedAre(modules: seq<Module>, items: seq<PlanItem>, action: string)
    requires |items| == |modules|
    requires forall k :: 0 <= k < |items| ==>
               items[k].state.metadata == modules[if ReversesOrder(action) then |items| - 1 - k else k]
    ensures multiset(PlannedModules(items)) == multiset(modules)
  {
    if ReversesOrder(action) {
      assert PlannedModules(items) == Reverse(modules);
      ReverseKeepsElements(modules);
    } else {
      assert PlannedModules(items) == modules;
    }
  }

  lemma SameIds(a: seq<Module>, b: seq<Module>)
    requires multiset(a) == multiset(b)
    ensures forall id :: id in Ids(a) <==> id in Ids(b)
  {
    SameIdsOneWay(a, b);
    SameIdsOneWay(b, a);
  }

  lemma SameIdsOneWay(a: seq<Module>, b: seq<Module>)
    requires multiset(a) == multiset(b)
    ensures forall id :: id in Ids(a) ==> id in Ids(b)
  {
    forall id | id in Ids(a) ensures id in Ids(b) {
      var i :| 0 <= i < |a| && Ids(a)[i] == id;
      assert a[i] in multiset(b);
      var j :| 0 <= j < |b| && b[j] == a[i];
      assert Ids(b)[j] == id;
    }
  }

  // --- removing a module that has a replacement ------------------------------------------------------------

  function ReplacementItem(state: ModuleState, c: ReplacementCommand): PlanItem {
    var action := ReplacementAction(PhaseText(c.phase), c.name);
    PlanItem(state, action, c.command, "", IdempotencyKey(action, state.id, state.metadata.version))
  }

  /** A command of a replacement as an item: no check, and a key of its own action. */
  ghost predicate IsCommandItem(item: PlanItem, state: ModuleState, phase: string, name: string, command: string) {
    && item.state == state && item.action == "replacement:" + phase + ":" + name
    && item.command == command && item.destructiveCheck == ""
    && item.idempotencyKey == item.action + ":" + state.id + ":" + state.metadata.version
  }

  /** The items of a replacement's commands, field by field. */
  ghost predicate AreForwardItems(items: seq<PlanItem>, state: ModuleState, p: ReplacementPlan) {
    && |items| == 5
    && IsCommandItem(items[0], state, "prepare", "data_migration", p.dataMigration)
    && IsCommandItem(items[1], state, "prepare", "config_migration", p.configMigration)
    && IsCommandItem(items[2], state, "dual_run", "permission_mapping", p.permissionMapping)
    && IsCommandItem(items[3], state, "dual_run", "validation", p.validation)
    && IsCommandItem(items[4], state, "cutover", "cutover", p.cutover)
  }

  lemma ReplacementItemMeaning(state: ModuleState, p: ReplacementPlan, items: seq<PlanItem>)
    requires |items| == 5 && forall i :: 0 <= i < 5 ==> items[i] == ReplacementItem(state, ForwardCommands(p)[i])
    ensures AreForwardItems(items, state, p)
    ensures IsCommandItem(ReplacementItem(state, RollbackCommand(p)), state, "rollback_window", "rollback", p.rollback)
  {
    CommandItemOf(state, ReplacementCommand(Prepare, "data_migration", p.dataMigration));
    CommandItemOf(state, ReplacementCommand(Prepare, "config_migration", p.configMigration));
    CommandItemOf(state, ReplacementCommand(DualRun, "permission_mapping", p.permissionMapping));
    CommandItemOf(state, ReplacementCommand(DualRun, "validation", p.validation));
    CommandItemOf(state, ReplacementCommand(Cutover, "cutover", p.cutover));
    CommandItemOf(state, ReplacementCommand(RollbackWindow, "rollback", p.rollback));
    hide ReplacementItem, IsCommandItem;
  }

  lemma CommandItemOf(state: ModuleState, c: ReplacementCommand)
    ensures IsCommandItem(ReplacementItem(state, c), state, PhaseText(c.phase), c.name, c.command)
  {
  }

  method ReplacementLifecycleItems(state: ModuleState, plan: ReplacementPlan)
    returns (items: seq<PlanItem>, rollback: PlanItem, cutoverIndex: int)
    ensures |items| == |ForwardCommands(plan)|
    ensures forall i :: 0 <= i < |items| ==> items[i] == ReplacementItem(state, ForwardCommands(plan)[i])
    ensures rollback == ReplacementItem(state, RollbackCommand(plan))
    ensures AreForwardItems(items, state, plan) && cutoverIndex == 4
    ensures IsCommandItem(rollback, state, "rollback_window", "rollback", plan.rollback)
    ensures 0 <= cutoverIndex < |items| && ForwardCommands(plan)[cutoverIndex].phase == Cutover
    ensures forall i :: 0 <= i < |items| && i != cutoverIndex ==> ForwardCommands(plan)[i].phase != Cutover
  {
    hide AreForwardItems, IsCommandItem, ReplacementItem;
    var commands := ForwardCommands(plan);
    items, cutoverIndex := [], -1;
    for i := 0 to |commands|
      invariant |items| == i && forall k :: 0 <= k < i ==> items[k] == ReplacementItem(state, commands[k])
      invariant cutoverIndex == if i == 5 then 4 else -1
    {
      items := items + [ReplacementItem(state, commands[i])];
      if commands[i].phase == Cutover {
        cutoverIndex := |items| - 1;
      }
    }
    rollback := ReplacementItem(state, RollbackCommand(plan));
    ReplacementItemMeaning(state, plan, items);
  }

  /** The shape of a replacement removal: install the target, the forward commands, then
      the removal itself; the rollback is armed from the cutover item on. */
  ghost predicate IsReplacementRemoval(p: Plan, target: ModuleState, plan: ReplacementPlan, removal: seq<PlanItem>) {
    && |p.items| == 6 + |removal| && p.action == "uninstall"
    && p.items[0] == NewPlanItem(target, "install")
    && (forall i :: 0 <= i < 5 ==> p.items[1 + i] == ReplacementItem(target, ForwardCommands(plan)[i]))
    && p.items[6..] == removal
    && p.rollback == Some(ReplacementItem(target, RollbackCommand(plan)))
    && 0 <= p.rollbackAfter < 6
    && (forall i :: 0 <= i < 5 ==> (ForwardCommands(plan)[i].phase == Cutover <==> 1 + i == p.rollbackAfter))
  }

  /** The replacement items' actions are the fixed ones. */
  lemma PlannedActions(state: ModuleState, p: ReplacementPlan, i: nat)
    ensures i < 5 ==> IsPlannedAction(ReplacementItem(state, ForwardCommands(p)[i]).action)
    ensures IsPlannedAction(ReplacementItem(state, RollbackCommand(p)).action)
  {
    hide IdempotencyKey, ReplacementAction;
  }

  /** The removal of one module: without a replacement just its item; with one, the replacement has to
      be valid and removal allowed by now, and its target has to be listed. */
  method ReplacementRemovalPlan(states: seq<ModuleState>, moduleId: string, replacement: Option<ReplacementPlan>,
                                items: seq<PlanItem>,
                                now: int, emergencyApproved: bool, policyHash: string -> string)
    returns (r: Result<Plan, string>)
    ensures replacement.None? ==> r == Ok(Plan("uninstall", items, None, 0))
    ensures replacement.Some? ==>
              (r.Ok? <==>
               MayRemove(replacement.value, moduleId, now, emergencyApproved, policyHash)
                 && Listed(states, replacement.value.toModule))
    ensures replacement.Some? && r.Ok? ==>
              exists target :: target in states && target.id == replacement.value.toModule
                               && IsReplacementRemoval(r.value, target, replacement.value, items)
  {
    hide IsValid;
    if replacement.None? {
      return Ok(Plan("uninstall", items, None, 0));
    }
    var plan := replacement.value;
    var valid := Validate(plan, moduleId, plan.toModule, policyHash);
    if !valid {
      return Err("replacement plan is invalid");
    }
    if !CanRemove(plan, now, emergencyApproved) {
      return Err("replacement removal is blocked before end of support");
    }
    for index := 0 to |states|
      invariant forall j :: 0 <= j < index ==> states[j].id != plan.toModule
    {
      if states[index].id == plan.toModule {
        var target := states[index];
        var replacementItems, rollback, cutoverIndex := ReplacementLifecycleItems(target, plan);
        var ordered := [NewPlanItem(target, "install")] + replacementItems + items;
        r := Ok(Plan("uninstall", ordered, Some(rollback), 1 + cutoverIndex));
        assert r.value.items[6..] == items;
        assert IsReplacementRemoval(r.value, target, plan, items);
        return;
      }
    }
    return Err("replacement target module not found: " + plan.toModule);
  }

  ghost predicate Listed(states: seq<ModuleState>, id: string) {
    exists s :: s in states && s.id == id
  }

  /** The states that a plain plan lists: all of them in order or in reverse, or the one named. */
  ghost predicate IsSelection(selected: seq<ModuleState>, states: seq<ModuleState>, action: string, moduleId: string) {
    if moduleId == "" then selected == if action in {"rollback", "uninstall"} then Reverse(states) else states
    else exists k :: 0 <= k < |states| && selected == [states[k]] && states[k].id == moduleId
                     && forall j :: 0 <= j < |states| && states[j].id == moduleId ==>
                        if action in {"rollback", "uninstall"} then j <= k else k <= j
  }

  function NewPlanItems(states: seq<ModuleState>, action: string): (items: seq<PlanItem>)
    ensures |items| == |states| && forall i :: 0 <= i < |items| ==> items[i] == NewPlanItem(states[i], action)
  {
    seq(|states|, i requires 0 <= i < |states| => NewPlanItem(states[i], action))
  }

  predicate NeedsReplacement(action: string, moduleId: string, replacement: Option<ReplacementPlan>) {
    action == "uninstall" && moduleId != "" && replacement.Some?
  }

  /** Exactly the requests that are planned. */
  ghost predicate CanPlan(states: seq<ModuleState>, action: string, moduleId: string,
                          replacement: Option<ReplacementPlan>,
                          now: int, emergencyApproved: bool, policyHash: string -> string) {
    && ValidAction(action) && (moduleId != "" ==> Listed(states, moduleId))
    && (NeedsReplacement(action, moduleId, replacement) ==>
          && MayRemove(replacement.value, moduleId, now, emergencyApproved, policyHash)
          && Listed(states, replacement.value.toModule))
  }

  ghost predicate IsPlanFor(plan: Plan, states: seq<ModuleState>, action: string, moduleId: string,
                            replacement: Option<ReplacementPlan>) {
    exists selected :: IsSelection(selected, states, action, moduleId) &&
      if NeedsReplacement(action, moduleId, replacement) then
        exists target :: target in states && target.id == replacement.value.toModule
                         && IsReplacementRemoval(plan, target, replacement.value, NewPlanItems(selected, action))
      else plan == Plan(action, NewPlanItems(selected, action), None, 0)
  }

  /** The target's installation, the replacement's commands, then the removal, with the rollback armed from
      the cutover on. */
  ghost predicate ReplacesAndRemoves(plan: Plan, target: ModuleState, p: ReplacementPlan, removed: seq<ModuleState>) {
    && |plan.items| == 6 + |removed| && plan.action == "uninstall"
    && IsItemOf(plan.items[0], target, "install")
    && AreForwardItems(plan.items[1..6], target, p)
    && (forall i :: 0 <= i < |removed| ==> IsItemOf(plan.items[6 + i], removed[i], "uninstall"))
    && plan.rollback.Some? && plan.rollbackAfter == 5
    && IsCommandItem(plan.rollback.value, target, "rollback_window", "rollback", p.rollback)
  }

  /** Every item of a plan, field by field. */
  ghost predicate IsAsAsked(plan: Plan, states: seq<ModuleState>, action: string, moduleId: string,
                            replacement: Option<ReplacementPlan>) {
    exists selected :: IsSelection(selected, states, action, moduleId) &&
      if NeedsReplacement(action, moduleId, replacement) then
        exists target :: target in states && target.id == replacement.value.toModule
                         && ReplacesAndRemoves(plan, target, replacement.value, selected)
      else
        && plan.action == action && plan.rollback == None && |plan.items| == |selected|
        && forall i :: 0 <= i < |selected| ==> IsItemOf(plan.items[i], selected[i], action)
  }

  lemma RemovalMeaning(plan: Plan, target: ModuleState, p: ReplacementPlan, removed: seq<ModuleState>)
    requires IsReplacementRemoval(plan, target, p, NewPlanItems(removed, "uninstall"))
    ensures ReplacesAndRemoves(plan, target, p, removed)
  {
    hide NewPlanItem, AreForwardItems, IsItemOf, IsCommandItem;
    NewPlanItemMeaning(plan.items[0], target, "install");
    ReplacementItemMeaning(target, p, plan.items[1..6]);
    forall i | 0 <= i < |removed| ensures IsItemOf(plan.items[6 + i], removed[i], "uninstall") {
      assert plan.items[6 + i] == plan.items[6..][i];
      NewPlanItemMeaning(plan.items[6 + i], removed[i], "uninstall");
    }
    assert ForwardCommands(p)[4].phase == Cutover;
  }

  /** What is planned is what was asked for. */
  lemma PlanIsAsAsked(plan: Plan, states: seq<ModuleState>, action: string, moduleId: string,
                      replacement: Option<ReplacementPlan>)
    requires IsPlanFor(plan, states, action, moduleId, replacement)
    ensures IsAsAsked(plan, states, action, moduleId, replacement)
  {
    hide NewPlanItem, IsItemOf, IsReplacementRemoval, ReplacesAndRemoves, IsSelection;
    if NeedsReplacement(action, moduleId, replacement) {
      var selected :| IsSelection(selected, states, action, moduleId)
        && exists target :: target in states && target.id == replacement.value.toModule
             && IsReplacementRemoval(plan, target, replacement.value, NewPlanItems(selected, action));
      var target :| target in states && target.id == replacement.value.toModule
        && IsReplacementRemoval(plan, target, replacement.value, NewPlanItems(selected, action));
      RemovalMeaning(plan, target, replacement.value, selected);
    } else {
      var selected :| IsSelection(selected, states, action, moduleId)
        && plan == Plan(action, NewPlanItems(selected, action), None, 0);
      forall i | 0 <= i < |selected| ensures IsItemOf(plan.items[i], selected[i], action) {
        NewPlanItemMeaning(plan.items[i], selected[i], action);
      }
    }
  }

  /** planner.plan: removal of one named module goes through its replacement plan, if any. */
  method PlanLifecycle(states: seq<ModuleState>, action: string, moduleId: string, replacement: Option<ReplacementPlan>,
                       now: int, emergencyApproved: bool, policyHash: string -> string)
    returns (r: Result<Plan, string>)
    ensures r.Ok? <==> CanPlan(states, action, moduleId, replacement, now, emergencyApproved, policyHash)
    ensures r.Ok? ==> IsPlanFor(r.value, states, action, moduleId, replacement)
    ensures r.Ok? ==> IsAsAsked(r.value, states, action, moduleId, replacement)
  {
    hide MayRemove, IsReplacementRemoval, NewPlanItem, IsAsAsked;
    if !ValidAction(action) {
      return Err("unsupported lifecycle action: " + action);
    }
    var ordered := OrderedStates(states, action, moduleId);
    if ordered.Err? {
      return Err(ordered.error);
    }
    assert IsSelection(ordered.value, states, action, moduleId);
    var items := PlanItems(ordered.value, action);
    assert items == NewPlanItems(ordered.value, action);
    if action == "uninstall" && moduleId != "" {
      r := ReplacementRemovalPlan(states, moduleId, replacement, items, now, emergencyApproved, policyHash);
    } else {
      r := Ok(Plan(action, items, None, 0));
    }
    if r.Ok? { PlanIsAsAsked(r.value, states, action, moduleId, replacement); }
  }
}
