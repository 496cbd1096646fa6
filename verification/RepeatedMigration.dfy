/** A removal whose cutover and rollback are the same command. It passes every check before the
    execution, and one execution of it runs the command to success twice. */
module RepeatedMigration {
  import opened Outcomes
  import opened IdempotencyKeys
  import opened CommandPolicy
  import opened Trimming
  import opened VersionPattern
  import opened VersionConstraints
  import opened DependencySort
  import opened ReplacementPlans
  import opened Planner
  import opened ItemCourse
  import opened PlanExecution
  import opened UnrecordedSuccess
  import opened LifecycleService
  import opened Ordering

  predicate IsWord(c: string) {
    c != "" && forall i :: 0 <= i < |c| ==> !IsSpace(c[i]) && c[i] != '&'
  }

  lemma TrimmedWord(c: string)
    requires IsWord(c)
    ensures TrimSpace(c) == c
  {
  }

  lemma PrefixWithSpace(c: string, prefix: string)
    requires IsWord(c) && prefix != "" && prefix[|prefix| - 1] == ' '
    ensures TrimPrefix(c, prefix) == c
  {
    assert forall i :: 0 <= i < |c| ==> c[i] != ' ';
  }

  lemma WordIsOneCommand(c: string)
    requires IsWord(c)
    ensures NormalizedCommands(c) == [c] && TrimSpace(c) == c
  {
    TrimmedWord(c);
    SplitOfOne(c);
    PrefixWithSpace(c, "go run . artisan ");
    PrefixWithSpace(c, "./artisan ");
    PrefixWithSpace(c, "artisan ");
    hide TrimSpace, TrimPrefix, SplitOnAnd;
    assert CommandOf(c) == c;
    assert [c][..0] == [];
    assert CommandsOf([c]) == [c];
  }

  lemma {:induction false} WordIsOneField(c: string)
    requires forall i :: 0 <= i < |c| ==> !IsSpace(c[i])
    ensures FirstField(c) == c
  {
    if c != "" {
      WordIsOneField(c[1..]);
      assert c == [c[0]] + c[1..];
    }
  }

  lemma {:induction false} LowerKeepsSmallLetters(s: string, i: nat)
    requires i < |s| && s[i] > 'Z'
    ensures ToLower(s)[i] == s[i]
  {
    if i > 0 {
      LowerKeepsSmallLetters(s[1..], i - 1);
    }
  }

  lemma NotManual(c: string)
    requires TrimSpace(c) == c && |c| > 1 && c[1] > 'a'
    ensures !IsManualCommand(c)
  {
    hide TrimSpace, ToLower;
    LowerKeepsSmallLetters(c, 1);
    assert "manual"[1] == 'a' && "manual "[1] == 'a';
  }

  predicate IsAllowedWord(c: string) {
    c in {"module:manifest:check", "migrate", "migrate:rollback", "tenant:migrate", "db:seed"}
  }

  lemma WordMayRun(c: string)
    requires IsWord(c) && IsAllowedWord(c) && |c| > 1 && c[1] > 'a'
    ensures NormalizedCommands(c) == [c] && ValidateCommand(c).None?
  {
    WordIsOneCommand(c);
    WordIsOneField(c);
    NotManual(c);
    hide TrimSpace, FirstField, IsManualCommand, CommandsOf, SplitOnAnd, IsWord, NormalizedCommands;
  }

  lemma MigrateIsAWord()
    ensures IsWord("migrate") && |"migrate"| == 7 && "migrate"[1] == 'i'
  {
  }

  lemma SeedIsAWord()
    ensures IsWord("db:seed") && |"db:seed"| == 7 && "db:seed"[1] == 'b'
  {
  }

  lemma TenantMigrateIsAWord()
    ensures IsWord("tenant:migrate") && |"tenant:migrate"| == 14 && "tenant:migrate"[1] == 'e'
  {
  }

  lemma ManifestCheckIsAWord()
    ensures IsWord("module:manifest:check") && |"module:manifest:check"| == 21 && "module:manifest:check"[1] == 'o'
  {
  }

  lemma MigrateIsOneCommand()
    ensures NormalizedCommands("migrate") == ["migrate"] && ValidateCommand("migrate").None?
  {
    hide IsWord;
    MigrateIsAWord();
    WordMayRun("migrate");
    hide NormalizedCommands, ValidateCommand;
  }

  lemma SeedIsOneCommand()
    ensures NormalizedCommands("db:seed") == ["db:seed"] && ValidateCommand("db:seed").None?
  {
    hide IsWord;
    SeedIsAWord();
    WordMayRun("db:seed");
    hide NormalizedCommands, ValidateCommand;
  }

  lemma TenantMigrateIsOneCommand()
    ensures NormalizedCommands("tenant:migrate") == ["tenant:migrate"] && ValidateCommand("tenant:migrate").None?
  {
    hide IsWord;
    TenantMigrateIsAWord();
    WordMayRun("tenant:migrate");
    hide NormalizedCommands, ValidateCommand;
  }

  lemma ManifestCheckIsOneCommand()
    ensures NormalizedCommands("module:manifest:check") == ["module:manifest:check"]
            && ValidateCommand("module:manifest:check").None?
  {
    hide IsWord;
    ManifestCheckIsAWord();
    WordMayRun("module:manifest:check");
    hide NormalizedCommands, ValidateCommand;
  }

  lemma BlankIsNoCommand()
    ensures NormalizedCommands("") == []
  {
    assert TrimSpace("") == "";
    hide TrimSpace;
  }

  const NoLifecycle := Lifecycle("", "", "", "", "")

  function StateNamed(id: string): ModuleState {
    ModuleState(id, true, "", Module(id, "1.0.0", [], NoLifecycle))
  }

  /** Replace module a by module b, with "migrate" both as the cutover and as its rollback. */
  const Migrate := ReplacementPlan("a", "b", "db:seed", "tenant:migrate", "module:manifest:check",
                                   "module:manifest:check", "migrate", "migrate",
                                   Some(0), Some(1), "2.0.0", RequiredPhases, map[])

  function MigratePlan(policyHash: string -> string): ReplacementPlan {
    Migrate.(commandPolicyHashes := CommandHashes(Migrate, policyHash))
  }

  function MigrateStates(): seq<ModuleState> {
    [StateNamed("a"), StateNamed("b")]
  }

  /** It passes the replacement's own checks ... */
  lemma MigratePlanIsValid(policyHash: string -> string)
    ensures MayRemove(MigratePlan(policyHash), "a", 1, false, policyHash)
  {
    hide IsVersionText, TrimSpace, CommandsArePinned, HashesOf;
    TwoIsAVersion();
    CommandsAreTrimmed();
    MigrateHasNoBlanks();
    OwnHashesPin(Migrate, policyHash);
  }

  lemma MigrateHasNoBlanks()
    ensures forall c :: c in Commands(Migrate) ==> TrimSpace(c.command) != ""
  {
    CommandsAreTrimmed();
    hide TrimSpace;
    assert |"db:seed"| > 0 && |"tenant:migrate"| > 0 && |"module:manifest:check"| > 0 && |"migrate"| > 0;
  }

  lemma CommandsAreTrimmed()
    ensures TrimSpace("a") == "a" && TrimSpace("2.0.0") == "2.0.0" && TrimSpace("db:seed") == "db:seed"
    ensures TrimSpace("tenant:migrate") == "tenant:migrate"
            && TrimSpace("module:manifest:check") == "module:manifest:check"
    ensures TrimSpace("migrate") == "migrate"
  {
    TrimmedWord("a");
    TrimmedWord("2.0.0");
    SeedIsAWord();
    TrimmedWord("db:seed");
    TenantMigrateIsAWord();
    TrimmedWord("tenant:migrate");
    ManifestCheckIsAWord();
    TrimmedWord("module:manifest:check");
    MigrateIsAWord();
    TrimmedWord("migrate");
    hide TrimSpace;
  }

  lemma TwoIsAVersion()
    ensures IsVersionText("2.0.0", {'+'})
  {
    assert "2.0.0"[1..] == ".0.0" && "2.0.0"[2..] == "0.0" && "0.0"[1..] == ".0" && "0.0"[2..] == "0" && "0"[1..] == "";
  }

  lemma MigratePlanLists(policyHash: string -> string, plan: Plan)
    requires IsPlanFor(plan, MigrateStates(), "uninstall", "a", Some(MigratePlan(policyHash)))
    ensures IsReplacementRemoval(plan, StateNamed("b"), MigratePlan(policyHash),
                                 [NewPlanItem(StateNamed("a"), "uninstall")])
  {
    hide IsPlanFor, IsReplacementRemoval, NewPlanItem;
    var target, removed := RemovalOf(plan, MigrateStates(), "a", MigratePlan(policyHash));
    assert target == StateNamed("b") && removed == StateNamed("a");
  }

  /** It passes every check before an execution: the request is planned and its batch may run. */
  lemma MigrateIsAccepted(policyHash: string -> string, owner: string, reason: string, plan: Plan)
    requires owner != "" && reason != ""
    ensures CanRequest(MigrateStates(), "uninstall", "a", Some(MigratePlan(policyHash)), 1, false, policyHash, true,
                       owner, reason)
    ensures IsPlanFor(plan, MigrateStates(), "uninstall", "a", Some(MigratePlan(policyHash))) ==>
            AllRunnable(plan.items)
  {
    hide MayRemove, IsPlanFor, AllRunnable, IsReplacementRemoval;
    var states := MigrateStates();
    assert states[0] in states && states[1] in states;
    MigratePlanIsValid(policyHash);
    assert ConstraintsHold(states);
    if IsPlanFor(plan, states, "uninstall", "a", Some(MigratePlan(policyHash))) {
      MigratePlanLists(policyHash, plan);
      MigrateItemsMayRun(policyHash, plan);
    }
  }

  lemma MigrateItemsMayRun(policyHash: string -> string, plan: Plan)
    requires IsReplacementRemoval(plan, StateNamed("b"), MigratePlan(policyHash),
                                  [NewPlanItem(StateNamed("a"), "uninstall")])
    ensures AllRunnable(plan.items)
  {
    hide NormalizedCommands, ValidateCommand, IdempotencyKey, ReplacementAction, PhaseText, CommandsArePinned;
    MigrateIsOneCommand();
    SeedIsOneCommand();
    TenantMigrateIsOneCommand();
    ManifestCheckIsOneCommand();
    BlankIsNoCommand();
    var p := MigratePlan(policyHash);
    forall i | 0 <= i < |plan.items| ensures ItemIsRunnable(plan.items[i]) {
      if i == 0 {
        assert CommandList(plan.items[0]) == [];
      } else if i < 6 {
        assert plan.items[1 + (i - 1)] == ReplacementItem(StateNamed("b"), ForwardCommands(p)[i - 1]);
        ForwardItemMayRun(p, plan.items[i], ForwardCommands(p)[i - 1].command);
      } else {
        assert plan.items[i] == plan.items[6..][i - 6];
        assert CommandList(plan.items[i]) == [];
      }
    }
  }

  lemma ForwardItemMayRun(p: ReplacementPlan, item: PlanItem, command: string)
    requires item.command == command && item.destructiveCheck == ""
    requires NormalizedCommands(command) == [command] && ValidateCommand(command).None?
    ensures ItemIsRunnable(item)
  {
    hide NormalizedCommands, ValidateCommand;
    BlankIsNoCommand();
    assert CommandList(item) == [command];
  }

  /** The planned removal can still run "migrate" twice in one execution: the cutover's success is not
      recorded, so the rollback does not know that it ran. */
  lemma MigrateCanRunTwice(policyHash: string -> string, plan: Plan) returns (runs: seq<ItemRun>)
    requires IsReplacementRemoval(plan, StateNamed("b"), MigratePlan(policyHash),
                                  [NewPlanItem(StateNamed("a"), "uninstall")])
    ensures IsExecution(plan, runs) && !Distinct(RanBy(runs))
  {
    hide IsExecution, RanBy, Distinct, NormalizedCommands, ValidateCommand, IdempotencyKey, PhaseText;
    MigrateIsOneCommand();
    BlankIsNoCommand();
    var p := MigratePlan(policyHash);
    assert ForwardCommands(p)[4].phase == Cutover;
    var cutover, back := plan.items[1 + 4], plan.rollback.value;
    assert cutover == ReplacementItem(StateNamed("b"), ForwardCommands(p)[4]);
    assert CommandList(cutover) == ["migrate"] && CommandList(back) == ["migrate"];
    assert "migrate" in CommandList(cutover) && "migrate" in CommandList(back);
    assert ItemIsRunnable(cutover) && ItemIsRunnable(back) && Shares(cutover, back);
    assert MayRepeatAt(plan, 5);
    runs := RepeatingExecution(plan, 5);
  }
}
