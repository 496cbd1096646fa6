/** The idempotency key of a planned item, and which items share one. */
module IdempotencyKeys {
  import opened VersionPattern

  predicate ValidAction(action: string) {
    action in {"install", "upgrade", "rollback", "uninstall"}
  }

  function IdempotencyKey(action: string, moduleId: string, version: string): string {
    action + ":" + moduleId + ":" + version
  }

  function ReplacementAction(phase: string, name: string): string {
    "replacement:" + phase + ":" + name
  }

  const PREPARE_DATA := ReplacementAction("prepare", "data_migration")
  const PREPARE_CONFIG := ReplacementAction("prepare", "config_migration")
  const DUAL_RUN_MAPPING := ReplacementAction("dual_run", "permission_mapping")
  const DUAL_RUN_VALIDATION := ReplacementAction("dual_run", "validation")
  const CUTOVER := ReplacementAction("cutover", "cutover")
  const WINDOW_ROLLBACK := ReplacementAction("rollback_window", "rollback")

  /** The actions of a replacement's items, the rollback's last. */
  function ReplacementActions(): seq<string> {
    [PREPARE_DATA, PREPARE_CONFIG, DUAL_RUN_MAPPING, DUAL_RUN_VALIDATION, CUTOVER, WINDOW_ROLLBACK]
  }

  /** Every action the planner makes a key of; see Planner.PlannedActions. */
  predicate IsPlannedAction(action: string) {
    ValidAction(action) || action in ReplacementActions()
  }

  /** The shorter id, and the longer one's surplus moved over into the version: the keys are the same text. */
  ghost predicate Shifts(shortId: string, shortVersion: string, longId: string, longVersion: string) {
    exists b: string :: longId == shortId + ":" + b && shortVersion == b + ":" + longVersion
  }

  /** What two modules with the same key of one action have in common. */
  ghost predicate SameKeyText(id1: string, version1: string, id2: string, version2: string) {
    || (id1 == id2 && version1 == version2)
    || Shifts(id1, version1, id2, version2)
    || Shifts(id2, version2, id1, version1)
  }

  lemma SharedPrefix(a: string, x: string, b: string, y: string)
    requires a + x == b + y && |a| <= |b|
    ensures a <= b && x == b[|a|..] + y
  {
    var s := a + x;
    assert s[..|a|] == a && s[..|b|] == b;
    assert x == s[|a|..] && y == s[|b|..];
    assert s[|a|..] == b[|a|..] + y;
  }

  lemma AfterColon(x: string)
    ensures (":" + x)[0] == ':' && (":" + x)[1..] == x
  {
  }

  lemma KeyTextsEqualOneWay(id1: string, version1: string, id2: string, version2: string)
    requires id1 + ":" + version1 == id2 + ":" + version2 && |id1| <= |id2|
    ensures (id1 == id2 && version1 == version2) || Shifts(id1, version1, id2, version2)
  {
    Regroup(id1, version1);
    Regroup(id2, version2);
    SharedPrefix(id1, ":" + version1, id2, ":" + version2);
    AfterColon(version1);
    AfterColon(version2);
    var surplus := id2[|id1|..];
    assert id2 == id1 + surplus;
    if surplus == "" {
      assert ":" + version1 == ":" + version2;
    } else {
      var b := surplus[1..];
      assert (surplus + (":" + version2))[0] == surplus[0];
      assert surplus == ":" + b;
      assert (surplus + (":" + version2))[1..] == b + (":" + version2);
      Regroup(b, version2);
      assert id2 == id1 + ":" + b;
    }
  }

  lemma Regroup(x: string, y: string)
    ensures x + ":" + y == x + (":" + y)
  {
  }

  lemma ShiftedTextsAreEqual(id1: string, version1: string, id2: string, version2: string)
    requires Shifts(id1, version1, id2, version2)
    ensures id1 + ":" + version1 == id2 + ":" + version2
  {
    var b :| id2 == id1 + ":" + b && version1 == b + ":" + version2;
    assert id1 + ":" + (b + ":" + version2) == (id1 + ":" + b) + ":" + version2;
  }

  lemma KeyTextsEqualIff(id1: string, version1: string, id2: string, version2: string)
    ensures id1 + ":" + version1 == id2 + ":" + version2 <==> SameKeyText(id1, version1, id2, version2)
  {
    if id1 + ":" + version1 == id2 + ":" + version2 {
      if |id1| <= |id2| {
        KeyTextsEqualOneWay(id1, version1, id2, version2);
      } else {
        KeyTextsEqualOneWay(id2, version2, id1, version1);
      }
    }
    if Shifts(id1, version1, id2, version2) { ShiftedTextsAreEqual(id1, version1, id2, version2); }
    if Shifts(id2, version2, id1, version1) { ShiftedTextsAreEqual(id2, version2, id1, version1); }
  }

  // --- the action can be read off a key ------------------------------------------------------------------

  lemma LifecycleActionStarts(a: string)
    requires ValidAction(a)
    ensures |a| >= 7 && a[1] != 'e'
    ensures a == "install" || a == "rollback" || a == "upgrade" || a == "uninstall"
    ensures a == "install" <==> a[0] == 'i'
    ensures a == "rollback" <==> a[0] == 'r'
    ensures a == "upgrade" <==> a[1] == 'p'
    ensures a == "uninstall" <==> a[0] == 'u' && a[1] == 'n'
  {
  }

  lemma ActionParts(phase: string, name: string)
    requires phase != "" && name != ""
    ensures var a := ReplacementAction(phase, name);
            |a| == 13 + |phase| + |name| && a[1] == 'e' && a[12] == phase[0] && a[13 + |phase|] == name[0]
  {
    var front := "replacement:";
    var a := ReplacementAction(phase, name);
    assert front[1] == 'e' && |front| == 12;
    assert a == front + (phase + (":" + name));
    assert a[12..] == phase + (":" + name);
    assert a[12..][0] == phase[0] && a[12..][|phase| + 1] == name[0];
  }

  lemma PrepareActionParts()
    ensures |PREPARE_DATA| >= 23 && |PREPARE_CONFIG| >= 23 && PREPARE_DATA[1] == 'e' == PREPARE_CONFIG[1]
    ensures PREPARE_DATA[12] == 'p' == PREPARE_CONFIG[12] && PREPARE_DATA[20] == 'd' && PREPARE_CONFIG[20] == 'c'
  {
    hide ReplacementAction;
    ActionParts("prepare", "data_migration");
    ActionParts("prepare", "config_migration");
  }

  lemma DualRunActionParts()
    ensures |DUAL_RUN_MAPPING| >= 23 && |DUAL_RUN_VALIDATION| >= 23
            && DUAL_RUN_MAPPING[1] == 'e' == DUAL_RUN_VALIDATION[1]
    ensures DUAL_RUN_MAPPING[12] == 'd' == DUAL_RUN_VALIDATION[12] && DUAL_RUN_MAPPING[21] == 'p'
            && DUAL_RUN_VALIDATION[21] == 'v'
  {
    hide ReplacementAction;
    ActionParts("dual_run", "permission_mapping");
    ActionParts("dual_run", "validation");
  }

  lemma CutoverActionParts()
    ensures |CUTOVER| >= 23 && |WINDOW_ROLLBACK| >= 23 && CUTOVER[1] == 'e' == WINDOW_ROLLBACK[1]
    ensures CUTOVER[12] == 'c' && WINDOW_ROLLBACK[12] == 'r'
  {
    hide ReplacementAction;
    ActionParts("cutover", "cutover");
    ActionParts("rollback_window", "rollback");
  }

  ghost predicate DifferAt(a: string, b: string, i: nat) {
    i < |a| && i < |b| && a[i] != b[i]
  }

  lemma LifecycleActionsDiffer(a: string, b: string)
    requires ValidAction(a) && ValidAction(b) && a != b
    ensures DifferAt(a, b, 0) || DifferAt(a, b, 1)
  {
    hide ValidAction;
    LifecycleActionStarts(a);
    LifecycleActionStarts(b);
  }

  lemma ReplacementActionStarts(a: string)
    requires a in ReplacementActions()
    ensures |a| >= 23 && a[1] == 'e'
  {
    hide PREPARE_DATA, PREPARE_CONFIG, DUAL_RUN_MAPPING, DUAL_RUN_VALIDATION, CUTOVER, WINDOW_ROLLBACK;
    PrepareActionParts();
    DualRunActionParts();
    CutoverActionParts();
  }

  lemma ReplacementActionsDiffer(a: string, b: string)
    requires a in ReplacementActions() && b in ReplacementActions() && a != b
    ensures DifferAt(a, b, 12) || DifferAt(a, b, 20) || DifferAt(a, b, 21)
  {
    hide PREPARE_DATA, PREPARE_CONFIG, DUAL_RUN_MAPPING, DUAL_RUN_VALIDATION, CUTOVER, WINDOW_ROLLBACK;
    PrepareActionParts();
    DualRunActionParts();
    CutoverActionParts();
  }

  lemma PlannedActionsDiffer(a: string, b: string)
    requires IsPlannedAction(a) && IsPlannedAction(b) && a != b
    ensures exists i: nat :: DifferAt(a, b, i)
  {
    hide ValidAction, ReplacementActions;
    if ValidAction(a) && ValidAction(b) {
      LifecycleActionsDiffer(a, b);
    } else if ValidAction(a) {
      LifecycleActionStarts(a);
      ReplacementActionStarts(b);
      assert DifferAt(a, b, 1);
    } else if ValidAction(b) {
      LifecycleActionStarts(b);
      ReplacementActionStarts(a);
      assert DifferAt(a, b, 1);
    } else {
      ReplacementActionsDiffer(a, b);
    }
  }

  lemma DifferentStarts(a: string, x: string, b: string, y: string, i: nat)
    requires DifferAt(a, b, i)
    ensures a + x != b + y
  {
    assert (a + x)[i] == a[i] && (b + y)[i] == b[i];
  }

  lemma KeysNameTheirAction(action1: string, rest1: string, action2: string, rest2: string)
    requires IsPlannedAction(action1) && IsPlannedAction(action2)
    requires action1 + (":" + rest1) == action2 + (":" + rest2)
    ensures action1 == action2 && rest1 == rest2
  {
    hide IsPlannedAction, DifferAt;
    if action1 != action2 {
      PlannedActionsDiffer(action1, action2);
      var i: nat :| DifferAt(action1, action2, i);
      DifferentStarts(action1, ":" + rest1, action2, ":" + rest2, i);
    }
    SharedPrefix(action1, ":" + rest1, action2, ":" + rest2);
    AfterColon(rest1);
    AfterColon(rest2);
  }

  // --- which items share a key --------------------------------------------------------------------------

  lemma KeyParts(action: string, id: string, version: string)
    ensures IdempotencyKey(action, id, version) == action + (":" + (id + ":" + version))
  {
  }

  /** Exactly when two planned items have the same key: the same action, and either the same module and
      version or an id that goes on behind a colon with what the other module's version starts with. */
  lemma KeysEqualIff(action1: string, id1: string, version1: string, action2: string, id2: string, version2: string)
    requires IsPlannedAction(action1) && IsPlannedAction(action2)
    ensures IdempotencyKey(action1, id1, version1) == IdempotencyKey(action2, id2, version2)
            <==> action1 == action2 && SameKeyText(id1, version1, id2, version2)
  {
    var rest1, rest2 := id1 + ":" + version1, id2 + ":" + version2;
    KeyParts(action1, id1, version1);
    KeyParts(action2, id2, version2);
    if IdempotencyKey(action1, id1, version1) == IdempotencyKey(action2, id2, version2) {
      KeysNameTheirAction(action1, rest1, action2, rest2);
    }
    KeyTextsEqualIff(id1, version1, id2, version2);
  }

  /** So a key names action, module and version as soon as one side is free of colons: all the ids,
      or all the versions. */
  lemma IdempotencyKeyNamesItsModule(action1: string, id1: string, version1: string, action2: string, id2: string,
                                     version2: string)
    requires IsPlannedAction(action1) && IsPlannedAction(action2)
    requires (':' !in version1 && ':' !in version2) || (':' !in id1 && ':' !in id2)
    requires IdempotencyKey(action1, id1, version1) == IdempotencyKey(action2, id2, version2)
    ensures action1 == action2 && id1 == id2 && version1 == version2
  {
    KeysEqualIff(action1, id1, version1, action2, id2, version2);
    ShiftNeedsColons(id1, version1, id2, version2);
    ShiftNeedsColons(id2, version2, id1, version1);
  }

  /** A shared key of two modules takes a colon in one's id and a colon in the other's version. */
  lemma ShiftNeedsColons(id1: string, version1: string, id2: string, version2: string)
    ensures Shifts(id1, version1, id2, version2) ==> ':' in id2 && ':' in version1
  {
    if b :| id2 == id1 + ":" + b && version1 == b + ":" + version2 {
      assert id2[|id1|] == ':' && version1[|b|] == ':';
    }
  }

  /** And such a pair does share it, for every action. */
  lemma ColonMakesKeysCollide(action: string, front: string, back: string, version: string)
    ensures IdempotencyKey(action, front + ":" + back, version) == IdempotencyKey(action, front, back + ":" + version)
  {
    assert action + ":" + (front + ":" + back) + ":" + version == action + ":" + front + ":" + (back + ":" + version);
  }

  // --- modules that pass package validation ----------------------------------------------------------------

  /** The versions a packaged module may have: the package pattern, a leading 'v' aside. */
  predicate IsPackageVersion(v: string) {
    IsVersionText(v, {'+'})
  }

  /** Validated packages: whatever their ids, two items share a key only as one module's same item. */
  lemma PackagedModulesHaveTheirOwnKeys(action1: string, id1: string, version1: string, action2: string, id2: string,
                                        version2: string)
    requires IsPlannedAction(action1) && IsPlannedAction(action2)
    requires IsPackageVersion(version1) && IsPackageVersion(version2)
    ensures IdempotencyKey(action1, id1, version1) == IdempotencyKey(action2, id2, version2)
            <==> action1 == action2 && id1 == id2 && version1 == version2
  {
    VersionTextIsSimple(version1, {'+'}, ':');
    VersionTextIsSimple(version2, {'+'}, ':');
    KeysEqualIff(action1, id1, version1, action2, id2, version2);
    ShiftNeedsColons(id1, version1, id2, version2);
    ShiftNeedsColons(id2, version2, id1, version1);
  }
}
