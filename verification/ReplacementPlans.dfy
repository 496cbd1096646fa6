/** A module's declared replacement: its commands and the checks that let a removal use it. Times are
    clock values, None for an unset one; 'policyHash' stands for the digest of a command text. */
module ReplacementPlans {
  import opened Outcomes
  import opened Trimming
  import opened VersionPattern
  import opened Ordering

  datatype Phase = Prepare | DualRun | Cutover | RollbackWindow

  datatype ReplacementCommand = ReplacementCommand(phase: Phase, name: string, command: string)

  datatype ReplacementPlan = ReplacementPlan(
    fromModule: string,
    toModule: string,
    dataMigration: string,
    configMigration: string,
    permissionMapping: string,
    validation: string,
    cutover: string,
    rollback: string,
    announcedAt: Option<int>,
    endOfSupport: Option<int>,
    removalVersion: string,
    phases: seq<string>,
    commandPolicyHashes: map<string, string>
  )

  function PhaseText(p: Phase): string {
    match p
    case Prepare => "prepare"
    case DualRun => "dual_run"
    case Cutover => "cutover"
    case RollbackWindow => "rollback_window"
  }

  function ForwardCommands(p: ReplacementPlan): seq<ReplacementCommand> {
    [ReplacementCommand(Prepare, "data_migration", p.dataMigration),
     ReplacementCommand(Prepare, "config_migration", p.configMigration),
     ReplacementCommand(DualRun, "permission_mapping", p.permissionMapping),
     ReplacementCommand(DualRun, "validation", p.validation),
     ReplacementCommand(Cutover, "cutover", p.cutover)]
  }

  function RollbackCommand(p: ReplacementPlan): ReplacementCommand {
    ReplacementCommand(RollbackWindow, "rollback", p.rollback)
  }

  function Commands(p: ReplacementPlan): seq<ReplacementCommand> {
    ForwardCommands(p) + [RollbackCommand(p)]
  }

  // --- may a removal use it -----------------------------------------------------------------------------------

  const RequiredPhases := ["prepare", "dual_run", "cutover", "rollback_window", "retired"]

  method ValidatePhases(phases: seq<string>) returns (ok: bool)
    ensures ok <==> phases == RequiredPhases
  {
    if |phases| != |RequiredPhases| {
      return false;
    }
    for position := 0 to |RequiredPhases|
      invariant phases[..position] == RequiredPhases[..position]
    {
      if phases[position] != RequiredPhases[position] {
        return false;
      }
    }
    assert phases == phases[..5] && RequiredPhases == RequiredPhases[..5];
    return true;
  }

  function Hashed(p: ReplacementPlan, name: string): string {
    if name in p.commandPolicyHashes then p.commandPolicyHashes[name] else ""
  }

  predicate IsPinned(p: ReplacementPlan, c: ReplacementCommand, policyHash: string -> string) {
    TrimSpace(c.command) != "" && Hashed(p, c.name) == policyHash(c.command)
  }

  /** No command is blank, and each one's digest is on record; there are no other digests. */
  predicate CommandsArePinned(p: ReplacementPlan, policyHash: string -> string) {
    && |p.commandPolicyHashes| == 6
    && forall c :: c in Commands(p) ==> IsPinned(p, c, policyHash)
  }

  method ValidateCommandHashes(p: ReplacementPlan, policyHash: string -> string) returns (ok: bool)
    ensures ok <==> CommandsArePinned(p, policyHash)
  {
    hide TrimSpace;
    var commands := Commands(p);
    if |p.commandPolicyHashes| != |commands| {
      return false;
    }
    for i := 0 to |commands|
      invariant forall k :: 0 <= k < i ==> IsPinned(p, commands[k], policyHash)
    {
      if TrimSpace(commands[i].command) == "" || Hashed(p, commands[i].name) != policyHash(commands[i].command) {
        assert commands[i] in commands && !IsPinned(p, commands[i], policyHash);
        return false;
      }
    }
    return true;
  }

  predicate IsValid(p: ReplacementPlan, moduleId: string, policyHash: string -> string) {
    && TrimSpace(p.fromModule) == TrimSpace(moduleId)
    && IsVersionText(TrimSpace(p.removalVersion), {'+'})
    && p.announcedAt.Some? && p.endOfSupport.Some? && p.endOfSupport.value > p.announcedAt.value
    && p.phases == RequiredPhases
    && CommandsArePinned(p, policyHash)
  }

  method Validate(p: ReplacementPlan, moduleId: string, replacementId: string, policyHash: string -> string)
    returns (ok: bool)
    requires replacementId == p.toModule
    ensures ok <==> IsValid(p, moduleId, policyHash)
  {
    hide TrimSpace, IsVersionText, CommandsArePinned;
    if TrimSpace(p.fromModule) != TrimSpace(moduleId) || TrimSpace(p.toModule) != TrimSpace(replacementId) {
      return false;
    }
    if !IsVersionText(TrimSpace(p.removalVersion), {'+'}) {
      return false;
    }
    if p.announcedAt.None? || p.endOfSupport.None? || p.endOfSupport.value <= p.announcedAt.value {
      return false;
    }
    ok := ValidatePhases(p.phases);
    if ok {
      ok := ValidateCommandHashes(p, policyHash);
    }
  }

  /** After the end of support, or with an emergency approval. */
  predicate CanRemove(p: ReplacementPlan, now: int, emergencyApproved: bool) {
    emergencyApproved || (p.endOfSupport.Some? ==> now >= p.endOfSupport.value)
  }

  predicate MayRemove(p: ReplacementPlan, moduleId: string, now: int, emergencyApproved: bool,
                      policyHash: string -> string) {
    IsValid(p, moduleId, policyHash) && CanRemove(p, now, emergencyApproved)
  }

  ghost predicate IsOnRecord(p: ReplacementPlan, name: string, command: string, policyHash: string -> string) {
    && !IsTrimOf("", command)
    && (if name in p.commandPolicyHashes then p.commandPolicyHashes[name] else "") == policyHash(command)
  }

  /** What a removal needs of its replacement plan, field by field. */
  ghost predicate AllowsRemoval(p: ReplacementPlan, moduleId: string, now: int, emergencyApproved: bool,
                                policyHash: string -> string) {
    && (exists id :: IsTrimOf(id, p.fromModule) && IsTrimOf(id, moduleId))
    && (exists version :: IsTrimOf(version, p.removalVersion) && IsRelease(version, {'+'}))
    && (exists announced, end :: p.announcedAt == Some(announced) && p.endOfSupport == Some(end) && announced < end
                                 && (emergencyApproved || end <= now))
    && p.phases == ["prepare", "dual_run", "cutover", "rollback_window", "retired"]
    && |p.commandPolicyHashes| == 6
    && IsOnRecord(p, "data_migration", p.dataMigration, policyHash)
    && IsOnRecord(p, "config_migration", p.configMigration, policyHash)
    && IsOnRecord(p, "permission_mapping", p.permissionMapping, policyHash)
    && IsOnRecord(p, "validation", p.validation, policyHash)
    && IsOnRecord(p, "cutover", p.cutover, policyHash)
    && IsOnRecord(p, "rollback", p.rollback, policyHash)
  }

  lemma PinnedMeaning(p: ReplacementPlan, c: ReplacementCommand, policyHash: string -> string)
    ensures IsPinned(p, c, policyHash) <==> IsOnRecord(p, c.name, c.command, policyHash)
  {
    hide TrimSpace, IsTrimOf;
    TrimSpaceMeaning(c.command, "");
  }

  lemma AllPinnedMeaning(p: ReplacementPlan, policyHash: string -> string)
    ensures (forall c :: c in Commands(p) ==> IsPinned(p, c, policyHash)) <==>
            && IsOnRecord(p, "data_migration", p.dataMigration, policyHash)
            && IsOnRecord(p, "config_migration", p.configMigration, policyHash)
            && IsOnRecord(p, "permission_mapping", p.permissionMapping, policyHash)
            && IsOnRecord(p, "validation", p.validation, policyHash)
            && IsOnRecord(p, "cutover", p.cutover, policyHash)
            && IsOnRecord(p, "rollback", p.rollback, policyHash)
  {
    hide IsPinned, IsOnRecord;
    PinnedMeaning(p, ReplacementCommand(Prepare, "data_migration", p.dataMigration), policyHash);
    PinnedMeaning(p, ReplacementCommand(Prepare, "config_migration", p.configMigration), policyHash);
    PinnedMeaning(p, ReplacementCommand(DualRun, "permission_mapping", p.permissionMapping), policyHash);
    PinnedMeaning(p, ReplacementCommand(DualRun, "validation", p.validation), policyHash);
    PinnedMeaning(p, ReplacementCommand(Cutover, "cutover", p.cutover), policyHash);
    PinnedMeaning(p, ReplacementCommand(RollbackWindow, "rollback", p.rollback), policyHash);
    SixCommands(p);
    var commands := Commands(p);
    assert forall c :: c in commands <==> c == commands[0] || c == commands[1] || c == commands[2] || c == commands[3]
                                          || c == commands[4] || c == commands[5];
  }

  lemma SameTrim(a: string, b: string)
    ensures TrimSpace(a) == TrimSpace(b) <==> exists t :: IsTrimOf(t, a) && IsTrimOf(t, b)
  {
    hide TrimSpace, IsTrimOf;
    TrimSpaceMeaning(a, TrimSpace(a));
    TrimSpaceMeaning(b, TrimSpace(a));
    forall t | IsTrimOf(t, a) && IsTrimOf(t, b) ensures TrimSpace(a) == t && TrimSpace(b) == t {
      TrimSpaceMeaning(a, t);
      TrimSpaceMeaning(b, t);
    }
  }

  lemma RemovalVersionMeaning(version: string)
    ensures IsVersionText(TrimSpace(version), {'+'}) <==> exists t :: IsTrimOf(t, version) && IsRelease(t, {'+'})
  {
    hide TrimSpace, IsTrimOf, IsVersionText, IsRelease;
    var trimmed := TrimSpace(version);
    TrimSpaceMeaning(version, trimmed);
    VersionTextMeaning(trimmed, {'+'});
    forall t | IsTrimOf(t, version) ensures t == trimmed { TrimSpaceMeaning(version, t); }
  }

  /** Removal is allowed exactly if every field is as it has to be. */
  lemma MayRemoveMeaning(p: ReplacementPlan, moduleId: string, now: int, emergencyApproved: bool,
                         policyHash: string -> string)
    ensures MayRemove(p, moduleId, now, emergencyApproved, policyHash)
            <==> AllowsRemoval(p, moduleId, now, emergencyApproved, policyHash)
  {
    hide TrimSpace, IsTrimOf, IsVersionText, IsRelease, IsOnRecord, IsPinned, Commands;
    SameTrim(p.fromModule, moduleId);
    RemovalVersionMeaning(p.removalVersion);
    AllPinnedMeaning(p, policyHash);
  }

  /** A removal that is allowed uses commands whose digests were recorded, so commands with other
      digests cannot be slipped in under the same record. */
  lemma RecordPinsCommands(p: ReplacementPlan, q: ReplacementPlan, moduleId: string, now: int, emergencyApproved: bool,
                           policyHash: string -> string, i: nat)
    requires MayRemove(p, moduleId, now, emergencyApproved, policyHash)
             && MayRemove(q, moduleId, now, emergencyApproved, policyHash)
    requires p.commandPolicyHashes == q.commandPolicyHashes && i < 5
    ensures policyHash(ForwardCommands(p)[i].command) == policyHash(ForwardCommands(q)[i].command)
    ensures policyHash(p.rollback) == policyHash(q.rollback)
  {
    hide TrimSpace, IsVersionText;
    var a, b := Commands(p), Commands(q);
    assert a[i] in a && b[i] in b && a[5] in a && b[5] in b;
    assert IsPinned(p, a[i], policyHash) && IsPinned(q, b[i], policyHash);
    assert IsPinned(p, a[5], policyHash) && IsPinned(q, b[5], policyHash);
  }

  // --- recording the digests ------------------------------------------------------------------------------------

  function HashesOf(commands: seq<ReplacementCommand>, policyHash: string -> string): map<string, string> {
    if commands == [] then map[]
    else
      var last := commands[|commands| - 1];
      HashesOf(commands[..|commands| - 1], policyHash)[last.name := policyHash(last.command)]
  }

  const NameOf: ReplacementCommand -> string := (c: ReplacementCommand) => c.name

  lemma {:induction false} HashedNames(commands: seq<ReplacementCommand>, policyHash: string -> string)
    ensures forall name :: name in HashesOf(commands, policyHash) <==> exists c :: c in commands && c.name == name
  {
    if commands != [] {
      HashedNames(commands[..|commands| - 1], policyHash);
      assert commands == commands[..|commands| - 1] + [commands[|commands| - 1]];
    }
  }

  lemma LastNameIsNew(commands: seq<ReplacementCommand>)
    requires DistinctKeys(commands, NameOf) && commands != []
    ensures var front, last := commands[..|commands| - 1], commands[|commands| - 1];
      DistinctKeys(front, NameOf) && forall c :: c in front ==> c.name != last.name
  {
    var front, last := commands[..|commands| - 1], commands[|commands| - 1];
    forall c | c in front ensures c.name != last.name {
      var i :| 0 <= i < |front| && front[i] == c;
      assert NameOf(commands[i]) != NameOf(last);
    }
  }

  lemma {:induction false} HashesMeaning(commands: seq<ReplacementCommand>, policyHash: string -> string)
    requires DistinctKeys(commands, NameOf)
    ensures var hashes := HashesOf(commands, policyHash);
      |hashes| == |commands| && forall c :: c in commands ==>
        c.name in hashes && hashes[c.name] == policyHash(c.command)
  {
    if commands != [] {
      var front, last := commands[..|commands| - 1], commands[|commands| - 1];
      LastNameIsNew(commands);
      HashesMeaning(front, policyHash);
      HashedNames(front, policyHash);
      hide DistinctKeys;
      assert forall c :: c in commands <==> c in front || c == last;
      assert last.name !in HashesOf(front, policyHash);
    }
  }

  lemma NameLengths()
    ensures |"data_migration"| == 14 && |"config_migration"| == 16 && |"permission_mapping"| == 18
    ensures |"validation"| == 10 && |"cutover"| == 7 && |"rollback"| == 8
  {
  }

  lemma NamesAreDistinct(p: ReplacementPlan)
    ensures DistinctKeys(Commands(p), NameOf)
  {
    NameLengths();
    var lengths := [14, 16, 18, 10, 7, 8];
    var commands := Commands(p);
    assert forall i :: 0 <= i < 6 ==> |commands[i].name| == lengths[i];
    forall i, j | 0 <= i < j < |commands| ensures NameOf(commands[i]) != NameOf(commands[j]) {
      assert lengths[i] != lengths[j];
    }
  }

  function CommandHashes(p: ReplacementPlan, policyHash: string -> string): map<string, string> {
    HashesOf(Commands(p), policyHash)
  }

  /** A plan with its own digests on record is pinned, unless one of its commands is blank. */
  lemma OwnHashesPin(p: ReplacementPlan, policyHash: string -> string)
    ensures CommandsArePinned(p.(commandPolicyHashes := CommandHashes(p, policyHash)), policyHash)
            <==> forall c :: c in Commands(p) ==> TrimSpace(c.command) != ""
  {
    hide TrimSpace, HashesOf;
    var q := p.(commandPolicyHashes := CommandHashes(p, policyHash));
    assert Commands(q) == Commands(p);
    NamesAreDistinct(p);
    HashesMeaning(Commands(p), policyHash);
    hide Commands;
    SixCommands(p);
  }

  lemma SixCommands(p: ReplacementPlan)
    ensures |Commands(p)| == 6
  {
  }
}
