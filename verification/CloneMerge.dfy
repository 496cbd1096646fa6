/** Merging groups of equal windows into clone blocks. Copying a group copies only a reference
    to its windows, so extending the current group also changes the stored one; the model
    extends the array element itself. */
module CloneMerge {
  import opened ClonePositions
  import opened CloneWindows
  import opened Ordering

  type Group = seq<CloneWindow>

  datatype CloneLocation = CloneLocation(path: string, startLine: nat, endLine: nat)

  datatype CloneBlock = CloneBlock(chars: nat, locations: seq<CloneLocation>)

  // --- position keys -------------------------------------------------------------------------------

  function PositionsOf(files: seq<PreparedFile>, g: Group): (ps: seq<Position>)
    ensures |ps| == |g|
  {
    seq(|g|, l requires 0 <= l < |g| => Position(PathOf(files, g[l].file), g[l].start))
  }

  function GroupKey(files: seq<PreparedFile>): Group -> string {
    g => PositionKey(PositionsOf(files, g))
  }

  function JoinParts(parts: seq<string>): string {
    if parts == [] then "" else if |parts| == 1 then parts[0] else parts[0] + "|" + JoinParts(parts[1..])
  }

  lemma {:induction false} JoinedTextsAreTheKey(ps: seq<Position>, parts: seq<string>)
    requires |parts| == |ps| && forall l :: 0 <= l < |ps| ==> parts[l] == PositionText(ps[l])
    ensures JoinParts(parts) == PositionKey(ps)
  {
    hide PositionText;
    if |ps| > 1 {
      JoinedTextsAreTheKey(ps[1..], parts[1..]);
    }
  }

  method GroupPositionKey(files: seq<PreparedFile>, group: Group) returns (key: string)
    requires forall w :: w in group ==> w.file < |files|
    ensures key == GroupKey(files)(group)
  {
    var parts := [];
    for l := 0 to |group|
      invariant |parts| == l
      invariant forall k :: 0 <= k < l ==> parts[k] == PositionText(PositionsOf(files, group)[k])
    {
      assert group[l] in group;
      parts := parts + [files[group[l].file].path + ":" + FormatCloneIndex(group[l].start)];
    }
    JoinedTextsAreTheKey(PositionsOf(files, group), parts);
    key := JoinParts(parts);
  }

  // --- groups and chains of groups -----------------------------------------------------------------

  /** At least two windows, all with the same content. */
  ghost predicate IsGroup(files: seq<PreparedFile>, g: Group) {
    && |g| >= 2
    && forall l :: 0 <= l < |g| ==> IsWindow(files, g[l]) && g[l].hash == g[0].hash
  }

  function GroupHash(g: Group): Digest {
    if g == [] then [] else g[0].hash
  }

  /** Groups with different contents. */
  ghost predicate AreGroups(files: seq<PreparedFile>, base: seq<Group>) {
    && (forall i :: 0 <= i < |base| ==> IsGroup(files, base[i]))
    && DistinctKeys(base, GroupHash)
  }

  /** Line indexes fit the key's fixed width. */
  ghost predicate IndexesFit(files: seq<PreparedFile>) {
    forall f :: 0 <= f < |files| ==> |files[f].normalized| <= Pow10(WIDTH)
  }

  /** b's windows lie d lines below a's, location by location. */
  ghost predicate Below(a: Group, b: Group, d: nat) {
    && |a| == |b|
    && forall l :: 0 <= l < |a| ==> b[l].file == a[l].file && b[l].start == a[l].start + d
  }

  /** Each group of ms lies one line below the one before. */
  ghost predicate IsChain(base: seq<Group>, ms: seq<nat>) {
    && ms != []
    && (forall k :: 0 <= k < |ms| ==> ms[k] < |base|)
    && (forall k :: 0 <= k < |ms| ==> Below(base[ms[0]], base[ms[k]], k))
  }

  ghost predicate Continues(base: seq<Group>, ms: seq<nat>, g: nat)
    requires IsChain(base, ms)
  {
    g < |base| && Below(base[ms[0]], base[g], |ms|)
  }

  /** The same group is not listed twice: its position gives its content. */
  lemma SamePlaceSameGroup(files: seq<PreparedFile>, base: seq<Group>, i: nat, j: nat)
    requires AreGroups(files, base) && i < |base| && j < |base| && Below(base[i], base[j], 0)
    ensures i == j
  {
    assert IsGroup(files, base[i]) && IsGroup(files, base[j]);
    assert IsWindow(files, base[i][0]) && IsWindow(files, base[j][0]);
    assert GroupHash(base[i]) == GroupHash(base[j]);
  }

  /** The position-key order puts a group behind every group it lies below. */
  lemma BelowIsLater(files: seq<PreparedFile>, base: seq<Group>, i: nat, j: nat, d: nat)
    requires IndexesFit(files) && AreGroups(files, base) && SortedBy(base, GroupKey(files))
    requires i < |base| && j < |base| && Below(base[i], base[j], d) && d > 0
    ensures i < j
  {
    hide PositionKey, Less, Pow10, FormatCloneIndex;
    assert IsGroup(files, base[i]) && IsGroup(files, base[j]);
    assert IsWindow(files, base[j][0]);
    LaterStartHasGreaterKey(PositionsOf(files, base[i]), PositionsOf(files, base[j]));
    assert Less(GroupKey(files)(base[i]), GroupKey(files)(base[j]));
  }

  // --- one block grows -----------------------------------------------------------------------------

  /** w after m further lines have been added. */
  ghost function Grown(files: seq<PreparedFile>, w: CloneWindow, m: nat): CloneWindow
    requires w.file < |files| && w.start <= w.end + m < |files[w.file].normalized|
  {
    var lines := files[w.file].normalized;
    w.(end := w.end + m, endLine := lines[w.end + m].number, chars := TextLength(lines[w.start..w.end + m + 1]))
  }

  ghost predicate IsGrown(files: seq<PreparedFile>, w: CloneWindow, m: nat, r: CloneWindow) {
    w.file < |files| && w.start <= w.end + m < |files[w.file].normalized| && r == Grown(files, w, m)
  }

  ghost predicate IsGrownGroup(files: seq<PreparedFile>, g: Group, m: nat, r: Group) {
    |r| == |g| && forall l :: 0 <= l < |g| ==> IsGrown(files, g[l], m, r[l])
  }

  lemma NotYetGrown(files: seq<PreparedFile>, g: Group)
    requires IsGroup(files, g)
    ensures IsGrownGroup(files, g, 0, g)
  {
    forall l | 0 <= l < |g| ensures IsGrown(files, g[l], 0, g[l]) {
      assert IsWindow(files, g[l]);
    }
  }

  ghost predicate Adjacent(current: Group, candidate: Group) {
    && |candidate| == |current|
    && forall l :: 0 <= l < |current| ==>
         current[l].file == candidate[l].file && candidate[l].start == current[l].end - WINDOW_LINES + 2
  }

  method AdjacentGroupIndex(current: Group, groups: array<Group>, used: array<bool>) returns (index: int)
    requires used.Length == groups.Length
    ensures -1 <= index < groups.Length
    ensures index >= 0 ==> !used[index] && Adjacent(current, groups[index])
    ensures forall g :: 0 <= g < (if index < 0 then groups.Length else index) ==>
            used[g] || !Adjacent(current, groups[g])
  {
    for i := 0 to groups.Length
      invariant forall g :: 0 <= g < i ==> used[g] || !Adjacent(current, groups[g])
    {
      var candidate := groups[i];
      if used[i] || |candidate| != |current| {
        continue;
      }
      var matches := true;
      for l := 0 to |current|
        invariant matches
        invariant forall k :: 0 <= k < l ==>
                    current[k].file == candidate[k].file && candidate[k].start == current[k].end - WINDOW_LINES + 2
      {
        var next := candidate[l];
        var expectedStart := current[l].end - WINDOW_LINES + 2;
        if current[l].file != next.file || next.start != expectedStart {
          matches := false;
          break;
        }
      }
      if matches {
        return i;
      }
    }
    return -1;
  }

  method ExtendCloneGroup(files: seq<PreparedFile>, groups: array<Group>, index: nat, next: Group, ghost g: Group,
                          ghost m: nat)
    requires index < groups.Length && IsGrownGroup(files, g, m, groups[index])
    requires IsGroup(files, g) && IsGroup(files, next) && Below(g, next, m + 1)
    modifies groups
    ensures IsGrownGroup(files, g, m + 1, groups[index])
    ensures forall j :: 0 <= j < groups.Length && j != index ==> groups[j] == old(groups[j])
  {
    hide IsGrown, IsWindow, IsGroup, Below;
    GroupLengths(files, g, next, m + 1);
    for l := 0 to |groups[index]|
      invariant |groups[index]| == |g|
      invariant forall k :: 0 <= k < l ==> IsGrown(files, g[k], m + 1, groups[index][k])
      invariant forall k :: l <= k < |g| ==> IsGrown(files, g[k], m, groups[index][k])
      invariant forall j :: 0 <= j < groups.Length && j != index ==> groups[j] == old(groups[j])
    {
      GroupWindows(files, g, next, m + 1, l);
      GrowOne(files, g[l], m, groups[index][l], next[l]);
      var newLine := files[next[l].file].normalized[next[l].end];
      var window := groups[index][l];
      groups[index] := groups[index][l := window.(end := next[l].end, endLine := next[l].endLine,
                                                  chars := window.chars + |newLine.text|)];
    }
  }

  lemma GroupLengths(files: seq<PreparedFile>, a: Group, b: Group, d: nat)
    requires Below(a, b, d)
    ensures |a| == |b|
  {
  }

  lemma GroupWindows(files: seq<PreparedFile>, a: Group, b: Group, d: nat, l: nat)
    requires IsGroup(files, a) && IsGroup(files, b) && Below(a, b, d) && l < |a|
    ensures |a| == |b| && IsWindow(files, a[l]) && IsWindow(files, b[l])
    ensures b[l].file == a[l].file && b[l].start == a[l].start + d
  {
    hide IsWindow;
  }

  lemma GrowOne(files: seq<PreparedFile>, w: CloneWindow, m: nat, current: CloneWindow, next: CloneWindow)
    requires IsWindow(files, w) && IsGrown(files, w, m, current)
    requires IsWindow(files, next) && next.file == w.file && next.start == w.start + m + 1
    ensures next.file < |files| && next.end < |files[next.file].normalized|
    ensures IsGrown(files, w, m + 1,
              current.(end := next.end, endLine := next.endLine,
                       chars := current.chars + |files[next.file].normalized[next.end].text|))
  {
    hide TextLength, Texts;
    TextLengthStep(files[w.file].normalized, w.start, w.end + m + 1);
  }

  /** Seen from the current block, an unextended group is adjacent exactly when it continues the chain. */
  lemma AdjacentMeansContinues(files: seq<PreparedFile>, base: seq<Group>, ms: seq<nat>, current: Group, g: nat,
                               candidate: Group)
    requires AreGroups(files, base) && IsChain(base, ms) && g < |base| && Below(base[g], candidate, 0)
    requires IsGrownGroup(files, base[ms[0]], |ms| - 1, current)
    ensures Adjacent(current, candidate) <==> Continues(base, ms, g)
  {
    var start := base[ms[0]];
    assert IsGroup(files, start);
    forall l | 0 <= l < |start|
      ensures current[l].file == start[l].file && current[l].end - WINDOW_LINES + 2 == start[l].start + |ms|
    {
      assert IsWindow(files, start[l]) && IsGrown(files, start[l], |ms| - 1, current[l]);
    }
  }

  lemma BelowBoth(a: Group, b: Group, c: Group, d: nat, e: nat)
    requires Below(a, b, d) && Below(a, c, d + e)
    ensures Below(b, c, e)
  {
  }

  lemma ChainStep(files: seq<PreparedFile>, base: seq<Group>, ms: seq<nat>, g: nat)
    requires IndexesFit(files) && AreGroups(files, base) && SortedBy(base, GroupKey(files))
    requires IsChain(base, ms) && Continues(base, ms, g)
    ensures IsChain(base, ms + [g]) && ms[|ms| - 1] < g
  {
    hide AreGroups, SortedBy, IndexesFit;
    var last := ms[|ms| - 1];
    assert Below(base[last], base[g], 1) by { BelowBoth(base[ms[0]], base[last], base[g], |ms| - 1, 1); }
    BelowIsLater(files, base, last, g, 1);
    hide Below;
  }

  /** The stored groups: places never change, and only groups that already started a block grew. */
  ghost predicate Stored(base: seq<Group>, groups: seq<Group>, used: seq<bool>, index: nat) {
    && |groups| == |base| == |used|
    && (forall j :: 0 <= j < |base| ==> Below(base[j], groups[j], 0))
    && (forall j :: 0 <= j < |base| && (j >= index || used[j]) ==> groups[j] == base[j])
  }

  /** While block 'index' grows along ms: only groups[index] and the flags of ms[1..] differ from
      the groups and flags the loop started from. */
  ghost predicate Growing(files: seq<PreparedFile>, base: seq<Group>, index: nat, ms: seq<nat>,
                          before: seq<Group>, usedBefore: seq<bool>, groups: seq<Group>, used: seq<bool>) {
    && IsChain(base, ms) && ms[0] == index < |base|
    && (forall k :: 0 < k < |ms| ==> index < ms[k] < |usedBefore| && !usedBefore[ms[k]])
    && |groups| == |before| == |base| && |used| == |usedBefore| == |base|
    && IsGrownGroup(files, base[index], |ms| - 1, groups[index])
    && (forall j :: 0 <= j < |base| && j != index ==> groups[j] == before[j])
    && (forall j :: 0 <= j < |base| ==> (used[j] <==> usedBefore[j] || j in ms[1..]))
  }

  lemma GrowingStep(files: seq<PreparedFile>, base: seq<Group>, index: nat, ms: seq<nat>, before: seq<Group>,
                    usedBefore: seq<bool>, groups: seq<Group>, used: seq<bool>, next: nat, after: seq<Group>)
    requires IndexesFit(files) && AreGroups(files, base) && SortedBy(base, GroupKey(files))
    requires Growing(files, base, index, ms, before, usedBefore, groups, used)
    requires Continues(base, ms, next) && !used[next] && index <= ms[|ms| - 1]
    requires |after| == |base| && IsGrownGroup(files, base[index], |ms|, after[index])
    requires forall j :: 0 <= j < |base| && j != index ==> after[j] == groups[j]
    ensures Growing(files, base, index, ms + [next], before, usedBefore, after, used[next := true])
    ensures ms[|ms| - 1] < next
  {
    hide IsGrownGroup, SortedBy, Below, AreGroups, IndexesFit;
    ChainStep(files, base, ms, next);
    assert (ms + [next])[1..] == ms[1..] + [next];
  }

  lemma GrowingCandidates(files: seq<PreparedFile>, base: seq<Group>, index: nat, ms: seq<nat>, before: seq<Group>,
                          usedBefore: seq<bool>, groups: seq<Group>, used: seq<bool>, g: nat)
    requires AreGroups(files, base) && Stored(base, before, usedBefore, index) && g < |base|
    requires Growing(files, base, index, ms, before, usedBefore, groups, used)
    ensures Adjacent(groups[index], groups[g]) <==> Continues(base, ms, g)
  {
    hide IsGrownGroup, Below, AreGroups, Adjacent;
    GrownStaysInPlace(files, base[index], |ms| - 1, groups[index]);
    AdjacentMeansContinues(files, base, ms, groups[index], g, groups[g]);
  }

  lemma GrowingKeepsStored(files: seq<PreparedFile>, base: seq<Group>, index: nat, ms: seq<nat>, before: seq<Group>,
                           usedBefore: seq<bool>, groups: seq<Group>, used: seq<bool>)
    requires Stored(base, before, usedBefore, index) && index < |base| && !usedBefore[index]
    requires Growing(files, base, index, ms, before, usedBefore, groups, used)
    ensures Stored(base, groups, used, index + 1)
  {
    hide IsGrownGroup, Below;
    GrownStaysInPlace(files, base[index], |ms| - 1, groups[index]);
    forall j | 0 <= j < |base| && (j >= index + 1 || used[j]) ensures groups[j] == base[j] {
      if j in ms[1..] {
        var k :| 0 <= k < |ms[1..]| && ms[1..][k] == j;
        assert ms[k + 1] == j;
      }
    }
  }

  lemma StartGrowing(files: seq<PreparedFile>, base: seq<Group>, index: nat, groups: seq<Group>, used: seq<bool>)
    requires AreGroups(files, base) && Stored(base, groups, used, index) && index < |base| && !used[index]
    ensures Growing(files, base, index, [index], groups, used, groups, used)
  {
    NotYetGrown(files, base[index]);
  }

  lemma NextIsFresh(files: seq<PreparedFile>, base: seq<Group>, index: nat, ms: seq<nat>, before: seq<Group>,
                    usedBefore: seq<bool>, groups: seq<Group>, used: seq<bool>, next: nat)
    requires IndexesFit(files) && AreGroups(files, base) && SortedBy(base, GroupKey(files))
    requires Stored(base, before, usedBefore, index)
    requires Growing(files, base, index, ms, before, usedBefore, groups, used)
    requires Continues(base, ms, next) && index <= ms[|ms| - 1]
    ensures IsGroup(files, base[index]) && groups[next] == base[next] && IsGroup(files, base[next])
    ensures Below(base[index], base[next], |ms|) && next != index
  {
    hide IsGrownGroup, SortedBy, Below, IndexesFit;
    ChainStep(files, base, ms, next);
  }

  lemma GrownStaysInPlace(files: seq<PreparedFile>, g: Group, m: nat, r: Group)
    requires IsGrownGroup(files, g, m, r)
    ensures Below(g, r, 0)
  {
    forall l | 0 <= l < |g| ensures r[l].file == g[l].file && r[l].start == g[l].start {
      assert IsGrown(files, g[l], m, r[l]);
    }
  }

  /** The inner loop: take the adjacent groups one after another. */
  method GrowGroup(files: seq<PreparedFile>, groups: array<Group>, used: array<bool>, index: nat,
                   ghost base: seq<Group>)
    returns (ghost ms: seq<nat>)
    requires IndexesFit(files) && AreGroups(files, base) && SortedBy(base, GroupKey(files))
    requires Stored(base, groups[..], used[..], index) && index < groups.Length && !used[index]
    modifies groups, used
    ensures Growing(files, base, index, ms, old(groups[..]), old(used[..]), groups[..], used[..])
    ensures Stored(base, groups[..], used[..], index + 1)
    ensures forall g :: 0 <= g < |base| && !used[g] ==> !Continues(base, ms, g)
  {
    hide IsGrownGroup, SortedBy, Below, AreGroups, IndexesFit, Adjacent, IsGroup;
    ghost var before, usedBefore := groups[..], used[..];
    ms := [index];
    StartGrowing(files, base, index, before, usedBefore);
    while true
      invariant Growing(files, base, index, ms, before, usedBefore, groups[..], used[..])
      invariant index <= ms[|ms| - 1]
      decreases groups.Length - ms[|ms| - 1]
    {
      var next := AdjacentGroupIndex(groups[index], groups, used);
      forall g | 0 <= g < |base| ensures Adjacent(groups[index], groups[g]) <==> Continues(base, ms, g) {
        GrowingCandidates(files, base, index, ms, before, usedBefore, groups[..], used[..], g);
      }
      if next < 0 {
        break;
      }
      ghost var during, usedDuring := groups[..], used[..];
      NextIsFresh(files, base, index, ms, before, usedBefore, during, usedDuring, next);
      used[next] := true;
      ExtendCloneGroup(files, groups, index, groups[next], base[index], |ms| - 1);
      GrowingStep(files, base, index, ms, before, usedBefore, during, usedDuring, next, groups[..]);
      assert used[..] == usedDuring[next := true];
      ms := ms + [next];
    }
    GrowingKeepsStored(files, base, index, ms, before, usedBefore, groups[..], used[..]);
  }

  // --- all blocks ------------------------------------------------------------------------------------

  ghost predicate Disjoint(a: seq<nat>, b: seq<nat>) {
    forall x :: x in a ==> x !in b
  }

  ghost predicate InSome(members: seq<seq<nat>>, g: nat) {
    exists b :: 0 <= b < |members| && g in members[b]
  }

  /** Every group is in exactly one block. */
  ghost predicate IsPartition(members: seq<seq<nat>>, n: nat) {
    && (forall g: nat :: g < n ==> InSome(members, g))
    && (forall b, c :: 0 <= b < c < |members| ==> Disjoint(members[b], members[c]))
  }

  /** The blocks built before 'index': a group is flagged exactly when it is a later part of one. */
  ghost predicate Partial(base: seq<Group>, members: seq<seq<nat>>, used: seq<bool>, index: nat) {
    && |used| == |base|
    && (forall b :: 0 <= b < |members| ==> IsChain(base, members[b]) && members[b][0] < index)
    && (forall b :: 0 <= b < |members| ==> LaterPartsFlagged(members[b], used))
    && (forall b, c :: 0 <= b < c < |members| ==> Disjoint(members[b], members[c]))
    && (forall g: nat :: g < |base| && (g < index || used[g]) ==> InSome(members, g))
    && (forall b, g :: 0 <= b < |members| ==> !Continues(base, members[b], g))
  }

  ghost predicate LaterPartsFlagged(ms: seq<nat>, used: seq<bool>) {
    && (forall k :: 0 < k < |ms| ==> ms[k] < |used| && used[ms[k]])
    && (|ms| > 0 ==> ms[0] < |used| && !used[ms[0]])
  }

  lemma NewBlockIsDisjoint(base: seq<Group>, ms: seq<nat>, earlier: seq<nat>, index: nat, used: seq<bool>)
    requires IsChain(base, ms) && ms[0] == index && index < |used| && !used[index]
    requires forall k :: 0 < k < |ms| ==> index < ms[k] < |used| && !used[ms[k]]
    requires earlier != [] && earlier[0] < index && LaterPartsFlagged(earlier, used)
    ensures Disjoint(earlier, ms)
  {
    forall x | x in earlier ensures x !in ms {
      var k :| 0 <= k < |earlier| && earlier[k] == x;
      assert k == 0 ==> x < index && !used[x];
      assert k > 0 ==> used[x];
      assert forall l :: 0 <= l < |ms| ==> index <= ms[l] && !used[ms[l]];
    }
  }

  /** A group taken earlier follows its own predecessor, so it cannot continue the new block. */
  lemma TakenDoesNotContinue(files: seq<PreparedFile>, base: seq<Group>, ms: seq<nat>, earlier: seq<nat>, g: nat)
    requires AreGroups(files, base) && IsChain(base, ms) && IsChain(base, earlier) && Disjoint(earlier, ms)
    requires g in earlier[1..]
    ensures !Continues(base, ms, g)
  {
    hide AreGroups;
    if Continues(base, ms, g) {
      var k :| 0 <= k < |earlier[1..]| && earlier[1..][k] == g;
      var last := ms[|ms| - 1];
      assert earlier[k + 1] == g && earlier[k] in earlier && last in ms;
      assert Below(base[earlier[0]], base[earlier[k]], k) && Below(base[earlier[0]], base[g], k + 1);
      assert Below(base[ms[0]], base[last], |ms| - 1);
      assert Below(base[last], base[earlier[k]], 0);
      SamePlaceSameGroup(files, base, last, earlier[k]);
    }
  }

  lemma MemberDoesNotContinue(files: seq<PreparedFile>, base: seq<Group>, ms: seq<nat>, g: nat)
    requires AreGroups(files, base) && IsChain(base, ms) && g in ms
    ensures !Continues(base, ms, g)
  {
    var k :| 0 <= k < |ms| && ms[k] == g;
    assert IsGroup(files, base[ms[0]]) && Below(base[ms[0]], base[ms[k]], k);
    assert base[g][0].start == base[ms[0]][0].start + k;
  }

  lemma NothingContinues(files: seq<PreparedFile>, base: seq<Group>, members: seq<seq<nat>>, before: seq<bool>,
                         used: seq<bool>, index: nat, ms: seq<nat>, g: nat)
    requires AreGroups(files, base) && Partial(base, members, before, index)
    requires IsChain(base, ms) && ms[0] == index && |used| == |base|
    requires forall j :: 0 <= j < |base| ==> (used[j] <==> before[j] || j in ms[1..])
    requires forall b :: 0 <= b < |members| ==> Disjoint(members[b], ms)
    requires forall h: nat :: h < |base| && !used[h] ==> !Continues(base, ms, h)
    ensures !Continues(base, ms, g)
  {
    hide AreGroups, Below;
    ChainIsNonEmpty(base, ms);
    if g < |base| && used[g] {
      if g in ms[1..] {
        assert g in ms;
        MemberDoesNotContinue(files, base, ms, g);
      } else {
        assert InSome(members, g);
        var b :| 0 <= b < |members| && g in members[b];
        var k :| 0 <= k < |members[b]| && members[b][k] == g;
        assert LaterPartsFlagged(members[b], before);
        assert members[b][1..][k - 1] == g;
        TakenDoesNotContinue(files, base, ms, members[b], g);
      }
    }
  }

  lemma PartialStep(files: seq<PreparedFile>, base: seq<Group>, members: seq<seq<nat>>, before: seq<bool>,
                    used: seq<bool>, index: nat, ms: seq<nat>)
    requires AreGroups(files, base) && Partial(base, members, before, index) && index < |base| && !before[index]
    requires IsChain(base, ms) && ms[0] == index && |used| == |base|
    requires forall k :: 0 < k < |ms| ==> index < ms[k] < |base| && !before[ms[k]]
    requires forall j :: 0 <= j < |base| ==> (used[j] <==> before[j] || j in ms[1..])
    requires forall h: nat :: h < |base| && !used[h] ==> !Continues(base, ms, h)
    ensures Partial(base, members + [ms], used, index + 1)
  {
    hide AreGroups, Continues;
    var all := members + [ms];
    forall b | 0 <= b < |members| ensures Disjoint(members[b], ms) && LaterPartsFlagged(members[b], used) {
      assert LaterPartsFlagged(members[b], before) && IsChain(base, members[b]);
      NewBlockIsDisjoint(base, ms, members[b], index, before);
      assert members[b][0] < index;
      assert forall k :: 0 <= k < |ms[1..]| ==> ms[1..][k] == ms[k + 1];
    }
    assert LaterPartsFlagged(ms, used) by {
      assert forall k :: 0 < k < |ms| ==> ms[1..][k - 1] == ms[k];
    }
    forall g ensures !Continues(base, ms, g) {
      NothingContinues(files, base, members, before, used, index, ms, g);
    }
    forall g: nat | g < |base| && (g < index + 1 || used[g]) ensures InSome(all, g) {
      if g in ms {
        assert all[|members|] == ms;
      } else {
        assert g != index && InSome(members, g);
        var b :| 0 <= b < |members| && g in members[b];
        assert all[b] == members[b];
      }
    }
  }

  // --- what a block reports --------------------------------------------------------------------------

  ghost predicate IsLocation(files: seq<PreparedFile>, file: nat, start: nat, length: nat, at: CloneLocation) {
    && file < |files| && 0 < length && start + length <= |files[file].normalized|
    && at == CloneLocation(files[file].path, files[file].normalized[start].number,
                           files[file].normalized[start + length - 1].number)
  }

  ghost predicate Covers(files: seq<PreparedFile>, w: CloneWindow, length: nat) {
    w.file < |files| && w.start + length <= |files[w.file].normalized|
  }

  /** Line k counted from w's start. */
  ghost function Line(files: seq<PreparedFile>, w: CloneWindow, k: nat): string
    requires Covers(files, w, k + 1)
  {
    files[w.file].normalized[w.start + k].text
  }

  ghost function Lines(files: seq<PreparedFile>, w: CloneWindow, length: nat): seq<NormalizedLine>
    requires Covers(files, w, length)
  {
    files[w.file].normalized[w.start..w.start + length]
  }

  ghost predicate SameLines(files: seq<PreparedFile>, v: CloneWindow, w: CloneWindow, length: nat) {
    && Covers(files, v, length) && Covers(files, w, length)
    && forall k: nat :: k < length ==> Line(files, v, k) == Line(files, w, k)
  }

  /** A block over the places of g: 'length' lines each, equal line for line, and the block's
      size is the length of the text at every location. */
  ghost predicate IsRealClone(files: seq<PreparedFile>, g: Group, length: nat, block: CloneBlock) {
    && |block.locations| == |g| >= 2
    && (forall l :: 0 <= l < |g| ==> IsLocation(files, g[l].file, g[l].start, length, block.locations[l]))
    && (forall l, m :: 0 <= l < |g| && 0 <= m < |g| ==> SameLines(files, g[l], g[m], length))
    && (forall l :: 0 <= l < |g| ==> block.chars == TextLength(Lines(files, g[l], length)))
  }

  method CloneGroupBlock(files: seq<PreparedFile>, group: Group) returns (block: CloneBlock)
    requires group != [] && forall l :: 0 <= l < |group| ==> group[l].file < |files|
    ensures block.chars == group[0].chars && |block.locations| == |group|
    ensures forall l :: 0 <= l < |group| ==>
              block.locations[l] == CloneLocation(files[group[l].file].path, group[l].startLine, group[l].endLine)
  {
    var locations := [];
    for i := 0 to |group|
      invariant |locations| == i
      invariant forall l :: 0 <= l < i ==>
                  locations[l] == CloneLocation(files[group[l].file].path, group[l].startLine, group[l].endLine)
    {
      locations := locations + [CloneLocation(files[group[i].file].path, group[i].startLine, group[i].endLine)];
    }
    block := CloneBlock(group[0].chars, locations);
  }

  /** A window's digest holds the texts of its lines. */
  lemma WindowLine(files: seq<PreparedFile>, w: CloneWindow, k: nat)
    requires IsWindow(files, w) && k < WINDOW_LINES
    ensures Covers(files, w, WINDOW_LINES) && |w.hash| == WINDOW_LINES && w.hash[k] == Line(files, w, k)
  {
    var lines := files[w.file].normalized[w.start..w.end + 1];
    assert lines[k] == files[w.file].normalized[w.start + k];
    assert Texts(lines)[k] == lines[k].text;
  }

  /** Two windows of one group have the same lines. */
  lemma WindowsAgree(files: seq<PreparedFile>, g: Group, l: nat, m: nat)
    requires IsGroup(files, g) && l < |g| && m < |g|
    ensures SameLines(files, g[l], g[m], WINDOW_LINES)
  {
    hide IsWindow, Line;
    WindowLine(files, g[l], 0);
    WindowLine(files, g[m], 0);
    forall k: nat | k < WINDOW_LINES ensures Line(files, g[l], k) == Line(files, g[m], k) {
      WindowLine(files, g[l], k);
      WindowLine(files, g[m], k);
    }
  }

  lemma WindowOfGroup(files: seq<PreparedFile>, g: Group, l: nat)
    requires IsGroup(files, g) && l < |g|
    ensures Covers(files, g[l], WINDOW_LINES)
  {
    assert IsWindow(files, g[l]);
  }

  /** Line k of a chain's location lies in the window of the chain's part min(k, last). */
  lemma ChainLine(files: seq<PreparedFile>, base: seq<Group>, ms: seq<nat>, part: nat, l: nat, k: nat)
    requires AreGroups(files, base) && IsChain(base, ms) && l < |base[ms[0]]|
    requires part < |ms| && part <= k < part + WINDOW_LINES
    ensures l < |base[ms[part]]|
    ensures Covers(files, base[ms[part]][l], WINDOW_LINES) && Covers(files, base[ms[0]][l], k + 1)
    ensures Line(files, base[ms[0]][l], k) == Line(files, base[ms[part]][l], k - part)
  {
    hide AreGroups, IsGroup, IsWindow;
    assert Below(base[ms[0]], base[ms[part]], part);
    PartIsGroup(files, base, ms, part);
    WindowOfGroup(files, base[ms[part]], l);
  }

  lemma ChainIsNonEmpty(base: seq<Group>, ms: seq<nat>)
    requires IsChain(base, ms)
    ensures ms != [] && ms[0] < |base|
  {
  }

  /** All locations of a chain agree on all its lines. */
  lemma ChainAgrees(files: seq<PreparedFile>, base: seq<Group>, ms: seq<nat>, l: nat, m: nat)
    requires AreGroups(files, base) && IsChain(base, ms) && l < |base[ms[0]]| && m < |base[ms[0]]|
    ensures SameLines(files, base[ms[0]][l], base[ms[0]][m], WINDOW_LINES + |ms| - 1)
  {
    hide AreGroups, IsChain, Line, Covers;
    ChainIsNonEmpty(base, ms);
    var v, w, length := base[ms[0]][l], base[ms[0]][m], WINDOW_LINES + |ms| - 1;
    ChainLine(files, base, ms, |ms| - 1, l, length - 1);
    ChainLine(files, base, ms, |ms| - 1, m, length - 1);
    forall k: nat | k < length
      ensures Covers(files, v, k + 1) && Covers(files, w, k + 1) && Line(files, v, k) == Line(files, w, k)
    {
      var part := if k < |ms| then k else |ms| - 1;
      ChainLine(files, base, ms, part, l, k);
      ChainLine(files, base, ms, part, m, k);
      PartIsGroup(files, base, ms, part);
      WindowsAgree(files, base[ms[part]], l, m);
    }
  }

  lemma PartIsGroup(files: seq<PreparedFile>, base: seq<Group>, ms: seq<nat>, part: nat)
    requires AreGroups(files, base) && IsChain(base, ms) && part < |ms|
    ensures ms[part] < |base| && IsGroup(files, base[ms[part]])
  {
  }

  lemma {:induction false} SameTextsSameLength(a: seq<NormalizedLine>, b: seq<NormalizedLine>)
    requires |a| == |b| && forall k :: 0 <= k < |a| ==> a[k].text == b[k].text
    ensures TextLength(a) == TextLength(b)
  {
    if a != [] {
      SameTextsSameLength(a[..|a| - 1], b[..|b| - 1]);
    }
  }

  lemma SameLinesSameLength(files: seq<PreparedFile>, v: CloneWindow, w: CloneWindow, length: nat)
    requires SameLines(files, v, w, length)
    ensures TextLength(Lines(files, v, length)) == TextLength(Lines(files, w, length))
  {
    var a, b := Lines(files, v, length), Lines(files, w, length);
    forall k | 0 <= k < length ensures a[k].text == b[k].text {
      assert a[k].text == Line(files, v, k) && b[k].text == Line(files, w, k);
    }
    SameTextsSameLength(a, b);
  }

  /** A grown window reports its first and last line and the length of all its lines. */
  lemma GrownWindow(files: seq<PreparedFile>, w: CloneWindow, m: nat, current: CloneWindow)
    requires IsWindow(files, w) && IsGrown(files, w, m, current)
    ensures Covers(files, w, WINDOW_LINES + m) && current.file < |files|
    ensures IsLocation(files, w.file, w.start, WINDOW_LINES + m,
                       CloneLocation(files[current.file].path, current.startLine, current.endLine))
    ensures current.chars == TextLength(Lines(files, w, WINDOW_LINES + m))
  {
  }

  /** A fully grown group reports a real clone. */
  lemma GrownIsReal(files: seq<PreparedFile>, base: seq<Group>, ms: seq<nat>, current: Group, block: CloneBlock)
    requires AreGroups(files, base) && IsChain(base, ms) && IsGrownGroup(files, base[ms[0]], |ms| - 1, current)
    requires current != [] && block.chars == current[0].chars && |block.locations| == |current|
    requires forall l :: 0 <= l < |current| ==> current[l].file < |files|
    requires forall l :: 0 <= l < |current| ==>
               block.locations[l] == CloneLocation(files[current[l].file].path, current[l].startLine,
                                                   current[l].endLine)
    ensures IsRealClone(files, base[ms[0]], WINDOW_LINES + |ms| - 1, block)
  {
    hide SameLines, TextLength, Lines, Covers, IsLocation, IsGrown, IsWindow, Below;
    var g, length := base[ms[0]], WINDOW_LINES + |ms| - 1;
    assert IsGroup(files, g);
    forall l | 0 <= l < |g| {
      GrownWindow(files, g[l], |ms| - 1, current[l]);
    }
    forall l, m | 0 <= l < |g| && 0 <= m < |g| ensures SameLines(files, g[l], g[m], length) {
      ChainAgrees(files, base, ms, l, m);
    }
    forall l | 0 <= l < |g| ensures block.chars == TextLength(Lines(files, g[l], length)) {
      SameLinesSameLength(files, g[0], g[l], length);
    }
  }

  ghost predicate AreReal(files: seq<PreparedFile>, base: seq<Group>, members: seq<seq<nat>>, blocks: seq<CloneBlock>) {
    && |members| == |blocks|
    && (forall b :: 0 <= b < |blocks| ==> IsChain(base, members[b]))
    && (forall b :: 0 <= b < |blocks| ==>
          IsRealClone(files, base[members[b][0]], WINDOW_LINES + |members[b]| - 1, blocks[b]))
  }

  method SortGroups(files: seq<PreparedFile>, groups: array<Group>)
    modifies groups
    ensures groups[..] == StableSort(old(groups[..]), GroupKey(files))
  {
    hide StableSort, GroupKey, SortedBy;
    var sorted := StableSort(groups[..], GroupKey(files));
    StableSortSorts(groups[..], GroupKey(files));
    assert |multiset(sorted)| == |multiset(groups[..])|;
    for i := 0 to groups.Length
      invariant groups[..i] == sorted[..i]
    {
      groups[i] := sorted[i];
    }
  }

  lemma SortedGroupsAreGroups(files: seq<PreparedFile>, unsorted: seq<Group>)
    requires AreGroups(files, unsorted)
    ensures var base := StableSort(unsorted, GroupKey(files));
      AreGroups(files, base) && SortedBy(base, GroupKey(files)) && multiset(base) == multiset(unsorted)
  {
    hide StableSort, GroupKey, SortedBy, DistinctKeys, IsGroup;
    var base := StableSort(unsorted, GroupKey(files));
    StableSortSorts(unsorted, GroupKey(files));
    forall i | 0 <= i < |base| ensures IsGroup(files, base[i]) {
      assert base[i] in base;
    }
    DistinctKeysPermute(unsorted, base, GroupHash);
  }

  /** Each block is a real clone, each group goes into exactly one block, and no group continues a
      reported block, so no block could have been longer. */
  method MergeAdjacentGroups(files: seq<PreparedFile>, groups: array<Group>)
    returns (blocks: seq<CloneBlock>, ghost members: seq<seq<nat>>)
    requires IndexesFit(files) && AreGroups(files, groups[..])
    modifies groups
    ensures var base := StableSort(old(groups[..]), GroupKey(files));
      && multiset(base) == multiset(old(groups[..]))
      && AreReal(files, base, members, blocks)
      && IsPartition(members, |base|)
      && forall b, g :: 0 <= b < |members| ==> !Continues(base, members[b], g)
  {
    hide IsRealClone, IsGrownGroup, SortedBy, IndexesFit, AreGroups, StableSort, GroupKey, Partial, Stored, AreReal,
         IsChain;
    ghost var unsorted := groups[..];
    SortGroups(files, groups);
    SortedGroupsAreGroups(files, unsorted);
    ghost var base := groups[..];
    var used := new bool[groups.Length](_ => false);
    blocks, members := [], [];
    Start(files, base, used[..]);
    for index := 0 to groups.Length
      invariant Stored(base, groups[..], used[..], index)
      invariant Partial(base, members, used[..], index)
      invariant AreReal(files, base, members, blocks)
    {
      if used[index] {
        SkipUsed(base, groups[..], members, used[..], index);
        continue;
      }
      ghost var usedBefore := used[..];
      ghost var ms := GrowGroup(files, groups, used, index, base);
      GrownKeepsFiles(files, base, ms, groups[index]);
      PartialStep(files, base, members, usedBefore, used[..], index, ms);
      var block := CloneGroupBlock(files, groups[index]);
      GrownIsReal(files, base, ms, groups[index], block);
      AreRealStep(files, base, members, blocks, ms, block);
      blocks, members := blocks + [block], members + [ms];
    }
    PartialIsPartition(base, members, used[..], groups.Length);
  }

  lemma AreRealStep(files: seq<PreparedFile>, base: seq<Group>, members: seq<seq<nat>>, blocks: seq<CloneBlock>,
                    ms: seq<nat>, block: CloneBlock)
    requires AreReal(files, base, members, blocks) && IsChain(base, ms)
    requires IsRealClone(files, base[ms[0]], WINDOW_LINES + |ms| - 1, block)
    ensures AreReal(files, base, members + [ms], blocks + [block])
  {
    hide IsRealClone, IsChain;
    ChainIsNonEmpty(base, ms);
  }

  lemma PartialIsPartition(base: seq<Group>, members: seq<seq<nat>>, used: seq<bool>, n: nat)
    requires Partial(base, members, used, n) && n == |base|
    ensures IsPartition(members, n)
    ensures forall b, g :: 0 <= b < |members| ==> !Continues(base, members[b], g)
  {
    hide Continues, Disjoint, LaterPartsFlagged, IsChain;
  }

  lemma Start(files: seq<PreparedFile>, base: seq<Group>, used: seq<bool>)
    requires |used| == |base| && forall j :: 0 <= j < |used| ==> !used[j]
    ensures Stored(base, base, used, 0) && Partial(base, [], used, 0) && AreReal(files, base, [], [])
  {
  }

  lemma SkipUsed(base: seq<Group>, groups: seq<Group>, members: seq<seq<nat>>, used: seq<bool>, index: nat)
    requires index < |used| && used[index]
    requires Stored(base, groups, used, index) && Partial(base, members, used, index)
    ensures Stored(base, groups, used, index + 1) && Partial(base, members, used, index + 1)
  {
    hide IsChain, Below, Continues, Disjoint, LaterPartsFlagged;
  }

  lemma GrownKeepsFiles(files: seq<PreparedFile>, base: seq<Group>, ms: seq<nat>, current: Group)
    requires AreGroups(files, base) && IsChain(base, ms) && IsGrownGroup(files, base[ms[0]], |ms| - 1, current)
    ensures base[ms[0]] != [] && current != [] && forall l :: 0 <= l < |current| ==> current[l].file < |files|
  {
    assert IsGroup(files, base[ms[0]]);
    forall l | 0 <= l < |current| ensures current[l].file < |files| {
      assert IsGrown(files, base[ms[0]][l], |ms| - 1, current[l]);
    }
  }
}
