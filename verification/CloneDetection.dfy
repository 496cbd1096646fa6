/** From prepared files to reported clone blocks. */
module CloneDetection {
  import opened CloneWindows
  import opened CloneMerge
  import opened Ordering

  /** Two long enough windows with the same content that do not overlap. */
  ghost predicate IsDuplicate(files: seq<PreparedFile>, x: CloneWindow, y: CloneWindow) {
    IsCandidate(files, x) && IsCandidate(files, y) && x.hash == y.hash && !ShareALine(x, y)
  }

  ghost predicate IsDuplicated(files: seq<PreparedFile>, hash: Digest) {
    exists x, y :: IsDuplicate(files, x, y) && x.hash == hash
  }

  ghost predicate HasGroup(base: seq<Group>, hash: Digest) {
    exists g :: 0 <= g < |base| && GroupHash(base[g]) == hash
  }

  /** The group is the leftmost choice among all long enough windows of its content. */
  ghost predicate IsChoice(files: seq<PreparedFile>, g: Group) {
    exists windows: seq<CloneWindow> :: HoldsAllOf(files, windows, GroupHash(g)) && IsLeftmost(files, windows, g)
  }

  ghost predicate HoldsAllOf(files: seq<PreparedFile>, windows: seq<CloneWindow>, hash: Digest) {
    forall w :: w in windows <==> IsCandidate(files, w) && w.hash == hash
  }

  ghost predicate IsCollection(files: seq<PreparedFile>, windows: map<Digest, seq<CloneWindow>>) {
    Grouped(files, windows) && forall w :: IsCandidate(files, w) ==> Collected(windows, w)
  }

  /** The groups built from the digests visited so far: one for each that is duplicated. */
  ghost predicate GroupsOf(files: seq<PreparedFile>, visited: set<Digest>, groups: seq<Group>) {
    && AreGroups(files, groups)
    && (forall g :: 0 <= g < |groups| ==> GroupHash(groups[g]) in visited && IsChoice(files, groups[g]))
    && (forall h :: h in visited ==> (HasGroup(groups, h) <==> IsDuplicated(files, h)))
  }

  function WithItems(groups: seq<Group>, items: Group): seq<Group> {
    if |items| >= 2 then groups + [items] else groups
  }

  /** The chosen windows of one digest are a group exactly when that content is duplicated. */
  lemma SelectedAreGroup(files: seq<PreparedFile>, windows: map<Digest, seq<CloneWindow>>, hash: Digest,
                         items: seq<CloneWindow>)
    requires Prepared(files) && IsCollection(files, windows) && hash in windows
    requires IsSelection(files, windows[hash], items)
    ensures |items| >= 2 ==> IsGroup(files, items) && GroupHash(items) == hash && IsChoice(files, items)
    ensures |items| >= 2 <==> IsDuplicated(files, hash)
  {
    hide IsWindow, Overlap, IsSelection, IsLeftmost, ShareALine;
    SelectedHaveTheContent(files, windows, hash, items);
    CollectionHoldsAll(files, windows, hash);
    CandidatesAreWindows(files, windows, hash);
    SelectionKeepsAPair(files, windows[hash], items);
    SelectionIsLeftmost(files, windows[hash], items);
    if x, y :| x in windows[hash] && y in windows[hash] && !Overlap(x, y) {
      WindowsOverlap(files, x, y);
      assert IsDuplicate(files, x, y) && x.hash == hash;
    }
    if x, y :| IsDuplicate(files, x, y) && x.hash == hash {
      assert Collected(windows, x) && Collected(windows, y);
      WindowsOverlap(files, x, y);
    }
  }

  lemma WindowsOverlap(files: seq<PreparedFile>, x: CloneWindow, y: CloneWindow)
    requires IsWindow(files, x) && IsWindow(files, y)
    ensures Overlap(x, y) <==> ShareALine(x, y)
  {
    OverlapMeaning(x, y);
  }

  lemma SelectedHaveTheContent(files: seq<PreparedFile>, windows: map<Digest, seq<CloneWindow>>, hash: Digest,
                               items: seq<CloneWindow>)
    requires Grouped(files, windows) && hash in windows && IsSelection(files, windows[hash], items)
    ensures forall l :: 0 <= l < |items| ==> IsWindow(files, items[l]) && items[l].hash == hash
  {
    CandidatesAreWindows(files, windows, hash);
    forall l | 0 <= l < |items| ensures IsWindow(files, items[l]) && items[l].hash == hash {
      assert items[l] in items;
    }
  }

  lemma CollectionHoldsAll(files: seq<PreparedFile>, windows: map<Digest, seq<CloneWindow>>, hash: Digest)
    requires IsCollection(files, windows) && hash in windows
    ensures HoldsAllOf(files, windows[hash], hash)
  {
    forall w | IsCandidate(files, w) && w.hash == hash ensures w in windows[hash] {
      assert Collected(windows, w);
    }
  }

  lemma CandidatesAreWindows(files: seq<PreparedFile>, windows: map<Digest, seq<CloneWindow>>, hash: Digest)
    requires Grouped(files, windows) && hash in windows
    ensures forall w :: w in windows[hash] ==> IsWindow(files, w) && w.hash == hash
  {
  }

  lemma HasNewGroup(groups: seq<Group>, items: Group, hash: Digest)
    requires forall g :: 0 <= g < |groups| ==> GroupHash(groups[g]) != hash
    requires |items| >= 2 ==> GroupHash(items) == hash
    ensures HasGroup(WithItems(groups, items), hash) <==> |items| >= 2
  {
    assert (groups + [items])[|groups|] == items;
  }

  lemma KeepsGroup(groups: seq<Group>, items: Group, h: Digest)
    requires |items| >= 2 ==> GroupHash(items) != h
    ensures HasGroup(WithItems(groups, items), h) <==> HasGroup(groups, h)
  {
    if g :| 0 <= g < |groups| && GroupHash(groups[g]) == h {
      assert (groups + [items])[g] == groups[g];
    }
  }

  lemma GroupStep(files: seq<PreparedFile>, visited: set<Digest>, groups: seq<Group>, hash: Digest,
                  items: seq<CloneWindow>)
    requires GroupsOf(files, visited, groups) && hash !in visited
    requires |items| >= 2 ==> IsGroup(files, items) && GroupHash(items) == hash && IsChoice(files, items)
    requires |items| >= 2 <==> IsDuplicated(files, hash)
    ensures GroupsOf(files, visited + {hash}, WithItems(groups, items))
  {
    hide IsGroup, IsDuplicated, HasGroup, GroupHash, IsChoice;
    forall h | h in visited + {hash} ensures HasGroup(WithItems(groups, items), h) <==> IsDuplicated(files, h) {
      if h == hash {
        HasNewGroup(groups, items, hash);
      } else {
        KeepsGroup(groups, items, h);
      }
    }
  }

  lemma StartGroups(files: seq<PreparedFile>)
    ensures GroupsOf(files, {}, [])
  {
  }

  /** One group for each duplicated content. The digests are visited in any order: the groups are
      sorted by position afterwards. */
  method BuildGroups(files: seq<PreparedFile>, windows: map<Digest, seq<CloneWindow>>) returns (groups: seq<Group>)
    requires Prepared(files) && IsCollection(files, windows)
    ensures GroupsOf(files, windows.Keys, groups)
  {
    hide Prepared, IsCollection, IsSelection, GroupsOf, IsDuplicated;
    groups := [];
    var hashes := windows.Keys;
    StartGroups(files);
    assert windows.Keys - hashes == {};
    while hashes != {}
      invariant hashes <= windows.Keys
      invariant GroupsOf(files, windows.Keys - hashes, groups)
      decreases hashes
    {
      var hash :| hash in hashes;
      var items := NonOverlappingWindows(files, windows[hash]);
      SelectedAreGroup(files, windows, hash, items);
      GroupStep(files, windows.Keys - hashes, groups, hash, items);
      assert windows.Keys - hashes + {hash} == windows.Keys - (hashes - {hash});
      hashes := hashes - {hash};
      if |items| >= 2 {
        groups := groups + [items];
      }
    }
    assert windows.Keys - {} == windows.Keys;
  }

  lemma SameGroups(a: seq<Group>, b: seq<Group>, h: Digest)
    requires multiset(a) == multiset(b)
    ensures HasGroup(a, h) <==> HasGroup(b, h)
  {
    SameElements(a, b);
    if g :| 0 <= g < |a| && GroupHash(a[g]) == h { assert a[g] in b; }
    if g :| 0 <= g < |b| && GroupHash(b[g]) == h { assert b[g] in a; }
  }

  lemma GroupsAreTheDuplicates(files: seq<PreparedFile>, windows: map<Digest, seq<CloneWindow>>, groups: seq<Group>,
                               base: seq<Group>, h: Digest)
    requires IsCollection(files, windows) && GroupsOf(files, windows.Keys, groups) && multiset(base) == multiset(groups)
    ensures HasGroup(base, h) <==> IsDuplicated(files, h)
  {
    hide AreGroups;
    SameGroups(groups, base, h);
    if x, y :| IsDuplicate(files, x, y) && x.hash == h {
      assert Collected(windows, x);
    }
    if g :| 0 <= g < |groups| && GroupHash(groups[g]) == h {
      assert h in windows.Keys;
    }
  }

  lemma ChoicesArePermuted(files: seq<PreparedFile>, groups: seq<Group>, base: seq<Group>)
    requires multiset(base) == multiset(groups) && forall g :: 0 <= g < |groups| ==> IsChoice(files, groups[g])
    ensures forall g :: 0 <= g < |base| ==> IsChoice(files, base[g])
  {
    SameElements(groups, base);
    forall g | 0 <= g < |base| ensures IsChoice(files, base[g]) {
      assert base[g] in groups;
    }
  }

  lemma BlocksIffGroups(files: seq<PreparedFile>, base: seq<Group>, members: seq<seq<nat>>, blocks: seq<CloneBlock>)
    requires AreReal(files, base, members, blocks) && IsPartition(members, |base|)
    ensures blocks != [] <==> base != []
  {
    if base != [] {
      assert InSome(members, 0);
    }
    assert blocks != [] ==> IsChain(base, members[0]);
  }

  lemma BaseIffDuplicates(files: seq<PreparedFile>, base: seq<Group>)
    requires forall h :: HasGroup(base, h) <==> IsDuplicated(files, h)
    ensures base != [] <==> exists x, y :: IsDuplicate(files, x, y)
  {
    hide IsDuplicate;
    if base != [] {
      assert GroupHash(base[0]) == GroupHash(base[0]) && HasGroup(base, GroupHash(base[0]));
    }
    if x, y :| IsDuplicate(files, x, y) {
      assert IsDuplicated(files, x.hash);
    }
  }

  /** A block is reported exactly when some content is duplicated; every duplicated content belongs
      to exactly one block, and every block is a real and longest clone. */
  method DetectClones(files: seq<PreparedFile>)
    returns (blocks: seq<CloneBlock>, ghost base: seq<Group>, ghost members: seq<seq<nat>>)
    requires Prepared(files) && IndexesFit(files)
    ensures AreReal(files, base, members, blocks)
    ensures IsPartition(members, |base|)
    ensures forall b, g :: 0 <= b < |members| ==> !Continues(base, members[b], g)
    ensures forall g :: 0 <= g < |base| ==> IsChoice(files, base[g])
    ensures forall h :: HasGroup(base, h) <==> IsDuplicated(files, h)
    ensures blocks != [] <==> exists x, y :: IsDuplicate(files, x, y)
  {
    hide IsRealClone, IsDuplicated, Continues, Prepared, IndexesFit, Grouped, IsPartition, StableSort, IsChain,
         HasGroup, AreReal, IsChoice;
    var windows := CollectCloneWindows(files);
    var groups := BuildGroups(files, windows);
    var stored := new Group[|groups|](i requires 0 <= i < |groups| => groups[i]);
    assert stored[..] == groups;
    blocks, members := MergeAdjacentGroups(files, stored);
    base := StableSort(groups, GroupKey(files));
    forall h ensures HasGroup(base, h) <==> IsDuplicated(files, h) {
      GroupsAreTheDuplicates(files, windows, groups, base, h);
    }
    ChoicesArePermuted(files, groups, base);
    BlocksIffGroups(files, base, members, blocks);
    BaseIffDuplicates(files, base);
  }
}
