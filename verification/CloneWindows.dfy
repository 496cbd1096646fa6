/** Fixed-size windows over normalised lines, grouped by content, and the greedy choice of
    windows that do not overlap. A text is a sequence of bytes; the digest of a window is
    taken as injective, so it is represented by the window's own line texts. */
module CloneWindows {
  import opened Ordering

  const WINDOW_LINES: nat := 8
  const WINDOW_CHARS: nat := 80

  datatype NormalizedLine = NormalizedLine(text: string, number: nat)

  datatype PreparedFile = PreparedFile(path: string, normalized: seq<NormalizedLine>)

  type Digest = seq<string>

  datatype CloneWindow = CloneWindow(
    file: nat,
    start: nat,
    end: nat,
    startLine: nat,
    endLine: nat,
    chars: nat,
    hash: Digest
  )

  function TextLength(lines: seq<NormalizedLine>): nat {
    if lines == [] then 0 else TextLength(lines[..|lines| - 1]) + |lines[|lines| - 1].text|
  }

  function Texts(lines: seq<NormalizedLine>): (t: Digest)
    ensures |t| == |lines| && forall i :: 0 <= i < |lines| ==> t[i] == lines[i].text
  {
    seq(|lines|, i requires 0 <= i < |lines| => lines[i].text)
  }

  /** w describes the lines start..end of its file: numbers and length are theirs. */
  ghost predicate IsRun(files: seq<PreparedFile>, w: CloneWindow) {
    && w.file < |files|
    && var lines := files[w.file].normalized;
    && w.start <= w.end < |lines|
    && w.startLine == lines[w.start].number
    && w.endLine == lines[w.end].number
    && w.chars == TextLength(lines[w.start..w.end + 1])
  }

  ghost predicate IsWindow(files: seq<PreparedFile>, w: CloneWindow) {
    && IsRun(files, w)
    && w.end == w.start + 7
    && w.hash == Texts(files[w.file].normalized[w.start..w.end + 1])
  }

  /** A window long enough to count: eighty characters on its eight lines. */
  ghost predicate IsCandidate(files: seq<PreparedFile>, w: CloneWindow) {
    IsWindow(files, w) && w.chars >= 80
  }

  /** The length of some lines is the sum of their texts' lengths. */
  lemma {:induction false} TextLengthMeaning(lines: seq<NormalizedLine>, more: seq<NormalizedLine>)
    ensures TextLength([]) == 0 && forall line: NormalizedLine :: TextLength([line]) == |line.text|
    ensures TextLength(lines + more) == TextLength(lines) + TextLength(more)
  {
    assert forall line: NormalizedLine :: [line][..0] == [];
    if more == [] {
      assert lines + more == lines;
    } else {
      var front := more[..|more| - 1];
      TextLengthMeaning(lines, front);
      assert (lines + more)[..|lines + more| - 1] == lines + front;
    }
  }

  lemma TextLengthStep(lines: seq<NormalizedLine>, start: nat, end: nat)
    requires start <= end < |lines|
    ensures TextLength(lines[start..end + 1]) == TextLength(lines[start..end]) + |lines[end].text|
  {
    assert lines[start..end + 1][..end - start] == lines[start..end];
  }

  method MakeCloneWindow(files: seq<PreparedFile>, fileIndex: nat, start: nat) returns (w: CloneWindow)
    requires fileIndex < |files| && start + WINDOW_LINES <= |files[fileIndex].normalized|
    ensures IsWindow(files, w) && w.file == fileIndex && w.start == start
  {
    var items := files[fileIndex].normalized;
    var end := start + WINDOW_LINES;
    var lines, chars := [], 0;
    for i := start to end
      invariant lines == Texts(items[start..i])
      invariant chars == TextLength(items[start..i])
    {
      TextLengthStep(items, start, i);
      lines := lines + [items[i].text];
      chars := chars + |items[i].text|;
    }
    w := CloneWindow(fileIndex, start, end - 1, items[start].number, items[end - 1].number, chars, lines);
  }

  ghost predicate Grouped(files: seq<PreparedFile>, windows: map<Digest, seq<CloneWindow>>) {
    forall h, w :: h in windows && w in windows[h] ==> IsCandidate(files, w) && w.hash == h
  }

  ghost predicate Collected(windows: map<Digest, seq<CloneWindow>>, w: CloneWindow) {
    w.hash in windows && w in windows[w.hash]
  }

  /** Exactly the windows that are long enough, each under its own digest. */
  method CollectCloneWindows(files: seq<PreparedFile>) returns (windows: map<Digest, seq<CloneWindow>>)
    ensures Grouped(files, windows)
    ensures forall w :: IsCandidate(files, w) ==> Collected(windows, w)
  {
    windows := map[];
    for index := 0 to |files|
      invariant Grouped(files, windows)
      invariant forall w :: IsCandidate(files, w) && w.file < index ==> Collected(windows, w)
    {
      windows := CollectFile(files, index, windows);
    }
  }

  method CollectFile(files: seq<PreparedFile>, index: nat, before: map<Digest, seq<CloneWindow>>)
    returns (windows: map<Digest, seq<CloneWindow>>)
    requires index < |files| && Grouped(files, before)
    ensures Grouped(files, windows)
    ensures forall w :: Collected(before, w) ==> Collected(windows, w)
    ensures forall w :: IsCandidate(files, w) && w.file == index ==> Collected(windows, w)
  {
    hide TextLength, Texts;
    windows := before;
    var items := files[index].normalized;
    var start := 0;
    while start + WINDOW_LINES <= |items|
      invariant Grouped(files, windows)
      invariant forall w :: Collected(before, w) ==> Collected(windows, w)
      invariant forall w :: IsCandidate(files, w) && w.file == index && w.start < start ==> Collected(windows, w)
    {
      var window := MakeCloneWindow(files, index, start);
      start := start + 1;
      if window.chars < WINDOW_CHARS {
        continue;
      }
      var others := if window.hash in windows then windows[window.hash] else [];
      windows := windows[window.hash := others + [window]];
    }
  }

  // --- windows that do not overlap ------------------------------------------------------------------

  predicate Overlap(a: CloneWindow, b: CloneWindow) {
    a.file == b.file && b.start <= a.end && b.end >= a.start
  }

  ghost predicate ShareALine(a: CloneWindow, b: CloneWindow) {
    a.file == b.file && exists line: nat :: IsOn(a, line) && IsOn(b, line)
  }

  ghost predicate IsOn(w: CloneWindow, line: nat) {
    w.start <= line <= w.end
  }

  lemma OverlapMeaning(a: CloneWindow, b: CloneWindow)
    requires a.start <= a.end && b.start <= b.end
    ensures Overlap(a, b) <==> ShareALine(a, b)
  {
    if Overlap(a, b) {
      var line := if a.start < b.start then b.start else a.start;
      assert IsOn(a, line) && IsOn(b, line);
    }
  }

  function PathOf(files: seq<PreparedFile>, file: nat): string {
    if file < |files| then files[file].path else ""
  }

  /** By path, then by first line. */
  predicate Precedes(files: seq<PreparedFile>, a: CloneWindow, b: CloneWindow) {
    if PathOf(files, a.file) != PathOf(files, b.file) then Less(PathOf(files, a.file), PathOf(files, b.file))
    else a.startLine < b.startLine
  }

  ghost predicate InOrder(files: seq<PreparedFile>, s: seq<CloneWindow>) {
    forall i, j :: 0 <= i < j < |s| ==> !Precedes(files, s[j], s[i])
  }

  function InsertWindow(files: seq<PreparedFile>, s: seq<CloneWindow>, x: CloneWindow): seq<CloneWindow> {
    if s == [] then [x]
    else if Precedes(files, x, s[|s| - 1]) then InsertWindow(files, s[..|s| - 1], x) + [s[|s| - 1]]
    else s + [x]
  }

  function SortWindows(files: seq<PreparedFile>, s: seq<CloneWindow>): seq<CloneWindow> {
    if s == [] then [] else InsertWindow(files, SortWindows(files, s[..|s| - 1]), s[|s| - 1])
  }

  lemma NotPrecedesIsTransitive(files: seq<PreparedFile>, a: CloneWindow, b: CloneWindow, c: CloneWindow)
    requires !Precedes(files, b, a) && !Precedes(files, c, b)
    ensures !Precedes(files, c, a)
  {
    var p, q, r := PathOf(files, a.file), PathOf(files, b.file), PathOf(files, c.file);
    LessIsTotal(p, q);
    LessIsTotal(q, r);
    LessIsTotal(p, r);
    NotLessIsTransitive(p, q, r);
  }

  lemma PrecedesIsAsymmetric(files: seq<PreparedFile>, a: CloneWindow, b: CloneWindow)
    requires Precedes(files, a, b)
    ensures !Precedes(files, b, a)
  {
    LessIsTotal(PathOf(files, a.file), PathOf(files, b.file));
  }

  lemma {:induction false} InsertWindowKeeps(files: seq<PreparedFile>, s: seq<CloneWindow>, x: CloneWindow)
    requires InOrder(files, s)
    ensures var t := InsertWindow(files, s, x); InOrder(files, t) && forall w :: w in t <==> w in s || w == x
  {
    if s != [] {
      var front, last := s[..|s| - 1], s[|s| - 1];
      assert s == front + [last];
      if Precedes(files, x, last) {
        InsertWindowKeeps(files, front, x);
        PrecedesIsAsymmetric(files, x, last);
        var placed := InsertWindow(files, front, x);
        forall i | 0 <= i < |placed| ensures !Precedes(files, last, placed[i]) {
          assert placed[i] in placed;
        }
      } else {
        forall i | 0 <= i < |s| ensures !Precedes(files, x, s[i]) {
          if i < |s| - 1 { NotPrecedesIsTransitive(files, s[i], last, x); }
        }
      }
    }
  }

  lemma {:induction false} SortWindowsSorts(files: seq<PreparedFile>, s: seq<CloneWindow>)
    ensures var t := SortWindows(files, s); InOrder(files, t) && forall w :: w in t <==> w in s
  {
    if s != [] {
      SortWindowsSorts(files, s[..|s| - 1]);
      InsertWindowKeeps(files, SortWindows(files, s[..|s| - 1]), s[|s| - 1]);
      assert s == s[..|s| - 1] + [s[|s| - 1]];
    }
  }

  method OverlapsWindow(windows: seq<CloneWindow>, target: CloneWindow) returns (overlaps: bool)
    ensures overlaps <==> exists w :: w in windows && Overlap(w, target)
  {
    for i := 0 to |windows|
      invariant forall w :: w in windows[..i] ==> !Overlap(w, target)
    {
      if Overlap(windows[i], target) {
        return true;
      }
    }
    assert windows[..|windows|] == windows;
    return false;
  }

  /** A greedy choice: nothing chosen overlaps, and whatever is dropped overlaps a chosen window
      that does not come after it. */
  ghost predicate IsSelection(files: seq<PreparedFile>, windows: seq<CloneWindow>, selected: seq<CloneWindow>) {
    && (forall w :: w in selected ==> w in windows)
    && (forall i, j :: 0 <= i < j < |selected| ==> !Overlap(selected[i], selected[j]))
    && (forall w :: w in windows ==> w in selected || Dropped(files, selected, w))
    && InOrder(files, selected)
  }

  ghost predicate Dropped(files: seq<PreparedFile>, selected: seq<CloneWindow>, w: CloneWindow) {
    exists v :: v in selected && Overlap(v, w) && !Precedes(files, w, v)
  }

  method NonOverlappingWindows(files: seq<PreparedFile>, windows: seq<CloneWindow>) returns (selected: seq<CloneWindow>)
    ensures IsSelection(files, windows, selected)
  {
    var sorted := SortWindows(files, windows);
    SortWindowsSorts(files, windows);
    selected := [];
    for i := 0 to |sorted|
      invariant IsSelection(files, sorted[..i], selected)
    {
      var overlaps := OverlapsWindow(selected, sorted[i]);
      if overlaps {
        ghost var w :| w in selected && Overlap(w, sorted[i]);
        DropStep(files, sorted, i, selected, w);
        continue;
      }
      SelectStep(files, sorted, i, selected);
      selected := selected + [sorted[i]];
    }
    assert sorted[..|sorted|] == sorted;
  }

  lemma NoneFollows(files: seq<PreparedFile>, sorted: seq<CloneWindow>, i: nat, w: CloneWindow)
    requires i < |sorted| && InOrder(files, sorted) && w in sorted[..i]
    ensures !Precedes(files, sorted[i], w)
  {
    var k :| 0 <= k < i && sorted[..i][k] == w;
    assert sorted[k] == w;
  }

  lemma DropStep(files: seq<PreparedFile>, sorted: seq<CloneWindow>, i: nat, selected: seq<CloneWindow>, w: CloneWindow)
    requires i < |sorted| && InOrder(files, sorted) && IsSelection(files, sorted[..i], selected)
    requires w in selected && Overlap(w, sorted[i])
    ensures IsSelection(files, sorted[..i + 1], selected)
  {
    hide Precedes, Overlap;
    NoneFollows(files, sorted, i, w);
    assert Dropped(files, selected, sorted[i]);
    assert sorted[..i + 1] == sorted[..i] + [sorted[i]];
  }

  lemma SelectStep(files: seq<PreparedFile>, sorted: seq<CloneWindow>, i: nat, selected: seq<CloneWindow>)
    requires i < |sorted| && InOrder(files, sorted) && IsSelection(files, sorted[..i], selected)
    requires forall w :: w in selected ==> !Overlap(w, sorted[i])
    ensures IsSelection(files, sorted[..i + 1], selected + [sorted[i]])
  {
    hide Precedes, Overlap;
    var x, larger := sorted[i], selected + [sorted[i]];
    assert sorted[..i + 1] == sorted[..i] + [x];
    forall k | 0 <= k < |selected| ensures !Overlap(selected[k], x) && !Precedes(files, x, selected[k]) {
      assert selected[k] in selected;
      NoneFollows(files, sorted, i, selected[k]);
    }
    forall w | w in sorted[..i] && w !in selected ensures Dropped(files, larger, w) {
      var v :| v in selected && Overlap(v, w) && !Precedes(files, w, v);
      assert v in larger;
    }
  }

  /** What preparing the files gives: paths are distinct and line numbers grow. */
  ghost predicate Prepared(files: seq<PreparedFile>) {
    && (forall f, g :: 0 <= f < g < |files| ==> files[f].path != files[g].path)
    && (forall f :: 0 <= f < |files| ==> NumbersGrow(files[f].normalized))
  }

  ghost predicate NumbersGrow(lines: seq<NormalizedLine>) {
    forall i, j :: 0 <= i < j < |lines| ==> lines[i].number < lines[j].number
  }

  /** The greedy choice keeps at least two windows exactly when two of them do not overlap. */
  lemma SelectionKeepsAPair(files: seq<PreparedFile>, windows: seq<CloneWindow>, selected: seq<CloneWindow>)
    requires Prepared(files) && IsSelection(files, windows, selected)
    requires forall w :: w in windows ==> IsWindow(files, w)
    ensures |selected| >= 2 <==> exists x, y :: x in windows && y in windows && !Overlap(x, y)
  {
    if |selected| >= 2 {
      assert selected[0] in windows && selected[1] in windows && !Overlap(selected[0], selected[1]);
    }
    if x, y :| x in windows && y in windows && !Overlap(x, y) {
      if |selected| < 2 {
        var v := if |selected| == 1 then selected[0] else x;
        NearTheOnlyOne(files, windows, selected, v, x);
        NearTheOnlyOne(files, windows, selected, v, y);
        assert false;
      }
    }
  }

  lemma NearTheOnlyOne(files: seq<PreparedFile>, windows: seq<CloneWindow>, selected: seq<CloneWindow>, v: CloneWindow,
                       w: CloneWindow)
    requires Prepared(files) && IsSelection(files, windows, selected) && w in windows
    requires forall u :: u in windows ==> IsWindow(files, u)
    requires |selected| < 2 && (|selected| == 1 ==> selected[0] == v)
    ensures w.file == v.file && v.start <= w.start <= v.end && w.end == w.start + 7 && v.end == v.start + 7
  {
    assert |selected| == 1;
    assert v in selected && IsWindow(files, v) && IsWindow(files, w);
  }

  // --- the choice as positions --------------------------------------------------------------------------

  /** v is before w by path, or in the same file by line. */
  ghost predicate IsBefore(files: seq<PreparedFile>, v: CloneWindow, w: CloneWindow) {
    && v.file < |files| && w.file < |files|
    && if v.file == w.file then v.start < w.start else Less(files[v.file].path, files[w.file].path)
  }

  /** No two share a line, they are in order, and each window left out begins on a line of a chosen one. */
  ghost predicate IsLeftmost(files: seq<PreparedFile>, windows: seq<CloneWindow>, selected: seq<CloneWindow>) {
    && (forall w :: w in selected ==> w in windows)
    && (forall i, j :: 0 <= i < j < |selected| ==>
          !ShareALine(selected[i], selected[j]) && IsBefore(files, selected[i], selected[j]))
    && (forall w :: w in windows ==> w in selected || BeginsOn(selected, w))
  }

  ghost predicate BeginsOn(selected: seq<CloneWindow>, w: CloneWindow) {
    exists v :: v in selected && v.file == w.file && v.start < w.start <= v.end
  }

  lemma SelectionIsLeftmost(files: seq<PreparedFile>, windows: seq<CloneWindow>, selected: seq<CloneWindow>)
    requires Prepared(files) && IsSelection(files, windows, selected)
    requires forall w :: w in windows ==> IsWindow(files, w)
    ensures IsLeftmost(files, windows, selected)
  {
    hide TextLength, Texts, NumbersGrow, Less;
    forall i, j | 0 <= i < j < |selected|
      ensures !ShareALine(selected[i], selected[j]) && IsBefore(files, selected[i], selected[j])
    {
      assert selected[i] in selected && selected[j] in selected;
      ChosenAreApart(files, selected[i], selected[j]);
    }
    forall w | w in windows && w !in selected ensures BeginsOn(selected, w) {
      var v :| v in selected && Overlap(v, w) && !Precedes(files, w, v);
      DroppedBeginsOn(files, v, w);
    }
  }

  lemma LinesGrow(files: seq<PreparedFile>, v: CloneWindow, w: CloneWindow)
    requires Prepared(files) && IsWindow(files, v) && IsWindow(files, w) && v.file == w.file
    ensures v.startLine < w.startLine <==> v.start < w.start
  {
    assert NumbersGrow(files[v.file].normalized);
  }

  lemma ChosenAreApart(files: seq<PreparedFile>, v: CloneWindow, w: CloneWindow)
    requires Prepared(files) && IsWindow(files, v) && IsWindow(files, w)
    requires !Overlap(v, w) && !Precedes(files, w, v)
    ensures !ShareALine(v, w) && IsBefore(files, v, w)
  {
    hide TextLength, Texts, NumbersGrow, Less;
    OverlapMeaning(v, w);
    if v.file == w.file {
      LinesGrow(files, w, v);
    } else {
      LessIsTotal(PathOf(files, v.file), PathOf(files, w.file));
    }
  }

  lemma DroppedBeginsOn(files: seq<PreparedFile>, v: CloneWindow, w: CloneWindow)
    requires Prepared(files) && IsWindow(files, v) && IsWindow(files, w) && v != w
    requires Overlap(v, w) && !Precedes(files, w, v)
    ensures v.file == w.file && v.start < w.start <= v.end
  {
    hide NumbersGrow, Less;
    LinesGrow(files, w, v);
  }
}
