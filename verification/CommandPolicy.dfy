/** Splitting a lifecycle command line into commands and deciding which may run. White space is
    the six ASCII space characters and lower-casing is ASCII only. */
module CommandPolicy {
  import opened Outcomes
  import opened LifecycleTypes
  import opened Trimming

  function TrimPrefix(s: string, prefix: string): string {
    if prefix <= s then s[|prefix|..] else s
  }

  /** The parts between the "&&"s, scanned from the left. */
  function SplitOnAnd(s: string): (parts: seq<string>)
    ensures parts != []
  {
    if s == "" then [""]
    else if "&&" <= s then [""] + SplitOnAnd(s[2..])
    else
      var rest := SplitOnAnd(s[1..]);
      [[s[0]] + rest[0]] + rest[1..]
  }

  lemma {:induction false} SplitOfOne(s: string)
    requires '&' !in s
    ensures SplitOnAnd(s) == [s]
  {
    if s != "" {
      SplitOfOne(s[1..]);
      assert s == [s[0]] + s[1..];
    }
  }

  function CommandOf(part: string): string {
    TrimSpace(TrimPrefix(TrimPrefix(TrimPrefix(TrimSpace(part), "go run . artisan "), "./artisan "), "artisan "))
  }

  function CommandsOf(parts: seq<string>): seq<string> {
    if parts == [] then []
    else CommandsOf(parts[..|parts| - 1]) + (if CommandOf(parts[|parts| - 1]) ==
                                             "" then [] else [CommandOf(parts[|parts| - 1])])
  }

  function NormalizedCommands(command: string): seq<string> {
    if TrimSpace(command) == "" then [] else CommandsOf(SplitOnAnd(TrimSpace(command)))
  }

  method NormalizeLifecycleCommands(command: string) returns (commands: seq<string>)
    ensures commands == NormalizedCommands(command)
    ensures IsNormalized(commands, command)
  {
    hide TrimSpace, CommandOf, SplitOnAnd, IsNormalized;
    NormalizedMeaning(command, NormalizedCommands(command));
    var trimmed := TrimSpace(command);
    commands := [];
    if trimmed == "" {
      return;
    }
    var parts := SplitOnAnd(trimmed);
    for i := 0 to |parts|
      invariant commands == CommandsOf(parts[..i])
    {
      assert parts[..i + 1][..i] == parts[..i];
      var part := CommandOf(parts[i]);
      if part != "" {
        commands := commands + [part];
      }
    }
    assert parts[..|parts|] == parts;
  }

  predicate IsTrimmed(s: string) {
    s != "" ==> !IsSpace(s[0]) && !IsSpace(s[|s| - 1])
  }

  ghost predicate HasAnd(s: string) {
    exists i: nat :: i < |s| - 1 && AndAt(s, i)
  }

  predicate AndAt(s: string, i: nat)
    requires i < |s| - 1
  {
    s[i] == '&' && s[i + 1] == '&'
  }

  ghost predicate IsPieceOf(piece: string, s: string) {
    exists i: nat, j: nat :: IsPiece(piece, s, i, j)
  }

  ghost predicate IsPiece(piece: string, s: string, i: nat, j: nat) {
    i <= j <= |s| && piece == s[i..j]
  }

  lemma SliceOfSlice(c: string, k: nat, l: nat, i: nat, j: nat)
    requires k <= l <= |c| && i <= j <= l - k
    ensures c[k..l][i..j] == c[k + i..k + j]
  {
    var b, d := c[k..l], c[k + i..k + j];
    var a := b[i..j];
    forall t | 0 <= t < j - i ensures a[t] == d[t] {
      assert a[t] == b[i + t];
    }
  }

  lemma PieceOfPiece(a: string, b: string, c: string)
    requires IsPieceOf(a, b) && IsPieceOf(b, c)
    ensures IsPieceOf(a, c)
  {
    var i: nat, j: nat :| IsPiece(a, b, i, j);
    var k: nat, l: nat :| IsPiece(b, c, k, l);
    SliceOfSlice(c, k, l, i, j);
    assert IsPiece(a, c, k + i, k + j);
  }

  lemma {:induction false} TrimLeftIsPiece(s: string)
    ensures IsPieceOf(TrimLeft(s), s) && (TrimLeft(s) != "" ==> !IsSpace(TrimLeft(s)[0]))
  {
    if s != "" && IsSpace(s[0]) {
      TrimLeftIsPiece(s[1..]);
      assert IsPiece(s[1..], s, 1, |s|);
      PieceOfPiece(TrimLeft(s), s[1..], s);
    } else {
      assert IsPiece(s, s, 0, |s|);
    }
  }

  lemma {:induction false} TrimRightIsPrefix(s: string)
    ensures TrimRight(s) <= s && (TrimRight(s) != "" ==> !IsSpace(TrimRight(s)[|TrimRight(s)| - 1]))
  {
    if s != "" && IsSpace(s[|s| - 1]) {
      TrimRightIsPrefix(s[..|s| - 1]);
    }
  }

  lemma TrimSpaceIsPiece(s: string)
    ensures IsPieceOf(TrimSpace(s), s) && IsTrimmed(TrimSpace(s))
  {
    TrimLeftIsPiece(s);
    TrimRightIsPrefix(TrimLeft(s));
    assert IsPiece(TrimSpace(s), TrimLeft(s), 0, |TrimSpace(s)|);
    PieceOfPiece(TrimSpace(s), TrimLeft(s), s);
  }

  lemma TrimPrefixIsPiece(s: string, prefix: string)
    ensures IsPieceOf(TrimPrefix(s, prefix), s)
  {
    assert IsPiece(TrimPrefix(s, prefix), s, if prefix <= s then |prefix| else 0, |s|);
  }

  lemma CommandIsPiece(part: string)
    ensures IsPieceOf(CommandOf(part), part) && IsTrimmed(CommandOf(part))
  {
    var a := TrimSpace(part);
    var b := TrimPrefix(a, "go run . artisan ");
    var c := TrimPrefix(b, "./artisan ");
    var d := TrimPrefix(c, "artisan ");
    TrimSpaceIsPiece(part);
    TrimPrefixIsPiece(a, "go run . artisan ");
    TrimPrefixIsPiece(b, "./artisan ");
    TrimPrefixIsPiece(c, "artisan ");
    TrimSpaceIsPiece(d);
    PieceOfPiece(b, a, part);
    PieceOfPiece(c, b, part);
    PieceOfPiece(d, c, part);
    PieceOfPiece(CommandOf(part), d, part);
  }

  /** Parts joined again with "&&". */
  function JoinWithAnd(parts: seq<string>): string
    requires parts != []
  {
    if |parts| == 1 then parts[0] else parts[0] + "&&" + JoinWithAnd(parts[1..])
  }

  lemma Regroup(a: string, b: string, c: string, d: string)
    ensures (a + b) + c + d == a + (b + c + d)
  {
  }

  lemma JoinOfMore(part: string, rest: seq<string>)
    requires rest != []
    ensures JoinWithAnd([part] + rest) == part + "&&" + JoinWithAnd(rest)
  {
    assert ([part] + rest)[1..] == rest;
  }

  lemma JoinAfterFirst(c: char, parts: seq<string>)
    requires parts != []
    ensures JoinWithAnd([[c] + parts[0]] + parts[1..]) == [c] + JoinWithAnd(parts)
  {
    if |parts| == 1 {
      JoinOfOne([c] + parts[0]);
      JoinOfOne(parts[0]);
      assert [[c] + parts[0]] + parts[1..] == [[c] + parts[0]] && parts == [parts[0]];
    } else {
      hide JoinWithAnd;
      JoinOfMore([c] + parts[0], parts[1..]);
      JoinOfMore(parts[0], parts[1..]);
      assert parts == [parts[0]] + parts[1..];
      Regroup([c], parts[0], "&&", JoinWithAnd(parts[1..]));
    }
  }

  /** Splitting loses nothing. */
  lemma {:induction false} SplitThenJoin(s: string)
    ensures JoinWithAnd(SplitOnAnd(s)) == s
  {
    hide JoinWithAnd;
    if s == "" {
      JoinOfOne("");
    } else if "&&" <= s {
      SplitThenJoin(s[2..]);
      JoinOfMore("", SplitOnAnd(s[2..]));
      assert s == "&&" + s[2..] == "" + "&&" + s[2..];
    } else {
      SplitThenJoin(s[1..]);
      JoinAfterFirst(s[0], SplitOnAnd(s[1..]));
      assert s == [s[0]] + s[1..];
    }
  }

  lemma JoinOfOne(part: string)
    ensures JoinWithAnd([part]) == part
  {
  }

  lemma FirstPartStarts(s: string)
    requires SplitOnAnd(s)[0] != ""
    ensures s != "" && SplitOnAnd(s)[0][0] == s[0]
  {
  }

  lemma NoAndAtFront(s: string, first: string)
    requires s != "" && !("&&" <= s) && !HasAnd(first) && (first != "" ==> |s| > 1 && first[0] == s[1])
    ensures !HasAnd([s[0]] + first)
  {
    var whole := [s[0]] + first;
    forall i: nat | i < |whole| - 1 ensures !AndAt(whole, i) {
      if i > 0 {
        assert AndAt(whole, i) == AndAt(first, i - 1);
      } else {
        assert whole[0] == s[0] && whole[1] == s[1];
      }
    }
  }

  lemma LongerHasAnd(s: string, tail: string)
    requires !HasAnd(s + tail)
    ensures !HasAnd(s)
  {
    forall i: nat | i < |s| - 1 ensures !AndAt(s, i) {
      assert !AndAt(s + tail, i);
    }
  }

  /** The split of a text at each "&&", the leftmost one first. */
  ghost predicate IsAndSplit(parts: seq<string>, s: string) {
    && parts != [] && JoinWithAnd(parts) == s && !HasAnd(parts[|parts| - 1])
    && forall k :: 0 <= k < |parts| - 1 ==> !HasAnd(parts[k] + "&")
  }

  ghost predicate EndAtAnd(parts: seq<string>) {
    && parts != [] && !HasAnd(parts[|parts| - 1])
    && forall k :: 0 <= k < |parts| - 1 ==> !HasAnd(parts[k] + "&")
  }

  lemma {:induction false} PartsEndAtAnd(s: string)
    ensures EndAtAnd(SplitOnAnd(s)) && (|SplitOnAnd(s)| > 1 && SplitOnAnd(s)[0] == "" ==> "&&" <= s)
  {
    hide HasAnd;
    OneIsNotAnd();
    if "&&" <= s {
      PartsEndAtAnd(s[2..]);
      assert "" + "&" == "&";
    } else if s != "" {
      PartsEndAtAnd(s[1..]);
      LongerFirstPart(s, SplitOnAnd(s[1..]));
    }
  }

  lemma LongerFirstPart(s: string, rest: seq<string>)
    requires s != "" && !("&&" <= s) && rest == SplitOnAnd(s[1..]) && EndAtAnd(rest)
    requires |rest| > 1 && rest[0] == "" ==> "&&" <= s[1..]
    ensures EndAtAnd([[s[0]] + rest[0]] + rest[1..])
  {
    hide HasAnd, SplitOnAnd;
    if rest[0] != "" { FirstPartStarts(s[1..]); }
    var end := if |rest| > 1 then "&" else "";
    assert [s[0]] + (rest[0] + end) == ([s[0]] + rest[0]) + end && rest[0] + "" == rest[0];
    NoAndAtFront(s, rest[0] + end);
    assert ([s[0]] + rest[0]) + "" == [s[0]] + rest[0];
  }

  lemma OneIsNotAnd()
    ensures !HasAnd("&") && !HasAnd("")
  {
  }

  lemma {:induction false} PartsHaveNoAnd(s: string)
    ensures IsAndSplit(SplitOnAnd(s), s)
    ensures forall k :: 0 <= k < |SplitOnAnd(s)| ==> !HasAnd(SplitOnAnd(s)[k])
  {
    hide HasAnd, SplitOnAnd, JoinWithAnd;
    var parts := SplitOnAnd(s);
    PartsEndAtAnd(s);
    SplitThenJoin(s);
    forall k | 0 <= k < |parts| ensures !HasAnd(parts[k]) {
      if k < |parts| - 1 { LongerHasAnd(parts[k], "&"); }
    }
  }

  /** Every normalised command is non-empty, trimmed and free of "&&". */
  lemma NormalizedCommandsAreClean(command: string)
    ensures forall c :: c in NormalizedCommands(command) ==> c != "" && IsTrimmed(c) && !HasAnd(c)
  {
    if TrimSpace(command) != "" {
      PartsHaveNoAnd(TrimSpace(command));
      CommandsAreClean(SplitOnAnd(TrimSpace(command)));
    }
  }

  lemma PieceHasNoAnd(piece: string, whole: string)
    requires IsPieceOf(piece, whole) && !HasAnd(whole)
    ensures !HasAnd(piece)
  {
    var i: nat, j: nat :| IsPiece(piece, whole, i, j);
    forall k: nat | k < |piece| - 1 ensures !AndAt(piece, k) {
      assert AndAt(piece, k) == AndAt(whole, i + k);
    }
  }

  lemma {:induction false} CommandsAreClean(parts: seq<string>)
    requires forall k :: 0 <= k < |parts| ==> !HasAnd(parts[k])
    ensures forall c :: c in CommandsOf(parts) ==> c != "" && IsTrimmed(c) && !HasAnd(c)
  {
    hide CommandOf, HasAnd, IsTrimmed, IsPieceOf;
    if parts != [] {
      var part := parts[|parts| - 1];
      CommandsAreClean(parts[..|parts| - 1]);
      CommandIsPiece(part);
      PieceHasNoAnd(CommandOf(part), part);
    }
  }

  // --- what a line's commands are ------------------------------------------------------------------

  ghost predicate IsWithout(t: string, s: string, prefix: string) {
    if prefix <= s then s == prefix + t else t == s
  }

  /** A part's text without the blanks around it, without the artisan prefixes in their order, and
      without the blanks around what is left. */
  ghost predicate IsCommandOf(c: string, part: string) {
    exists t, u, v, w :: IsTrimOf(t, part) && AreSteps(t, u, v, w) && IsTrimOf(c, w)
  }

  ghost predicate AreSteps(t: string, u: string, v: string, w: string) {
    IsWithout(u, t, "go run . artisan ") && IsWithout(v, u, "./artisan ") && IsWithout(w, v, "artisan ")
  }

  /** The commands in the order of their parts; exactly the parts that leave nothing have none. */
  ghost predicate AreCommandsOf(commands: seq<string>, parts: seq<string>) {
    exists at :: ArePlaces(at, commands, parts)
  }

  ghost predicate ArePlaces(at: seq<nat>, commands: seq<string>, parts: seq<string>) {
    && |at| == |commands|
    && (forall i, j :: 0 <= i < j < |at| ==> at[i] < at[j])
    && (forall i :: 0 <= i < |at| ==> at[i] < |parts|)
    && (forall i :: 0 <= i < |at| ==> commands[i] != "" && IsCommandOf(commands[i], parts[at[i]]))
    && (forall k :: 0 <= k < |parts| ==> (k !in at <==> IsCommandOf("", parts[k])))
  }

  ghost predicate IsNormalized(commands: seq<string>, command: string) {
    exists t, parts :: IsTrimOf(t, command) && IsAndSplit(parts, t) && AreCommandsOf(commands, parts)
  }

  lemma CommandOfMeaning(part: string, c: string)
    ensures CommandOf(part) == c <==> IsCommandOf(c, part)
  {
    hide TrimSpace, IsTrimOf;
    var t := TrimSpace(part);
    var u := TrimPrefix(t, "go run . artisan ");
    var v := TrimPrefix(u, "./artisan ");
    var w := TrimPrefix(v, "artisan ");
    TrimSpaceMeaning(part, t);
    TrimSpaceMeaning(w, CommandOf(part));
    WithoutMeaning(t, u, "go run . artisan ");
    WithoutMeaning(u, v, "./artisan ");
    WithoutMeaning(v, w, "artisan ");
    assert AreSteps(t, u, v, w);
    if IsCommandOf(c, part) {
      var t', u', v', w' :| IsTrimOf(t', part) && AreSteps(t', u', v', w') && IsTrimOf(c, w');
      TrimSpaceMeaning(part, t');
      WithoutMeaning(t', u', "go run . artisan ");
      WithoutMeaning(u', v', "./artisan ");
      WithoutMeaning(v', w', "artisan ");
      TrimSpaceMeaning(w', c);
    }
  }

  lemma WithoutMeaning(s: string, t: string, prefix: string)
    ensures TrimPrefix(s, prefix) == t <==> IsWithout(t, s, prefix)
  {
    if prefix <= s {
      assert s == prefix + s[|prefix|..];
    }
  }

  lemma PartWithCommand(at: seq<nat>, commands: seq<string>, parts: seq<string>, part: string, c: string)
    requires ArePlaces(at, commands, parts) && IsCommandOf(c, part) && !IsCommandOf("", part) && c != ""
    ensures ArePlaces(at + [|parts|], commands + [c], parts + [part])
  {
    hide IsCommandOf;
    var n: nat, longer := |parts|, parts + [part];
    var places := at + [n];
    assert longer[n] == part;
    forall k | 0 <= k < |longer| ensures k !in places <==> IsCommandOf("", longer[k]) {
      if k < n { assert longer[k] == parts[k] && (k in places <==> k in at); }
    }
  }

  lemma PartWithoutCommand(at: seq<nat>, commands: seq<string>, parts: seq<string>, part: string)
    requires ArePlaces(at, commands, parts) && IsCommandOf("", part)
    ensures ArePlaces(at, commands, parts + [part])
  {
    hide IsCommandOf;
    assert |parts| !in at;
  }

  lemma OneMorePart(at: seq<nat>, commands: seq<string>, parts: seq<string>, part: string, c: string)
    requires ArePlaces(at, commands, parts) && CommandOf(part) == c
    ensures ArePlaces(if c == "" then at else at + [|parts|], if c == "" then commands else commands + [c],
                      parts + [part])
  {
    hide CommandOf, IsCommandOf, ArePlaces;
    CommandOfMeaning(part, c);
    CommandOfMeaning(part, "");
    if c == "" {
      PartWithoutCommand(at, commands, parts, part);
    } else {
      PartWithCommand(at, commands, parts, part, c);
    }
  }

  lemma {:induction false} CommandsOfMeaning(parts: seq<string>) returns (at: seq<nat>)
    ensures ArePlaces(at, CommandsOf(parts), parts)
  {
    hide CommandOf, ArePlaces;
    if parts == [] {
      at := [];
      NoPlaces();
    } else {
      var n := |parts| - 1;
      var front := CommandsOfMeaning(parts[..n]);
      var c := CommandOf(parts[n]);
      OneMorePart(front, CommandsOf(parts[..n]), parts[..n], parts[n], c);
      assert parts == parts[..n] + [parts[n]];
      assert CommandsOf(parts[..n]) + [] == CommandsOf(parts[..n]);
      at := if c == "" then front else front + [n];
    }
  }

  lemma NoPlaces()
    ensures ArePlaces([], [], [])
  {
  }

  lemma {:induction false} PlacesDecide(at: seq<nat>, commands: seq<string>, parts: seq<string>)
    requires ArePlaces(at, commands, parts)
    ensures commands == CommandsOf(parts)
  {
    hide CommandOf, IsCommandOf;
    if parts == [] {
      assert |at| == 0;
    } else {
      var n := |parts| - 1;
      var c := CommandOf(parts[n]);
      CommandOfMeaning(parts[n], c);
      CommandOfMeaning(parts[n], "");
      if c == "" {
        PlacesDecide(at, commands, parts[..n]);
      } else {
        var m := |at| - 1;
        assert n in at;
        assert at[m] == n;
        CommandOfMeaning(parts[n], commands[m]);
        PlacesOfFront(at, commands, parts);
        PlacesDecide(at[..m], commands[..m], parts[..n]);
        assert commands == commands[..m] + [commands[m]];
      }
    }
  }

  lemma PlacesOfFront(at: seq<nat>, commands: seq<string>, parts: seq<string>)
    requires ArePlaces(at, commands, parts) && at != [] && at[|at| - 1] == |parts| - 1
    ensures ArePlaces(at[..|at| - 1], commands[..|at| - 1], parts[..|parts| - 1])
  {
    hide IsCommandOf;
    var m, n := |at| - 1, |parts| - 1;
    forall k | 0 <= k < n ensures k !in at[..m] <==> IsCommandOf("", parts[..n][k]) {
      assert parts[..n][k] == parts[k] && (k in at[..m] <==> k in at);
    }
  }

  lemma {:induction false} SplitOfPart(part: string, rest: string)
    requires !HasAnd(part + "&")
    ensures SplitOnAnd(part + "&&" + rest) == [part] + SplitOnAnd(rest)
  {
    var s := part + "&&" + rest;
    if part == "" {
      assert s == "&&" + rest && s[2..] == rest;
    } else {
      assert s[0] == part[0] && s[1..] == part[1..] + "&&" + rest;
      assert !AndAt(part + "&", 0) && s[1] == (part + "&")[1];
      forall i: nat | i < |part| - 1 ensures !AndAt(part[1..] + "&", i) {
        assert !AndAt(part + "&", i + 1);
      }
      SplitOfPart(part[1..], rest);
      assert [part[0]] + part[1..] == part;
    }
  }

  lemma {:induction false} SplitOfLast(s: string)
    requires !HasAnd(s)
    ensures SplitOnAnd(s) == [s]
  {
    if s != "" {
      forall i: nat | i < |s| - 2 ensures !AndAt(s[1..], i) {
        assert !AndAt(s, i + 1);
      }
      assert |s| > 1 ==> !AndAt(s, 0);
      SplitOfLast(s[1..]);
      assert s == [s[0]] + s[1..];
    }
  }

  lemma {:induction false} SplitDecides(parts: seq<string>, s: string)
    requires IsAndSplit(parts, s)
    ensures parts == SplitOnAnd(s)
    decreases |parts|
  {
    hide HasAnd, SplitOnAnd;
    if |parts| == 1 {
      SplitOfLast(s);
    } else {
      var rest := parts[1..];
      assert parts[0] == parts[0] && !HasAnd(parts[0] + "&");
      SplitOfPart(parts[0], JoinWithAnd(rest));
      forall k | 0 <= k < |rest| - 1 ensures !HasAnd(rest[k] + "&") {
        assert rest[k] == parts[k + 1];
      }
      SplitDecides(rest, JoinWithAnd(rest));
    }
  }

  /** The normalised commands are exactly the commands of the line's parts, in order. */
  lemma NormalizedMeaning(command: string, commands: seq<string>)
    ensures commands == NormalizedCommands(command) <==> IsNormalized(commands, command)
  {
    hide CommandOf, IsCommandOf, IsAndSplit, ArePlaces;
    var t := TrimSpace(command);
    TrimSpaceMeaning(command, t);
    var parts := SplitOnAnd(t);
    PartsHaveNoAnd(t);
    if t == "" { NothingIsNoCommand(); }
    var at := CommandsOfMeaning(parts);
    assert AreCommandsOf(CommandsOf(parts), parts);
    if IsNormalized(commands, command) {
      var t', parts' :| IsTrimOf(t', command) && IsAndSplit(parts', t') && AreCommandsOf(commands, parts');
      TrimSpaceMeaning(command, t');
      SplitDecides(parts', t);
      var at' :| ArePlaces(at', commands, parts);
      PlacesDecide(at', commands, parts);
    }
  }

  lemma NothingIsNoCommand()
    ensures CommandsOf(SplitOnAnd("")) == []
  {
    assert CommandOf("") == "";
    assert [""][..0] == [];
  }

  // --- which commands may run ----------------------------------------------------------------------

  function ToLower(s: string): (t: string)
    ensures |t| == |s|
  {
    if s == "" then "" else [if 'A' <= s[0] <= 'Z' then s[0] - 'A' + 'a' else s[0]] + ToLower(s[1..])
  }

  function FirstField(s: string): string {
    if s == "" || IsSpace(s[0]) then "" else [s[0]] + FirstField(s[1..])
  }

  predicate IsManualCommand(command: string) {
    var lower := ToLower(TrimSpace(command));
    lower == "manual" || "manual " <= lower
  }

  predicate IsAllowedCommand(command: string) {
    var trimmed := TrimSpace(command);
    trimmed == "" || FirstField(trimmed) in
      {"module:manifest:check", "migrate", "migrate:rollback", "tenant:migrate", "db:seed",
       "reference-case:upgrade", "reference-case:rollback"}
  }

  function ValidateCommand(command: string): Option<Error> {
    if IsManualCommand(command) then Some(Manual(command))
    else if !IsAllowedCommand(command) then Some(Plain("module lifecycle command not allowed: " + command))
    else None
  }

  // --- what may run --------------------------------------------------------------------------------

  const AllowedWords := {"migrate", "migrate:rollback", "tenant:migrate", "db:seed", "module:manifest:check",
                         "reference-case:upgrade", "reference-case:rollback"}

  /** The text begins with the word, blanks aside, and the word ends there. */
  ghost predicate StartsWithWord(command: string, word: string) {
    exists t :: IsTrimOf(t, command) && IsFirstWord(word, t)
  }

  ghost predicate IsFirstWord(word: string, t: string) {
    && word <= t && (|t| == |word| || IsBlank(t[|word|]))
    && forall i :: 0 <= i < |word| ==> !IsBlank(word[i])
  }

  ghost predicate IsAnyCase(s: string, word: string) {
    |s| == |word| && forall i :: 0 <= i < |s| ==> s[i] == word[i] || s[i] as int + 32 == word[i] as int
  }

  /** The text is the word "manual" in any case, alone or before a blank. */
  ghost predicate AsksForOperator(command: string) {
    exists t :: IsTrimOf(t, command) && |t| >= 6 && IsAnyCase(t[..6], "manual") && (|t| == 6 || t[6] == ' ')
  }

  ghost predicate IsAllowedText(command: string) {
    IsTrimOf("", command) || exists word :: word in AllowedWords && StartsWithWord(command, word)
  }

  lemma {:induction false} FirstFieldMeaning(s: string, word: string)
    ensures FirstField(s) == word <==> IsFirstWord(word, s)
  {
    if s != "" && !IsSpace(s[0]) && word != "" {
      FirstFieldMeaning(s[1..], word[1..]);
      assert s == [s[0]] + s[1..] && word == [word[0]] + word[1..];
      assert word <= s <==> word[0] == s[0] && word[1..] <= s[1..];
    }
  }

  lemma {:induction false} ToLowerAt(s: string, i: nat)
    requires i < |s|
    ensures ToLower(s)[i] == if 'A' <= s[i] <= 'Z' then s[i] - 'A' + 'a' else s[i]
  {
    if i > 0 { ToLowerAt(s[1..], i - 1); }
  }

  lemma LowerIsAnyCase(s: string, word: string)
    requires forall i :: 0 <= i < |word| ==> 'a' <= word[i] <= 'z'
    ensures ToLower(s) == word <==> IsAnyCase(s, word)
  {
    forall i | 0 <= i < |s| ensures ToLower(s)[i] == if 'A' <= s[i] <= 'Z' then s[i] - 'A' + 'a' else s[i] {
      ToLowerAt(s, i);
    }
    if IsAnyCase(s, word) { assert ToLower(s) == word; }
    if ToLower(s) == word {
      forall i | 0 <= i < |s| ensures s[i] == word[i] || s[i] as int + 32 == word[i] as int {
        assert ToLower(s)[i] == word[i];
      }
    }
  }

  lemma ManualMeaning(command: string)
    ensures IsManualCommand(command) <==> AsksForOperator(command)
  {
    hide TrimSpace, IsTrimOf, IsAnyCase, ToLower;
    var t := TrimSpace(command);
    TrimSpaceMeaning(command, t);
    var lower := ToLower(t);
    if |t| >= 6 {
      LowerOfPrefix(t, 6);
      LowerIsAnyCase(t[..6], "manual");
      assert |t| == 6 ==> t[..6] == t;
      if |t| > 6 {
        ToLowerAt(t, 6);
        assert "manual " == "manual" + " ";
        assert "manual " <= lower <==> lower[..6] == "manual" && lower[6] == ' ';
      }
    }
    forall t' | IsTrimOf(t', command) ensures t' == t { TrimSpaceMeaning(command, t'); }
  }

  lemma LowerOfPrefix(s: string, n: nat)
    requires n <= |s|
    ensures ToLower(s[..n]) == ToLower(s)[..n]
  {
    forall i | 0 <= i < n ensures ToLower(s[..n])[i] == ToLower(s)[i] {
      ToLowerAt(s, i);
      ToLowerAt(s[..n], i);
    }
  }

  lemma AllowedMeaning(command: string)
    ensures IsAllowedCommand(command) <==> IsAllowedText(command)
  {
    hide TrimSpace, IsTrimOf, FirstField, IsFirstWord;
    var t := TrimSpace(command);
    TrimSpaceMeaning(command, t);
    TrimSpaceMeaning(command, "");
    forall t' | IsTrimOf(t', command) ensures t' == t { TrimSpaceMeaning(command, t'); }
    FirstFieldMeaning(t, FirstField(t));
    forall word | word in AllowedWords ensures FirstField(t) == word <==> StartsWithWord(command, word) {
      FirstFieldMeaning(t, word);
    }
  }

  /** Exactly which commands may run, and the errors of the others. */
  lemma ValidateCommandMeaning(command: string)
    ensures ValidateCommand(command).None? <==> !AsksForOperator(command) && IsAllowedText(command)
    ensures AsksForOperator(command) ==> ValidateCommand(command) == Some(Manual(command))
    ensures !AsksForOperator(command) && !IsAllowedText(command) ==>
              ValidateCommand(command) == Some(Plain("module lifecycle command not allowed: " + command))
  {
    hide IsManualCommand, IsAllowedCommand, AsksForOperator, IsAllowedText;
    ManualMeaning(command);
    AllowedMeaning(command);
  }

  /** The first command of the line that may not run, with its error. */
  method FirstInvalidLifecycleCommand(commands: string) returns (command: string, err: Option<Error>)
    ensures err.None? <==> forall c :: c in NormalizedCommands(commands) ==> ValidateCommand(c).None?
    ensures err.Some? ==> IsFirstInvalid(NormalizedCommands(commands), command) && err == ValidateCommand(command)
  {
    hide NormalizedCommands, ValidateCommand, IsNormalized;
    var list := NormalizeLifecycleCommands(commands);
    for i := 0 to |list|
      invariant forall k :: 0 <= k < i ==> ValidateCommand(list[k]).None?
    {
      err := ValidateCommand(list[i]);
      if err.Some? {
        return list[i], err;
      }
    }
    return "", None;
  }

  ghost predicate IsFirstInvalid(list: seq<string>, command: string) {
    exists i :: 0 <= i < |list| && list[i] == command && ValidateCommand(command).Some?
                && forall k :: 0 <= k < i ==> ValidateCommand(list[k]).None?
  }
}
