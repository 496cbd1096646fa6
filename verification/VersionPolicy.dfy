/** Version comparison and constraints. A version parses to a sequence of numbers, and
    two versions are compared after padding the shorter one with zeros. */
module VersionPolicy {
  import opened Outcomes
  import opened Trimming
  import opened VersionParsing

  // --- comparing ---------------------------------------------------------------------------

  /** The i-th number of a version extended with zeros for ever. */
  function At(parts: seq<nat>, i: nat): nat {
    if i < |parts| then parts[i] else 0
  }

  function Max(a: nat, b: nat): nat {
    if a < b then b else a
  }

  function CompareFrom(left: seq<nat>, right: seq<nat>, i: nat): (c: int)
    ensures c in {-1, 0, 1}
    decreases Max(|left|, |right|) - i
  {
    if i >= Max(|left|, |right|) then 0
    else if At(left, i) > At(right, i) then 1
    else if At(left, i) < At(right, i) then -1
    else CompareFrom(left, right, i + 1)
  }

  function Compare(left: seq<nat>, right: seq<nat>): int {
    CompareFrom(left, right, 0)
  }

  method EqualizeVersionParts(left: seq<nat>, right: seq<nat>) returns (l: seq<nat>, r: seq<nat>)
    ensures |l| == |r| == Max(|left|, |right|)
    ensures forall i :: 0 <= i < |l| ==> l[i] == At(left, i) && r[i] == At(right, i)
  {
    l, r := left, right;
    var length := Max(|left|, |right|);
    while |l| < length
      invariant |left| <= |l| <= length && forall i :: 0 <= i < |l| ==> l[i] == At(left, i)
    {
      l := l + [0];
    }
    while |r| < length
      invariant |right| <= |r| <= length && forall i :: 0 <= i < |r| ==> r[i] == At(right, i)
    {
      r := r + [0];
    }
  }

  method CompareVersions(left: string, right: string) returns (r: Result<int, string>)
    ensures r == if Parsed(left).Err? then Err(Parsed(left).error)
                 else if Parsed(right).Err? then Err(Parsed(right).error)
                 else Ok(Compare(Parsed(left).value, Parsed(right).value))
  {
    var lp := ParseLifecycleVersion(left);
    if lp.Err? {
      return Err(lp.error);
    }
    var rp := ParseLifecycleVersion(right);
    if rp.Err? {
      return Err(rp.error);
    }
    var l, q := EqualizeVersionParts(lp.value, rp.value);
    for i := 0 to |l|
      invariant Compare(lp.value, rp.value) == CompareFrom(lp.value, rp.value, i)
    {
      if l[i] > q[i] {
        return Ok(1);
      }
      if l[i] < q[i] {
        return Ok(-1);
      }
    }
    return Ok(0);
  }

  /** Lexicographic order on the zero-extended sequences. */
  ghost predicate Below(left: seq<nat>, right: seq<nat>) {
    exists i: nat :: At(left, i) < At(right, i) && (forall j: nat :: j < i ==> At(left, j) == At(right, j))
  }

  ghost predicate SameFrom(left: seq<nat>, right: seq<nat>, i: nat) {
    forall j: nat :: i <= j ==> At(left, j) == At(right, j)
  }

  lemma {:induction false} CompareFromMeaning(left: seq<nat>, right: seq<nat>, i: nat)
    requires forall j: nat :: j < i ==> At(left, j) == At(right, j)
    ensures CompareFrom(left, right, i) == -1 ==> Below(left, right)
    ensures CompareFrom(left, right, i) == 1 ==> Below(right, left)
    ensures CompareFrom(left, right, i) == 0 ==> SameFrom(left, right, i)
    decreases Max(|left|, |right|) - i
  {
    if i < Max(|left|, |right|) && At(left, i) == At(right, i) {
      CompareFromMeaning(left, right, i + 1);
    }
  }

  lemma BelowIsStrict(left: seq<nat>, right: seq<nat>)
    ensures !(Below(left, right) && Below(right, left))
    ensures Below(left, right) ==> !SameFrom(left, right, 0) && !SameFrom(right, left, 0)
  {
  }

  /** compareVersions is the lexicographic order on zero-extended number sequences. */
  lemma CompareIsLexicographic(left: seq<nat>, right: seq<nat>)
    ensures Compare(left, right) < 0 <==> Below(left, right)
    ensures Compare(left, right) > 0 <==> Below(right, left)
    ensures Compare(left, right) == 0 <==> SameFrom(left, right, 0)
    ensures Compare(right, left) == -Compare(left, right)
  {
    CompareFromMeaning(left, right, 0);
    CompareFromMeaning(right, left, 0);
    BelowIsStrict(left, right);
    BelowIsStrict(right, left);
  }

  /** Zeros at the end of a version make no difference. */
  lemma ZerosAtEnd(v: seq<nat>, zeros: seq<nat>, w: seq<nat>)
    requires forall i :: 0 <= i < |zeros| ==> zeros[i] == 0
    ensures SameFrom(v, v + zeros, 0) && Compare(v + zeros, w) == Compare(v, w)
    ensures forall i :: 0 <= i < |v| ==> At(v, i) == v[i]
  {
    CompareIsLexicographic(v, w);
    CompareIsLexicographic(v + zeros, w);
    assert forall i: nat :: At(v + zeros, i) == At(v, i);
  }

  lemma BelowTransitive(a: seq<nat>, b: seq<nat>, c: seq<nat>)
    requires (Below(a, b) || SameFrom(a, b, 0)) && (Below(b, c) || SameFrom(b, c, 0))
    ensures Below(a, c) || (SameFrom(a, b, 0) && SameFrom(b, c, 0) && SameFrom(a, c, 0))
  {
    if Below(a, b) && Below(b, c) {
      var i: nat :| At(a, i) < At(b, i) && (forall j: nat :: j < i ==> At(a, j) == At(b, j));
      var k: nat :| At(b, k) < At(c, k) && (forall j: nat :: j < k ==> At(b, j) == At(c, j));
      var m := if i < k then i else k;
      assert At(a, m) < At(c, m) && forall j: nat :: j < m ==> At(a, j) == At(c, j);
    } else if Below(a, b) {
      var i: nat :| At(a, i) < At(b, i) && (forall j: nat :: j < i ==> At(a, j) == At(b, j));
      assert At(a, i) < At(c, i) && forall j: nat :: j < i ==> At(a, j) == At(c, j);
    } else if Below(b, c) {
      var k: nat :| At(b, k) < At(c, k) && (forall j: nat :: j < k ==> At(b, j) == At(c, j));
      assert At(a, k) < At(c, k) && forall j: nat :: j < k ==> At(a, j) == At(c, j);
    }
  }

  /** A total preorder: reflexive and transitive, also across three different lengths. */
  lemma CompareIsTotalPreorder(a: seq<nat>, b: seq<nat>, c: seq<nat>)
    ensures Compare(a, a) == 0
    ensures Compare(a, b) <= 0 || Compare(b, a) <= 0
    ensures Compare(a, b) <= 0 && Compare(b, c) <= 0 ==>
              Compare(a, c) <= 0 && (Compare(a, b) < 0 || Compare(b, c) < 0 ==> Compare(a, c) < 0)
  {
    CompareIsLexicographic(a, a);
    CompareIsLexicographic(a, b);
    CompareIsLexicographic(b, c);
    CompareIsLexicographic(a, c);
    if Compare(a, b) <= 0 && Compare(b, c) <= 0 { BelowTransitive(a, b, c); }
  }

  // --- constraints -------------------------------------------------------------------------

  datatype Operator = Ge | Le | Gt | Lt | Eq

  function SplitVersionOperator(constraint: string): (Operator, string) {
    if ">=" <= constraint then (Ge, TrimSpace(constraint[2..]))
    else if "<=" <= constraint then (Le, TrimSpace(constraint[2..]))
    else if ">" <= constraint then (Gt, TrimSpace(constraint[1..]))
    else if "<" <= constraint then (Lt, TrimSpace(constraint[1..]))
    else if "=" <= constraint then (Eq, TrimSpace(constraint[1..]))
    else (Eq, TrimSpace(constraint))
  }

  predicate CompareResult(c: int, operator: Operator) {
    match operator
    case Ge => c >= 0
    case Gt => c > 0
    case Le => c <= 0
    case Lt => c < 0
    case Eq => c == 0
  }

  function SatisfiesSingle(version: string, constraint: string): Result<bool, string> {
    var (operator, target) := SplitVersionOperator(constraint);
    if target == "" then Err("empty version")
    else if Parsed(version).Err? then Err(Parsed(version).error)
    else if Parsed(target).Err? then Err(Parsed(target).error)
    else Ok(CompareResult(Compare(Parsed(version).value, Parsed(target).value), operator))
  }

  function SatisfiesAll(version: string, parts: seq<string>): Result<bool, string> {
    if parts == [] then Ok(true)
    else
      var first := SatisfiesSingle(version, parts[0]);
      if first.Err? || !first.value then first else SatisfiesAll(version, parts[1..])
  }

  predicate IsSeparator(c: char) {
    c == ',' || c == ' ' || c == '\t' || c == '\n' || c == '\r'
  }

  function Fields(s: string, current: string): seq<string> {
    if s == "" then if current == "" then [] else [current]
    else if IsSeparator(s[0]) then (if current == "" then [] else [current]) + Fields(s[1..], "")
    else Fields(s[1..], current + [s[0]])
  }

  function Satisfies(version: string, constraint: string): Result<bool, string> {
    var parts := Fields(TrimSpace(constraint), "");
    if parts == [] then if TrimSpace(constraint) == "" then Ok(true) else Err("empty version constraint")
    else SatisfiesAll(version, parts)
  }

  method VersionSatisfiesSingle(version: string, constraint: string) returns (r: Result<bool, string>)
    ensures r == SatisfiesSingle(version, constraint)
  {
    var (operator, target) := SplitVersionOperator(constraint);
    if target == "" {
      return Err("empty version");
    }
    var c := CompareVersions(version, target);
    if c.Err? {
      return Err(c.error);
    }
    return Ok(CompareResult(c.value, operator));
  }

  // --- what a constraint means ---------------------------------------------------------------

  /** The part is an operator, or none, before the text of a target. */
  ghost predicate IsComparison(part: string, target: string) {
    part == target || part in {">=" + target, "<=" + target, ">" + target, "<" + target, "=" + target}
  }

  /** The order that the part's operator asks for; no operator asks for equality. */
  ghost predicate IsMet(part: string, target: string, v: seq<nat>, t: seq<nat>) {
    || (part == ">=" + target && !Below(v, t))
    || (part == "<=" + target && !Below(t, v))
    || (part == ">" + target && Below(t, v))
    || (part == "<" + target && Below(v, t))
    || ((part == "=" + target || part == target) && SameFrom(v, t, 0))
  }

  /** Version and target can both be read, so the part has an answer. */
  ghost predicate IsComparable(version: string, part: string) {
    exists target, v, t :: IsVersion(version, v) && IsVersion(target, t) && IsComparison(part, target)
  }

  ghost predicate Fits(version: string, part: string) {
    exists target, v, t :: IsVersion(version, v) && IsVersion(target, t) && IsMet(part, target, v, t)
  }

  /** The gaps around and between the parts, with the parts in their places. */
  function Weave(gaps: seq<string>, parts: seq<string>): string
    requires |gaps| == |parts| + 1
  {
    if parts == [] then gaps[0] else gaps[0] + parts[0] + Weave(gaps[1..], parts[1..])
  }

  ghost predicate IsGap(s: string) {
    forall k :: 0 <= k < |s| ==> s[k] in {',', ' ', '\t', '\n', '\r'}
  }

  ghost predicate IsField(s: string) {
    s != "" && forall k :: 0 <= k < |s| ==> s[k] !in {',', ' ', '\t', '\n', '\r'}
  }

  /** Only the outer gaps may be empty. */
  ghost predicate AreGaps(gaps: seq<string>, parts: seq<string>) {
    && |gaps| == |parts| + 1
    && (forall i :: 0 <= i < |gaps| ==> IsGap(gaps[i]))
    && (forall i :: 0 < i < |parts| ==> gaps[i] != "")
    && (forall i :: 0 <= i < |parts| ==> IsField(parts[i]))
  }

  ghost predicate AreFields(parts: seq<string>, s: string) {
    exists gaps :: AreGaps(gaps, parts) && Weave(gaps, parts) == s
  }

  /** The parts of a constraint list, between commas and white space. */
  ghost predicate ArePartsOf(parts: seq<string>, constraint: string) {
    exists t :: IsTrimOf(t, constraint) && AreFields(parts, t)
  }

  ghost predicate FitsAll(version: string, constraint: string) {
    IsTrimOf("", constraint)
    || exists parts :: ArePartsOf(parts, constraint) && parts != []
         && forall i :: 0 <= i < |parts| ==> Fits(version, parts[i])
  }

  /** There are no parts, or one cannot be compared and all before it fit. */
  ghost predicate HasNoAnswer(version: string, constraint: string) {
    !IsTrimOf("", constraint)
    && exists parts :: ArePartsOf(parts, constraint) && (parts == [] || exists i :: IsStuckAt(version, parts, i))
  }

  ghost predicate IsStuckAt(version: string, parts: seq<string>, i: int) {
    0 <= i < |parts| && !IsComparable(version, parts[i]) && forall k :: 0 <= k < i ==> Fits(version, parts[k])
  }

  lemma {:induction false} FieldsWeave(s: string, current: string) returns (gaps: seq<string>)
    requires current == "" || IsField(current)
    ensures var parts := Fields(s, current);
      && AreGaps(gaps, parts) && Weave(gaps, parts) == current + s
      && (current != "" ==> gaps[0] == "")
  {
    hide AreGaps, Weave, IsField;
    if s == "" {
      gaps := if current == "" then [""] else ["", ""];
      LastFields(current);
    } else if IsSeparator(s[0]) {
      var rest := FieldsWeave(s[1..], "");
      GapsAreThere(rest, Fields(s[1..], ""));
      gaps := [[s[0]] + rest[0]] + rest[1..];
      LongerGap(s[0], rest, Fields(s[1..], ""));
      assert s == [s[0]] + s[1..] && "" + s[1..] == s[1..];
      if current == "" {
        assert [] + Fields(s[1..], "") == Fields(s[1..], "") && current + s == s;
      } else {
        FieldThenGap(current, gaps, Fields(s[1..], ""), s);
        gaps := [""] + gaps;
      }
    } else {
      assert IsField(current + [s[0]]) by { LongerField(current, s[0]); }
      gaps := FieldsWeave(s[1..], current + [s[0]]);
      assert current + [s[0]] + s[1..] == current + s;
    }
  }

  lemma LastFields(current: string)
    requires current == "" || IsField(current)
    ensures var gaps, parts := if current == "" then [""] else ["", ""], Fields("", current);
      AreGaps(gaps, parts) && Weave(gaps, parts) == current + "" && gaps[0] == ""
  {
    assert ["", ""][1..] == [""];
  }

  lemma GapsAreThere(gaps: seq<string>, parts: seq<string>)
    requires AreGaps(gaps, parts)
    ensures |gaps| == |parts| + 1
  {
  }

  lemma LongerField(current: string, c: char)
    requires (current == "" || IsField(current)) && !IsSeparator(c)
    ensures IsField(current + [c])
  {
  }

  lemma FieldThenGap(current: string, gaps: seq<string>, parts: seq<string>, s: string)
    requires IsField(current) && AreGaps(gaps, parts) && gaps[0] != "" && Weave(gaps, parts) == s
    ensures AreGaps([""] + gaps, [current] + parts) && Weave([""] + gaps, [current] + parts) == current + s
  {
    assert ([""] + gaps)[1..] == gaps && ([current] + parts)[1..] == parts;
    assert "" + current + s == current + s;
  }

  lemma LongerGap(c: char, gaps: seq<string>, parts: seq<string>)
    requires AreGaps(gaps, parts) && IsSeparator(c)
    ensures AreGaps([[c] + gaps[0]] + gaps[1..], parts)
    ensures Weave([[c] + gaps[0]] + gaps[1..], parts) == [c] + Weave(gaps, parts)
  {
    var longer := [[c] + gaps[0]] + gaps[1..];
    assert longer[1..] == gaps[1..];
    if parts != [] {
      var rest := Weave(gaps[1..], parts[1..]);
      assert [c] + gaps[0] + parts[0] + rest == [c] + (gaps[0] + parts[0] + rest);
    }
  }

  lemma {:induction false} FieldsBehindGap(gap: string, s: string)
    requires IsGap(gap)
    ensures Fields(gap + s, "") == Fields(s, "")
  {
    if gap == "" {
      assert gap + s == s;
    } else {
      assert (gap + s)[1..] == gap[1..] + s;
      FieldsBehindGap(gap[1..], s);
      assert [] + Fields(s, "") == Fields(s, "");
    }
  }

  lemma {:induction false} FieldsOfField(part: string, s: string, current: string)
    requires part == "" || IsField(part)
    ensures Fields(part + s, current) == Fields(s, current + part)
  {
    if part == "" {
      assert part + s == s && current + part == current;
    } else {
      assert (part + s)[1..] == part[1..] + s;
      FieldsOfField(part[1..], s, current + [part[0]]);
      assert current + [part[0]] + part[1..] == current + part;
    }
  }

  lemma {:induction false} WeaveDecides(gaps: seq<string>, parts: seq<string>)
    requires AreGaps(gaps, parts)
    ensures Fields(Weave(gaps, parts), "") == parts
    decreases |parts|
  {
    if parts == [] {
      FieldsBehindGap(gaps[0], "");
      assert gaps[0] + "" == gaps[0];
    } else {
      var rest := Weave(gaps[1..], parts[1..]);
      FieldsBehindGap(gaps[0], parts[0] + rest);
      assert gaps[0] + parts[0] + rest == gaps[0] + (parts[0] + rest);
      FieldsOfField(parts[0], rest, "");
      assert "" + parts[0] == parts[0];
      WeaveDecides(gaps[1..], parts[1..]);
      FieldsBehind(gaps[1..], parts[1..], parts[0]);
    }
  }

  lemma FieldsBehind(gaps: seq<string>, parts: seq<string>, current: string)
    requires AreGaps(gaps, parts) && IsField(current) && (parts != [] ==> gaps[0] != "")
    ensures Fields(Weave(gaps, parts), current) == [current] + Fields(Weave(gaps, parts), "")
  {
    var s := Weave(gaps, parts);
    if s != "" {
      assert s[0] == gaps[0][0];
      assert [] + Fields(s[1..], "") == Fields(s[1..], "");
    }
  }

  lemma FieldsMeaning(s: string, parts: seq<string>)
    ensures Fields(s, "") == parts <==> AreFields(parts, s)
  {
    var gaps := FieldsWeave(s, "");
    assert "" + s == s;
    if AreFields(parts, s) {
      var g :| AreGaps(g, parts) && Weave(g, parts) == s;
      WeaveDecides(g, parts);
    }
  }

  lemma PartsMeaning(constraint: string, parts: seq<string>)
    ensures Fields(TrimSpace(constraint), "") == parts <==> ArePartsOf(parts, constraint)
  {
    hide TrimSpace, IsTrimOf, AreFields, Fields;
    var t := TrimSpace(constraint);
    TrimSpaceMeaning(constraint, t);
    forall u | IsTrimOf(u, constraint) ensures u == t { TrimSpaceMeaning(constraint, u); }
    FieldsMeaning(t, parts);
  }

  lemma ParsedOfTrimmed(s: string)
    ensures Parsed(TrimSpace(s)) == Parsed(s)
  {
    TrimIsIdempotent(s);
  }

  /** The text behind the operator. */
  function TargetOf(part: string): string {
    if ">=" <= part || "<=" <= part then part[2..]
    else if ">" <= part || "<" <= part || "=" <= part then part[1..]
    else part
  }

  /** A readable target is all of the text behind the operator. */
  lemma TargetIsAllBehind(part: string, target: string, t: seq<nat>)
    requires IsVersion(target, t) && IsComparison(part, target)
    ensures target == TargetOf(part)
  {
    hide IsVersion;
    VersionStart(target, t);
    var c := target[0];
    assert c !in {'=', '<', '>'} by { assert IsOdd('=') && IsOdd('<') && IsOdd('>'); }
    if part == target {
      PlainTarget(part);
    } else if part == ">=" + target || part == "<=" + target {
      assert part[0] in {'>', '<'} && part[1] == '=' && part[2..] == target;
    } else {
      assert part[0] in {'>', '<', '='} && part[1] == c && part[1..] == target;
    }
  }

  lemma PlainTarget(part: string)
    requires part != "" && part[0] !in {'=', '<', '>'}
    ensures TargetOf(part) == part
  {
  }

  lemma BehindIsComparison(part: string, v: seq<nat>, t: seq<nat>)
    ensures IsComparison(part, TargetOf(part))
    ensures TargetOf(part) != "" && TargetOf(part)[0] !in {'=', '<', '>'} ==>
              (IsMet(part, TargetOf(part), v, t) <==> CompareResult(Compare(v, t), SplitVersionOperator(part).0))
  {
    CompareIsLexicographic(v, t);
    hide Below, SameFrom, Compare, TrimSpace;
    var target := TargetOf(part);
    assert ">=" <= part ==> part == ">=" + target;
    assert "<=" <= part ==> part == "<=" + target;
    if !(">=" <= part) && !("<=" <= part) {
      assert ">" <= part ==> part == ">" + target;
      assert "<" <= part ==> part == "<" + target;
      assert "=" <= part ==> part == "=" + target;
    }
  }

  lemma BlankIsNoVersion()
    ensures Parsed("").Err?
  {
  }

  lemma MetIsComparison(part: string)
    ensures forall target, v, t :: IsMet(part, target, v, t) ==> IsComparison(part, target)
  {
  }

  /** One comparison: it has an answer if version and target can be read, and then the operator's order decides. */
  lemma SingleMeaning(version: string, part: string)
    ensures SatisfiesSingle(version, part).Ok? <==> IsComparable(version, part)
    ensures SatisfiesSingle(version, part) == Ok(true) <==> Fits(version, part)
  {
    hide TrimSpace, Compare, IsVersion, Parsed, IsMet, IsComparison;
    var target := TargetOf(part);
    ParsedOfTrimmed(target);
    BlankIsNoVersion();
    assert SplitVersionOperator(part).1 == TrimSpace(target);
    forall v: seq<nat> ensures Parsed(version) == Ok(v) <==> IsVersion(version, v) { ParsedMeaning(version, v); }
    forall t: seq<nat> ensures Parsed(target) == Ok(t) <==> IsVersion(target, t) { ParsedMeaning(target, t); }
    forall other, t | IsVersion(other, t) && IsComparison(part, other) ensures other == target {
      TargetIsAllBehind(part, other, t);
    }
    forall v, t | IsVersion(target, t)
      ensures IsComparison(part, target)
      ensures IsMet(part, target, v, t) <==> CompareResult(Compare(v, t), SplitVersionOperator(part).0)
    {
      VersionStart(target, t);
      BehindIsComparison(part, v, t);
    }
    MetIsComparison(part);
  }

  lemma {:induction false} AllMeaning(version: string, parts: seq<string>)
    ensures SatisfiesAll(version, parts) == Ok(true) <==> forall i :: 0 <= i < |parts| ==> Fits(version, parts[i])
    ensures SatisfiesAll(version, parts).Err? <==> exists i :: IsStuckAt(version, parts, i)
  {
    hide SatisfiesSingle, IsComparable, Fits;
    if parts != [] {
      var rest := parts[1..];
      SingleMeaning(version, parts[0]);
      AllMeaning(version, rest);
      assert forall i :: 0 <= i < |rest| ==> rest[i] == parts[i + 1];
      assert !IsComparable(version, parts[0]) ==> IsStuckAt(version, parts, 0);
      if i :| IsStuckAt(version, rest, i) && Fits(version, parts[0]) {
        assert IsStuckAt(version, parts, i + 1);
      }
      if i :| IsStuckAt(version, parts, i) && Fits(version, parts[0]) {
        assert IsStuckAt(version, rest, i - 1);
      }
    }
  }

  /** A constraint list is satisfied exactly if the version fits each of its parts. */
  lemma SatisfiesMeaning(version: string, constraint: string)
    ensures Satisfies(version, constraint) == Ok(true) <==> FitsAll(version, constraint)
    ensures Satisfies(version, constraint).Err? <==> HasNoAnswer(version, constraint)
  {
    hide TrimSpace, IsTrimOf, SatisfiesAll, ArePartsOf, Fits, IsStuckAt;
    TrimSpaceMeaning(constraint, "");
    var parts := Fields(TrimSpace(constraint), "");
    forall ps ensures Fields(TrimSpace(constraint), "") == ps <==> ArePartsOf(ps, constraint) {
      PartsMeaning(constraint, ps);
    }
    assert ArePartsOf(parts, constraint);
    assert Fields("", "") == [];
    hide Fields;
    AllMeaning(version, parts);
  }

  method VersionSatisfies(version: string, constraint: string) returns (r: Result<bool, string>)
    ensures r == Satisfies(version, constraint)
    ensures r == Ok(true) <==> FitsAll(version, constraint)
    ensures r.Err? <==> HasNoAnswer(version, constraint)
  {
    hide FitsAll, HasNoAnswer, TrimSpace, Fields, SatisfiesSingle;
    SatisfiesMeaning(version, constraint);
    var parts := Fields(TrimSpace(constraint), "");
    if parts == [] {
      if TrimSpace(constraint) == "" {
        return Ok(true);
      }
      return Err("empty version constraint");
    }
    for i := 0 to |parts|
      invariant SatisfiesAll(version, parts) == SatisfiesAll(version, parts[i..])
    {
      assert parts[i..][1..] == parts[i + 1..];
      var ok := VersionSatisfiesSingle(version, parts[i]);
      if ok.Err? || !ok.value {
        return ok;
      }
    }
    return Ok(true);
  }

  /** Every parsable version between two others. */
  ghost predicate Between(low: string, mid: string, high: string) {
    && Parsed(low).Ok? && Parsed(mid).Ok? && Parsed(high).Ok?
    && Compare(Parsed(low).value, Parsed(mid).value) <= 0
    && Compare(Parsed(mid).value, Parsed(high).value) <= 0
  }

  lemma SingleIsConvex(low: string, mid: string, high: string, constraint: string)
    requires Between(low, mid, high)
    requires SatisfiesSingle(low, constraint) == Ok(true) && SatisfiesSingle(high, constraint) == Ok(true)
    ensures SatisfiesSingle(mid, constraint) == Ok(true)
  {
    var target := Parsed(SplitVersionOperator(constraint).1).value;
    var l, m, h := Parsed(low).value, Parsed(mid).value, Parsed(high).value;
    CompareIsTotalPreorder(l, m, target);
    CompareIsTotalPreorder(m, h, target);
    CompareIsTotalPreorder(target, l, m);
    CompareIsLexicographic(l, target);
    CompareIsLexicographic(m, target);
    CompareIsLexicographic(h, target);
  }

  lemma {:induction false} AllAreConvex(low: string, mid: string, high: string, parts: seq<string>)
    requires Between(low, mid, high)
    requires SatisfiesAll(low, parts) == Ok(true) && SatisfiesAll(high, parts) == Ok(true)
    ensures SatisfiesAll(mid, parts) == Ok(true)
  {
    if parts != [] {
      SingleIsConvex(low, mid, high, parts[0]);
      AllAreConvex(low, mid, high, parts[1..]);
    }
  }

  /** The versions satisfying a constraint form a convex set. */
  lemma SatisfyingVersionsAreConvex(low: string, mid: string, high: string, constraint: string)
    requires Between(low, mid, high)
    requires Satisfies(low, constraint) == Ok(true) && Satisfies(high, constraint) == Ok(true)
    ensures Satisfies(mid, constraint) == Ok(true)
  {
    var parts := Fields(TrimSpace(constraint), "");
    if parts != [] { AllAreConvex(low, mid, high, parts); }
  }
}
