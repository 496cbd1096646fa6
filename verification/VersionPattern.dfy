/** The version texts that the repository's patterns accept: dotted numbers behind an optional
    'v', and a suffix behind one of the given separators. */
module VersionPattern {
  predicate IsDigitChar(c: char) {
    '0' <= c <= '9'
  }

  predicate IsTailChar(c: char) {
    IsDigitChar(c) || 'A' <= c <= 'Z' || 'a' <= c <= 'z' || c == '.' || c == '-'
  }

  function DigitRun(s: string): (n: nat)
    ensures n <= |s| && forall i :: 0 <= i < n ==> IsDigitChar(s[i])
  {
    if s != "" && IsDigitChar(s[0]) then 1 + DigitRun(s[1..]) else 0
  }

  /** An optional suffix, set off by one of the separators. */
  predicate IsTail(s: string, separators: set<char>) {
    s == "" || (|s| > 1 && s[0] in separators && forall i :: 0 < i < |s| ==> IsTailChar(s[i]))
  }

  /** 'parts' dot-separated numbers, then the tail. */
  predicate IsNumbers(s: string, parts: nat, separators: set<char>) {
    var n := DigitRun(s);
    && n > 0
    && if parts <= 1 then IsTail(s[n..], separators)
       else n < |s| && s[n] == '.' && IsNumbers(s[n + 1..], parts - 1, separators)
  }

  function WithoutV(v: string): string {
    if v != "" && v[0] == 'v' then v[1..] else v
  }

  predicate IsVersionText(v: string, separators: set<char>) {
    IsNumbers(WithoutV(v), 3, separators)
  }

  lemma {:induction false} NumbersAreSimple(s: string, parts: nat, separators: set<char>, c: char)
    requires IsNumbers(s, parts, separators) && !IsTailChar(c) && c !in separators
    ensures c !in s
  {
    var n := DigitRun(s);
    if parts > 1 {
      NumbersAreSimple(s[n + 1..], parts - 1, separators, c);
      assert s == s[..n] + [s[n]] + s[n + 1..];
    } else {
      assert s == s[..n] + s[n..];
    }
  }

  /** A version text has no character but letters, digits, dots, dashes and its separator. */
  lemma VersionTextIsSimple(v: string, separators: set<char>, c: char)
    requires IsVersionText(v, separators) && !IsTailChar(c) && c !in separators
    ensures c !in v
  {
    NumbersAreSimple(WithoutV(v), 3, separators, c);
    if WithoutV(v) != v {
      assert v == [v[0]] + v[1..];
    }
  }

  // --- the pattern as a text -------------------------------------------------------------------------

  ghost predicate IsDigitText(s: string) {
    s != "" && forall i :: 0 <= i < |s| ==> 48 <= s[i] as int <= 57
  }

  /** Behind one of the separators at least one letter, digit, dot or dash; or nothing at all. */
  ghost predicate IsSuffix(s: string, separators: set<char>) {
    s != "" ==>
      && |s| >= 2 && s[0] in separators
      && forall i :: 1 <= i < |s| ==>
           s[i] == '.' || s[i] == '-' || 48 <= s[i] as int <= 57 || 65 <= s[i] as int <= 90 || 97 <= s[i] as int <= 122
  }

  ghost predicate AreReleaseParts(v: string, a: string, b: string, c: string, suffix: string) {
    && IsDigitText(a) && IsDigitText(b) && IsDigitText(c)
    && (v == a + "." + b + "." + c + suffix || v == "v" + a + "." + b + "." + c + suffix)
  }

  /** Three numbers between dots, perhaps behind a 'v' and perhaps with a suffix. */
  ghost predicate IsRelease(v: string, separators: set<char>) {
    exists a, b, c, suffix :: AreReleaseParts(v, a, b, c, suffix) && IsSuffix(suffix, separators)
  }

  lemma {:induction false} DigitRunOf(digits: string, rest: string)
    requires forall i :: 0 <= i < |digits| ==> IsDigitChar(digits[i])
    requires rest != "" ==> !IsDigitChar(rest[0])
    ensures DigitRun(digits + rest) == |digits|
  {
    if digits != "" {
      assert (digits + rest)[1..] == digits[1..] + rest;
      DigitRunOf(digits[1..], rest);
    } else {
      assert digits + rest == rest;
    }
  }

  lemma NumberFirst(digits: string, rest: string, parts: nat, separators: set<char>)
    requires IsDigitText(digits) && parts > 1
    ensures IsNumbers(digits + "." + rest, parts, separators) <==> IsNumbers(rest, parts - 1, separators)
  {
    var s := digits + "." + rest;
    assert s == digits + ("." + rest);
    DigitRunOf(digits, "." + rest);
    assert s[|digits| + 1..] == rest;
  }

  lemma NumberLast(digits: string, suffix: string, separators: set<char>)
    requires IsDigitText(digits) && IsSuffix(suffix, separators)
    requires forall c :: c in separators ==> !IsDigitChar(c)
    ensures IsNumbers(digits + suffix, 1, separators)
  {
    DigitRunOf(digits, suffix);
    assert (digits + suffix)[|digits|..] == suffix;
  }

  lemma NumberSplits(s: string, parts: nat, separators: set<char>) returns (digits: string, rest: string)
    requires IsNumbers(s, parts, separators)
    ensures IsDigitText(digits)
    ensures if parts > 1 then s == digits + "." + rest && IsNumbers(rest, parts - 1, separators)
            else s == digits + rest && IsSuffix(rest, separators)
  {
    var n := DigitRun(s);
    digits, rest := s[..n], if parts > 1 then s[n + 1..] else s[n..];
  }

  /** A version text is a release with its suffix behind one of the separators. */
  lemma VersionTextMeaning(v: string, separators: set<char>)
    requires forall c :: c in separators ==> !IsDigitChar(c)
    ensures IsVersionText(v, separators) <==> IsRelease(v, separators)
  {
    if IsVersionText(v, separators) { VersionTextSplits(v, separators); }
    hide IsVersionText;
    if IsRelease(v, separators) {
      var a, b, c, suffix :| AreReleaseParts(v, a, b, c, suffix) && IsSuffix(suffix, separators);
      PartsAreVersionText(v, a, b, c, suffix, separators);
    }
  }

  lemma VersionTextSplits(v: string, separators: set<char>)
    requires IsVersionText(v, separators)
    ensures IsRelease(v, separators)
  {
    hide IsNumbers, IsSuffix, IsDigitText;
    var a, x := NumberSplits(WithoutV(v), 3, separators);
    var b, y := NumberSplits(x, 2, separators);
    var c, suffix := NumberSplits(y, 1, separators);
    Reassociate(a, b, c, suffix);
    WithV(a, b, c, suffix);
    assert v == WithoutV(v) || v == "v" + WithoutV(v);
    assert AreReleaseParts(v, a, b, c, suffix);
  }

  lemma PartsAreVersionText(v: string, a: string, b: string, c: string, suffix: string, separators: set<char>)
    requires AreReleaseParts(v, a, b, c, suffix) && IsSuffix(suffix, separators)
    requires forall d :: d in separators ==> !IsDigitChar(d)
    ensures IsVersionText(v, separators)
  {
    hide IsNumbers, IsSuffix;
    NumberLast(c, suffix, separators);
    NumberFirst(b, c + suffix, 2, separators);
    NumberFirst(a, b + "." + (c + suffix), 3, separators);
    Reassociate(a, b, c, suffix);
    WithV(a, b, c, suffix);
    var w := a + "." + b + "." + c + suffix;
    FirstOf(a, "." + b + "." + c + suffix);
    assert w == a + ("." + b + "." + c + suffix);
    assert WithoutV(v) == w;
  }

  lemma FirstOf(digits: string, rest: string)
    requires IsDigitText(digits)
    ensures (digits + rest) != "" && (digits + rest)[0] != 'v'
  {
    assert (digits + rest)[0] == digits[0];
  }

  lemma WithV(a: string, b: string, c: string, d: string)
    ensures "v" + (a + "." + b + "." + c + d) == "v" + a + "." + b + "." + c + d
    ensures WithoutV("v" + a + "." + b + "." + c + d) == a + "." + b + "." + c + d
  {
    var w := a + "." + b + "." + c + d;
    assert "v" + a + "." + b + "." + c + d == "v" + w;
  }

  lemma Reassociate(a: string, b: string, c: string, d: string)
    ensures a + "." + (b + "." + (c + d)) == a + "." + b + "." + c + d
  {
  }
}
