/** Removing white space around a text, for the six ASCII space characters. */
module Trimming {

  predicate IsSpace(c: char) {
    c == ' ' || c == '\t' || c == '\n' || c == '\r' || c == '\U{0B}' || c == '\U{0C}'
  }

  function TrimLeft(s: string): string {
    if s != "" && IsSpace(s[0]) then TrimLeft(s[1..]) else s
  }

  function TrimRight(s: string): string {
    if s != "" && IsSpace(s[|s| - 1]) then TrimRight(s[..|s| - 1]) else s
  }

  function TrimSpace(s: string): string {
    TrimRight(TrimLeft(s))
  }

  // --- what trimming means ---------------------------------------------------------------------------

  /** The code points from horizontal tab to carriage return, and the blank. */
  ghost predicate IsBlank(c: char) {
    9 <= c as int <= 13 || c as int == 32
  }

  ghost predicate AllBlank(s: string) {
    forall k :: 0 <= k < |s| ==> IsBlank(s[k])
  }

  /** The text stands between blanks, and neither starts nor ends with one. */
  ghost predicate IsTrimOf(t: string, s: string) {
    exists before, after: string :: IsAround(before, t, after, s)
  }

  ghost predicate IsAround(before: string, t: string, after: string, s: string) {
    && s == before + t + after && AllBlank(before) && AllBlank(after)
    && (t != "" ==> !IsBlank(t[0]) && !IsBlank(t[|t| - 1]))
  }

  lemma {:induction false} TrimLeftSplits(s: string) returns (before: string)
    ensures s == before + TrimLeft(s) && AllBlank(before)
    ensures TrimLeft(s) != "" ==> !IsBlank(TrimLeft(s)[0])
  {
    before := "";
    if s != "" && IsSpace(s[0]) {
      var rest := TrimLeftSplits(s[1..]);
      before := [s[0]] + rest;
      assert s == [s[0]] + s[1..];
    }
  }

  lemma {:induction false} TrimRightSplits(s: string) returns (after: string)
    ensures s == TrimRight(s) + after && AllBlank(after)
    ensures TrimRight(s) != "" ==> !IsBlank(TrimRight(s)[|TrimRight(s)| - 1])
  {
    after := "";
    if s != "" && IsSpace(s[|s| - 1]) {
      var rest := TrimRightSplits(s[..|s| - 1]);
      after := rest + [s[|s| - 1]];
      assert s == s[..|s| - 1] + [s[|s| - 1]];
    }
  }

  /** TrimSpace takes away exactly the blanks around a text. */
  lemma TrimSpaceMeaning(s: string, t: string)
    ensures TrimSpace(s) == t <==> IsTrimOf(t, s)
  {
    hide TrimLeft, TrimRight;
    var before := TrimLeftSplits(s);
    var after := TrimRightSplits(TrimLeft(s));
    var u := TrimSpace(s);
    assert u != "" ==> TrimLeft(s)[0] == u[0];
    assert s == before + u + after;
    assert IsAround(before, u, after, s);
    if IsTrimOf(t, s) {
      var b, a :| IsAround(b, t, a, s);
      TrimIsUnique(before, u, after, b, t, a, s);
    }
  }

  lemma TrimIsUnique(before: string, t: string, after: string, b: string, u: string, a: string, s: string)
    requires IsAround(before, t, after, s) && IsAround(b, u, a, s)
    ensures t == u
  {
    if t != "" && u != "" {
      assert s[|before|] == t[0] && s[|b|] == u[0];
      assert |before| == |b|;
      var m, n := |before| + |t|, |b| + |u|;
      assert s[m - 1] == t[|t| - 1] && s[n - 1] == u[|u| - 1];
      assert t == s[|before|..m] && u == s[|b|..n];
    } else {
      if t != "" { NotAllBlank(before, t, after, s); }
      if u != "" { NotAllBlank(b, u, a, s); }
      AllOfIsBlank(if t == "" then before else b, if t == "" then after else a, s);
    }
  }

  lemma NotAllBlank(before: string, t: string, after: string, s: string)
    requires IsAround(before, t, after, s) && t != ""
    ensures !AllBlank(s)
  {
    assert s[|before|] == t[0];
  }

  lemma AllOfIsBlank(before: string, after: string, s: string)
    requires s == before + "" + after && AllBlank(before) && AllBlank(after)
    ensures AllBlank(s)
  {
  }

  lemma TrimIsIdempotent(s: string)
    ensures TrimSpace(TrimSpace(s)) == TrimSpace(s)
  {
    hide TrimSpace;
    var t := TrimSpace(s);
    TrimSpaceMeaning(s, t);
    var b, a :| IsAround(b, t, a, s);
    assert IsAround("", t, "", t);
    TrimSpaceMeaning(t, t);
  }
}
