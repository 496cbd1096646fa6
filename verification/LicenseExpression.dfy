/** The licence expression evaluator: tokens are split at the loosest operator outside
    parentheses, and the verdict is meant to be the Boolean value of the SPDX expression
    (SPDX specification 2.3, Annex D.4), with AND binding tighter than OR. */
module LicenseExpression {

  /** A refused licence and the reason it was refused for. */
  datatype Finding = Finding(licenseId: string, reason: string)

  datatype Verdict = Verdict(allowed: bool, findings: seq<Finding>)

  type Resolver = string -> string

  // --- split_top_level -----------------------------------------------------------------

  /** Depth after a token: a stray closing parenthesis does not go below zero. */
  function DepthAfter(depth: nat, token: string): nat {
    if token == "(" then depth + 1
    else if token == ")" then if depth == 0 then 0 else depth - 1
    else depth
  }

  function SplitFrom(tokens: seq<string>, operator: string, current: seq<string>, depth: nat): (parts: seq<seq<string>>)
    ensures parts != []
    decreases |tokens|
  {
    if tokens == [] then [current]
    else
      var d := DepthAfter(depth, tokens[0]);
      if d == 0 && tokens[0] == operator then [current] + SplitFrom(tokens[1..], operator, [], d)
      else SplitFrom(tokens[1..], operator, current + [tokens[0]], d)
  }

  function SplitTopLevel(tokens: seq<string>, operator: string): (parts: seq<seq<string>>)
    ensures parts != []
  {
    SplitFrom(tokens, operator, [], 0)
  }

  /** More than one part means an operator was consumed, so every part is shorter. */
  lemma {:induction false} PartsAreShorter(tokens: seq<string>, operator: string, current: seq<string>, depth: nat)
    ensures var parts := SplitFrom(tokens, operator, current, depth);
      && (forall i :: 0 <= i < |parts| ==> |parts[i]| <= |current| + |tokens|)
      && (|parts| > 1 ==> forall i :: 0 <= i < |parts| ==> |parts[i]| < |current| + |tokens|)
    decreases |tokens|
  {
    if tokens != [] {
      var d := DepthAfter(depth, tokens[0]);
      if d == 0 && tokens[0] == operator {
        PartsAreShorter(tokens[1..], operator, [], d);
      } else {
        PartsAreShorter(tokens[1..], operator, current + [tokens[0]], d);
      }
    }
  }

  lemma SplitIsShorter(tokens: seq<string>, operator: string)
    requires |SplitTopLevel(tokens, operator)| > 1
    ensures forall i :: 0 <= i < |SplitTopLevel(tokens, operator)| ==> |SplitTopLevel(tokens, operator)[i]| < |tokens|
  {
    hide SplitFrom;
    PartsAreShorter(tokens, operator, [], 0);
    assert SplitTopLevel(tokens, operator) == SplitFrom(tokens, operator, [], 0);
  }

  lemma SplitStep(tokens: seq<string>, operator: string, i: nat, parts: seq<seq<string>>, current: seq<string>,
                  depth: nat)
    requires i < |tokens|
    ensures var d := DepthAfter(depth, tokens[i]);
      parts + SplitFrom(tokens[i..], operator, current, depth) ==
      if d == 0 && tokens[i] == operator then (parts + [current]) + SplitFrom(tokens[i + 1..], operator, [], d)
      else parts + SplitFrom(tokens[i + 1..], operator, current + [tokens[i]], d)
  {
    assert tokens[i..][1..] == tokens[i + 1..];
    var d := DepthAfter(depth, tokens[i]);
    if d == 0 && tokens[i] == operator {
      var rest := SplitFrom(tokens[i + 1..], operator, [], d);
      assert parts + ([current] + rest) == (parts + [current]) + rest;
    }
  }

  method SplitTopLevelLoop(tokens: seq<string>, operator: string) returns (parts: seq<seq<string>>)
    ensures parts == SplitTopLevel(tokens, operator)
  {
    parts := [];
    var current: seq<string>, depth := [], 0;
    for i := 0 to |tokens|
      invariant depth >= 0
      invariant SplitTopLevel(tokens, operator) == parts + SplitFrom(tokens[i..], operator, current, depth)
    {
      var token := tokens[i];
      SplitStep(tokens, operator, i, parts, current, depth);
      if token == "(" {
        depth := depth + 1;
      } else if token == ")" {
        depth := if depth - 1 > 0 then depth - 1 else 0;
      }
      if depth == 0 && token == operator {
        parts := parts + [current];
        current := [];
      } else {
        current := current + [token];
      }
    }
    parts := parts + [current];
  }

  // --- strip_parentheses ---------------------------------------------------------------

  function Weight(token: string): int {
    if token == "(" then 1 else if token == ")" then -1 else 0
  }

  /** No proper prefix returns to depth zero, so the outer pair encloses everything. */
  predicate WrapsFrom(tokens: seq<string>, depth: int) {
    |tokens| <= 1 || (depth + Weight(tokens[0]) != 0 && WrapsFrom(tokens[1..], depth + Weight(tokens[0])))
  }

  function StripParentheses(tokens: seq<string>): (stripped: seq<string>)
    ensures |stripped| <= |tokens|
  {
    if |tokens| >= 2 && tokens[0] == "(" && tokens[|tokens| - 1] == ")" && WrapsFrom(tokens, 0)
    then StripParentheses(tokens[1..|tokens| - 1])
    else tokens
  }

  method StripParenthesesLoop(input: seq<string>) returns (tokens: seq<string>)
    ensures tokens == StripParentheses(input)
  {
    tokens := input;
    while |tokens| >= 2 && tokens[0] == "(" && tokens[|tokens| - 1] == ")"
      invariant StripParentheses(tokens) == StripParentheses(input)
      decreases |tokens|
    {
      var depth, wraps, index := 0, true, 0;
      while index < |tokens|
        invariant 0 <= index <= |tokens|
        invariant wraps ==> (WrapsFrom(tokens, 0) <==> (index < |tokens| ==> WrapsFrom(tokens[index..], depth)))
        invariant !wraps ==> !WrapsFrom(tokens, 0)
      {
        depth := depth + (if tokens[index] == "(" then 1 else 0) - (if tokens[index] == ")" then 1 else 0);
        if depth == 0 && index != |tokens| - 1 {
          wraps := false;
          break;
        }
        assert tokens[index..][1..] == tokens[index + 1..];
        index := index + 1;
      }
      if !wraps {
        break;
      }
      tokens := tokens[1..|tokens| - 1];
    }
  }

  /** How many more parentheses the first p tokens open than they close. */
  ghost function Nesting(tokens: seq<string>, p: nat): int
    requires p <= |tokens|
  {
    multiset(tokens[..p])["("] as int - multiset(tokens[..p])[")"] as int
  }

  /** The first and the last token are a pair of parentheses around all the others. */
  ghost predicate Encloses(tokens: seq<string>) {
    && |tokens| >= 2 && tokens[0] == "(" && tokens[|tokens| - 1] == ")"
    && forall p :: 1 <= p < |tokens| ==> Nesting(tokens, p) != 0
  }

  lemma NestingBehind(tokens: seq<string>, p: nat)
    requires 1 <= p <= |tokens|
    ensures Nesting(tokens, p) == Weight(tokens[0]) + Nesting(tokens[1..], p - 1)
    ensures Nesting(tokens, 0) == Nesting(tokens[1..], 0) == 0
  {
    assert tokens[..p] == [tokens[0]] + tokens[1..][..p - 1];
  }

  lemma {:induction false} WrapsMeaning(tokens: seq<string>, depth: int)
    ensures WrapsFrom(tokens, depth) <==> forall p :: 1 <= p < |tokens| ==> depth + Nesting(tokens, p) != 0
  {
    hide Nesting;
    if |tokens| > 1 {
      var rest, next := tokens[1..], depth + Weight(tokens[0]);
      WrapsMeaning(rest, next);
      forall p | 1 <= p < |tokens|
        ensures Nesting(tokens, p) == Weight(tokens[0]) + Nesting(rest, p - 1) && Nesting(rest, 0) == 0
      {
        NestingBehind(tokens, p);
      }
      if WrapsFrom(tokens, depth) {
        forall p | 1 <= p < |tokens| ensures depth + Nesting(tokens, p) != 0 {
          assert p > 1 ==> next + Nesting(rest, p - 1) != 0;
        }
      } else if next != 0 {
        var q :| 1 <= q < |rest| && next + Nesting(rest, q) == 0;
        assert depth + Nesting(tokens, q + 1) == 0;
      } else {
        assert depth + Nesting(tokens, 1) == 0;
      }
    }
  }

  /** What is left when k tokens are taken away at each end. */
  ghost function Peeled(tokens: seq<string>, k: nat): seq<string>
    requires 2 * k <= |tokens|
  {
    tokens[k..|tokens| - k]
  }

  lemma PeeledInside(tokens: seq<string>, k: nat)
    requires |tokens| >= 2 && 2 * k <= |tokens| - 2
    ensures Peeled(tokens, 0) == tokens && Peeled(tokens, k + 1) == Peeled(tokens[1..|tokens| - 1], k)
  {
    var n, inside := |tokens|, tokens[1..|tokens| - 1];
    forall i | 0 <= i < n - 2 * k - 2 ensures Peeled(tokens, k + 1)[i] == Peeled(inside, k)[i] {
      assert Peeled(inside, k)[i] == inside[k + i] == tokens[1 + k + i];
    }
  }

  /** Stripping takes away pairs that enclose everything, from the outside in, as long as there is one. */
  lemma {:induction false} StripMeaning(tokens: seq<string>) returns (pairs: nat)
    ensures 2 * pairs <= |tokens| && StripParentheses(tokens) == Peeled(tokens, pairs)
    ensures forall k :: 0 <= k < pairs ==> Encloses(Peeled(tokens, k))
    ensures !Encloses(StripParentheses(tokens))
    decreases |tokens|
  {
    WrapsMeaning(tokens, 0);
    hide Nesting, WrapsFrom;
    if Encloses(tokens) {
      var inside := tokens[1..|tokens| - 1];
      hide Encloses;
      var inner := StripMeaning(inside);
      pairs := inner + 1;
      PeeledInside(tokens, inner);
      forall k | 0 <= k < pairs ensures Encloses(Peeled(tokens, k)) {
        if k > 0 { PeeledInside(tokens, k - 1); }
      }
    } else {
      pairs := 0;
    }
  }

  // --- evaluate_tokens -----------------------------------------------------------------

  function NonEmptyTokens(tokens: seq<string>): (kept: seq<string>)
    ensures |kept| <= |tokens|
  {
    if tokens == [] then []
    else (if tokens[0] == "" then [] else [tokens[0]]) + NonEmptyTokens(tokens[1..])
  }

  function Spaced(tokens: seq<string>): string {
    if tokens == [] then "" else if |tokens| == 1 then tokens[0] else tokens[0] + " " + Spaced(tokens[1..])
  }

  /** The tokens with one blank between any two. */
  lemma {:induction false} SpacedMeaning(token: string, a: seq<string>, b: seq<string>)
    ensures Spaced([]) == "" && Spaced([token]) == token
    ensures a != [] && b != [] ==> Spaced(a + b) == Spaced(a) + " " + Spaced(b)
  {
    if a != [] && b != [] {
      assert (a + b)[1..] == a[1..] + b;
      if |a| > 1 {
        SpacedMeaning(token, a[1..], b);
        assert a[0] + " " + (Spaced(a[1..]) + " " + Spaced(b)) == (a[0] + " " + Spaced(a[1..])) + " " + Spaced(b);
      } else {
        assert a[1..] + b == b;
      }
    }
  }

  function LeafId(tokens: seq<string>): string {
    Spaced(SplitTopLevel(tokens, "WITH")[0])
  }

  predicate AnyAllowed(results: seq<Verdict>) {
    exists i :: 0 <= i < |results| && results[i].allowed
  }

  /** The findings of the refused branches, in order. */
  function RefusedFindings(results: seq<Verdict>): seq<Finding> {
    if results == [] then []
    else (if results[0].allowed then [] else results[0].findings) + RefusedFindings(results[1..])
  }

  function EvaluateTokens(raw: seq<string>, resolver: Resolver): (v: Verdict)
    decreases |raw|, 0
  {
    var tokens := StripParentheses(NonEmptyTokens(raw));
    if tokens == [] then Verdict(false, [Finding("", "missing")])
    else
      var orParts := SplitTopLevel(tokens, "OR");
      var andParts := SplitTopLevel(tokens, "AND");
      if |orParts| > 1 then
        SplitIsShorter(tokens, "OR");
        var results := EvaluateAll(orParts, resolver, |raw|);
        if AnyAllowed(results) then Verdict(true, [])
        else Verdict(RefusedFindings(results) == [], RefusedFindings(results))
      else if |andParts| > 1 then
        SplitIsShorter(tokens, "AND");
        var results := EvaluateAll(andParts, resolver, |raw|);
        Verdict(RefusedFindings(results) == [], RefusedFindings(results))
      else
        var id := LeafId(tokens);
        if resolver(id) == "allowed" then Verdict(true, []) else Verdict(false, [Finding(id, resolver(id))])
  }

  function EvaluateAll(parts: seq<seq<string>>, resolver: Resolver, bound: nat): (results: seq<Verdict>)
    requires forall i :: 0 <= i < |parts| ==> |parts[i]| < bound
    ensures |results| == |parts|
    ensures forall i :: 0 <= i < |parts| ==> results[i] == EvaluateTokens(parts[i], resolver)
    decreases bound, 0, |parts|
  {
    if parts == [] then [] else [EvaluateTokens(parts[0], resolver)] + EvaluateAll(parts[1..], resolver, bound)
  }

  /** The verdicts of the parts, in order. */
  ghost predicate AreVerdicts(parts: seq<seq<string>>, resolver: Resolver, results: seq<Verdict>) {
    |results| == |parts| && forall i :: 0 <= i < |parts| ==> results[i] == EvaluateTokens(parts[i], resolver)
  }

  function Core(raw: seq<string>): seq<string> {
    StripParentheses(NonEmptyTokens(raw))
  }

  function OrVerdict(results: seq<Verdict>): Verdict {
    if AnyAllowed(results) then Verdict(true, [])
    else Verdict(RefusedFindings(results) == [], RefusedFindings(results))
  }

  lemma EvaluateOr(raw: seq<string>, resolver: Resolver, parts: seq<seq<string>>, results: seq<Verdict>)
    requires Core(raw) != [] && parts == SplitTopLevel(Core(raw), "OR") && |parts| > 1
             && AreVerdicts(parts, resolver, results)
    ensures EvaluateTokens(raw, resolver) == OrVerdict(results)
  {
    hide SplitTopLevel, StripParentheses, NonEmptyTokens, RefusedFindings, AnyAllowed;
    SplitIsShorter(Core(raw), "OR");
    assert EvaluateAll(parts, resolver, |raw|) == results;
  }

  lemma EvaluateAnd(raw: seq<string>, resolver: Resolver, parts: seq<seq<string>>, results: seq<Verdict>)
    requires Core(raw) != [] && |SplitTopLevel(Core(raw), "OR")| <= 1
    requires parts == SplitTopLevel(Core(raw), "AND") && |parts| > 1 && AreVerdicts(parts, resolver, results)
    ensures EvaluateTokens(raw, resolver) == Verdict(RefusedFindings(results) == [], RefusedFindings(results))
  {
    hide SplitTopLevel, StripParentheses, NonEmptyTokens, RefusedFindings, AnyAllowed;
    SplitIsShorter(Core(raw), "AND");
    assert EvaluateAll(parts, resolver, |raw|) == results;
  }

  lemma EvaluateLeaf(raw: seq<string>, resolver: Resolver)
    requires Core(raw) != [] && |SplitTopLevel(Core(raw), "OR")| <= 1 && |SplitTopLevel(Core(raw), "AND")| <= 1
    ensures var id := LeafId(Core(raw));
      EvaluateTokens(raw, resolver) == if resolver(id) == "allowed" then Verdict(true, [])
        else Verdict(false, [Finding(id, resolver(id))])
  {
    hide SplitTopLevel, StripParentheses, NonEmptyTokens, RefusedFindings, AnyAllowed, LeafId;
  }

  // --- properties of every token list ----------------------------------------------------

  lemma {:induction false} NoRefusedFindings(results: seq<Verdict>)
    requires forall i :: 0 <= i < |results| ==> (results[i].allowed <==> results[i].findings == [])
    ensures RefusedFindings(results) == [] <==> forall i :: 0 <= i < |results| ==> results[i].allowed
  {
    if results != [] {
      NoRefusedFindings(results[1..]);
      assert forall i :: 0 < i < |results| ==> results[i] == results[1..][i - 1];
    }
  }

  /** For every token list, balanced or not: allowed exactly when there are no findings. */
  lemma {:induction false} AllowedIffNoFindings(raw: seq<string>, resolver: Resolver)
    ensures EvaluateTokens(raw, resolver).allowed <==> EvaluateTokens(raw, resolver).findings == []
    decreases |raw|
  {
    var tokens := StripParentheses(NonEmptyTokens(raw));
    if tokens != [] {
      var orParts, andParts := SplitTopLevel(tokens, "OR"), SplitTopLevel(tokens, "AND");
      if |orParts| > 1 {
        SplitIsShorter(tokens, "OR");
      } else if |andParts| > 1 {
        SplitIsShorter(tokens, "AND");
      }
    }
  }

  lemma VerdictsHaveReasons(parts: seq<seq<string>>, resolver: Resolver, results: seq<Verdict>)
    requires AreVerdicts(parts, resolver, results)
    ensures forall i :: 0 <= i < |results| ==> (results[i].allowed <==> results[i].findings == [])
    ensures RefusedFindings(results) == [] <==> forall i :: 0 <= i < |results| ==> results[i].allowed
  {
    hide EvaluateTokens;
    forall i | 0 <= i < |results| ensures results[i].allowed <==> results[i].findings == [] {
      AllowedIffNoFindings(parts[i], resolver);
    }
    NoRefusedFindings(results);
  }

  function VerdictsOf(parts: seq<seq<string>>, resolver: Resolver): (results: seq<Verdict>)
    ensures AreVerdicts(parts, resolver, results)
  {
    seq(|parts|, i requires 0 <= i < |parts| => EvaluateTokens(parts[i], resolver))
  }

  /** What the verdict says about a token list, one level down. */
  lemma VerdictOneLevel(raw: seq<string>, resolver: Resolver)
    requires Core(raw) != []
    ensures var orParts, andParts := SplitTopLevel(Core(raw), "OR"), SplitTopLevel(Core(raw), "AND");
      EvaluateTokens(raw, resolver).allowed ==
        if |orParts| > 1 then exists i :: 0 <= i < |orParts| && EvaluateTokens(orParts[i], resolver).allowed
        else if |andParts| > 1 then forall i :: 0 <= i < |andParts| ==> EvaluateTokens(andParts[i], resolver).allowed
        else resolver(LeafId(Core(raw))) == "allowed"
  {
    hide EvaluateTokens, SplitTopLevel, Core, RefusedFindings, LeafId;
    var orParts, andParts := SplitTopLevel(Core(raw), "OR"), SplitTopLevel(Core(raw), "AND");
    if |orParts| > 1 {
      var results := VerdictsOf(orParts, resolver);
      VerdictsHaveReasons(orParts, resolver, results);
      EvaluateOr(raw, resolver, orParts, results);
      assert RefusedFindings(results) == [] ==> results[0].allowed;
      assert forall i :: 0 <= i < |orParts| ==> results[i].allowed == EvaluateTokens(orParts[i], resolver).allowed;
    } else if |andParts| > 1 {
      var results := VerdictsOf(andParts, resolver);
      VerdictsHaveReasons(andParts, resolver, results);
      EvaluateAnd(raw, resolver, andParts, results);
    } else {
      EvaluateLeaf(raw, resolver);
    }
  }

  lemma CoreIsNoLonger(raw: seq<string>)
    ensures |Core(raw)| <= |raw|
    ensures forall resolver: Resolver :: Core(raw) == [] ==> !EvaluateTokens(raw, resolver).allowed
  {
  }

  /** Widening the allowed set never turns an allowed expression into a refused one. */
  lemma {:induction false} WideningKeepsAllowed(raw: seq<string>, narrow: Resolver, wide: Resolver)
    requires forall id :: narrow(id) == "allowed" ==> wide(id) == "allowed"
    requires EvaluateTokens(raw, narrow).allowed
    ensures EvaluateTokens(raw, wide).allowed
    decreases |raw|
  {
    hide EvaluateTokens, SplitTopLevel, Core, LeafId;
    CoreIsNoLonger(raw);
    VerdictOneLevel(raw, narrow);
    VerdictOneLevel(raw, wide);
    var tokens := Core(raw);
    var orParts, andParts := SplitTopLevel(tokens, "OR"), SplitTopLevel(tokens, "AND");
    if |orParts| > 1 {
      SplitIsShorter(tokens, "OR");
      var i :| 0 <= i < |orParts| && EvaluateTokens(orParts[i], narrow).allowed;
      WideningKeepsAllowed(orParts[i], narrow, wide);
    } else if |andParts| > 1 {
      SplitIsShorter(tokens, "AND");
      forall i | 0 <= i < |andParts| ensures EvaluateTokens(andParts[i], wide).allowed {
        WideningKeepsAllowed(andParts[i], narrow, wide);
      }
    }
  }
}
