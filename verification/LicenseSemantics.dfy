/** The evaluator against the grammar: for every SPDX expression printed with at least
    the parentheses its precedence needs, the verdict is the expression's truth value. */
module LicenseSemantics {
  import opened Outcomes
  import opened LicenseExpression

  /** What an expression means; an exception clause does not change which licence counts. */
  datatype Tree =
    | Leaf(id: string, exception: Option<string>)
    | Both(left: Tree, right: Tree)
    | Either(left: Tree, right: Tree)

  predicate Value(t: Tree, resolver: Resolver) {
    match t
    case Leaf(id, _) => resolver(id) == "allowed"
    case Both(l, r) => Value(l, resolver) && Value(r, resolver)
    case Either(l, r) => Value(l, resolver) || Value(r, resolver)
  }

  /** The refused licences that explain a refusal, in reading order. */
  function Refusals(t: Tree, resolver: Resolver): (findings: seq<Finding>)
    ensures findings == [] <==> Value(t, resolver)
  {
    match t
    case Leaf(id, _) => if resolver(id) == "allowed" then [] else [Finding(id, resolver(id))]
    case Both(l, r) => Refusals(l, resolver) + Refusals(r, resolver)
    case Either(l, r) => if Value(t, resolver) then [] else Refusals(l, resolver) + Refusals(r, resolver)
  }

  /** A written expression: a tree plus the parentheses it was written with. */
  datatype Written =
    | Licence(id: string)
    | With(id: string, exception: string)
    | And(left: Written, right: Written)
    | Or(left: Written, right: Written)
    | Paren(inner: Written)

  function Meaning(e: Written): Tree {
    match e
    case Licence(id) => Leaf(id, None)
    case With(id, exception) => Leaf(id, Some(exception))
    case And(l, r) => Both(Meaning(l), Meaning(r))
    case Or(l, r) => Either(Meaning(l), Meaning(r))
    case Paren(inner) => Meaning(inner)
  }

  function Tokens(e: Written): (tokens: seq<string>)
    ensures tokens != []
  {
    match e
    case Licence(id) => [id]
    case With(id, exception) => [id, "WITH", exception]
    case And(l, r) => Tokens(l) + ["AND"] + Tokens(r)
    case Or(l, r) => Tokens(l) + ["OR"] + Tokens(r)
    case Paren(inner) => ["("] + Tokens(inner) + [")"]
  }

  predicate PlainToken(token: string) {
    token !in {"", "(", ")", "AND", "OR", "WITH"}
  }

  /** Names are plain tokens, and an OR under an AND is parenthesised (AND binds tighter). */
  predicate WellWritten(e: Written) {
    match e
    case Licence(id) => PlainToken(id)
    case With(id, exception) => PlainToken(id) && PlainToken(exception)
    case And(l, r) => WellWritten(l) && WellWritten(r) && !l.Or? && !r.Or?
    case Or(l, r) => WellWritten(l) && WellWritten(r)
    case Paren(inner) => WellWritten(inner)
  }

  /** The operator occurs outside all parentheses. */
  predicate HasTop(e: Written, operator: string) {
    match e
    case Licence(_) => false
    case With(_, _) => operator == "WITH"
    case And(l, r) => operator == "AND" || HasTop(l, operator) || HasTop(r, operator)
    case Or(l, r) => operator == "OR" || HasTop(l, operator) || HasTop(r, operator)
    case Paren(_) => false
  }

  predicate IsOperator(operator: string) {
    operator in {"AND", "OR", "WITH"}
  }

  lemma SplitToken(token: string, rest: seq<string>, operator: string, current: seq<string>, depth: nat)
    ensures var d := DepthAfter(depth, token);
      SplitFrom([token] + rest, operator, current, depth) ==
      if d == 0 && token == operator then [current] + SplitFrom(rest, operator, [], d)
      else SplitFrom(rest, operator, current + [token], d)
  {
    assert ([token] + rest)[1..] == rest;
  }

  /** Splitting passes over an expression that does not offer the operator at depth zero. */
  lemma {:induction false} SplitSkips(e: Written, rest: seq<string>, operator: string, current: seq<string>, depth: nat)
    requires WellWritten(e) && IsOperator(operator) && (depth > 0 || !HasTop(e, operator))
    ensures SplitFrom(Tokens(e) + rest, operator, current, depth) ==
            SplitFrom(rest, operator, current + Tokens(e), depth)
    decreases e, 1
  {
    match e {
      case Licence(id) => SplitToken(id, rest, operator, current, depth);
      case With(_, _) => SplitSkipsWith(e, rest, operator, current, depth);
      case And(l, r) => SplitSkipsBinary(e, l, "AND", r, rest, operator, current, depth);
      case Or(l, r) => SplitSkipsBinary(e, l, "OR", r, rest, operator, current, depth);
      case Paren(_) => SplitSkipsParen(e, rest, operator, current, depth);
    }
  }

  lemma SplitSkipsWith(e: Written, rest: seq<string>, operator: string, current: seq<string>, depth: nat)
    requires e.With? && WellWritten(e) && IsOperator(operator) && (depth > 0 || operator != "WITH")
    ensures SplitFrom(Tokens(e) + rest, operator, current, depth) ==
            SplitFrom(rest, operator, current + Tokens(e), depth)
  {
    assert Tokens(e) + rest == [e.id] + (["WITH"] + ([e.exception] + rest));
    SplitToken(e.id, ["WITH"] + ([e.exception] + rest), operator, current, depth);
    SplitToken("WITH", [e.exception] + rest, operator, current + [e.id], depth);
    SplitToken(e.exception, rest, operator, current + [e.id] + ["WITH"], depth);
    assert current + [e.id] + ["WITH"] + [e.exception] == current + Tokens(e);
  }

  lemma SplitSkipsBinary(e: Written, l: Written, op: string, r: Written, rest: seq<string>, operator: string,
                         current: seq<string>, depth: nat)
    requires (e == And(l, r) && op == "AND") || (e == Or(l, r) && op == "OR")
    requires WellWritten(e) && IsOperator(operator) && (depth > 0 || !HasTop(e, operator))
    ensures SplitFrom(Tokens(e) + rest, operator, current, depth) ==
            SplitFrom(rest, operator, current + Tokens(e), depth)
    decreases e, 0
  {
    hide SplitFrom;
    var tail := [op] + (Tokens(r) + rest);
    assert Tokens(e) + rest == Tokens(l) + tail;
    SplitSkips(l, tail, operator, current, depth);
    SplitToken(op, Tokens(r) + rest, operator, current + Tokens(l), depth);
    SplitSkips(r, rest, operator, (current + Tokens(l)) + [op], depth);
    assert current + Tokens(e) == ((current + Tokens(l)) + [op]) + Tokens(r);
  }

  lemma SplitSkipsParen(e: Written, rest: seq<string>, operator: string, current: seq<string>, depth: nat)
    requires e.Paren? && WellWritten(e) && IsOperator(operator)
    ensures SplitFrom(Tokens(e) + rest, operator, current, depth) ==
            SplitFrom(rest, operator, current + Tokens(e), depth)
    decreases e, 0
  {
    SplitSkips(e.inner, [")"] + rest, operator, current + ["("], depth + 1);
    SplitParenthesised(Tokens(e.inner), rest, operator, current, depth);
  }

  lemma SplitParenthesised(inner: seq<string>, rest: seq<string>, operator: string, current: seq<string>, depth: nat)
    requires IsOperator(operator)
    requires SplitFrom(inner + ([")"] + rest), operator, current + ["("], depth + 1)
          == SplitFrom([")"] + rest, operator, (current + ["("]) + inner, depth + 1)
    ensures SplitFrom((["("] + inner + [")"]) + rest, operator, current, depth)
         == SplitFrom(rest, operator, current + (["("] + inner + [")"]), depth)
  {
    var tail := inner + ([")"] + rest);
    assert (["("] + inner + [")"]) + rest == ["("] + tail;
    SplitToken("(", tail, operator, current, depth);
    SplitToken(")", rest, operator, (current + ["("]) + inner, depth + 1);
    assert ((current + ["("]) + inner) + [")"] == current + (["("] + inner + [")"]);
  }

  // --- splitting an expression at its own operator -----------------------------------------

  /** The operands of a chain of one operator; nested chains on either side are flattened. */
  function Operands(e: Written, operator: string): (parts: seq<Written>)
    ensures parts != []
  {
    if operator == "OR" && e.Or? then Operands(e.left, operator) + Operands(e.right, operator)
    else if operator == "AND" && e.And? then Operands(e.left, operator) + Operands(e.right, operator)
    else [e]
  }

  function AllTokens(es: seq<Written>): (parts: seq<seq<string>>)
    ensures |parts| == |es| && forall i :: 0 <= i < |es| ==> parts[i] == Tokens(es[i])
  {
    seq(|es|, i requires 0 <= i < |es| => Tokens(es[i]))
  }

  /** Neither operand chain hides a looser operator. */
  predicate Chains(e: Written, operator: string) {
    WellWritten(e) && (operator == "OR" || (operator == "AND" && !e.Or?))
  }

  lemma {:induction false} NoHiddenOperator(e: Written, operator: string)
    requires Chains(e, operator) && !(operator == "OR" && e.Or?) && !(operator == "AND" && e.And?)
    ensures !HasTop(e, operator)
  {
    if operator == "OR" && e.And? {
      NoHiddenOperator(e.left, operator);
      NoHiddenOperator(e.right, operator);
    }
  }

  predicate IsChain(e: Written, operator: string) {
    (operator == "OR" && e.Or?) || (operator == "AND" && e.And?)
  }

  lemma AllTokensConcat(a: seq<Written>, b: seq<Written>)
    ensures AllTokens(a + b) == AllTokens(a) + AllTokens(b)
  {
  }

  lemma AllTokensSingle(e: Written)
    ensures AllTokens([e]) == [Tokens(e)]
  {
  }

  lemma ConcatAssociates(a: seq<seq<string>>, b: seq<seq<string>>, c: seq<seq<string>>)
    ensures a + (b + c) == (a + b) + c
  {
  }

  lemma ChainTokens(e: Written, operator: string, rest: seq<string>)
    requires IsChain(e, operator)
    ensures Tokens(e) + rest == Tokens(e.left) + ([operator] + (Tokens(e.right) + rest))
    ensures Tokens(e) == Tokens(e.left) + ([operator] + Tokens(e.right))
  {
  }

  lemma {:induction false} SplitOperandsThen(e: Written, operator: string, rest: seq<string>)
    requires Chains(e, operator)
    ensures SplitFrom(Tokens(e) + ([operator] + rest), operator, [], 0)
         == AllTokens(Operands(e, operator)) + SplitFrom(rest, operator, [], 0)
  {
    if IsChain(e, operator) {
      ChainTokens(e, operator, [operator] + rest);
      SplitOperandsThen(e.left, operator, Tokens(e.right) + ([operator] + rest));
      SplitOperandsThen(e.right, operator, rest);
      AllTokensConcat(Operands(e.left, operator), Operands(e.right, operator));
      ConcatAssociates(AllTokens(Operands(e.left, operator)), AllTokens(Operands(e.right, operator)),
                       SplitFrom(rest, operator, [], 0));
    } else {
      NoHiddenOperator(e, operator);
      SplitSkips(e, [operator] + rest, operator, [], 0);
      assert [] + Tokens(e) == Tokens(e);
      SplitToken(operator, rest, operator, Tokens(e), 0);
      AllTokensSingle(e);
    }
  }

  lemma {:induction false} SplitOperands(e: Written, operator: string)
    requires Chains(e, operator)
    ensures SplitTopLevel(Tokens(e), operator) == AllTokens(Operands(e, operator))
  {
    if IsChain(e, operator) {
      ChainTokens(e, operator, []);
      SplitOperandsThen(e.left, operator, Tokens(e.right));
      SplitOperands(e.right, operator);
      AllTokensConcat(Operands(e.left, operator), Operands(e.right, operator));
    } else {
      NoHiddenOperator(e, operator);
      SplitSkips(e, [], operator, [], 0);
      assert Tokens(e) + [] == Tokens(e) && [] + Tokens(e) == Tokens(e);
      AllTokensSingle(e);
    }
  }

  // --- stripping -------------------------------------------------------------------------

  function Inside(e: Written): (core: Written)
    ensures !core.Paren? && Meaning(core) == Meaning(e) && (WellWritten(e) ==> WellWritten(core))
    ensures core == e || core < e
  {
    if e.Paren? then Inside(e.inner) else e
  }

  lemma WrapsToken(token: string, rest: seq<string>, depth: int)
    requires rest != []
    ensures WrapsFrom([token] + rest, depth) == (depth + Weight(token) != 0 && WrapsFrom(rest, depth + Weight(token)))
  {
    assert ([token] + rest)[1..] == rest;
  }

  /** Inside an open parenthesis a printed expression never closes it. */
  lemma {:induction false} WrapsOver(e: Written, rest: seq<string>, depth: int)
    requires WellWritten(e) && rest != [] && depth >= 1
    ensures WrapsFrom(Tokens(e) + rest, depth) == WrapsFrom(rest, depth)
    decreases e, 1
  {
    match e {
      case Licence(id) => WrapsToken(id, rest, depth);
      case With(id, exception) =>
        assert Tokens(e) + rest == [id] + (["WITH"] + ([exception] + rest));
        WrapsToken(id, ["WITH"] + ([exception] + rest), depth);
        WrapsToken("WITH", [exception] + rest, depth);
        WrapsToken(exception, rest, depth);
      case And(l, r) => WrapsOverBinary(e, l, "AND", r, rest, depth);
      case Or(l, r) => WrapsOverBinary(e, l, "OR", r, rest, depth);
      case Paren(inner) =>
        var tail := [")"] + rest;
        assert Tokens(e) + rest == ["("] + (Tokens(inner) + tail);
        WrapsToken("(", Tokens(inner) + tail, depth);
        WrapsOver(inner, tail, depth + 1);
        WrapsToken(")", rest, depth + 1);
    }
  }

  lemma WrapsOverBinary(e: Written, l: Written, op: string, r: Written, rest: seq<string>, depth: int)
    requires (e == And(l, r) && op == "AND") || (e == Or(l, r) && op == "OR")
    requires WellWritten(e) && rest != [] && depth >= 1
    ensures WrapsFrom(Tokens(e) + rest, depth) == WrapsFrom(rest, depth)
    decreases e, 0
  {
    var tail := [op] + (Tokens(r) + rest);
    assert Tokens(e) + rest == Tokens(l) + tail;
    WrapsOver(l, tail, depth);
    WrapsToken(op, Tokens(r) + rest, depth);
    WrapsOver(r, rest, depth);
  }

  /** A printed expression followed by anything is back at depth zero in between. */
  lemma {:induction false} DoesNotWrap(e: Written, rest: seq<string>)
    requires WellWritten(e) && rest != []
    ensures !WrapsFrom(Tokens(e) + rest, 0)
  {
    hide WrapsFrom;
    match e {
      case Licence(id) => WrapsToken(id, rest, 0);
      case With(id, exception) =>
        WithTokens(e, rest);
        WrapsToken(id, ["WITH"] + ([exception] + rest), 0);
      case And(l, r) =>
        ChainTokens(e, "AND", rest);
        DoesNotWrap(l, ["AND"] + (Tokens(r) + rest));
      case Or(l, r) =>
        ChainTokens(e, "OR", rest);
        DoesNotWrap(l, ["OR"] + (Tokens(r) + rest));
      case Paren(inner) =>
        ParenTokens(e, rest);
        WrapsToken("(", Tokens(inner) + ([")"] + rest), 0);
        WrapsOver(inner, [")"] + rest, 1);
        WrapsToken(")", rest, 1);
    }
  }

  lemma WithTokens(e: Written, rest: seq<string>)
    requires e.With?
    ensures Tokens(e) + rest == [e.id] + (["WITH"] + ([e.exception] + rest))
  {
  }

  lemma ParenTokens(e: Written, rest: seq<string>)
    requires e.Paren?
    ensures Tokens(e) + rest == ["("] + (Tokens(e.inner) + ([")"] + rest))
  {
  }

  lemma {:induction false} StripGivesCore(e: Written)
    requires WellWritten(e)
    ensures StripParentheses(Tokens(e)) == Tokens(Inside(e))
  {
    if e.Paren? {
      StripParen(e);
      StripGivesCore(e.inner);
    } else {
      NothingToStrip(e);
    }
  }

  /** One pair of parentheses comes off. */
  lemma StripParen(e: Written)
    requires WellWritten(e) && e.Paren?
    ensures StripParentheses(Tokens(e)) == StripParentheses(Tokens(e.inner))
  {
    hide WrapsFrom;
    var inner, tokens := Tokens(e.inner), Tokens(e);
    assert tokens == ["("] + (inner + [")"]);
    assert tokens[1..|tokens| - 1] == inner;
    WrapsToken("(", inner + [")"], 0);
    WrapsOver(e.inner, [")"], 1);
    LastTokenWraps(")", 1);
  }

  lemma LastTokenWraps(token: string, depth: int)
    ensures WrapsFrom([token], depth)
  {
  }

  lemma NothingToStrip(e: Written)
    requires WellWritten(e) && !e.Paren?
    ensures StripParentheses(Tokens(e)) == Tokens(e)
  {
    hide WrapsFrom;
    match e {
      case And(l, r) =>
        ChainTokens(e, "AND", []);
        DoesNotWrap(l, ["AND"] + Tokens(r));
      case Or(l, r) =>
        ChainTokens(e, "OR", []);
        DoesNotWrap(l, ["OR"] + Tokens(r));
      case Licence(_) =>
      case With(_, _) =>
    }
  }

  // --- the evaluator -----------------------------------------------------------------------

  lemma {:induction false} KeepsPrinted(a: seq<string>)
    requires forall i :: 0 <= i < |a| ==> a[i] != ""
    ensures NonEmptyTokens(a) == a
  {
    if a != [] { KeepsPrinted(a[1..]); }
  }

  lemma {:induction false} NothingEmptyPrinted(e: Written)
    requires WellWritten(e)
    ensures forall i :: 0 <= i < |Tokens(e)| ==> Tokens(e)[i] != ""
  {
    match e {
      case Licence(_) =>
      case With(_, _) =>
      case And(l, r) => NothingEmptyPrinted(l); NothingEmptyPrinted(r);
      case Or(l, r) => NothingEmptyPrinted(l); NothingEmptyPrinted(r);
      case Paren(inner) => NothingEmptyPrinted(inner);
    }
  }

  function Verdicts(es: seq<Written>, resolver: Resolver): (results: seq<Verdict>)
    ensures |results| == |es| && forall i :: 0 <= i < |es| ==> results[i] == EvaluateTokens(Tokens(es[i]), resolver)
  {
    seq(|es|, i requires 0 <= i < |es| => EvaluateTokens(Tokens(es[i]), resolver))
  }

  function Expected(e: Written, resolver: Resolver): Verdict {
    Verdict(Value(Meaning(e), resolver), Refusals(Meaning(e), resolver))
  }

  lemma {:induction false} RefusedFindingsConcat(a: seq<Verdict>, b: seq<Verdict>)
    ensures RefusedFindings(a + b) == RefusedFindings(a) + RefusedFindings(b)
  {
    if a == [] {
      assert a + b == b;
    } else {
      assert (a + b)[1..] == a[1..] + b;
      RefusedFindingsConcat(a[1..], b);
    }
  }

  lemma VerdictsConcat(a: seq<Written>, b: seq<Written>, resolver: Resolver)
    ensures Verdicts(a + b, resolver) == Verdicts(a, resolver) + Verdicts(b, resolver)
  {
  }

  lemma AnyAllowedConcat(x: seq<Verdict>, y: seq<Verdict>)
    ensures AnyAllowed(x + y) == (AnyAllowed(x) || AnyAllowed(y))
  {
    if AnyAllowed(x) { var i :| 0 <= i < |x| && x[i].allowed; assert (x + y)[i].allowed; }
    if AnyAllowed(y) { var i :| 0 <= i < |y| && y[i].allowed; assert (x + y)[|x| + i].allowed; }
  }

  /** Main result: the verdict on a printed expression is the expression's truth value, and
      the findings are exactly the refusals that explain it. */
  lemma {:induction false} EvaluateMeetsGrammar(e: Written, resolver: Resolver)
    requires WellWritten(e)
    ensures EvaluateTokens(Tokens(e), resolver) == Expected(e, resolver)
    decreases e, 2
  {
    hide EvaluateTokens, Core, Tokens, Refusals, Value, Verdicts, Operands;
    var core := Inside(e);
    PrintedCore(e);
    SplitOperands(core, "OR");
    if core.Or? {
      EvaluateChain(e, core, "OR", resolver);
    } else {
      SplitOperands(core, "AND");
      NoChain(core, "OR");
      if core.And? {
        EvaluateChain(e, core, "AND", resolver);
      } else {
        NoChain(core, "AND");
        LeafIdOfLeaf(core);
        EvaluateLeaf(Tokens(e), resolver);
        LeafExpected(e, core, resolver);
      }
    }
  }

  /** Blank tokens and outer parentheses aside, the evaluator sees the inside of the expression. */
  lemma PrintedCore(e: Written)
    requires WellWritten(e)
    ensures Core(Tokens(e)) == Tokens(Inside(e)) != []
  {
    NothingEmptyPrinted(e);
    KeepsPrinted(Tokens(e));
    StripGivesCore(e);
  }

  lemma NoChain(e: Written, operator: string)
    requires !IsChain(e, operator)
    ensures |AllTokens(Operands(e, operator))| == 1
  {
  }

  lemma LeafExpected(e: Written, core: Written, resolver: Resolver)
    requires (core.Licence? || core.With?) && Meaning(core) == Meaning(e)
    ensures Expected(e, resolver) ==
            if resolver(core.id) == "allowed" then Verdict(true, [])
              else Verdict(false, [Finding(core.id, resolver(core.id))])
  {
  }

  lemma ChainVerdicts(e: Written, operator: string, resolver: Resolver)
    ensures AreVerdicts(AllTokens(Operands(e, operator)), resolver, Verdicts(Operands(e, operator), resolver))
    ensures IsChain(e, operator) ==> |Operands(e, operator)| > 1
  {
    hide EvaluateTokens;
  }

  lemma EvaluateChain(e: Written, core: Written, operator: string, resolver: Resolver)
    requires WellWritten(e) && core == Inside(e) && Core(Tokens(e)) == Tokens(core)
    requires Chains(core, operator) && IsChain(core, operator) && (operator == "OR" || operator == "AND")
    requires SplitTopLevel(Tokens(core), operator) == AllTokens(Operands(core, operator))
    requires operator == "AND" ==> |SplitTopLevel(Tokens(core), "OR")| <= 1
    ensures EvaluateTokens(Tokens(e), resolver) == Expected(e, resolver)
    decreases e, 1
  {
    hide EvaluateTokens, Core, Tokens, Verdicts, Operands, SplitTopLevel, AllTokens, RefusedFindings, AnyAllowed,
         Inside;
    var parts, results := AllTokens(Operands(core, operator)), Verdicts(Operands(core, operator), resolver);
    ChainVerdicts(core, operator, resolver);
    OperandVerdicts(core.left, operator, resolver);
    OperandVerdicts(core.right, operator, resolver);
    CombineOperands(core, operator, resolver);
    if operator == "OR" {
      EvaluateOr(Tokens(e), resolver, parts, results);
    } else {
      EvaluateAnd(Tokens(e), resolver, parts, results);
    }
  }

  lemma LeafIdOfLeaf(e: Written)
    requires WellWritten(e) && (e.Licence? || e.With?)
    ensures LeafId(Tokens(e)) == e.id
  {
    var rest := if e.With? then ["WITH"] + [e.exception] else [];
    assert Tokens(e) == [e.id] + rest;
    SplitToken(e.id, rest, "WITH", [], 0);
    if e.With? { SplitToken("WITH", [e.exception], "WITH", [] + [e.id], 0); }
  }

  /** What a chain's operand verdicts say together. */
  ghost predicate OperandsAgree(e: Written, operator: string, resolver: Resolver) {
    var results := Verdicts(Operands(e, operator), resolver);
    && (operator == "OR" ==>
          AnyAllowed(results) == Value(Meaning(e), resolver)
          && (!AnyAllowed(results) ==> RefusedFindings(results) == Refusals(Meaning(e), resolver)))
    && (operator == "AND" ==> RefusedFindings(results) == Refusals(Meaning(e), resolver))
  }

  lemma CombineOperands(e: Written, operator: string, resolver: Resolver)
    requires Chains(e, operator) && IsChain(e, operator)
    requires OperandsAgree(e.left, operator, resolver) && OperandsAgree(e.right, operator, resolver)
    ensures OperandsAgree(e, operator, resolver)
  {
    hide Verdicts, AnyAllowed, RefusedFindings, Chains;
    var a, b := Operands(e.left, operator), Operands(e.right, operator);
    VerdictsConcat(a, b, resolver);
    AnyAllowedConcat(Verdicts(a, resolver), Verdicts(b, resolver));
    RefusedFindingsConcat(Verdicts(a, resolver), Verdicts(b, resolver));
  }

  lemma OperandVerdicts(e: Written, operator: string, resolver: Resolver)
    requires Chains(e, operator)
    ensures OperandsAgree(e, operator, resolver)
    decreases e, 3
  {
    if IsChain(e, operator) {
      OperandVerdicts(e.left, operator, resolver);
      OperandVerdicts(e.right, operator, resolver);
      CombineOperands(e, operator, resolver);
    } else {
      EvaluateMeetsGrammar(e, resolver);
      var results := Verdicts([e], resolver);
      assert results == [Expected(e, resolver)];
      assert RefusedFindings(results) == (if results[0].allowed then [] else results[0].findings) + RefusedFindings([]);
      if Value(Meaning(e), resolver) { assert results[0].allowed; }
    }
  }

  /** The tree printed with only the parentheses its precedence needs. */
  function Print(t: Tree): Written {
    match t
    case Leaf(id, None) => Licence(id)
    case Leaf(id, Some(exception)) => With(id, exception)
    case Both(l, r) => And(Guard(Print(l)), Guard(Print(r)))
    case Either(l, r) => Or(Print(l), Print(r))
  }

  function Guard(e: Written): Written {
    if e.Or? then Paren(e) else e
  }

  predicate PlainTree(t: Tree) {
    match t
    case Leaf(id, exception) => PlainToken(id) && (exception.Some? ==> PlainToken(exception.value))
    case Both(l, r) => PlainTree(l) && PlainTree(r)
    case Either(l, r) => PlainTree(l) && PlainTree(r)
  }

  /** Round trip: every tree can be printed, and printing then evaluating gives its value. */
  lemma {:induction false} PrintThenEvaluate(t: Tree, resolver: Resolver)
    requires PlainTree(t)
    ensures WellWritten(Print(t)) && Meaning(Print(t)) == t
    ensures EvaluateTokens(Tokens(Print(t)), resolver).allowed == Value(t, resolver)
  {
    match t {
      case Leaf(_, _) =>
      case Both(l, r) => PrintThenEvaluate(l, resolver); PrintThenEvaluate(r, resolver);
      case Either(l, r) => PrintThenEvaluate(l, resolver); PrintThenEvaluate(r, resolver);
    }
    EvaluateMeetsGrammar(Print(t), resolver);
  }
}
