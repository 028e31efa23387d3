/** The per-item rewrite of a source keeps its meaning. */
module ItemTheorem {
  import opened Results
  import opened Syntax
  import opened ParserSpec
  import opened Grammar
  import opened ParserTheorems
  import opened ParserSoundness
  import opened Values
  import opened Evaluator
  import opened EvaluatorTheorems
  import opened ItemRewrite
  import opened ItemReferences
  import opened ItemMeaning
  import opened ItemSource

  // No expression has a name or a number directly behind a closing bracket

  predicate Gap(rest: seq<Kind>) {
    Separated(rest) && (rest != [] ==> !rest[0].Ident? && !rest[0].Number?)
  }

  lemma SeparatedMore(k: Kind, rest: seq<Kind>)
    requires Separated(rest) && (k == RBracket ==> Gap(rest))
    ensures Separated([k] + rest)
  {
    var ks := [k] + rest;
    forall j | 0 <= j < |ks| - 1 && ks[j] == RBracket ensures !ks[j + 1].Ident? && !ks[j + 1].Number? {
      assert ks[j + 1] == rest[j];
      if j > 0 {
        assert ks[j] == rest[j - 1];
      }
    }
  }

  /** The same for a token that may stand behind a bracket. */
  lemma GapMore(k: Kind, rest: seq<Kind>)
    requires Separated(rest) && k != RBracket && !k.Ident? && !k.Number?
    ensures Gap([k] + rest)
  {
    SeparatedMore(k, rest);
  }

  lemma {:induction false} YieldIsSeparated(c: Cst, rest: seq<Kind>)
    requires Gap(rest)
    ensures Separated(Yield(c) + rest)
    decreases c, 1
  {
    match c
    case CLit(value) => SeparatedMore(LiteralKind(value), rest);
    case CName(name) => SeparatedMore(Ident(name), rest);
    case CParen(inner) =>
      EnclosedShape(inner, rest);
      GapMore(RParen, rest);
      YieldIsSeparated(inner, [RParen] + rest);
      SeparatedMore(LParen, Yield(inner) + ([RParen] + rest));
    case CArray(elements, trailing) =>
      ArrayShape(elements, trailing, rest);
      ListIsSeparated(elements, trailing, RBracket, rest);
      SeparatedMore(LBracket, YieldList(elements, trailing) + ([RBracket] + rest));
    case CMember(target, property, optional) => MemberIsSeparated(target, property, optional, rest);
    case CIndex(target, index, optional) => IndexIsSeparated(target, index, optional, rest);
    case CCall(callee, args, trailing) =>
      var inside := YieldList(args, trailing) + ([RParen] + rest);
      CallShape(callee, args, trailing, rest);
      ListIsSeparated(args, trailing, RParen, rest);
      GapMore(LParen, inside);
      YieldIsSeparated(callee, [LParen] + inside);
    case CUnary(op, argument) =>
      UnaryShape(op, argument, rest);
      YieldIsSeparated(argument, rest);
      SeparatedMore(UnaryKind(op), Yield(argument) + rest);
    case CBinary(op, left, right) =>
      BinaryShape(op, left, right, rest);
      YieldIsSeparated(right, rest);
      GapMore(BinaryKind(op), Yield(right) + rest);
      YieldIsSeparated(left, [BinaryKind(op)] + (Yield(right) + rest));
    case CTernary(test, consequent, alternate) => TernaryIsSeparated(test, consequent, alternate, rest);
  }

  lemma {:induction false} MemberIsSeparated(target: Cst, property: string, optional: bool, rest: seq<Kind>)
    requires Gap(rest)
    ensures Separated(Yield(CMember(target, property, optional)) + rest)
    decreases CMember(target, property, optional), 0
  {
    var dot := if optional then QDot else Dot;
    MemberShape(target, property, optional, rest);
    SeparatedMore(Ident(property), rest);
    GapMore(dot, [Ident(property)] + rest);
    assert [dot, Ident(property)] + rest == [dot] + ([Ident(property)] + rest);
    YieldIsSeparated(target, [dot, Ident(property)] + rest);
  }

  lemma {:induction false} IndexIsSeparated(target: Cst, index: Cst, optional: bool, rest: seq<Kind>)
    requires Gap(rest)
    ensures Separated(Yield(CIndex(target, index, optional)) + rest)
    decreases CIndex(target, index, optional), 0
  {
    var inside := Yield(index) + ([RBracket] + rest);
    IndexShape(target, index, optional, rest);
    SeparatedMore(RBracket, rest);
    YieldIsSeparated(index, [RBracket] + rest);
    GapMore(LBracket, inside);
    GapMore(QDot, [LBracket] + inside);
    assert IndexOpening(optional) + inside == if optional then [QDot] + ([LBracket] + inside) else [LBracket] + inside;
    YieldIsSeparated(target, IndexOpening(optional) + inside);
  }

  lemma {:induction false} TernaryIsSeparated(test: Cst, consequent: Cst, alternate: Cst, rest: seq<Kind>)
    requires Gap(rest)
    ensures Separated(Yield(CTernary(test, consequent, alternate)) + rest)
    decreases CTernary(test, consequent, alternate), 0
  {
    var third := Yield(alternate) + rest;
    var second := Yield(consequent) + ([Colon] + third);
    TernaryShape(test, consequent, alternate, rest);
    YieldIsSeparated(alternate, rest);
    GapMore(Colon, third);
    YieldIsSeparated(consequent, [Colon] + third);
    GapMore(Question, second);
    YieldIsSeparated(test, [Question] + second);
  }

  lemma {:induction false} ListIsSeparated(cs: seq<Cst>, trailing: bool, close: Kind, rest: seq<Kind>)
    requires Gap(rest) && (close == RParen || close == RBracket)
    ensures Separated(YieldList(cs, trailing) + ([close] + rest))
    decreases cs, 1
  {
    SeparatedMore(close, rest);
    if cs == [] {
      assert YieldList(cs, trailing) + ([close] + rest) == [close] + rest;
    } else {
      assert cs == [cs[0]] + cs[1..];
      TailShape(cs[0], cs[1..], trailing, [close] + rest);
      TailIsSeparated(cs[1..], trailing, [close] + rest);
      YieldIsSeparated(cs[0], YieldTail(cs[1..], trailing) + ([close] + rest));
    }
  }

  lemma {:induction false} TailIsSeparated(cs: seq<Cst>, trailing: bool, rest: seq<Kind>)
    requires Gap(rest)
    ensures Gap(YieldTail(cs, trailing) + rest)
    decreases cs, 0
  {
    if cs == [] {
      GapMore(Comma, rest);
      assert [] + rest == rest;
    } else {
      assert cs == [cs[0]] + cs[1..];
      TailShape(cs[0], cs[1..], trailing, rest);
      TailIsSeparated(cs[1..], trailing, rest);
      YieldIsSeparated(cs[0], YieldTail(cs[1..], trailing) + rest);
      GapMore(Comma, Yield(cs[0]) + (YieldTail(cs[1..], trailing) + rest));
    }
  }

  // Tokens

  /** Rewriting the tokens of an expression whose every `$json` is a reference: on item `i` it evaluates as the
      expression reindexed to `i` does on the whole payload. */
  lemma {:induction false} TokenRewriteKeepsMeaning(host: Host, ks: seq<Kind>, e: Expr, i: nat, item: Env, whole: Env)
    requires Eof !in ks && ParseProgram(ks + [Eof]) == Ok(e, []) && OnlyReferences(ks)
    requires WritesIndex(host, i) && ItemOf(item, whole, i) && Agree(FreeNames(e), item, whole)
    ensures var onItem := ParseProgram(RewriteKinds(ks, Element) + [Eof]);
            var onWhole := ParseProgram(RewriteKinds(ks, At(i)) + [Eof]);
            onItem.Ok? && onWhole.Ok? && SameOnItem(host, item, whole, onItem.value, onWhole.value)
  {
    ParserIsExact(ks, e);
    var c :| Wf(c) && Ast(c) == e && Yield(c) == ks;
    NothingLoose(c);
    RewriteCommutesWithParsing(c, Element);
    RewriteCommutesWithParsing(c, At(i));
    TreeOnItem(host, c, i, item, whole);
  }

  /** What the bounded evaluator makes of it: the same value or error, unless the whole payload hits the depth limit. */
  lemma {:induction false} SameWithinDepth(host: Host, item: Env, whole: Env, onItem: Expr, onWhole: Expr)
    requires SameOnItem(host, item, whole, onItem, onWhole) && EvalNode(host, whole, onWhole, 0) != Failure(TooDeep)
    ensures EvalNode(host, item, onItem, 0) == EvalNode(host, whole, onWhole, 0)
  {
    BoundedEvaluation(host, item, onItem, 0);
    BoundedEvaluation(host, whole, onWhole, 0);
  }
}
