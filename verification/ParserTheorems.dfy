/** The parser accepts exactly the declarative grammar. */
module ParserTheorems {
  import opened Results
  import opened Syntax
  import opened ParserSpec
  import opened Grammar

  /** The parser at one precedence level. */
  function ParseAt(level: nat, ks: seq<Kind>): Parse<Expr>
    requires level <= 9
  {
    if level == 0 then ParseTernary(ks)
    else if level == 1 then ParseNullish(ks)
    else if level <= 6 then ParseBinary(level, ks)
    else if level == 7 then ParseUnary(ks)
    else if level == 8 then ParsePostfix(ks)
    else ParsePrimary(ks)
  }

  /** What a level does with the tokens after its first operand. */
  function Continue(level: nat, left: Expr, seen: Option<BinaryOp>, ks: seq<Kind>): Parse<Expr> {
    if level == 1 then NullishLoop(left, seen, ks)
    else if 2 <= level <= 6 then BinaryLoop(level, left, ks)
    else if level == 8 then PostfixLoop(left, ks)
    else Ok(left, ks)
  }

  function Seen(c: Cst): Option<BinaryOp> {
    if c.CBinary? && BinaryLevel(c.op) == 1 then Some(c.op) else None
  }

  /** The level at which a token continues an expression to its left; -1 for none. */
  function Reach(k: Kind): int {
    if k == Question then 0
    else if BinaryOf(k).Some? then BinaryLevel(BinaryOf(k).value)
    else if StartsSuffix(k) then 8
    else -1
  }

  predicate Stops(level: nat, ks: seq<Kind>) {
    if level == 0 then Reach(Head(ks)) < 0 else Reach(Head(ks)) <= level
  }

  predicate BeginsExpression(k: Kind) {
    k.Number? || k.Str? || k.Ident? || k == LParen || k == LBracket || k == Bang || k == Plus || k == Minus
  }

  lemma {:induction false} YieldBegins(c: Cst)
    requires Wf(c)
    ensures Yield(c) != [] && BeginsExpression(Yield(c)[0])
    ensures Level(c) >= 8 ==> UnaryOf(Yield(c)[0]).None?
  {
    match c
    case CMember(target, _, _) => YieldBegins(target);
    case CIndex(target, _, _) => YieldBegins(target);
    case CCall(callee, _, _) => YieldBegins(callee);
    case CBinary(_, left, _) => YieldBegins(left);
    case CTernary(test, _, _) => YieldBegins(test);
    case _ =>
  }

  lemma OperatorFacts(op: BinaryOp)
    ensures BinaryOf(BinaryKind(op)) == Some(op) && Reach(BinaryKind(op)) == BinaryLevel(op)
    ensures IsBinary(BinaryLevel(op), BinaryKind(op))
  {
  }

  lemma UnaryFacts(op: UnaryOp)
    ensures UnaryOf(UnaryKind(op)) == Some(op)
  {
  }

  // One step of each loop, as equations.

  /** A level whose operand ends where the level cannot continue passes the operand on. */
  lemma Ascend(level: nat, ks: seq<Kind>, e: Expr, rest: seq<Kind>)
    requires level < 9
    requires ParseAt(level + 1, ks) == Ok(e, rest)
    requires level == 7 ==> UnaryOf(Head(ks)).None?
    requires level == 0 ==> Head(rest) != Question
    ensures ParseAt(level, ks) == Continue(level, e, None, rest)
  {
    if 2 <= level <= 6 {
      assert ParseOperand(level, ks) == Ok(e, rest);
    }
  }

  lemma ContinueStops(level: nat, e: Expr, seen: Option<BinaryOp>, rest: seq<Kind>)
    requires level <= 9 && Reach(Head(rest)) < level
    ensures Continue(level, e, seen, rest) == Ok(e, rest)
  {
  }

  lemma SuffixStep(node: Expr, ks: seq<Kind>, next: Expr, rest: seq<Kind>)
    requires StartsSuffix(Head(ks)) && ParseSuffix(node, ks) == Ok(next, rest)
    ensures PostfixLoop(node, ks) == PostfixLoop(next, rest)
  {
  }

  lemma MemberStep(node: Expr, property: string, optional: bool, rest: seq<Kind>)
    ensures PostfixLoop(node, [if optional then QDot else Dot, Ident(property)] + rest)
            == PostfixLoop(Member(node, property, optional), rest)
  {
    var ks := [if optional then QDot else Dot, Ident(property)] + rest;
    assert ks[2..] == rest;
    SuffixStep(node, ks, Member(node, property, optional), rest);
  }

  lemma IndexStep(node: Expr, optional: bool, ks: seq<Kind>, index: Expr, rest: seq<Kind>)
    requires ParseEnclosed(RBracket, ks) == Ok(index, rest)
    ensures PostfixLoop(node, IndexOpening(optional) + ks) == PostfixLoop(Index(node, index, optional), rest)
  {
    assert (IndexOpening(optional) + ks)[|IndexOpening(optional)|..] == ks;
    SuffixStep(node, IndexOpening(optional) + ks, Index(node, index, optional), rest);
  }

  lemma CallStep(node: Expr, ks: seq<Kind>, args: seq<Expr>, rest: seq<Kind>)
    requires ParseList(RParen, ks) == Ok(args, [RParen] + rest) && |args| <= MAX_ARGUMENTS
    ensures PostfixLoop(node, [LParen] + ks) == PostfixLoop(Call(node, args), rest)
  {
    assert ([LParen] + ks)[1..] == ks;
    assert ([RParen] + rest)[1..] == rest;
    SuffixStep(node, [LParen] + ks, Call(node, args), rest);
  }

  lemma UnaryStep(op: UnaryOp, ks: seq<Kind>, argument: Expr, rest: seq<Kind>)
    requires ParseUnary(ks) == Ok(argument, rest)
    ensures ParseUnary([UnaryKind(op)] + ks) == Ok(Unary(op, argument), rest)
  {
    UnaryFacts(op);
    assert ([UnaryKind(op)] + ks)[1..] == ks;
  }

  lemma OperatorStep(op: BinaryOp, left: Expr, seen: Option<BinaryOp>, ks: seq<Kind>, right: Expr, rest: seq<Kind>)
    requires seen.Some? ==> seen.value == op
    requires ParseAt(BinaryLevel(op) + 1, ks) == Ok(right, rest)
    ensures Continue(BinaryLevel(op), left, seen, [BinaryKind(op)] + ks)
            == Continue(BinaryLevel(op), Binary(op, left, right), if BinaryLevel(op) == 1 then Some(op) else None, rest)
  {
    OperatorFacts(op);
    assert ([BinaryKind(op)] + ks)[1..] == ks;
    if 2 <= BinaryLevel(op) {
      assert ParseOperand(BinaryLevel(op), ks) == Ok(right, rest);
    }
  }

  lemma TernaryStep(ks: seq<Kind>, test: Expr, second: seq<Kind>, consequent: Expr, third: seq<Kind>, alternate: Expr,
                    rest: seq<Kind>)
    requires ParseNullish(ks) == Ok(test, [Question] + second)
    requires ParseTernary(second) == Ok(consequent, [Colon] + third)
    requires ParseTernary(third) == Ok(alternate, rest)
    ensures ParseTernary(ks) == Ok(Ternary(test, consequent, alternate), rest)
  {
    assert ([Question] + second)[1..] == second;
    assert ([Colon] + third)[1..] == third;
  }

  lemma ListStart(close: Kind, ks: seq<Kind>, first: Expr, rest: seq<Kind>)
    requires Head(ks) != close && ParseTernary(ks) == Ok(first, rest)
    ensures ParseList(close, ks) == ListLoop(close, [first], rest)
  {
  }

  lemma ListStep(close: Kind, items: seq<Expr>, ks: seq<Kind>, next: Expr, rest: seq<Kind>)
    requires Head(ks) != close && ParseTernary(ks) == Ok(next, rest)
    ensures ListLoop(close, items, [Comma] + ks) == ListLoop(close, items + [next], rest)
  {
    assert ([Comma] + ks)[1..] == ks;
  }

  // The token sequences above, read off the grammar.

  lemma EnclosedShape(inner: Cst, rest: seq<Kind>)
    ensures Yield(CParen(inner)) + rest == [LParen] + (Yield(inner) + ([RParen] + rest))
  {
  }

  lemma ArrayShape(elements: seq<Cst>, trailing: bool, rest: seq<Kind>)
    ensures Yield(CArray(elements, trailing)) + rest
            == [LBracket] + (YieldList(elements, trailing) + ([RBracket] + rest))
  {
  }

  lemma MemberShape(target: Cst, property: string, optional: bool, rest: seq<Kind>)
    ensures Yield(CMember(target, property, optional)) + rest
            == Yield(target) + ([if optional then QDot else Dot, Ident(property)] + rest)
  {
  }

  lemma IndexShape(target: Cst, index: Cst, optional: bool, rest: seq<Kind>)
    ensures Yield(CIndex(target, index, optional)) + rest
            == Yield(target) + (IndexOpening(optional) + (Yield(index) + ([RBracket] + rest)))
  {
  }

  lemma CallShape(callee: Cst, args: seq<Cst>, trailing: bool, rest: seq<Kind>)
    ensures Yield(CCall(callee, args, trailing)) + rest
            == Yield(callee) + ([LParen] + (YieldList(args, trailing) + ([RParen] + rest)))
  {
  }

  lemma UnaryShape(op: UnaryOp, argument: Cst, rest: seq<Kind>)
    ensures Yield(CUnary(op, argument)) + rest == [UnaryKind(op)] + (Yield(argument) + rest)
  {
  }

  lemma BinaryShape(op: BinaryOp, left: Cst, right: Cst, rest: seq<Kind>)
    ensures Yield(CBinary(op, left, right)) + rest == Yield(left) + ([BinaryKind(op)] + (Yield(right) + rest))
  {
  }

  lemma TernaryShape(test: Cst, consequent: Cst, alternate: Cst, rest: seq<Kind>)
    ensures Yield(CTernary(test, consequent, alternate)) + rest
            == Yield(test) + ([Question] + (Yield(consequent) + ([Colon] + (Yield(alternate) + rest))))
  {
  }

  lemma TailShape(c: Cst, cs: seq<Cst>, trailing: bool, rest: seq<Kind>)
    ensures YieldTail([c] + cs, trailing) + rest == [Comma] + (Yield(c) + (YieldTail(cs, trailing) + rest))
    ensures YieldList([c] + cs, trailing) + rest == Yield(c) + (YieldTail(cs, trailing) + rest)
    ensures AstList([c] + cs) == [Ast(c)] + AstList(cs)
  {
    assert ([c] + cs)[0] == c && ([c] + cs)[1..] == cs;
    assert YieldList([c] + cs, trailing) == Yield(c) + YieldTail(cs, trailing);
    assert YieldTail([c] + cs, trailing) == [Comma] + Yield(c) + YieldTail(cs, trailing);
  }

  lemma AppendAst(items: seq<Expr>, c: Cst, cs: seq<Cst>)
    ensures items + [Ast(c)] + AstList(cs) == items + AstList([c] + cs)
  {
    assert ([c] + cs)[1..] == cs;
  }

  /** Completeness, in a form that survives left recursion: parsing a spelling hands the expression and the rest to the
      loop of that level. */
  lemma {:induction false} Complete(c: Cst, level: nat, rest: seq<Kind>)
    requires Wf(c) && level <= Level(c) && Stops(level, rest)
    ensures ParseAt(level, Yield(c) + rest) == Continue(level, Ast(c), Seen(c), rest)
    decreases c, 12 - level
  {
    if level < Level(c) {
      Complete(c, level + 1, rest);
      ContinueStops(level + 1, Ast(c), Seen(c), rest);
      YieldBegins(c);
      Ascend(level, Yield(c) + rest, Ast(c), rest);
    } else {
      CompleteNode(c, rest);
    }
  }

  lemma {:induction false} CompleteNode(c: Cst, rest: seq<Kind>)
    requires Wf(c) && Stops(Level(c), rest)
    ensures ParseAt(Level(c), Yield(c) + rest) == Continue(Level(c), Ast(c), Seen(c), rest)
    decreases c, 1
  {
    match c
    case CLit(_) =>
    case CName(_) =>
    case CParen(inner) => CompleteParen(inner, rest);
    case CArray(elements, trailing) => CompleteArray(elements, trailing, rest);
    case CMember(target, property, optional) => CompleteMember(target, property, optional, rest);
    case CIndex(target, index, optional) => CompleteIndex(target, index, optional, rest);
    case CCall(callee, args, trailing) => CompleteCall(callee, args, trailing, rest);
    case CUnary(op, argument) => CompleteUnary(op, argument, rest);
    case CBinary(op, left, right) => CompleteBinary(op, left, right, rest);
    case CTernary(test, consequent, alternate) => CompleteTernary(test, consequent, alternate, rest);
  }

  lemma {:induction false} CompleteEnclosed(close: Kind, c: Cst, rest: seq<Kind>)
    requires Wf(c) && (close == RParen || close == RBracket)
    ensures ParseEnclosed(close, Yield(c) + ([close] + rest)) == Ok(Ast(c), rest)
    decreases c, 13
  {
    Complete(c, 0, [close] + rest);
  }

  lemma {:induction false} CompleteParen(inner: Cst, rest: seq<Kind>)
    requires Wf(inner)
    ensures ParsePrimary(Yield(CParen(inner)) + rest) == Ok(Ast(inner), rest)
    decreases CParen(inner), 0
  {
    EnclosedShape(inner, rest);
    CompleteEnclosed(RParen, inner, rest);
  }

  lemma {:induction false} CompleteArray(elements: seq<Cst>, trailing: bool, rest: seq<Kind>)
    requires Wf(CArray(elements, trailing))
    ensures ParsePrimary(Yield(CArray(elements, trailing)) + rest) == Ok(Array(AstList(elements)), rest)
    decreases CArray(elements, trailing), 0
  {
    ArrayShape(elements, trailing, rest);
    CompleteList(RBracket, elements, trailing, rest);
  }

  lemma {:induction false} CompleteMember(target: Cst, property: string, optional: bool, rest: seq<Kind>)
    requires Wf(CMember(target, property, optional))
    ensures ParsePostfix(Yield(CMember(target, property, optional)) + rest)
            == PostfixLoop(Member(Ast(target), property, optional), rest)
    decreases CMember(target, property, optional), 0
  {
    MemberShape(target, property, optional, rest);
    Complete(target, 8, [if optional then QDot else Dot, Ident(property)] + rest);
    MemberStep(Ast(target), property, optional, rest);
  }

  lemma {:induction false} CompleteIndex(target: Cst, index: Cst, optional: bool, rest: seq<Kind>)
    requires Wf(CIndex(target, index, optional))
    ensures ParsePostfix(Yield(CIndex(target, index, optional)) + rest)
            == PostfixLoop(Index(Ast(target), Ast(index), optional), rest)
    decreases CIndex(target, index, optional), 0
  {
    var inside := Yield(index) + ([RBracket] + rest);
    IndexShape(target, index, optional, rest);
    Complete(target, 8, IndexOpening(optional) + inside);
    CompleteEnclosed(RBracket, index, rest);
    IndexStep(Ast(target), optional, inside, Ast(index), rest);
  }

  lemma {:induction false} CompleteCall(callee: Cst, args: seq<Cst>, trailing: bool, rest: seq<Kind>)
    requires Wf(CCall(callee, args, trailing))
    ensures ParsePostfix(Yield(CCall(callee, args, trailing)) + rest)
            == PostfixLoop(Call(Ast(callee), AstList(args)), rest)
    decreases CCall(callee, args, trailing), 0
  {
    var inside := YieldList(args, trailing) + ([RParen] + rest);
    CallShape(callee, args, trailing, rest);
    Complete(callee, 8, [LParen] + inside);
    CompleteList(RParen, args, trailing, rest);
    CallStep(Ast(callee), inside, AstList(args), rest);
  }

  lemma {:induction false} CompleteUnary(op: UnaryOp, argument: Cst, rest: seq<Kind>)
    requires Wf(CUnary(op, argument)) && Stops(7, rest)
    ensures ParseUnary(Yield(CUnary(op, argument)) + rest) == Ok(Unary(op, Ast(argument)), rest)
    decreases CUnary(op, argument), 0
  {
    Complete(argument, 7, rest);
    UnaryStep(op, Yield(argument) + rest, Ast(argument), rest);
    UnaryShape(op, argument, rest);
  }

  lemma {:induction false} CompleteBinary(op: BinaryOp, left: Cst, right: Cst, rest: seq<Kind>)
    requires Wf(CBinary(op, left, right)) && Stops(BinaryLevel(op), rest)
    ensures ParseAt(BinaryLevel(op), Yield(CBinary(op, left, right)) + rest)
            == Continue(BinaryLevel(op), Binary(op, Ast(left), Ast(right)), Seen(CBinary(op, left, right)), rest)
    decreases CBinary(op, left, right), 0
  {
    var inside := Yield(right) + rest;
    BinaryShape(op, left, right, rest);
    OperatorFacts(op);
    Complete(left, BinaryLevel(op), [BinaryKind(op)] + inside);
    Complete(right, BinaryLevel(op) + 1, rest);
    ContinueStops(BinaryLevel(op) + 1, Ast(right), Seen(right), rest);
    OperatorStep(op, Ast(left), Seen(left), inside, Ast(right), rest);
  }

  lemma {:induction false} CompleteTernary(test: Cst, consequent: Cst, alternate: Cst, rest: seq<Kind>)
    requires Wf(CTernary(test, consequent, alternate)) && Stops(0, rest)
    ensures ParseTernary(Yield(CTernary(test, consequent, alternate)) + rest)
            == Ok(Ternary(Ast(test), Ast(consequent), Ast(alternate)), rest)
    decreases CTernary(test, consequent, alternate), 0
  {
    var third := Yield(alternate) + rest;
    var second := Yield(consequent) + ([Colon] + third);
    TernaryShape(test, consequent, alternate, rest);
    Complete(test, 1, [Question] + second);
    ContinueStops(1, Ast(test), Seen(test), [Question] + second);
    Complete(consequent, 0, [Colon] + third);
    Complete(alternate, 0, rest);
    TernaryStep(Yield(test) + ([Question] + second), Ast(test), second, Ast(consequent), third, Ast(alternate), rest);
  }

  lemma {:induction false} CompleteList(close: Kind, cs: seq<Cst>, trailing: bool, rest: seq<Kind>)
    requires forall x <- cs :: Wf(x)
    requires (close == RParen || close == RBracket) && (trailing ==> cs != [])
    ensures ParseList(close, YieldList(cs, trailing) + ([close] + rest)) == Ok(AstList(cs), [close] + rest)
    decreases cs, 1
  {
    var after := [close] + rest;
    if cs == [] {
      assert YieldList(cs, trailing) + after == after;
    } else {
      var c, others := cs[0], cs[1..];
      assert cs == [c] + others;
      var tail := YieldTail(others, trailing) + after;
      TailShape(c, others, trailing, after);
      YieldBegins(c);
      Complete(c, 0, tail);
      ListStart(close, Yield(c) + tail, Ast(c), tail);
      CompleteTail(close, [Ast(c)], others, trailing, rest);
    }
  }

  lemma {:induction false} CompleteTail(close: Kind, items: seq<Expr>, cs: seq<Cst>, trailing: bool, rest: seq<Kind>)
    requires forall x <- cs :: Wf(x)
    requires close == RParen || close == RBracket
    ensures ListLoop(close, items, YieldTail(cs, trailing) + ([close] + rest))
            == Ok(items + AstList(cs), [close] + rest)
    decreases cs, 0
  {
    var after := [close] + rest;
    if cs == [] {
      TailEnd(close, items, trailing, after);
    } else {
      var c, others := cs[0], cs[1..];
      assert cs == [c] + others;
      var tail := YieldTail(others, trailing) + after;
      TailShape(c, others, trailing, after);
      YieldBegins(c);
      Complete(c, 0, tail);
      ListStep(close, items, Yield(c) + tail, Ast(c), tail);
      CompleteTail(close, items + [Ast(c)], others, trailing, rest);
      AppendAst(items, c, others);
    }
  }

  lemma TailEnd(close: Kind, items: seq<Expr>, trailing: bool, after: seq<Kind>)
    requires (close == RParen || close == RBracket) && Head(after) == close
    ensures ListLoop(close, items, YieldTail([], trailing) + after) == Ok(items + AstList([]), after)
  {
    assert YieldTail([], trailing) + after == (if trailing then [Comma] + after else after);
    assert items + AstList([]) == items;
    assert ([Comma] + after)[1..] == after;
  }
}
