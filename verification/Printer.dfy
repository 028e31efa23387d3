/** A printer that writes only the parentheses it needs, and the proof that the parser inverts it. */
module Printer {
  import opened Syntax
  import opened ParserSpec
  import opened Grammar
  import opened ParserSoundness

  /** The trees the parser can return: no reserved word as a name, at most eight arguments. */
  predicate WellFormed(e: Expr) {
    match e
    case Lit(_) => true
    case Name(name) => !IsReserved(name)
    case Member(target, _, _) => WellFormed(target)
    case Index(target, index, _) => WellFormed(target) && WellFormed(index)
    case Call(callee, args) => WellFormed(callee) && |args| <= MAX_ARGUMENTS && forall x <- args :: WellFormed(x)
    case Unary(_, argument) => WellFormed(argument)
    case Binary(_, left, right) => WellFormed(left) && WellFormed(right)
    case Ternary(test, consequent, alternate) => WellFormed(test) && WellFormed(consequent) && WellFormed(alternate)
    case Array(elements) => forall x <- elements :: WellFormed(x)
  }

  /** Parentheses only where the level is too loose. */
  function Wrap(c: Cst, level: nat): Cst {
    if Level(c) >= level then c else CParen(c)
  }

  /** The left operand of a binary operator; mixing `||` and `??` needs parentheses. */
  function WrapLeft(op: BinaryOp, c: Cst): Cst {
    if MixesNullish(op, c) then CParen(c) else Wrap(c, BinaryLevel(op))
  }

  function ToCst(e: Expr): Cst {
    match e
    case Lit(value) => CLit(value)
    case Name(name) => CName(name)
    case Member(target, property, optional) => CMember(Wrap(ToCst(target), 8), property, optional)
    case Index(target, index, optional) => CIndex(Wrap(ToCst(target), 8), ToCst(index), optional)
    case Call(callee, args) => CCall(Wrap(ToCst(callee), 8), ToCsts(args), false)
    case Unary(op, argument) => CUnary(op, Wrap(ToCst(argument), 7))
    case Binary(op, left, right) => CBinary(op, WrapLeft(op, ToCst(left)), Wrap(ToCst(right), BinaryLevel(op) + 1))
    case Ternary(test, consequent, alternate) => CTernary(Wrap(ToCst(test), 1), ToCst(consequent), ToCst(alternate))
    case Array(elements) => CArray(ToCsts(elements), false)
  }

  function ToCsts(es: seq<Expr>): seq<Cst> {
    if es == [] then [] else [ToCst(es[0])] + ToCsts(es[1..])
  }

  function Print(e: Expr): seq<Kind> {
    Yield(ToCst(e))
  }

  lemma {:induction false} PrintedTree(e: Expr)
    requires WellFormed(e)
    ensures Wf(ToCst(e)) && Ast(ToCst(e)) == e
  {
    match e
    case Lit(_) =>
    case Name(_) =>
    case Member(target, _, _) => PrintedTree(target);
    case Index(target, index, _) => PrintedTree(target); PrintedTree(index);
    case Call(callee, args) => PrintedCall(callee, args);
    case Unary(_, argument) => PrintedTree(argument);
    case Binary(op, left, right) => PrintedBinary(op, left, right);
    case Ternary(test, consequent, alternate) => PrintedTree(test); PrintedTree(consequent); PrintedTree(alternate);
    case Array(elements) => PrintedTrees(elements);
  }

  lemma {:induction false} PrintedCall(callee: Expr, args: seq<Expr>)
    requires WellFormed(Call(callee, args))
    ensures Wf(ToCst(Call(callee, args))) && Ast(ToCst(Call(callee, args))) == Call(callee, args)
    decreases Call(callee, args), 0
  {
    PrintedTree(callee);
    PrintedTrees(args);
  }

  lemma {:induction false} PrintedBinary(op: BinaryOp, left: Expr, right: Expr)
    requires WellFormed(Binary(op, left, right))
    ensures Wf(ToCst(Binary(op, left, right))) && Ast(ToCst(Binary(op, left, right))) == Binary(op, left, right)
    decreases Binary(op, left, right), 0
  {
    PrintedTree(left);
    PrintedTree(right);
    WrappedOperand(op, ToCst(left));
    WrappedRight(op, ToCst(right));
  }

  lemma WrappedOperand(op: BinaryOp, c: Cst)
    requires Wf(c)
    ensures var w := WrapLeft(op, c);
            Wf(w) && Ast(w) == Ast(c) && Level(w) >= BinaryLevel(op) && !MixesNullish(op, w)
  {
  }

  lemma WrappedRight(op: BinaryOp, c: Cst)
    requires Wf(c)
    ensures var w := Wrap(c, BinaryLevel(op) + 1); Wf(w) && Ast(w) == Ast(c) && Level(w) > BinaryLevel(op)
  {
  }

  lemma {:induction false} PrintedTrees(es: seq<Expr>)
    requires forall x <- es :: WellFormed(x)
    ensures |ToCsts(es)| == |es| && (forall x <- ToCsts(es) :: Wf(x)) && AstList(ToCsts(es)) == es
  {
    if es != [] {
      PrintedTree(es[0]);
      PrintedTrees(es[1..]);
      assert ToCsts(es)[1..] == ToCsts(es[1..]);
    }
  }

  /** Parsing the printed tokens, followed by the end marker, returns the tree. */
  lemma {:induction false} ParsePrinted(e: Expr)
    requires WellFormed(e)
    ensures Eof !in Print(e) && ParseProgram(Print(e) + [Eof]) == Ok(e, [])
  {
    PrintedTree(e);
    YieldHasNoEof(ToCst(e));
    ParserIsExact(Print(e), e);
  }

  /** Conversely, whatever the parser returns can be printed. */
  lemma {:induction false} ParsedIsWellFormed(c: Cst)
    requires Wf(c)
    ensures WellFormed(Ast(c))
  {
    match c
    case CParen(inner) => ParsedIsWellFormed(inner);
    case CArray(elements, _) => ParsedAreWellFormed(elements);
    case CMember(target, _, _) => ParsedIsWellFormed(target);
    case CIndex(target, index, _) => ParsedIsWellFormed(target); ParsedIsWellFormed(index);
    case CCall(callee, args, _) => ParsedIsWellFormed(callee); ParsedAreWellFormed(args);
    case CUnary(_, argument) => ParsedIsWellFormed(argument);
    case CBinary(_, left, right) => ParsedIsWellFormed(left); ParsedIsWellFormed(right);
    case CTernary(test, consequent, alternate) =>
      ParsedIsWellFormed(test); ParsedIsWellFormed(consequent); ParsedIsWellFormed(alternate);
    case _ =>
  }

  lemma {:induction false} ParsedAreWellFormed(cs: seq<Cst>)
    requires forall x <- cs :: Wf(x)
    ensures forall x <- AstList(cs) :: WellFormed(x)
  {
    if cs != [] {
      ParsedIsWellFormed(cs[0]);
      ParsedAreWellFormed(cs[1..]);
    }
  }

  /** A tree comes out of the parser for some tokens exactly when it is well formed. */
  lemma {:induction false} ParserRange(e: Expr)
    ensures WellFormed(e) <==> exists ks :: Eof !in ks && ParseProgram(ks + [Eof]) == Ok(e, [])
  {
    if WellFormed(e) {
      ParsePrinted(e);
    }
    if ks :| Eof !in ks && ParseProgram(ks + [Eof]) == Ok(e, []) {
      ParserIsExact(ks, e);
      var c :| Wf(c) && Ast(c) == e && Yield(c) == ks;
      ParsedIsWellFormed(c);
    }
  }

  /** How many tokens a tree spells. */
  function TokenCount(c: Cst): nat {
    match c
    case CLit(_) => 1
    case CName(_) => 1
    case CParen(inner) => TokenCount(inner) + 2
    case CArray(elements, trailing) => ListCount(elements, trailing) + 2
    case CMember(target, _, _) => TokenCount(target) + 2
    case CIndex(target, index, optional) => TokenCount(target) + TokenCount(index) + if optional then 3 else 2
    case CCall(callee, args, trailing) => TokenCount(callee) + ListCount(args, trailing) + 2
    case CUnary(_, argument) => TokenCount(argument) + 1
    case CBinary(_, left, right) => TokenCount(left) + TokenCount(right) + 1
    case CTernary(test, consequent, alternate) => TokenCount(test) + TokenCount(consequent) + TokenCount(alternate) + 2
  }

  function ListCount(cs: seq<Cst>, trailing: bool): nat {
    if cs == [] then 0 else TokenCount(cs[0]) + TailCount(cs[1..], trailing)
  }

  function TailCount(cs: seq<Cst>, trailing: bool): nat {
    if cs == [] then (if trailing then 1 else 0) else 1 + TokenCount(cs[0]) + TailCount(cs[1..], trailing)
  }

  lemma {:induction false} CountsTokens(c: Cst)
    ensures TokenCount(c) == |Yield(c)|
  {
    match c
    case CParen(inner) => CountsTokens(inner);
    case CArray(elements, trailing) => CountsItems(elements, trailing);
    case CMember(target, _, _) => CountsTokens(target);
    case CIndex(target, index, _) => CountsTokens(target); CountsTokens(index);
    case CCall(callee, args, trailing) => CountsTokens(callee); CountsItems(args, trailing);
    case CUnary(_, argument) => CountsTokens(argument);
    case CBinary(_, left, right) => CountsTokens(left); CountsTokens(right);
    case CTernary(test, consequent, alternate) => CountsTokens(test); CountsTokens(consequent); CountsTokens(alternate);
    case _ =>
  }

  lemma {:induction false} CountsItems(cs: seq<Cst>, trailing: bool)
    ensures ListCount(cs, trailing) == |YieldList(cs, trailing)|
    ensures TailCount(cs, trailing) == |YieldTail(cs, trailing)|
  {
    if cs != [] {
      CountsTokens(cs[0]);
      CountsItems(cs[1..], trailing);
    }
  }

  /** No spelling of a tree is shorter than the printed one: every parenthesis printed is needed. */
  lemma {:induction false} PrintIsShortest(c: Cst)
    requires Wf(c)
    ensures |Print(Ast(c))| <= |Yield(c)|
  {
    Shortest(c);
    CountsTokens(c);
    CountsTokens(ToCst(Ast(c)));
  }

  /** `printed` is no longer than `c`, and stands wherever `c` stands unless `c` is in parentheses. */
  predicate Replaces(printed: Cst, c: Cst) {
    && TokenCount(printed) + (if c.CParen? then 2 else 0) <= TokenCount(c)
    && (!c.CParen? ==> Level(printed) == Level(c))
    && (c.CBinary? ==> printed.CBinary? && printed.op == c.op)
  }

  predicate NotLonger(printed: Cst, c: Cst) {
    TokenCount(printed) <= TokenCount(c)
  }

  lemma {:induction false} Shortest(c: Cst)
    requires Wf(c)
    ensures Replaces(ToCst(Ast(c)), c)
    decreases c, 2
  {
    match c
    case CParen(inner) => Shortest(inner);
    case CArray(elements, trailing) => ShortestList(elements, trailing);
    case CMember(target, _, _) => ShortestAt(target, 8);
    case CIndex(target, index, optional) => ShortestIndex(target, index, optional);
    case CCall(callee, args, trailing) => ShortestCall(callee, args, trailing);
    case CUnary(_, argument) => ShortestAt(argument, 7);
    case CBinary(op, left, right) => ShortestBinary(op, left, right);
    case CTernary(test, consequent, alternate) => ShortestTernary(test, consequent, alternate);
    case _ =>
  }

  lemma {:induction false} ShortestIndex(target: Cst, index: Cst, optional: bool)
    requires Wf(CIndex(target, index, optional))
    ensures Replaces(ToCst(Index(Ast(target), Ast(index), optional)), CIndex(target, index, optional))
    decreases CIndex(target, index, optional), 1
  {
    ShortestAt(target, 8);
    Shortest(index);
  }

  lemma {:induction false} ShortestCall(callee: Cst, args: seq<Cst>, trailing: bool)
    requires Wf(CCall(callee, args, trailing))
    ensures Replaces(ToCst(Call(Ast(callee), AstList(args))), CCall(callee, args, trailing))
    decreases CCall(callee, args, trailing), 1
  {
    ShortestAt(callee, 8);
    ShortestList(args, trailing);
  }

  lemma {:induction false} ShortestBinary(op: BinaryOp, left: Cst, right: Cst)
    requires Wf(CBinary(op, left, right))
    ensures Replaces(ToCst(Binary(op, Ast(left), Ast(right))), CBinary(op, left, right))
    decreases CBinary(op, left, right), 1
  {
    ShortestLeft(op, left);
    ShortestAt(right, BinaryLevel(op) + 1);
  }

  lemma {:induction false} ShortestTernary(test: Cst, consequent: Cst, alternate: Cst)
    requires Wf(CTernary(test, consequent, alternate))
    ensures Replaces(ToCst(Ternary(Ast(test), Ast(consequent), Ast(alternate))), CTernary(test, consequent, alternate))
    decreases CTernary(test, consequent, alternate), 1
  {
    ShortestAt(test, 1);
    Shortest(consequent);
    Shortest(alternate);
  }

  lemma {:induction false} ShortestAt(c: Cst, level: nat)
    requires Wf(c) && level <= Level(c)
    ensures NotLonger(Wrap(ToCst(Ast(c)), level), c)
    decreases c, 3
  {
    Shortest(c);
  }

  lemma {:induction false} ShortestLeft(op: BinaryOp, left: Cst)
    requires Wf(left) && Level(left) >= BinaryLevel(op) && !MixesNullish(op, left)
    ensures NotLonger(WrapLeft(op, ToCst(Ast(left))), left)
    decreases left, 3
  {
    Shortest(left);
  }

  lemma {:induction false} ShortestList(cs: seq<Cst>, trailing: bool)
    requires forall x <- cs :: Wf(x)
    ensures ListCount(ToCsts(AstList(cs)), false) <= ListCount(cs, trailing)
    ensures TailCount(ToCsts(AstList(cs)), false) <= TailCount(cs, trailing)
  {
    if cs != [] {
      Shortest(cs[0]);
      ShortestList(cs[1..], trailing);
      assert ToCsts(AstList(cs)) == [ToCst(Ast(cs[0]))] + ToCsts(AstList(cs[1..]));
    }
  }
}
