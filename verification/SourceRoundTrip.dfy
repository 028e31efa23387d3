/** From a syntax tree to source text and back. */
module SourceRoundTrip {
  import opened Results
  import opened Syntax
  import opened Grammar
  import opened Printer
  import opened Tokenizer
  import opened LexerTheorems
  import opened Frontend

  /** Every name and number of the tree is one the lexer can read. */
  predicate Spellable(e: Expr) {
    match e
    case Lit(value) => value.NumberLit? ==> IsNumber(value.lexeme)
    case Name(name) => IsName(name)
    case Member(target, property, _) => IsName(property) && Spellable(target)
    case Index(target, index, _) => Spellable(target) && Spellable(index)
    case Call(callee, args) => Spellable(callee) && forall x <- args :: Spellable(x)
    case Unary(_, argument) => Spellable(argument)
    case Binary(_, left, right) => Spellable(left) && Spellable(right)
    case Ternary(test, consequent, alternate) => Spellable(test) && Spellable(consequent) && Spellable(alternate)
    case Array(elements) => forall x <- elements :: Spellable(x)
  }

  predicate AllLegal(ks: seq<Kind>) {
    forall k <- ks :: Legal(k)
  }

  lemma KeywordsAreNames()
    ensures IsName("true") && IsName("false") && IsName("null") && IsName("undefined") && IsName("typeof")
  {
  }

  lemma Together(a: seq<Kind>, b: seq<Kind>)
    requires AllLegal(a) && AllLegal(b)
    ensures AllLegal(a + b)
  {
  }

  lemma WrapIsLegal(c: Cst, level: nat)
    requires AllLegal(Yield(c))
    ensures AllLegal(Yield(Wrap(c, level))) && AllLegal(Yield(CParen(c)))
  {
    Together([LParen], Yield(c));
    Together([LParen] + Yield(c), [RParen]);
  }

  lemma {:induction false} PrintedIsLegal(e: Expr)
    requires Spellable(e)
    ensures AllLegal(Print(e))
  {
    KeywordsAreNames();
    match e
    case Lit(_) =>
    case Name(_) =>
    case Member(target, property, optional) =>
      PrintedIsLegal(target); WrapIsLegal(ToCst(target), 8);
      Together(Yield(Wrap(ToCst(target), 8)), [if optional then QDot else Dot, Ident(property)]);
    case Index(target, index, optional) =>
      PrintedIsLegal(target); WrapIsLegal(ToCst(target), 8); PrintedIsLegal(index);
      var front := Yield(Wrap(ToCst(target), 8)) + IndexOpening(optional);
      Together(Yield(Wrap(ToCst(target), 8)), IndexOpening(optional));
      Together(front, Print(index));
      Together(front + Print(index), [RBracket]);
    case Call(callee, args) =>
      PrintedIsLegal(callee); WrapIsLegal(ToCst(callee), 8); PrintedListIsLegal(args);
      var front := Yield(Wrap(ToCst(callee), 8)) + [LParen];
      Together(Yield(Wrap(ToCst(callee), 8)), [LParen]);
      Together(front, YieldList(ToCsts(args), false));
      Together(front + YieldList(ToCsts(args), false), [RParen]);
    case Unary(op, argument) =>
      PrintedIsLegal(argument); WrapIsLegal(ToCst(argument), 7);
      Together([UnaryKind(op)], Yield(Wrap(ToCst(argument), 7)));
    case Binary(op, left, right) => PrintedBinaryIsLegal(op, left, right);
    case Ternary(test, consequent, alternate) => PrintedTernaryIsLegal(test, consequent, alternate);
    case Array(elements) =>
      PrintedListIsLegal(elements);
      Together([LBracket], YieldList(ToCsts(elements), false));
      Together([LBracket] + YieldList(ToCsts(elements), false), [RBracket]);
  }

  lemma {:induction false} PrintedBinaryIsLegal(op: BinaryOp, left: Expr, right: Expr)
    requires Spellable(Binary(op, left, right))
    ensures AllLegal(Print(Binary(op, left, right)))
    decreases Binary(op, left, right), 0
  {
    PrintedIsLegal(left); WrapIsLegal(ToCst(left), BinaryLevel(op));
    PrintedIsLegal(right); WrapIsLegal(ToCst(right), BinaryLevel(op) + 1);
    var l, r := Yield(WrapLeft(op, ToCst(left))), Yield(Wrap(ToCst(right), BinaryLevel(op) + 1));
    Together(l, [BinaryKind(op)]);
    Together(l + [BinaryKind(op)], r);
  }

  lemma {:induction false} PrintedTernaryIsLegal(test: Expr, consequent: Expr, alternate: Expr)
    requires Spellable(Ternary(test, consequent, alternate))
    ensures AllLegal(Print(Ternary(test, consequent, alternate)))
    decreases Ternary(test, consequent, alternate), 0
  {
    PrintedIsLegal(test); WrapIsLegal(ToCst(test), 1);
    PrintedIsLegal(consequent);
    PrintedIsLegal(alternate);
    var t := Yield(Wrap(ToCst(test), 1)) + [Question];
    Together(Yield(Wrap(ToCst(test), 1)), [Question]);
    Together(t, Print(consequent));
    Together(t + Print(consequent), [Colon]);
    Together(t + Print(consequent) + [Colon], Print(alternate));
  }

  lemma {:induction false} PrintedListIsLegal(es: seq<Expr>)
    requires forall x <- es :: Spellable(x)
    ensures AllLegal(YieldList(ToCsts(es), false)) && AllLegal(YieldTail(ToCsts(es), false))
  {
    if es != [] {
      PrintedIsLegal(es[0]);
      PrintedListIsLegal(es[1..]);
    }
  }

  /** Printing a tree as text and parsing that text returns the tree, within the lexer's two limits. */
  lemma {:induction false} ParseRendered(q: char, e: Expr)
    requires IsQuote(q) && WellFormed(e) && Spellable(e)
    requires |Render(q, Print(e))| <= MAX_SOURCE_LENGTH && |Print(e)| < MAX_TOKENS
    ensures ParseSource(Render(q, Print(e))) == Success(e)
  {
    PrintedIsLegal(e);
    LexerRoundTrip(q, Print(e));
    ParsePrinted(e);
  }
}
