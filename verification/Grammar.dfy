/** The declarative grammar: concrete syntax trees, the tokens they spell and the expression they stand for. */
module Grammar {
  import opened Syntax

  /** An expression tree plus the parentheses and trailing commas of its spelling. */
  datatype Cst =
    | CLit(value: Literal)
    | CName(name: string)
    | CParen(inner: Cst)
    | CArray(elements: seq<Cst>, trailing: bool)
    | CMember(target: Cst, property: string, optional: bool)
    | CIndex(target: Cst, index: Cst, optional: bool)
    | CCall(callee: Cst, args: seq<Cst>, trailing: bool)
    | CUnary(uop: UnaryOp, argument: Cst)
    | CBinary(op: BinaryOp, left: Cst, right: Cst)
    | CTernary(test: Cst, consequent: Cst, alternate: Cst)

  /** The precedence level of the outermost construct. */
  function Level(c: Cst): nat {
    match c
    case CLit(_) | CName(_) | CParen(_) | CArray(_, _) => 9
    case CMember(_, _, _) | CIndex(_, _, _) | CCall(_, _, _) => 8
    case CUnary(_, _) => 7
    case CBinary(op, _, _) => BinaryLevel(op)
    case CTernary(_, _, _) => 0
  }

  /** A chain of `||` or `??` that is not in parentheses. */
  predicate MixesNullish(op: BinaryOp, left: Cst) {
    left.CBinary? && BinaryLevel(op) == 1 && BinaryLevel(left.op) == 1 && left.op != op
  }

  /** Every construct stands where the grammar allows its precedence level. */
  predicate Wf(c: Cst) {
    match c
    case CLit(_) => true
    case CName(name) => !IsReserved(name)
    case CParen(inner) => Wf(inner)
    case CArray(elements, trailing) => (trailing ==> elements != []) && forall x <- elements :: Wf(x)
    case CMember(target, _, _) => Level(target) >= 8 && Wf(target)
    case CIndex(target, index, _) => Level(target) >= 8 && Wf(target) && Wf(index)
    case CCall(callee, args, trailing) =>
      && Level(callee) >= 8 && Wf(callee) && |args| <= MAX_ARGUMENTS && (trailing ==> args != [])
      && forall x <- args :: Wf(x)
    case CUnary(_, argument) => Level(argument) >= 7 && Wf(argument)
    case CBinary(op, left, right) =>
      && Level(left) >= BinaryLevel(op) && Level(right) > BinaryLevel(op) && !MixesNullish(op, left)
      && Wf(left) && Wf(right)
    case CTernary(test, consequent, alternate) => Level(test) >= 1 && Wf(test) && Wf(consequent) && Wf(alternate)
  }

  function Ast(c: Cst): Expr {
    match c
    case CLit(value) => Lit(value)
    case CName(name) => Name(name)
    case CParen(inner) => Ast(inner)
    case CArray(elements, _) => Array(AstList(elements))
    case CMember(target, property, optional) => Member(Ast(target), property, optional)
    case CIndex(target, index, optional) => Index(Ast(target), Ast(index), optional)
    case CCall(callee, args, _) => Call(Ast(callee), AstList(args))
    case CUnary(op, argument) => Unary(op, Ast(argument))
    case CBinary(op, left, right) => Binary(op, Ast(left), Ast(right))
    case CTernary(test, consequent, alternate) => Ternary(Ast(test), Ast(consequent), Ast(alternate))
  }

  function AstList(cs: seq<Cst>): (es: seq<Expr>)
    ensures |es| == |cs|
  {
    if cs == [] then [] else [Ast(cs[0])] + AstList(cs[1..])
  }

  function LiteralKind(value: Literal): Kind {
    match value
    case NumberLit(lexeme) => Number(lexeme)
    case StringLit(text) => Str(text)
    case BoolLit(b) => Ident(if b then "true" else "false")
    case NullLit => Ident("null")
    case UndefinedLit => Ident("undefined")
  }

  /** The tokens a tree spells. */
  function Yield(c: Cst): seq<Kind> {
    match c
    case CLit(value) => [LiteralKind(value)]
    case CName(name) => [Ident(name)]
    case CParen(inner) => [LParen] + Yield(inner) + [RParen]
    case CArray(elements, trailing) => [LBracket] + YieldList(elements, trailing) + [RBracket]
    case CMember(target, property, optional) => Yield(target) + [if optional then QDot else Dot, Ident(property)]
    case CIndex(target, index, optional) => Yield(target) + IndexOpening(optional) + Yield(index) + [RBracket]
    case CCall(callee, args, trailing) => Yield(callee) + [LParen] + YieldList(args, trailing) + [RParen]
    case CUnary(op, argument) => [UnaryKind(op)] + Yield(argument)
    case CBinary(op, left, right) => Yield(left) + [BinaryKind(op)] + Yield(right)
    case CTernary(test, consequent, alternate) =>
      Yield(test) + [Question] + Yield(consequent) + [Colon] + Yield(alternate)
  }

  function IndexOpening(optional: bool): seq<Kind> {
    if optional then [QDot, LBracket] else [LBracket]
  }

  /** Items between commas, with an optional trailing comma. */
  function YieldList(cs: seq<Cst>, trailing: bool): seq<Kind> {
    if cs == [] then [] else Yield(cs[0]) + YieldTail(cs[1..], trailing)
  }

  function YieldTail(cs: seq<Cst>, trailing: bool): seq<Kind> {
    if cs == [] then (if trailing then [Comma] else [])
    else [Comma] + Yield(cs[0]) + YieldTail(cs[1..], trailing)
  }

  /** `ks` is a spelling of `e`. */
  ghost predicate Derives(e: Expr, ks: seq<Kind>) {
    exists c :: Wf(c) && Ast(c) == e && Yield(c) == ks
  }
}
