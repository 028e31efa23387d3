/** Tokens, syntax trees and errors of the workflow expression language. */
module Syntax {
  import opened Results

  datatype Kind =
    | Number(lexeme: string) | Str(text: string) | Ident(name: string)
    | LParen | RParen | LBracket | RBracket | Comma | Question | Colon | Dot | QDot
    | QQ | OrOr | AndAnd | Bang | Plus | Minus | Star | Slash | Percent
    | EqEqEq | BangEqEq | EqEq | BangEq | LtEq | GtEq | Less | Greater
    | Eof

  /** A token; `start` is the column used in error messages. */
  datatype Token = Token(kind: Kind, start: nat)

  function Kinds(tokens: seq<Token>): seq<Kind> {
    seq(|tokens|, j requires 0 <= j < |tokens| => tokens[j].kind)
  }

  /** The characters of an operator or bracket. */
  function Spelling(k: Kind): string {
    match k
    case LParen => "(" case RParen => ")" case LBracket => "[" case RBracket => "]"
    case Comma => "," case Question => "?" case Colon => ":" case Dot => "." case QDot => "?."
    case QQ => "??" case OrOr => "||" case AndAnd => "&&" case Bang => "!"
    case Plus => "+" case Minus => "-" case Star => "*" case Slash => "/" case Percent => "%"
    case EqEqEq => "===" case BangEqEq => "!==" case EqEq => "==" case BangEq => "!="
    case LtEq => "<=" case GtEq => ">=" case Less => "<" case Greater => ">"
    case _ => ""
  }

  /** Messages print the kinds without their text, so `Expected(Ident(""), k)` reads "Expected ident". */
  datatype Reason =
    | TooLong | TooManyTokens | UnterminatedString | InvalidNumber | InvalidExponent
    | UnexpectedCharacter(c: char)
    | Expected(want: Kind, found: Kind) | UnexpectedToken(found: Kind)
    | MixedNullish | TooManyArguments
    | TooDeep | NotAFunction | HostFailure(message: string)

  datatype Error = Error(reason: Reason, position: Option<nat>)

  /** Number literals keep their lexeme; `Evaluator.NumberOf` gives the value. */
  datatype Literal = NumberLit(lexeme: string) | StringLit(text: string) | BoolLit(b: bool) | NullLit | UndefinedLit

  datatype UnaryOp = Not | Positive | Negative | TypeOf

  datatype BinaryOp =
    | Or | Coalesce | And
    | StrictEq | StrictNe | LooseEq | LooseNe
    | Lt | Gt | Le | Ge
    | Add | Sub | Mul | Div | Mod

  datatype Expr =
    | Lit(value: Literal)
    | Name(name: string)
    | Member(target: Expr, property: string, optional: bool)
    | Index(target: Expr, index: Expr, optional: bool)
    | Call(callee: Expr, args: seq<Expr>)
    | Unary(uop: UnaryOp, argument: Expr)
    | Binary(op: BinaryOp, left: Expr, right: Expr)
    | Ternary(test: Expr, consequent: Expr, alternate: Expr)
    | Array(elements: seq<Expr>)

  const MAX_ARGUMENTS := 8

  /** The binary operator a token stands for. */
  function BinaryOf(k: Kind): Option<BinaryOp> {
    match k
    case OrOr => Some(Or) case QQ => Some(Coalesce) case AndAnd => Some(And)
    case EqEqEq => Some(StrictEq) case BangEqEq => Some(StrictNe)
    case EqEq => Some(LooseEq) case BangEq => Some(LooseNe)
    case Less => Some(Lt) case Greater => Some(Gt) case LtEq => Some(Le) case GtEq => Some(Ge)
    case Plus => Some(Add) case Minus => Some(Sub)
    case Star => Some(Mul) case Slash => Some(Div) case Percent => Some(Mod)
    case _ => None
  }

  function BinaryKind(op: BinaryOp): Kind {
    match op
    case Or => OrOr case Coalesce => QQ case And => AndAnd
    case StrictEq => EqEqEq case StrictNe => BangEqEq case LooseEq => EqEq case LooseNe => BangEq
    case Lt => Less case Gt => Greater case Le => LtEq case Ge => GtEq
    case Add => Plus case Sub => Minus
    case Mul => Star case Div => Slash case Mod => Percent
  }

  /** Precedence levels, loosest first: 0 ternary, 1 `||` and `??`, 2 `&&`, 3 equality, 4 relational, 5 additive, 6
      multiplicative, 7 unary, 8 postfix, 9 primary. */
  function BinaryLevel(op: BinaryOp): nat {
    match op
    case Or | Coalesce => 1
    case And => 2
    case StrictEq | StrictNe | LooseEq | LooseNe => 3
    case Lt | Gt | Le | Ge => 4
    case Add | Sub => 5
    case Mul | Div | Mod => 6
  }

  predicate IsBinary(level: nat, k: Kind) {
    BinaryOf(k).Some? && BinaryLevel(BinaryOf(k).value) == level
  }

  /** The unary operator a token stands for; `typeof` is an identifier token. */
  function UnaryOf(k: Kind): Option<UnaryOp> {
    match k
    case Bang => Some(Not) case Plus => Some(Positive) case Minus => Some(Negative)
    case Ident(name) => if name == "typeof" then Some(TypeOf) else None
    case _ => None
  }

  function UnaryKind(op: UnaryOp): Kind {
    match op
    case Not => Bang case Positive => Plus case Negative => Minus
    case TypeOf => Ident("typeof")
  }

  /** What an identifier token means in primary position. */
  function NameExpr(name: string): Expr {
    if name == "true" then Lit(BoolLit(true))
    else if name == "false" then Lit(BoolLit(false))
    else if name == "null" then Lit(NullLit)
    else if name == "undefined" then Lit(UndefinedLit)
    else Name(name)
  }

  predicate IsReserved(name: string) {
    name == "true" || name == "false" || name == "null" || name == "undefined" || name == "typeof"
  }
}
