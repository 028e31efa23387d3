/** What the recursive-descent parser computes, as functions on the kinds of the tokens that are left. */
module ParserSpec {
  import opened Results
  import opened Syntax

  /** An error remembers how many tokens were left where it was raised. */
  datatype Parse<+T> = Ok(value: T, rest: seq<Kind>) | Err(reason: Reason, left: nat) {
    predicate IsFailure() {
      Err?
    }

    function PropagateFailure<U>(): Parse<U>
      requires Err?
    {
      Err(reason, left)
    }

    function Extract(): (T, seq<Kind>)
      requires Ok?
    {
      (value, rest)
    }
  }

  function Head(ks: seq<Kind>): Kind {
    if ks == [] then Eof else ks[0]
  }

  function Tail(ks: seq<Kind>): seq<Kind> {
    if ks == [] then [] else ks[1..]
  }

  function Expect(want: Kind, ks: seq<Kind>): (r: Parse<Kind>)
    ensures r.Ok? && want != Eof ==> ks != [] && ks[0] == want && r.rest == ks[1..]
  {
    if Head(ks) == want then Ok(want, Tail(ks))
    else Err(Expected(want, Head(ks)), |ks|)
  }

  function ParseTernary(ks: seq<Kind>): (r: Parse<Expr>)
    ensures r.Ok? ==> |r.rest| < |ks|
    decreases |ks|, 9
  {
    var (test, r1) :- ParseNullish(ks);
    if Head(r1) != Question then Ok(test, r1)
    else
      var (consequent, r2) :- ParseTernary(r1[1..]);
      var (_, r3) :- Expect(Colon, r2);
      var (alternate, r4) :- ParseTernary(r3);
      Ok(Ternary(test, consequent, alternate), r4)
  }

  function ParseNullish(ks: seq<Kind>): (r: Parse<Expr>)
    ensures r.Ok? ==> |r.rest| < |ks|
    decreases |ks|, 8
  {
    var (left, r1) :- ParseBinary(2, ks);
    NullishLoop(left, None, r1)
  }

  /** `seen` is the operator of the chain so far: `||` and `??` mix only with parentheses. */
  function NullishLoop(left: Expr, seen: Option<BinaryOp>, ks: seq<Kind>): (r: Parse<Expr>)
    ensures r.Ok? ==> |r.rest| <= |ks|
    decreases |ks|, 8
  {
    if !IsBinary(1, Head(ks)) then Ok(left, ks)
    else
      var op := BinaryOf(ks[0]).value;
      if seen.Some? && seen.value != op then Err(MixedNullish, |ks|)
      else
        var (right, r1) :- ParseBinary(2, ks[1..]);
        NullishLoop(Binary(op, left, right), Some(op), r1)
  }

  /** The five left-associative levels from `&&` (2) to `*` (6). */
  function ParseBinary(level: nat, ks: seq<Kind>): (r: Parse<Expr>)
    requires 2 <= level <= 6
    ensures r.Ok? ==> |r.rest| < |ks|
    decreases |ks|, 9 - level
  {
    var (left, r1) :- ParseOperand(level, ks);
    BinaryLoop(level, left, r1)
  }

  function ParseOperand(level: nat, ks: seq<Kind>): (r: Parse<Expr>)
    requires 2 <= level <= 6
    ensures r.Ok? ==> |r.rest| < |ks|
    decreases |ks|, 9 - level, 0
  {
    if level == 6 then ParseUnary(ks) else ParseBinary(level + 1, ks)
  }

  function BinaryLoop(level: nat, left: Expr, ks: seq<Kind>): (r: Parse<Expr>)
    requires 2 <= level <= 6
    ensures r.Ok? ==> |r.rest| <= |ks|
    decreases |ks|, 9 - level
  {
    if !IsBinary(level, Head(ks)) then Ok(left, ks)
    else
      var (right, r1) :- ParseOperand(level, ks[1..]);
      BinaryLoop(level, Binary(BinaryOf(ks[0]).value, left, right), r1)
  }

  function ParseUnary(ks: seq<Kind>): (r: Parse<Expr>)
    ensures r.Ok? ==> |r.rest| < |ks|
    decreases |ks|, 2
  {
    match UnaryOf(Head(ks))
    case Some(op) =>
      var (argument, r1) :- ParseUnary(ks[1..]);
      Ok(Unary(op, argument), r1)
    case None => ParsePostfix(ks)
  }

  function ParsePostfix(ks: seq<Kind>): (r: Parse<Expr>)
    ensures r.Ok? ==> |r.rest| < |ks|
    decreases |ks|, 1
  {
    var (node, r1) :- ParsePrimary(ks);
    PostfixLoop(node, r1)
  }

  predicate StartsSuffix(k: Kind) {
    k == Dot || k == QDot || k == LBracket || k == LParen
  }

  function PostfixLoop(node: Expr, ks: seq<Kind>): (r: Parse<Expr>)
    ensures r.Ok? ==> |r.rest| <= |ks|
    decreases |ks|, 1
  {
    if !StartsSuffix(Head(ks)) then Ok(node, ks)
    else
      var (next, r1) :- ParseSuffix(node, ks);
      PostfixLoop(next, r1)
  }

  /** One member access, index or call applied to `node`. */
  function ParseSuffix(node: Expr, ks: seq<Kind>): (r: Parse<Expr>)
    requires StartsSuffix(Head(ks))
    ensures r.Ok? ==> |r.rest| < |ks|
    decreases |ks|, 0
  {
    var optional := ks[0] == QDot;
    if ks[0] == LParen then
      var (args, r1) :- ParseList(RParen, ks[1..]);
      if |args| > MAX_ARGUMENTS then Err(TooManyArguments, |ks|)
      else
        var (_, r2) :- Expect(RParen, r1);
        Ok(Call(node, args), r2)
    else if ks[0] == LBracket then
      var (index, r1) :- ParseEnclosed(RBracket, ks[1..]);
      Ok(Index(node, index, false), r1)
    else if optional && Head(ks[1..]) == LBracket then
      var (index, r1) :- ParseEnclosed(RBracket, ks[2..]);
      Ok(Index(node, index, true), r1)
    else if Head(ks[1..]).Ident? then Ok(Member(node, ks[1].name, optional), ks[2..])
    else Err(Expected(Ident(""), Head(ks[1..])), |ks| - 1)
  }

  /** A ternary and the token that closes it. */
  function ParseEnclosed(close: Kind, ks: seq<Kind>): (r: Parse<Expr>)
    requires close != Eof
    ensures r.Ok? ==> |r.rest| < |ks|
    decreases |ks|, 10
  {
    var (inner, r1) :- ParseTernary(ks);
    var (_, r2) :- Expect(close, r1);
    Ok(inner, r2)
  }

  function ParsePrimary(ks: seq<Kind>): (r: Parse<Expr>)
    ensures r.Ok? ==> |r.rest| < |ks|
    decreases |ks|, 0
  {
    var k := Head(ks);
    if k.Number? then Ok(Lit(NumberLit(k.lexeme)), ks[1..])
    else if k.Str? then Ok(Lit(StringLit(k.text)), ks[1..])
    else if k.Ident? then Ok(NameExpr(k.name), ks[1..])
    else if k == LParen then ParseEnclosed(RParen, ks[1..])
    else if k == LBracket then
      var (elements, r1) :- ParseList(RBracket, ks[1..]);
      var (_, r2) :- Expect(RBracket, r1);
      Ok(Array(elements), r2)
    else Err(UnexpectedToken(k), |ks|)
  }

  /** Call arguments and array elements, up to but excluding the closing token. */
  function ParseList(close: Kind, ks: seq<Kind>): (r: Parse<seq<Expr>>)
    ensures r.Ok? ==> |r.rest| <= |ks|
    decreases |ks|, 10
  {
    if Head(ks) == close then Ok([], ks)
    else
      var (first, r1) :- ParseTernary(ks);
      ListLoop(close, [first], r1)
  }

  function ListLoop(close: Kind, items: seq<Expr>, ks: seq<Kind>): (r: Parse<seq<Expr>>)
    ensures r.Ok? ==> |r.rest| <= |ks|
    decreases |ks|, 10
  {
    if Head(ks) != Comma then Ok(items, ks)
    else if Head(ks[1..]) == close then Ok(items, ks[1..])
    else
      var (next, r1) :- ParseTernary(ks[1..]);
      ListLoop(close, items + [next], r1)
  }

  /** A whole expression: one ternary, then the end of input. */
  function ParseProgram(ks: seq<Kind>): Parse<Expr> {
    var (e, r1) :- ParseTernary(ks);
    var (_, r2) :- Expect(Eof, r1);
    Ok(e, r2)
  }
}
