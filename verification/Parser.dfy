/** The recursive-descent parser: a cursor over a token array, one method per grammar level. */
module Parser {
  import opened Results
  import opened Syntax
  import opened ParserSpec

  class Parser {
    var i: nat
    const tokens: seq<Token>

    /** The cursor stands on a token; the last token is the end marker. */
    ghost predicate Valid()
      reads this
    {
      i < |tokens| && tokens[|tokens| - 1].kind == Eof
    }

    /** The kinds not consumed yet. */
    ghost function Left(): seq<Kind>
      reads this
      requires i <= |tokens|
    {
      Kinds(tokens)[i..]
    }

    /** The outcome `r` and the cursor are what `p` says: value and tokens left, or reason and column. */
    ghost predicate Agrees<T>(r: Result<T, Error>, p: Parse<T>)
      reads this
    {
      match p
      case Ok(value, rest) => r == Success(value) && i <= |tokens| && Left() == rest
      case Err(reason, left) =>
        1 <= left <= |tokens| && r == Failure(Error(reason, Some(tokens[|tokens| - left].start)))
    }

    constructor (tokens: seq<Token>)
      ensures this.tokens == tokens && i == 0
    {
      this.tokens := tokens;
      i := 0;
    }

    function Peek(): (t: Token)
      reads this
      requires tokens != []
      ensures i < |tokens| ==> t == tokens[i] && t.kind == Head(Left())
    {
      if i < |tokens| then tokens[i] else tokens[|tokens| - 1]
    }

    method Eat() returns (t: Token)
      requires Valid()
      modifies this`i
      ensures i == old(i) + 1 && t == tokens[old(i)] && Left() == old(Left())[1..]
      ensures t.kind != Eof ==> Valid()
    {
      t := Peek();
      i := i + 1;
    }

    /** `eat` with a kind that carries no text. */
    method Expect(want: Kind) returns (r: Result<Kind, Error>)
      requires Valid()
      modifies this`i
      ensures Agrees(r, ParserSpec.Expect(want, old(Left())))
      ensures r.Success? ==> i == old(i) + 1 && (want != Eof ==> Valid())
    {
      var token := Peek();
      if token.kind != want {
        return Failure(Error(Expected(want, token.kind), Some(token.start)));
      }
      i := i + 1;
      r := Success(token.kind);
    }

    method EatIdent() returns (r: Result<string, Error>)
      requires Valid()
      modifies this`i
      ensures tokens[old(i)].kind.Ident? ==>
                r == Success(tokens[old(i)].kind.name) && i == old(i) + 1 && Valid() && Left() == old(Left())[1..]
      ensures !tokens[old(i)].kind.Ident? ==>
                r == Failure(Error(Expected(Ident(""), tokens[old(i)].kind), Some(tokens[old(i)].start)))
    {
      var token := Peek();
      if !token.kind.Ident? {
        return Failure(Error(Expected(Ident(""), token.kind), Some(token.start)));
      }
      i := i + 1;
      r := Success(token.kind.name);
    }

    method ParseTernary() returns (r: Result<Expr, Error>)
      requires Valid()
      modifies this`i
      ensures Agrees(r, ParserSpec.ParseTernary(old(Left())))
      ensures r.Success? ==> Valid() && old(i) < i
      decreases |tokens| - i, 10
    {
      var test :- ParseNullishOr();
      if Peek().kind != Question {
        return Success(test);
      }
      var _ := Eat();
      var consequent :- ParseEnclosed(Colon);
      var alternate :- ParseTernary();
      r := Success(Ternary(test, consequent, alternate));
    }

    method ParseNullishOr() returns (r: Result<Expr, Error>)
      requires Valid()
      modifies this`i
      ensures Agrees(r, ParserSpec.ParseNullish(old(Left())))
      ensures r.Success? ==> Valid() && old(i) < i
      decreases |tokens| - i, 9
    {
      var left :- ParseAnd();
      var seen: Option<BinaryOp> := None;
      while IsBinary(1, Peek().kind)
        invariant Valid() && old(i) < i
        invariant NullishLoop(left, seen, Left()) == ParserSpec.ParseNullish(old(Left()))
        decreases |tokens| - i
      {
        var op := BinaryOf(Peek().kind).value;
        if seen.Some? && seen.value != op {
          return Failure(Error(MixedNullish, Some(Peek().start)));
        }
        seen := Some(op);
        var _ := Eat();
        var right :- ParseAnd();
        left := Binary(op, left, right);
      }
      r := Success(left);
    }

    method ParseAnd() returns (r: Result<Expr, Error>)
      requires Valid()
      modifies this`i
      ensures Agrees(r, ParseBinary(2, old(Left())))
      ensures r.Success? ==> Valid() && old(i) < i
      decreases |tokens| - i, 8
    {
      var left :- ParseEquality();
      while IsBinary(2, Peek().kind)
        invariant Valid() && old(i) < i
        invariant BinaryLoop(2, left, Left()) == ParseBinary(2, old(Left()))
        decreases |tokens| - i
      {
        var token := Eat();
        var right :- ParseEquality();
        left := Binary(BinaryOf(token.kind).value, left, right);
      }
      r := Success(left);
    }

    method ParseEquality() returns (r: Result<Expr, Error>)
      requires Valid()
      modifies this`i
      ensures Agrees(r, ParseBinary(3, old(Left())))
      ensures r.Success? ==> Valid() && old(i) < i
      decreases |tokens| - i, 7
    {
      var left :- ParseRelational();
      while IsBinary(3, Peek().kind)
        invariant Valid() && old(i) < i
        invariant BinaryLoop(3, left, Left()) == ParseBinary(3, old(Left()))
        decreases |tokens| - i
      {
        var token := Eat();
        var right :- ParseRelational();
        left := Binary(BinaryOf(token.kind).value, left, right);
      }
      r := Success(left);
    }

    method ParseRelational() returns (r: Result<Expr, Error>)
      requires Valid()
      modifies this`i
      ensures Agrees(r, ParseBinary(4, old(Left())))
      ensures r.Success? ==> Valid() && old(i) < i
      decreases |tokens| - i, 6
    {
      var left :- ParseAdd();
      while IsBinary(4, Peek().kind)
        invariant Valid() && old(i) < i
        invariant BinaryLoop(4, left, Left()) == ParseBinary(4, old(Left()))
        decreases |tokens| - i
      {
        var token := Eat();
        var right :- ParseAdd();
        left := Binary(BinaryOf(token.kind).value, left, right);
      }
      r := Success(left);
    }

    method ParseAdd() returns (r: Result<Expr, Error>)
      requires Valid()
      modifies this`i
      ensures Agrees(r, ParseBinary(5, old(Left())))
      ensures r.Success? ==> Valid() && old(i) < i
      decreases |tokens| - i, 5
    {
      var left :- ParseMul();
      while IsBinary(5, Peek().kind)
        invariant Valid() && old(i) < i
        invariant BinaryLoop(5, left, Left()) == ParseBinary(5, old(Left()))
        decreases |tokens| - i
      {
        var token := Eat();
        var right :- ParseMul();
        left := Binary(BinaryOf(token.kind).value, left, right);
      }
      r := Success(left);
    }

    method ParseMul() returns (r: Result<Expr, Error>)
      requires Valid()
      modifies this`i
      ensures Agrees(r, ParseBinary(6, old(Left())))
      ensures r.Success? ==> Valid() && old(i) < i
      decreases |tokens| - i, 4
    {
      var left :- ParseUnary();
      while IsBinary(6, Peek().kind)
        invariant Valid() && old(i) < i
        invariant BinaryLoop(6, left, Left()) == ParseBinary(6, old(Left()))
        decreases |tokens| - i
      {
        var token := Eat();
        var right :- ParseUnary();
        left := Binary(BinaryOf(token.kind).value, left, right);
      }
      r := Success(left);
    }

    method ParseUnary() returns (r: Result<Expr, Error>)
      requires Valid()
      modifies this`i
      ensures Agrees(r, ParserSpec.ParseUnary(old(Left())))
      ensures r.Success? ==> Valid() && old(i) < i
      decreases |tokens| - i, 3
    {
      var kind := Peek().kind;
      if kind == Bang || kind == Plus || kind == Minus || kind == Ident("typeof") {
        var _ := Eat();
        var argument :- ParseUnary();
        return Success(Unary(UnaryOf(kind).value, argument));
      }
      r := ParsePostfix();
    }

    method ParsePostfix() returns (r: Result<Expr, Error>)
      requires Valid()
      modifies this`i
      ensures Agrees(r, ParserSpec.ParsePostfix(old(Left())))
      ensures r.Success? ==> Valid() && old(i) < i
      decreases |tokens| - i, 2
    {
      var node :- ParsePrimary();
      while StartsSuffix(Peek().kind)
        invariant Valid() && old(i) < i
        invariant PostfixLoop(node, Left()) == ParserSpec.ParsePostfix(old(Left()))
        decreases |tokens| - i
      {
        node :- ParseSuffix(node);
      }
      r := Success(node);
    }

    /** One round of the postfix loop: a member, an index or a call after `node`. */
    method ParseSuffix(node: Expr) returns (r: Result<Expr, Error>)
      requires Valid() && StartsSuffix(Peek().kind)
      modifies this`i
      ensures Agrees(r, ParserSpec.ParseSuffix(node, old(Left())))
      ensures r.Success? ==> Valid() && old(i) < i
      decreases |tokens| - i, 13
    {
      if Peek().kind == LParen {
        r := ParseCall(node);
        return;
      }
      var token := Eat();
      var optional := token.kind == QDot;
      if token.kind == LBracket {
        var index :- ParseEnclosed(RBracket);
        return Success(Index(node, index, false));
      }
      if optional && Peek().kind == LBracket {
        var _ := Eat();
        var index :- ParseEnclosed(RBracket);
        return Success(Index(node, index, true));
      }
      var name :- EatIdent();
      r := Success(Member(node, name, optional));
    }

    /** The arguments of a call of `node`; too many are reported at the opening parenthesis. */
    method ParseCall(node: Expr) returns (r: Result<Expr, Error>)
      requires Valid() && Peek().kind == LParen
      modifies this`i
      ensures Agrees(r, ParserSpec.ParseSuffix(node, old(Left())))
      ensures r.Success? ==> Valid() && old(i) < i
      decreases |tokens| - i, 12
    {
      var token := Eat();
      var args :- ParseList(RParen);
      if |args| > MAX_ARGUMENTS {
        return Failure(Error(TooManyArguments, Some(token.start)));
      }
      var _ :- Expect(RParen);
      r := Success(Call(node, args));
    }

    /** A ternary and its closing token. */
    method ParseEnclosed(close: Kind) returns (r: Result<Expr, Error>)
      requires Valid() && close != Eof
      modifies this`i
      ensures Agrees(r, ParserSpec.ParseEnclosed(close, old(Left())))
      ensures r.Success? ==> Valid() && old(i) < i
      decreases |tokens| - i, 11
    {
      var inner :- ParseTernary();
      var _ :- Expect(close);
      r := Success(inner);
    }

    method ParsePrimary() returns (r: Result<Expr, Error>)
      requires Valid()
      modifies this`i
      ensures Agrees(r, ParserSpec.ParsePrimary(old(Left())))
      ensures r.Success? ==> Valid() && old(i) < i
      decreases |tokens| - i, 1
    {
      var token := Peek();
      var kind := token.kind;
      if kind.Number? {
        var _ := Eat();
        return Success(Lit(NumberLit(kind.lexeme)));
      }
      if kind.Str? {
        var _ := Eat();
        return Success(Lit(StringLit(kind.text)));
      }
      if kind.Ident? {
        var _ := Eat();
        return Success(NameExpr(kind.name));
      }
      if kind == LParen {
        var _ := Eat();
        r := ParseEnclosed(RParen);
        return;
      }
      if kind == LBracket {
        var _ := Eat();
        var elements :- ParseList(RBracket);
        var _ :- Expect(RBracket);
        return Success(Array(elements));
      }
      r := Failure(Error(UnexpectedToken(kind), Some(token.start)));
    }

    /** The comma-separated part shared by call arguments and array literals. */
    method ParseList(close: Kind) returns (r: Result<seq<Expr>, Error>)
      requires Valid() && close != Eof
      modifies this`i
      ensures Agrees(r, ParserSpec.ParseList(close, old(Left())))
      ensures r.Success? ==> Valid() && old(i) <= i
      decreases |tokens| - i, 12
    {
      if Peek().kind == close {
        return Success([]);
      }
      var first :- ParseTernary();
      r := ParseMoreItems(close, [first]);
    }

    /** The loop over `, item`, with an optional trailing comma. */
    method ParseMoreItems(close: Kind, first: seq<Expr>) returns (r: Result<seq<Expr>, Error>)
      requires Valid() && close != Eof
      modifies this`i
      ensures Agrees(r, ListLoop(close, first, old(Left())))
      ensures r.Success? ==> Valid() && old(i) <= i
      decreases |tokens| - i, 11
    {
      var items := first;
      while Peek().kind == Comma
        invariant Valid() && old(i) <= i
        invariant ListLoop(close, items, Left()) == ListLoop(close, first, old(Left()))
        decreases |tokens| - i
      {
        var _ := Eat();
        if Peek().kind == close {
          break;
        }
        var next :- ParseTernary();
        items := items + [next];
      }
      r := Success(items);
    }
  }

  /** Parse a token array that ends with the end marker. */
  method ParseTokens(tokens: seq<Token>) returns (r: Result<Expr, Error>)
    requires tokens != [] && tokens[|tokens| - 1].kind == Eof
    ensures match ParseProgram(Kinds(tokens))
            case Ok(e, _) => r == Success(e)
            case Err(reason, left) =>
              1 <= left <= |tokens| && r == Failure(Error(reason, Some(tokens[|tokens| - left].start)))
  {
    var parser := new Parser(tokens);
    assert Kinds(tokens)[0..] == Kinds(tokens);
    var expr :- parser.ParseTernary();
    var _ :- parser.Expect(Eof);
    r := Success(expr);
  }
}
