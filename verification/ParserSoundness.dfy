/** Every tree the parser returns is spelled by exactly the tokens it consumed. */
module ParserSoundness {
  import opened Results
  import opened Syntax
  import opened ParserSpec
  import opened Grammar
  import opened ParserTheorems

  /** `c` accounts for the outcome `p` of parsing `ks`. */
  ghost predicate Explains(c: Cst, level: nat, p: Parse<Expr>, ks: seq<Kind>) {
    p.Ok? && Wf(c) && Level(c) >= level && Ast(c) == p.value && ks == Yield(c) + p.rest
  }

  /** `c` extends `left`, which stands before `ks`. */
  ghost predicate Extends(c: Cst, level: nat, left: Cst, p: Parse<Expr>, ks: seq<Kind>) {
    p.Ok? && Wf(c) && Level(c) >= level && Ast(c) == p.value && Yield(left) + ks == Yield(c) + p.rest
  }

  lemma {:induction false} Sound(level: nat, ks: seq<Kind>) returns (c: Cst)
    requires level <= 9 && ParseAt(level, ks).Ok?
    requires level >= 8 ==> UnaryOf(Head(ks)).None?
    ensures Explains(c, level, ParseAt(level, ks), ks)
    decreases |ks|, 20 - level
  {
    if level == 0 {
      c := SoundTernary(ks);
    } else if level <= 6 {
      assert level > 1 ==> ParseOperand(level, ks) == ParseAt(level + 1, ks);
      c := Sound(level + 1, ks);
      c := SoundOperators(level, c, ParseAt(level + 1, ks).rest);
    } else if level == 7 {
      c := SoundUnary(ks);
    } else if level == 8 {
      c := Sound(9, ks);
      c := SoundPostfixLoop(c, ParsePrimary(ks).rest);
    } else {
      c := SoundPrimary(ks);
    }
  }

  /** A conditional that succeeds on `ks` reads its branches from `second` and `third`. */
  ghost predicate Branches(ks: seq<Kind>, second: seq<Kind>, third: seq<Kind>) {
    && ParseTernary(ks).Ok? && ParseNullish(ks).Ok? && ParseNullish(ks).rest == [Question] + second && |second| < |ks|
    && ParseTernary(second).Ok? && ParseTernary(second).rest == [Colon] + third && |third| < |ks|
    && ParseTernary(third).Ok? && ParseTernary(third).rest == ParseTernary(ks).rest
    && ParseTernary(ks).value
       == Ternary(ParseNullish(ks).value, ParseTernary(second).value, ParseTernary(third).value)
  }

  lemma TernaryInversion(ks: seq<Kind>) returns (second: seq<Kind>, third: seq<Kind>)
    requires ParseTernary(ks).Ok? && ParseNullish(ks).Ok? && Head(ParseNullish(ks).rest) == Question
    ensures Branches(ks, second, third)
  {
    second := ParseNullish(ks).rest[1..];
    third := ParseTernary(second).rest[1..];
  }

  lemma {:induction false} SoundTernary(ks: seq<Kind>) returns (c: Cst)
    requires ParseTernary(ks).Ok?
    ensures Explains(c, 0, ParseTernary(ks), ks)
    decreases |ks|, 20, 0
  {
    c := Sound(1, ks);
    if Head(ParseNullish(ks).rest) == Question {
      var second, third := TernaryInversion(ks);
      var consequent := SoundTernary(second);
      var alternate := SoundTernary(third);
      TernaryShape(c, consequent, alternate, ParseTernary(ks).rest);
      c := CTernary(c, consequent, alternate);
    }
  }

  lemma {:induction false} SoundUnary(ks: seq<Kind>) returns (c: Cst)
    requires ParseUnary(ks).Ok?
    ensures Explains(c, 7, ParseUnary(ks), ks)
    decreases |ks|, 13, 0
  {
    if UnaryOf(Head(ks)).Some? {
      var op := UnaryOf(ks[0]).value;
      var argument := SoundUnary(ks[1..]);
      UnaryShape(op, argument, ParseUnary(ks[1..]).rest);
      c := CUnary(op, argument);
    } else {
      c := Sound(8, ks);
    }
  }

  lemma KindOfBinary(k: Kind)
    requires BinaryOf(k).Some?
    ensures BinaryKind(BinaryOf(k).value) == k
  {
  }

  /** One operator of a left-associative chain, when the loop goes on to succeed. */
  lemma OperatorInversion(level: nat, left: Expr, seen: Option<BinaryOp>, ks: seq<Kind>)
    returns (op: BinaryOp, next: Parse<Expr>)
    requires 1 <= level <= 6 && IsBinary(level, Head(ks))
    requires Continue(level, left, seen, ks).Ok?
    ensures ks[0] == BinaryKind(op) && BinaryLevel(op) == level && (level == 1 && seen.Some? ==> seen.value == op)
    ensures next == ParseAt(level + 1, ks[1..]) && next.Ok?
    ensures Continue(level, left, seen, ks)
            == Continue(level, Binary(op, left, next.value), if level == 1 then Some(op) else None, next.rest)
  {
    KindOfBinary(ks[0]);
    op := BinaryOf(ks[0]).value;
    next := ParseAt(level + 1, ks[1..]);
    assert level > 1 ==> next == ParseOperand(level, ks[1..]);
  }

  lemma {:induction false} SoundOperators(level: nat, left: Cst, ks: seq<Kind>) returns (c: Cst)
    requires 1 <= level <= 6
    requires Wf(left) && Level(left) >= level && Continue(level, Ast(left), Seen(left), ks).Ok?
    ensures Extends(c, level, left, Continue(level, Ast(left), Seen(left), ks), ks)
    decreases |ks|, 19
  {
    c := left;
    if IsBinary(level, Head(ks)) {
      var op, next := OperatorInversion(level, Ast(left), Seen(left), ks);
      var right := Sound(level + 1, ks[1..]);
      var longer := CBinary(op, left, right);
      BinaryShape(op, left, right, next.rest);
      HeadTail(ks);
      c := SoundOperators(level, longer, next.rest);
    }
  }

  lemma {:induction false} SoundPostfixLoop(left: Cst, ks: seq<Kind>) returns (c: Cst)
    requires Wf(left) && Level(left) >= 8 && PostfixLoop(Ast(left), ks).Ok?
    ensures Extends(c, 8, left, PostfixLoop(Ast(left), ks), ks)
    decreases |ks|, 30
  {
    c := left;
    if StartsSuffix(Head(ks)) {
      c := SoundSuffix(left, ks);
      c := SoundPostfixLoop(c, ParseSuffix(Ast(left), ks).rest);
    }
  }

  lemma {:induction false} SoundSuffix(left: Cst, ks: seq<Kind>) returns (c: Cst)
    requires Wf(left) && Level(left) >= 8 && StartsSuffix(Head(ks)) && ParseSuffix(Ast(left), ks).Ok?
    ensures Extends(c, 8, left, ParseSuffix(Ast(left), ks), ks)
    decreases |ks|, 29
  {
    if ks[0] == LParen {
      c := SoundCallSuffix(left, ks);
    } else if ks[0] == LBracket || (ks[0] == QDot && Head(ks[1..]) == LBracket) {
      c := SoundIndexSuffix(left, ks);
    } else {
      c := SoundMember(left, ks);
    }
  }

  lemma {:induction false} SoundCallSuffix(left: Cst, ks: seq<Kind>) returns (c: Cst)
    requires ks != [] && ks[0] == LParen
    requires Wf(left) && Level(left) >= 8 && ParseSuffix(Ast(left), ks).Ok?
    ensures Extends(c, 8, left, ParseSuffix(Ast(left), ks), ks)
    decreases |ks|, 28
  {
    c := SoundCall(left, ks[1..], ParseSuffix(Ast(left), ks).rest);
    HeadTail(ks);
  }

  lemma {:induction false} SoundIndexSuffix(left: Cst, ks: seq<Kind>) returns (c: Cst)
    requires ks != [] && (ks[0] == LBracket || (ks[0] == QDot && Head(ks[1..]) == LBracket))
    requires Wf(left) && Level(left) >= 8 && ParseSuffix(Ast(left), ks).Ok?
    ensures Extends(c, 8, left, ParseSuffix(Ast(left), ks), ks)
    decreases |ks|, 28
  {
    if ks[0] == LBracket {
      HeadTail(ks);
      c := SoundIndex(left, false, ks[1..]);
    } else {
      TwoAhead(ks);
      c := SoundIndex(left, true, ks[2..]);
    }
  }

  lemma SoundMember(left: Cst, ks: seq<Kind>) returns (c: Cst)
    requires ks != [] && (ks[0] == Dot || (ks[0] == QDot && Head(ks[1..]) != LBracket))
    requires Wf(left) && Level(left) >= 8 && ParseSuffix(Ast(left), ks).Ok?
    ensures Extends(c, 8, left, ParseSuffix(Ast(left), ks), ks)
  {
    var rest := ParseSuffix(Ast(left), ks).rest;
    MemberShape(left, ks[1].name, ks[0] == QDot, rest);
    TwoAhead(ks);
    c := CMember(left, ks[1].name, ks[0] == QDot);
  }

  lemma {:induction false} SoundCall(left: Cst, ks: seq<Kind>, rest: seq<Kind>) returns (c: Cst)
    requires Wf(left) && Level(left) >= 8
    requires ParseList(RParen, ks).Ok? && |ParseList(RParen, ks).value| <= MAX_ARGUMENTS
    requires ParseList(RParen, ks).rest == [RParen] + rest
    ensures Wf(c) && Level(c) == 8 && Ast(c) == Call(Ast(left), ParseList(RParen, ks).value)
    ensures Yield(left) + ([LParen] + ks) == Yield(c) + rest
    decreases |ks|, 23
  {
    var args, trailing := SoundList(RParen, ks);
    CallShape(left, args, trailing, rest);
    c := CCall(left, args, trailing);
  }

  lemma {:induction false} SoundIndex(left: Cst, optional: bool, ks: seq<Kind>) returns (c: Cst)
    requires Wf(left) && Level(left) >= 8 && ParseEnclosed(RBracket, ks).Ok?
    ensures Wf(c) && Level(c) == 8 && Ast(c) == Index(Ast(left), ParseEnclosed(RBracket, ks).value, optional)
    ensures Yield(left) + (IndexOpening(optional) + ks) == Yield(c) + ParseEnclosed(RBracket, ks).rest
    decreases |ks|, 22
  {
    var index := SoundEnclosed(RBracket, ks);
    IndexShape(left, index, optional, ParseEnclosed(RBracket, ks).rest);
    c := CIndex(left, index, optional);
  }

  lemma {:induction false} SoundEnclosed(close: Kind, ks: seq<Kind>) returns (c: Cst)
    requires close != Eof && ParseEnclosed(close, ks).Ok?
    ensures Wf(c) && Ast(c) == ParseEnclosed(close, ks).value
    ensures ks == Yield(c) + ([close] + ParseEnclosed(close, ks).rest)
    decreases |ks|, 21
  {
    c := SoundTernary(ks);
  }

  lemma {:induction false} SoundPrimary(ks: seq<Kind>) returns (c: Cst)
    requires ParsePrimary(ks).Ok? && UnaryOf(Head(ks)).None?
    ensures Explains(c, 9, ParsePrimary(ks), ks)
    decreases |ks|, 0
  {
    var rest := ParsePrimary(ks).rest;
    var k := ks[0];
    if k.Number? {
      c := CLit(NumberLit(k.lexeme));
    } else if k.Str? {
      c := CLit(StringLit(k.text));
    } else if k.Ident? {
      c := SpelledName(k.name);
    } else if k == LParen {
      var inner := SoundEnclosed(RParen, ks[1..]);
      EnclosedShape(inner, rest);
      HeadTail(ks);
      c := CParen(inner);
    } else {
      c := SoundArray(ks[1..], rest);
      HeadTail(ks);
    }
  }

  lemma {:induction false} SoundArray(ks: seq<Kind>, rest: seq<Kind>) returns (c: Cst)
    requires ParseList(RBracket, ks).Ok? && ParseList(RBracket, ks).rest == [RBracket] + rest
    ensures Wf(c) && Level(c) == 9 && Ast(c) == Array(ParseList(RBracket, ks).value)
    ensures [LBracket] + ks == Yield(c) + rest
    decreases |ks|, 23
  {
    var elements, trailing := SoundList(RBracket, ks);
    ArrayShape(elements, trailing, rest);
    c := CArray(elements, trailing);
  }

  lemma SpelledName(name: string) returns (c: Cst)
    requires name != "typeof"
    ensures Wf(c) && Level(c) == 9 && Ast(c) == NameExpr(name) && Yield(c) == [Ident(name)]
  {
    c := if NameExpr(name).Lit? then CLit(NameExpr(name).value) else CName(name);
  }

  lemma {:induction false} SoundList(close: Kind, ks: seq<Kind>) returns (cs: seq<Cst>, trailing: bool)
    requires ParseList(close, ks).Ok?
    ensures AstList(cs) == ParseList(close, ks).value && (trailing ==> cs != [])
    ensures forall x <- cs :: Wf(x)
    ensures ks == YieldList(cs, trailing) + ParseList(close, ks).rest
    decreases |ks|, 22
  {
    if Head(ks) == close {
      return [], false;
    }
    var first := ParseTernary(ks);
    var c := SoundTernary(ks);
    cs, trailing := SoundTail(close, [first.value], first.rest);
    TailShape(c, cs, trailing, ParseList(close, ks).rest);
    cs := [c] + cs;
  }

  /** One `, item` of a list that goes on to succeed. */
  lemma ListInversion(close: Kind, items: seq<Expr>, ks: seq<Kind>) returns (next: Parse<Expr>)
    requires Head(ks) == Comma && Head(ks[1..]) != close && ListLoop(close, items, ks).Ok?
    ensures next == ParseTernary(ks[1..]) && next.Ok?
    ensures ListLoop(close, items, ks) == ListLoop(close, items + [next.value], next.rest)
  {
    next := ParseTernary(ks[1..]);
  }

  lemma {:induction false} SoundTail(close: Kind, items: seq<Expr>, ks: seq<Kind>)
    returns (cs: seq<Cst>, trailing: bool)
    requires ListLoop(close, items, ks).Ok?
    ensures items + AstList(cs) == ListLoop(close, items, ks).value
    ensures forall x <- cs :: Wf(x)
    ensures ks == YieldTail(cs, trailing) + ListLoop(close, items, ks).rest
    decreases |ks|, 22
  {
    if Head(ks) != Comma || Head(ks[1..]) == close {
      cs, trailing := [], Head(ks) == Comma;
      assert items + AstList(cs) == items;
    } else {
      var next := ListInversion(close, items, ks);
      var c := SoundTernary(ks[1..]);
      var others;
      others, trailing := SoundTail(close, items + [next.value], next.rest);
      cs := [c] + others;
      TailShape(c, others, trailing, ListLoop(close, items, ks).rest);
      AppendAst(items, c, others);
      HeadTail(ks);
    }
  }

  lemma TwoAhead(ks: seq<Kind>)
    requires |ks| >= 2
    ensures ks == [ks[0], ks[1]] + ks[2..] && ks[1..][0] == ks[1] && ks[1..][1..] == ks[2..]
  {
  }

  lemma HeadTail(ks: seq<Kind>)
    requires ks != []
    ensures ks == [ks[0]] + ks[1..]
  {
  }

  lemma {:induction false} YieldHasNoEof(c: Cst)
    requires Wf(c)
    ensures Eof !in Yield(c)
  {
    match c
    case CParen(inner) => YieldHasNoEof(inner);
    case CArray(elements, trailing) => TailHasNoEof(elements, trailing);
    case CMember(target, _, _) => YieldHasNoEof(target);
    case CIndex(target, index, _) => YieldHasNoEof(target); YieldHasNoEof(index);
    case CCall(callee, args, trailing) => YieldHasNoEof(callee); TailHasNoEof(args, trailing);
    case CUnary(_, argument) => YieldHasNoEof(argument);
    case CBinary(_, left, right) => YieldHasNoEof(left); YieldHasNoEof(right);
    case CTernary(test, consequent, alternate) =>
      YieldHasNoEof(test);
      YieldHasNoEof(consequent);
      YieldHasNoEof(alternate);
    case _ =>
  }

  lemma {:induction false} TailHasNoEof(cs: seq<Cst>, trailing: bool)
    requires forall x <- cs :: Wf(x)
    ensures Eof !in YieldTail(cs, trailing) && Eof !in YieldList(cs, trailing)
  {
    if cs != [] {
      YieldHasNoEof(cs[0]);
      TailHasNoEof(cs[1..], trailing);
    }
  }

  /** The parser returns a tree exactly when the tokens before the end marker spell it. */
  lemma {:induction false} ParserIsExact(ks: seq<Kind>, e: Expr)
    requires Eof !in ks
    ensures ParseProgram(ks + [Eof]) == Ok(e, []) <==> Derives(e, ks)
  {
    if c :| Wf(c) && Ast(c) == e && Yield(c) == ks {
      Complete(c, 0, [Eof]);
    }
    if ParseProgram(ks + [Eof]) == Ok(e, []) {
      ParsedIsDerived(ks, e);
    }
  }

  lemma {:induction false} ParsedIsDerived(ks: seq<Kind>, e: Expr)
    requires Eof !in ks && ParseProgram(ks + [Eof]) == Ok(e, [])
    ensures Derives(e, ks)
  {
    var c := SoundTernary(ks + [Eof]);
    YieldHasNoEof(c);
    BeforeEof(ks, Yield(c), ParseTernary(ks + [Eof]).rest);
  }

  lemma BeforeEof(ks: seq<Kind>, yielded: seq<Kind>, rest: seq<Kind>)
    requires ks + [Eof] == yielded + rest && Eof !in yielded && |rest| <= 1
    ensures yielded == ks
  {
    assert (ks + [Eof])[|ks|] == Eof;
    assert (yielded + rest)[..|ks|] == ks;
  }

  /** The grammar is unambiguous: one token sequence spells at most one tree. */
  lemma SpellingsAreUnambiguous(ks: seq<Kind>, e1: Expr, e2: Expr)
    requires Eof !in ks && Derives(e1, ks) && Derives(e2, ks)
    ensures e1 == e2
  {
    ParserIsExact(ks, e1);
    ParserIsExact(ks, e2);
  }
}
