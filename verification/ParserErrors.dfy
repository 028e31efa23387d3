/** Where the parser stops, and with which error. The number of tokens left tells the token an error points at. */
module ParserErrors {
  import opened Results
  import opened Syntax
  import opened ParserSpec

  /** A token other than the one that must follow is the error. */
  lemma ExpectLaw(want: Kind, ks: seq<Kind>)
    requires ks != []
    ensures ks[0] == want ==> Expect(want, ks) == Ok(want, ks[1..])
    ensures ks[0] != want ==> Expect(want, ks) == Err(Expected(want, ks[0]), |ks|)
  {
  }

  /** `||` behind a chain of `??`, and `??` behind one of `||`, are the error. */
  lemma MixingLaw(left: Expr, ks: seq<Kind>)
    requires ks != []
    ensures ks[0] == OrOr ==> NullishLoop(left, Some(Coalesce), ks) == Err(MixedNullish, |ks|)
    ensures ks[0] == QQ ==> NullishLoop(left, Some(Or), ks) == Err(MixedNullish, |ks|)
  {
  }

  /** More than eight arguments are an error of the opening parenthesis, and a missing closing one of the token behind
      them. */
  lemma ArgumentsLaw(node: Expr, ks: seq<Kind>)
    requires ks != [] && ks[0] == LParen && ParseList(RParen, ks[1..]).Ok?
    ensures var list := ParseList(RParen, ks[1..]);
            && (|list.value| > 8 ==> ParseSuffix(node, ks) == Err(TooManyArguments, |ks|))
            && (|list.value| <= 8 && list.rest != [] && list.rest[0] != RParen ==>
                  ParseSuffix(node, ks) == Err(Expected(RParen, list.rest[0]), |list.rest|))
  {
  }

  /** Behind a dot anything but a name is the error. */
  lemma MemberLaw(node: Expr, ks: seq<Kind>)
    requires |ks| >= 2 && (ks[0] == Dot || (ks[0] == QDot && ks[1] != LBracket)) && !ks[1].Ident?
    ensures ParseSuffix(node, ks) == Err(Expected(Ident(""), ks[1]), |ks| - 1)
  {
  }

  /** A token that starts no primary is the error wherever an operand must stand. */
  lemma OperandLaw(ks: seq<Kind>)
    requires ks != [] && !ks[0].Number? && !ks[0].Str? && !ks[0].Ident? && ks[0] !in {LParen, LBracket}
    ensures ParsePrimary(ks) == Err(UnexpectedToken(ks[0]), |ks|)
    ensures ks[0] !in {Bang, Plus, Minus} ==> ParseTernary(ks) == Err(UnexpectedToken(ks[0]), |ks|)
  {
    if ks[0] !in {Bang, Plus, Minus} {
      assert ParsePostfix(ks) == Err(UnexpectedToken(ks[0]), |ks|);
      assert UnaryOf(ks[0]).None?;
      assert ParseUnary(ks) == Err(UnexpectedToken(ks[0]), |ks|);
      LevelsFail(ks);
    }
  }

  /** An error of the first operand is the error of every level. */
  lemma {:induction false} LevelsFail(ks: seq<Kind>)
    requires ParseUnary(ks).Err?
    ensures ParseTernary(ks) == Err(ParseUnary(ks).reason, ParseUnary(ks).left)
  {
    assert ParseBinary(6, ks) == Err(ParseUnary(ks).reason, ParseUnary(ks).left);
    assert ParseBinary(5, ks) == ParseBinary(6, ks);
    assert ParseBinary(4, ks) == ParseBinary(6, ks);
    assert ParseBinary(3, ks) == ParseBinary(6, ks);
    assert ParseBinary(2, ks) == ParseBinary(6, ks);
  }

  /** Tokens behind a whole expression are the error. */
  lemma ProgramLaw(ks: seq<Kind>)
    requires ParseTernary(ks).Ok? && ParseTernary(ks).rest != [] && ParseTernary(ks).rest[0] != Eof
    ensures var rest := ParseTernary(ks).rest; ParseProgram(ks) == Err(Expected(Eof, rest[0]), |rest|)
  {
  }
}
