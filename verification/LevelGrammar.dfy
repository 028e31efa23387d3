/** The grammar of expressions as the language describes it: one nonterminal for each precedence level, with the tokens
    of its operators, on expressions and tokens alone. */
module LevelGrammar {
  import opened Syntax
  import opened ParserSpec
  import opened Grammar
  import opened ParserSoundness

  /** The binary operators, loosest level first: `||` and `??`, `&&`, equality, comparison, sums, products. */
  function Operators(level: nat): map<Kind, BinaryOp> {
    match level
    case 1 => map[OrOr := Or, QQ := Coalesce]
    case 2 => map[AndAnd := And]
    case 3 => map[EqEqEq := StrictEq, BangEqEq := StrictNe, EqEq := LooseEq, BangEq := LooseNe]
    case 4 => map[Less := Lt, Greater := Gt, LtEq := Le, GtEq := Ge]
    case 5 => map[Plus := Add, Minus := Sub]
    case 6 => map[Star := Mul, Slash := Div, Percent := Mod]
    case _ => map[]
  }

  function Prefixes(): map<Kind, UnaryOp> {
    map[Bang := Not, Plus := Positive, Minus := Negative, Ident("typeof") := TypeOf]
  }

  function Constants(): map<string, Literal> {
    map["true" := BoolLit(true), "false" := BoolLit(false), "null" := NullLit, "undefined" := UndefinedLit]
  }

  /** `ks` spells `e` at a level: 0 conditionals, 1 to 6 binary operators, 7 prefixes, 8 suffixes, 9 primaries. */
  ghost predicate Spells(level: nat, e: Expr, ks: seq<Kind>)
    requires level <= 9
    decreases |ks|, 10 - level
  {
    if level == 9 then SpellsPrimary(e, ks)
    else
      || Spells(level + 1, e, ks)
      || (level == 0 && SpellsConditional(e, ks))
      || (level == 1 && (SpellsChain(OrOr, e, ks) || SpellsChain(QQ, e, ks)))
      || (2 <= level <= 6 && SpellsOperation(level, e, ks))
      || (level == 7 && SpellsPrefix(e, ks))
      || (level == 8 && (SpellsMember(e, ks) || SpellsIndex(e, ks) || SpellsCall(e, ks)))
  }

  ghost predicate SpellsConditional(e: Expr, ks: seq<Kind>)
    decreases |ks|, 0
  {
    e.Ternary?
    && exists i, j | 0 <= i < j < |ks| && ks[i] == Question && ks[j] == Colon ::
         Spells(1, e.test, ks[..i]) && Spells(0, e.consequent, ks[i + 1..j]) && Spells(0, e.alternate, ks[j + 1..])
  }

  /** A chain of one of `||` and `??`, grouped to the left. */
  ghost predicate SpellsChain(k: Kind, e: Expr, ks: seq<Kind>)
    requires k in Operators(1)
    decreases |ks|, 0
  {
    e.Binary? && e.op == Operators(1)[k]
    && exists i | 0 <= i < |ks| && ks[i] == k ::
         (Spells(2, e.left, ks[..i]) || SpellsChain(k, e.left, ks[..i])) && Spells(2, e.right, ks[i + 1..])
  }

  /** An operation of a level, grouped to the left, with operands of the next level on its right. */
  ghost predicate SpellsOperation(level: nat, e: Expr, ks: seq<Kind>)
    requires 2 <= level <= 6
    decreases |ks|, 0
  {
    e.Binary?
    && exists i | 0 <= i < |ks| && ks[i] in Operators(level) && Operators(level)[ks[i]] == e.op ::
         Spells(level, e.left, ks[..i]) && Spells(level + 1, e.right, ks[i + 1..])
  }

  ghost predicate SpellsPrefix(e: Expr, ks: seq<Kind>)
    decreases |ks|, 0
  {
    e.Unary? && ks != [] && ks[0] in Prefixes() && Prefixes()[ks[0]] == e.uop && Spells(7, e.argument, ks[1..])
  }

  ghost predicate SpellsMember(e: Expr, ks: seq<Kind>)
    decreases |ks|, 0
  {
    var n := |ks|;
    && e.Member? && n >= 2 && ks[n - 1] == Ident(e.property) && ks[n - 2] == (if e.optional then QDot else Dot)
    && Spells(8, e.target, ks[..n - 2])
  }

  ghost predicate SpellsIndex(e: Expr, ks: seq<Kind>)
    decreases |ks|, 0
  {
    e.Index? && ks != [] && ks[|ks| - 1] == RBracket
    && if e.optional then
         exists i | 0 <= i < |ks| - 2 && ks[i] == QDot && ks[i + 1] == LBracket ::
           Spells(8, e.target, ks[..i]) && Spells(0, e.index, ks[i + 2..|ks| - 1])
       else
         exists i | 0 <= i < |ks| - 1 && ks[i] == LBracket ::
           Spells(8, e.target, ks[..i]) && Spells(0, e.index, ks[i + 1..|ks| - 1])
  }

  ghost predicate SpellsCall(e: Expr, ks: seq<Kind>)
    decreases |ks|, 0
  {
    e.Call? && |e.args| <= 8 && ks != [] && ks[|ks| - 1] == RParen
    && exists i | 0 <= i < |ks| - 1 && ks[i] == LParen ::
         Spells(8, e.callee, ks[..i]) && SpellsItems(e.args, ks[i + 1..|ks| - 1])
  }

  ghost predicate SpellsPrimary(e: Expr, ks: seq<Kind>)
    decreases |ks|, 0
  {
    || (|ks| == 1 && ks[0].Number? && e == Lit(NumberLit(ks[0].lexeme)))
    || (|ks| == 1 && ks[0].Str? && e == Lit(StringLit(ks[0].text)))
    || (|ks| == 1 && ks[0].Ident? && ks[0].name in Constants() && e == Lit(Constants()[ks[0].name]))
    || (|ks| == 1 && ks[0].Ident? && ks[0].name !in Constants() && ks[0].name != "typeof" && e == Name(ks[0].name))
    || (|ks| >= 2 && ks[0] == LParen && ks[|ks| - 1] == RParen && Spells(0, e, ks[1..|ks| - 1]))
    || (e.Array? && |ks| >= 2 && ks[0] == LBracket && ks[|ks| - 1] == RBracket
        && SpellsItems(e.elements, ks[1..|ks| - 1]))
  }

  /** Items between commas, with an optional trailing comma. */
  ghost predicate SpellsItems(es: seq<Expr>, ks: seq<Kind>)
    decreases |ks|, 12
  {
    if es == [] then ks == []
    else exists i | 0 <= i <= |ks| :: Spells(0, es[0], ks[..i]) && SpellsMore(es[1..], ks[i..])
  }

  ghost predicate SpellsMore(es: seq<Expr>, ks: seq<Kind>)
    decreases |ks|, 11
  {
    if es == [] then ks == [] || ks == [Comma]
    else
      ks != [] && ks[0] == Comma
      && exists i | 1 <= i <= |ks| :: Spells(0, es[0], ks[1..i]) && SpellsMore(es[1..], ks[i..])
  }

  // Every concrete tree spells at its level

  lemma {:induction false} Loosen(from: nat, to: nat, e: Expr, ks: seq<Kind>)
    requires to <= from <= 9 && Spells(from, e, ks)
    ensures Spells(to, e, ks)
    decreases from
  {
    if to < from {
      assert Spells(from - 1, e, ks);
      Loosen(from - 1, to, e, ks);
    }
  }

  lemma Parts(a: seq<Kind>, k: Kind, b: seq<Kind>)
    ensures var ks := a + [k] + b; ks[|a|] == k && ks[..|a|] == a && ks[|a| + 1..] == b
  {
  }

  lemma OperatorOf(op: BinaryOp)
    ensures BinaryKind(op) in Operators(BinaryLevel(op)) && Operators(BinaryLevel(op))[BinaryKind(op)] == op
    ensures BinaryLevel(op) == 1 ==> BinaryKind(op) == OrOr || BinaryKind(op) == QQ
  {
  }

  /** A tree spells its expression at its own level, and a chain of `||` or `??` is one of that operator. */
  ghost predicate TreeSpells(c: Cst) {
    && Spells(Level(c), Ast(c), Yield(c))
    && (c.CBinary? && BinaryLevel(c.op) == 1 ==>
          BinaryKind(c.op) in Operators(1) && SpellsChain(BinaryKind(c.op), Ast(c), Yield(c)))
  }

  lemma {:induction false} WfSpells(c: Cst)
    requires Wf(c)
    ensures TreeSpells(c)
    decreases c, 1
  {
    match c
    case CLit(value) => LiteralSpells(value);
    case CName(name) =>
    case CParen(inner) =>
      WfSpells(inner);
      Loosen(Level(inner), 0, Ast(inner), Yield(inner));
      EnclosedSpells(LParen, Yield(inner), RParen);
    case CArray(elements, trailing) =>
      ItemsSpell(elements, trailing);
      EnclosedSpells(LBracket, YieldList(elements, trailing), RBracket);
    case CMember(target, property, optional) =>
      WfSpells(target);
      MemberSpells(target, property, optional);
    case CIndex(target, index, optional) =>
      WfSpells(target);
      WfSpells(index);
      IndexSpells(target, index, optional);
    case CCall(callee, args, trailing) =>
      WfSpells(callee);
      ItemsSpell(args, trailing);
      CallSpells(callee, args, trailing);
    case CUnary(op, argument) =>
      WfSpells(argument);
      PrefixSpells(op, argument);
    case CBinary(op, left, right) =>
      WfSpells(left);
      WfSpells(right);
      if BinaryLevel(op) == 1 { ChainSpells(op, left, right); } else { OperationSpells(op, left, right); }
    case CTernary(test, consequent, alternate) =>
      WfSpells(test);
      WfSpells(consequent);
      WfSpells(alternate);
      ConditionalSpells(test, consequent, alternate);
  }

  lemma LiteralSpells(value: Literal)
    ensures SpellsPrimary(Lit(value), [LiteralKind(value)])
  {
  }

  lemma EnclosedSpells(open: Kind, inner: seq<Kind>, close: Kind)
    ensures var ks := [open] + inner + [close];
            |ks| >= 2 && ks[0] == open && ks[|ks| - 1] == close && ks[1..|ks| - 1] == inner
  {
  }

  lemma MemberParts(a: seq<Kind>, k1: Kind, k2: Kind)
    ensures var ks := a + [k1, k2]; var n := |ks|; n >= 2 && ks[n - 1] == k2 && ks[n - 2] == k1 && ks[..n - 2] == a
  {
  }

  lemma IndexParts(e: Expr, a: seq<Kind>, b: seq<Kind>)
    requires e.Index? && !e.optional && Spells(8, e.target, a) && Spells(0, e.index, b)
    ensures SpellsIndex(e, a + [LBracket] + b + [RBracket])
  {
    var ks, i := a + [LBracket] + b + [RBracket], |a|;
    assert ks[..i] == a && ks[i + 1..|ks| - 1] == b;
  }

  lemma OptionalIndexParts(e: Expr, a: seq<Kind>, b: seq<Kind>)
    requires e.Index? && e.optional && Spells(8, e.target, a) && Spells(0, e.index, b)
    ensures SpellsIndex(e, a + [QDot, LBracket] + b + [RBracket])
  {
    var ks, i := a + [QDot, LBracket] + b + [RBracket], |a|;
    assert ks[i] == QDot && ks[i + 1] == LBracket && ks[..i] == a && ks[i + 2..|ks| - 1] == b;
  }

  lemma CallParts(e: Expr, a: seq<Kind>, b: seq<Kind>)
    requires e.Call? && |e.args| <= 8 && Spells(8, e.callee, a) && SpellsItems(e.args, b)
    ensures SpellsCall(e, a + [LParen] + b + [RParen])
  {
    var ks, i := a + [LParen] + b + [RParen], |a|;
    assert ks[..i] == a && ks[i + 1..|ks| - 1] == b;
  }

  lemma PrefixParts(e: Expr, k: Kind, a: seq<Kind>)
    requires e.Unary? && k in Prefixes() && Prefixes()[k] == e.uop && Spells(7, e.argument, a)
    ensures SpellsPrefix(e, [k] + a)
  {
    assert ([k] + a)[1..] == a;
  }

  lemma MemberSpells(target: Cst, property: string, optional: bool)
    requires Level(target) >= 8 && Spells(Level(target), Ast(target), Yield(target))
    ensures TreeSpells(CMember(target, property, optional))
  {
    Loosen(Level(target), 8, Ast(target), Yield(target));
    MemberParts(Yield(target), if optional then QDot else Dot, Ident(property));
    assert SpellsMember(Ast(CMember(target, property, optional)), Yield(CMember(target, property, optional)));
  }

  lemma IndexSpells(target: Cst, index: Cst, optional: bool)
    requires Level(target) >= 8 && Spells(Level(target), Ast(target), Yield(target))
    requires Spells(Level(index), Ast(index), Yield(index))
    ensures TreeSpells(CIndex(target, index, optional))
  {
    Loosen(Level(target), 8, Ast(target), Yield(target));
    Loosen(Level(index), 0, Ast(index), Yield(index));
    if optional {
      OptionalIndexParts(Ast(CIndex(target, index, optional)), Yield(target), Yield(index));
    } else {
      IndexParts(Ast(CIndex(target, index, optional)), Yield(target), Yield(index));
    }
  }

  lemma CallSpells(callee: Cst, args: seq<Cst>, trailing: bool)
    requires Level(callee) >= 8 && Spells(Level(callee), Ast(callee), Yield(callee)) && |args| <= MAX_ARGUMENTS
    requires SpellsItems(AstList(args), YieldList(args, trailing))
    ensures TreeSpells(CCall(callee, args, trailing))
  {
    Loosen(Level(callee), 8, Ast(callee), Yield(callee));
    CallParts(Ast(CCall(callee, args, trailing)), Yield(callee), YieldList(args, trailing));
  }

  lemma PrefixSpells(op: UnaryOp, argument: Cst)
    requires Level(argument) >= 7 && Spells(Level(argument), Ast(argument), Yield(argument))
    ensures TreeSpells(CUnary(op, argument))
  {
    Loosen(Level(argument), 7, Ast(argument), Yield(argument));
    PrefixParts(Ast(CUnary(op, argument)), UnaryKind(op), Yield(argument));
  }

  lemma ChainSpells(op: BinaryOp, left: Cst, right: Cst)
    requires BinaryLevel(op) == 1 && Level(left) >= 1 && Level(right) > 1 && !MixesNullish(op, left)
    requires TreeSpells(left) && TreeSpells(right)
    ensures TreeSpells(CBinary(op, left, right))
  {
    OperatorOf(op);
    Loosen(Level(right), 2, Ast(right), Yield(right));
    if Level(left) >= 2 {
      Loosen(Level(left), 2, Ast(left), Yield(left));
    }
    Parts(Yield(left), BinaryKind(op), Yield(right));
    assert SpellsChain(BinaryKind(op), Ast(CBinary(op, left, right)), Yield(CBinary(op, left, right)));
  }

  lemma OperationSpells(op: BinaryOp, left: Cst, right: Cst)
    requires BinaryLevel(op) > 1 && Level(left) >= BinaryLevel(op) && Level(right) > BinaryLevel(op)
    requires TreeSpells(left) && TreeSpells(right)
    ensures TreeSpells(CBinary(op, left, right))
  {
    OperatorOf(op);
    Loosen(Level(left), BinaryLevel(op), Ast(left), Yield(left));
    Loosen(Level(right), BinaryLevel(op) + 1, Ast(right), Yield(right));
    Parts(Yield(left), BinaryKind(op), Yield(right));
    assert SpellsOperation(BinaryLevel(op), Ast(CBinary(op, left, right)), Yield(CBinary(op, left, right)));
  }

  lemma ThreeParts(a: seq<Kind>, b: seq<Kind>, c: seq<Kind>)
    ensures var ks, i, j := a + [Question] + b + [Colon] + c, |a|, |a| + 1 + |b|;
            ks[..i] == a && ks[i] == Question && ks[i + 1..j] == b && ks[j] == Colon && ks[j + 1..] == c
  {
    var front := a + [Question] + b;
    assert a + [Question] + b + [Colon] + c == front + ([Colon] + c);
    assert front[|a| + 1..] == b && (front + ([Colon] + c))[..|front|] == front;
  }

  lemma ConditionalSpells(test: Cst, consequent: Cst, alternate: Cst)
    requires Level(test) >= 1 && TreeSpells(test) && TreeSpells(consequent) && TreeSpells(alternate)
    ensures TreeSpells(CTernary(test, consequent, alternate))
  {
    Loosen(Level(test), 1, Ast(test), Yield(test));
    Loosen(Level(consequent), 0, Ast(consequent), Yield(consequent));
    Loosen(Level(alternate), 0, Ast(alternate), Yield(alternate));
    var ks := Yield(CTernary(test, consequent, alternate));
    var i := |Yield(test)|;
    var j := i + 1 + |Yield(consequent)|;
    ThreeParts(Yield(test), Yield(consequent), Yield(alternate));
    assert SpellsConditional(Ast(CTernary(test, consequent, alternate)), ks);
  }

  lemma ListParts(a: seq<Kind>, b: seq<Kind>)
    ensures (a + b)[..|a|] == a && (a + b)[|a|..] == b
  {
  }

  lemma TailParts(a: seq<Kind>, b: seq<Kind>)
    ensures var ks, i := [Comma] + a + b, 1 + |a|; ks[0] == Comma && ks[1..i] == a && ks[i..] == b
  {
  }

  lemma {:induction false} ItemsSpell(cs: seq<Cst>, trailing: bool)
    requires (forall x <- cs :: Wf(x)) && (trailing ==> cs != [])
    ensures SpellsItems(AstList(cs), YieldList(cs, trailing))
    decreases cs, 0
  {
    if cs != [] {
      WfSpells(cs[0]);
      Loosen(Level(cs[0]), 0, Ast(cs[0]), Yield(cs[0]));
      MoreSpell(cs[1..], trailing);
      ListParts(Yield(cs[0]), YieldTail(cs[1..], trailing));
      assert AstList(cs)[0] == Ast(cs[0]) && AstList(cs)[1..] == AstList(cs[1..]);
    }
  }

  lemma {:induction false} MoreSpell(cs: seq<Cst>, trailing: bool)
    requires forall x <- cs :: Wf(x)
    ensures SpellsMore(AstList(cs), YieldTail(cs, trailing))
    decreases cs, 0
  {
    if cs != [] {
      WfSpells(cs[0]);
      Loosen(Level(cs[0]), 0, Ast(cs[0]), Yield(cs[0]));
      MoreSpell(cs[1..], trailing);
      TailParts(Yield(cs[0]), YieldTail(cs[1..], trailing));
      assert AstList(cs)[0] == Ast(cs[0]) && AstList(cs)[1..] == AstList(cs[1..]);
    }
  }

  // Every spelling has a concrete tree

  /** A concrete tree of `e` that stands at a level and yields `ks`. */
  ghost predicate IsTree(c: Cst, level: nat, e: Expr, ks: seq<Kind>) {
    Wf(c) && Level(c) >= level && Ast(c) == e && Yield(c) == ks
  }

  lemma Around(ks: seq<Kind>, i: nat)
    requires i < |ks|
    ensures ks == ks[..i] + [ks[i]] + ks[i + 1..]
  {
  }

  lemma AroundBoth(ks: seq<Kind>, i: nat, j: nat)
    requires i < j < |ks|
    ensures ks == ks[..i] + [ks[i]] + ks[i + 1..j] + [ks[j]] + ks[j + 1..]
  {
  }

  lemma AroundIndex(ks: seq<Kind>, i: nat, k: nat, optional: bool)
    requires i < k < |ks| && ks[i..k] == IndexOpening(optional) && ks[|ks| - 1] == RBracket
    ensures ks == ks[..i] + IndexOpening(optional) + ks[k..|ks| - 1] + [RBracket]
  {
  }

  lemma AroundCall(ks: seq<Kind>, i: nat)
    requires i < |ks| - 1
    ensures ks == ks[..i] + [ks[i]] + ks[i + 1..|ks| - 1] + [ks[|ks| - 1]]
  {
  }

  lemma AroundComma(ks: seq<Kind>, i: nat)
    requires 1 <= i <= |ks|
    ensures ks == [ks[0]] + ks[1..i] + ks[i..]
  {
  }

  lemma Enclosed(ks: seq<Kind>)
    requires |ks| >= 2
    ensures ks == [ks[0]] + ks[1..|ks| - 1] + [ks[|ks| - 1]]
  {
  }

  lemma {:induction false} SpelledTree(level: nat, e: Expr, ks: seq<Kind>) returns (c: Cst)
    requires level <= 9 && Spells(level, e, ks)
    ensures IsTree(c, level, e, ks)
    decreases |ks|, 10 - level
  {
    if level == 9 {
      c := PrimaryTree(e, ks);
    } else if Spells(level + 1, e, ks) {
      c := SpelledTree(level + 1, e, ks);
    } else if level == 0 {
      c := ConditionalTree(e, ks);
    } else if level == 1 {
      c := ChainTree(if SpellsChain(OrOr, e, ks) then OrOr else QQ, e, ks);
    } else if level <= 6 {
      c := OperationTree(level, e, ks);
    } else if level == 7 {
      var argument := SpelledTree(7, e.argument, ks[1..]);
      assert ks == [ks[0]] + ks[1..];
      c := CUnary(e.uop, argument);
    } else if SpellsMember(e, ks) {
      c := MemberTree(e, ks);
    } else if SpellsIndex(e, ks) {
      c := IndexTree(e, ks);
    } else {
      c := CallTree(e, ks);
    }
  }

  lemma {:induction false} ConditionalTree(e: Expr, ks: seq<Kind>) returns (c: Cst)
    requires SpellsConditional(e, ks)
    ensures IsTree(c, 0, e, ks)
    decreases |ks|, 0
  {
    var i, j :| 0 <= i < j < |ks| && ks[i] == Question && ks[j] == Colon
                && Spells(1, e.test, ks[..i]) && Spells(0, e.consequent, ks[i + 1..j])
                && Spells(0, e.alternate, ks[j + 1..]);
    var test := SpelledTree(1, e.test, ks[..i]);
    var consequent := SpelledTree(0, e.consequent, ks[i + 1..j]);
    var alternate := SpelledTree(0, e.alternate, ks[j + 1..]);
    ConditionalNode(e, test, consequent, alternate, ks[..i], ks[i + 1..j], ks[j + 1..]);
    AroundBoth(ks, i, j);
    c := CTernary(test, consequent, alternate);
  }

  lemma ConditionalNode(e: Expr, test: Cst, consequent: Cst, alternate: Cst,
                        a: seq<Kind>, b: seq<Kind>, d: seq<Kind>)
    requires e.Ternary? && IsTree(test, 1, e.test, a)
    requires IsTree(consequent, 0, e.consequent, b) && IsTree(alternate, 0, e.alternate, d)
    ensures IsTree(CTernary(test, consequent, alternate), 0, e, a + [Question] + b + [Colon] + d)
  {
  }

  lemma {:induction false} ChainTree(k: Kind, e: Expr, ks: seq<Kind>) returns (c: Cst)
    requires k in Operators(1) && SpellsChain(k, e, ks)
    ensures IsTree(c, 1, e, ks) && c.CBinary? && c.op == Operators(1)[k]
    decreases |ks|, 0
  {
    var i :| 0 <= i < |ks| && ks[i] == k
             && (Spells(2, e.left, ks[..i]) || SpellsChain(k, e.left, ks[..i])) && Spells(2, e.right, ks[i + 1..]);
    var left;
    if Spells(2, e.left, ks[..i]) {
      left := SpelledTree(2, e.left, ks[..i]);
    } else {
      left := ChainTree(k, e.left, ks[..i]);
    }
    var right := SpelledTree(2, e.right, ks[i + 1..]);
    Around(ks, i);
    ChainNode(k, e, left, right, ks[..i], ks[i + 1..]);
    c := CBinary(e.op, left, right);
  }

  lemma ChainNode(k: Kind, e: Expr, left: Cst, right: Cst, a: seq<Kind>, b: seq<Kind>)
    requires k in Operators(1) && e.Binary? && e.op == Operators(1)[k]
    requires IsTree(left, 1, e.left, a) && IsTree(right, 2, e.right, b)
    requires Level(left) >= 2 || (left.CBinary? && left.op == e.op)
    ensures IsTree(CBinary(e.op, left, right), 1, e, a + [k] + b)
  {
    OperatorAt(1, k);
  }

  lemma {:induction false} OperationTree(level: nat, e: Expr, ks: seq<Kind>) returns (c: Cst)
    requires 2 <= level <= 6 && SpellsOperation(level, e, ks)
    ensures IsTree(c, level, e, ks)
    decreases |ks|, 0
  {
    var i :| 0 <= i < |ks| && ks[i] in Operators(level) && Operators(level)[ks[i]] == e.op
             && Spells(level, e.left, ks[..i]) && Spells(level + 1, e.right, ks[i + 1..]);
    var left := SpelledTree(level, e.left, ks[..i]);
    var right := SpelledTree(level + 1, e.right, ks[i + 1..]);
    Around(ks, i);
    OperatorAt(level, ks[i]);
    c := CBinary(e.op, left, right);
  }

  lemma OperatorAt(level: nat, k: Kind)
    requires k in Operators(level)
    ensures BinaryLevel(Operators(level)[k]) == level && BinaryKind(Operators(level)[k]) == k
  {
  }

  lemma {:induction false} MemberTree(e: Expr, ks: seq<Kind>) returns (c: Cst)
    requires SpellsMember(e, ks)
    ensures IsTree(c, 8, e, ks)
    decreases |ks|, 0
  {
    var target := SpelledTree(8, e.target, ks[..|ks| - 2]);
    assert ks == ks[..|ks| - 2] + [ks[|ks| - 2], ks[|ks| - 1]];
    c := CMember(target, e.property, e.optional);
  }

  lemma {:induction false} IndexTree(e: Expr, ks: seq<Kind>) returns (c: Cst)
    requires SpellsIndex(e, ks)
    ensures IsTree(c, 8, e, ks)
    decreases |ks|, 1
  {
    if e.optional {
      var i :| 0 <= i < |ks| - 2 && ks[i] == QDot && ks[i + 1] == LBracket
               && Spells(8, e.target, ks[..i]) && Spells(0, e.index, ks[i + 2..|ks| - 1]);
      c := IndexTreeAt(e, ks, i, i + 2);
    } else {
      var i :| 0 <= i < |ks| - 1 && ks[i] == LBracket
               && Spells(8, e.target, ks[..i]) && Spells(0, e.index, ks[i + 1..|ks| - 1]);
      c := IndexTreeAt(e, ks, i, i + 1);
    }
  }

  lemma {:induction false} IndexTreeAt(e: Expr, ks: seq<Kind>, i: nat, k: nat) returns (c: Cst)
    requires e.Index? && i < k < |ks| && ks[i..k] == IndexOpening(e.optional) && ks[|ks| - 1] == RBracket
    requires Spells(8, e.target, ks[..i]) && Spells(0, e.index, ks[k..|ks| - 1])
    ensures IsTree(c, 8, e, ks)
    decreases |ks|, 0
  {
    var target := SpelledTree(8, e.target, ks[..i]);
    var index := SpelledTree(0, e.index, ks[k..|ks| - 1]);
    AroundIndex(ks, i, k, e.optional);
    c := CIndex(target, index, e.optional);
  }

  lemma {:induction false} CallTree(e: Expr, ks: seq<Kind>) returns (c: Cst)
    requires SpellsCall(e, ks)
    ensures IsTree(c, 8, e, ks)
    decreases |ks|, 0
  {
    var i :| 0 <= i < |ks| - 1 && ks[i] == LParen
             && Spells(8, e.callee, ks[..i]) && SpellsItems(e.args, ks[i + 1..|ks| - 1]);
    var callee := SpelledTree(8, e.callee, ks[..i]);
    var args, trailing := ItemTrees(e.args, ks[i + 1..|ks| - 1]);
    AroundCall(ks, i);
    c := CCall(callee, args, trailing);
  }

  lemma {:induction false} PrimaryTree(e: Expr, ks: seq<Kind>) returns (c: Cst)
    requires SpellsPrimary(e, ks)
    ensures IsTree(c, 9, e, ks)
    decreases |ks|, 0
  {
    if |ks| == 1 {
      c := if e.Lit? then CLit(e.value) else CName(e.name);
      assert ks == [ks[0]];
    } else {
      Enclosed(ks);
      if ks[0] == LParen {
        var inner := SpelledTree(0, e, ks[1..|ks| - 1]);
        c := CParen(inner);
      } else {
        var elements, trailing := ItemTrees(e.elements, ks[1..|ks| - 1]);
        c := CArray(elements, trailing);
      }
    }
  }

  /** Well-formed trees of the items, which yield `ks`. */
  ghost predicate AreTrees(cs: seq<Cst>, trailing: bool, es: seq<Expr>, ks: seq<Kind>) {
    (forall x <- cs :: Wf(x)) && (trailing ==> cs != []) && AstList(cs) == es && YieldList(cs, trailing) == ks
  }

  ghost predicate AreMoreTrees(cs: seq<Cst>, trailing: bool, es: seq<Expr>, ks: seq<Kind>) {
    (forall x <- cs :: Wf(x)) && AstList(cs) == es && YieldTail(cs, trailing) == ks
  }

  lemma {:induction false} ItemTrees(es: seq<Expr>, ks: seq<Kind>) returns (cs: seq<Cst>, trailing: bool)
    requires SpellsItems(es, ks)
    ensures AreTrees(cs, trailing, es, ks)
    decreases |ks|, 12
  {
    if es == [] {
      cs, trailing := [], false;
    } else {
      var i :| 0 <= i <= |ks| && Spells(0, es[0], ks[..i]) && SpellsMore(es[1..], ks[i..]);
      var c := SpelledTree(0, es[0], ks[..i]);
      cs, trailing := MoreTrees(es[1..], ks[i..]);
      FirstTree(c, cs, es);
      assert ks == ks[..i] + ks[i..];
      cs := [c] + cs;
    }
  }

  lemma {:induction false} MoreTrees(es: seq<Expr>, ks: seq<Kind>) returns (cs: seq<Cst>, trailing: bool)
    requires SpellsMore(es, ks)
    ensures AreMoreTrees(cs, trailing, es, ks)
    decreases |ks|, 11
  {
    if es == [] {
      cs, trailing := [], ks != [];
    } else {
      var i :| 1 <= i <= |ks| && Spells(0, es[0], ks[1..i]) && SpellsMore(es[1..], ks[i..]);
      var c := SpelledTree(0, es[0], ks[1..i]);
      cs, trailing := MoreTrees(es[1..], ks[i..]);
      FirstTree(c, cs, es);
      AroundComma(ks, i);
      cs := [c] + cs;
    }
  }

  lemma FirstTree(c: Cst, cs: seq<Cst>, es: seq<Expr>)
    requires es != [] && Ast(c) == es[0] && AstList(cs) == es[1..]
    ensures ([c] + cs)[0] == c && ([c] + cs)[1..] == cs && AstList([c] + cs) == es
  {
    assert ([c] + cs)[1..] == cs;
    assert es == [es[0]] + es[1..];
  }

  // The grammar of the parser

  /** The level grammar derives exactly what the concrete trees derive. */
  lemma {:induction false} LevelsAreTrees(e: Expr, ks: seq<Kind>)
    ensures Spells(0, e, ks) <==> Derives(e, ks)
  {
    if Spells(0, e, ks) {
      var c := SpelledTree(0, e, ks);
    }
    if c :| Wf(c) && Ast(c) == e && Yield(c) == ks {
      WfSpells(c);
      Loosen(Level(c), 0, e, ks);
    }
  }

  /** The parser returns an expression exactly if the tokens before the end marker spell it in the level grammar. */
  lemma {:induction false} ParserFollowsLevels(ks: seq<Kind>, e: Expr)
    requires Eof !in ks
    ensures ParseProgram(ks + [Eof]) == Ok(e, []) <==> Spells(0, e, ks)
  {
    ParserIsExact(ks, e);
    LevelsAreTrees(e, ks);
  }
}
