/** The per-item rewrite on tokens: `$json.items[k]` becomes `$json`, or the same reference at another index; rewriting
    the tokens of an expression rewrites its syntax tree. */
module ItemRewrite {
  import opened Syntax
  import opened Sequences
  import opened Numbers
  import opened ParserSpec
  import opened Grammar
  import opened ParserTheorems
  import opened ParserSoundness
  import opened Values

  const JSON := Ident("$json")

  /** What replaces a reference: the element itself, or the reference at index `i`. */
  datatype Target = Element | At(i: nat)

  predicate DigitsKind(k: Kind) {
    k.Number? && AllDigits(k.lexeme)
  }

  /** `.items[k]`, the rest of a reference behind `$json`. */
  predicate ItemsAhead(ks: seq<Kind>) {
    |ks| >= 5 && ks[0] == Dot && ks[1] == Ident("items") && BracketAhead(ks[2..])
  }

  predicate BracketAhead(ks: seq<Kind>) {
    |ks| >= 3 && ks[0] == LBracket && DigitsKind(ks[1]) && ks[2] == RBracket
  }

  /** A reference `$json.items[k]` starts here. */
  predicate WindowAt(ks: seq<Kind>) {
    ks != [] && ks[0] == JSON && ItemsAhead(ks[1..])
  }

  /** What follows `$json` in the replacement. */
  function Suffix(to: Target): seq<Kind> {
    match to
    case Element => []
    case At(i) => [Dot, Ident("items"), LBracket, Number(Decimal(i)), RBracket]
  }

  function RewriteKinds(ks: seq<Kind>, to: Target): seq<Kind>
    decreases |ks|
  {
    if ks == [] then []
    else if WindowAt(ks) then [JSON] + Suffix(to) + RewriteKinds(ks[6..], to)
    else [ks[0]] + RewriteKinds(ks[1..], to)
  }

  // The same rewrite on trees

  /** `$json`, or a property of that name. */
  predicate JsonRoot(c: Cst) {
    c == CName("$json") || (c.CMember? && c.property == "$json")
  }

  predicate IsItems(c: Cst) {
    c.CMember? && !c.optional && c.property == "items" && JsonRoot(c.target)
  }

  predicate IsDigits(c: Cst) {
    c.CLit? && c.value.NumberLit? && AllDigits(c.value.lexeme)
  }

  /** `$json.items[k]`, spelled with nothing in between. */
  predicate IsReference(c: Cst) {
    c.CIndex? && !c.optional && IsItems(c.target) && IsDigits(c.index)
  }

  function Replacement(root: Cst, to: Target): Cst {
    match to
    case Element => root
    case At(i) => CIndex(CMember(root, "items", false), CLit(NumberLit(Decimal(i))), false)
  }

  function Rewrite(c: Cst, to: Target): Cst {
    match c
    case CLit(_) => c
    case CName(_) => c
    case CParen(inner) => CParen(Rewrite(inner, to))
    case CArray(elements, trailing) => CArray(RewriteAll(elements, to), trailing)
    case CMember(target, property, optional) => CMember(Rewrite(target, to), property, optional)
    case CIndex(target, index, optional) =>
      if IsReference(c) then Replacement(Rewrite(target.target, to), to)
      else CIndex(Rewrite(target, to), Rewrite(index, to), optional)
    case CCall(callee, args, trailing) => CCall(Rewrite(callee, to), RewriteAll(args, to), trailing)
    case CUnary(op, argument) => CUnary(op, Rewrite(argument, to))
    case CBinary(op, left, right) => CBinary(op, Rewrite(left, to), Rewrite(right, to))
    case CTernary(test, consequent, alternate) =>
      CTernary(Rewrite(test, to), Rewrite(consequent, to), Rewrite(alternate, to))
  }

  function RewriteAll(cs: seq<Cst>, to: Target): (r: seq<Cst>)
    ensures |r| == |cs|
  {
    if cs == [] then [] else [Rewrite(cs[0], to)] + RewriteAll(cs[1..], to)
  }

  /** Rewriting keeps a tree well formed and never loosens it below postfix level. */
  lemma {:induction false} RewriteIsWf(c: Cst, to: Target)
    requires Wf(c)
    ensures Wf(Rewrite(c, to))
    ensures Level(c) < 8 ==> Level(Rewrite(c, to)) == Level(c)
    ensures Level(c) >= 8 ==> Level(Rewrite(c, to)) >= 8
    ensures c.CBinary? ==> Rewrite(c, to).CBinary? && Rewrite(c, to).op == c.op
    ensures Rewrite(c, to).CBinary? ==> c.CBinary?
  {
    match c
    case CParen(inner) => RewriteIsWf(inner, to);
    case CArray(elements, _) => RewriteAllIsWf(elements, to);
    case CMember(target, _, _) => RewriteIsWf(target, to);
    case CIndex(target, index, _) =>
      RewriteIsWf(target, to); RewriteIsWf(index, to);
      if IsReference(c) { RewriteIsWf(target.target, to); }
    case CCall(callee, args, _) => RewriteIsWf(callee, to); RewriteAllIsWf(args, to);
    case CUnary(_, argument) => RewriteIsWf(argument, to);
    case CBinary(_, left, right) => RewriteIsWf(left, to); RewriteIsWf(right, to);
    case CTernary(test, consequent, alternate) =>
      RewriteIsWf(test, to); RewriteIsWf(consequent, to); RewriteIsWf(alternate, to);
    case _ =>
  }

  lemma {:induction false} RewriteAllIsWf(cs: seq<Cst>, to: Target)
    requires forall x <- cs :: Wf(x)
    ensures forall x <- RewriteAll(cs, to) :: Wf(x)
  {
    if cs != [] {
      RewriteIsWf(cs[0], to);
      RewriteAllIsWf(cs[1..], to);
    }
  }

  // Rewriting tokens, piece by piece

  lemma RewriteOther(k: Kind, rest: seq<Kind>, to: Target)
    requires k != JSON || !ItemsAhead(rest)
    ensures RewriteKinds([k] + rest, to) == [k] + RewriteKinds(rest, to)
  {
    assert ([k] + rest)[1..] == rest;
  }

  lemma RewriteWindow(lexeme: string, rest: seq<Kind>, to: Target)
    requires AllDigits(lexeme)
    ensures RewriteKinds([JSON, Dot, Ident("items"), LBracket, Number(lexeme), RBracket] + rest, to)
            == [JSON] + Suffix(to) + RewriteKinds(rest, to)
  {
    var ks := WindowShape(lexeme, rest);
    assert WindowAt(ks);
  }

  lemma WindowShape(lexeme: string, rest: seq<Kind>) returns (ks: seq<Kind>)
    ensures ks == [JSON, Dot, Ident("items"), LBracket, Number(lexeme), RBracket] + rest && ks[6..] == rest
    ensures |ks| >= 6 && ks[0] == JSON && ks[1..][0] == Dot && ks[1..][1] == Ident("items")
    ensures ks[1..][2..] == [LBracket, Number(lexeme), RBracket] + rest
  {
    ks := [JSON, Dot, Ident("items"), LBracket, Number(lexeme), RBracket] + rest;
  }

  /** A spelling that starts with a number and then `]` is that number alone. */
  lemma {:induction false} NumberAlone(x: Cst, rest: seq<Kind>)
    requires Wf(x) && |Yield(x) + ([RBracket] + rest)| >= 2
    requires (Yield(x) + ([RBracket] + rest))[0].Number? && (Yield(x) + ([RBracket] + rest))[1] == RBracket
    ensures x.CLit? && x.value.NumberLit?
  {
    var ks := Yield(x) + ([RBracket] + rest);
    YieldBegins(x);
    var literal := CLit(NumberLit(ks[0].lexeme));
    Complete(x, 0, [RBracket] + rest);
    Complete(literal, 0, ks[1..]);
    assert ks == Yield(literal) + ks[1..];
    assert |Yield(x)| == 1;
  }

  /** The tokens behind `c` complete a reference that `c` begins. */
  predicate Completes(c: Cst, rest: seq<Kind>) {
    (JsonRoot(c) && ItemsAhead(rest)) || (IsItems(c) && BracketAhead(rest))
  }

  lemma NoSuffixNoCompletion(c: Cst, rest: seq<Kind>)
    requires !StartsSuffix(Head(rest))
    ensures !Completes(c, rest)
  {
  }

  /** Rewriting the tokens of a tree, in any context that does not complete a reference it begins. */
  lemma {:induction false} RewriteYield(c: Cst, rest: seq<Kind>, to: Target)
    requires Wf(c) && !Completes(c, rest)
    requires Level(c) < 8 ==> !StartsSuffix(Head(rest))
    ensures RewriteKinds(Yield(c) + rest, to) == Yield(Rewrite(c, to)) + RewriteKinds(rest, to)
    decreases c, 1
  {
    match c
    case CLit(value) => RewriteOther(LiteralKind(value), rest, to);
    case CName(name) => RewriteOther(Ident(name), rest, to);
    case CParen(inner) => RewriteParen(inner, rest, to);
    case CArray(elements, trailing) => RewriteArray(elements, trailing, rest, to);
    case CMember(target, property, optional) => RewriteMember(target, property, optional, rest, to);
    case CIndex(target, index, optional) =>
      if IsReference(c) {
        RewriteReference(c, rest, to);
      } else {
        RewriteIndex(target, index, optional, rest, to);
      }
    case CCall(callee, args, trailing) => RewriteCall(callee, args, trailing, rest, to);
    case CUnary(op, argument) => RewriteUnary(op, argument, rest, to);
    case CBinary(op, left, right) => RewriteBinary(op, left, right, rest, to);
    case CTernary(test, consequent, alternate) => RewriteTernary(test, consequent, alternate, rest, to);
  }

  lemma {:induction false} RewriteParen(inner: Cst, rest: seq<Kind>, to: Target)
    requires Wf(inner)
    ensures RewriteKinds(Yield(CParen(inner)) + rest, to) == Yield(CParen(Rewrite(inner, to))) + RewriteKinds(rest, to)
    decreases CParen(inner), 0
  {
    EnclosedShape(inner, rest);
    RewriteOther(LParen, Yield(inner) + ([RParen] + rest), to);
    NoSuffixNoCompletion(inner, [RParen] + rest);
    RewriteYield(inner, [RParen] + rest, to);
    RewriteOther(RParen, rest, to);
    EnclosedShape(Rewrite(inner, to), RewriteKinds(rest, to));
  }

  lemma {:induction false} RewriteArray(elements: seq<Cst>, trailing: bool, rest: seq<Kind>, to: Target)
    requires Wf(CArray(elements, trailing))
    ensures RewriteKinds(Yield(CArray(elements, trailing)) + rest, to)
            == Yield(CArray(RewriteAll(elements, to), trailing)) + RewriteKinds(rest, to)
    decreases CArray(elements, trailing), 0
  {
    ArrayShape(elements, trailing, rest);
    RewriteOther(LBracket, YieldList(elements, trailing) + ([RBracket] + rest), to);
    RewriteList(elements, trailing, [RBracket] + rest, to);
    RewriteOther(RBracket, rest, to);
    ArrayShape(RewriteAll(elements, to), trailing, RewriteKinds(rest, to));
  }

  lemma {:induction false} RewriteMember(target: Cst, property: string, optional: bool, rest: seq<Kind>, to: Target)
    requires Wf(CMember(target, property, optional)) && !Completes(CMember(target, property, optional), rest)
    ensures RewriteKinds(Yield(CMember(target, property, optional)) + rest, to)
            == Yield(CMember(Rewrite(target, to), property, optional)) + RewriteKinds(rest, to)
    decreases CMember(target, property, optional), 0
  {
    var dot := if optional then QDot else Dot;
    var after := [dot, Ident(property)] + rest;
    MemberShape(target, property, optional, rest);
    TwoKinds(dot, Ident(property), rest);
    RewriteYield(target, after, to);
    RewriteOther(dot, [Ident(property)] + rest, to);
    RewriteOther(Ident(property), rest, to);
    MemberShape(Rewrite(target, to), property, optional, RewriteKinds(rest, to));
    TwoKinds(dot, Ident(property), RewriteKinds(rest, to));
  }

  lemma TwoKinds(a: Kind, b: Kind, rest: seq<Kind>)
    ensures var both := [a, b] + rest;
            both == [a] + ([b] + rest) && both[1..] == [b] + rest && both[1..][1..] == rest && both[2..] == rest
  {
  }

  lemma RewriteOpening(optional: bool, rest: seq<Kind>, to: Target)
    ensures RewriteKinds(IndexOpening(optional) + rest, to) == IndexOpening(optional) + RewriteKinds(rest, to)
  {
    RewriteOther(LBracket, rest, to);
    if optional {
      RewriteOther(QDot, [LBracket] + rest, to);
      assert IndexOpening(true) + rest == [QDot] + ([LBracket] + rest);
      assert IndexOpening(true) + RewriteKinds(rest, to) == [QDot] + ([LBracket] + RewriteKinds(rest, to));
    }
  }

  lemma {:induction false} RewriteIndex(target: Cst, index: Cst, optional: bool, rest: seq<Kind>, to: Target)
    requires Wf(CIndex(target, index, optional)) && !IsReference(CIndex(target, index, optional))
    ensures RewriteKinds(Yield(CIndex(target, index, optional)) + rest, to)
            == Yield(CIndex(Rewrite(target, to), Rewrite(index, to), optional)) + RewriteKinds(rest, to)
    decreases CIndex(target, index, optional), 0
  {
    var inside := Yield(index) + ([RBracket] + rest);
    IndexShape(target, index, optional, rest);
    IndexDoesNotComplete(target, index, optional, rest);
    RewriteYield(target, IndexOpening(optional) + inside, to);
    RewriteOpening(optional, inside, to);
    NoSuffixNoCompletion(index, [RBracket] + rest);
    RewriteYield(index, [RBracket] + rest, to);
    RewriteOther(RBracket, rest, to);
    IndexShape(Rewrite(target, to), Rewrite(index, to), optional, RewriteKinds(rest, to));
  }

  lemma {:induction false} IndexDoesNotComplete(target: Cst, index: Cst, optional: bool, rest: seq<Kind>)
    requires Wf(CIndex(target, index, optional)) && !IsReference(CIndex(target, index, optional))
    ensures !Completes(target, IndexOpening(optional) + (Yield(index) + ([RBracket] + rest)))
  {
    var inside := Yield(index) + ([RBracket] + rest);
    var after := IndexOpening(optional) + inside;
    if BracketAhead(after) {
      assert !optional && after[1] == inside[0] && after[2] == inside[1];
      NumberAlone(index, rest);
    }
  }

  /** A reference spelled as one: behind its root come exactly the tokens of `.items[k]`. */
  lemma ReferenceShape(root: Cst, lexeme: string, rest: seq<Kind>)
    ensures Yield(CIndex(CMember(root, "items", false), CLit(NumberLit(lexeme)), false)) + rest
            == Yield(root) + ([Dot, Ident("items"), LBracket, Number(lexeme), RBracket] + rest)
  {
  }

  lemma ReplacementShape(root: Cst, to: Target, rest: seq<Kind>)
    ensures Yield(Replacement(root, to)) + rest == Yield(root) + (Suffix(to) + rest)
  {
    match to
    case Element => assert Suffix(to) + rest == rest;
    case At(i) => ReferenceShape(root, Decimal(i), rest);
  }

  lemma {:induction false} RewriteReference(c: Cst, rest: seq<Kind>, to: Target)
    requires Wf(c) && IsReference(c)
    ensures RewriteKinds(Yield(c) + rest, to) == Yield(Rewrite(c, to)) + RewriteKinds(rest, to)
    decreases c, 0
  {
    var root, lexeme := c.target.target, c.index.value.lexeme;
    var tail := ReferenceTail(lexeme, rest);
    var replaced := Suffix(to) + RewriteKinds(rest, to);
    ReferenceShape(root, lexeme, rest);
    RewriteWindow(lexeme, rest, to);
    Regroup([JSON], Suffix(to), RewriteKinds(rest, to));
    ReplacementShape(Rewrite(root, to), to, RewriteKinds(rest, to));
    if root.CMember? {
      RewriteJsonProperty(root, tail, replaced, to);
    }
  }

  lemma ReferenceTail(lexeme: string, rest: seq<Kind>) returns (tail: seq<Kind>)
    ensures tail == [Dot, Ident("items"), LBracket, Number(lexeme), RBracket] + rest
    ensures [JSON] + tail == [JSON, Dot, Ident("items"), LBracket, Number(lexeme), RBracket] + rest
  {
    tail := [Dot, Ident("items"), LBracket, Number(lexeme), RBracket] + rest;
  }

  /** `x.$json` before tokens that complete it: the window starts at the property name. */
  lemma {:induction false} RewriteJsonProperty(root: Cst, tail: seq<Kind>, replaced: seq<Kind>, to: Target)
    requires Wf(root) && root.CMember? && root.property == "$json"
    requires RewriteKinds([JSON] + tail, to) == [JSON] + replaced
    ensures RewriteKinds(Yield(root) + tail, to) == Yield(Rewrite(root, to)) + replaced
    decreases root, 2
  {
    var dot := if root.optional then QDot else Dot;
    MemberShape(root.target, "$json", root.optional, tail);
    DotJson(dot, tail);
    DotJson(dot, replaced);
    RewriteYield(root.target, [dot, JSON] + tail, to);
    RewriteOther(dot, [JSON] + tail, to);
    MemberShape(Rewrite(root.target, to), "$json", root.optional, replaced);
  }

  lemma DotJson(dot: Kind, tail: seq<Kind>)
    ensures [dot, JSON] + tail == [dot] + ([JSON] + tail)
    ensures ([dot, JSON] + tail)[0] == dot && ([dot, JSON] + tail)[1..] == [JSON] + tail
  {
  }

  lemma {:induction false} RewriteCall(callee: Cst, args: seq<Cst>, trailing: bool, rest: seq<Kind>, to: Target)
    requires Wf(CCall(callee, args, trailing))
    ensures RewriteKinds(Yield(CCall(callee, args, trailing)) + rest, to)
            == Yield(CCall(Rewrite(callee, to), RewriteAll(args, to), trailing)) + RewriteKinds(rest, to)
    decreases CCall(callee, args, trailing), 0
  {
    var inside := YieldList(args, trailing) + ([RParen] + rest);
    CallShape(callee, args, trailing, rest);
    RewriteYield(callee, [LParen] + inside, to);
    RewriteOther(LParen, inside, to);
    RewriteList(args, trailing, [RParen] + rest, to);
    RewriteOther(RParen, rest, to);
    CallShape(Rewrite(callee, to), RewriteAll(args, to), trailing, RewriteKinds(rest, to));
  }

  lemma {:induction false} RewriteUnary(op: UnaryOp, argument: Cst, rest: seq<Kind>, to: Target)
    requires Wf(CUnary(op, argument)) && !StartsSuffix(Head(rest))
    ensures RewriteKinds(Yield(CUnary(op, argument)) + rest, to)
            == Yield(CUnary(op, Rewrite(argument, to))) + RewriteKinds(rest, to)
    decreases CUnary(op, argument), 0
  {
    UnaryShape(op, argument, rest);
    RewriteOther(UnaryKind(op), Yield(argument) + rest, to);
    NoSuffixNoCompletion(argument, rest);
    RewriteYield(argument, rest, to);
    UnaryShape(op, Rewrite(argument, to), RewriteKinds(rest, to));
  }

  lemma BinaryKindIsPlain(op: BinaryOp)
    ensures !StartsSuffix(BinaryKind(op)) && BinaryKind(op) != JSON
  {
  }

  lemma {:induction false} RewriteBinary(op: BinaryOp, left: Cst, right: Cst, rest: seq<Kind>, to: Target)
    requires Wf(CBinary(op, left, right)) && !StartsSuffix(Head(rest))
    ensures RewriteKinds(Yield(CBinary(op, left, right)) + rest, to)
            == Yield(CBinary(op, Rewrite(left, to), Rewrite(right, to))) + RewriteKinds(rest, to)
    decreases CBinary(op, left, right), 0
  {
    var after := [BinaryKind(op)] + (Yield(right) + rest);
    BinaryKindIsPlain(op);
    BinaryShape(op, left, right, rest);
    NoSuffixNoCompletion(left, after);
    RewriteYield(left, after, to);
    RewriteOther(BinaryKind(op), Yield(right) + rest, to);
    NoSuffixNoCompletion(right, rest);
    RewriteYield(right, rest, to);
    BinaryShape(op, Rewrite(left, to), Rewrite(right, to), RewriteKinds(rest, to));
  }

  lemma {:induction false} RewriteTernary(test: Cst, consequent: Cst, alternate: Cst, rest: seq<Kind>, to: Target)
    requires Wf(CTernary(test, consequent, alternate)) && !StartsSuffix(Head(rest))
    ensures RewriteKinds(Yield(CTernary(test, consequent, alternate)) + rest, to)
            == Yield(CTernary(Rewrite(test, to), Rewrite(consequent, to), Rewrite(alternate, to)))
               + RewriteKinds(rest, to)
    decreases CTernary(test, consequent, alternate), 0
  {
    var third := Yield(alternate) + rest;
    var second := Yield(consequent) + ([Colon] + third);
    TernaryShape(test, consequent, alternate, rest);
    NoSuffixNoCompletion(test, [Question] + second);
    RewriteYield(test, [Question] + second, to);
    RewriteOther(Question, second, to);
    NoSuffixNoCompletion(consequent, [Colon] + third);
    RewriteYield(consequent, [Colon] + third, to);
    RewriteOther(Colon, third, to);
    NoSuffixNoCompletion(alternate, rest);
    RewriteYield(alternate, rest, to);
    TernaryShape(Rewrite(test, to), Rewrite(consequent, to), Rewrite(alternate, to), RewriteKinds(rest, to));
  }

  lemma {:induction false} RewriteList(cs: seq<Cst>, trailing: bool, rest: seq<Kind>, to: Target)
    requires (forall x <- cs :: Wf(x)) && rest != [] && (rest[0] == RParen || rest[0] == RBracket)
    ensures RewriteKinds(YieldList(cs, trailing) + rest, to)
            == YieldList(RewriteAll(cs, to), trailing) + RewriteKinds(rest, to)
    decreases cs, 1
  {
    if cs == [] {
      assert YieldList(cs, trailing) + rest == rest;
      assert YieldList([], trailing) + RewriteKinds(rest, to) == RewriteKinds(rest, to);
    } else {
      var c, others := cs[0], cs[1..];
      assert cs == [c] + others;
      var tail := YieldTail(others, trailing) + rest;
      TailShape(c, others, trailing, rest);
      TailIsPlain(others, trailing, rest);
      NoSuffixNoCompletion(c, tail);
      RewriteYield(c, tail, to);
      RewriteTail(others, trailing, rest, to);
      TailShape(Rewrite(c, to), RewriteAll(others, to), trailing, RewriteKinds(rest, to));
    }
  }

  lemma TailIsPlain(cs: seq<Cst>, trailing: bool, rest: seq<Kind>)
    requires rest != [] && !StartsSuffix(rest[0])
    ensures !StartsSuffix(Head(YieldTail(cs, trailing) + rest))
  {
  }

  lemma {:induction false} RewriteTail(cs: seq<Cst>, trailing: bool, rest: seq<Kind>, to: Target)
    requires (forall x <- cs :: Wf(x)) && rest != [] && (rest[0] == RParen || rest[0] == RBracket)
    ensures RewriteKinds(YieldTail(cs, trailing) + rest, to)
            == YieldTail(RewriteAll(cs, to), trailing) + RewriteKinds(rest, to)
    decreases cs, 0
  {
    if cs == [] {
      RewriteOther(Comma, rest, to);
      assert [] + rest == rest && [] + RewriteKinds(rest, to) == RewriteKinds(rest, to);
    } else {
      var c, others := cs[0], cs[1..];
      assert cs == [c] + others;
      var tail := YieldTail(others, trailing) + rest;
      TailShape(c, others, trailing, rest);
      TailIsPlain(others, trailing, rest);
      RewriteOther(Comma, Yield(c) + tail, to);
      NoSuffixNoCompletion(c, tail);
      RewriteYield(c, tail, to);
      RewriteTail(others, trailing, rest, to);
      TailShape(Rewrite(c, to), RewriteAll(others, to), trailing, RewriteKinds(rest, to));
    }
  }

  /** Rewriting the tokens of any expression and parsing them gives the rewritten tree. */
  lemma {:induction false} RewriteCommutesWithParsing(c: Cst, to: Target)
    requires Wf(c)
    ensures RewriteKinds(Yield(c), to) == Yield(Rewrite(c, to))
    ensures ParseProgram(RewriteKinds(Yield(c), to) + [Eof]) == Ok(Ast(Rewrite(c, to)), [])
  {
    NoSuffixNoCompletion(c, []);
    RewriteYield(c, [], to);
    assert Yield(c) + [] == Yield(c);
    assert Yield(Rewrite(c, to)) + RewriteKinds([], to) == Yield(Rewrite(c, to));
    RewriteIsWf(c, to);
    YieldHasNoEof(Rewrite(c, to));
    ParserIsExact(Yield(Rewrite(c, to)), Ast(Rewrite(c, to)));
  }
}
