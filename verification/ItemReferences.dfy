/** When every `$json` token belongs to a reference, so does every `$json` name of the tree. */
module ItemReferences {
  import opened Syntax
  import opened Grammar
  import opened ParserTheorems
  import opened ItemRewrite

  // Reading the condition off the tokens

  /** Every `$json` token starts a reference `$json.items[k]`, and none is a property name. */
  ghost predicate OnlyReferences(ks: seq<Kind>) {
    && (forall j: nat | j < |ks| && ks[j] == JSON :: WindowAt(ks[j..]))
    && NoJsonAfterDot(ks)
  }

  predicate NoJsonAfterDot(ks: seq<Kind>) {
    forall j | 0 <= j < |ks| - 1 && ks[j + 1] == JSON :: ks[j] != Dot && ks[j] != QDot
  }

  predicate NoJsonProperty(c: Cst) {
    match c
    case CLit(_) => true
    case CName(_) => true
    case CParen(inner) => NoJsonProperty(inner)
    case CArray(elements, _) => forall x <- elements :: NoJsonProperty(x)
    case CMember(target, property, _) => property != "$json" && NoJsonProperty(target)
    case CIndex(target, index, _) => NoJsonProperty(target) && NoJsonProperty(index)
    case CCall(callee, args, _) => NoJsonProperty(callee) && forall x <- args :: NoJsonProperty(x)
    case CUnary(_, argument) => NoJsonProperty(argument)
    case CBinary(_, left, right) => NoJsonProperty(left) && NoJsonProperty(right)
    case CTernary(test, consequent, alternate) =>
      NoJsonProperty(test) && NoJsonProperty(consequent) && NoJsonProperty(alternate)
  }

  /** How many references a tree holds. */
  function References(c: Cst): nat {
    match c
    case CLit(_) => 0
    case CName(_) => 0
    case CParen(inner) => References(inner)
    case CArray(elements, _) => ReferencesIn(elements)
    case CMember(target, _, _) => References(target)
    case CIndex(target, index, _) => (if IsReference(c) then 1 else 0) + References(target) + References(index)
    case CCall(callee, args, _) => References(callee) + ReferencesIn(args)
    case CUnary(_, argument) => References(argument)
    case CBinary(_, left, right) => References(left) + References(right)
    case CTernary(test, consequent, alternate) => References(test) + References(consequent) + References(alternate)
  }

  function ReferencesIn(cs: seq<Cst>): nat {
    if cs == [] then 0 else References(cs[0]) + ReferencesIn(cs[1..])
  }

  /** How often `$json` stands outside of references. */
  function Loose(c: Cst): nat {
    match c
    case CLit(_) => 0
    case CName(name) => if name == "$json" then 1 else 0
    case CParen(inner) => Loose(inner)
    case CArray(elements, _) => LooseIn(elements)
    case CMember(target, _, _) => Loose(target)
    case CIndex(target, index, _) =>
      if IsReference(c) && target.target.CName? then 0 else Loose(target) + Loose(index)
    case CCall(callee, args, _) => Loose(callee) + LooseIn(args)
    case CUnary(_, argument) => Loose(argument)
    case CBinary(_, left, right) => Loose(left) + Loose(right)
    case CTernary(test, consequent, alternate) => Loose(test) + Loose(consequent) + Loose(alternate)
  }

  function LooseIn(cs: seq<Cst>): nat {
    if cs == [] then 0 else Loose(cs[0]) + LooseIn(cs[1..])
  }

  function JsonTokens(ks: seq<Kind>): nat {
    if ks == [] then 0 else (if ks[0] == JSON then 1 else 0) + JsonTokens(ks[1..])
  }

  lemma {:induction false} JsonTokensAdd(a: seq<Kind>, b: seq<Kind>)
    ensures JsonTokens(a + b) == JsonTokens(a) + JsonTokens(b)
  {
    if a == [] {
      assert a + b == b;
    } else {
      JsonTokensAdd(a[1..], b);
      assert (a + b)[1..] == a[1..] + b;
    }
  }

  lemma JsonTokensOfTwo(j: Kind, k: Kind)
    requires j != JSON
    ensures JsonTokens([k]) == (if k == JSON then 1 else 0) == JsonTokens([j, k])
  {
    assert [j, k][1..] == [k];
  }

  lemma JsonTokensAround(a: seq<Kind>, left: Kind, b: seq<Kind>, right: Kind)
    requires left != JSON && right != JSON
    ensures JsonTokens(a + [left] + b + [right]) == JsonTokens(a) + JsonTokens(b)
    ensures JsonTokens(a + [left] + b) == JsonTokens(a) + JsonTokens(b)
    ensures JsonTokens([left] + b) == JsonTokens(b)
    ensures JsonTokens([left] + b + [right]) == JsonTokens(b)
  {
    JsonTokensAdd(a, [left]);
    JsonTokensAdd(a + [left], b);
    JsonTokensAdd(a + [left] + b, [right]);
    JsonTokensAdd([left], b);
    JsonTokensAdd([left] + b, [right]);
  }

  lemma OtherTokens(op: UnaryOp, value: Literal)
    ensures UnaryKind(op) != JSON && LiteralKind(value) != JSON
  {
  }

  /** The `$json` tokens of a tree are its references and its loose names. */
  lemma {:induction false} JsonTokensOfTree(c: Cst)
    requires NoJsonProperty(c)
    ensures JsonTokens(Yield(c)) == References(c) + Loose(c)
    decreases c, 1
  {
    match c
    case CLit(value) => OtherTokens(Not, value);
    case CName(_) =>
    case CParen(inner) => JsonTokensOfTree(inner); JsonTokensAround([], LParen, Yield(inner), RParen);
    case CArray(elements, trailing) =>
      JsonTokensOfList(elements, trailing); JsonTokensAround([], LBracket, YieldList(elements, trailing), RBracket);
    case CMember(target, property, optional) =>
      JsonTokensOfTree(target);
      JsonTokensOfTwo(if optional then QDot else Dot, Ident(property));
      JsonTokensAdd(Yield(target), [if optional then QDot else Dot, Ident(property)]);
    case CIndex(target, index, optional) => JsonTokensOfIndex(target, index, optional);
    case CCall(callee, args, trailing) => JsonTokensOfCall(callee, args, trailing);
    case CUnary(op, argument) =>
      JsonTokensOfTree(argument);
      OtherTokens(op, NullLit);
      JsonTokensAround([], UnaryKind(op), Yield(argument), Eof);
    case CBinary(op, left, right) => JsonTokensOfBinary(op, left, right);
    case CTernary(test, consequent, alternate) => JsonTokensOfTernary(test, consequent, alternate);
  }

  lemma {:induction false} JsonTokensOfIndex(target: Cst, index: Cst, optional: bool)
    requires NoJsonProperty(CIndex(target, index, optional))
    ensures JsonTokens(Yield(CIndex(target, index, optional)))
            == References(CIndex(target, index, optional)) + Loose(CIndex(target, index, optional))
    decreases CIndex(target, index, optional), 0
  {
    JsonTokensOfTree(target);
    JsonTokensOfTree(index);
    JsonTokensOfTwo(QDot, LBracket);
    JsonTokensAdd(Yield(target), IndexOpening(optional));
    JsonTokensAdd(Yield(target) + IndexOpening(optional), Yield(index));
    JsonTokensAdd(Yield(target) + IndexOpening(optional) + Yield(index), [RBracket]);
    if IsReference(CIndex(target, index, optional)) {
      LooseReference(target, index, optional);
    }
  }

  lemma LooseReference(target: Cst, index: Cst, optional: bool)
    requires NoJsonProperty(target) && IsReference(CIndex(target, index, optional))
    ensures Loose(target) == 1 && References(target) == References(index) == Loose(index) == 0
    ensures Loose(CIndex(target, index, optional)) == 0 && References(CIndex(target, index, optional)) == 1
  {
  }

  lemma {:induction false} JsonTokensOfCall(callee: Cst, args: seq<Cst>, trailing: bool)
    requires NoJsonProperty(CCall(callee, args, trailing))
    ensures JsonTokens(Yield(CCall(callee, args, trailing)))
            == References(CCall(callee, args, trailing)) + Loose(CCall(callee, args, trailing))
    decreases CCall(callee, args, trailing), 0
  {
    JsonTokensOfTree(callee);
    JsonTokensOfList(args, trailing);
    JsonTokensAround(Yield(callee), LParen, YieldList(args, trailing), RParen);
  }

  lemma {:induction false} JsonTokensOfBinary(op: BinaryOp, left: Cst, right: Cst)
    requires NoJsonProperty(CBinary(op, left, right))
    ensures JsonTokens(Yield(CBinary(op, left, right)))
            == References(CBinary(op, left, right)) + Loose(CBinary(op, left, right))
    decreases CBinary(op, left, right), 0
  {
    JsonTokensOfTree(left);
    JsonTokensOfTree(right);
    BinaryKindIsPlain(op);
    JsonTokensAround(Yield(left), BinaryKind(op), Yield(right), Eof);
  }

  lemma {:induction false} JsonTokensOfTernary(test: Cst, consequent: Cst, alternate: Cst)
    requires NoJsonProperty(CTernary(test, consequent, alternate))
    ensures JsonTokens(Yield(CTernary(test, consequent, alternate)))
            == References(CTernary(test, consequent, alternate)) + Loose(CTernary(test, consequent, alternate))
    decreases CTernary(test, consequent, alternate), 0
  {
    JsonTokensOfTree(test);
    JsonTokensOfTree(consequent);
    JsonTokensOfTree(alternate);
    JsonTokensAround(Yield(test), Question, Yield(consequent), Colon);
    JsonTokensAdd(Yield(test) + [Question] + Yield(consequent) + [Colon], Yield(alternate));
  }

  lemma {:induction false} JsonTokensOfList(cs: seq<Cst>, trailing: bool)
    requires forall x <- cs :: NoJsonProperty(x)
    ensures JsonTokens(YieldList(cs, trailing)) == ReferencesIn(cs) + LooseIn(cs)
    ensures JsonTokens(YieldTail(cs, trailing)) == ReferencesIn(cs) + LooseIn(cs)
    decreases cs, 0
  {
    if cs != [] {
      JsonTokensOfTree(cs[0]);
      JsonTokensOfList(cs[1..], trailing);
      JsonTokensAdd(Yield(cs[0]), YieldTail(cs[1..], trailing));
      JsonTokensAdd([Comma] + Yield(cs[0]), YieldTail(cs[1..], trailing));
      JsonTokensAdd([Comma], Yield(cs[0]));
    }
  }

  /** How many references the token rewrite finds. */
  function Windows(ks: seq<Kind>): nat
    decreases |ks|
  {
    if ks == [] then 0 else if WindowAt(ks) then 1 + Windows(ks[6..]) else Windows(ks[1..])
  }

  lemma {:induction false} WindowsByLength(ks: seq<Kind>)
    ensures |RewriteKinds(ks, Element)| + 5 * Windows(ks) == |ks|
    decreases |ks|
  {
    if ks != [] {
      WindowsByLength(if WindowAt(ks) then ks[6..] else ks[1..]);
    }
  }

  lemma {:induction false} ReferencesByLength(c: Cst)
    requires NoJsonProperty(c)
    ensures |Yield(Rewrite(c, Element))| + 5 * References(c) == |Yield(c)|
    decreases c, 1
  {
    match c
    case CLit(_) =>
    case CName(_) =>
    case CParen(inner) => ReferencesByLength(inner);
    case CArray(elements, trailing) => ListReferencesByLength(elements, trailing);
    case CMember(target, _, _) => ReferencesByLength(target);
    case CIndex(target, index, optional) => IndexReferencesByLength(target, index, optional);
    case CCall(callee, args, trailing) => ReferencesByLength(callee); ListReferencesByLength(args, trailing);
    case CUnary(_, argument) => ReferencesByLength(argument);
    case CBinary(_, left, right) => ReferencesByLength(left); ReferencesByLength(right);
    case CTernary(test, consequent, alternate) =>
      ReferencesByLength(test); ReferencesByLength(consequent); ReferencesByLength(alternate);
  }

  lemma {:induction false} IndexReferencesByLength(target: Cst, index: Cst, optional: bool)
    requires NoJsonProperty(CIndex(target, index, optional))
    ensures var c := CIndex(target, index, optional);
            |Yield(Rewrite(c, Element))| + 5 * References(c) == |Yield(c)|
    decreases CIndex(target, index, optional), 0
  {
    var c := CIndex(target, index, optional);
    if IsReference(c) {
      LooseReference(target, index, optional);
      assert Rewrite(c, Element) == CName("$json");
      assert |Yield(target)| == 3 && |Yield(index)| == 1;
    } else {
      ReferencesByLength(target);
      ReferencesByLength(index);
    }
  }

  lemma {:induction false} ListReferencesByLength(cs: seq<Cst>, trailing: bool)
    requires forall x <- cs :: NoJsonProperty(x)
    ensures |YieldList(RewriteAll(cs, Element), trailing)| + 5 * ReferencesIn(cs) == |YieldList(cs, trailing)|
    ensures |YieldTail(RewriteAll(cs, Element), trailing)| + 5 * ReferencesIn(cs) == |YieldTail(cs, trailing)|
    decreases cs, 0
  {
    if cs != [] {
      ReferencesByLength(cs[0]);
      ListReferencesByLength(cs[1..], trailing);
      assert RewriteAll(cs, Element)[1..] == RewriteAll(cs[1..], Element);
    }
  }

  /** If every `$json` token starts a reference, the rewrite finds them all. */
  lemma {:induction false} AllJsonTokensAreWindows(ks: seq<Kind>)
    requires forall j: nat | j < |ks| && ks[j] == JSON :: WindowAt(ks[j..])
    ensures JsonTokens(ks) == Windows(ks)
    decreases |ks|
  {
    if ks != [] {
      var n := if WindowAt(ks) then 6 else 1;
      assert ks[0] == JSON ==> WindowAt(ks[0..]) && ks[0..] == ks;
      forall j: nat | j < |ks[n..]| && ks[n..][j] == JSON ensures WindowAt(ks[n..][j..]) {
        assert ks[n..][j..] == ks[n + j..];
      }
      AllJsonTokensAreWindows(ks[n..]);
      if n == 6 {
        WindowHasOneJson(ks);
      }
    }
  }

  lemma WindowHasOneJson(ks: seq<Kind>)
    requires WindowAt(ks)
    ensures JsonTokens(ks) == 1 + JsonTokens(ks[6..])
  {
    assert ks[1..][2..] == ks[3..];
    assert ks[1..][1] == ks[2] && ks[3..][1] == ks[4] && ks[3..][2] == ks[5];
    SkipOthers(ks[1..], 5);
    assert ks[1..][5..] == ks[6..];
  }

  lemma {:induction false} SkipOthers(ks: seq<Kind>, n: nat)
    requires n <= |ks| && forall j | 0 <= j < n :: ks[j] != JSON
    ensures JsonTokens(ks) == JsonTokens(ks[n..])
    decreases n
  {
    if n > 0 {
      SkipOthers(ks[1..], n - 1);
      assert ks[1..][n - 1..] == ks[n..];
    } else {
      assert ks[0..] == ks;
    }
  }

  lemma BehindKeepsDots(a: seq<Kind>, b: seq<Kind>)
    requires NoJsonAfterDot(a + b)
    ensures NoJsonAfterDot(b)
  {
    forall j | 0 <= j < |b| - 1 && b[j + 1] == JSON ensures b[j] != Dot && b[j] != QDot {
      assert (a + b)[|a| + j + 1] == b[j + 1] && (a + b)[|a| + j] == b[j];
    }
  }

  lemma {:induction false} TreeHasNoJsonProperty(c: Cst, rest: seq<Kind>)
    requires NoJsonAfterDot(Yield(c) + rest)
    ensures NoJsonProperty(c)
    decreases c, 1
  {
    match c
    case CLit(_) =>
    case CName(_) =>
    case CParen(inner) =>
      EnclosedShape(inner, rest);
      BehindKeepsDots([LParen], Yield(inner) + ([RParen] + rest));
      TreeHasNoJsonProperty(inner, [RParen] + rest);
    case CArray(elements, trailing) =>
      ArrayShape(elements, trailing, rest);
      BehindKeepsDots([LBracket], YieldList(elements, trailing) + ([RBracket] + rest));
      ListHasNoJsonProperty(elements, trailing, [RBracket] + rest);
    case CMember(target, property, optional) =>
      var dot := if optional then QDot else Dot;
      var after := [dot, Ident(property)] + rest;
      MemberShape(target, property, optional, rest);
      BehindKeepsDots(Yield(target), after);
      assert after[0] == dot && after[1] == Ident(property);
      TreeHasNoJsonProperty(target, after);
    case CIndex(target, index, optional) => IndexHasNoJsonProperty(target, index, optional, rest);
    case CCall(callee, args, trailing) =>
      var inside := YieldList(args, trailing) + ([RParen] + rest);
      CallShape(callee, args, trailing, rest);
      TreeHasNoJsonProperty(callee, [LParen] + inside);
      BehindKeepsDots(Yield(callee), [LParen] + inside);
      BehindKeepsDots([LParen], inside);
      ListHasNoJsonProperty(args, trailing, [RParen] + rest);
    case CUnary(op, argument) =>
      UnaryShape(op, argument, rest);
      BehindKeepsDots([UnaryKind(op)], Yield(argument) + rest);
      TreeHasNoJsonProperty(argument, rest);
    case CBinary(op, left, right) => BinaryHasNoJsonProperty(op, left, right, rest);
    case CTernary(test, consequent, alternate) => TernaryHasNoJsonProperty(test, consequent, alternate, rest);
  }

  lemma {:induction false} IndexHasNoJsonProperty(target: Cst, index: Cst, optional: bool, rest: seq<Kind>)
    requires NoJsonAfterDot(Yield(CIndex(target, index, optional)) + rest)
    ensures NoJsonProperty(CIndex(target, index, optional))
    decreases CIndex(target, index, optional), 0
  {
    var inside := Yield(index) + ([RBracket] + rest);
    IndexShape(target, index, optional, rest);
    TreeHasNoJsonProperty(target, IndexOpening(optional) + inside);
    BehindKeepsDots(Yield(target), IndexOpening(optional) + inside);
    BehindKeepsDots(IndexOpening(optional), inside);
    TreeHasNoJsonProperty(index, [RBracket] + rest);
  }

  lemma {:induction false} BinaryHasNoJsonProperty(op: BinaryOp, left: Cst, right: Cst, rest: seq<Kind>)
    requires NoJsonAfterDot(Yield(CBinary(op, left, right)) + rest)
    ensures NoJsonProperty(CBinary(op, left, right))
    decreases CBinary(op, left, right), 0
  {
    var after := Yield(right) + rest;
    BinaryShape(op, left, right, rest);
    TreeHasNoJsonProperty(left, [BinaryKind(op)] + after);
    BehindKeepsDots(Yield(left), [BinaryKind(op)] + after);
    BehindKeepsDots([BinaryKind(op)], after);
    TreeHasNoJsonProperty(right, rest);
  }

  lemma {:induction false} TernaryHasNoJsonProperty(test: Cst, consequent: Cst, alternate: Cst, rest: seq<Kind>)
    requires NoJsonAfterDot(Yield(CTernary(test, consequent, alternate)) + rest)
    ensures NoJsonProperty(CTernary(test, consequent, alternate))
    decreases CTernary(test, consequent, alternate), 0
  {
    var third := Yield(alternate) + rest;
    var second := Yield(consequent) + ([Colon] + third);
    TernaryShape(test, consequent, alternate, rest);
    TreeHasNoJsonProperty(test, [Question] + second);
    BehindKeepsDots(Yield(test), [Question] + second);
    BehindKeepsDots([Question], second);
    TreeHasNoJsonProperty(consequent, [Colon] + third);
    BehindKeepsDots(Yield(consequent), [Colon] + third);
    BehindKeepsDots([Colon], third);
    TreeHasNoJsonProperty(alternate, rest);
  }

  lemma {:induction false} ListHasNoJsonProperty(cs: seq<Cst>, trailing: bool, rest: seq<Kind>)
    requires NoJsonAfterDot(YieldList(cs, trailing) + rest) || NoJsonAfterDot(YieldTail(cs, trailing) + rest)
    ensures forall x <- cs :: NoJsonProperty(x)
    decreases cs, 0
  {
    if cs != [] {
      var c, others := cs[0], cs[1..];
      assert cs == [c] + others;
      var tail := YieldTail(others, trailing) + rest;
      TailShape(c, others, trailing, rest);
      if NoJsonAfterDot(YieldTail(cs, trailing) + rest) {
        BehindKeepsDots([Comma], Yield(c) + tail);
      }
      TreeHasNoJsonProperty(c, tail);
      BehindKeepsDots(Yield(c), tail);
      ListHasNoJsonProperty(others, trailing, rest);
    }
  }

  /** The condition on the tokens, as a condition on the tree. */
  lemma {:induction false} NothingLoose(c: Cst)
    requires Wf(c) && OnlyReferences(Yield(c))
    ensures NoJsonProperty(c) && Loose(c) == 0
  {
    var ks := Yield(c);
    assert ks + [] == ks;
    TreeHasNoJsonProperty(c, []);
    JsonTokensOfTree(c);
    AllJsonTokensAreWindows(ks);
    WindowsByLength(ks);
    ReferencesByLength(c);
    RewriteCommutesWithParsing(c, Element);
  }
}
