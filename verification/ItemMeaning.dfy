/** Evaluating the rewritten expression on one item is evaluating the original on the whole payload at that index. */
module ItemMeaning {
  import opened Results
  import opened Syntax
  import opened Numbers
  import opened Grammar
  import opened Values
  import opened Evaluator
  import opened EvaluatorTheorems
  import opened ItemRewrite
  import opened ItemReferences

  /** The names an expression looks up. */
  function FreeNames(e: Expr): set<string>
    decreases e, 0
  {
    match e
    case Lit(_) => {}
    case Name(name) => {name}
    case Member(target, _, _) => FreeNames(target)
    case Index(target, index, _) => FreeNames(target) + FreeNames(index)
    case Call(callee, args) => FreeNames(callee) + FreeNamesOf(args)
    case Unary(_, argument) => FreeNames(argument)
    case Binary(_, left, right) => FreeNames(left) + FreeNames(right)
    case Ternary(test, consequent, alternate) => FreeNames(test) + FreeNames(consequent) + FreeNames(alternate)
    case Array(elements) => FreeNamesOf(elements)
  }

  function FreeNamesOf(es: seq<Expr>): set<string>
    decreases es, 0
  {
    if es == [] then {} else FreeNames(es[0]) + FreeNamesOf(es[1..])
  }

  ghost predicate Agree(names: set<string>, a: Env, b: Env) {
    forall n <- names | n != "$json" :: Lookup(a, n) == Lookup(b, n)
  }

  /** `$json` is the payload in `whole` and its item `i` in `item`. */
  predicate ItemOf(item: Env, whole: Env, i: nat) {
    var json := Lookup(whole, "$json");
    json.Obj? && "items" in json.fields && json.fields["items"].Arr?
    && i < |json.fields["items"].items|
    && Lookup(item, "$json") == json.fields["items"].items[i]
  }

  /** The runtime writes the number `i` in decimal. */
  predicate WritesIndex(host: Host, i: nat) {
    host.toText(Num(Finite(i as real))) == Success(Decimal(i))
  }

  lemma DigitsAreNoNames(n: nat)
    ensures Decimal(n) !in FORBIDDEN && Decimal(n) !in ARRAY_METHODS && Decimal(n) != "length"
  {
    var d := Decimal(n)[0];
    assert '0' <= d <= '9';
  }

  const ITEMS := Member(Name("$json"), "items", false)

  function ReferenceAt(i: nat): Expr {
    Index(ITEMS, Lit(NumberLit(Decimal(i))), false)
  }

  /** `$json.items[i]` on the payload is `$json` on the item, one level shallower or more. */
  lemma {:induction false} ReferenceMeaning(host: Host, i: nat, item: Env, whole: Env)
    requires WritesIndex(host, i) && ItemOf(item, whole, i)
    ensures Eval(host, whole, ReferenceAt(i)) == Success(Lookup(item, "$json"))
  {
    var json := Lookup(whole, "$json");
    var elements := json.fields["items"];
    assert Eval(host, whole, Name("$json")) == Success(json);
    assert GetProperty(host, json, Text("items")) == Success(elements);
    assert Eval(host, whole, ITEMS) == Success(elements);
    var key := Num(Finite(i as real));
    DecimalInverts(i);
    assert Eval(host, whole, Lit(NumberLit(Decimal(i)))) == Success(key);
    DigitsAreNoNames(i);
    assert TextOf(host, key) == Success(Decimal(i));
    assert (i as real).Floor == i;
    assert GetProperty(host, elements, key) == Success(elements.items[i]);
  }

  /** The two evaluations of a tree whose every `$json` is a reference. */
  ghost predicate SameOnItem(host: Host, item: Env, whole: Env, onItem: Expr, onWhole: Expr) {
    Eval(host, item, onItem) == Eval(host, whole, onWhole)
    && Demand(host, item, onItem) <= Demand(host, whole, onWhole)
  }

  ghost predicate SameListOnItem(host: Host, item: Env, whole: Env, onItem: seq<Expr>, onWhole: seq<Expr>) {
    EvalList(host, item, onItem) == EvalList(host, whole, onWhole)
    && DemandOfList(host, item, onItem) <= DemandOfList(host, whole, onWhole)
  }

  lemma {:induction false} TreeOnItem(host: Host, c: Cst, i: nat, item: Env, whole: Env)
    requires WritesIndex(host, i) && ItemOf(item, whole, i)
    requires NoJsonProperty(c) && Loose(c) == 0 && Agree(FreeNames(Ast(c)), item, whole)
    ensures SameOnItem(host, item, whole, Ast(Rewrite(c, Element)), Ast(Rewrite(c, At(i))))
    decreases c, 1
  {
    match c
    case CLit(_) =>
    case CName(_) =>
    case CParen(inner) => TreeOnItem(host, inner, i, item, whole);
    case CArray(elements, _) => ListOnItem(host, elements, i, item, whole);
    case CMember(target, _, _) => TreeOnItem(host, target, i, item, whole);
    case CIndex(target, index, optional) => IndexOnItem(host, target, index, optional, i, item, whole);
    case CCall(callee, args, trailing) => CallOnItem(host, callee, args, trailing, i, item, whole);
    case CUnary(_, argument) => TreeOnItem(host, argument, i, item, whole);
    case CBinary(op, left, right) => BinaryOnItem(host, op, left, right, i, item, whole);
    case CTernary(test, consequent, alternate) => TernaryOnItem(host, test, consequent, alternate, i, item, whole);
  }

  lemma {:induction false} IndexOnItem(host: Host, target: Cst, index: Cst, optional: bool, i: nat, item: Env,
                                       whole: Env)
    requires WritesIndex(host, i) && ItemOf(item, whole, i)
    requires var c := CIndex(target, index, optional);
             NoJsonProperty(c) && Loose(c) == 0 && Agree(FreeNames(Ast(c)), item, whole)
    ensures var c := CIndex(target, index, optional);
            SameOnItem(host, item, whole, Ast(Rewrite(c, Element)), Ast(Rewrite(c, At(i))))
    decreases CIndex(target, index, optional), 0
  {
    var c := CIndex(target, index, optional);
    if IsReference(c) {
      assert NoJsonProperty(target.target);
      assert target.target == CName("$json");
      assert Ast(Rewrite(c, Element)) == Name("$json") && Ast(Rewrite(c, At(i))) == ReferenceAt(i);
      ReferenceMeaning(host, i, item, whole);
    } else {
      TreeOnItem(host, target, i, item, whole);
      TreeOnItem(host, index, i, item, whole);
    }
  }

  lemma {:induction false} CallOnItem(host: Host, callee: Cst, args: seq<Cst>, trailing: bool, i: nat, item: Env,
                                      whole: Env)
    requires WritesIndex(host, i) && ItemOf(item, whole, i)
    requires var c := CCall(callee, args, trailing);
             NoJsonProperty(c) && Loose(c) == 0 && Agree(FreeNames(Ast(c)), item, whole)
    ensures var c := CCall(callee, args, trailing);
            SameOnItem(host, item, whole, Ast(Rewrite(c, Element)), Ast(Rewrite(c, At(i))))
    decreases CCall(callee, args, trailing), 0
  {
    TreeOnItem(host, callee, i, item, whole);
    ListOnItem(host, args, i, item, whole);
  }

  lemma {:induction false} BinaryOnItem(host: Host, op: BinaryOp, left: Cst, right: Cst, i: nat, item: Env, whole: Env)
    requires WritesIndex(host, i) && ItemOf(item, whole, i)
    requires var c := CBinary(op, left, right);
             NoJsonProperty(c) && Loose(c) == 0 && Agree(FreeNames(Ast(c)), item, whole)
    ensures var c := CBinary(op, left, right);
            SameOnItem(host, item, whole, Ast(Rewrite(c, Element)), Ast(Rewrite(c, At(i))))
    decreases CBinary(op, left, right), 0
  {
    TreeOnItem(host, left, i, item, whole);
    TreeOnItem(host, right, i, item, whole);
  }

  lemma {:induction false} TernaryOnItem(host: Host, test: Cst, consequent: Cst, alternate: Cst, i: nat, item: Env,
                                         whole: Env)
    requires WritesIndex(host, i) && ItemOf(item, whole, i)
    requires var c := CTernary(test, consequent, alternate);
             NoJsonProperty(c) && Loose(c) == 0 && Agree(FreeNames(Ast(c)), item, whole)
    ensures var c := CTernary(test, consequent, alternate);
            SameOnItem(host, item, whole, Ast(Rewrite(c, Element)), Ast(Rewrite(c, At(i))))
    decreases CTernary(test, consequent, alternate), 0
  {
    TreeOnItem(host, test, i, item, whole);
    TreeOnItem(host, consequent, i, item, whole);
    TreeOnItem(host, alternate, i, item, whole);
  }

  lemma {:induction false} ListOnItem(host: Host, cs: seq<Cst>, i: nat, item: Env, whole: Env)
    requires WritesIndex(host, i) && ItemOf(item, whole, i)
    requires (forall x <- cs :: NoJsonProperty(x)) && LooseIn(cs) == 0 && Agree(FreeNamesOf(AstList(cs)), item, whole)
    ensures SameListOnItem(host, item, whole, AstList(RewriteAll(cs, Element)), AstList(RewriteAll(cs, At(i))))
    decreases cs, 0
  {
    if cs != [] {
      TreeOnItem(host, cs[0], i, item, whole);
      ListOnItem(host, cs[1..], i, item, whole);
      ListHead(cs, Element);
      ListHead(cs, At(i));
    }
  }

  lemma ListHead(cs: seq<Cst>, to: Target)
    requires cs != []
    ensures AstList(RewriteAll(cs, to)) == [Ast(Rewrite(cs[0], to))] + AstList(RewriteAll(cs[1..], to))
  {
  }
}
