/** Where the per-item rewrite changes the meaning of an expression, and exactly when. */
module ItemLimits {
  import opened Results
  import opened Syntax
  import opened Numbers
  import opened Grammar
  import opened Values
  import opened Evaluator
  import opened EvaluatorLaws
  import opened ItemRewrite
  import opened ItemMeaning

  /** `.name`, which gives `undefined` on `null` and `undefined`. */
  function Step(host: Host, v: Value, name: string): Value {
    if Nullish(v) then Undefined else GetProperty(host, v, Text(name)).value
  }

  // A bare `$json`

  /** `$json.a.b…`, which holds no reference. */
  function Path(names: seq<string>): Cst {
    if names == [] then CName("$json") else CMember(Path(names[..|names| - 1]), names[|names| - 1], false)
  }

  function Walk(host: Host, v: Value, names: seq<string>): Value {
    if names == [] then v else Step(host, Walk(host, v, names[..|names| - 1]), names[|names| - 1])
  }

  lemma {:induction false} PathIsNotRewritten(names: seq<string>, to: Target)
    ensures Rewrite(Path(names), to) == Path(names)
  {
    if names != [] {
      PathIsNotRewritten(names[..|names| - 1], to);
    }
  }

  lemma {:induction false} PathIsWalked(host: Host, env: Env, names: seq<string>)
    ensures Eval(host, env, Ast(Path(names))) == Success(Walk(host, Lookup(env, "$json"), names))
  {
    if names != [] {
      PathIsWalked(host, env, names[..|names| - 1]);
    }
  }

  /** Behind a forbidden name everything is undefined. */
  lemma {:induction false} ForbiddenIsUndefined(host: Host, v: Value, names: seq<string>, k: nat)
    requires k < |names| && names[k] in FORBIDDEN
    ensures Walk(host, v, names) == Undefined
  {
    if k < |names| - 1 {
      ForbiddenIsUndefined(host, v, names[..|names| - 1], k);
    }
  }

  /** An object that holds null at the end of a path. */
  function Nest(names: seq<string>): Value {
    if names == [] then Null else Obj(map[names[0] := Nest(names[1..])])
  }

  lemma {:induction false} NestIsWalked(host: Host, names: seq<string>, k: nat)
    requires k <= |names| && forall j | 0 <= j < |names| :: names[j] !in FORBIDDEN
    ensures Walk(host, Nest(names), names[..k]) == Nest(names[k..])
  {
    if k > 0 {
      NestIsWalked(host, names, k - 1);
      assert names[..k][..k - 1] == names[..k - 1] && names[k - 1..][1..] == names[k..];
    } else {
      assert names[0..] == names;
    }
  }

  /** A runtime in which texts are no indices and builtins have no properties. */
  function PlainHost(): Host {
    Host(_ => NaN, _ => Failure(""), v => if v == Num(Finite(0.0)) then Success("0") else Failure(""), (_, _) => false,
         (_, _) => Failure(""), (_, _, _) => Failure(""), (_, _, n) => n, n => n, (_, _) => Failure(""), (_, _) => None,
         _ => Failure(""))
  }

  function Payload(item: Value): Value {
    Obj(map["items" := Arr([item])])
  }

  predicate NeverNull(v: Value, item: Value) {
    v == Payload(item) || v == Arr([item]) || v.Undefined? || v.Num? || v.Fn?
  }

  lemma {:induction false} PayloadIsNeverNull(item: Value, names: seq<string>)
    ensures NeverNull(Walk(PlainHost(), Payload(item), names), item)
  {
    if names != [] {
      PayloadIsNeverNull(item, names[..|names| - 1]);
    }
  }

  /** The path means the same on every item as on the payload, whatever runtime, payload and item. */
  ghost predicate PathIsKept(names: seq<string>) {
    forall host, i: nat, item, whole | WritesIndex(host, i) && ItemOf(item, whole, i) ::
      KeptOn(host, i, item, whole, Path(names))
  }

  predicate KeptOn(host: Host, i: nat, item: Env, whole: Env, c: Cst) {
    Eval(host, item, Ast(Rewrite(c, Element))) == Eval(host, whole, Ast(Rewrite(c, At(i))))
  }

  /** A path that starts at a bare `$json` keeps its meaning exactly if it asks for a forbidden name, which is undefined
      everywhere; otherwise it reads the item instead of the payload. */
  lemma {:induction false} BareJsonIsKeptIff(names: seq<string>)
    ensures PathIsKept(names) <==> exists k | 0 <= k < |names| :: names[k] in FORBIDDEN
  {
    if k :| 0 <= k < |names| && names[k] in FORBIDDEN {
      forall host, i: nat, item, whole | WritesIndex(host, i) && ItemOf(item, whole, i)
        ensures KeptOn(host, i, item, whole, Path(names))
      {
        PathMeanings(host, i, item, whole, names);
        ForbiddenIsUndefined(host, Lookup(item, "$json"), names, k);
        ForbiddenIsUndefined(host, Lookup(whole, "$json"), names, k);
      }
    } else {
      BarePathDiffers(names);
      assert ItemOf(NestEnv(names), PayloadEnv(names), 0);
    }
  }

  function NestEnv(names: seq<string>): Env {
    map["$json" := Nest(names)]
  }

  function PayloadEnv(names: seq<string>): Env {
    map["$json" := Payload(Nest(names))]
  }

  lemma {:induction false} BarePathDiffers(names: seq<string>)
    requires forall k | 0 <= k < |names| :: names[k] !in FORBIDDEN
    ensures WritesIndex(PlainHost(), 0) && !KeptOn(PlainHost(), 0, NestEnv(names), PayloadEnv(names), Path(names))
  {
    PathMeanings(PlainHost(), 0, NestEnv(names), PayloadEnv(names), names);
    NestIsWalked(PlainHost(), names, |names|);
    assert names[..|names|] == names;
    PayloadIsNeverNull(Nest(names), names);
  }

  lemma {:induction false} PathMeanings(host: Host, i: nat, item: Env, whole: Env, names: seq<string>)
    ensures KeptOn(host, i, item, whole, Path(names))
            <==> Walk(host, Lookup(item, "$json"), names) == Walk(host, Lookup(whole, "$json"), names)
  {
    PathIsNotRewritten(names, Element);
    PathIsNotRewritten(names, At(i));
    PathIsWalked(host, item, names);
    PathIsWalked(host, whole, names);
  }

  // A reference that starts at a property

  /** `$json.items[0].$json.items[1]`: the second reference starts at a property, and loses that property's own
      items. */
  function NestedReference(): Cst {
    CIndex(CMember(CMember(JsonItem("0"), "$json", false), "items", false), CLit(NumberLit("1")), false)
  }

  function JsonItem(lexeme: string): Cst {
    CIndex(CMember(CName("$json"), "items", false), CLit(NumberLit(lexeme)), false)
  }

  /** `v.items[i]`. */
  function OwnElement(host: Host, v: Value, i: nat): Value
    requires WritesIndex(host, i)
  {
    var items := Step(host, v, "items");
    if Nullish(items) then Undefined else GetProperty(host, items, Num(Finite(i as real))).value
  }

  lemma {:induction false} NestedOnItem(host: Host, item: Env)
    ensures Eval(host, item, Ast(Rewrite(NestedReference(), Element)))
            == Success(Step(host, Lookup(item, "$json"), "$json"))
  {
    var property := CMember(JsonItem("0"), "$json", false);
    assert AllDigits("0") && AllDigits("1");
    assert Rewrite(JsonItem("0"), Element) == CName("$json");
    assert Rewrite(property, Element) == CMember(CName("$json"), "$json", false);
    assert IsReference(NestedReference());
    assert Rewrite(NestedReference(), Element) == CMember(CName("$json"), "$json", false);
    assert Eval(host, item, Name("$json")) == Success(Lookup(item, "$json"));
  }

  lemma {:induction false} NestedOnWhole(host: Host, i: nat, item: Env, whole: Env)
    requires WritesIndex(host, i) && ItemOf(item, whole, i)
    ensures Eval(host, whole, Ast(Rewrite(NestedReference(), At(i))))
            == Success(OwnElement(host, Step(host, Lookup(item, "$json"), "$json"), i))
  {
    assert AllDigits("0") && AllDigits("1");
    var first := Member(ReferenceAt(i), "$json", false);
    assert Rewrite(JsonItem("0"), At(i))
           == CIndex(CMember(CName("$json"), "items", false), CLit(NumberLit(Decimal(i))), false);
    assert IsReference(NestedReference());
    var root := Rewrite(NestedReference().target.target, At(i));
    assert root == CMember(root.target, "$json", false) && Ast(root.target) == ReferenceAt(i);
    assert Ast(root) == first;
    assert Rewrite(NestedReference(), At(i)) == Replacement(root, At(i));
    assert Ast(CMember(root, "items", false)) == Member(first, "items", false);
    assert Ast(Rewrite(NestedReference(), At(i)))
           == Index(Member(first, "items", false), Lit(NumberLit(Decimal(i))), false);
    ReferenceMeaning(host, i, item, whole);
    var v := Step(host, Lookup(item, "$json"), "$json");
    assert Eval(host, whole, first) == Success(v);
    assert Eval(host, whole, Member(first, "items", false)) == Success(Step(host, v, "items"));
    DecimalInverts(i);
    assert Eval(host, whole, Lit(NumberLit(Decimal(i)))) == Success(Num(Finite(i as real)));
  }

  /** Neither a value nor its `items` is a function. */
  predicate IsData(host: Host, v: Value) {
    !v.Fn? && !Step(host, v, "items").Fn?
  }

  lemma DigitsAreNoMethods(n: nat)
    ensures Decimal(n) !in STRING_METHODS && Decimal(n) !in NUMBER_METHODS && Decimal(n) != "toString"
  {
    var d := Decimal(n)[0];
    assert '0' <= d <= '9';
  }

  lemma PartIsSmaller(host: Host, v: Value, key: Value)
    requires !v.Fn? && TextOf(host, key).Success? && TextOf(host, key).value != "length"
    requires TextOf(host, key).value !in MethodsOf(v)
    ensures var part := GetProperty(host, v, key).value; part.Undefined? || (v decreases to part)
  {
    PropertiesAreSafe(host, v, key);
  }

  /** No tree is its own element. */
  lemma NotItsOwnElement(host: Host, v: Value, i: nat)
    requires WritesIndex(host, i) && IsData(host, v)
    ensures v == OwnElement(host, v, i) <==> v.Undefined?
  {
    DigitsAreNoNames(i);
    DigitsAreNoMethods(i);
    assert TextOf(host, Num(Finite(i as real))) == Success(Decimal(i));
    if !Nullish(v) {
      var items := Step(host, v, "items");
      PartIsSmaller(host, v, Text("items"));
      if !Nullish(items) {
        PartIsSmaller(host, items, Num(Finite(i as real)));
      }
    }
  }

  /** With the value `v` of the item's own property `$json`: the item side gives `v`, the payload side `v.items[i]`. The
      meaning is kept exactly if these are the same, which for data means that the item has no such property. */
  lemma {:induction false} NestedReferenceIsKeptIff(host: Host, i: nat, item: Env, whole: Env)
    requires WritesIndex(host, i) && ItemOf(item, whole, i)
    ensures var v := Step(host, Lookup(item, "$json"), "$json");
            && (KeptOn(host, i, item, whole, NestedReference()) <==> v == OwnElement(host, v, i))
            && (IsData(host, v) ==> (KeptOn(host, i, item, whole, NestedReference()) <==> v.Undefined?))
  {
    NestedOnItem(host, item);
    NestedOnWhole(host, i, item, whole);
    var v := Step(host, Lookup(item, "$json"), "$json");
    if IsData(host, v) {
      NotItsOwnElement(host, v, i);
    }
  }
}
