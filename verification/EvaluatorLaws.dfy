/** What evaluation may reach, and what it does not depend on. */
module EvaluatorLaws {
  import opened Results
  import opened Syntax
  import opened Values
  import opened Evaluator
  import opened ItemMeaning

  // Properties

  /** The methods an expression may take from a value. */
  function MethodsOf(target: Value): set<string> {
    match target
    case Text(_) => STRING_METHODS
    case Num(_) => NUMBER_METHODS
    case Bool(_) => {"toString"}
    case Arr(_) => ARRAY_METHODS
    case _ => {}
  }

  /** A value that property access may give: a part of the target, its length, or a listed method bound to it. */
  predicate Reachable(host: Host, target: Value, name: string, v: Value) {
    || v.Undefined?
    || (target.Obj? && name in target.fields && v == target.fields[name])
    || (target.Arr? && v in target.items)
    || (target.Fn? && host.ownProperty(target.builtin, name) == Some(v))
    || (name == "length" && v.Num? && (target.Arr? || target.Text?))
    || (name in MethodsOf(target) && v == Fn(Method(target, name)))
  }

  /** Property access reaches parts of the target and listed methods only, and never a forbidden name. */
  lemma PropertiesAreSafe(host: Host, target: Value, key: Value)
    requires GetProperty(host, target, key).Success?
    ensures Reachable(host, target, TextOf(host, key).value, GetProperty(host, target, key).value)
    ensures TextOf(host, key).value in FORBIDDEN ==> GetProperty(host, target, key).value == Undefined
  {
    if target.Text? || target.Arr? {
      LengthIsNoMethod(host, target, key);
    }
  }

  lemma LengthIsNoMethod(host: Host, target: Value, key: Value)
    requires GetProperty(host, target, key).Success? && (target.Text? || target.Arr?)
    ensures TextOf(host, key).value == "length" ==> GetProperty(host, target, key).value.Num?
  {
  }

  // Optional chaining

  /** The expression with every `?.` written as `.`, or as `[` alone. */
  function Plain(e: Expr): Expr
    decreases e, 0
  {
    match e
    case Lit(_) => e
    case Name(_) => e
    case Member(target, property, _) => Member(Plain(target), property, false)
    case Index(target, index, _) => Index(Plain(target), Plain(index), false)
    case Call(callee, args) => Call(Plain(callee), PlainAll(args))
    case Unary(op, argument) => Unary(op, Plain(argument))
    case Binary(op, left, right) => Binary(op, Plain(left), Plain(right))
    case Ternary(test, consequent, alternate) => Ternary(Plain(test), Plain(consequent), Plain(alternate))
    case Array(elements) => Array(PlainAll(elements))
  }

  function PlainAll(es: seq<Expr>): seq<Expr>
    decreases es, 0
  {
    if es == [] then [] else [Plain(es[0])] + PlainAll(es[1..])
  }

  /** Optional chaining changes nothing: plain property access already gives `undefined` on `null` and `undefined`. */
  lemma {:induction false} OptionalChangesNothing(host: Host, env: Env, e: Expr, depth: nat)
    ensures EvalNode(host, env, Plain(e), depth) == EvalNode(host, env, e, depth)
    decreases e, 1
  {
    if depth <= MAX_DEPTH {
      match e
      case Lit(_) =>
      case Name(_) =>
      case Member(target, _, _) => OptionalChangesNothing(host, env, target, depth + 1);
      case Index(target, index, optional) => PlainIndex(host, env, target, index, optional, depth);
      case Call(callee, args) => PlainCall(host, env, callee, args, depth);
      case Unary(_, argument) => OptionalChangesNothing(host, env, argument, depth + 1);
      case Binary(op, left, right) => PlainBinary(host, env, op, left, right, depth);
      case Ternary(test, consequent, alternate) => PlainTernary(host, env, test, consequent, alternate, depth);
      case Array(elements) => PlainList(host, env, elements, depth + 1);
    }
  }

  lemma {:induction false} PlainIndex(host: Host, env: Env, target: Expr, index: Expr, optional: bool, depth: nat)
    ensures EvalNode(host, env, Plain(Index(target, index, optional)), depth)
            == EvalNode(host, env, Index(target, index, optional), depth)
    decreases Index(target, index, optional), 0
  {
    OptionalChangesNothing(host, env, target, depth + 1);
    OptionalChangesNothing(host, env, index, depth + 1);
  }

  lemma {:induction false} PlainCall(host: Host, env: Env, callee: Expr, args: seq<Expr>, depth: nat)
    ensures EvalNode(host, env, Plain(Call(callee, args)), depth) == EvalNode(host, env, Call(callee, args), depth)
    decreases Call(callee, args), 0
  {
    OptionalChangesNothing(host, env, callee, depth + 1);
    PlainList(host, env, args, depth + 1);
  }

  lemma {:induction false} PlainBinary(host: Host, env: Env, op: BinaryOp, left: Expr, right: Expr, depth: nat)
    ensures EvalNode(host, env, Plain(Binary(op, left, right)), depth)
            == EvalNode(host, env, Binary(op, left, right), depth)
    decreases Binary(op, left, right), 0
  {
    OptionalChangesNothing(host, env, left, depth + 1);
    OptionalChangesNothing(host, env, right, depth + 1);
    SameOperands(host, env, op, left, right, Plain(left), Plain(right), depth);
  }

  lemma SameOperands(host: Host, env: Env, op: BinaryOp, a: Expr, b: Expr, c: Expr, d: Expr, depth: nat)
    requires EvalNode(host, env, a, depth + 1) == EvalNode(host, env, c, depth + 1)
    requires EvalNode(host, env, b, depth + 1) == EvalNode(host, env, d, depth + 1)
    ensures EvalNode(host, env, Binary(op, a, b), depth) == EvalNode(host, env, Binary(op, c, d), depth)
  {
  }

  lemma {:induction false} PlainTernary(host: Host, env: Env, test: Expr, consequent: Expr, alternate: Expr, depth: nat)
    ensures EvalNode(host, env, Plain(Ternary(test, consequent, alternate)), depth)
            == EvalNode(host, env, Ternary(test, consequent, alternate), depth)
    decreases Ternary(test, consequent, alternate), 0
  {
    OptionalChangesNothing(host, env, test, depth + 1);
    var t := EvalNode(host, env, test, depth + 1);
    if t.Success? {
      OptionalChangesNothing(host, env, if Truthy(t.value) then consequent else alternate, depth + 1);
    }
  }

  lemma {:induction false} PlainList(host: Host, env: Env, es: seq<Expr>, depth: nat)
    ensures EvalNodes(host, env, PlainAll(es), depth) == EvalNodes(host, env, es, depth)
    decreases es, 0
  {
    if es != [] {
      OptionalChangesNothing(host, env, es[0], depth);
      PlainList(host, env, es[1..], depth);
    }
  }

  // Names

  ghost predicate SameNames(names: set<string>, a: Env, b: Env) {
    forall n <- names :: Lookup(a, n) == Lookup(b, n)
  }

  /** The value of an expression depends on the names it looks up and on nothing else. */
  lemma {:induction false} OnlyFreeNamesMatter(host: Host, a: Env, b: Env, e: Expr, depth: nat)
    requires SameNames(FreeNames(e), a, b)
    ensures EvalNode(host, a, e, depth) == EvalNode(host, b, e, depth)
    decreases e, 1
  {
    if depth <= MAX_DEPTH {
      match e
      case Lit(_) =>
      case Name(_) =>
      case Member(target, _, _) => OnlyFreeNamesMatter(host, a, b, target, depth + 1);
      case Index(target, index, optional) => NamesOfIndex(host, a, b, target, index, optional, depth);
      case Call(callee, args) => NamesOfCall(host, a, b, callee, args, depth);
      case Unary(_, argument) => OnlyFreeNamesMatter(host, a, b, argument, depth + 1);
      case Binary(op, left, right) => NamesOfBinary(host, a, b, op, left, right, depth);
      case Ternary(test, consequent, alternate) => NamesOfTernary(host, a, b, test, consequent, alternate, depth);
      case Array(elements) => NamesOfList(host, a, b, elements, depth + 1);
    }
  }

  lemma {:induction false} NamesOfIndex(host: Host, a: Env, b: Env, target: Expr, index: Expr, optional: bool,
                                        depth: nat)
    requires SameNames(FreeNames(Index(target, index, optional)), a, b)
    ensures EvalNode(host, a, Index(target, index, optional), depth)
            == EvalNode(host, b, Index(target, index, optional), depth)
    decreases Index(target, index, optional), 0
  {
    OnlyFreeNamesMatter(host, a, b, target, depth + 1);
    OnlyFreeNamesMatter(host, a, b, index, depth + 1);
  }

  lemma {:induction false} NamesOfCall(host: Host, a: Env, b: Env, callee: Expr, args: seq<Expr>, depth: nat)
    requires SameNames(FreeNames(Call(callee, args)), a, b)
    ensures EvalNode(host, a, Call(callee, args), depth) == EvalNode(host, b, Call(callee, args), depth)
    decreases Call(callee, args), 0
  {
    OnlyFreeNamesMatter(host, a, b, callee, depth + 1);
    NamesOfList(host, a, b, args, depth + 1);
  }

  lemma {:induction false} NamesOfBinary(host: Host, a: Env, b: Env, op: BinaryOp, left: Expr, right: Expr, depth: nat)
    requires SameNames(FreeNames(Binary(op, left, right)), a, b)
    ensures EvalNode(host, a, Binary(op, left, right), depth) == EvalNode(host, b, Binary(op, left, right), depth)
    decreases Binary(op, left, right), 0
  {
    OnlyFreeNamesMatter(host, a, b, left, depth + 1);
    OnlyFreeNamesMatter(host, a, b, right, depth + 1);
  }

  lemma {:induction false} NamesOfTernary(host: Host, a: Env, b: Env, test: Expr, consequent: Expr, alternate: Expr,
                                          depth: nat)
    requires SameNames(FreeNames(Ternary(test, consequent, alternate)), a, b)
    ensures EvalNode(host, a, Ternary(test, consequent, alternate), depth)
            == EvalNode(host, b, Ternary(test, consequent, alternate), depth)
    decreases Ternary(test, consequent, alternate), 0
  {
    OnlyFreeNamesMatter(host, a, b, test, depth + 1);
    OnlyFreeNamesMatter(host, a, b, consequent, depth + 1);
    OnlyFreeNamesMatter(host, a, b, alternate, depth + 1);
  }

  lemma {:induction false} NamesOfList(host: Host, a: Env, b: Env, es: seq<Expr>, depth: nat)
    requires SameNames(FreeNamesOf(es), a, b)
    ensures EvalNodes(host, a, es, depth) == EvalNodes(host, b, es, depth)
    decreases es, 0
  {
    if es != [] {
      OnlyFreeNamesMatter(host, a, b, es[0], depth);
      NamesOfList(host, a, b, es[1..], depth);
    }
  }
}
