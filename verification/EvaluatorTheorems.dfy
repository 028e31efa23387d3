/** Exactly when the depth limit is hit, and that it changes nothing else. */
module EvaluatorTheorems {
  import opened Results
  import opened Syntax
  import opened Numbers
  import opened Values
  import opened Evaluator

  /** The greatest depth, counted from `e`, of a node that unbounded evaluation visits. */
  function Demand(host: Host, env: Env, e: Expr): nat
    decreases e, 0
  {
    match e
    case Lit(_) => 0
    case Name(_) => 0
    case Member(target, _, _) => 1 + Demand(host, env, target)
    case Index(target, index, _) =>
      var t := Eval(host, env, target);
      1 + if t.Failure? || Nullish(t.value) then Demand(host, env, target)
      else Max(Demand(host, env, target), Demand(host, env, index))
    case Call(callee, args) =>
      var f := Eval(host, env, callee);
      if f.Failure? || !f.value.Fn? then 1 + Demand(host, env, callee)
      else Max(1 + Demand(host, env, callee), DemandOfList(host, env, args))
    case Unary(_, argument) => 1 + Demand(host, env, argument)
    case Binary(op, left, right) =>
      var l := Eval(host, env, left);
      1 + if l.Failure? || Decides(op, l.value) then Demand(host, env, left)
      else Max(Demand(host, env, left), Demand(host, env, right))
    case Ternary(test, consequent, alternate) =>
      var t := Eval(host, env, test);
      1 + if t.Failure? then Demand(host, env, test)
      else Max(Demand(host, env, test), Demand(host, env, if Truthy(t.value) then consequent else alternate))
    case Array(elements) => DemandOfList(host, env, elements)
  }

  /** The same for a list, counted from the node that holds it; an empty list needs no depth. */
  function DemandOfList(host: Host, env: Env, es: seq<Expr>): nat
    decreases es, 0
  {
    if es == [] then 0
    else if Eval(host, env, es[0]).Failure? then 1 + Demand(host, env, es[0])
    else Max(1 + Demand(host, env, es[0]), DemandOfList(host, env, es[1..]))
  }

  /** The bounded outcome that the demand and the unbounded outcome determine. */
  function Limited<T>(depth: nat, demand: nat, r: Result<T, Reason>): Result<T, Reason> {
    if depth + demand > MAX_DEPTH then Failure(TooDeep) else r
  }

  /** The depth limit, exactly: it is hit when the visited depth exceeds it, and otherwise the bounded evaluator gives
      the unbounded outcome, value or error. */
  lemma {:induction false} BoundedEvaluation(host: Host, env: Env, e: Expr, depth: nat)
    ensures EvalNode(host, env, e, depth) == Limited(depth, Demand(host, env, e), Eval(host, env, e))
    decreases e, 1
  {
    if depth <= MAX_DEPTH {
      match e
      case Lit(_) =>
      case Name(_) =>
      case Member(target, _, _) => BoundedEvaluation(host, env, target, depth + 1);
      case Index(target, index, optional) => BoundedIndex(host, env, target, index, optional, depth);
      case Call(callee, args) => BoundedCall(host, env, callee, args, depth);
      case Unary(_, argument) => BoundedEvaluation(host, env, argument, depth + 1);
      case Binary(op, left, right) => BoundedBinary(host, env, op, left, right, depth);
      case Ternary(test, consequent, alternate) => BoundedTernary(host, env, test, consequent, alternate, depth);
      case Array(elements) => BoundedList(host, env, elements, depth);
    }
  }

  lemma {:induction false} BoundedIndex(host: Host, env: Env, target: Expr, index: Expr, optional: bool, depth: nat)
    requires depth <= MAX_DEPTH
    ensures var e := Index(target, index, optional);
            EvalNode(host, env, e, depth) == Limited(depth, Demand(host, env, e), Eval(host, env, e))
    decreases Index(target, index, optional), 0
  {
    BoundedEvaluation(host, env, target, depth + 1);
    BoundedEvaluation(host, env, index, depth + 1);
  }

  lemma {:induction false} BoundedCall(host: Host, env: Env, callee: Expr, args: seq<Expr>, depth: nat)
    requires depth <= MAX_DEPTH
    ensures var e := Call(callee, args);
            EvalNode(host, env, e, depth) == Limited(depth, Demand(host, env, e), Eval(host, env, e))
    decreases Call(callee, args), 0
  {
    BoundedEvaluation(host, env, callee, depth + 1);
    BoundedList(host, env, args, depth);
  }

  lemma {:induction false} BoundedBinary(host: Host, env: Env, op: BinaryOp, left: Expr, right: Expr, depth: nat)
    requires depth <= MAX_DEPTH
    ensures var e := Binary(op, left, right);
            EvalNode(host, env, e, depth) == Limited(depth, Demand(host, env, e), Eval(host, env, e))
    decreases Binary(op, left, right), 0
  {
    BoundedEvaluation(host, env, left, depth + 1);
    BoundedEvaluation(host, env, right, depth + 1);
  }

  lemma {:induction false} BoundedTernary(host: Host, env: Env, test: Expr, consequent: Expr, alternate: Expr,
                                          depth: nat)
    requires depth <= MAX_DEPTH
    ensures var e := Ternary(test, consequent, alternate);
            EvalNode(host, env, e, depth) == Limited(depth, Demand(host, env, e), Eval(host, env, e))
    decreases Ternary(test, consequent, alternate), 0
  {
    BoundedEvaluation(host, env, test, depth + 1);
    if Eval(host, env, test).Success? {
      var branch := if Truthy(Eval(host, env, test).value) then consequent else alternate;
      BoundedEvaluation(host, env, branch, depth + 1);
      LimitedBranch(host, env, test, consequent, alternate, branch, depth);
    }
  }

  lemma LimitedBranch(host: Host, env: Env, test: Expr, consequent: Expr, alternate: Expr, branch: Expr, depth: nat)
    requires depth <= MAX_DEPTH && Eval(host, env, test).Success?
    requires branch == if Truthy(Eval(host, env, test).value) then consequent else alternate
    requires EvalNode(host, env, test, depth + 1)
             == Limited(depth + 1, Demand(host, env, test), Eval(host, env, test))
    requires EvalNode(host, env, branch, depth + 1)
             == Limited(depth + 1, Demand(host, env, branch), Eval(host, env, branch))
    ensures var e := Ternary(test, consequent, alternate);
            EvalNode(host, env, e, depth) == Limited(depth, Demand(host, env, e), Eval(host, env, e))
  {
  }

  lemma {:induction false} BoundedList(host: Host, env: Env, es: seq<Expr>, depth: nat)
    requires depth <= MAX_DEPTH
    ensures EvalNodes(host, env, es, depth + 1) == Limited(depth, DemandOfList(host, env, es), EvalList(host, env, es))
    decreases es, 0
  {
    if es != [] {
      BoundedEvaluation(host, env, es[0], depth + 1);
      BoundedList(host, env, es[1..], depth);
    }
  }

  /** Any outcome but the nesting error is the unbounded one, at this depth and at every smaller one. */
  lemma BoundedRefinesUnbounded(host: Host, env: Env, e: Expr, depth: nat, smaller: nat)
    requires EvalNode(host, env, e, depth) != Failure(TooDeep) && smaller <= depth
    ensures EvalNode(host, env, e, smaller) == Eval(host, env, e) == EvalNode(host, env, e, depth)
  {
    BoundedEvaluation(host, env, e, depth);
    BoundedEvaluation(host, env, e, smaller);
  }

  // The nesting error comes from the limit alone, and shallow trees never meet it.

  lemma {:induction false} UnboundedNeverTooDeep(host: Host, env: Env, e: Expr)
    ensures Eval(host, env, e) != Failure(TooDeep)
    decreases e, 0
  {
    match e
    case Lit(_) =>
    case Name(_) =>
    case Member(target, _, _) => UnboundedNeverTooDeep(host, env, target);
    case Index(target, index, _) => UnboundedNeverTooDeep(host, env, target); UnboundedNeverTooDeep(host, env, index);
    case Call(callee, args) => UnboundedNeverTooDeep(host, env, callee); ListNeverTooDeep(host, env, args);
    case Unary(_, argument) => UnboundedNeverTooDeep(host, env, argument);
    case Binary(_, left, right) => UnboundedNeverTooDeep(host, env, left); UnboundedNeverTooDeep(host, env, right);
    case Ternary(test, consequent, alternate) =>
      UnboundedNeverTooDeep(host, env, test);
      UnboundedNeverTooDeep(host, env, consequent);
      UnboundedNeverTooDeep(host, env, alternate);
    case Array(elements) => ListNeverTooDeep(host, env, elements);
  }

  lemma {:induction false} ListNeverTooDeep(host: Host, env: Env, es: seq<Expr>)
    ensures EvalList(host, env, es) != Failure(TooDeep)
    decreases es, 0
  {
    if es != [] {
      UnboundedNeverTooDeep(host, env, es[0]);
      ListNeverTooDeep(host, env, es[1..]);
    }
  }

  /** The depth of the deepest node. */
  function Height(e: Expr): nat
    decreases e, 0
  {
    match e
    case Lit(_) => 0
    case Name(_) => 0
    case Member(target, _, _) => 1 + Height(target)
    case Index(target, index, _) => 1 + Max(Height(target), Height(index))
    case Call(callee, args) => Max(1 + Height(callee), HeightOfList(args))
    case Unary(_, argument) => 1 + Height(argument)
    case Binary(_, left, right) => 1 + Max(Height(left), Height(right))
    case Ternary(test, consequent, alternate) => 1 + Max(Height(test), Max(Height(consequent), Height(alternate)))
    case Array(elements) => HeightOfList(elements)
  }

  function HeightOfList(es: seq<Expr>): nat
    decreases es, 0
  {
    if es == [] then 0 else Max(1 + Height(es[0]), HeightOfList(es[1..]))
  }

  lemma {:induction false} DemandWithinHeight(host: Host, env: Env, e: Expr)
    ensures Demand(host, env, e) <= Height(e)
    decreases e, 1
  {
    match e
    case Lit(_) =>
    case Name(_) =>
    case Member(target, _, _) => DemandWithinHeight(host, env, target);
    case Index(target, index, _) => DemandWithinHeight(host, env, target); DemandWithinHeight(host, env, index);
    case Call(callee, args) => DemandWithinHeight(host, env, callee); ListDemandWithinHeight(host, env, args);
    case Unary(_, argument) => DemandWithinHeight(host, env, argument);
    case Binary(_, left, right) => DemandWithinHeight(host, env, left); DemandWithinHeight(host, env, right);
    case Ternary(test, consequent, alternate) => TernaryDemandWithinHeight(host, env, test, consequent, alternate);
    case Array(elements) => ListDemandWithinHeight(host, env, elements);
  }

  lemma {:induction false} TernaryDemandWithinHeight(host: Host, env: Env, test: Expr, consequent: Expr,
                                                     alternate: Expr)
    ensures Demand(host, env, Ternary(test, consequent, alternate)) <= Height(Ternary(test, consequent, alternate))
    decreases Ternary(test, consequent, alternate), 0
  {
    DemandWithinHeight(host, env, test);
    DemandWithinHeight(host, env, consequent);
    DemandWithinHeight(host, env, alternate);
  }

  lemma {:induction false} ListDemandWithinHeight(host: Host, env: Env, es: seq<Expr>)
    ensures DemandOfList(host, env, es) <= HeightOfList(es)
    decreases es, 0
  {
    if es != [] {
      DemandWithinHeight(host, env, es[0]);
      ListDemandWithinHeight(host, env, es[1..]);
    }
  }

  /** A tree with no node deeper than the limit never raises the nesting error. */
  lemma ShallowTreesEvaluate(host: Host, env: Env, e: Expr)
    requires Height(e) <= MAX_DEPTH
    ensures EvalNode(host, env, e, 0) == Eval(host, env, e) != Failure(TooDeep)
  {
    DemandWithinHeight(host, env, e);
    BoundedEvaluation(host, env, e, 0);
    UnboundedNeverTooDeep(host, env, e);
  }
}
