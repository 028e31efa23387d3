/** What each construct of the language computes from the outcomes of its parts, with and without the depth limit. */
module OperatorLaws {
  import opened Results
  import opened Syntax
  import opened Values
  import opened Evaluator
  import Numbers

  predicate IsFalsy(v: Value) {
    v in {Undefined, Null, Bool(false), Num(Finite(0.0)), Num(NaN), Text("")}
  }

  /** `&&` gives the left value if it is falsy and else the outcome of the right side; `||` does the converse, and `??`
      goes on only behind `null` and `undefined`. What decides is returned whatever the right side would do. */
  predicate LogicLaw(left: Outcome, right: Outcome, and: Outcome, or: Outcome, coalesce: Outcome) {
    match left
    case Failure(_) => and == or == coalesce == left
    case Success(v) =>
      && and == (if IsFalsy(v) then left else right)
      && or == (if IsFalsy(v) then right else left)
      && coalesce == (if v == Null || v == Undefined then right else left)
  }

  lemma LogicLaws(host: Host, env: Env, a: Expr, b: Expr, depth: nat)
    ensures LogicLaw(Eval(host, env, a), Eval(host, env, b), Eval(host, env, Binary(And, a, b)),
                     Eval(host, env, Binary(Or, a, b)), Eval(host, env, Binary(Coalesce, a, b)))
    ensures depth <= 64 ==>
              LogicLaw(EvalNode(host, env, a, depth + 1), EvalNode(host, env, b, depth + 1),
                       EvalNode(host, env, Binary(And, a, b), depth), EvalNode(host, env, Binary(Or, a, b), depth),
                       EvalNode(host, env, Binary(Coalesce, a, b), depth))
  {
    if depth <= 64 {
      LogicWithin(host, env, a, b, depth);
    }
  }

  lemma LogicWithin(host: Host, env: Env, a: Expr, b: Expr, depth: nat)
    requires depth <= 64
    ensures LogicLaw(EvalNode(host, env, a, depth + 1), EvalNode(host, env, b, depth + 1),
                     EvalNode(host, env, Binary(And, a, b), depth), EvalNode(host, env, Binary(Or, a, b), depth),
                     EvalNode(host, env, Binary(Coalesce, a, b), depth))
  {
  }

  /** A conditional gives the outcome of one branch, whatever the other would do. */
  predicate ConditionalLaw(test: Outcome, consequent: Outcome, alternate: Outcome, r: Outcome) {
    match test
    case Failure(_) => r == test
    case Success(v) => r == if IsFalsy(v) then alternate else consequent
  }

  lemma ConditionalLaws(host: Host, env: Env, test: Expr, consequent: Expr, alternate: Expr, depth: nat)
    ensures ConditionalLaw(Eval(host, env, test), Eval(host, env, consequent), Eval(host, env, alternate),
                           Eval(host, env, Ternary(test, consequent, alternate)))
    ensures depth <= 64 ==>
              ConditionalLaw(EvalNode(host, env, test, depth + 1), EvalNode(host, env, consequent, depth + 1),
                             EvalNode(host, env, alternate, depth + 1),
                             EvalNode(host, env, Ternary(test, consequent, alternate), depth))
  {
  }

  /** What an operator does once both values are known. */
  predicate OperatorLaw(host: Host, op: BinaryOp, l: Value, r: Value, result: Outcome) {
    match op
    case StrictEq => result == Success(Bool(host.strictEquals(l, r)))
    case StrictNe => result == Success(Bool(!host.strictEquals(l, r)))
    case LooseEq => TruthLaw(host.looseEquals(l, r), false, result)
    case LooseNe => TruthLaw(host.looseEquals(l, r), true, result)
    case Lt => TruthLaw(host.compare(Lt, l, r), false, result)
    case Gt => TruthLaw(host.compare(Gt, l, r), false, result)
    case Le => TruthLaw(host.compare(Le, l, r), false, result)
    case Ge => TruthLaw(host.compare(Ge, l, r), false, result)
    case Add => if l.Text? || r.Text? then JoinLaw(host, l, r, result) else ArithmeticLaw(host, Add, l, r, result)
    case Sub => ArithmeticLaw(host, Sub, l, r, result)
    case Mul => ArithmeticLaw(host, Mul, l, r, result)
    case Div => ArithmeticLaw(host, Div, l, r, result)
    case Mod => ArithmeticLaw(host, Mod, l, r, result)
    case _ => true
  }

  /** The answer of the runtime, negated if asked, or what it throws. */
  predicate TruthLaw(answer: Partial<bool>, negated: bool, result: Outcome) {
    match answer
    case Success(b) => result == Success(Bool(b != negated))
    case Failure(message) => result == Failure(HostFailure(message))
  }

  /** `String(l) + String(r)`: texts are joined as they are, other values as the runtime writes them. */
  predicate JoinLaw(host: Host, l: Value, r: Value, result: Outcome) {
    match (if l.Text? then Success(l.s) else host.toText(l))
    case Failure(message) => result == Failure(HostFailure(message))
    case Success(a) =>
      match (if r.Text? then Success(r.s) else host.toText(r))
      case Failure(message) => result == Failure(HostFailure(message))
      case Success(b) => result == Success(Text(a + b))
  }

  /** Numbers are taken as they are, other values as the runtime converts them. */
  predicate ArithmeticLaw(host: Host, op: BinaryOp, l: Value, r: Value, result: Outcome) {
    match (if l.Num? then Success(l.n) else host.toNumber(l))
    case Failure(message) => result == Failure(HostFailure(message))
    case Success(a) =>
      match (if r.Num? then Success(r.n) else host.toNumber(r))
      case Failure(message) => result == Failure(HostFailure(message))
      case Success(b) => result == Success(Num(host.arithmetic(op, a, b)))
  }

  /** The operators that evaluate both sides, the left one first. */
  predicate BothSidesLaw(host: Host, op: BinaryOp, left: Outcome, right: Outcome, result: Outcome) {
    if left.Failure? then result == left
    else if right.Failure? then result == right
    else OperatorLaw(host, op, left.value, right.value, result)
  }

  lemma BothSidesLaws(host: Host, env: Env, op: BinaryOp, a: Expr, b: Expr, depth: nat)
    requires op !in {And, Or, Coalesce}
    ensures BothSidesLaw(host, op, Eval(host, env, a), Eval(host, env, b), Eval(host, env, Binary(op, a, b)))
    ensures depth <= 64 ==>
              BothSidesLaw(host, op, EvalNode(host, env, a, depth + 1), EvalNode(host, env, b, depth + 1),
                           EvalNode(host, env, Binary(op, a, b), depth))
  {
    BothSides(host, env, op, a, b);
    if depth <= 64 {
      BothSidesWithin(host, env, op, a, b, depth);
    }
  }

  lemma BothSides(host: Host, env: Env, op: BinaryOp, a: Expr, b: Expr)
    requires op !in {And, Or, Coalesce}
    ensures BothSidesLaw(host, op, Eval(host, env, a), Eval(host, env, b), Eval(host, env, Binary(op, a, b)))
  {
    var l, r := Eval(host, env, a), Eval(host, env, b);
    if l.Success? && r.Success? {
      AppliesBinary(host, op, l.value, r.value);
      assert Eval(host, env, Binary(op, a, b)) == ApplyBinary(host, op, l.value, r.value);
    }
  }

  lemma BothSidesWithin(host: Host, env: Env, op: BinaryOp, a: Expr, b: Expr, depth: nat)
    requires op !in {And, Or, Coalesce} && depth <= 64
    ensures BothSidesLaw(host, op, EvalNode(host, env, a, depth + 1), EvalNode(host, env, b, depth + 1),
                         EvalNode(host, env, Binary(op, a, b), depth))
  {
    var l, r := EvalNode(host, env, a, depth + 1), EvalNode(host, env, b, depth + 1);
    if l.Success? && r.Success? {
      AppliesBinary(host, op, l.value, r.value);
      assert EvalNode(host, env, Binary(op, a, b), depth) == ApplyBinary(host, op, l.value, r.value);
    }
  }

  lemma AppliesBinary(host: Host, op: BinaryOp, l: Value, r: Value)
    requires op !in {And, Or, Coalesce}
    ensures OperatorLaw(host, op, l, r, ApplyBinary(host, op, l, r))
  {
  }

  /** The name of a value's type. */
  function TypeText(v: Value): string {
    match v
    case Undefined => "undefined"
    case Null => "object"
    case Bool(_) => "boolean"
    case Num(_) => "number"
    case Text(_) => "string"
    case Arr(_) => "object"
    case Obj(_) => "object"
    case Fn(_) => "function"
  }

  predicate PrefixLaw(host: Host, op: UnaryOp, v: Value, result: Outcome) {
    match op
    case Not => result == Success(Bool(IsFalsy(v)))
    case TypeOf => result == Success(Text(TypeText(v)))
    case Positive =>
      (match (if v.Num? then Success(v.n) else host.toNumber(v))
       case Failure(message) => result == Failure(HostFailure(message))
       case Success(n) => result == Success(Num(n)))
    case Negative =>
      (match (if v.Num? then Success(v.n) else host.toNumber(v))
       case Failure(message) => result == Failure(HostFailure(message))
       case Success(n) => result == Success(Num(host.negate(n))))
  }

  lemma PrefixLaws(host: Host, env: Env, op: UnaryOp, a: Expr, depth: nat)
    ensures var r, result := Eval(host, env, a), Eval(host, env, Unary(op, a));
            if r.Failure? then result == r else PrefixLaw(host, op, r.value, result)
    ensures depth <= 64 ==>
              var r, result := EvalNode(host, env, a, depth + 1), EvalNode(host, env, Unary(op, a), depth);
              if r.Failure? then result == r else PrefixLaw(host, op, r.value, result)
  {
  }

  const TEXT_METHODS := {
    "toLowerCase", "toUpperCase", "trim", "trimStart", "trimEnd", "includes", "startsWith", "endsWith",
    "indexOf", "lastIndexOf", "slice", "substring", "replace", "replaceAll", "split", "concat", "repeat",
    "padStart", "padEnd", "charAt", "toString"}

  predicate Selects(index: Numeric, i: nat) {
    index == Finite(i as real)
  }

  /** `.name` and `[key]` on a value: own fields of objects, elements and length of arrays, length of texts, the listed
      methods, and `undefined` for everything else, in particular for the forbidden names. */
  predicate PropertyLaw(host: Host, v: Value, name: string, index: Numeric, result: Value) {
    if name in {"__proto__", "prototype", "constructor"} then result == Undefined
    else
      match v
      case Undefined => result == Undefined
      case Null => result == Undefined
      case Obj(fields) => result == if name in fields then fields[name] else Undefined
      case Arr(items) =>
        if name == "length" then result == Num(Finite(|items| as real))
        else if name in {"includes", "indexOf", "join", "slice", "concat", "at", "toString"} then
          result == Fn(Method(v, name))
        else if exists i: nat :: i < |items| && Selects(index, i) then
          result in items && forall i: nat | i < |items| && Selects(index, i) :: result == items[i]
        else result == Undefined
      case Text(s) =>
        if name == "length" then result == Num(Finite(|s| as real))
        else result == if name in TEXT_METHODS then Fn(Method(v, name)) else Undefined
      case Num(_) => result == if name in {"toFixed", "toPrecision", "toString"} then Fn(Method(v, name)) else Undefined
      case Bool(_) => result == if name == "toString" then Fn(Method(v, name)) else Undefined
      case Fn(builtin) =>
        result == if host.ownProperty(builtin, name).Some? then host.ownProperty(builtin, name).value else Undefined
  }

  lemma PropertyLaws(host: Host, v: Value, key: Value)
    ensures TextOf(host, key).Failure? ==> GetProperty(host, v, key) == Failure(TextOf(host, key).error)
    ensures TextOf(host, key).Success? ==>
              var name := TextOf(host, key).value;
              && GetProperty(host, v, key).Success?
              && PropertyLaw(host, v, name, if key.Num? then key.n else host.numberOfText(name),
                             GetProperty(host, v, key).value)
  {
    if v.Arr? && TextOf(host, key).Success? {
      ElementLaw(v.items, if key.Num? then key.n else host.numberOfText(TextOf(host, key).value));
    }
  }

  lemma ElementLaw(items: seq<Value>, index: Numeric)
    ensures var result := ElementAt(items, index);
            if exists i: nat :: i < |items| && Selects(index, i)
            then result in items && forall i: nat | i < |items| && Selects(index, i) :: result == items[i]
            else result == Undefined
  {
    forall i: nat | i < |items| && Selects(index, i) ensures ElementAt(items, index) == items[i] {
      assert (i as real).Floor == i;
    }
    if index.Finite? && index.v.Floor as real == index.v && 0 <= index.v.Floor < |items| {
      assert Selects(index, index.v.Floor);
    }
  }

  /** Access to a property by name. */
  predicate MemberLaw(host: Host, target: Outcome, name: string, result: Outcome) {
    match target
    case Failure(_) => result == target
    case Success(v) => result.Success? && PropertyLaw(host, v, name, host.numberOfText(name), result.value)
  }

  /** Access by a computed key, which is not evaluated behind `null` and `undefined`. */
  predicate IndexLaw(host: Host, target: Outcome, key: Outcome, result: Outcome) {
    match target
    case Failure(_) => result == target
    case Success(v) =>
      if v == Null || v == Undefined then result == Success(Undefined)
      else
        match key
        case Failure(_) => result == key
        case Success(k) =>
          match (if k.Text? then Success(k.s) else host.toText(k))
          case Failure(message) => result == Failure(HostFailure(message))
          case Success(name) =>
            result.Success? && PropertyLaw(host, v, name, if k.Num? then k.n else host.numberOfText(name), result.value)
  }

  lemma AccessLaws(host: Host, env: Env, a: Expr, name: string, b: Expr, optional: bool, depth: nat)
    ensures MemberLaw(host, Eval(host, env, a), name, Eval(host, env, Member(a, name, optional)))
    ensures IndexLaw(host, Eval(host, env, a), Eval(host, env, b), Eval(host, env, Index(a, b, optional)))
    ensures depth <= 64 ==>
              MemberLaw(host, EvalNode(host, env, a, depth + 1), name,
                        EvalNode(host, env, Member(a, name, optional), depth))
    ensures depth <= 64 ==>
              IndexLaw(host, EvalNode(host, env, a, depth + 1), EvalNode(host, env, b, depth + 1),
                       EvalNode(host, env, Index(a, b, optional), depth))
  {
    var l, r := Eval(host, env, a), Eval(host, env, b);
    if l.Success? {
      PropertyLaws(host, l.value, Text(name));
      if r.Success? {
        PropertyLaws(host, l.value, r.value);
      }
    }
    if depth <= 64 {
      AccessWithin(host, env, a, name, b, optional, depth);
    }
  }

  lemma AccessWithin(host: Host, env: Env, a: Expr, name: string, b: Expr, optional: bool, depth: nat)
    requires depth <= 64
    ensures MemberLaw(host, EvalNode(host, env, a, depth + 1), name,
                      EvalNode(host, env, Member(a, name, optional), depth))
    ensures IndexLaw(host, EvalNode(host, env, a, depth + 1), EvalNode(host, env, b, depth + 1),
                     EvalNode(host, env, Index(a, b, optional), depth))
  {
    var l, r := EvalNode(host, env, a, depth + 1), EvalNode(host, env, b, depth + 1);
    if l.Success? {
      PropertyLaws(host, l.value, Text(name));
      if r.Success? {
        PropertyLaws(host, l.value, r.value);
      }
    }
  }

  // Lists and calls

  /** The outcomes of a list in order: all values, or the first failure. */
  predicate ListLaw(parts: seq<Outcome>, result: Result<seq<Value>, Reason>) {
    match result
    case Success(values) => |values| == |parts| && forall i | 0 <= i < |parts| :: parts[i] == Success(values[i])
    case Failure(reason) =>
      exists k | 0 <= k < |parts| :: parts[k] == Failure(reason) && forall i | 0 <= i < k :: parts[i].Success?
  }

  lemma {:induction false} ListLaws(host: Host, env: Env, es: seq<Expr>)
    ensures ListLaw(seq(|es|, i requires 0 <= i < |es| => Eval(host, env, es[i])), EvalList(host, env, es))
  {
    if es != [] {
      ListLaws(host, env, es[1..]);
      FirstOfList(seq(|es|, i requires 0 <= i < |es| => Eval(host, env, es[i])),
                  seq(|es[1..]|, i requires 0 <= i < |es[1..]| => Eval(host, env, es[1..][i])),
                  EvalList(host, env, es[1..]), EvalList(host, env, es));
    }
  }

  lemma {:induction false} ListLawsWithin(host: Host, env: Env, es: seq<Expr>, depth: nat)
    ensures ListLaw(seq(|es|, i requires 0 <= i < |es| => EvalNode(host, env, es[i], depth)),
                    EvalNodes(host, env, es, depth))
  {
    if es != [] {
      ListLawsWithin(host, env, es[1..], depth);
      FirstOfList(seq(|es|, i requires 0 <= i < |es| => EvalNode(host, env, es[i], depth)),
                  seq(|es[1..]|, i requires 0 <= i < |es[1..]| => EvalNode(host, env, es[1..][i], depth)),
                  EvalNodes(host, env, es[1..], depth), EvalNodes(host, env, es, depth));
    }
  }

  lemma FirstOfList(parts: seq<Outcome>, others: seq<Outcome>, rest: Result<seq<Value>, Reason>,
                    result: Result<seq<Value>, Reason>)
    requires parts != [] && |others| == |parts| - 1 && forall i | 0 <= i < |others| :: others[i] == parts[i + 1]
    requires ListLaw(others, rest)
    requires result == if parts[0].Failure? then Failure(parts[0].error)
                       else if rest.Failure? then rest
                       else Success([parts[0].value] + rest.value)
    ensures ListLaw(parts, result)
  {
    if parts[0].Success? && rest.Failure? {
      var k :| 0 <= k < |others| && others[k] == Failure(rest.error) && forall i | 0 <= i < k :: others[i].Success?;
      assert parts[k + 1] == Failure(rest.error);
      forall i | 0 <= i < k + 1 ensures parts[i].Success? {
        assert i > 0 ==> others[i - 1] == parts[i];
      }
    }
  }

  /** A call gives `undefined` on `null` and `undefined`, and an error on other values that are no functions; the
      arguments are evaluated after that. */
  predicate CallLaw(host: Host, callee: Outcome, args: Result<seq<Value>, Reason>, result: Outcome) {
    match callee
    case Failure(_) => result == callee
    case Success(f) =>
      if f == Null || f == Undefined then result == Success(Undefined)
      else if !f.Fn? then result == Failure(NotAFunction)
      else
        match args
        case Failure(reason) => result == Failure(reason)
        case Success(values) =>
          match host.invoke(f.builtin, values)
          case Success(v) => result == Success(v)
          case Failure(message) => result == Failure(HostFailure(message))
  }

  predicate ArrayLaw(values: Result<seq<Value>, Reason>, result: Outcome) {
    match values
    case Success(items) => result == Success(Arr(items))
    case Failure(reason) => result == Failure(reason)
  }

  lemma CallLaws(host: Host, env: Env, callee: Expr, es: seq<Expr>, depth: nat)
    ensures CallLaw(host, Eval(host, env, callee), EvalList(host, env, es), Eval(host, env, Call(callee, es)))
    ensures ArrayLaw(EvalList(host, env, es), Eval(host, env, Array(es)))
    ensures depth <= 64 ==>
              CallLaw(host, EvalNode(host, env, callee, depth + 1), EvalNodes(host, env, es, depth + 1),
                      EvalNode(host, env, Call(callee, es), depth))
    ensures depth <= 64 ==>
              ArrayLaw(EvalNodes(host, env, es, depth + 1), EvalNode(host, env, Array(es), depth))
  {
  }

  /** Literals and names; whole numbers have the value of their digits, other number literals the one the runtime
      reads. */
  lemma LeafLaws(host: Host, env: Env, text: string, b: bool, n: nat, lexeme: string, name: string, depth: nat)
    requires depth <= 64
    ensures EvalNode(host, env, Lit(StringLit(text)), depth) == Success(Text(text))
    ensures EvalNode(host, env, Lit(BoolLit(b)), depth) == Success(Bool(b))
    ensures EvalNode(host, env, Lit(NullLit), depth) == Success(Null)
    ensures EvalNode(host, env, Lit(UndefinedLit), depth) == Success(Undefined)
    ensures EvalNode(host, env, Lit(NumberLit(Numbers.Decimal(n))), depth) == Success(Num(Finite(n as real)))
    ensures (exists i | 0 <= i < |lexeme| :: !('0' <= lexeme[i] <= '9')) ==>
              EvalNode(host, env, Lit(NumberLit(lexeme)), depth) == Success(Num(host.numberOfText(lexeme)))
    ensures EvalNode(host, env, Name(name), depth) == Success(if name in env then env[name] else Undefined)
  {
    Numbers.DecimalInverts(n);
  }

  /** Deeper than 64 levels every construct is an error. */
  lemma TooDeepLaw(host: Host, env: Env, e: Expr, depth: nat)
    ensures depth > 64 ==> EvalNode(host, env, e, depth) == Failure(TooDeep)
  {
  }
}
