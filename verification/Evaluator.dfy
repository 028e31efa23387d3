/** The depth-bounded evaluator, and the unbounded meaning it approximates. */
module Evaluator {
  import opened Results
  import opened Syntax
  import opened Numbers
  import opened Values

  const MAX_DEPTH := 64

  const FORBIDDEN := {"__proto__", "prototype", "constructor"}

  const STRING_METHODS := {
    "toLowerCase", "toUpperCase", "trim", "trimStart", "trimEnd", "includes", "startsWith", "endsWith",
    "indexOf", "lastIndexOf", "slice", "substring", "replace", "replaceAll", "split", "concat", "repeat",
    "padStart", "padEnd", "charAt", "toString"}

  const NUMBER_METHODS := {"toFixed", "toPrecision", "toString"}

  const ARRAY_METHODS := {"includes", "indexOf", "join", "slice", "concat", "at", "toString"}

  type Outcome = Result<Value, Reason>

  function Raised<T>(r: Partial<T>): Result<T, Reason> {
    match r
    case Success(v) => Success(v)
    case Failure(message) => Failure(HostFailure(message))
  }

  function NumberOf(host: Host, lexeme: string): Numeric {
    if AllDigits(lexeme) then Finite(DigitsValue(lexeme) as real) else host.numberOfText(lexeme)
  }

  function LiteralValue(host: Host, value: Literal): Value {
    match value
    case NumberLit(lexeme) => Num(NumberOf(host, lexeme))
    case StringLit(text) => Text(text)
    case BoolLit(b) => Bool(b)
    case NullLit => Null
    case UndefinedLit => Undefined
  }

  function TextOf(host: Host, v: Value): Result<string, Reason> {
    if v.Text? then Success(v.s) else Raised(host.toText(v))
  }

  function NumericOf(host: Host, v: Value): Result<Numeric, Reason> {
    if v.Num? then Success(v.n) else Raised(host.toNumber(v))
  }

  /** The element a number selects; anything but an integer in range selects `undefined`. */
  function ElementAt(items: seq<Value>, index: Numeric): Value {
    if index.Finite? && index.v.Floor as real == index.v && 0 <= index.v.Floor < |items| then items[index.v.Floor]
    else Undefined
  }

  function MethodIn(names: set<string>, target: Value, name: string): Value {
    if name in names then Fn(Method(target, name)) else Undefined
  }

  function GetProperty(host: Host, target: Value, key: Value): Outcome {
    var name :- TextOf(host, key);
    Success(
      if name in FORBIDDEN then Undefined
      else match target
        case Text(s) => if name == "length" then Num(Finite(|s| as real)) else MethodIn(STRING_METHODS, target, name)
        case Num(_) => MethodIn(NUMBER_METHODS, target, name)
        case Bool(_) => MethodIn({"toString"}, target, name)
        case Arr(items) =>
          if name == "length" then Num(Finite(|items| as real))
          else if name in ARRAY_METHODS then Fn(Method(target, name))
          else ElementAt(items, if key.Num? then key.n else host.numberOfText(name))
        case Fn(builtin) => (match host.ownProperty(builtin, name) case Some(v) => v case None => Undefined)
        case Obj(fields) => if name in fields then fields[name] else Undefined
        case _ => Undefined)
  }

  function ApplyUnary(host: Host, op: UnaryOp, v: Value): Outcome {
    match op
    case Not => Success(Bool(!Truthy(v)))
    case TypeOf => Success(Text(TypeName(v)))
    case Positive =>
      var n :- NumericOf(host, v);
      Success(Num(n))
    case Negative =>
      var n :- NumericOf(host, v);
      Success(Num(host.negate(n)))
  }

  /** Whether the left value decides `&&`, `||` or `??` without the right operand. */
  predicate Decides(op: BinaryOp, left: Value) {
    match op
    case And => !Truthy(left)
    case Or => Truthy(left)
    case Coalesce => !Nullish(left)
    case _ => false
  }

  /** The value of a binary operator once both operands are known. */
  function ApplyBinary(host: Host, op: BinaryOp, left: Value, right: Value): Outcome {
    match op
    case And | Or | Coalesce => Success(right)
    case StrictEq => Success(Bool(host.strictEquals(left, right)))
    case StrictNe => Success(Bool(!host.strictEquals(left, right)))
    case LooseEq =>
      var same :- Raised(host.looseEquals(left, right));
      Success(Bool(same))
    case LooseNe =>
      var same :- Raised(host.looseEquals(left, right));
      Success(Bool(!same))
    case Lt | Gt | Le | Ge =>
      var holds :- Raised(host.compare(op, left, right));
      Success(Bool(holds))
    case Add =>
      if left.Text? || right.Text? then
        var l :- TextOf(host, left);
        var r :- TextOf(host, right);
        Success(Text(l + r))
      else Arithmetic(host, op, left, right)
    case Sub | Mul | Div | Mod => Arithmetic(host, op, left, right)
  }

  function Arithmetic(host: Host, op: BinaryOp, left: Value, right: Value): Outcome {
    var l :- NumericOf(host, left);
    var r :- NumericOf(host, right);
    Success(Num(host.arithmetic(op, l, r)))
  }

  function Lookup(env: Env, name: string): Value {
    if name in env then env[name] else Undefined
  }

  /** `evalNode`: every node deeper than `MAX_DEPTH` raises an error. */
  function EvalNode(host: Host, env: Env, e: Expr, depth: nat): Outcome
    decreases e, 0
  {
    if depth > MAX_DEPTH then Failure(TooDeep)
    else
      match e
      case Lit(value) => Success(LiteralValue(host, value))
      case Name(name) => Success(Lookup(env, name))
      case Member(target, property, _) =>
        var t :- EvalNode(host, env, target, depth + 1);
        if Nullish(t) then Success(Undefined) else GetProperty(host, t, Text(property))
      case Index(target, index, _) =>
        var t :- EvalNode(host, env, target, depth + 1);
        if Nullish(t) then Success(Undefined)
        else
          var key :- EvalNode(host, env, index, depth + 1);
          GetProperty(host, t, key)
      case Call(callee, args) =>
        var f :- EvalNode(host, env, callee, depth + 1);
        if Nullish(f) then Success(Undefined)
        else if !f.Fn? then Failure(NotAFunction)
        else
          var values :- EvalNodes(host, env, args, depth + 1);
          Raised(host.invoke(f.builtin, values))
      case Unary(op, argument) =>
        var v :- EvalNode(host, env, argument, depth + 1);
        ApplyUnary(host, op, v)
      case Binary(op, left, right) =>
        var l :- EvalNode(host, env, left, depth + 1);
        if Decides(op, l) then Success(l)
        else
          var r :- EvalNode(host, env, right, depth + 1);
          ApplyBinary(host, op, l, r)
      case Ternary(test, consequent, alternate) =>
        var t :- EvalNode(host, env, test, depth + 1);
        if Truthy(t) then EvalNode(host, env, consequent, depth + 1) else EvalNode(host, env, alternate, depth + 1)
      case Array(elements) =>
        var values :- EvalNodes(host, env, elements, depth + 1);
        Success(Arr(values))
  }

  /** Left to right, stopping at the first error. */
  function EvalNodes(host: Host, env: Env, es: seq<Expr>, depth: nat): Result<seq<Value>, Reason>
    decreases es, 0
  {
    if es == [] then Success([])
    else
      var v :- EvalNode(host, env, es[0], depth);
      var others :- EvalNodes(host, env, es[1..], depth);
      Success([v] + others)
  }

  /** The meaning of an expression: evaluation without a depth limit. */
  function Eval(host: Host, env: Env, e: Expr): Outcome
    decreases e, 0
  {
    match e
    case Lit(value) => Success(LiteralValue(host, value))
    case Name(name) => Success(Lookup(env, name))
    case Member(target, property, _) =>
      var t :- Eval(host, env, target);
      if Nullish(t) then Success(Undefined) else GetProperty(host, t, Text(property))
    case Index(target, index, _) =>
      var t :- Eval(host, env, target);
      if Nullish(t) then Success(Undefined)
      else
        var key :- Eval(host, env, index);
        GetProperty(host, t, key)
    case Call(callee, args) =>
      var f :- Eval(host, env, callee);
      if Nullish(f) then Success(Undefined)
      else if !f.Fn? then Failure(NotAFunction)
      else
        var values :- EvalList(host, env, args);
        Raised(host.invoke(f.builtin, values))
    case Unary(op, argument) =>
      var v :- Eval(host, env, argument);
      ApplyUnary(host, op, v)
    case Binary(op, left, right) =>
      var l :- Eval(host, env, left);
      if Decides(op, l) then Success(l)
      else
        var r :- Eval(host, env, right);
        ApplyBinary(host, op, l, r)
    case Ternary(test, consequent, alternate) =>
      var t :- Eval(host, env, test);
      if Truthy(t) then Eval(host, env, consequent) else Eval(host, env, alternate)
    case Array(elements) =>
      var values :- EvalList(host, env, elements);
      Success(Arr(values))
  }

  function EvalList(host: Host, env: Env, es: seq<Expr>): Result<seq<Value>, Reason>
    decreases es, 0
  {
    if es == [] then Success([])
    else
      var v :- Eval(host, env, es[0]);
      var others :- EvalList(host, env, es[1..]);
      Success([v] + others)
  }
}
