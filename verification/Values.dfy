/** The values expressions compute, and the parts of the JavaScript runtime the evaluator calls. */
module Values {
  import opened Results
  import opened Syntax

  datatype Numeric = Finite(v: real) | NaN | Infinite(negative: bool)

  datatype Value =
    | Undefined | Null
    | Bool(b: bool)
    | Num(n: Numeric)
    | Text(s: string)
    | Arr(items: seq<Value>)
    | Obj(fields: map<string, Value>)
    | Fn(builtin: Builtin)

  /** A global function, or a method bound to the value it was read from. */
  datatype Builtin = Global(name: string) | Method(receiver: Value, name: string)

  type Env = map<string, Value>

  type Partial<T> = Result<T, string>

  /** Coercions, comparisons, arithmetic and builtin bodies; some may throw. */
  datatype Host = Host(
    numberOfText: string -> Numeric,
    toNumber: Value -> Partial<Numeric>,
    toText: Value -> Partial<string>,
    strictEquals: (Value, Value) -> bool,
    looseEquals: (Value, Value) -> Partial<bool>,
    compare: (BinaryOp, Value, Value) -> Partial<bool>,
    arithmetic: (BinaryOp, Numeric, Numeric) -> Numeric,
    negate: Numeric -> Numeric,
    invoke: (Builtin, seq<Value>) -> Partial<Value>,
    ownProperty: (Builtin, string) -> Option<Value>,
    jsonText: Value -> Partial<string>)

  predicate Nullish(v: Value) {
    v.Undefined? || v.Null?
  }

  predicate Truthy(v: Value) {
    match v
    case Undefined | Null => false
    case Bool(b) => b
    case Num(n) => n != NaN && n != Finite(0.0)
    case Text(s) => s != ""
    case _ => true
  }

  function TypeName(v: Value): string {
    match v
    case Undefined => "undefined"
    case Bool(_) => "boolean"
    case Num(_) => "number"
    case Text(_) => "string"
    case Fn(_) => "function"
    case _ => "object"
  }
}
