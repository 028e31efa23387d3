/** Structured filters: conditions on the payload, or on each of its items. */
module Filter {
  import opened Results
  import opened Values
  import opened Templates
  import opened ItemRewrite
  import opened ItemSource

  datatype Combinator = All | Any

  datatype Operator = Operator(kind: string, operation: string)

  datatype Condition = Condition(left: Value, right: Value, operator: Operator)

  datatype FilterValue = FilterValue(combinator: Combinator, conditions: seq<Condition>)

  datatype Options = Options(ignoreCase: bool, loose: bool)

  /** The typed comparisons, on two resolved operands. */
  type Comparison = (Operator, Value, Value, Options) -> bool

  const OPERATOR_KINDS := {"string", "number", "dateTime", "boolean", "array", "object"}

  function Field(v: Value, name: string): Value {
    if v.Obj? && name in v.fields then v.fields[name] else Undefined
  }

  function OrEmpty(v: Value): Value {
    if Nullish(v) then Text("") else v
  }

  function NormalizeCondition(row: Value): Condition {
    var operator := Field(row, "operator");
    var kind, operation := Field(operator, "type"), Field(operator, "operation");
    Condition(
      OrEmpty(Field(row, "leftValue")), OrEmpty(Field(row, "rightValue")),
      Operator(
        if kind.Text? && kind.s in OPERATOR_KINDS then kind.s else "string",
        if operation.Text? then operation.s else "equals"))
  }

  function NormalizeConditions(rows: seq<Value>): (r: seq<Condition>)
    ensures |r| == |rows|
  {
    seq(|rows|, j requires 0 <= j < |rows| => NormalizeCondition(rows[j]))
  }

  function ParseFilterValue(raw: Value): Option<FilterValue> {
    var conditions := Field(raw, "conditions");
    if !conditions.Arr? then None
    else
      var combinator := if Field(raw, "combinator") == Text("or") then Any else All;
      Some(FilterValue(combinator, NormalizeConditions(conditions.items)))
  }

  // Conditions

  /** `{ ...scope, $json: scope.$json ?? scope }`. */
  function OperandScope(scope: Scope): Scope {
    scope["$json" := if "$json" in scope && !Nullish(scope["$json"]) then scope["$json"] else Obj(scope)]
  }

  /** A template gives its value, and `undefined` for any error; other operands are values already. */
  function ResolveOperand(rt: Runtime, raw: Value, scope: Scope): Value {
    if !raw.Text? || !HasOpening(raw.s) then raw
    else
      match Interpolated(rt, raw.s, OperandScope(scope))
      case Success(v) => v
      case Failure(_) => Undefined
  }

  predicate IsEmpty(v: Value) {
    Nullish(v) || v == Text("") || v == Arr([]) || v == Obj(map[])
  }

  predicate Compare(compare: Comparison, operator: Operator, left: Value, right: Value, options: Options) {
    if operator.operation == "exists" then !Nullish(left)
    else if operator.operation == "notExists" then Nullish(left)
    else if operator.operation == "empty" then IsEmpty(left)
    else if operator.operation == "notEmpty" then !IsEmpty(left)
    else compare(operator, left, right, options)
  }

  predicate ConditionHolds(rt: Runtime, compare: Comparison, c: Condition, scope: Scope, options: Options) {
    Compare(compare, c.operator, ResolveOperand(rt, c.left, scope), ResolveOperand(rt, c.right, scope), options)
  }

  /** `evaluateFilterValue`; a filter without conditions never passes. */
  predicate Passes(rt: Runtime, compare: Comparison, f: FilterValue, scope: Scope, options: Options) {
    f.conditions != []
    && match f.combinator
       case Any => exists c <- f.conditions :: ConditionHolds(rt, compare, c, scope, options)
       case All => forall c <- f.conditions :: ConditionHolds(rt, compare, c, scope, options)
  }

  // Items

  predicate HasMatch(s: string) {
    s != "" && (MatchLength(s).Some? || HasMatch(s[1..]))
  }

  predicate ReferencesItem(v: Value) {
    v.Text? && HasMatch(v.s)
  }

  predicate FilterReferencesItems(f: FilterValue) {
    exists c <- f.conditions :: ReferencesItem(c.left) || ReferencesItem(c.right)
  }

  function RewriteOperand(v: Value, to: Target): Value {
    if v.Text? then Text(RewriteText(v.s, to)) else v
  }

  function RewriteCondition(c: Condition, to: Target): Condition {
    Condition(RewriteOperand(c.left, to), RewriteOperand(c.right, to), c.operator)
  }

  function RewriteFilter(f: FilterValue, to: Target): FilterValue {
    FilterValue(
      f.combinator,
      seq(|f.conditions|, j requires 0 <= j < |f.conditions| => RewriteCondition(f.conditions[j], to)))
  }

  /** The fields of an item; anything but an object is wrapped. */
  function RecordOf(item: Value): Scope {
    if item.Obj? then item.fields else map["value" := item]
  }

  /** `{ ...base, ...record, $json: record }`. */
  function ItemScope(base: Scope, item: Value): Scope {
    (base + RecordOf(item))["$json" := Obj(RecordOf(item))]
  }

  function KeptItems(rt: Runtime, compare: Comparison, f: FilterValue, base: Scope, items: seq<Value>,
                     options: Options): seq<Value> {
    if items == [] then []
    else
      var others := KeptItems(rt, compare, f, base, items[1..], options);
      if Passes(rt, compare, f, ItemScope(base, items[0]), options) then [items[0]] + others else others
  }

  function Count(items: seq<Value>): Value {
    Num(Finite(|items| as real))
  }

  function TableNames(items: seq<Value>): (r: seq<Value>)
    ensures |r| == |items|
  {
    seq(|items|, j requires 0 <= j < |items| => Field(items[j], "tableName"))
  }

  function ProjectItems(input: Scope, kept: seq<Value>): Scope {
    var next := input["items" := Arr(kept)]["count" := Count(kept)];
    var counted := if "tableCount" in input then next["tableCount" := Count(kept)] else next;
    if Field(Obj(input), "tables").Arr? && forall name <- TableNames(kept) :: name.Text?
    then counted["tables" := Arr(TableNames(kept))]
    else counted
  }

  datatype Applied = Applied(output: Scope, pass: bool)

  /** `scope ?? input`. */
  function BaseOf(input: Scope, scope: Option<Scope>): Scope {
    if scope.Some? then scope.value else input
  }

  /** The filter of a node: `None` when the node has no structured filter. */
  function ApplyStructuredFilter(rt: Runtime, compare: Comparison, conditions: Value, options: Options, input: Scope,
                                 scope: Option<Scope>): Option<Applied> {
    match ParseFilterValue(conditions)
    case None => None
    case Some(f) =>
      var base := BaseOf(input, scope);
      if Field(Obj(input), "items").Arr? && FilterReferencesItems(f) then
        var kept := KeptItems(rt, compare, RewriteFilter(f, Element), base, input["items"].items, options);
        Some(Applied(ProjectItems(input, kept), kept != []))
      else Some(Applied(input, Passes(rt, compare, f, base, options)))
  }
}
