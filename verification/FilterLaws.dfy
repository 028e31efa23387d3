/** What a filter keeps, said from the raw conditions of its node. */
module FilterLaws {
  import opened Results
  import opened Numbers
  import opened Values
  import opened Templates
  import opened ItemRewrite
  import opened ItemSource
  import opened Filter

  // References to items

  /** `s` is `a`, a reference with the digits `d`, and `b`. */
  predicate ReferenceIn(s: string, a: string, d: string, b: string) {
    s == a + ("$json.items[" + d + "]") + b && AllDigits(d)
  }

  ghost predicate Mentions(s: string) {
    exists a, d, b :: ReferenceIn(s, a, d, b)
  }

  lemma {:induction false} MatchIsMentioned(s: string)
    requires HasMatch(s)
    ensures Mentions(s)
  {
    if MatchLength(s).Some? {
      var d := MatchShape(s);
      assert ReferenceIn(s, "", d, s[MatchLength(s).value..]);
    } else {
      MatchIsMentioned(s[1..]);
      var a, d, b :| ReferenceIn(s[1..], a, d, b);
      OneBefore(s, a, d, b);
    }
  }

  lemma OneBefore(s: string, a: string, d: string, b: string)
    requires s != "" && ReferenceIn(s[1..], a, d, b)
    ensures ReferenceIn(s, [s[0]] + a, d, b)
  {
    assert s == [s[0]] + s[1..];
  }

  lemma {:induction false} MentionIsMatched(s: string, a: string, d: string, b: string)
    requires ReferenceIn(s, a, d, b)
    ensures HasMatch(s)
    decreases |a|
  {
    if a == "" {
      ReferenceMatches(d, b);
      assert s == PREFIX + d + "]" + b;
    } else {
      assert s[1..] == a[1..] + ("$json.items[" + d + "]") + b;
      MentionIsMatched(s[1..], a[1..], d, b);
    }
  }

  lemma {:induction false} MentionsIff(s: string)
    ensures HasMatch(s) <==> Mentions(s)
  {
    if HasMatch(s) {
      MatchIsMentioned(s);
    }
    if a, d, b :| ReferenceIn(s, a, d, b) {
      MentionIsMatched(s, a, d, b);
    }
  }

  lemma OnlyDollar(d: string)
    requires AllDigits(d)
    ensures var text := PREFIX + d + "]"; forall k | 0 < k < |text| :: text[k] != '$'
  {
  }

  /** A match that starts inside `a` ends there, because a reference has its only `$` in front. */
  lemma {:induction false} MatchWithin(s: string, a: string, d: string, b: string, p: nat)
    requires ReferenceIn(s, a, d, b) && p < |a| && MatchLength(s[p..]).Some?
    ensures Mentions(a)
  {
    var n := MatchLength(s[p..]).value;
    var d1 := MatchShape(s[p..]);
    var text := PREFIX + d1 + "]";
    OnlyDollar(d1);
    assert s[|a|] == '$' && s[p..][|a| - p] == '$';
    assert p + n <= |a|;
    assert text == s[p..p + n] == a[p..p + n];
    assert ReferenceIn(a, a[..p], d1, a[p + n..]);
  }

  lemma {:induction false} NoneBefore(s: string, a: string, d: string, b: string)
    requires ReferenceIn(s, a, d, b) && !Mentions(a)
    ensures NoMatchIn(s, |a|)
  {
    forall p | 0 <= p < |a| ensures MatchLength(s[p..]).None? {
      if MatchLength(s[p..]).Some? {
        MatchWithin(s, a, d, b, p);
      }
    }
  }

  lemma {:induction false} NothingMentioned(s: string)
    requires !Mentions(s)
    ensures RewriteText(s, Element) == s
  {
    forall p | 0 <= p < |s| ensures MatchLength(s[p..]).None? {
      if MatchLength(s[p..]).Some? {
        var d := MatchShape(s[p..]);
        assert ReferenceIn(s, s[..p], d, s[p..][MatchLength(s[p..]).value..]);
      }
    }
    RewriteTextCopies(s, |s|, Element);
    assert s[..|s|] + "" == s && s[|s|..] == "";
  }

  lemma {:induction false} FirstMentioned(s: string, a: string, d: string, b: string)
    requires ReferenceIn(s, a, d, b) && !Mentions(a)
    ensures RewriteText(s, Element) == a + "$json" + RewriteText(b, Element)
  {
    NoneBefore(s, a, d, b);
    RewriteTextCopies(s, |a|, Element);
    ReferenceMatches(d, b);
    AfterFirst(s, a, d, b);
    assert RewriteText(s[|a|..], Element) == "$json" + RewriteText(b, Element);
  }

  lemma AfterFirst(s: string, a: string, d: string, b: string)
    requires ReferenceIn(s, a, d, b)
    ensures s[..|a|] == a && s[|a|..] == PREFIX + d + "]" + b && s[|a|..][13 + |d|..] == b
  {
  }

  /** The rewrite replaces every reference, from left to right, and nothing else. */
  lemma {:induction false} RewriteLaw(s: string)
    ensures !Mentions(s) ==> RewriteText(s, Element) == s
    ensures forall a, d, b | ReferenceIn(s, a, d, b) && !Mentions(a) ::
              RewriteText(s, Element) == a + "$json" + RewriteText(b, Element)
  {
    if !Mentions(s) {
      NothingMentioned(s);
    }
    forall a, d, b | ReferenceIn(s, a, d, b) && !Mentions(a)
      ensures RewriteText(s, Element) == a + "$json" + RewriteText(b, Element)
    {
      FirstMentioned(s, a, d, b);
    }
  }

  // Conditions

  function Part(v: Value, name: string): Value {
    if v.Obj? && name in v.fields then v.fields[name] else Undefined
  }

  /** An operand of a condition row: the empty text if it is missing or null. */
  function Operand(row: Value, name: string, perItem: bool): Value {
    var v := Part(row, name);
    if v == Undefined || v == Null then Text("")
    else if v.Text? && perItem then Text(RewriteText(v.s, Element))
    else v
  }

  function Operation(row: Value): string {
    var op := Part(Part(row, "operator"), "operation");
    if op.Text? then op.s else "equals"
  }

  function OperandKind(row: Value): string {
    var kind := Part(Part(row, "operator"), "type");
    if kind.Text? && kind.s in {"string", "number", "dateTime", "boolean", "array", "object"} then kind.s else "string"
  }

  /** A row holds by its resolved operands. */
  predicate RowHolds(rt: Runtime, compare: Comparison, row: Value, perItem: bool, scope: Scope, options: Options) {
    CompareHolds(compare, OperandKind(row), Operation(row),
                 ResolveOperand(rt, Operand(row, "leftValue", perItem), scope),
                 ResolveOperand(rt, Operand(row, "rightValue", perItem), scope), options)
  }

  /** The operators on the presence of the left value, and the typed comparison for all others. */
  predicate CompareHolds(compare: Comparison, kind: string, operation: string, left: Value, right: Value,
                         options: Options) {
    match operation
    case "exists" => left != Undefined && left != Null
    case "notExists" => left == Undefined || left == Null
    case "empty" => left in {Undefined, Null, Text(""), Arr([]), Obj(map[])}
    case "notEmpty" => left !in {Undefined, Null, Text(""), Arr([]), Obj(map[])}
    case _ => compare(Operator(kind, operation), left, right, options)
  }

  /** With the combinator "or" some row holds; with any other there are rows and all hold. */
  predicate Satisfied(rt: Runtime, compare: Comparison, combinator: Value, rows: seq<Value>, perItem: bool,
                      scope: Scope, options: Options) {
    if combinator == Text("or") then
      exists k | 0 <= k < |rows| :: RowHolds(rt, compare, rows[k], perItem, scope, options)
    else rows != [] && forall k | 0 <= k < |rows| :: RowHolds(rt, compare, rows[k], perItem, scope, options)
  }

  lemma {:induction false} RowLaw(rt: Runtime, compare: Comparison, row: Value, perItem: bool, scope: Scope,
                                  options: Options)
    ensures var c := NormalizeCondition(row);
            ConditionHolds(rt, compare, if perItem then RewriteCondition(c, Element) else c, scope, options)
            <==> RowHolds(rt, compare, row, perItem, scope, options)
  {
    var c := NormalizeCondition(row);
    OperandLaw(row, "leftValue", perItem);
    OperandLaw(row, "rightValue", perItem);
    CompareLaw(compare, c.operator, ResolveOperand(rt, Operand(row, "leftValue", perItem), scope),
               ResolveOperand(rt, Operand(row, "rightValue", perItem), scope), options);
  }

  lemma OperandLaw(row: Value, name: string, perItem: bool)
    ensures var v := OrEmpty(Field(row, name));
            Operand(row, name, perItem) == if perItem then RewriteOperand(v, Element) else v
  {
    NothingToRewrite();
  }

  lemma CompareLaw(compare: Comparison, operator: Operator, left: Value, right: Value, options: Options)
    ensures Compare(compare, operator, left, right, options)
            <==> CompareHolds(compare, operator.kind, operator.operation, left, right, options)
  {
  }

  lemma NothingToRewrite()
    ensures RewriteText("", Element) == ""
  {
  }

  function FilterOf(combinator: Value, rows: seq<Value>): FilterValue {
    FilterValue(if combinator == Text("or") then Any else All, NormalizeConditions(rows))
  }

  lemma {:induction false} PassesLaw(rt: Runtime, compare: Comparison, combinator: Value, rows: seq<Value>,
                                     perItem: bool, scope: Scope, options: Options)
    ensures var f := FilterOf(combinator, rows);
            Passes(rt, compare, if perItem then RewriteFilter(f, Element) else f, scope, options)
            <==> Satisfied(rt, compare, combinator, rows, perItem, scope, options)
  {
    var f := FilterOf(combinator, rows);
    var g := if perItem then RewriteFilter(f, Element) else f;
    forall k | 0 <= k < |rows|
      ensures ConditionHolds(rt, compare, g.conditions[k], scope, options)
              <==> RowHolds(rt, compare, rows[k], perItem, scope, options)
    {
      RowLaw(rt, compare, rows[k], perItem, scope, options);
    }
    CombinedLaw(rt, compare, g, combinator, rows, perItem, scope, options);
  }

  lemma CombinedLaw(rt: Runtime, compare: Comparison, g: FilterValue, combinator: Value, rows: seq<Value>,
                    perItem: bool, scope: Scope, options: Options)
    requires |g.conditions| == |rows| && g.combinator == if combinator == Text("or") then Any else All
    requires forall k | 0 <= k < |rows| ::
               ConditionHolds(rt, compare, g.conditions[k], scope, options)
               <==> RowHolds(rt, compare, rows[k], perItem, scope, options)
    ensures Passes(rt, compare, g, scope, options)
            <==> Satisfied(rt, compare, combinator, rows, perItem, scope, options)
  {
    forall k | 0 <= k < |rows| ensures g.conditions[k] in g.conditions {
    }
    if combinator == Text("or") && Passes(rt, compare, g, scope, options) {
      var c :| c in g.conditions && ConditionHolds(rt, compare, c, scope, options);
      var k :| 0 <= k < |g.conditions| && g.conditions[k] == c;
      assert RowHolds(rt, compare, rows[k], perItem, scope, options);
    }
  }

  // Selection

  /** The scope in which a condition on an item is evaluated: the item's fields over those of the payload, and `$json`
      the item; an item that is no object stands in the field `value`. */
  function PerItem(base: Scope, item: Value): Scope {
    var record := if item.Obj? then item.fields else map["value" := item];
    (base + record)["$json" := Obj(record)]
  }

  predicate ItemSatisfies(rt: Runtime, compare: Comparison, combinator: Value, rows: seq<Value>, base: Scope,
                          item: Value, options: Options) {
    Satisfied(rt, compare, combinator, rows, true, PerItem(base, item), options)
  }

  /** `kept` are the items at the positions `picks`, in their order, and these are the positions of all items that are
      flagged. */
  ghost predicate Selects(flags: seq<bool>, items: seq<Value>, kept: seq<Value>, picks: seq<nat>) {
    && |flags| == |items| && |kept| == |picks|
    && (forall j, k | 0 <= j < k < |picks| :: picks[j] < picks[k])
    && (forall j | 0 <= j < |picks| :: picks[j] < |items| && kept[j] == items[picks[j]])
    && (forall i: nat | i < |items| :: i in picks <==> flags[i])
  }

  function Flags(rt: Runtime, compare: Comparison, combinator: Value, rows: seq<Value>, base: Scope, options: Options,
                 items: seq<Value>): (flags: seq<bool>)
    ensures |flags| == |items|
  {
    seq(|items|, i requires 0 <= i < |items| =>
      ItemSatisfies(rt, compare, combinator, rows, base, items[i], options))
  }

  lemma {:induction false} KeptLaw(rt: Runtime, compare: Comparison, combinator: Value, rows: seq<Value>, base: Scope,
                                   options: Options, items: seq<Value>) returns (picks: seq<nat>)
    ensures var f := RewriteFilter(FilterOf(combinator, rows), Element);
            Selects(Flags(rt, compare, combinator, rows, base, options, items), items,
                    KeptItems(rt, compare, f, base, items, options), picks)
  {
    if items == [] {
      picks := [];
    } else {
      var f := RewriteFilter(FilterOf(combinator, rows), Element);
      var more := KeptLaw(rt, compare, combinator, rows, base, options, items[1..]);
      PassesLaw(rt, compare, combinator, rows, true, ItemScope(base, items[0]), options);
      assert ItemScope(base, items[0]) == PerItem(base, items[0]);
      picks := OnePick(Flags(rt, compare, combinator, rows, base, options, items),
                       Flags(rt, compare, combinator, rows, base, options, items[1..]), items,
                       KeptItems(rt, compare, f, base, items[1..], options), more);
    }
  }

  function Shifted(more: seq<nat>): (shifted: seq<nat>)
    ensures |shifted| == |more|
  {
    seq(|more|, j requires 0 <= j < |more| => more[j] + 1)
  }

  /** The positions behind the first item, and the first one if it is flagged. */
  lemma OnePick(flags: seq<bool>, others: seq<bool>, items: seq<Value>, kept: seq<Value>, more: seq<nat>)
    returns (picks: seq<nat>)
    requires items != [] && |flags| == |items| && Selects(others, items[1..], kept, more)
    requires forall i | 0 <= i < |others| :: others[i] == flags[i + 1]
    ensures Selects(flags, items, if flags[0] then [items[0]] + kept else kept, picks)
  {
    if flags[0] {
      picks := [0] + Shifted(more);
      FirstPicked(flags, others, items, kept, more);
    } else {
      picks := Shifted(more);
      FirstLeft(flags, others, items, kept, more);
    }
  }

  lemma FirstLeft(flags: seq<bool>, others: seq<bool>, items: seq<Value>, kept: seq<Value>, more: seq<nat>)
    requires items != [] && |flags| == |items| && Selects(others, items[1..], kept, more) && !flags[0]
    requires forall i | 0 <= i < |others| :: others[i] == flags[i + 1]
    ensures Selects(flags, items, kept, Shifted(more))
  {
    ShiftedIn(more, Shifted(more));
    forall i: nat | i < |items| ensures i in Shifted(more) <==> flags[i] {
      assert i > 0 ==> others[i - 1] == flags[i];
    }
  }

  lemma FirstPicked(flags: seq<bool>, others: seq<bool>, items: seq<Value>, kept: seq<Value>, more: seq<nat>)
    requires items != [] && |flags| == |items| && Selects(others, items[1..], kept, more) && flags[0]
    requires forall i | 0 <= i < |others| :: others[i] == flags[i + 1]
    ensures Selects(flags, items, [items[0]] + kept, [0] + Shifted(more))
  {
    var picks, longer := [0] + Shifted(more), [items[0]] + kept;
    ShiftedIn(more, Shifted(more));
    forall j | 0 <= j < |picks| ensures picks[j] < |items| && longer[j] == items[picks[j]] {
      if j > 0 {
        assert longer[j] == kept[j - 1] && picks[j] == more[j - 1] + 1;
      }
    }
    PickedIn(flags, others, Shifted(more));
  }

  lemma PickedIn(flags: seq<bool>, others: seq<bool>, shifted: seq<nat>)
    requires |others| + 1 == |flags| && flags[0] && forall i | 0 <= i < |others| :: others[i] == flags[i + 1]
    requires forall i: nat | i < |others| :: i + 1 in shifted <==> others[i]
    ensures forall i: nat | i < |flags| :: i in [0] + shifted <==> flags[i]
  {
    forall i: nat | i < |flags| ensures i in [0] + shifted <==> flags[i] {
      if i > 0 {
        assert others[i - 1] == flags[i] && (i - 1 + 1 in shifted <==> others[i - 1]);
      }
    }
  }

  lemma ShiftedIn(more: seq<nat>, shifted: seq<nat>)
    requires |shifted| == |more| && forall j | 0 <= j < |more| :: shifted[j] == more[j] + 1
    ensures forall i: nat :: i in shifted <==> i > 0 && i - 1 in more
  {
    forall i: nat ensures i in shifted <==> i > 0 && i - 1 in more {
      if i > 0 && i - 1 in more {
        var j :| 0 <= j < |more| && more[j] == i - 1;
        assert shifted[j] == i;
      }
    }
  }

  // The filter of a node

  /** Some operand mentions an element of the payload's items. */
  ghost predicate AddressesItems(rows: seq<Value>) {
    exists k | 0 <= k < |rows| :: RowAddresses(rows[k])
  }

  ghost predicate RowAddresses(row: Value) {
    var left, right := Operand(row, "leftValue", false), Operand(row, "rightValue", false);
    (left.Text? && Mentions(left.s)) || (right.Text? && Mentions(right.s))
  }

  lemma {:induction false} AddressesIff(combinator: Value, rows: seq<Value>)
    ensures FilterReferencesItems(FilterOf(combinator, rows)) <==> AddressesItems(rows)
  {
    var cs := NormalizeConditions(rows);
    forall k | 0 <= k < |rows|
      ensures cs[k] in cs
      ensures ReferencesItem(cs[k].left) || ReferencesItem(cs[k].right) <==> RowAddresses(rows[k])
    {
      var left, right := Operand(rows[k], "leftValue", false), Operand(rows[k], "rightValue", false);
      assert cs[k].left == left && cs[k].right == right;
      if left.Text? { MentionsIff(left.s); }
      if right.Text? { MentionsIff(right.s); }
    }
    if FilterReferencesItems(FilterOf(combinator, rows)) {
      var c :| c in cs && (ReferencesItem(c.left) || ReferencesItem(c.right));
      var k :| 0 <= k < |cs| && cs[k] == c;
      assert RowAddresses(rows[k]);
    }
  }

  /** What a per-item filter makes of the payload: `items` and `count`, `tableCount` if there is one, and `tables` if
      there is a list and every kept item names a table. */
  predicate Projects(input: Scope, kept: seq<Value>, output: Scope) {
    var count := Num(Finite(|kept| as real));
    var named := Part(Obj(input), "tables").Arr?
                 && forall j | 0 <= j < |kept| :: Part(kept[j], "tableName").Text?;
    && output.Keys == input.Keys + {"items", "count"}
    && output["items"] == Arr(kept) && output["count"] == count
    && forall name <- output | name != "items" && name != "count" ::
         output[name] == if name == "tableCount" then count
                         else if name == "tables" && named then
                           Arr(seq(|kept|, j requires 0 <= j < |kept| => Part(kept[j], "tableName")))
                         else input[name]
  }

  lemma ProjectLaw(input: Scope, kept: seq<Value>)
    ensures Projects(input, kept, ProjectItems(input, kept))
  {
    assert TableNames(kept) == seq(|kept|, j requires 0 <= j < |kept| => Part(kept[j], "tableName"));
    AllNamed(kept);
  }

  lemma AllNamed(kept: seq<Value>)
    ensures (forall name <- TableNames(kept) :: name.Text?)
            <==> forall j | 0 <= j < |kept| :: Part(kept[j], "tableName").Text?
  {
    forall j | 0 <= j < |kept| ensures TableNames(kept)[j] in TableNames(kept) {
    }
    if forall name <- TableNames(kept) :: name.Text? {
      forall j | 0 <= j < |kept| ensures Part(kept[j], "tableName").Text? {
        assert TableNames(kept)[j].Text?;
      }
    }
  }

  /** The filter keeps the items that satisfy the conditions, and passes if there are any. */
  ghost predicate KeepsItems(rt: Runtime, compare: Comparison, combinator: Value, rows: seq<Value>, base: Scope,
                             options: Options, input: Scope, items: seq<Value>, r: Applied) {
    exists kept, picks ::
      && Selects(Flags(rt, compare, combinator, rows, base, options, items), items, kept, picks)
      && Projects(input, kept, r.output) && (r.pass <==> |kept| > 0)
  }

  /** The filter leaves the payload alone, and passes if it satisfies the conditions. */
  predicate TestsPayload(rt: Runtime, compare: Comparison, combinator: Value, rows: seq<Value>, base: Scope,
                         options: Options, input: Scope, r: Applied) {
    r.output == input && (r.pass <==> Satisfied(rt, compare, combinator, rows, false, base, options))
  }

  /** A structured filter is a list of condition rows. It keeps single items exactly if the payload has a list of items
      and some operand mentions an element of it, and tests the payload as a whole otherwise. */
  lemma {:induction false} FilterLaw(rt: Runtime, compare: Comparison, conditions: Value, options: Options,
                                     input: Scope, scope: Option<Scope>)
    ensures var r := ApplyStructuredFilter(rt, compare, conditions, options, input, scope);
            var combinator, list := Part(conditions, "combinator"), Part(conditions, "conditions");
            var base, items := if scope.Some? then scope.value else input, Part(Obj(input), "items");
            && (r.None? <==> !list.Arr?)
            && (r.Some? ==>
                  if items.Arr? && AddressesItems(list.items) then
                    KeepsItems(rt, compare, combinator, list.items, base, options, input, items.items, r.value)
                  else TestsPayload(rt, compare, combinator, list.items, base, options, input, r.value))
  {
    var combinator, list := Part(conditions, "combinator"), Part(conditions, "conditions");
    var base, items := if scope.Some? then scope.value else input, Part(Obj(input), "items");
    if list.Arr? {
      assert ParseFilterValue(conditions) == Some(FilterOf(combinator, list.items));
      AddressesIff(combinator, list.items);
      if items.Arr? && AddressesItems(list.items) {
        var kept := KeptItems(rt, compare, RewriteFilter(FilterOf(combinator, list.items), Element), base, items.items,
                              options);
        KeptIsLaw(rt, compare, combinator, list.items, base, options, input, items.items,
                  Applied(ProjectItems(input, kept), kept != []));
      } else {
        PassesLaw(rt, compare, combinator, list.items, false, base, options);
      }
    }
  }

  lemma {:induction false} KeptIsLaw(rt: Runtime, compare: Comparison, combinator: Value, rows: seq<Value>, base: Scope,
                                     options: Options, input: Scope, items: seq<Value>, r: Applied)
    requires var f := RewriteFilter(FilterOf(combinator, rows), Element);
             var kept := KeptItems(rt, compare, f, base, items, options);
             r == Applied(ProjectItems(input, kept), kept != [])
    ensures KeepsItems(rt, compare, combinator, rows, base, options, input, items, r)
  {
    var picks := KeptLaw(rt, compare, combinator, rows, base, options, items);
    ProjectLaw(input, KeptItems(rt, compare, RewriteFilter(FilterOf(combinator, rows), Element), base, items, options));
  }
}
