/** A per-item filter keeps exactly the items whose conditions hold on the whole payload at their index. */
module FilterTheorems {
  import opened Results
  import opened Syntax
  import opened Values
  import opened Tokenizer
  import opened Frontend
  import opened Evaluator
  import opened Templates
  import opened TemplatePieces
  import opened ItemRewrite
  import opened ItemMeaning
  import opened ItemSource
  import opened ItemTheorem
  import opened SourceRewrite
  import opened TemplateRewrite
  import opened Filter

  /** The outcome is not an error of one of the language's size limits. */
  predicate WithinLimits<T>(r: Result<T, Error>) {
    r.Failure? ==> r.error.reason != TooDeep && r.error.reason != TooLong && r.error.reason != TooManyTokens
  }

  function ItemEnv(rt: Runtime, base: Scope, item: Value): Env {
    BuildEnv(rt, OperandScope(ItemScope(base, item)))
  }

  function ScopeEnv(rt: Runtime, scope: Scope): Env {
    BuildEnv(rt, OperandScope(scope))
  }

  /** `$json` is the item itself exactly when the item is an object. */
  lemma JsonOnItem(rt: Runtime, base: Scope, item: Value)
    ensures Lookup(ItemEnv(rt, base, item), "$json") == Obj(RecordOf(item))
    ensures Lookup(ItemEnv(rt, base, item), "$json") == item <==> item.Obj?
  {
  }

  /** What a name means in an expression. */
  function NameIn(rt: Runtime, scope: Scope, name: string): Value {
    if name == "$json" then JsonOf(scope)
    else if name == "json" then Coalesced(scope, name, JsonOf(scope))
    else if name == "$now" then Coalesced(scope, name, rt.now)
    else if name == "$today" then Coalesced(scope, name, rt.today)
    else if name == "$execution" || name == "$workflow" then Coalesced(scope, name, Obj(map[]))
    else if name in rt.globals then rt.globals[name]
    else if name in scope then scope[name]
    else Undefined
  }

  predicate Defines(scope: Scope, name: string) {
    name in scope && !Nullish(scope[name])
  }

  const CONTEXT := {"$json", "json", "$now", "$today", "$execution", "$workflow"}

  lemma EnvLookup(rt: Runtime, scope: Scope, name: string)
    ensures Lookup(BuildEnv(rt, scope), name) == NameIn(rt, scope, name)
  {
    if name in CONTEXT {
      ContextLookup(rt, scope, name);
    }
  }

  lemma ContextLookup(rt: Runtime, scope: Scope, name: string)
    requires name in CONTEXT
    ensures Lookup(BuildEnv(rt, scope), name) == NameIn(rt, scope, name)
  {
  }

  lemma SameName(rt: Runtime, a: Scope, b: Scope, name: string)
    requires name != "$json" && (name == "json" ==> Defines(a, name))
    requires (name in a <==> name in b) && (name in a ==> a[name] == b[name])
    ensures Lookup(BuildEnv(rt, a), name) == Lookup(BuildEnv(rt, b), name)
  {
    EnvLookup(rt, a, name);
    EnvLookup(rt, b, name);
    SameMeaning(rt, a, b, name);
  }

  lemma SameMeaning(rt: Runtime, a: Scope, b: Scope, name: string)
    requires name != "$json" && (name == "json" ==> Defines(a, name))
    requires (name in a <==> name in b) && (name in a ==> a[name] == b[name])
    ensures NameIn(rt, a, name) == NameIn(rt, b, name)
  {
  }

  /** The payload of `whole` holds the record of `item` at index `i`. */
  predicate ShowsAt(whole: Scope, item: Value, i: nat) {
    var items := Field(JsonOf(OperandScope(whole)), "items");
    items.Arr? && i < |items.items| && items.items[i] == Obj(RecordOf(item))
  }

  /** The names an expression looks up besides `$json` mean the same on the item and in `whole`. */
  ghost predicate Clear(rt: Runtime, expr: string, base: Scope, item: Value, whole: Scope) {
    Agree(NamesIn(Trim(expr)), ItemEnv(rt, base, item), ScopeEnv(rt, whole))
  }

  lemma {:induction false} ExpressionOnItem(rt: Runtime, expr: string, i: nat, base: Scope, item: Value, whole: Scope)
    requires PortableHole(expr) && ShowsAt(whole, item, i) && Clear(rt, expr, base, item, whole)
    requires WritesIndex(rt.host, i)
    requires WithinLimits(EvaluateExpression(rt, RewriteText(expr, At(i)), OperandScope(whole)))
    ensures EvaluateExpression(rt, RewriteText(expr, Element), OperandScope(ItemScope(base, item)))
            == EvaluateExpression(rt, RewriteText(expr, At(i)), OperandScope(whole))
  {
    var src := Trim(expr);
    var onItem, onWhole := ItemEnv(rt, base, item), ScopeEnv(rt, whole);
    TrimCommutes(expr, Element);
    TrimCommutes(expr, At(i));
    if src != "" {
      RewriteIsNotEmpty(src, Element);
      RewriteIsNotEmpty(src, At(i));
      JsonOnItem(rt, base, item);
      SourceRewriteParses(rt.host, src, i, onItem, onWhole);
      if |RewriteText(src, At(i))| <= MAX_SOURCE_LENGTH {
        SameWithinDepth(rt.host, onItem, onWhole, ParseSource(RewriteText(src, Element)).value,
                        ParseSource(RewriteText(src, At(i))).value);
      }
    }
  }

  lemma RewriteIsNotEmpty(s: string, to: Target)
    requires s != ""
    ensures RewriteText(s, to) != ""
  {
    LastOfTarget(to);
  }

  // Templates

  ghost predicate ClearPieces(rt: Runtime, ps: seq<Piece>, base: Scope, item: Value, whole: Scope) {
    forall p <- ps :: p.Hole? ==> PortableHole(p.expr) && Clear(rt, p.expr, base, item, whole)
  }

  lemma {:induction false} HolesArePortable(s: string)
    requires PortableTemplate(s)
    ensures forall p <- Pieces(s) :: p.Hole? ==> PortableHole(p.expr)
    decreases |s|
  {
    if s != "" {
      if !Opens(s) {
        HolesArePortable(s[1..]);
      } else {
        match BodyLength(None, s[2..])
        case None =>
        case Some(n) => HolesArePortable(s[n + 4..]);
      }
    }
  }

  lemma {:induction false} FillOnItem(rt: Runtime, ps: seq<Piece>, i: nat, base: Scope, item: Value, whole: Scope)
    requires ShowsAt(whole, item, i) && ClearPieces(rt, ps, base, item, whole) && WritesIndex(rt.host, i)
    requires WithinLimits(Fill(rt, RewritePieces(ps, At(i)), OperandScope(whole)))
    ensures Fill(rt, RewritePieces(ps, Element), OperandScope(ItemScope(base, item)))
            == Fill(rt, RewritePieces(ps, At(i)), OperandScope(whole))
  {
    if ps != [] {
      RewriteFirst(ps, Element);
      RewriteFirst(ps, At(i));
      if ps[0].Hole? {
        ExpressionOnItem(rt, ps[0].expr, i, base, item, whole);
      }
      if FillPiece(rt, RewritePieces(ps, At(i))[0], OperandScope(whole)).Success? {
        FillOnItem(rt, ps[1..], i, base, item, whole);
      }
    }
  }

  lemma RewriteFirst(ps: seq<Piece>, to: Target)
    requires ps != []
    ensures RewritePieces(ps, to) != [] && RewritePieces(ps, to)[1..] == RewritePieces(ps[1..], to)
    ensures RewritePieces(ps, to)[0] == if ps[0].Hole? then Hole(RewriteText(ps[0].expr, to)) else ps[0]
  {
  }

  lemma {:induction false} HolesOfRewritten(ps: seq<Piece>, to: Target)
    ensures |Holes(RewritePieces(ps, to))| == |Holes(ps)|
    ensures forall j | 0 <= j < |Holes(ps)| :: Holes(RewritePieces(ps, to))[j] == RewriteText(Holes(ps)[j], to)
  {
    if ps != [] {
      RewriteFirst(ps, to);
      HolesOfRewritten(ps[1..], to);
    }
  }

  lemma {:induction false} LoneIsKept(ps: seq<Piece>, to: Target)
    ensures Lone(RewritePieces(ps, to)) <==> Lone(ps)
  {
    HolesOfRewritten(ps, to);
    var rewritten := RewritePieces(ps, to);
    forall p | p in ps && p.Plain? ensures p in rewritten {
      var j :| 0 <= j < |ps| && ps[j] == p;
      assert rewritten[j] == p;
    }
  }

  lemma {:induction false} HolesAreHoles(ps: seq<Piece>)
    ensures forall expr <- Holes(ps) :: Hole(expr) in ps
  {
    if ps != [] {
      HolesAreHoles(ps[1..]);
    }
  }

  lemma {:induction false} MeaningOnItem(rt: Runtime, ps: seq<Piece>, i: nat, base: Scope, item: Value, whole: Scope)
    requires ShowsAt(whole, item, i) && ClearPieces(rt, ps, base, item, whole) && WritesIndex(rt.host, i)
    requires WithinLimits(Meaning(rt, RewritePieces(ps, At(i)), OperandScope(whole)))
    ensures Meaning(rt, RewritePieces(ps, Element), OperandScope(ItemScope(base, item)))
            == Meaning(rt, RewritePieces(ps, At(i)), OperandScope(whole))
  {
    LoneIsKept(ps, Element);
    LoneIsKept(ps, At(i));
    if Lone(ps) {
      HolesAreHoles(ps);
      assert Holes(ps)[0] in Holes(ps);
      HolesOfRewritten(ps, Element);
      HolesOfRewritten(ps, At(i));
      ExpressionOnItem(rt, Holes(ps)[0], i, base, item, whole);
    } else {
      FillOnItem(rt, ps, i, base, item, whole);
    }
  }

  // Filters

  /** An operand that is no template text, or one whose references all stand in blocks and may be rewritten. */
  ghost predicate PortableOperand(v: Value) {
    v.Text? ==> PortableTemplate(v.s)
  }

  ghost predicate ClearOperand(rt: Runtime, v: Value, base: Scope, item: Value, whole: Scope) {
    v.Text? ==> forall p <- Pieces(v.s) :: p.Hole? ==> Clear(rt, p.expr, base, item, whole)
  }

  /** No size limit is hit when an operand, reindexed to `i`, is evaluated in a scope. */
  predicate OperandWithinLimits(rt: Runtime, v: Value, i: nat, whole: Scope) {
    v.Text? ==> WithinLimits(Interpolated(rt, RewriteText(v.s, At(i)), OperandScope(whole)))
  }

  lemma ResolveText(rt: Runtime, s: string, scope: Scope)
    ensures ResolveOperand(rt, Text(s), scope)
            == match Interpolated(rt, s, OperandScope(scope)) case Success(v) => v case Failure(_) => Undefined
  {
    if !HasOpening(s) {
      NoOpeningNoBlocks(s, 0);
    }
  }

  lemma {:induction false} OperandOnItem(rt: Runtime, v: Value, i: nat, base: Scope, item: Value, whole: Scope)
    requires PortableOperand(v) && ShowsAt(whole, item, i) && ClearOperand(rt, v, base, item, whole)
    requires WritesIndex(rt.host, i) && OperandWithinLimits(rt, v, i, whole)
    ensures ResolveOperand(rt, RewriteOperand(v, Element), ItemScope(base, item))
            == ResolveOperand(rt, RewriteOperand(v, At(i)), whole)
  {
    if v.Text? {
      var onItem, onWhole := RewriteText(v.s, Element), RewriteText(v.s, At(i));
      ResolveText(rt, onItem, ItemScope(base, item));
      ResolveText(rt, onWhole, whole);
      InterpolatedIsMeaning(rt, onItem, OperandScope(ItemScope(base, item)));
      InterpolatedIsMeaning(rt, onWhole, OperandScope(whole));
      TemplateRewriteIsPiecewise(v.s, Element);
      TemplateRewriteIsPiecewise(v.s, At(i));
      HolesArePortable(v.s);
      MeaningOnItem(rt, Pieces(v.s), i, base, item, whole);
    }
  }

  ghost predicate OperandFits(rt: Runtime, v: Value, i: nat, base: Scope, item: Value, whole: Scope) {
    PortableOperand(v) && ClearOperand(rt, v, base, item, whole) && OperandWithinLimits(rt, v, i, whole)
  }

  ghost predicate ConditionFits(rt: Runtime, c: Condition, i: nat, base: Scope, item: Value, whole: Scope) {
    OperandFits(rt, c.left, i, base, item, whole) && OperandFits(rt, c.right, i, base, item, whole)
  }

  lemma {:induction false} ConditionOnItem(rt: Runtime, compare: Comparison, c: Condition, i: nat, base: Scope,
                                           item: Value, whole: Scope, options: Options)
    requires ShowsAt(whole, item, i) && ConditionFits(rt, c, i, base, item, whole) && WritesIndex(rt.host, i)
    ensures ConditionHolds(rt, compare, RewriteCondition(c, Element), ItemScope(base, item), options)
            <==> ConditionHolds(rt, compare, RewriteCondition(c, At(i)), whole, options)
  {
    OperandOnItem(rt, c.left, i, base, item, whole);
    OperandOnItem(rt, c.right, i, base, item, whole);
  }

  ghost predicate FilterFits(rt: Runtime, f: FilterValue, i: nat, base: Scope, item: Value, whole: Scope) {
    && ShowsAt(whole, item, i) && WritesIndex(rt.host, i)
    && forall j | 0 <= j < |f.conditions| :: ConditionFits(rt, f.conditions[j], i, base, item, whole)
  }

  /** Item `i` passes the rewritten filter exactly when a scope whose payload shows its record at `i` passes the filter
      reindexed to `i`. */
  lemma {:induction false} FilterOnItem(rt: Runtime, compare: Comparison, f: FilterValue, i: nat, base: Scope,
                                        item: Value, whole: Scope, options: Options)
    requires FilterFits(rt, f, i, base, item, whole)
    ensures Passes(rt, compare, RewriteFilter(f, Element), ItemScope(base, item), options)
            <==> Passes(rt, compare, RewriteFilter(f, At(i)), whole, options)
  {
    var onItem, onWhole := RewriteFilter(f, Element).conditions, RewriteFilter(f, At(i)).conditions;
    forall j | 0 <= j < |f.conditions|
      ensures onItem[j] in onItem && onWhole[j] in onWhole
      ensures ConditionHolds(rt, compare, onItem[j], ItemScope(base, item), options)
              <==> ConditionHolds(rt, compare, onWhole[j], whole, options)
    {
      ConditionOnItem(rt, compare, f.conditions[j], i, base, item, whole, options);
    }
  }

  /** The items at the indices from `from` on whose scope passes the reindexed filter. */
  function Selected(rt: Runtime, compare: Comparison, f: FilterValue, wholes: seq<Scope>, items: seq<Value>, from: nat,
                    options: Options): seq<Value>
    requires from <= |items| == |wholes|
    decreases |items| - from
  {
    if from == |items| then []
    else
      var others := Selected(rt, compare, f, wholes, items, from + 1, options);
      if Passes(rt, compare, RewriteFilter(f, At(from)), wholes[from], options) then [items[from]] + others else others
  }

  lemma {:induction false} KeptAreSelected(rt: Runtime, compare: Comparison, f: FilterValue, base: Scope,
                                           wholes: seq<Scope>, items: seq<Value>, from: nat, options: Options)
    requires from <= |items| == |wholes|
    requires forall i: nat | i < |items| :: FilterFits(rt, f, i, base, items[i], wholes[i])
    ensures KeptItems(rt, compare, RewriteFilter(f, Element), base, items[from..], options)
            == Selected(rt, compare, f, wholes, items, from, options)
    decreases |items| - from
  {
    if from < |items| {
      FilterOnItem(rt, compare, f, from, base, items[from], wholes[from], options);
      KeptAreSelected(rt, compare, f, base, wholes, items, from + 1, options);
      assert items[from..][1..] == items[from + 1..];
    }
  }

  // Against the payload with its items as records

  function Records(items: seq<Value>): (r: seq<Value>)
    ensures |r| == |items|
  {
    seq(|items|, j requires 0 <= j < |items| => Obj(RecordOf(items[j])))
  }

  /** The scope of an item, with `$json` the payload whose items are the given ones, each as a record. */
  function IndexScope(base: Scope, items: seq<Value>, item: Value): Scope {
    var payload := JsonOf(OperandScope(base));
    var fields := if payload.Obj? then payload.fields else map[];
    (base + RecordOf(item))["$json" := Obj(fields["items" := Arr(Records(items))])]
  }

  function IndexScopes(base: Scope, items: seq<Value>): (r: seq<Scope>)
    ensures |r| == |items|
  {
    seq(|items|, j requires 0 <= j < |items| => IndexScope(base, items, items[j]))
  }

  /** An operand whose references all stand in blocks and may be rewritten, and that does not use the name `json` unless
      the payload's scope or the item defines it. */
  ghost predicate Indexable(v: Value, base: Scope, item: Value) {
    && PortableOperand(v)
    && (v.Text? && !Defines(base + RecordOf(item), "json") ==>
          forall p <- Pieces(v.s) :: p.Hole? ==> "json" !in NamesIn(Trim(p.expr)))
  }

  ghost predicate IndexesFit(rt: Runtime, f: FilterValue, base: Scope, items: seq<Value>, i: nat)
    requires i < |items|
  {
    && WritesIndex(rt.host, i)
    && forall j | 0 <= j < |f.conditions| ::
         && Indexable(f.conditions[j].left, base, items[i]) && Indexable(f.conditions[j].right, base, items[i])
         && OperandWithinLimits(rt, f.conditions[j].left, i, IndexScope(base, items, items[i]))
         && OperandWithinLimits(rt, f.conditions[j].right, i, IndexScope(base, items, items[i]))
  }

  lemma SameNameOnIndex(rt: Runtime, base: Scope, items: seq<Value>, item: Value, name: string)
    requires name != "$json" && (name == "json" ==> Defines(base + RecordOf(item), "json"))
    ensures Lookup(ItemEnv(rt, base, item), name) == Lookup(ScopeEnv(rt, IndexScope(base, items, item)), name)
  {
    SameName(rt, OperandScope(ItemScope(base, item)), OperandScope(IndexScope(base, items, item)), name);
  }

  lemma {:induction false} IndexableIsClear(rt: Runtime, v: Value, base: Scope, items: seq<Value>, item: Value)
    requires Indexable(v, base, item)
    ensures ClearOperand(rt, v, base, item, IndexScope(base, items, item))
  {
    if v.Text? {
      forall p | p in Pieces(v.s) && p.Hole? ensures Clear(rt, p.expr, base, item, IndexScope(base, items, item)) {
        forall n | n in NamesIn(Trim(p.expr)) && n != "$json"
          ensures Lookup(ItemEnv(rt, base, item), n) == Lookup(ScopeEnv(rt, IndexScope(base, items, item)), n)
        {
          SameNameOnIndex(rt, base, items, item, n);
        }
      }
    }
  }

  lemma {:induction false} IndexesFitFilter(rt: Runtime, f: FilterValue, base: Scope, items: seq<Value>, i: nat)
    requires i < |items| && IndexesFit(rt, f, base, items, i)
    ensures FilterFits(rt, f, i, base, items[i], IndexScope(base, items, items[i]))
  {
    forall j | 0 <= j < |f.conditions|
      ensures ConditionFits(rt, f.conditions[j], i, base, items[i], IndexScope(base, items, items[i]))
    {
      IndexableIsClear(rt, f.conditions[j].left, base, items, items[i]);
      IndexableIsClear(rt, f.conditions[j].right, base, items, items[i]);
    }
  }

  /** The filter of a node keeps, in order, exactly the items at whose index the conditions hold in the scope of the
      item on the payload with its items as records, whatever the items are. */
  lemma {:induction false} FilterKeepsByIndex(rt: Runtime, compare: Comparison, conditions: Value, options: Options,
                                              input: Scope, scope: Option<Scope>)
    requires ParseFilterValue(conditions).Some? && Field(Obj(input), "items").Arr?
    requires var f, items := ParseFilterValue(conditions).value, input["items"].items;
             && FilterReferencesItems(f)
             && forall i: nat | i < |items| :: IndexesFit(rt, f, BaseOf(input, scope), items, i)
    ensures var f, base := ParseFilterValue(conditions).value, BaseOf(input, scope);
            var items := input["items"].items;
            var kept := Selected(rt, compare, f, IndexScopes(base, items), items, 0, options);
            ApplyStructuredFilter(rt, compare, conditions, options, input, scope)
            == Some(Applied(ProjectItems(input, kept), kept != []))
  {
    var f, base := ParseFilterValue(conditions).value, BaseOf(input, scope);
    var items := input["items"].items;
    var wholes := IndexScopes(base, items);
    forall i: nat | i < |items| ensures FilterFits(rt, f, i, base, items[i], wholes[i]) {
      IndexesFitFilter(rt, f, base, items, i);
    }
    KeptAreSelected(rt, compare, f, base, wholes, items, 0, options);
    assert items[0..] == items;
  }

  // Against the payload itself

  /** No name of an operand is `json` or a field of the item. */
  ghost predicate Unshadowed(v: Value, record: Scope) {
    v.Text? ==>
      forall p <- Pieces(v.s) :: p.Hole? ==>
        forall n <- NamesIn(Trim(p.expr)) | n != "$json" :: n != "json" && n !in record
  }

  /** The payload in a scope, as `$json` shows it. */
  predicate PayloadOf(base: Scope, items: seq<Value>) {
    Field(JsonOf(OperandScope(base)), "items") == Arr(items)
  }

  ghost predicate PayloadFits(rt: Runtime, f: FilterValue, base: Scope, items: seq<Value>, i: nat)
    requires i < |items|
  {
    && items[i].Obj? && PayloadOf(base, items) && WritesIndex(rt.host, i)
    && forall j | 0 <= j < |f.conditions| ::
         && PortableOperand(f.conditions[j].left) && Unshadowed(f.conditions[j].left, items[i].fields)
         && PortableOperand(f.conditions[j].right) && Unshadowed(f.conditions[j].right, items[i].fields)
         && OperandWithinLimits(rt, f.conditions[j].left, i, base)
         && OperandWithinLimits(rt, f.conditions[j].right, i, base)
  }

  lemma SameNameOnPayload(rt: Runtime, base: Scope, item: Value, name: string)
    requires name != "$json" && name != "json" && name !in RecordOf(item)
    ensures Lookup(ItemEnv(rt, base, item), name) == Lookup(ScopeEnv(rt, base), name)
  {
    SameName(rt, OperandScope(ItemScope(base, item)), OperandScope(base), name);
  }

  lemma {:induction false} UnshadowedIsClear(rt: Runtime, v: Value, base: Scope, item: Value)
    requires Unshadowed(v, RecordOf(item))
    ensures ClearOperand(rt, v, base, item, base)
  {
    if v.Text? {
      forall p | p in Pieces(v.s) && p.Hole? ensures Clear(rt, p.expr, base, item, base) {
        forall n | n in NamesIn(Trim(p.expr)) && n != "$json"
          ensures Lookup(ItemEnv(rt, base, item), n) == Lookup(ScopeEnv(rt, base), n)
        {
          SameNameOnPayload(rt, base, item, n);
        }
      }
    }
  }

  /** If all items are objects and no item shadows a name the operands use, the filter keeps exactly the items at whose
      index the conditions hold on the payload itself. */
  lemma {:induction false} FilterKeepsOnPayload(rt: Runtime, compare: Comparison, conditions: Value, options: Options,
                                                input: Scope, scope: Option<Scope>)
    requires ParseFilterValue(conditions).Some? && Field(Obj(input), "items").Arr?
    requires var f, items := ParseFilterValue(conditions).value, input["items"].items;
             && FilterReferencesItems(f)
             && forall i: nat | i < |items| :: PayloadFits(rt, f, BaseOf(input, scope), items, i)
    ensures var f, base := ParseFilterValue(conditions).value, BaseOf(input, scope);
            var items := input["items"].items;
            var kept := Selected(rt, compare, f, seq(|items|, _ => base), items, 0, options);
            ApplyStructuredFilter(rt, compare, conditions, options, input, scope)
            == Some(Applied(ProjectItems(input, kept), kept != []))
  {
    var f, base := ParseFilterValue(conditions).value, BaseOf(input, scope);
    var items := input["items"].items;
    forall i: nat | i < |items| ensures FilterFits(rt, f, i, base, items[i], base) {
      PayloadFitsFilter(rt, f, base, items, i);
    }
    KeptAreSelected(rt, compare, f, base, seq(|items|, _ => base), items, 0, options);
    assert items[0..] == items;
  }

  lemma {:induction false} PayloadFitsFilter(rt: Runtime, f: FilterValue, base: Scope, items: seq<Value>, i: nat)
    requires i < |items| && PayloadFits(rt, f, base, items, i)
    ensures FilterFits(rt, f, i, base, items[i], base)
  {
    forall j | 0 <= j < |f.conditions| ensures ConditionFits(rt, f.conditions[j], i, base, items[i], base) {
      UnshadowedIsClear(rt, f.conditions[j].left, base, items[i]);
      UnshadowedIsClear(rt, f.conditions[j].right, base, items[i]);
    }
  }

  // Filtering again

  lemma {:induction false} KeptAgain(rt: Runtime, compare: Comparison, f: FilterValue, base: Scope, items: seq<Value>,
                                     options: Options)
    ensures var kept := KeptItems(rt, compare, f, base, items, options);
            KeptItems(rt, compare, f, base, kept, options) == kept
  {
    if items != [] {
      KeptAgain(rt, compare, f, base, items[1..], options);
      var others := KeptItems(rt, compare, f, base, items[1..], options);
      assert ([items[0]] + others)[1..] == others;
    }
  }

  lemma ProjectAgain(input: Scope, kept: seq<Value>)
    ensures ProjectItems(ProjectItems(input, kept), kept) == ProjectItems(input, kept)
    ensures ProjectItems(input, kept)["items"] == Arr(kept)
  {
  }

  /** In a fixed scope, filtering the output of a per-item filter again changes nothing. */
  lemma {:induction false} FilteringTwiceIsOnce(rt: Runtime, compare: Comparison, conditions: Value, options: Options,
                                                input: Scope, scope: Scope)
    requires ParseFilterValue(conditions).Some? && FilterReferencesItems(ParseFilterValue(conditions).value)
    requires Field(Obj(input), "items").Arr?
    ensures var once := ApplyStructuredFilter(rt, compare, conditions, options, input, Some(scope)).value;
            ApplyStructuredFilter(rt, compare, conditions, options, once.output, Some(scope)) == Some(once)
  {
    var f := RewriteFilter(ParseFilterValue(conditions).value, Element);
    KeptAgain(rt, compare, f, scope, input["items"].items, options);
    ProjectAgain(input, KeptItems(rt, compare, f, scope, input["items"].items, options));
  }
}
