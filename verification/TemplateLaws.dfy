/** What a block of a template gives. */
module TemplateLaws {
  import opened Results
  import opened Syntax
  import opened Values
  import opened Evaluator
  import opened Frontend
  import opened Templates

  /** In text `undefined` and `null` give nothing, a text stands as it is, and any other value as the runtime writes
      JSON. */
  lemma ShownLaw(rt: Runtime, v: Value)
    ensures PlacedText(rt, v)
            == if v == Undefined || v == Null then Success("")
               else if v.Text? then Success(v.s)
               else match rt.host.jsonText(v)
                    case Success(text) => Success(text)
                    case Failure(message) => Failure(Error(HostFailure(message), None))
  {
  }

  /** Blank sources give `undefined`, sources that do not parse their error, and others the outcome of the tree at depth
      0, with no position for errors of evaluation. */
  lemma EvaluateLaw(rt: Runtime, src: string, scope: Scope)
    ensures Trim(src) == "" ==> EvaluateExpression(rt, src, scope) == Success(Undefined)
    ensures Trim(src) != "" ==>
              EvaluateExpression(rt, src, scope)
              == match ParseSource(Trim(src))
                 case Failure(e) => Failure(e)
                 case Success(tree) =>
                   match EvalNode(rt.host, BuildEnv(rt, scope), tree, 0)
                   case Success(v) => Success(v)
                   case Failure(reason) => Failure(Error(reason, None))
  {
  }
}
