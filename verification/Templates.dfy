/** `{{ … }}` blocks in text: the second scanner, and interpolation. */
module Templates {
  import opened Results
  import opened Syntax
  import opened Values
  import opened Evaluator
  import Tokenizer
  import opened Frontend

  /** `template[start..end]` is a block around `expr`. */
  datatype Block = Block(start: nat, end: nat, expr: string)

  predicate Opens(s: string) {
    |s| >= 2 && s[0] == '{' && s[1] == '{'
  }

  predicate Closes(s: string) {
    |s| >= 2 && s[0] == '}' && s[1] == '}'
  }

  function Further(k: nat, r: Option<nat>): Option<nat> {
    if r.Some? then Some(k + r.value) else None
  }

  /** How many characters stand before the closing braces; quotes and escapes inside them hide braces. */
  function BodyLength(quote: Option<char>, s: string): (r: Option<nat>)
    ensures r.Some? ==> r.value + 2 <= |s| && Closes(s[r.value..])
    decreases |s|
  {
    if s == "" then None
    else if quote.Some? then
      if s[0] == '\\' then
        if |s| == 1 then None else Further(2, BodyLength(quote, s[2..]))
      else Further(1, BodyLength(if s[0] == quote.value then None else quote, s[1..]))
    else if Tokenizer.IsQuote(s[0]) then Further(1, BodyLength(Some(s[0]), s[1..]))
    else if Closes(s) then Some(0)
    else Further(1, BodyLength(None, s[1..]))
  }

  /** The blocks of `s`, which stands at position `at`; an unclosed block ends the scan. */
  function Scan(s: string, at: nat): seq<Block>
    decreases |s|
  {
    if s == "" then []
    else if !Opens(s) then Scan(s[1..], at + 1)
    else
      match BodyLength(None, s[2..])
      case None => []
      case Some(n) => [Block(at, at + n + 4, s[2..n + 2])] + Scan(s[n + 4..], at + n + 4)
  }

  function TemplateBlocks(template: string): seq<Block> {
    Scan(template, 0)
  }

  /** One step of each scan, at position `i` of the template. */
  lemma ScanStep(t: string, i: nat)
    requires i < |t|
    ensures !Opens(t[i..]) ==> Scan(t[i..], i) == Scan(t[i + 1..], i + 1)
    ensures Opens(t[i..]) <==> t[i] == '{' && i + 1 < |t| && t[i + 1] == '{'
    ensures Opens(t[i..]) ==> t[i..][2..] == t[i + 2..]
  {
    assert t[i..][1..] == t[i + 1..];
  }

  lemma ScanBlock(t: string, i: nat, n: nat)
    requires i + 2 <= |t| && Opens(t[i..]) && BodyLength(None, t[i + 2..]) == Some(n)
    ensures i + n + 4 <= |t|
    ensures Scan(t[i..], i) == [Block(i, i + n + 4, t[i + 2..i + n + 2])] + Scan(t[i + n + 4..], i + n + 4)
  {
    assert t[i..][2..] == t[i + 2..];
    assert t[i..][n + 4..] == t[i + n + 4..];
    assert t[i..][2..n + 2] == t[i + 2..i + n + 2];
  }

  /** `BodyLength` at position `i`, as a position. */
  function CloseFrom(t: string, quote: Option<char>, i: nat): Option<nat> {
    if i <= |t| then Further(i, BodyLength(quote, t[i..])) else None
  }

  lemma CloseStep(t: string, quote: Option<char>, i: nat)
    requires i < |t|
    ensures quote.Some? && t[i] == '\\' ==> CloseFrom(t, quote, i) == CloseFrom(t, quote, i + 2)
    ensures quote.Some? && t[i] != '\\' ==>
              CloseFrom(t, quote, i) == CloseFrom(t, if t[i] == quote.value then None else quote, i + 1)
    ensures quote.None? && Tokenizer.IsQuote(t[i]) ==> CloseFrom(t, quote, i) == CloseFrom(t, Some(t[i]), i + 1)
    ensures quote.None? && !Tokenizer.IsQuote(t[i]) ==>
              CloseFrom(t, quote, i)
              == if t[i] == '}' && i + 1 < |t| && t[i + 1] == '}' then Some(i) else CloseFrom(t, None, i + 1)
  {
    if quote.Some? {
      CloseStepInside(t, quote.value, i);
    } else {
      RestShape(t, i);
    }
  }

  lemma CloseStepInside(t: string, quote: char, i: nat)
    requires i < |t|
    ensures t[i] == '\\' ==> CloseFrom(t, Some(quote), i) == CloseFrom(t, Some(quote), i + 2)
    ensures t[i] != '\\' ==>
              CloseFrom(t, Some(quote), i) == CloseFrom(t, if t[i] == quote then None else Some(quote), i + 1)
  {
    RestShape(t, i);
  }

  lemma RestShape(t: string, i: nat)
    requires i < |t|
    ensures t[i..] != "" && t[i..][0] == t[i] && t[i..][1..] == t[i + 1..] && |t[i..]| == |t| - i
    ensures i + 2 <= |t| ==> t[i..][1] == t[i + 1] && t[i..][2..] == t[i + 2..]
  {
  }

  /** `blocks` are the blocks before position `i`. */
  ghost predicate Found(t: string, blocks: seq<Block>, i: nat) {
    i <= |t| && blocks + Scan(t[i..], i) == TemplateBlocks(t)
  }

  lemma FoundNone(t: string)
    ensures Found(t, [], 0)
  {
    assert t[0..] == t;
    assert [] + Scan(t, 0) == Scan(t, 0);
  }

  lemma FoundLater(t: string, blocks: seq<Block>, i: nat)
    requires Found(t, blocks, i) && i < |t| && !(t[i] == '{' && i + 1 < |t| && t[i + 1] == '{')
    ensures Found(t, blocks, i + 1)
  {
    ScanStep(t, i);
  }

  lemma FoundBlock(t: string, blocks: seq<Block>, i: nat, close: nat)
    requires Found(t, blocks, i) && i + 1 < |t|
             && t[i] == '{' && t[i + 1] == '{' && CloseFrom(t, None, i + 2) == Some(close)
    ensures i + 2 <= close < |t| - 1 && Found(t, blocks + [Block(i, close + 2, t[i + 2..close])], close + 2)
  {
    ScanUntil(t, i, close);
    Append(blocks, Block(i, close + 2, t[i + 2..close]), Scan(t[close + 2..], close + 2));
  }

  lemma ScanUntil(t: string, i: nat, close: nat)
    requires i + 1 < |t| && t[i] == '{' && t[i + 1] == '{' && CloseFrom(t, None, i + 2) == Some(close)
    ensures i + 2 <= close < |t| - 1
    ensures Scan(t[i..], i) == [Block(i, close + 2, t[i + 2..close])] + Scan(t[close + 2..], close + 2)
  {
    ScanStep(t, i);
    var n := close - (i + 2);
    assert i + n + 4 == close + 2 && i + n + 2 == close;
    ScanBlock(t, i, n);
  }

  lemma FoundAll(t: string, blocks: seq<Block>, i: nat)
    requires Found(t, blocks, i)
    requires i == |t| || (i + 1 < |t| && t[i] == '{' && t[i + 1] == '{' && CloseFrom(t, None, i + 2).None?)
    ensures blocks == TemplateBlocks(t)
  {
    if i < |t| {
      ScanStep(t, i);
    }
    assert Scan(t[i..], i) == [];
    assert blocks + [] == blocks;
  }

  method FindTemplateBlocks(template: string) returns (blocks: seq<Block>)
    ensures blocks == TemplateBlocks(template)
  {
    blocks := [];
    var i := 0;
    FoundNone(template);
    while i < |template|
      invariant Found(template, blocks, i)
      decreases |template| - i
    {
      if template[i] != '{' || i + 1 >= |template| || template[i + 1] != '{' {
        FoundLater(template, blocks, i);
        i := i + 1;
        continue;
      }
      var close := FindClose(template, i + 2);
      if close.None? {
        break;
      }
      FoundBlock(template, blocks, i, close.value);
      blocks := blocks + [Block(i, close.value + 2, template[i + 2..close.value])];
      i := close.value + 2;
    }
    FoundAll(template, blocks, i);
  }

  lemma Append(blocks: seq<Block>, block: Block, more: seq<Block>)
    ensures blocks + ([block] + more) == blocks + [block] + more
  {
  }

  /** The inner loop: the position of the closing braces. */
  method FindClose(template: string, start: nat) returns (close: Option<nat>)
    requires start <= |template|
    ensures close == CloseFrom(template, None, start)
  {
    var i := start;
    var quote: Option<char> := None;
    while i < |template|
      invariant CloseFrom(template, None, start) == CloseFrom(template, quote, i)
      decreases |template| - i
    {
      CloseStep(template, quote, i);
      var ch := template[i];
      if quote.Some? {
        if ch == '\\' {
          i := i + 2;
          continue;
        }
        if ch == quote.value {
          quote := None;
        }
        i := i + 1;
        continue;
      }
      if Tokenizer.IsQuote(ch) {
        quote := Some(ch);
        i := i + 1;
        continue;
      }
      if ch == '}' && i + 1 < |template| && template[i + 1] == '}' {
        return Some(i);
      }
      i := i + 1;
    }
    close := None;
  }

  // Trimming and evaluating the text of a block

  /** White space and line ends, as `String.prototype.trim` removes them. */
  predicate IsTrimmed(c: char) {
    c in {'\t', '\n', '\U{0B}', '\U{0C}', '\r', ' ', '\U{A0}', '\U{1680}', '\U{2028}', '\U{2029}', '\U{202F}',
          '\U{205F}', '\U{3000}', '\U{FEFF}'}
    || '\U{2000}' <= c <= '\U{200A}'
  }

  function TrimLeft(s: string): string {
    if s != "" && IsTrimmed(s[0]) then TrimLeft(s[1..]) else s
  }

  function TrimRight(s: string): string {
    if s != "" && IsTrimmed(s[|s| - 1]) then TrimRight(s[..|s| - 1]) else s
  }

  function Trim(s: string): string {
    TrimRight(TrimLeft(s))
  }

  type Scope = map<string, Value>

  /** The runtime with its globals and the fixed readings of the clock. */
  datatype Runtime = Runtime(host: Host, globals: map<string, Value>, now: Value, today: Value)

  function Coalesced(scope: Scope, name: string, fallback: Value): Value {
    if name in scope && !Nullish(scope[name]) then scope[name] else fallback
  }

  /** The object `$json` stands for: the scope's own if it is an object, else the scope itself. */
  function JsonOf(scope: Scope): Value {
    if "$json" in scope && (scope["$json"].Obj? || scope["$json"].Arr?) then scope["$json"] else Obj(scope)
  }

  /** `buildExpressionEnv`: builtins and context names override the scope. */
  function BuildEnv(rt: Runtime, scope: Scope): Env {
    scope + rt.globals + map[
      "$json" := JsonOf(scope),
      "json" := Coalesced(scope, "json", JsonOf(scope)),
      "$now" := Coalesced(scope, "$now", rt.now),
      "$today" := Coalesced(scope, "$today", rt.today),
      "$execution" := Coalesced(scope, "$execution", Obj(map[])),
      "$workflow" := Coalesced(scope, "$workflow", Obj(map[]))]
  }

  function Unplaced(r: Outcome): Result<Value, Error> {
    match r
    case Success(v) => Success(v)
    case Failure(reason) => Failure(Error(reason, None))
  }

  function EvaluateExpression(rt: Runtime, src: string, scope: Scope): Result<Value, Error> {
    var trimmed := Trim(src);
    if trimmed == "" then Success(Undefined)
    else
      var ast :- ParseSource(trimmed);
      Unplaced(EvalNode(rt.host, BuildEnv(rt, scope), ast, 0))
  }

  predicate IsSingleExpression(template: string, blocks: seq<Block>)
    requires blocks != [] ==> blocks[0].start <= blocks[0].end <= |template|
  {
    |blocks| == 1 && Trim(template[..blocks[0].start]) == "" && Trim(template[blocks[0].end..]) == ""
  }

  function StringifyValue(host: Host, v: Value): Result<string, Reason> {
    if Nullish(v) then Success("") else if v.Text? then Success(v.s) else Raised(host.jsonText(v))
  }

  /** The blocks lie behind `cursor`, in order, disjoint, inside the template, and are the text between braces. */
  ghost predicate InOrder(t: string, blocks: seq<Block>, cursor: nat) {
    blocks == []
    || (&& cursor <= blocks[0].start < blocks[0].end <= |t|
        && t[blocks[0].start..blocks[0].end] == "{{" + blocks[0].expr + "}}"
        && InOrder(t, blocks[1..], blocks[0].end))
  }

  /** The blocks from `i` on are in order. */
  ghost predicate InOrderFrom(t: string, i: nat)
    requires i <= |t|
  {
    InOrder(t, Scan(t[i..], i), i)
  }

  lemma {:induction false} ScanInOrder(t: string, i: nat)
    requires i <= |t|
    ensures InOrderFrom(t, i)
    decreases |t| - i
  {
    if i == |t| || (Opens(t[i..]) && BodyLength(None, t[i..][2..]).None?) {
      NothingInOrder(t, i);
    } else if !Opens(t[i..]) {
      ScanInOrder(t, i + 1);
      PlainInOrder(t, i);
    } else {
      var n := BodyLength(None, t[i..][2..]).value;
      BodyShape(t, i);
      ScanInOrder(t, i + n + 4);
      BlockInOrder(t, i, n);
    }
  }

  lemma NothingInOrder(t: string, i: nat)
    requires i <= |t| && (i == |t| || (Opens(t[i..]) && BodyLength(None, t[i..][2..]).None?))
    ensures InOrderFrom(t, i)
  {
  }

  lemma BodyShape(t: string, i: nat)
    requires i <= |t| && Opens(t[i..]) && BodyLength(None, t[i..][2..]).Some?
    ensures i + 2 <= |t| && BodyLength(None, t[i..][2..]) == BodyLength(None, t[i + 2..])
    ensures i + BodyLength(None, t[i + 2..]).value + 4 <= |t|
  {
    assert t[i..][2..] == t[i + 2..];
  }

  lemma PlainInOrder(t: string, i: nat)
    requires i < |t| && !Opens(t[i..]) && InOrderFrom(t, i + 1)
    ensures InOrderFrom(t, i)
  {
    ScanStep(t, i);
    InOrderEarlier(t, Scan(t[i + 1..], i + 1), i, i + 1);
  }

  lemma BlockInOrder(t: string, i: nat, n: nat)
    requires i + n + 4 <= |t| && Opens(t[i..]) && BodyLength(None, t[i + 2..]) == Some(n)
    requires InOrderFrom(t, i + n + 4)
    ensures InOrderFrom(t, i)
  {
    ScanBlock(t, i, n);
    BlockShape(t, i, n);
    InOrderMore(t, i, i + n + 4, t[i + 2..i + n + 2], Scan(t[i + n + 4..], i + n + 4), Scan(t[i..], i));
  }

  lemma InOrderMore(t: string, start: nat, end: nat, expr: string, more: seq<Block>, blocks: seq<Block>)
    requires blocks == [Block(start, end, expr)] + more
    requires start < end <= |t| && t[start..end] == "{{" + expr + "}}" && InOrder(t, more, end)
    ensures InOrder(t, blocks, start)
  {
    assert blocks[1..] == more;
  }

  lemma BlockShape(t: string, i: nat, n: nat)
    requires i + n + 4 <= |t| && Opens(t[i..]) && Closes(t[i + 2..][n..])
    ensures t[i..i + n + 4] == "{{" + t[i + 2..i + n + 2] + "}}"
  {
    assert t[i..][0] == t[i] && t[i..][1] == t[i + 1];
    assert t[i + 2..][n..][0] == t[i + n + 2] && t[i + 2..][n..][1] == t[i + n + 3];
  }

  lemma InOrderEarlier(t: string, blocks: seq<Block>, earlier: nat, cursor: nat)
    requires earlier <= cursor && InOrder(t, blocks, cursor)
    ensures InOrder(t, blocks, earlier)
  {
  }

  predicate HasOpening(s: string) {
    s != "" && (Opens(s) || HasOpening(s[1..]))
  }

  lemma {:induction false} NoOpeningNoBlocks(s: string, at: nat)
    requires !HasOpening(s)
    ensures Scan(s, at) == []
    decreases |s|
  {
    if s != "" {
      NoOpeningNoBlocks(s[1..], at + 1);
    }
  }

  /** The text from `cursor` on with every block replaced by its value. */
  function Splice(rt: Runtime, t: string, blocks: seq<Block>, cursor: nat, scope: Scope): Result<string, Error>
    requires cursor <= |t| && InOrder(t, blocks, cursor)
    decreases |blocks|
  {
    if blocks == [] then Success(t[cursor..])
    else
      var v :- EvaluateExpression(rt, blocks[0].expr, scope);
      var text :- PlacedText(rt, v);
      var rest :- Splice(rt, t, blocks[1..], blocks[0].end, scope);
      Success(t[cursor..blocks[0].start] + text + rest)
  }

  function PlacedText(rt: Runtime, v: Value): Result<string, Error> {
    match StringifyValue(rt.host, v)
    case Success(text) => Success(text)
    case Failure(reason) => Failure(Error(reason, None))
  }

  /** The value of a template: plain text, the raw value of a lone block, or text with values spliced in. */
  function Interpolated(rt: Runtime, template: string, scope: Scope): Result<Value, Error> {
    var blocks := TemplateBlocks(template);
    assert template[0..] == template;
    ScanInOrder(template, 0);
    if blocks == [] then Success(Text(template))
    else if IsSingleExpression(template, blocks) then EvaluateExpression(rt, blocks[0].expr, scope)
    else
      var text :- Splice(rt, template, blocks, 0, scope);
      Success(Text(text))
  }

  method Interpolate(rt: Runtime, template: string, scope: Scope) returns (r: Result<Value, Error>)
    ensures r == Interpolated(rt, template, scope)
  {
    assert template[0..] == template;
    ScanInOrder(template, 0);
    if !HasOpening(template) {
      NoOpeningNoBlocks(template, 0);
      return Success(Text(template));
    }
    var blocks := FindTemplateBlocks(template);
    if blocks == [] {
      return Success(Text(template));
    }
    if IsSingleExpression(template, blocks) {
      r := EvaluateExpression(rt, blocks[0].expr, scope);
      return;
    }
    var text :- SpliceBlocks(rt, template, blocks, scope);
    r := Success(Text(text));
  }

  method SpliceBlocks(rt: Runtime, template: string, blocks: seq<Block>, scope: Scope)
    returns (r: Result<string, Error>)
    requires InOrder(template, blocks, 0)
    ensures r == Splice(rt, template, blocks, 0, scope)
  {
    var out := "";
    var cursor: nat := 0;
    var k: nat := 0;
    assert blocks[0..] == blocks;
    PutNoText(Splice(rt, template, blocks, 0, scope));
    while k < |blocks|
      invariant k <= |blocks| && cursor <= |template|
      invariant InOrder(template, blocks[k..], cursor)
      invariant Splice(rt, template, blocks, 0, scope)
                == PutText(out, Splice(rt, template, blocks[k..], cursor, scope))
    {
      ghost var rest := blocks[k..];
      assert rest[0] == blocks[k] && rest[1..] == blocks[k + 1..];
      var gap := template[cursor..blocks[k].start];
      var v :- EvaluateExpression(rt, blocks[k].expr, scope);
      var text :- PlacedText(rt, v);
      SpliceStep(rt, template, rest, cursor, scope, v, text);
      PutTextTwice(out, gap + text, Splice(rt, template, rest[1..], blocks[k].end, scope));
      out := out + (gap + text);
      cursor := blocks[k].end;
      k := k + 1;
    }
    r := Success(out + template[cursor..]);
  }

  lemma SpliceStep(rt: Runtime, t: string, blocks: seq<Block>, cursor: nat, scope: Scope, v: Value, text: string)
    requires cursor <= |t| && InOrder(t, blocks, cursor) && blocks != []
    requires EvaluateExpression(rt, blocks[0].expr, scope) == Success(v) && PlacedText(rt, v) == Success(text)
    ensures Splice(rt, t, blocks, cursor, scope)
            == PutText(t[cursor..blocks[0].start] + text, Splice(rt, t, blocks[1..], blocks[0].end, scope))
  {
  }

  lemma PutNoText(r: Result<string, Error>)
    ensures PutText("", r) == r
  {
    if r.Success? {
      assert "" + r.value == r.value;
    }
  }

  function PutText(text: string, r: Result<string, Error>): Result<string, Error> {
    match r
    case Success(more) => Success(text + more)
    case Failure(e) => Failure(e)
  }

  lemma PutTextTwice(text1: string, text2: string, r: Result<string, Error>)
    ensures PutText(text1, PutText(text2, r)) == PutText(text1 + text2, r)
  {
    if r.Success? {
      assert text1 + (text2 + r.value) == text1 + text2 + r.value;
    }
  }
}
