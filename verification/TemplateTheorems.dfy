/** Blocks lose nothing and compose, and the block scanner agrees with the lexer. */
module TemplateTheorems {
  import opened Results
  import opened Tokenizer
  import opened LexerTheorems
  import opened Templates

  /** Gaps and blocks in order, from `cursor` on. */
  function Reassembled(t: string, blocks: seq<Block>, cursor: nat): string
    requires cursor <= |t| && InOrder(t, blocks, cursor)
    decreases |blocks|
  {
    if blocks == [] then t[cursor..]
    else t[cursor..blocks[0].start] + "{{" + blocks[0].expr + "}}" + Reassembled(t, blocks[1..], blocks[0].end)
  }

  lemma {:induction false} ReassembledIsSuffix(t: string, blocks: seq<Block>, cursor: nat)
    requires cursor <= |t| && InOrder(t, blocks, cursor)
    ensures Reassembled(t, blocks, cursor) == t[cursor..]
    decreases |blocks|
  {
    if blocks != [] {
      var b := blocks[0];
      ReassembledIsSuffix(t, blocks[1..], b.end);
      assert t[cursor..b.start] + t[b.start..b.end] == t[cursor..b.end];
      assert t[cursor..b.end] + t[b.end..] == t[cursor..];
      assert t[cursor..b.start] + "{{" + b.expr + "}}" == t[cursor..b.start] + ("{{" + b.expr + "}}");
    }
  }

  /** The blocks of a template are in order, disjoint and in bounds, and with the gaps between them they spell the
      template again. */
  lemma {:induction false} BlocksLoseNothing(template: string)
    ensures InOrder(template, TemplateBlocks(template), 0)
    ensures Reassembled(template, TemplateBlocks(template), 0) == template
  {
    assert template[0..] == template;
    ScanInOrder(template, 0);
    ReassembledIsSuffix(template, TemplateBlocks(template), 0);
  }

  // Composition

  /** Scanning `s` does not stop inside an unclosed block. */
  predicate EndsOutside(s: string)
    decreases |s|
  {
    if s == "" then true
    else if !Opens(s) then EndsOutside(s[1..])
    else
      match BodyLength(None, s[2..])
      case None => false
      case Some(n) => EndsOutside(s[n + 4..])
  }

  /** Braces that open a block where two texts meet. */
  predicate Straddles(s: string, more: string) {
    s != "" && more != "" && s[|s| - 1] == '{' && more[0] == '{'
  }

  /** A body that closes does not look behind its closing braces. */
  lemma {:induction false} BodyLengthExtends(quote: Option<char>, s: string, more: string)
    requires BodyLength(quote, s).Some?
    ensures BodyLength(quote, s + more) == BodyLength(quote, s)
    decreases |s|
  {
    assert (s + more)[1..] == s[1..] + more;
    if quote.Some? {
      if s[0] == '\\' {
        assert (s + more)[2..] == s[2..] + more;
        BodyLengthExtends(quote, s[2..], more);
      } else {
        BodyLengthExtends(if s[0] == quote.value then None else quote, s[1..], more);
      }
    } else if IsQuote(s[0]) {
      BodyLengthExtends(Some(s[0]), s[1..], more);
    } else if !Closes(s) {
      BodyLengthExtends(None, s[1..], more);
    }
  }

  lemma DropOfConcat(s: string, more: string, k: nat)
    requires k <= |s|
    ensures (s + more)[k..] == s[k..] + more && (s + more)[..k] == s[..k]
  {
  }

  lemma ScanOpen(s: string, at: nat, n: nat)
    requires Opens(s) && BodyLength(None, s[2..]) == Some(n)
    ensures n + 4 <= |s| && Scan(s, at) == [Block(at, at + n + 4, s[..n + 2][2..])] + Scan(s[n + 4..], at + n + 4)
  {
    assert s[..n + 2][2..] == s[2..n + 2];
  }

  /** The blocks of two texts are those of the first and then those of the second. */
  ghost predicate Composes(s: string, more: string, at: nat) {
    Scan(s + more, at) == Scan(s, at) + Scan(more, at + |s|)
  }

  lemma {:induction false} ScanComposes(s: string, more: string, at: nat)
    requires EndsOutside(s) && !Straddles(s, more)
    ensures Composes(s, more, at)
    decreases |s|
  {
    if s == "" {
      NothingComposes(more, at);
    } else if !Opens(s) {
      StraddlesBehind(s, more, 1);
      ScanComposes(s[1..], more, at + 1);
      PlainComposes(s, more, at);
    } else {
      var n := OpenEnds(s);
      StraddlesBehind(s, more, n + 4);
      ScanComposes(s[n + 4..], more, at + n + 4);
      BlockComposes(s, more, at, n);
    }
  }

  lemma OpenEnds(s: string) returns (n: nat)
    requires Opens(s) && EndsOutside(s)
    ensures BodyLength(None, s[2..]) == Some(n) && n + 4 <= |s| && EndsOutside(s[n + 4..])
  {
    n := BodyLength(None, s[2..]).value;
  }

  lemma StraddlesBehind(s: string, more: string, k: nat)
    requires k <= |s| && !Straddles(s, more)
    ensures !Straddles(s[k..], more)
  {
  }

  lemma NothingComposes(more: string, at: nat)
    ensures Composes("", more, at)
  {
    assert "" + more == more;
    assert [] + Scan(more, at) == Scan(more, at);
  }

  lemma PlainComposes(s: string, more: string, at: nat)
    requires s != "" && !Opens(s) && !Straddles(s, more) && Composes(s[1..], more, at + 1)
    ensures Composes(s, more, at)
  {
    DropOfConcat(s, more, 1);
    assert (s + more)[0] == s[0];
    assert at + 1 + |s[1..]| == at + |s|;
  }

  lemma BlockComposes(s: string, more: string, at: nat, n: nat)
    requires Opens(s) && BodyLength(None, s[2..]) == Some(n) && n + 4 <= |s| && Composes(s[n + 4..], more, at + n + 4)
    ensures Composes(s, more, at)
  {
    BlockBefore(s, more, at, n);
    ScanOpen(s, at, n);
    assert at + n + 4 + |s[n + 4..]| == at + |s|;
    AppendBlocks(Block(at, at + n + 4, s[..n + 2][2..]), Scan(s[n + 4..], at + n + 4), Scan(more, at + |s|));
  }

  lemma BlockBefore(s: string, more: string, at: nat, n: nat)
    requires Opens(s) && BodyLength(None, s[2..]) == Some(n)
    ensures n + 4 <= |s|
    ensures Scan(s + more, at) == [Block(at, at + n + 4, s[..n + 2][2..])] + Scan(s[n + 4..] + more, at + n + 4)
  {
    DropOfConcat(s, more, 2);
    BodyLengthExtends(None, s[2..], more);
    ScanOpen(s + more, at, n);
    DropOfConcat(s, more, n + 2);
    DropOfConcat(s, more, n + 4);
  }

  lemma AppendBlocks(b: Block, xs: seq<Block>, ys: seq<Block>)
    ensures [b] + (xs + ys) == [b] + xs + ys
  {
  }

  function Shifted(blocks: seq<Block>, k: nat): seq<Block> {
    seq(|blocks|, j requires 0 <= j < |blocks| => Block(blocks[j].start + k, blocks[j].end + k, blocks[j].expr))
  }

  lemma ShiftedMore(b: Block, blocks: seq<Block>, k: nat)
    ensures Shifted([b] + blocks, k) == [Block(b.start + k, b.end + k, b.expr)] + Shifted(blocks, k)
  {
  }

  lemma BlockShifts(s: string, at: nat, k: nat, n: nat, behind: seq<Block>)
    requires Opens(s) && BodyLength(None, s[2..]) == Some(n)
    requires n + 4 <= |s| && Scan(s[n + 4..], at + n + 4 + k) == Shifted(behind, k)
    ensures Scan(s, at + k) == Shifted([Block(at, at + n + 4, s[..n + 2][2..])] + behind, k)
  {
    var body := s[..n + 2][2..];
    calc {
      Scan(s, at + k);
      { ScanOpen(s, at + k, n); }
      [Block(at + k, at + k + n + 4, body)] + Scan(s[n + 4..], at + k + n + 4);
      { assert at + k + n + 4 == at + n + 4 + k; }
      [Block(at + k, at + n + 4 + k, body)] + Shifted(behind, k);
      { ShiftedMore(Block(at, at + n + 4, body), behind, k); }
      Shifted([Block(at, at + n + 4, body)] + behind, k);
    }
  }

  lemma {:induction false} ScanShifts(s: string, at: nat, k: nat)
    ensures Scan(s, at + k) == Shifted(Scan(s, at), k)
    decreases |s|
  {
    if s != "" {
      if !Opens(s) {
        ScanShifts(s[1..], at + 1, k);
      } else {
        var close := BodyLength(None, s[2..]);
        if close.Some? {
          var n := close.value;
          ScanOpen(s, at, n);
          ScanShifts(s[n + 4..], at + n + 4, k);
          BlockShifts(s, at, k, n, Scan(s[n + 4..], at + n + 4));
        }
      }
    }
  }

  lemma {:induction false} TemplatesCompose(t1: string, t2: string)
    requires EndsOutside(t1) && !Straddles(t1, t2)
    ensures TemplateBlocks(t1 + t2) == TemplateBlocks(t1) + Shifted(TemplateBlocks(t2), |t1|)
  {
    ScanComposes(t1, t2, 0);
    ScanShifts(t2, 0, |t1|);
  }

  // Agreement of the two scanners

  /** How many characters a step inside a string takes. */
  function Stride(s: string): nat {
    if s != "" && s[0] == '\\' then 2 else 1
  }

  lemma QuotedStep(quote: char, s: string)
    requires IsQuote(quote) && Stride(s) <= |s|
    ensures s[0] == quote ==> BodyLength(Some(quote), s) == Further(1, BodyLength(None, s[1..]))
    ensures s[0] != quote ==> BodyLength(Some(quote), s) == Further(Stride(s), BodyLength(Some(quote), s[Stride(s)..]))
  {
  }

  lemma StringStep(quote: char, s: string)
    requires IsQuote(quote) && StringBody(quote, s).Some?
    ensures Stride(s) <= |s|
    ensures s[0] != quote ==>
              && StringBody(quote, s[Stride(s)..]).Some?
              && StringBody(quote, s).value.1 == Stride(s) + StringBody(quote, s[Stride(s)..]).value.1
  {
  }

  /** The block scanner, inside quotes, is behind them `n` characters later. */
  ghost predicate QuotePasses(quote: char, s: string, more: string, n: nat) {
    n <= |s| && BodyLength(Some(quote), s + more) == Further(n, BodyLength(None, s[n..] + more))
  }

  lemma QuoteEnds(quote: char, s: string, more: string)
    requires IsQuote(quote) && s != "" && s[0] == quote
    ensures QuotePasses(quote, s, more, 1)
  {
    QuotedStep(quote, s + more);
    DropOfConcat(s, more, 1);
  }

  lemma QuoteGoesOn(quote: char, s: string, more: string, k: nat, n: nat)
    requires IsQuote(quote) && s != "" && s[0] != quote && k == Stride(s) <= |s| && QuotePasses(quote, s[k..], more, n)
    ensures QuotePasses(quote, s, more, k + n)
  {
    QuotedStep(quote, s + more);
    DropOfConcat(s, more, k);
    assert s[k..][n..] == s[k + n..];
  }

  /** Inside a string both scanners stop at the same closing quote. */
  lemma {:induction false} StringsAgree(quote: char, s: string, more: string)
    requires IsQuote(quote) && StringBody(quote, s).Some?
    ensures QuotePasses(quote, s, more, StringBody(quote, s).value.1)
    decreases |s|
  {
    StringStep(quote, s);
    if s[0] == quote {
      QuoteEnds(quote, s, more);
    } else {
      StringsAgree(quote, s[Stride(s)..], more);
      QuoteGoesOn(quote, s, more, Stride(s), StringBody(quote, s[Stride(s)..]).value.1);
    }
  }

  /** No character that means something to the block scanner. */
  predicate NoBraces(s: string) {
    forall j | 0 <= j < |s| :: !IsQuote(s[j]) && s[j] != '}' && s[j] != '{'
  }

  lemma {:induction false} PlainAgrees(s: string, more: string)
    requires NoBraces(s)
    ensures PassesOver(s, more)
    decreases |s|
  {
    if s == "" {
      assert s + more == more;
    } else {
      DropOfConcat(s, more, 1);
      PlainAgrees(s[1..], more);
      PassMore(1, s, more);
    }
  }

  /** The block scanner passes over `s`, whatever it finds behind it. */
  ghost predicate PassesOver(s: string, more: string) {
    BodyLength(None, s + more) == Further(|s|, BodyLength(None, more))
  }

  lemma PassMore(k: nat, s: string, more: string)
    requires k <= |s| && BodyLength(None, s + more) == Further(k, BodyLength(None, s[k..] + more))
    requires PassesOver(s[k..], more)
    ensures PassesOver(s, more)
  {
  }

  lemma QuoteAgrees(s: string, more: string)
    requires s != "" && IsQuote(s[0]) && NextStep(s).Read?
    ensures var n := NextStep(s).length; BodyLength(None, s + more) == Further(n, BodyLength(None, s[n..] + more))
  {
    var n := NextStep(s).length;
    StringsAgree(s[0], s[1..], more);
    DropOfConcat(s, more, 1);
    assert s[1..][n - 1..] == s[n..];
  }

  lemma StepIsPlain(s: string)
    requires s != "" && !IsQuote(s[0]) && NextStep(s).Read?
    ensures NoBraces(s[..NextStep(s).length])
  {
    StepUsesTokenChars(s);
    forall j | 0 <= j < NextStep(s).length ensures !IsQuote(s[j]) && s[j] != '}' && s[j] != '{' {
      TokenCharsAreNoBraces(s[j]);
    }
  }

  lemma TokenCharsAreNoBraces(c: char)
    requires IsIdentPart(c) || IsNumberChar(c) || IsOperatorChar(c) || c == '$'
    ensures !IsQuote(c) && c != '}' && c != '{'
  {
  }

  /** The block scanner passes over what one lexer step reads. */
  lemma {:induction false} StepsAgree(s: string, more: string)
    requires s != "" && NextStep(s).Read?
    ensures var n := NextStep(s).length; BodyLength(None, s + more) == Further(n, BodyLength(None, s[n..] + more))
  {
    if IsQuote(s[0]) {
      QuoteAgrees(s, more);
    } else {
      var n := NextStep(s).length;
      StepIsPlain(s);
      PlainAgrees(s[..n], s[n..] + more);
      assert s + more == s[..n] + (s[n..] + more);
    }
  }

  lemma SpaceAgrees(s: string, more: string)
    requires s != "" && IsSpace(s[0])
    ensures BodyLength(None, s + more) == Further(1, BodyLength(None, s[1..] + more))
  {
    DropOfConcat(s, more, 1);
  }

  /** A source the lexer accepts never closes a block early. */
  lemma {:induction false} LexedSourcePasses(src: string, at: nat, more: string)
    requires Lex(src, at).Success?
    ensures PassesOver(src, more)
    decreases |src|
  {
    if src == "" {
      assert src + more == more;
    } else {
      match NextStep(src)
      case Skip =>
        SpaceAgrees(src, more);
        LexedSourcePasses(src[1..], at + 1, more);
        PassMore(1, src, more);
      case Read(_, n) =>
        StepsAgree(src, more);
        LexedSourcePasses(src[n..], at + n, more);
        PassMore(n, src, more);
      case Fail(_) =>
    }
  }

  /** Between braces, such a source is exactly one block, whatever follows. */
  lemma {:induction false} SourceIsOneBlock(src: string, at: nat, more: string)
    requires Lex(src, 0).Success?
    ensures Scan("{{" + src + "}}" + more, at) == [Block(at, at + |src| + 4, src)] + Scan(more, at + |src| + 4)
  {
    var t := BlockText(src, more);
    LexedSourcePasses(src, 0, "}}" + more);
    assert BodyLength(None, "}}" + more) == Some(0);
    ScanOpen(t, at, |src|);
  }

  lemma BlockText(src: string, more: string) returns (t: string)
    ensures t == "{{" + src + "}}" + more && Opens(t) && Closes("}}" + more)
    ensures t[2..] == src + ("}}" + more) && t[..|src| + 2][2..] == src && t[|src| + 4..] == more
  {
    t := "{{" + (src + ("}}" + more));
    assert "{{" + src + "}}" + more == t;
  }

  /** A lone block around a source the lexer accepts has the raw value of that source. */
  lemma {:induction false} LoneBlockIsRaw(rt: Runtime, src: string, scope: Scope)
    requires Lex(src, 0).Success?
    ensures TemplateBlocks("{{" + src + "}}") == [Block(0, |src| + 4, src)]
    ensures Interpolated(rt, "{{" + src + "}}", scope) == EvaluateExpression(rt, src, scope)
  {
    var t := "{{" + src + "}}";
    assert t == t + "";
    SourceIsOneBlock(src, 0, "");
    assert TemplateBlocks(t) == [Block(0, |src| + 4, src)];
    assert t[..0] == "" && t[|src| + 4..] == "";
  }
}
