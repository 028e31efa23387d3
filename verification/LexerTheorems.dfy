/** The lexer inverts a printer of tokens, returns only tokens that can be printed, and skips only spaces. */
module LexerTheorems {
  import opened Results
  import opened Syntax
  import opened Tokenizer

  // Rendering

  /** The characters of a string literal between quotes `q`. */
  function Escaped(q: char, text: string): string {
    if text == [] then ""
    else (if text[0] == '\\' || text[0] == q then ['\\', text[0]] else [text[0]]) + Escaped(q, text[1..])
  }

  function Text(q: char, k: Kind): string {
    match k
    case Number(lexeme) => lexeme
    case Ident(name) => name
    case Str(text) => [q] + Escaped(q, text) + [q]
    case _ => Spelling(k)
  }

  /** Tokens separated by single spaces. */
  function Render(q: char, ks: seq<Kind>): string {
    if ks == [] then "" else Text(q, ks[0]) + " " + Render(q, ks[1..])
  }

  predicate IsNumber(lexeme: string) {
    lexeme != "" && (IsDigit(lexeme[0]) || (lexeme[0] == '.' && DigitAt(lexeme, 1)))
    && NumberEnd(lexeme, 0) == Success(|lexeme|)
  }

  predicate IsName(name: string) {
    name != "" && IsIdentStart(name[0]) && forall i | 1 <= i < |name| :: IsIdentPart(name[i])
  }

  /** The tokens the lexer can produce. */
  predicate Legal(k: Kind) {
    match k
    case Number(lexeme) => IsNumber(lexeme)
    case Ident(name) => IsName(name)
    case Eof => false
    case _ => true
  }

  lemma {:induction false} StringInverts(q: char, text: string, rest: string)
    requires IsQuote(q)
    ensures StringBody(q, Escaped(q, text) + [q] + rest) == Some((text, |Escaped(q, text)| + 1))
  {
    var s := Escaped(q, text) + [q] + rest;
    if text != [] {
      StringInverts(q, text[1..], rest);
      var tail := Escaped(q, text[1..]) + [q] + rest;
      assert [text[0]] + text[1..] == text;
      if text[0] == '\\' || text[0] == q {
        assert s == ['\\', text[0]] + tail;
        assert s[2..] == tail;
        Unescaped(text[0], q);
      } else {
        assert s == [text[0]] + tail;
        assert s[1..] == tail;
      }
    }
  }

  lemma Unescaped(c: char, q: char)
    requires IsQuote(q) && (c == '\\' || c == q)
    ensures Unescape(c) == c && c != 'n'
  {
  }

  lemma {:induction false} DigitsEndBeforeSpace(s: string, rest: string, i: nat)
    requires i <= |s|
    ensures DigitsEnd(s + " " + rest, i) == DigitsEnd(s, i)
    decreases |s| - i
  {
    if DigitAt(s, i) {
      DigitsEndBeforeSpace(s, rest, i + 1);
    }
  }

  lemma {:induction false} NumberEndBeforeSpace(lexeme: string, rest: string)
    requires IsNumber(lexeme)
    ensures NumberEnd(lexeme + " " + rest, 0) == Success(|lexeme|)
  {
    var s := lexeme + " " + rest;
    forall i: nat | i <= |lexeme| ensures DigitsEnd(s, i) == DigitsEnd(lexeme, i) {
      DigitsEndBeforeSpace(lexeme, rest, i);
    }
    var whole := WholeEnd(lexeme, 0);
    assert WholeEnd(s, 0) == whole;
    var fraction := FractionEnd(lexeme, whole);
    assert FractionEnd(s, whole) == fraction;
    assert ExponentEnd(s, fraction) == ExponentEnd(lexeme, fraction);
  }

  lemma {:induction false} IdentRunBeforeSpace(s: string, rest: string)
    requires forall i | 0 <= i < |s| :: IsIdentPart(s[i])
    ensures IdentRun(s + " " + rest) == |s|
  {
    var t := s + " " + rest;
    if s == "" {
      assert t[0] == ' ';
    } else {
      IdentRunBeforeSpace(s[1..], rest);
      assert t[1..] == s[1..] + " " + rest;
    }
  }

  lemma OperatorBeforeSpace(k: Kind, rest: string)
    requires Legal(k) && !k.Number? && !k.Str? && !k.Ident?
    ensures NextStep(Spelling(k) + " " + rest) == Read(k, |Spelling(k)|)
  {
    if |Spelling(k)| == 1 {
      ShortBeforeSpace(k, rest);
    } else {
      LongBeforeSpace(k, rest);
    }
  }

  lemma ShortBeforeSpace(k: Kind, rest: string)
    requires Legal(k) && !k.Number? && !k.Str? && !k.Ident? && |Spelling(k)| == 1
    ensures NextStep(Spelling(k) + " " + rest) == Read(k, 1)
  {
    var s := Spelling(k) + " " + rest;
    assert s[0] == Spelling(k)[0] && s[1] == ' ';
  }

  lemma LongBeforeSpace(k: Kind, rest: string)
    requires Legal(k) && !k.Number? && !k.Str? && !k.Ident? && |Spelling(k)| != 1
    ensures NextStep(Spelling(k) + " " + rest) == Read(k, |Spelling(k)|)
  {
    var s := Spelling(k) + " " + rest;
    assert s[0] == Spelling(k)[0] && s[1] == Spelling(k)[1];
    assert |Spelling(k)| == 2 ==> s[2] == ' ';
    assert |Spelling(k)| == 3 ==> s[..3] == Spelling(k);
  }

  lemma RenderedNumber(lexeme: string, rest: string)
    requires IsNumber(lexeme)
    ensures NextStep(lexeme + " " + rest) == Read(Number(lexeme), |lexeme|)
  {
    var s := lexeme + " " + rest;
    NumberEndBeforeSpace(lexeme, rest);
    assert s[..|lexeme|] == lexeme;
    assert s[0] == lexeme[0] && (s[0] == '.' ==> DigitAt(s, 1));
  }

  lemma RenderedIdent(name: string, rest: string)
    requires IsName(name)
    ensures NextStep(name + " " + rest) == Read(Ident(name), |name|)
  {
    var s := name + " " + rest;
    IdentRunBeforeSpace(name[1..], rest);
    assert s[1..] == name[1..] + " " + rest;
    assert s[..|name|] == name;
  }

  /** A legal token, rendered and followed by a space, is read back whole. */
  lemma {:induction false} RenderedString(q: char, text: string, rest: string)
    requires IsQuote(q)
    ensures NextStep(Text(q, Str(text)) + " " + rest) == Read(Str(text), |Text(q, Str(text))|)
  {
    var s := QuotedShape(q, Escaped(q, text), rest);
    StringInverts(q, text, " " + rest);
  }

  lemma QuotedShape(q: char, body: string, rest: string) returns (s: string)
    ensures s == [q] + body + [q] + " " + rest && s[0] == q && s[1..] == body + [q] + (" " + rest)
  {
    s := [q] + body + [q] + " " + rest;
  }

  lemma {:induction false} RenderedStep(q: char, k: Kind, rest: string)
    requires IsQuote(q) && Legal(k)
    ensures NextStep(Text(q, k) + " " + rest) == Read(k, |Text(q, k)|)
  {
    if k.Number? {
      RenderedNumber(k.lexeme, rest);
    } else if k.Ident? {
      RenderedIdent(k.name, rest);
    } else if k.Str? {
      RenderedString(q, k.text, rest);
    } else {
      OperatorBeforeSpace(k, rest);
    }
  }

  /** Reading one token and one space, as an equation on `Lex`. */
  lemma LexTokenAndSpace(k: Kind, text: string, rest: string, at: nat)
    requires text != "" && NextStep(text + " " + rest) == Read(k, |text|)
    ensures Lex(text + " " + rest, at) == PutBefore([Token(k, at)], Lex(rest, at + |text| + 1))
  {
    assert (text + " " + rest)[|text|..] == " " + rest;
    assert (" " + rest)[1..] == rest;
  }

  /** Tokenizing rendered tokens returns them. */
  lemma {:induction false} LexRendered(q: char, ks: seq<Kind>, at: nat)
    requires IsQuote(q) && forall k <- ks :: Legal(k)
    ensures Lex(Render(q, ks), at).Success? && Kinds(Lex(Render(q, ks), at).value) == ks
    decreases ks
  {
    if ks != [] {
      var text, rest := Text(q, ks[0]), Render(q, ks[1..]);
      RenderedStep(q, ks[0], rest);
      LexRendered(q, ks[1..], at + |text| + 1);
      LexTokenAndSpace(ks[0], text, rest, at);
      KindsOfMore(Token(ks[0], at), Lex(rest, at + |text| + 1).value);
    }
  }

  lemma KindsOfMore(t: Token, tokens: seq<Token>)
    ensures Kinds([t] + tokens) == [t.kind] + Kinds(tokens)
    ensures Kinds(tokens + [t]) == Kinds(tokens) + [t.kind]
  {
  }

  /** The same for the whole lexer: within its two limits it returns the tokens and the end marker. */
  lemma {:induction false} LexerRoundTrip(q: char, ks: seq<Kind>)
    requires IsQuote(q) && forall k <- ks :: Legal(k)
    requires |Render(q, ks)| <= MAX_SOURCE_LENGTH && |ks| < MAX_TOKENS
    ensures Tokens(Render(q, ks)).Success? && Kinds(Tokens(Render(q, ks)).value) == ks + [Eof]
  {
    LexRendered(q, ks, 0);
    KindsOfMore(Token(Eof, |Render(q, ks)|), Lex(Render(q, ks), 0).value);
  }

  // What the lexer returns

  lemma {:induction false} DigitsEndTruncated(s: string, n: nat, i: nat)
    requires i <= |s| && DigitsEnd(s, i) <= n <= |s|
    ensures DigitsEnd(s[..n], i) == DigitsEnd(s, i)
    decreases |s| - i
  {
    if DigitAt(s, i) {
      DigitsEndTruncated(s, n, i + 1);
    }
  }

  /** A number token contains everything the lexer looked at to find its end. */
  lemma {:induction false} NumberEndTruncated(s: string, n: nat)
    requires s != "" && (IsDigit(s[0]) || s[0] == '.') && NumberEnd(s, 0) == Success(n)
    ensures NumberEnd(s[..n], 0) == Success(n)
  {
    var t := s[..n];
    forall i: nat | i <= |s| && DigitsEnd(s, i) <= n ensures DigitsEnd(t, i) == DigitsEnd(s, i) {
      DigitsEndTruncated(s, n, i);
    }
    var whole := WholeEnd(s, 0);
    assert WholeEnd(t, 0) == whole;
    var fraction := FractionEnd(s, whole);
    assert FractionEnd(t, whole) == fraction;
    assert ExponentEnd(t, fraction) == Success(n);
  }

  predicate IsNumberChar(c: char) {
    IsDigit(c) || c == '.' || c == 'e' || c == 'E' || c == '+' || c == '-'
  }

  lemma {:induction false} DigitsAreDigits(s: string, i: nat)
    requires i <= |s|
    ensures forall j | i <= j < DigitsEnd(s, i) :: IsDigit(s[j])
    decreases |s| - i
  {
    if DigitAt(s, i) {
      DigitsAreDigits(s, i + 1);
    }
  }

  lemma {:induction false} NumbersUseNumberChars(s: string)
    requires s != "" && (IsDigit(s[0]) || s[0] == '.') && NumberEnd(s, 0).Success?
    ensures forall j | 0 <= j < NumberEnd(s, 0).value :: IsNumberChar(s[j])
  {
    DigitsAreDigits(s, if s[0] == '.' then 1 else 0);
    var whole := WholeEnd(s, 0);
    var fraction := FractionEnd(s, whole);
    if fraction != whole {
      DigitsAreDigits(s, whole + 1);
    }
    if NumberEnd(s, 0).value != fraction {
      var signed := CharAt(s, fraction + 1, '+') || CharAt(s, fraction + 1, '-');
      DigitsAreDigits(s, if signed then fraction + 2 else fraction + 1);
    }
  }

  lemma {:induction false} IdentRunIsIdent(s: string)
    ensures forall i | 0 <= i < IdentRun(s) :: IsIdentPart(s[i])
  {
    if s != "" && IsIdentPart(s[0]) {
      IdentRunIsIdent(s[1..]);
      forall i | 0 <= i < IdentRun(s) ensures IsIdentPart(s[i]) {
        if i > 0 {
          assert s[i] == s[1..][i - 1];
        }
      }
    }
  }

  predicate IsOperatorChar(c: char) {
    c == '(' || c == ')' || c == '[' || c == ']' || c == ',' || c == '?' || c == ':' || c == '.' || c == '!'
    || c == '+' || c == '-' || c == '*' || c == '/' || c == '%' || c == '<' || c == '>' || c == '=' || c == '|'
    || c == '&'
  }

  lemma OperatorsUseOperatorChars(s: string)
    requires OperatorAt(s).Some?
    ensures forall j | 0 <= j < OperatorAt(s).value.1 :: IsOperatorChar(s[j])
  {
    if ThreeAt(s).Some? {
      assert forall j | 0 <= j < 3 :: s[..3][j] == s[j];
    }
  }

  /** What a token other than a string is made of. */
  lemma {:induction false} StepUsesTokenChars(s: string)
    requires s != "" && !IsQuote(s[0]) && NextStep(s).Read?
    ensures forall j | 0 <= j < NextStep(s).length :: IsIdentPart(s[j]) || IsNumberChar(s[j]) || IsOperatorChar(s[j])
                                                      || (j == 0 && s[j] == '$')
  {
    var n := NextStep(s).length;
    if NextStep(s).kind.Number? {
      NumbersUseNumberChars(s);
    } else if NextStep(s).kind.Ident? {
      IdentRunIsIdent(s[1..]);
      forall j | 1 <= j < n ensures IsIdentPart(s[j]) {
        assert s[j] == s[1..][j - 1];
      }
    } else {
      OperatorsUseOperatorChars(s);
    }
  }

  lemma {:induction false} StepIsLegal(s: string)
    requires s != "" && NextStep(s).Read?
    ensures Legal(NextStep(s).kind)
  {
    var n := NextStep(s).length;
    if NextStep(s).kind.Number? {
      NumberEndTruncated(s, n);
      assert s[..n][0] == s[0];
      assert s[0] == '.' ==> DigitAt(s[..n], 1);
    } else if NextStep(s).kind.Ident? {
      IdentRunIsIdent(s[1..]);
      forall i | 1 <= i < n ensures IsIdentPart(s[..n][i]) {
        assert s[..n][i] == s[1..][i - 1];
      }
    }
  }

  lemma {:induction false} LexIsLegal(s: string, at: nat)
    requires Lex(s, at).Success?
    ensures forall k <- Kinds(Lex(s, at).value) :: Legal(k)
    decreases |s|
  {
    if s != "" {
      match NextStep(s)
      case Skip => LexIsLegal(s[1..], at + 1);
      case Read(kind, n) =>
        StepIsLegal(s);
        LexIsLegal(s[n..], at + n);
        KindsOfMore(Token(kind, at), Lex(s[n..], at + n).value);
      case Fail(_) =>
    }
  }

  /** Lexing, rendering and lexing again changes nothing but the layout. */
  lemma {:induction false} RelexIsStable(q: char, src: string)
    requires IsQuote(q) && Lex(src, 0).Success?
    ensures var ks := Kinds(Lex(src, 0).value);
            Lex(Render(q, ks), 0).Success? && Kinds(Lex(Render(q, ks), 0).value) == ks
  {
    LexIsLegal(src, 0);
    LexRendered(q, Kinds(Lex(src, 0).value), 0);
  }

  // Where the tokens lie

  /** The columns `start <= c < end` a token occupies. */
  datatype Span = Span(start: nat, end: nat)

  function Spans(s: string, at: nat): seq<Span> {
    if s == "" then []
    else
      match NextStep(s)
      case Skip => Spans(s[1..], at + 1)
      case Fail(_) => []
      case Read(_, n) => [Span(at, at + n)] + Spans(s[n..], at + n)
  }

  lemma {:induction false} SpanPerToken(s: string, at: nat)
    requires Lex(s, at).Success?
    ensures |Spans(s, at)| == |Lex(s, at).value|
    decreases |s|
  {
    if s != "" {
      match NextStep(s)
      case Skip => SpanPerToken(s[1..], at + 1);
      case Read(kind, n) =>
        SpanPerToken(s[n..], at + n);
        OneLonger(Span(at, at + n), Spans(s[n..], at + n), Token(kind, at), Lex(s[n..], at + n).value);
      case Fail(_) =>
    }
  }

  lemma OneLonger(span: Span, spans: seq<Span>, token: Token, tokens: seq<Token>)
    requires |spans| == |tokens|
    ensures |[span] + spans| == |[token] + tokens|
  {
  }

  /** Token `t` starts where `span` starts and is exactly what one step reads there. */
  predicate Fills(s: string, at: nat, t: Token, span: Span) {
    at <= t.start == span.start < span.end <= at + |s|
    && NextStep(s[t.start - at..]) == Read(t.kind, span.end - span.start)
  }

  lemma FillsAfter(s: string, at: nat, n: nat, t: Token, span: Span)
    requires n <= |s| && Fills(s[n..], at + n, t, span)
    ensures Fills(s, at, t, span)
  {
    assert s[n..][t.start - (at + n)..] == s[t.start - at..];
  }

  lemma {:induction false} TokensFillSpans(s: string, at: nat, j: nat)
    requires Lex(s, at).Success? && j < |Lex(s, at).value|
    ensures j < |Spans(s, at)| && Fills(s, at, Lex(s, at).value[j], Spans(s, at)[j])
    decreases |s|
  {
    SpanPerToken(s, at);
    match NextStep(s)
    case Skip =>
      TokensFillSpans(s[1..], at + 1, j);
      FillsAfter(s, at, 1, Lex(s, at).value[j], Spans(s, at)[j]);
    case Read(kind, n) =>
      if j == 0 {
        assert s[0..] == s;
        assert Fills(s, at, Token(kind, at), Span(at, at + n));
      } else {
        var t, span := Lex(s[n..], at + n).value[j - 1], Spans(s[n..], at + n)[j - 1];
        TokensFillSpans(s[n..], at + n, j - 1);
        FillsAfter(s, at, n, t, span);
      }
    case Fail(_) =>
  }

  /** Position `p` of the text that stands at column `at` is a space or lies in a span. */
  ghost predicate Covered(spans: seq<Span>, s: string, at: nat, p: nat)
    requires p < |s|
  {
    IsSpace(s[p]) || exists span <- spans :: span.start <= at + p < span.end
  }

  /** The spans are disjoint and increase, and outside of them there are only spaces. */
  ghost predicate Tiling(spans: seq<Span>, s: string, at: nat) {
    && (forall span <- spans :: at <= span.start < span.end <= at + |s|)
    && (forall j, k | 0 <= j < k < |spans| :: spans[j].end <= spans[k].start)
    && (forall p: nat | p < |s| :: Covered(spans, s, at, p))
  }

  lemma {:induction false} SpansTile(s: string, at: nat)
    requires Lex(s, at).Success?
    ensures Tiling(Spans(s, at), s, at)
    decreases |s|
  {
    if s != "" {
      SpansStep(s, at);
      var n := if NextStep(s).Read? then NextStep(s).length else 1;
      SpansTile(s[n..], at + n);
      LongerTiling(if NextStep(s).Read? then [Span(at, at + n)] else [], Spans(s[n..], at + n), Spans(s, at), s, at, n);
    }
  }

  /** The first span, if the text starts with a token, and the spans behind it. */
  lemma SpansStep(s: string, at: nat)
    requires s != "" && Lex(s, at).Success?
    ensures var n := if NextStep(s).Read? then NextStep(s).length else 1;
            && Lex(s[n..], at + n).Success? && (!NextStep(s).Read? ==> IsSpace(s[0]))
            && Spans(s, at) == (if NextStep(s).Read? then [Span(at, at + n)] else []) + Spans(s[n..], at + n)
  {
  }

  lemma {:induction false} LongerTiling(first: seq<Span>, others: seq<Span>, spans: seq<Span>, s: string, at: nat,
                                        n: nat)
    requires 1 <= n <= |s| && Tiling(others, s[n..], at + n) && spans == first + others
    requires first == [Span(at, at + n)] || (first == [] && n == 1 && IsSpace(s[0]))
    ensures Tiling(spans, s, at)
  {
    forall p: nat | p < |s| ensures Covered(spans, s, at, p) {
      if p < n {
        assert first != [] ==> spans[0] == Span(at, at + n);
      } else {
        assert Covered(others, s[n..], at + n, p - n);
        if !IsSpace(s[p]) {
          var span :| span in others && span.start <= at + p < span.end;
          assert span in spans;
        }
      }
    }
  }
}
