/** The hand-written lexer: what one step reads, and the scanning loops. */
module Tokenizer {
  import opened Results
  import opened Syntax

  const MAX_SOURCE_LENGTH := 8000
  const MAX_TOKENS := 500

  predicate IsSpace(c: char) {
    c == ' ' || c == '\t' || c == '\n' || c == '\r'
  }

  predicate IsDigit(c: char) {
    '0' <= c <= '9'
  }

  predicate IsIdentPart(c: char) {
    ('A' <= c <= 'Z') || ('a' <= c <= 'z') || IsDigit(c) || c == '_'
  }

  predicate IsIdentStart(c: char) {
    c == '$' || (IsIdentPart(c) && !IsDigit(c))
  }

  predicate IsQuote(c: char) {
    c == '\'' || c == '"'
  }

  predicate DigitAt(s: string, i: nat) {
    i < |s| && IsDigit(s[i])
  }

  /** The character an escape stands for. */
  function Unescape(c: char): char {
    if c == 'n' then '\n' else if c == 't' then '\t' else if c == 'r' then '\r' else c
  }

  /** The text and length of a string whose first `k` characters stand for `text`. */
  function Before(text: string, k: nat, r: Option<(string, nat)>): Option<(string, nat)> {
    match r
    case None => None
    case Some((more, n)) => Some((text + more, k + n))
  }

  /** The text after an opening quote, up to and including the closing one: its value and length. */
  function StringBody(quote: char, s: string): (r: Option<(string, nat)>)
    ensures r.Some? ==> 1 <= r.value.1 <= |s|
  {
    if s == [] then None
    else if s[0] == quote then Some(("", 1))
    else if s[0] == '\\' then
      if |s| == 1 then None else Before([Unescape(s[1])], 2, StringBody(quote, s[2..]))
    else Before([s[0]], 1, StringBody(quote, s[1..]))
  }

  /** Behind the digits at `i`. */
  function DigitsEnd(s: string, i: nat): (end: nat)
    requires i <= |s|
    ensures i <= end <= |s| && (DigitAt(s, i) ==> i < end)
    decreases |s| - i
  {
    if DigitAt(s, i) then DigitsEnd(s, i + 1) else i
  }

  /** How many leading characters may continue an identifier. */
  function IdentRun(s: string): (n: nat)
    ensures n <= |s|
  {
    if s != [] && IsIdentPart(s[0]) then 1 + IdentRun(s[1..]) else 0
  }

  predicate CharAt(s: string, i: nat, c: char) {
    i < |s| && s[i] == c
  }

  /** Behind the integer part, or behind a leading dot and its digits. */
  function WholeEnd(s: string, i: nat): (end: nat)
    requires i < |s|
    ensures i <= end <= |s| && (DigitAt(s, i) || s[i] == '.' ==> i < end)
  {
    DigitsEnd(s, if s[i] == '.' then i + 1 else i)
  }

  /** Behind a dot with a digit after it and all digits that follow. */
  function FractionEnd(s: string, i: nat): (end: nat)
    requires i <= |s|
    ensures i <= end <= |s|
  {
    if CharAt(s, i, '.') && DigitAt(s, i + 1) then DigitsEnd(s, i + 1) else i
  }

  /** Behind `e` or `E`, an optional sign and at least one digit. */
  function ExponentEnd(s: string, i: nat): (r: Result<nat, Reason>)
    requires i <= |s|
    ensures r.Success? ==> i <= r.value <= |s|
  {
    if !CharAt(s, i, 'e') && !CharAt(s, i, 'E') then Success(i)
    else
      var digits := if CharAt(s, i + 1, '+') || CharAt(s, i + 1, '-') then i + 2 else i + 1;
      if DigitAt(s, digits) then Success(DigitsEnd(s, digits)) else Failure(InvalidExponent)
  }

  /** Behind the number that starts at `i`. */
  function NumberEnd(s: string, i: nat): (r: Result<nat, Reason>)
    requires i < |s|
    ensures r.Success? ==> i <= r.value <= |s| && (DigitAt(s, i) || s[i] == '.' ==> i < r.value)
  {
    if s[i] == '.' && !DigitAt(s, i + 1) then Failure(InvalidNumber)
    else ExponentEnd(s, FractionEnd(s, WholeEnd(s, i)))
  }

  /** Three-character operators first, then two, then one. */
  function OperatorAt(s: string): (r: Option<(Kind, nat)>)
    ensures r.Some? ==> 1 <= r.value.1 <= |s|
  {
    match ThreeAt(s)
    case Some(k) => Some((k, 3))
    case None =>
      match TwoAt(s)
      case Some(k) => Some((k, 2))
      case None =>
        match OneAt(s)
        case Some(k) => Some((k, 1))
        case None => None
  }

  function ThreeAt(s: string): (r: Option<Kind>)
    ensures r.Some? ==> |s| >= 3
  {
    if |s| >= 3 && s[..3] == "===" then Some(EqEqEq)
    else if |s| >= 3 && s[..3] == "!==" then Some(BangEqEq)
    else None
  }

  function TwoAt(s: string): (r: Option<Kind>)
    ensures r.Some? ==> |s| >= 2
  {
    if |s| < 2 then None
    else if s[0] == '?' && s[1] == '.' then Some(QDot)
    else if s[0] == '?' && s[1] == '?' then Some(QQ)
    else if s[0] == '|' && s[1] == '|' then Some(OrOr)
    else if s[0] == '&' && s[1] == '&' then Some(AndAnd)
    else if s[0] == '=' && s[1] == '=' then Some(EqEq)
    else if s[0] == '!' && s[1] == '=' then Some(BangEq)
    else if s[0] == '<' && s[1] == '=' then Some(LtEq)
    else if s[0] == '>' && s[1] == '=' then Some(GtEq)
    else None
  }

  function OneAt(s: string): (r: Option<Kind>)
    ensures r.Some? ==> |s| >= 1
  {
    if s == [] then None
    else if s[0] == '(' then Some(LParen)
    else if s[0] == ')' then Some(RParen)
    else if s[0] == '[' then Some(LBracket)
    else if s[0] == ']' then Some(RBracket)
    else if s[0] == ',' then Some(Comma)
    else if s[0] == '?' then Some(Question)
    else if s[0] == ':' then Some(Colon)
    else if s[0] == '.' then Some(Dot)
    else if s[0] == '!' then Some(Bang)
    else if s[0] == '+' then Some(Plus)
    else if s[0] == '-' then Some(Minus)
    else if s[0] == '*' then Some(Star)
    else if s[0] == '/' then Some(Slash)
    else if s[0] == '%' then Some(Percent)
    else if s[0] == '<' then Some(Less)
    else if s[0] == '>' then Some(Greater)
    else None
  }

  /** One round of the lexer: skip a space, read a token of `length` characters, or fail. */
  datatype Step = Skip | Read(kind: Kind, length: nat) | Fail(reason: Reason)

  function NextStep(s: string): (step: Step)
    requires s != []
    ensures step.Read? ==> 1 <= step.length <= |s|
  {
    if IsSpace(s[0]) then Skip
    else if IsQuote(s[0]) then
      match StringBody(s[0], s[1..])
      case Some((text, n)) => Read(Str(text), n + 1)
      case None => Fail(UnterminatedString)
    else if IsDigit(s[0]) || (s[0] == '.' && DigitAt(s, 1)) then
      match NumberEnd(s, 0)
      case Success(n) => Read(Number(s[..n]), n)
      case Failure(reason) => Fail(reason)
    else if IsIdentStart(s[0]) then
      var n := 1 + IdentRun(s[1..]);
      Read(Ident(s[..n]), n)
    else
      match OperatorAt(s)
      case Some((kind, n)) => Read(kind, n)
      case None => Fail(UnexpectedCharacter(s[0]))
  }

  function PutBefore(tokens: seq<Token>, r: Result<seq<Token>, Error>): Result<seq<Token>, Error> {
    match r
    case Success(more) => Success(tokens + more)
    case Failure(e) => Failure(e)
  }

  /** The tokens of `s`, which stands at column `at`; no end marker. */
  function Lex(s: string, at: nat): Result<seq<Token>, Error> {
    if s == [] then Success([])
    else
      match NextStep(s)
      case Skip => Lex(s[1..], at + 1)
      case Fail(reason) => Failure(Error(reason, Some(at)))
      case Read(kind, n) => PutBefore([Token(kind, at)], Lex(s[n..], at + n))
  }

  /** The whole lexer, with its two limits. */
  function Tokens(src: string): Result<seq<Token>, Error> {
    if |src| > MAX_SOURCE_LENGTH then Failure(Error(TooLong, None))
    else
      var tokens :- Lex(src, 0);
      if |tokens| + 1 > MAX_TOKENS then Failure(Error(TooManyTokens, None))
      else Success(tokens + [Token(Eof, |src|)])
  }

  lemma BeforeNothing(r: Option<(string, nat)>)
    ensures Before("", 0, r) == r
  {
    if r.Some? {
      assert "" + r.value.0 == r.value.0;
    }
  }

  lemma PutNothingBefore(r: Result<seq<Token>, Error>)
    ensures PutBefore([], r) == r
  {
    if r.Success? {
      assert [] + r.value == r.value;
    }
  }

  lemma BeforeTwice(text1: string, k1: nat, text2: string, k2: nat, r: Option<(string, nat)>)
    ensures Before(text1, k1, Before(text2, k2, r)) == Before(text1 + text2, k1 + k2, r)
  {
    if r.Some? {
      assert text1 + (text2 + r.value.0) == text1 + text2 + r.value.0;
    }
  }

  lemma PutBeforeTwice(tokens1: seq<Token>, tokens2: seq<Token>, r: Result<seq<Token>, Error>)
    ensures PutBefore(tokens1, PutBefore(tokens2, r)) == PutBefore(tokens1 + tokens2, r)
  {
    if r.Success? {
      assert tokens1 + (tokens2 + r.value) == tokens1 + tokens2 + r.value;
    }
  }

  method ReadString(src: string, start: nat) returns (r: Result<(Token, nat), Error>)
    requires start < |src| && IsQuote(src[start])
    ensures match StringBody(src[start], src[start + 1..])
            case Some((text, n)) => r == Success((Token(Str(text), start), start + 1 + n))
            case None => r == Failure(Error(UnterminatedString, Some(start)))
  {
    var quote := src[start];
    var i := start + 1;
    var out := "";
    BeforeNothing(StringBody(quote, src[i..]));
    while i < |src|
      invariant start < i <= |src|
      invariant StringBody(quote, src[start + 1..]) == Before(out, i - (start + 1), StringBody(quote, src[i..]))
      decreases |src| - i
    {
      var ch := src[i];
      if ch == quote {
        assert out + "" == out;
        return Success((Token(Str(out), start), i + 1));
      }
      if ch == '\\' {
        if i + 1 >= |src| {
          break;
        }
        BeforeTwice(out, i - (start + 1), [Unescape(src[i + 1])], 2, StringBody(quote, src[i + 2..]));
        assert src[i..][2..] == src[i + 2..];
        out := out + [Unescape(src[i + 1])];
        i := i + 2;
        continue;
      }
      BeforeTwice(out, i - (start + 1), [ch], 1, StringBody(quote, src[i + 1..]));
      assert src[i..][1..] == src[i + 1..];
      out := out + [ch];
      i := i + 1;
    }
    r := Failure(Error(UnterminatedString, Some(start)));
  }

  /** The loop `while (/\d/.test(src[i]))`. */
  method SkipDigits(src: string, start: nat) returns (i: nat)
    requires start <= |src|
    ensures i == DigitsEnd(src, start)
  {
    i := start;
    while i < |src| && IsDigit(src[i])
      invariant start <= i <= |src|
      invariant DigitsEnd(src, start) == DigitsEnd(src, i)
    {
      i := i + 1;
    }
  }

  method SkipFraction(src: string, start: nat) returns (i: nat)
    requires start <= |src|
    ensures i == FractionEnd(src, start)
  {
    i := start;
    if i < |src| && src[i] == '.' && i + 1 < |src| && IsDigit(src[i + 1]) {
      i := SkipDigits(src, i + 1);
    }
  }

  method SkipExponent(src: string, start: nat) returns (r: Result<nat, Reason>)
    requires start <= |src|
    ensures r == ExponentEnd(src, start)
  {
    var i := start;
    if i < |src| && (src[i] == 'e' || src[i] == 'E') {
      i := i + 1;
      if i < |src| && (src[i] == '+' || src[i] == '-') {
        i := i + 1;
      }
      if i >= |src| || !IsDigit(src[i]) {
        return Failure(InvalidExponent);
      }
      i := SkipDigits(src, i);
    }
    r := Success(i);
  }

  method ReadNumber(src: string, start: nat) returns (r: Result<(Token, nat), Error>)
    requires start < |src|
    ensures match NumberEnd(src[start..], 0)
            case Success(n) => r == Success((Token(Number(src[start..][..n]), start), start + n))
            case Failure(reason) => r == Failure(Error(reason, Some(start)))
  {
    NumberEndShifts(src, start);
    var i := start;
    if src[i] == '.' {
      i := i + 1;
      if i >= |src| || !IsDigit(src[i]) {
        return Failure(Error(InvalidNumber, Some(start)));
      }
    }
    i := SkipDigits(src, i);
    i := SkipFraction(src, i);
    var end := SkipExponent(src, i);
    if end.Failure? {
      return Failure(Error(end.error, Some(start)));
    }
    assert src[start..end.value] == src[start..][..end.value - start];
    r := Success((Token(Number(src[start..end.value]), start), end.value));
  }

  lemma {:induction false} DigitsEndShifts(s: string, start: nat, i: nat)
    requires start + i <= |s|
    ensures DigitsEnd(s, start + i) == start + DigitsEnd(s[start..], i)
    decreases |s| - i
  {
    if DigitAt(s, start + i) {
      DigitsEndShifts(s, start, i + 1);
    }
  }

  lemma FractionEndShifts(s: string, start: nat, i: nat)
    requires start + i <= |s|
    ensures FractionEnd(s, start + i) == start + FractionEnd(s[start..], i)
  {
    if start + i + 1 <= |s| {
      DigitsEndShifts(s, start, i + 1);
    }
  }

  lemma ExponentEndShifts(s: string, start: nat, i: nat)
    requires start + i <= |s|
    ensures ExponentEnd(s, start + i) == MoveBy(start, ExponentEnd(s[start..], i))
  {
    if start + i + 1 <= |s| {
      DigitsEndShifts(s, start, i + 1);
    }
    if start + i + 2 <= |s| {
      DigitsEndShifts(s, start, i + 2);
    }
  }

  /** A length read at column `start`, as the column behind it. */
  function MoveBy(start: nat, r: Result<nat, Reason>): Result<nat, Reason> {
    if r.Success? then Success(start + r.value) else r
  }

  lemma NumberEndShifts(s: string, start: nat)
    requires start < |s|
    ensures NumberEnd(s, start) == MoveBy(start, NumberEnd(s[start..], 0))
  {
    DigitsEndShifts(s, start, if s[start] == '.' then 1 else 0);
    var whole := WholeEnd(s[start..], 0);
    FractionEndShifts(s, start, whole);
    ExponentEndShifts(s, start, FractionEnd(s[start..], whole));
  }

  /** The token that starts at `i`, and the column behind it. */
  method ReadToken(src: string, i: nat) returns (r: Result<(Token, nat), Error>)
    requires i < |src| && !IsSpace(src[i])
    ensures match NextStep(src[i..])
            case Read(kind, n) => r == Success((Token(kind, i), i + n))
            case Fail(reason) => r == Failure(Error(reason, Some(i)))
            case Skip => false
  {
    ghost var s := src[i..];
    assert s[1..] == src[i + 1..];
    var ch := src[i];
    if IsQuote(ch) {
      r := ReadString(src, i);
    } else if IsDigit(ch) || (ch == '.' && i + 1 < |src| && IsDigit(src[i + 1])) {
      r := ReadNumber(src, i);
    } else if IsIdentStart(ch) {
      var end := SkipIdent(src, i + 1);
      assert src[i..end] == s[..end - i];
      r := Success((Token(Ident(src[i..end]), i), end));
    } else {
      var operator := OperatorAt(src[i..]);
      if operator.None? {
        return Failure(Error(UnexpectedCharacter(ch), Some(i)));
      }
      r := Success((Token(operator.value.0, i), i + operator.value.1));
    }
  }

  lemma SliceFurther(s: string, i: nat, j: nat)
    requires i <= j <= |s|
    ensures s[i..][j - i..] == s[j..]
  {
  }

  method Tokenize(src: string) returns (r: Result<seq<Token>, Error>)
    ensures r == Tokens(src)
  {
    if |src| > MAX_SOURCE_LENGTH {
      return Failure(Error(TooLong, None));
    }
    var tokens: seq<Token> := [];
    var i := 0;
    assert src[0..] == src;
    PutNothingBefore(Lex(src, 0));
    while i < |src|
      invariant 0 <= i <= |src|
      invariant Lex(src, 0) == PutBefore(tokens, Lex(src[i..], i))
      decreases |src| - i
    {
      if IsSpace(src[i]) {
        SliceFurther(src, i, i + 1);
        i := i + 1;
        continue;
      }
      var read :- ReadToken(src, i);
      SliceFurther(src, i, read.1);
      PutBeforeTwice(tokens, [read.0], Lex(src[read.1..], read.1));
      tokens := tokens + [read.0];
      i := read.1;
    }
    assert tokens + [] == tokens;
    if |tokens| + 1 > MAX_TOKENS {
      return Failure(Error(TooManyTokens, None));
    }
    r := Success(tokens + [Token(Eof, |src|)]);
  }

  method SkipIdent(src: string, start: nat) returns (end: nat)
    requires start <= |src|
    ensures end == start + IdentRun(src[start..]) && end <= |src|
  {
    end := start;
    while end < |src| && IsIdentPart(src[end])
      invariant start <= end <= |src|
      invariant IdentRun(src[start..]) == end - start + IdentRun(src[end..])
    {
      assert src[end..][1..] == src[end + 1..];
      end := end + 1;
    }
  }
}
