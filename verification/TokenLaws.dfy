/** What a token is, said without the scanner: numbers, strings, names and operators as sets of texts. */
module TokenLaws {
  import opened Results
  import opened Syntax
  import opened Tokenizer

  // Numbers

  predicate Digits(s: string) {
    s != "" && forall i | 0 <= i < |s| :: '0' <= s[i] <= '9'
  }

  /** Digits, or a dot and digits. */
  predicate Whole(s: string) {
    Digits(s) || (s != "" && s[0] == '.' && Digits(s[1..]))
  }

  /** Nothing, or a dot and digits. */
  predicate Fraction(s: string) {
    s == "" || (s[0] == '.' && Digits(s[1..]))
  }

  /** Nothing, or `e` or `E`, perhaps a sign, and digits. */
  predicate Exponent(s: string) {
    s == ""
    || ((s[0] == 'e' || s[0] == 'E')
        && (Digits(s[1..]) || (|s| > 1 && (s[1] == '+' || s[1] == '-') && Digits(s[2..]))))
  }

  predicate SplitsAs(s: string, a: nat, b: nat) {
    a <= b <= |s| && Whole(s[..a]) && Fraction(s[a..b]) && Exponent(s[b..])
  }

  ghost predicate Decimal(s: string) {
    exists a: nat, b: nat :: SplitsAs(s, a, b)
  }

  /** The longest prefix that is a number. */
  ghost predicate LongestDecimal(s: string, n: nat) {
    n <= |s| && Decimal(s[..n]) && forall m: nat | n < m <= |s| :: !Decimal(s[..m])
  }

  /** The exponent is missing: a number without one stands before `e` or `E`. */
  predicate LacksExponent(s: string, n: nat) {
    n < |s| && (s[n] == 'e' || s[n] == 'E') && forall i | 0 <= i < n :: s[i] != 'e' && s[i] != 'E'
  }

  lemma {:induction false} RunOfDigits(s: string, i: nat)
    requires i <= |s|
    ensures forall k | i <= k < DigitsEnd(s, i) :: '0' <= s[k] <= '9'
    ensures DigitsEnd(s, i) < |s| ==> !('0' <= s[DigitsEnd(s, i)] <= '9')
    decreases |s| - i
  {
    if DigitAt(s, i) {
      RunOfDigits(s, i + 1);
    }
  }

  lemma DigitsWithin(s: string, i: nat, j: nat)
    requires i <= j <= |s|
    ensures Digits(s[i..j]) <==> i < j && forall k | i <= k < j :: '0' <= s[k] <= '9'
  {
    if i < j && forall k | i <= k < j :: '0' <= s[k] <= '9' {
      forall k | 0 <= k < j - i ensures '0' <= s[i..j][k] <= '9' {
        assert s[i..j][k] == s[i + k];
      }
    }
    if Digits(s[i..j]) {
      forall k | i <= k < j ensures '0' <= s[k] <= '9' {
        assert s[i..j][k - i] == s[k];
      }
    }
  }

  /** The parts the scanner passes over, in terms of positions. */
  ghost predicate Scanned(s: string, a: nat, b: nat) {
    && 0 < a <= b <= |s| && (s[0] == '.' ==> a > 1)
    && (forall k | 0 < k < a :: '0' <= s[k] <= '9') && (s[0] == '.' || '0' <= s[0] <= '9')
    && (a < |s| ==> !('0' <= s[a] <= '9'))
    && (if a < |s| && s[a] == '.' && a + 1 < |s| && '0' <= s[a + 1] <= '9' then
          && a + 1 < b && (forall k | a < k < b :: '0' <= s[k] <= '9') && (b < |s| ==> !('0' <= s[b] <= '9'))
        else b == a)
  }

  /** Texts that start like a number: a digit, or a dot and a digit. */
  predicate StartsNumber(s: string) {
    s != "" && ('0' <= s[0] <= '9' || (s[0] == '.' && |s| > 1 && '0' <= s[1] <= '9'))
  }

  lemma WholeAndFraction(s: string)
    requires StartsNumber(s)
    ensures Scanned(s, WholeEnd(s, 0), FractionEnd(s, WholeEnd(s, 0)))
  {
    var a := WholeEnd(s, 0);
    RunOfDigits(s, if s[0] == '.' then 1 else 0);
    if CharAt(s, a, '.') && DigitAt(s, a + 1) {
      RunOfDigits(s, a + 1);
    }
  }

  lemma ScannedSplits(s: string, a: nat, b: nat)
    requires Scanned(s, a, b)
    ensures Whole(s[..a]) && Fraction(s[a..b])
  {
    if s[0] == '.' {
      DigitsWithin(s, 1, a);
      assert s[..a][1..] == s[1..a];
    } else {
      DigitsWithin(s, 0, a);
      assert s[..a] == s[0..a];
    }
    if a < b {
      DigitsWithin(s, a + 1, b);
      assert s[a..b][1..] == s[a + 1..b];
    }
  }

  /** Where any prefix that is a number has its parts. */
  lemma PartsOfPrefix(s: string, m: nat, a: nat, b: nat)
    requires m <= |s| && SplitsAs(s[..m], a, b)
    ensures a <= b <= m && StartsNumber(s) && 0 < a && forall k | 0 < k < a :: '0' <= s[k] <= '9'
    ensures a < b ==> a + 1 < b && s[a] == '.' && forall k | a < k < b :: '0' <= s[k] <= '9'
    ensures b < m ==> b + 1 < m && (s[b] == 'e' || s[b] == 'E')
    ensures b < m ==> var d := if s[b + 1] == '+' || s[b + 1] == '-' then b + 2 else b + 1;
                      d < m && forall k | d <= k < m :: '0' <= s[k] <= '9'
  {
    var p := s[..m];
    assert p[..a] == s[..a] == s[0..a] && p[a..b] == s[a..b] && p[b..] == s[b..m];
    if Digits(p[..a]) {
      DigitsWithin(s, 0, a);
    } else {
      assert p[..a][1..] == s[1..a] && p[..a][0] == s[0];
      DigitsWithin(s, 1, a);
    }
    if a < b {
      assert p[a..b][1..] == s[a + 1..b] && p[a..b][0] == s[a];
      DigitsWithin(s, a + 1, b);
    }
    if b < m {
      ExponentOfPrefix(s, b, m);
    }
  }

  lemma ExponentOfPrefix(s: string, b: nat, m: nat)
    requires b < m <= |s| && Exponent(s[b..m])
    ensures b + 1 < m && (s[b] == 'e' || s[b] == 'E')
    ensures var d := if s[b + 1] == '+' || s[b + 1] == '-' then b + 2 else b + 1;
            d < m && forall k | d <= k < m :: '0' <= s[k] <= '9'
  {
    var x := s[b..m];
    assert x[0] == s[b] && x[1..] == s[b + 1..m];
    if Digits(x[1..]) {
      DigitsWithin(s, b + 1, m);
    } else {
      assert x[1] == s[b + 1] && x[2..] == s[b + 2..m];
      DigitsWithin(s, b + 2, m);
    }
  }

  /** Any prefix that is a number ends where the scanner's parts end, or before. */
  lemma PrefixIsScanned(s: string, a: nat, b: nat, m: nat)
    requires Scanned(s, a, b) && m <= |s| && Decimal(s[..m])
    ensures m <= b || (b + 1 < m && (s[b] == 'e' || s[b] == 'E') &&
                       var d := if s[b + 1] == '+' || s[b + 1] == '-' then b + 2 else b + 1;
                       d < m && forall k | d <= k < m :: '0' <= s[k] <= '9')
  {
    var a1: nat, b1: nat :| SplitsAs(s[..m], a1, b1);
    PartsOfPrefix(s, m, a1, b1);
    assert a1 <= a;
    if a1 < b1 {
      assert a1 == a;
    }
    assert b1 <= b;
  }

  /** The step on a number whose longest prefix that is one has length `n`. */
  ghost predicate NumberStep(s: string, n: nat, step: Step) {
    LongestDecimal(s, n) && step == if LacksExponent(s, n) then Fail(InvalidExponent) else Read(Number(s[..n]), n)
  }

  /** A text that starts like a number is read as its longest prefix that is one, unless an exponent is missing
      there. */
  lemma {:induction false} NumberLaw(s: string)
    requires StartsNumber(s)
    ensures exists n: nat :: NumberStep(s, n, NextStep(s))
  {
    var a := WholeEnd(s, 0);
    var b := FractionEnd(s, a);
    WholeAndFraction(s);
    ScannedSplits(s, a, b);
    var n := ExponentLaw(s, a, b);
    NumberIsNext(s);
  }

  function StepOf(s: string, end: Result<nat, Reason>): Step
    requires end.Success? ==> end.value <= |s|
  {
    match end
    case Success(n) => Read(Number(s[..n]), n)
    case Failure(reason) => Fail(reason)
  }

  lemma NumberIsNext(s: string)
    requires StartsNumber(s)
    ensures NextStep(s) == StepOf(s, ExponentEnd(s, FractionEnd(s, WholeEnd(s, 0))))
  {
  }

  lemma {:induction false} ExponentLaw(s: string, a: nat, b: nat) returns (n: nat)
    requires Scanned(s, a, b) && Whole(s[..a]) && Fraction(s[a..b])
    ensures NumberStep(s, n, StepOf(s, ExponentEnd(s, b)))
  {
    n := b;
    if b < |s| && (s[b] == 'e' || s[b] == 'E') {
      var d := if CharAt(s, b + 1, '+') || CharAt(s, b + 1, '-') then b + 2 else b + 1;
      if DigitAt(s, d) {
        n := DigitsEnd(s, d);
        RunOfDigits(s, d);
        LongestWithExponent(s, a, b, d, n);
        assert !LacksExponent(s, n);
      } else {
        LongestWithout(s, a, b);
      }
    } else {
      LongestWithout(s, a, b);
    }
  }

  lemma LongestWithout(s: string, a: nat, b: nat)
    requires Scanned(s, a, b) && Whole(s[..a]) && Fraction(s[a..b])
    requires b < |s| && (s[b] == 'e' || s[b] == 'E') ==>
               var d := if CharAt(s, b + 1, '+') || CharAt(s, b + 1, '-') then b + 2 else b + 1; !DigitAt(s, d)
    ensures LongestDecimal(s, b)
    ensures b < |s| && (s[b] == 'e' || s[b] == 'E') ==> LacksExponent(s, b)
  {
    assert s[..b][..a] == s[..a] && s[..b][a..b] == s[a..b] && s[..b][b..] == "";
    assert SplitsAs(s[..b], a, b);
    forall m: nat | b < m <= |s| ensures !Decimal(s[..m]) {
      if Decimal(s[..m]) {
        PrefixIsScanned(s, a, b, m);
        assert false;
      }
    }
  }

  lemma LongestWithExponent(s: string, a: nat, b: nat, d: nat, n: nat)
    requires Scanned(s, a, b) && Whole(s[..a]) && Fraction(s[a..b])
    requires b < d < n <= |s| && (s[b] == 'e' || s[b] == 'E')
    requires d == if s[b + 1] == '+' || s[b + 1] == '-' then b + 2 else b + 1
    requires (forall k | d <= k < n :: '0' <= s[k] <= '9') && (n < |s| ==> !('0' <= s[n] <= '9'))
    ensures LongestDecimal(s, n)
  {
    assert s[..n][..a] == s[..a] && s[..n][a..b] == s[a..b];
    var x := s[..n][b..];
    assert x == s[b..n] && x[0] == s[b];
    DigitsWithin(s, d, n);
    if d == b + 1 {
      assert x[1..] == s[d..n];
    } else {
      assert x[2..] == s[d..n] && x[1] == s[b + 1];
    }
    assert SplitsAs(s[..n], a, b);
    forall m: nat | n < m <= |s| ensures !Decimal(s[..m]) {
      if Decimal(s[..m]) {
        PrefixIsScanned(s, a, b, m);
        assert false;
      }
    }
  }

  // Strings

  /** A character that stands for itself, or one behind a backslash. */
  datatype Piece = Plain(c: char) | Escaped(c: char)

  const ESCAPES := map['n' := '\n', 't' := '\t', 'r' := '\r']

  /** The character a piece stands for. */
  function Meaning(p: Piece): char {
    if p.Escaped? && p.c in ESCAPES then ESCAPES[p.c] else p.c
  }

  function TextOf(ps: seq<Piece>): string {
    seq(|ps|, i requires 0 <= i < |ps| => Meaning(ps[i]))
  }

  function SourceOf(ps: seq<Piece>): string {
    if ps == [] then ""
    else (if ps[0].Plain? then [ps[0].c] else ['\\', ps[0].c]) + SourceOf(ps[1..])
  }

  predicate Unquoted(quote: char, ps: seq<Piece>) {
    forall i | 0 <= i < |ps| :: ps[i].Plain? ==> ps[i].c != quote && ps[i].c != '\\'
  }

  /** `s` starts with pieces and the closing quote. */
  predicate Closed(quote: char, s: string, ps: seq<Piece>) {
    Unquoted(quote, ps) && |SourceOf(ps)| < |s| && s[..|SourceOf(ps)|] == SourceOf(ps) && s[|SourceOf(ps)|] == quote
  }

  lemma NoPieces()
    ensures TextOf([]) == ""
  {
  }

  /** One piece more in front of a string body. */
  lemma BodyStep(quote: char, s: string, p: Piece)
    requires s != "" && s[0] != quote && quote != '\\' && (p.Plain? ==> p.c == s[0] != '\\')
    requires p.Escaped? ==> |s| > 1 && s[0] == '\\' && s[1] == p.c
    ensures StringBody(quote, s)
            == Before([Meaning(p)], if p.Plain? then 1 else 2, StringBody(quote, s[if p.Plain? then 1 else 2..]))
  {
  }

  lemma FirstPiece(p: Piece, ps: seq<Piece>)
    ensures TextOf([p] + ps) == [Meaning(p)] + TextOf(ps)
    ensures SourceOf([p] + ps) == (if p.Plain? then [p.c] else ['\\', p.c]) + SourceOf(ps)
  {
    assert ([p] + ps)[1..] == ps;
  }

  lemma {:induction false} PiecesAreRead(quote: char, s: string, ps: seq<Piece>)
    requires quote != '\\' && Closed(quote, s, ps)
    ensures StringBody(quote, s) == Some((TextOf(ps), |SourceOf(ps)| + 1))
    decreases |ps|
  {
    if ps == [] {
      NoPieces();
    } else {
      var p, rest := ps[0], ps[1..];
      assert ps == [p] + rest;
      FirstPiece(p, rest);
      var k := if p.Plain? then 1 else 2;
      assert s[..|SourceOf(ps)|][..k] == s[..k] && s[..|SourceOf(ps)|][k..] == s[k..][..|SourceOf(rest)|];
      assert s[0] == SourceOf(ps)[0] && (k == 2 ==> s[1] == SourceOf(ps)[1]);
      PiecesAreRead(quote, s[k..], rest);
      BodyStep(quote, s, p);
    }
  }

  lemma {:induction false} ReadIsPieces(quote: char, s: string) returns (ps: seq<Piece>)
    requires quote != '\\' && StringBody(quote, s).Some?
    ensures Closed(quote, s, ps) && StringBody(quote, s) == Some((TextOf(ps), |SourceOf(ps)| + 1))
    decreases |s|
  {
    if s[0] == quote {
      ps := [];
      NoPieces();
    } else {
      var k := if s[0] == '\\' then 2 else 1;
      var p := if s[0] == '\\' then Escaped(s[1]) else Plain(s[0]);
      var rest := ReadIsPieces(quote, s[k..]);
      FirstPiece(p, rest);
      BodyStep(quote, s, p);
      ps := [p] + rest;
      assert s[..|SourceOf(ps)|] == s[..k] + s[k..][..|SourceOf(rest)|];
    }
  }

  /** Behind a quote, pieces and the closing quote are read as what they stand for, and nothing else is a string. */
  lemma {:induction false} StringLaw(s: string)
    requires s != "" && (s[0] == '\'' || s[0] == '"')
    ensures forall ps | Closed(s[0], s[1..], ps) :: NextStep(s) == Read(Str(TextOf(ps)), |SourceOf(ps)| + 2)
    ensures (forall ps :: !Closed(s[0], s[1..], ps)) ==> NextStep(s) == Fail(UnterminatedString)
  {
    forall ps | Closed(s[0], s[1..], ps) ensures NextStep(s) == Read(Str(TextOf(ps)), |SourceOf(ps)| + 2) {
      PiecesAreRead(s[0], s[1..], ps);
    }
    if StringBody(s[0], s[1..]).Some? {
      var ps := ReadIsPieces(s[0], s[1..]);
    }
  }

  // Spaces, names and operators

  predicate Letter(c: char) {
    'A' <= c <= 'Z' || 'a' <= c <= 'z' || c == '_'
  }

  predicate NameStart(c: char) {
    Letter(c) || c == '$'
  }

  predicate NamePart(c: char) {
    Letter(c) || '0' <= c <= '9'
  }

  /** The longest prefix of name characters behind the first. */
  predicate LongestName(s: string, n: nat) {
    && 1 <= n <= |s| && (forall i | 1 <= i < n :: NamePart(s[i])) && (n < |s| ==> !NamePart(s[n]))
  }

  lemma {:induction false} RunOfParts(s: string)
    ensures forall i | 0 <= i < IdentRun(s) :: NamePart(s[i])
    ensures IdentRun(s) < |s| ==> !NamePart(s[IdentRun(s)])
  {
    if s != "" && IsIdentPart(s[0]) {
      RunOfParts(s[1..]);
      forall i | 0 < i < IdentRun(s) ensures NamePart(s[i]) {
        assert s[i] == s[1..][i - 1];
      }
    }
  }

  lemma {:induction false} NameLaw(s: string, n: nat)
    requires s != "" && NameStart(s[0]) && LongestName(s, n)
    ensures NextStep(s) == Read(Ident(s[..n]), n)
  {
    RunOfParts(s[1..]);
    var m := 1 + IdentRun(s[1..]);
    forall i | 1 <= i < m ensures NamePart(s[i]) {
      assert s[i] == s[1..][i - 1];
    }
    assert m < |s| ==> s[m] == s[1..][m - 1];
    assert m == n;
  }

  const OPERATORS := map[
    "===" := EqEqEq, "!==" := BangEqEq,
    "?." := QDot, "??" := QQ, "||" := OrOr, "&&" := AndAnd, "==" := EqEq, "!=" := BangEq, "<=" := LtEq, ">=" := GtEq,
    "(" := LParen, ")" := RParen, "[" := LBracket, "]" := RBracket, "," := Comma, "?" := Question, ":" := Colon,
    "." := Dot, "!" := Bang, "+" := Plus, "-" := Minus, "*" := Star, "/" := Slash, "%" := Percent,
    "<" := Less, ">" := Greater]

  /** The longest prefix that is an operator. */
  predicate LongestOperator(s: string, n: nat) {
    n <= |s| && s[..n] in OPERATORS && forall m | n < m <= |s| :: s[..m] !in OPERATORS
  }

  lemma Prefixes(s: string)
    ensures |s| >= 1 ==> s[..1] == [s[0]]
    ensures |s| >= 2 ==> s[..2] == [s[0], s[1]]
    ensures |s| >= 3 ==> s[..3] == [s[0], s[1], s[2]]
  {
  }

  lemma ThreeLaw(s: string)
    requires |s| >= 3
    ensures ThreeAt(s) == if s[..3] in OPERATORS then Some(OPERATORS[s[..3]]) else None
  {
  }

  lemma TwoLaw(s: string)
    requires |s| >= 2
    ensures TwoAt(s) == if s[..2] in OPERATORS then Some(OPERATORS[s[..2]]) else None
  {
    Prefixes(s);
  }

  lemma OneLaw(s: string)
    requires |s| >= 1
    ensures OneAt(s) == if s[..1] in OPERATORS then Some(OPERATORS[s[..1]]) else None
  {
    Prefixes(s);
  }

  lemma LongerIsNoOperator(s: string)
    requires |s| == 0 || |s| > 3
    ensures s !in OPERATORS
  {
  }

  /** Anything that is no space, string, number or name is read as the longest operator it starts with. */
  lemma {:induction false} OperatorLaw(s: string)
    requires s != "" && s[0] !in {' ', '\t', '\n', '\r', '\'', '"'} && !StartsNumber(s) && !NameStart(s[0])
    ensures forall n: nat | LongestOperator(s, n) :: NextStep(s) == Read(OPERATORS[s[..n]], n)
    ensures (forall n | 0 <= n <= |s| :: s[..n] !in OPERATORS) ==> NextStep(s) == Fail(UnexpectedCharacter(s[0]))
  {
    OneLaw(s);
    if |s| >= 2 { TwoLaw(s); }
    if |s| >= 3 { ThreeLaw(s); }
    forall n: nat | LongestOperator(s, n) ensures NextStep(s) == Read(OPERATORS[s[..n]], n) {
      if n == 0 || n > 3 {
        LongerIsNoOperator(s[..n]);
      }
    }
  }

  lemma SpaceLaw(s: string)
    requires s != ""
    ensures NextStep(s) == Skip <==> s[0] in {' ', '\t', '\n', '\r'}
  {
  }

  // The whole lexer

  /** Sources of more than 8000 characters and token lists of more than 500 with the end marker are refused. */
  lemma LimitLaw(src: string)
    ensures |src| > 8000 ==> Tokens(src) == Failure(Error(TooLong, None))
    ensures |src| <= 8000 && Lex(src, 0).Failure? ==> Tokens(src) == Failure(Lex(src, 0).error)
    ensures |src| <= 8000 && Lex(src, 0).Success? ==>
              Tokens(src) == if |Lex(src, 0).value| >= 500 then Failure(Error(TooManyTokens, None))
                             else Success(Lex(src, 0).value + [Token(Eof, |src|)])
  {
  }
}
