/** The per-item rewrite on source text, and when it is the rewrite on tokens. */
module ItemSource {
  import opened Results
  import opened Syntax
  import opened Numbers
  import opened Tokenizer
  import opened LexerTheorems
  import opened Values
  import opened ItemRewrite

  const PREFIX := "$json.items["

  /** The length of the text `$json.items[digits]` that starts here. */
  function MatchLength(s: string): (r: Option<nat>)
    ensures r.Some? ==> 14 <= r.value <= |s|
  {
    if |s| < 12 || s[..12] != PREFIX then None
    else
      var end := DigitsEnd(s, 12);
      if end > 12 && CharAt(s, end, ']') then Some(end + 1) else None
  }

  function TargetText(to: Target): string {
    match to
    case Element => "$json"
    case At(i) => PREFIX + Decimal(i) + "]"
  }

  /** `value.replace(/\$json\.items\[\d+\]/g, …)`. */
  function RewriteText(s: string, to: Target): string
    decreases |s|
  {
    if s == "" then ""
    else
      match MatchLength(s)
      case Some(n) => TargetText(to) + RewriteText(s[n..], to)
      case None => [s[0]] + RewriteText(s[1..], to)
  }

  // A step of the lexer looks at most two characters behind what it reads

  predicate Share(s: string, t: string, n: nat) {
    n <= |s| && n <= |t| && forall j | 0 <= j < n :: s[j] == t[j]
  }

  lemma {:induction false} StringBodyIsLocal(quote: char, s: string, t: string)
    requires StringBody(quote, s).Some? && Share(s, t, StringBody(quote, s).value.1)
    ensures StringBody(quote, t) == StringBody(quote, s)
    decreases |s|
  {
    if s[0] != quote {
      StringBodyIsLocal(quote, s[if s[0] == '\\' then 2 else 1..], t[if s[0] == '\\' then 2 else 1..]);
    }
  }

  lemma {:induction false} DigitsEndIsLocal(s: string, t: string, i: nat)
    requires i <= |s| && i <= |t| && Share(s, t, DigitsEnd(s, i) + 1)
    ensures DigitsEnd(t, i) == DigitsEnd(s, i)
    decreases |s| - i
  {
    if DigitAt(s, i) {
      DigitsEndIsLocal(s, t, i + 1);
    }
  }

  lemma {:induction false} IdentRunIsLocal(s: string, t: string)
    requires Share(s, t, IdentRun(s) + 1)
    ensures IdentRun(t) == IdentRun(s)
  {
    if IsIdentPart(s[0]) {
      IdentRunIsLocal(s[1..], t[1..]);
    }
  }

  lemma {:induction false} FractionEndIsLocal(s: string, t: string, i: nat)
    requires i <= |s| && i <= |t| && Share(s, t, FractionEnd(s, i) + 2)
    ensures FractionEnd(t, i) == FractionEnd(s, i)
  {
    if FractionEnd(s, i) != i {
      DigitsEndIsLocal(s, t, i + 1);
    }
  }

  lemma {:induction false} ExponentEndIsLocal(s: string, t: string, i: nat)
    requires i <= |s| && i <= |t| && ExponentEnd(s, i).Success? && Share(s, t, ExponentEnd(s, i).value + 2)
    ensures ExponentEnd(t, i) == ExponentEnd(s, i)
  {
    if ExponentEnd(s, i).value != i {
      DigitsEndIsLocal(s, t, if CharAt(s, i + 1, '+') || CharAt(s, i + 1, '-') then i + 2 else i + 1);
    }
  }

  lemma {:induction false} NumberEndIsLocal(s: string, t: string)
    requires s != "" && t != "" && NumberEnd(s, 0).Success? && Share(s, t, NumberEnd(s, 0).value + 2)
    ensures NumberEnd(t, 0) == NumberEnd(s, 0)
  {
    var whole := WholeEnd(s, 0);
    DigitsEndIsLocal(s, t, if s[0] == '.' then 1 else 0);
    FractionEndIsLocal(s, t, whole);
    ExponentEndIsLocal(s, t, FractionEnd(s, whole));
  }

  lemma {:induction false} OperatorIsLocal(s: string, t: string)
    requires OperatorAt(s).Some? && Share(s, t, OperatorAt(s).value.1 + 2)
    ensures OperatorAt(t) == OperatorAt(s)
  {
    assert s[..3] == t[..3];
  }

  lemma {:induction false} StepIsLocal(s: string, t: string)
    requires s != "" && NextStep(s).Read? && Share(s, t, NextStep(s).length + 2)
    ensures NextStep(t) == NextStep(s)
  {
    var n := NextStep(s).length;
    assert s[..n] == t[..n];
    assert Share(s[1..], t[1..], n + 1);
    if IsQuote(s[0]) {
      StringBodyIsLocal(s[0], s[1..], t[1..]);
    } else if IsDigit(s[0]) || (s[0] == '.' && DigitAt(s, 1)) {
      NumberEndIsLocal(s, t);
    } else if IsIdentStart(s[0]) {
      IdentRunIsLocal(s[1..], t[1..]);
    } else {
      OperatorIsLocal(s, t);
    }
  }

  // Kinds without columns

  function Cons(k: Kind, ks: Option<seq<Kind>>): Option<seq<Kind>> {
    if ks.Some? then Some([k] + ks.value) else None
  }

  /** The kinds of the tokens of `s`, if it can be lexed. */
  function KindsOf(s: string): Option<seq<Kind>>
    decreases |s|
  {
    if s == "" then Some([])
    else
      match NextStep(s)
      case Skip => KindsOf(s[1..])
      case Fail(_) => None
      case Read(kind, n) => Cons(kind, KindsOf(s[n..]))
  }

  lemma {:induction false} KindsOfLex(s: string, at: nat)
    ensures KindsOf(s).Some? <==> Lex(s, at).Success?
    ensures Lex(s, at).Success? ==> KindsOf(s) == Some(Kinds(Lex(s, at).value))
    decreases |s|
  {
    if s == "" {
      assert Kinds([]) == [];
    } else {
      match NextStep(s)
      case Skip => KindsOfLex(s[1..], at + 1);
      case Read(kind, n) =>
        KindsOfLex(s[n..], at + n);
        if Lex(s[n..], at + n).Success? {
          KindsOfMore(Token(kind, at), Lex(s[n..], at + n).value);
        }
      case Fail(_) =>
    }
  }

  predicate NoMatchIn(s: string, n: nat)
    requires n <= |s|
  {
    forall p | 0 <= p < n :: MatchLength(s[p..]).None?
  }

  /** No match of the pattern lies in a string literal, and every reference is spelled without spaces. */
  predicate CleanSource(s: string)
    decreases |s|
  {
    if s == "" then true
    else
      match NextStep(s)
      case Skip => CleanSource(s[1..])
      case Fail(_) => true
      case Read(kind, n) =>
        && (kind.Str? ==> NoMatchIn(s, n))
        && (KindsOf(s).Some? && WindowAt(KindsOf(s).value) ==> MatchLength(s).Some?)
        && CleanSource(s[n..])
  }

  lemma ReadOne(s: string, kind: Kind, n: nat)
    requires s != "" && NextStep(s) == Read(kind, n)
    ensures KindsOf(s) == Cons(kind, KindsOf(s[n..]))
    ensures !kind.Str? && kind != JSON ==> (CleanSource(s) <==> CleanSource(s[n..]))
  {
  }

  /** A name is read whole when no further identifier character follows. */
  lemma {:induction false} NameBefore(name: string, s: string)
    requires IsName(name) && (s == "" || !IsIdentPart(s[0]))
    ensures KindsOf(name + s) == Cons(Ident(name), KindsOf(s))
    ensures name != "$json" ==> (CleanSource(name + s) <==> CleanSource(s))
  {
    NameStep(name, s);
    ReadOne(name + s, Ident(name), |name|);
  }

  lemma {:induction false} NameStep(name: string, s: string)
    requires IsName(name) && (s == "" || !IsIdentPart(s[0]))
    ensures name + s != "" && NextStep(name + s) == Read(Ident(name), |name|) && (name + s)[|name|..] == s
  {
    NameShape(name, s);
    IdentRunBefore(name[1..], s);
  }

  lemma NameShape(name: string, s: string)
    requires name != ""
    ensures (name + s)[0] == name[0] && (name + s)[1..] == name[1..] + s
    ensures (name + s)[..|name|] == name && (name + s)[|name|..] == s
  {
  }

  lemma {:induction false} IdentRunBefore(p: string, s: string)
    requires (forall j | 0 <= j < |p| :: IsIdentPart(p[j])) && (s == "" || !IsIdentPart(s[0]))
    ensures IdentRun(p + s) == |p|
  {
    if p == "" {
      assert p + s == s;
    } else {
      assert (p + s)[1..] == p[1..] + s;
      IdentRunBefore(p[1..], s);
    }
  }

  lemma {:induction false} DigitsBefore(d: string, s: string, i: nat)
    requires i <= |d| && (forall j | 0 <= j < |d| :: IsDigit(d[j])) && (s == "" || !IsDigit(s[0]))
    ensures DigitsEnd(d + s, i) == |d|
    decreases |d| - i
  {
    if i < |d| {
      DigitsBefore(d, s, i + 1);
    }
  }

  lemma BracketAfter(s: string, c: char, k: Kind)
    requires (c == '[' && k == LBracket) || (c == ']' && k == RBracket)
    ensures KindsOf([c] + s) == Cons(k, KindsOf(s))
    ensures CleanSource([c] + s) <==> CleanSource(s)
  {
    var t := [c] + s;
    assert t[0] == c && t[1..] == s;
    assert |t| >= 3 ==> t[..3][0] == c;
    ReadOne(t, k, 1);
  }

  lemma NumberInBrackets(d: string, s: string)
    requires AllDigits(d)
    ensures KindsOf("[" + (d + ("]" + s))) == Cons(LBracket, Cons(Number(d), Cons(RBracket, KindsOf(s))))
    ensures CleanSource("[" + (d + ("]" + s))) <==> CleanSource(s)
  {
    var close := "]" + s;
    var t := d + close;
    assert forall j | 0 <= j < |d| :: IsDigit(d[j]);
    DigitsBefore(d, close, 0);
    assert t[0] == d[0] && t[|d|] == ']';
    assert NumberEnd(t, 0) == Success(|d|);
    assert t[..|d|] == d && t[|d|..] == close;
    ReadOne(t, Number(d), |d|);
    BracketAfter(s, ']', RBracket);
    BracketAfter(t, '[', LBracket);
  }

  lemma DotItems(s: string)
    requires s != "" && s[0] == '['
    ensures KindsOf(".items" + s) == Cons(Dot, Cons(Ident("items"), KindsOf(s)))
    ensures CleanSource(".items" + s) <==> CleanSource(s)
  {
    var name := ItemsName();
    var t := DotBefore(name + s);
    DotStep(t);
    ReadOne(t, Dot, 1);
    NameBefore(name, s);
    assert ".items" + s == "." + (name + s);
  }

  lemma ItemsName() returns (name: string)
    ensures name == "items" && IsName(name) && name != "$json" && name[0] == 'i'
  {
    name := "items";
  }

  lemma DotBefore(s: string) returns (t: string)
    ensures t == "." + s && t[0] == '.' && t[1..] == s && |t| == |s| + 1
  {
    t := "." + s;
  }

  /** A dot before a letter is read as a dot. */
  lemma DotStep(t: string)
    requires |t| >= 2 && t[0] == '.' && IsIdentPart(t[1]) && !IsDigit(t[1])
    ensures NextStep(t) == Read(Dot, 1)
  {
    assert |t| >= 3 ==> t[..3][0] == '.';
  }

  function ReferenceKinds(d: string): seq<Kind> {
    [JSON, Dot, Ident("items"), LBracket, Number(d), RBracket]
  }

  function Append(front: seq<Kind>, ks: Option<seq<Kind>>): Option<seq<Kind>> {
    if ks.Some? then Some(front + ks.value) else None
  }

  lemma ReferenceMatches(d: string, s: string)
    requires AllDigits(d)
    ensures MatchLength(PREFIX + d + "]" + s) == Some(13 + |d|)
  {
    var t := PREFIX + d + "]" + s;
    assert t[..12] == PREFIX && t[12..] == d + ("]" + s);
    assert forall j | 0 <= j < |d| :: IsDigit(d[j]);
    DigitsBefore(d, "]" + s, 0);
    DigitsEndShifts(t, 12, 0);
    assert t[12 + |d|] == ']';
  }

  lemma ConsSix(d: string, ks: Option<seq<Kind>>)
    ensures Append(ReferenceKinds(d), ks)
            == Cons(JSON, Cons(Dot, Cons(Ident("items"), Cons(LBracket, Cons(Number(d), Cons(RBracket, ks))))))
  {
    if ks.Some? {
      assert ReferenceKinds(d) + ks.value
             == [JSON] + ([Dot] + ([Ident("items")] + ([LBracket] + ([Number(d)] + ([RBracket] + ks.value)))));
    }
  }

  lemma ReferenceText(d: string, s: string)
    ensures PREFIX + d + "]" + s == "$json" + (".items" + ("[" + (d + ("]" + s))))
  {
    assert PREFIX == "$json" + (".items" + "[");
  }

  /** The text of a reference is read as its six tokens. */
  lemma ReferenceLexes(d: string, s: string)
    requires AllDigits(d)
    ensures KindsOf(PREFIX + d + "]" + s) == Append(ReferenceKinds(d), KindsOf(s))
    ensures CleanSource(PREFIX + d + "]" + s) <==> CleanSource(s)
  {
    var inside := "[" + (d + ("]" + s));
    var behind := ".items" + inside;
    NumberInBrackets(d, s);
    DotItems(inside);
    NameBefore("$json", behind);
    ReferenceText(d, s);
    ConsSix(d, KindsOf(s));
    ReferenceMatches(d, s);
    CleanAtMatch("$json", behind);
  }

  lemma CleanAtMatch(name: string, s: string)
    requires IsName(name) && (s == "" || !IsIdentPart(s[0])) && MatchLength(name + s).Some?
    ensures CleanSource(name + s) <==> CleanSource(s)
  {
    NameStep(name, s);
  }

  lemma {:induction false} MatchShape(s: string) returns (d: string)
    requires MatchLength(s).Some?
    ensures AllDigits(d) && s == PREFIX + d + "]" + s[MatchLength(s).value..]
    ensures MatchLength(s).value == |PREFIX| + |d| + 1
  {
    var end := DigitsEnd(s, 12);
    d := s[12..end];
    DigitsAreDigits(s, 12);
    assert forall j | 0 <= j < |d| :: d[j] == s[12 + j];
    assert s == s[..12] + s[12..end] + [s[end]] + s[end + 1..];
  }

  // The condition

  /** No name or number directly behind a closing bracket. */
  predicate Separated(ks: seq<Kind>) {
    forall j | 0 <= j < |ks| - 1 && ks[j] == RBracket :: !ks[j + 1].Ident? && !ks[j + 1].Number?
  }

  lemma SeparatedBehind(front: seq<Kind>, ks: seq<Kind>)
    requires Separated(front + ks)
    ensures Separated(ks)
  {
    forall j | 0 <= j < |ks| - 1 && ks[j] == RBracket ensures !ks[j + 1].Ident? && !ks[j + 1].Number? {
      assert (front + ks)[|front| + j] == ks[j] && (front + ks)[|front| + j + 1] == ks[j + 1];
    }
  }

  // The text rewrite, step by step

  lemma {:induction false} RewriteTextCopies(s: string, n: nat, to: Target)
    requires n <= |s| && NoMatchIn(s, n)
    ensures RewriteText(s, to) == s[..n] + RewriteText(s[n..], to)
    decreases n
  {
    if n > 0 {
      NoMatchBehind(s, 1, n);
      assert s[0..] == s;
      RewriteTextCopies(s[1..], n - 1, to);
      FirstOfCopied(s, n, RewriteText(s[n..], to));
    }
  }

  lemma NoMatchBehind(s: string, k: nat, n: nat)
    requires k <= n <= |s| && NoMatchIn(s, k)
    ensures NoMatchIn(s, n) <==> NoMatchIn(s[k..], n - k)
  {
    if NoMatchIn(s, n) {
      forall p | 0 <= p < n - k ensures MatchLength(s[k..][p..]).None? {
        assert s[k..][p..] == s[k + p..];
      }
    }
    if NoMatchIn(s[k..], n - k) {
      forall p | 0 <= p < n ensures MatchLength(s[p..]).None? {
        if p >= k {
          assert s[k..][p - k..] == s[p..];
        }
      }
    }
  }

  lemma FirstOfCopied(s: string, n: nat, rest: string)
    requires 0 < n <= |s|
    ensures s[1..][n - 1..] == s[n..] && s[..n] + rest == [s[0]] + (s[1..][..n - 1] + rest)
  {
    assert s[..n] == [s[0]] + s[1..][..n - 1];
  }

  /** The rewritten text starts with the same two characters. */
  lemma {:induction false} RewriteTextKeepsFront(s: string, to: Target)
    ensures |s| < 2 ==> RewriteText(s, to) == s
    ensures |s| >= 2 ==> Share(s, RewriteText(s, to), 2)
  {
    if s != "" {
      if MatchLength(s).Some? {
        assert s[..12] == PREFIX && s[0] == s[..12][0] && s[1] == s[..12][1];
      } else if |s| >= 2 {
        if MatchLength(s[1..]).Some? {
          assert s[1..][..12] == PREFIX && s[1..][0] == s[1..][..12][0];
        }
      }
    }
  }

  lemma MatchStartsWithDollar(s: string)
    requires MatchLength(s).Some?
    ensures s[0] == '$'
  {
    assert s[..12][0] == '$';
  }

  /** Inside a token that is not a string no match can start. */
  lemma {:induction false} TokensHideNoMatch(s: string)
    requires s != "" && NextStep(s).Read? && !NextStep(s).kind.Str? && MatchLength(s).None?
    ensures NoMatchIn(s, NextStep(s).length)
  {
    StepUsesTokenChars(s);
    forall p | 0 <= p < NextStep(s).length ensures MatchLength(s[p..]).None? {
      assert s[0..] == s;
      if MatchLength(s[p..]).Some? {
        MatchStartsWithDollar(s[p..]);
      }
    }
  }

  /** Copying a token leaves its step unchanged, whatever the rewrite does behind it. */
  lemma {:induction false} CopiedStep(s: string, to: Target)
    requires s != "" && NextStep(s).Read? && NoMatchIn(s, NextStep(s).length)
    ensures var n := NextStep(s).length;
            KindsOf(RewriteText(s, to)) == Cons(NextStep(s).kind, KindsOf(RewriteText(s[n..], to)))
  {
    var n, kind := NextStep(s).length, NextStep(s).kind;
    RewriteTextCopies(s, n, to);
    RewriteTextKeepsFront(s[n..], to);
    var t := s[..n] + RewriteText(s[n..], to);
    if |s[n..]| < 2 {
      assert t == s;
    } else {
      forall j | 0 <= j < n + 2 ensures s[j] == t[j] {
        if j >= n {
          assert s[j] == s[n..][j - n] && t[j] == RewriteText(s[n..], to)[j - n];
        }
      }
      StepIsLocal(s, t);
    }
    assert t[n..] == RewriteText(s[n..], to);
    ReadOne(t, kind, n);
  }

  lemma {:induction false} SkippedStep(s: string, to: Target)
    requires s != "" && NextStep(s).Skip?
    ensures KindsOf(RewriteText(s, to)) == KindsOf(RewriteText(s[1..], to))
  {
    if MatchLength(s).Some? {
      MatchStartsWithDollar(s);
    }
    assert RewriteText(s, to)[1..] == RewriteText(s[1..], to);
  }

  /** Behind a match the text does not go on with an identifier character. */
  predicate Detached(s: string) {
    RewriteText(s, Element) == "" || !IsIdentPart(RewriteText(s, Element)[0])
  }

  lemma {:induction false} MatchedStep(s: string, to: Target)
    requires MatchLength(s).Some?
    requires to == Element ==> Detached(s[MatchLength(s).value..])
    ensures KindsOf(RewriteText(s, to))
            == Append([JSON] + Suffix(to), KindsOf(RewriteText(s[MatchLength(s).value..], to)))
  {
    var rest := RewriteText(s[MatchLength(s).value..], to);
    match to
    case Element =>
      NameBefore("$json", rest);
      assert [JSON] + Suffix(to) == [JSON];
    case At(i) =>
      ReferenceLexes(Decimal(i), rest);
      assert [JSON] + Suffix(to) == ReferenceKinds(Decimal(i));
  }

  lemma {:induction false} MatchIsWindow(s: string)
    requires MatchLength(s).Some? && KindsOf(s).Some?
    ensures var rest := KindsOf(s[MatchLength(s).value..]);
            rest.Some? && WindowAt(KindsOf(s).value) && KindsOf(s).value[6..] == rest.value
            && KindsOf(s).value[5] == RBracket
    ensures CleanSource(s) <==> CleanSource(s[MatchLength(s).value..])
  {
    var d := MatchShape(s);
    ReferenceLexes(d, s[MatchLength(s).value..]);
    var rest := KindsOf(s[MatchLength(s).value..]).value;
    ReferenceWindow(d, rest);
  }

  lemma ReferenceWindow(d: string, rest: seq<Kind>)
    requires AllDigits(d)
    ensures var ks := ReferenceKinds(d) + rest; WindowAt(ks) && ks[6..] == rest && ks[5] == RBracket
  {
    var ks := ReferenceKinds(d) + rest;
    assert ks[6..] == rest;
    assert ks[1..] == [Dot, Ident("items"), LBracket, Number(d), RBracket] + rest;
    assert ks[1..][2..] == [LBracket, Number(d), RBracket] + rest;
  }

  lemma IdentPartStartsName(s: string)
    requires s != "" && IsIdentPart(s[0]) && KindsOf(s).Some?
    ensures KindsOf(s).value != [] && (KindsOf(s).value[0].Ident? || KindsOf(s).value[0].Number?)
  {
  }

  lemma {:induction false} SeparatedIsDetached(s: string)
    requires KindsOf(s).Some? && Separated([RBracket] + KindsOf(s).value)
    ensures Detached(s)
  {
    var ks := [RBracket] + KindsOf(s).value;
    assert ks[0] == RBracket;
    assert |ks| > 1 ==> ks[0 + 1] == KindsOf(s).value[0] && !ks[0 + 1].Ident? && !ks[0 + 1].Number?;
    RewriteTextKeepsFront(s, Element);
    if s != "" && IsIdentPart(s[0]) {
      IdentPartStartsName(s);
    }
  }

  /** On clean sources the text rewrite is the token rewrite. */
  lemma {:induction false} CleanRewrite(s: string, to: Target)
    requires KindsOf(s).Some? && CleanSource(s) && (to == Element ==> Separated(KindsOf(s).value))
    ensures KindsOf(RewriteText(s, to)) == Some(RewriteKinds(KindsOf(s).value, to))
    decreases |s|
  {
    if s != "" {
      if NextStep(s).Skip? {
        CleanRewrite(s[1..], to);
        SkippedStep(s, to);
      } else if MatchLength(s).Some? {
        CleanMatch(s, to);
      } else {
        var n, kind := NextStep(s).length, NextStep(s).kind;
        var rest := KindsOf(s[n..]).value;
        if !kind.Str? {
          TokensHideNoMatch(s);
        }
        CopiedStep(s, to);
        if to == Element {
          SeparatedBehind([kind], rest);
        }
        CleanRewrite(s[n..], to);
        RewriteOther(kind, rest, to);
      }
    }
  }

  lemma {:induction false} CleanMatch(s: string, to: Target)
    requires KindsOf(s).Some? && CleanSource(s) && (to == Element ==> Separated(KindsOf(s).value))
    requires MatchLength(s).Some?
    ensures KindsOf(RewriteText(s, to)) == Some(RewriteKinds(KindsOf(s).value, to))
    decreases |s|, 0
  {
    var ks, m := KindsOf(s).value, MatchLength(s).value;
    MatchIsWindow(s);
    if to == Element {
      assert ks == ks[..5] + ([RBracket] + ks[6..]);
      SeparatedBehind(ks[..5], [RBracket] + ks[6..]);
      SeparatedIsDetached(s[m..]);
      SeparatedBehind([RBracket], ks[6..]);
    }
    MatchedStep(s, to);
    CleanRewrite(s[m..], to);
  }
}
