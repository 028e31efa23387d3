/** The text rewrite is the token rewrite exactly on clean sources. */
module ItemSourceExact {
  import opened Results
  import opened Syntax
  import opened Numbers
  import opened Tokenizer
  import opened Values
  import opened ItemRewrite
  import opened ItemSource

  /** No quote and no backslash. */
  predicate Unescaped(p: string) {
    forall c <- p :: !IsQuote(c) && c != '\\'
  }

  lemma {:induction false} StringRun(quote: char, p: string, s: string)
    requires IsQuote(quote) && Unescaped(p)
    ensures StringBody(quote, p + s) == Before(p, |p|, StringBody(quote, s))
  {
    if p == "" {
      assert p + s == s;
      BeforeNothing(StringBody(quote, s));
    } else {
      assert p[0] in p && (p + s)[0] == p[0] && (p + s)[1..] == p[1..] + s;
      StringRun(quote, p[1..], s);
      BeforeTwice([p[0]], 1, p[1..], |p| - 1, StringBody(quote, s));
      assert [p[0]] + p[1..] == p;
    }
  }

  lemma ReferenceIsUnescaped(d: string)
    requires AllDigits(d)
    ensures Unescaped(PREFIX + d + "]") && Unescaped((PREFIX + d + "]")[1..]) && (PREFIX + d + "]")[0] == '$'
  {
    var p := PREFIX + d + "]";
    forall c | c in p ensures !IsQuote(c) && c != '\\' {
      var j :| 0 <= j < |p| && p[j] == c;
      if j >= 12 && j < 12 + |d| {
        assert c == d[j - 12];
      }
    }
  }

  /** The first `n` characters of `s`, up to a closing quote, stand for `text`. */
  ghost predicate Reads(quote: char, s: string, n: nat, text: string) {
    n <= |s| && StringBody(quote, s) == Some((text, n))
  }

  /** The first `n` characters of `s` are the string `text`; rewritten, they are the first `n'` characters of `r`, and
      the string `text'`, which is shorter exactly if a match starts in them. */
  ghost predicate Rewritten(quote: char, s: string, n: nat, text: string, r: string, n': nat, text': string) {
    && Reads(quote, s, n, text) && Reads(quote, r, n', text') && r[n'..] == RewriteText(s[n..], Element)
    && |text'| <= |text|
    && (NoMatchIn(s, n) ==> text' == text)
    && (!NoMatchIn(s, n) ==> |text'| < |text|)
  }

  /** The first `k` characters of `s` stand for `q`; behind them comes `rest`. */
  ghost predicate Leads(quote: char, s: string, k: nat, q: string, rest: string) {
    k <= |s| && rest == s[k..] && StringBody(quote, s) == Before(q, k, StringBody(quote, rest))
  }

  /** The first `k` characters of `s` stand for `q`, and become `k'` characters of `r` that stand for `q'`; behind them
      come `rest` and `after`. */
  ghost predicate Led(quote: char, s: string, k: nat, q: string, rest: string, r: string, k': nat, q': string,
                      after: string) {
    && Leads(quote, s, k, q, rest) && Leads(quote, r, k', q', after)
    && (NoMatchIn(s, k) ==> q' == q)
    && (!NoMatchIn(s, k) ==> |q'| < |q|)
  }

  lemma BeforeString(quote: char, s: string, k: nat, q: string, rest: string, n0: nat, text0: string, n: nat,
                     text: string)
    requires Leads(quote, s, k, q, rest) && Reads(quote, rest, n0, text0)
    requires n == k + n0 && text == q + text0
    ensures Reads(quote, s, n, text) && rest[n0..] == s[n..]
  {
  }

  lemma RewrittenMore(quote: char, s: string, k: nat, q: string, rest: string, r: string, k': nat, q': string,
                      after: string, n0: nat, text0: string, n0': nat, text0': string, n: nat, text: string, n': nat,
                      text': string)
    requires n == k + n0 && text == q + text0 && n' == k' + n0' && text' == q' + text0'
    requires Led(quote, s, k, q, rest, r, k', q', after)
    requires Rewritten(quote, rest, n0, text0, after, n0', text0')
    ensures Rewritten(quote, s, n, text, r, n', text')
  {
    BeforeString(quote, s, k, q, rest, n0, text0, n, text);
    BeforeString(quote, r, k', q', after, n0', text0', n', text');
    if NoMatchIn(s, k) {
      NoMatchBehind(s, k, n);
    } else {
      assert !NoMatchIn(s, n);
    }
  }

  /** Rewriting the source text of a string literal. */
  lemma {:induction false} StringRewrite(quote: char, s: string, r: string)
    returns (n: nat, text: string, n': nat, text': string)
    requires IsQuote(quote) && StringBody(quote, s).Some? && r == RewriteText(s, Element)
    ensures Rewritten(quote, s, n, text, r, n', text')
    decreases |s|
  {
    if s[0] == quote {
      StringEnd(quote, s, r);
      n, text, n', text' := 1, "", 1, "";
    } else {
      var k, q, rest, k', q', after := StringLead(quote, s, r);
      var n0, text0, n0', text0' := StringRewrite(quote, rest, after);
      n, text, n', text' := k + n0, q + text0, k' + n0', q' + text0';
      RewrittenMore(quote, s, k, q, rest, r, k', q', after, n0, text0, n0', text0', n, text, n', text');
    }
  }

  lemma StringEnd(quote: char, s: string, r: string)
    requires IsQuote(quote) && s != "" && s[0] == quote && r == RewriteText(s, Element)
    ensures Rewritten(quote, s, 1, "", r, 1, "")
  {
    if MatchLength(s).Some? {
      MatchStartsWithDollar(s);
    }
    assert s[0..] == s;
  }

  /** What stands before the next step inside a string: a plain or escaped character, or a match, perhaps with its `$`
      escaped. */
  lemma {:induction false} StringLead(quote: char, s: string, r: string)
    returns (k: nat, q: string, rest: string, k': nat, q': string, after: string)
    requires IsQuote(quote) && StringBody(quote, s).Some? && s[0] != quote && r == RewriteText(s, Element)
    ensures k >= 1 && Led(quote, s, k, q, rest, r, k', q', after) && after == RewriteText(rest, Element)
  {
    if MatchLength(s).Some? {
      k, q, rest, k', q', after := MatchLead(quote, s, 0, r);
    } else if s[0] == '\\' && MatchLength(s[1..]).Some? {
      k, q, rest, k', q', after := MatchLead(quote, s, 1, r);
    } else {
      k, q, rest, k', q', after := PlainLead(quote, s, r);
    }
  }

  lemma PlainLead(quote: char, s: string, r: string)
    returns (k: nat, q: string, rest: string, k': nat, q': string, after: string)
    requires IsQuote(quote) && StringBody(quote, s).Some? && s[0] != quote && r == RewriteText(s, Element)
    requires MatchLength(s).None? && (s[0] == '\\' ==> MatchLength(s[1..]).None?)
    ensures k >= 1 && Led(quote, s, k, q, rest, r, k', q', after) && after == RewriteText(rest, Element)
  {
    assert s[0..] == s;
    k := if s[0] == '\\' then 2 else 1;
    q := if k == 2 then [Tokenizer.Unescape(s[1])] else [s[0]];
    rest := s[k..];
    RewriteTextCopies(s, k, Element);
    after := RewriteText(rest, Element);
    k', q' := k, q;
  }

  lemma MatchLead(quote: char, s: string, j: nat, r: string)
    returns (k: nat, q: string, rest: string, k': nat, q': string, after: string)
    requires IsQuote(quote) && (j == 0 || (j == 1 && j <= |s| && s[0] == '\\' && MatchLength(s).None?))
    requires j <= |s| && MatchLength(s[j..]).Some? && r == RewriteText(s, Element)
    ensures k >= 1 && Led(quote, s, k, q, rest, r, k', q', after) && after == RewriteText(rest, Element)
  {
    q, rest := MatchSplit(s[j..]);
    q' := JsonIsUnescaped();
    after := RewriteText(rest, Element);
    MatchInside(s, j, q, rest, after);
    k, k' := j + |q|, j + |q'|;
    EscapedRun(quote, s[..j], q, rest, s, k);
    EscapedRun(quote, s[..j], q', after, r, k');
    LedByMatch(quote, s, k, q, rest, r, k', q', after);
  }

  lemma LedByMatch(quote: char, s: string, k: nat, q: string, rest: string, r: string, k': nat, q': string,
                   after: string)
    requires Leads(quote, s, k, q, rest) && Leads(quote, r, k', q', after)
    requires !NoMatchIn(s, k) && |q'| < |q|
    ensures Led(quote, s, k, q, rest, r, k', q', after)
  {
  }

  lemma MatchSplit(s: string) returns (reference: string, rest: string)
    requires MatchLength(s).Some?
    ensures s == reference + rest && MatchLength(s) == Some(|reference|) && |reference| > 5
    ensures reference[0] == '$' && Unescaped(reference) && Unescaped(reference[1..])
  {
    var d := MatchShape(s);
    reference, rest := PREFIX + d + "]", s[MatchLength(s).value..];
    ReferenceIsUnescaped(d);
  }

  lemma JsonIsUnescaped() returns (json: string)
    ensures json == "$json" && |json| == 5 && json[0] == '$' && Unescaped(json) && Unescaped(json[1..])
  {
    json := "$json";
  }

  lemma MatchInside(s: string, k: nat, reference: string, rest: string, after: string)
    requires k == 0 || (k == 1 && k <= |s| && MatchLength(s).None?)
    requires k <= |s| && s[k..] == reference + rest && MatchLength(s[k..]) == Some(|reference|)
    requires after == RewriteText(rest, Element)
    ensures k + |reference| <= |s| && rest == s[k + |reference|..] && s == s[..k] + (reference + rest)
    ensures RewriteText(s, Element) == s[..k] + ("$json" + after)
    ensures k + 5 <= |RewriteText(s, Element)| && after == RewriteText(s, Element)[k + 5..]
    ensures !NoMatchIn(s, k + |reference|)
  {
    InsideShape(s, k, reference, rest);
    MatchAtStart(s[k..], reference, rest);
    if k == 1 {
      FrontShape(s[..1], "$json", after);
      assert s[..1] == [s[0]];
    } else {
      FrontShape("", "$json", after);
      assert s[0..] == s && s[..0] == "";
    }
  }

  lemma InsideShape(s: string, k: nat, reference: string, rest: string)
    requires k <= |s| && s[k..] == reference + rest
    ensures k + |reference| <= |s| && rest == s[k + |reference|..] && s == s[..k] + (reference + rest)
  {
    assert s[k..][|reference|..] == rest;
  }

  lemma FrontShape(front: string, json: string, after: string)
    ensures (front + (json + after))[|front| + |json|..] == after && "" + (json + after) == json + after
  {
  }

  lemma MatchAtStart(s: string, reference: string, rest: string)
    requires s == reference + rest && MatchLength(s) == Some(|reference|)
    ensures RewriteText(s, Element) == "$json" + RewriteText(rest, Element)
  {
    assert s[|reference|..] == rest;
  }

  /** A dollar sign and unescaped text behind it stand for themselves, even if the dollar sign is escaped. */
  lemma EscapedRun(quote: char, front: string, p: string, s: string, t: string, k: nat)
    requires IsQuote(quote) && (front == "" || front == "\\") && t == front + (p + s) && k == |front| + |p|
    requires p != "" && p[0] == '$' && Unescaped(p) && Unescaped(p[1..])
    ensures Leads(quote, t, k, p, s)
  {
    assert t[k..] == s;
    if front == "" {
      assert t == p + s;
      StringRun(quote, p, s);
    } else {
      var tail := p[1..];
      assert t == "\\" + ("$" + (tail + s));
      EscapedStep(quote, t, tail + s);
      StringRun(quote, tail, s);
      BeforeTwice("$", 2, tail, |tail|, StringBody(quote, s));
      assert "$" + tail == p;
    }
  }

  lemma EscapedStep(quote: char, t: string, rest: string)
    requires IsQuote(quote) && t == "\\" + ("$" + rest)
    ensures StringBody(quote, t) == Before("$", 2, StringBody(quote, rest))
  {
    assert t[0] == '\\' && t[1] == '$' && t[2..] == rest;
  }

  /** A string token stays a string token; its text changes exactly if a match lies in it. */
  lemma {:induction false} StringStep(s: string)
    requires s != "" && NextStep(s).Read? && NextStep(s).kind.Str?
    ensures var n, text := NextStep(s).length, NextStep(s).kind.text;
            exists text' :: (text' == text <==> NoMatchIn(s, n))
                            && KindsOf(RewriteText(s, Element))
                            == Cons(Str(text'), KindsOf(RewriteText(s[n..], Element)))
  {
    var n := NextStep(s).length;
    var body := RewriteText(s[1..], Element);
    var n1, text, n', text' := StringRewrite(s[0], s[1..], body);
    assert s[0..] == s;
    if MatchLength(s).Some? {
      MatchStartsWithDollar(s);
    }
    assert RewriteText(s, Element) == [s[0]] + body;
    assert s[1..][n - 1..] == s[n..];
    NoMatchBehind(s, 1, n);
    LexesAsString(s[0], body, text', n');
  }

  lemma LexesAsString(quote: char, body: string, text: string, n: nat)
    requires IsQuote(quote) && Reads(quote, body, n, text)
    ensures KindsOf([quote] + body) == Cons(Str(text), KindsOf(body[n..]))
  {
    var t := [quote] + body;
    assert t[1..] == body && t[n + 1..] == body[n..];
    ReadOne(t, Str(text), n + 1);
  }

  lemma {:induction false} WindowInside(ks: seq<Kind>)
    requires WindowAt(ks)
    ensures |RewriteKinds(ks[1..], Element)| == 5 + |RewriteKinds(ks[6..], Element)|
  {
    SkipFive(ks[1..]);
    assert ks[1..][5..] == ks[6..];
  }

  lemma SkipFive(ks: seq<Kind>)
    requires ItemsAhead(ks)
    ensures |RewriteKinds(ks, Element)| == 5 + |RewriteKinds(ks[5..], Element)|
  {
    assert ks[2..][0] == ks[2] && ks[2..][1] == ks[3] && ks[2..][2] == ks[4];
    assert ks == [ks[0]] + ks[1..] && ks[1..] == [ks[1]] + ks[2..] && ks[2..] == [ks[2]] + ks[3..]
           && ks[3..] == [ks[3]] + ks[4..] && ks[4..] == [ks[4]] + ks[5..];
    RewriteOther(ks[0], ks[1..], Element);
    RewriteOther(ks[1], ks[2..], Element);
    RewriteOther(ks[2], ks[3..], Element);
    RewriteOther(ks[3], ks[4..], Element);
    RewriteOther(ks[4], ks[5..], Element);
  }

  /** The tokens of the rewritten text: at least as many as the rewritten tokens, and the same exactly if `s` is
      clean. */
  ghost predicate Compared(s: string) {
    match (KindsOf(s), KindsOf(RewriteText(s, Element)))
    case (Some(ks), Some(rewritten)) =>
      |rewritten| >= |RewriteKinds(ks, Element)| && (rewritten == RewriteKinds(ks, Element) <==> CleanSource(s))
    case _ => false
  }

  lemma {:induction false} Compare(s: string)
    requires KindsOf(s).Some? && Separated(KindsOf(s).value)
    ensures Compared(s)
    decreases |s|
  {
    if s != "" {
      if NextStep(s).Skip? {
        Compare(s[1..]);
        SkippedStep(s, Element);
      } else if MatchLength(s).Some? {
        CompareMatch(s);
      } else {
        CompareToken(s);
      }
    }
  }

  lemma {:induction false} CompareMatch(s: string)
    requires KindsOf(s).Some? && Separated(KindsOf(s).value) && MatchLength(s).Some?
    ensures Compared(s)
    decreases |s|, 0
  {
    var ks, rest := KindsOf(s).value, s[MatchLength(s).value..];
    MatchIsWindow(s);
    assert ks == ks[..5] + ([RBracket] + ks[6..]);
    SeparatedBehind(ks[..5], [RBracket] + ks[6..]);
    SeparatedIsDetached(rest);
    SeparatedBehind([RBracket], ks[6..]);
    MatchedStep(s, Element);
    Compare(rest);
    assert [JSON] + Suffix(Element) == [JSON];
    SameTail(JSON, KindsOf(RewriteText(rest, Element)).value, JSON, RewriteKinds(ks[6..], Element));
  }

  lemma SameTail(j: Kind, xs: seq<Kind>, k: Kind, ys: seq<Kind>)
    ensures [j] + xs == [k] + ys <==> j == k && xs == ys
  {
    if [j] + xs == [k] + ys {
      assert ([j] + xs)[0] == ([k] + ys)[0];
      assert ([j] + xs)[1..] == xs && ([k] + ys)[1..] == ys;
    }
  }

  lemma {:induction false} CompareToken(s: string)
    requires KindsOf(s).Some? && Separated(KindsOf(s).value)
    requires s != "" && NextStep(s).Read? && MatchLength(s).None?
    ensures Compared(s)
    decreases |s|, 0
  {
    var n, kind := NextStep(s).length, NextStep(s).kind;
    var rest := KindsOf(s[n..]).value;
    var ks := KindsOf(s).value;
    assert ks == [kind] + rest && ks[1..] == rest;
    SeparatedBehind([kind], rest);
    Compare(s[n..]);
    var rewritten := KindsOf(RewriteText(s[n..], Element)).value;
    if kind.Str? {
      StringStep(s);
      var text' :| (text' == kind.text <==> NoMatchIn(s, n))
                   && KindsOf(RewriteText(s, Element)) == Cons(Str(text'), Some(rewritten));
      RewriteOther(kind, rest, Element);
      SameTail(Str(text'), rewritten, kind, RewriteKinds(rest, Element));
    } else {
      TokensHideNoMatch(s);
      CopiedStep(s, Element);
      if WindowAt(ks) {
        WindowInside(ks);
      } else {
        RewriteOther(kind, rest, Element);
        SameTail(kind, rewritten, kind, RewriteKinds(rest, Element));
      }
    }
  }

  /** The text rewrite gives the rewritten tokens exactly when no match lies in a string literal and no reference is
      spelled with spaces. */
  lemma {:induction false} TextRewriteIsTokenRewrite(src: string)
    requires Lex(src, 0).Success? && Separated(Kinds(Lex(src, 0).value))
    ensures Lex(RewriteText(src, Element), 0).Success?
    ensures Kinds(Lex(RewriteText(src, Element), 0).value) == RewriteKinds(Kinds(Lex(src, 0).value), Element)
            <==> CleanSource(src)
  {
    KindsOfLex(src, 0);
    KindsOfLex(RewriteText(src, Element), 0);
    Compare(src);
  }
}
