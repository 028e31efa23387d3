/** The per-item rewrite of a template rewrites its expressions and nothing else. */
module TemplateRewrite {
  import opened Results
  import opened Sequences
  import opened Tokenizer
  import opened Frontend
  import opened Templates
  import opened TemplateTheorems
  import opened TemplatePieces
  import opened ItemRewrite
  import opened ItemSource
  import opened SourceRewrite

  // Rewriting two texts that no reference can join

  /** A text that no reference reaches into. */
  predicate Apart(s: string) {
    s == "" || s[0] == '{' || s[0] == '}' || IsTrimmed(s[0])
  }

  lemma {:induction false} DigitsEndApart(a: string, b: string, i: nat)
    requires i <= |a| && Apart(b)
    ensures DigitsEnd(a + b, i) == DigitsEnd(a, i)
    decreases |a| - i
  {
    if DigitAt(a, i) {
      DigitsEndApart(a, b, i + 1);
    }
  }

  lemma MatchApart(a: string, b: string)
    requires a != "" && Apart(b)
    ensures MatchLength(a + b) == MatchLength(a)
  {
    if |a| >= 12 {
      assert (a + b)[..12] == a[..12];
      if a[..12] == PREFIX {
        DigitsEndApart(a, b, 12);
      }
    } else if |a + b| >= 12 {
      assert (a + b)[..12][|a|] == b[0] && PREFIX[|a|] != b[0];
    }
  }

  /** Two texts are rewritten apart. */
  ghost predicate Splits(a: string, b: string, to: Target) {
    RewriteText(a + b, to) == RewriteText(a, to) + RewriteText(b, to)
  }

  lemma {:induction false} RewriteApart(a: string, b: string, to: Target)
    requires Apart(b)
    ensures Splits(a, b, to)
    decreases |a|
  {
    if a == "" {
      assert a + b == b;
      assert "" + RewriteText(b, to) == RewriteText(b, to);
    } else {
      var n := if MatchLength(a).Some? then MatchLength(a).value else 1;
      RewriteApart(a[n..], b, to);
      SplitsBefore(a, b, to, n);
    }
  }

  lemma SplitsBefore(a: string, b: string, to: Target, n: nat)
    requires a != "" && Apart(b) && n == (if MatchLength(a).Some? then MatchLength(a).value else 1) <= |a|
    requires Splits(a[n..], b, to)
    ensures Splits(a, b, to)
  {
    var first := if MatchLength(a).Some? then TargetText(to) else [a[0]];
    MatchApart(a, b);
    DropOfConcat(a, b, n);
    assert (a + b)[0] == a[0];
    assert RewriteText(a + b, to) == first + RewriteText(a[n..] + b, to);
    Regroup(first, RewriteText(a[n..], to), RewriteText(b, to));
  }

  /** White space and braces are copied. */
  lemma {:induction false} RewriteCopies(a: string, b: string, to: Target)
    requires forall c <- a :: Apart([c])
    ensures RewriteText(a + b, to) == a + RewriteText(b, to)
  {
    if a == "" {
      assert a + b == b;
    } else {
      assert a[0] in a;
      if MatchLength(a + b).Some? {
        MatchStartsWithDollar(a + b);
      }
      assert (a + b)[1..] == a[1..] + b;
      RewriteCopies(a[1..], b, to);
      assert a == [a[0]] + a[1..];
    }
  }

  // Rewriting and trimming

  /** Nothing to trim at either end. */
  predicate Trimmed(s: string) {
    s == "" || (!IsTrimmed(s[0]) && !IsTrimmed(s[|s| - 1]))
  }

  lemma {:induction false} TrimLeftSplit(s: string) returns (l: string)
    ensures Blank(l) && s == l + TrimLeft(s)
  {
    if s != "" && IsTrimmed(s[0]) {
      l := TrimLeftSplit(s[1..]);
      l := [s[0]] + l;
    } else {
      l := "";
    }
  }

  lemma {:induction false} TrimRightSplit(s: string) returns (r: string)
    ensures Blank(r) && s == TrimRight(s) + r && (TrimRight(s) != "" ==> !IsTrimmed(TrimRight(s)[|TrimRight(s)| - 1]))
  {
    if s != "" && IsTrimmed(s[|s| - 1]) {
      r := TrimRightSplit(s[..|s| - 1]);
      r := r + [s[|s| - 1]];
    } else {
      r := "";
    }
  }

  lemma {:induction false} TrimSplit(s: string) returns (l: string, r: string)
    ensures Blank(l) && Blank(r) && Trimmed(Trim(s)) && s == l + (Trim(s) + r)
  {
    l := TrimLeftSplit(s);
    r := TrimRightSplit(TrimLeft(s));
    if TrimLeft(s) != "" {
      TrimLeftStops(s);
      TrimRightKeeps(TrimLeft(s));
    }
  }

  lemma {:induction false} TrimLeftSkips(l: string, s: string)
    requires Blank(l) && (s != "" ==> !IsTrimmed(s[0]))
    ensures TrimLeft(l + s) == s
  {
    if l == "" {
      assert l + s == s;
    } else {
      assert l[0] in l && (l + s)[1..] == l[1..] + s;
      TrimLeftSkips(l[1..], s);
    }
  }

  lemma {:induction false} TrimRightSkips(s: string, r: string)
    requires Blank(r) && (s != "" ==> !IsTrimmed(s[|s| - 1]))
    ensures TrimRight(s + r) == s
  {
    if r == "" {
      assert s + r == s;
    } else {
      assert r[|r| - 1] in r && (s + r)[..|s + r| - 1] == s + r[..|r| - 1];
      TrimRightSkips(s, r[..|r| - 1]);
    }
  }

  lemma {:induction false} TrimJoined(l: string, s: string, r: string)
    requires Blank(l) && Blank(r) && Trimmed(s)
    ensures Trim(l + (s + r)) == s
  {
    if s == "" {
      assert l + (s + r) == l + r;
      TrimIsBlank(l + (s + r));
    } else {
      TrimLeftSkips(l, s + r);
      TrimRightSkips(s, r);
    }
  }

  lemma LastOfTarget(to: Target)
    ensures TargetText(to) != "" && !IsTrimmed(TargetText(to)[|TargetText(to)| - 1]) && TargetText(to)[0] == '$'
  {
  }

  lemma {:induction false} RewriteKeepsEnd(s: string, to: Target)
    requires s != "" && !IsTrimmed(s[|s| - 1])
    ensures RewriteText(s, to) != "" && !IsTrimmed(RewriteText(s, to)[|RewriteText(s, to)| - 1])
    decreases |s|
  {
    LastOfTarget(to);
    var n := if MatchLength(s).Some? then MatchLength(s).value else 1;
    if s[n..] != "" {
      RewriteKeepsEnd(s[n..], to);
    }
  }

  lemma {:induction false} RewriteKeepsTrimmed(s: string, to: Target)
    requires Trimmed(s)
    ensures Trimmed(RewriteText(s, to))
  {
    if s != "" {
      RewriteKeepsEnd(s, to);
      LastOfTarget(to);
    }
  }

  lemma BlankIsApart(s: string)
    requires Blank(s)
    ensures Apart(s) && forall c <- s :: Apart([c])
  {
  }

  /** Rewriting keeps the white space around an expression. */
  lemma {:induction false} RewriteAround(l: string, s: string, r: string, to: Target)
    requires Blank(l) && Blank(r)
    ensures RewriteText(l + (s + r), to) == l + (RewriteText(s, to) + r)
  {
    BlankIsApart(l);
    BlankIsApart(r);
    RewriteCopies(l, s + r, to);
    RewriteApart(s, r, to);
    RewriteCopies(r, "", to);
    assert r + "" == r;
  }

  lemma {:induction false} TrimCommutes(s: string, to: Target)
    ensures Trim(RewriteText(s, to)) == RewriteText(Trim(s), to)
  {
    var l, r := TrimSplit(s);
    RewriteAround(l, Trim(s), r, to);
    RewriteKeepsTrimmed(Trim(s), to);
    TrimJoined(l, RewriteText(Trim(s), to), r);
  }

  // The block scanner on a rewritten expression

  /** An empty block, or one around an expression that may be rewritten. */
  ghost predicate PortableHole(expr: string) {
    Trim(expr) == "" || Portable(Trim(expr))
  }

  lemma BlankIsPlain(s: string)
    requires Blank(s)
    ensures NoBraces(s)
  {
    forall j | 0 <= j < |s| ensures !IsQuote(s[j]) && s[j] != '}' && s[j] != '{' {
      assert s[j] in s;
    }
  }

  /** White space around a source the lexer accepts does not change what the block scanner sees. */
  lemma {:induction false} TrimmedBody(l: string, s: string, r: string, more: string)
    requires Blank(l) && Blank(r) && Lex(s, 0).Success?
    ensures PassesOver(l + (s + r), more)
  {
    BlankIsPlain(l);
    BlankIsPlain(r);
    PlainAgrees(r, more);
    LexedSourcePasses(s, 0, r + more);
    PassBoth(s, r, more);
    PlainAgrees(l, s + r + more);
    PassBoth(l, s + r, more);
  }

  lemma PassBoth(a: string, b: string, more: string)
    requires PassesOver(b, more) && PassesOver(a, b + more)
    ensures PassesOver(a + b, more)
  {
    Regroup(a, b, more);
  }

  lemma {:induction false} RewrittenLexes(src: string, to: Target)
    requires Portable(src)
    ensures Lex(RewriteText(src, to), 0).Success?
  {
    var ks := ParsedSource(src);
    ParsedIsSeparated(ks, ParseSource(src).value);
    CleanRewrite(src, to);
    KindsOfLex(RewriteText(src, to), 0);
  }

  lemma {:induction false} RewrittenBody(expr: string, to: Target, more: string)
    requires PortableHole(expr) && Closes(more)
    ensures BodyLength(None, RewriteText(expr, to) + more) == Some(|RewriteText(expr, to)|)
  {
    var l, r := TrimSplit(expr);
    RewriteAround(l, Trim(expr), r, to);
    if Trim(expr) != "" {
      RewrittenLexes(Trim(expr), to);
    }
    TrimmedBody(l, RewriteText(Trim(expr), to), r, more);
    assert BodyLength(None, more) == Some(0);
  }

  // Templates

  /** No reference outside of the blocks, and every block may be rewritten. */
  ghost predicate PortableTemplate(s: string)
    decreases |s|
  {
    if s == "" then true
    else if !Opens(s) then MatchLength(s).None? && PortableTemplate(s[1..])
    else
      match BodyLength(None, s[2..])
      case None => NoMatchIn(s, |s|)
      case Some(n) => PortableHole(s[2..n + 2]) && PortableTemplate(s[n + 4..])
  }

  function RewritePieces(ps: seq<Piece>, to: Target): seq<Piece> {
    seq(|ps|, j requires 0 <= j < |ps| => if ps[j].Hole? then Hole(RewriteText(ps[j].expr, to)) else ps[j])
  }

  lemma RewriteCharPieces(s: string, to: Target)
    ensures RewritePieces(Chars(s), to) == Chars(s)
  {
  }

  lemma RewriteMorePieces(p: Piece, ps: seq<Piece>, to: Target)
    ensures RewritePieces([p] + ps, to) == RewritePieces([p], to) + RewritePieces(ps, to)
  {
  }

  /** The pieces of the rewritten text are the rewritten pieces. */
  ghost predicate Piecewise(s: string, to: Target) {
    Pieces(RewriteText(s, to)) == RewritePieces(Pieces(s), to)
  }

  lemma {:induction false} TemplateRewriteIsPiecewise(s: string, to: Target)
    requires PortableTemplate(s)
    ensures Piecewise(s, to)
    decreases |s|
  {
    if s != "" {
      if !Opens(s) {
        TemplateRewriteIsPiecewise(s[1..], to);
        PlainPiecewise(s, to);
      } else {
        match BodyLength(None, s[2..])
        case None => UnclosedIsCopied(s, to);
        case Some(n) =>
          TemplateRewriteIsPiecewise(s[n + 4..], to);
          HolePiecewise(s, n, to);
      }
    }
  }

  lemma {:induction false} PlainPiecewise(s: string, to: Target)
    requires s != "" && !Opens(s) && MatchLength(s).None? && Piecewise(s[1..], to)
    ensures Piecewise(s, to)
  {
    CopiedChar(s, to);
    RewriteMorePieces(Plain(s[0]), Pieces(s[1..]), to);
  }

  lemma {:induction false} HolePiecewise(s: string, n: nat, to: Target)
    requires Opens(s) && BodyLength(None, s[2..]) == Some(n) && PortableHole(s[2..n + 2]) && Piecewise(s[n + 4..], to)
    ensures Piecewise(s, to)
  {
    RewrittenBlock(s, n, to);
    RewriteMorePieces(Hole(s[2..n + 2]), Pieces(s[n + 4..]), to);
  }

  lemma {:induction false} CopiedChar(s: string, to: Target)
    requires s != "" && !Opens(s) && MatchLength(s).None?
    ensures Pieces(RewriteText(s, to)) == [Plain(s[0])] + Pieces(RewriteText(s[1..], to))
  {
    RewriteTextKeepsFront(s, to);
    assert RewriteText(s, to)[1..] == RewriteText(s[1..], to);
  }

  lemma {:induction false} UnclosedIsCopied(s: string, to: Target)
    requires NoMatchIn(s, |s|) && Opens(s) && BodyLength(None, s[2..]).None?
    ensures Piecewise(s, to)
  {
    RewriteTextCopies(s, |s|, to);
    assert s[..|s|] + RewriteText(s[|s|..], to) == s;
    RewriteCharPieces(s, to);
  }

  lemma {:induction false} RewrittenBlock(s: string, n: nat, to: Target)
    requires Opens(s) && BodyLength(None, s[2..]) == Some(n) && PortableHole(s[2..n + 2])
    ensures n + 4 <= |s|
    ensures Pieces(RewriteText(s, to)) == [Hole(RewriteText(s[2..n + 2], to))] + Pieces(RewriteText(s[n + 4..], to))
  {
    var expr, rest := s[2..n + 2], s[n + 4..];
    BlockText(s, n);
    RewriteCopies("{{", expr + ("}}" + rest), to);
    RewriteApart(expr, "}}" + rest, to);
    RewriteCopies("}}", rest, to);
    RewrittenBody(expr, to, "}}" + RewriteText(rest, to));
    BlockPieces(RewriteText(expr, to), RewriteText(rest, to));
  }

  lemma BlockText(s: string, n: nat)
    requires Opens(s) && BodyLength(None, s[2..]) == Some(n)
    ensures n + 4 <= |s| && s == "{{" + (s[2..n + 2] + ("}}" + s[n + 4..]))
  {
    assert Closes(s[2..][n..]);
  }

  lemma BlockPieces(expr: string, rest: string)
    requires BodyLength(None, expr + ("}}" + rest)) == Some(|expr|)
    ensures Pieces("{{" + (expr + ("}}" + rest))) == [Hole(expr)] + Pieces(rest)
  {
    var t := "{{" + (expr + ("}}" + rest));
    assert t[2..] == expr + ("}}" + rest) && t[2..|expr| + 2] == expr && t[|expr| + 4..] == rest;
  }
}
