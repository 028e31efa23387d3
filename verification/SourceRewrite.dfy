/** The per-item rewrite of source text keeps its meaning. */
module SourceRewrite {
  import opened Results
  import opened Syntax
  import opened Tokenizer
  import opened LexerTheorems
  import opened Frontend
  import opened ParserSpec
  import Grammar
  import opened ParserSoundness
  import opened Values
  import opened ItemRewrite
  import opened ItemReferences
  import opened ItemMeaning
  import opened ItemSource
  import opened ItemTheorem

  /** What a successful parse says about the tokens. */
  lemma {:induction false} ParsedSource(src: string) returns (ks: seq<Kind>)
    requires ParseSource(src).Success?
    ensures KindsOf(src) == Some(ks) && Eof !in ks && |ks| < MAX_TOKENS && |src| <= MAX_SOURCE_LENGTH
    ensures ParseProgram(ks + [Eof]) == Ok(ParseSource(src).value, [])
  {
    var tokens := Lex(src, 0).value;
    ks := Kinds(tokens);
    KindsOfLex(src, 0);
    LexIsLegal(src, 0);
    EndKind(tokens, |src|);
    OnlyEofIsLeft(ks);
  }

  lemma EndKind(tokens: seq<Token>, at: nat)
    ensures Kinds(tokens + [Token(Eof, at)]) == Kinds(tokens) + [Eof]
  {
  }

  lemma {:induction false} OnlyEofIsLeft(ks: seq<Kind>)
    requires Eof !in ks && ParseProgram(ks + [Eof]).Ok?
    ensures ParseProgram(ks + [Eof]).rest == []
  {
    var rest := ParseTernary(ks + [Eof]).rest;
    var c := SoundTernary(ks + [Eof]);
    if rest != [] {
      assert (Grammar.Yield(c) + rest)[|Grammar.Yield(c)|] == Eof;
    }
  }

  /** Tokens that can be lexed from a short text and that parse are a successful parse of that text. */
  lemma {:induction false} ParsesSource(src: string, ks: seq<Kind>, e: Expr)
    requires |src| <= MAX_SOURCE_LENGTH && KindsOf(src) == Some(ks) && |ks| < MAX_TOKENS
    requires ParseProgram(ks + [Eof]) == Ok(e, [])
    ensures ParseSource(src) == Success(e)
  {
    KindsOfLex(src, 0);
    EndKind(Lex(src, 0).value, |src|);
  }

  lemma {:induction false} RewrittenLengths(ks: seq<Kind>, i: nat)
    ensures |RewriteKinds(ks, Element)| <= |ks| && |RewriteKinds(ks, At(i))| == |ks|
    decreases |ks|
  {
    if ks != [] {
      RewrittenLengths(if WindowAt(ks) then ks[6..] else ks[1..], i);
    }
  }

  lemma {:induction false} ElementShortens(s: string)
    ensures |RewriteText(s, Element)| <= |s|
    decreases |s|
  {
    if s != "" {
      ElementShortens(if MatchLength(s).Some? then s[MatchLength(s).value..] else s[1..]);
    }
  }

  /** The names an expression looks up, read off its source. */
  function NamesIn(src: string): set<string> {
    if ParseSource(src).Success? then FreeNames(ParseSource(src).value) else {}
  }

  /** An expression that may be rewritten: it parses, every `$json` token belongs to a reference, no reference is
      spelled with spaces, and none stands in a string literal. */
  ghost predicate Portable(src: string) {
    && ParseSource(src).Success?
    && KindsOf(src).Some? && OnlyReferences(KindsOf(src).value)
    && CleanSource(src)
  }

  lemma {:induction false} ParsedIsSeparated(ks: seq<Kind>, e: Expr)
    requires Eof !in ks && ParseProgram(ks + [Eof]) == Ok(e, [])
    ensures Separated(ks)
  {
    ParserIsExact(ks, e);
    var c :| Grammar.Wf(c) && Grammar.Ast(c) == e && Grammar.Yield(c) == ks;
    YieldIsSeparated(c, []);
    assert Grammar.Yield(c) + [] == ks;
  }

  lemma {:induction false} SourceRewriteParses(host: Host, src: string, i: nat, item: Env, whole: Env)
    requires Portable(src)
    requires WritesIndex(host, i) && ItemOf(item, whole, i) && Agree(NamesIn(src), item, whole)
    ensures ParseSource(RewriteText(src, Element)).Success?
    ensures |RewriteText(src, At(i))| <= MAX_SOURCE_LENGTH ==>
              && ParseSource(RewriteText(src, At(i))).Success?
              && SameOnItem(host, item, whole, ParseSource(RewriteText(src, Element)).value,
                            ParseSource(RewriteText(src, At(i))).value)
  {
    var ks := ParsedSource(src);
    var e := ParseSource(src).value;
    TokenRewriteKeepsMeaning(host, ks, e, i, item, whole);
    ParsedIsSeparated(ks, e);
    CleanRewrite(src, Element);
    CleanRewrite(src, At(i));
    RewrittenLengths(ks, i);
    ElementShortens(src);
    RestIsEmpty(ks, Element);
    RestIsEmpty(ks, At(i));
    ParsesSource(RewriteText(src, Element), RewriteKinds(ks, Element),
                 ParseProgram(RewriteKinds(ks, Element) + [Eof]).value);
    if |RewriteText(src, At(i))| <= MAX_SOURCE_LENGTH {
      ParsesSource(RewriteText(src, At(i)), RewriteKinds(ks, At(i)),
                   ParseProgram(RewriteKinds(ks, At(i)) + [Eof]).value);
    }
  }

  lemma {:induction false} RestIsEmpty(ks: seq<Kind>, to: Target)
    requires Eof !in ks && ParseProgram(RewriteKinds(ks, to) + [Eof]).Ok?
    ensures ParseProgram(RewriteKinds(ks, to) + [Eof]).rest == []
  {
    RewriteAddsNoEof(ks, to);
    OnlyEofIsLeft(RewriteKinds(ks, to));
  }

  lemma {:induction false} RewriteAddsNoEof(ks: seq<Kind>, to: Target)
    requires Eof !in ks
    ensures Eof !in RewriteKinds(ks, to)
    decreases |ks|
  {
    if ks != [] {
      RewriteAddsNoEof(if WindowAt(ks) then ks[6..] else ks[1..], to);
    }
  }
}
