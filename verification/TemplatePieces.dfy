/** Interpolation without positions: a template as the characters and expressions it consists of. */
module TemplatePieces {
  import opened Results
  import opened Syntax
  import opened Values
  import opened Templates

  datatype Piece = Plain(c: char) | Hole(expr: string)

  function Chars(s: string): seq<Piece> {
    seq(|s|, j requires 0 <= j < |s| => Plain(s[j]))
  }

  function Pieces(s: string): seq<Piece>
    decreases |s|
  {
    if s == "" then []
    else if !Opens(s) then [Plain(s[0])] + Pieces(s[1..])
    else
      match BodyLength(None, s[2..])
      case None => Chars(s)
      case Some(n) => [Hole(s[2..n + 2])] + Pieces(s[n + 4..])
  }

  function Holes(ps: seq<Piece>): seq<string> {
    if ps == [] then [] else if ps[0].Hole? then [ps[0].expr] + Holes(ps[1..]) else Holes(ps[1..])
  }

  /** One expression and nothing but white space around it. */
  predicate Lone(ps: seq<Piece>) {
    |Holes(ps)| == 1 && forall p <- ps :: p.Plain? ==> IsTrimmed(p.c)
  }

  /** Characters as they are and values as text, from left to right; the first error ends it. */
  function Fill(rt: Runtime, ps: seq<Piece>, scope: Scope): Result<string, Error> {
    if ps == [] then Success("")
    else
      var text :- FillPiece(rt, ps[0], scope);
      PutText(text, Fill(rt, ps[1..], scope))
  }

  function FillPiece(rt: Runtime, p: Piece, scope: Scope): Result<string, Error> {
    match p
    case Plain(c) => Success([c])
    case Hole(expr) =>
      var v :- EvaluateExpression(rt, expr, scope);
      PlacedText(rt, v)
  }

  function Meaning(rt: Runtime, ps: seq<Piece>, scope: Scope): Result<Value, Error> {
    if Lone(ps) then EvaluateExpression(rt, Holes(ps)[0], scope)
    else
      var text :- Fill(rt, ps, scope);
      Success(Text(text))
  }

  // The positions of the blocks, as pieces

  lemma CharsMore(c: char, s: string)
    ensures Chars([c] + s) == [Plain(c)] + Chars(s)
  {
  }

  /** The pieces from position `i` on: up to the first block, the block, and what follows it. */
  ghost predicate ByBlock(t: string, i: nat, blocks: seq<Block>)
    requires i <= |t|
  {
    if blocks == [] then Pieces(t[i..]) == Chars(t[i..])
    else
      var b := blocks[0];
      && i <= b.start < b.end <= |t|
      && Pieces(t[i..]) == Chars(t[i..b.start]) + ([Hole(b.expr)] + Pieces(t[b.end..]))
      && blocks[1..] == Scan(t[b.end..], b.end)
  }

  lemma {:induction false} PiecesByBlock(t: string, i: nat)
    requires i <= |t|
    ensures ByBlock(t, i, Scan(t[i..], i))
    decreases |t| - i
  {
    if i < |t| {
      ScanStep(t, i);
      if !Opens(t[i..]) {
        PiecesByBlock(t, i + 1);
        PlainPiece(t, i, Scan(t[i + 1..], i + 1));
      } else {
        var close := BodyLength(None, t[i + 2..]);
        if close.Some? {
          HolePiece(t, i, close.value);
        } else {
          NoPiece(t, i);
        }
      }
    }
  }

  lemma PlainPiece(t: string, i: nat, blocks: seq<Block>)
    requires i < |t| && !Opens(t[i..]) && ByBlock(t, i + 1, blocks)
    ensures ByBlock(t, i, blocks)
  {
    assert t[i..][1..] == t[i + 1..];
    if blocks == [] {
      assert t[i..] == [t[i]] + t[i + 1..];
      CharsMore(t[i], t[i + 1..]);
    } else {
      var b := blocks[0];
      assert t[i..b.start] == [t[i]] + t[i + 1..b.start];
      CharsMore(t[i], t[i + 1..b.start]);
    }
  }

  lemma HolePiece(t: string, i: nat, n: nat)
    requires i + 2 <= |t| && Opens(t[i..]) && BodyLength(None, t[i + 2..]) == Some(n)
    ensures ByBlock(t, i, Scan(t[i..], i))
  {
    ScanBlock(t, i, n);
    PiecesOpen(t, i, n);
    BlockFirst(t, i, i + n + 4, t[i + 2..i + n + 2], Scan(t[i + n + 4..], i + n + 4), Scan(t[i..], i));
  }

  lemma PiecesOpen(t: string, i: nat, n: nat)
    requires i + 2 <= |t| && Opens(t[i..]) && BodyLength(None, t[i + 2..]) == Some(n)
    ensures i + n + 4 <= |t| && Pieces(t[i..]) == [Hole(t[i + 2..i + n + 2])] + Pieces(t[i + n + 4..])
  {
    HoleShape(t, i, n);
  }

  lemma HoleShape(t: string, i: nat, n: nat)
    requires i + n + 4 <= |t|
    ensures t[i..][2..] == t[i + 2..] && t[i..][n + 4..] == t[i + n + 4..] && t[i..][2..n + 2] == t[i + 2..i + n + 2]
  {
  }

  lemma BlockFirst(t: string, i: nat, end: nat, expr: string, more: seq<Block>, blocks: seq<Block>)
    requires i < end <= |t| && more == Scan(t[end..], end) && blocks == [Block(i, end, expr)] + more
    requires Pieces(t[i..]) == [Hole(expr)] + Pieces(t[end..])
    ensures ByBlock(t, i, blocks)
  {
    NoCharsBefore(t, i, [Hole(expr)] + Pieces(t[end..]));
    assert blocks[1..] == more;
  }

  lemma NoCharsBefore(t: string, i: nat, ps: seq<Piece>)
    requires i <= |t|
    ensures Chars(t[i..i]) + ps == ps
  {
  }

  lemma NoPiece(t: string, i: nat)
    requires i + 2 <= |t| && Opens(t[i..]) && BodyLength(None, t[i + 2..]).None?
    ensures ByBlock(t, i, Scan(t[i..], i))
  {
    assert t[i..][2..] == t[i + 2..];
  }

  lemma {:induction false} FillChars(rt: Runtime, s: string, ps: seq<Piece>, scope: Scope)
    ensures Fill(rt, Chars(s) + ps, scope) == PutText(s, Fill(rt, ps, scope))
  {
    if s == "" {
      assert Chars(s) + ps == ps;
      PutNoText(Fill(rt, ps, scope));
    } else {
      FillChars(rt, s[1..], ps, scope);
      CharsMore(s[0], s[1..]);
      assert s == [s[0]] + s[1..];
      assert (Chars(s) + ps)[1..] == Chars(s[1..]) + ps;
      PutTextTwice([s[0]], s[1..], Fill(rt, ps, scope));
    }
  }

  lemma {:induction false} SpliceIsFill(rt: Runtime, t: string, i: nat, scope: Scope)
    requires i <= |t| && InOrder(t, Scan(t[i..], i), i)
    ensures Splice(rt, t, Scan(t[i..], i), i, scope) == Fill(rt, Pieces(t[i..]), scope)
    decreases |t| - i
  {
    var blocks := Scan(t[i..], i);
    PiecesByBlock(t, i);
    if blocks == [] {
      assert Chars(t[i..]) + [] == Chars(t[i..]);
      FillChars(rt, t[i..], [], scope);
      assert t[i..] + "" == t[i..];
    } else {
      var b := blocks[0];
      ScanInOrder(t, b.end);
      SpliceIsFill(rt, t, b.end, scope);
      FillChars(rt, t[i..b.start], [Hole(b.expr)] + Pieces(t[b.end..]), scope);
      FillHole(rt, b.expr, Pieces(t[b.end..]), scope);
      SpliceFirst(rt, t, blocks, i, scope);
    }
  }

  lemma FillHole(rt: Runtime, expr: string, ps: seq<Piece>, scope: Scope)
    ensures Fill(rt, [Hole(expr)] + ps, scope)
            == Then(FillPiece(rt, Hole(expr), scope), Fill(rt, ps, scope))
  {
    assert ([Hole(expr)] + ps)[1..] == ps;
  }

  function Then(first: Result<string, Error>, r: Result<string, Error>): Result<string, Error> {
    if first.Failure? then first else PutText(first.value, r)
  }

  lemma SpliceFirst(rt: Runtime, t: string, blocks: seq<Block>, cursor: nat, scope: Scope)
    requires cursor <= |t| && InOrder(t, blocks, cursor) && blocks != []
    ensures Splice(rt, t, blocks, cursor, scope)
            == PutText(t[cursor..blocks[0].start],
                       Then(FillPiece(rt, Hole(blocks[0].expr), scope), Splice(rt, t, blocks[1..], blocks[0].end,
                       scope)))
  {
    var gap := t[cursor..blocks[0].start];
    var text := FillPiece(rt, Hole(blocks[0].expr), scope);
    var rest := Splice(rt, t, blocks[1..], blocks[0].end, scope);
    if text.Success? && rest.Success? {
      assert gap + text.value + rest.value == gap + (text.value + rest.value);
    }
  }

  // A lone expression

  predicate Blank(s: string) {
    forall c <- s :: IsTrimmed(c)
  }

  lemma {:induction false} TrimLeftOfBlank(s: string)
    ensures Blank(s) <==> TrimLeft(s) == ""
  {
    if s != "" {
      TrimLeftOfBlank(s[1..]);
      assert s == [s[0]] + s[1..];
    }
  }

  lemma {:induction false} TrimIsBlank(s: string)
    ensures Trim(s) == "" <==> Blank(s)
  {
    TrimLeftOfBlank(s);
    if TrimLeft(s) != "" {
      TrimLeftStops(s);
      TrimRightKeeps(TrimLeft(s));
    }
  }

  lemma {:induction false} TrimLeftStops(s: string)
    requires TrimLeft(s) != ""
    ensures !IsTrimmed(TrimLeft(s)[0])
  {
    if IsTrimmed(s[0]) {
      TrimLeftStops(s[1..]);
    }
  }

  lemma {:induction false} TrimRightKeeps(s: string)
    requires s != "" && !IsTrimmed(s[0])
    ensures TrimRight(s) != "" && TrimRight(s)[0] == s[0]
  {
    if IsTrimmed(s[|s| - 1]) {
      TrimRightKeeps(s[..|s| - 1]);
    }
  }

  lemma {:induction false} HolesOfChars(s: string, ps: seq<Piece>)
    ensures Holes(Chars(s) + ps) == Holes(ps)
  {
    if s == "" {
      assert Chars(s) + ps == ps;
    } else {
      HolesOfChars(s[1..], ps);
      assert (Chars(s) + ps)[1..] == Chars(s[1..]) + ps;
    }
  }

  lemma {:induction false} HolesOfBlocks(t: string, i: nat)
    requires i <= |t|
    ensures |Holes(Pieces(t[i..]))| == |Scan(t[i..], i)|
    decreases |t| - i
  {
    PiecesByBlock(t, i);
    var blocks := Scan(t[i..], i);
    if blocks == [] {
      HolesOfChars(t[i..], []);
      assert Chars(t[i..]) + [] == Chars(t[i..]);
    } else {
      var b := blocks[0];
      HolesOfBlocks(t, b.end);
      HolesOfChars(t[i..b.start], [Hole(b.expr)] + Pieces(t[b.end..]));
      assert ([Hole(b.expr)] + Pieces(t[b.end..]))[1..] == Pieces(t[b.end..]);
    }
  }

  lemma BlankChars(s: string)
    ensures Blank(s) <==> forall p <- Chars(s) :: p.Plain? ==> IsTrimmed(p.c)
  {
    forall c | c in s ensures Plain(c) in Chars(s) {
      var j :| 0 <= j < |s| && s[j] == c;
      assert Chars(s)[j] == Plain(c);
    }
  }

  lemma {:induction false} LoneBlock(t: string, b: Block)
    requires Scan(t, 0) == [b]
    ensures b.start < b.end <= |t| && Holes(Pieces(t)) == [b.expr]
    ensures Lone(Pieces(t)) <==> IsSingleExpression(t, [b])
  {
    assert t[0..] == t && [b][1..] == [];
    PiecesByBlock(t, 0);
    PiecesByBlock(t, b.end);
    var front, behind := t[..b.start], t[b.end..];
    assert t[0..b.start] == front;
    HolesOfChars(front, [Hole(b.expr)] + Chars(behind));
    HolesOfChars(behind, []);
    assert Chars(behind) + [] == Chars(behind) && ([Hole(b.expr)] + Chars(behind))[1..] == Chars(behind);
    BlankChars(front);
    BlankChars(behind);
    TrimIsBlank(front);
    TrimIsBlank(behind);
  }

  /** Interpolation by positions and by pieces are the same. */
  lemma {:induction false} InterpolatedIsMeaning(rt: Runtime, t: string, scope: Scope)
    ensures Interpolated(rt, t, scope) == Meaning(rt, Pieces(t), scope)
  {
    var blocks := TemplateBlocks(t);
    assert t[0..] == t;
    ScanInOrder(t, 0);
    SpliceIsFill(rt, t, 0, scope);
    HolesOfBlocks(t, 0);
    if |blocks| == 1 {
      LoneBlock(t, blocks[0]);
      assert blocks == [blocks[0]];
    }
  }
}
