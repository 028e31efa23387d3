/** What keys, queue numbers, chunks and statements of a batch are. */
module UpsertLaws {
  import opened Results
  import opened Numbers
  import opened Upsert
  import opened UpsertBatches

  /** A missing or null queue number counts as 0, a number as itself, and a text as the number it stands for, if any. */
  lemma QueueLaw(number: string -> Option<int>, r: Record, n: int, s: string)
    ensures "queueId" !in r || r["queueId"] == Null ==> QueueId(number, r) == Some(0)
    ensures "queueId" in r && r["queueId"] == Int(n) ==> QueueId(number, r) == Some(n)
    ensures "queueId" in r && r["queueId"] == Text(s) ==> QueueId(number, r) == number(s)
  {
  }

  /** `String(value ?? '')`. */
  lemma TextLaw(n: int, s: string)
    ensures StringOf(Null) == "" && StringOf(Text(s)) == s
    ensures n >= 0 ==> StringOf(Int(n)) == Decimal(n)
    ensures n < 0 ==> StringOf(Int(n)) == "-" + Decimal(-n)
  {
  }

  /** Records are deduplicated by the text of their conflict value, or by two such texts with NUL between them. */
  lemma KeyLaw(r: Record, f: string, g: string)
    ensures MapKey([f], r) == StringOf(if f in r then r[f] else Null)
    ensures MapKey([f, g], r)
            == StringOf(if f in r then r[f] else Null) + ['\U{0000}'] + StringOf(if g in r then r[g] else Null)
  {
    assert Strings(Cells(r, [f])) == [StringOf(At(r, f))];
    var two := Strings(Cells(r, [f, g]));
    assert two == [StringOf(At(r, f)), StringOf(At(r, g))] && two[1..] == [StringOf(At(r, g))];
    assert Join(two[1..]) == StringOf(At(r, g));
    assert Join(two) == two[0] + [NUL] + Join(two[1..]);
  }

  /** The columns of a chunk are all that its records carry, but not the surrogate key. */
  lemma ColumnsLaw(rows: seq<Record>, f: string)
    ensures f in AllKeys(rows) <==> f != "globalId" && exists k | 0 <= k < |rows| :: f in rows[k]
  {
    if f in AllKeys(rows) {
      var r :| r in rows && f in r;
      var k :| 0 <= k < |rows| && rows[k] == r;
    }
    if k :| 0 <= k < |rows| && f in rows[k] {
      assert rows[k] in rows;
    }
  }

  // Order

  /** `i` is the first place of a key. */
  predicate FirstPlace(cfg: Config, records: seq<Record>, key: string, i: nat) {
    i < |records| && MapKey(cfg.conflict, records[i]) == key
    && forall j | 0 <= j < i :: MapKey(cfg.conflict, records[j]) != key
  }

  /** The kept records stand in the order in which their keys first occur. */
  ghost predicate InFirstOrder(cfg: Config, records: seq<Record>, keys: seq<string>, places: seq<nat>) {
    && |places| == |keys|
    && (forall k | 0 <= k < |keys| :: FirstPlace(cfg, records, keys[k], places[k]))
    && (forall j, k | 0 <= j < k < |keys| :: places[j] < places[k])
    && (forall i | 0 <= i < |records| :: MapKey(cfg.conflict, records[i]) in keys)
  }

  lemma {:induction false} DedupedOrder(cfg: Config, records: seq<Record>) returns (places: seq<nat>)
    ensures InFirstOrder(cfg, records, FirstKeys(cfg, records), places)
  {
    places := [];
    if records != [] {
      var front, last := records[..|records| - 1], records[|records| - 1];
      places := DedupedOrder(cfg, front);
      var keys, key := FirstKeys(cfg, front), MapKey(cfg.conflict, last);
      assert records == front + [last];
      if key !in keys {
        places := places + [|front|];
      }
    }
  }

  // Chunks

  /** Chunk `i` holds the rows from `i * size` on, `size` of them unless the rows end before. */
  lemma {:induction false} ChunksLaw(rows: seq<Record>, size: nat, i: nat)
    requires size >= 1
    ensures i < |Chunks(rows, size)| <==> i * size < |rows|
    ensures i < |Chunks(rows, size)| ==>
              Chunks(rows, size)[i] == rows[i * size..if (i + 1) * size < |rows| then (i + 1) * size else |rows|]
    decreases |rows|
  {
    if i == 0 {
      assert 0 * size == 0 && 1 * size == size;
      assert rows[0..] == rows && rows[..|rows|] == rows;
    } else {
      assert i * size == (i - 1) * size + size && (i + 1) * size == i * size + size && (i - 1) * size >= 0;
      if |rows| > size {
        ChunksLaw(rows[size..], size, i - 1);
        if i * size < |rows| {
          ChunkBehind(rows, size, (i - 1) * size, i * size);
        }
      }
    }
  }

  lemma ChunkBehind(rows: seq<Record>, size: nat, from: nat, to: nat)
    requires size < |rows| && to == from + size && from < |rows| - size
    ensures var rest := rows[size..];
            rest[from..if to < |rest| then to else |rest|] == rows[to..if to + size < |rows| then to + size else |rows|]
  {
  }

  // Rows

  /** One upsert: a new row has the carried columns and null in all others; an existing row keeps its conflict columns
      and those that are not written; and no other row changes. */
  lemma RowLaw(cfg: Config, table: Table, r: Record, cols: set<string>, other: seq<Cell>, c: string)
    ensures var key, after := KeyOf(cfg, r), UpsertRow(cfg, table, r, cols);
            && key in after && after[key].Keys == cfg.columns
            && (other != key ==>
                  (other in after <==> other in table) && (other in table ==> after[other] == table[other]))
            && (c in cfg.columns ==>
                  after[key][c] == if c in cols && (key !in table || c !in cfg.conflict) then At(r, c)
                                   else if key in table then At(table[key], c)
                                   else Null)
  {
  }

  /** A statement needs a column beside the conflict columns, and at most 100 parameters. */
  lemma StatementLaw(cfg: Config, table: Table, chunk: seq<Record>)
    requires chunk != [] && AllKeys(chunk) != {}
    ensures RunChunk(cfg, table, chunk).Some?
            <==> |chunk| * |AllKeys(chunk)| <= 100 && exists f <- AllKeys(chunk) :: f !in cfg.conflict
  {
    Product(1, 1, |chunk|, |AllKeys(chunk)|);
  }
}
