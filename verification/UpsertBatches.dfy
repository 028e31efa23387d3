/** Chunked statements against the simple upsert: equal, independent of chunks, and safe to run again. */
module UpsertBatches {
  import opened Results
  import opened Upsert
  import opened UpsertTheorems

  // What a list of rows makes of one key

  predicate Uniform(rows: seq<Record>, cols: set<string>) {
    forall r <- rows :: r.Keys - {"globalId"} == cols
  }

  /** The row of a key after an upsert of `r`. */
  function Written(cfg: Config, table: Table, key: seq<Cell>, r: Record, cols: set<string>): Row {
    if key in table then map c | c in cfg.columns :: if c in cols && c !in cfg.conflict then At(r, c) else
    At(table[key], c)
    else map c | c in cfg.columns :: if c in cols then At(r, c) else Null
  }

  lemma ConflictCells(cfg: Config, r1: Record, r2: Record, c: string)
    requires KeyOf(cfg, r1) == KeyOf(cfg, r2) && c in cfg.conflict
    ensures At(r1, c) == At(r2, c)
  {
    var j :| 0 <= j < |cfg.conflict| && cfg.conflict[j] == c;
    assert KeyOf(cfg, r1)[j] == KeyOf(cfg, r2)[j];
  }

  /** A later upsert of the same key overwrites an earlier one. */
  lemma WrittenTwice(cfg: Config, table: Table, r1: Record, r2: Record, cols: set<string>)
    requires KeyOf(cfg, r1) == KeyOf(cfg, r2)
    ensures Written(cfg, UpsertRow(cfg, table, r1, cols), KeyOf(cfg, r1), r2, cols)
            == Written(cfg, table, KeyOf(cfg, r1), r2, cols)
  {
    forall c | c in cfg.conflict ensures At(r1, c) == At(r2, c) {
      ConflictCells(cfg, r1, r2, c);
    }
  }

  function RowOf(cfg: Config, table: Table, rows: seq<Record>, cols: set<string>, key: seq<Cell>): Option<Row> {
    if LastFor(cfg, rows, key).Some? then Some(Written(cfg, table, key, LastFor(cfg, rows, key).value, cols))
    else if key in table then Some(table[key])
    else None
  }

  function Find(table: Table, key: seq<Cell>): Option<Row> {
    if key in table then Some(table[key]) else None
  }

  lemma {:induction false} RowsDecide(cfg: Config, table: Table, rows: seq<Record>, cols: set<string>, key: seq<Cell>)
    ensures Find(UpsertRows(cfg, table, rows, cols), key) == RowOf(cfg, table, rows, cols, key)
    ensures LastFor(cfg, rows, key).Some? ==> KeyOf(cfg, LastFor(cfg, rows, key).value) == key
    ensures LastFor(cfg, rows, key).Some? ==>
              forall r | KeyOf(cfg, r) == key ::
                Written(cfg, UpsertRows(cfg, table, rows, cols), key, r, cols) == Written(cfg, table, key, r, cols)
    ensures LastFor(cfg, rows, key).None? ==> Find(UpsertRows(cfg, table, rows, cols), key) == Find(table, key)
  {
    if rows != [] {
      var front, last := rows[..|rows| - 1], rows[|rows| - 1];
      RowsDecide(cfg, table, front, cols, key);
      var before := UpsertRows(cfg, table, front, cols);
      if KeyOf(cfg, last) == key {
        forall r | KeyOf(cfg, r) == key
          ensures Written(cfg, UpsertRow(cfg, before, last, cols), key, r, cols) == Written(cfg, table, key, r, cols)
        {
          WrittenTwice(cfg, before, last, r, cols);
        }
      }
    }
  }

  /** Two lists of rows with the same last record for every key do the same. */
  lemma {:induction false} SameLastSameTable(cfg: Config, table: Table, rows1: seq<Record>, rows2: seq<Record>,
                                             cols: set<string>)
    requires forall key :: LastFor(cfg, rows1, key) == LastFor(cfg, rows2, key)
    ensures UpsertRows(cfg, table, rows1, cols) == UpsertRows(cfg, table, rows2, cols)
  {
    var t1, t2 := UpsertRows(cfg, table, rows1, cols), UpsertRows(cfg, table, rows2, cols);
    forall key ensures Find(t1, key) == Find(t2, key) {
      RowsDecide(cfg, table, rows1, cols, key);
      RowsDecide(cfg, table, rows2, cols, key);
    }
    SameTable(t1, t2);
  }

  lemma SameTable(t1: Table, t2: Table)
    requires forall key :: Find(t1, key) == Find(t2, key)
    ensures t1 == t2
  {
    forall key ensures key in t1 <==> key in t2 {
      assert Find(t1, key) == Find(t2, key);
    }
    forall key | key in t1 && key in t2 ensures t1[key] == t2[key] {
      assert Find(t1, key) == Find(t2, key);
    }
  }

  // The deduplicated records

  lemma {:induction false} FirstKeysAreDistinct(cfg: Config, records: seq<Record>)
    ensures forall j, k | 0 <= j < k < |FirstKeys(cfg, records)| ::
              FirstKeys(cfg, records)[j] != FirstKeys(cfg, records)[k]
  {
    if records != [] {
      FirstKeysAreDistinct(cfg, records[..|records| - 1]);
    }
  }

  lemma {:induction false} LastOfDistinct(cfg: Config, rows: seq<Record>, j: nat)
    requires j < |rows| && forall k | j < k < |rows| :: KeyOf(cfg, rows[k]) != KeyOf(cfg, rows[j])
    ensures LastFor(cfg, rows, KeyOf(cfg, rows[j])) == Some(rows[j])
  {
    if j < |rows| - 1 {
      LastOfDistinct(cfg, rows[..|rows| - 1], j);
    }
  }

  lemma {:induction false} LastIsThere(cfg: Config, rows: seq<Record>, key: seq<Cell>) returns (j: nat)
    requires LastFor(cfg, rows, key).Some?
    ensures j < |rows| && LastFor(cfg, rows, key) == Some(rows[j]) && KeyOf(cfg, rows[j]) == key
  {
    if KeyOf(cfg, rows[|rows| - 1]) == key {
      j := |rows| - 1;
    } else {
      j := LastIsThere(cfg, rows[..|rows| - 1], key);
    }
  }

  /** The deduplicated rows: one for each conflict key, of the given records, the best of its key. */
  lemma {:induction false} DedupedRow(cfg: Config, records: seq<Record>, j: nat)
    requires Orderly(cfg, records) && j < |Deduped(cfg, records)|
    ensures var r := Deduped(cfg, records)[j];
            && r in records && MapKey(cfg.conflict, r) == FirstKeys(cfg, records)[j]
            && Best(cfg, records, KeyOf(cfg, r)) == Some(r)
  {
    var key := FirstKeys(cfg, records)[j];
    KeysHaveWinners(cfg, records, key);
    WinnerIsGiven(cfg, records, key);
    WinnerIsBest(cfg, records, Deduped(cfg, records)[j]);
  }

  lemma {:induction false} WinnerIsGiven(cfg: Config, records: seq<Record>, key: string)
    requires Winner(cfg, records, key).Some?
    ensures Winner(cfg, records, key).value in records
  {
    if Winner(cfg, records[..|records| - 1], key).Some? {
      WinnerIsGiven(cfg, records[..|records| - 1], key);
    }
  }

  lemma {:induction false} DedupedIsDistinct(cfg: Config, records: seq<Record>)
    requires Orderly(cfg, records)
    ensures var rows := Deduped(cfg, records);
            forall j, k | 0 <= j < k < |rows| :: KeyOf(cfg, rows[k]) != KeyOf(cfg, rows[j])
  {
    var rows := Deduped(cfg, records);
    FirstKeysAreDistinct(cfg, records);
    forall j, k | 0 <= j < k < |rows| ensures KeyOf(cfg, rows[k]) != KeyOf(cfg, rows[j]) {
      DedupedRow(cfg, records, j);
      DedupedRow(cfg, records, k);
      KeysAgree(cfg, rows[j], rows[k]);
    }
  }

  /** One row per conflict key, the one with the highest queue number, and the last of those. */
  lemma {:induction false} DedupedLastIsBest(cfg: Config, records: seq<Record>, key: seq<Cell>)
    requires Orderly(cfg, records)
    ensures LastFor(cfg, Deduped(cfg, records), key) == Best(cfg, records, key)
  {
    var rows, best := Deduped(cfg, records), Best(cfg, records, key);
    DedupedIsDistinct(cfg, records);
    if LastFor(cfg, rows, key).Some? {
      var j := LastIsThere(cfg, rows, key);
      DedupedRow(cfg, records, j);
    } else if best.Some? {
      BestIsGiven(cfg, records, key);
      var s := MapKey(cfg.conflict, best.value);
      WinnerIsBest(cfg, records, best.value);
      KeysHaveWinners(cfg, records, s);
      var j :| 0 <= j < |FirstKeys(cfg, records)| && FirstKeys(cfg, records)[j] == s;
      LastOfDistinct(cfg, rows, j);
    }
  }

  lemma {:induction false} BestIsGiven(cfg: Config, records: seq<Record>, key: seq<Cell>)
    requires Best(cfg, records, key).Some?
    ensures Best(cfg, records, key).value in records && KeyOf(cfg, Best(cfg, records, key).value) == key
  {
    if Best(cfg, records[..|records| - 1], key).Some? {
      BestIsGiven(cfg, records[..|records| - 1], key);
    }
  }

  // Columns and binds

  lemma ColumnsOf(rows: seq<Record>, cols: set<string>)
    requires Uniform(rows, cols) && rows != []
    ensures AllKeys(rows) == cols
  {
    forall f | f in AllKeys(rows) ensures f in cols {}
    forall f | f in cols ensures f in AllKeys(rows) {
      assert rows[0] in rows && f in rows[0];
    }
    assert AllKeys(rows) <= cols <= AllKeys(rows);
  }

  lemma {:induction false} EachIsRows(cfg: Config, table: Table, rows: seq<Record>, cols: set<string>)
    requires Uniform(rows, cols)
    ensures UpsertEach(cfg, table, rows) == UpsertRows(cfg, table, rows, cols)
  {
    if rows != [] {
      var last := rows[|rows| - 1];
      EachIsRows(cfg, table, rows[..|rows| - 1], cols);
      ColumnsOf([last], cols);
    }
  }

  lemma {:induction false} SubsetIsSmaller(a: set<string>, b: set<string>)
    requires a <= b
    ensures |a| <= |b|
  {
    if a != {} {
      var x :| x in a;
      SubsetIsSmaller(a - {x}, b - {x});
    }
  }

  lemma Product(a: nat, b: nat, c: nat, d: nat)
    requires a <= c && b <= d
    ensures a * b <= c * d
  {
    assert a * b <= c * b <= c * d;
  }

  lemma {:induction false} ChunkRowsAreRows(rows: seq<Record>, size: nat)
    requires size >= 1
    ensures forall chunk <- Chunks(rows, size), r <- chunk :: r in rows
    ensures Flat(Chunks(rows, size)) == rows
    decreases |rows|
  {
    if |rows| > size {
      ChunkRowsAreRows(rows[size..], size);
      assert rows == rows[..size] + rows[size..];
    } else if rows != [] {
      assert rows + [] == rows && [rows][1..] == [];
    }
  }

  function Flat(chunks: seq<seq<Record>>): seq<Record> {
    if chunks == [] then [] else chunks[0] + Flat(chunks[1..])
  }

  /** With at most 100 columns in all, every statement keeps the bind limit, though the chunk size is computed from all
      rows and the columns of each statement from its own. */
  lemma {:induction false} StatementsKeepLimit(rows: seq<Record>, chunk: seq<Record>)
    requires |AllKeys(rows)| <= D1_MAX_BOUND_PARAMETERS && chunk in Chunks(rows, ChunkSize(rows))
    ensures Binds(chunk) <= D1_MAX_BOUND_PARAMETERS
  {
    ChunkRowsAreRows(rows, ChunkSize(rows));
    forall f | f in AllKeys(chunk) ensures f in AllKeys(rows) {
      var r :| r in chunk && f in r;
      assert r in rows;
    }
    SubsetIsSmaller(AllKeys(chunk), AllKeys(rows));
    Product(|chunk|, |AllKeys(chunk)|, ChunkSize(rows), |AllKeys(rows)|);
  }

  // The statements together

  lemma {:induction false} RowsTwice(cfg: Config, table: Table, a: seq<Record>, b: seq<Record>, cols: set<string>)
    ensures UpsertRows(cfg, table, a + b, cols) == UpsertRows(cfg, UpsertRows(cfg, table, a, cols), b, cols)
  {
    if b == [] {
      assert a + b == a;
    } else {
      RowsTwice(cfg, table, a, b[..|b| - 1], cols);
      assert (a + b)[..|a + b| - 1] == a + b[..|b| - 1];
    }
  }

  lemma {:induction false} FlatMore(chunks: seq<seq<Record>>, chunk: seq<Record>)
    ensures Flat(chunks + [chunk]) == Flat(chunks) + chunk
  {
    if chunks == [] {
      assert ([chunk])[1..] == [] && chunk + [] == chunk;
    } else {
      FlatMore(chunks[1..], chunk);
      assert (chunks + [chunk])[1..] == chunks[1..] + [chunk];
    }
  }

  /** Chunks that can be sent as statements: not empty, within the bind limit, and all of the same columns. */
  predicate Sendable(chunks: seq<seq<Record>>, cols: set<string>) {
    cols != {}
    && forall chunk <- chunks :: chunk != [] && Uniform(chunk, cols) && |chunk| * |cols| <= D1_MAX_BOUND_PARAMETERS
  }

  lemma SentChunk(cfg: Config, table: Table, chunk: seq<Record>, cols: set<string>)
    requires cols != {} && chunk != [] && Uniform(chunk, cols) && |chunk| * |cols| <= D1_MAX_BOUND_PARAMETERS
    requires Updates(cfg, cols)
    ensures RunChunk(cfg, table, chunk) == Some(UpsertRows(cfg, table, chunk, cols))
  {
    ColumnsOf(chunk, cols);
    Product(1, 1, |chunk|, |cols|);
    assert Binds(chunk) == |chunk| * |cols|;
    ValidStatement(cfg, table, chunk, cols);
  }

  lemma ValidStatement(cfg: Config, table: Table, chunk: seq<Record>, cols: set<string>)
    requires AllKeys(chunk) == cols && 1 <= Binds(chunk) <= D1_MAX_BOUND_PARAMETERS && Updates(cfg, cols)
    ensures RunChunk(cfg, table, chunk) == Some(UpsertRows(cfg, table, chunk, cols))
  {
  }

  lemma {:induction false} StatementsAreRows(cfg: Config, table: Table, chunks: seq<seq<Record>>, cols: set<string>)
    requires Sendable(chunks, cols) && Updates(cfg, cols)
    ensures AfterChunks(cfg, table, chunks) == Some(UpsertRows(cfg, table, Flat(chunks), cols))
  {
    if chunks != [] {
      var front, last := chunks[..|chunks| - 1], chunks[|chunks| - 1];
      assert chunks == front + [last];
      StatementsAreRows(cfg, table, front, cols);
      assert last in chunks;
      SentChunk(cfg, UpsertRows(cfg, table, Flat(front), cols), last, cols);
      FlatMore(front, last);
      RowsTwice(cfg, table, Flat(front), last, cols);
    }
  }

  lemma {:induction false} ChunksAreSendable(rows: seq<Record>, size: nat, cols: set<string>)
    requires size >= 1 && cols != {} && Uniform(rows, cols) && size * |cols| <= D1_MAX_BOUND_PARAMETERS
    ensures Sendable(Chunks(rows, size), cols)
  {
    ChunkRowsAreRows(rows, size);
    forall chunk | chunk in Chunks(rows, size) ensures |chunk| * |cols| <= D1_MAX_BOUND_PARAMETERS {
      Product(|chunk|, |cols|, size, |cols|);
    }
  }

  /** Records of one kind: their conflict values identify them, they carry queue numbers, and they share their
      columns. */
  predicate Batch(cfg: Config, records: seq<Record>, cols: set<string>) {
    Orderly(cfg, records) && Uniform(records, cols) && Updates(cfg, cols) && |cols| <= D1_MAX_BOUND_PARAMETERS
  }

  lemma {:induction false} DedupedIsUniform(cfg: Config, records: seq<Record>, cols: set<string>)
    requires Batch(cfg, records, cols)
    ensures Uniform(Deduped(cfg, records), cols) && cols != {}
  {
    RowsStayUniform(cfg, records, cols);
  }

  lemma {:induction false} RowsStayUniform(cfg: Config, records: seq<Record>, cols: set<string>)
    requires Orderly(cfg, records) && Uniform(records, cols)
    ensures Uniform(Deduped(cfg, records), cols)
  {
    var rows := Deduped(cfg, records);
    forall r | r in rows ensures r in records {
      var j :| 0 <= j < |rows| && rows[j] == r;
      DedupedRow(cfg, records, j);
    }
  }

  /** Any chunk size within the bind limit gives the table of the simple upsert: one record after the other, in stable
      ascending order of the queue numbers. */
  lemma {:induction false} ChunkedIsSimple(cfg: Config, table: Table, records: seq<Record>, cols: set<string>,
                                           size: nat)
    requires Batch(cfg, records, cols) && size >= 1 && size * |cols| <= D1_MAX_BOUND_PARAMETERS
    ensures AfterChunks(cfg, table, Chunks(Deduped(cfg, records), size))
            == Some(UpsertEach(cfg, table, StableSort(cfg, records)))
  {
    var rows, sorted := Deduped(cfg, records), StableSort(cfg, records);
    DedupedIsUniform(cfg, records, cols);
    ChunksAreSendable(rows, size, cols);
    StatementsAreRows(cfg, table, Chunks(rows, size), cols);
    ChunkRowsAreRows(rows, size);
    forall key ensures LastFor(cfg, rows, key) == LastFor(cfg, sorted, key) {
      DedupedLastIsBest(cfg, records, key);
      SortedLastIsBest(cfg, records, key);
    }
    SameLastSameTable(cfg, table, rows, sorted, cols);
    SortedIsUniform(cfg, records, cols);
    EachIsRows(cfg, table, sorted, cols);
  }

  lemma {:induction false} SortedIsUniform(cfg: Config, records: seq<Record>, cols: set<string>)
    requires Uniform(records, cols)
    ensures Uniform(StableSort(cfg, records), cols)
  {
    StableSortSorts(cfg, records);
    forall r | r in StableSort(cfg, records) ensures r in records {
      assert r in multiset(StableSort(cfg, records));
    }
  }

  /** The batch as the code chunks it. */
  lemma {:induction false} BatchIsSimple(cfg: Config, table: Table, records: seq<Record>, cols: set<string>)
    requires Batch(cfg, records, cols) && records != []
    ensures var rows := Deduped(cfg, records);
            AfterChunks(cfg, table, Chunks(rows, ChunkSize(rows)))
            == Some(UpsertEach(cfg, table, StableSort(cfg, records)))
  {
    var rows := Deduped(cfg, records);
    DedupedIsUniform(cfg, records, cols);
    DedupedIsNotEmpty(cfg, records);
    ColumnsOf(rows, cols);
    ChunkedIsSimple(cfg, table, records, cols, ChunkSize(rows));
  }

  lemma DedupedIsNotEmpty(cfg: Config, records: seq<Record>)
    requires records != []
    ensures Deduped(cfg, records) != []
  {
  }

  lemma {:induction false} FirstDecides(cfg: Config, table: Table, chunks: seq<seq<Record>>)
    requires chunks != [] && RunChunk(cfg, table, chunks[0]).None?
    ensures AfterChunks(cfg, table, chunks).None?
  {
    if |chunks| > 1 {
      FirstDecides(cfg, table, chunks[..|chunks| - 1]);
    } else {
      assert chunks[..0] == [];
    }
  }

  lemma ChunkFails(cfg: Config, table: Table, chunk: seq<Record>, cols: set<string>)
    requires chunk != [] && Uniform(chunk, cols) && cols != {}
    requires !Updates(cfg, cols) || |cols| > D1_MAX_BOUND_PARAMETERS
    ensures RunChunk(cfg, table, chunk).None?
  {
    ColumnsOf(chunk, cols);
    Product(1, |cols|, |chunk|, |cols|);
  }

  /** Records that share their columns can be synchronised exactly if there is a column to update and at most 100 in
      all. */
  lemma {:induction false} BatchSucceedsIff(cfg: Config, table: Table, records: seq<Record>, cols: set<string>)
    requires Orderly(cfg, records) && Uniform(records, cols) && cols != {} && records != []
    ensures var rows := Deduped(cfg, records);
            AfterChunks(cfg, table, Chunks(rows, ChunkSize(rows))).Some?
            <==> Updates(cfg, cols) && |cols| <= D1_MAX_BOUND_PARAMETERS
  {
    if Updates(cfg, cols) && |cols| <= D1_MAX_BOUND_PARAMETERS {
      BatchIsSimple(cfg, table, records, cols);
    } else {
      var rows := Deduped(cfg, records);
      var chunks := Chunks(rows, ChunkSize(rows));
      DedupedIsNotEmpty(cfg, records);
      RowsStayUniform(cfg, records, cols);
      ChunkRowsAreRows(rows, ChunkSize(rows));
      assert chunks[0] in chunks && chunks[0] != [];
      ChunkFails(cfg, table, chunks[0], cols);
      FirstDecides(cfg, table, chunks);
    }
  }

  // Redelivery

  lemma {:induction false} LastOfBoth(cfg: Config, a: seq<Record>, b: seq<Record>, key: seq<Cell>)
    ensures LastFor(cfg, a + b, key)
            == if LastFor(cfg, b, key).Some? then LastFor(cfg, b, key) else LastFor(cfg, a, key)
  {
    if b == [] {
      assert a + b == a;
    } else {
      LastOfBoth(cfg, a, b[..|b| - 1], key);
      assert (a + b)[..|a + b| - 1] == a + b[..|b| - 1];
    }
  }

  /** Rows that are written a second time, after some of them were written before, leave the table as one time does. */
  lemma {:induction false} PrefixAgain(cfg: Config, table: Table, a: seq<Record>, b: seq<Record>, cols: set<string>)
    ensures UpsertRows(cfg, UpsertRows(cfg, table, a, cols), a + b, cols) == UpsertRows(cfg, table, a + b, cols)
  {
    RowsTwice(cfg, table, a, a + b, cols);
    forall key ensures LastFor(cfg, a + (a + b), key) == LastFor(cfg, a + b, key) {
      LastOfBoth(cfg, a, b, key);
      LastOfBoth(cfg, a, a + b, key);
    }
    SameLastSameTable(cfg, table, a + (a + b), a + b, cols);
  }

  lemma {:induction false} FlatSplits(chunks: seq<seq<Record>>, n: nat)
    requires n <= |chunks|
    ensures Flat(chunks) == Flat(chunks[..n]) + Flat(chunks[n..])
  {
    if n == 0 {
      assert chunks[..0] == [] && chunks[0..] == chunks;
      assert [] + Flat(chunks) == Flat(chunks);
    } else {
      FlatSplits(chunks[1..], n - 1);
      assert chunks[..n][1..] == chunks[1..][..n - 1] && chunks[n..] == chunks[1..][n - 1..]
             && chunks[..n][0] == chunks[0];
      assert chunks[0] + (Flat(chunks[1..][..n - 1]) + Flat(chunks[n..]))
             == chunks[0] + Flat(chunks[1..][..n - 1]) + Flat(chunks[n..]);
    }
  }

  /** A batch that broke off after any number of statements and is delivered again leaves the table of an unbroken
      batch. */
  lemma {:induction false} RedeliveryIsHarmless(cfg: Config, table: Table, records: seq<Record>, cols: set<string>,
                                                n: nat)
    requires Batch(cfg, records, cols) && records != []
    requires n <= |Chunks(Deduped(cfg, records), ChunkSize(Deduped(cfg, records)))|
    ensures var chunks := Chunks(Deduped(cfg, records), ChunkSize(Deduped(cfg, records)));
            && AfterChunks(cfg, table, chunks[..n]).Some?
            && AfterChunks(cfg, AfterChunks(cfg, table, chunks[..n]).value, chunks) == AfterChunks(cfg, table, chunks)
  {
    var rows := Deduped(cfg, records);
    var chunks := Chunks(rows, ChunkSize(rows));
    DedupedIsUniform(cfg, records, cols);
    DedupedIsNotEmpty(cfg, records);
    ColumnsOf(rows, cols);
    ChunksAreSendable(rows, ChunkSize(rows), cols);
    StatementsAreRows(cfg, table, chunks, cols);
    StatementsAreRows(cfg, table, chunks[..n], cols);
    var broken := UpsertRows(cfg, table, Flat(chunks[..n]), cols);
    StatementsAreRows(cfg, broken, chunks, cols);
    FlatSplits(chunks, n);
    PrefixAgain(cfg, table, Flat(chunks[..n]), Flat(chunks[n..]), cols);
  }

  // Records with different columns

  /** Columns that only other rows of the chunk have are written as null: the upsert of a record then differs from the
      simple one exactly if its row exists and holds something in such a column. */
  lemma WideningErases(cfg: Config, table: Table, r: Record, cols: set<string>)
    requires AllKeys([r]) <= cols && "globalId" !in cols
    ensures UpsertRow(cfg, table, r, cols) == UpsertRow(cfg, table, r, AllKeys([r]))
            <==> (KeyOf(cfg, r) in table ==>
                    forall f <- cols | f in cfg.columns && f !in r && f !in cfg.conflict ::
                      At(table[KeyOf(cfg, r)], f) == Null)
  {
    var key := KeyOf(cfg, r);
    var wide, own := UpsertRow(cfg, table, r, cols), UpsertRow(cfg, table, r, AllKeys([r]));
    forall f ensures f in AllKeys([r]) <==> f in r && f != "globalId" {
      assert r in [r];
    }
    if forall f <- cols | f in cfg.columns && f !in r && f !in cfg.conflict :: key in table ==>
      At(table[key], f) == Null {
      assert wide[key] == own[key];
    }
    if wide == own && key in table {
      forall f | f in cols && f in cfg.columns && f !in r && f !in cfg.conflict ensures At(table[key], f) == Null {
        assert wide[key][f] == Null && own[key][f] == At(table[key], f);
      }
    }
  }
}
