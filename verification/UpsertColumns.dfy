/** Records with different columns: when the batched upsert still is the simple one. */
module UpsertColumns {
  import opened Results
  import opened Upsert
  import opened UpsertTheorems
  import opened UpsertBatches

  /** A table has conflict columns of its own, beside the surrogate key. */
  predicate ValidConfig(cfg: Config) {
    cfg.conflict != [] && forall f <- cfg.conflict :: f in cfg.columns && f != "globalId"
  }

  predicate Carries(r: Record, c: string) {
    c in r && c != "globalId"
  }

  predicate Updatable(cfg: Config, c: string) {
    c in cfg.columns && c !in cfg.conflict
  }

  lemma OwnColumns(r: Record)
    ensures forall c :: c in AllKeys([r]) <==> Carries(r, c)
  {
    assert r in [r];
  }

  // One record after the other

  /** What the last record of a key that carries a column says there. */
  function LastValue(cfg: Config, records: seq<Record>, key: seq<Cell>, c: string): Option<Cell> {
    if records == [] then None
    else
      var last := records[|records| - 1];
      if KeyOf(cfg, last) == key && Carries(last, c) then Some(last[c])
      else LastValue(cfg, records[..|records| - 1], key, c)
  }

  function Before(table: Table, key: seq<Cell>, c: string): Cell {
    if key in table then At(table[key], c) else Null
  }

  function EachCell(cfg: Config, table: Table, records: seq<Record>, key: seq<Cell>, c: string): Cell
    requires LastFor(cfg, records, key).Some?
  {
    if c in cfg.conflict then (if key in table then At(table[key], c) else At(LastFor(cfg, records, key).value, c))
    else if LastValue(cfg, records, key, c).Some? then LastValue(cfg, records, key, c).value
    else Before(table, key, c)
  }

  function EachCells(cfg: Config, table: Table, records: seq<Record>, key: seq<Cell>): Row
    requires LastFor(cfg, records, key).Some?
  {
    map c | c in cfg.columns :: EachCell(cfg, table, records, key, c)
  }

  function EachRow(cfg: Config, table: Table, records: seq<Record>, key: seq<Cell>): Option<Row> {
    if LastFor(cfg, records, key).None? then Find(table, key)
    else Some(EachCells(cfg, table, records, key))
  }

  lemma SameCells(cfg: Config, before: Table, table: Table, records: seq<Record>, key: seq<Cell>, r: Record,
                  cols: set<string>)
    requires LastFor(cfg, records, key).Some?
    requires forall c <- cfg.columns :: Written(cfg, before, key, r, cols)[c] == EachCell(cfg, table, records, key, c)
    ensures Written(cfg, before, key, r, cols) == EachCells(cfg, table, records, key)
  {
    assert Written(cfg, before, key, r, cols).Keys == cfg.columns;
    assert EachCells(cfg, table, records, key).Keys == cfg.columns;
  }

  lemma {:induction false} EachDecides(cfg: Config, table: Table, records: seq<Record>, key: seq<Cell>)
    requires ValidConfig(cfg) && forall r <- records :: Keyed(cfg, r)
    ensures Find(UpsertEach(cfg, table, records), key) == EachRow(cfg, table, records, key)
  {
    if records != [] {
      var front, last := records[..|records| - 1], records[|records| - 1];
      EachDecides(cfg, table, front, key);
      LastHasKey(cfg, front, key);
      EachStep(cfg, UpsertEach(cfg, table, front), table, records, front, last, key);
    }
  }

  lemma {:induction false} LastHasKey(cfg: Config, records: seq<Record>, key: seq<Cell>)
    ensures LastFor(cfg, records, key).Some? ==> KeyOf(cfg, LastFor(cfg, records, key).value) == key
    ensures LastFor(cfg, records, key).None? ==> forall c :: LastValue(cfg, records, key, c).None?
  {
    if records != [] {
      LastHasKey(cfg, records[..|records| - 1], key);
    }
  }

  /** `records` is `front` with `last` behind it, and `before` holds what `front` makes of the key. */
  ghost predicate Extends(cfg: Config, before: Table, table: Table, records: seq<Record>, front: seq<Record>,
                          last: Record, key: seq<Cell>) {
    && records != [] && front == records[..|records| - 1] && last == records[|records| - 1]
    && ValidConfig(cfg) && Keyed(cfg, last) && Find(before, key) == EachRow(cfg, table, front, key)
    && (LastFor(cfg, front, key).Some? ==> KeyOf(cfg, LastFor(cfg, front, key).value) == key)
    && (LastFor(cfg, front, key).None? ==> forall c :: LastValue(cfg, front, key, c).None?)
  }

  lemma EachConflictCell(cfg: Config, before: Table, table: Table, records: seq<Record>, front: seq<Record>,
                         last: Record, key: seq<Cell>, c: string)
    requires Extends(cfg, before, table, records, front, last, key) && KeyOf(cfg, last) == key && c in cfg.conflict
    ensures Written(cfg, before, key, last, AllKeys([last]))[c] == EachCell(cfg, table, records, key, c)
  {
    OwnColumns(last);
    assert At(last, c).Text? && Carries(last, c) && c in cfg.columns;
    if LastFor(cfg, front, key).Some? {
      ConflictCells(cfg, LastFor(cfg, front, key).value, last, c);
      assert before[key][c] == EachCell(cfg, table, front, key, c);
    }
  }

  lemma EachOtherCell(cfg: Config, before: Table, table: Table, records: seq<Record>, front: seq<Record>, last: Record,
                      key: seq<Cell>, c: string)
    requires Extends(cfg, before, table, records, front, last, key) && KeyOf(cfg, last) == key && Updatable(cfg, c)
    ensures Written(cfg, before, key, last, AllKeys([last]))[c] == EachCell(cfg, table, records, key, c)
  {
    OwnColumns(last);
    if LastFor(cfg, front, key).Some? {
      assert before[key][c] == EachCell(cfg, table, front, key, c);
    } else {
      assert Find(before, key) == Find(table, key);
      assert LastValue(cfg, front, key, c).None?;
    }
    if Carries(last, c) {
      assert LastValue(cfg, records, key, c) == Some(last[c]);
      assert Written(cfg, before, key, last, AllKeys([last]))[c] == last[c];
    } else {
      assert LastValue(cfg, records, key, c) == LastValue(cfg, front, key, c);
      assert Written(cfg, before, key, last, AllKeys([last]))[c] == Before(before, key, c);
    }
  }

  lemma OtherKey(cfg: Config, table: Table, records: seq<Record>, key: seq<Cell>)
    requires records != [] && KeyOf(cfg, records[|records| - 1]) != key
    ensures EachRow(cfg, table, records, key) == EachRow(cfg, table, records[..|records| - 1], key)
  {
    var front := records[..|records| - 1];
    if LastFor(cfg, front, key).Some? {
      assert EachCells(cfg, table, records, key).Keys == cfg.columns;
      assert EachCells(cfg, table, front, key).Keys == cfg.columns;
      forall c | c in cfg.columns ensures EachCell(cfg, table, records, key, c) == EachCell(cfg, table, front, key, c) {
      }
      assert EachCells(cfg, table, records, key) == EachCells(cfg, table, front, key);
    }
  }

  lemma EachStep(cfg: Config, before: Table, table: Table, records: seq<Record>, front: seq<Record>, last: Record,
                 key: seq<Cell>)
    requires Extends(cfg, before, table, records, front, last, key)
    ensures Find(UpsertRow(cfg, before, last, AllKeys([last])), key) == EachRow(cfg, table, records, key)
  {
    if KeyOf(cfg, last) == key {
      forall c | c in cfg.columns
        ensures Written(cfg, before, key, last, AllKeys([last]))[c] == EachCell(cfg, table, records, key, c)
      {
        if c in cfg.conflict {
          EachConflictCell(cfg, before, table, records, front, last, key, c);
        } else {
          EachOtherCell(cfg, before, table, records, front, last, key, c);
        }
      }
      SameCells(cfg, before, table, records, key, last, AllKeys([last]));
    } else {
      OtherKey(cfg, table, records, key);
    }
  }

  // Chunk after chunk

  /** Every chunk is a valid statement within the bind limit. */
  predicate Fit(cfg: Config, chunks: seq<seq<Record>>) {
    forall k | 0 <= k < |chunks| :: FitsAlone(cfg, chunks[k])
  }

  predicate FitsAlone(cfg: Config, chunk: seq<Record>) {
    Binds(chunk) <= D1_MAX_BOUND_PARAMETERS && Updates(cfg, AllKeys(chunk))
  }

  predicate Distinct(cfg: Config, rows: seq<Record>) {
    forall j, k | 0 <= j < k < |rows| :: KeyOf(cfg, rows[k]) != KeyOf(cfg, rows[j])
  }

  /** A row and the columns of its chunk. */
  datatype Placed = Placed(row: Record, cols: set<string>)

  function PlaceOf(cfg: Config, chunks: seq<seq<Record>>, key: seq<Cell>): Option<Placed> {
    if chunks == [] then None
    else
      var last := chunks[|chunks| - 1];
      if LastFor(cfg, last, key).Some? then Some(Placed(LastFor(cfg, last, key).value, AllKeys(last)))
      else PlaceOf(cfg, chunks[..|chunks| - 1], key)
  }

  function PlacedRow(cfg: Config, table: Table, p: Option<Placed>, key: seq<Cell>): Option<Row> {
    if p.None? then Find(table, key) else Some(Written(cfg, table, key, p.value.row, p.value.cols))
  }

  lemma DistinctParts(cfg: Config, a: seq<Record>, b: seq<Record>, key: seq<Cell>)
    requires Distinct(cfg, a + b)
    ensures Distinct(cfg, a) && Distinct(cfg, b)
    ensures LastFor(cfg, a, key).None? || LastFor(cfg, b, key).None?
  {
    forall j, k | 0 <= j < k < |a| ensures KeyOf(cfg, a[k]) != KeyOf(cfg, a[j]) {
      assert (a + b)[j] == a[j] && (a + b)[k] == a[k];
    }
    forall j, k | 0 <= j < k < |b| ensures KeyOf(cfg, b[k]) != KeyOf(cfg, b[j]) {
      assert (a + b)[|a| + j] == b[j] && (a + b)[|a| + k] == b[k];
    }
    if LastFor(cfg, a, key).Some? && LastFor(cfg, b, key).Some? {
      var j := LastIsThere(cfg, a, key);
      var k := LastIsThere(cfg, b, key);
      TwicePresent(cfg, a, b, j, k);
    }
  }

  lemma TwicePresent(cfg: Config, a: seq<Record>, b: seq<Record>, j: nat, k: nat)
    requires j < |a| && k < |b| && KeyOf(cfg, a[j]) == KeyOf(cfg, b[k])
    ensures !Distinct(cfg, a + b)
  {
    assert (a + b)[j] == a[j] && (a + b)[|a| + k] == b[k];
  }

  lemma {:induction false} ChunksDecide(cfg: Config, table: Table, chunks: seq<seq<Record>>, key: seq<Cell>)
    requires Fit(cfg, chunks) && Distinct(cfg, Flat(chunks))
    ensures AfterChunks(cfg, table, chunks).Some?
    ensures Find(AfterChunks(cfg, table, chunks).value, key) == PlacedRow(cfg, table, PlaceOf(cfg, chunks, key), key)
  {
    if chunks != [] {
      var front, last := chunks[..|chunks| - 1], chunks[|chunks| - 1];
      assert chunks == front + [last];
      FlatMore(front, last);
      DistinctParts(cfg, Flat(front), last, key);
      ChunksDecide(cfg, table, front, key);
      PlacedIsFlat(cfg, front, key);
      var before := AfterChunks(cfg, table, front).value;
      assert FitsAlone(cfg, last);
      UpdatesHaveBinds(cfg, last);
      RowsDecide(cfg, before, last, AllKeys(last), key);
    }
  }

  lemma UpdatesHaveBinds(cfg: Config, chunk: seq<Record>)
    requires Updates(cfg, AllKeys(chunk))
    ensures Binds(chunk) > 0
  {
    var f :| f in AllKeys(chunk) && f !in cfg.conflict;
    Product(1, 1, |chunk|, |AllKeys(chunk)|);
  }

  lemma {:induction false} PlacedIsFlat(cfg: Config, chunks: seq<seq<Record>>, key: seq<Cell>)
    ensures PlaceOf(cfg, chunks, key).Some? <==> LastFor(cfg, Flat(chunks), key).Some?
    ensures PlaceOf(cfg, chunks, key).Some? ==>
              Some(PlaceOf(cfg, chunks, key).value.row) == LastFor(cfg, Flat(chunks), key)
    ensures PlaceOf(cfg, chunks, key).Some? ==>
              forall c | Carries(PlaceOf(cfg, chunks, key).value.row, c) :: c in PlaceOf(cfg, chunks, key).value.cols
  {
    if chunks != [] {
      var front, last := chunks[..|chunks| - 1], chunks[|chunks| - 1];
      assert chunks == front + [last];
      PlacedIsFlat(cfg, front, key);
      FlatMore(front, last);
      LastOfBoth(cfg, Flat(front), last, key);
      if LastFor(cfg, last, key).Some? {
        var j := LastIsThere(cfg, last, key);
        assert last[j] in last;
      }
    }
  }

  // The condition

  /** A column of a key keeps its meaning: the kept row carries it, or neither its chunk nor any record of the key does,
      or its chunk does and the last record of the key that carries it says null. */
  predicate CellKept(cfg: Config, sorted: seq<Record>, p: Placed, key: seq<Cell>, c: string) {
    || Carries(p.row, c)
    || (c !in p.cols && LastValue(cfg, sorted, key, c).None?)
    || (c in p.cols && LastValue(cfg, sorted, key, c) == Some(Null))
  }

  predicate KeyKept(cfg: Config, sorted: seq<Record>, chunks: seq<seq<Record>>, key: seq<Cell>) {
    var p := PlaceOf(cfg, chunks, key);
    p.Some? ==> forall c <- cfg.columns | c !in cfg.conflict :: CellKept(cfg, sorted, p.value, key, c)
  }

  predicate AllKept(cfg: Config, records: seq<Record>, chunks: seq<seq<Record>>) {
    forall k | 0 <= k < |records| :: KeyKept(cfg, StableSort(cfg, records), chunks, KeyOf(cfg, records[k]))
  }

  lemma {:induction false} LastCarries(cfg: Config, records: seq<Record>, key: seq<Cell>, c: string)
    requires LastFor(cfg, records, key).Some? && Carries(LastFor(cfg, records, key).value, c)
    ensures LastValue(cfg, records, key, c) == Some(LastFor(cfg, records, key).value[c])
  {
    if KeyOf(cfg, records[|records| - 1]) != key {
      LastCarries(cfg, records[..|records| - 1], key, c);
    }
  }

  /** The place of a key and the order of the simple upsert speak of the same record. */
  ghost predicate Placing(cfg: Config, sorted: seq<Record>, p: Placed, key: seq<Cell>) {
    && ValidConfig(cfg) && LastFor(cfg, sorted, key) == Some(p.row) && KeyOf(cfg, p.row) == key && Keyed(cfg, p.row)
    && "globalId" !in p.cols && forall c | Carries(p.row, c) :: c in p.cols
  }

  lemma CellAgrees(cfg: Config, table: Table, sorted: seq<Record>, p: Placed, key: seq<Cell>, c: string)
    requires Placing(cfg, sorted, p, key) && c in cfg.columns
    requires c !in cfg.conflict ==> CellKept(cfg, sorted, p, key, c)
    ensures Written(cfg, table, key, p.row, p.cols)[c] == EachCell(cfg, table, sorted, key, c)
  {
    if Carries(p.row, c) {
      LastCarries(cfg, sorted, key, c);
    }
    if c in cfg.conflict {
      assert At(p.row, c).Text? && Carries(p.row, c);
    }
  }

  lemma RowAgrees(cfg: Config, table: Table, sorted: seq<Record>, p: Placed, key: seq<Cell>)
    requires Placing(cfg, sorted, p, key)
    requires forall c <- cfg.columns | c !in cfg.conflict :: CellKept(cfg, sorted, p, key, c)
    ensures Some(Written(cfg, table, key, p.row, p.cols)) == EachRow(cfg, table, sorted, key)
  {
    forall c | c in cfg.columns
      ensures Written(cfg, table, key, p.row, p.cols)[c] == EachCell(cfg, table, sorted, key, c)
    {
      CellAgrees(cfg, table, sorted, p, key, c);
    }
    SameCells(cfg, table, table, sorted, key, p.row, p.cols);
  }

  lemma CellDiffers(cfg: Config, sorted: seq<Record>, p: Placed, key: seq<Cell>, c: string) returns (table: Table)
    requires Placing(cfg, sorted, p, key) && Updatable(cfg, c) && !CellKept(cfg, sorted, p, key, c)
    ensures Written(cfg, table, key, p.row, p.cols)[c] != EachCell(cfg, table, sorted, key, c)
  {
    var other := if LastValue(cfg, sorted, key, c) == Some(Int(1)) then Int(2) else Int(1);
    table := map[key := map[c := other]];
    assert At(table[key], c) == other;
  }

  /** What both ways of writing make of one key. */
  lemma {:induction false} BothDecide(cfg: Config, table: Table, records: seq<Record>, chunks: seq<seq<Record>>,
                                      key: seq<Cell>)
    requires ValidConfig(cfg) && Orderly(cfg, records) && Fit(cfg, chunks) && Flat(chunks) == Deduped(cfg, records)
    ensures AfterChunks(cfg, table, chunks).Some?
    ensures var p := PlaceOf(cfg, chunks, key);
            && Find(AfterChunks(cfg, table, chunks).value, key) == PlacedRow(cfg, table, p, key)
            && Find(UpsertEach(cfg, table, StableSort(cfg, records)), key)
            == EachRow(cfg, table, StableSort(cfg, records), key)
            && (p.None? ==> LastFor(cfg, StableSort(cfg, records), key).None?)
            && (p.Some? ==> Placing(cfg, StableSort(cfg, records), p.value, key))
  {
    DedupedIsDistinct(cfg, records);
    ChunksDecide(cfg, table, chunks, key);
    SortedIsKeyed(cfg, records);
    EachDecides(cfg, table, StableSort(cfg, records), key);
    PlacedIsFlat(cfg, chunks, key);
    NoSurrogate(cfg, chunks, key);
    DedupedLastIsBest(cfg, records, key);
    SortedLastIsBest(cfg, records, key);
    if PlaceOf(cfg, chunks, key).Some? {
      BestIsGiven(cfg, records, key);
    }
  }

  lemma {:induction false} SortedIsKeyed(cfg: Config, records: seq<Record>)
    requires Orderly(cfg, records)
    ensures forall r <- StableSort(cfg, records) :: Keyed(cfg, r)
  {
    StableSortSorts(cfg, records);
    forall r | r in StableSort(cfg, records) ensures r in records {
      assert r in multiset(StableSort(cfg, records));
    }
  }

  ghost predicate Same(cfg: Config, table: Table, records: seq<Record>, chunks: seq<seq<Record>>) {
    AfterChunks(cfg, table, chunks) == Some(UpsertEach(cfg, table, StableSort(cfg, records)))
  }

  lemma {:induction false} KeptKeyIsSame(cfg: Config, table: Table, records: seq<Record>, chunks: seq<seq<Record>>,
                                         key: seq<Cell>)
    requires ValidConfig(cfg) && Orderly(cfg, records) && Fit(cfg, chunks) && Flat(chunks) == Deduped(cfg, records)
    requires AllKept(cfg, records, chunks)
    ensures AfterChunks(cfg, table, chunks).Some?
    ensures Find(AfterChunks(cfg, table, chunks).value, key)
            == Find(UpsertEach(cfg, table, StableSort(cfg, records)), key)
  {
    var sorted := StableSort(cfg, records);
    BothDecide(cfg, table, records, chunks, key);
    if PlaceOf(cfg, chunks, key).Some? {
      KeyIsGiven(cfg, records, key);
      assert KeyKept(cfg, sorted, chunks, key);
      RowAgrees(cfg, table, sorted, PlaceOf(cfg, chunks, key).value, key);
    }
  }

  lemma {:induction false} KeptIsSame(cfg: Config, table: Table, records: seq<Record>, chunks: seq<seq<Record>>)
    requires ValidConfig(cfg) && Orderly(cfg, records) && Fit(cfg, chunks) && Flat(chunks) == Deduped(cfg, records)
    requires AllKept(cfg, records, chunks)
    ensures Same(cfg, table, records, chunks)
  {
    KeptKeyIsSame(cfg, table, records, chunks, []);
    var batch, each := AfterChunks(cfg, table, chunks).value, UpsertEach(cfg, table, StableSort(cfg, records));
    forall key ensures Find(batch, key) == Find(each, key) {
      KeptKeyIsSame(cfg, table, records, chunks, key);
    }
    SameTable(batch, each);
  }

  lemma {:induction false} KeyIsGiven(cfg: Config, records: seq<Record>, key: seq<Cell>)
    requires LastFor(cfg, StableSort(cfg, records), key).Some?
    ensures exists k | 0 <= k < |records| :: KeyOf(cfg, records[k]) == key
  {
    SortedLastIsBest(cfg, records, key);
    BestIsGiven(cfg, records, key);
  }

  /** Some table shows a column that is not kept. */
  lemma {:induction false} LostIsSeen(cfg: Config, records: seq<Record>, chunks: seq<seq<Record>>)
    returns (table: Table)
    requires ValidConfig(cfg) && Orderly(cfg, records) && Fit(cfg, chunks) && Flat(chunks) == Deduped(cfg, records)
    requires !AllKept(cfg, records, chunks)
    ensures !Same(cfg, table, records, chunks)
  {
    var sorted := StableSort(cfg, records);
    var k :| 0 <= k < |records| && !KeyKept(cfg, sorted, chunks, KeyOf(cfg, records[k]));
    var key := KeyOf(cfg, records[k]);
    var p := PlaceOf(cfg, chunks, key).value;
    var c :| c in cfg.columns && c !in cfg.conflict && !CellKept(cfg, sorted, p, key, c);
    BothDecide(cfg, map[], records, chunks, key);
    table := CellDiffers(cfg, sorted, p, key, c);
    BothDecide(cfg, table, records, chunks, key);
  }

  lemma {:induction false} NoSurrogate(cfg: Config, chunks: seq<seq<Record>>, key: seq<Cell>)
    ensures PlaceOf(cfg, chunks, key).Some? ==> "globalId" !in PlaceOf(cfg, chunks, key).value.cols
  {
    if chunks != [] {
      NoSurrogate(cfg, chunks[..|chunks| - 1], key);
    }
  }

  predicate StartsKeyed(cfg: Config, chunk: seq<Record>) {
    chunk != [] && Keyed(cfg, chunk[0])
  }

  lemma {:induction false} UnfitFails(cfg: Config, table: Table, chunks: seq<seq<Record>>)
    requires ValidConfig(cfg) && !Fit(cfg, chunks) && forall k | 0 <= k < |chunks| :: StartsKeyed(cfg, chunks[k])
    ensures AfterChunks(cfg, table, chunks).None?
  {
    var front, last := chunks[..|chunks| - 1], chunks[|chunks| - 1];
    if Fit(cfg, front) {
      assert !FitsAlone(cfg, last) && StartsKeyed(cfg, last);
      KeyedHasBinds(cfg, last);
    } else {
      UnfitFails(cfg, table, front);
    }
  }

  lemma KeyedHasBinds(cfg: Config, chunk: seq<Record>)
    requires ValidConfig(cfg) && StartsKeyed(cfg, chunk)
    ensures Binds(chunk) > 0
  {
    var f := cfg.conflict[0];
    assert f in cfg.conflict && At(chunk[0], f).Text? && chunk[0] in chunk;
    assert f in AllKeys(chunk);
    Product(1, 1, |chunk|, |AllKeys(chunk)|);
  }

  lemma {:induction false} ChunksStartKeyed(cfg: Config, records: seq<Record>, size: nat)
    requires Orderly(cfg, records) && size >= 1
    ensures var chunks := Chunks(Deduped(cfg, records), size);
            forall k | 0 <= k < |chunks| :: StartsKeyed(cfg, chunks[k])
  {
    var rows := Deduped(cfg, records);
    var chunks := Chunks(rows, size);
    ChunkRowsAreRows(rows, size);
    forall k | 0 <= k < |chunks| ensures StartsKeyed(cfg, chunks[k]) {
      assert chunks[k] in chunks && chunks[k][0] in chunks[k];
      var j :| 0 <= j < |rows| && rows[j] == chunks[k][0];
      DedupedRow(cfg, records, j);
    }
  }

  /** For records with any columns and chunks of any size: the batch gives the table of the simple upsert, whatever the
      table was, exactly if every chunk is a valid statement within the bind limit and every column of every key is
      kept. */
  lemma {:induction false} BatchIsSimpleIff(cfg: Config, records: seq<Record>, size: nat)
    requires ValidConfig(cfg) && Orderly(cfg, records) && size >= 1
    ensures var chunks := Chunks(Deduped(cfg, records), size);
            (forall table :: Same(cfg, table, records, chunks)) <==> Fit(cfg, chunks) && AllKept(cfg, records, chunks)
  {
    var rows := Deduped(cfg, records);
    var chunks := Chunks(rows, size);
    ChunkRowsAreRows(rows, size);
    if !Fit(cfg, chunks) {
      ChunksStartKeyed(cfg, records, size);
      UnfitFails(cfg, map[], chunks);
      assert !Same(cfg, map[], records, chunks);
    } else if AllKept(cfg, records, chunks) {
      forall table ensures Same(cfg, table, records, chunks) {
        KeptIsSame(cfg, table, records, chunks);
      }
    } else {
      var table := LostIsSeen(cfg, records, chunks);
    }
  }

  // Without explicit nulls

  predicate NoNulls(records: seq<Record>) {
    forall r <- records, c <- r :: r[c] != Null
  }

  /** Every kept row carries the columns of its chunk. */
  predicate CarriesColumns(cfg: Config, chunk: seq<Record>) {
    forall r <- chunk, c <- AllKeys(chunk) | Updatable(cfg, c) :: c in r
  }

  /** The kept row of a record's key carries the columns of the record. */
  predicate CarriesRecord(cfg: Config, rows: seq<Record>, r: Record) {
    var kept := LastFor(cfg, rows, KeyOf(cfg, r));
    kept.Some? && forall c <- r | Carries(r, c) && Updatable(cfg, c) :: c in kept.value
  }

  lemma {:induction false} ValueIsThere(cfg: Config, records: seq<Record>, key: seq<Cell>, c: string)
    ensures var v := LastValue(cfg, records, key, c);
            v.Some? <==> exists r <- records :: KeyOf(cfg, r) == key && Carries(r, c)
    ensures var v := LastValue(cfg, records, key, c);
            v.Some? ==> exists r <- records :: c in r && r[c] == v.value
  {
    if records != [] {
      var front, last := records[..|records| - 1], records[|records| - 1];
      assert records == front + [last];
      ValueIsThere(cfg, front, key, c);
    }
  }

  lemma {:induction false} PlaceOfRow(cfg: Config, chunks: seq<seq<Record>>, k: nat, r: Record)
    requires Distinct(cfg, Flat(chunks)) && k < |chunks| && r in chunks[k]
    ensures PlaceOf(cfg, chunks, KeyOf(cfg, r)) == Some(Placed(r, AllKeys(chunks[k])))
  {
    var front, last := chunks[..|chunks| - 1], chunks[|chunks| - 1];
    assert chunks == front + [last];
    FlatMore(front, last);
    DistinctParts(cfg, Flat(front), last, KeyOf(cfg, r));
    if k == |chunks| - 1 {
      var j :| 0 <= j < |last| && last[j] == r;
      LastOfDistinct(cfg, last, j);
    } else {
      PlaceOfRow(cfg, front, k, r);
      PlacedIsFlat(cfg, front, KeyOf(cfg, r));
    }
  }

  lemma {:induction false} PlaceIsThere(cfg: Config, chunks: seq<seq<Record>>, key: seq<Cell>) returns (k: nat)
    requires PlaceOf(cfg, chunks, key).Some?
    ensures k < |chunks| && PlaceOf(cfg, chunks, key).value.row in chunks[k]
    ensures PlaceOf(cfg, chunks, key).value.cols == AllKeys(chunks[k])
  {
    var last := chunks[|chunks| - 1];
    if LastFor(cfg, last, key).Some? {
      k := |chunks| - 1;
      var j := LastIsThere(cfg, last, key);
    } else {
      k := PlaceIsThere(cfg, chunks[..|chunks| - 1], key);
    }
  }

  lemma {:induction false} SortedMembers(cfg: Config, records: seq<Record>)
    ensures forall r :: r in StableSort(cfg, records) <==> r in records
  {
    StableSortSorts(cfg, records);
    forall r ensures r in StableSort(cfg, records) <==> r in records {
      assert r in multiset(StableSort(cfg, records)) <==> r in multiset(records);
    }
  }

  /** Without nulls the last value of a column is there exactly if some record of the key carries it, and is not
      null. */
  lemma {:induction false} ValueIsReal(cfg: Config, records: seq<Record>, key: seq<Cell>, c: string)
    requires NoNulls(records)
    ensures LastValue(cfg, StableSort(cfg, records), key, c) != Some(Null)
    ensures LastValue(cfg, StableSort(cfg, records), key, c).Some?
            <==> exists r <- records :: KeyOf(cfg, r) == key && Carries(r, c)
  {
    ValueIsThere(cfg, StableSort(cfg, records), key, c);
    SortedMembers(cfg, records);
  }

  lemma {:induction false} KeptColumns(cfg: Config, records: seq<Record>, chunks: seq<seq<Record>>, k: nat)
    requires Orderly(cfg, records) && Flat(chunks) == Deduped(cfg, records) && NoNulls(records)
    requires AllKept(cfg, records, chunks) && k < |chunks| && forall r <- chunks[k] :: r in records
    ensures CarriesColumns(cfg, chunks[k])
  {
    DedupedIsDistinct(cfg, records);
    forall r, c | r in chunks[k] && c in AllKeys(chunks[k]) && Updatable(cfg, c) ensures c in r {
      PlaceOfRow(cfg, chunks, k, r);
      var i :| 0 <= i < |records| && records[i] == r;
      assert KeyKept(cfg, StableSort(cfg, records), chunks, KeyOf(cfg, records[i]));
      ValueIsReal(cfg, records, KeyOf(cfg, r), c);
    }
  }

  lemma {:induction false} KeptRecord(cfg: Config, records: seq<Record>, chunks: seq<seq<Record>>, i: nat)
    requires Orderly(cfg, records) && Flat(chunks) == Deduped(cfg, records) && NoNulls(records)
    requires AllKept(cfg, records, chunks) && i < |records|
    ensures CarriesRecord(cfg, Deduped(cfg, records), records[i])
  {
    var r, key := records[i], KeyOf(cfg, records[i]);
    HasBest(cfg, records, i);
    DedupedLastIsBest(cfg, records, key);
    PlacedIsFlat(cfg, chunks, key);
    assert KeyKept(cfg, StableSort(cfg, records), chunks, key);
    forall c | c in r && Carries(r, c) && Updatable(cfg, c)
      ensures c in LastFor(cfg, Deduped(cfg, records), key).value
    {
      ValueIsReal(cfg, records, key, c);
      assert r in records;
    }
  }

  lemma {:induction false} HasBest(cfg: Config, records: seq<Record>, i: nat)
    requires i < |records|
    ensures Best(cfg, records, KeyOf(cfg, records[i])).Some?
  {
    if i < |records| - 1 {
      HasBest(cfg, records[..|records| - 1], i);
    }
  }

  lemma {:induction false} CarriedIsKept(cfg: Config, records: seq<Record>, chunks: seq<seq<Record>>, i: nat)
    requires Orderly(cfg, records) && Flat(chunks) == Deduped(cfg, records) && NoNulls(records) && i < |records|
    requires forall k | 0 <= k < |chunks| :: CarriesColumns(cfg, chunks[k])
    requires forall k | 0 <= k < |records| :: CarriesRecord(cfg, Deduped(cfg, records), records[k])
    ensures KeyKept(cfg, StableSort(cfg, records), chunks, KeyOf(cfg, records[i]))
  {
    var key := KeyOf(cfg, records[i]);
    if PlaceOf(cfg, chunks, key).Some? {
      var p := PlaceOf(cfg, chunks, key).value;
      var k := PlaceIsThere(cfg, chunks, key);
      PlacedIsFlat(cfg, chunks, key);
      forall c | c in cfg.columns && c !in cfg.conflict ensures CellKept(cfg, StableSort(cfg, records), p, key, c) {
        ValueIsReal(cfg, records, key, c);
        NoSurrogate(cfg, chunks, key);
        assert CarriesColumns(cfg, chunks[k]);
        if LastValue(cfg, StableSort(cfg, records), key, c).Some? {
          var r :| r in records && KeyOf(cfg, r) == key && Carries(r, c);
          var j :| 0 <= j < |records| && records[j] == r;
          assert CarriesRecord(cfg, Deduped(cfg, records), records[j]);
        }
      }
    }
  }

  /** For records without explicit nulls: the batch gives the table of the simple upsert, whatever the table was,
      exactly if every chunk is a valid statement within the bind limit, every kept row carries the columns of its
      chunk, and the kept row of every record carries the columns of the record. */
  lemma {:induction false} BatchIsSimpleIffCarried(cfg: Config, records: seq<Record>, size: nat)
    requires ValidConfig(cfg) && Orderly(cfg, records) && NoNulls(records) && size >= 1
    ensures var rows := Deduped(cfg, records);
            var chunks := Chunks(rows, size);
            (forall table :: Same(cfg, table, records, chunks))
            <==> && Fit(cfg, chunks)
                 && (forall k | 0 <= k < |chunks| :: CarriesColumns(cfg, chunks[k]))
                 && (forall k | 0 <= k < |records| :: CarriesRecord(cfg, rows, records[k]))
  {
    var rows := Deduped(cfg, records);
    var chunks := Chunks(rows, size);
    ChunkRowsAreRows(rows, size);
    BatchIsSimpleIff(cfg, records, size);
    if AllKept(cfg, records, chunks) {
      forall k | 0 <= k < |chunks| ensures CarriesColumns(cfg, chunks[k]) {
        ChunkOfRecords(cfg, records, size, k);
        KeptColumns(cfg, records, chunks, k);
      }
      forall k | 0 <= k < |records| ensures CarriesRecord(cfg, rows, records[k]) {
        KeptRecord(cfg, records, chunks, k);
      }
    }
    if (forall k | 0 <= k < |chunks| :: CarriesColumns(cfg, chunks[k]))
       && (forall k | 0 <= k < |records| :: CarriesRecord(cfg, rows, records[k])) {
      forall k | 0 <= k < |records| ensures KeyKept(cfg, StableSort(cfg, records), chunks, KeyOf(cfg, records[k])) {
        CarriedIsKept(cfg, records, chunks, k);
      }
    }
  }

  lemma {:induction false} ChunkOfRecords(cfg: Config, records: seq<Record>, size: nat, k: nat)
    requires Orderly(cfg, records) && size >= 1 && k < |Chunks(Deduped(cfg, records), size)|
    ensures forall r <- Chunks(Deduped(cfg, records), size)[k] :: r in records
  {
    var rows := Deduped(cfg, records);
    ChunkRowsAreRows(rows, size);
    forall r | r in Chunks(rows, size)[k] ensures r in records {
      assert Chunks(rows, size)[k] in Chunks(rows, size);
      var j :| 0 <= j < |rows| && rows[j] == r;
      DedupedRow(cfg, records, j);
    }
  }
}
