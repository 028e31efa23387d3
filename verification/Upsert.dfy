/** Batched upserts of synchronised records: deduplication, chunks and multi-row statements. */
module Upsert {
  import opened Results
  import opened Numbers

  datatype Cell = Null | Int(n: int) | Text(s: string)

  type Record = map<string, Cell>

  const D1_MAX_BOUND_PARAMETERS := 100

  /** `d[f] ?? null`. */
  function At(r: Record, f: string): Cell {
    if f in r then r[f] else Null
  }

  /** `String(value ?? '')`. */
  function StringOf(c: Cell): string {
    match c
    case Null => ""
    case Int(n) => if n < 0 then "-" + Decimal(-n) else Decimal(n)
    case Text(s) => s
  }

  const NUL := '\U{0000}'

  function Join(parts: seq<string>): string {
    if parts == [] then "" else if |parts| == 1 then parts[0] else parts[0] + [NUL] + Join(parts[1..])
  }

  function Cells(r: Record, fields: seq<string>): (cells: seq<Cell>)
    ensures |cells| == |fields|
  {
    seq(|fields|, j requires 0 <= j < |fields| => At(r, fields[j]))
  }

  function Strings(cells: seq<Cell>): (parts: seq<string>)
    ensures |parts| == |cells|
  {
    seq(|cells|, j requires 0 <= j < |cells| => StringOf(cells[j]))
  }

  /** The key the records are deduplicated by. */
  function MapKey(conflict: seq<string>, r: Record): string {
    Join(Strings(Cells(r, conflict)))
  }

  /** `Number(record.queueId ?? 0)`; `number` gives the number a text stands for, if any. */
  function QueueId(number: string -> Option<int>, r: Record): Option<int> {
    match At(r, "queueId")
    case Null => Some(0)
    case Int(n) => Some(n)
    case Text(s) => number(s)
  }

  /** `newQueueId >= existingQueueId`, which no text that is not a number satisfies. */
  predicate Replaces(number: string -> Option<int>, newer: Record, existing: Record) {
    QueueId(number, newer).Some? && QueueId(number, existing).Some?
    && QueueId(number, newer).value >= QueueId(number, existing).value
  }

  // Deduplication

  datatype Config = Config(conflict: seq<string>, columns: set<string>, number: string -> Option<int>)

  /** The keys in the order of their first record. */
  function FirstKeys(cfg: Config, records: seq<Record>): seq<string> {
    if records == [] then []
    else
      var before := FirstKeys(cfg, records[..|records| - 1]);
      var key := MapKey(cfg.conflict, records[|records| - 1]);
      if key in before then before else before + [key]
  }

  /** The record that is kept for a key: the last one that replaces all before it. */
  function Winner(cfg: Config, records: seq<Record>, key: string): Option<Record> {
    if records == [] then None
    else
      var before, last := Winner(cfg, records[..|records| - 1], key), records[|records| - 1];
      if MapKey(cfg.conflict, last) != key then before
      else if before.None? || Replaces(cfg.number, last, before.value) then Some(last)
      else before
  }

  lemma {:induction false} KeysHaveWinners(cfg: Config, records: seq<Record>, key: string)
    ensures key in FirstKeys(cfg, records) <==> Winner(cfg, records, key).Some?
    ensures Winner(cfg, records, key).Some? ==> MapKey(cfg.conflict, Winner(cfg, records, key).value) == key
  {
    if records != [] {
      KeysHaveWinners(cfg, records[..|records| - 1], key);
    }
  }

  function Deduped(cfg: Config, records: seq<Record>): (rows: seq<Record>)
    ensures |rows| == |FirstKeys(cfg, records)|
  {
    var keys := FirstKeys(cfg, records);
    seq(|keys|, j requires 0 <= j < |keys| =>
      KeysHaveWinners(cfg, records, keys[j]); Winner(cfg, records, keys[j]).value)
  }

  method DedupeSyncRecords(cfg: Config, records: seq<Record>) returns (rows: seq<Record>)
    ensures rows == Deduped(cfg, records)
  {
    var order: seq<string> := [];
    var found: map<string, Record> := map[];
    for i := 0 to |records|
      invariant order == FirstKeys(cfg, records[..i])
      invariant forall key :: key in found <==> Winner(cfg, records[..i], key).Some?
      invariant forall key <- found :: found[key] == Winner(cfg, records[..i], key).value
    {
      assert records[..i + 1][..i] == records[..i];
      var key := MapKey(cfg.conflict, records[i]);
      KeysHaveWinners(cfg, records[..i], key);
      if key !in found {
        found := found[key := records[i]];
        order := order + [key];
      } else if Replaces(cfg.number, records[i], found[key]) {
        found := found[key := records[i]];
      }
    }
    assert records[..|records|] == records;
    forall j | 0 <= j < |order| ensures order[j] in found {
      KeysHaveWinners(cfg, records, order[j]);
    }
    rows := seq(|order|, j requires 0 <= j < |order| && order[j] in found => found[order[j]]);
  }

  // Statements

  type Row = map<string, Cell>

  /** A table by its conflict key; the surrogate key is left aside. */
  type Table = map<seq<Cell>, Row>

  function KeyOf(cfg: Config, r: Record): seq<Cell> {
    Cells(r, cfg.conflict)
  }

  function AllKeys(rows: seq<Record>): set<string> {
    (set r <- rows, f <- r :: f) - {"globalId"}
  }

  predicate Updates(cfg: Config, cols: set<string>) {
    exists f <- cols :: f !in cfg.conflict
  }

  /** One row of `INSERT … ON CONFLICT DO UPDATE SET f = excluded.f`: a new row, or new values beside the conflict
      key. */
  function UpsertRow(cfg: Config, table: Table, r: Record, cols: set<string>): Table {
    var key := KeyOf(cfg, r);
    table[key := if key in table
                 then map c | c in cfg.columns :: if c in cols && c !in cfg.conflict then At(r, c) else At(table[key],
                 c)
                 else map c | c in cfg.columns :: if c in cols then At(r, c) else Null]
  }

  function UpsertRows(cfg: Config, table: Table, rows: seq<Record>, cols: set<string>): Table {
    if rows == [] then table
    else UpsertRow(cfg, UpsertRows(cfg, table, rows[..|rows| - 1], cols), rows[|rows| - 1], cols)
  }

  /** `createBatchUpsertOperation`: a column list for the whole chunk; without a column to update it is no valid SQL. */
  function Statement(cfg: Config, table: Table, chunk: seq<Record>): Option<Table> {
    if Updates(cfg, AllKeys(chunk)) then Some(UpsertRows(cfg, table, chunk, AllKeys(chunk))) else None
  }

  function Binds(chunk: seq<Record>): nat {
    |chunk| * |AllKeys(chunk)|
  }

  /** The most rows that stay within the bind limit, or one row if not even that does. */
  function MaxRows(columnCount: nat): (n: nat)
    ensures n >= 1 && (columnCount <= D1_MAX_BOUND_PARAMETERS ==> n * columnCount <= D1_MAX_BOUND_PARAMETERS)
    ensures columnCount >= 1 ==> (n + 1) * columnCount > D1_MAX_BOUND_PARAMETERS
  {
    var fit := D1_MAX_BOUND_PARAMETERS / (if columnCount < 1 then 1 else columnCount);
    assert columnCount >= 1 ==>
             fit * columnCount <= D1_MAX_BOUND_PARAMETERS < (fit + 1) * columnCount by {
      if columnCount >= 1 {
        Quotient(D1_MAX_BOUND_PARAMETERS, columnCount, fit);
      }
    }
    if fit < 1 then 1 else fit
  }

  lemma Quotient(a: nat, b: nat, q: nat)
    requires b >= 1 && q == a / b
    ensures q * b <= a < (q + 1) * b
  {
    assert a == b * q + a % b;
  }

  function ChunkSize(rows: seq<Record>): (n: nat)
    ensures n >= 1
  {
    MaxRows(|AllKeys(rows)|)
  }

  /** Stretches of `size` rows; the last may be shorter. */
  function Chunks(rows: seq<Record>, size: nat): (chunks: seq<seq<Record>>)
    requires size >= 1
    ensures forall chunk <- chunks :: 1 <= |chunk| <= size
    decreases |rows|
  {
    if rows == [] then [] else if |rows| <= size then [rows] else [rows[..size]] + Chunks(rows[size..], size)
  }

  /** One round of the loop: a chunk without columns is skipped, one with too many binds or no valid statement
      throws. */
  function RunChunk(cfg: Config, table: Table, chunk: seq<Record>): Option<Table> {
    if Binds(chunk) == 0 then Some(table)
    else if Binds(chunk) > D1_MAX_BOUND_PARAMETERS then None
    else Statement(cfg, table, chunk)
  }

  function AfterChunks(cfg: Config, table: Table, chunks: seq<seq<Record>>): Option<Table> {
    if chunks == [] then Some(table)
    else
      var before := AfterChunks(cfg, table, chunks[..|chunks| - 1]);
      if before.None? then None else RunChunk(cfg, before.value, chunks[|chunks| - 1])
  }

  lemma AfterOneMore(cfg: Config, table: Table, chunks: seq<seq<Record>>, chunk: seq<Record>)
    requires AfterChunks(cfg, table, chunks).Some?
    ensures AfterChunks(cfg, table, chunks + [chunk]) == RunChunk(cfg, AfterChunks(cfg, table, chunks).value, chunk)
  {
    assert (chunks + [chunk])[..|chunks|] == chunks;
  }

  /** `ran` are the chunks of the rows before `i`. */
  ghost predicate Ran(rows: seq<Record>, size: nat, i: nat, ran: seq<seq<Record>>) {
    size >= 1 && i <= |rows| && ran + Chunks(rows[i..], size) == Chunks(rows, size)
  }

  lemma RanNothing(rows: seq<Record>, size: nat)
    requires size >= 1
    ensures Ran(rows, size, 0, [])
  {
    assert rows[0..] == rows;
    assert [] + Chunks(rows, size) == Chunks(rows, size);
  }

  lemma RanOneMore(rows: seq<Record>, size: nat, i: nat, ran: seq<seq<Record>>)
    requires Ran(rows, size, i, ran) && i < |rows|
    ensures Ran(rows, size, Min(i + size, |rows|), ran + [rows[i..Min(i + size, |rows|)]])
  {
    var next := Min(i + size, |rows|);
    FirstChunk(rows, size, i, next);
    assert ran + ([rows[i..next]] + Chunks(rows[next..], size)) == ran + [rows[i..next]] + Chunks(rows[next..], size);
  }

  lemma FirstChunk(rows: seq<Record>, size: nat, i: nat, next: nat)
    requires size >= 1 && i < |rows| && next == Min(i + size, |rows|)
    ensures Chunks(rows[i..], size) == [rows[i..next]] + Chunks(rows[next..], size)
  {
    if next == |rows| {
      assert rows[i..next] == rows[i..];
    } else {
      assert rows[i..][..size] == rows[i..next] && rows[i..][size..] == rows[next..];
    }
  }

  lemma RanSoFar(rows: seq<Record>, size: nat, i: nat, ran: seq<seq<Record>>)
    requires Ran(rows, size, i, ran)
    ensures |ran| <= |Chunks(rows, size)| && Chunks(rows, size)[..|ran|] == ran
    ensures i == |rows| ==> |ran| == |Chunks(rows, size)|
  {
  }

  class Database {
    const cfg: Config
    var table: Table

    constructor (cfg: Config, table: Table)
      ensures this.cfg == cfg && this.table == table
    {
      this.cfg, this.table := cfg, table;
    }

    /** The statements run one after the other; one that fails ends the batch and leaves the earlier ones done. */
    method BatchUpsert(records: seq<Record>) returns (ok: bool, applied: nat)
      modifies this
      ensures var rows := Deduped(cfg, records);
              var chunks := Chunks(rows, ChunkSize(rows));
              && applied <= |chunks| && AfterChunks(cfg, old(table), chunks[..applied]) == Some(table)
              && (ok ==> applied == |chunks|)
    {
      var rows := DedupeSyncRecords(cfg, records);
      var size := ChunkSize(rows);
      ghost var ran := [];
      ok, applied := true, 0;
      var i := 0;
      RanNothing(rows, size);
      while ok && i < |rows|
        invariant Ran(rows, size, i, ran) && |ran| == applied
        invariant AfterChunks(cfg, old(table), ran) == Some(table)
        decreases |rows| - i, ok
      {
        var next := Min(i + size, |rows|);
        var chunk := rows[i..next];
        RanOneMore(rows, size, i, ran);
        AfterOneMore(cfg, old(table), ran, chunk);
        ok := Execute(chunk);
        if ok {
          ran, i, applied := ran + [chunk], next, applied + 1;
        }
      }
      RanSoFar(rows, size, i, ran);
    }

    /** One statement, which the database may refuse. */
    method Execute(chunk: seq<Record>) returns (ok: bool)
      modifies this
      ensures ok ==> RunChunk(cfg, old(table), chunk) == Some(table)
      ensures !ok ==> table == old(table)
    {
      if Binds(chunk) == 0 {
        return true;
      }
      ok := *;
      var result := Statement(cfg, table, chunk);
      if Binds(chunk) > D1_MAX_BOUND_PARAMETERS || result.None? {
        ok := false;
      }
      if ok {
        table := result.value;
      }
    }
  }
}
