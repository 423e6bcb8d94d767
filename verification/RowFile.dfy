/**
  Values of the write-back cache: the per-row files, the grid of cells they shadow, and the
  two indexes over the rows held (`items` by row, `timestamps` by time of last use).
 */
module RowFile {
  import opened Options

  newtype byte = x: int | 0 <= x < 256
  type Block = seq<byte>
  type Cell = (nat, nat)
  type Grid = map<Cell, Block>

  /** One entry of a row file: a column number followed by that column's block. */
  datatype Record = Record(column: nat, block: Block)

  datatype Item = Item(timestamp: nat, dirty: bool)

  datatype Stamp = Stamp(time: nat, row: nat)

  /** The block of the first record for the column. */
  function Lookup(f: seq<Record>, column: nat): Option<Block> {
    if f == [] then None
    else if f[0].column == column then Some(f[0].block)
    else Lookup(f[1..], column)
  }

  /** The first record for the column overwritten, or a new one appended. */
  function Store(f: seq<Record>, column: nat, block: Block): seq<Record> {
    if f == [] then [Record(column, block)]
    else if f[0].column == column then [Record(column, block)] + f[1..]
    else [f[0]] + Store(f[1..], column, block)
  }

  function Overlay<T>(block: seq<T>, offset: nat, data: seq<T>): (r: seq<T>)
    requires offset + |data| <= |block|
    ensures |r| == |block|
    ensures forall i :: 0 <= i < |r| ==> r[i] == if offset <= i < offset + |data| then data[i - offset] else block[i]
  {
    block[..offset] + data + block[offset + |data|..]
  }

  /** Bytes laid over a block, and then some more behind them. */
  lemma OverlayTwice<T>(block: seq<T>, offset: nat, data: seq<T>, n: nat, m: nat)
    requires offset + |data| <= |block| && n <= m <= |data|
    ensures Overlay(block, offset, data[..m]) == Overlay(Overlay(block, offset, data[..n]), offset + n, data[n..m])
  {
    hide Overlay;
    var once, twice := Overlay(block, offset, data[..m]),
        Overlay(Overlay(block, offset, data[..n]), offset + n, data[n..m]);
    forall i | 0 <= i < |block| ensures once[i] == twice[i] {
    }
  }

  function FileOf(files: map<nat, seq<Record>>, row: nat): seq<Record> {
    if row in files then files[row] else []
  }

  /** What a reader of the cached grid sees in a cell: the row file's block, or else the remote one. */
  function ViewOf(files: map<nat, seq<Record>>, cells: Grid, row: nat, column: nat): Option<Block> {
    var cached := Lookup(FileOf(files, row), column);
    if cached.Some? then cached else if (row, column) in cells then Some(cells[(row, column)]) else None
  }

  ghost predicate SameView(files: map<nat, seq<Record>>, cells: Grid, files': map<nat, seq<Record>>, cells': Grid) {
    forall row: nat, column: nat :: ViewOf(files', cells', row, column) == ViewOf(files, cells, row, column)
  }

  ghost predicate WellFormed(f: seq<Record>, blockSize: nat) {
    && (forall i :: 0 <= i < |f| ==> |f[i].block| == blockSize)
    && (forall i, j :: 0 <= i < j < |f| ==> f[i].column != f[j].column)
  }

  /** Every record agrees with the remote cell it shadows. */
  ghost predicate Clean(f: seq<Record>, cells: Grid, row: nat) {
    forall i :: 0 <= i < |f| ==> (row, f[i].column) in cells && cells[(row, f[i].column)] == f[i].block
  }

  lemma {:induction false} LookupIsRecord(f: seq<Record>, column: nat, i: nat)
    requires i < |f| && f[i].column == column
    requires forall j :: 0 <= j < i ==> f[j].column != column
    ensures Lookup(f, column) == Some(f[i].block)
    ensures Store(f, column, f[i].block) == f
    ensures forall block :: Store(f, column, block) == f[i := Record(column, block)]
  {
    if i > 0 {
      LookupIsRecord(f[1..], column, i - 1);
      assert f == [f[0]] + f[1..];
      forall block ensures Store(f, column, block) == f[i := Record(column, block)] {
        assert Store(f[1..], column, block) == f[1..][i - 1 := Record(column, block)];
      }
    } else {
      assert f == [f[0]] + f[1..];
    }
  }

  lemma {:induction false} NoRecord(f: seq<Record>, column: nat)
    requires forall j :: 0 <= j < |f| ==> f[j].column != column
    ensures Lookup(f, column) == None
    ensures forall block :: Store(f, column, block) == f + [Record(column, block)]
  {
    if f != [] {
      NoRecord(f[1..], column);
      forall block ensures Store(f, column, block) == f + [Record(column, block)] {
        assert f == [f[0]] + f[1..];
      }
    }
  }

  /** A found block comes from a record; in a well-formed file, from the only one for its column. */
  lemma {:induction false} LookupFinds(f: seq<Record>, column: nat) returns (i: nat)
    ensures Lookup(f, column).Some? ==> i < |f| && f[i] == Record(column, Lookup(f, column).value)
    ensures Lookup(f, column).None? ==> forall j :: 0 <= j < |f| ==> f[j].column != column
  {
    i := 0;
    if f != [] && f[0].column != column {
      var k := LookupFinds(f[1..], column);
      i := k + 1;
      if Lookup(f, column).None? {
        forall j | 0 <= j < |f| ensures f[j].column != column {
          assert j > 0 ==> f[j] == f[1..][j - 1];
        }
      }
    }
  }

  lemma {:induction false} LookupAfterStore(f: seq<Record>, column: nat, block: Block, other: nat)
    ensures Lookup(Store(f, column, block), other) == if other == column then Some(block) else Lookup(f, other)
  {
    if f != [] && f[0].column != column {
      LookupAfterStore(f[1..], column, block, other);
      assert Store(f, column, block)[1..] == Store(f[1..], column, block);
    } else if f != [] {
      assert Store(f, column, block)[1..] == f[1..];
    }
  }

  lemma {:induction false} StoreWellFormed(f: seq<Record>, column: nat, block: Block, blockSize: nat)
    requires WellFormed(f, blockSize) && |block| == blockSize
    ensures WellFormed(Store(f, column, block), blockSize)
    ensures forall i :: 0 <= i < |Store(f, column, block)| ==>
              Store(f, column, block)[i] in f || Store(f, column, block)[i] == Record(column, block)
  {
    var i := LookupFinds(f, column);
    if Lookup(f, column).Some? {
      LookupIsRecord(f, column, i);
    } else {
      NoRecord(f, column);
    }
  }

  // ---- What the cache does to the view ----

  /** Writing through the cache changes the view in one cell and nowhere else. */
  lemma StoreChangesOneCell(files: map<nat, seq<Record>>, cells: Grid, row: nat, column: nat, block: Block)
    ensures var files' := files[row := Store(FileOf(files, row), column, block)];
            forall r: nat, c: nat :: ViewOf(files', cells, r, c) ==
              if (r, c) == (row, column) then Some(block) else ViewOf(files, cells, r, c)
  {
    forall r: nat, c: nat
      ensures var files' := files[row := Store(FileOf(files, row), column, block)];
              ViewOf(files', cells, r, c) == if (r, c) == (row, column) then Some(block) else ViewOf(files, cells, r, c)
    {
      LookupAfterStore(FileOf(files, row), column, block, c);
    }
  }

  /** The cells a row file has records of. */
  ghost function Shadowed(row: nat, f: seq<Record>): set<Cell> {
    set i | 0 <= i < |f| :: (row, f[i].column)
  }

  /** Emptying a row file lets the cells it has records of, and no others, fall back to the remote blocks. */
  lemma WipeFallsBack(files: map<nat, seq<Record>>, cells: Grid, row: nat, column: nat, block: Block)
    ensures forall r: nat, c: nat :: ViewOf(files[row := []], cells, r, c) ==
              if (r, c) in Shadowed(row, FileOf(files, row)) then ViewOf(map[], cells, r, c)
              else ViewOf(files, cells, r, c)
    ensures var files' := files[row := Store([], column, block)];
            forall r: nat, c: nat :: ViewOf(files', cells, r, c) ==
              if (r, c) == (row, column) then Some(block)
              else if (r, c) in Shadowed(row, FileOf(files, row)) then ViewOf(map[], cells, r, c)
              else ViewOf(files, cells, r, c)
    ensures Clean(FileOf(files, row), cells, row) ==>
              forall r: nat, c: nat :: (r, c) in Shadowed(row, FileOf(files, row)) ==>
                ViewOf(files, cells, r, c) == ViewOf(map[], cells, r, c)
  {
    var f := FileOf(files, row);
    forall r: nat, c: nat
      ensures ViewOf(files[row := []], cells, r, c) ==
              if (r, c) in Shadowed(row, f) then ViewOf(map[], cells, r, c) else ViewOf(files, cells, r, c)
    {
      if r == row {
        var i := LookupFinds(f, c);
      }
    }
    StoreChangesOneCell(files[row := []], cells, row, column, block);
    assert files[row := []][row := Store([], column, block)] == files[row := Store([], column, block)];
    if Clean(f, cells, row) {
      forall r: nat, c: nat | (r, c) in Shadowed(row, f)
        ensures ViewOf(files, cells, r, c) == ViewOf(map[], cells, r, c)
      {
        var i := LookupFinds(f, c);
      }
    }
  }

  /** Eviction: dropping a clean file changes nothing. */
  lemma EvictKeepsView(files: map<nat, seq<Record>>, cells: Grid, row: nat)
    requires Clean(FileOf(files, row), cells, row)
    ensures SameView(files, cells, files - {row}, cells)
  {
    forall r: nat, c: nat ensures ViewOf(files - {row}, cells, r, c) == ViewOf(files, cells, r, c) {
      if r == row {
        var i := LookupFinds(FileOf(files, row), c);
      }
    }
  }

  /** The grids differ in the one cell at most. */
  ghost predicate SameBut(before: Grid, after: Grid, cell: Cell) {
    && after.Keys == before.Keys
    && forall k :: k in after && k != cell ==> after[k] == before[k]
  }

  /** Flushing: a remote cell under a cached block can take any value unnoticed. */
  lemma ShadowedWriteKeepsView(files: map<nat, seq<Record>>, before: Grid, after: Grid, row: nat, i: nat)
    requires i < |FileOf(files, row)| && SameBut(before, after, (row, FileOf(files, row)[i].column))
    ensures SameView(files, before, files, after)
  {
    var f := FileOf(files, row);
    forall r: nat, c: nat ensures ViewOf(files, after, r, c) == ViewOf(files, before, r, c) {
      if r == row && c == f[i].column {
        var j := LookupFinds(f, c);
      }
    }
  }

  /** When every file is clean, the remote grid is the view. */
  lemma CleanViewIsRemote(files: map<nat, seq<Record>>, cells: Grid, row: nat, column: nat)
    requires forall r :: r in files ==> Clean(files[r], cells, r)
    ensures ViewOf(files, cells, row, column) == if (row, column) in cells then Some(cells[(row, column)]) else None
  {
    var i := LookupFinds(FileOf(files, row), column);
  }

  // ---- The two indexes ----

  function Rows(ts: seq<Stamp>): seq<nat> {
    seq(|ts|, i requires 0 <= i < |ts| => ts[i].row)
  }

  ghost predicate Distinct(rows: seq<nat>) {
    forall i, j :: 0 <= i < j < |rows| ==> rows[i] != rows[j]
  }

  ghost predicate InTimeOrder(ts: seq<Stamp>) {
    forall i, j :: 0 <= i < j < |ts| ==> ts[i].time <= ts[j].time
  }

  /** `items` and `timestamps` list the same rows, each once, with the same times. */
  ghost predicate Agree(items: map<nat, Item>, ts: seq<Stamp>) {
    && (forall i :: 0 <= i < |ts| ==> ts[i].row in items && items[ts[i].row].timestamp == ts[i].time)
    && (forall row {:trigger Listed(items, ts, row)} :: row in items ==> Listed(items, ts, row))
    && (forall i, j :: 0 <= i < j < |ts| ==> ts[i].row != ts[j].row)
  }

  ghost predicate Listed(items: map<nat, Item>, ts: seq<Stamp>, row: nat) {
    row in items && Stamp(items[row].timestamp, row) in ts
  }

  function Without(ts: seq<Stamp>, k: nat): (r: seq<Stamp>)
    requires k < |ts|
    ensures |r| == |ts| - 1 && forall i :: 0 <= i < |r| ==> r[i] == if i < k then ts[i] else ts[i + 1]
  {
    ts[..k] + ts[k + 1..]
  }

  function Inserted(ts: seq<Stamp>, k: nat, s: Stamp): (r: seq<Stamp>)
    requires k <= |ts|
    ensures |r| == |ts| + 1 && forall i :: 0 <= i < |r| ==>
              r[i] == if i < k then ts[i] else if i == k then s else ts[i - 1]
  {
    ts[..k] + [s] + ts[k..]
  }

  lemma RowsOf(ts: seq<Stamp>)
    ensures ts != [] ==> Rows(Without(ts, 0)) == Rows(ts)[1..]
  {
  }

  lemma InWithout(ts: seq<Stamp>, k: nat, s: Stamp)
    requires k < |ts| && s in ts && s != ts[k]
    ensures s in Without(ts, k)
  {
    var i :| 0 <= i < |ts| && ts[i] == s;
    assert Without(ts, k)[if i < k then i else i - 1] == s;
  }

  lemma AgreeWithout(items: map<nat, Item>, ts: seq<Stamp>, k: nat)
    requires k < |ts| && Agree(items, ts)
    ensures Agree(items - {ts[k].row}, Without(ts, k))
  {
    forall row | row in items && row != ts[k].row ensures Listed(items - {ts[k].row}, Without(ts, k), row) {
      assert Listed(items, ts, row);
      InWithout(ts, k, Stamp(items[row].timestamp, row));
    }
  }

  lemma OrderWithout(ts: seq<Stamp>, k: nat)
    requires k < |ts| && InTimeOrder(ts)
    ensures InTimeOrder(Without(ts, k))
  {
  }

  lemma OrderInserted(ts: seq<Stamp>, k: nat, s: Stamp)
    requires k <= |ts| && InTimeOrder(ts)
    requires (forall i :: 0 <= i < k ==> ts[i].time <= s.time) && (forall i :: k <= i < |ts| ==> s.time <= ts[i].time)
    ensures InTimeOrder(Inserted(ts, k, s))
  {
  }

  lemma InInserted(ts: seq<Stamp>, k: nat, s: Stamp, present: Stamp)
    requires k <= |ts| && present in ts
    ensures present in Inserted(ts, k, s)
  {
    var i :| 0 <= i < |ts| && ts[i] == present;
    assert Inserted(ts, k, s)[if i < k then i else i + 1] == present;
  }

  lemma AgreeInserted(items: map<nat, Item>, ts: seq<Stamp>, k: nat, s: Stamp, dirty: bool)
    requires k <= |ts| && Agree(items, ts) && s.row !in items
    ensures Agree(items[s.row := Item(s.time, dirty)], Inserted(ts, k, s))
  {
    forall row | row in items ensures Listed(items[s.row := Item(s.time, dirty)], Inserted(ts, k, s), row) {
      assert Listed(items, ts, row);
      InInserted(ts, k, s, Stamp(items[row].timestamp, row));
    }
    assert Inserted(ts, k, s)[k] == s;
  }

  lemma {:induction false} AgreeSize(items: map<nat, Item>, ts: seq<Stamp>)
    requires Agree(items, ts)
    ensures |items| == |ts|
    decreases |ts|
  {
    if ts == [] {
      assert forall row :: row in items ==> Listed(items, ts, row);
      assert items.Keys == {};
    } else {
      AgreeWithout(items, ts, |ts| - 1);
      AgreeSize(items - {ts[|ts| - 1].row}, Without(ts, |ts| - 1));
      assert items.Keys == (items - {ts[|ts| - 1].row}).Keys + {ts[|ts| - 1].row};
    }
  }

  /** The order of last use after the row is used once more. */
  function Touched(order: seq<nat>, row: nat): seq<nat> {
    Removed(order, row) + [row]
  }

  function Removed(order: seq<nat>, row: nat): seq<nat> {
    if order == [] then [] else if order[0] == row then order[1..] else [order[0]] + Removed(order[1..], row)
  }

  lemma {:induction false} RemovedAt(order: seq<nat>, row: nat, k: nat)
    requires k < |order| && order[k] == row && forall i :: 0 <= i < k ==> order[i] != row
    ensures Removed(order, row) == order[..k] + order[k + 1..]
  {
    if k > 0 {
      var tail := order[1..];
      RemovedAt(tail, row, k - 1);
      assert order[..k] == [order[0]] + tail[..k - 1] && order[k + 1..] == tail[k..];
    }
  }

  lemma {:induction false} RemovedAbsent(order: seq<nat>, row: nat)
    requires row !in order
    ensures Removed(order, row) == order
  {
    if order != [] {
      RemovedAbsent(order[1..], row);
    }
  }
}
