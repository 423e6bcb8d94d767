/**
  The write-back row cache as its worker thread runs it, one request at a time.

  Remote reads and writes may fail at any time, and a failed write leaves the cell arbitrary. Local
  files may fail to open and records to be stored; a file that cannot be opened for update is emptied.
  The ghost counters record what went wrong, so that a contract can say "if nothing did", and what
  was lost is told cell by cell.
 */
module RowCache {
  import opened Options
  import opened RowFile
  import opened Luck

  /** The partitions behind the volume: rows x columns blocks on other machines. */
  class Remote {
    const rows: nat
    const columns: nat
    const blockSize: nat
    const luck: Luck
    var ticks: nat
    var cells: Grid
    ghost var failures: nat

    ghost predicate Valid()
      reads this
    {
      && (forall k: Cell :: k in cells <==> k.0 < rows && k.1 < columns)
      && (forall k :: k in cells ==> |cells[k]| == blockSize)
    }

    constructor (rows: nat, columns: nat, blockSize: nat, luck: Luck)
      ensures Valid() && this.rows == rows && this.columns == columns && this.blockSize == blockSize
      ensures this.luck == luck
      ensures forall k :: k in cells ==> cells[k] == seq(blockSize, _ => 0)
    {
      this.rows, this.columns, this.blockSize, this.luck := rows, columns, blockSize, luck;
      cells := map r: nat, c: nat | r < rows && c < columns :: (r, c) := seq(blockSize, _ => 0);
      assert forall k: Cell :: k == (k.0, k.1);
      failures, ticks := 0, 0;
    }

    method ReadBlock(row: nat, column: nat) returns (ok: bool, block: Block)
      requires Valid()
      modifies this`failures, this`ticks
      ensures ok <==> (row, column) in cells && luck.good(RemoteRead, old(ticks))
      ensures if ok then block == cells[(row, column)] && failures == old(failures) else failures > old(failures)
    {
      var reached := luck.good(RemoteRead, ticks);
      ticks := ticks + 1;
      ok, block := false, [];
      if reached && (row, column) in cells {
        ok, block := true, cells[(row, column)];
      } else {
        failures := failures + 1;
      }
    }

    /** Blocks go bad on the machines that hold them. */
    method Spoil(damage: Grid)
      requires Valid()
      modifies `cells
      ensures Valid() && cells.Keys == old(cells).Keys
      ensures forall k :: k in cells ==>
                cells[k] == if k in damage && |damage[k]| == blockSize then damage[k] else old(cells)[k]
    {
      cells := map k | k in cells :: if k in damage && |damage[k]| == blockSize then damage[k] else cells[k];
    }

    method WriteBlock(row: nat, column: nat, block: Block) returns (ok: bool)
      requires Valid() && |block| == blockSize
      modifies this
      ensures Valid()
      ensures SameBut(old(cells), cells, (row, column))
      ensures ok <==> (row, column) in cells && luck.good(RemoteWrite, old(ticks))
      ensures if ok then cells[(row, column)] == block && failures == old(failures) else failures > old(failures)
    {
      var reached, junk := luck.good(RemoteWrite, ticks), luck.junk(ticks);
      ticks := ticks + 1;
      ok := false;
      if (row, column) in cells {
        if reached {
          cells := cells[(row, column) := block];
          return true;
        } else if |junk| == blockSize {
          cells := cells[(row, column) := junk];
        }
      }
      failures := failures + 1;
    }
  }

  /** In a valid cache every cell of the grid shows a block of the right size. */
  lemma GridIsShown(files: map<nat, seq<Record>>, cells: Grid, row: nat, column: nat, blockSize: nat)
    requires AllFormed(files, blockSize) && (row, column) in cells && |cells[(row, column)]| == blockSize
    ensures ViewOf(files, cells, row, column).Some? && |ViewOf(files, cells, row, column).value| == blockSize
  {
    var i := LookupFinds(FileOf(files, row), column);
  }

  predicate IsDirty(items: map<nat, Item>, row: nat) {
    row in items && items[row].dirty
  }

  ghost predicate AllFormed(files: map<nat, seq<Record>>, blockSize: nat) {
    forall r :: r in files ==> WellFormed(files[r], blockSize)
  }

  /** Rows that are not dirty agree with the remote; `apart` is excepted while its index entry is being updated. */
  ghost predicate CleanBut(files: map<nat, seq<Record>>, items: map<nat, Item>, cells: Grid, apart: set<nat>) {
    forall r :: r in files && r !in apart ==> IsDirty(items, r) || Clean(files[r], cells, r)
  }

  /** Every dirty row has a file. */
  ghost predicate Held(files: map<nat, seq<Record>>, items: map<nat, Item>) {
    forall r :: r in items && items[r].dirty ==> r in files
  }

  /** Every record is of a cell there is. */
  ghost predicate AllHomed(files: map<nat, seq<Record>>, cells: Grid) {
    forall r: nat :: r in files ==> Homed(files[r], cells, r)
  }

  ghost predicate Homed(f: seq<Record>, cells: Grid, row: nat) {
    forall i :: 0 <= i < |f| ==> (row, f[i].column) in cells
  }

  ghost predicate AllBefore(ts: seq<Stamp>, latest: nat) {
    forall i :: 0 <= i < |ts| ==> ts[i].time <= latest
  }

  /** The items are as they were, save that some dirty ones have become clean. */
  ghost predicate OnlyCleaned(before: map<nat, Item>, after: map<nat, Item>) {
    && after.Keys == before.Keys
    && forall r :: r in after ==> after[r].timestamp == before[r].timestamp && (after[r].dirty ==> before[r].dirty)
  }

  /** The cells outside the set show what they showed. */
  ghost predicate SameViewBut(files: map<nat, seq<Record>>, cells: Grid, files': map<nat, seq<Record>>, cells': Grid,
                              gone: set<Cell>) {
    forall r: nat, c: nat :: (r, c) !in gone ==> ViewOf(files', cells', r, c) == ViewOf(files, cells, r, c)
  }

  ghost predicate InRow(gone: set<Cell>, row: nat) {
    forall k {:trigger k in gone} :: k in gone ==> k.0 == row
  }

  /**
    What every cell shows after an attempt to put a block in a row file: the block, if there it is; the remote block,
    if the file was emptied and had a record of the cell; and otherwise what it showed.
   */
  ghost predicate Replaced(files: map<nat, seq<Record>>, cells: Grid, files': map<nat, seq<Record>>, cells': Grid,
                           row: nat, column: nat, block: Option<Block>, wiped: bool) {
    forall r: nat, c: nat :: ViewOf(files', cells', r, c) ==
      if block.Some? && (r, c) == (row, column) then block
      else if wiped && (r, c) in Shadowed(row, FileOf(files, row)) then ViewOf(map[], cells, r, c)
      else ViewOf(files, cells, r, c)
  }

  /** A block with some bytes laid over it. */
  ghost function NewBlock(base: Option<Block>, data: Block, offset: nat, size: nat): Option<Block> {
    if |data| == size then Some(data)
    else if base.Some? && |base.value| == size && offset + |data| <= size then Some(Overlay(base.value, offset, data))
    else None
  }

  ghost predicate BlockOf(block: Option<Block>, size: nat) { block.Some? && |block.value| == size }

  /** There are two blocks that agree in these bytes. */
  ghost predicate SameInside(a: Option<Block>, b: Option<Block>, offset: nat, count: nat) {
    && a.Some? && b.Some? && offset + count <= |a.value| == |b.value|
    && a.value[offset..offset + count] == b.value[offset..offset + count]
  }

  /** There are two blocks that differ at most in these bytes. */
  ghost predicate SameOutside(a: Option<Block>, b: Option<Block>, offset: nat, count: nat) {
    && a.Some? && b.Some? && |a.value| == |b.value|
    && forall i :: 0 <= i < |a.value| && !(offset <= i < offset + count) ==> a.value[i] == b.value[i]
  }

  lemma OverlaySame(a: Block, b: Block, offset: nat, data: Block)
    requires |a| == |b| && offset + |data| <= |a|
    ensures Overlay(a, offset, data) == Overlay(b, offset, data) <==> SameOutside(Some(a), Some(b), offset, |data|)
  {
    if Overlay(a, offset, data) == Overlay(b, offset, data) {
      forall i | 0 <= i < |a| && !(offset <= i < offset + |data|) ensures a[i] == b[i] {
        assert Overlay(a, offset, data)[i] == a[i] && Overlay(b, offset, data)[i] == b[i];
      }
    }
  }

  /** How a block was read: whether the row file could be opened, if there was one, and whether it was filled. */
  datatype Access = Access(legible: bool, stored: bool)

  /**
    What a read of a block gives, if it does not fail, and what the cell shows then. It gives what the cell showed if
    and only if the file could be opened or showed what the remote block is. Unless the file was emptied, the cell
    changes if and only if the file could not be opened, was filled, and showed another block.
   */
  ghost predicate ReadIs(shown: Option<Block>, behind: Option<Block>, now: Option<Block>, got: Option<Block>,
                         how: Access, intact: bool) {
    && (got.Some? ==> got == if how.legible then shown else behind)
    && (got.Some? ==> (got == shown <==> how.legible || shown == behind))
    && (intact ==> now == if how.stored then behind else shown)
    && (intact ==> (now != shown <==> !how.legible && how.stored && shown != behind))
  }

  /** A block was read, and the use of the row recorded, which nobody sees. */
  lemma ReadThen(files: map<nat, seq<Record>>, cells: Grid, files1: map<nat, seq<Record>>,
                 files2: map<nat, seq<Record>>, cells2: Grid, row: nat, column: nat, gone: set<Cell>, how: Access,
                 got: Option<Block>, wiped: bool)
    requires SameViewBut(files, cells, files1, cells, gone) && SameView(files1, cells, files2, cells2)
    requires var behind := ViewOf(map[], cells, row, column);
             && Replaced(files, cells, files1, cells, row, column, if how.stored then behind else None, wiped)
             && (got.Some? ==> got == if how.legible then ViewOf(files, cells, row, column) else behind)
             && (how.stored ==> behind.Some?)
             && (how.legible && how.stored ==> ViewOf(files, cells, row, column) == behind)
    ensures SameViewBut(files, cells, files2, cells2, gone)
    ensures var behind := ViewOf(map[], cells, row, column);
            && Replaced(files, cells, files2, cells2, row, column, if how.stored then behind else None, wiped)
            && ReadIs(ViewOf(files, cells, row, column), behind, ViewOf(files2, cells2, row, column), got, how, !wiped)
  {
    hide ViewOf, Shadowed;
  }

  /**
    What the target of a write shows then. Unless it is lost, the bytes given laid over what it showed, or what it
    showed if the write failed. A successful write of part of a block does that if and only if the file could be opened
    or showed, outside these bytes, what the remote block has; a failed one, unless the file was emptied, if and only
    if it did not fill the file.
   */
  ghost predicate TargetIs(shown: Option<Block>, behind: Option<Block>, now: Option<Block>, data: Block, offset: nat,
                           size: nat, ok: bool, how: Access, lost: bool, intact: bool) {
    && (!ok && !lost ==> now == shown)
    && (!ok && intact ==> now == if how.stored then behind else shown)
    && (ok && |data| == size ==> now == Some(data))
    && (ok && |data| != size ==>
          && BlockOf(shown, size) && offset + |data| <= size
          && (!lost ==> now == Some(Overlay(shown.value, offset, data)))
          && (now == Some(Overlay(shown.value, offset, data)) <==>
              how.legible || SameOutside(shown, behind, offset, |data|)))
  }

  lemma TargetTells(shown: Option<Block>, behind: Option<Block>, now: Option<Block>, data: Block, offset: nat,
                    size: nat, ok: bool, how: Access, lost: bool, intact: bool)
    requires !ok && !lost ==> now == shown
    requires !ok && intact ==> now == if how.stored then behind else shown
    requires offset + |data| <= size
    requires var base := if how.legible then shown else behind;
             && (ok ==> now == NewBlock(base, data, offset, size))
             && (ok && |data| != size ==> BlockOf(base, size) && BlockOf(shown, size) && (!lost ==> base == shown))
    ensures TargetIs(shown, behind, now, data, offset, size, ok, how, lost, intact)
  {
    if ok && |data| != size && !how.legible {
      OverlaySame(shown.value, behind.value, offset, data);
    }
  }

  /** The state between the two halves of a write. */
  datatype Snapshot = Snapshot(files: map<nat, seq<Record>>, cells: Grid, wipes: nat)

  lemma SameViewStart(files: map<nat, seq<Record>>, cells: Grid)
    ensures SameView(files, cells, files, cells)
  {
  }

  lemma SameViewThen(files: map<nat, seq<Record>>, cells: Grid, files1: map<nat, seq<Record>>, cells1: Grid,
                     files2: map<nat, seq<Record>>, cells2: Grid)
    requires SameView(files, cells, files1, cells1) && SameView(files1, cells1, files2, cells2)
    ensures SameView(files, cells, files2, cells2)
  {
  }

  lemma NothingGone(files: map<nat, seq<Record>>, cells: Grid, row: nat)
    ensures SameViewBut(files, cells, files, cells, {}) && InRow({}, row)
  {
  }

  lemma NothingReplaced(files: map<nat, seq<Record>>, cells: Grid, row: nat, column: nat)
    ensures Replaced(files, cells, files, cells, row, column, None, false)
  {
  }

  lemma ReplacedThen(files: map<nat, seq<Record>>, cells: Grid, files1: map<nat, seq<Record>>, cells1: Grid,
                     files2: map<nat, seq<Record>>, cells2: Grid, row: nat, column: nat, block: Option<Block>,
                     wiped: bool)
    requires Replaced(files, cells, files1, cells1, row, column, block, wiped)
             && SameView(files1, cells1, files2, cells2)
    ensures Replaced(files, cells, files2, cells2, row, column, block, wiped)
  {
  }

  lemma BothViews(files: map<nat, seq<Record>>, cells: Grid, files1: map<nat, seq<Record>>, cells1: Grid,
                  files2: map<nat, seq<Record>>, cells2: Grid, gone: set<Cell>, more: set<Cell>, cell: Cell)
    requires SameViewBut(files, cells, files1, cells1, gone)
    requires SameViewBut(files1, cells1, files2, cells2, more + {cell})
    ensures SameViewBut(files, cells, files2, cells2, gone + more + {cell})
  {
  }

  lemma SameViewMore(files: map<nat, seq<Record>>, cells: Grid, files': map<nat, seq<Record>>, cells': Grid,
                     gone: set<Cell>, more: set<Cell>)
    requires SameViewBut(files, cells, files', cells', gone)
    ensures SameViewBut(files, cells, files', cells', gone + more)
  {
  }

  lemma CellStays(files: map<nat, seq<Record>>, cells: Grid, files': map<nat, seq<Record>>, gone: set<Cell>, row: nat,
                  column: nat)
    requires SameViewBut(files, cells, files', cells, gone + {(row, column)})
    requires (row, column) in gone || ViewOf(files', cells, row, column) == ViewOf(files, cells, row, column)
    ensures SameViewBut(files, cells, files', cells, gone)
  {
  }

  lemma ViewThen(files: map<nat, seq<Record>>, cells: Grid, files1: map<nat, seq<Record>>, cells1: Grid,
                 files2: map<nat, seq<Record>>, cells2: Grid, gone: set<Cell>, row: nat, column: nat)
    requires SameViewBut(files, cells, files1, cells1, gone) && SameView(files1, cells1, files2, cells2)
    ensures SameViewBut(files, cells, files2, cells2, gone)
    ensures ViewOf(files2, cells2, row, column) == ViewOf(files1, cells1, row, column)
  {
  }

  /** What a flush did: it looked at the rows before `stop`, in order of last use, and failed to write or open these. */
  datatype Report = Report(stop: nat, interrupted: bool, failed: set<nat>, unopened: set<nat>) {
    /** The rows still dirty are exactly those not looked at and those that could not be opened or written. */
    ghost predicate Explains(before: map<nat, Item>, after: map<nat, Item>, ts: seq<Stamp>) {
      && stop <= |ts| && OnlyCleaned(before, after)
      && (forall i :: 0 <= i < |ts| ==>
            (IsDirty(after, ts[i].row) <==>
             IsDirty(before, ts[i].row) && (i >= stop || ts[i].row in failed || ts[i].row in unopened)))
      && failed + unopened <= RowsBefore(ts, stop)
      && (forall r :: r in failed || r in unopened ==> IsDirty(before, r))
    }

    /** After one more row, which was dirty. */
    function Next(row: nat, legible: bool, success: bool): Report {
      Report(stop + 1, interrupted,
             if legible && !success then failed + {row} else failed,
             if legible then unopened else unopened + {row})
    }

    /** What the flush says: if interrupted, whether it had come to the last row; otherwise, whether no write failed. */
    ghost predicate Says(rows: nat) { if interrupted then stop == rows else failed == {} }

    /** No row is left dirty. */
    ghost predicate Complete(before: map<nat, Item>, ts: seq<Stamp>) {
      failed == {} && unopened == {} && forall i :: stop <= i < |ts| ==> !IsDirty(before, ts[i].row)
    }
  }

  ghost function RowsBefore(ts: seq<Stamp>, n: nat): set<nat>
    requires n <= |ts|
  {
    set i | 0 <= i < n :: ts[i].row
  }

  ghost predicate Settled(items: map<nat, Item>) {
    forall r :: r in items ==> !items[r].dirty
  }

  class Cache {
    const remote: Remote
    const limit: nat
    const flushPolicy: nat
    const luck: Luck
    var ticks: nat
    var files: map<nat, seq<Record>>
    var items: map<nat, Item>
    var timestamps: seq<Stamp>
    ghost var latest: nat    // the latest time the clock has shown
    ghost var faults: nat    // times the file of a dirty row could not be opened to read a block
    ghost var wipes: nat     // times the file of a dirty row was emptied
    ghost var mishaps: nat   // other local operations that failed, and times the clock went back

    ghost predicate ValidBut(apart: set<nat>)
      reads this, remote
    {
      && remote.Valid()
      && AllFormed(files, remote.blockSize)
      && CleanBut(files, items, remote.cells, apart)
      && Held(files, items)
      && Agree(items, timestamps) && InTimeOrder(timestamps) && AllBefore(timestamps, latest)
    }

    ghost predicate Valid()
      reads this, remote
    {
      ValidBut({})
    }

    ghost function View(row: nat, column: nat): Option<Block>
      reads this, remote
    {
      ViewOf(files, remote.cells, row, column)
    }

    /** Local records can be stored, whatever else fails. */
    ghost predicate Storing() { luck.Always(OpenToUpdate) && luck.Always(Create) && luck.Always(StoreRecord) }

    predicate Inside(row: nat, column: nat) { row < remote.rows && column < remote.columns }

    /** Nothing is going to fail: all operations succeed, the clock goes on, and every record has a cell to go to. */
    ghost predicate Lucky()
      reads `latest, `ticks, `files, remote`cells
    {
      && Storing() && luck.Always(OpenToRead) && luck.Forward() && latest <= luck.clock(ticks)
      && remote.luck.Always(RemoteRead) && remote.luck.Always(RemoteWrite) && AllHomed(files, remote.cells)
    }

    /** If nothing was going to fail, nothing has failed, and nothing is going to. */
    twostate predicate Undisturbed()
      reads this, remote
    {
      old(Lucky()) ==>
        && Lucky() && remote.failures == old(remote.failures) && mishaps == old(mishaps)
        && faults == old(faults) && wipes == old(wipes)
    }

    constructor (remote: Remote, limit: nat, flushPolicy: nat, luck: Luck)
      requires remote.Valid()
      ensures Valid() && this.remote == remote && this.limit == limit && this.luck == luck
      ensures items == map[] && files == map[] && timestamps == []
      ensures Storing() && luck.Always(OpenToRead) && luck.Forward()
              && remote.luck.Always(RemoteRead) && remote.luck.Always(RemoteWrite) ==>
                Lucky()
    {
      this.remote, this.limit, this.flushPolicy, this.luck := remote, limit, flushPolicy, luck;
      files, items, timestamps := map[], map[], [];
      latest, faults, wipes, mishaps, ticks := 0, 0, 0, 0, 0;
    }

    method Draw(e: Event) returns (good: bool)
      modifies `ticks
      ensures good == luck.good(e, old(ticks)) && Undisturbed()
    {
      good := luck.good(e, ticks);
      ticks := ticks + 1;
    }

    /** time(nullptr). */
    method Clock() returns (now: nat)
      modifies `latest, `mishaps, `ticks
      ensures now <= latest && old(latest) <= latest && old(mishaps) <= mishaps
      ensures mishaps == old(mishaps) ==> now == latest
      ensures Undisturbed()
    {
      now := luck.clock(ticks);
      ticks := ticks + 1;
      if now < latest {
        mishaps := mishaps + 1;
      } else {
        latest := now;
      }
    }

    /** Blocks go bad on the machines that hold them, but for those of rows that are held here. */
    method Spoil(damage: Grid)
      requires Valid()
      modifies remote`cells
      ensures Valid() && Undisturbed() && remote.cells.Keys == old(remote.cells).Keys
      ensures SameViewBut(files, old(remote.cells), files, remote.cells, damage.Keys)
    {
      remote.Spoil(map k | k in damage && k.0 !in files :: damage[k]);
      hide InTimeOrder, AllBefore, Lookup;
      SpoilKeeps(files, items, old(remote.cells), remote.cells);
    }

    /** The block of the first record for the column, unless the file is there and cannot be opened. */
    method ReadFileBlock(row: nat, column: nat) returns (ok: bool, block: Block, ghost legible: bool)
      modifies `faults, `ticks
      ensures ok <==> legible && Lookup(FileOf(files, row), column).Some?
      ensures ok ==> Lookup(FileOf(files, row), column) == Some(block)
      ensures faults == old(faults) + if legible || !IsDirty(items, row) then 0 else 1
      ensures !legible ==> row in files
      ensures luck.Never(OpenToRead) && row in files ==> !legible
      ensures Undisturbed()
    {
      ok, block, legible := false, [], true;
      if row in files {
        var readable := Draw(OpenToRead);
        legible := readable;
        if !readable {
          faults := faults + if IsDirty(items, row) then 1 else 0;
          return;
        }
      }
      var f := if row in files then files[row] else [];
      var i := 0;
      while i < |f|
        invariant 0 <= i <= |f|
        invariant forall j :: 0 <= j < i ==> f[j].column != column
      {
        if f[i].column == column {
          LookupIsRecord(f, column, i);
          return true, f[i].block, true;
        }
        i := i + 1;
      }
      NoRecord(f, column);
    }

    /**
      Overwrites the column's record or appends one. A file that cannot be opened for update is created anew,
      which empties it if it was there.
     */
    method WriteFileBlock(row: nat, column: nat, block: Block) returns (ok: bool, ghost wiped: bool)
      modifies `files, `mishaps, `wipes, `ticks
      ensures ok ==> mishaps == old(mishaps)
                     && files == old(files)[row := Store(if wiped then [] else FileOf(old(files), row), column, block)]
      ensures !ok ==> mishaps > old(mishaps)
      ensures !ok ==>
                files == if wiped || (row !in old(files) && row in files) then old(files)[row := []] else old(files)
      ensures wiped ==> row in old(files) && !luck.Always(OpenToUpdate)
      ensures wipes == old(wipes) + if wiped && IsDirty(items, row) then 1 else 0
      ensures Storing() ==> ok && !wiped
      ensures (row, column) in remote.cells ==> Undisturbed()
    {
      hide AllHomed;
      ok, wiped := OpenFile(row);
      if !ok {
        return;
      }
      ok := Draw(StoreRecord);
      if !ok {
        mishaps := mishaps + 1;
        return;
      }
      var f := files[row];
      var i := 0;
      while i < |f| && f[i].column != column
        invariant 0 <= i <= |f|
        invariant forall j :: 0 <= j < i ==> f[j].column != column
      {
        i := i + 1;
      }
      if i < |f| {
        LookupIsRecord(f, column, i);
        f := f[i := Record(column, block)];
      } else {
        NoRecord(f, column);
        f := f + [Record(column, block)];
      }
      HomedMore(files, remote.cells, row, column, block);
      files := files[row := f];
    }

    /** Opens a row file for update, or creates it anew. */
    method OpenFile(row: nat) returns (ok: bool, ghost wiped: bool)
      modifies `files, `mishaps, `wipes, `ticks
      ensures if ok then mishaps == old(mishaps) && row in files else mishaps > old(mishaps) && files == old(files)
      ensures ok ==> files == if row in old(files) && !wiped then old(files) else old(files)[row := []]
      ensures wiped ==> ok && row in old(files) && !luck.Always(OpenToUpdate)
      ensures wipes == old(wipes) + if wiped && IsDirty(items, row) then 1 else 0
      ensures Storing() ==> ok
      ensures Undisturbed()
    {
      MoreHomed(files, remote.cells, row, []);
      hide AllHomed;
      ok, wiped := true, false;
      var legible := false;
      if row in files {
        legible := Draw(OpenToUpdate);
      }
      if !legible {
        ok := Draw(Create);
        if !ok {
          mishaps := mishaps + 1;
          return;
        }
        wiped := row in files;
        wipes := wipes + if wiped && IsDirty(items, row) then 1 else 0;
        files := files[row := []];
      }
    }

    /**
      Puts a block in the row file. No other cell changes, unless the file of a dirty row was emptied; then exactly
      the cells it had records of fall back to the remote blocks.
     */
    method KeepBlock(row: nat, column: nat, block: Block) returns (ok: bool, ghost gone: set<Cell>)
      requires Valid() && |block| == remote.blockSize
      modifies `files, `mishaps, `wipes, `ticks
      ensures ValidBut({row}) && old(mishaps) <= mishaps && old(wipes) <= wipes
      ensures SameViewBut(old(files), remote.cells, files, remote.cells, gone + {(row, column)})
      ensures ok ==> row in files && files[row] != [] && (row, column) !in gone && View(row, column) == Some(block)
      ensures !ok ==>
                Valid() && mishaps > old(mishaps)
                && ((row, column) !in gone ==> View(row, column) == old(View(row, column)))
      ensures InRow(gone, row)
      ensures Replaced(old(files), remote.cells, files, remote.cells, row, column, if ok then Some(block) else None,
                       wipes > old(wipes))
      ensures gone == if wipes == old(wipes) then {}
                      else Shadowed(row, FileOf(old(files), row)) - if ok then {(row, column)} else {}
      ensures (row, column) in remote.cells && block == remote.cells[(row, column)]
              && Clean(FileOf(old(files), row), remote.cells, row) ==>
                Clean(FileOf(files, row), remote.cells, row)
      ensures Storing() ==> ok && wipes == old(wipes)
      ensures Inside(row, column) ==> Undisturbed()
    {
      hide Lucky, Agree, InTimeOrder, AllBefore, Lookup, Store, Clean, CleanBut, Held, AllFormed, SameViewBut, Shadowed,
           Replaced;
      ghost var wiped;
      ok, wiped := WriteFileBlock(row, column, block);
      gone := Lost(wiped && IsDirty(items, row), ok, row, column, FileOf(old(files), row));
      KeepViews(old(files), items, remote.cells, row, column, block, files, ok, wiped);
      KeepForms(old(files), items, remote.cells, row, column, block, files, ok, wiped, remote.blockSize);
    }

    /** Writes the records of a row file to the remote cells, until one fails. */
    method FlushRow(row: nat) returns (success: bool)
      requires Valid() && row in files && IsDirty(items, row)
      modifies remote
      ensures Valid()
      ensures SameView(files, old(remote.cells), files, remote.cells)
      ensures success ==> Clean(files[row], remote.cells, row) && remote.failures == old(remote.failures)
      ensures !success ==> remote.failures > old(remote.failures)
      ensures remote.luck.Never(RemoteWrite) && files[row] != [] ==> !success
      ensures Undisturbed()
    {
      hide Agree, InTimeOrder, AllBefore, Lookup;
      var f := files[row];
      var i := 0;
      while i < |f|
        invariant 0 <= i <= |f| && f == files[row]
        invariant Valid() && remote.failures == old(remote.failures)
        invariant SameView(files, old(remote.cells), files, remote.cells)
        invariant Clean(f[..i], remote.cells, row)
        invariant remote.luck.Never(RemoteWrite) ==> i == 0
        invariant remote.cells.Keys == old(remote.cells).Keys
      {
        ghost var before := remote.cells;
        var ok := remote.WriteBlock(row, f[i].column, f[i].block);
        ShadowedWriteKeepsView(files, before, remote.cells, row, i);
        if !ok {
          return false;
        }
        i := i + 1;
      }
      assert f[..i] == f;
      success := true;
    }

    /** Flushes one row and marks it clean if that worked. A file that cannot be opened counts as flushed. */
    method FlushItem(row: nat) returns (success: bool, ghost legible: bool)
      requires Valid() && IsDirty(items, row)
      modifies remote, `items, `mishaps, `ticks
      ensures Valid() && OnlyCleaned(old(items), items)
      ensures items == if legible && success then old(items)[row := old(items)[row].(dirty := false)] else old(items)
      ensures SameView(files, old(remote.cells), files, remote.cells)
      ensures old(remote.failures) <= remote.failures && (success <==> remote.failures == old(remote.failures))
      ensures mishaps == old(mishaps) + if legible then 0 else 1
      ensures !legible ==> success
      ensures remote.luck.Never(RemoteWrite) && files[row] != [] ==> items == old(items)
      ensures Undisturbed()
    {
      var readable := Draw(OpenToRead);
      legible := readable;
      if !readable {
        mishaps := mishaps + 1;
        return true, false;
      }
      success := FlushRow(row);
      if success {
        items := items[row := items[row].(dirty := false)];
        CleanedAgrees(old(items), items, timestamps);
      }
    }

    /**
      Flushes dirty rows in order of last use, stopping early when a request is waiting. The view never
      changes, whatever fails. The report tells which rows are left dirty, and what is returned is what it says:
      see FlushTells for when that is the truth. If nothing fails, the row used longest ago is clean afterwards,
      and unless a request is waiting no row is dirty and the remote grid is the view.
     */
    method Flush(force: bool) returns (all: bool, ghost report: Report)
      requires Valid()
      modifies remote, `items, `latest, `mishaps, `ticks
      ensures Valid() && report.Explains(old(items), items, timestamps) && all == report.Says(|timestamps|)
      ensures OnlyCleaned(old(items), items)
      ensures SameView(files, old(remote.cells), files, remote.cells)
      ensures old(remote.failures) <= remote.failures && old(mishaps) <= mishaps && old(latest) <= latest
      ensures report.failed == {} <==> remote.failures == old(remote.failures)
      ensures mishaps == old(mishaps) ==> report.unopened == {}
      ensures (if report.interrupted then 1 else 0) <= report.stop <= |timestamps|
      ensures !report.interrupted && (force || mishaps == old(mishaps)) ==> report.stop == |timestamps|
      ensures remote.failures == old(remote.failures) && mishaps == old(mishaps) && |timestamps| > 0 ==>
                !IsDirty(items, timestamps[0].row)
      ensures mishaps == old(mishaps) && !report.interrupted && all ==>
                && Settled(items)
                && (forall r: nat, c: nat :: View(r, c) == ViewOf(map[], remote.cells, r, c))
      ensures luck.Always(Arrival) ==>
                forall i :: 0 <= i < report.stop - (if report.interrupted then 1 else 0) ==>
                  !IsDirty(old(items), timestamps[i].row)
      ensures remote.luck.Never(RemoteWrite) ==> StillDirty(files, old(items), items)
      ensures luck.Never(Arrival) ==> !report.interrupted
      ensures luck.Never(Arrival) && remote.failures == old(remote.failures) && mishaps == old(mishaps) ==>
                && all && Settled(items)
                && (forall r: nat, c: nat :: View(r, c) == ViewOf(map[], remote.cells, r, c))
      ensures Undisturbed()
    {
      hide Lucky, Report.Explains, AllFormed, Held, Clean, Lookup, SameView, StillDirty;
      all, report := FlushDirty(force);
      FlushEnd(old(items), items, timestamps, report);
      if mishaps == old(mishaps) && !report.interrupted && all {
        SettledViewIsRemote(files, items, remote.cells);
      }
    }

    /** The loop of Flush. */
    method FlushDirty(force: bool) returns (all: bool, ghost report: Report)
      requires Valid()
      modifies remote, `items, `latest, `mishaps, `ticks
      ensures Valid() && report.Explains(old(items), items, timestamps) && all == report.Says(|timestamps|)
      ensures SameView(files, old(remote.cells), files, remote.cells)
      ensures old(remote.failures) <= remote.failures && old(mishaps) <= mishaps && old(latest) <= latest
      ensures report.failed == {} <==> remote.failures == old(remote.failures)
      ensures mishaps == old(mishaps) ==> report.unopened == {}
      ensures (if report.interrupted then 1 else 0) <= report.stop <= |timestamps|
      ensures !report.interrupted && (force || mishaps == old(mishaps)) ==> report.stop == |timestamps|
      ensures mishaps == old(mishaps) && |timestamps| > 0 ==> report.stop > 0
      ensures luck.Always(Arrival) ==>
                forall i :: 0 <= i < report.stop - (if report.interrupted then 1 else 0) ==>
                  !IsDirty(old(items), timestamps[i].row)
      ensures remote.luck.Never(RemoteWrite) ==> StillDirty(files, old(items), items)
      ensures luck.Never(Arrival) ==> !report.interrupted
      ensures Undisturbed()
    {
      hide Lucky, Report.Explains, AllFormed, CleanBut, Held, Lookup, SameView, Agree, InTimeOrder;
      SameViewStart(files, remote.cells);
      all, report := true, Report(0, false, {}, {});
      ReportStart(items, timestamps);
      var now := Clock();
      var expire, k := now + flushPolicy, 0;
      while k < |timestamps| && (force || timestamps[k].time <= expire)
        invariant !report.interrupted && report.stop == k <= |timestamps|
        invariant Valid() && report.Explains(old(items), items, timestamps) && all == (report.failed == {})
        invariant SameView(files, old(remote.cells), files, remote.cells)
        invariant old(remote.failures) <= remote.failures && old(mishaps) <= mishaps && old(latest) <= latest
        invariant report.failed == {} <==> remote.failures == old(remote.failures)
        invariant mishaps == old(mishaps) ==> now == latest && report.unopened == {}
        invariant luck.Always(Arrival) ==> forall i :: 0 <= i < report.stop ==> !IsDirty(old(items), timestamps[i].row)
        invariant remote.luck.Never(RemoteWrite) ==> StillDirty(files, old(items), items)
        invariant Undisturbed()
        decreases |timestamps| - k
      {
        var success, waiting;
        ghost var cells := remote.cells;
        success, waiting, report := FlushNext(k, old(items), report);
        SameViewThen(files, old(remote.cells), files, cells, files, remote.cells);
        all := all && success;
        k := k + 1;
        if waiting {
          all, report := k == |timestamps|, report.(interrupted := true);
          InterruptedExplains(old(items), items, timestamps, report);
          break;
        }
      }
    }

    /** The next row in order of last use, and whether a request is waiting after it was flushed. */
    method FlushNext(k: nat, ghost start: map<nat, Item>, ghost report: Report)
      returns (success: bool, waiting: bool, ghost next: Report)
      requires Valid() && report.Explains(start, items, timestamps) && report.stop == k < |timestamps|
      modifies remote, `items, `mishaps, `ticks
      ensures Valid() && next.Explains(start, items, timestamps)
      ensures next.stop == report.stop + 1 && next.interrupted == report.interrupted
      ensures SameView(files, old(remote.cells), files, remote.cells)
      ensures old(remote.failures) <= remote.failures && old(mishaps) <= mishaps
      ensures success <==> remote.failures == old(remote.failures)
      ensures next.failed == {} <==> report.failed == {} && success
      ensures mishaps == old(mishaps) ==> next.unopened == report.unopened
      ensures luck.Always(Arrival) && !waiting ==> !IsDirty(start, timestamps[report.stop].row)
      ensures remote.luck.Never(RemoteWrite) ==> StillDirty(files, old(items), items)
      ensures luck.Never(Arrival) ==> !waiting
      ensures Undisturbed()
    {
      hide Report.Explains, AllFormed, CleanBut, Lookup, SameView, InTimeOrder, AllBefore;
      SameViewStart(files, remote.cells);
      success, waiting := true, false;
      var row := timestamps[k].row;
      if row in items && items[row].dirty {
        ghost var legible;
        success, legible := FlushItem(row);
        ExplainsMore(start, old(items), items, timestamps, report, legible, success);
        next := report.Next(row, legible, success);
        waiting := Draw(Arrival);
      } else {
        ExplainsOver(start, items, timestamps, report);
        next := report.(stop := report.stop + 1);
      }
    }

    /** Unlinks the file of the row at place k and forgets the row. A file that stays is clean and does no harm. */
    method Evict(k: nat)
      requires Valid() && k < |timestamps| && !IsDirty(items, timestamps[k].row)
      modifies `files, `items, `timestamps, `ticks
      ensures Valid() && SameView(old(files), remote.cells, files, remote.cells)
      ensures items == old(items) - {old(timestamps)[k].row} && timestamps == Without(old(timestamps), k)
      ensures |items| == |old(items)| - 1
      ensures Undisturbed()
    {
      var row := timestamps[k].row;
      EvictKeepsView(files, remote.cells, row);
      AgreeWithout(items, timestamps, k);
      OrderWithout(timestamps, k);
      EvictForms(files, items, remote.cells, row, remote.blockSize);
      hide Lucky, Agree, InTimeOrder, AllFormed, CleanBut, Held, SameView;
      SameViewStart(files, remote.cells);
      assert items.Keys == (items - {row}).Keys + {row};
      UnlinkFile(row);
      items := items - {row};
      timestamps := Without(timestamps, k);
    }

    method UnlinkFile(row: nat)
      modifies `files, `ticks
      ensures files == old(files) - {row} || files == old(files)
      ensures Undisturbed()
    {
      FewerHomed(files, remote.cells, row);
      hide AllHomed;
      var unlinked := Draw(Unlink);
      if unlinked {
        files := files - {row};
      }
    }

    /**
      Evicts one row, the first in order of last use that is clean or can be made clean. The view does not
      change. If nothing fails, it is the row used longest ago.
     */
    method Pop() returns (ghost place: Option<nat>)
      requires Valid()
      modifies remote, this
      ensures Valid() && faults == old(faults) && wipes == old(wipes)
      ensures SameView(old(files), old(remote.cells), files, remote.cells)
      ensures old(remote.failures) <= remote.failures && old(mishaps) <= mishaps && old(latest) <= latest
      ensures place.None? ==> timestamps == old(timestamps)
      ensures place.Some? ==> place.value < |old(timestamps)| && timestamps == Without(old(timestamps), place.value)
      ensures remote.failures == old(remote.failures) && mishaps == old(mishaps) && |old(timestamps)| > 0 ==>
                place == Some(0)
      ensures Undisturbed()
    {
      hide Lucky, InTimeOrder, AllBefore, AllFormed, CleanBut, Held, Report.Explains, SameView, Settled, StillDirty;
      SameViewStart(files, remote.cells);
      place := None;
      var size := |items|;
      var k := 0;
      while k < |timestamps| && |items| == size
        invariant 0 <= k <= |timestamps|
        invariant Valid() && faults == old(faults) && wipes == old(wipes)
        invariant SameView(old(files), old(remote.cells), files, remote.cells)
        invariant old(remote.failures) <= remote.failures && old(mishaps) <= mishaps && old(latest) <= latest
        invariant |items| == size <==> place.None?
        invariant place.None? ==> timestamps == old(timestamps)
        invariant place.Some? ==> place.value == k < |old(timestamps)| && timestamps == Without(old(timestamps), k)
        invariant remote.failures == old(remote.failures) && mishaps == old(mishaps) ==> k == 0
        invariant Undisturbed()
        decreases place.None?, |timestamps| - k
      {
        var row := timestamps[k].row;
        ghost var cells := remote.cells;
        TryToClean(row);
        SameViewThen(old(files), old(remote.cells), files, cells, files, remote.cells);
        if items[row].dirty {
          k := k + 1;
        } else {
          ghost var was := files;
          Evict(k);
          SameViewThen(old(files), old(remote.cells), was, remote.cells, files, remote.cells);
          place := Some(k);
        }
      }
    }

    /** Flushes if the row is dirty. */
    method TryToClean(row: nat)
      requires Valid() && row in items
      modifies remote, `items, `latest, `mishaps, `ticks
      ensures Valid() && items.Keys == old(items).Keys && |items| == |old(items)|
      ensures SameView(files, old(remote.cells), files, remote.cells)
      ensures old(remote.failures) <= remote.failures && old(mishaps) <= mishaps && old(latest) <= latest
      ensures remote.failures == old(remote.failures) && mishaps == old(mishaps) && |timestamps| > 0 ==>
                row != timestamps[0].row || !items[row].dirty
      ensures Undisturbed()
    {
      hide Lucky, Agree, InTimeOrder, AllBefore, AllFormed, CleanBut, Held, Report.Explains, SameView, Settled,
           StillDirty;
      SameViewStart(files, remote.cells);
      if items[row].dirty {
        var _, _ := Flush(false);
      }
      assert |items.Keys| == |items| && |old(items).Keys| == |old(items)|;
    }

    /** Drops the row's entry from the time index, if it has one. */
    method Unlist(row: nat)
      requires Agree(items, timestamps) && InTimeOrder(timestamps) && AllBefore(timestamps, latest)
      modifies `timestamps
      ensures Agree(items - {row}, timestamps) && InTimeOrder(timestamps) && AllBefore(timestamps, latest)
      ensures Rows(timestamps) == Removed(Rows(old(timestamps)), row)
    {
      if row !in items {
        assert items - {row} == items;
        RemovedAbsent(Rows(timestamps), row);
        return;
      }
      assert Listed(items, timestamps, row);
      var k := 0;
      while timestamps[k] != Stamp(items[row].timestamp, row)
        invariant 0 <= k < |timestamps|
        invariant Stamp(items[row].timestamp, row) in timestamps[k..]
        invariant forall i :: 0 <= i < k ==> timestamps[i].row != row
        decreases |timestamps| - k
      {
        k := k + 1;
      }
      AgreeWithout(items, timestamps, k);
      OrderWithout(timestamps, k);
      RemovedAt(Rows(timestamps), row, k);
      assert Rows(Without(timestamps, k)) == Rows(timestamps)[..k] + Rows(timestamps)[k + 1..];
      timestamps := Without(timestamps, k);
    }

    /** The place where a multimap puts a new entry: after all entries with the same or an earlier time. */
    method UpperBound(time: nat) returns (k: nat)
      requires InTimeOrder(timestamps)
      ensures k <= |timestamps|
      ensures forall i :: 0 <= i < k ==> timestamps[i].time <= time
      ensures forall i :: k <= i < |timestamps| ==> time < timestamps[i].time
    {
      k := |timestamps|;
      while k > 0 && timestamps[k - 1].time > time
        invariant 0 <= k <= |timestamps|
        invariant forall i :: k <= i < |timestamps| ==> time < timestamps[i].time
      {
        k := k - 1;
      }
    }

    /** Enters the row in both indexes under the time given. */
    method Enlist(row: nat, now: nat, dirty: bool)
      requires Agree(items - {row}, timestamps) && InTimeOrder(timestamps) && AllBefore(timestamps, latest)
               && now <= latest
      modifies `items, `timestamps
      ensures Agree(items, timestamps) && InTimeOrder(timestamps) && AllBefore(timestamps, latest)
      ensures items == old(items)[row := Item(now, dirty)]
      ensures now == latest ==> Rows(timestamps) == Rows(old(timestamps)) + [row]
    {
      var k := UpperBound(now);
      AgreeInserted(items - {row}, timestamps, k, Stamp(now, row), dirty);
      OrderInserted(timestamps, k, Stamp(now, row));
      assert (items - {row})[row := Item(now, dirty)] == items[row := Item(now, dirty)];
      assert k < |timestamps| ==> timestamps[k].time <= latest;
      items := items[row := Item(now, dirty)];
      timestamps := Inserted(timestamps, k, Stamp(now, row));
      assert now == latest ==> Rows(timestamps) == Rows(old(timestamps)) + [row];
    }

    /** Records a use of the row: the first half of UpdateTimestamp. */
    method Touch(row: nat, setDirty: bool)
      requires ValidBut({row})
      requires setDirty ==> row in files
      requires row in files ==> setDirty || IsDirty(items, row) || Clean(files[row], remote.cells, row)
      modifies `items, `timestamps, `latest, `mishaps, `ticks
      ensures Valid()
      ensures old(mishaps) <= mishaps
      ensures items.Keys == old(items).Keys + {row}
      ensures items[row].dirty <==> setDirty || IsDirty(old(items), row)
      ensures mishaps == old(mishaps) ==> Rows(timestamps) == Touched(Rows(old(timestamps)), row)
      ensures Undisturbed()
    {
      hide Lucky;
      var now := Clock();
      Unlist(row);
      Enlist(row, now, setDirty || (row in items && items[row].dirty));
    }

    /**
      Records a use of the row and, when too many rows are held, evicts one. The view does not change. If
      nothing fails, the rows are kept in order of last use and the one dropped is the one used longest ago.
     */
    method UpdateTimestamp(row: nat, setDirty: bool)
      requires ValidBut({row})
      requires setDirty ==> row in files
      requires row in files ==> setDirty || IsDirty(items, row) || Clean(files[row], remote.cells, row)
      modifies remote, this
      ensures Valid() && faults == old(faults) && wipes == old(wipes)
      ensures old(remote.failures) <= remote.failures && old(mishaps) <= mishaps
      ensures SameView(old(files), old(remote.cells), files, remote.cells)
      ensures remote.failures == old(remote.failures) && mishaps == old(mishaps) ==>
                Rows(timestamps) == Used(Rows(old(timestamps)), row, limit)
      ensures |old(items)| < limit ==>
                && files == old(files) && remote.cells == old(remote.cells) && items.Keys == old(items).Keys + {row}
                && (IsDirty(items, row) <==> setDirty || IsDirty(old(items), row))
      ensures Undisturbed()
    {
      hide Lucky;
      Touch(row, setDirty);
      AgreeSize(items, timestamps);
      RowsOf(timestamps);
      if |items| > limit {
        ghost var place := Pop();
      }
    }

    /**
      Reads a whole block, from the row file or else from the remote, which fills the file. A successful read
      returns what the cell shows if and only if the file could be opened or shows no other block than the remote.
      It changes that cell if and only if the file could not be opened, was filled and showed another block, and
      other cells of the row if and only if the file of a dirty row was emptied and showed other blocks there.
     */
    method ReadImpl(row: nat, column: nat)
      returns (ok: bool, block: Block, ghost gone: set<Cell>, ghost how: Access)
      requires Valid()
      modifies remote, this
      ensures Valid() && (ok ==> |block| == remote.blockSize) && Later()
      ensures !ok ==> remote.failures > old(remote.failures)
      ensures SameViewBut(old(files), old(remote.cells), files, remote.cells, gone)
      ensures ok && (row, column) !in gone ==> Some(block) == old(View(row, column))
      ensures InRow(gone, row)
      ensures Bounded(gone, row, column) && Fetched(row, column, how)
      ensures luck.Never(OpenToRead) && row in old(files) ==> !how.legible
      ensures ok ==> BlockOf(old(View(row, column)), remote.blockSize)
      ensures ReadIs(old(View(row, column)), old(Behind(row, column)), View(row, column),
                     if ok then Some(block) else None, how, wipes == old(wipes))
      ensures Replaced(old(files), old(remote.cells), files, remote.cells, row, column,
                       if how.stored then old(Behind(row, column)) else None, wipes > old(wipes))
      ensures remote.failures == old(remote.failures) && mishaps == old(mishaps) ==>
                Rows(timestamps) == Used(Rows(old(timestamps)), row, limit)
      ensures remote.luck.Always(RemoteRead) && (row, column) in old(remote.cells) ==> ok
      ensures Filled(ok, how)
      ensures Inside(row, column) ==> Undisturbed()
    {
      hide Lucky, Valid, ValidBut, Lookup, Clean, Replaced, SameView, SameViewBut, ViewOf, Used, Shadowed, ReadIs;
      BehindIsShown(row, column);
      ok, block, gone, how := Fetch(row, column);
      ghost var was := files;
      UpdateTimestamp(row, false);
      ReadThen(old(files), old(remote.cells), was, files, remote.cells, row, column, gone, how,
               if ok then Some(block) else None, wipes > old(wipes));
    }

    /** The remote block behind a cell. */
    ghost function Behind(row: nat, column: nat): Option<Block>
      reads this, remote
    {
      ViewOf(map[], remote.cells, row, column)
    }

    lemma BehindIsShown(row: nat, column: nat)
      requires Valid()
      ensures Behind(row, column).Some? ==> BlockOf(View(row, column), remote.blockSize)
    {
      if (row, column) in remote.cells {
        GridIsShown(files, remote.cells, row, column, remote.blockSize);
      }
    }

    /** A file that is not there is legible; one that is not is counted if its row is dirty. */
    twostate predicate Opened(row: nat, how: Access)
      reads this
    {
      && faults == old(faults) + (if how.legible || !IsDirty(old(items), row) then 0 else 1)
      && (!how.legible ==> row in old(files))
    }

    /** A file that could not be opened was filled then, if records can be stored, or else the failure is counted. */
    twostate predicate Filled(ok: bool, how: Access)
      reads this
    {
      && (Storing() ==> wipes == old(wipes) && (ok && !how.legible ==> how.stored))
      && (ok && !how.legible && !how.stored ==> mishaps > old(mishaps))
    }

    twostate predicate Fetched(row: nat, column: nat, how: Access)
      reads this, remote
    {
      && Opened(row, how)
      && (how.stored ==> old(Behind(row, column)).Some?)
      && (how.legible && how.stored ==> old(View(row, column)) == old(Behind(row, column)))
    }

    /** Counters only grow. */
    twostate predicate Later()
      reads this, remote
    {
      && old(remote.failures) <= remote.failures && old(mishaps) <= mishaps
      && old(faults) <= faults && old(wipes) <= wipes
    }

    /** Nothing is lost unless a dirty row's file failed, and only the one cell unless it was emptied. */
    twostate predicate Bounded(gone: set<Cell>, row: nat, column: nat)
      reads this
    {
      && (wipes == old(wipes) ==> gone <= {(row, column)})
      && (wipes == old(wipes) && faults == old(faults) ==> gone == {})
    }

    /** The read itself, before the use of the row is recorded. */
    method Fetch(row: nat, column: nat) returns (ok: bool, block: Block, ghost gone: set<Cell>, ghost how: Access)
      requires Valid()
      modifies remote`failures, remote`ticks, `files, `faults, `wipes, `mishaps, `ticks
      ensures ValidBut({row}) && (ok ==> |block| == remote.blockSize) && Later()
      ensures row in files ==> IsDirty(items, row) || Clean(files[row], remote.cells, row)
      ensures !ok ==> remote.failures > old(remote.failures)
      ensures SameViewBut(old(files), remote.cells, files, remote.cells, gone)
      ensures ok && (row, column) !in gone ==> Some(block) == old(View(row, column))
      ensures InRow(gone, row) && Bounded(gone, row, column) && Fetched(row, column, how)
      ensures luck.Never(OpenToRead) && row in old(files) ==> !how.legible
      ensures ok ==> Some(block) == if how.legible then old(View(row, column)) else Behind(row, column)
      ensures Replaced(old(files), remote.cells, files, remote.cells, row, column,
                       if how.stored then Behind(row, column) else None, wipes > old(wipes))
      ensures remote.luck.Always(RemoteRead) && (row, column) in remote.cells ==> ok
      ensures Filled(ok, how)
      ensures Inside(row, column) ==> Undisturbed()
    {
      LuckyReads();
      hide Lucky, Agree, InTimeOrder, AllBefore, Store, SameViewBut, Held, Replaced;
      NothingGone(files, remote.cells, row);
      NothingReplaced(files, remote.cells, row, column);
      ghost var i := LookupFinds(FileOf(files, row), column);
      ghost var legible, stored := true, false;
      gone := {};
      ok, block, legible := ReadFileBlock(row, column);
      if !ok {
        ok, block := remote.ReadBlock(row, column);
        if ok {
          gone, stored := Refill(row, column, block, legible);
        }
      }
      how := Access(legible, stored);
    }

    lemma LuckyReads()
      ensures Lucky() ==> remote.luck.Always(RemoteRead)
    {
    }

    /** Copies a block just read from the remote into the row file; a failure to do so does not matter. */
    method Refill(row: nat, column: nat, block: Block, ghost legible: bool)
      returns (ghost gone: set<Cell>, ghost stored: bool)
      requires Valid() && (row, column) in remote.cells && block == remote.cells[(row, column)]
      requires legible ==> Lookup(FileOf(files, row), column).None?
      modifies `files, `mishaps, `wipes, `ticks
      ensures ValidBut({row}) && old(mishaps) <= mishaps && old(wipes) <= wipes
      ensures row in files ==> IsDirty(items, row) || Clean(files[row], remote.cells, row)
      ensures SameViewBut(old(files), remote.cells, files, remote.cells, gone)
      ensures (row, column) !in gone ==> Some(block) == old(View(row, column))
      ensures InRow(gone, row)
      ensures Replaced(old(files), remote.cells, files, remote.cells, row, column,
                       if stored then Some(block) else None, wipes > old(wipes))
      ensures wipes == old(wipes) ==> gone <= {(row, column)}
      ensures wipes == old(wipes) && (legible || !IsDirty(items, row)) ==> gone == {}
      ensures Storing() ==> stored && wipes == old(wipes)
      ensures !stored ==> mishaps > old(mishaps)
      ensures Undisturbed()
    {
      hide Lucky, Agree, InTimeOrder, AllBefore, Store, SameViewBut, AllFormed, Held, Replaced;
      ghost var i := LookupFinds(FileOf(files, row), column);
      var ok;
      ok, gone := KeepBlock(row, column, block);
      stored := ok;
      if !legible && IsDirty(items, row) {
        gone := gone + {(row, column)};
      } else {
        CellStays(old(files), remote.cells, files, gone, row, column);
      }
    }

    /**
      Writes part of a block, or all of it. What the cells show then is told by `Written` and `TargetIs`, and how the
      block was read, if it was, by `Opened` and `Filled`.
     */
    method WriteImpl(row: nat, column: nat, data: Block, offset: nat)
      returns (ok: bool, ghost gone: set<Cell>, ghost how: Access, ghost mid: Snapshot)
      requires Valid() && offset + |data| <= remote.blockSize
      modifies remote, this
      ensures Valid() && Later() && InRow(gone, row)
      ensures !ok ==> remote.failures + mishaps > old(remote.failures) + old(mishaps)
      ensures SameViewBut(old(files), old(remote.cells), files, remote.cells, gone + {(row, column)})
      ensures TargetIs(old(View(row, column)), old(Behind(row, column)), View(row, column), data, offset,
                       remote.blockSize, ok, how, (row, column) in gone, wipes == old(wipes))
      ensures wipes == old(wipes) ==> gone <= if |data| == remote.blockSize then {} else {(row, column)}
      ensures wipes == old(wipes) && faults == old(faults) ==> gone == {}
      ensures ok && |data| == remote.blockSize ==> (row, column) !in gone
      ensures Written(row, column, data, offset, ok, how, mid)
      ensures remote.failures == old(remote.failures) && mishaps == old(mishaps) ==>
                var order := Rows(old(timestamps));
                Rows(timestamps) ==
                  Used(if |data| == remote.blockSize then order else Used(order, row, limit), row, limit)
      ensures Storing() && |data| == remote.blockSize && |old(items)| < limit ==>
                ok && row in files && files[row] != [] && IsDirty(items, row)
                && remote.cells == old(remote.cells) && items.Keys == old(items).Keys + {row}
      ensures Opened(row, how)
      ensures Filled(ok, how)
      ensures Inside(row, column) ==> Undisturbed()
    {
      hide Lucky, Valid, Replaced, Overlay, SameViewBut, Lookup, ViewOf, Shadowed, SameOutside, SameView, Used,
           NewBlock, BlockOf, TargetIs;
      var block;
      ok, block, gone, how := Prepare(row, column, data, offset);
      mid := Snapshot(files, remote.cells, wipes);
      if !ok {
        NothingReplaced(files, remote.cells, row, column);
        TargetTells(old(View(row, column)), old(Behind(row, column)), View(row, column), data, offset, remote.blockSize,
                    ok, how, (row, column) in gone, wipes == old(wipes));
        SameViewMore(old(files), old(remote.cells), files, remote.cells, gone, {(row, column)});
        return;
      }
      ghost var more;
      ok, more := StoreBlock(row, column, block);
      BothViews(old(files), old(remote.cells), mid.files, mid.cells, files, remote.cells, gone, more, (row, column));
      gone := gone + more;
      TargetTells(old(View(row, column)), old(Behind(row, column)), View(row, column), data, offset, remote.blockSize,
                  ok, how, (row, column) in gone, wipes == old(wipes));
    }

    /** The block to store: the data, or if it is for part of a block, the block read with the data laid over it. */
    method Prepare(row: nat, column: nat, data: Block, offset: nat)
      returns (ok: bool, block: Block, ghost gone: set<Cell>, ghost how: Access)
      requires Valid() && offset + |data| <= remote.blockSize
      modifies remote, this
      ensures Valid() && Later() && InRow(gone, row)
      ensures !ok ==> remote.failures > old(remote.failures)
      ensures SameViewBut(old(files), old(remote.cells), files, remote.cells, gone)
      ensures |data| == remote.blockSize ==>
                && ok && gone == {} && how == Access(true, false) && files == old(files)
                && remote.cells == old(remote.cells) && items == old(items)
                && wipes == old(wipes) && timestamps == old(timestamps)
      ensures Bounded(gone, row, column)
      ensures ok ==>
                && Some(block) == NewBlock(Base(row, column, how), data, offset, remote.blockSize)
                && |block| == remote.blockSize
      ensures ok && |data| != remote.blockSize ==>
                && BlockOf(Base(row, column, how), remote.blockSize)
                && BlockOf(old(View(row, column)), remote.blockSize)
                && ((row, column) !in gone ==> Base(row, column, how) == old(View(row, column)))
      ensures how.legible && how.stored ==> old(View(row, column)) == old(Behind(row, column))
      ensures Replaced(old(files), old(remote.cells), files, remote.cells, row, column,
                       if how.stored then old(Behind(row, column)) else None, wipes > old(wipes))
      ensures wipes == old(wipes) ==>
                View(row, column) == if how.stored then old(Behind(row, column)) else old(View(row, column))
      ensures (row, column) !in gone ==> View(row, column) == old(View(row, column))
      ensures remote.failures == old(remote.failures) && mishaps == old(mishaps) && |data| != remote.blockSize ==>
                Rows(timestamps) == Used(Rows(old(timestamps)), row, limit)
      ensures Opened(row, how)
      ensures Filled(ok, how)
      ensures Inside(row, column) ==> Undisturbed()
    {
      hide Lucky, Valid, Replaced, Overlay, InRow, Lookup, ViewOf, Shadowed, Used;
      NothingReplaced(files, remote.cells, row, column);
      NothingGone(files, remote.cells, row);
      ok, block, gone, how := true, data, {}, Access(true, false);
      if |data| != remote.blockSize || offset != 0 {
        ok, block, gone, how := ReadImpl(row, column);
        if ok {
          block := Overlay(block, offset, data);
        }
      }
    }

    /** Stores a whole block in the row file and marks the row dirty. */
    method StoreBlock(row: nat, column: nat, block: Block) returns (ok: bool, ghost gone: set<Cell>)
      requires Valid() && |block| == remote.blockSize
      modifies remote, this
      ensures Valid() && faults == old(faults) && Later()
      ensures !ok ==> mishaps > old(mishaps)
      ensures SameViewBut(old(files), old(remote.cells), files, remote.cells, gone + {(row, column)})
      ensures ok ==> (row, column) !in gone && View(row, column) == Some(block)
      ensures !ok && (row, column) !in gone ==> View(row, column) == old(View(row, column))
      ensures InRow(gone, row)
      ensures Replaced(old(files), old(remote.cells), files, remote.cells, row, column,
                       if ok then Some(block) else None, wipes > old(wipes))
      ensures gone == if wipes == old(wipes) then {}
                      else Shadowed(row, FileOf(old(files), row)) - if ok then {(row, column)} else {}
      ensures remote.failures == old(remote.failures) && mishaps == old(mishaps) ==>
                Rows(timestamps) == Used(Rows(old(timestamps)), row, limit)
      ensures Storing() && |old(items)| < limit ==>
                ok && row in files && files[row] != [] && IsDirty(items, row)
                && remote.cells == old(remote.cells) && items.Keys == old(items).Keys + {row}
      ensures Storing() ==> wipes == old(wipes)
      ensures Inside(row, column) ==> Undisturbed()
    {
      hide Lucky, AllFormed, Agree, InTimeOrder, AllBefore, Lookup, Clean, SameView, SameViewBut, Replaced, Shadowed;
      ok, gone := KeepBlock(row, column, block);
      if ok {
        ghost var was := files;
        UpdateTimestamp(row, true);
        ViewThen(old(files), old(remote.cells), was, old(remote.cells), files, remote.cells, gone + {(row, column)},
                 row, column);
        ReplacedThen(old(files), old(remote.cells), was, old(remote.cells), files, remote.cells, row, column,
                     Some(block), wipes > old(wipes));
      }
    }

    /** What a write works on: what the cell showed, or the remote block if the file could not be opened. */
    twostate function Base(row: nat, column: nat, how: Access): Option<Block>
      reads this, remote
    {
      if how.legible then old(View(row, column)) else old(Behind(row, column))
    }

    /**
      A write changes the cells first as the read of the block does, if it is for part of one, and then as a store of
      the new block does, if it gets that far.
     */
    twostate predicate Written(row: nat, column: nat, data: Block, offset: nat, ok: bool, how: Access, mid: Snapshot)
      reads this, remote
    {
      var block := NewBlock(Base(row, column, how), data, offset, remote.blockSize);
      && old(wipes) <= mid.wipes <= wipes && (ok ==> block.Some?)
      && (|data| == remote.blockSize ==>
            mid == Snapshot(old(files), old(remote.cells), old(wipes)) && how == Access(true, false))
      && Replaced(old(files), old(remote.cells), mid.files, mid.cells, row, column,
                  if how.stored then old(Behind(row, column)) else None, mid.wipes > old(wipes))
      && Replaced(mid.files, mid.cells, files, remote.cells, row, column, if ok then block else None, wipes > mid.wipes)
      && (how.legible && how.stored ==> old(View(row, column)) == old(Behind(row, column)))
    }

    /** Cache::Read: a request for part of a block. */
    method Read(row: nat, column: nat, size: nat, offset: nat)
      returns (ok: bool, data: Block, ghost gone: set<Cell>, ghost how: Access)
      requires Valid()
      modifies remote, this
      ensures Valid() && Later() && InRow(gone, row)
      ensures column >= remote.columns || size + offset > remote.blockSize ==> !ok && gone == {}
      ensures !ok ==>
                column >= remote.columns || size + offset > remote.blockSize
                || remote.failures > old(remote.failures)
      ensures ok ==> |data| == size
      ensures remote.failures == old(remote.failures) && mishaps == old(mishaps) ==>
                Rows(timestamps) ==
                  if column >= remote.columns || size + offset > remote.blockSize then Rows(old(timestamps))
                  else Used(Rows(old(timestamps)), row, limit)
      ensures SameViewBut(old(files), old(remote.cells), files, remote.cells, gone) && Bounded(gone, row, column)
      ensures ok && (row, column) !in gone ==>
                && old(View(row, column)).Some? && |old(View(row, column)).value| == remote.blockSize
                && offset + size <= remote.blockSize && data == old(View(row, column)).value[offset..offset + size]
      ensures Fetched(row, column, how)
      ensures ok ==>
                && BlockOf(Base(row, column, how), remote.blockSize)
                && BlockOf(old(View(row, column)), remote.blockSize)
                && data == Base(row, column, how).value[offset..offset + size]
                && (data == old(View(row, column)).value[offset..offset + size] <==>
                    how.legible || SameInside(old(View(row, column)), old(Behind(row, column)), offset, size))
      ensures Replaced(old(files), old(remote.cells), files, remote.cells, row, column,
                       if how.stored then old(Behind(row, column)) else None, wipes > old(wipes))
      ensures remote.luck.Always(RemoteRead) && (row, column) in old(remote.cells) && column < remote.columns
              && size + offset <= remote.blockSize ==>
                ok
      ensures luck.Never(OpenToRead) && row in old(files) && ok ==> !how.legible
      ensures Filled(ok, how)
      ensures row < remote.rows ==> Undisturbed()
    {
      hide Lucky, AllFormed, Agree, InTimeOrder, AllBefore, CleanBut, Held, Replaced, SameViewBut, Lookup, ViewOf;
      ok, data, gone, how := false, [], {}, Access(true, false);
      NothingReplaced(files, remote.cells, row, column);
      NothingGone(files, remote.cells, row);
      if column >= remote.columns || size + offset > remote.blockSize {
        return;
      }
      var block;
      ok, block, gone, how := ReadImpl(row, column);
      if ok {
        data := block[offset..offset + size];
      }
    }

    /** Cache::Write: a request to overwrite part of a block. */
    method Write(row: nat, column: nat, data: Block, offset: nat)
      returns (ok: bool, ghost gone: set<Cell>, ghost how: Access, ghost mid: Snapshot)
      requires Valid()
      modifies remote, this
      ensures Valid() && Later() && InRow(gone, row)
      ensures column >= remote.columns || |data| + offset > remote.blockSize ==> !ok && gone == {}
      ensures !ok ==> column >= remote.columns || |data| + offset > remote.blockSize
                      || remote.failures + mishaps > old(remote.failures) + old(mishaps)
      ensures SameViewBut(old(files), old(remote.cells), files, remote.cells, gone + {(row, column)})
      ensures TargetIs(old(View(row, column)), old(Behind(row, column)), View(row, column), data, offset,
                       remote.blockSize, ok, how, (row, column) in gone, wipes == old(wipes))
      ensures wipes == old(wipes) ==> gone <= if |data| == remote.blockSize then {} else {(row, column)}
      ensures wipes == old(wipes) && faults == old(faults) ==> gone == {}
      ensures ok && |data| == remote.blockSize ==> (row, column) !in gone
      ensures Written(row, column, data, offset, ok, how, mid)
      ensures remote.failures == old(remote.failures) && mishaps == old(mishaps) ==>
                var order := Rows(old(timestamps));
                Rows(timestamps) == if column >= remote.columns || |data| + offset > remote.blockSize then order
                                    else if |data| == remote.blockSize then Used(order, row, limit)
                                    else Used(Used(order, row, limit), row, limit)
      ensures Storing() && |data| == remote.blockSize && offset == 0 && column < remote.columns
              && |old(items)| < limit ==>
                ok && row in files && files[row] != [] && IsDirty(items, row)
                && remote.cells == old(remote.cells) && items.Keys == old(items).Keys + {row}
      ensures Opened(row, how)
      ensures Filled(ok, how)
      ensures row < remote.rows ==> Undisturbed()
    {
      hide Lucky;
      ok, gone, how, mid := false, {}, Access(true, false), Snapshot(files, remote.cells, wipes);
      NothingReplaced(files, remote.cells, row, column);
      if column < remote.columns && |data| + offset <= remote.blockSize {
        ok, gone, how, mid := WriteImpl(row, column, data, offset);
      }
    }
  }

  /** The order of last use once the longest unused row has been dropped, if there is one too many. */
  function Recent(order: seq<nat>, limit: nat): seq<nat> {
    if |order| > limit then order[1..] else order
  }

  /** The order of last use after one more use of the row. */
  function Used(order: seq<nat>, row: nat, limit: nat): seq<nat> {
    Recent(Touched(order, row), limit)
  }

  lemma CleanedAgrees(before: map<nat, Item>, after: map<nat, Item>, ts: seq<Stamp>)
    requires Agree(before, ts) && OnlyCleaned(before, after)
    ensures Agree(after, ts)
  {
    forall row | row in after ensures Listed(after, ts, row) {
      assert Listed(before, ts, row);
    }
  }

  lemma AllStampsClean(items: map<nat, Item>, ts: seq<Stamp>)
    requires Agree(items, ts) && forall i :: 0 <= i < |ts| ==> !IsDirty(items, ts[i].row)
    ensures forall r :: r in items ==> !items[r].dirty
  {
    forall r | r in items ensures !items[r].dirty {
      assert Listed(items, ts, r);
      var i :| 0 <= i < |ts| && ts[i] == Stamp(items[r].timestamp, r);
    }
  }

  /** The cells lost when a dirty row's file was emptied before a block was put in it, or was to be. */
  ghost function Lost(wiped: bool, ok: bool, row: nat, column: nat, f: seq<Record>): set<Cell> {
    if !wiped then {} else if ok then Shadowed(row, f) - {(row, column)} else Shadowed(row, f)
  }

  /** The files after an attempt to put a block in one of them. */
  ghost predicate Kept(files: map<nat, seq<Record>>, row: nat, column: nat, block: Block,
                       files': map<nat, seq<Record>>, ok: bool, wiped: bool) {
    if ok then files' == files[row := Store(if wiped then [] else FileOf(files, row), column, block)]
    else files' == if wiped || (row !in files && row in files') then files[row := []] else files
  }

  lemma KeepViews(files: map<nat, seq<Record>>, items: map<nat, Item>, cells: Grid, row: nat, column: nat, block: Block,
                  files': map<nat, seq<Record>>, ok: bool, wiped: bool)
    requires Kept(files, row, column, block, files', ok, wiped) && CleanBut(files, items, cells, {})
    ensures var gone := Lost(wiped && IsDirty(items, row), ok, row, column, FileOf(files, row));
            && SameViewBut(files, cells, files', cells, gone + {(row, column)})
            && Replaced(files, cells, files', cells, row, column, if ok then Some(block) else None,
                        wiped && IsDirty(items, row))
            && InRow(gone, row)
            && (ok ==> (row, column) !in gone && ViewOf(files', cells, row, column) == Some(block))
            && (!ok && (row, column) !in gone ==>
                  ViewOf(files', cells, row, column) == ViewOf(files, cells, row, column))
  {
    hide Lookup, Store;
    StoreChangesOneCell(files, cells, row, column, block);
    WipeFallsBack(files, cells, row, column, block);
  }

  lemma KeepForms(files: map<nat, seq<Record>>, items: map<nat, Item>, cells: Grid, row: nat, column: nat, block: Block,
                  files': map<nat, seq<Record>>, ok: bool, wiped: bool, blockSize: nat)
    requires Kept(files, row, column, block, files', ok, wiped)
    requires AllFormed(files, blockSize) && |block| == blockSize && CleanBut(files, items, cells, {})
             && Held(files, items)
    ensures AllFormed(files', blockSize) && CleanBut(files', items, cells, {row}) && Held(files', items)
    ensures if ok then row in files' && files'[row] != [] else CleanBut(files', items, cells, {})
    ensures (row, column) in cells && block == cells[(row, column)] && Clean(FileOf(files, row), cells, row) ==>
              Clean(FileOf(files', row), cells, row)
  {
    var f := FileOf(files, row);
    StoreWellFormed(f, column, block, blockSize);
    StoreWellFormed([], column, block, blockSize);
    LookupAfterStore(f, column, block, column);
    hide Lookup;
  }

  /** Cells of rows without a file do not matter to the others. */
  lemma SpoilKeeps(files: map<nat, seq<Record>>, items: map<nat, Item>, before: Grid, after: Grid)
    requires CleanBut(files, items, before, {}) && after.Keys == before.Keys
    requires forall k :: k in after && k.0 in files ==> after[k] == before[k]
    ensures CleanBut(files, items, after, {})
  {
    forall r | r in files && !IsDirty(items, r) ensures Clean(files[r], after, r) {
      assert Clean(files[r], before, r);
    }
  }

  lemma FewerHomed(files: map<nat, seq<Record>>, cells: Grid, row: nat)
    ensures AllHomed(files, cells) ==> AllHomed(files - {row}, cells)
  {
  }

  lemma MoreHomed(files: map<nat, seq<Record>>, cells: Grid, row: nat, f: seq<Record>)
    requires Homed(f, cells, row)
    ensures AllHomed(files, cells) ==> AllHomed(files[row := f], cells)
  {
  }

  lemma HomedMore(files: map<nat, seq<Record>>, cells: Grid, row: nat, column: nat, block: Block)
    requires row in files
    ensures (row, column) in cells && AllHomed(files, cells) ==>
              AllHomed(files[row := Store(files[row], column, block)], cells)
  {
    if (row, column) in cells && AllHomed(files, cells) {
      StoreHomed(files[row], cells, row, column, block);
      MoreHomed(files, cells, row, Store(files[row], column, block));
    }
  }

  lemma {:induction false} StoreHomed(f: seq<Record>, cells: Grid, row: nat, column: nat, block: Block)
    requires Homed(f, cells, row) && (row, column) in cells
    ensures Homed(Store(f, column, block), cells, row)
  {
    if f != [] && f[0].column != column {
      StoreHomed(f[1..], cells, row, column, block);
    }
  }

  lemma EvictForms(files: map<nat, seq<Record>>, items: map<nat, Item>, cells: Grid, row: nat, blockSize: nat)
    requires AllFormed(files, blockSize) && CleanBut(files, items, cells, {}) && Held(files, items)
             && !IsDirty(items, row)
    ensures AllFormed(files - {row}, blockSize) && CleanBut(files - {row}, items - {row}, cells, {})
            && Held(files - {row}, items - {row})
    ensures CleanBut(files, items - {row}, cells, {}) && Held(files, items - {row})
  {
  }

  /** Dirty rows with records in their files are dirty still. */
  ghost predicate StillDirty(files: map<nat, seq<Record>>, before: map<nat, Item>, after: map<nat, Item>) {
    forall r :: IsDirty(before, r) && r in files && files[r] != [] ==> IsDirty(after, r)
  }

  lemma ReportStart(items: map<nat, Item>, ts: seq<Stamp>)
    ensures Report(0, false, {}, {}).Explains(items, items, ts)
  {
  }

  lemma InterruptedExplains(before: map<nat, Item>, after: map<nat, Item>, ts: seq<Stamp>, report: Report)
    requires report.interrupted && report.(interrupted := false).Explains(before, after, ts)
    ensures report.Explains(before, after, ts)
  {
  }

  lemma FlushEnd(before: map<nat, Item>, after: map<nat, Item>, ts: seq<Stamp>, report: Report)
    requires report.Explains(before, after, ts) && Agree(after, ts)
    ensures OnlyCleaned(before, after)
    ensures report.failed == {} && report.unopened == {} && 0 < report.stop ==> !IsDirty(after, ts[0].row)
    ensures report.failed == {} && report.unopened == {} && report.stop == |ts| ==> Settled(after)
  {
    CompleteIsSettled(before, after, ts, report);
  }

  lemma SettledViewIsRemote(files: map<nat, seq<Record>>, items: map<nat, Item>, cells: Grid)
    requires CleanBut(files, items, cells, {}) && Settled(items)
    ensures forall r: nat, c: nat :: ViewOf(files, cells, r, c) == ViewOf(map[], cells, r, c)
  {
    forall r: nat, c: nat ensures ViewOf(files, cells, r, c) == ViewOf(map[], cells, r, c) {
      CleanViewIsRemote(files, cells, r, c);
      CleanViewIsRemote(map[], cells, r, c);
    }
  }

  lemma ExplainsMore(start: map<nat, Item>, before: map<nat, Item>, after: map<nat, Item>, ts: seq<Stamp>,
                     report: Report, legible: bool, success: bool)
    requires report.Explains(start, before, ts) && report.stop < |ts| && IsDirty(before, ts[report.stop].row)
    requires forall i, j :: 0 <= i < j < |ts| ==> ts[i].row != ts[j].row
    requires var row := ts[report.stop].row;
             after == if legible && success then before[row := before[row].(dirty := false)] else before
    ensures report.Next(ts[report.stop].row, legible, success).Explains(start, after, ts)
  {
  }

  lemma ExplainsOver(start: map<nat, Item>, items: map<nat, Item>, ts: seq<Stamp>, report: Report)
    requires report.Explains(start, items, ts) && report.stop < |ts| && !IsDirty(items, ts[report.stop].row)
    requires forall i, j :: 0 <= i < j < |ts| ==> ts[i].row != ts[j].row
    ensures report.(stop := report.stop + 1).Explains(start, items, ts)
    ensures !IsDirty(start, ts[report.stop].row)
  {
  }

  /** No row is left dirty if and only if the report is complete. */
  lemma CompleteIsSettled(before: map<nat, Item>, after: map<nat, Item>, ts: seq<Stamp>, report: Report)
    requires report.Explains(before, after, ts) && Agree(after, ts)
    ensures Settled(after) <==> report.Complete(before, ts)
  {
    if report.Complete(before, ts) {
      AllStampsClean(after, ts);
    } else if Settled(after) {
      assert forall i :: 0 <= i < |ts| ==> !IsDirty(after, ts[i].row);
    }
  }

  /**
    No row is left dirty when a flush says so, if and only if it was interrupted before the last row, or with every
    row so far opened and written, or was not interrupted and a write failed, or every row was opened and none left
    unreached was dirty.
   */
  lemma FlushTells(before: map<nat, Item>, after: map<nat, Item>, ts: seq<Stamp>, report: Report)
    requires report.Explains(before, after, ts) && Agree(after, ts)
    ensures (report.Says(|ts|) ==> Settled(after)) <==>
            if report.interrupted then report.stop < |ts| || (report.failed == {} && report.unopened == {})
            else report.failed != {}
                 || (report.unopened == {} && forall i :: report.stop <= i < |ts| ==> !IsDirty(before, ts[i].row))
  {
    CompleteIsSettled(before, after, ts, report);
  }
}
