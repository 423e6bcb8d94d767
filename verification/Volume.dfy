/**
  The striped, encrypted, erasure-coded volume. A byte offset names a block, the blocks are laid
  out over the rows dataCount at a time, and codeCount further columns hold parity. Cells are
  reached through the row cache when it is enabled, and directly otherwise.

  The cipher and the erasure code are parameters, and so is which cells verify.
 */
module Volume {
  import opened Options
  import opened RowFile
  import opened RowCache
  import opened Luck
  import opened Layout
  import opened Codes
  import opened Grids
  import opened Slices

  class Volume {
    const cache: Cache
    const cached: bool
    const dataCount: nat
    const codeCount: nat
    const cipher: Cipher
    const codec: Codec
    const healthy: (nat, nat) -> bool    // VerifyBlock of each cell
    ghost var grid: Grid                 // what each cell shows, through the cache

    /** What the parameters have to satisfy; none of it ever changes. */
    ghost predicate Fixed() {
      && dataCount > 0 && cache.remote.blockSize > 0
      && cache.remote.columns == dataCount + codeCount
      && cipher.Lawful(cache.remote.blockSize)
      && codec.Lawful(dataCount, codeCount, cache.remote.blockSize)
    }

    ghost predicate Ready()
      reads this, cache, cache.remote
    {
      && cache.Valid()
      && (!cached ==> cache.files == map[])
      && Shown(cache.files, cache.remote.cells, grid)
      && InGrid(grid)
    }

    ghost predicate InGrid(g: Grid) {
      && (forall k: Cell :: k in g <==> k.0 < cache.remote.rows && k.1 < cache.remote.columns)
      && (forall k :: k in g ==> |g[k]| == cache.remote.blockSize)
    }

    function BlockSize(): nat { cache.remote.blockSize }

    function Zeros(): Block { seq(BlockSize(), _ => 0) }

    /** Operations that failed, locally or remotely, and clock readings that went back. */
    ghost function Trouble(): nat
      reads this, cache, cache.remote
    {
      cache.faults + cache.wipes + cache.remote.failures + cache.mishaps
    }

    twostate predicate Later()
      reads this, cache, cache.remote
    {
      cache.Later() && cache.Undisturbed()
    }

    /** Unless a dirty row's file was emptied, no more cells were lost than dirty rows' files failed to open. */
    ghost predicate Spared(gone: set<Cell>, faults: nat, wipes: nat)
      reads cache
    {
      cache.wipes == wipes ==> |gone| <= cache.faults - faults
    }

    constructor (cache: Cache, cached: bool, dataCount: nat, codeCount: nat, cipher: Cipher, codec: Codec,
                 healthy: (nat, nat) -> bool)
      requires cache.Valid() && (cached || cache.files == map[]) && dataCount > 0 && cache.remote.blockSize > 0
      requires cache.remote.columns == dataCount + codeCount
      requires cipher.Lawful(cache.remote.blockSize) && codec.Lawful(dataCount, codeCount, cache.remote.blockSize)
      ensures Fixed() && Ready() && this.cache == cache && this.cached == cached
      ensures this.dataCount == dataCount && this.codeCount == codeCount && this.healthy == healthy
      ensures this.cipher == cipher && this.codec == codec
      ensures cache.files == map[] ==> grid == cache.remote.cells
    {
      this.cache, this.cached, this.dataCount, this.codeCount := cache, cached, dataCount, codeCount;
      this.cipher, this.codec, this.healthy := cipher, codec, healthy;
      grid := Picture(cache.files, cache.remote.cells, cache.remote.blockSize);
      new;
      forall k | k in grid ensures |grid[k]| == cache.remote.blockSize {
        assert ShownAt(cache.files, cache.remote.cells, grid, k);
        GridIsShown(cache.files, cache.remote.cells, k.0, k.1, cache.remote.blockSize);
      }
      if cache.files == map[] {
        Bare(cache.remote.cells, grid);
      }
    }

    /** Takes note of what the cells show after an access. */
    ghost method Look()
      requires cache.Valid() && (!cached ==> cache.files == map[])
      modifies `grid
      ensures Ready()
    {
      grid := Picture(cache.files, cache.remote.cells, cache.remote.blockSize);
      forall k | k in grid ensures |grid[k]| == cache.remote.blockSize {
        assert ShownAt(cache.files, cache.remote.cells, grid, k);
        GridIsShown(cache.files, cache.remote.cells, k.0, k.1, cache.remote.blockSize);
      }
    }

    /** __ReadCached. A successful read returns what the cell shows, and no cell changes, save for lost ones. */
    method ReadCell(row: nat, column: nat) returns (ok: bool, block: Block, ghost gone: set<Cell>)
      requires Ready() && (row, column) in grid
      modifies this, cache, cache.remote
      ensures Ready() && Later() && (ok ==> |block| == BlockSize())
      ensures Only(old(grid), grid, gone) && InRow(gone, row)
      ensures ok && (row, column) !in gone ==> block == old(grid)[(row, column)]
      ensures !ok ==> Trouble() > old(Trouble())
      ensures Spared(gone, old(cache.faults), old(cache.wipes))
      ensures cache.wipes == old(cache.wipes) ==> gone <= {(row, column)}
      ensures !cached ==> gone == {} && (cache.remote.luck.Never(RemoteRead) ==> !ok)
    {
      hide Cache.Lucky, AllFormed, CleanBut, Held, Agree, InTimeOrder, AllBefore, SameViewBut, ViewOf, Shown, Only,
           InRow, InGrid;
      CellShown(cache.files, cache.remote.cells, grid, row, column);
      ok, block, gone := FetchBlock(row, column);
      Look();
      ShownAfter(old(cache.files), old(cache.remote.cells), old(grid), cache.files, cache.remote.cells, grid, gone);
    }

    method FetchBlock(row: nat, column: nat) returns (ok: bool, block: Block, ghost gone: set<Cell>)
      requires Ready() && (row, column) in grid
      modifies cache, cache.remote
      ensures cache.Valid() && (!cached ==> cache.files == map[]) && Later() && InRow(gone, row)
      ensures SameViewBut(old(cache.files), old(cache.remote.cells), cache.files, cache.remote.cells, gone)
      ensures ok ==> |block| == BlockSize() && ((row, column) !in gone ==> old(cache.View(row, column)) == Some(block))
      ensures !ok ==> Trouble() > old(Trouble())
      ensures Spared(gone, old(cache.faults), old(cache.wipes))
      ensures cache.wipes == old(cache.wipes) ==> gone <= {(row, column)}
      ensures !cached ==> gone == {} && (cache.remote.luck.Never(RemoteRead) ==> !ok)
    {
      cache.LuckyReads();
      hide Cache.Lucky, AllFormed, CleanBut, Held, Agree, InTimeOrder, AllBefore, SameViewBut, ViewOf, Shown, InRow;
      HasCell(grid, row, column);
      NoneInRow(row);
      if cached {
        ok, block, gone := FetchCached(row, column);
      } else {
        gone := {};
        ok, block := cache.remote.ReadBlock(row, column);
        Direct(cache.files, old(cache.remote.cells), cache.remote.cells, row, column);
      }
    }

    method FetchCached(row: nat, column: nat) returns (ok: bool, block: Block, ghost gone: set<Cell>)
      requires cache.Valid() && row < cache.remote.rows && column < cache.remote.columns
      modifies cache, cache.remote
      ensures cache.Valid() && Later() && InRow(gone, row)
      ensures SameViewBut(old(cache.files), old(cache.remote.cells), cache.files, cache.remote.cells, gone)
      ensures ok ==> |block| == BlockSize() && ((row, column) !in gone ==> old(cache.View(row, column)) == Some(block))
      ensures !ok ==> Trouble() > old(Trouble())
      ensures cache.wipes == old(cache.wipes) ==> gone <= {(row, column)} && |gone| <= cache.faults - old(cache.faults)
    {
      hide Cache.Valid, Cache.Lucky, SameViewBut, ViewOf, InRow, Replaced, SameInside, Used, Rows, Cache.Fetched,
           Cache.Filled, Cache.Base;
      ghost var how, shown := Access(true, false), cache.View(row, column);
      ok, block, gone, how := cache.Read(row, column, cache.remote.blockSize, 0);
      if ok && (row, column) !in gone {
        assert shown.value[0..0 + BlockSize()] == shown.value;
      }
      if cache.wipes == old(cache.wipes) {
        assert gone == {} || gone == {(row, column)};
      }
    }

    /** __WriteCached. A successful write sets the cell; no other cell changes, save for lost ones. */
    method WriteCell(row: nat, column: nat, block: Block) returns (ok: bool, ghost gone: set<Cell>)
      requires Ready() && (row, column) in grid && |block| == BlockSize()
      modifies this, cache, cache.remote
      ensures Ready() && Later()
      ensures Only(old(grid), grid, gone + {(row, column)}) && InRow(gone, row)
      ensures ok ==> (row, column) !in gone && grid[(row, column)] == block
      ensures !ok && cached && (row, column) !in gone ==> grid[(row, column)] == old(grid)[(row, column)]
      ensures !ok ==> Trouble() > old(Trouble())
      ensures cache.wipes == old(cache.wipes) ==> gone == {}
      ensures !cached ==> gone == {} && (cache.remote.luck.Always(RemoteWrite) ==> ok)
    {
      hide Cache.Lucky, AllFormed, CleanBut, Held, Agree, InTimeOrder, AllBefore, SameViewBut, ViewOf, Shown, Only,
           InRow, InGrid;
      HasCell(grid, row, column);
      CellShown(cache.files, cache.remote.cells, grid, row, column);
      ok, gone := StoreBlock(row, column, block);
      Look();
      HasCell(grid, row, column);
      ShownAfter(old(cache.files), old(cache.remote.cells), old(grid), cache.files, cache.remote.cells, grid,
                 gone + {(row, column)});
      CellShown(cache.files, cache.remote.cells, grid, row, column);
    }

    method StoreBlock(row: nat, column: nat, block: Block) returns (ok: bool, ghost gone: set<Cell>)
      requires Ready() && (row, column) in grid && |block| == BlockSize()
      modifies cache, cache.remote
      ensures cache.Valid() && (!cached ==> cache.files == map[]) && Later() && InRow(gone, row)
      ensures SameViewBut(old(cache.files), old(cache.remote.cells), cache.files, cache.remote.cells,
                          gone + {(row, column)})
      ensures ok ==> (row, column) !in gone && cache.View(row, column) == Some(block)
      ensures !ok && cached && (row, column) !in gone ==> cache.View(row, column) == old(cache.View(row, column))
      ensures !ok ==> Trouble() > old(Trouble())
      ensures cache.wipes == old(cache.wipes) ==> gone == {}
      ensures !cached ==> gone == {} && (cache.remote.luck.Always(RemoteWrite) ==> ok)
    {
      hide AllHomed, AllFormed, CleanBut, Held, Agree, InTimeOrder, AllBefore, SameViewBut, ViewOf, Shown, Used, Only,
           Overlay, InRow, InGrid;
      HasCell(grid, row, column);
      NoneInRow(row);
      if cached {
        ghost var how, mid;
        ok, gone, how, mid := cache.Write(row, column, block, 0);
      } else {
        gone := {};
        ok := cache.remote.WriteBlock(row, column, block);
        Direct(cache.files, old(cache.remote.cells), cache.remote.cells, row, column);
        assert gone + {(row, column)} == {(row, column)};
        NothingToClean(cache.items, cache.remote.cells);
        NothingHomed(cache.remote.cells);
      }
    }

    lemma NothingHomed(cells: Grid)
      ensures AllHomed(map[], cells)
    {
    }

    lemma NothingToClean(items: map<nat, Item>, cells: Grid)
      ensures CleanBut(map[], items, cells, {})
    {
    }

    /** Without a cache the cells show the remote blocks. */
    lemma Direct(files: map<nat, seq<Record>>, before: Grid, after: Grid, row: nat, column: nat)
      requires files == map[] && SameBut(before, after, (row, column)) && (row, column) in before
      ensures SameViewBut(files, before, files, after, {(row, column)})
      ensures after == before ==> SameViewBut(files, before, files, after, {})
      ensures ViewOf(files, after, row, column) == Some(after[(row, column)])
              && ViewOf(files, before, row, column) == Some(before[(row, column)])
    {
    }

    /** Reads some cells of a row in turn. One that cannot be read counts as zeros, or ends it, as asked. */
    method ReadCells(row: nat, columns: seq<nat>, giveUp: bool)
      returns (ok: bool, blocks: seq<Block>, ghost gone: set<Cell>, ghost unread: set<nat>)
      requires Ready() && row < cache.remote.rows && Ascending(columns, cache.remote.columns)
      modifies this, cache, cache.remote
      ensures Ready() && Later() && (!ok ==> giveUp && Trouble() > old(Trouble()))
      ensures Only(old(grid), grid, gone) && InRow(gone, row) && Spared(gone, old(cache.faults), old(cache.wipes))
      ensures Trouble() == old(Trouble()) ==> unread == {}
      ensures ok ==> (forall c :: c in unread ==> c in columns) && |blocks| == |columns| && Sized(blocks, BlockSize())
      ensures ok ==> GotBut(old(grid), row, columns, blocks, Zeros(), gone, unread)
      ensures !cached ==> gone == {}
      ensures !cached && cache.remote.luck.Never(RemoteRead) && ok ==> forall c :: c in columns ==> c in unread
    {
      hide Cache.Valid, Cache.Lucky, Shown, Only, GotBut, InRow, InGrid;
      ok, blocks, gone, unread := true, [], {}, {};
      ReadStart(grid, row, columns, Zeros());
      while |blocks| < |columns|
        invariant |blocks| <= |columns|
        invariant Ready() && Later() && Only(old(grid), grid, gone) && InRow(gone, row)
        invariant Spared(gone, old(cache.faults), old(cache.wipes))
        invariant Trouble() == old(Trouble()) ==> unread == {}
        invariant GotBut(old(grid), row, columns[..|blocks|], blocks, Zeros(), gone, unread)
        invariant !cached ==> gone == {}
        invariant !cached && cache.remote.luck.Never(RemoteRead) ==> forall i :: 0 <= i < |blocks| ==>
                    columns[i] in unread
      {
        ghost var before, more, column := grid, {}, columns[|blocks|];
        var read, block;
        HasCell(grid, row, column);
        read, block, more := ReadCell(row, columns[|blocks|]);
        OnlyThen(old(grid), before, grid, gone, more);
        Unions(gone, more, row);
        if !read && giveUp {
          return false, blocks, gone + more, unread;
        }
        block := if read then block else Zeros();
        GotMore(old(grid), before, row, columns, blocks, block, Zeros(), gone, more, unread, read);
        unread := if read then unread else unread + {column};
        blocks, gone := blocks + [block], gone + more;
      }
      assert columns[..|blocks|] == columns;
      GotAll(old(grid), row, columns, blocks, Zeros(), gone, unread);
    }

    lemma HasCell(g: Grid, row: nat, column: nat)
      requires InGrid(g)
      ensures (row, column) in g <==> row < cache.remote.rows && column < cache.remote.columns
    {
    }

    lemma NoneInRow(row: nat)
      ensures InRow({}, row)
    {
    }

    lemma ReadStart(g: Grid, row: nat, columns: seq<nat>, zeros: Block)
      ensures Only(g, g, {}) && InRow({}, row) && GotBut(g, row, columns[..0], [], zeros, {}, {})
              && HoldsBut(g, row, columns[..0], [], {})
      ensures Only(g, g, {} + Cells(row, columns[..0]))
    {
    }

    lemma Unions(a: set<Cell>, b: set<Cell>, row: nat)
      ensures |a + b| <= |a| + |b|
      ensures InRow(a, row) && InRow(b, row) ==> InRow(a + b, row)
    {
      assert a + b == a + (b - a) && b == (b - a) + (a * b);
    }

    /** Writes some cells of a row in turn. One that cannot be written is not noticed. */
    method WriteCells(row: nat, columns: seq<nat>, blocks: seq<Block>)
      returns (ghost gone: set<Cell>, ghost wrote: bool)
      requires Ready() && row < cache.remote.rows && Ascending(columns, cache.remote.columns)
      requires |blocks| == |columns| && Sized(blocks, BlockSize())
      modifies this, cache, cache.remote
      ensures Ready() && Later() && Only(old(grid), grid, gone + Cells(row, columns)) && InRow(gone, row)
      ensures Spared(gone, old(cache.faults), old(cache.wipes))
      ensures wrote ==> HoldsBut(grid, row, columns, blocks, gone)
      ensures Trouble() == old(Trouble()) ==> wrote
      ensures !cached ==> gone == {} && (cache.remote.luck.Always(RemoteWrite) ==> wrote)
    {
      hide Cache.Valid, Cache.Lucky, Shown, Only, HoldsBut, InRow, Cells;
      gone, wrote := {}, true;
      ReadStart(grid, row, columns, Zeros());
      var i := 0;
      while i < |columns|
        invariant 0 <= i <= |columns|
        invariant Ready() && Later() && Only(old(grid), grid, gone + Cells(row, columns[..i])) && InRow(gone, row)
        invariant Spared(gone, old(cache.faults), old(cache.wipes))
        invariant wrote ==> HoldsBut(grid, row, columns[..i], blocks[..i], gone)
        invariant Trouble() == old(Trouble()) ==> wrote
        invariant !cached ==> gone == {} && (cache.remote.luck.Always(RemoteWrite) ==> wrote)
      {
        ghost var before, more := grid, {};
        var ok;
        ok, more := WriteCell(row, columns[i], blocks[i]);
        OnlyThen(old(grid), before, grid, gone + Cells(row, columns[..i]), more + {(row, columns[i])});
        OneMoreCell(row, columns, i, gone, more);
        Unions(gone, more, row);
        if wrote && ok {
          CellWritten(before, grid, row, columns, blocks, i, gone, more);
        }
        gone, wrote := gone + more, wrote && ok;
        i := i + 1;
      }
      assert columns[..i] == columns && blocks[..i] == blocks;
    }

    lemma OneMoreCell(row: nat, columns: seq<nat>, i: nat, gone: set<Cell>, more: set<Cell>)
      requires i < |columns|
      ensures (gone + Cells(row, columns[..i])) + (more + {(row, columns[i])}) ==
                (gone + more) + Cells(row, columns[..i + 1])
    {
      assert columns[..i + 1] == columns[..i] + [columns[i]];
      forall k ensures k in Cells(row, columns[..i + 1]) <==> k in Cells(row, columns[..i]) || k == (row, columns[i]) {
        assert columns[..i + 1][i] == columns[i];
        assert forall j :: 0 <= j < i ==> columns[..i + 1][j] == columns[..i][j];
        if k in Cells(row, columns[..i]) {
          var j :| 0 <= j < i && k == (row, columns[..i][j]);
          assert k == (row, columns[..i + 1][j]);
        }
      }
    }

    // ---- VolumeRow.cpp ----

    function DataColumns(): seq<nat> { seq(dataCount, i requires 0 <= i < dataCount => i) }

    function CodeColumns(): seq<nat> { seq(codeCount, i requires 0 <= i < codeCount => dataCount + i) }

    lemma IsDataColumn()
      ensures forall c :: 0 <= c < dataCount ==> c in DataColumns()
    {
      forall c | 0 <= c < dataCount ensures c in DataColumns() {
        assert DataColumns()[c] == c;
      }
    }

    /** The data blocks of a row. */
    ghost function RowData(g: Grid, row: nat): (d: seq<Block>)
      ensures |d| == dataCount
    {
      seq(dataCount, c requires 0 <= c < dataCount => if (row, c) in g then g[(row, c)] else [])
    }

    /** The code cells of the row are the encoding of its data cells. */
    ghost predicate Parity(g: Grid, row: nat) {
      HoldsAt(g, row, CodeColumns(), codec.encode(RowData(g, row)))
    }

    /** The row holds the codeword of d. */
    ghost predicate HoldsCodeword(g: Grid, row: nat, d: seq<Block>) {
      RowData(g, row) == d && Parity(g, row)
    }

    /** The data with zeros in these columns. */
    ghost function Zeroed(d: seq<Block>, columns: set<nat>): (z: seq<Block>)
      ensures |z| == |d|
    {
      seq(|d|, c requires 0 <= c < |d| => if c in columns then Zeros() else d[c])
    }

    lemma RowDataKept(before: Grid, after: Grid, row: nat)
      requires after.Keys == before.Keys && forall c :: 0 <= c < dataCount && (row, c) in after ==>
                 after[(row, c)] == before[(row, c)]
      ensures RowData(after, row) == RowData(before, row)
    {
    }

    /**
      Row::Encode. The data cells do not change, save for lost ones. A data cell that cannot be read counts as
      zeros, and the call still succeeds. When nothing is lost and the code cells can be written, the row has
      parity if and only if zeros in the columns not read make the same code; for up to codeCount columns, if and
      only if those cells hold zeros. If every access succeeds, it has.
     */
    method Encode(row: nat) returns (ok: bool, ghost gone: set<Cell>, ghost unread: set<nat>, ghost wrote: bool)
      requires Fixed() && Ready() && row < cache.remote.rows
      modifies this, cache, cache.remote
      ensures Ready() && Later() && ok && Spared(gone, old(cache.faults), old(cache.wipes))
      ensures Only(old(grid), grid, gone + Cells(row, CodeColumns())) && InRow(gone, row)
      ensures forall c :: c in unread ==> c < dataCount
      ensures Trouble() == old(Trouble()) ==> gone == {} && unread == {} && wrote
      ensures gone == {} && wrote ==>
                var d := RowData(old(grid), row);
                && RowData(grid, row) == d && HoldsAt(grid, row, CodeColumns(), codec.encode(Zeroed(d, unread)))
                && (Parity(grid, row) <==> codec.encode(Zeroed(d, unread)) == codec.encode(d))
      ensures gone == {} && wrote && |unread| <= codeCount ==>
                (Parity(grid, row) <==> forall c :: c in unread ==> grid[(row, c)] == Zeros())
      ensures Trouble() == old(Trouble()) ==> Parity(grid, row)
      ensures !cached ==> gone == {} && (cache.remote.luck.Always(RemoteWrite) ==> wrote)
      ensures !cached && cache.remote.luck.Never(RemoteRead) ==> forall c :: 0 <= c < dataCount ==> c in unread
    {
      hide Cache.Valid, Cache.Lucky, Shown, Cipher.Lawful, GotBut, HoldsBut, HoldsAt, InRow, Cells, Only;
      IsDataColumn();
      var blocks;
      ghost var more;
      ok, blocks, gone, unread := ReadCells(row, DataColumns(), false);
      ghost var mid := grid;
      more, wrote := WriteCells(row, CodeColumns(), codec.encode(blocks));
      OnlyThen(old(grid), mid, grid, gone, more + Cells(row, CodeColumns()));
      assert gone + (more + Cells(row, CodeColumns())) == (gone + more) + Cells(row, CodeColumns());
      Unions(gone, more, row);
      if gone + more == {} && wrote {
        EncodedParity(old(grid), grid, row, blocks, unread);
      }
      gone := gone + more;
    }

    lemma EncodedParity(before: Grid, after: Grid, row: nat, blocks: seq<Block>, unread: set<nat>)
      requires Fixed() && InGrid(before) && InGrid(after) && row < cache.remote.rows
      requires GotBut(before, row, DataColumns(), blocks, Zeros(), {}, unread)
               && (forall c :: c in unread ==> c in DataColumns())
      requires Only(before, after, Cells(row, CodeColumns()))
               && HoldsBut(after, row, CodeColumns(), codec.encode(blocks), {})
      ensures var d := RowData(before, row);
              && RowData(after, row) == d && HoldsAt(after, row, CodeColumns(), codec.encode(Zeroed(d, unread)))
              && (Parity(after, row) <==> codec.encode(Zeroed(d, unread)) == codec.encode(d))
      ensures |unread| <= codeCount ==> (Parity(after, row) <==> forall c :: c in unread ==> after[(row, c)] == Zeros())
      ensures unread == {} ==> Parity(after, row)
    {
      var d := RowData(before, row);
      RowDataKept(before, after, row);
      forall c | 0 <= c < dataCount ensures blocks[c] == Zeroed(d, unread)[c] {
        assert DataColumns()[c] == c;
      }
      assert blocks == Zeroed(d, unread);
      if HoldsAt(after, row, CodeColumns(), codec.encode(d)) {
        assert codec.encode(d) == codec.encode(blocks);
      }
      UnreadParity(d, unread);
    }

    /** Zeros in up to codeCount columns make the same code only if there were zeros. */
    lemma UnreadParity(d: seq<Block>, unread: set<nat>)
      requires Fixed() && |d| == dataCount && Sized(d, BlockSize()) && forall c :: c in unread ==> 0 <= c < dataCount
      ensures unread == {} ==> Zeroed(d, unread) == d
      ensures |unread| <= codeCount ==>
                (codec.encode(Zeroed(d, unread)) == codec.encode(d) <==> forall c :: c in unread ==> d[c] == Zeros())
    {
      var z := Zeroed(d, unread);
      if |unread| <= codeCount && codec.encode(z) == codec.encode(d) {
        codec.SameCode(d, z, unread, codeCount, BlockSize());
      }
      if forall c :: c in unread ==> d[c] == Zeros() {
        assert z == d;
      }
    }

    /** How many of the first n data cells are unhealthy, and of the first n code cells healthy. */
    ghost function Unhealthy(row: nat, n: nat): nat {
      if n == 0 then 0 else Unhealthy(row, n - 1) + if healthy(row, n - 1) then 0 else 1
    }

    ghost function HealthyCode(row: nat, n: nat): nat {
      if n == 0 then 0 else HealthyCode(row, n - 1) + if healthy(row, dataCount + n - 1) then 1 else 0
    }

    /** The healthy cells of the row agree with the codeword of d, and there are enough of them. */
    ghost predicate Recoverable(g: Grid, row: nat, d: seq<Block>) {
      Agrees(g, row, d) && Unhealthy(row, dataCount) <= HealthyCode(row, codeCount)
    }

    ghost predicate Agrees(g: Grid, row: nat, d: seq<Block>) {
      && |d| == dataCount && Sized(d, BlockSize()) && |codec.encode(d)| == codeCount
      && (forall c :: 0 <= c < dataCount && healthy(row, c) ==> (row, c) in g && g[(row, c)] == d[c])
      && (forall c :: dataCount <= c < dataCount + codeCount && healthy(row, c) ==>
            (row, c) in g && g[(row, c)] == codec.encode(d)[c - dataCount])
    }

    ghost predicate IsSplit(row: nat, n: nat, present: seq<nat>, missing: seq<nat>) {
      && Ascending(present, n) && Ascending(missing, n) && |missing| == Unhealthy(row, n)
      && (forall c :: c in present <==> 0 <= c < n && healthy(row, c))
      && (forall c :: c in missing <==> 0 <= c < n && !healthy(row, c))
    }

    /** The data columns whose cells verify, and those whose cells do not. */
    method Split(row: nat) returns (present: seq<nat>, missing: seq<nat>)
      ensures IsSplit(row, dataCount, present, missing)
    {
      present, missing := [], [];
      for i := 0 to dataCount
        invariant IsSplit(row, i, present, missing)
      {
        if healthy(row, i) {
          present := present + [i];
        } else {
          missing := missing + [i];
        }
      }
    }

    ghost predicate IsCodeList(row: nat, codes: seq<nat>, want: nat) {
      && Ascending(codes, dataCount + codeCount) && |codes| <= want
      && (forall t :: 0 <= t < |codes| ==> dataCount <= codes[t] && healthy(row, codes[t]))
      && (want <= HealthyCode(row, codeCount) ==> |codes| == want)
    }

    /** The code columns whose cells verify, up to as many as wanted. */
    method HealthyCodes(row: nat, want: nat) returns (codes: seq<nat>)
      ensures IsCodeList(row, codes, want)
    {
      codes := [];
      var i := 0;
      while i < codeCount && |codes| < want
        invariant 0 <= i <= codeCount && |codes| == HealthyCode(row, i) && |codes| <= want
        invariant Ascending(codes, dataCount + i)
        invariant forall t :: 0 <= t < |codes| ==> dataCount <= codes[t] && healthy(row, codes[t])
      {
        if healthy(row, dataCount + i) {
          codes := codes + [dataCount + i];
        }
        i := i + 1;
      }
    }

    /** The pieces Decode assembles: healthy data blocks in place, code blocks in the missing places. */
    function Assembled(present: seq<nat>, blocks: seq<Block>, missing: seq<nat>, codes: seq<nat>,
                       codeBlocks: seq<Block>): (r: seq<Piece>)
      requires |blocks| == |present| && Ascending(present, dataCount)
      requires |codeBlocks| == |codes| <= |missing| && Ascending(missing, dataCount)
      ensures |r| == dataCount
    {
      var blank := seq(dataCount, _ => Piece(0, seq(BlockSize(), _ => 0)));
      Put(Put(blank, present, Pieces(present, blocks)), missing[..|codes|], Pieces(codes, codeBlocks))
    }

    /** What the assembly holds in a place: the data block of a healthy cell, or a code block. */
    lemma AssembledHealthy(g: Grid, row: nat, d: seq<Block>, present: seq<nat>, blocks: seq<Block>,
                           missing: seq<nat>, codes: seq<nat>, codeBlocks: seq<Block>, i: nat)
      requires Agrees(g, row, d) && IsSplit(row, dataCount, present, missing) && HoldsAt(g, row, present, blocks)
      requires |codeBlocks| == |codes| <= |missing| && i < dataCount && healthy(row, i)
      ensures Assembled(present, blocks, missing, codes, codeBlocks)[i] == Piece(i, d[i])
    {
      assert i in present && i !in missing && i !in missing[..|codes|];
      var t :| 0 <= t < |present| && present[t] == i;
      assert Pieces(present, blocks)[t] == Piece(i, d[i]);
    }

    lemma AssembledMissing(g: Grid, row: nat, d: seq<Block>, present: seq<nat>, blocks: seq<Block>,
                           missing: seq<nat>, codes: seq<nat>, codeBlocks: seq<Block>, t: nat)
      requires Agrees(g, row, d) && Ascending(present, dataCount) && Ascending(missing, dataCount)
               && |blocks| == |present|
      requires IsCodeList(row, codes, |missing|) && HoldsAt(g, row, codes, codeBlocks) && t < |codes|
      ensures Assembled(present, blocks, missing, codes, codeBlocks)[missing[t]] == Piece(codes[t], codeBlocks[t])
      ensures codec.IsCodePiece(d, Piece(codes[t], codeBlocks[t]))
    {
      assert missing[..|codes|][t] == missing[t];
      assert Pieces(codes, codeBlocks)[t] == Piece(codes[t], codeBlocks[t]);
    }

    lemma AssembledAt(g: Grid, row: nat, d: seq<Block>, present: seq<nat>, blocks: seq<Block>,
                      missing: seq<nat>, codes: seq<nat>, codeBlocks: seq<Block>, i: nat) returns (t: nat)
      requires Agrees(g, row, d) && IsSplit(row, dataCount, present, missing) && HoldsAt(g, row, present, blocks)
      requires IsCodeList(row, codes, |missing|) && HoldsAt(g, row, codes, codeBlocks) && i < dataCount
      ensures healthy(row, i) ==> Assembled(present, blocks, missing, codes, codeBlocks)[i] == Piece(i, d[i])
      ensures !healthy(row, i) ==> t < |missing| && missing[t] == i
      ensures !healthy(row, i) && t < |codes| ==>
                && Assembled(present, blocks, missing, codes, codeBlocks)[i] == Piece(codes[t], codeBlocks[t])
                && codec.IsCodePiece(d, Piece(codes[t], codeBlocks[t]))
    {
      t := 0;
      if healthy(row, i) {
        AssembledHealthy(g, row, d, present, blocks, missing, codes, codeBlocks, i);
      } else {
        assert i in missing;
        t :| 0 <= t < |missing| && missing[t] == i;
        if t < |codes| {
          AssembledMissing(g, row, d, present, blocks, missing, codes, codeBlocks, t);
        }
      }
    }

    /** Healthy data cells and as many healthy code cells as are missing make up a decodable set. */
    lemma AssembledRepresents(g: Grid, row: nat, d: seq<Block>, present: seq<nat>, blocks: seq<Block>,
                              missing: seq<nat>, codes: seq<nat>, codeBlocks: seq<Block>)
      requires Agrees(g, row, d) && IsSplit(row, dataCount, present, missing) && HoldsAt(g, row, present, blocks)
      requires IsCodeList(row, codes, |missing|) && |codes| == |missing| && HoldsAt(g, row, codes, codeBlocks)
      ensures codec.Represents(d, Assembled(present, blocks, missing, codes, codeBlocks))
    {
      var ps := Assembled(present, blocks, missing, codes, codeBlocks);
      forall i | 0 <= i < dataCount ensures ps[i] == Piece(i, d[i]) || codec.IsCodePiece(d, ps[i]) {
        var t := AssembledAt(g, row, d, present, blocks, missing, codes, codeBlocks, i);
      }
      forall i, j | 0 <= i < j < dataCount ensures ps[i].index != ps[j].index {
        var t := AssembledAt(g, row, d, present, blocks, missing, codes, codeBlocks, i);
        var u := AssembledAt(g, row, d, present, blocks, missing, codes, codeBlocks, j);
        if !healthy(row, i) && !healthy(row, j) {
          assert t < u;
        }
      }
    }

    function Picked(columns: seq<nat>, blocks: seq<Block>): (r: seq<Block>)
      requires Below(columns, |blocks|)
      ensures |r| == |columns| && forall t :: 0 <= t < |r| ==> r[t] == blocks[columns[t]]
    {
      seq(|columns|, t requires 0 <= t < |columns| => blocks[columns[t]])
    }

    /** What Decode has read, in terms of the data d the healthy cells agree with. */
    ghost predicate IsGathered(row: nat, d: seq<Block>, missing: seq<nat>, pieces: seq<Piece>, complete: bool) {
      && |pieces| == |d| == dataCount && Ascending(missing, dataCount)
      && (forall c :: c in missing <==> 0 <= c < dataCount && !healthy(row, c))
      && (forall i :: 0 <= i < |pieces| && healthy(row, i) ==> pieces[i] == Piece(i, d[i]))
      && (complete ==> codec.Represents(d, pieces))
      && (Unhealthy(row, dataCount) <= HealthyCode(row, codeCount) ==> complete)
    }

    /** The reading half of Decode: the healthy data cells, and code cells for the places of the others. */
    method Gather(row: nat, ghost d: seq<Block>)
      returns (ok: bool, missing: seq<nat>, pieces: seq<Piece>, complete: bool, ghost gone: set<Cell>)
      requires Fixed() && Ready() && row < cache.remote.rows
      modifies this, cache, cache.remote
      ensures Ready() && Later() && (!ok ==> Trouble() > old(Trouble()))
      ensures Only(old(grid), grid, gone) && InRow(gone, row) && Spared(gone, old(cache.faults), old(cache.wipes))
      ensures ok ==> |pieces| == dataCount && PiecesSized(pieces, BlockSize()) && Ascending(missing, dataCount)
      ensures ok && Trouble() == old(Trouble()) && Agrees(old(grid), row, d) ==>
                IsGathered(row, d, missing, pieces, complete)
    {
      hide Cache.Valid, Cache.Lucky, Shown, Cipher.Lawful, Codec.Lawful, GotBut, Only, InRow, HoldsAt, Agrees,
           IsGathered, Unhealthy, HealthyCode, InGrid;
      var present, blocks, codes, codeBlocks;
      ghost var more, unread;
      present, missing := Split(row);
      ok, blocks, gone, unread := ReadCells(row, present, true);
      if !ok {
        return false, missing, [], false, gone;
      }
      codes := HealthyCodes(row, |missing|);
      ghost var mid := grid;
      ok, codeBlocks, more, unread := ReadCells(row, codes, true);
      OnlyThen(old(grid), mid, grid, gone, more);
      Unions(gone, more, row);
      gone := gone + more;
      if !ok {
        return false, missing, [], false, gone;
      }
      pieces, complete := Assembled(present, blocks, missing, codes, codeBlocks), |codes| == |missing|;
      if Trouble() == old(Trouble()) && Agrees(old(grid), row, d) {
        Untouched(old(grid), mid);
        GotHolds(old(grid), row, present, blocks, Zeros());
        GotHolds(old(grid), row, codes, codeBlocks, Zeros());
        Gathered(old(grid), row, d, present, blocks, missing, codes, codeBlocks);
      }
    }

    lemma Gathered(g: Grid, row: nat, d: seq<Block>, present: seq<nat>, blocks: seq<Block>,
                   missing: seq<nat>, codes: seq<nat>, codeBlocks: seq<Block>)
      requires Agrees(g, row, d) && IsSplit(row, dataCount, present, missing) && HoldsAt(g, row, present, blocks)
      requires IsCodeList(row, codes, |missing|) && HoldsAt(g, row, codes, codeBlocks)
      ensures IsGathered(row, d, missing, Assembled(present, blocks, missing, codes, codeBlocks), |codes| == |missing|)
    {
      var pieces := Assembled(present, blocks, missing, codes, codeBlocks);
      if |codes| == |missing| {
        AssembledRepresents(g, row, d, present, blocks, missing, codes, codeBlocks);
      }
      forall i | 0 <= i < dataCount && healthy(row, i) ensures pieces[i] == Piece(i, d[i]) {
        var t := AssembledAt(g, row, d, present, blocks, missing, codes, codeBlocks, i);
      }
    }

    /**
      Row::Decode. If the healthy cells agree with a codeword, at least as many code cells are healthy as data
      cells are not, and every access succeeds, the whole row holds that codeword afterwards. In any case no
      other row changes. (With too few healthy code cells it re-encodes what it has and still succeeds.)
     */
    method Decode(row: nat, ghost d: seq<Block>) returns (ok: bool)
      requires Fixed() && Ready() && row < cache.remote.rows
      modifies this, cache, cache.remote
      ensures Ready() && Later() && SameOtherRows(old(grid), grid, row)
      ensures Trouble() == old(Trouble()) && Recoverable(old(grid), row, d) ==> ok && HoldsCodeword(grid, row, d)
    {
      hide Cache.Valid, Cache.Lucky, Shown, Cipher.Lawful, Only;
      var missing, pieces, complete;
      ghost var gone;
      ok, missing, pieces, complete, gone := Gather(row, d);
      OnlyInRow(old(grid), grid, gone, row);
      if !ok {
        return;
      }
      if gone == {} {
        Untouched(old(grid), grid);
      }
      var data, repair := BlocksOf(pieces), [];
      if missing != [] && complete {
        var decoded := codec.decode(pieces);
        if decoded.None? {
          return false;
        }
        data, repair := decoded.value, missing;
      }
      Rewrite(row, repair, data);
      if Trouble() == old(Trouble()) && Recoverable(old(grid), row, d) {
        Restored(old(grid), grid, row, d, missing, data, repair);
      }
      ok := true;
    }

    /** Writes the repaired data cells and all code cells of a row. */
    method Rewrite(row: nat, repair: seq<nat>, data: seq<Block>)
      requires Fixed() && Ready() && row < cache.remote.rows && Ascending(repair, dataCount)
      requires |data| == dataCount && Sized(data, BlockSize())
      modifies this, cache, cache.remote
      ensures Ready() && Later() && SameOtherRows(old(grid), grid, row)
      ensures Trouble() == old(Trouble()) ==> Rewritten(old(grid), grid, row, repair, data)
    {
      hide Cache.Valid, Cache.Lucky, Shown, Cipher.Lawful, Only, HoldsBut, InRow, Cells;
      ghost var gone, more, wrote, wroteCode;
      gone, wrote := WriteCells(row, repair, Picked(repair, data));
      ghost var mid := grid;
      more, wroteCode := WriteCells(row, CodeColumns(), codec.encode(data));
      CellsInRow(row, repair, gone);
      CellsInRow(row, CodeColumns(), more);
      OnlyInRow(old(grid), mid, gone + Cells(row, repair), row);
      OnlyInRow(mid, grid, more + Cells(row, CodeColumns()), row);
      if Trouble() == old(Trouble()) {
        RowRewritten(old(grid), mid, grid, row, repair, data);
      }
    }

    ghost predicate Rewritten(before: Grid, after: Grid, row: nat, repair: seq<nat>, data: seq<Block>)
      requires |data| == dataCount
    {
      && (forall c :: 0 <= c < dataCount ==>
            (row, c) in after && (row, c) in before && after[(row, c)] ==
              if c in repair then data[c] else before[(row, c)])
      && HoldsAt(after, row, CodeColumns(), codec.encode(data))
    }

    lemma CellsInRow(row: nat, columns: seq<nat>, gone: set<Cell>)
      requires InRow(gone, row)
      ensures InRow(gone + Cells(row, columns), row)
    {
    }

    lemma RowRewritten(before: Grid, mid: Grid, after: Grid, row: nat, repair: seq<nat>, data: seq<Block>)
      requires Fixed() && InGrid(before) && row < cache.remote.rows && |data| == dataCount && Below(repair, dataCount)
      requires Only(before, mid, {} + Cells(row, repair)) && HoldsBut(mid, row, repair, Picked(repair, data), {})
      requires Only(mid, after, {} + Cells(row, CodeColumns()))
               && HoldsBut(after, row, CodeColumns(), codec.encode(data), {})
      ensures Rewritten(before, after, row, repair, data)
    {
      forall c | 0 <= c < dataCount
        ensures (row, c) in after && after[(row, c)] == if c in repair then data[c] else before[(row, c)]
      {
        assert (row, c) !in Cells(row, CodeColumns());
        if c in repair {
          var t :| 0 <= t < |repair| && repair[t] == c;
          assert mid[(row, repair[t])] == Picked(repair, data)[t];
        } else {
          assert (row, c) !in Cells(row, repair);
        }
      }
    }

    lemma Restored(before: Grid, after: Grid, row: nat, d: seq<Block>, missing: seq<nat>, data: seq<Block>,
                   repair: seq<nat>)
      requires Agrees(before, row, d) && data == d && Rewritten(before, after, row, repair, data)
      requires (forall c :: c in missing <==> 0 <= c < dataCount && !healthy(row, c)) && repair == missing
      ensures HoldsCodeword(after, row, d)
    {
      assert RowData(after, row) == d;
    }

    lemma Untouched(before: Grid, after: Grid)
      requires Only(before, after, {})
      ensures after == before
    {
    }

    lemma GotHolds(g: Grid, row: nat, columns: seq<nat>, blocks: seq<Block>, zeros: Block)
      requires GotBut(g, row, columns, blocks, zeros, {}, {})
      ensures HoldsAt(g, row, columns, blocks)
    {
    }

    /**
      Row::Verify. A row whose cells all verify is left alone. Otherwise each unhealthy cell makes it decode; if
      the row is recoverable and every access succeeds, it holds the codeword afterwards. No other row changes.
     */
    method Verify(row: nat, ghost d: seq<Block>) returns (ok: bool)
      requires Fixed() && Ready() && row < cache.remote.rows
      modifies this, cache, cache.remote
      ensures Ready() && Later() && SameOtherRows(old(grid), grid, row)
      ensures AllHealthy(row) ==>
                ok && grid == old(grid) && Trouble() == old(Trouble()) && cache.wipes == old(cache.wipes)
      ensures Trouble() == old(Trouble()) && Recoverable(old(grid), row, d) && !AllHealthy(row) ==>
                ok && HoldsCodeword(grid, row, d)
    {
      hide Cache.Valid, Cache.Lucky, Shown, Cipher.Lawful, HoldsCodeword, Agrees;
      ghost var repaired := false;
      for i := 0 to dataCount + codeCount
        invariant Ready() && Later() && SameOtherRows(old(grid), grid, row)
        invariant !repaired ==> grid == old(grid) && Trouble() == old(Trouble()) && cache.wipes == old(cache.wipes)
        invariant !repaired ==> forall c :: 0 <= c < i ==> healthy(row, c)
        invariant AllHealthy(row) ==> !repaired
        invariant repaired && Trouble() == old(Trouble()) && Recoverable(old(grid), row, d) ==>
                    HoldsCodeword(grid, row, d)
      {
        if !healthy(row, i) {
          if HoldsCodeword(grid, row, d) && Recoverable(old(grid), row, d) {
            CodewordAgrees(grid, row, d);
          }
          ok := Decode(row, d);
          if !ok {
            return;
          }
          repaired := true;
        }
      }
      ok := true;
    }

    lemma CodewordAgrees(g: Grid, row: nat, d: seq<Block>)
      requires Fixed() && InGrid(g) && row < cache.remote.rows && HoldsCodeword(g, row, d)
      ensures Agrees(g, row, d)
    {
      forall c | 0 <= c < dataCount ensures (row, c) in g && g[(row, c)] == d[c] && |d[c]| == BlockSize() {
        assert d[c] == RowData(g, row)[c];
      }
      forall c | dataCount <= c < dataCount + codeCount
        ensures (row, c) in g && g[(row, c)] == codec.encode(d)[c - dataCount]
      {
        assert CodeColumns()[c - dataCount] == c;
      }
    }

    ghost predicate AllHealthy(row: nat) {
      forall c :: 0 <= c < dataCount + codeCount ==> healthy(row, c)
    }

    // ---- Volume.cpp: what the volume means ----

    function Shape(): Geometry { Geometry(cache.remote.rows, dataCount, cache.remote.blockSize) }

    /** memset(iv, row, AES_BLOCK_SIZE): every byte of the vector is the low byte of the row number. */
    function Vector(row: nat): nat { row % 256 }

    /** The part of a flat array of bytes that lies in a cell. */
    ghost function Clear(flat: Block, row: nat, column: nat): Block {
      var start := Shape().Position(row, column, 0);
      if start + BlockSize() <= |flat| then flat[start..start + BlockSize()] else []
    }

    /** What a cell holds when the volume is to be read as the array. */
    ghost function Sealed(flat: Block, row: nat, column: nat): Block {
      cipher.encrypt(Vector(row), Clear(flat, row, column))
    }

    ghost function DataOf(flat: Block, row: nat): (d: seq<Block>)
      ensures |d| == dataCount && forall c :: 0 <= c < dataCount ==> d[c] == Sealed(flat, row, c)
    {
      seq(dataCount, c requires 0 <= c < dataCount => Sealed(flat, row, c))
    }

    ghost predicate CellHolds(g: Grid, flat: Block, row: nat, column: nat) {
      (row, column) in g && g[(row, column)] == Sealed(flat, row, column)
    }

    /** The data cells hold the array, except for these. */
    ghost predicate AgreesBut(g: Grid, flat: Block, taint: set<Cell>) {
      && |flat| == Shape().Capacity()
      && forall r: nat, c: nat {:trigger CellHolds(g, flat, r, c)} ::
           r < cache.remote.rows && c < dataCount && (r, c) !in taint ==> CellHolds(g, flat, r, c)
    }

    /** The cells left of these when n bytes from an offset on have been written: those not written whole. */
    ghost function Dropped(taint: set<Cell>, offset: nat, n: nat): (rest: set<Cell>)
      ensures rest <= taint
    {
      set k | k in taint && !WrittenWhole(k, offset, n)
    }

    ghost predicate WrittenWhole(k: Cell, offset: nat, n: nat) {
      k.1 < dataCount && offset <= Shape().Position(k.0, k.1, 0)
      && Shape().Position(k.0, k.1, BlockSize()) <= offset + n
    }

    lemma NoneDropped(taint: set<Cell>, offset: nat)
      requires Fixed()
      ensures Dropped(taint, offset, 0) == taint
    {
    }

    /** Writing bytes of one cell drops no other, and drops that one only if they are all of it. */
    lemma DroppedMore(taint: set<Cell>, offset: nat, n: nat, row: nat, column: nat, blockOffset: nat, count: nat)
      requires Fixed() && column < dataCount && blockOffset + count <= BlockSize() && (n == 0 || blockOffset == 0)
      requires Shape().Position(row, column, blockOffset) == offset + n
      ensures Dropped(taint, offset, n) - (if count == BlockSize() then {(row, column)} else {}) <=
              Dropped(taint, offset, n + count)
    {
      forall k | k in Dropped(taint, offset, n) && WrittenWhole(k, offset, n + count)
        ensures k == (row, column) && count == BlockSize()
      {
        var g, last := Shape(), Shape().Position(k.0, k.1, BlockSize() - 1);
        assert last == g.Position(row, column, blockOffset + (last - (offset + n)));
        g.PlaceIsUnique(k.0, k.1, BlockSize() - 1);
        g.PlaceIsUnique(row, column, blockOffset + (last - (offset + n)));
      }
    }

    /** The row can be read as the array: all cells verify and the data cells hold it, or those that verify agree. */
    ghost predicate StandsRow(g: Grid, flat: Block, row: nat) {
      if AllHealthy(row) then RowData(g, row) == DataOf(flat, row) else Agrees(g, row, DataOf(flat, row))
    }

    ghost predicate Stands(g: Grid, flat: Block) {
      && |flat| == Shape().Capacity()
      && forall r: nat {:trigger StandsRow(g, flat, r)} :: r < cache.remote.rows ==> StandsRow(g, flat, r)
    }

    /** So can all rows but this one, whose data cells hold it. */
    ghost predicate StandsBut(g: Grid, flat: Block, row: nat) {
      && |flat| == Shape().Capacity() && RowData(g, row) == DataOf(flat, row)
      && forall r: nat {:trigger StandsRow(g, flat, r)} :: r < cache.remote.rows && r != row ==> StandsRow(g, flat, r)
    }

    /** Every row has at least as many code cells that verify as data cells that do not. */
    ghost predicate Covered() {
      forall r: nat {:trigger Unhealthy(r, dataCount)} :: r < cache.remote.rows ==>
        Unhealthy(r, dataCount) <= HealthyCode(r, codeCount)
    }

    /** Every cell verifies, as it does in a client, whose VerifyBlock always says so. */
    ghost predicate Healthy() {
      forall row :: 0 <= row < cache.remote.rows ==> AllHealthy(row)
    }

    /** The volume as one flat array of bytes. */
    ghost function Flat(g: Grid): (bytes: Block)
      requires Fixed() && InGrid(g)
      ensures |bytes| == Shape().Capacity()
    {
      seq(Shape().Capacity(), k requires 0 <= k < Shape().Capacity() => ByteAt(g, k))
    }

    /** The byte at an offset of the volume, decrypted. */
    ghost function ByteAt(g: Grid, k: nat): byte
      requires Fixed() && InGrid(g) && k < Shape().Capacity()
    {
      Shape().PlaceOf(k);
      cipher.decrypt(Vector(Shape().RowOf(k)), g[(Shape().RowOf(k), Shape().ColumnOf(k))])[Shape().OffsetOf(k)]
    }

    function CellOf(k: nat): Cell
      requires Shape().Valid()
    {
      (Shape().RowOf(k), Shape().ColumnOf(k))
    }

    /** A byte of a cell, wherever the cell holds the array, is the byte of the array. */
    lemma ClearByte(flat: Block, row: nat, column: nat, offset: nat)
      requires Fixed() && |flat| == Shape().Capacity() && row < cache.remote.rows && column < dataCount
               && offset < BlockSize()
      ensures |Clear(flat, row, column)| == BlockSize() && Shape().Position(row, column, offset) < |flat|
      ensures Clear(flat, row, column)[offset] == flat[Shape().Position(row, column, offset)]
    {
      Shape().CellInside(row, column);
    }

    lemma ClearSize(flat: Block, row: nat, column: nat)
      requires Fixed() && |flat| == Shape().Capacity() && row < cache.remote.rows && column < dataCount
      ensures |Clear(flat, row, column)| == BlockSize()
              && cipher.decrypt(Vector(row), Sealed(flat, row, column)) == Clear(flat, row, column)
      ensures Shape().Position(row, column, 0) + BlockSize() <= |flat|
    {
      Shape().CellInside(row, column);
    }

    /** The cells hold the flat array of the volume, and no other. */
    lemma FlatAgrees(g: Grid)
      requires Fixed() && InGrid(g)
      ensures AgreesBut(g, Flat(g), {})
    {
      var flat := Flat(g);
      forall r: nat, c: nat | r < cache.remote.rows && c < dataCount ensures CellHolds(g, flat, r, c) {
        var block := cipher.decrypt(Vector(r), g[(r, c)]);
        ClearSize(flat, r, c);
        forall i | 0 <= i < BlockSize() ensures Clear(flat, r, c)[i] == block[i] {
          ClearByte(flat, r, c, i);
          Shape().PlaceIsUnique(r, c, i);
        }
        assert Clear(flat, r, c) == block;
      }
    }

    lemma AgreesIsFlat(g: Grid, flat: Block)
      requires Fixed() && InGrid(g) && AgreesBut(g, flat, {})
      ensures flat == Flat(g)
    {
      forall k | 0 <= k < |flat| ensures flat[k] == Flat(g)[k] {
        Shape().PlaceOf(k);
        var r, c, i := Shape().RowOf(k), Shape().ColumnOf(k), Shape().OffsetOf(k);
        assert CellHolds(g, flat, r, c);
        ClearSize(flat, r, c);
        ClearByte(flat, r, c, i);
        assert Flat(g)[k] == ByteAt(g, k);
      }
    }

    /** When every cell verifies, the array the rows stand for is the flat array. */
    lemma StandsIsFlat(g: Grid, flat: Block)
      requires Fixed() && InGrid(g) && Healthy()
      ensures Stands(g, flat) <==> flat == Flat(g)
    {
      if Stands(g, flat) {
        forall r: nat, c: nat | r < cache.remote.rows && c < dataCount ensures CellHolds(g, flat, r, c) {
          assert StandsRow(g, flat, r) && AllHealthy(r);
          assert RowData(g, r)[c] == DataOf(flat, r)[c];
        }
        AgreesIsFlat(g, flat);
      }
      if flat == Flat(g) {
        FlatAgrees(g);
        forall r: nat | r < cache.remote.rows ensures StandsRow(g, flat, r) {
          forall c | 0 <= c < dataCount ensures RowData(g, r)[c] == DataOf(flat, r)[c] {
            assert CellHolds(g, flat, r, c);
          }
        }
      }
    }

    // ---- Writing bytes of one cell ----

    /** The array with some bytes of a cell replaced. */
    ghost predicate Replaces(flat: Block, flat': Block, row: nat, column: nat, offset: nat, bytes: Block) {
      && |flat| == Shape().Capacity() && offset + |bytes| <= BlockSize()
      && Shape().Position(row, column, offset) + |bytes| <= |flat|
      && flat' == Overlay(flat, Shape().Position(row, column, offset), bytes)
    }

    /** Replacing bytes of one cell replaces them in that cell, and leaves all others. */
    lemma ClearReplaced(flat: Block, flat': Block, row: nat, column: nat, offset: nat, bytes: Block, r: nat, c: nat)
      requires Fixed() && Replaces(flat, flat', row, column, offset, bytes)
      requires row < cache.remote.rows && column < dataCount && r < cache.remote.rows && c < dataCount
      ensures |Clear(flat, row, column)| == BlockSize()
      ensures Clear(flat', r, c) ==
                if (r, c) == (row, column) then Overlay(Clear(flat, row, column), offset, bytes) else Clear(flat, r, c)
    {
      hide Clear, Replaces;
      ReplacedSize(flat, flat', row, column, offset, bytes);
      ClearSize(flat, row, column);
      ClearSize(flat, r, c);
      ClearSize(flat', r, c);
      var want := if (r, c) == (row, column) then Overlay(Clear(flat, row, column), offset, bytes)
                  else Clear(flat, r, c);
      forall i | 0 <= i < BlockSize() ensures Clear(flat', r, c)[i] == want[i] {
        ByteReplaced(flat, flat', row, column, offset, bytes, r, c, i);
      }
    }

    lemma ReplacedSize(flat: Block, flat': Block, row: nat, column: nat, offset: nat, bytes: Block)
      requires Replaces(flat, flat', row, column, offset, bytes)
      ensures |flat'| == |flat| == Shape().Capacity() && offset + |bytes| <= BlockSize()
    {
    }

    lemma ByteReplaced(flat: Block, flat': Block, row: nat, column: nat, offset: nat, bytes: Block, r: nat, c: nat,
                       i: nat)
      requires Fixed() && Replaces(flat, flat', row, column, offset, bytes)
      requires row < cache.remote.rows && column < dataCount && r < cache.remote.rows && c < dataCount
               && i < BlockSize()
      ensures |Clear(flat', r, c)| == |Clear(flat, r, c)| == BlockSize()
      ensures Clear(flat', r, c)[i] ==
              if (r, c) == (row, column) && offset <= i < offset + |bytes| then bytes[i - offset]
              else Clear(flat, r, c)[i]
    {
      hide Clear;
      var g := Shape();
      ClearByte(flat, r, c, i);
      ClearByte(flat', r, c, i);
      var start, k := g.Position(row, column, offset), g.Position(r, c, i);
      if start <= k < start + |bytes| {
        assert k == g.Position(row, column, offset + (k - start));
        g.PlaceIsUnique(r, c, i);
        g.PlaceIsUnique(row, column, offset + (k - start));
      }
    }

    /** Reads, changes and writes back one encrypted block. */
    method PutBytes(row: nat, column: nat, offset: nat, bytes: Block) returns (ok: bool, ghost gone: set<Cell>)
      requires Fixed() && Ready() && (row, column) in grid && offset + |bytes| <= BlockSize()
      modifies this, cache, cache.remote
      ensures Ready() && Later() && Spared(gone, old(cache.faults), old(cache.wipes))
      ensures Only(old(grid), grid, gone + {(row, column)}) && InRow(gone, row)
      ensures (row, column) !in gone && ok ==>
                var clear := cipher.decrypt(Vector(row), old(grid)[(row, column)]);
                |clear| == BlockSize()
                && grid[(row, column)] == cipher.encrypt(Vector(row), Overlay(clear, offset, bytes))
      ensures (row, column) !in gone && !ok && cached ==> grid[(row, column)] == old(grid)[(row, column)]
      ensures ok && |bytes| == BlockSize() ==> grid[(row, column)] == cipher.encrypt(Vector(row), bytes)
      ensures !ok ==> Trouble() > old(Trouble())
    {
      hide Cache.Valid, Cache.Lucky, Shown, Codec.Lawful, Cipher.Lawful, Only, InRow, Overlay, InGrid;
      var clear;
      ghost var more;
      CellSize(grid, row, column);
      ok, clear, gone := ClearBlock(row, column, |bytes| < BlockSize());
      OnlyMore(old(grid), grid, gone, row, column);
      if !ok {
        return;
      }
      ghost var mid := grid;
      CipherSize(row, Overlay(clear, offset, bytes));
      WholeOverlay(clear, cipher.decrypt(Vector(row), old(grid)[(row, column)]), offset, bytes);
      ok, more := WriteCell(row, column, cipher.encrypt(Vector(row), Overlay(clear, offset, bytes)));
      OnlyThen(old(grid), mid, grid, gone, more + {(row, column)});
      assert gone + (more + {(row, column)}) == (gone + more) + {(row, column)};
      Unions(gone, more, row);
      gone := gone + more;
    }

    /** The decrypted block of a cell that is to be changed in part; for one that is to be replaced, anything. */
    method ClearBlock(row: nat, column: nat, needed: bool) returns (ok: bool, clear: Block, ghost gone: set<Cell>)
      requires Fixed() && Ready() && (row, column) in grid
      modifies this, cache, cache.remote
      ensures Ready() && Later() && Spared(gone, old(cache.faults), old(cache.wipes))
      ensures Only(old(grid), grid, gone) && InRow(gone, row) && (ok ==> |clear| == BlockSize())
      ensures ok && needed && (row, column) !in gone ==> clear == cipher.decrypt(Vector(row), old(grid)[(row, column)])
      ensures !ok ==> Trouble() > old(Trouble())
    {
      hide Cache.Valid, Cache.Lucky, Shown, Codec.Lawful, Only, InRow;
      ReadStart(grid, row, [], []);
      ok, clear, gone := true, Zeros(), {};
      if needed {
        ok, clear, gone := ReadCell(row, column);
        if ok {
          clear := cipher.decrypt(Vector(row), clear);
        }
      }
    }

    lemma CellSize(g: Grid, row: nat, column: nat)
      requires Fixed() && InGrid(g) && (row, column) in g
      ensures |g[(row, column)]| == BlockSize() && |cipher.decrypt(Vector(row), g[(row, column)])| == BlockSize()
    {
    }

    lemma CipherSize(row: nat, block: Block)
      requires Fixed() && |block| == BlockSize()
      ensures |cipher.encrypt(Vector(row), block)| == BlockSize()
    {
    }

    lemma WholeOverlay(a: Block, b: Block, offset: nat, bytes: Block)
      requires |a| == |b| && offset + |bytes| <= |a|
      ensures |bytes| == |a| ==> Overlay(a, offset, bytes) == Overlay(b, offset, bytes) == bytes
    {
    }

    lemma OnlyMore(before: Grid, after: Grid, gone: set<Cell>, row: nat, column: nat)
      requires Only(before, after, gone) && (row, column) in before
      ensures (row, column) in after && Only(before, after, gone + {(row, column)})
              && ((row, column) !in gone ==> after[(row, column)] == before[(row, column)])
    {
    }

    // ---- Where a write stands ----

    /** The rows from the first to the one before the last have parity. */
    ghost predicate ParityFrom(g: Grid, first: nat, last: nat) {
      forall r :: first <= r < last ==> Parity(g, r)
    }

    ghost predicate Within(data: Block, offset: nat) {
      offset + |data| <= Shape().Capacity()
    }

    /** The array with the first n bytes of the data in place. */
    ghost function Progress(flat: Block, offset: nat, data: Block, n: nat): Block {
      if n <= |data| && offset + |data| <= |flat| then Overlay(flat, offset, data[..n]) else flat
    }

    ghost predicate Since(job: Job)
      reads this, cache, cache.remote
    {
      && job.faults <= cache.faults && job.wipes <= cache.wipes
      && job.others <= cache.remote.failures + cache.mishaps
    }

    /** No operation has failed since. */
    ghost predicate Smooth(job: Job)
      reads this, cache, cache.remote
    {
      Trouble() == job.faults + job.wipes + job.others
    }

    /**
      The rows outside those from the first one to this one are as they were. If every cell verifies and the cells
      held an array, they hold it with the first n bytes in place, except for cells lost since. If nothing has
      failed since and the rows stood for an array, they stand for it with the first n bytes in place; inside a
      row, its data cells hold it. If nothing has failed since, the rows before this one have parity.
     */
    ghost predicate Kept(job: Job, n: nat, row: nat, gone: set<Cell>, inside: bool)
      reads this, cache, cache.remote
    {
      var flat := Progress(job.flat, job.offset, job.data, n);
      && Ready() && Since(job) && Spared(gone, job.faults, job.wipes)
      && job.first <= row && Outside(job.grid, grid, job.first, row)
      && (Healthy() && AgreesBut(job.grid, job.flat, job.taint) ==> AgreesBut(grid, flat, Tainted(job, n) + gone))
      && (Smooth(job) && Covered() && Stands(job.grid, job.flat) ==>
            if inside then StandsBut(grid, flat, row) else Stands(grid, flat))
      && (Smooth(job) ==> ParityFrom(grid, job.first, row))
    }

    /** The cells that did not hold the array before the job, and were not written whole. */
    ghost function Tainted(job: Job, n: nat): set<Cell> { Dropped(job.taint, job.offset, n) }

    // ---- What the steps of a write keep ----

    lemma PutAgrees(before: Grid, after: Grid, flat: Block, flat': Block, row: nat, column: nat, offset: nat,
                    bytes: Block, taint: set<Cell>, gone: set<Cell>)
      requires Fixed() && InGrid(before) && row < cache.remote.rows && column < dataCount
      requires Replaces(flat, flat', row, column, offset, bytes) && Only(before, after, gone + {(row, column)})
      requires (row, column) !in gone ==> CellPut(before, after, row, column, offset, bytes)
      requires |bytes| == BlockSize() ==>
                 (row, column) in after && after[(row, column)] == cipher.encrypt(Vector(row), bytes)
      requires AgreesBut(before, flat, taint)
      ensures AgreesBut(after, flat', taint + gone - if |bytes| == BlockSize() then {(row, column)} else {})
    {
      var left := taint + gone - if |bytes| == BlockSize() then {(row, column)} else {};
      forall r: nat, c: nat | r < cache.remote.rows && c < dataCount && (r, c) !in left
        ensures CellHolds(after, flat', r, c)
      {
        ClearReplaced(flat, flat', row, column, offset, bytes, r, c);
        ClearSize(flat, r, c);
        if (r, c) == (row, column) && |bytes| == BlockSize() {
          WholeOverlay(Clear(flat, r, c), Clear(flat, r, c), offset, bytes);
        } else {
          assert CellHolds(before, flat, r, c);
        }
      }
    }

    /** One round of a write. */
    lemma RoundAgrees(start: Grid, end: Grid, job: Job, n: nat, row: nat, column: nat, offset: nat, bytes: Block,
                      before: set<Cell>, more: set<Cell>)
      requires Fixed() && InGrid(start) && row < cache.remote.rows && column < dataCount
      requires offset + |bytes| <= BlockSize() && (n == 0 || offset == 0)
      requires Shape().Position(row, column, offset) == job.offset + n && Within(job.data, job.offset)
      requires n + |bytes| <= |job.data| && bytes == job.data[n..n + |bytes|] && |job.flat| == Shape().Capacity()
      requires Only(start, end, more + {(row, column)})
      requires (row, column) !in more ==> CellPut(start, end, row, column, offset, bytes)
      requires |bytes| == BlockSize() ==>
                 (row, column) in end && end[(row, column)] == cipher.encrypt(Vector(row), bytes)
      requires AgreesBut(start, Progress(job.flat, job.offset, job.data, n), Tainted(job, n) + before)
      ensures AgreesBut(end, Progress(job.flat, job.offset, job.data, n + |bytes|),
                        Tainted(job, n + |bytes|) + (before + more))
    {
      hide AgreesBut, Only, CellPut, Progress, Replaces, Tainted, Geometry.Position, InGrid;
      var flat, flat' := Progress(job.flat, job.offset, job.data, n),
          Progress(job.flat, job.offset, job.data, n + |bytes|);
      ProgressMore(job.flat, job.offset, job.data, n, n + |bytes|, row, column, offset);
      PutAgrees(start, end, flat, flat', row, column, offset, bytes, Tainted(job, n) + before, more);
      PutDrops(job, n, row, column, offset, bytes, before, more);
      AgreesMore(end, flat', (Tainted(job, n) + before) + more - if |bytes| == BlockSize() then {(row, column)} else {},
                 Tainted(job, n + |bytes|) + (before + more));
    }

    lemma AgreesMore(g: Grid, flat: Block, taint: set<Cell>, taint': set<Cell>)
      requires AgreesBut(g, flat, taint) && taint <= taint'
      ensures AgreesBut(g, flat, taint')
    {
    }

    /** The cells left after one more round of a write. */
    lemma PutDrops(job: Job, n: nat, row: nat, column: nat, offset: nat, bytes: Block, before: set<Cell>,
                   more: set<Cell>)
      requires Fixed() && column < dataCount && offset + |bytes| <= BlockSize() && (n == 0 || offset == 0)
      requires Shape().Position(row, column, offset) == job.offset + n
      ensures (Tainted(job, n) + before) + more - (if |bytes| == BlockSize() then {(row, column)} else {}) <=
              Tainted(job, n + |bytes|) + (before + more)
    {
      hide WrittenWhole;
      DroppedMore(job.taint, job.offset, n, row, column, offset, |bytes|);
    }

    ghost predicate CellPut(before: Grid, after: Grid, row: nat, column: nat, offset: nat, bytes: Block) {
      && (row, column) in before && (row, column) in after && offset + |bytes| <= BlockSize()
      && var clear := cipher.decrypt(Vector(row), before[(row, column)]);
         |clear| == BlockSize() && after[(row, column)] == cipher.encrypt(Vector(row), Overlay(clear, offset, bytes))
    }

    lemma PutStands(before: Grid, after: Grid, flat: Block, flat': Block, row: nat, column: nat, offset: nat,
                    bytes: Block)
      requires Fixed() && InGrid(before) && row < cache.remote.rows && column < dataCount
      requires Replaces(flat, flat', row, column, offset, bytes) && Only(before, after, {(row, column)})
      requires CellPut(before, after, row, column, offset, bytes) && StandsBut(before, flat, row)
      ensures StandsBut(after, flat', row)
    {
      forall c | 0 <= c < dataCount ensures RowData(after, row)[c] == DataOf(flat', row)[c] {
        assert RowData(before, row)[c] == DataOf(flat, row)[c];
        ClearReplaced(flat, flat', row, column, offset, bytes, row, c);
        ClearSize(flat, row, c);
      }
      forall r: nat | r < cache.remote.rows && r != row ensures StandsRow(after, flat', r) {
        assert StandsRow(before, flat, r);
        forall c | 0 <= c < dataCount ensures DataOf(flat', r)[c] == DataOf(flat, r)[c] {
          ClearReplaced(flat, flat', row, column, offset, bytes, r, c);
        }
        OtherRowStands(before, after, flat, flat', row, r);
      }
    }

    /** A row stands for the same data when neither its cells nor the array's part of it changes. */
    lemma OtherRowStands(before: Grid, after: Grid, flat: Block, flat': Block, row: nat, r: nat)
      requires SameOtherRows(before, after, row) && r != row && StandsRow(before, flat, r)
               && DataOf(flat', r) == DataOf(flat, r)
      ensures StandsRow(after, flat', r)
    {
      if AllHealthy(r) {
        RowDataKept(before, after, r);
      }
    }

    lemma RowsStand(before: Grid, after: Grid, flat: Block, row: nat)
      requires SameOtherRows(before, after, row)
      ensures forall r: nat {:trigger StandsRow(after, flat, r)} :: r != row && StandsRow(before, flat, r) ==>
                StandsRow(after, flat, r)
    {
      forall r: nat | r != row && StandsRow(before, flat, r) ensures StandsRow(after, flat, r) {
        OtherRowStands(before, after, flat, flat, row, r);
      }
    }

    lemma CodewordStands(g: Grid, flat: Block, row: nat)
      requires Fixed() && InGrid(g) && row < cache.remote.rows && RowData(g, row) == DataOf(flat, row)
      requires AllHealthy(row) || Parity(g, row)
      ensures StandsRow(g, flat, row)
    {
      if !AllHealthy(row) {
        CodewordAgrees(g, row, DataOf(flat, row));
      }
    }

    lemma ParityElsewhere(before: Grid, after: Grid, row: nat, first: nat)
      requires SameOtherRows(before, after, row) && ParityFrom(before, first, row)
      ensures ParityFrom(after, first, row)
    {
      forall r | first <= r < row ensures Parity(after, r) {
        ParityKept(before, after, row, r);
      }
    }

    lemma ParityKept(before: Grid, after: Grid, row: nat, r: nat)
      requires SameOtherRows(before, after, row) && r != row && Parity(before, r)
      ensures Parity(after, r)
    {
      RowDataKept(before, after, r);
    }

    /** A row that a write does not reach keeps its parity. */
    lemma ParityOutside(before: Grid, after: Grid, first: nat, last: nat, r: nat)
      requires Outside(before, after, first, last) && Parity(before, r) && !(first <= r <= last)
      ensures Parity(after, r)
    {
      RowDataKept(before, after, r);
    }

    /** Encoding changes no data cell. */
    lemma EncodeAgrees(before: Grid, after: Grid, row: nat, flat: Block, taint: set<Cell>, gone: set<Cell>)
      requires Only(before, after, gone + Cells(row, CodeColumns())) && AgreesBut(before, flat, taint)
      ensures AgreesBut(after, flat, taint + gone)
    {
      forall r: nat, c: nat | r < cache.remote.rows && c < dataCount && (r, c) !in taint + gone
        ensures CellHolds(after, flat, r, c)
      {
        assert CellHolds(before, flat, r, c) && (r, c) !in Cells(row, CodeColumns());
      }
    }

    /** Encodes a finished row. */
    method FinishRow(row: nat, ghost job: Job, ghost n: nat, ghost before: set<Cell>) returns (ghost gone: set<Cell>)
      requires Fixed() && row < cache.remote.rows && Kept(job, n, row, before, true)
      modifies this, cache, cache.remote
      ensures Later() && Kept(job, n, row + 1, gone, false) && before <= gone
      ensures Outside(job.grid, grid, job.first, row)
    {
      hide Cache.Valid, Cache.Lucky, Shown, Cipher.Lawful, Codec.Lawful, Only, InRow, Outside, AgreesBut, Stands,
           StandsBut, ParityFrom, Parity, Progress, HoldsAt, Cells, Healthy, Covered;
      ghost var flat := Progress(job.flat, job.offset, job.data, n);
      ghost var more, unread, wrote;
      var ok;
      ok, more, unread, wrote := Encode(row);
      CellsInRow(row, CodeColumns(), more);
      OnlyInRow(old(grid), grid, more + Cells(row, CodeColumns()), row);
      OutsideStays(job.grid, old(grid), grid, job.first, row);
      Unions(before, more, row);
      gone := before + more;
      ghost var taint := Tainted(job, n);
      assert (taint + before) + more == taint + gone;
      if AgreesBut(old(grid), flat, taint + before) {
        EncodeAgrees(old(grid), grid, row, flat, taint + before, more);
      }
      if Smooth(job) {
        ParityGrows(old(grid), grid, row, job.first);
        if StandsBut(old(grid), flat, row) {
          FinishStands(old(grid), grid, row, flat);
        }
      }
    }

    lemma ParityGrows(before: Grid, after: Grid, row: nat, first: nat)
      requires SameOtherRows(before, after, row) && ParityFrom(before, first, row) && Parity(after, row)
      ensures ParityFrom(after, first, row + 1)
    {
      ParityElsewhere(before, after, row, first);
    }

    lemma FinishStands(before: Grid, after: Grid, row: nat, flat: Block)
      requires Fixed() && InGrid(after) && row < cache.remote.rows && SameOtherRows(before, after, row)
      requires StandsBut(before, flat, row) && RowData(after, row) == RowData(before, row) && Parity(after, row)
      ensures Stands(after, flat)
    {
      RowsStand(before, after, flat, row);
      CodewordStands(after, flat, row);
    }

    /** Verifies a row about to be read or written, and repairs it if need be. */
    method EnterRow(row: nat, ghost job: Job, ghost n: nat, ghost gone: set<Cell>) returns (ok: bool)
      requires Fixed() && row < cache.remote.rows && Kept(job, n, row, gone, false)
      modifies this, cache, cache.remote
      ensures Later() && Ready() && Since(job) && Spared(gone, job.faults, job.wipes)
              && Outside(job.grid, grid, job.first, row)
      ensures ok ==> Kept(job, n, row, gone, true)
      ensures Healthy() ==> ok
      ensures Smooth(job) && Covered() && Stands(job.grid, job.flat) ==> ok
    {
      hide Cache.Valid, Cache.Lucky, Shown, Cipher.Lawful, Codec.Lawful, Outside, AgreesBut, Stands, StandsBut,
           ParityFrom, Parity, Progress, HoldsAt, Covered, AllHealthy, Agrees;
      ghost var flat := Progress(job.flat, job.offset, job.data, n);
      ok := Verify(row, DataOf(flat, row));
      OutsideStays(job.grid, old(grid), grid, job.first, row);
      if Smooth(job) {
        ParityElsewhere(old(grid), grid, row, job.first);
        if Covered() && Stands(old(grid), flat) {
          EnterStands(old(grid), grid, row, flat);
        }
      }
    }

    lemma EnterStands(before: Grid, after: Grid, row: nat, flat: Block)
      requires row < cache.remote.rows && SameOtherRows(before, after, row) && Stands(before, flat) && Covered()
      ensures AllHealthy(row) || Recoverable(before, row, DataOf(flat, row))
      ensures (if AllHealthy(row) then after == before else HoldsCodeword(after, row, DataOf(flat, row))) ==>
                StandsBut(after, flat, row)
    {
      assert StandsRow(before, flat, row);
      RowsStand(before, after, flat, row);
    }

    lemma ProgressMore(flat: Block, offset: nat, data: Block, n: nat, m: nat, row: nat, column: nat, blockOffset: nat)
      requires |flat| == Shape().Capacity() && offset + |data| <= |flat| && n <= m <= |data|
               && blockOffset + (m - n) <= BlockSize()
      requires Shape().Position(row, column, blockOffset) == offset + n
      ensures Replaces(Progress(flat, offset, data, n), Progress(flat, offset, data, m), row, column, blockOffset,
                       data[n..m])
    {
      OverlayTwice(flat, offset, data, n, m);
    }

    lemma ProgressEnds(flat: Block, offset: nat, data: Block)
      requires offset + |data| <= |flat|
      ensures Progress(flat, offset, data, 0) == flat
              && Progress(flat, offset, data, |data|) == Overlay(flat, offset, data)
      ensures forall n {:trigger Progress(flat, offset, data, n)} :: |Progress(flat, offset, data, n)| == |flat|
    {
      assert data[..|data|] == data;
    }

    /** One round of the loop of WriteEncrypt. */
    method WriteRound(row: nat, column: nat, offset: nat, bytes: Block, ghost job: Job, ghost n: nat,
                      ghost before: set<Cell>)
      returns (ok: bool, ghost gone: set<Cell>)
      requires Fixed() && row < cache.remote.rows && column < dataCount && offset + |bytes| <= BlockSize()
      requires (n == 0 || offset == 0)
      requires Kept(job, n, row, before, true) && n + |bytes| <= |job.data| && bytes == job.data[n..n + |bytes|]
      requires Shape().Position(row, column, offset) == job.offset + n && Within(job.data, job.offset)
               && |job.flat| == Shape().Capacity()
      modifies this, cache, cache.remote
      ensures Later() && Ready() && Since(job) && Spared(gone, job.faults, job.wipes)
              && Outside(job.grid, grid, job.first, row)
      ensures ok ==> Kept(job, n + |bytes|, row, gone, true)
      ensures !ok ==> !Smooth(job)
      ensures !ok && cached && Healthy() && AgreesBut(job.grid, job.flat, job.taint) ==>
                AgreesBut(grid, Progress(job.flat, job.offset, job.data, n), Tainted(job, n) + gone)
    {
      hide Cache.Valid, Cache.Lucky, Shown, Cipher.Lawful, Codec.Lawful, Only, InRow, Outside, AgreesBut, Stands,
           StandsBut, ParityFrom, Parity, Progress, HoldsAt, Healthy, Covered, Replaces, Overlay, Geometry.Position,
           Tainted;
      ghost var flat, flat' := Progress(job.flat, job.offset, job.data, n),
                Progress(job.flat, job.offset, job.data, n + |bytes|);
      ghost var more;
      ProgressMore(job.flat, job.offset, job.data, n, n + |bytes|, row, column, offset);
      ok, more := PutBytes(row, column, offset, bytes);
      Unions(before, more, row);
      gone := before + more;
      ghost var taint := Tainted(job, n);
      assert (taint + before) + more == taint + gone;
      PutOutside(job.grid, old(grid), grid, job.first, row, column, more);
      if ok {
        if AgreesBut(old(grid), flat, taint + before) {
          RoundAgrees(old(grid), grid, job, n, row, column, offset, bytes, before, more);
        }
        if Smooth(job) {
          ParityElsewhere(old(grid), grid, row, job.first);
          assert more + {(row, column)} == {(row, column)};
          if StandsBut(old(grid), flat, row) {
            PutStands(old(grid), grid, flat, flat', row, column, offset, bytes);
          }
        }
      } else if cached && AgreesBut(old(grid), flat, taint + before) {
        NotPutAgrees(old(grid), grid, flat, row, column, taint + before, more);
      }
    }

    lemma PutOutside(start: Grid, before: Grid, after: Grid, first: nat, row: nat, column: nat, more: set<Cell>)
      requires Only(before, after, more + {(row, column)}) && InRow(more, row) && first <= row
               && Outside(start, before, first, row)
      ensures SameOtherRows(before, after, row) && Outside(start, after, first, row)
    {
    }

    lemma NotPutAgrees(before: Grid, after: Grid, flat: Block, row: nat, column: nat, taint: set<Cell>, gone: set<Cell>)
      requires Only(before, after, gone + {(row, column)}) && (row, column) in before && AgreesBut(before, flat, taint)
      requires (row, column) !in gone ==> after[(row, column)] == before[(row, column)]
      ensures AgreesBut(after, flat, taint + gone)
    {
      forall r: nat, c: nat | r < cache.remote.rows && c < dataCount && (r, c) !in taint + gone
        ensures CellHolds(after, flat, r, c)
      {
        assert CellHolds(before, flat, r, c);
      }
    }

    /** Moves on to the next cell, finishing the row and verifying the next one where it ends. */
    method Advance(row: nat, column: nat, ghost job: Job, ghost n: nat, ghost before: set<Cell>)
      returns (ok: bool, row': nat, column': nat, ghost gone: set<Cell>)
      requires Fixed() && row < cache.remote.rows && column < dataCount && Kept(job, n, row, before, true)
      requires Shape().Position(row, column, BlockSize()) < Shape().Capacity()
      modifies this, cache, cache.remote
      ensures Later() && Ready() && Since(job) && Spared(gone, job.faults, job.wipes)
              && Outside(job.grid, grid, job.first, row')
      ensures row' < cache.remote.rows && column' < dataCount && row <= row'
      ensures Shape().Position(row', column', 0) == Shape().Position(row, column, BlockSize())
      ensures ok ==> Kept(job, n, row', gone, true)
      ensures Healthy() ==> ok
      ensures Smooth(job) && Covered() && Stands(job.grid, job.flat) ==> ok
    {
      hide Cache.Valid, Cache.Lucky, Shown, Cipher.Lawful, Codec.Lawful, Outside, AgreesBut, Stands, StandsBut,
           ParityFrom, Progress, Healthy, Covered;
      NextCell(row, column);
      ok, row', column', gone := true, row, column + 1, before;
      if column' == dataCount {
        gone := FinishRow(row, job, n, before);
        row', column' := row + 1, 0;
        ok := EnterRow(row', job, n, gone);
      }
    }

    lemma NextCell(row: nat, column: nat)
      requires Fixed() && row < cache.remote.rows && column < dataCount
      requires Shape().Position(row, column, BlockSize()) < Shape().Capacity()
      ensures Shape().Position(row, column, BlockSize()) == Shape().Position(row, column + 1, 0)
      ensures column + 1 == dataCount ==>
                row + 1 < cache.remote.rows
                && Shape().Position(row, column, BlockSize()) == Shape().Position(row + 1, 0, 0)
    {
      Shape().NextPlace(row, column);
      Shape().PlaceOf(Shape().Position(row, column, BlockSize()));
      if column + 1 == dataCount {
        Shape().PlaceIsUnique(row + 1, 0, 0);
      }
    }

    /** The loop of WriteEncrypt, from the cell and the offset in it where the range starts. */
    method WriteRange(data: Block, startRow: nat, startColumn: nat, startOffset: nat, ghost job: Job)
      returns (ok: bool, ghost written: nat, ghost last: nat, ghost gone: set<Cell>)
      requires Fixed() && data != [] && data == job.data && Within(data, job.offset) && |job.flat| == Shape().Capacity()
      requires startRow < cache.remote.rows && startColumn < dataCount && startOffset < BlockSize()
      requires Shape().Position(startRow, startColumn, startOffset) == job.offset && Kept(job, 0, startRow, {}, true)
      modifies this, cache, cache.remote
      ensures Later() && Ready() && Since(job) && Spared(gone, job.faults, job.wipes) && written <= |data|
      ensures last <= Shape().RowOf(job.offset + |data| - 1) && Outside(job.grid, grid, job.first, last)
      ensures ok ==>
                written == |data| && last == Shape().RowOf(job.offset + |data| - 1)
                && Kept(job, |data|, last + 1, gone, false)
      ensures !ok && cached && Healthy() && AgreesBut(job.grid, job.flat, job.taint) ==>
                AgreesBut(grid, Progress(job.flat, job.offset, data, written), Tainted(job, written) + gone)
      ensures Smooth(job) && (Healthy() || (Covered() && Stands(job.grid, job.flat))) ==> ok
    {
      hide Cache.Valid, Cache.Lucky, Shown, Cipher.Lawful, Codec.Lawful, Outside, InGrid, AgreesBut, Stands, StandsBut,
           ParityFrom, Progress, Healthy, Covered, Geometry.RowOf, Geometry.Capacity, Times, Tainted;
      var row: nat, column: nat, blockOffset: nat := startRow, startColumn, startOffset;
      var done := 0;
      gone := {};
      while true
        invariant 0 <= done < |data| && Kept(job, done, row, gone, true) && Later() && (done == 0 || blockOffset == 0)
        invariant row < cache.remote.rows && column < dataCount && blockOffset < BlockSize()
        invariant Shape().Position(row, column, blockOffset) == job.offset + done
        decreases |data| - done
      {
        LastRow(row, column, blockOffset, job.offset + done, job.offset + |data| - 1);
        written, last := done, row;
        var room := BlockSize() - blockOffset;
        var toWrite := if |data| - done > room then room else |data| - done;
        ok, gone := WriteRound(row, column, blockOffset, data[done..done + toWrite], job, done, gone);
        if !ok {
          return;
        }
        done := done + toWrite;
        written := done;
        if done == |data| {
          LastRow(row, column, blockOffset + toWrite - 1, job.offset + done - 1, job.offset + |data| - 1);
          break;
        }
        LastRow(row, column, blockOffset, job.offset + done - toWrite, job.offset + |data| - 1);
        ok, row, column, gone := Advance(row, column, job, done, gone);
        last := row;
        LastRow(row, column, 0, job.offset + done, job.offset + |data| - 1);
        if !ok {
          return;
        }
        blockOffset := 0;
      }
      gone := FinishRow(row, job, done, gone);
    }

    lemma LastRow(row: nat, column: nat, offset: nat, k: nat, end: nat)
      requires Fixed() && column < dataCount && offset < BlockSize()
               && Shape().Position(row, column, offset) == k <= end
      ensures row <= Shape().RowOf(end) && (k == end ==> row == Shape().RowOf(end))
    {
      Shape().PlaceIsUnique(row, column, offset);
      Shape().RowsGrow(k, end);
    }

    /** Where a byte lies. */
    method Locate(k: nat) returns (row: nat, column: nat, offset: nat)
      requires Fixed() && k < Shape().Capacity()
      ensures row == Shape().RowOf(k) && row < cache.remote.rows && column < dataCount && offset < BlockSize()
      ensures Shape().Position(row, column, offset) == k
    {
      row, column, offset := Shape().RowOf(k), Shape().ColumnOf(k), Shape().OffsetOf(k);
      Shape().PlaceOf(k);
    }

    /** Nothing has been written yet. */
    lemma Begin(job: Job)
      requires Fixed() && Ready() && Within(job.data, job.offset) && |job.flat| == Shape().Capacity()
               && job.grid == grid
      requires job.faults == cache.faults && job.wipes == cache.wipes
               && job.others == cache.remote.failures + cache.mishaps
      ensures Kept(job, 0, job.first, {}, false)
    {
      ProgressEnds(job.flat, job.offset, job.data);
      NoneDropped(job.taint, job.offset);
      assert Tainted(job, 0) + {} == job.taint;
    }

    /** Writes a range that lies in the volume. */
    method WriteWithin(data: Block, offset: nat, ghost flat: Block, ghost taint: set<Cell>)
      returns (ok: bool, ghost written: nat, ghost gone: set<Cell>)
      requires Fixed() && Ready() && data != [] && Within(data, offset) && |flat| == Shape().Capacity()
      modifies this, cache, cache.remote
      ensures Ready() && Later() && Spared(gone, old(cache.faults), old(cache.wipes))
      ensures written <= |data| && (ok ==> written == |data|)
      ensures Outside(old(grid), grid, Shape().RowOf(offset), Shape().RowOf(offset + |data| - 1))
      ensures Healthy() && AgreesBut(old(grid), flat, taint) && (ok || cached) ==>
                AgreesBut(grid, Progress(flat, offset, data, written), Dropped(taint, offset, written) + gone)
      ensures Trouble() == old(Trouble()) && (Healthy() || (Covered() && Stands(old(grid), flat))) ==> ok
      ensures Trouble() == old(Trouble()) && Covered() && Stands(old(grid), flat) ==>
                Stands(grid, Overlay(flat, offset, data))
      ensures Trouble() == old(Trouble()) && ok ==>
                ParityFrom(grid, Shape().RowOf(offset), Shape().RowOf(offset + |data| - 1) + 1)
    {
      hide Cache.Valid, Cache.Lucky, Shown, Cipher.Lawful, Codec.Lawful, InGrid, AgreesBut, Stands, StandsBut,
           ParityFrom, Progress, Healthy, Covered, Geometry.RowOf, Overlay;
      var row, column, blockOffset := Locate(offset);
      ghost var job := Job(grid, flat, taint, offset, data, row, cache.faults, cache.wipes,
                           cache.remote.failures + cache.mishaps);
      ghost var last := row;
      Begin(job);
      ProgressEnds(flat, offset, data);
      LastRow(row, column, blockOffset, offset, offset + |data| - 1);
      written, gone := 0, {};
      ok := EnterRow(row, job, 0, {});
      if ok {
        ok, written, last, gone := WriteRange(data, row, column, blockOffset, job);
      }
      OutsideMore(job.grid, grid, row, last, Shape().RowOf(offset + |data| - 1));
    }

    lemma OutsideMore(before: Grid, after: Grid, first: nat, last: nat, later: nat)
      requires Outside(before, after, first, last) && last <= later
      ensures Outside(before, after, first, later)
    {
    }

    /**
      Volume::WriteEncrypt. A range outside the volume is refused and changes nothing; no write changes a row
      outside its range. If every cell verifies and the cells hold an array, a successful write replaces exactly
      its bytes of it, whatever the cache did meanwhile and whatever failed inside Encode, and a failed one through
      the cache a prefix of them, except in cells that were lost. Whichever cells verify, if no operation fails and
      the rows stand for an array that can be recovered, the write succeeds and they stand for it with the bytes
      replaced. If no operation fails, every row from the first to the last touched has parity.
     */
    method WriteEncrypt(data: Block, offset: nat, ghost flat: Block, ghost taint: set<Cell>)
      returns (ok: bool, ghost written: nat, ghost gone: set<Cell>)
      requires Fixed() && Ready()
      modifies this, cache, cache.remote
      ensures Ready() && Later() && Spared(gone, old(cache.faults), old(cache.wipes))
      ensures written <= |data| && (ok ==> written == |data|)
      ensures data != [] && !Within(data, offset) ==> !ok && grid == old(grid) && gone == {} && written == 0
      ensures data == [] ==> ok && grid == old(grid) && gone == {}
      ensures data != [] && Within(data, offset) ==>
                Outside(old(grid), grid, Shape().RowOf(offset), Shape().RowOf(offset + |data| - 1))
      ensures data != [] && Within(data, offset) && Healthy() && AgreesBut(old(grid), flat, taint) && (ok || cached) ==>
                AgreesBut(grid, Progress(flat, offset, data, written), Dropped(taint, offset, written) + gone)
      ensures Within(data, offset) && Trouble() == old(Trouble())
              && (Healthy() || (Covered() && Stands(old(grid), flat))) ==>
                ok
      ensures data != [] && Within(data, offset) && Trouble() == old(Trouble()) && Covered()
              && Stands(old(grid), flat) ==>
                Stands(grid, Progress(flat, offset, data, |data|))
      ensures Trouble() == old(Trouble()) && ok && data != [] && Within(data, offset) ==>
                ParityFrom(grid, Shape().RowOf(offset), Shape().RowOf(offset + |data| - 1) + 1)
    {
      hide Cache.Valid, Cache.Lucky, Shown, Cipher.Lawful, Codec.Lawful, InGrid, Outside, ParityFrom, Healthy, Covered,
           Geometry.RowOf;
      if |data| == 0 {
        return true, 0, {};
      }
      if offset >= Shape().Capacity() || |data| > Shape().Capacity() || offset + |data| > Shape().Capacity() {
        return false, 0, {};
      }
      ghost var image := if |flat| == Shape().Capacity() then flat else Blank();
      ProgressEnds(image, offset, data);
      ok, written, gone := WriteWithin(data, offset, image, taint);
    }

    ghost function Blank(): Block { seq(Shape().Capacity(), _ => 0) }

    // ---- Reading ----

    /** Bytes of a decrypted cell that holds the array are the bytes of the array. */
    lemma SealedBytes(flat: Block, row: nat, column: nat, offset: nat, count: nat)
      requires Fixed() && |flat| == Shape().Capacity() && row < cache.remote.rows && column < dataCount
               && offset + count <= BlockSize()
      ensures var start := Shape().Position(row, column, offset);
              && |cipher.decrypt(Vector(row), Sealed(flat, row, column))| == BlockSize() && start + count <= |flat|
              && cipher.decrypt(Vector(row), Sealed(flat, row, column))[offset..offset + count] ==
                flat[start..start + count]
    {
      ClearSize(flat, row, column);
      var first, start := Shape().Position(row, column, 0), Shape().Position(row, column, offset);
      assert start == first + offset;
      SliceOfSlice(flat, first, BlockSize(), offset, count);
    }

    /** Reads and decrypts part of one block. */
    method GetBytes(row: nat, column: nat, offset: nat, count: nat)
      returns (ok: bool, bytes: Block, ghost gone: set<Cell>)
      requires Fixed() && Ready() && (row, column) in grid && offset + count <= BlockSize()
      modifies this, cache, cache.remote
      ensures Ready() && Later() && Spared(gone, old(cache.faults), old(cache.wipes))
      ensures Only(old(grid), grid, gone) && InRow(gone, row) && (ok ==> |bytes| == count)
              && (!ok ==> Trouble() > old(Trouble()))
      ensures ok && (row, column) !in gone ==>
                var clear := cipher.decrypt(Vector(row), old(grid)[(row, column)]);
                |clear| == BlockSize() && bytes == clear[offset..offset + count]
    {
      hide Cache.Valid, Cache.Lucky, Shown, Codec.Lawful, Only, InRow;
      var clear;
      bytes := [];
      ok, clear, gone := ClearBlock(row, column, true);
      if ok {
        bytes := clear[offset..offset + count];
      }
    }

    /** The bytes are those of the array from there on, except for those of these cells. */
    ghost predicate BytesFit(data: Block, flat: Block, offset: nat, taint: set<Cell>)
      requires Shape().Valid()
    {
      && offset + |data| <= |flat|
      && forall i :: 0 <= i < |data| ==> CellOf(offset + i) in taint || data[i] == flat[offset + i]
    }

    lemma FitMore(data: Block, flat: Block, offset: nat, taint: set<Cell>, bytes: Block, taint': set<Cell>, row: nat,
                  column: nat, blockOffset: nat)
      requires Fixed() && BytesFit(data, flat, offset, taint) && taint <= taint' && offset + |data| + |bytes| <= |flat|
      requires column < dataCount && blockOffset + |bytes| <= BlockSize()
               && Shape().Position(row, column, blockOffset) == offset + |data|
      requires (row, column) !in taint' ==> bytes == flat[offset + |data|..offset + |data| + |bytes|]
      ensures BytesFit(data + bytes, flat, offset, taint')
    {
      forall i | 0 <= i < |data + bytes| ensures CellOf(offset + i) in taint' || (data + bytes)[i] == flat[offset + i] {
        if i >= |data| {
          Shape().PlaceIsUnique(row, column, blockOffset + (i - |data|));
          assert Shape().Position(row, column, blockOffset + (i - |data|)) == offset + i;
        }
      }
    }

    /** Rows in parity are in parity still. */
    ghost predicate ParityStays(before: Grid, after: Grid) {
      forall r: nat {:trigger Parity(after, r)} :: Parity(before, r) ==> Parity(after, r)
    }

    /**
      The rows outside those from the first one to this one are as they were; if every cell verifies, so are all
      cells but those lost since. If nothing has failed since and the rows stood for an array, they do, rows in
      parity are still, and inside a row its data cells hold the array.
     */
    ghost predicate Seen(job: Job, row: nat, gone: set<Cell>, inside: bool)
      reads this, cache, cache.remote
    {
      && Ready() && Since(job) && Spared(gone, job.faults, job.wipes)
      && job.first <= row && Outside(job.grid, grid, job.first, row)
      && (Healthy() ==> Only(job.grid, grid, gone))
      && (Smooth(job) && Covered() && Stands(job.grid, job.flat) ==>
            Stands(grid, job.flat) && ParityStays(job.grid, grid)
            && Mended(grid, job.flat, job.first, if inside then row + 1 else row)
            && (inside ==> RowData(grid, row) == DataOf(job.flat, row)))
    }

    /** The rows from the first to the one before the last have been repaired, if they had to be. */
    ghost predicate Mended(g: Grid, flat: Block, first: nat, last: nat) {
      forall r: nat {:trigger MendedRow(g, flat, r)} :: first <= r < last ==> MendedRow(g, flat, r)
    }

    ghost predicate MendedRow(g: Grid, flat: Block, row: nat) {
      AllHealthy(row) || HoldsCodeword(g, row, DataOf(flat, row))
    }

    lemma MendedMore(before: Grid, after: Grid, flat: Block, first: nat, row: nat)
      requires SameOtherRows(before, after, row) && Mended(before, flat, first, row)
      requires MendedRow(after, flat, row)
      ensures Mended(after, flat, first, row + 1)
    {
      forall r: nat | first <= r < row ensures MendedRow(after, flat, r) {
        assert MendedRow(before, flat, r);
        RowDataKept(before, after, r);
        if Parity(before, r) {
          ParityKept(before, after, row, r);
        }
      }
    }

    /** Verifies a row about to be read, and repairs it if need be. */
    method VisitRow(row: nat, ghost job: Job, ghost gone: set<Cell>) returns (ok: bool)
      requires Fixed() && row < cache.remote.rows && Seen(job, row, gone, false)
      modifies this, cache, cache.remote
      ensures Later() && Seen(job, row, gone, true)
      ensures Healthy() ==> ok
      ensures Smooth(job) && Covered() && Stands(job.grid, job.flat) ==> ok
    {
      hide Cache.Valid, Cache.Lucky, Shown, Cipher.Lawful, Codec.Lawful, Outside, Stands, ParityStays, Only, Covered,
           AllHealthy, Agrees, Parity, Mended;
      ok := Verify(row, DataOf(job.flat, row));
      OutsideStays(job.grid, old(grid), grid, job.first, row);
      if Smooth(job) && Covered() && Stands(job.grid, job.flat) {
        EnterStands(old(grid), grid, row, job.flat);
        VisitStands(job.grid, old(grid), grid, row, job.flat);
        MendedMore(old(grid), grid, job.flat, job.first, row);
      }
    }

    lemma VisitStands(start: Grid, before: Grid, after: Grid, row: nat, flat: Block)
      requires Fixed() && InGrid(after) && row < cache.remote.rows && SameOtherRows(before, after, row)
               && ParityStays(start, before)
      requires StandsBut(after, flat, row)
               && (if AllHealthy(row) then after == before else HoldsCodeword(after, row, DataOf(flat, row)))
      ensures Stands(after, flat) && RowData(after, row) == DataOf(flat, row) && ParityStays(start, after)
    {
      CodewordStands(after, flat, row);
      forall r: nat | Parity(start, r) ensures Parity(after, r) {
        assert Parity(before, r);
        if r != row {
          ParityKept(before, after, row, r);
        }
      }
    }

    /** What has been read so far is right. */
    ghost predicate ReadFits(job: Job, data: Block, gone: set<Cell>)
      requires Shape().Valid()
      reads this, cache, cache.remote
    {
      && (Healthy() && AgreesBut(job.grid, job.flat, job.taint) ==>
            BytesFit(data, job.flat, job.offset, job.taint + gone))
      && (Smooth(job) && Covered() && Stands(job.grid, job.flat) ==> BytesFit(data, job.flat, job.offset, {}))
    }

    /** One round of the loop of ReadDecrypt. */
    method ReadRound(row: nat, column: nat, offset: nat, count: nat, ghost job: Job, ghost before: set<Cell>,
                     ghost sofar: Block)
      returns (ok: bool, bytes: Block, ghost gone: set<Cell>)
      requires Fixed() && row < cache.remote.rows && column < dataCount && offset + count <= BlockSize()
      requires Seen(job, row, before, true) && |job.flat| == Shape().Capacity() && ReadFits(job, sofar, before)
      requires Shape().Position(row, column, offset) == job.offset + |sofar|
      modifies this, cache, cache.remote
      ensures Later() && Seen(job, row, gone, true) && (ok ==> |bytes| == count) && (!ok ==> !Smooth(job))
      ensures ok ==> ReadFits(job, sofar + bytes, gone)
    {
      hide Cache.Valid, Cache.Lucky, Shown, Cipher.Lawful, Codec.Lawful, Only, InRow, Outside, Stands, ParityStays,
           Parity, Covered, Healthy, Geometry.Position, Sealed, AgreesBut, BytesFit, Mended;
      ghost var more;
      SealedBytes(job.flat, row, column, offset, count);
      ok, bytes, more := GetBytes(row, column, offset, count);
      OnlyInRow(old(grid), grid, more, row);
      OutsideStays(job.grid, old(grid), grid, job.first, row);
      Unions(before, more, row);
      gone := before + more;
      if Healthy() {
        OnlyThen(job.grid, old(grid), grid, before, more);
        SameCell(job.grid, old(grid), before, row, column);
        if ok && AgreesBut(job.grid, job.flat, job.taint) {
          CellAgrees(job.grid, job.flat, job.taint, row, column);
          FitMore(sofar, job.flat, job.offset, job.taint + before, bytes, job.taint + gone, row, column, offset);
        }
      }
      if Smooth(job) {
        Untouched(old(grid), grid);
        if ok && Covered() && Stands(job.grid, job.flat) {
          assert RowData(old(grid), row)[column] == DataOf(job.flat, row)[column];
          FitMore(sofar, job.flat, job.offset, {}, bytes, {}, row, column, offset);
        }
      }
    }

    lemma CellAgrees(g: Grid, flat: Block, taint: set<Cell>, row: nat, column: nat)
      requires AgreesBut(g, flat, taint) && row < cache.remote.rows && column < dataCount
      ensures (row, column) !in taint ==> CellHolds(g, flat, row, column)
    {
    }

    lemma SameCell(before: Grid, after: Grid, gone: set<Cell>, row: nat, column: nat)
      requires Only(before, after, gone) && (row, column) in after
      ensures (row, column) in before && ((row, column) !in gone ==> after[(row, column)] == before[(row, column)])
    {
    }

    /** The cell after this one; a new row is verified first. */
    method MoveOn(row: nat, column: nat, ghost job: Job, ghost gone: set<Cell>)
      returns (ok: bool, row': nat, column': nat)
      requires Fixed() && row < cache.remote.rows && column < dataCount && Seen(job, row, gone, true)
      requires Shape().Position(row, column, BlockSize()) < Shape().Capacity()
      modifies this, cache, cache.remote
      ensures Later() && Seen(job, row', gone, true) && row <= row'
      ensures row' < cache.remote.rows && column' < dataCount
      ensures Shape().Position(row', column', 0) == Shape().Position(row, column, BlockSize())
      ensures Healthy() ==> ok
      ensures Smooth(job) && Covered() && Stands(job.grid, job.flat) ==> ok
    {
      hide Cache.Valid, Cache.Lucky, Shown, Cipher.Lawful, Codec.Lawful, Outside, Stands, ParityStays, Only, Covered,
           Healthy, Mended;
      NextCell(row, column);
      ok, row', column' := true, row, column + 1;
      if column' == dataCount {
        row', column' := row + 1, 0;
        OutsideMore(job.grid, grid, job.first, row, row + 1);
        ok := VisitRow(row', job, gone);
      }
    }

    /** The loop of ReadDecrypt, from the cell and the offset in it where the range starts. */
    method ReadRange(size: nat, startRow: nat, startColumn: nat, startOffset: nat, ghost job: Job)
      returns (ok: bool, data: Block, ghost last: nat, ghost gone: set<Cell>)
      requires Fixed() && size > 0 && job.offset + size <= Shape().Capacity() && |job.flat| == Shape().Capacity()
      requires startRow < cache.remote.rows && startColumn < dataCount && startOffset < BlockSize()
      requires Shape().Position(startRow, startColumn, startOffset) == job.offset && Seen(job, startRow, {}, true)
      modifies this, cache, cache.remote
      ensures Later() && Seen(job, last, gone, true) && last <= Shape().RowOf(job.offset + size - 1)
      ensures ok ==> |data| == size && last == Shape().RowOf(job.offset + size - 1)
      ensures ok && Healthy() && AgreesBut(job.grid, job.flat, job.taint) ==>
                BytesFit(data, job.flat, job.offset, job.taint + gone)
      ensures Smooth(job) && Covered() && Stands(job.grid, job.flat) ==> ok && BytesFit(data, job.flat, job.offset, {})
      ensures Smooth(job) && Healthy() ==> ok
    {
      hide Cache.Valid, Cache.Lucky, Shown, Cipher.Lawful, Codec.Lawful, Outside, InGrid, AgreesBut, Stands,
           ParityStays, Only, Covered, Healthy, Geometry.RowOf, BytesFit, Mended;
      var row: nat, column: nat, blockOffset: nat := startRow, startColumn, startOffset;
      data, gone := [], {};
      NothingRead(job.flat, job.offset, job.taint);
      while true
        invariant Later() && |data| < size && Seen(job, row, gone, true) && ReadFits(job, data, gone)
        invariant row < cache.remote.rows && column < dataCount && blockOffset < BlockSize()
        invariant Shape().Position(row, column, blockOffset) == job.offset + |data|
        decreases size - |data|
      {
        LastRow(row, column, blockOffset, job.offset + |data|, job.offset + size - 1);
        last := row;
        var room := BlockSize() - blockOffset;
        var toRead := if size - |data| > room then room else size - |data|;
        var bytes;
        ok, bytes, gone := ReadRound(row, column, blockOffset, toRead, job, gone, data);
        if !ok {
          return;
        }
        data := data + bytes;
        if |data| == size {
          LastRow(row, column, blockOffset + toRead - 1, job.offset + size - 1, job.offset + size - 1);
          break;
        }
        ok, row, column := MoveOn(row, column, job, gone);
        blockOffset := 0;
        last := row;
        LastRow(row, column, 0, job.offset + |data|, job.offset + size - 1);
        if !ok {
          return;
        }
      }
    }

    lemma NothingRead(flat: Block, offset: nat, taint: set<Cell>)
      requires Shape().Valid() && offset <= |flat|
      ensures BytesFit([], flat, offset, taint + {}) && BytesFit([], flat, offset, {})
    {
    }

    /** Reads a range that lies in the volume. */
    method ReadWithin(size: nat, offset: nat, ghost flat: Block, ghost taint: set<Cell>)
      returns (ok: bool, data: Block, ghost gone: set<Cell>)
      requires Fixed() && Ready() && size > 0 && offset + size <= Shape().Capacity() && |flat| == Shape().Capacity()
      modifies this, cache, cache.remote
      ensures Ready() && Later() && Spared(gone, old(cache.faults), old(cache.wipes)) && (ok ==> |data| == size)
      ensures Outside(old(grid), grid, Shape().RowOf(offset), Shape().RowOf(offset + size - 1))
      ensures Healthy() ==> Only(old(grid), grid, gone)
      ensures ok && Healthy() && AgreesBut(old(grid), flat, taint) ==> BytesFit(data, flat, offset, taint + gone)
      ensures Trouble() == old(Trouble()) && Healthy() ==> ok
      ensures Trouble() == old(Trouble()) && Covered() && Stands(old(grid), flat) ==>
                && ok && BytesFit(data, flat, offset, {}) && Stands(grid, flat) && ParityStays(old(grid), grid)
                && Mended(grid, flat, Shape().RowOf(offset), Shape().RowOf(offset + size - 1) + 1)
    {
      hide Cache.Valid, Cache.Lucky, Shown, Cipher.Lawful, Codec.Lawful, InGrid, AgreesBut, Stands, ParityStays, Only,
           Covered, Healthy, Geometry.RowOf, BytesFit, Mended;
      var row, column, blockOffset := Locate(offset);
      ghost var job := Job(grid, flat, taint, offset, [], row, cache.faults, cache.wipes,
                           cache.remote.failures + cache.mishaps);
      ghost var last := row;
      SeenStart(job);
      LastRow(row, column, blockOffset, offset, offset + size - 1);
      data, gone := [], {};
      ok := VisitRow(row, job, {});
      if ok {
        ok, data, last, gone := ReadRange(size, row, column, blockOffset, job);
      }
      OutsideMore(job.grid, grid, row, last, Shape().RowOf(offset + size - 1));
    }

    lemma SeenStart(job: Job)
      requires Ready() && job.grid == grid
      requires job.faults == cache.faults && job.wipes == cache.wipes
               && job.others == cache.remote.failures + cache.mishaps
      ensures Seen(job, job.first, {}, false)
    {
    }

    /**
      Volume::ReadDecrypt. A range outside the volume is refused and changes nothing; no read changes a row outside
      its range, nor, if every cell verifies, any cell at all but lost ones. If every cell verifies and the cells
      hold an array, a successful read returns its bytes, except those of lost cells. Whichever cells verify, if no
      operation fails and the rows stand for an array that can be recovered, the read succeeds, returns its bytes,
      and leaves them standing for it, and every row of its range that did not verify holds its codeword.
     */
    method ReadDecrypt(size: nat, offset: nat, ghost flat: Block, ghost taint: set<Cell>)
      returns (ok: bool, data: Block, ghost gone: set<Cell>)
      requires Fixed() && Ready()
      modifies this, cache, cache.remote
      ensures Ready() && Later() && Spared(gone, old(cache.faults), old(cache.wipes)) && (ok ==> |data| == size)
      ensures size > 0 && offset + size > Shape().Capacity() ==> !ok && grid == old(grid) && gone == {}
      ensures size == 0 ==> ok && grid == old(grid) && gone == {}
      ensures size > 0 && offset + size <= Shape().Capacity() ==>
                Outside(old(grid), grid, Shape().RowOf(offset), Shape().RowOf(offset + size - 1))
      ensures Healthy() ==> Only(old(grid), grid, gone)
      ensures ok && size > 0 && Healthy() && AgreesBut(old(grid), flat, taint) ==>
                BytesFit(data, flat, offset, taint + gone)
      ensures Trouble() == old(Trouble()) && offset + size <= Shape().Capacity() && Healthy() ==> ok
      ensures Trouble() == old(Trouble()) && Covered() && Stands(old(grid), flat) ==>
                && (offset + size <= Shape().Capacity() ==> ok) && (ok && size > 0 ==> BytesFit(data, flat, offset, {}))
                && Stands(grid, flat) && ParityStays(old(grid), grid)
                && (ok && size > 0 ==> Mended(grid, flat, Shape().RowOf(offset), Shape().RowOf(offset + size - 1) + 1))
    {
      hide Cache.Valid, Cache.Lucky, Shown, Cipher.Lawful, Codec.Lawful, InGrid, Outside, Covered, Healthy,
           Geometry.RowOf, BytesFit, Mended;
      data, gone := [], {};
      if size == 0 {
        return true, [], {};
      }
      if offset >= Shape().Capacity() || size > Shape().Capacity() || offset + size > Shape().Capacity() {
        return false, [], {};
      }
      ghost var image := if |flat| == Shape().Capacity() then flat else Blank();
      ok, data, gone := ReadWithin(size, offset, image, taint);
    }
  }

  /** A write or read in progress: the state it began in, the array it began with, and what it is to put where. */
  datatype Job = Job(grid: Grid, flat: Block, taint: set<Cell>, offset: nat, data: Block, first: nat,
                     faults: nat, wipes: nat, others: nat)

  function Pieces(columns: seq<nat>, blocks: seq<Block>): (r: seq<Piece>)
    requires |blocks| == |columns|
    ensures |r| == |columns| && forall t :: 0 <= t < |r| ==> r[t] == Piece(columns[t], blocks[t])
  {
    seq(|columns|, t requires 0 <= t < |columns| => Piece(columns[t], blocks[t]))
  }

  /** The pieces with those at the given places replaced. */
  function Put(pieces: seq<Piece>, places: seq<nat>, news: seq<Piece>): (r: seq<Piece>)
    requires |news| == |places| && Ascending(places, |pieces|)
    ensures |r| == |pieces|
    ensures forall t :: 0 <= t < |places| ==> r[places[t]] == news[t]
    ensures forall i :: 0 <= i < |pieces| && i !in places ==> r[i] == pieces[i]
  {
    if places == [] then pieces
    else
      var n := |places| - 1;
      assert forall i :: i !in places ==> i !in places[..n];
      Put(pieces, places[..n], news[..n])[places[n] := news[n]]
  }

  ghost predicate PiecesSized(pieces: seq<Piece>, blockSize: nat) {
    forall i :: 0 <= i < |pieces| ==> |pieces[i].block| == blockSize
  }
}
