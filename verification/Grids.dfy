/**
  What the cells of a volume show, and how two such pictures differ.
 */
module Grids {
  import opened Options
  import opened RowFile
  import opened RowCache

  /** The grid is what the cache shows. */
  ghost predicate Shown(files: map<nat, seq<Record>>, cells: Grid, grid: Grid) {
    && grid.Keys == cells.Keys
    && (forall k {:trigger ShownAt(files, cells, grid, k)} :: k in grid ==> ShownAt(files, cells, grid, k))
  }

  ghost predicate ShownAt(files: map<nat, seq<Record>>, cells: Grid, grid: Grid, k: Cell) {
    k in grid && ViewOf(files, cells, k.0, k.1) == Some(grid[k])
  }

  /** With nothing cached, cells show the remote blocks. */
  lemma Bare(cells: Grid, grid: Grid)
    requires Shown(map[], cells, grid)
    ensures grid == cells
  {
    forall k | k in grid ensures grid[k] == cells[k] {
      assert ShownAt(map[], cells, grid, k);
    }
  }

  ghost function Picture(files: map<nat, seq<Record>>, cells: Grid, blockSize: nat): (grid: Grid)
    requires AllFormed(files, blockSize) && forall k :: k in cells ==> |cells[k]| == blockSize
    ensures Shown(files, cells, grid)
  {
    assert forall k: Cell :: k in cells ==> ViewOf(files, cells, k.0, k.1).Some? by {
      forall k: Cell | k in cells ensures ViewOf(files, cells, k.0, k.1).Some? {
        GridIsShown(files, cells, k.0, k.1, blockSize);
      }
    }
    var grid := map k: Cell | k in cells :: ViewOf(files, cells, k.0, k.1).value;
    assert forall k :: k in grid ==> ShownAt(files, cells, grid, k);
    grid
  }

  /** The grids differ in these cells, at most. */
  ghost predicate Only(before: Grid, after: Grid, changed: set<Cell>) {
    && after.Keys == before.Keys
    && forall k :: k in after && k !in changed ==> after[k] == before[k]
  }

  lemma OnlyThen(a: Grid, b: Grid, c: Grid, x: set<Cell>, y: set<Cell>)
    requires Only(a, b, x) && Only(b, c, y)
    ensures Only(a, c, x + y)
  {
  }

  /** What views say of grids. */
  lemma ShownAfter(files: map<nat, seq<Record>>, cells: Grid, grid: Grid,
                   files': map<nat, seq<Record>>, cells': Grid, grid': Grid, changed: set<Cell>)
    requires Shown(files, cells, grid) && Shown(files', cells', grid') && cells'.Keys == cells.Keys
    requires SameViewBut(files, cells, files', cells', changed)
    ensures Only(grid, grid', changed)
  {
    forall k: Cell | k in grid && k !in changed ensures grid'[k] == grid[k] {
      assert ShownAt(files, cells, grid, k) && ShownAt(files', cells', grid', k);
    }
  }

  lemma CellShown(files: map<nat, seq<Record>>, cells: Grid, grid: Grid, row: nat, column: nat)
    requires Shown(files, cells, grid) && (row, column) in grid
    ensures ViewOf(files, cells, row, column) == Some(grid[(row, column)])
  {
    assert ShownAt(files, cells, grid, (row, column));
  }

  /** The grids differ in this row, at most. */
  ghost predicate SameOtherRows(before: Grid, after: Grid, row: nat) {
    after.Keys == before.Keys && forall k :: k in after && k.0 != row ==> after[k] == before[k]
  }

  lemma OnlyInRow(before: Grid, after: Grid, changed: set<Cell>, row: nat)
    requires Only(before, after, changed) && InRow(changed, row)
    ensures SameOtherRows(before, after, row)
  {
  }

  /** The grids differ in the rows from the first to the last, at most. */
  ghost predicate Outside(before: Grid, after: Grid, first: nat, last: nat) {
    after.Keys == before.Keys && forall k :: k in after && !(first <= k.0 <= last) ==> after[k] == before[k]
  }

  lemma OutsideStays(start: Grid, before: Grid, after: Grid, first: nat, row: nat)
    requires first <= row && Outside(start, before, first, row) && SameOtherRows(before, after, row)
    ensures Outside(start, after, first, row) && forall last :: row <= last ==> Outside(start, after, first, last)
  {
  }

  // ---- Cells of one row ----

  predicate Below(columns: seq<nat>, bound: nat) {
    forall i :: 0 <= i < |columns| ==> columns[i] < bound
  }

  predicate Ascending(columns: seq<nat>, bound: nat) {
    Below(columns, bound) && forall i, j :: 0 <= i < j < |columns| ==> columns[i] < columns[j]
  }

  ghost function Cells(row: nat, columns: seq<nat>): set<Cell> { set i | 0 <= i < |columns| :: (row, columns[i]) }

  /** The cells of the row in these columns hold these blocks. */
  ghost predicate HoldsAt(grid: Grid, row: nat, columns: seq<nat>, blocks: seq<Block>) {
    |blocks| == |columns| && forall i :: 0 <= i < |columns| ==>
      (row, columns[i]) in grid && grid[(row, columns[i])] == blocks[i]
  }

  /** So they do, except for cells that were lost. */
  ghost predicate HoldsBut(grid: Grid, row: nat, columns: seq<nat>, blocks: seq<Block>, gone: set<Cell>) {
    |blocks| == |columns| &&
    forall i :: 0 <= i < |columns| && (row, columns[i]) !in gone ==>
      (row, columns[i]) in grid && grid[(row, columns[i])] == blocks[i]
  }

  /** One more cell has been written. */
  lemma CellWritten(before: Grid, after: Grid, row: nat, columns: seq<nat>, blocks: seq<Block>, i: nat,
                    gone: set<Cell>, more: set<Cell>)
    requires |blocks| == |columns| && i < |columns|
             && (forall j, k :: 0 <= j < k < |columns| ==> columns[j] < columns[k])
    requires HoldsBut(before, row, columns[..i], blocks[..i], gone) && Only(before, after, more + {(row, columns[i])})
    requires (row, columns[i]) in after && after[(row, columns[i])] == blocks[i]
    ensures HoldsBut(after, row, columns[..i + 1], blocks[..i + 1], gone + more)
  {
  }

  /** The blocks read from these cells: zeros where one could not be read, and anything where one was lost. */
  ghost predicate GotBut(grid: Grid, row: nat, columns: seq<nat>, blocks: seq<Block>, zeros: Block, gone: set<Cell>,
                         unread: set<nat>) {
    && |blocks| == |columns| && (forall c :: c in unread ==> c in columns)
    && (forall i :: 0 <= i < |columns| ==> |blocks[i]| == |zeros|)
    && (forall i :: 0 <= i < |columns| ==>
          if columns[i] in unread then blocks[i] == zeros
          else (row, columns[i]) !in gone ==> (row, columns[i]) in grid && blocks[i] == grid[(row, columns[i])])
  }

  /** One more cell has been read, or not. */
  lemma GotMore(grid: Grid, before: Grid, row: nat, columns: seq<nat>, blocks: seq<Block>, block: Block, zeros: Block,
                gone: set<Cell>, more: set<Cell>, unread: set<nat>, read: bool)
    requires |blocks| < |columns| && (forall j, k :: 0 <= j < k < |columns| ==> columns[j] < columns[k])
    requires GotBut(grid, row, columns[..|blocks|], blocks, zeros, gone, unread) && |block| == |zeros|
    requires Only(grid, before, gone) && (row, columns[|blocks|]) in before
    requires if read then (row, columns[|blocks|]) !in more ==> block == before[(row, columns[|blocks|])]
             else block == zeros
    ensures GotBut(grid, row, columns[..|blocks| + 1], blocks + [block], zeros, gone + more,
                   if read then unread else unread + {columns[|blocks|]})
  {
    var n := |blocks|;
    assert columns[..n + 1] == columns[..n] + [columns[n]];
    assert columns[n] !in unread;
  }

  lemma GotAll(grid: Grid, row: nat, columns: seq<nat>, blocks: seq<Block>, zeros: Block, gone: set<Cell>,
               unread: set<nat>)
    requires GotBut(grid, row, columns, blocks, zeros, gone, unread)
    ensures |blocks| == |columns| && (forall c :: c in unread ==> c in columns)
    ensures forall i :: 0 <= i < |blocks| ==> |blocks[i]| == |zeros|
  {
  }
}
