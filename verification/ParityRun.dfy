/**
  A run in which a row is encoded without having been read: the encoding succeeds and the row has no parity.
 */
module ParityRun {
  import opened RowFile
  import opened RowCache
  import opened Luck
  import opened Codes
  import opened Layout
  import opened Grids
  import opened Volume

  /** The remote cells can be written and not read. */
  function Deaf(): Luck { Luck((e: Event, t) => e != RemoteRead, t => 0, t => []) }

  /** A volume of one data cell, which holds a seven, and one code cell, with nothing cached. */
  method OneRow() returns (v: Volume)
    ensures fresh(v) && fresh(v.cache) && fresh(v.cache.remote) && v.Fixed() && v.Ready() && !v.cached
    ensures v.dataCount == v.codeCount == v.cache.remote.rows == v.BlockSize() == 1 && v.cache.remote.luck == Deaf()
    ensures (0, 0) in v.grid && v.grid[(0, 0)] == [7]
  {
    hide AllFormed, CleanBut, RowCache.Held, InTimeOrder, AllBefore, Agree, Codec.Lawful, Cipher.Lawful;
    var remote := new Remote(1, 2, 1, Deaf());
    var wrote := remote.WriteBlock(0, 0, [7]);
    var cache := new Cache(remote, 1, 0, Deaf());
    LawfulExists(1, 1);
    v := new Volume(cache, false, 1, 1, NoCipher(), XorCodec(1, 1), (row, column) => true);
  }

  method WrongParity() returns (v: Volume, ok: bool)
    ensures ok && v.Fixed() && v.Ready() && !v.Parity(v.grid, 0)
  {
    hide Cache.Valid, Shown, Volume.InGrid, Codec.Lawful, Cipher.Lawful, Volume.Parity, Cells, HoldsAt;
    v := OneRow();
    ghost var gone, unread, wrote, before := {}, {}, false, v.grid;
    ok, gone, unread, wrote := v.Encode(0);
    assert unread == {0};
    SameCell(v, before, v.grid);
    assert v.grid[(0, 0)][0] == 7 && v.Zeros()[0] == 0;
  }

  lemma SameCell(v: Volume, before: Grid, after: Grid)
    requires v.dataCount == 1 && v.RowData(after, 0) == v.RowData(before, 0) && (0, 0) in before && (0, 0) in after
    ensures after[(0, 0)] == before[(0, 0)]
  {
    assert v.RowData(after, 0)[0] == v.RowData(before, 0)[0];
  }
}
