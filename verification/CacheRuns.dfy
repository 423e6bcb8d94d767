/**
  Two runs of the cache in which it does harm: data is lost, and a flush claims to be complete.
 */
module CacheRuns {
  import opened Options
  import opened RowFile
  import opened RowCache
  import opened Luck

  /** Everything works, except that local files cannot be opened for reading. */
  function Unreadable(): Luck { Luck((e: Event, t) => e != OpenToRead, t => 0, t => []) }

  /** Everything works locally, and a request is always waiting. */
  function Busy(): Luck { Luck((e: Event, t) => true, t => 0, t => []) }

  /** No remote write succeeds. */
  function Offline(): Luck { Luck((e: Event, t) => e != RemoteWrite, t => 0, t => []) }

  method OneCell(luck: Luck) returns (remote: Remote)
    ensures fresh(remote) && remote.Valid() && remote.luck == luck
    ensures remote.rows == remote.columns == remote.blockSize == 1 && remote.cells == map[(0, 0) := [0]]
  {
    remote := new Remote(1, 1, 1, luck);
    var zero: Block := [0];
    assert forall k: Cell :: k.0 < 1 && k.1 < 1 <==> k == (0, 0);
    assert remote.cells[(0, 0)] == zero;
    assert remote.cells == map[(0, 0) := zero];
  }

  /** A cache of one row over a grid of one cell of one byte, and what was written to it. */
  method WriteSeven(remoteLuck: Luck, luck: Luck) returns (cache: Cache, wrote: bool)
    requires luck.Always(OpenToUpdate) && luck.Always(Create) && luck.Always(StoreRecord)
    ensures fresh(cache) && fresh(cache.remote) && cache.Valid() && cache.remote.luck == remoteLuck
            && cache.luck == luck
    ensures wrote && cache.remote.blockSize == 1 && cache.remote.columns == 1
            && cache.remote.cells == map[(0, 0) := [0]]
    ensures 0 in cache.files && cache.files[0] != [] && cache.items.Keys == {0} && IsDirty(cache.items, 0)
  {
    hide SameViewBut, ViewOf, AllFormed, CleanBut, RowCache.Held, InTimeOrder, AllBefore, Used, InRow;
    var remote := OneCell(remoteLuck);
    cache := new Cache(remote, 1, 0, luck);
    ghost var gone, how, mid;
    wrote, gone, how, mid := cache.Write(0, 0, [7], 0);
  }

  /** A block is written and read back, and both requests succeed, but what is read is not what was written. */
  method LosesData() returns (wrote: bool, read: bool, got: Block)
    ensures wrote && read && got == [0]
  {
    hide SameViewBut, AllFormed, CleanBut, RowCache.Held, InTimeOrder, AllBefore, Agree, Used, InRow, Replaced;
    var cache;
    ghost var gone, how;
    cache, wrote := WriteSeven(Busy(), Unreadable());
    read, got, gone, how := cache.Read(0, 0, 1, 0);
  }

  /** A flush whose only row could not be written says that all is flushed. */
  method ClaimsTooMuch() returns (all: bool, dirty: bool)
    ensures all && dirty
  {
    hide SameView, ViewOf, AllFormed, CleanBut, RowCache.Held, InTimeOrder, AllBefore, Report.Explains, OnlyCleaned;
    var cache, wrote := WriteSeven(Offline(), Busy());
    OneRow(cache.items, cache.timestamps);
    ghost var report;
    all, report := cache.Flush(true);
    dirty := 0 in cache.items && cache.items[0].dirty;
  }

  lemma OneRow(items: map<nat, Item>, ts: seq<Stamp>)
    requires Agree(items, ts) && items.Keys == {0}
    ensures |ts| == 1 && ts[0].row == 0
  {
    AgreeSize(items, ts);
    assert |items| == |items.Keys| == 1;
  }
}
