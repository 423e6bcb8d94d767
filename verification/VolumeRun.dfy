/**
  Whole runs of the volume: writes and reads of byte ranges, with flushes and evictions in between,
  against one flat array of bytes.
 */
module VolumeRun {
  import opened RowFile
  import opened RowCache
  import opened Layout
  import opened Grids
  import opened Codes
  import opened Volume

  /** A call of the volume's user, or something the cache's worker does by itself. */
  datatype Request = Put(data: Block, offset: nat) | Get(size: nat, offset: nat) | FlushRows(force: bool) | DropRow

  datatype Reply = Failed | Done(data: Block)

  predicate InRange(request: Request, capacity: nat) {
    match request
    case Put(data, offset) => data == [] || offset + |data| <= capacity
    case Get(size, offset) => size == 0 || offset + size <= capacity
    case _ => true
  }

  /** The array after a request that got n bytes written. */
  function Effect(flat: Block, request: Request, n: nat): (r: Block)
    ensures |r| == |flat|
  {
    if request.Put? && n <= |request.data| && request.offset + |request.data| <= |flat|
    then Overlay(flat, request.offset, request.data[..n]) else flat
  }

  function After(flat: Block, requests: seq<Request>, progress: seq<nat>): (r: Block)
    requires |progress| == |requests|
    ensures |r| == |flat|
  {
    if requests == [] then flat
    else var n := |requests| - 1; Effect(After(flat, requests[..n], progress[..n]), requests[n], progress[n])
  }

  // ---- The flat array, byte by byte ----

  /** The request writes byte k of the array, n bytes of it having been written. */
  predicate Covers(request: Request, n: nat, k: nat, capacity: nat) {
    && request.Put? && n <= |request.data| && request.offset + |request.data| <= capacity
    && request.offset <= k < request.offset + n
  }

  lemma EffectAt(flat: Block, request: Request, n: nat, k: nat)
    requires k < |flat|
    ensures Effect(flat, request, n)[k] ==
            if Covers(request, n, k, |flat|) then request.data[k - request.offset] else flat[k]
  {
  }

  /** A byte holds what the last request covering it put there, and otherwise what it held before. */
  lemma {:induction false} LastWriteWins(flat: Block, requests: seq<Request>, progress: seq<nat>, k: nat, last: nat)
    requires |progress| == |requests| && k < |flat| && last <= |requests|
    requires forall i :: last <= i < |requests| ==> !Covers(requests[i], progress[i], k, |flat|)
    requires last > 0 ==> Covers(requests[last - 1], progress[last - 1], k, |flat|)
    ensures After(flat, requests, progress)[k] ==
            if last == 0 then flat[k] else requests[last - 1].data[k - requests[last - 1].offset]
  {
    hide Effect, Covers;
    if requests != [] {
      var n := |requests| - 1;
      EffectAt(After(flat, requests[..n], progress[..n]), requests[n], progress[n], k);
      if last < |requests| {
        LastWriteWins(flat, requests[..n], progress[..n], k, last);
      }
    }
  }

  // ---- What may be answered ----

  /** Reads see the array, except for bytes of lost cells, and a write that succeeds is whole. */
  ghost predicate Fits(v: Volume, flat: Block, request: Request, reply: Reply, n: nat, gone: set<Cell>)
    requires v.Fixed()
  {
    && (reply.Done? ==> InRange(request, v.Shape().Capacity()))
    && (request.Put? && reply.Done? ==> n == |request.data|)
    && (request.Put? && !InRange(request, v.Shape().Capacity()) ==> n == 0)
    && (request.Get? && reply.Done? ==>
          |reply.data| == request.size && (request.size > 0 ==> v.BytesFit(reply.data, flat, request.offset, gone)))
  }

  /** Every reply fits the array as the requests before it left it, except for the cells excused then. */
  ghost predicate Explained(v: Volume, flat: Block, requests: seq<Request>, replies: seq<Reply>, progress: seq<nat>,
                            taints: seq<set<Cell>>)
    requires v.Fixed()
  {
    && |replies| == |progress| == |taints| == |requests|
    && forall i :: 0 <= i < |requests| ==>
         Fits(v, After(flat, requests[..i], progress[..i]), requests[i], replies[i], progress[i], taints[i])
  }

  lemma ExplainedMore(v: Volume, flat: Block, requests: seq<Request>, i: nat, replies: seq<Reply>, progress: seq<nat>,
                      taints: seq<set<Cell>>, reply: Reply, n: nat, taint: set<Cell>)
    requires v.Fixed() && i < |requests| && Explained(v, flat, requests[..i], replies, progress, taints)
    requires Fits(v, After(flat, requests[..i], progress), requests[i], reply, n, taint)
    ensures Explained(v, flat, requests[..i + 1], replies + [reply], progress + [n], taints + [taint])
    ensures After(flat, requests[..i + 1], progress + [n]) ==
              Effect(After(flat, requests[..i], progress), requests[i], n)
  {
    hide Fits, Effect, After;
    AfterMore(flat, requests, i, progress, n);
    var rs, ps, answers, excused := requests[..i + 1], progress + [n], replies + [reply], taints + [taint];
    forall j | 0 <= j < |rs| ensures Fits(v, After(flat, rs[..j], ps[..j]), rs[j], answers[j], ps[j], excused[j]) {
      if j < i {
        assert rs[..j] == requests[..i][..j] && ps[..j] == progress[..j];
      } else {
        assert rs[..j] == requests[..i] && ps[..j] == progress;
      }
    }
  }

  lemma AfterMore(flat: Block, requests: seq<Request>, i: nat, progress: seq<nat>, n: nat)
    requires i < |requests| && |progress| == i
    ensures After(flat, requests[..i + 1], progress + [n]) ==
              Effect(After(flat, requests[..i], progress), requests[i], n)
  {
    hide Effect;
    assert requests[..i + 1][..i] == requests[..i] && (progress + [n])[..i] == progress;
  }

  // ---- Which cells are excused ----

  /** After a request: those from before, but for the ones it wrote whole, and those it lost. */
  ghost function Excused(v: Volume, before: set<Cell>, request: Request, n: nat, lost: set<Cell>): set<Cell> {
    (if request.Put? then v.Dropped(before, request.offset, n) else before) + lost
  }

  ghost function Latest(taints: seq<set<Cell>>): set<Cell> {
    if taints == [] then {} else taints[|taints| - 1]
  }

  /** The cells excused after each request, given those that each lost. At first there are none. */
  ghost predicate Traced(v: Volume, requests: seq<Request>, progress: seq<nat>, lost: seq<set<Cell>>,
                         taints: seq<set<Cell>>) {
    && |progress| == |lost| == |taints| == |requests|
    && forall i :: 0 <= i < |requests| ==>
         taints[i] == Excused(v, Latest(taints[..i]), requests[i], progress[i], lost[i])
  }

  lemma TracedMore(v: Volume, requests: seq<Request>, i: nat, progress: seq<nat>, lost: seq<set<Cell>>,
                   taints: seq<set<Cell>>, n: nat, more: set<Cell>)
    requires i < |requests| && Traced(v, requests[..i], progress, lost, taints)
    ensures var taint := Excused(v, Latest(taints), requests[i], n, more);
            Traced(v, requests[..i + 1], progress + [n], lost + [more], taints + [taint])
  {
    hide Excused;
    var taint := Excused(v, Latest(taints), requests[i], n, more);
    var rs, ps, losses, excused := requests[..i + 1], progress + [n], lost + [more], taints + [taint];
    forall j | 0 <= j < |rs| ensures excused[j] == Excused(v, Latest(excused[..j]), rs[j], ps[j], losses[j]) {
      if j < i {
        assert excused[..j] == taints[..j] && rs[j] == requests[..i][j];
      } else {
        assert excused[..j] == taints;
      }
    }
  }

  function Count(lost: seq<set<Cell>>): nat {
    if lost == [] then 0 else Count(lost[..|lost| - 1]) + |lost[|lost| - 1]|
  }

  /** Unless a dirty row's file was emptied, no more cells were lost than dirty rows' files failed to open. */
  ghost predicate AllSpared(v: Volume, lost: seq<set<Cell>>, faults: nat, wipes: nat)
    reads v.cache
  {
    v.cache.wipes == wipes ==> Count(lost) <= v.cache.faults - faults
  }

  ghost function NoTaints(n: nat): seq<set<Cell>> { seq(n, _ => {}) }

  /** Exactly the requests inside the volume have been served. */
  ghost predicate ServedInRange(requests: seq<Request>, replies: seq<Reply>, capacity: nat) {
    |replies| == |requests| && forall i :: 0 <= i < |requests| ==>
      (replies[i].Done? <==> InRange(requests[i], capacity))
  }

  /** No write inside the volume has failed. */
  ghost predicate NoWriteFailed(requests: seq<Request>, replies: seq<Reply>, capacity: nat) {
    |replies| == |requests| &&
    forall i :: 0 <= i < |requests| ==> requests[i].Put? && InRange(requests[i], capacity) ==> replies[i].Done?
  }

  // ---- Parity ----

  /** The request writes to the row. */
  predicate Reaches(shape: Geometry, request: Request, r: nat)
    requires shape.Valid()
  {
    && request.Put? && request.data != [] && InRange(request, shape.Capacity())
    && shape.RowOf(request.offset) <= r <= shape.RowOf(request.offset + |request.data| - 1)
  }

  predicate Reached(shape: Geometry, requests: seq<Request>, r: nat)
    requires shape.Valid()
  {
    exists i :: 0 <= i < |requests| && Reaches(shape, requests[i], r)
  }

  /** The request reads from the row. */
  predicate Visits(shape: Geometry, request: Request, r: nat)
    requires shape.Valid()
  {
    && request.Get? && request.size > 0 && InRange(request, shape.Capacity())
    && shape.RowOf(request.offset) <= r <= shape.RowOf(request.offset + request.size - 1)
  }

  predicate Visited(shape: Geometry, requests: seq<Request>, r: nat)
    requires shape.Valid()
  {
    exists i :: 0 <= i < |requests| && Visits(shape, requests[i], r)
  }

  /** The rows that had parity, those the requests write to, and of those they read the ones to be repaired have it. */
  ghost predicate ParityKept(v: Volume, before: Grid, after: Grid, requests: seq<Request>)
    requires v.Fixed()
  {
    forall r: nat {:trigger HasParity(v, before, after, requests, r)} :: HasParity(v, before, after, requests, r)
  }

  ghost predicate HasParity(v: Volume, before: Grid, after: Grid, requests: seq<Request>, r: nat)
    requires v.Fixed()
  {
    v.Parity(before, r) || Reached(v.Shape(), requests, r) || (Visited(v.Shape(), requests, r) && !v.AllHealthy(r)) ==>
      v.Parity(after, r)
  }

  lemma ParityMore(v: Volume, start: Grid, before: Grid, after: Grid, requests: seq<Request>, i: nat)
    requires v.Fixed() && i < |requests|
    requires ParityKept(v, start, before, requests[..i]) && ParityKept(v, before, after, [requests[i]])
    ensures ParityKept(v, start, after, requests[..i + 1])
  {
    hide Reaches, Visits, Volume.AllHealthy;
    var shape, now := v.Shape(), requests[..i + 1];
    forall r: nat ensures HasParity(v, start, after, now, r) {
      assert HasParity(v, start, before, requests[..i], r) && HasParity(v, before, after, [requests[i]], r);
      if Reached(shape, now, r) {
        var j :| 0 <= j < i + 1 && Reaches(shape, now[j], r);
        assert j < i ==> Reaches(shape, requests[..i][j], r);
        assert j == i ==> Reaches(shape, [requests[i]][0], r);
      }
      if Visited(shape, now, r) {
        var j :| 0 <= j < i + 1 && Visits(shape, now[j], r);
        assert j < i ==> Visits(shape, requests[..i][j], r);
        assert j == i ==> Visits(shape, [requests[i]][0], r);
      }
    }
  }

  lemma PutParity(v: Volume, before: Grid, after: Grid, request: Request)
    requires v.Fixed() && request.Put? && request.data != [] && InRange(request, v.Shape().Capacity())
    requires var first, last := v.Shape().RowOf(request.offset), v.Shape().RowOf(request.offset + |request.data| - 1);
             Outside(before, after, first, last) && v.ParityFrom(after, first, last + 1)
    ensures ParityKept(v, before, after, [request])
  {
    hide Geometry.RowOf, Geometry.Capacity, Outside, Volume.Parity;
    var first, last := v.Shape().RowOf(request.offset), v.Shape().RowOf(request.offset + |request.data| - 1);
    forall r: nat ensures HasParity(v, before, after, [request], r) {
      if first <= r <= last {
        assert v.Parity(after, r);
      } else if v.Parity(before, r) {
        v.ParityOutside(before, after, first, last, r);
      }
    }
  }

  lemma NoWriteParity(v: Volume, before: Grid, after: Grid, request: Request)
    requires v.Fixed() && v.ParityStays(before, after)
    requires request.Put? ==> request.data == [] || !InRange(request, v.Shape().Capacity())
    requires request.Get? ==> request.size == 0 || !InRange(request, v.Shape().Capacity())
    ensures ParityKept(v, before, after, [request])
  {
    forall r: nat ensures HasParity(v, before, after, [request], r) {
      assert !Reaches(v.Shape(), request, r) && !Visits(v.Shape(), request, r);
    }
  }

  lemma GetParity(v: Volume, before: Grid, after: Grid, flat: Block, request: Request)
    requires v.Fixed() && v.ParityStays(before, after)
    requires request.Get? && request.size > 0 && InRange(request, v.Shape().Capacity())
    requires v.Mended(after, flat, v.Shape().RowOf(request.offset),
                      v.Shape().RowOf(request.offset + request.size - 1) + 1)
    ensures ParityKept(v, before, after, [request])
  {
    hide Geometry.RowOf, Geometry.Capacity, Volume.Parity, Volume.AllHealthy;
    forall r: nat ensures HasParity(v, before, after, [request], r) {
      assert !Reaches(v.Shape(), request, r);
      if Visits(v.Shape(), request, r) {
        assert v.MendedRow(after, flat, r);
      }
    }
  }

  lemma ParityStart(v: Volume, grid: Grid)
    requires v.Fixed()
    ensures ParityKept(v, grid, grid, []) && v.ParityStays(grid, grid)
  {
    forall r: nat ensures HasParity(v, grid, grid, [], r) {
    }
  }

  // ---- Serving ----

  /** Something the cache's worker does between requests: a flush, or an eviction. It changes no cell. */
  method Background(v: Volume, flush: bool, force: bool)
    requires v.Ready() && v.cached
    modifies v, v.cache, v.cache.remote
    ensures v.Ready() && v.Later() && v.grid == old(v.grid)
    ensures v.cache.faults == old(v.cache.faults) && v.cache.wipes == old(v.cache.wipes)
  {
    hide Cache.Lucky, AllFormed, CleanBut, Held, Agree, InTimeOrder, AllBefore, Report.Explains, Shown, SameView;
    if flush {
      ghost var report;
      var all;
      all, report := v.cache.Flush(force);
    } else {
      ghost var place := v.cache.Pop();
    }
    v.Look();
    SameGrid(old(v.cache.files), old(v.cache.remote.cells), old(v.grid), v.cache.files, v.cache.remote.cells, v.grid);
  }

  lemma SameGrid(files: map<nat, seq<Record>>, cells: Grid, grid: Grid, files': map<nat, seq<Record>>, cells': Grid,
                 grid': Grid)
    requires Shown(files, cells, grid) && Shown(files', cells', grid') && cells'.Keys == cells.Keys
    requires SameView(files, cells, files', cells')
    ensures grid' == grid
  {
    forall k: Cell | k in grid ensures grid'[k] == grid[k] {
      assert ShownAt(files, cells, grid, k) && ShownAt(files', cells', grid', k);
    }
  }

  /** What one request does, if every cell verifies: to the array and to what is read, except for lost cells. */
  ghost predicate Fair(v: Volume, after: Grid, flat: Block, request: Request, reply: Reply, n: nat, gone: set<Cell>)
    requires v.Fixed()
  {
    v.AgreesBut(after, Effect(flat, request, n), gone) && Fits(v, flat, request, reply, n, gone)
  }

  /** What one request does, if nothing fails and the rows stand for the array. */
  ghost predicate Fine(v: Volume, before: Grid, after: Grid, flat: Block, request: Request, reply: Reply, n: nat)
    requires v.Fixed()
  {
    && v.Stands(after, Effect(flat, request, n)) && Fits(v, flat, request, reply, n, {})
    && (reply.Done? <==> InRange(request, v.Shape().Capacity())) && ParityKept(v, before, after, [request])
  }

  method HandlePut(v: Volume, request: Request, ghost flat: Block, ghost taint: set<Cell>)
    returns (reply: Reply, ghost n: nat, ghost gone: set<Cell>)
    requires v.Fixed() && v.Ready() && request.Put?
    modifies v, v.cache, v.cache.remote
    ensures v.Ready() && v.Later() && v.Spared(gone, old(v.cache.faults), old(v.cache.wipes))
    ensures v.Healthy() && v.AgreesBut(old(v.grid), flat, taint)
            && (v.cached || (InRange(request, v.Shape().Capacity()) ==> reply.Done?)) ==>
              Fair(v, v.grid, flat, request, reply, n, Excused(v, taint, request, n, gone))
    ensures v.Trouble() == old(v.Trouble()) && v.Covered() && v.Stands(old(v.grid), flat) ==>
              Fine(v, old(v.grid), v.grid, flat, request, reply, n)
  {
    hide Cache.Valid, Cache.Lucky, Shown, ParityKept, Outside, Cipher.Lawful, Codec.Lawful, Volume.ParityFrom,
         Volume.Stands, Volume.AgreesBut, Volume.Healthy, Volume.Covered;
    var ok;
    ok, n, gone := v.WriteEncrypt(request.data, request.offset, flat, taint);
    reply := if ok then Done([]) else Failed;
    EffectIsProgress(v, flat, request, n);
    ParityStart(v, v.grid);
    v.NoneDropped(taint, request.offset);
    if request.data == [] || !v.Within(request.data, request.offset) {
      NoWriteParity(v, v.grid, v.grid, request);
      assert taint + gone == taint;
    } else if v.Trouble() == old(v.Trouble()) && ok {
      PutParity(v, old(v.grid), v.grid, request);
    }
  }

  lemma EffectIsProgress(v: Volume, flat: Block, request: Request, n: nat)
    requires request.Put?
    ensures Effect(flat, request, n) == v.Progress(flat, request.offset, request.data, n)
    ensures request.data == [] || n == 0 || request.offset + |request.data| > |flat| ==>
              Effect(flat, request, n) == flat
  {
  }

  method HandleGet(v: Volume, request: Request, ghost flat: Block, ghost taint: set<Cell>)
    returns (reply: Reply, ghost gone: set<Cell>)
    requires v.Fixed() && v.Ready() && request.Get?
    modifies v, v.cache, v.cache.remote
    ensures v.Ready() && v.Later() && v.Spared(gone, old(v.cache.faults), old(v.cache.wipes))
    ensures v.Healthy() && v.AgreesBut(old(v.grid), flat, taint) ==>
              Fair(v, v.grid, flat, request, reply, 0, taint + gone)
    ensures v.Trouble() == old(v.Trouble()) && v.Covered() && v.Stands(old(v.grid), flat) ==>
              Fine(v, old(v.grid), v.grid, flat, request, reply, 0)
  {
    hide Cache.Valid, Cache.Lucky, Shown, ParityKept, Outside, Cipher.Lawful, Codec.Lawful, Volume.ParityStays,
         Volume.Stands, Volume.AgreesBut, Volume.Healthy, Volume.Covered, Volume.BytesFit, Volume.Mended, Only;
    var ok, data;
    ok, data, gone := v.ReadDecrypt(request.size, request.offset, flat, taint);
    reply := if ok then Done(data) else Failed;
    if v.Healthy() && v.AgreesBut(old(v.grid), flat, taint) {
      OnlyAgrees(v, old(v.grid), v.grid, flat, taint, gone);
    }
    if v.Trouble() == old(v.Trouble()) && v.Covered() && v.Stands(old(v.grid), flat) {
      if request.size == 0 || !InRange(request, v.Shape().Capacity()) {
        NoWriteParity(v, old(v.grid), v.grid, request);
      } else {
        GetParity(v, old(v.grid), v.grid, flat, request);
      }
    }
  }

  lemma OnlyAgrees(v: Volume, before: Grid, after: Grid, flat: Block, taint: set<Cell>, gone: set<Cell>)
    requires Only(before, after, gone) && v.AgreesBut(before, flat, taint)
    ensures v.AgreesBut(after, flat, taint + gone)
  {
    forall r: nat, c: nat | r < v.cache.remote.rows && c < v.dataCount && (r, c) !in taint + gone
      ensures v.CellHolds(after, flat, r, c)
    {
      assert v.CellHolds(before, flat, r, c);
    }
  }

  /** One request. */
  method Handle(v: Volume, request: Request, ghost flat: Block, ghost taint: set<Cell>)
    returns (reply: Reply, ghost n: nat, ghost gone: set<Cell>)
    requires v.Fixed() && v.Ready()
    modifies v, v.cache, v.cache.remote
    ensures v.Ready() && v.Later() && v.Spared(gone, old(v.cache.faults), old(v.cache.wipes))
    ensures v.Healthy() && v.AgreesBut(old(v.grid), flat, taint)
            && (v.cached || (request.Put? && InRange(request, v.Shape().Capacity()) ==> reply.Done?)) ==>
              Fair(v, v.grid, flat, request, reply, n, Excused(v, taint, request, n, gone))
    ensures v.Trouble() == old(v.Trouble()) && v.Covered() && v.Stands(old(v.grid), flat) ==>
              Fine(v, old(v.grid), v.grid, flat, request, reply, n)
  {
    hide Cache.Valid, Cache.Lucky, Shown, ParityKept, Cipher.Lawful, Codec.Lawful, Volume.Stands, Volume.AgreesBut,
         Volume.Healthy, Volume.Covered;
    n, gone := 0, {};
    assert taint + {} == taint;
    if request.Put? {
      reply, n, gone := HandlePut(v, request, flat, taint);
    } else if request.Get? {
      reply, gone := HandleGet(v, request, flat, taint);
    } else {
      if v.cached {
        Background(v, request.FlushRows?, request.FlushRows? && request.force);
      }
      reply := Done([]);
      ParityStart(v, v.grid);
      NoWriteParity(v, v.grid, v.grid, request);
    }
  }

  /**
    Any run of requests. If every cell verifies, then whatever fails, unless it is a write of a volume without a
    cache: the cells hold what the writes put there, and reads return it, except for the cells excused at the time,
    which were lost before and not written whole since; unless a dirty row's file was emptied, no more cells are lost
    than such files failed to open, and none if no such file failed. Whichever cells verify, if nothing fails and the
    rows stand for an array that can be recovered: every read returns what the array then holds, the rows stand for
    what the writes made of it, exactly the requests inside the volume are served, and every row written to, read
    and repaired, or in parity before, is in parity. Nothing fails if nothing was going to.
   */
  method Serve(v: Volume, requests: seq<Request>, ghost flat: Block)
    returns (replies: seq<Reply>, ghost progress: seq<nat>, ghost lost: seq<set<Cell>>, ghost taints: seq<set<Cell>>)
    requires v.Fixed() && v.Ready()
    modifies v, v.cache, v.cache.remote
    ensures v.Ready() && v.Later() && |replies| == |progress| == |requests|
    ensures old(v.cache.Lucky()) ==> v.cache.Lucky() && v.Trouble() == old(v.Trouble())
    ensures Traced(v, requests, progress, lost, taints)
    ensures AllSpared(v, lost, old(v.cache.faults), old(v.cache.wipes))
    ensures v.Healthy() && (v.cached || NoWriteFailed(requests, replies, v.Shape().Capacity())) ==>
              && v.AgreesBut(v.grid, After(v.Flat(old(v.grid)), requests, progress), Latest(taints))
              && Explained(v, v.Flat(old(v.grid)), requests, replies, progress, taints)
              && (Latest(taints) == {} ==> v.Flat(v.grid) == After(v.Flat(old(v.grid)), requests, progress))
    ensures v.Trouble() == old(v.Trouble()) && v.Covered() && v.Stands(old(v.grid), flat) ==>
              && v.Stands(v.grid, After(flat, requests, progress))
              && Explained(v, flat, requests, replies, progress, NoTaints(|requests|))
              && ServedInRange(requests, replies, v.Shape().Capacity()) && ParityKept(v, old(v.grid), v.grid, requests)
  {
    hide Cache.Valid, Cache.Lucky, Shown, Cipher.Lawful, Codec.Lawful, Volume.InGrid, Going;
    replies, progress, lost, taints := [], [], [], [];
    ghost var image := if v.Healthy() then v.Flat(v.grid) else flat;
    ghost var run, done := Run(v.grid, image, v.cache.faults, v.cache.wipes, v.Trouble()), [];
    Start(v, run, flat);
    while |replies| < |requests|
      invariant |progress| == |replies| <= |requests| && v.Ready() && v.Later()
      invariant done == requests[..|replies|] && Going(v, run, done, replies, progress, lost, taints)
    {
      var reply; ghost var n, more, taint, i := 0, {}, {}, |replies|;
      reply, n, more, taint := ServeNext(v, run, requests, |replies|, replies, progress, lost, taints);
      replies, progress, done := replies + [reply], progress + [n], requests[..i + 1];
      lost, taints := lost + [more], taints + [taint];
    }
    assert done == requests;
    Finish(v, run, flat, requests, replies, progress, lost, taints);
  }

  /** A run in progress: the state it began in and the array it began with. */
  datatype Run = Run(grid: Grid, image: Block, faults: nat, wipes: nat, trouble: nat)

  /** What holds after some requests of a run. */
  ghost predicate Going(v: Volume, run: Run, done: seq<Request>, replies: seq<Reply>, progress: seq<nat>,
                        lost: seq<set<Cell>>, taints: seq<set<Cell>>)
    requires v.Fixed()
    reads v, v.cache, v.cache.remote
  {
    && |replies| == |progress| == |done| && Traced(v, done, progress, lost, taints)
    && AllSpared(v, lost, run.faults, run.wipes)
    && run.faults <= v.cache.faults && run.wipes <= v.cache.wipes && run.trouble <= v.Trouble()
    && (v.Healthy() && (v.cached || NoWriteFailed(done, replies, v.Shape().Capacity())) ==>
          v.AgreesBut(v.grid, After(run.image, done, progress), Latest(taints))
          && Explained(v, run.image, done, replies, progress, taints))
    && (v.Trouble() == run.trouble && v.Covered() && v.Stands(run.grid, run.image) ==>
          && v.Stands(v.grid, After(run.image, done, progress))
          && Explained(v, run.image, done, replies, progress, NoTaints(|done|))
          && ServedInRange(done, replies, v.Shape().Capacity()) && ParityKept(v, run.grid, v.grid, done))
  }

  method ServeNext(v: Volume, ghost run: Run, requests: seq<Request>, i: nat, ghost replies: seq<Reply>,
                   ghost progress: seq<nat>, ghost lost: seq<set<Cell>>, ghost taints: seq<set<Cell>>)
    returns (reply: Reply, ghost n: nat, ghost more: set<Cell>, ghost taint: set<Cell>)
    requires v.Fixed() && v.Ready() && i < |requests|
    requires Going(v, run, requests[..i], replies, progress, lost, taints)
    modifies v, v.cache, v.cache.remote
    ensures v.Ready() && v.Later()
    ensures Going(v, run, requests[..i + 1], replies + [reply], progress + [n], lost + [more], taints + [taint])
  {
    hide Cache.Valid, Cache.Lucky, Shown, Cipher.Lawful, Codec.Lawful, Volume.InGrid, ParityKept, Volume.Stands,
         Volume.AgreesBut, Volume.Healthy, Volume.Covered, Explained, ServedInRange, Effect, Fits, NoWriteFailed, Fair,
         Fine, InRange, Traced, Excused;
    reply, n, more := Handle(v, requests[i], After(run.image, requests[..i], progress), Latest(taints));
    taint := Excused(v, Latest(taints), requests[i], n, more);
    TracedMore(v, requests, i, progress, lost, taints, n, more);
    assert (lost + [more])[..|lost|] == lost;
    WroteMore(requests, i, replies, reply, v.Shape().Capacity());
    Step(v, run.grid, old(v.grid), v.grid, run.image, requests, i, replies, progress, taints, reply, n, taint,
         v.Healthy() && (v.cached || NoWriteFailed(requests[..i + 1], replies + [reply], v.Shape().Capacity())),
         v.Trouble() == run.trouble && v.Covered() && v.Stands(run.grid, run.image));
  }

  lemma WroteMore(requests: seq<Request>, i: nat, replies: seq<Reply>, reply: Reply, capacity: nat)
    requires i < |requests| && |replies| == i
    ensures NoWriteFailed(requests[..i + 1], replies + [reply], capacity) ==>
              NoWriteFailed(requests[..i], replies, capacity)
              && (requests[i].Put? && InRange(requests[i], capacity) ==> reply.Done?)
  {
    var rs, answers := requests[..i + 1], replies + [reply];
    if NoWriteFailed(rs, answers, capacity) {
      assert rs[i] == requests[i] && answers[i] == reply;
      forall j | 0 <= j < i && requests[..i][j].Put? && InRange(requests[..i][j], capacity) ensures replies[j].Done? {
        assert rs[j] == requests[..i][j] && answers[j] == replies[j];
      }
    }
  }

  lemma Finish(v: Volume, run: Run, flat: Block, requests: seq<Request>, replies: seq<Reply>, progress: seq<nat>,
               lost: seq<set<Cell>>, taints: seq<set<Cell>>)
    requires v.Fixed() && v.InGrid(v.grid) && v.InGrid(run.grid)
             && run.image == (if v.Healthy() then v.Flat(run.grid) else flat)
    requires Going(v, run, requests, replies, progress, lost, taints)
    ensures |replies| == |progress| == |requests| && Traced(v, requests, progress, lost, taints)
    ensures AllSpared(v, lost, run.faults, run.wipes)
    ensures v.Healthy() && (v.cached || NoWriteFailed(requests, replies, v.Shape().Capacity())) ==>
              && v.AgreesBut(v.grid, After(v.Flat(run.grid), requests, progress), Latest(taints))
              && Explained(v, v.Flat(run.grid), requests, replies, progress, taints)
              && (Latest(taints) == {} ==> v.Flat(v.grid) == After(v.Flat(run.grid), requests, progress))
    ensures v.Trouble() == run.trouble && v.Covered() && v.Stands(run.grid, flat) ==>
              && v.Stands(v.grid, After(flat, requests, progress))
              && Explained(v, flat, requests, replies, progress, NoTaints(|requests|))
              && ServedInRange(requests, replies, v.Shape().Capacity()) && ParityKept(v, run.grid, v.grid, requests)
  {
    hide Explained, ServedInRange, ParityKept, Volume.AgreesBut, Volume.Stands, Volume.Covered, NoWriteFailed, Traced;
    if v.Healthy() {
      v.StandsIsFlat(run.grid, flat);
      if (v.cached || NoWriteFailed(requests, replies, v.Shape().Capacity())) && Latest(taints) == {} {
        v.AgreesIsFlat(v.grid, After(run.image, requests, progress));
      }
    }
  }

  lemma Start(v: Volume, run: Run, flat: Block)
    requires v.Fixed() && v.InGrid(v.grid)
    requires var image := if v.Healthy() then v.Flat(v.grid) else flat;
             run == Run(v.grid, image, v.cache.faults, v.cache.wipes, v.Trouble())
    ensures Going(v, run, [], [], [], [], [])
  {
    ParityStart(v, v.grid);
    v.FlatAgrees(v.grid);
  }

  /** One more request of a run. */
  lemma Step(v: Volume, start: Grid, before: Grid, after: Grid, image: Block, requests: seq<Request>, i: nat,
             replies: seq<Reply>, progress: seq<nat>, taints: seq<set<Cell>>, reply: Reply, n: nat, taint: set<Cell>,
             fair: bool, fine: bool)
    requires v.Fixed() && i < |requests| && |replies| == |progress| == i
    requires var now := After(image, requests[..i], progress);
             && (fair ==>
                   Fair(v, after, now, requests[i], reply, n, taint)
                   && Explained(v, image, requests[..i], replies, progress, taints))
             && (fine ==>
                   Fine(v, before, after, now, requests[i], reply, n)
                   && Explained(v, image, requests[..i], replies, progress, NoTaints(i))
                   && ServedInRange(requests[..i], replies, v.Shape().Capacity())
                   && ParityKept(v, start, before, requests[..i]))
    ensures var now, done := After(image, requests[..i + 1], progress + [n]), requests[..i + 1];
            && (fair ==>
                  v.AgreesBut(after, now, taint)
                  && Explained(v, image, done, replies + [reply], progress + [n], taints + [taint]))
            && (fine ==>
                  v.Stands(after, now) && Explained(v, image, done, replies + [reply], progress + [n], NoTaints(i + 1))
                  && ServedInRange(done, replies + [reply], v.Shape().Capacity())
                  && ParityKept(v, start, after, done))
  {
    hide Fits, Effect, Explained, ParityKept, Volume.AgreesBut, Volume.Stands, InRange;
    if fair {
      ExplainedMore(v, image, requests, i, replies, progress, taints, reply, n, taint);
    }
    if fine {
      ExplainedMore(v, image, requests, i, replies, progress, NoTaints(i), reply, n, {});
      assert NoTaints(i) + [{}] == NoTaints(i + 1);
      ParityMore(v, start, before, after, requests, i);
    }
  }
}
