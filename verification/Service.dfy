/**
  The cache as its callers see it: they put requests in the lock-free queue, any number of them at once, and the
  worker executes what it takes out. The requests are executed once each, in the order in which they were linked,
  which is one in which a request that was answered before another was made comes first, and the answers are those
  of an array of blocks to which they are put in that order.
 */
module Service {
  import opened Options
  import opened LockFreeQueue
  import opened RowFile
  import opened RowCache
  import opened Recency

  datatype Reply = Failed | Done(data: Block)

  predicate InBounds(request: Request, columns: nat, size: nat) {
    match request
    case Read(_, column, count, offset) => column < columns && count + offset <= size
    case Write(_, column, data, offset) => column < columns && |data| + offset <= size
  }

  // ---- An array of blocks ----

  /** What a cell shows after a request. */
  ghost function Next(shown: Option<Block>, request: Request, reply: Reply, cell: Cell, size: nat): Option<Block> {
    if request.Write? && reply.Done? && (request.row, request.column) == cell
    then NewBlock(shown, request.data, request.offset, size)
    else shown
  }

  ghost function CellAfter(shown: Option<Block>, requests: seq<Request>, replies: seq<Reply>, cell: Cell, size: nat)
    : Option<Block>
    requires |replies| == |requests|
  {
    if requests == [] then shown
    else
      var n := |requests| - 1;
      Next(CellAfter(shown, requests[..n], replies[..n], cell, size), requests[n], replies[n], cell, size)
  }

  /** A read that succeeds gives that part of what its cell shows. */
  ghost predicate Gives(shown: Option<Block>, request: Request, reply: Reply, size: nat) {
    request.Read? && reply.Done? ==>
      && BlockOf(shown, size) && request.offset + request.size <= size
      && reply.data == shown.value[request.offset..request.offset + request.size]
  }

  ghost predicate AllGive(files: map<nat, seq<Record>>, cells: Grid, requests: seq<Request>, replies: seq<Reply>,
                          size: nat)
  {
    && |replies| == |requests|
    && forall i :: 0 <= i < |requests| ==>
         var cell := (requests[i].row, requests[i].column);
         var shown := CellAfter(ViewOf(files, cells, cell.0, cell.1), requests[..i], replies[..i], cell, size);
         Gives(shown, requests[i], replies[i], size)
  }

  /** The cells show what the requests made of them. */
  ghost predicate AllShow(files: map<nat, seq<Record>>, cells: Grid, files': map<nat, seq<Record>>, cells': Grid,
                          requests: seq<Request>, replies: seq<Reply>, size: nat)
    requires |replies| == |requests|
  {
    forall r: nat, c: nat ::
      ViewOf(files', cells', r, c) == CellAfter(ViewOf(files, cells, r, c), requests, replies, (r, c), size)
  }

  ghost predicate AllServed(requests: seq<Request>, replies: seq<Reply>, columns: nat, size: nat) {
    |replies| == |requests| &&
    forall i :: 0 <= i < |requests| ==> (replies[i].Done? <==> InBounds(requests[i], columns, size))
  }

  // ---- One request ----

  method Execute(c: Cache, request: Request) returns (reply: Reply)
    requires c.Valid()
    modifies c, c.remote
    ensures c.Valid() && c.Later()
    ensures c.faults == old(c.faults) && c.wipes == old(c.wipes) ==>
              && Gives(old(c.View(request.row, request.column)), request, reply, c.remote.blockSize)
              && (forall r: nat, k: nat {:trigger c.View(r, k)} ::
                    c.View(r, k) == Next(old(c.View(r, k)), request, reply, (r, k), c.remote.blockSize))
    ensures c.remote.failures == old(c.remote.failures) && c.mishaps == old(c.mishaps) ==>
              (reply.Done? <==> InBounds(request, c.remote.columns, c.remote.blockSize))
    ensures request.row < c.remote.rows ==> c.Undisturbed()
  {
    hide Cache.Valid, Cache.Lucky, ViewOf, Replaced, Cache.Written, Overlay, Used;
    match request {
      case Read(row, column, size, offset) =>
        var ok, data, gone, how := c.Read(row, column, size, offset);
        reply := if ok then Done(data) else Failed;
      case Write(row, column, data, offset) =>
        var ok, gone, how, mid := c.Write(row, column, data, offset);
        reply := if ok then Done([]) else Failed;
    }
  }

  lemma CellMore(shown: Option<Block>, requests: seq<Request>, replies: seq<Reply>, request: Request, reply: Reply,
                 cell: Cell, size: nat)
    requires |replies| == |requests|
    ensures CellAfter(shown, requests + [request], replies + [reply], cell, size) ==
            Next(CellAfter(shown, requests, replies, cell, size), request, reply, cell, size)
  {
    assert (requests + [request])[..|requests|] == requests && (replies + [reply])[..|requests|] == replies;
  }

  lemma GiveMore(files: map<nat, seq<Record>>, cells: Grid, requests: seq<Request>, replies: seq<Reply>, size: nat,
                 request: Request, reply: Reply)
    requires AllGive(files, cells, requests, replies, size)
    requires var cell := (request.row, request.column);
             var shown := CellAfter(ViewOf(files, cells, cell.0, cell.1), requests, replies, cell, size);
             Gives(shown, request, reply, size)
    ensures AllGive(files, cells, requests + [request], replies + [reply], size)
  {
    hide ViewOf, CellAfter, Gives;
    var rs, answers := requests + [request], replies + [reply];
    forall i | 0 <= i < |rs|
      ensures var cell := (rs[i].row, rs[i].column);
              var shown := CellAfter(ViewOf(files, cells, cell.0, cell.1), rs[..i], answers[..i], cell, size);
              Gives(shown, rs[i], answers[i], size)
    {
      if i < |requests| {
        assert rs[..i] == requests[..i] && answers[..i] == replies[..i];
      } else {
        assert rs[..i] == requests && answers[..i] == replies;
      }
    }
  }

  lemma ShowMore(files: map<nat, seq<Record>>, cells: Grid, files1: map<nat, seq<Record>>, cells1: Grid,
                 files2: map<nat, seq<Record>>, cells2: Grid, requests: seq<Request>, replies: seq<Reply>, size: nat,
                 request: Request, reply: Reply)
    requires |replies| == |requests| && AllShow(files, cells, files1, cells1, requests, replies, size)
    requires forall r: nat, c: nat {:trigger ViewOf(files2, cells2, r, c)} ::
               ViewOf(files2, cells2, r, c) == Next(ViewOf(files1, cells1, r, c), request, reply, (r, c), size)
    ensures AllShow(files, cells, files2, cells2, requests + [request], replies + [reply], size)
  {
    hide ViewOf, CellAfter, Next;
    forall r: nat, c: nat
      ensures ViewOf(files2, cells2, r, c) ==
              CellAfter(ViewOf(files, cells, r, c), requests + [request], replies + [reply], (r, c), size)
    {
      CellMore(ViewOf(files, cells, r, c), requests, replies, request, reply, (r, c), size);
    }
  }

  // ---- The worker ----

  /** What the requests executed so far have done, if no dirty row's file failed; and which were served. */
  ghost predicate Served(files: map<nat, seq<Record>>, cells: Grid, files': map<nat, seq<Record>>, cells': Grid,
                         requests: seq<Request>, replies: seq<Reply>, size: nat) {
    && |replies| == |requests|
    && AllShow(files, cells, files', cells', requests, replies, size)
    && AllGive(files, cells, requests, replies, size)
  }

  /** One more request, the one the worker has taken out of the queue. */
  method Serve(c: Cache, request: Request, ghost files: map<nat, seq<Record>>, ghost cells: Grid,
               ghost requests: seq<Request>, ghost replies: seq<Reply>) returns (reply: Reply)
    requires c.Valid()
    modifies c, c.remote
    ensures c.Valid() && c.Later()
    ensures c.faults == old(c.faults) && c.wipes == old(c.wipes)
            && Served(files, cells, old(c.files), old(c.remote.cells), requests, replies, c.remote.blockSize) ==>
              Served(files, cells, c.files, c.remote.cells, requests + [request], replies + [reply], c.remote.blockSize)
    ensures c.remote.failures == old(c.remote.failures) && c.mishaps == old(c.mishaps) ==>
              (reply.Done? <==> InBounds(request, c.remote.columns, c.remote.blockSize))
    ensures request.row < c.remote.rows ==> c.Undisturbed()
  {
    hide Cache.Valid, Cache.Lucky, ViewOf, Gives, Next, AllGive, InBounds, CellAfter;
    reply := Execute(c, request);
    if c.faults == old(c.faults) && c.wipes == old(c.wipes)
       && Served(files, cells, old(c.files), old(c.remote.cells), requests, replies, c.remote.blockSize) {
      assert forall r: nat, k: nat {:trigger ViewOf(c.files, c.remote.cells, r, k)} ::
          ViewOf(c.files, c.remote.cells, r, k) == c.View(r, k);
      ShowMore(files, cells, old(c.files), old(c.remote.cells), c.files, c.remote.cells, requests, replies,
               c.remote.blockSize, request, reply);
      GiveMore(files, cells, requests, replies, c.remote.blockSize, request, reply);
    }
  }

  /** A flush between requests. Nobody sees it. */
  method Tidy(c: Cache, force: bool, ghost files: map<nat, seq<Record>>, ghost cells: Grid,
              ghost requests: seq<Request>, ghost replies: seq<Reply>)
    requires c.Valid()
    modifies c, c.remote
    ensures c.Valid() && c.Later() && c.Undisturbed()
    ensures Served(files, cells, old(c.files), old(c.remote.cells), requests, replies, c.remote.blockSize) ==>
              Served(files, cells, c.files, c.remote.cells, requests, replies, c.remote.blockSize)
  {
    hide Cache.Valid, Cache.Lucky, ViewOf, AllGive, CellAfter, Report.Explains;
    var _, _ := c.Flush(force);
  }

  /** A step of a caller or of the worker at the queue, or a flush by the worker. */
  datatype Deed = Step(a: Action<Request>) | Flush(force: bool)

  function Steps(deeds: seq<Deed>): seq<Action<Request>> {
    if deeds == [] then []
    else
      var d := deeds[|deeds| - 1];
      Steps(deeds[..|deeds| - 1]) + if d.Step? then [d.a] else []
  }

  lemma {:induction false} StepsGrow(deeds: seq<Deed>, i: nat)
    requires i <= |deeds|
    ensures Steps(deeds[..i]) <= Steps(deeds)
    decreases |deeds|
  {
    if i < |deeds| {
      StepsGrow(deeds[..|deeds| - 1], i);
      assert deeds[..|deeds| - 1][..i] == deeds[..i];
    } else {
      assert deeds[..i] == deeds;
    }
  }

  /** The requests are in the grid of the remote blocks. */
  ghost predicate AllAtHome(requests: seq<Request>, rows: nat) {
    forall i :: 0 <= i < |requests| ==> requests[i].row < rows
  }

  /**
    Any interleaving of callers and worker, which flushes in between. The worker executes what the queue returns,
    which is a first part of the link order. Unless the file of a dirty row failed, the cells show what these
    requests, put to an array of blocks in that order, make of it, and every read that succeeds gives what its cell
    then shows. If nothing else fails either, exactly the requests inside the bounds succeed; and nothing does if
    nothing was going to and no request is of a row that is not there.
   */
  method Work(c: Cache, deeds: seq<Deed>) returns (replies: seq<Reply>)
    requires c.Valid() && Run(Steps(deeds)).Some?
    modifies c, c.remote
    ensures c.Valid() && Returned(Steps(deeds)) <= LinkOrder(Steps(deeds))
    ensures c.faults == old(c.faults) && c.wipes == old(c.wipes) ==>
              Served(old(c.files), old(c.remote.cells), c.files, c.remote.cells, Returned(Steps(deeds)), replies,
                     c.remote.blockSize)
    ensures c.remote.failures == old(c.remote.failures) && c.mishaps == old(c.mishaps) ==>
              AllServed(Returned(Steps(deeds)), replies, c.remote.columns, c.remote.blockSize)
    ensures AllAtHome(Returned(Steps(deeds)), c.remote.rows) ==> c.Undisturbed()
  {
    hide Cache.Valid, Cache.Lucky, ViewOf, Served, Inv, Apply, Enabled, Links, InBounds, Returned, Run, LinkOrder;
    replies := [];
    var s: State<Request>, i := Init(), 0;
    ghost var acts: seq<Action<Request>> := [];
    ServedNone(c.files, c.remote.cells, c.remote.blockSize);
    RunNone<Request>();
    while i < |deeds|
      invariant 0 <= i <= |deeds| && acts == Steps(deeds[..i]) && Run(acts) == Some(s) && c.Valid() && c.Later()
      invariant |replies| == |Returned(acts)|
      invariant c.faults == old(c.faults) && c.wipes == old(c.wipes) ==>
                  Served(old(c.files), old(c.remote.cells), c.files, c.remote.cells, Returned(acts), replies,
                         c.remote.blockSize)
      invariant c.remote.failures == old(c.remote.failures) && c.mishaps == old(c.mishaps) ==>
                  AllServed(Returned(acts), replies, c.remote.columns, c.remote.blockSize)
      invariant AllAtHome(Returned(acts), c.remote.rows) ==> c.Undisturbed()
    {
      ghost var done, was := Returned(acts), acts;
      StepsGrow(deeds, i + 1);
      assert deeds[..i + 1][..i] == deeds[..i];
      match deeds[i] {
        case Flush(force) =>
          Tidy(c, force, old(c.files), old(c.remote.cells), done, replies);
        case Step(a) =>
          acts := acts + [a];
          assert Steps(deeds)[..|acts|] == acts;
          RunPrefix(Steps(deeds), |acts|);
          RunMore(was, a, s);
          assert done + [] == done;
          if a.Decrement? {
            var reply := Serve(c, s.consumer.result, old(c.files), old(c.remote.cells), done, replies);
            replies := replies + [reply];
            HomeMore(done, s.consumer.result, c.remote.rows);
          }
          s := Apply(s, a);
      }
      i := i + 1;
    }
    assert deeds[..|deeds|] == deeds;
    FirstInFirstOut(acts);
  }

  lemma HomeMore(requests: seq<Request>, request: Request, rows: nat)
    ensures AllAtHome(requests + [request], rows) <==> AllAtHome(requests, rows) && request.row < rows
  {
    var rs := requests + [request];
    if AllAtHome(rs, rows) {
      assert rs[|requests|] == request && forall i :: 0 <= i < |requests| ==> rs[i] == requests[i];
    }
  }

  lemma RunNone<T>()
    ensures Run<T>([]) == Some(Init()) && Returned<T>([]) == []
  {
  }

  lemma ServedNone(files: map<nat, seq<Record>>, cells: Grid, size: nat)
    ensures Served(files, cells, files, cells, [], [], size)
  {
  }

  lemma {:induction false} RunPrefix<T>(acts: seq<Action<T>>, i: nat)
    requires Run(acts).Some? && i <= |acts|
    ensures Run(acts[..i]).Some?
    decreases |acts|
  {
    if i < |acts| {
      RunPrefix(acts[..|acts| - 1], i);
      assert acts[..|acts| - 1][..i] == acts[..i];
    } else {
      assert acts[..i] == acts;
    }
  }

  lemma RunMore<T>(acts: seq<Action<T>>, a: Action<T>, s: State<T>)
    requires Run(acts) == Some(s) && Run(acts + [a]).Some?
    ensures Enabled(s, a) && Run(acts + [a]) == Some(Apply(s, a))
    ensures a.Decrement? ==> s.consumer.Discounting?
    ensures Returned(acts + [a]) == Returned(acts) + if a.Decrement? then [s.consumer.result] else []
  {
    hide Apply;
    assert (acts + [a])[..|acts|] == acts;
  }

  // ---- Link order and time ----

  lemma {:induction false} ChainGrows<T>(acts: seq<Action<T>>, i: nat)
    requires Run(acts).Some? && i <= |acts|
    ensures Run(acts[..i]).Some? && Run(acts[..i]).value.chain <= Run(acts).value.chain
    ensures LinkOrder(acts[..i]) <= LinkOrder(acts) && Returned(acts[..i]) <= Returned(acts)
    ensures Offered(acts[..i]) <= Offered(acts)
    decreases |acts|
  {
    if i < |acts| {
      ChainGrows(acts[..|acts| - 1], i);
      assert acts[..|acts| - 1][..i] == acts[..i];
      ChainStep(Run(acts[..|acts| - 1]).value, acts[|acts| - 1]);
      hide Apply, Links;
    } else {
      assert acts[..i] == acts;
    }
  }

  lemma ChainStep<T>(s: State<T>, a: Action<T>)
    requires Enabled(s, a)
    ensures s.chain <= Apply(s, a).chain
  {
  }

  /**
    A request made when others had been answered is linked behind them: the order of execution is one in which a
    request that was answered before another was made comes first.
   */
  lemma AnsweredFirst<T>(acts: seq<Action<T>>, i: nat, k: nat)
    requires Run(acts).Some? && i <= |acts| && |Offered(acts[..i])| <= k < |Offered(acts)|
    ensures Returned(acts[..i]) <= LinkOrder(acts[..i]) <= LinkOrder(acts)
    ensures var s := Run(acts).value;
            k + 1 in s.pos ==>
              |LinkOrder(acts[..i])| < s.pos[k + 1] <= |LinkOrder(acts)|
              && LinkOrder(acts)[s.pos[k + 1] - 1] == Offered(acts)[k]
  {
    ChainGrows(acts, i);
    FirstInFirstOut(acts);
    FirstInFirstOut(acts[..i]);
    RunKeeps(acts);
    RunKeeps(acts[..i]);
    RunLogged(acts[..i]);
    hide Run, Offered, LinkOrder, Returned, ProducersAt, ConsumerAt, Taken, Tallied, NodesKept, Exclusive;
    var s, t := Run(acts[..i]).value, Run(acts).value;
    assert Accounted(t, LinkOrder(acts), k + 1, Offered(acts)[k]);
  }
}
