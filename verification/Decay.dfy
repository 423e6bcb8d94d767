/**
  Runs of a volume in which cells go bad between the requests: whatever a cell is replaced by that does not verify
  any more, nobody notices, as long as every row has as many code cells that verify as data cells that do not. A
  cell of a row that the cache holds does not go bad meanwhile.
 */
module Decay {
  import opened RowFile
  import opened RowCache
  import opened Layout
  import opened Grids
  import opened Codes
  import opened Volume
  import opened VolumeRun

  /** Which cells verify for a while, what others were replaced by before it, and the requests in it. */
  datatype Epoch = Epoch(healthy: (nat, nat) -> bool, damage: Grid, requests: seq<Request>)

  // ---- The codeword of a row is determined by the cells that verify ----

  lemma {:induction false} SplitExists(v: Volume, row: nat, n: nat) returns (present: seq<nat>, missing: seq<nat>)
    ensures v.IsSplit(row, n, present, missing)
  {
    present, missing := [], [];
    if n > 0 {
      present, missing := SplitExists(v, row, n - 1);
      if v.healthy(row, n - 1) {
        present := present + [n - 1];
      } else {
        missing := missing + [n - 1];
      }
    }
  }

  lemma {:induction false} CodesExist(v: Volume, row: nat, n: nat, want: nat) returns (codes: seq<nat>)
    requires want <= v.HealthyCode(row, n)
    ensures Ascending(codes, v.dataCount + n) && |codes| == want
    ensures forall t :: 0 <= t < |codes| ==> v.dataCount <= codes[t] && v.healthy(row, codes[t])
  {
    codes := [];
    if want > 0 {
      if v.healthy(row, v.dataCount + n - 1) {
        codes := CodesExist(v, row, n - 1, want - 1);
        codes := codes + [v.dataCount + n - 1];
      } else {
        codes := CodesExist(v, row, n - 1, want);
      }
    }
  }

  ghost function BlocksAt(g: Grid, row: nat, columns: seq<nat>): (r: seq<Block>)
    requires forall t :: 0 <= t < |columns| ==> (row, columns[t]) in g
    ensures HoldsAt(g, row, columns, r)
  {
    seq(|columns|, t requires 0 <= t < |columns| => g[(row, columns[t])])
  }

  /** Data that the cells that verify agree with, if there are enough of them, are the same. */
  lemma OneCodeword(v: Volume, g: Grid, row: nat, d: seq<Block>, e: seq<Block>)
    requires v.Fixed() && v.Recoverable(g, row, d) && v.Agrees(g, row, e)
    ensures d == e
  {
    var present, missing := SplitExists(v, row, v.dataCount);
    var codes := CodesExist(v, row, v.codeCount, |missing|);
    assert forall t :: 0 <= t < |present| ==> present[t] in present;
    var blocks, codeBlocks := BlocksAt(g, row, present), BlocksAt(g, row, codes);
    v.AssembledRepresents(g, row, d, present, blocks, missing, codes, codeBlocks);
    v.AssembledRepresents(g, row, e, present, blocks, missing, codes, codeBlocks);
  }

  // ---- What the cells should hold ----

  ghost function Word(v: Volume, flat: Block, row: nat, column: nat): Block {
    var code := v.codec.encode(v.DataOf(flat, row));
    if column < v.dataCount then v.Sealed(flat, row, column)
    else if column - v.dataCount < |code| then code[column - v.dataCount]
    else []
  }

  ghost predicate Right(v: Volume, g: Grid, flat: Block, row: nat, column: nat) {
    (row, column) in g && g[(row, column)] == Word(v, flat, row, column)
  }

  /** The cells with a mark hold what they should. */
  ghost predicate Sound(v: Volume, marks: (nat, nat) -> bool, g: Grid, flat: Block) {
    && |flat| == v.Shape().Capacity()
    && forall r: nat, c: nat {:trigger Right(v, g, flat, r, c)} ::
         r < v.cache.remote.rows && c < v.dataCount + v.codeCount && marks(r, c) ==> Right(v, g, flat, r, c)
  }

  /** How many of the first n data cells do not verify, and of the first n code cells do. */
  function BadData(healthy: (nat, nat) -> bool, row: nat, n: nat): nat {
    if n == 0 then 0 else BadData(healthy, row, n - 1) + if healthy(row, n - 1) then 0 else 1
  }

  function GoodCode(healthy: (nat, nat) -> bool, dataCount: nat, row: nat, n: nat): nat {
    if n == 0 then 0 else GoodCode(healthy, dataCount, row, n - 1) + if healthy(row, dataCount + n - 1) then 1 else 0
  }

  /** Cells that verify were trusted before and have not been damaged, and every row has enough of them. */
  ghost predicate Bearable(v: Volume, trusted: (nat, nat) -> bool, e: Epoch) {
    && (forall r: nat, c: nat :: r < v.cache.remote.rows && c < v.dataCount + v.codeCount && e.healthy(r, c) ==>
          trusted(r, c) && (r, c) !in e.damage)
    && (forall r: nat :: r < v.cache.remote.rows ==>
          BadData(e.healthy, r, v.dataCount) <= GoodCode(e.healthy, v.dataCount, r, v.codeCount))
  }

  /** After an epoch cells are trusted that verified in it, and all cells of the rows that were written or read. */
  ghost function Trusted(shape: Geometry, e: Epoch): (nat, nat) -> bool
    requires shape.Valid()
  {
    (r: nat, c: nat) => e.healthy(r, c) || Reached(shape, e.requests, r) || Visited(shape, e.requests, r)
  }

  ghost predicate AllBearable(v: Volume, trusted: (nat, nat) -> bool, epochs: seq<Epoch>)
    requires v.Fixed()
  {
    epochs == [] || (Bearable(v, trusted, epochs[0]) && AllBearable(v, Trusted(v.Shape(), epochs[0]), epochs[1..]))
  }

  // ---- One epoch ----

  /** The same volume, but for which cells verify. */
  ghost predicate Twins(v: Volume, w: Volume) {
    && w.cache == v.cache && w.dataCount == v.dataCount && w.codeCount == v.codeCount
    && w.cipher == v.cipher && w.codec == v.codec
  }

  lemma TwinData(v: Volume, w: Volume, flat: Block, row: nat)
    requires Twins(v, w)
    ensures w.DataOf(flat, row) == v.DataOf(flat, row)
  {
  }

  lemma {:induction false} TwinCounts(w: Volume, row: nat, n: nat)
    ensures w.Unhealthy(row, n) == BadData(w.healthy, row, n)
    ensures w.HealthyCode(row, n) == GoodCode(w.healthy, w.dataCount, row, n)
  {
    if n > 0 {
      TwinCounts(w, row, n - 1);
    }
  }

  lemma CoveredNow(v: Volume, w: Volume, trusted: (nat, nat) -> bool, e: Epoch)
    requires Twins(v, w) && w.healthy == e.healthy && Bearable(v, trusted, e)
    ensures w.Covered()
  {
    forall r: nat | r < w.cache.remote.rows ensures w.Unhealthy(r, w.dataCount) <= w.HealthyCode(r, w.codeCount) {
      TwinCounts(w, r, w.dataCount);
      TwinCounts(w, r, w.codeCount);
    }
  }

  /** In a row whose cells that verify are right, they agree with the data. */
  lemma SoundAgrees(v: Volume, w: Volume, g: Grid, flat: Block, row: nat)
    requires Twins(v, w) && w.Fixed() && Sound(v, w.healthy, g, flat) && row < w.cache.remote.rows
    ensures w.Agrees(g, row, w.DataOf(flat, row))
    ensures w.AllHealthy(row) ==> w.HoldsCodeword(g, row, w.DataOf(flat, row))
  {
    var d := w.DataOf(flat, row);
    TwinData(v, w, flat, row);
    forall c | 0 <= c < w.dataCount ensures |d[c]| == w.BlockSize() {
      w.ClearSize(flat, row, c);
    }
    forall c | 0 <= c < w.dataCount + w.codeCount && w.healthy(row, c) ensures Right(v, g, flat, row, c) {
    }
    if w.AllHealthy(row) {
      RightIsWhole(v, w, g, flat, row);
    }
  }

  lemma RightIsWhole(v: Volume, w: Volume, g: Grid, flat: Block, row: nat)
    requires Twins(v, w) && w.Fixed() && w.DataOf(flat, row) == v.DataOf(flat, row)
    requires forall c :: 0 <= c < w.dataCount + w.codeCount ==> Right(v, g, flat, row, c)
    ensures w.HoldsCodeword(g, row, w.DataOf(flat, row))
  {
    forall c | 0 <= c < w.dataCount ensures w.RowData(g, row)[c] == w.DataOf(flat, row)[c] {
      assert Right(v, g, flat, row, c);
    }
    forall i | 0 <= i < w.codeCount ensures Right(v, g, flat, row, w.CodeColumns()[i]) {
    }
  }

  lemma EpochStarts(v: Volume, w: Volume, trusted: (nat, nat) -> bool, e: Epoch, before: Grid, after: Grid, flat: Block)
    requires Twins(v, w) && w.Fixed() && w.healthy == e.healthy && Bearable(v, trusted, e)
             && Sound(v, trusted, before, flat)
    requires after.Keys == before.Keys && forall k :: k in after && k !in e.damage ==> after[k] == before[k]
    ensures w.Covered() && w.Stands(after, flat) && Sound(v, e.healthy, after, flat)
  {
    CoveredNow(v, w, trusted, e);
    forall r: nat, c: nat | r < v.cache.remote.rows && c < v.dataCount + v.codeCount && e.healthy(r, c)
      ensures Right(v, after, flat, r, c)
    {
      assert Right(v, before, flat, r, c);
    }
    forall r: nat | r < w.cache.remote.rows ensures w.StandsRow(after, flat, r) {
      SoundAgrees(v, w, after, flat, r);
    }
  }

  /** A row that has parity and whose cells that verify agree with the array holds its codeword. */
  lemma WholeRow(w: Volume, g: Grid, flat: Block, row: nat)
    requires w.Fixed() && w.InGrid(g) && w.Covered() && w.Stands(g, flat) && row < w.cache.remote.rows
             && w.Parity(g, row)
    ensures w.HoldsCodeword(g, row, w.DataOf(flat, row))
  {
    assert w.StandsRow(g, flat, row);
    if !w.AllHealthy(row) {
      w.CodewordAgrees(g, row, w.RowData(g, row));
      OneCodeword(w, g, row, w.DataOf(flat, row), w.RowData(g, row));
    }
  }

  lemma WholeIsRight(v: Volume, w: Volume, g: Grid, flat: Block, row: nat, column: nat)
    requires Twins(v, w) && w.InGrid(g) && w.HoldsCodeword(g, row, w.DataOf(flat, row))
    requires w.Fixed() && row < w.cache.remote.rows && column < w.dataCount + w.codeCount
    ensures Right(v, g, flat, row, column)
  {
    TwinData(v, w, flat, row);
    if column < w.dataCount {
      assert w.RowData(g, row)[column] == w.DataOf(flat, row)[column];
    } else {
      assert w.CodeColumns()[column - w.dataCount] == column;
    }
  }

  /** A cell that is trusted after an epoch holds what it should. */
  lemma TrustedIsRight(v: Volume, w: Volume, e: Epoch, before: Grid, after: Grid, flat: Block, flat': Block, r: nat,
                       c: nat)
    requires Twins(v, w) && w.Fixed() && w.healthy == e.healthy && w.InGrid(after) && w.Covered()
    requires Sound(v, e.healthy, before, flat) && w.Stands(after, flat') && ParityKept(w, before, after, e.requests)
    requires r < v.cache.remote.rows && c < v.dataCount + v.codeCount
    requires e.healthy(r, c) || Reached(w.Shape(), e.requests, r) || Visited(w.Shape(), e.requests, r)
    ensures Right(v, after, flat', r, c)
  {
    hide Sound, Reached, Visited, Cipher.Lawful, Codec.Lawful, Volume.InGrid, Volume.Covered, Right, Volume.Parity;
    SoundAgrees(v, w, before, flat, r);
    assert HasParity(w, before, after, e.requests, r) && w.StandsRow(after, flat', r);
    if w.AllHealthy(r) || Reached(w.Shape(), e.requests, r) || Visited(w.Shape(), e.requests, r) {
      WholeRow(w, after, flat', r);
      WholeIsRight(v, w, after, flat', r, c);
    } else {
      AgreeingIsRight(v, w, after, flat', r, c);
    }
  }

  lemma AgreeingIsRight(v: Volume, w: Volume, g: Grid, flat: Block, r: nat, c: nat)
    requires Twins(v, w) && w.Agrees(g, r, w.DataOf(flat, r)) && c < w.dataCount + w.codeCount && w.healthy(r, c)
    ensures Right(v, g, flat, r, c)
  {
    TwinData(v, w, flat, r);
  }

  lemma EpochEnds(v: Volume, w: Volume, e: Epoch, before: Grid, after: Grid, flat: Block, flat': Block)
    requires Twins(v, w) && w.Fixed() && w.healthy == e.healthy && w.InGrid(after) && w.Covered()
    requires Sound(v, e.healthy, before, flat) && w.Stands(after, flat') && ParityKept(w, before, after, e.requests)
    ensures Sound(v, Trusted(w.Shape(), e), after, flat')
  {
    hide Reached, Visited, ParityKept, Volume.InGrid, Volume.Covered, Right, Cipher.Lawful, Codec.Lawful;
    forall r: nat, c: nat
      | r < v.cache.remote.rows && c < v.dataCount + v.codeCount && Trusted(w.Shape(), e)(r, c)
      ensures Right(v, after, flat', r, c)
    {
      TrustedIsRight(v, w, e, before, after, flat, flat', r, c);
    }
  }

  lemma TwinExplained(v: Volume, w: Volume, flat: Block, requests: seq<Request>, replies: seq<Reply>,
                      progress: seq<nat>, taints: seq<set<Cell>>)
    requires Twins(v, w) && v.Fixed() && w.Fixed() && Explained(w, flat, requests, replies, progress, taints)
    ensures Explained(v, flat, requests, replies, progress, taints)
  {
    hide After;
    forall i | 0 <= i < |requests|
      ensures Fits(v, After(flat, requests[..i], progress[..i]), requests[i], replies[i], progress[i], taints[i])
    {
      assert Fits(w, After(flat, requests[..i], progress[..i]), requests[i], replies[i], progress[i], taints[i]);
    }
  }

  /** An epoch: cells go bad, and then the volume is used. */
  method Live(v: Volume, e: Epoch, ghost flat: Block, ghost trusted: (nat, nat) -> bool)
    returns (replies: seq<Reply>, ghost progress: seq<nat>)
    requires v.Fixed() && v.Ready()
    modifies v, v.cache, v.cache.remote
    ensures v.Ready() && v.Later() && |replies| == |progress| == |e.requests|
    ensures v.Trouble() == old(v.Trouble()) && Bearable(v, trusted, e) && Sound(v, trusted, old(v.grid), flat) ==>
              && Explained(v, flat, e.requests, replies, progress, NoTaints(|e.requests|))
              && ServedInRange(e.requests, replies, v.Shape().Capacity())
              && Sound(v, Trusted(v.Shape(), e), v.grid, After(flat, e.requests, progress))
  {
    hide Bearable, Sound, Explained, ServedInRange, ParityKept, Cipher.Lawful, Codec.Lawful, Volume.InGrid, Shown,
         Volume.Stands, Volume.Covered, Volume.AgreesBut, Volume.Healthy, Traced, Trusted;
    v.cache.Spoil(e.damage);
    var w := new Volume(v.cache, v.cached, v.dataCount, v.codeCount, v.cipher, v.codec, e.healthy);
    ghost var start, lost, taints := w.grid, [], [];
    ShownAfter(old(v.cache.files), old(v.cache.remote.cells), old(v.grid), v.cache.files, v.cache.remote.cells, start,
               e.damage.Keys);
    replies, progress, lost, taints := Serve(w, e.requests, flat);
    v.Look();
    SameViewStart(v.cache.files, v.cache.remote.cells);
    SameGrid(v.cache.files, v.cache.remote.cells, w.grid, v.cache.files, v.cache.remote.cells, v.grid);
    if v.Trouble() == old(v.Trouble()) && Bearable(v, trusted, e) && Sound(v, trusted, old(v.grid), flat) {
      EpochStarts(v, w, trusted, e, old(v.grid), start, flat);
      EpochEnds(v, w, e, start, w.grid, flat, After(flat, e.requests, progress));
      TwinExplained(v, w, flat, e.requests, replies, progress, NoTaints(|e.requests|));
    }
  }

  // ---- Many ----

  function AllRequests(epochs: seq<Epoch>): seq<Request> {
    if epochs == [] then [] else AllRequests(epochs[..|epochs| - 1]) + epochs[|epochs| - 1].requests
  }

  lemma {:induction false} AfterBoth(flat: Block, a: seq<Request>, p: seq<nat>, b: seq<Request>, q: seq<nat>)
    requires |p| == |a| && |q| == |b|
    ensures After(flat, a + b, p + q) == After(After(flat, a, p), b, q)
    decreases |b|
  {
    hide Effect;
    if b == [] {
      assert a + b == a && p + q == p;
    } else {
      var n := |b| - 1;
      AfterBoth(flat, a, p, b[..n], q[..n]);
      assert (a + b)[..|a| + n] == a + b[..n] && (p + q)[..|a| + n] == p + q[..n];
    }
  }

  /** A request of the first run, in both. */
  lemma FitsFirst(v: Volume, flat: Block, a: seq<Request>, ra: seq<Reply>, p: seq<nat>,
                  b: seq<Request>, rb: seq<Reply>, q: seq<nat>, i: nat)
    requires v.Fixed() && Explained(v, flat, a, ra, p, NoTaints(|a|)) && i < |a| && |rb| == |q| == |b|
    ensures Fits(v, After(flat, (a + b)[..i], (p + q)[..i]), (a + b)[i], (ra + rb)[i], (p + q)[i], {})
  {
    hide Fits, After;
    assert (a + b)[..i] == a[..i] && (p + q)[..i] == p[..i];
    assert Fits(v, After(flat, a[..i], p[..i]), a[i], ra[i], p[i], NoTaints(|a|)[i]);
  }

  /** A request of the second run, in both. */
  lemma FitsSecond(v: Volume, flat: Block, a: seq<Request>, ra: seq<Reply>, p: seq<nat>,
                   b: seq<Request>, rb: seq<Reply>, q: seq<nat>, j: nat)
    requires v.Fixed() && |ra| == |p| == |a| && j < |b|
    requires Explained(v, After(flat, a, p), b, rb, q, NoTaints(|b|))
    ensures var i := |a| + j;
            Fits(v, After(flat, (a + b)[..i], (p + q)[..i]), (a + b)[i], (ra + rb)[i], (p + q)[i], {})
  {
    hide Fits, After;
    var i := |a| + j;
    assert (a + b)[..i] == a + b[..j] && (p + q)[..i] == p + q[..j];
    AfterBoth(flat, a, p, b[..j], q[..j]);
    assert Fits(v, After(After(flat, a, p), b[..j], q[..j]), b[j], rb[j], q[j], NoTaints(|b|)[j]);
  }

  lemma ExplainedBoth(v: Volume, flat: Block, a: seq<Request>, ra: seq<Reply>, p: seq<nat>,
                      b: seq<Request>, rb: seq<Reply>, q: seq<nat>)
    requires v.Fixed() && Explained(v, flat, a, ra, p, NoTaints(|a|)) && ServedInRange(a, ra, v.Shape().Capacity())
    requires Explained(v, After(flat, a, p), b, rb, q, NoTaints(|b|)) && ServedInRange(b, rb, v.Shape().Capacity())
    ensures Explained(v, flat, a + b, ra + rb, p + q, NoTaints(|a + b|))
    ensures ServedInRange(a + b, ra + rb, v.Shape().Capacity())
  {
    hide Fits, After, InRange;
    var rs, answers, ps := a + b, ra + rb, p + q;
    ServedBoth(a, ra, b, rb, v.Shape().Capacity());
    forall i | 0 <= i < |rs| ensures Fits(v, After(flat, rs[..i], ps[..i]), rs[i], answers[i], ps[i], {}) {
      if i < |a| {
        FitsFirst(v, flat, a, ra, p, b, rb, q, i);
      } else {
        FitsSecond(v, flat, a, ra, p, b, rb, q, i - |a|);
      }
    }
  }

  lemma ServedBoth(a: seq<Request>, ra: seq<Reply>, b: seq<Request>, rb: seq<Reply>, capacity: nat)
    requires ServedInRange(a, ra, capacity) && ServedInRange(b, rb, capacity)
    ensures ServedInRange(a + b, ra + rb, capacity)
  {
    hide InRange;
  }

  /**
    Any number of epochs. If the cells that verify at first hold what they should, if the damage of every epoch can
    be borne and no operation fails, exactly the requests inside the volume are served, and every read of every epoch
    returns what the writes before it made of one flat array, as if no cell had ever gone bad.
   */
  method Weather(v: Volume, epochs: seq<Epoch>, ghost flat: Block)
    returns (replies: seq<Reply>, ghost progress: seq<nat>)
    requires v.Fixed() && v.Ready()
    modifies v, v.cache, v.cache.remote
    ensures v.Ready() && v.Later() && |replies| == |progress| == |AllRequests(epochs)|
    ensures v.Trouble() == old(v.Trouble()) && AllBearable(v, v.healthy, epochs)
            && Sound(v, v.healthy, old(v.grid), flat) ==>
              && Explained(v, flat, AllRequests(epochs), replies, progress, NoTaints(|AllRequests(epochs)|))
              && ServedInRange(AllRequests(epochs), replies, v.Shape().Capacity())
  {
    hide Bearable, Sound, Explained, ServedInRange, Cache.Valid, Shown, Volume.InGrid, Trusted, Cipher.Lawful,
         Codec.Lawful;
    replies, progress := [], [];
    ghost var trusted, now := v.healthy, flat;
    NothingYet(v, flat);
    for i := 0 to |epochs|
      invariant v.Ready() && v.Later() && |replies| == |progress| == |AllRequests(epochs[..i])|
      invariant now == After(flat, AllRequests(epochs[..i]), progress)
      invariant AllBearable(v, v.healthy, epochs) ==> AllBearable(v, trusted, epochs[i..])
      invariant v.Trouble() == old(v.Trouble()) && AllBearable(v, v.healthy, epochs)
                && Sound(v, v.healthy, old(v.grid), flat) ==>
                  && Explained(v, flat, AllRequests(epochs[..i]), replies, progress, NoTaints(|replies|))
                  && ServedInRange(AllRequests(epochs[..i]), replies, v.Shape().Capacity())
                  && Sound(v, trusted, v.grid, now)
    {
      ghost var more;
      var answers;
      answers, more := Live(v, epochs[i], now, trusted);
      assert epochs[..i + 1][..i] == epochs[..i] && epochs[i..][1..] == epochs[i + 1..];
      AfterBoth(flat, AllRequests(epochs[..i]), progress, epochs[i].requests, more);
      if v.Trouble() == old(v.Trouble()) && AllBearable(v, v.healthy, epochs)
         && Sound(v, v.healthy, old(v.grid), flat) {
        ExplainedBoth(v, flat, AllRequests(epochs[..i]), replies, progress, epochs[i].requests, answers, more);
      }
      now, trusted := After(now, epochs[i].requests, more), Trusted(v.Shape(), epochs[i]);
      replies, progress := replies + answers, progress + more;
    }
    assert epochs[..|epochs|] == epochs;
  }

  lemma NothingYet(v: Volume, flat: Block)
    requires v.Fixed()
    ensures Explained(v, flat, [], [], [], NoTaints(0)) && ServedInRange([], [], v.Shape().Capacity())
  {
  }
}
