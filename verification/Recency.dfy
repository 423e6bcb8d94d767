/**
  The rows the cache holds after a run of requests in which nothing fails: the most recently used
  ones, in order of last use, as many as the limit allows.
 */
module Recency {
  import opened RowFile
  import opened RowCache

  /** All rows used, each once, in order of last use. */
  function ByLastUse(uses: seq<nat>): seq<nat> {
    if uses == [] then [] else Touched(ByLastUse(uses[..|uses| - 1]), uses[|uses| - 1])
  }

  function LastUse(uses: seq<nat>, row: nat): (i: nat)
    requires row in uses
    ensures i < |uses| && uses[i] == row && forall j :: i < j < |uses| ==> uses[j] != row
  {
    var n := |uses| - 1;
    if uses[n] == row then n else LastUse(uses[..n], row)
  }

  /** The last elements of a sequence, as many as the limit allows. */
  function Latest(order: seq<nat>, limit: nat): seq<nat> {
    if |order| <= limit then order else order[|order| - limit..]
  }

  /** What the cache holds after the uses, starting empty: one step of UpdateTimestamp for each. */
  function Remaining(uses: seq<nat>, limit: nat): seq<nat> {
    if uses == [] then [] else Used(Remaining(uses[..|uses| - 1], limit), uses[|uses| - 1], limit)
  }

  lemma {:induction false} RemovedParts(a: seq<nat>, b: seq<nat>, row: nat)
    ensures Removed(a + b, row) == if row in a then Removed(a, row) + b else a + Removed(b, row)
  {
    if a == [] {
      assert a + b == b;
    } else {
      RemovedParts(a[1..], b, row);
      assert (a + b)[1..] == a[1..] + b && (a + b)[0] == a[0];
      hide Removed;
      RemovedFirst(a, row);
      RemovedFirst(a + b, row);
    }
  }

  lemma RemovedFirst(order: seq<nat>, row: nat)
    requires order != []
    ensures Removed(order, row) == if order[0] == row then order[1..] else [order[0]] + Removed(order[1..], row)
  {
  }

  lemma {:induction false} RemovedHas(order: seq<nat>, row: nat)
    requires Distinct(order)
    ensures forall r :: r in Removed(order, row) <==> r in order && r != row
    ensures Distinct(Removed(order, row))
    ensures |Removed(order, row)| == if row in order then |order| - 1 else |order|
  {
    if row in order {
      var k :| 0 <= k < |order| && order[k] == row;
      RemovedAt(order, row, k);
      var rest := order[..k] + order[k + 1..];
      forall r ensures r in rest <==> r in order && r != row {
        if r in order && r != row {
          var i :| 0 <= i < |order| && order[i] == r;
          assert rest[if i < k then i else i - 1] == r;
        }
      }
    } else {
      RemovedAbsent(order, row);
    }
  }

  lemma {:induction false} ByLastUseHas(uses: seq<nat>)
    ensures Distinct(ByLastUse(uses))
    ensures forall r :: r in ByLastUse(uses) <==> r in uses
  {
    if uses != [] {
      var n := |uses| - 1;
      ByLastUseHas(uses[..n]);
      RemovedHas(ByLastUse(uses[..n]), uses[n]);
      assert uses == uses[..n] + [uses[n]];
    }
  }

  /** Removal keeps the order of what is left. */
  lemma {:induction false} RemovedOrder(order: seq<nat>, row: nat, i: nat, j: nat) returns (i': nat, j': nat)
    requires i < j < |Removed(order, row)|
    ensures i' < j' < |order| && order[i'] == Removed(order, row)[i] && order[j'] == Removed(order, row)[j]
  {
    if order[0] == row {
      i', j' := i + 1, j + 1;
    } else if i == 0 {
      i' := 0;
      if j == 1 && Removed(order[1..], row) != [] {
        j' := RemovedFrom(order[1..], row, 0);
      } else {
        j' := RemovedFrom(order[1..], row, j - 1);
      }
      j' := j' + 1;
    } else {
      i', j' := RemovedOrder(order[1..], row, i - 1, j - 1);
      i', j' := i' + 1, j' + 1;
    }
  }

  lemma {:induction false} RemovedFrom(order: seq<nat>, row: nat, j: nat) returns (j': nat)
    requires j < |Removed(order, row)|
    ensures j' < |order| && order[j'] == Removed(order, row)[j]
  {
    if order[0] == row {
      j' := j + 1;
    } else if j == 0 {
      j' := 0;
    } else {
      j' := RemovedFrom(order[1..], row, j - 1);
      j' := j' + 1;
    }
  }

  /** The order is the order of last use. */
  lemma {:induction false} OrderedByLastUse(uses: seq<nat>, i: nat, j: nat)
    requires i < j < |ByLastUse(uses)|
    ensures ByLastUse(uses)[i] in uses && ByLastUse(uses)[j] in uses
    ensures LastUse(uses, ByLastUse(uses)[i]) < LastUse(uses, ByLastUse(uses)[j])
  {
    var n, order := |uses| - 1, ByLastUse(uses);
    var before := ByLastUse(uses[..n]);
    ByLastUseHas(uses);
    ByLastUseHas(uses[..n]);
    RemovedHas(before, uses[n]);
    assert order[i] in order && order[j] in order;
    assert order[i] != uses[n];
    if j < |order| - 1 {
      var i', j' := RemovedOrder(before, uses[n], i, j);
      OrderedByLastUse(uses[..n], i', j');
    }
  }

  /** Dropping the oldest row each time there is one too many keeps the latest rows. */
  lemma TouchLatest(order: seq<nat>, row: nat, limit: nat)
    requires Distinct(order)
    ensures Recent(Touched(Latest(order, limit), row), limit) == Latest(Touched(order, row), limit)
  {
    if |order| > limit {
      var a, b := order[..|order| - limit], order[|order| - limit..];
      assert order == a + b && Latest(order, limit) == b;
      hide Latest, Recent, Distinct, Removed;
      TouchLatestFull(a, b, row);
    } else {
      TouchLatestAll(order, row, limit);
    }
  }

  lemma TouchLatestAll(order: seq<nat>, row: nat, limit: nat)
    requires Distinct(order) && |order| <= limit
    ensures Recent(Touched(Latest(order, limit), row), limit) == Latest(Touched(order, row), limit)
  {
    RemovedHas(order, row);
  }

  /** The last elements of a longer sequence. */
  lemma LatestOf(a: seq<nat>, b: seq<nat>)
    ensures Latest(a + b, |b|) == b
  {
  }

  lemma LatestOfMore(a: seq<nat>, b: seq<nat>, row: nat)
    ensures Latest(a + (b + [row]), |b|) == Recent(b + [row], |b|)
  {
    var c := b + [row];
    assert a + c == (a + c[..1]) + c[1..];
    LatestOf(a + c[..1], c[1..]);
  }

  lemma TouchLatestFull(a: seq<nat>, b: seq<nat>, row: nat)
    requires Distinct(a + b) && a != []
    ensures Recent(Touched(b, row), |b|) == Latest(Touched(a + b, row), |b|)
  {
    RemovedParts(a, b, row);
    RowInOne(a, b, row);
    RemovedHas(b, row);
    hide Latest, Recent, Distinct;
    if row in b {
      assert Touched(a + b, row) == a + Touched(b, row);
      LatestOf(a, Touched(b, row));
      RecentAll(Touched(b, row), |b|);
    } else {
      RemovedAbsent(b, row);
      var rest := if row in a then Removed(a, row) else a;
      assert Touched(a + b, row) == rest + (b + [row]);
      LatestOfMore(rest, b, row);
    }
  }

  lemma RecentAll(order: seq<nat>, limit: nat)
    requires |order| <= limit
    ensures Recent(order, limit) == order
  {
  }

  lemma RowInOne(a: seq<nat>, b: seq<nat>, row: nat)
    requires Distinct(a + b)
    ensures Distinct(b) && (row in b ==> row !in a)
  {
    assert b == (a + b)[|a|..];
    if row in b {
      var k :| 0 <= k < |b| && b[k] == row;
      assert (a + b)[|a| + k] == row;
      assert forall i :: 0 <= i < |a| ==> (a + b)[i] == a[i];
    }
  }

  lemma {:induction false} LeastRecentlyUsed(uses: seq<nat>, limit: nat)
    ensures Remaining(uses, limit) == Latest(ByLastUse(uses), limit)
    ensures |Remaining(uses, limit)| <= limit
  {
    if uses != [] {
      var n := |uses| - 1;
      LeastRecentlyUsed(uses[..n], limit);
      ByLastUseHas(uses[..n]);
      TouchLatest(ByLastUse(uses[..n]), uses[n], limit);
    }
  }

  datatype Request =
    | Read(row: nat, column: nat, size: nat, offset: nat)
    | Write(row: nat, column: nat, data: Block, offset: nat)

  /** The uses a request makes of its row: none if refused, and a partial write reads the block first. */
  function UsesOf(request: Request, columns: nat, blockSize: nat): seq<nat> {
    match request
    case Read(row, column, size, offset) => if column >= columns || size + offset > blockSize then [] else [row]
    case Write(row, column, data, offset) =>
      if column >= columns || |data| + offset > blockSize then []
      else if |data| == blockSize then [row] else [row, row]
  }

  function AllUses(requests: seq<Request>, columns: nat, blockSize: nat): seq<nat> {
    if requests == [] then []
    else AllUses(requests[..|requests| - 1], columns, blockSize) + UsesOf(requests[|requests| - 1], columns, blockSize)
  }

  lemma HeldMore(uses: seq<nat>, row: nat, limit: nat)
    ensures Remaining(uses + [row], limit) == Used(Remaining(uses, limit), row, limit)
    ensures Remaining(uses + [row, row], limit) == Used(Used(Remaining(uses, limit), row, limit), row, limit)
  {
    assert (uses + [row])[..|uses|] == uses;
    assert (uses + [row, row])[..|uses| + 1] == uses + [row];
  }

  /** One request, as a step of Remaining. */
  method Handle(c: Cache, request: Request, ghost uses: seq<nat>)
    requires c.Valid()
    modifies c, c.remote
    ensures c.Valid() && old(c.remote.failures) <= c.remote.failures && old(c.mishaps) <= c.mishaps
    ensures c.remote.failures == old(c.remote.failures) && c.mishaps == old(c.mishaps)
            && Rows(old(c.timestamps)) == Remaining(uses, c.limit) ==>
              Rows(c.timestamps) == Remaining(uses + UsesOf(request, c.remote.columns, c.remote.blockSize), c.limit)
  {
    hide SameViewBut, ViewOf, InRow, Agree, AllFormed, CleanBut, RowCache.Held, Used, Remaining;
    HeldMore(uses, request.row, c.limit);
    assert uses + [] == uses;
    match request {
      case Read(row, column, size, offset) => var ok, data, _, _ := c.Read(row, column, size, offset);
      case Write(row, column, data, offset) => var ok, _, _, _ := c.Write(row, column, data, offset);
    }
  }

  /**
    Any run of requests on an empty cache in which nothing fails and the clock does not go back: the rows held
    are the most recently used ones, in order of last use, and never more than the limit.
   */
  method ServeAll(c: Cache, requests: seq<Request>)
    requires c.Valid() && c.timestamps == []
    modifies c, c.remote
    ensures c.Valid()
    ensures c.remote.failures == old(c.remote.failures) && c.mishaps == old(c.mishaps) ==>
              && Rows(c.timestamps) ==
                Latest(ByLastUse(AllUses(requests, c.remote.columns, c.remote.blockSize)), c.limit)
              && |c.items| <= c.limit
  {
    ghost var uses := [];
    for i := 0 to |requests|
      invariant c.Valid() && old(c.remote.failures) <= c.remote.failures && old(c.mishaps) <= c.mishaps
      invariant uses == AllUses(requests[..i], c.remote.columns, c.remote.blockSize)
      invariant c.remote.failures == old(c.remote.failures) && c.mishaps == old(c.mishaps) ==>
                  Rows(c.timestamps) == Remaining(uses, c.limit)
    {
      Handle(c, requests[i], uses);
      assert requests[..i + 1][..i] == requests[..i];
      uses := uses + UsesOf(requests[i], c.remote.columns, c.remote.blockSize);
    }
    assert requests[..|requests|] == requests;
    LeastRecentlyUsed(uses, c.limit);
    AgreeSize(c.items, c.timestamps);
  }
}
