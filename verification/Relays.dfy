/**
  How an HTTP request looks for a working relay: directly first, then through every endpoint of
  every relay in turn, until one attempt does not fail to connect.
 */
module Relays {
  datatype Attempt = Direct | Via(relay: nat, endpoint: nat)

  /** What curl reports: success, a failure to connect, or another failure. */
  datatype Code = Fine | Unreachable | Broken

  /** The attempts from an endpoint on; a relay is the number of its endpoints. */
  function From(relays: seq<nat>, relay: nat, endpoint: nat): seq<Attempt>
    decreases |relays| - relay, if relay < |relays| then relays[relay] - endpoint else 0
  {
    if relay >= |relays| then []
    else if endpoint >= relays[relay] then From(relays, relay + 1, 0)
    else [Via(relay, endpoint)] + From(relays, relay, endpoint + 1)
  }

  function All(relays: seq<nat>): seq<Attempt> { [Direct] + From(relays, 0, 0) }

  predicate Precedes(a: Attempt, b: Attempt) {
    b.Via? && (a.Direct? || a.relay < b.relay || (a.relay == b.relay && a.endpoint < b.endpoint))
  }

  /** Every endpoint from there on is tried, and nothing else. */
  lemma {:induction false} FromHas(relays: seq<nat>, relay: nat, endpoint: nat, r: nat, e: nat)
    ensures Via(r, e) in From(relays, relay, endpoint) <==>
            r < |relays| && e < relays[r] && (r > relay || (r == relay && e >= endpoint))
    ensures Direct !in From(relays, relay, endpoint)
    decreases |relays| - relay, if relay < |relays| then relays[relay] - endpoint else 0
  {
    if relay < |relays| {
      if endpoint >= relays[relay] {
        FromHas(relays, relay + 1, 0, r, e);
      } else {
        FromHas(relays, relay, endpoint + 1, r, e);
        var head, rest := Via(relay, endpoint), From(relays, relay, endpoint + 1);
        assert forall a :: a in [head] + rest <==> a == head || a in rest;
      }
    }
  }

  /** They are tried in order of the list. */
  lemma {:induction false} FromOrdered(relays: seq<nat>, relay: nat, endpoint: nat, i: nat, j: nat)
    requires i < j < |From(relays, relay, endpoint)|
    ensures Precedes(From(relays, relay, endpoint)[i], From(relays, relay, endpoint)[j])
    decreases |relays| - relay, if relay < |relays| then relays[relay] - endpoint else 0
  {
    if endpoint >= relays[relay] {
      FromOrdered(relays, relay + 1, 0, i, j);
    } else if i > 0 {
      FromOrdered(relays, relay, endpoint + 1, i - 1, j - 1);
    } else {
      var rest := From(relays, relay, endpoint + 1);
      var b := rest[j - 1];
      assert b in rest;
      FromHas(relays, relay, endpoint + 1, if b.Via? then b.relay else 0, if b.Via? then b.endpoint else 0);
    }
  }

  /** All attempts: direct and every endpoint of every relay, each once, in order. */
  lemma AllAttempts(relays: seq<nat>)
    ensures forall r: nat, e: nat :: Via(r, e) in All(relays) <==> r < |relays| && e < relays[r]
    ensures forall i, j :: 0 <= i < j < |All(relays)| ==> Precedes(All(relays)[i], All(relays)[j])
  {
    forall r: nat, e: nat ensures Via(r, e) in All(relays) <==> r < |relays| && e < relays[r] {
      FromHas(relays, 0, 0, r, e);
    }
    forall i, j | 0 <= i < j < |All(relays)| ensures Precedes(All(relays)[i], All(relays)[j]) {
      if i > 0 {
        FromOrdered(relays, 0, 0, i - 1, j - 1);
      } else {
        var b := All(relays)[j];
        assert b in From(relays, 0, 0);
        FromHas(relays, 0, 0, 0, 0);
      }
    }
  }

  class Config {
    const relays: seq<nat>
    var activeRelay: int
    var activeRelayEndpoint: int

    constructor (relays: seq<nat>)
      ensures this.relays == relays && activeRelay == -1 && activeRelayEndpoint == -1
    {
      this.relays, activeRelay, activeRelayEndpoint := relays, -1, -1;
    }

    /** Where a request goes: to the chosen endpoint if there is one, otherwise directly. */
    function Target(): Attempt
      reads this
    {
      if 0 <= activeRelay < |relays| && 0 <= activeRelayEndpoint < relays[activeRelay]
      then Via(activeRelay, activeRelayEndpoint) else Direct
    }

    /** No relay has been tried, or an endpoint is chosen, or all have been tried. */
    ghost predicate Searching()
      reads this
    {
      -1 <= activeRelay <= |relays| && (0 <= activeRelay < |relays| ==> 0 <= activeRelayEndpoint < relays[activeRelay])
    }

    /** The attempts to be made from here on. */
    ghost function Left(): seq<Attempt>
      requires Searching()
      reads this
    {
      if activeRelay == -1 then All(relays) else if activeRelay == |relays| then []
                                                 else From(relays, activeRelay, activeRelayEndpoint)
    }

    /** Moves on to the first relay after this one that has endpoints, or past the end. */
    method NextRelay()
      requires -1 <= activeRelay < |relays|
      modifies this
      ensures Searching() && activeRelay > old(activeRelay) && Left() == From(relays, old(activeRelay) + 1, 0)
    {
      activeRelay, activeRelayEndpoint := activeRelay + 1, 0;
      while activeRelay < |relays| && relays[activeRelay] == 0
        invariant old(activeRelay) < activeRelay <= |relays| && activeRelayEndpoint == 0
        invariant From(relays, activeRelay, 0) == From(relays, old(activeRelay) + 1, 0)
      {
        activeRelay, activeRelayEndpoint := activeRelay + 1, 0;
      }
    }

    /** Moves on to the next endpoint, of this relay or of a later one. */
    method NextEndpoint()
      requires Searching() && activeRelay < |relays| && Left() != []
      modifies this
      ensures Searching() && Left() == old(Left())[1..] && (activeRelay == |relays| ==> Left() == [])
    {
      ghost var next := if activeRelay >= 0 then From(relays, activeRelay, activeRelayEndpoint + 1) else [];
      if activeRelay < 0 || activeRelayEndpoint >= relays[activeRelay] - 1 {
        NextRelay();
      } else {
        activeRelayEndpoint := activeRelayEndpoint + 1;
      }
    }

    /**
      HttpRequest::Execute. With no relay chosen, the attempts are a first part of all attempts: it ends at the
      first that does not fail to connect, whose target stays chosen, or when all have failed. With a relay
      chosen, or all of them found wanting, there is one attempt and nothing is chosen anew.
     */
    method Execute() returns (failed: bool, attempts: seq<Attempt>, codes: seq<Code>)
      requires activeRelay >= -1
      modifies this
      ensures |codes| == |attempts| > 0 && failed == (codes[|codes| - 1] != Fine)
      ensures old(activeRelay) >= 0 ==> attempts == [old(Target())] && activeRelay == old(activeRelay)
                                        && activeRelayEndpoint == old(activeRelayEndpoint)
      ensures old(activeRelay) == -1 ==>
                && attempts <= All(relays) && (forall i :: 0 <= i < |codes| - 1 ==> codes[i] == Unreachable)
                && (if codes[|codes| - 1] == Unreachable then attempts == All(relays) && activeRelay == |relays|
                    else activeRelay < |relays| && Target() == attempts[|attempts| - 1])
    {
      if activeRelay >= 0 {
        var rtn: Code := *;
        attempts, codes, failed := [Target()], [rtn], rtn != Fine;
        return;
      }
      attempts, codes := Search();
      failed := codes[|codes| - 1] != Fine;
    }

    /** The loop of Execute. */
    method Search() returns (attempts: seq<Attempt>, codes: seq<Code>)
      requires activeRelay == -1
      modifies this
      ensures |codes| == |attempts| > 0 && attempts <= All(relays)
      ensures forall i :: 0 <= i < |codes| - 1 ==> codes[i] == Unreachable
      ensures if codes[|codes| - 1] == Unreachable then attempts == All(relays) && activeRelay == |relays|
              else activeRelay < |relays| && Target() == attempts[|attempts| - 1]
    {
      hide From, All;
      attempts, codes := [], [];
      ghost var left := Left();
      hide Left, Parted;
      PartedStart(left);
      while activeRelay < |relays|
        invariant Searching() && left == Left() && Parted(attempts, left, All(relays))
        invariant |codes| == |attempts| && (activeRelay >= 0 ==> |codes| > 0)
        invariant forall i :: 0 <= i < |codes| ==> codes[i] == Unreachable
        invariant activeRelay == |relays| ==> left == []
        decreases |left|
      {
        LeftHead();
        var rtn: Code := *;
        Shift(attempts, left, All(relays));
        attempts, codes, left := attempts + [Target()], codes + [rtn], left[1..];
        if rtn != Unreachable {
          break;
        }
        NextEndpoint();
      }
    }

    /** The attempts made, and those left, are all. */
    ghost predicate Parted(attempts: seq<Attempt>, left: seq<Attempt>, all: seq<Attempt>) { attempts + left == all }

    lemma PartedStart(all: seq<Attempt>)
      ensures Parted([], all, all)
    {
      assert [] + all == all;
    }

    lemma Shift(attempts: seq<Attempt>, left: seq<Attempt>, all: seq<Attempt>)
      requires Parted(attempts, left, all) && left != []
      ensures Parted(attempts + [left[0]], left[1..], all) && attempts + [left[0]] <= all
      ensures left[1..] == [] ==> attempts + [left[0]] == all
    {
      assert (attempts + [left[0]]) + left[1..] == all;
    }

    lemma LeftHead()
      requires Searching() && activeRelay < |relays|
      ensures Left() != [] && Left()[0] == Target()
    {
    }
  }
}
