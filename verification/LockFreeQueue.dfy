/**
  The lock-free request queue as a machine whose steps are the individual atomic
  loads, stores and compare-exchanges of Produce and Consume, run by any number of
  producers and one consumer in any order.

  Nodes are numbered in allocation order and never reused, so a node that was deleted
  stays recognisable: `freed` remembers it. `chain`, `pos`, `owner` and `consumed` are
  history; no step reads them.
 */
module LockFreeQueue {
  import opened Options

  type Node = nat
  type Pid = nat

  /** Where a producer is inside Produce; the comment is the access it makes next. */
  datatype Producer =
    | Resting                                // new Node
    | Linking(n: Node)                       // load last
    | Swapping(n: Node, tail: Node)          // compare-exchange tail->next from null to n
    | Linked(n: Node)                        // store n to last
    | Counting                               // size += 1
    | Scanning                               // load first
    | Comparing(tmp: Node)                   // load divider
    | Stepping(tmp: Node)                    // load tmp->next
    | Advancing(tmp: Node, following: Node)  // compare-exchange first from tmp to following
    | Freeing(tmp: Node)                     // delete tmp

  /** Where the consumer is inside Consume. */
  datatype Consumer<T> =
    | Outside                                        // load divider
    | AtDivider(d: Node)                             // load last
    | Fetching(d: Node)                              // load d->next
    | Copying(d: Node, following: Node)              // read following->value
    | Copied(d: Node, result: T)                     // load d->next again
    | Moving(d: Node, following: Node, result: T)    // compare-exchange divider from d to following
    | Discounting(result: T)                         // size -= 1, then return true

  datatype State<T> = State(
    next: map<Node, Node>,      // absent means null
    values: map<Node, T>,
    first: Node,
    divider: Node,
    last: Node,
    size: int,
    producers: map<Pid, Producer>,
    consumer: Consumer<T>,
    serial: nat,                 // the next node number
    freed: set<Node>,
    chain: seq<Node>,           // nodes in the order their linking succeeded
    pos: map<Node, nat>,        // the inverse of chain
    owner: map<Node, Pid>,
    consumed: seq<T>
  ) {
    function Pc(p: Pid): Producer {
      if p in producers then producers[p] else Resting
    }

    function At(p: Pid, pc: Producer): State<T> {
      this.(producers := producers[p := pc])
    }
  }

  datatype Action<T> =
    | Allocate(p: Pid, value: T)
    | LoadLast(p: Pid)
    | LinkNode(p: Pid, spurious: bool)
    | MoveLast(p: Pid)
    | Increment(p: Pid)
    | LoadFirst(p: Pid)
    | LoadDivider(p: Pid)
    | LoadNext(p: Pid)
    | MoveFirst(p: Pid, spurious: bool)
    | Delete(p: Pid)
    | ReadDivider
    | ReadLast
    | ReadNext
    | ReadValue
    | RereadNext
    | MoveDivider(spurious: bool)
    | Decrement

  predicate ByProducer<T>(a: Action<T>) {
    !(a.ReadDivider? || a.ReadLast? || a.ReadNext? || a.ReadValue? || a.RereadNext? || a.MoveDivider? || a.Decrement?)
  }

  /** The queue as its constructor leaves it: one dummy node. */
  function Init<T>(): State<T> {
    State(map[], map[], 0, 0, 0, 0, map[], Outside, 1, {}, [0], map[0 := 0], map[], [])
  }

  /** The step can be taken: control is there, and the pointer it follows is not null. */
  predicate Enabled<T>(s: State<T>, a: Action<T>) {
    match a
    case Allocate(p, _) => s.Pc(p).Resting?
    case LoadLast(p) => s.Pc(p).Linking?
    case LinkNode(p, _) => s.Pc(p).Swapping?
    case MoveLast(p) => s.Pc(p).Linked?
    case Increment(p) => s.Pc(p).Counting?
    case LoadFirst(p) => s.Pc(p).Scanning?
    case LoadDivider(p) => s.Pc(p).Comparing?
    case LoadNext(p) => s.Pc(p).Stepping? && s.Pc(p).tmp in s.next
    case MoveFirst(p, _) => s.Pc(p).Advancing?
    case Delete(p) => s.Pc(p).Freeing?
    case ReadDivider => s.consumer.Outside?
    case ReadLast => s.consumer.AtDivider?
    case ReadNext => s.consumer.Fetching? && s.consumer.d in s.next
    case ReadValue => s.consumer.Copying? && s.consumer.following in s.values
    case RereadNext => s.consumer.Copied? && s.consumer.d in s.next
    case MoveDivider(_) => s.consumer.Moving?
    case Decrement => s.consumer.Discounting?
  }

  // One function for each step; Apply picks the one the action names.

  function Allocated<T>(s: State<T>, p: Pid, v: T): State<T> {
    s.At(p, Linking(s.serial)).(serial := s.serial + 1, values := s.values[s.serial := v],
                                owner := s.owner[s.serial := p])
  }

  function NodeLinked<T>(s: State<T>, p: Pid): State<T>
    requires s.Pc(p).Swapping?
  {
    var n, tail := s.Pc(p).n, s.Pc(p).tail;
    s.At(p, Linked(n)).(next := s.next[tail := n], chain := s.chain + [n], pos := s.pos[n := |s.chain|])
  }

  function LastMoved<T>(s: State<T>, p: Pid): State<T>
    requires s.Pc(p).Linked?
  {
    s.At(p, Counting).(last := s.Pc(p).n)
  }

  function FirstMoved<T>(s: State<T>, p: Pid): State<T>
    requires s.Pc(p).Advancing?
  {
    s.At(p, Freeing(s.Pc(p).tmp)).(first := s.Pc(p).following)
  }

  function Deleted<T>(s: State<T>, p: Pid): State<T>
    requires s.Pc(p).Freeing?
  {
    s.At(p, Scanning).(freed := s.freed + {s.Pc(p).tmp})
  }

  function DividerMoved<T>(s: State<T>): State<T>
    requires s.consumer.Moving?
  {
    s.(divider := s.consumer.following, consumer := Discounting(s.consumer.result),
       consumed := s.consumed + [s.consumer.result])
  }

  function Apply<T>(s: State<T>, a: Action<T>): State<T>
    requires Enabled(s, a)
  {
    match a
    case Allocate(p, v) => Allocated(s, p, v)
    case LoadLast(p) => s.At(p, Swapping(s.Pc(p).n, s.last))
    case LinkNode(p, spurious) =>
      if spurious || s.Pc(p).tail in s.next then s.At(p, Linking(s.Pc(p).n)) else NodeLinked(s, p)
    case MoveLast(p) => LastMoved(s, p)
    case Increment(p) => s.At(p, Scanning).(size := s.size + 1)
    case LoadFirst(p) => s.At(p, Comparing(s.first))
    case LoadDivider(p) => s.At(p, if s.Pc(p).tmp == s.divider then Resting else Stepping(s.Pc(p).tmp))
    case LoadNext(p) => s.At(p, Advancing(s.Pc(p).tmp, s.next[s.Pc(p).tmp]))
    case MoveFirst(p, spurious) =>
      if spurious || s.first != s.Pc(p).tmp then s.At(p, Resting) else FirstMoved(s, p)
    case Delete(p) => Deleted(s, p)
    case ReadDivider => s.(consumer := AtDivider(s.divider))
    case ReadLast => s.(consumer := if s.consumer.d == s.last then Outside else Fetching(s.consumer.d))
    case ReadNext => s.(consumer := Copying(s.consumer.d, s.next[s.consumer.d]))
    case ReadValue => s.(consumer := Copied(s.consumer.d, s.values[s.consumer.following]))
    case RereadNext => s.(consumer := Moving(s.consumer.d, s.next[s.consumer.d], s.consumer.result))
    case MoveDivider(spurious) =>
      if spurious || s.divider != s.consumer.d then s.(consumer := Outside) else DividerMoved(s)
    case Decrement => s.(consumer := Outside, size := s.size - 1)
  }

  /** Where a sequence of steps leads; None when one of them was not possible where it was taken. */
  ghost function Run<T>(acts: seq<Action<T>>): Option<State<T>> {
    if acts == [] then Some(Init())
    else
      var before := Run(acts[..|acts| - 1]);
      if before.Some? && Enabled(before.value, acts[|acts| - 1])
      then Some(Apply(before.value, acts[|acts| - 1]))
      else None
  }

  /** The nodes whose memory the step reads, writes or deletes. */
  function Touches<T>(s: State<T>, a: Action<T>): set<Node>
    requires Enabled(s, a)
  {
    match a
    case LinkNode(p, _) => {s.Pc(p).tail}
    case LoadNext(p) => {s.Pc(p).tmp}
    case Delete(p) => {s.Pc(p).tmp}
    case ReadNext => {s.consumer.d}
    case ReadValue => {s.consumer.following}
    case RereadNext => {s.consumer.d}
    case _ => {}
  }

  // ---- What every step keeps ----

  /** `next` links the nodes of the chain in order; `pos` says where each one is. */
  ghost predicate Chained(chain: seq<Node>, pos: map<Node, nat>, next: map<Node, Node>) {
    && |chain| >= 1
    && chain[0] == 0
    && (forall i :: 0 <= i < |chain| ==> chain[i] in pos && pos[chain[i]] == i)
    && (forall n :: n in pos ==> pos[n] < |chain| && chain[pos[n]] == n)
    && (forall n {:trigger next[n]} :: n in next ==> n in pos && pos[n] + 1 < |chain| && next[n] == chain[pos[n] + 1])
    && (forall n {:trigger n in next} :: n in pos && pos[n] + 1 < |chain| ==> n in next)
  }

  /** first, divider and last stand in chain order, and only nodes before first are freed. */
  ghost predicate Ordered(pos: map<Node, nat>, length: nat, first: Node, divider: Node, last: Node, freed: set<Node>) {
    && first in pos && divider in pos && last in pos
    && pos[first] <= pos[divider] <= pos[last]
    && length - 2 <= pos[last] < length
    && (forall n :: n in freed ==> n in pos && pos[n] < pos[first])
  }

  predicate Holds(pc: Producer, n: Node) {
    (pc.Linking? || pc.Swapping?) && pc.n == n
  }

  /** No node is lost: it is in the chain or still in the hands of the producer that made it. */
  ghost predicate NotLost<T>(s: State<T>, n: Node) {
    n in s.pos || (n in s.owner && Holds(s.Pc(s.owner[n]), n))
  }

  ghost predicate NodesKept<T>(s: State<T>) {
    forall n {:trigger NotLost(s, n)} :: 0 < n < s.serial ==> NotLost(s, n)
  }

  ghost predicate Numbered<T>(serial: nat, values: map<Node, T>, owner: map<Node, Pid>, pos: map<Node, nat>) {
    && (forall n {:trigger n in values} :: n in values <==> 0 < n < serial)
    && (forall n {:trigger n in owner} :: n in owner ==> n < serial)
    && (forall n {:trigger n in pos} :: n in pos ==> n < serial)
  }

  ghost predicate Shape<T>(s: State<T>) {
    && Chained(s.chain, s.pos, s.next)
    && Ordered(s.pos, |s.chain|, s.first, s.divider, s.last, s.freed)
  }

  /** What a producer relies on at each place. */
  ghost predicate ProducerAt<T>(s: State<T>, p: Pid, pc: Producer)
    requires Shape(s)
  {
    match pc
    case Linking(n) => n in s.owner && s.owner[n] == p && 0 < n < s.serial && n !in s.pos
    case Swapping(n, t) =>
      n in s.owner && s.owner[n] == p && 0 < n < s.serial && n !in s.pos && t in s.pos && s.pos[t] <= s.pos[s.last]
    case Linked(n) => n in s.pos && s.pos[n] == |s.chain| - 1 && s.pos[s.last] == |s.chain| - 2
    case Comparing(tmp) => tmp in s.pos && s.pos[tmp] <= s.pos[s.first]
    case Stepping(tmp) => tmp in s.pos && s.pos[tmp] <= s.pos[s.first] && s.pos[tmp] < s.pos[s.divider]
    case Advancing(tmp, f) =>
      && tmp in s.pos && f in s.pos && s.pos[tmp] <= s.pos[s.first] && s.pos[tmp] < s.pos[s.divider]
      && s.pos[f] == s.pos[tmp] + 1
    case Freeing(tmp) => tmp in s.pos && s.pos[tmp] < s.pos[s.first] && tmp !in s.freed
    case _ => true
  }

  ghost predicate ProducersAt<T>(s: State<T>)
    requires Shape(s)
  {
    forall p :: p in s.producers ==> ProducerAt(s, p, s.producers[p])
  }

  /** At most one producer is between linking its node and moving `last`, and no two delete the same node. */
  ghost predicate Exclusive(producers: map<Pid, Producer>) {
    && (forall p, q :: p in producers && q in producers && producers[p].Linked? && producers[q].Linked? ==> p == q)
    && (forall p, q ::
          p in producers && q in producers && producers[p].Freeing? && producers[q] == producers[p] ==> p == q)
  }

  ghost predicate ConsumerAt<T>(c: Consumer<T>, pos: map<Node, nat>, divider: Node, last: Node, next: map<Node, Node>,
                                values: map<Node, T>)
    requires divider in pos && last in pos
  {
    match c
    case Outside => true
    case AtDivider(d) => d == divider
    case Fetching(d) => d == divider && pos[d] < pos[last]
    case Copying(d, f) => d == divider && pos[d] < pos[last] && d in next && f == next[d]
    case Copied(d, r) => d == divider && pos[d] < pos[last] && d in next && next[d] in values && r == values[next[d]]
    case Moving(d, f, r) =>
      d == divider && pos[d] < pos[last] && d in next && f == next[d] && f in values && r == values[f]
    case Discounting(_) => true
  }

  /** What was taken is what was linked first, in that order. */
  ghost predicate Taken<T>(consumed: seq<T>, chain: seq<Node>, values: map<Node, T>) {
    && |consumed| < |chain|
    && (forall i {:trigger chain[i]} :: 0 < i < |chain| ==> chain[i] in values)
    && (forall i {:trigger chain[i]} :: 0 < i <= |consumed| ==> consumed[i - 1] == values[chain[i]])
  }

  /** The producers that have linked their node and not yet counted it. */
  ghost function Uncounted(producers: map<Pid, Producer>): set<Pid> {
    set p | p in producers && (producers[p].Linked? || producers[p].Counting?)
  }

  ghost predicate Tallied(size: int, queued: int, leaving: bool, uncounted: nat) {
    size == queued + (if leaving then 1 else 0) - uncounted
  }

  ghost predicate Inv<T>(s: State<T>) {
    && Shape(s)
    && Numbered(s.serial, s.values, s.owner, s.pos)
    && NodesKept(s)
    && ProducersAt(s)
    && Exclusive(s.producers)
    && ConsumerAt(s.consumer, s.pos, s.divider, s.last, s.next, s.values)
    && |s.consumed| == s.pos[s.divider]
    && Taken(s.consumed, s.chain, s.values)
    && Tallied(s.size, |s.chain| - 1 - s.pos[s.divider], s.consumer.Discounting?, |Uncounted(s.producers)|)
  }

  // ---- Each step keeps it ----

  /** A step moved things forward only: the chain grew at its end, the pointers advanced along it. */
  ghost predicate Forward<T>(s: State<T>, t: State<T>, p: Pid)
    requires Shape(s) && Shape(t)
  {
    && (forall n {:trigger n in s.pos} {:trigger t.pos[n]} :: n in s.pos ==> n in t.pos && t.pos[n] == s.pos[n])
    && (forall n {:trigger n in t.pos} :: n in t.pos && n !in s.pos ==> n in s.owner && s.owner[n] == p)
    && s.pos[s.first] <= t.pos[t.first] && s.pos[s.divider] <= t.pos[t.divider] && s.pos[s.last] <= t.pos[t.last]
    && (forall n {:trigger n in s.owner} {:trigger t.owner[n]} :: n in s.owner ==>
          n in t.owner && t.owner[n] == s.owner[n])
    && s.serial <= t.serial
  }

  lemma PlaceStays<T>(s: State<T>, t: State<T>, p: Pid, q: Pid, pc: Producer)
    requires Shape(s) && Shape(t) && Forward(s, t, p) && p != q && ProducerAt(s, q, pc)
    requires pc.Linked? ==> |t.chain| == |s.chain| && t.last == s.last
    requires pc.Freeing? ==> pc.tmp !in t.freed
    ensures ProducerAt(t, q, pc)
  {
  }

  /** When p moves on, the others' places stay good. */
  lemma PlacesKept<T>(s: State<T>, t: State<T>, p: Pid, pc: Producer)
    requires Shape(s) && Shape(t) && Forward(s, t, p) && ProducersAt(s) && Exclusive(s.producers)
    requires t.producers == s.producers[p := pc] && ProducerAt(t, p, pc)
    requires (|t.chain| == |s.chain| && t.last == s.last)
             || (forall q :: q in s.producers && s.producers[q].Linked? ==> q == p)
    requires t.freed == s.freed || (s.Pc(p).Freeing? && t.freed == s.freed + {s.Pc(p).tmp})
    ensures ProducersAt(t)
  {
    forall q | q in s.producers && q != p ensures ProducerAt(t, q, s.producers[q]) {
      PlaceStays(s, t, p, q, s.producers[q]);
    }
  }

  /** When p moves on, no node is lost. */
  lemma NodesStayKept<T>(s: State<T>, t: State<T>, p: Pid, pc: Producer)
    requires NodesKept(s) && t.producers == s.producers[p := pc]
    requires forall n {:trigger n in s.pos} :: n in s.pos ==> n in t.pos
    requires forall n {:trigger t.owner[n]} :: n in s.owner ==> n in t.owner && t.owner[n] == s.owner[n]
    requires forall n :: s.serial <= n < t.serial ==> n in t.owner && t.owner[n] == p && Holds(pc, n)
    requires forall n :: Holds(s.Pc(p), n) ==> n in t.pos || Holds(pc, n)
    ensures NodesKept(t)
  {
    forall n | 0 < n < t.serial ensures NotLost(t, n) {
      if n < s.serial {
        assert NotLost(s, n);
        assert n in s.owner ==> t.owner[n] == s.owner[n];
      }
    }
  }

  lemma UncountedAfter(m: map<Pid, Producer>, p: Pid, pc: Producer)
    ensures |Uncounted(m[p := pc])| ==
            |Uncounted(m)| - (if p in Uncounted(m) then 1 else 0) + (if pc.Linked? || pc.Counting? then 1 else 0)
  {
    var rest := Uncounted(m) - {p};
    assert Uncounted(m) == if p in Uncounted(m) then rest + {p} else rest;
    assert Uncounted(m[p := pc]) == if pc.Linked? || pc.Counting? then rest + {p} else rest;
  }

  lemma StillExclusive(m: map<Pid, Producer>, p: Pid, pc: Producer)
    requires Exclusive(m)
    requires pc.Linked? ==> forall q :: q in m ==> !m[q].Linked?
    requires pc.Freeing? ==> forall q :: q in m ==> m[q] != pc
    ensures Exclusive(m[p := pc])
  {
  }

  lemma AllocatedPlaces<T>(s: State<T>, p: Pid, v: T)
    requires Inv(s) && s.Pc(p).Resting?
    ensures Shape(Allocated(s, p, v)) && NodesKept(Allocated(s, p, v)) && ProducersAt(Allocated(s, p, v))
  {
    var t, pc := Allocated(s, p, v), Linking(s.serial);
    assert Forward(s, t, p);
    NodesStayKept(s, t, p, pc);
    PlacesKept(s, t, p, pc);
  }

  lemma AllocatedKeeps<T>(s: State<T>, p: Pid, v: T)
    requires Inv(s) && s.Pc(p).Resting?
    ensures Inv(Allocated(s, p, v))
  {
    var pc := Linking(s.serial);
    AllocatedPlaces(s, p, v);
    StillExclusive(s.producers, p, pc);
    UncountedAfter(s.producers, p, pc);
  }

  lemma ChainGrows(chain: seq<Node>, pos: map<Node, nat>, next: map<Node, Node>, tail: Node, n: Node)
    requires Chained(chain, pos, next) && tail in pos && tail !in next && n !in pos
    ensures pos[tail] == |chain| - 1
    ensures Chained(chain + [n], pos[n := |chain|], next[tail := n])
  {
  }

  /** Linking succeeds only at the end of the chain, and only when no other producer is between its two stores. */
  lemma LinkingIsAlone<T>(s: State<T>, p: Pid)
    requires Inv(s) && s.Pc(p).Swapping? && s.Pc(p).tail !in s.next
    ensures s.pos[s.last] == |s.chain| - 1
    ensures Shape(NodeLinked(s, p)) && Forward(s, NodeLinked(s, p), p)
    ensures forall q :: q in s.producers ==> !s.producers[q].Linked?
  {
    assert ProducerAt(s, p, s.producers[p]);
    ChainGrows(s.chain, s.pos, s.next, s.Pc(p).tail, s.Pc(p).n);
    forall q | q in s.producers ensures !s.producers[q].Linked? {
      assert ProducerAt(s, q, s.producers[q]);
    }
  }

  lemma NodeLinkedPlaces<T>(s: State<T>, p: Pid)
    requires Inv(s) && s.Pc(p).Swapping? && s.Pc(p).tail !in s.next
    ensures Shape(NodeLinked(s, p)) && NodesKept(NodeLinked(s, p)) && ProducersAt(NodeLinked(s, p))
  {
    var t, pc := NodeLinked(s, p), Linked(s.Pc(p).n);
    LinkingIsAlone(s, p);
    NodesStayKept(s, t, p, pc);
    PlacesKept(s, t, p, pc);
  }

  lemma NodeLinkedKeeps<T>(s: State<T>, p: Pid)
    requires Inv(s) && s.Pc(p).Swapping? && s.Pc(p).tail !in s.next
    ensures Inv(NodeLinked(s, p))
  {
    var t, pc := NodeLinked(s, p), Linked(s.Pc(p).n);
    assert ProducerAt(s, p, s.producers[p]);
    LinkingIsAlone(s, p);
    NodeLinkedPlaces(s, p);
    StillExclusive(s.producers, p, pc);
    UncountedAfter(s.producers, p, pc);
    assert t.chain[|s.chain|] == pc.n;
  }

  lemma LastMovedKeeps<T>(s: State<T>, p: Pid)
    requires Inv(s) && s.Pc(p).Linked?
    ensures Inv(LastMoved(s, p))
  {
    var t := LastMoved(s, p);
    assert ProducerAt(s, p, s.producers[p]);
    NodesStayKept(s, t, p, Counting);
    PlacesKept(s, t, p, Counting);
    StillExclusive(s.producers, p, Counting);
    UncountedAfter(s.producers, p, Counting);
  }

  lemma FirstMovedKeeps<T>(s: State<T>, p: Pid)
    requires Inv(s) && s.Pc(p).Advancing? && s.first == s.Pc(p).tmp
    ensures Inv(FirstMoved(s, p))
  {
    var t, pc := FirstMoved(s, p), Freeing(s.first);
    assert ProducerAt(s, p, s.producers[p]);
    NodesStayKept(s, t, p, pc);
    PlacesKept(s, t, p, pc);
    forall q | q in s.producers && s.producers[q].Freeing? ensures s.producers[q].tmp != s.first {
      assert ProducerAt(s, q, s.producers[q]);
    }
    StillExclusive(s.producers, p, pc);
    UncountedAfter(s.producers, p, pc);
  }

  lemma DeletedKeeps<T>(s: State<T>, p: Pid)
    requires Inv(s) && s.Pc(p).Freeing?
    ensures Inv(Deleted(s, p))
  {
    var t := Deleted(s, p);
    assert ProducerAt(s, p, s.producers[p]);
    NodesStayKept(s, t, p, Scanning);
    PlacesKept(s, t, p, Scanning);
    StillExclusive(s.producers, p, Scanning);
    UncountedAfter(s.producers, p, Scanning);
  }

  /** A step that changes nothing but one producer's place, and `size` when it counts its node. */
  lemma PlaceKeeps<T>(s: State<T>, p: Pid, pc: Producer, size: int)
    requires Inv(s) && ProducerAt(s, p, pc) && !pc.Linked? && !pc.Counting? && !pc.Freeing? && !s.Pc(p).Linked?
    requires forall n :: Holds(s.Pc(p), n) ==> Holds(pc, n)
    requires size == s.size + (if s.Pc(p).Counting? then 1 else 0)
    ensures Inv(s.At(p, pc).(size := size))
  {
    var t := s.At(p, pc).(size := size);
    NodesStayKept(s, t, p, pc);
    PlacesKept(s, t, p, pc);
    StillExclusive(s.producers, p, pc);
    UncountedAfter(s.producers, p, pc);
  }

  /** A consumer step leaves every producer's place as good as it was. */
  lemma ProducersUnmoved<T>(s: State<T>, t: State<T>)
    requires Shape(s) && NodesKept(s) && ProducersAt(s) && Shape(t)
    requires t == s.(divider := t.divider, consumer := t.consumer, consumed := t.consumed, size := t.size)
    requires s.pos[s.divider] <= t.pos[t.divider]
    ensures NodesKept(t) && ProducersAt(t)
  {
    forall n | 0 < n < t.serial ensures NotLost(t, n) {
      assert NotLost(s, n);
    }
    forall q | q in t.producers ensures ProducerAt(t, q, t.producers[q]) {
      assert ProducerAt(s, q, s.producers[q]);
    }
  }

  lemma DividerMovedKeeps<T>(s: State<T>)
    requires Inv(s) && s.consumer.Moving?
    ensures Inv(DividerMoved(s))
  {
    var t := DividerMoved(s);
    assert t.pos[t.divider] == s.pos[s.divider] + 1;
    ProducersUnmoved(s, t);
  }

  /** A consumer step that only changes the consumer's place, and `size` when it leaves. */
  lemma ConsumerPlaceKeeps<T>(s: State<T>, c: Consumer<T>, size: int)
    requires Inv(s) && ConsumerAt(c, s.pos, s.divider, s.last, s.next, s.values) && !c.Discounting?
    requires size == s.size - (if s.consumer.Discounting? then 1 else 0)
    ensures Inv(s.(consumer := c, size := size))
  {
    ProducersUnmoved(s, s.(consumer := c, size := size));
  }

  lemma LoadKeeps<T>(s: State<T>, a: Action<T>)
    requires Inv(s) && Enabled(s, a) && (a.LoadLast? || a.Increment? || a.LoadFirst?)
    ensures Inv(Apply(s, a))
  {
    hide Numbered, NodesKept, Exclusive, ConsumerAt, Taken, Tallied, Uncounted;
    assert ProducerAt(s, a.p, s.producers[a.p]);
    match a
    case LoadLast(p) => PlaceKeeps(s, p, Swapping(s.Pc(p).n, s.last), s.size);
    case Increment(p) => PlaceKeeps(s, p, Scanning, s.size + 1);
    case LoadFirst(p) => PlaceKeeps(s, p, Comparing(s.first), s.size);
  }

  /** Seeing that first is not the divider is seeing that it is before the divider. */
  lemma ScanKeeps<T>(s: State<T>, a: Action<T>)
    requires Inv(s) && Enabled(s, a) && (a.LoadDivider? || a.LoadNext?)
    ensures Inv(Apply(s, a))
  {
    assert ProducerAt(s, a.p, s.producers[a.p]);
    var tmp := s.Pc(a.p).tmp;
    if a.LoadNext? {
      PlaceKeeps(s, a.p, Advancing(tmp, s.next[tmp]), s.size);
    } else if tmp == s.divider {
      PlaceKeeps(s, a.p, Resting, s.size);
    } else {
      assert s.chain[s.pos[tmp]] == tmp && s.chain[s.pos[s.divider]] == s.divider;
      PlaceKeeps(s, a.p, Stepping(tmp), s.size);
    }
  }

  lemma ExchangeKeeps<T>(s: State<T>, a: Action<T>)
    requires Inv(s) && Enabled(s, a) && (a.LinkNode? || a.MoveFirst?)
    ensures Inv(Apply(s, a))
  {
    assert ProducerAt(s, a.p, s.producers[a.p]);
    if a.LinkNode? {
      if a.spurious || s.Pc(a.p).tail in s.next {
        PlaceKeeps(s, a.p, Linking(s.Pc(a.p).n), s.size);
      } else {
        NodeLinkedKeeps(s, a.p);
      }
    } else if a.spurious || s.first != s.Pc(a.p).tmp {
      PlaceKeeps(s, a.p, Resting, s.size);
    } else {
      FirstMovedKeeps(s, a.p);
    }
  }

  lemma ConsumerReadKeeps<T>(s: State<T>, a: Action<T>)
    requires Inv(s) && Enabled(s, a) && (a.ReadLast? || a.ReadNext? || a.ReadValue? || a.RereadNext?)
    ensures Inv(Apply(s, a))
  {
    hide Numbered, NodesKept, ProducersAt, Exclusive, Taken, Tallied, Uncounted;
    var t := Apply(s, a);
    assert ConsumerAt(t.consumer, s.pos, s.divider, s.last, s.next, s.values) by {
      if a.ReadLast? {
        assert s.chain[s.pos[s.consumer.d]] == s.consumer.d && s.chain[s.pos[s.last]] == s.last;
      }
    }
    ConsumerPlaceKeeps(s, t.consumer, s.size);
  }

  lemma ConsumerStepKeeps<T>(s: State<T>, a: Action<T>)
    requires Inv(s) && Enabled(s, a) && !ByProducer(a)
    ensures Inv(Apply(s, a))
  {
    if a.MoveDivider? && !a.spurious {
      DividerMovedKeeps(s);
    } else if a.ReadDivider? || a.Decrement? || a.MoveDivider? {
      ConsumerPlaceKeeps(s, Apply(s, a).consumer, Apply(s, a).size);
    } else {
      ConsumerReadKeeps(s, a);
    }
  }

  lemma ProducerStepKeeps<T>(s: State<T>, a: Action<T>)
    requires Inv(s) && Enabled(s, a) && ByProducer(a)
    ensures Inv(Apply(s, a))
  {
    match a
    case Allocate(p, v) => AllocatedKeeps(s, p, v);
    case MoveLast(p) => LastMovedKeeps(s, p);
    case Delete(p) => DeletedKeeps(s, p);
    case LinkNode(_, _) => ExchangeKeeps(s, a);
    case MoveFirst(_, _) => ExchangeKeeps(s, a);
    case LoadDivider(_) => ScanKeeps(s, a);
    case LoadNext(_) => ScanKeeps(s, a);
    case _ => LoadKeeps(s, a);
  }

  /** Every step of every interleaving keeps the invariant. */
  lemma StepKeeps<T>(s: State<T>, a: Action<T>)
    requires Inv(s) && Enabled(s, a)
    ensures Inv(Apply(s, a))
  {
    if ByProducer(a) {
      ProducerStepKeeps(s, a);
    } else {
      ConsumerStepKeeps(s, a);
    }
  }

  lemma {:induction false} RunKeeps<T>(acts: seq<Action<T>>)
    requires Run(acts).Some?
    ensures Inv(Run(acts).value)
  {
    if acts == [] {
      assert Uncounted(Init<T>().producers) == {};
    } else {
      RunKeeps(acts[..|acts| - 1]);
      StepKeeps(Run(acts[..|acts| - 1]).value, acts[|acts| - 1]);
    }
  }

  /** Nodes keep their place in the chain and their value; last and the divider only move along it. */
  ghost predicate Advances<T>(s: State<T>, t: State<T>) {
    && (forall n {:trigger n in s.pos} :: n in s.pos ==> n in t.pos && t.pos[n] == s.pos[n])
    && (forall n {:trigger n in s.values} :: n in s.values ==> n in t.values && t.values[n] == s.values[n])
    && s.last in s.pos && t.last in t.pos && s.pos[s.last] <= t.pos[t.last]
    && s.divider in s.pos && t.divider in t.pos && s.pos[s.divider] <= t.pos[t.divider]
  }

  lemma MoveAdvances<T>(s: State<T>, a: Action<T>)
    requires Enabled(s, a) && s.last in s.pos && s.divider in s.pos
    requires a.Allocate? ==> s.serial !in s.values
    requires a.LinkNode? ==> s.Pc(a.p).n !in s.pos
    requires a.MoveLast? ==> s.Pc(a.p).n in s.pos && s.pos[s.last] <= s.pos[s.Pc(a.p).n]
    requires a.MoveDivider? ==> s.consumer.following in s.pos && s.pos[s.divider] <= s.pos[s.consumer.following]
    ensures Advances(s, Apply(s, a))
  {
    if !(a.Allocate? || a.LinkNode? || a.MoveLast? || a.MoveDivider?) {
      StaysPut(s, a);
    }
  }

  lemma StaysPut<T>(s: State<T>, a: Action<T>)
    requires Enabled(s, a) && !(a.Allocate? || a.LinkNode? || a.MoveLast? || a.MoveDivider?)
    ensures var t := Apply(s, a); t.pos == s.pos && t.values == s.values && t.last == s.last && t.divider == s.divider
  {
  }

  lemma StepAdvances<T>(s: State<T>, a: Action<T>)
    requires Inv(s) && Enabled(s, a)
    ensures Advances(s, Apply(s, a))
  {
    if a.LinkNode? || a.MoveLast? {
      assert ProducerAt(s, a.p, s.producers[a.p]);
    }
    MoveAdvances(s, a);
  }

  // ---- What the callers see ----

  /** The values handed to Produce, in call order. */
  ghost function Offered<T>(acts: seq<Action<T>>): seq<T> {
    if acts == [] then []
    else
      var a := acts[|acts| - 1];
      Offered(acts[..|acts| - 1]) + (if a.Allocate? then [a.value] else [])
  }

  /** The values whose compare-exchange onto the end of the chain succeeded, in that order. */
  ghost function LinkOrder<T>(acts: seq<Action<T>>): seq<T> {
    if acts == [] then []
    else
      var s, a := Run(acts[..|acts| - 1]), acts[|acts| - 1];
      LinkOrder(acts[..|acts| - 1]) +
      (if s.Some? && Links(s.value, a) then [s.value.values[s.value.Pc(a.p).n]] else [])
  }

  /** The values Consume returned, in that order. */
  ghost function Returned<T>(acts: seq<Action<T>>): seq<T> {
    if acts == [] then []
    else
      var s, a := Run(acts[..|acts| - 1]), acts[|acts| - 1];
      Returned(acts[..|acts| - 1]) +
      (if s.Some? && a.Decrement? && Enabled(s.value, a) then [s.value.consumer.result] else [])
  }

  ghost predicate OfferedLog<T>(serial: nat, values: map<Node, T>, offered: seq<T>) {
    && |offered| == serial - 1
    && (forall n {:trigger n in values} :: 0 < n < serial ==> n in values && values[n] == offered[n - 1])
  }

  ghost predicate LinkedLog<T>(chain: seq<Node>, values: map<Node, T>, linked: seq<T>) {
    && |linked| == |chain| - 1
    && (forall i {:trigger chain[i]} :: 0 < i < |chain| ==> chain[i] in values && values[chain[i]] == linked[i - 1])
  }

  ghost predicate ReturnedLog<T>(consumed: seq<T>, c: Consumer<T>, returned: seq<T>) {
    consumed == returned + (if c.Discounting? then [c.result] else [])
  }

  ghost predicate Logged<T>(s: State<T>, offered: seq<T>, linked: seq<T>, returned: seq<T>) {
    && OfferedLog(s.serial, s.values, offered)
    && LinkedLog(s.chain, s.values, linked)
    && ReturnedLog(s.consumed, s.consumer, returned)
  }

  lemma StepOffers<T>(s: State<T>, a: Action<T>, offered: seq<T>)
    requires Enabled(s, a) && OfferedLog(s.serial, s.values, offered)
    ensures OfferedLog(Apply(s, a).serial, Apply(s, a).values, offered + if a.Allocate? then [a.value] else [])
  {
    assert offered + [] == offered;
  }

  /** The step is a compare-exchange that succeeds in linking a node. */
  predicate Links<T>(s: State<T>, a: Action<T>) {
    a.LinkNode? && Enabled(s, a) && !a.spurious && s.Pc(a.p).tail !in s.next && s.Pc(a.p).n in s.values
  }

  lemma StepLinks<T>(s: State<T>, a: Action<T>, linked: seq<T>)
    requires Enabled(s, a) && LinkedLog(s.chain, s.values, linked) && |s.chain| > 0
    requires s.serial !in s.values && (a.LinkNode? ==> s.Pc(a.p).n in s.values)
    ensures LinkedLog(Apply(s, a).chain, Apply(s, a).values, linked + if Links(s, a) then [s.values[s.Pc(a.p).n]]
                                                                      else [])
  {
    assert linked + [] == linked;
  }

  lemma StepReturns<T>(s: State<T>, a: Action<T>, returned: seq<T>)
    requires Enabled(s, a) && ReturnedLog(s.consumed, s.consumer, returned)
    ensures ReturnedLog(Apply(s, a).consumed, Apply(s, a).consumer, returned + if a.Decrement? then [s.consumer.result]
                                                                               else [])
  {
    assert returned + [] == returned;
  }

  lemma {:induction false} RunLogged<T>(acts: seq<Action<T>>)
    requires Run(acts).Some?
    ensures Logged(Run(acts).value, Offered(acts), LinkOrder(acts), Returned(acts))
  {
    if acts != [] {
      var before := acts[..|acts| - 1];
      RunLogged(before);
      RunKeeps(before);
      var s, a := Run(before).value, acts[|acts| - 1];
      if a.LinkNode? {
        assert ProducerAt(s, a.p, s.producers[a.p]);
      }
      StepOffers(s, a, Offered(before));
      StepLinks(s, a, LinkOrder(before));
      StepReturns(s, a, Returned(before));
    }
  }

  /**
    First in, first out, nothing lost and nothing repeated, for every interleaving of any number
    of producers with the consumer: what Consume returned is a prefix of the link order, the rest
    of the link order is what the chain still holds after the divider (save one value the consumer
    has taken and is about to return), every value offered is linked at most once, under its own
    node, or is still in the hands of the producer that offered it, and every value linked was
    offered, under the node at its place.
   */
  lemma FirstInFirstOut<T>(acts: seq<Action<T>>)
    requires Run(acts).Some?
    ensures Returned(acts) <= LinkOrder(acts)
    ensures var s := Run(acts).value;
            s.divider in s.pos &&
            |LinkOrder(acts)| ==
              |Returned(acts)| + (if s.consumer.Discounting? then 1 else 0) + (|s.chain| - 1 - s.pos[s.divider])
    ensures forall k :: 0 <= k < |Offered(acts)| ==>
              Accounted(Run(acts).value, LinkOrder(acts), k + 1, Offered(acts)[k])
    ensures forall i :: 0 <= i < |LinkOrder(acts)| ==> WasOffered(Run(acts).value, Offered(acts), i, LinkOrder(acts)[i])
  {
    RunKeeps(acts);
    RunLogged(acts);
    hide Run, Offered, LinkOrder, Returned, ProducersAt, ConsumerAt, Exclusive, Tallied, NodesKept, Numbered, Accounted,
         WasOffered;
    var s, linked := Run(acts).value, LinkOrder(acts);
    forall i | 0 <= i < |s.consumed| ensures s.consumed[i] == linked[i] {
      assert s.chain[i + 1] in s.values;
    }
    forall k | 0 <= k < |Offered(acts)| ensures Accounted(s, linked, k + 1, Offered(acts)[k]) {
      EachAccounted(s, linked, Offered(acts), k);
    }
    forall i | 0 <= i < |linked| ensures WasOffered(s, Offered(acts), i, linked[i]) {
      EachOffered(s, linked, Offered(acts), i);
    }
  }

  lemma EachAccounted<T>(s: State<T>, linked: seq<T>, offered: seq<T>, k: nat)
    requires Inv(s) && OfferedLog(s.serial, s.values, offered) && LinkedLog(s.chain, s.values, linked) && k < |offered|
    ensures Accounted(s, linked, k + 1, offered[k])
  {
    hide ProducersAt, ConsumerAt, Exclusive, Tallied, Taken, Uncounted;
    assert k + 1 in s.values && NotLost(s, k + 1);
    if k + 1 in s.pos {
      assert s.chain[s.pos[k + 1]] == k + 1 && s.chain[0] == 0;
    }
  }

  lemma EachOffered<T>(s: State<T>, linked: seq<T>, offered: seq<T>, i: nat)
    requires Inv(s) && OfferedLog(s.serial, s.values, offered) && LinkedLog(s.chain, s.values, linked) && i < |linked|
    ensures WasOffered(s, offered, i, linked[i])
  {
    hide ProducersAt, ConsumerAt, Exclusive, Tallied, Taken, Uncounted, NodesKept;
    assert s.chain[i + 1] in s.pos && s.chain[i + 1] in s.values;
  }

  /** The value offered under node n is in the link order at that node's one place, or is not linked yet. */
  ghost predicate Accounted<T>(s: State<T>, linked: seq<T>, n: Node, value: T) {
    if n in s.pos
    then 0 < s.pos[n] <= |linked| < |s.chain| && s.chain[s.pos[n]] == n && linked[s.pos[n] - 1] == value
    else n in s.owner && Holds(s.Pc(s.owner[n]), n)
  }

  /** The value at a place of the link order was offered under the node at that place of the chain. */
  ghost predicate WasOffered<T>(s: State<T>, offered: seq<T>, i: nat, value: T) {
    i + 1 < |s.chain| &&
    var n := s.chain[i + 1];
    n in s.pos && s.pos[n] == i + 1 && 0 < n <= |offered| && offered[n - 1] == value
  }

  /** At most one producer is ever between linking its node and moving `last`. */
  lemma OneLinkerAtATime<T>(acts: seq<Action<T>>, p: Pid, q: Pid)
    requires Run(acts).Some? && Run(acts).value.Pc(p).Linked? && Run(acts).value.Pc(q).Linked?
    ensures p == q
  {
    RunKeeps(acts);
  }

  /** Wherever control is, its next step can be taken: no pointer a step follows is null. */
  predicate Unstuck<T>(s: State<T>) {
    && (s.consumer.Fetching? ==> Enabled(s, ReadNext))
    && (s.consumer.Copying? ==> Enabled(s, ReadValue))
    && (s.consumer.Copied? ==> Enabled(s, RereadNext))
    && (forall p :: p in s.producers && s.producers[p].Stepping? ==> Enabled(s, LoadNext(p)))
  }

  lemma NoNullIsFollowed<T>(acts: seq<Action<T>>)
    requires Run(acts).Some?
    ensures Unstuck(Run(acts).value)
  {
    RunKeeps(acts);
    var s := Run(acts).value;
    forall p | p in s.producers && s.producers[p].Stepping? ensures Enabled(s, LoadNext(p)) {
      assert ProducerAt(s, p, s.producers[p]);
    }
    ConsumerUnstuck(s.consumer, s.pos, s.divider, s.last, s.chain, s.next, s.values, s.consumed);
  }

  lemma ConsumerUnstuck<T>(c: Consumer<T>, pos: map<Node, nat>, divider: Node, last: Node, chain: seq<Node>,
                           next: map<Node, Node>, values: map<Node, T>, consumed: seq<T>)
    requires Chained(chain, pos, next) && Taken(consumed, chain, values) && divider in pos && last in pos
    requires ConsumerAt(c, pos, divider, last, next, values)
    ensures c.Fetching? || c.Copied? ==> c.d in next
    ensures c.Copying? ==> c.following in values
  {
    if c.Fetching? || c.Copied? || c.Copying? {
      assert c.d in next && next[c.d] == chain[pos[c.d] + 1];
    }
  }

  /** The counter is the queue length, plus a removal not yet subtracted, less the links not yet added. */
  lemma SizeIsLength<T>(acts: seq<Action<T>>)
    requires Run(acts).Some?
    ensures var s := Run(acts).value;
            s.size == |LinkOrder(acts)| - |Returned(acts)| - |Uncounted(s.producers)|
  {
    RunLogged(acts);
    RunKeeps(acts);
  }

  // ---- Reclamation ----

  /** No step of the run read, wrote or deleted a node that had been deleted before it. */
  ghost predicate Safe<T>(acts: seq<Action<T>>)
    requires Run(acts).Some?
  {
    acts == [] ||
    (Safe(acts[..|acts| - 1])
     && Touches(Run(acts[..|acts| - 1]).value, acts[|acts| - 1]) !! Run(acts[..|acts| - 1]).value.freed)
  }

  predicate OnlyBy<T>(acts: seq<Action<T>>, ps: set<Pid>) {
    forall i :: 0 <= i < |acts| && ByProducer(acts[i]) ==> acts[i].p in ps
  }

  /** With a single producer, what it read of `last` and `first` is still what they hold. */
  ghost predicate Solo<T>(s: State<T>, p: Pid) {
    && (forall q :: q in s.producers ==> q == p)
    && (s.Pc(p).Swapping? ==> s.Pc(p).tail == s.last)
    && (s.Pc(p).Comparing? || s.Pc(p).Stepping? || s.Pc(p).Advancing? ==> s.Pc(p).tmp == s.first)
  }

  lemma SoloStep<T>(s: State<T>, a: Action<T>, p: Pid)
    requires Enabled(s, a) && Solo(s, p) && ByProducer(a) && a.p == p
    ensures Solo(Apply(s, a), p)
  {
  }

  lemma SoloConsumerStep<T>(s: State<T>, a: Action<T>, p: Pid)
    requires Enabled(s, a) && Solo(s, p) && !ByProducer(a)
    ensures Solo(Apply(s, a), p)
  {
    assert Apply(s, a).producers == s.producers && Apply(s, a).last == s.last && Apply(s, a).first == s.first;
  }

  /** The consumer is safe whoever produces: it stays at or after the divider. */
  lemma ConsumerIsSafe<T>(s: State<T>, a: Action<T>)
    requires Inv(s) && Enabled(s, a) && !ByProducer(a)
    ensures Touches(s, a) !! s.freed
  {
    if a.ReadValue? {
      assert s.consumer.d in s.next && s.consumer.following == s.chain[s.pos[s.divider] + 1];
      assert s.pos[s.consumer.following] == s.pos[s.divider] + 1;
    }
  }

  lemma SoloProducerIsSafe<T>(s: State<T>, a: Action<T>, p: Pid)
    requires Inv(s) && Enabled(s, a) && Solo(s, p) && ByProducer(a) && a.p == p
    ensures Touches(s, a) !! s.freed
  {
    if a.Delete? {
      assert ProducerAt(s, p, s.producers[p]);
    }
  }

  lemma {:induction false} SoloRun<T>(acts: seq<Action<T>>, p: Pid)
    requires Run(acts).Some? && OnlyBy(acts, {p})
    ensures Solo(Run(acts).value, p) && Safe(acts)
  {
    if acts != [] {
      SoloRun(acts[..|acts| - 1], p);
      RunKeeps(acts[..|acts| - 1]);
      var s, a := Run(acts[..|acts| - 1]).value, acts[|acts| - 1];
      if ByProducer(a) {
        SoloStep(s, a, p);
        SoloProducerIsSafe(s, a, p);
      } else {
        SoloConsumerStep(s, a, p);
        ConsumerIsSafe(s, a);
      }
    }
  }

  /** A longer run, told step by step. */
  lemma Extend<T>(acts: seq<Action<T>>, s: State<T>, a: Action<T>) returns (longer: seq<Action<T>>, t: State<T>)
    requires Run(acts) == Some(s) && Enabled(s, a)
    ensures longer == acts + [a] && t == Apply(s, a) && Run(longer) == Some(t)
  {
    longer, t := acts + [a], Apply(s, a);
    assert longer[..|longer| - 1] == acts;
  }

  /** Two producers load `last`. */
  lemma TwoLoads<T>(p: Pid, q: Pid, v: T) returns (acts: seq<Action<T>>, s: State<T>)
    requires p != q
    ensures Run(acts) == Some(s) && OnlyBy(acts, {p, q})
    ensures s.Pc(p) == Swapping(1, 0) && s.Pc(q) == Swapping(2, 0) && s.freed == {} && s.consumer.Outside?
    ensures s.first == s.divider == s.last == 0 && s.next == map[] && 2 in s.values
  {
    acts, s := [], Init();
    assert Run(acts) == Some(s);
    hide Run;
    acts, s := Extend(acts, s, Allocate(p, v));
    acts, s := Extend(acts, s, LoadLast(p));
    acts, s := Extend(acts, s, Allocate(q, v));
    acts, s := Extend(acts, s, LoadLast(q));
  }

  /** One producer loads `last`; another then links its node. */
  lemma StaleTail<T>(p: Pid, q: Pid, v: T) returns (acts: seq<Action<T>>, s: State<T>)
    requires p != q
    ensures Run(acts) == Some(s) && OnlyBy(acts, {p, q})
    ensures s.Pc(p) == Swapping(1, 0) && s.Pc(q) == Scanning && s.freed == {} && s.consumer.Outside?
    ensures s.first == 0 && s.divider == 0 && s.last == 2 && s.next == map[0 := 2] && 2 in s.values
  {
    hide Run;
    acts, s := TwoLoads(p, q, v);
    acts, s := Extend(acts, s, LinkNode(q, false));
    acts, s := Extend(acts, s, MoveLast(q));
    acts, s := Extend(acts, s, Increment(q));
  }

  /** The consumer takes what follows the divider. */
  lemma TakeOne<T>(before: seq<Action<T>>, s0: State<T>, following: Node, ps: set<Pid>)
    returns (acts: seq<Action<T>>, s: State<T>)
    requires Run(before) == Some(s0) && OnlyBy(before, ps) && s0.consumer.Outside? && s0.divider != s0.last
    requires s0.divider in s0.next && s0.next[s0.divider] == following && following in s0.values
    ensures Run(acts) == Some(s) && OnlyBy(acts, ps)
    ensures s == s0.(divider := following, consumer := s.consumer, consumed := s.consumed)
  {
    hide Run;
    acts, s := before, s0;
    acts, s := Extend(acts, s, ReadDivider);
    acts, s := Extend(acts, s, ReadLast);
    acts, s := Extend(acts, s, ReadNext);
    acts, s := Extend(acts, s, ReadValue);
    acts, s := Extend(acts, s, RereadNext);
    acts, s := Extend(acts, s, MoveDivider(false));
  }

  /** A producer unlinks and deletes the first node, which is before the divider. */
  lemma ReclaimOne<T>(before: seq<Action<T>>, s0: State<T>, q: Pid, ps: set<Pid>)
    returns (acts: seq<Action<T>>, s: State<T>)
    requires Run(before) == Some(s0) && OnlyBy(before, ps) && q in ps && s0.Pc(q).Scanning?
    requires s0.first != s0.divider && s0.first in s0.next
    ensures Run(acts) == Some(s) && OnlyBy(acts, ps)
    ensures s == s0.At(q, Scanning).(first := s0.next[s0.first], freed := s0.freed + {s0.first})
  {
    hide Run;
    acts, s := before, s0;
    acts, s := Extend(acts, s, LoadFirst(q));
    acts, s := Extend(acts, s, LoadDivider(q));
    acts, s := Extend(acts, s, LoadNext(q));
    acts, s := Extend(acts, s, MoveFirst(q, false));
    acts, s := Extend(acts, s, Delete(q));
  }

  /** The second producer deletes the node the first is about to write to. */
  lemma TwoProducersCollide<T>(p: Pid, q: Pid, v: T) returns (acts: seq<Action<T>>)
    requires p != q
    ensures Run(acts).Some? && OnlyBy(acts, {p, q}) && !Safe(acts)
  {
    var s;
    acts, s := StaleTail(p, q, v);
    acts, s := TakeOne(acts, s, 2, {p, q});
    acts, s := ReclaimOne(acts, s, q, {p, q});
    var before, s0 := acts, s;
    acts, s := Extend(acts, s, LinkNode(p, false));
    assert acts[..|acts| - 1] == before && Touches(s0, LinkNode(p, false)) == {0};
  }

  /**
    The queue never touches a deleted node, in any run, exactly when at most one thread produces.
    (The request queue of the cache has as many producers as there are callers of Read and Write.)
   */
  lemma SafeExactlyWithOneProducer<T>(ps: set<Pid>, v: T)
    ensures (forall acts: seq<Action<T>> :: Run(acts).Some? && OnlyBy(acts, ps) ==> Safe(acts)) <==> |ps| <= 1
  {
    if |ps| <= 1 {
      var p: Pid := if ps == {} then 0 else var p :| p in ps; p;
      assert ps != {} ==> |ps - {p}| == 0;
      assert ps <= {p};
      forall acts: seq<Action<T>> | Run(acts).Some? && OnlyBy(acts, ps) ensures Safe(acts) {
        SoloRun(acts, p);
      }
    } else {
      var p :| p in ps;
      assert |ps - {p}| == |ps| - 1;
      var q :| q in ps - {p};
      var acts := TwoProducersCollide(p, q, v);
    }
  }
}
