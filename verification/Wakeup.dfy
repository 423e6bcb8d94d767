/**
  The cache's worker thread and the callers that wake it. A caller puts its request in the
  lock-free queue, then sets the notification flag and signals the condition variable under
  the mutex. The worker drains the queue, and once Consume reports it empty either flushes,
  or takes the mutex and blocks when the flag is down, or takes the flag down and drains again.

  The queue is the step-by-step machine of LockFreeQueue, so a caller may be anywhere inside
  Produce while the worker decides to sleep. A request is named by its caller; a caller waits
  for its answer, so it has one request. Each mutex-protected block is one step.
 */
module Wakeup {
  import opened Options
  import opened LockFreeQueue

  datatype Worker =
    | Draining              // inside the loop that calls Consume
    | Deciding              // Consume returned false
    | Blocked(signalled: bool)

  datatype System = System(
    queue: State<Pid>,
    worker: Worker,
    hasNotification: bool,
    requestNode: map<Pid, Node>,   // history: the node each caller allocated
    notified: set<Pid>             // callers that have finished their notify block
  )

  datatype Event =
    | Submit(p: Pid)                 // the caller enters Produce
    | QueueStep(a: Action<Pid>)      // any other access of Produce or Consume
    | Notify(p: Pid)
    | FlushDue                       // the flush interval has passed
    | Lock                           // the worker's mutex-protected block
    | Wake                           // signal, time-out or spurious

  function Start(): System {
    System(Init(), Draining, false, map[], {})
  }

  predicate Possible(s: System, e: Event) {
    match e
    case Submit(p) => p !in s.requestNode && Enabled(s.queue, Allocate(p, p))
    case QueueStep(a) =>
      && !a.Allocate? && Enabled(s.queue, a)
      && (!ByProducer(a) ==> s.worker.Draining?)
    case Notify(p) => p in s.requestNode && p !in s.notified && s.queue.Pc(p).Resting?
    case FlushDue => s.worker.Deciding?
    case Lock => s.worker.Deciding?
    case Wake => s.worker.Blocked?
  }

  /** Consume is about to return false: the divider it read is the last node. */
  predicate SeesEmpty(q: State<Pid>, a: Action<Pid>) {
    a.ReadLast? && q.consumer.AtDivider? && q.consumer.d == q.last
  }

  function After(s: System, e: Event): System
    requires Possible(s, e)
  {
    match e
    case Submit(p) =>
      s.(queue := Apply(s.queue, Allocate(p, p)), requestNode := s.requestNode[p := s.queue.serial])
    case QueueStep(a) =>
      s.(queue := Apply(s.queue, a), worker := if SeesEmpty(s.queue, a) then Deciding else s.worker)
    case Notify(p) =>
      s.(hasNotification := true, notified := s.notified + {p},
         worker := if s.worker.Blocked? then Blocked(true) else s.worker)
    case FlushDue => s.(worker := Draining)
    case Lock =>
      if s.hasNotification then s.(worker := Draining, hasNotification := false)
      else s.(worker := Blocked(false))
    case Wake => s.(worker := Draining)
  }

  ghost function Reached(events: seq<Event>): Option<System> {
    if events == [] then Some(Start())
    else
      var before := Reached(events[..|events| - 1]);
      if before.Some? && Possible(before.value, events[|events| - 1])
      then Some(After(before.value, events[|events| - 1]))
      else None
  }

  // ---- What every step keeps ----

  /** A caller's request sits under its own node, linked and passed by `last` once Produce is over. */
  ghost predicate RequestAt(q: State<Pid>, p: Pid, n: Node)
    requires Shape(q)
  {
    && n in q.values && q.values[n] == p
    && if Enqueuing(q.Pc(p)) then q.Pc(p).n == n else n in q.pos && q.pos[n] <= q.pos[q.last]
  }

  /** The producer has not yet moved `last` onto its node. */
  predicate Enqueuing(pc: Producer) {
    pc.Linking? || pc.Swapping? || pc.Linked?
  }

  ghost predicate RequestsPlaced(q: State<Pid>, requestNode: map<Pid, Node>)
    requires Shape(q)
  {
    && (forall p :: p in requestNode ==> RequestAt(q, p, requestNode[p]))
    && (forall p :: p in q.producers ==> p in requestNode)
  }

  /** Every notified request has been passed by the divider, that is, taken. */
  ghost predicate NothingWaits(q: State<Pid>, requestNode: map<Pid, Node>, notified: set<Pid>)
    requires Shape(q)
  {
    forall p :: p in notified ==>
      p in requestNode && requestNode[p] in q.pos && q.pos[requestNode[p]] <= q.pos[q.divider]
  }

  ghost predicate Good(s: System) {
    && Inv(s.queue)
    && RequestsPlaced(s.queue, s.requestNode)
    && (forall p :: p in s.notified ==> p in s.requestNode && s.queue.Pc(p).Resting?)
    && ((s.worker.Deciding? && !s.hasNotification) || s.worker == Blocked(false) ==>
        NothingWaits(s.queue, s.requestNode, s.notified))
  }

  lemma RequestStays(q: State<Pid>, t: State<Pid>, p: Pid, n: Node)
    requires Shape(q) && Shape(t) && Advances(q, t) && RequestAt(q, p, n) && t.Pc(p) == q.Pc(p)
    ensures RequestAt(t, p, n)
  {
  }

  /** A caller's step inside Produce keeps its node, and it leaves the enqueuing part by storing it to `last`. */
  ghost predicate OwnStep(q: State<Pid>, t: State<Pid>, p: Pid) {
    && t.producers == q.producers[p := t.Pc(p)]
    && p in q.producers
    && if Enqueuing(t.Pc(p)) then Enqueuing(q.Pc(p)) && t.Pc(p).n == q.Pc(p).n
       else !Enqueuing(q.Pc(p)) || t.last == q.Pc(p).n
  }

  lemma StepIsOwn(q: State<Pid>, a: Action<Pid>)
    requires Enabled(q, a) && ByProducer(a) && !a.Allocate?
    ensures OwnStep(q, Apply(q, a), a.p)
  {
  }

  lemma WorkerStep(q: State<Pid>, a: Action<Pid>)
    requires Enabled(q, a) && !ByProducer(a)
    ensures Apply(q, a).producers == q.producers
  {
  }

  lemma PlacedStays(q: State<Pid>, t: State<Pid>, p: Pid, requestNode: map<Pid, Node>)
    requires Shape(q) && Shape(t) && Advances(q, t) && RequestsPlaced(q, requestNode)
    requires t.producers == q.producers || OwnStep(q, t, p)
    ensures RequestsPlaced(t, requestNode)
  {
    forall r | r in requestNode ensures RequestAt(t, r, requestNode[r]) {
      if t.Pc(r) == q.Pc(r) {
        RequestStays(q, t, r, requestNode[r]);
      } else {
        assert RequestAt(q, p, requestNode[p]);
      }
    }
  }

  lemma SubmitPlaced(q: State<Pid>, p: Pid, requestNode: map<Pid, Node>)
    requires Shape(q) && RequestsPlaced(q, requestNode) && p !in requestNode
    requires Shape(Allocated(q, p, p)) && Advances(q, Allocated(q, p, p))
    ensures RequestsPlaced(Allocated(q, p, p), requestNode[p := q.serial])
  {
    forall r | r in requestNode ensures RequestAt(Allocated(q, p, p), r, requestNode[r]) {
      RequestStays(q, Allocated(q, p, p), r, requestNode[r]);
    }
  }

  /** When Consume finds the queue empty, everything a finished caller put there has been taken. */
  lemma EmptyMeansNothingWaits(s: System, a: Action<Pid>)
    requires Good(s) && Possible(s, QueueStep(a)) && SeesEmpty(s.queue, a)
    ensures NothingWaits(s.queue, s.requestNode, s.notified)
  {
    forall p | p in s.notified
      ensures s.requestNode[p] in s.queue.pos && s.queue.pos[s.requestNode[p]] <= s.queue.pos[s.queue.divider]
    {
      assert RequestAt(s.queue, p, s.requestNode[p]);
    }
  }

  lemma WaitingStays(q: State<Pid>, t: State<Pid>, requestNode: map<Pid, Node>, notified: set<Pid>)
    requires Shape(q) && Shape(t) && Advances(q, t) && NothingWaits(q, requestNode, notified)
    ensures NothingWaits(t, requestNode, notified)
  {
  }

  lemma NotifiedRest(s: System, a: Action<Pid>)
    requires Good(s) && Possible(s, QueueStep(a)) && ByProducer(a)
    ensures forall p :: p in s.notified ==> p in s.requestNode && Apply(s.queue, a).Pc(p).Resting?
  {
    hide Apply, Inv, RequestsPlaced, NothingWaits;
    StepIsOwn(s.queue, a);
  }

  lemma InvShape(q: State<Pid>)
    ensures Inv(q) ==> Shape(q)
  {
  }

  lemma ProducerStepGood(s: System, a: Action<Pid>)
    requires Good(s) && Possible(s, QueueStep(a)) && ByProducer(a)
    ensures Good(After(s, QueueStep(a)))
  {
    NotifiedRest(s, a);
    hide Apply, Enabled, Inv, Advances, RequestsPlaced, NothingWaits, OwnStep;
    InvShape(s.queue);
    InvShape(Apply(s.queue, a));
    var t := Apply(s.queue, a);
    StepKeeps(s.queue, a);
    StepAdvances(s.queue, a);
    StepIsOwn(s.queue, a);
    PlacedStays(s.queue, t, a.p, s.requestNode);
    if (s.worker.Deciding? && !s.hasNotification) || s.worker == Blocked(false) {
      WaitingStays(s.queue, t, s.requestNode, s.notified);
    }
  }

  lemma ConsumerStepGood(s: System, a: Action<Pid>)
    requires Good(s) && Possible(s, QueueStep(a)) && !ByProducer(a)
    ensures Good(After(s, QueueStep(a)))
  {
    hide Apply, Enabled, ProducersAt, ConsumerAt, Taken, Tallied, NodesKept, Exclusive;
    var t := Apply(s.queue, a);
    StepKeeps(s.queue, a);
    StepAdvances(s.queue, a);
    WorkerStep(s.queue, a);
    PlacedStays(s.queue, t, 0, s.requestNode);
    if SeesEmpty(s.queue, a) {
      EmptyMeansNothingWaits(s, a);
      WaitingStays(s.queue, t, s.requestNode, s.notified);
    }
  }

  lemma SubmitKeeps(s: System, p: Pid)
    requires Good(s) && Possible(s, Submit(p))
    ensures Good(After(s, Submit(p)))
  {
    hide ProducersAt, ConsumerAt, Taken, Tallied, NodesKept, Exclusive;
    StepKeeps(s.queue, Allocate(p, p));
    StepAdvances(s.queue, Allocate(p, p));
    SubmitPlaced(s.queue, p, s.requestNode);
  }

  lemma EventKeeps(s: System, e: Event)
    requires Good(s) && Possible(s, e)
    ensures Good(After(s, e))
  {
    match e
    case Submit(p) => SubmitKeeps(s, p);
    case QueueStep(a) =>
      if ByProducer(a) {
        ProducerStepGood(s, a);
      } else {
        ConsumerStepGood(s, a);
      }
    case _ =>
  }

  lemma {:induction false} ReachedGood(events: seq<Event>)
    requires Reached(events).Some?
    ensures Good(Reached(events).value)
  {
    if events == [] {
      RunKeeps<Pid>([]);
    } else {
      ReachedGood(events[..|events| - 1]);
      EventKeeps(Reached(events[..|events| - 1]).value, events[|events| - 1]);
    }
  }

  /**
    No lost wake-up: in every reachable state, if the worker is blocked and unsignalled, every
    caller that has finished its notify block has had its request taken from the queue.
   */
  lemma NoLostWakeup(events: seq<Event>, p: Pid)
    requires Reached(events).Some? && Reached(events).value.worker == Blocked(false)
    requires p in Reached(events).value.notified
    ensures p in Reached(events).value.queue.consumed
  {
    ReachedGood(events);
    var s := Reached(events).value;
    var n := s.requestNode[p];
    assert RequestAt(s.queue, p, n);
    assert s.queue.chain[s.queue.pos[n]] == n && s.queue.chain[0] == 0;
    assert s.queue.consumed[s.queue.pos[n] - 1] == p;
  }
}
