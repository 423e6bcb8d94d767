/**
  The queue for values that a move empties. Consume moves the value out of its node before it exchanges the divider;
  when the exchange fails for no reason it moves from the same node again, and what it then returns is empty.
 */
module QueueMoves {
  import opened Options
  import opened LockFreeQueue

  /** The nodes a value has been moved out of, and what the consumer got the last time; None is an empty value. */
  datatype Moves<T> = Moves(emptied: set<Node>, held: Option<T>)

  ghost function Moved<T>(acts: seq<Action<T>>): Moves<T> {
    if acts == [] then Moves({}, None)
    else
      var s, a, m := Run(acts[..|acts| - 1]), acts[|acts| - 1], Moved(acts[..|acts| - 1]);
      if s.Some? && a.ReadValue? && Enabled(s.value, a) then
        var n := s.value.consumer.following;
        Moves(m.emptied + {n}, if n in m.emptied then None else Some(s.value.values[n]))
      else m
  }

  /** What Consume returned, in that order. */
  ghost function Delivered<T>(acts: seq<Action<T>>): seq<Option<T>> {
    if acts == [] then []
    else
      var s, a, before := Run(acts[..|acts| - 1]), acts[|acts| - 1], acts[..|acts| - 1];
      Delivered(before) + if s.Some? && a.Decrement? && Enabled(s.value, a) then [Moved(before).held] else []
  }

  /** Since the last return an exchange has failed. */
  predicate Retried<T>(acts: seq<Action<T>>) {
    acts != [] &&
    var a := acts[|acts| - 1];
    (a.MoveDivider? && a.spurious) || (!a.Decrement? && Retried(acts[..|acts| - 1]))
  }

  /** Whether an exchange failed before each return. */
  ghost function Retries<T>(acts: seq<Action<T>>): seq<bool> {
    if acts == [] then []
    else
      var s, a, before := Run(acts[..|acts| - 1]), acts[|acts| - 1], acts[..|acts| - 1];
      Retries(before) + if s.Some? && a.Decrement? && Enabled(s.value, a) then [Retried(before)] else []
  }

  /** The node after the divider has been moved from, and the divider has not been moved to it. */
  predicate Ahead<T>(s: State<T>, retried: bool) {
    !s.consumer.Discounting? && (retried || s.consumer.Copied? || s.consumer.Moving?)
  }

  /** Exactly the nodes up to the divider have been moved from, or up to the one after it. */
  ghost predicate Tracked<T>(s: State<T>, m: Moves<T>, retried: bool) {
    && s.divider in s.pos && s.last in s.pos && (Ahead(s, retried) ==> s.pos[s.divider] < s.pos[s.last])
    && (forall n {:trigger n in m.emptied} {:trigger n in s.pos} ::
          n in m.emptied <==> n in s.pos && 0 < s.pos[n] <= s.pos[s.divider] + if Ahead(s, retried) then 1 else 0)
    && (s.consumer.Copied? || s.consumer.Moving? || s.consumer.Discounting? ==>
          m.held == if retried then None else Some(s.consumer.result))
  }

  /** A producer's step leaves the consumer alone and links a node at the end, if at all. */
  lemma ProducerLengthens<T>(s: State<T>, a: Action<T>)
    requires Enabled(s, a) && ByProducer(a)
    ensures Apply(s, a).consumer == s.consumer && Apply(s, a).divider == s.divider
    ensures forall n {:trigger n in Apply(s, a).pos} :: n in Apply(s, a).pos && n !in s.pos ==>
              Apply(s, a).pos[n] == |s.chain|
  {
  }

  lemma ProducerTracked<T>(s: State<T>, a: Action<T>, m: Moves<T>, retried: bool)
    requires Inv(s) && Enabled(s, a) && ByProducer(a) && Tracked(s, m, retried)
    ensures Tracked(Apply(s, a), m, retried)
  {
    StepAdvances(s, a);
    ProducerLengthens(s, a);
    hide Numbered, NodesKept, ProducersAt, Exclusive, ConsumerAt, Taken, Tallied, Uncounted, Apply, Enabled, Chained;
  }

  lemma DividerTracked<T>(s: State<T>, m: Moves<T>, retried: bool)
    requires Inv(s) && s.consumer.Moving? && Tracked(s, m, retried)
    ensures Tracked(DividerMoved(s), m, retried)
  {
    hide Numbered, NodesKept, ProducersAt, Exclusive, Taken, Tallied, Uncounted;
    assert s.pos[s.consumer.following] == s.pos[s.divider] + 1;
  }

  /** A step that changes no more than the consumer's place. */
  lemma PlaceTracked<T>(s: State<T>, t: State<T>, m: Moves<T>, retried: bool, retried': bool)
    requires Tracked(s, m, retried) && t == s.(consumer := t.consumer, size := t.size)
    requires Ahead(t, retried') == Ahead(s, retried)
    requires t.consumer.Copied? || t.consumer.Moving? || t.consumer.Discounting? ==>
               (s.consumer.Copied? || s.consumer.Moving? || s.consumer.Discounting?)
               && retried' == retried && t.consumer.result == s.consumer.result
    ensures Tracked(t, m, retried')
  {
  }

  lemma ConsumerTracked<T>(s: State<T>, a: Action<T>, m: Moves<T>, retried: bool)
    requires Inv(s) && Enabled(s, a) && !ByProducer(a) && !a.ReadValue? && Tracked(s, m, retried)
    ensures Tracked(Apply(s, a), m, (a.MoveDivider? && a.spurious) || (!a.Decrement? && retried))
  {
    hide Numbered, NodesKept, ProducersAt, Exclusive, Taken, Tallied, Uncounted, Chained, Ordered, Tracked;
    if a.MoveDivider? && !a.spurious {
      DividerTracked(s, m, retried);
    } else {
      PlaceTracked(s, Apply(s, a), m, retried, (a.MoveDivider? && a.spurious) || (!a.Decrement? && retried));
    }
  }

  lemma MoveTracked<T>(s: State<T>, m: Moves<T>, retried: bool)
    requires Inv(s) && Enabled(s, ReadValue) && Tracked(s, m, retried)
    ensures var n := s.consumer.following;
            Tracked(Apply(s, ReadValue), Moves(m.emptied + {n}, if n in m.emptied then None else Some(s.values[n])),
                    retried)
  {
    hide Numbered, NodesKept, ProducersAt, Exclusive, Taken, Tallied, Uncounted;
  }

  lemma {:induction false} RunTracked<T>(acts: seq<Action<T>>)
    requires Run(acts).Some?
    ensures Tracked(Run(acts).value, Moved(acts), Retried(acts))
  {
    if acts != [] {
      var before := acts[..|acts| - 1];
      RunTracked(before);
      RunKeeps(before);
      var s, a := Run(before).value, acts[|acts| - 1];
      hide Run, Tracked, Inv, Apply;
      if ByProducer(a) {
        ProducerTracked(s, a, Moved(before), Retried(before));
      } else if a.ReadValue? {
        MoveTracked(s, Moved(before), Retried(before));
      } else {
        ConsumerTracked(s, a, Moved(before), Retried(before));
      }
    }
  }

  lemma RunBefore<T>(acts: seq<Action<T>>)
    requires Run(acts).Some? && acts != []
    ensures Run(acts[..|acts| - 1]).Some? && Enabled(Run(acts[..|acts| - 1]).value, acts[|acts| - 1])
    ensures acts[|acts| - 1].Decrement? ==> Run(acts[..|acts| - 1]).value.consumer.Discounting?
  {
  }

  /**
    Of values that a move empties, Consume returns the one it should if and only if no exchange failed since it
    returned the one before; and otherwise an empty one.
   */
  lemma {:induction false} EmptiedByRetries<T>(acts: seq<Action<T>>)
    requires Run(acts).Some?
    ensures |Delivered(acts)| == |Returned(acts)| == |Retries(acts)|
    ensures forall i :: 0 <= i < |Returned(acts)| ==>
              Delivered(acts)[i] == if Retries(acts)[i] then None else Some(Returned(acts)[i])
  {
    hide Run, Enabled, Apply, Moved, Retried;
    if acts != [] {
      var before := acts[..|acts| - 1];
      RunBefore(acts);
      EmptiedByRetries(before);
      RunTracked(before);
    }
  }

  // ---- A value that is lost ----

  /** A longer run, told step by step. */
  lemma Extended<T>(before: seq<Action<T>>, s: State<T>, a: Action<T>) returns (acts: seq<Action<T>>, t: State<T>)
    requires Run(before) == Some(s) && Enabled(s, a)
    ensures acts == before + [a] && t == Apply(s, a) && Run(acts) == Some(t)
    ensures Retried(acts) == ((a.MoveDivider? && a.spurious) || (!a.Decrement? && Retried(before)))
    ensures Retries(acts) == Retries(before) + if a.Decrement? then [Retried(before)] else []
    ensures Returned(acts) == Returned(before) + if a.Decrement? then [s.consumer.result] else []
    ensures Offered(acts) == Offered(before) + if a.Allocate? then [a.value] else []
  {
    acts, t := Extend(before, s, a);
    assert acts[..|acts| - 1] == before && acts[|acts| - 1] == a;
    hide Apply;
  }

  /** A producer puts a value in the queue. */
  lemma OneValue<T>(p: Pid, v: T) returns (acts: seq<Action<T>>, s: State<T>)
    ensures Run(acts) == Some(s) && Offered(acts) == [v] && Returned(acts) == [] && Retries(acts) == []
            && !Retried(acts)
    ensures s.consumer.Outside? && s.divider == 0 && s.last == 1 && s.next == map[0 := 1] && s.values == map[1 := v]
  {
    acts, s := [], Init();
    assert Run(acts) == Some(s);
    hide Run, Retried, Retries, Returned, Offered;
    acts, s := Extended(acts, s, Allocate(p, v));
    acts, s := Extended(acts, s, LoadLast(p));
    acts, s := Extended(acts, s, LinkNode(p, false));
    acts, s := Extended(acts, s, MoveLast(p));
  }

  /** The consumer reads what follows the divider, and exchanges or fails to. */
  lemma Attempt<T>(before: seq<Action<T>>, s0: State<T>, following: Node, spurious: bool)
    returns (acts: seq<Action<T>>, s: State<T>)
    requires Run(before) == Some(s0) && s0.consumer.Outside? && s0.divider != s0.last
    requires s0.divider in s0.next && s0.next[s0.divider] == following && following in s0.values
    ensures Run(acts) == Some(s) && Returned(acts) == Returned(before) && Retries(acts) == Retries(before)
    ensures Offered(acts) == Offered(before) && Retried(acts) == (spurious || Retried(before))
    ensures s == if spurious then s0
                 else s0.(divider := following, consumer := Discounting(s0.values[following]), consumed := s.consumed)
  {
    hide Run, Retried, Retries, Returned, Offered;
    acts, s := before, s0;
    acts, s := Extended(acts, s, ReadDivider);
    acts, s := Extended(acts, s, ReadLast);
    acts, s := Extended(acts, s, ReadNext);
    acts, s := Extended(acts, s, ReadValue);
    acts, s := Extended(acts, s, RereadNext);
    acts, s := Extended(acts, s, MoveDivider(spurious));
  }

  /** One value is offered, one exchange fails, and what Consume returns is empty. */
  lemma LosesValue<T>(p: Pid, v: T) returns (acts: seq<Action<T>>)
    ensures Run(acts).Some? && Offered(acts) == Returned(acts) == [v] && Delivered(acts) == [None]
  {
    hide Run, Retried, Retries, Returned, Offered, Delivered, Apply;
    var s;
    acts, s := OneValue(p, v);
    acts, s := Attempt(acts, s, 1, true);
    acts, s := Attempt(acts, s, 1, false);
    acts, s := Extended(acts, s, Decrement);
    EmptiedByRetries(acts);
    assert Delivered(acts)[0] == None;
  }
}
