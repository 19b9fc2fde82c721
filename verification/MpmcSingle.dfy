/**
  The single-producer and single-consumer forms.  They store the head without
  a compare-and-set and publish without waiting.  As long as their contract is
  kept, one call at a time on that side, every run with such calls is a run of
  the multi forms, with the same ring, indices and return codes, in which
  those calls lose no compare-and-set and never wait.
 */
module MpmcSingle {
  import opened Words
  import opened RingSpec
  import opened Mpmc
  import opened MpmcInv
  import opened MpmcTheorems

  function MultiCall<T>(c: Call<T>): Call<T> {
    match c
    case Idle => Idle
    case Enq(e) => Enq(e.(single := false))
    case Deq(d) => Deq(d.(single := false))
  }

  /** The same state, every call in its multi form. */
  function MultiState<T>(s: State<T>): (s': State<T>)
    ensures Wf(s) ==> Wf(s')
    ensures |s'.calls| == |s.calls|
  {
    s.(calls := seq(|s.calls|, t requires 0 <= t < |s.calls| => MultiCall(s.calls[t])))
  }

  function MultiEvent<T>(e: Event<T>): (e': Event<T>)
    ensures Multi(e') && e'.t == e.t
  {
    if e.BeginEnq? || e.BeginDeq? then e.(single := false) else e
  }

  /** The callers' contract: a single-producer (single-consumer) call is alone on its side. */
  ghost predicate Alone<T>(calls: seq<Call<T>>) {
    forall t, u :: 0 <= t < |calls| && 0 <= u < |calls| && t != u ==>
      && (Producing(calls[t]) && calls[t].e.single ==> !Producing(calls[u]))
      && (Consuming(calls[t]) && calls[t].d.single ==> !Consuming(calls[u]))
  }

  ghost predicate AloneAlong<T>(w: bool, s: State<T>, es: seq<Event<T>>)
    requires Wf(s)
    decreases |es|
  {
    Alone(s.calls) && (es == [] || AloneAlong(w, Step(w, s, es[0]), es[1..]))
  }

  /** A single-form call that read the head still sees the current one. */
  ghost predicate HeadCurrent<T>(m: Mem<T>, c: Call<T>) {
    && (c.Enq? && c.e.single && (c.e.pc.SawHead? || c.e.pc.AtCas?) ==> c.e.head == m.prodHead)
    && (c.Deq? && c.d.single && (c.d.pc.SawHead? || c.d.pc.AtCas?) ==> c.d.head == m.consHead)
    && (c.Enq? && c.e.single ==> !c.e.pc.Waiting?)
    && (c.Deq? && c.d.single ==> !c.d.pc.Waiting?)
  }

  ghost predicate HeadsCurrent<T>(s: State<T>) {
    forall t :: 0 <= t < |s.calls| ==> HeadCurrent(s.m, s.calls[t])
  }

  lemma MultiPut<T>(s: State<T>, t: nat, c: Call<T>)
    requires t < |s.calls|
    ensures MultiState(Put(s, t, c)) == Put(MultiState(s), t, MultiCall(c))
    ensures MultiState(s).calls[t := MultiCall(c)] == MultiState(s.(calls := s.calls[t := c])).calls
  {
  }

  /** The single form just made its last copy: the multi form still has its wait test to pass. */
  predicate LastSingleCopy<T>(c: Call<T>) {
    || (c.Enq? && c.e.single && c.e.pc.Copying? && c.e.i + 1 >= c.e.n)
    || (c.Deq? && c.d.single && c.d.pc.Copying? && |c.d.out| + 1 >= c.d.n)
  }

  /** The multi-form turns that stand for one event. */
  function Expand<T>(s: State<T>, e: Event<T>): (es: seq<Event<T>>)
    ensures AllMulti(es)
  {
    if e.Turn? && e.t < |s.calls| && LastSingleCopy(s.calls[e.t]) then [e, e] else [MultiEvent(e)]
  }

  /** The only producer in flight holds the oldest unpublished reservation. */
  lemma LoneProducerAtFront<T>(s: State<T>, t: nat)
    requires Inv(s) && t < |s.calls| && EnqFlying(s.calls[t])
    requires forall u :: 0 <= u < |s.calls| && u != t ==> !EnqFlying(s.calls[u])
    ensures s.calls[t].e.head == s.m.prodTail
  {
    assert CallOk(s.m, t, s.calls[t]);
    var k := s.m.h.published;
    assert HeldByEnq(s.calls, s.m.h.enqs[k], k);
  }

  lemma LoneConsumerAtFront<T>(s: State<T>, t: nat)
    requires Inv(s) && t < |s.calls| && DeqFlying(s.calls[t])
    requires forall u :: 0 <= u < |s.calls| && u != t ==> !DeqFlying(s.calls[u])
    ensures s.calls[t].d.head == s.m.consTail
  {
    assert CallOk(s.m, t, s.calls[t]);
    var k := |s.m.h.delivered|;
    assert HeldByDeq(s.calls, s.m.h.deqs[k], k);
  }

  /** What one turn does, up to the single flag: same memory and statistics, t's locals. */
  ghost predicate SameTurn<T>(s: State<T>, w: State<T>, t: nat, b: State<T>, a: State<T>)
    requires t < |s.calls| == |w.calls|
  {
    && a.m == b.m && a.stats == b.stats && |b.calls| == |s.calls|
    && b.calls == s.calls[t := b.calls[t]]
    && a.calls == w.calls[t := MultiCall(b.calls[t])]
  }

  lemma EnqPlainTurn<T>(s: State<T>, t: nat, c: EnqCall<T>, w: State<T>)
    requires Wf(s) && Wf(w) && t < |s.calls| == |w.calls| && s.calls[t] == Enq(c)
    requires w.m == s.m && w.stats == s.stats && w.calls[t] == MultiCall(s.calls[t])
    requires HeadCurrent(s.m, s.calls[t]) && !LastSingleCopy(s.calls[t])
    ensures SameTurn(s, w, t, EnqTurn(false, s, t), EnqTurn(false, w, t))
  {
  }

  lemma DeqPlainTurn<T>(s: State<T>, t: nat, c: DeqCall<T>, w: State<T>)
    requires Wf(s) && Wf(w) && t < |s.calls| == |w.calls| && s.calls[t] == Deq(c)
    requires w.m == s.m && w.stats == s.stats && w.calls[t] == MultiCall(s.calls[t])
    requires HeadCurrent(s.m, s.calls[t]) && !LastSingleCopy(s.calls[t])
    ensures SameTurn(s, w, t, DeqTurn(false, s, t), DeqTurn(false, w, t))
  {
  }

  lemma PlainEvent<T>(s: State<T>, e: Event<T>)
    requires Wf(s) && HeadsCurrent(s)
    requires !(e.Turn? && e.t < |s.calls| && LastSingleCopy(s.calls[e.t]))
    ensures Step(false, MultiState(s), MultiEvent(e)) == MultiState(Step(false, s, e))
  {
    var w := MultiState(s);
    if e.t < |s.calls| {
      assert HeadCurrent(s.m, s.calls[e.t]);
      MultiPut(s, e.t, Step(false, s, e).calls[e.t]);
      if e.Turn? {
        match s.calls[e.t]
        case Idle =>
        case Enq(c) => EnqPlainTurn(s, e.t, c, w);
        case Deq(c) => DeqPlainTurn(s, e.t, c, w);
      }
    }
  }

  lemma LastEnqCopy<T>(s: State<T>, t: nat, c: EnqCall<T>)
    requires Wf(s) && Inv(MultiState(s)) && Alone(s.calls)
    requires t < |s.calls| && s.calls[t] == Enq(c) && LastSingleCopy(s.calls[t])
    ensures Step(false, Step(false, MultiState(s), Turn(t)), Turn(t)) == MultiState(Step(false, s, Turn(t)))
  {
    var w := MultiState(s);
    assert w.calls[t] == Enq(c.(single := false));
    forall u | 0 <= u < |w.calls| && u != t ensures !EnqFlying(w.calls[u]) {
      assert !Producing(s.calls[u]);
    }
    LoneProducerAtFront(w, t);
    EnqCopyThenWait(s, t, c);
    var s' := Step(false, s, Turn(t));
    MultiPut(s.(m := s'.m), t, s'.calls[t]);
  }

  /** The multi form's wait test passes at once when it holds the front. */
  lemma EnqCopyThenWait<T>(s: State<T>, t: nat, c: EnqCall<T>)
    requires Wf(s) && t < |s.calls| && s.calls[t] == Enq(c) && LastSingleCopy(s.calls[t]) && s.m.prodTail == c.head
    ensures var s', w := EnqTurn(false, s, t), MultiState(s);
            && s'.calls == s.calls[t := s'.calls[t]] && s'.stats == s.stats
            && Step(false, Step(false, w, Turn(t)), Turn(t))
               == State(s'.m, w.calls[t := MultiCall(s'.calls[t])], s.stats)
  {
    var w := MultiState(s);
    assert w.calls[t] == Enq(c.(single := false));
    var w1 := EnqTurn(false, w, t);
    assert w1.calls[t].Enq? && w1.calls[t].e.pc.Waiting?;
    assert w1.calls == w.calls[t := w1.calls[t]];
  }

  lemma LastDeqCopy<T>(s: State<T>, t: nat, c: DeqCall<T>)
    requires Wf(s) && Inv(MultiState(s)) && Alone(s.calls)
    requires t < |s.calls| && s.calls[t] == Deq(c) && LastSingleCopy(s.calls[t])
    ensures Step(false, Step(false, MultiState(s), Turn(t)), Turn(t)) == MultiState(Step(false, s, Turn(t)))
  {
    var w := MultiState(s);
    assert w.calls[t] == Deq(c.(single := false));
    forall u | 0 <= u < |w.calls| && u != t ensures !DeqFlying(w.calls[u]) {
      assert !Consuming(s.calls[u]);
    }
    LoneConsumerAtFront(w, t);
    DeqCopyThenWait(s, t, c);
    var s' := Step(false, s, Turn(t));
    MultiPut(s.(m := s'.m), t, s'.calls[t]);
  }

  lemma DeqCopyThenWait<T>(s: State<T>, t: nat, c: DeqCall<T>)
    requires Wf(s) && t < |s.calls| && s.calls[t] == Deq(c) && LastSingleCopy(s.calls[t]) && s.m.consTail == c.head
    ensures var s', w := DeqTurn(false, s, t), MultiState(s);
            && s'.calls == s.calls[t := s'.calls[t]] && s'.stats == s.stats
            && Step(false, Step(false, w, Turn(t)), Turn(t))
               == State(s'.m, w.calls[t := MultiCall(s'.calls[t])], s.stats)
  {
    var w := MultiState(s);
    assert w.calls[t] == Deq(c.(single := false));
    var w1 := DeqTurn(false, w, t);
    assert w1.calls[t].Deq? && w1.calls[t].d.pc.Waiting?;
    assert w1.calls == w.calls[t := w1.calls[t]];
  }

  lemma RunOne<T>(s: State<T>, e: Event<T>)
    requires Wf(s)
    ensures Run(false, s, [e]) == Step(false, s, e)
  {
    assert Run(false, Step(false, s, e), []) == Step(false, s, e);
  }

  lemma RunTwo<T>(s: State<T>, e: Event<T>, f: Event<T>)
    requires Wf(s)
    ensures Run(false, s, [e, f]) == Step(false, Step(false, s, e), f)
  {
    assert [e, f][1..] == [f];
    RunOne(Step(false, s, e), f);
  }

  /** One event of the mixed machine is one or two turns of the multi machine. */
  lemma StepSimulated<T>(s: State<T>, e: Event<T>)
    requires Wf(s) && Inv(MultiState(s)) && Alone(s.calls) && HeadsCurrent(s)
    ensures Run(false, MultiState(s), Expand(s, e)) == MultiState(Step(false, s, e))
    ensures Inv(MultiState(Step(false, s, e)))
  {
    var w := MultiState(s);
    if e.Turn? && e.t < |s.calls| && LastSingleCopy(s.calls[e.t]) {
      if s.calls[e.t].Enq? {
        LastEnqCopy(s, e.t, s.calls[e.t].e);
      } else {
        LastDeqCopy(s, e.t, s.calls[e.t].d);
      }
      RunTwo(w, e, e);
    } else {
      PlainEvent(s, e);
      RunOne(w, MultiEvent(e));
    }
    RunInv(w, Expand(s, e));
  }

  /** Nobody else moves the head under a single-form call. */
  lemma HeadsStayCurrent<T>(s: State<T>, e: Event<T>)
    requires Wf(s) && Alone(s.calls) && HeadsCurrent(s)
    ensures HeadsCurrent(Step(false, s, e))
  {
    var s' := Step(false, s, e);
    if e.t < |s.calls| {
      forall u | 0 <= u < |s'.calls| ensures HeadCurrent(s'.m, s'.calls[u]) {
        assert HeadCurrent(s.m, s.calls[u]) && HeadCurrent(s.m, s.calls[e.t]);
        if u != e.t {
          OthersUntouched(s, e, u);
        }
      }
    }
  }

  lemma OthersUntouched<T>(s: State<T>, e: Event<T>, u: nat)
    requires Wf(s) && e.t < |s.calls| && u < |s.calls| && u != e.t
    ensures var s' := Step(false, s, e);
            && s'.calls[u] == s.calls[u]
            && (!Producing(s.calls[e.t]) ==> s'.m.prodHead == s.m.prodHead)
            && (!Consuming(s.calls[e.t]) ==> s'.m.consHead == s.m.consHead)
  {
  }

  /** The whole schedule in multi form. */
  function ExpandAll<T>(s: State<T>, es: seq<Event<T>>): (r: seq<Event<T>>)
    requires Wf(s)
    ensures AllMulti(r)
    decreases |es|
  {
    if es == [] then [] else Expand(s, es[0]) + ExpandAll(Step(false, s, es[0]), es[1..])
  }

  lemma {:induction false} RunSimulated<T>(s: State<T>, es: seq<Event<T>>)
    requires Wf(s) && Inv(MultiState(s)) && HeadsCurrent(s) && AloneAlong(false, s, es)
    ensures Run(false, MultiState(s), ExpandAll(s, es)) == MultiState(Run(false, s, es))
    decreases |es|
  {
    if es != [] {
      var s1 := Step(false, s, es[0]);
      StepSimulated(s, es[0]);
      HeadsStayCurrent(s, es[0]);
      RunSimulated(s1, es[1..]);
      RunAppend(false, MultiState(s), Expand(s, es[0]), ExpandAll(s1, es[1..]));
    }
  }

  /**
    Every run that mixes single and multi forms within their contract is a run
    of the multi forms: same memory, history, statistics and return codes.
   */
  lemma SingleRefinesMulti<T>(slots: nat, watermark: nat, ring: seq<T>, threads: nat, es: seq<Event<T>>)
    requires RingSize(slots) && 1 <= slots == |ring|
    requires AloneAlong(false, Init(slots, watermark, ring, threads), es)
    ensures var s0 := Init(slots, watermark, ring, threads);
            Run(false, s0, ExpandAll(s0, es)) == MultiState(Run(false, s0, es))
  {
    var s0 := Init(slots, watermark, ring, threads);
    InitInv(slots, watermark, ring, threads);
    assert MultiState(s0) == s0;
    RunSimulated(s0, es);
  }

  /** So the FIFO promise covers them too. */
  lemma SingleFifo<T(!new)>(slots: nat, watermark: nat, ring: seq<T>, threads: nat, es: seq<Event<T>>)
    requires RingSize(slots) && 1 <= slots == |ring|
    requires AloneAlong(false, Init(slots, watermark, ring, threads), es)
    ensures var s := Run(false, Init(slots, watermark, ring, threads), es);
            && |Concat(s.m.h.enqueued)| == s.m.prodHead && s.m.consTail <= s.m.prodHead
            && Concat(s.m.h.delivered) == Concat(s.m.h.enqueued)[..s.m.consTail]
  {
    var s0 := Init(slots, watermark, ring, threads);
    SingleRefinesMulti(slots, watermark, ring, threads, es);
    var s := MultiState(Run(false, s0, es));
    assert Reaches(s, slots, watermark, ring, threads, ExpandAll(s0, es));
    Fifo(s);
  }

  // ---------------------------------------------------------------------
  // No failure, no waiting
  // ---------------------------------------------------------------------

  lemma {:induction false} AloneRun<T>(s: State<T>, es: seq<Event<T>>)
    requires Wf(s) && Inv(MultiState(s)) && HeadsCurrent(s) && AloneAlong(false, s, es)
    ensures var s' := Run(false, s, es); Inv(MultiState(s')) && HeadsCurrent(s') && Alone(s'.calls)
    decreases |es|
  {
    if es != [] {
      StepSimulated(s, es[0]);
      HeadsStayCurrent(s, es[0]);
      AloneRun(Step(false, s, es[0]), es[1..]);
    }
  }

  /** Thread t runs a single-form call that the multi form would let through at once. */
  ghost predicate Unhindered<T>(m: Mem<T>, c: Call<T>) {
    && (c.Enq? && c.e.single && c.e.pc.AtCas? ==> m.prodHead == c.e.head)
    && (c.Enq? && c.e.single && (c.e.pc.Copying? || c.e.pc.Publishing?) ==> m.prodTail == c.e.head)
    && (c.Deq? && c.d.single && c.d.pc.AtCas? ==> m.consHead == c.d.head)
    && (c.Deq? && c.d.single && (c.d.pc.Copying? || c.d.pc.Publishing?) ==> m.consTail == c.d.head)
  }

  /**
    In every run within the contract a single-form call stores a head that a
    compare-and-set would have accepted, and a tail it would not have waited
    for: it loses nothing by leaving both tests out.
   */
  lemma SingleNeverHindered<T>(slots: nat, watermark: nat, ring: seq<T>, threads: nat, es: seq<Event<T>>, t: nat)
    requires RingSize(slots) && 1 <= slots == |ring| && t < threads
    requires AloneAlong(false, Init(slots, watermark, ring, threads), es)
    ensures var s := Run(false, Init(slots, watermark, ring, threads), es);
            t < |s.calls| && Unhindered(s.m, s.calls[t])
  {
    var s0 := Init(slots, watermark, ring, threads);
    InitInv(slots, watermark, ring, threads);
    assert MultiState(s0) == s0;
    AloneRun(s0, es);
    var s := Run(false, s0, es);
    assert HeadCurrent(s.m, s.calls[t]);
    LoneAtFront(s, t);
  }

  lemma LoneAtFront<T>(s: State<T>, t: nat)
    requires Inv(MultiState(s)) && Alone(s.calls) && t < |s.calls|
    ensures s.calls[t].Enq? && s.calls[t].e.single && InFlight(s.calls[t].e.pc) ==> s.m.prodTail == s.calls[t].e.head
    ensures s.calls[t].Deq? && s.calls[t].d.single && InFlight(s.calls[t].d.pc) ==> s.m.consTail == s.calls[t].d.head
  {
    var w := MultiState(s);
    if s.calls[t].Enq? && s.calls[t].e.single && InFlight(s.calls[t].e.pc) {
      forall u | 0 <= u < |w.calls| && u != t ensures !EnqFlying(w.calls[u]) {
        assert !Producing(s.calls[u]);
      }
      LoneProducerAtFront(w, t);
    } else if s.calls[t].Deq? && s.calls[t].d.single && InFlight(s.calls[t].d.pc) {
      forall u | 0 <= u < |w.calls| && u != t ensures !DeqFlying(w.calls[u]) {
        assert !Consuming(s.calls[u]);
      }
      LoneConsumerAtFront(w, t);
    }
  }
}
