/**
  The program's 32-bit indices refine unbounded positions, through any number
  of wrap-arounds, as long as no thread sleeps for a whole lap of the index
  between reading a head and its compare-and-set on it.
 */
module Mpmc32 {
  import opened Words
  import opened RingSpec
  import opened Mpmc
  import opened MpmcInv
  import opened MpmcTheorems
  import opened MpmcSingle

  function WrapCall<T>(c: Call<T>): Call<T> {
    match c
    case Idle => Idle
    case Enq(e) => Enq(e.(head := Wrap(e.head)))
    case Deq(d) => Deq(d.(head := Wrap(d.head)))
  }

  function WrapMem<T>(m: Mem<T>): Mem<T> {
    m.(prodHead := Wrap(m.prodHead), prodTail := Wrap(m.prodTail),
       consHead := Wrap(m.consHead), consTail := Wrap(m.consTail))
  }

  /** The 32-bit state a state with unbounded positions stands for. */
  function WrapState<T>(s: State<T>): (s': State<T>)
    ensures Wf(s) ==> Wf(s')
    ensures |s'.calls| == |s.calls|
  {
    var calls := seq(|s.calls|, t requires 0 <= t < |s.calls| => WrapCall(s.calls[t]));
    State(WrapMem(s.m), calls, s.stats)
  }

  /**
    The one assumption on time: when a thread comes to its compare-and-set, the
    head it read has moved by less than 2^32 positions since.
   */
  ghost predicate CasWindow<T>(s: State<T>) {
    forall t :: 0 <= t < |s.calls| ==> InWindow(s.m, s.calls[t])
  }

  ghost predicate InWindow<T>(m: Mem<T>, c: Call<T>) {
    && (c.Enq? && c.e.pc.AtCas? ==> m.prodHead - c.e.head < TWO32)
    && (c.Deq? && c.d.pc.AtCas? ==> m.consHead - c.d.head < TWO32)
  }

  /** free_entries as the program computes it. */
  function Free32<T>(m: Mem<T>, head: nat): nat {
    Wrap(m.slots - 1 + Wrap(m.consTail) - Wrap(head))
  }

  /** entries as the program computes it. */
  function Entries32<T>(m: Mem<T>, head: nat): nat {
    Wrap(Wrap(m.prodTail) - Wrap(head))
  }

  /** The call is about to read a tail against a head so old that the true count no longer fits 32 bits. */
  predicate Misreads<T>(m: Mem<T>, c: Call<T>) {
    || (c.Enq? && c.e.pc.SawHead? && m.slots - 1 + m.consTail - c.e.head >= TWO32)
    || (c.Deq? && c.d.pc.SawHead? && m.prodTail - c.d.head >= TWO32)
  }

  /** The count the program computes for the call. */
  function Seen32<T>(m: Mem<T>, c: Call<T>): nat {
    match c
    case Idle => 0
    case Enq(e) => Free32(m, e.head)
    case Deq(d) => Entries32(m, d.head)
  }

  /** The step of the unbounded machine that an event of the program stands for. */
  function Lift<T>(s: State<T>, e: Event<T>): (e': Event<T>)
    ensures e'.t == e.t && (Multi(e) ==> Multi(e'))
  {
    if e.Turn? && e.t < |s.calls| && Misreads(s.m, s.calls[e.t]) then
      StaleTurn(e.t, Seen32(s.m, s.calls[e.t]))
    else e
  }

  /** A state of a run within the contract: the invariant holds of its multi form, single-form heads are current. */
  ghost predicate Sound<T>(s: State<T>) {
    Wf(s) && Inv(MultiState(s)) && HeadsCurrent(s) && Alone(s.calls)
  }

  lemma WrapPut<T>(s: State<T>, t: nat, c: Call<T>)
    requires t < |s.calls|
    ensures WrapState(Put(s, t, c)) == Put(WrapState(s), t, WrapCall(c))
    ensures WrapState(s).calls[t := WrapCall(c)] == WrapState(s.(calls := s.calls[t := c])).calls
  {
  }

  /** free_entries and entries, computed in 32 bits, and all comparisons of indices, agree with the true positions. */
  lemma DifferencesExact<T>(m: Mem<T>, t: nat, c: Call<T>)
    requires Shape(m) && RingSize(m.slots) && CallOk(m, t, MultiCall(c)) && InWindow(m, c)
    ensures c.Enq? && c.e.pc.SawHead? && !Misreads(m, c) ==> Free32(m, c.e.head) == m.slots - 1 + m.consTail - c.e.head
    ensures c.Deq? && c.d.pc.SawHead? && !Misreads(m, c) && c.d.head <= m.prodTail ==>
              Entries32(m, c.d.head) == m.prodTail - c.d.head
    ensures c.Enq? && c.e.pc.AtCas? ==> (Wrap(m.prodHead) == Wrap(c.e.head) <==> m.prodHead == c.e.head)
    ensures c.Deq? && c.d.pc.AtCas? ==> (Wrap(m.consHead) == Wrap(c.d.head) <==> m.consHead == c.d.head)
    ensures EnqFlying(c) ==> (Wrap(m.prodTail) == Wrap(c.e.head) <==> m.prodTail == c.e.head)
    ensures DeqFlying(c) ==> (Wrap(m.consTail) == Wrap(c.d.head) <==> m.consTail == c.d.head)
  {
    match c
    case Idle =>
    case Enq(e) =>
      WrapDiff(m.slots - 1, m.consTail, e.head);
      if e.pc.AtCas? { WrapInjective(e.head, m.prodHead); }
      if EnqFlying(c) { WrapInjective(m.prodTail, e.head); }
    case Deq(d) =>
      WrapDiff(0, m.prodTail, d.head);
      if d.pc.AtCas? { WrapInjective(d.head, m.consHead); }
      if DeqFlying(c) { WrapInjective(m.consTail, d.head); }
  }

  /** The turn of thread t in the two machines: same memory and statistics up to wrapping, only t's locals change. */
  ghost predicate SameTurn32<T>(s: State<T>, w: State<T>, t: nat, b: State<T>, a: State<T>)
    requires t < |s.calls| == |w.calls|
  {
    && a.m == WrapMem(b.m) && a.stats == b.stats && |b.calls| == |s.calls|
    && b.calls == s.calls[t := b.calls[t]]
    && a.calls == w.calls[t := WrapCall(b.calls[t])]
  }

  ghost predicate Wrapped<T>(s: State<T>, w: State<T>, t: nat) {
    && Wf(s) && Wf(w) && t < |s.calls| == |w.calls|
    && w.m == WrapMem(s.m) && w.stats == s.stats && w.calls[t] == WrapCall(s.calls[t])
  }

  lemma EnqReadTurn<T>(s: State<T>, t: nat, c: EnqCall<T>, w: State<T>)
    requires Wrapped(s, w, t) && s.calls[t] == Enq(c)
    requires c.pc.Entered? || c.pc.SawHead? || c.pc.Waiting? || c.pc.Returned?
    requires c.pc.SawHead? ==> Free32(s.m, c.head) == s.m.slots - 1 + s.m.consTail - c.head
    requires c.pc.Waiting? ==> (Wrap(s.m.prodTail) == Wrap(c.head) <==> s.m.prodTail == c.head)
    ensures SameTurn32(s, w, t, EnqTurn(false, s, t), EnqTurn(true, w, t))
  {
  }

  lemma EnqCasTurn<T>(s: State<T>, t: nat, c: EnqCall<T>, w: State<T>)
    requires Wrapped(s, w, t) && s.calls[t] == Enq(c) && c.pc.AtCas?
    requires (Wrap(s.m.prodHead) == Wrap(c.head) <==> s.m.prodHead == c.head)
    ensures SameTurn32(s, w, t, EnqTurn(false, s, t), EnqTurn(true, w, t))
  {
    WrapSum(c.head, c.n);
  }

  lemma EnqCopyTurn<T>(s: State<T>, t: nat, c: EnqCall<T>, w: State<T>)
    requires Wrapped(s, w, t) && s.calls[t] == Enq(c) && c.pc.Copying?
    requires Slot(s.m.slots, Wrap(c.head), c.i) == Slot(s.m.slots, c.head, c.i)
    ensures SameTurn32(s, w, t, EnqTurn(false, s, t), EnqTurn(true, w, t))
  {
  }

  lemma EnqPublishTurn<T>(s: State<T>, t: nat, c: EnqCall<T>, w: State<T>)
    requires Wrapped(s, w, t) && s.calls[t] == Enq(c) && c.pc.Publishing?
    ensures SameTurn32(s, w, t, EnqTurn(false, s, t), EnqTurn(true, w, t))
  {
    WrapSum(c.head, c.n);
  }

  lemma EnqTurn32<T>(s: State<T>, t: nat, c: EnqCall<T>)
    requires Sound(s) && CasWindow(s) && t < |s.calls| && s.calls[t] == Enq(c) && !Misreads(s.m, s.calls[t])
    ensures EnqTurn(true, WrapState(s), t) == WrapState(EnqTurn(false, s, t))
  {
    assert CallOk(s.m, t, MultiState(s).calls[t]) && InWindow(s.m, s.calls[t]);
    DifferencesExact(s.m, t, s.calls[t]);
    WrappedSlot(s.m.slots, c.head, c.i);
    var w := WrapState(s);
    if c.pc.AtCas? {
      EnqCasTurn(s, t, c, w);
    } else if c.pc.Copying? {
      EnqCopyTurn(s, t, c, w);
    } else if c.pc.Publishing? {
      EnqPublishTurn(s, t, c, w);
    } else {
      EnqReadTurn(s, t, c, w);
    }
    WrapPut(s, t, EnqTurn(false, s, t).calls[t]);
  }

  lemma DeqReadTurn<T>(s: State<T>, t: nat, c: DeqCall<T>, w: State<T>)
    requires Wrapped(s, w, t) && s.calls[t] == Deq(c)
    requires c.pc.Entered? || c.pc.SawHead? || c.pc.Waiting? || c.pc.Returned?
    requires c.pc.SawHead? ==> Entries32(s.m, c.head) == s.m.prodTail - c.head
    requires c.pc.Waiting? ==> (Wrap(s.m.consTail) == Wrap(c.head) <==> s.m.consTail == c.head)
    ensures SameTurn32(s, w, t, DeqTurn(false, s, t), DeqTurn(true, w, t))
  {
  }

  lemma DeqCasTurn<T>(s: State<T>, t: nat, c: DeqCall<T>, w: State<T>)
    requires Wrapped(s, w, t) && s.calls[t] == Deq(c) && c.pc.AtCas?
    requires (Wrap(s.m.consHead) == Wrap(c.head) <==> s.m.consHead == c.head)
    ensures SameTurn32(s, w, t, DeqTurn(false, s, t), DeqTurn(true, w, t))
  {
    WrapSum(c.head, c.n);
  }

  lemma DeqCopyTurn<T>(s: State<T>, t: nat, c: DeqCall<T>, w: State<T>)
    requires Wrapped(s, w, t) && s.calls[t] == Deq(c) && c.pc.Copying?
    requires Slot(s.m.slots, Wrap(c.head), |c.out|) == Slot(s.m.slots, c.head, |c.out|)
    ensures SameTurn32(s, w, t, DeqTurn(false, s, t), DeqTurn(true, w, t))
  {
  }

  lemma DeqPublishTurn<T>(s: State<T>, t: nat, c: DeqCall<T>, w: State<T>)
    requires Wrapped(s, w, t) && s.calls[t] == Deq(c) && c.pc.Publishing?
    ensures SameTurn32(s, w, t, DeqTurn(false, s, t), DeqTurn(true, w, t))
  {
    WrapSum(c.head, c.n);
  }

  lemma DeqTurn32<T>(s: State<T>, t: nat, c: DeqCall<T>)
    requires Sound(s) && CasWindow(s) && t < |s.calls| && s.calls[t] == Deq(c) && !Misreads(s.m, s.calls[t])
    ensures DeqTurn(true, WrapState(s), t) == WrapState(DeqTurn(false, s, t))
  {
    assert CallOk(s.m, t, MultiState(s).calls[t]) && InWindow(s.m, s.calls[t]);
    DifferencesExact(s.m, t, s.calls[t]);
    WrappedSlot(s.m.slots, c.head, |c.out|);
    var w := WrapState(s);
    if c.pc.AtCas? {
      DeqCasTurn(s, t, c, w);
    } else if c.pc.Copying? {
      DeqCopyTurn(s, t, c, w);
    } else if c.pc.Publishing? {
      DeqPublishTurn(s, t, c, w);
    } else {
      DeqReadTurn(s, t, c, w);
    }
    WrapPut(s, t, DeqTurn(false, s, t).calls[t]);
  }

  /** A turn that misreads: the unbounded machine takes the same low count in a stale turn. */
  lemma StaleTurn32<T>(s: State<T>, t: nat)
    requires Sound(s) && t < |s.calls| && Misreads(s.m, s.calls[t])
    ensures Step(true, WrapState(s), Turn(t)) == WrapState(Step(false, s, Lift(s, Turn(t))))
  {
    assert CallOk(s.m, t, MultiState(s).calls[t]);
    match s.calls[t]
    case Enq(c) =>
      MisreadLow(s.m.slots - 1, s.m.consTail, c.head);
      EnqStale32(s, t, c);
    case Deq(c) =>
      MisreadLow(0, s.m.prodTail, c.head);
      DeqStale32(s, t, c);
  }

  lemma EnqStale32<T>(s: State<T>, t: nat, c: EnqCall<T>)
    requires Wf(s) && t < |s.calls| && s.calls[t] == Enq(c) && c.pc.SawHead? && c.head < s.m.prodHead
    requires Free32(s.m, c.head) <= s.m.slots - 1 + s.m.consTail - c.head
    ensures EnqTurn(true, WrapState(s), t) == WrapState(StaleStep(s, t, Free32(s.m, c.head)))
  {
    WrapPut(s, t, Enq(EnqSees(c, Free32(s.m, c.head))));
  }

  lemma DeqStale32<T>(s: State<T>, t: nat, c: DeqCall<T>)
    requires Wf(s) && t < |s.calls| && s.calls[t] == Deq(c) && c.pc.SawHead? && c.head < s.m.consHead
    requires Entries32(s.m, c.head) <= s.m.prodTail - c.head
    ensures DeqTurn(true, WrapState(s), t) == WrapState(StaleStep(s, t, Entries32(s.m, c.head)))
  {
    WrapPut(s, t, Deq(DeqSees(c, Entries32(s.m, c.head))));
  }

  lemma MisreadLow(base: nat, tail: nat, head: nat)
    requires base + tail - head >= TWO32
    ensures Wrap(base + Wrap(tail) - Wrap(head)) <= base + tail - head
  {
    WrapDiff(base, tail, head);
  }

  lemma Begin32<T>(s: State<T>, e: Event<T>)
    requires Wf(s) && (e.BeginEnq? || e.BeginDeq?)
    ensures Step(true, WrapState(s), e) == WrapState(Step(false, s, e))
  {
    if e.t < |s.calls| {
      WrapPut(s, e.t, Step(false, s, e).calls[e.t]);
    }
  }

  /** One event of the program is one event of the unbounded machine. */
  lemma Step32<T>(s: State<T>, e: Event<T>)
    requires Sound(s) && CasWindow(s) && !e.StaleTurn?
    ensures Step(true, WrapState(s), e) == WrapState(Step(false, s, Lift(s, e)))
  {
    if e.BeginEnq? || e.BeginDeq? {
      Begin32(s, e);
    } else if e.t < |s.calls| && Misreads(s.m, s.calls[e.t]) {
      StaleTurn32(s, e.t);
    } else if e.t < |s.calls| {
      Turn32(s, e.t);
    }
  }

  lemma Turn32<T>(s: State<T>, t: nat)
    requires Sound(s) && CasWindow(s) && t < |s.calls| && !Misreads(s.m, s.calls[t])
    ensures Step(true, WrapState(s), Turn(t)) == WrapState(Step(false, s, Turn(t)))
  {
    match s.calls[t]
    case Idle =>
    case Enq(c) => EnqTurn32(s, t, c);
    case Deq(c) => DeqTurn32(s, t, c);
  }

  // ---------------------------------------------------------------------
  // Whole runs
  // ---------------------------------------------------------------------

  /** A schedule of the program: stale turns are not its own. */
  predicate Real<T>(es: seq<Event<T>>) {
    forall k :: 0 <= k < |es| ==> !es[k].StaleTurn?
  }

  function LiftAll<T>(s: State<T>, es: seq<Event<T>>): (r: seq<Event<T>>)
    requires Wf(s)
    ensures AllMulti(es) ==> AllMulti(r)
    decreases |es|
  {
    if es == [] then [] else [Lift(s, es[0])] + LiftAll(Step(false, s, Lift(s, es[0])), es[1..])
  }

  /** The true state after the program ran es from WrapState(s). */
  function TrueRun<T>(s: State<T>, es: seq<Event<T>>): (s': State<T>)
    requires Wf(s)
    ensures Wf(s')
  {
    Run(false, s, LiftAll(s, es))
  }

  /** The window holds in every true state the schedule passes through. */
  ghost predicate WindowAlong<T>(s: State<T>, es: seq<Event<T>>)
    requires Wf(s)
    decreases |es|
  {
    CasWindow(s) && (es == [] || WindowAlong(Step(false, s, Lift(s, es[0])), es[1..]))
  }

  lemma StepSound<T>(s: State<T>, e: Event<T>)
    requires Sound(s) && Alone(Step(false, s, e).calls)
    ensures Sound(Step(false, s, e))
  {
    StepSimulated(s, e);
    HeadsStayCurrent(s, e);
  }

  lemma AloneWrapped<T>(s: State<T>)
    ensures Alone(WrapState(s).calls) <==> Alone(s.calls)
  {
    var w := WrapState(s);
    assert forall t :: 0 <= t < |s.calls| ==> w.calls[t] == WrapCall(s.calls[t]);
    assert forall t :: 0 <= t < |s.calls| ==> (Producing(w.calls[t]) <==> Producing(s.calls[t]));
    assert forall t :: 0 <= t < |s.calls| ==> (Consuming(w.calls[t]) <==> Consuming(s.calls[t]));
  }

  lemma {:induction false} Run32<T>(s: State<T>, es: seq<Event<T>>)
    requires Sound(s) && Real(es) && WindowAlong(s, es) && AloneAlong(true, WrapState(s), es)
    ensures Run(true, WrapState(s), es) == WrapState(TrueRun(s, es))
    ensures Sound(TrueRun(s, es)) && AloneAlong(false, s, LiftAll(s, es))
    decreases |es|
  {
    if es != [] {
      var e := Lift(s, es[0]);
      var s1 := Step(false, s, e);
      Step32(s, es[0]);
      AloneWrapped(s1);
      StepSound(s, e);
      Run32(s1, es[1..]);
      assert LiftAll(s, es)[0] == e && LiftAll(s, es)[1..] == LiftAll(s1, es[1..]);
    }
  }

  lemma InitSound<T>(slots: nat, watermark: nat, ring: seq<T>, threads: nat)
    requires RingSize(slots) && 1 <= slots == |ring|
    ensures var s0 := Init(slots, watermark, ring, threads); Sound(s0) && WrapState(s0) == s0
  {
    var s0 := Init(slots, watermark, ring, threads);
    InitInv(slots, watermark, ring, threads);
    assert MultiState(s0) == s0;
  }

  /**
    From the initial ring, through any number of wrap-arounds, the 32-bit
    machine does in every schedule, single and multi forms mixed within their
    contract, what the unbounded one does.
   */
  lemma Refines<T>(slots: nat, watermark: nat, ring: seq<T>, threads: nat, es: seq<Event<T>>)
    requires RingSize(slots) && 1 <= slots == |ring| && Real(es)
    requires var s0 := Init(slots, watermark, ring, threads); WindowAlong(s0, es) && AloneAlong(true, s0, es)
    ensures var s0 := Init(slots, watermark, ring, threads);
            Run(true, s0, es) == WrapState(TrueRun(s0, es)) && AloneAlong(false, s0, LiftAll(s0, es))
  {
    InitSound(slots, watermark, ring, threads);
    Run32(Init(slots, watermark, ring, threads), es);
  }

  /** Multi forms keep the callers' contract by themselves. */
  lemma {:induction false} MultiKeepsContract<T>(s: State<T>, es: seq<Event<T>>)
    requires Wf(s) && AllMulti(es) && NoSingle(s.calls)
    ensures AloneAlong(true, s, es)
    decreases |es|
  {
    if es != [] {
      StaysMulti(s, es[0]);
      MultiKeepsContract(Step(true, s, es[0]), es[1..]);
    }
  }

  lemma StaysMulti<T>(s: State<T>, e: Event<T>)
    requires Wf(s) && Multi(e) && NoSingle(s.calls)
    ensures NoSingle(Step(true, s, e).calls)
  {
    var s' := Step(true, s, e);
    if e.t < |s.calls| {
      assert s'.calls == s.calls[e.t := s'.calls[e.t]];
    }
  }

  ghost predicate NoSingle<T>(calls: seq<Call<T>>) {
    forall t :: 0 <= t < |calls| ==> (calls[t].Enq? ==> !calls[t].e.single) && (calls[t].Deq? ==> !calls[t].d.single)
  }

  /**
    The FIFO promise for the program's own 32-bit ring: what dequeues returned
    is a prefix of what enqueues put in, fewer than `slots` items behind, and
    the two outer indices are those two counts modulo 2^32.
   */
  lemma Fifo32<T(!new)>(slots: nat, watermark: nat, ring: seq<T>, threads: nat, es: seq<Event<T>>)
    requires RingSize(slots) && 1 <= slots == |ring| && Real(es)
    requires var s0 := Init(slots, watermark, ring, threads); WindowAlong(s0, es) && AloneAlong(true, s0, es)
    ensures var s := Run(true, Init(slots, watermark, ring, threads), es);
            var in_, out := Concat(s.m.h.enqueued), Concat(s.m.h.delivered);
            && out <= in_ && |in_| - |out| <= slots - 1
            && s.m.prodHead == Wrap(|in_|) && s.m.consTail == Wrap(|out|)
  {
    var s0 := Init(slots, watermark, ring, threads);
    Refines(slots, watermark, ring, threads, es);
    InitSound(slots, watermark, ring, threads);
    Run32(s0, es);
    SingleFifo(slots, watermark, ring, threads, LiftAll(s0, es));
    SlotsConstant(s0, LiftAll(s0, es));
  }

  lemma {:induction false} SlotsConstant<T>(s: State<T>, es: seq<Event<T>>)
    requires Wf(s)
    ensures Run(false, s, es).m.slots == s.m.slots
    decreases |es|
  {
    if es != [] {
      SlotsConstant(Step(false, s, es[0]), es[1..]);
    }
  }

  /**
    Without the window the refinement breaks exactly when the head came back
    to the same 32-bit value: the program's compare-and-set then succeeds on
    a stale head, which unbounded positions would have refused.
   */
  lemma StaleCas<T>(s: State<T>, t: nat, c: EnqCall<T>)
    requires Wf(s) && t < |s.calls| && s.calls[t] == Enq(c) && c.pc.AtCas? && !c.single
    requires c.head <= s.m.prodHead
    ensures EnqTurn(true, WrapState(s), t).stats == EnqTurn(false, s, t).stats
            <==> (s.m.prodHead - c.head) % TWO32 != 0 || s.m.prodHead == c.head
  {
    WrapCongruent(c.head, s.m.prodHead);
    var w := WrapState(s);
    assert w.calls[t] == Enq(c.(head := Wrap(c.head)));
    assert EnqTurn(true, w, t).stats.enq.wins == s.stats.enq.wins + 1 <==> w.m.prodHead == Wrap(c.head);
    assert EnqTurn(false, s, t).stats.enq.wins == s.stats.enq.wins + 1 <==> s.m.prodHead == c.head;
  }

  /**
    The other way to leave the window: the free count read against a stale head
    is the true one exactly while that count itself fits 32 bits.
   */
  lemma StaleRead<T>(m: Mem<T>, t: nat, c: EnqCall<T>)
    requires Shape(m) && RingSize(m.slots) && EnqOk(m, t, c) && c.pc.SawHead?
    ensures Free32(m, c.head) == m.slots - 1 + m.consTail - c.head <==> m.slots - 1 + m.consTail - c.head < TWO32
  {
    WrapDiff(m.slots - 1, m.consTail, c.head);
  }

  /**
    A 32-bit turn that ends an enqueue without publishing is the one that reads
    cons.tail, and the refusal is honest, however stale the head, unless the call misread.
   */
  lemma Refusal32Honest<T>(s: State<T>, t: nat)
    requires Sound(s) && t < |s.calls| && Producing(s.calls[t]) && !s.calls[t].e.pc.Publishing?
    requires !Misreads(s.m, s.calls[t]) && !Producing(Step(true, WrapState(s), Turn(t)).calls[t])
    ensures var c := s.calls[t].e; c.pc.SawHead? && FreeNow(s.m) < if c.beh.Fixed? then |c.items| else 1
  {
    SoundCall(s, t);
    EnqEndsReading(WrapState(s), t, s.calls[t].e.(head := Wrap(s.calls[t].e.head)));
    EnqRefuses32(s, t, s.calls[t].e);
    EnqCountHonest(s.m, t, s.calls[t].e);
  }

  lemma EnqEndsReading<T>(w: State<T>, t: nat, c: EnqCall<T>)
    requires Wf(w) && t < |w.calls| && w.calls[t] == Enq(c) && Producing(w.calls[t]) && !c.pc.Publishing?
    requires !Producing(Step(true, w, Turn(t)).calls[t])
    ensures c.pc.SawHead?
  {
  }

  lemma DeqEndsReading<T>(w: State<T>, t: nat, c: DeqCall<T>)
    requires Wf(w) && t < |w.calls| && w.calls[t] == Deq(c) && Consuming(w.calls[t]) && !c.pc.Publishing?
    requires !Consuming(Step(true, w, Turn(t)).calls[t])
    ensures c.pc.SawHead?
  {
  }

  lemma SoundCall<T>(s: State<T>, t: nat)
    requires Sound(s) && t < |s.calls|
    ensures MemOk(s.m) && CallOk(s.m, t, MultiCall(s.calls[t]))
  {
    assert CallOk(s.m, t, MultiState(s).calls[t]);
  }

  lemma EnqCountHonest<T>(m: Mem<T>, t: nat, c: EnqCall<T>)
    requires Shape(m) && c.pc.SawHead? && EnqOk(m, t, c.(single := false)) && !Misreads(m, Enq(c))
    requires Grantable(|c.items|, Free32(m, c.head), c.beh) == 0
    ensures FreeNow(m) < if c.beh.Fixed? then |c.items| else 1
  {
    WrapDiff(m.slots - 1, m.consTail, c.head);
  }

  lemma DeqCountHonest<T>(m: Mem<T>, t: nat, c: DeqCall<T>)
    requires Shape(m) && c.pc.SawHead? && DeqOk(m, t, c.(single := false)) && !Misreads(m, Deq(c))
    requires Grantable(c.want, Entries32(m, c.head), c.beh) == 0
    ensures EntriesNow(m) < if c.beh.Fixed? then c.want else 1
  {
    WrapDiff(0, m.prodTail, c.head);
  }

  /** What the 32-bit turn that reads cons.tail decides by. */
  lemma EnqRefuses32<T>(s: State<T>, t: nat, c: EnqCall<T>)
    requires Wf(s) && t < |s.calls| && s.calls[t] == Enq(c) && c.pc.SawHead?
    ensures Step(true, WrapState(s), Turn(t)).calls[t].Enq?
    ensures Step(true, WrapState(s), Turn(t)).calls[t].e.pc.Returned?
            <==> Grantable(|c.items|, Free32(s.m, c.head), c.beh) == 0
  {
    assert WrapState(s).calls[t] == Enq(c.(head := Wrap(c.head)));
  }

  lemma DeqRefusal32Honest<T>(s: State<T>, t: nat)
    requires Sound(s) && t < |s.calls| && Consuming(s.calls[t]) && !s.calls[t].d.pc.Publishing?
    requires !Misreads(s.m, s.calls[t]) && !Consuming(Step(true, WrapState(s), Turn(t)).calls[t])
    ensures var c := s.calls[t].d; c.pc.SawHead? && EntriesNow(s.m) < if c.beh.Fixed? then c.want else 1
  {
    SoundCall(s, t);
    DeqEndsReading(WrapState(s), t, s.calls[t].d.(head := Wrap(s.calls[t].d.head)));
    DeqRefuses32(s, t, s.calls[t].d);
    DeqCountHonest(s.m, t, s.calls[t].d);
  }

  lemma DeqRefuses32<T>(s: State<T>, t: nat, c: DeqCall<T>)
    requires Wf(s) && t < |s.calls| && s.calls[t] == Deq(c) && c.pc.SawHead?
    ensures Step(true, WrapState(s), Turn(t)).calls[t].Deq?
    ensures Step(true, WrapState(s), Turn(t)).calls[t].d.pc.Returned?
            <==> Grantable(c.want, Entries32(s.m, c.head), c.beh) == 0
  {
    assert WrapState(s).calls[t] == Deq(c.(head := Wrap(c.head)));
  }

  /** A ring of two slots that 2^32 entries went through, and an enqueue that read the head when it was 1. */
  function Overslept<T>(x: T): State<T> {
    var all := seq(TWO32, _ => x);
    var h := History(all, [all], [Grant(1, 0, TWO32)], 1, TWO32, [Grant(2, 0, TWO32)], [all]);
    State(Mem(2, 2, TWO32, TWO32, TWO32, TWO32, [x, x], h),
          [Enq(EnqCall(SawHead, [x], Variable, false, 1, 0, 0, 0, 0, 0)), Idle, Idle],
          Stats(Score(1, 0, 0), Score(0, 0, 0)))
  }

  /** Its count wraps to zero: it refuses, though the ring is empty. */
  lemma NeedlessRefusal<T>(x: T)
    ensures var s := Overslept(x);
            && Sound(s) && Misreads(s.m, s.calls[0]) && FreeNow(s.m) == 1 == |s.calls[0].e.items|
            && Step(true, WrapState(s), Turn(0)).calls[0].Enq?
            && Step(true, WrapState(s), Turn(0)).calls[0].e.pc.Returned?
            && Step(true, WrapState(s), Turn(0)).calls[0].e.ret == 0
  {
    var s := Overslept(x);
    assert 2 == Pow2(1);
    assert IsPow2(2);
    assert MultiState(s) == s;
    assert Inv(s);
  }

  // ---------------------------------------------------------------------
  // Winners saw the truth
  // ---------------------------------------------------------------------

  lemma HeadsGrow<T>(s: State<T>, e: Event<T>, t: nat)
    requires Wf(s) && HeadsCurrent(s) && t < |s.calls| && e.t != t
    ensures var s' := Step(false, s, e);
            s'.calls[t] == s.calls[t] && s.m.prodHead <= s'.m.prodHead && s.m.consHead <= s'.m.consHead
  {
    if e.t < |s.calls| {
      assert HeadCurrent(s.m, s.calls[e.t]);
    }
  }

  lemma {:induction false} OthersRun<T>(s: State<T>, es: seq<Event<T>>, t: nat)
    requires Sound(s) && Real(es) && WindowAlong(s, es) && AloneAlong(true, WrapState(s), es)
    requires t < |s.calls| && forall k :: 0 <= k < |es| ==> es[k].t != t
    ensures var s' := TrueRun(s, es);
            && t < |s'.calls| && s'.calls[t] == s.calls[t] && CasWindow(s')
            && s.m.prodHead <= s'.m.prodHead && s.m.consHead <= s'.m.consHead
    decreases |es|
  {
    if es != [] {
      var e := Lift(s, es[0]);
      HeadsGrow(s, e, t);
      Step32(s, es[0]);
      AloneWrapped(Step(false, s, e));
      StepSound(s, e);
      OthersRun(Step(false, s, e), es[1..], t);
      assert LiftAll(s, es)[0] == e && LiftAll(s, es)[1..] == LiftAll(Step(false, s, e), es[1..]);
    }
  }

  /** A turn of t, then turns of others: what t still knows at the end. */
  lemma TurnThenOthers<T>(s: State<T>, t: nat, es: seq<Event<T>>) returns (s1: State<T>, s2: State<T>)
    requires Sound(s) && Real(es) && t < |s.calls| && forall k :: 0 <= k < |es| ==> es[k].t != t
    requires WindowAlong(s, [Turn(t)] + es) && AloneAlong(true, WrapState(s), [Turn(t)] + es)
    ensures s1 == Step(false, s, Lift(s, Turn(t)))
    ensures Run(true, WrapState(s), [Turn(t)] + es) == WrapState(s2)
    ensures t < |s1.calls| == |s2.calls| && s2.calls[t] == s1.calls[t] && InWindow(s2.m, s2.calls[t])
    ensures s1.m.prodHead <= s2.m.prodHead && s1.m.consHead <= s2.m.consHead
    ensures Shape(s.m) && CallOk(s.m, t, MultiCall(s.calls[t]))
  {
    var all := [Turn(t)] + es;
    var e := Lift(s, all[0]);
    s1 := Step(false, s, e);
    assert all[1..] == es;
    Step32(s, all[0]);
    AloneWrapped(s1);
    StepSound(s, e);
    OthersRun(s1, es, t);
    Run32(s1, es);
    s2 := TrueRun(s1, es);
    assert CallOk(s.m, t, MultiState(s).calls[t]);
  }

  /**
    An enqueue of the 32-bit machine whose compare-and-set is about to succeed,
    whatever the others did since it read cons.tail: the head it read was the
    true one then, its free count the true one, and it takes the minimum of that
    count and its request.
   */
  lemma EnqueueWinnerSawTruth<T>(s: State<T>, t: nat, es: seq<Event<T>>)
    requires Sound(s) && Real(es) && t < |s.calls| && s.calls[t].Enq? && s.calls[t].e.pc.SawHead?
    requires WindowAlong(s, [Turn(t)] + es) && AloneAlong(true, WrapState(s), [Turn(t)] + es)
    requires forall k :: 0 <= k < |es| ==> es[k].t != t
    requires EnqAboutToWin(Run(true, WrapState(s), [Turn(t)] + es), t)
    ensures var c, n := s.calls[t].e, Run(true, WrapState(s), [Turn(t)] + es).calls[t].e.n;
            && s.m.prodHead == c.head && Free32(s.m, c.head) == FreeNow(s.m)
            && n == (if |c.items| <= FreeNow(s.m) then |c.items| else FreeNow(s.m))
            && (c.beh.Fixed? ==> n == |c.items|)
  {
    var s1, s2 := TurnThenOthers(s, t, es);
    EnqWon(s, t, s1, s2.m.prodHead);
  }

  ghost predicate EnqAboutToWin<T>(w: State<T>, t: nat) {
    t < |w.calls| && w.calls[t].Enq? && w.calls[t].e.pc.AtCas? && w.m.prodHead == w.calls[t].e.head
  }

  ghost predicate DeqAboutToWin<T>(w: State<T>, t: nat) {
    t < |w.calls| && w.calls[t].Deq? && w.calls[t].d.pc.AtCas? && w.m.consHead == w.calls[t].d.head
  }

  lemma EnqWon<T>(s: State<T>, t: nat, s1: State<T>, later: nat)
    requires Wf(s) && Shape(s.m) && RingSize(s.m.slots) && t < |s.calls| && CallOk(s.m, t, MultiCall(s.calls[t]))
    requires s.calls[t].Enq? && s.calls[t].e.pc.SawHead? && s1 == Step(false, s, Lift(s, Turn(t)))
    requires s1.calls[t].Enq? && s1.calls[t].e.pc.AtCas? && s1.m.prodHead <= later < s1.calls[t].e.head + TWO32
    requires Wrap(later) == Wrap(s1.calls[t].e.head)
    ensures var c, n := s.calls[t].e, s1.calls[t].e.n;
            && s.m.prodHead == c.head && Free32(s.m, c.head) == FreeNow(s.m)
            && n == (if |c.items| <= FreeNow(s.m) then |c.items| else FreeNow(s.m))
            && (c.beh.Fixed? ==> n == |c.items|)
  {
    var head := s.calls[t].e.head;
    EnqReadKeepsHead(s, t);
    WrapInjective(head, later);
    WrapDiff(s.m.slots - 1, s.m.consTail, head);
  }

  lemma EnqReadKeepsHead<T>(s: State<T>, t: nat)
    requires Wf(s) && t < |s.calls| && s.calls[t].Enq? && s.calls[t].e.pc.SawHead?
    ensures var s1 := Step(false, s, Lift(s, Turn(t)));
            && s1.m == s.m && s1.calls[t].Enq? && s1.calls[t].e.head == s.calls[t].e.head
            && (!Misreads(s.m, s.calls[t]) ==>
                  s1.calls[t].e == EnqSees(s.calls[t].e, s.m.slots - 1 + s.m.consTail - s.calls[t].e.head))
  {
  }

  /** The same for a dequeue and prod.tail. */
  lemma DequeueWinnerSawTruth<T>(s: State<T>, t: nat, es: seq<Event<T>>)
    requires Sound(s) && Real(es) && t < |s.calls| && s.calls[t].Deq? && s.calls[t].d.pc.SawHead?
    requires WindowAlong(s, [Turn(t)] + es) && AloneAlong(true, WrapState(s), [Turn(t)] + es)
    requires forall k :: 0 <= k < |es| ==> es[k].t != t
    requires DeqAboutToWin(Run(true, WrapState(s), [Turn(t)] + es), t)
    ensures var c, n := s.calls[t].d, Run(true, WrapState(s), [Turn(t)] + es).calls[t].d.n;
            && s.m.consHead == c.head && Entries32(s.m, c.head) == EntriesNow(s.m)
            && n == (if c.want <= EntriesNow(s.m) then c.want else EntriesNow(s.m))
            && (c.beh.Fixed? ==> n == c.want)
  {
    var s1, s2 := TurnThenOthers(s, t, es);
    DeqWon(s, t, s1, s2.m.consHead);
  }

  lemma DeqWon<T>(s: State<T>, t: nat, s1: State<T>, later: nat)
    requires Wf(s) && Shape(s.m) && RingSize(s.m.slots) && t < |s.calls| && CallOk(s.m, t, MultiCall(s.calls[t]))
    requires s.calls[t].Deq? && s.calls[t].d.pc.SawHead? && s1 == Step(false, s, Lift(s, Turn(t)))
    requires s1.calls[t].Deq? && s1.calls[t].d.pc.AtCas? && s1.m.consHead <= later < s1.calls[t].d.head + TWO32
    requires Wrap(later) == Wrap(s1.calls[t].d.head)
    ensures var c, n := s.calls[t].d, s1.calls[t].d.n;
            && s.m.consHead == c.head && Entries32(s.m, c.head) == EntriesNow(s.m)
            && n == (if c.want <= EntriesNow(s.m) then c.want else EntriesNow(s.m))
            && (c.beh.Fixed? ==> n == c.want)
  {
    var head := s.calls[t].d.head;
    DeqReadKeepsHead(s, t);
    WrapInjective(head, later);
    WrapDiff(0, s.m.prodTail, head);
  }

  lemma DeqReadKeepsHead<T>(s: State<T>, t: nat)
    requires Wf(s) && t < |s.calls| && s.calls[t].Deq? && s.calls[t].d.pc.SawHead?
    ensures var s1 := Step(false, s, Lift(s, Turn(t)));
            && s1.m == s.m && s1.calls[t].Deq? && s1.calls[t].d.head == s.calls[t].d.head
            && (!Misreads(s.m, s.calls[t]) ==>
                  s1.calls[t].d == DeqSees(s.calls[t].d, s.m.prodTail - s.calls[t].d.head))
  {
  }

  lemma WrapCongruent(x: nat, y: nat)
    requires x <= y
    ensures Wrap(x) == Wrap(y) <==> (y - x) % TWO32 == 0
  {
  }
}
