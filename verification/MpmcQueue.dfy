/**
  One producer and one consumer, in their single forms, on the program's
  32-bit ring: a bounded queue.

  An enqueue takes effect where it stores prod.tail, a dequeue where it stores
  cons.tail, and a refusal where the other side's tail was read.  Whatever the
  interleaving of the steps of the two, the effects in that order are a run of
  a FIFO queue of slots - 1 entries, and what the ring holds is that queue.
 */
module MpmcQueue {
  import opened Words
  import opened RingSpec
  import opened RingCells
  import opened Mpmc
  import opened MpmcInv
  import opened MpmcTheorems
  import opened MpmcSingle
  import opened MpmcSolo
  import opened Mpmc32

  /** What one step of the machine does to the queue. */
  datatype Effect<T> =
    | Tick
    | Put(items: seq<T>, request: seq<T>, putting: Behavior)
    | Full(denied: nat, denying: Behavior)
    | Get(out: seq<T>, most: nat, getting: Behavior)
    | Dry(missed: nat, missing: Behavior)

  /** What a FIFO queue of `cap` entries allows when it holds q. */
  ghost predicate Allowed<T>(cap: nat, q: seq<T>, e: Effect<T>) {
    match e
    case Tick => true
    case Put(items, request, beh) =>
      items != [] && items <= request && (beh.Fixed? ==> items == request) && |q| + |items| <= cap
    case Full(n, beh) => Grantable(n, cap - |q|, beh) == 0
    case Get(out, n, beh) => out != [] && out <= q && |out| <= n && (beh.Fixed? ==> |out| == n)
    case Dry(n, beh) => Grantable(n, |q|, beh) == 0
  }

  /** What it holds then. */
  function Next<T>(q: seq<T>, e: Effect<T>): seq<T> {
    match e
    case Put(items, _, _) => q + items
    case Get(out, _, _) => if |out| <= |q| then q[|out|..] else q
    case _ => q
  }

  ghost predicate QueueStep<T>(cap: nat, q: seq<T>, e: Effect<T>, q': seq<T>) {
    Allowed(cap, q, e) && q' == Next(q, e)
  }

  /** The effects are a run of the queue from q on. */
  ghost predicate Legal<T>(cap: nat, q: seq<T>, es: seq<Effect<T>>)
    decreases |es|
  {
    es == [] || (Allowed(cap, q, es[0]) && Legal(cap, Next(q, es[0]), es[1..]))
  }

  function After<T>(q: seq<T>, es: seq<Effect<T>>): seq<T>
    decreases |es|
  {
    if es == [] then q else After(Next(q, es[0]), es[1..])
  }

  /** The effect of an event in state w of the program. */
  function EffectOf<T>(w: State<T>, e: Event<T>): Effect<T>
    requires Wf(w)
  {
    if !e.Turn? || e.t >= |w.calls| then Tick
    else match w.calls[e.t]
      case Idle => Tick
      case Enq(c) =>
        if c.pc.Publishing? then Put(c.items[..c.n], c.items, c.beh)
        else if c.pc.SawHead? && EnqSees(c, Free32(w.m, c.head)).pc.Returned? then Full(|c.items|, c.beh)
        else Tick
      case Deq(c) =>
        if c.pc.Publishing? then Get(c.out, c.want, c.beh)
        else if c.pc.SawHead? && DeqSees(c, Entries32(w.m, c.head)).pc.Returned? then Dry(c.want, c.beh)
        else Tick
  }

  function Effects<T>(w: State<T>, es: seq<Event<T>>): seq<Effect<T>>
    requires Wf(w)
    decreases |es|
  {
    if es == [] then [] else [EffectOf(w, es[0])] + Effects(Step(true, w, es[0]), es[1..])
  }

  /** Single forms only. */
  ghost predicate AllSingle<T>(calls: seq<Call<T>>) {
    forall t :: 0 <= t < |calls| ==> (calls[t].Enq? ==> calls[t].e.single) && (calls[t].Deq? ==> calls[t].d.single)
  }

  predicate SingleEvent<T>(e: Event<T>) {
    && !e.StaleTurn?
    && (e.BeginEnq? ==> e.single)
    && (e.BeginDeq? ==> e.single)
  }

  /** The published entries not yet released. */
  ghost function Pending<T>(m: Mem<T>): (q: seq<T>)
    requires Shape(m)
    ensures |q| <= m.slots - 1
  {
    m.h.log[m.consTail..m.prodTail]
  }

  /** A call takes what it was granted: at most its request, and all of a fixed one. */
  predicate Fair<T>(c: Call<T>) {
    match c
    case Idle => true
    case Enq(e) => e.pc.Entered? || e.pc.SawHead? || e.pc.Returned? || (e.beh.Fixed? ==> e.n == |e.items|)
    case Deq(d) =>
      d.pc.Entered? || d.pc.SawHead? || d.pc.Returned? || (d.n <= d.want && (d.beh.Fixed? ==> d.n == d.want))
  }

  ghost predicate AllFair<T>(calls: seq<Call<T>>) {
    forall t :: 0 <= t < |calls| ==> Fair(calls[t])
  }

  ghost predicate PipeState<T>(s: State<T>) {
    Sound(s) && AllSingle(s.calls) && AllFair(s.calls)
  }

  lemma SoundShape<T>(s: State<T>)
    requires Sound(s)
    ensures MemOk(s.m)
  {
    assert MultiState(s).m == s.m;
  }

  /** With no producer in flight everything reserved is published. */
  lemma AllPublished<T>(s: State<T>)
    requires Inv(s) && forall u :: 0 <= u < |s.calls| ==> !EnqFlying(s.calls[u])
    ensures s.m.prodTail == s.m.prodHead
  {
    var k := s.m.h.published;
    assert k < |s.m.h.enqs| ==> HeldByEnq(s.calls, s.m.h.enqs[k], k);
  }

  lemma AllReleased<T>(s: State<T>)
    requires Inv(s) && forall u :: 0 <= u < |s.calls| ==> !DeqFlying(s.calls[u])
    ensures s.m.consTail == s.m.consHead
  {
    var k := |s.m.h.delivered|;
    assert k < |s.m.h.deqs| ==> HeldByDeq(s.calls, s.m.h.deqs[k], k);
  }

  /** The lone producer, about to read cons.tail: the free space is what the queue leaves. */
  lemma LoneEnqSees<T>(s: State<T>, t: nat, c: EnqCall<T>)
    requires PipeState(s) && Shape(s.m) && t < |s.calls| && s.calls[t] == Enq(c) && c.pc.SawHead?
    ensures !Misreads(s.m, s.calls[t])
    ensures Free32(s.m, c.head) == s.m.slots - 1 - |Pending(s.m)|
  {
    SoundShape(s);
    assert HeadCurrent(s.m, s.calls[t]);
    forall u | 0 <= u < |s.calls| ensures !EnqFlying(MultiState(s).calls[u]) {
      assert u != t ==> !Producing(s.calls[u]);
    }
    AllPublished(MultiState(s));
    WrapDiff(s.m.slots - 1, s.m.consTail, c.head);
  }

  lemma LoneDeqSees<T>(s: State<T>, t: nat, c: DeqCall<T>)
    requires PipeState(s) && Shape(s.m) && t < |s.calls| && s.calls[t] == Deq(c) && c.pc.SawHead?
    ensures !Misreads(s.m, s.calls[t])
    ensures Entries32(s.m, c.head) == |Pending(s.m)|
  {
    SoundShape(s);
    assert HeadCurrent(s.m, s.calls[t]);
    forall u | 0 <= u < |s.calls| ensures !DeqFlying(MultiState(s).calls[u]) {
      assert u != t ==> !Consuming(s.calls[u]);
    }
    AllReleased(MultiState(s));
    WrapDiff(0, s.m.prodTail, c.head);
  }

  /** Storing prod.tail puts the batch on the queue. */
  lemma PutIsStep<T>(m: Mem<T>, m': Mem<T>, c: EnqCall<T>)
    requires Shape(m) && Shape(m') && 1 <= c.n <= |c.items| && (c.beh.Fixed? ==> c.n == |c.items|)
    requires c.head == m.prodTail && c.head + c.n <= |m.h.log|
    requires forall x :: c.head <= x < c.head + c.n ==> m.h.log[x] == c.items[x - c.head]
    requires m' == m.(prodTail := c.head + c.n, h := m'.h) && m'.h.log == m.h.log
    ensures QueueStep(m.slots - 1, Pending(m), Put(c.items[..c.n], c.items, c.beh), Pending(m'))
  {
    var batch := m.h.log[c.head..c.head + c.n];
    assert batch == c.items[..c.n];
    assert Pending(m') == Pending(m) + batch;
  }

  /** Storing cons.tail takes the batch off it. */
  lemma GetIsStep<T>(m: Mem<T>, m': Mem<T>, c: DeqCall<T>)
    requires Shape(m) && Shape(m') && 1 <= c.n <= c.want && (c.beh.Fixed? ==> c.n == c.want)
    requires c.head == m.consTail && c.head + c.n <= m.prodTail && c.out == m.h.log[c.head..c.head + c.n]
    requires m' == m.(consTail := c.head + c.n, h := m'.h) && m'.h.log == m.h.log
    ensures QueueStep(m.slots - 1, Pending(m), Get(c.out, c.want, c.beh), Pending(m'))
  {
    assert Pending(m) == c.out + Pending(m');
  }

  /** The log may grow behind what is published; the tails stay. */
  lemma QuietIsTick<T>(m: Mem<T>, m': Mem<T>)
    requires Shape(m) && Shape(m') && m.h.log <= m'.h.log && m'.prodTail == m.prodTail && m'.consTail == m.consTail
    ensures Pending(m') == Pending(m)
  {
  }

  lemma EnqIsQueue<T>(s: State<T>, t: nat, c: EnqCall<T>)
    requires PipeState(s) && Shape(s.m) && t < |s.calls| && s.calls[t] == Enq(c)
    requires Shape(EnqTurn(false, s, t).m)
    ensures QueueStep(s.m.slots - 1, Pending(s.m), EffectOf(WrapState(s), Turn(t)), Pending(EnqTurn(false, s, t).m))
  {
    if c.pc.SawHead? {
      EnqSeesQueue(s, t, c);
    } else if c.pc.Publishing? {
      EnqPuts(s, t, c);
    } else {
      QuietIsTick(s.m, EnqTurn(false, s, t).m);
      assert WrapState(s).calls[t] == Enq(c.(head := Wrap(c.head)));
    }
  }

  lemma EnqSeesQueue<T>(s: State<T>, t: nat, c: EnqCall<T>)
    requires PipeState(s) && Shape(s.m) && t < |s.calls| && s.calls[t] == Enq(c) && c.pc.SawHead?
    ensures EnqTurn(false, s, t).m == s.m
    ensures QueueStep(s.m.slots - 1, Pending(s.m), EffectOf(WrapState(s), Turn(t)), Pending(s.m))
  {
    LoneEnqSees(s, t, c);
    WrapTwice(s.m, c.head);
    assert WrapState(s).calls[t] == Enq(c.(head := Wrap(c.head)));
  }

  lemma WrapTwice<T>(m: Mem<T>, head: nat)
    ensures Free32(WrapMem(m), Wrap(head)) == Free32(m, head)
    ensures Entries32(WrapMem(m), Wrap(head)) == Entries32(m, head)
  {
  }

  lemma EnqPuts<T>(s: State<T>, t: nat, c: EnqCall<T>)
    requires PipeState(s) && Shape(s.m) && t < |s.calls| && s.calls[t] == Enq(c) && c.pc.Publishing?
    requires Shape(EnqTurn(false, s, t).m)
    ensures QueueStep(s.m.slots - 1, Pending(s.m), EffectOf(WrapState(s), Turn(t)), Pending(EnqTurn(false, s, t).m))
  {
    assert CallOk(s.m, t, MultiState(s).calls[t]) && Fair(s.calls[t]);
    assert WrapState(s).calls[t] == Enq(c.(head := Wrap(c.head)));
    LoneAtFront(s, t);
    PutIsStep(s.m, EnqTurn(false, s, t).m, c);
  }

  lemma DeqIsQueue<T>(s: State<T>, t: nat, c: DeqCall<T>)
    requires PipeState(s) && Shape(s.m) && t < |s.calls| && s.calls[t] == Deq(c)
    requires Shape(DeqTurn(false, s, t).m)
    ensures QueueStep(s.m.slots - 1, Pending(s.m), EffectOf(WrapState(s), Turn(t)), Pending(DeqTurn(false, s, t).m))
  {
    if c.pc.SawHead? {
      DeqSeesQueue(s, t, c);
    } else if c.pc.Publishing? {
      DeqGets(s, t, c);
    } else {
      QuietIsTick(s.m, DeqTurn(false, s, t).m);
      assert WrapState(s).calls[t] == Deq(c.(head := Wrap(c.head)));
    }
  }

  lemma DeqSeesQueue<T>(s: State<T>, t: nat, c: DeqCall<T>)
    requires PipeState(s) && Shape(s.m) && t < |s.calls| && s.calls[t] == Deq(c) && c.pc.SawHead?
    ensures DeqTurn(false, s, t).m == s.m
    ensures QueueStep(s.m.slots - 1, Pending(s.m), EffectOf(WrapState(s), Turn(t)), Pending(s.m))
  {
    LoneDeqSees(s, t, c);
    WrapTwice(s.m, c.head);
    assert WrapState(s).calls[t] == Deq(c.(head := Wrap(c.head)));
  }

  lemma DeqGets<T>(s: State<T>, t: nat, c: DeqCall<T>)
    requires PipeState(s) && Shape(s.m) && t < |s.calls| && s.calls[t] == Deq(c) && c.pc.Publishing?
    requires Shape(DeqTurn(false, s, t).m)
    ensures QueueStep(s.m.slots - 1, Pending(s.m), EffectOf(WrapState(s), Turn(t)), Pending(DeqTurn(false, s, t).m))
  {
    assert CallOk(s.m, t, MultiState(s).calls[t]) && Fair(s.calls[t]);
    assert WrapState(s).calls[t] == Deq(c.(head := Wrap(c.head)));
    LoneAtFront(s, t);
    OutIsSlice(s.m, t, c.(single := false));
    GetIsStep(s.m, DeqTurn(false, s, t).m, c);
  }

  /** Each event of the two is a step of the queue. */
  lemma StepIsQueue<T>(s: State<T>, e: Event<T>)
    requires PipeState(s) && SingleEvent(e) && Sound(Step(false, s, e)) && Shape(s.m) && Shape(Step(false, s, e).m)
    ensures QueueStep(s.m.slots - 1, Pending(s.m), EffectOf(WrapState(s), e), Pending(Step(false, s, e).m))
  {
    if e.Turn? && e.t < |s.calls| {
      match s.calls[e.t]
      case Idle =>
      case Enq(c) => EnqIsQueue(s, e.t, c);
      case Deq(c) => DeqIsQueue(s, e.t, c);
    }
  }

  /** A lone reader never misreads. */
  lemma NothingLifted<T>(s: State<T>, e: Event<T>)
    requires PipeState(s)
    ensures Lift(s, e) == e
  {
    SoundShape(s);
    if e.Turn? && e.t < |s.calls| {
      match s.calls[e.t]
      case Idle =>
      case Enq(c) => if c.pc.SawHead? { LoneEnqSees(s, e.t, c); }
      case Deq(c) => if c.pc.SawHead? { LoneDeqSees(s, e.t, c); }
    }
  }

  lemma StaysSingle<T>(s: State<T>, e: Event<T>)
    requires Wf(s) && AllSingle(s.calls) && AllFair(s.calls) && SingleEvent(e)
    ensures AllSingle(Step(false, s, e).calls) && AllFair(Step(false, s, e).calls)
    ensures Step(false, s, e).m.slots == s.m.slots
  {
    var s' := Step(false, s, e);
    if e.t < |s.calls| {
      assert s'.calls == s.calls[e.t := s'.calls[e.t]];
    }
  }

  ghost predicate AllSingleEvents<T>(es: seq<Event<T>>) {
    forall k :: 0 <= k < |es| ==> SingleEvent(es[k])
  }

  /** One event: the unbounded machine follows, and the queue steps. */
  lemma PipeStep<T>(s: State<T>, e: Event<T>) returns (s1: State<T>)
    requires PipeState(s) && SingleEvent(e) && CasWindow(s) && Alone(Step(true, WrapState(s), e).calls)
    ensures s1 == Step(false, s, e) && Lift(s, e) == e && Step(true, WrapState(s), e) == WrapState(s1)
    ensures PipeState(s1) && s1.m.slots == s.m.slots && Shape(s.m) && Shape(s1.m)
    ensures QueueStep(s.m.slots - 1, Pending(s.m), EffectOf(WrapState(s), e), Pending(s1.m))
  {
    s1 := Step(false, s, e);
    NothingLifted(s, e);
    Step32(s, e);
    AloneWrapped(s1);
    StepSound(s, e);
    SoundShape(s);
    SoundShape(s1);
    StepIsQueue(s, e);
    StaysSingle(s, e);
  }

  /** qs are what the queue holds before, between and after the effects. */
  ghost predicate Chained<T>(cap: nat, qs: seq<seq<T>>, es: seq<Effect<T>>) {
    |qs| == |es| + 1 && forall k :: 0 <= k < |es| ==> Link(cap, qs, es, k)
  }

  ghost predicate Link<T>(cap: nat, qs: seq<seq<T>>, es: seq<Effect<T>>, k: nat)
    requires k < |es| && |qs| == |es| + 1
  {
    QueueStep(cap, qs[k], es[k], qs[k + 1])
  }

  lemma ChainedCons<T>(cap: nat, q: seq<T>, e: Effect<T>, q1: seq<T>, qs: seq<seq<T>>, es: seq<Effect<T>>)
    requires Chained(cap, qs, es) && QueueStep(cap, q, e, q1) && qs[0] == q1
    ensures Chained(cap, [q] + qs, [e] + es)
  {
    forall k | 0 <= k < |[e] + es| ensures Link(cap, [q] + qs, [e] + es, k) {
      assert k > 0 ==> Link(cap, qs, es, k - 1);
    }
  }

  lemma {:induction false} ChainedIsLegal<T>(cap: nat, qs: seq<seq<T>>, es: seq<Effect<T>>)
    requires Chained(cap, qs, es)
    ensures Legal(cap, qs[0], es) && After(qs[0], es) == qs[|es|]
    decreases |es|
  {
    if es != [] {
      assert Link(cap, qs, es, 0);
      forall k | 0 <= k < |es| - 1 ensures Link(cap, qs[1..], es[1..], k) {
        assert Link(cap, qs, es, k + 1);
      }
      ChainedIsLegal(cap, qs[1..], es[1..]);
    }
  }

  ghost predicate PipeRun<T>(s: State<T>, es: seq<Event<T>>) {
    PipeState(s) && AllSingleEvents(es) && WindowAlong(s, es) && AloneAlong(true, WrapState(s), es)
  }

  /** The first event of a run, and what is left. */
  lemma PipeAdvance<T>(cap: nat, s: State<T>, es: seq<Event<T>>) returns (s1: State<T>, e: Effect<T>)
    requires PipeRun(s, es) && es != [] && s.m.slots == cap + 1
    ensures PipeRun(s1, es[1..]) && TrueRun(s, es) == TrueRun(s1, es[1..])
    ensures s1.m.slots == s.m.slots && Shape(s.m) && Shape(s1.m)
    ensures Effects(WrapState(s), es) == [e] + Effects(WrapState(s1), es[1..])
    ensures QueueStep(cap, Pending(s.m), e, Pending(s1.m))
  {
    AloneTail(WrapState(s), es);
    e := EffectOf(WrapState(s), es[0]);
    s1 := PipeStep(s, es[0]);
    EffectsCons(s, es);
    TrueRunCons(s, es);
  }

  lemma AloneTail<T>(w: State<T>, es: seq<Event<T>>)
    requires Wf(w) && es != [] && AloneAlong(true, w, es)
    ensures Alone(Step(true, w, es[0]).calls) && AloneAlong(true, Step(true, w, es[0]), es[1..])
  {
  }

  /** The program's run from WrapState(s) takes the queue from Pending(s.m) step by step. */
  lemma {:induction false} RunIsQueue<T>(cap: nat, s: State<T>, es: seq<Event<T>>)
    returns (effects: seq<Effect<T>>, qs: seq<seq<T>>)
    requires PipeRun(s, es) && s.m.slots == cap + 1
    ensures Queues(cap, s, es, effects, qs)
    decreases |es|
  {
    if es == [] {
      SoundShape(s);
      effects, qs := [], [Pending(s.m)];
    } else {
      var s1, e := PipeAdvance(cap, s, es);
      effects, qs := RunIsQueue(cap, s1, es[1..]);
      QueuesCons(cap, s, es, s1, e, effects, qs);
      effects, qs := [e] + effects, [Pending(s.m)] + qs;
    }
  }

  /** The effects of a run, and what the queue holds before, between and after them. */
  ghost predicate Queues<T>(cap: nat, s: State<T>, es: seq<Event<T>>, effects: seq<Effect<T>>, qs: seq<seq<T>>)
    requires Wf(s)
  {
    && effects == Effects(WrapState(s), es)
    && Shape(s.m) && Shape(TrueRun(s, es).m) && Chained(cap, qs, effects)
    && qs[0] == Pending(s.m) && qs[|effects|] == Pending(TrueRun(s, es).m)
  }

  lemma QueuesCons<T>(cap: nat, s: State<T>, es: seq<Event<T>>, s1: State<T>, e: Effect<T>,
                      effects: seq<Effect<T>>, qs: seq<seq<T>>)
    requires Wf(s) && Wf(s1) && es != [] && Shape(s.m) && Queues(cap, s1, es[1..], effects, qs)
    requires TrueRun(s, es) == TrueRun(s1, es[1..])
    requires Effects(WrapState(s), es) == [e] + Effects(WrapState(s1), es[1..])
    requires QueueStep(cap, Pending(s.m), e, Pending(s1.m))
    ensures Queues(cap, s, es, [e] + effects, [Pending(s.m)] + qs)
  {
    ChainedCons(cap, Pending(s.m), e, Pending(s1.m), qs, effects);
  }

  lemma TrueRunCons<T>(s: State<T>, es: seq<Event<T>>)
    requires Wf(s) && es != []
    ensures TrueRun(s, es) == TrueRun(Step(false, s, Lift(s, es[0])), es[1..])
  {
    var e := Lift(s, es[0]);
    assert LiftAll(s, es)[0] == e && LiftAll(s, es)[1..] == LiftAll(Step(false, s, e), es[1..]);
  }

  lemma EffectsCons<T>(s: State<T>, es: seq<Event<T>>)
    requires Wf(s) && es != [] && Step(true, WrapState(s), es[0]) == WrapState(Step(false, s, es[0]))
    ensures Effects(WrapState(s), es)
            == [EffectOf(WrapState(s), es[0])] + Effects(WrapState(Step(false, s, es[0])), es[1..])
  {
  }

  /** The published entries are what the 32-bit ring holds between its tails. */
  lemma RingHolds<T>(m: Mem<T>)
    requires MemOk(m)
    ensures Contents(WrapMem(m)) == Pending(m)
  {
    var w := WrapMem(m);
    WrapDiff(0, m.prodTail, m.consTail);
    forall i | 0 <= i < |Pending(m)| ensures Contents(w)[i] == Pending(m)[i] {
      WrappedSlot(m.slots, m.consTail, i);
      SlotIsCell(m.slots, m.consTail, i);
      assert Holds(m, m.consTail + i);
    }
  }

  /**
    From the initial ring, in every schedule of single-form calls within their
    contract: the effects of the steps are a run of the queue, and the ring
    holds what the queue then holds.
   */
  lemma PipeIsQueue<T>(slots: nat, watermark: nat, ring: seq<T>, threads: nat, es: seq<Event<T>>)
    requires RingSize(slots) && 1 <= slots == |ring| && AllSingleEvents(es)
    requires var s0 := Init(slots, watermark, ring, threads); WindowAlong(s0, es) && AloneAlong(true, s0, es)
    ensures var s0 := Init(slots, watermark, ring, threads);
            var m := Run(true, s0, es).m;
            && Legal(slots - 1, [], Effects(s0, es))
            && |m.ring| == slots && Contents(m) == After([], Effects(s0, es))
  {
    var s0 := Init(slots, watermark, ring, threads);
    InitSound(slots, watermark, ring, threads);
    var effects, qs := RunIsQueue(slots - 1, s0, es);
    ChainedIsLegal(slots - 1, qs, effects);
    assert Pending(s0.m) == [];
    RunHolds(s0, es);
  }

  /** After a run the 32-bit ring holds the pending entries of the true state. */
  lemma RunHolds<T>(s: State<T>, es: seq<Event<T>>)
    requires Sound(s) && Real(es) && WindowAlong(s, es) && AloneAlong(true, WrapState(s), es)
    ensures Shape(TrueRun(s, es).m) && |Run(true, WrapState(s), es).m.ring| == s.m.slots
    ensures Contents(Run(true, WrapState(s), es).m) == Pending(TrueRun(s, es).m)
  {
    Run32(s, es);
    SlotsConstant(s, LiftAll(s, es));
    SoundShape(TrueRun(s, es));
    RingHolds(TrueRun(s, es).m);
  }
}
