/**
  The lock-free ring as a step machine over any number of threads.

  One step is one access to shared memory: the read of a head, the read of the
  opposite tail (with the arithmetic on it), the compare-and-set, one slot
  write or read, one test of the publish wait, the store of a tail.  Steps
  interleave in every order the schedule asks for.

  The same step function is two machines.  With `w` set, every index and every
  index difference is reduced to 32 bits, as in the program.  Without it they
  are unbounded; that machine is the one invariants are stated on.  It has one
  extra step, StaleTurn, for what 32 bits do to a reader whose head is very old.
 */
module Mpmc {
  import opened Words
  import opened RingSpec

  datatype Pc = Entered | SawHead | AtCas | Copying | Waiting | Publishing | Returned

  /** The local variables of an enqueue. */
  datatype EnqCall<T> = EnqCall(
    pc: Pc, items: seq<T>, beh: Behavior, single: bool,
    head: nat, free: int, n: nat, i: nat, ticket: nat, ret: int)

  /** The local variables of a dequeue; `out` is what it copied so far. */
  datatype DeqCall<T> = DeqCall(
    pc: Pc, want: nat, beh: Behavior, single: bool,
    head: nat, n: nat, out: seq<T>, ticket: nat, ret: int)

  /** One thread: between calls, or inside one. */
  datatype Call<T> = Idle | Enq(e: EnqCall<T>) | Deq(d: DeqCall<T>)

  /** A successful compare-and-set: who reserved which positions. */
  datatype Grant = Grant(tid: nat, start: nat, count: nat)

  /** What happened so far.  No step reads it. */
  datatype History<T> = History(
    log: seq<T>,                // position -> item reserved for it
    enqueued: seq<seq<T>>,      // the batches enqueues reserved for, in compare-and-set order
    enqs: seq<Grant>,           // their reservations, in the same order
    published: nat,             // how many of them are published
    taken: nat,                 // positions reserved by consumers
    deqs: seq<Grant>,           // consumer reservations, in compare-and-set order
    delivered: seq<seq<T>>)     // the batches dequeues returned, in order of return

  datatype Mem<T> = Mem(
    slots: nat, watermark: nat,
    prodHead: nat, prodTail: nat, consHead: nat, consTail: nat,
    ring: seq<T>, h: History<T>)

  /** Calls begun on one side, and the compare-and-sets they won and lost. */
  datatype Score = Score(begun: nat, wins: nat, fails: nat)

  datatype Stats = Stats(enq: Score, deq: Score)

  datatype State<T> = State(m: Mem<T>, calls: seq<Call<T>>, stats: Stats)

  datatype Event<T> =
    | BeginEnq(t: nat, items: seq<T>, beh: Behavior, single: bool)
    | BeginDeq(t: nat, want: nat, beh: Behavior, single: bool)
    | Turn(t: nat)
    | StaleTurn(t: nat, seen: nat)

  // ---------------------------------------------------------------------
  // Steps
  // ---------------------------------------------------------------------

  function Adv(w: bool, x: nat): nat { if w then Wrap(x) else x }

  function Diff(w: bool, x: int): int { if w then Wrap(x) else x }

  predicate WfCall<T>(c: Call<T>) {
    match c
    case Idle => true
    case Enq(e) => e.n <= |e.items| && (e.pc.AtCas? ==> e.n >= 1) && (e.pc.Copying? ==> e.i < e.n)
    case Deq(d) => (d.pc.AtCas? ==> d.n >= 1) && (d.pc.Copying? ==> |d.out| < d.n)
  }

  predicate Wf<T>(s: State<T>) {
    && 1 <= s.m.slots == |s.m.ring|
    && forall t :: 0 <= t < |s.calls| ==> WfCall(s.calls[t])
  }

  predicate Free<T>(c: Call<T>) {
    match c
    case Idle => true
    case Enq(e) => e.pc.Returned?
    case Deq(d) => d.pc.Returned?
  }

  function Put<T>(s: State<T>, t: nat, c: Call<T>): State<T>
    requires t < |s.calls|
  {
    s.(calls := s.calls[t := c])
  }

  function Begun(c: Score): Score { c.(begun := c.begun + 1) }

  function Won(c: Score): Score { c.(wins := c.wins + 1) }

  function Lost(c: Score): Score { c.(fails := c.fails + 1) }

  /** What an enqueue does with the free count it computed. */
  function EnqSees<T>(c: EnqCall<T>, free: int): EnqCall<T> {
    var n := Grantable(|c.items|, free, c.beh);
    if n == 0 then c.(pc := Returned, free := free, n := 0, ret := EnqRefusal(c.beh))
    else c.(pc := AtCas, free := free, n := n)
  }

  /** What a dequeue does with the entry count it computed. */
  function DeqSees<T>(c: DeqCall<T>, entries: int): DeqCall<T> {
    var n := Grantable(c.want, entries, c.beh);
    if n == 0 then c.(pc := Returned, n := 0, out := [], ret := DeqRefusal(c.beh))
    else c.(pc := AtCas, n := n)
  }

  function EnqTurn<T>(w: bool, s: State<T>, t: nat): (s': State<T>)
    requires Wf(s) && t < |s.calls| && s.calls[t].Enq?
    ensures Wf(s') && |s'.calls| == |s.calls|
  {
    var m, c := s.m, s.calls[t].e;
    match c.pc
    case Entered =>
      Put(s, t, Enq(c.(pc := SawHead, head := m.prodHead)))
    case SawHead =>
      Put(s, t, Enq(EnqSees(c, Diff(w, m.slots - 1 + m.consTail - c.head))))
    case AtCas =>
      if c.single || m.prodHead == c.head then
        var g := Grant(t, |m.h.log|, c.n);
        State(m.(prodHead := Adv(w, c.head + c.n),
                 h := m.h.(log := m.h.log + c.items[..c.n], enqueued := m.h.enqueued + [c.items[..c.n]],
                           enqs := m.h.enqs + [g])),
              s.calls[t := Enq(c.(pc := Copying, i := 0, ticket := |m.h.enqs|))],
              s.stats.(enq := Won(s.stats.enq)))
      else
        Put(s, t, Enq(c.(pc := Entered))).(stats := s.stats.(enq := Lost(s.stats.enq)))
    case Copying =>
      var ring := m.ring[Slot(m.slots, c.head, c.i) := c.items[c.i]];
      var c' := if c.i + 1 < c.n then c.(i := c.i + 1)
                else c.(pc := if c.single then Publishing else Waiting, i := c.i + 1,
                        ret := EnqReturn(m.slots, c.free, c.n, m.watermark, c.beh));
      State(m.(ring := ring), s.calls[t := Enq(c')], s.stats)
    case Waiting =>
      if m.prodTail == c.head then Put(s, t, Enq(c.(pc := Publishing))) else s
    case Publishing =>
      State(m.(prodTail := Adv(w, c.head + c.n), h := m.h.(published := m.h.published + 1)),
            s.calls[t := Enq(c.(pc := Returned))], s.stats)
    case Returned => s
  }

  function DeqTurn<T>(w: bool, s: State<T>, t: nat): (s': State<T>)
    requires Wf(s) && t < |s.calls| && s.calls[t].Deq?
    ensures Wf(s') && |s'.calls| == |s.calls|
  {
    var m, c := s.m, s.calls[t].d;
    match c.pc
    case Entered =>
      Put(s, t, Deq(c.(pc := SawHead, head := m.consHead)))
    case SawHead =>
      Put(s, t, Deq(DeqSees(c, Diff(w, m.prodTail - c.head))))
    case AtCas =>
      if c.single || m.consHead == c.head then
        var g := Grant(t, m.h.taken, c.n);
        State(m.(consHead := Adv(w, c.head + c.n),
                 h := m.h.(taken := m.h.taken + c.n, deqs := m.h.deqs + [g])),
              s.calls[t := Deq(c.(pc := Copying, out := [], ticket := |m.h.deqs|))],
              s.stats.(deq := Won(s.stats.deq)))
      else
        Put(s, t, Deq(c.(pc := Entered))).(stats := s.stats.(deq := Lost(s.stats.deq)))
    case Copying =>
      var out := c.out + [m.ring[Slot(m.slots, c.head, |c.out|)]];
      Put(s, t, Deq(if |out| < c.n then c.(out := out)
                    else c.(pc := if c.single then Publishing else Waiting, out := out)))
    case Waiting =>
      if m.consTail == c.head then Put(s, t, Deq(c.(pc := Publishing))) else s
    case Publishing =>
      State(m.(consTail := Adv(w, c.head + c.n), h := m.h.(delivered := m.h.delivered + [c.out])),
            s.calls[t := Deq(c.(pc := Returned, ret := DeqReturn(c.n, c.beh)))], s.stats)
    case Returned => s
  }

  /** One event.  Requests are for at least one entry and fit an unsigned; other events do nothing. */
  function Step<T>(w: bool, s: State<T>, e: Event<T>): (s': State<T>)
    requires Wf(s)
    ensures Wf(s') && |s'.calls| == |s.calls|
  {
    if e.t >= |s.calls| then s
    else match e
      case BeginEnq(t, items, beh, single) =>
        if Free(s.calls[t]) && 1 <= |items| < TWO32 then
          Put(s, t, Enq(EnqCall(Entered, items, beh, single, 0, 0, 0, 0, 0, 0)))
            .(stats := s.stats.(enq := Begun(s.stats.enq)))
        else s
      case BeginDeq(t, want, beh, single) =>
        if Free(s.calls[t]) && 1 <= want < TWO32 then
          Put(s, t, Deq(DeqCall(Entered, want, beh, single, 0, 0, [], 0, 0)))
            .(stats := s.stats.(deq := Begun(s.stats.deq)))
        else s
      case Turn(t) =>
        (match s.calls[t]
         case Idle => s
         case Enq(_) => EnqTurn(w, s, t)
         case Deq(_) => DeqTurn(w, s, t))
      case StaleTurn(t, seen) => if w then s else StaleStep(s, t, seen)
  }

  /**
    The count of a reader whose head was overtaken may be taken too low: with
    32 bits it is, once the true count no longer fits.  Nothing but an old head
    makes it so; the compare-and-set on that head is going to fail.
   */
  function StaleStep<T>(s: State<T>, t: nat, seen: nat): (s': State<T>)
    requires Wf(s) && t < |s.calls|
    ensures Wf(s') && |s'.calls| == |s.calls|
  {
    var m := s.m;
    match s.calls[t]
    case Idle => s
    case Enq(c) =>
      if c.pc.SawHead? && c.head < m.prodHead && seen <= m.slots - 1 + m.consTail - c.head then
        Put(s, t, Enq(EnqSees(c, seen)))
      else s
    case Deq(c) =>
      if c.pc.SawHead? && c.head < m.consHead && seen <= m.prodTail - c.head then
        Put(s, t, Deq(DeqSees(c, seen)))
      else s
  }

  function Run<T>(w: bool, s: State<T>, es: seq<Event<T>>): (s': State<T>)
    requires Wf(s)
    ensures Wf(s') && |s'.calls| == |s.calls|
    decreases |es|
  {
    if es == [] then s else Run(w, Step(w, s, es[0]), es[1..])
  }

  /** A ring as llring_init leaves it, with `threads` threads outside any call. */
  function Init<T>(slots: nat, watermark: nat, ring: seq<T>, threads: nat): (s: State<T>)
    requires 1 <= slots == |ring|
    ensures Wf(s)
  {
    State(Mem(slots, watermark, 0, 0, 0, 0, ring, History([], [], [], 0, 0, [], [])),
          seq(threads, _ => Idle), Stats(Score(0, 0, 0), Score(0, 0, 0)))
  }

  /** No event of the schedule starts a single-producer or single-consumer call. */
  predicate Multi<T>(e: Event<T>) {
    (e.BeginEnq? || e.BeginDeq?) ==> !e.single
  }

  predicate AllMulti<T>(es: seq<Event<T>>) {
    forall k :: 0 <= k < |es| ==> Multi(es[k])
  }

  lemma {:induction false} RunAppend<T>(w: bool, s: State<T>, es: seq<Event<T>>, fs: seq<Event<T>>)
    requires Wf(s)
    ensures Run(w, s, es + fs) == Run(w, Run(w, s, es), fs)
    decreases |es|
  {
    if es == [] {
      assert es + fs == fs;
    } else {
      assert (es + fs)[0] == es[0] && (es + fs)[1..] == es[1..] + fs;
      RunAppend(w, Step(w, s, es[0]), es[1..], fs);
    }
  }
}
