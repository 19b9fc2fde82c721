/**
  The safety and progress results for the program's own runs: 32-bit indices,
  single and multi forms mixed within their contract.
 */
module MpmcProgram {
  import opened Words
  import opened RingSpec
  import opened RingCells
  import opened Mpmc
  import opened MpmcInv
  import opened MpmcTheorems
  import opened MpmcSingle
  import opened MpmcSolo
  import opened Mpmc32
  import opened MpmcProgress

  /** A schedule of the program from the initial ring, within the contract and the window. */
  ghost predicate Schedule<T>(slots: nat, watermark: nat, ring: seq<T>, threads: nat, es: seq<Event<T>>) {
    && RingSize(slots) && 1 <= slots == |ring| && Real(es)
    && WindowAlong(Init(slots, watermark, ring, threads), es)
    && AloneAlong(true, Init(slots, watermark, ring, threads), es)
  }

  /** What the program reaches stands for a state the multi forms reach. */
  lemma Tracked<T(!new)>(slots: nat, watermark: nat, ring: seq<T>, threads: nat, es: seq<Event<T>>)
    returns (s: State<T>)
    requires Schedule(slots, watermark, ring, threads, es)
    ensures Run(true, Init(slots, watermark, ring, threads), es) == WrapState(s)
    ensures Sound(s) && Reachable(MultiState(s)) && s.m.slots == slots
  {
    var s0 := Init(slots, watermark, ring, threads);
    InitSound(slots, watermark, ring, threads);
    Refines(slots, watermark, ring, threads, es);
    Run32(s0, es);
    s := TrueRun(s0, es);
    SingleRefinesMulti(slots, watermark, ring, threads, LiftAll(s0, es));
    assert Reaches(MultiState(s), slots, watermark, ring, threads, ExpandAll(s0, LiftAll(s0, es)));
    SlotsConstant(s0, LiftAll(s0, es));
  }

  // ---------------------------------------------------------------------
  // Slot races
  // ---------------------------------------------------------------------

  /** The slot thread t is about to write. */
  function Target<T>(w: State<T>, t: nat): nat
    requires Wf(w) && t < |w.calls| && w.calls[t].Enq?
  {
    Slot(w.m.slots, w.calls[t].e.head, w.calls[t].e.i)
  }

  /** Slot c belongs to the reservation of another producer or of a consumer, or holds a published entry. */
  ghost predicate InUse<T>(w: State<T>, t: nat, c: nat)
    requires Wf(w)
  {
    || (exists u: nat, j: nat :: Writer(w, t, u, j, c))
    || (exists u: nat, j: nat :: Reader(w, u, j, c))
    || (exists j: nat :: j < Wrap(w.m.prodTail - w.m.consTail) && Slot(w.m.slots, w.m.consTail, j) == c)
  }

  ghost predicate Writer<T>(w: State<T>, t: nat, u: nat, j: nat, c: nat)
    requires Wf(w)
  {
    && u != t && u < |w.calls| && EnqFlying(w.calls[u]) && j < w.calls[u].e.n
    && Slot(w.m.slots, w.calls[u].e.head, j) == c
  }

  ghost predicate Reader<T>(w: State<T>, u: nat, j: nat, c: nat)
    requires Wf(w)
  {
    u < |w.calls| && DeqFlying(w.calls[u]) && j < w.calls[u].d.n && Slot(w.m.slots, w.calls[u].d.head, j) == c
  }

  /** The slot a copying producer of the program is about to write is in use by nobody else. */
  lemma SlotRaceFree32<T(!new)>(slots: nat, watermark: nat, ring: seq<T>, threads: nat, es: seq<Event<T>>, t: nat)
    requires Schedule(slots, watermark, ring, threads, es)
    requires var w := Run(true, Init(slots, watermark, ring, threads), es);
             t < |w.calls| && w.calls[t].Enq? && w.calls[t].e.pc.Copying?
    ensures var w := Run(true, Init(slots, watermark, ring, threads), es); !InUse(w, t, Target(w, t))
  {
    var s := Tracked(slots, watermark, ring, threads, es);
    TrackedRaceFree(s, t);
  }

  lemma TrackedRaceFree<T(!new)>(s: State<T>, t: nat)
    requires Sound(s) && Reachable(MultiState(s))
    requires t < |s.calls| && WrapState(s).calls[t].Enq? && WrapState(s).calls[t].e.pc.Copying?
    ensures !InUse(WrapState(s), t, Target(WrapState(s), t))
  {
    var w := WrapState(s);
    var c := Target(w, t);
    assert w.calls[t] == WrapCall(s.calls[t]);
    forall u: nat, j: nat ensures !Writer(w, t, u, j, c) {
      NotWriter(s, t, u, j);
    }
    forall u: nat, j: nat ensures !Reader(w, u, j, c) {
      NotReader(s, t, u, j);
    }
    forall j: nat | j < Wrap(w.m.prodTail - w.m.consTail) ensures Slot(w.m.slots, w.m.consTail, j) != c {
      EntryApart(s, t, j);
    }
  }

  lemma NotWriter<T(!new)>(s: State<T>, t: nat, u: nat, j: nat)
    requires Sound(s) && Reachable(MultiState(s))
    requires t < |s.calls| && s.calls[t].Enq? && s.calls[t].e.pc.Copying?
    ensures !Writer(WrapState(s), t, u, j, Target(WrapState(s), t))
  {
    if u != t && u < |s.calls| && EnqFlying(s.calls[u]) && j < s.calls[u].e.n {
      WriterApart(s, t, u, j);
    }
  }

  lemma NotReader<T(!new)>(s: State<T>, t: nat, u: nat, j: nat)
    requires Sound(s) && Reachable(MultiState(s))
    requires t < |s.calls| && s.calls[t].Enq? && s.calls[t].e.pc.Copying?
    ensures !Reader(WrapState(s), u, j, Target(WrapState(s), t))
  {
    if u < |s.calls| && DeqFlying(s.calls[u]) && j < s.calls[u].d.n {
      ReaderApart(s, t, u, j);
    }
  }

  /** Any position in use names another slot than the one thread t is about to write. */
  lemma UsedApart<T(!new)>(s: State<T>, t: nat, head: nat, j: nat)
    requires Reachable(MultiState(s)) && RingSize(s.m.slots)
    requires t < |s.calls| && s.calls[t].Enq? && s.calls[t].e.pc.Copying?
    requires UsedByOthers(MultiState(s), t, head + j)
    ensures Slot(s.m.slots, Wrap(head), j) != Slot(s.m.slots, Wrap(s.calls[t].e.head), s.calls[t].e.i)
  {
    SlotRaceFree(MultiState(s), t, head + j);
    SlotIsCell(s.m.slots, head, j);
    WrappedSlot(s.m.slots, head, j);
    WrappedSlot(s.m.slots, s.calls[t].e.head, s.calls[t].e.i);
  }

  lemma SizeOk<T>(s: State<T>)
    requires Sound(s)
    ensures MemOk(s.m)
  {
    assert MultiState(s).m == s.m;
  }

  lemma WriterApart<T(!new)>(s: State<T>, t: nat, u: nat, j: nat)
    requires Sound(s) && Reachable(MultiState(s))
    requires t < |s.calls| && s.calls[t].Enq? && s.calls[t].e.pc.Copying?
    requires u != t && u < |s.calls| && EnqFlying(s.calls[u]) && j < s.calls[u].e.n
    ensures Slot(s.m.slots, Wrap(s.calls[u].e.head), j) != Slot(s.m.slots, Wrap(s.calls[t].e.head), s.calls[t].e.i)
  {
    SizeOk(s);
    assert Writes(MultiState(s), u, s.calls[u].e.head + j);
    UsedApart(s, t, s.calls[u].e.head, j);
  }

  lemma ReaderApart<T(!new)>(s: State<T>, t: nat, u: nat, j: nat)
    requires Sound(s) && Reachable(MultiState(s))
    requires t < |s.calls| && s.calls[t].Enq? && s.calls[t].e.pc.Copying?
    requires u < |s.calls| && DeqFlying(s.calls[u]) && j < s.calls[u].d.n
    ensures Slot(s.m.slots, Wrap(s.calls[u].d.head), j) != Slot(s.m.slots, Wrap(s.calls[t].e.head), s.calls[t].e.i)
  {
    SizeOk(s);
    assert Reads(MultiState(s), u, s.calls[u].d.head + j);
    UsedApart(s, t, s.calls[u].d.head, j);
  }

  lemma EntryApart<T(!new)>(s: State<T>, t: nat, j: nat)
    requires Sound(s) && Reachable(MultiState(s))
    requires t < |s.calls| && s.calls[t].Enq? && s.calls[t].e.pc.Copying?
    requires j < Wrap(Wrap(s.m.prodTail) - Wrap(s.m.consTail))
    ensures Slot(s.m.slots, Wrap(s.m.consTail), j) != Slot(s.m.slots, Wrap(s.calls[t].e.head), s.calls[t].e.i)
  {
    SizeOk(s);
    WrapDiff(0, s.m.prodTail, s.m.consTail);
    UsedApart(s, t, s.m.consTail, j);
  }

  // ---------------------------------------------------------------------
  // Items and failures
  // ---------------------------------------------------------------------

  /** The batch a dequeue of the program is about to return is the next piece of what was enqueued. */
  lemma NextBatch32<T(!new)>(slots: nat, watermark: nat, ring: seq<T>, threads: nat, es: seq<Event<T>>, t: nat)
    requires Schedule(slots, watermark, ring, threads, es)
    requires var w := Run(true, Init(slots, watermark, ring, threads), es);
             t < |w.calls| && w.calls[t].Deq? && w.calls[t].d.pc.Publishing?
    ensures var w := Run(true, Init(slots, watermark, ring, threads), es);
            && |w.calls[t].d.out| == w.calls[t].d.n
            && Concat(w.m.h.delivered) + w.calls[t].d.out <= Concat(w.m.h.enqueued)
  {
    var s := Tracked(slots, watermark, ring, threads, es);
    assert WrapState(s).calls[t] == WrapCall(s.calls[t]) && MultiState(s).calls[t] == MultiCall(s.calls[t]);
    NextBatch(MultiState(s), t, s.calls[t].d.(single := false));
  }

  lemma NextBatch<T(!new)>(a: State<T>, t: nat, c: DeqCall<T>)
    requires Reachable(a) && t < |a.calls| && a.calls[t] == Deq(c) && c.pc.Publishing?
    ensures |c.out| == c.n && Concat(a.m.h.delivered) + c.out <= Concat(a.m.h.enqueued)
  {
    ReachableInv(a);
    assert CallOk(a.m, t, a.calls[t]);
    ConsumerGetsItsItems(a, t, c);
    LogIsEnqueued(a);
    Fifo(a);
    SliceJoin(a.m.h.log, c.head, c.out);
  }

  lemma LogIsEnqueued<T(!new)>(a: State<T>)
    requires Reachable(a)
    ensures Concat(a.m.h.enqueued) == a.m.h.log
  {
    var slots, watermark, ring, threads, es :| Reaches(a, slots, watermark, ring, threads, es);
    LogRun(Init(slots, watermark, ring, threads), es);
  }

  /** k calls of the program on one side lose at most k(k-1)/2 compare-and-sets in all. */
  lemma CasFailureBound32<T(!new)>(slots: nat, watermark: nat, ring: seq<T>, threads: nat, es: seq<Event<T>>,
                                   side: Side)
    requires Schedule(slots, watermark, ring, threads, es)
    ensures FewFails(ScoreOf(Run(true, Init(slots, watermark, ring, threads), es).stats, side))
  {
    var s := Tracked(slots, watermark, ring, threads, es);
    ReachableFails(MultiState(s), side);
  }

  lemma ReachableFails<T(!new)>(a: State<T>, side: Side)
    requires Reachable(a)
    ensures FewFails(ScoreOf(a.stats, side))
  {
    var slots, watermark, ring, threads, es :| Reaches(a, slots, watermark, ring, threads, es);
    CasFailureBound(slots, watermark, ring, threads, es, side);
  }
}
