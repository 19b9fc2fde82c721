/**
  What the invariant says to a user of the ring, in every reachable state:
  the reservations in flight tile the gaps exactly, no slot is raced on, items
  come out once each and in the order they went in, refusals are honest.
 */
module MpmcTheorems {
  import opened Words
  import opened RingSpec
  import opened Mpmc
  import opened MpmcInv

  /** A state some schedule of multi-producer, multi-consumer calls leads to. */
  ghost predicate Reaches<T>(s: State<T>, slots: nat, watermark: nat, ring: seq<T>, threads: nat, es: seq<Event<T>>) {
    && RingSize(slots) && 1 <= slots == |ring| && AllMulti(es)
    && s == Run(false, Init(slots, watermark, ring, threads), es)
  }

  ghost predicate Reachable<T(!new)>(s: State<T>) {
    exists slots, watermark, ring, threads, es :: Reaches(s, slots, watermark, ring, threads, es)
  }

  lemma ReachableInv<T(!new)>(s: State<T>)
    requires Reachable(s)
    ensures Wf(s) && Inv(s)
  {
    var slots, watermark, ring, threads, es :| Reaches(s, slots, watermark, ring, threads, es);
    Safety(slots, watermark, ring, threads, es);
  }

  // ---------------------------------------------------------------------
  // Tiling
  // ---------------------------------------------------------------------

  /** Thread t has reserved position x for writing and not yet published it. */
  ghost predicate Writes<T>(s: State<T>, t: nat, x: nat) {
    t < |s.calls| && EnqFlying(s.calls[t]) && s.calls[t].e.head <= x < s.calls[t].e.head + s.calls[t].e.n
  }

  /** Thread t has reserved position x for reading and not yet released it. */
  ghost predicate Reads<T>(s: State<T>, t: nat, x: nat) {
    t < |s.calls| && DeqFlying(s.calls[t]) && s.calls[t].d.head <= x < s.calls[t].d.head + s.calls[t].d.n
  }

  /**
    The four positions stay ordered and never more than slots - 1 apart, and
    each position of the two gaps is held by exactly one call in flight, each
    position outside by none.
   */
  lemma Tiling<T(!new)>(s: State<T>, x: nat)
    requires Reachable(s)
    ensures var m := s.m;
            m.consTail <= m.consHead <= m.prodTail <= m.prodHead <= m.consTail + m.slots - 1
    ensures s.m.prodTail <= x < s.m.prodHead <==> exists t :: Writes(s, t, x)
    ensures s.m.consTail <= x < s.m.consHead <==> exists t :: Reads(s, t, x)
    ensures forall t, u :: Writes(s, t, x) && Writes(s, u, x) ==> t == u
    ensures forall t, u :: Reads(s, t, x) && Reads(s, u, x) ==> t == u
  {
    ReachableInv(s);
    WritersTile(s, x);
    ReadersTile(s, x);
  }

  lemma WritersTile<T>(s: State<T>, x: nat)
    requires Inv(s)
    ensures s.m.prodTail <= x < s.m.prodHead <==> exists t :: Writes(s, t, x)
    ensures forall t, u :: Writes(s, t, x) && Writes(s, u, x) ==> t == u
  {
    var m := s.m;
    if m.prodTail <= x < m.prodHead {
      var k := TiledCover(m.h.enqs, m.h.published, m.prodTail, m.prodHead, x);
      assert HeldByEnq(s.calls, m.h.enqs[k], k);
      assert CallOk(m, m.h.enqs[k].tid, s.calls[m.h.enqs[k].tid]);
      assert Writes(s, m.h.enqs[k].tid, x);
    }
    forall t: nat | Writes(s, t, x) ensures m.prodTail <= x < m.prodHead {
      assert CallOk(m, t, s.calls[t]);
    }
    forall t: nat, u: nat | Writes(s, t, x) && Writes(s, u, x) ensures t == u {
      assert CallOk(m, t, s.calls[t]) && CallOk(m, u, s.calls[u]);
      if t != u {
        FlightsDisjoint(m, t, s.calls[t].e, u, s.calls[u].e);
      }
    }
  }

  lemma ReadersTile<T>(s: State<T>, x: nat)
    requires Inv(s)
    ensures s.m.consTail <= x < s.m.consHead <==> exists t :: Reads(s, t, x)
    ensures forall t, u :: Reads(s, t, x) && Reads(s, u, x) ==> t == u
  {
    var m := s.m;
    if m.consTail <= x < m.consHead {
      var k := TiledCover(m.h.deqs, |m.h.delivered|, m.consTail, m.consHead, x);
      assert HeldByDeq(s.calls, m.h.deqs[k], k);
      assert CallOk(m, m.h.deqs[k].tid, s.calls[m.h.deqs[k].tid]);
      assert Reads(s, m.h.deqs[k].tid, x);
    }
    forall t: nat | Reads(s, t, x) ensures m.consTail <= x < m.consHead {
      assert CallOk(m, t, s.calls[t]);
    }
    forall t: nat, u: nat | Reads(s, t, x) && Reads(s, u, x) ensures t == u {
      assert CallOk(m, t, s.calls[t]) && CallOk(m, u, s.calls[u]);
      if t != u {
        DeqFlightsDisjoint(m, t, s.calls[t].d, u, s.calls[u].d);
      }
    }
  }

  // ---------------------------------------------------------------------
  // Slot races
  // ---------------------------------------------------------------------

  /** Position x is in use by someone other than producer t: another producer, a consumer, or it waits to be read. */
  ghost predicate UsedByOthers<T>(s: State<T>, t: nat, x: nat) {
    || (exists u :: u != t && Writes(s, u, x))
    || (exists u :: Reads(s, u, x))
    || s.m.consTail <= x < s.m.prodTail
  }

  /** The slot a copying producer is about to write is used by nobody else, for any position. */
  lemma SlotRaceFree<T(!new)>(s: State<T>, t: nat, x: nat)
    requires Reachable(s) && t < |s.calls| && s.calls[t].Enq? && s.calls[t].e.pc.Copying?
    requires UsedByOthers(s, t, x)
    ensures Cell(s.m.slots, x) != Slot(s.m.slots, s.calls[t].e.head, s.calls[t].e.i)
  {
    ReachableInv(s);
    var m, c := s.m, s.calls[t].e;
    var y := c.head + c.i;
    assert CallOk(m, t, s.calls[t]);
    SlotIsCell(m.slots, c.head, c.i);
    WritersTile(s, x);
    ReadersTile(s, x);
    assert Writes(s, t, y);
    WindowCells(m, x, y);
  }

  // ---------------------------------------------------------------------
  // First in, first out, exactly once
  // ---------------------------------------------------------------------

  function Concat<T>(ss: seq<seq<T>>): seq<T> {
    if ss == [] then [] else ss[0] + Concat(ss[1..])
  }

  lemma {:induction false} ConcatSnoc<T>(ss: seq<seq<T>>, b: seq<T>)
    ensures Concat(ss + [b]) == Concat(ss) + b
  {
    if ss == [] {
      assert Concat([b]) == b + Concat([]) == b;
      assert Concat(ss + [b]) == Concat([b]);
    } else {
      assert (ss + [b])[0] == ss[0] && (ss + [b])[1..] == ss[1..] + [b];
      ConcatSnoc(ss[1..], b);
      assert ss[0] + (Concat(ss[1..]) + b) == (ss[0] + Concat(ss[1..])) + b;
    }
  }

  /** The batches of consecutive grants concatenate to what the log holds for them. */
  lemma {:induction false} BatchesConcat<T>(log: seq<T>, g: seq<Grant>, done: nat, tail: nat, head: nat,
                                            batches: seq<seq<T>>)
    requires Tiled(g, done, tail, head) && head <= |log| && |batches| <= |g|
    requires forall k :: 0 <= k < |batches| ==> Covers(batches[k], log, g[k])
    ensures StartOf(g, |batches|, head) <= |log|
    ensures Concat(batches) == log[..StartOf(g, |batches|, head)]
    decreases |batches|
  {
    if batches != [] {
      var k := |batches| - 1;
      var rest, b := batches[..k], batches[k];
      assert batches == rest + [b];
      BatchesConcat(log, g, done, tail, head, rest);
      ConcatSnoc(rest, b);
      assert Adjacent(g, k, head) && Covers(b, log, g[k]);
      SliceJoin(log, g[k].start, b);
    }
  }

  lemma SliceJoin<T>(log: seq<T>, start: nat, b: seq<T>)
    requires start + |b| <= |log| && forall j :: 0 <= j < |b| ==> b[j] == log[start + j]
    ensures log[..start] + b == log[..start + |b|]
  {
    assert b == log[start..start + |b|];
  }

  /** The log is the concatenation of the enqueued batches. */
  lemma LogStep<T>(s: State<T>, e: Event<T>)
    requires Wf(s) && Concat(s.m.h.enqueued) == s.m.h.log
    ensures Concat(Step(false, s, e).m.h.enqueued) == Step(false, s, e).m.h.log
  {
    var s' := Step(false, s, e);
    if s'.m.h.enqueued != s.m.h.enqueued {
      var c := s.calls[e.t].e;
      ConcatSnoc(s.m.h.enqueued, c.items[..c.n]);
    }
  }

  lemma {:induction false} LogRun<T>(s: State<T>, es: seq<Event<T>>)
    requires Wf(s) && Concat(s.m.h.enqueued) == s.m.h.log
    ensures Concat(Run(false, s, es).m.h.enqueued) == Run(false, s, es).m.h.log
    decreases |es|
  {
    if es != [] {
      LogStep(s, es[0]);
      LogRun(Step(false, s, es[0]), es[1..]);
    }
  }

  /**
    The batches dequeues returned are in the order of their reservations, and
    concatenate to the first cons.tail items of the batches enqueued, in the
    order of their compare-and-sets: nothing is lost, duplicated, reordered or
    torn.  When every enqueue and dequeue has returned and as many items were
    taken as put in, what came out is what went in.
   */
  lemma Fifo<T(!new)>(s: State<T>)
    requires Reachable(s)
    ensures |Concat(s.m.h.enqueued)| == s.m.prodHead && s.m.consTail <= s.m.prodTail <= s.m.prodHead
    ensures Concat(s.m.h.delivered) == Concat(s.m.h.enqueued)[..s.m.consTail]
    ensures |s.m.h.delivered| <= |s.m.h.deqs|
    ensures forall k :: 0 <= k < |s.m.h.delivered| ==> |s.m.h.delivered[k]| == s.m.h.deqs[k].count
    ensures s.m.consTail == s.m.prodHead ==> Concat(s.m.h.delivered) == Concat(s.m.h.enqueued)
  {
    ReachableInv(s);
    var slots, watermark, ring, threads, es :| Reaches(s, slots, watermark, ring, threads, es);
    LogRun(Init(slots, watermark, ring, threads), es);
    var m := s.m;
    BatchesConcat(m.h.log, m.h.deqs, |m.h.delivered|, m.consTail, m.consHead, m.h.delivered);
    forall k | 0 <= k < |m.h.delivered| ensures |m.h.delivered[k]| == m.h.deqs[k].count {
      assert Covers(m.h.delivered[k], m.h.log, m.h.deqs[k]);
    }
    if m.consTail == m.prodHead {
      assert m.h.log[..m.consTail] == m.h.log;
    }
  }

  /** A producer in flight has put its own first n items at the positions it reserved. */
  lemma ProducerLogsItsItems<T(!new)>(s: State<T>, t: nat)
    requires Reachable(s) && t < |s.calls| && EnqFlying(s.calls[t])
    ensures var c := s.calls[t].e;
            c.head + c.n <= |s.m.h.log| && s.m.h.log[c.head..c.head + c.n] == c.items[..c.n]
  {
    ReachableInv(s);
    assert CallOk(s.m, t, s.calls[t]);
  }

  lemma OutIsSlice<T>(m: Mem<T>, t: nat, c: DeqCall<T>)
    requires Shape(m) && DeqHolds(m, t, c) && |c.out| == c.n
    ensures c.head + c.n <= |m.h.log| && c.out == m.h.log[c.head..c.head + c.n]
  {
    forall j | 0 <= j < c.n ensures c.out[j] == m.h.log[c.head..c.head + c.n][j] {
      var x := c.head + j;
      assert c.out[x - c.head] == m.h.log[x];
    }
  }

  /** When a dequeue returns, its buffer holds exactly the log entries it reserved, and is the next batch delivered. */
  lemma ConsumerGetsItsItems<T(!new)>(s: State<T>, t: nat, c: DeqCall<T>)
    requires Reachable(s) && t < |s.calls| && s.calls[t] == Deq(c) && c.pc.Publishing?
    ensures c.head + c.n <= |s.m.h.log| && c.out == s.m.h.log[c.head..c.head + c.n]
    ensures |s.m.h.delivered| < |s.m.h.deqs| && s.m.h.deqs[|s.m.h.delivered|] == Grant(t, c.head, c.n)
    ensures Step(false, s, Turn(t)).calls[t] == Deq(c.(pc := Returned, ret := DeqReturn(c.n, c.beh)))
    ensures Step(false, s, Turn(t)).m.h.delivered == s.m.h.delivered + [c.out]
  {
    ReachableInv(s);
    assert CallOk(s.m, t, s.calls[t]);
    DeqPublishMem(s.m, t, c);
    OutIsSlice(s.m, t, c);
  }

  // ---------------------------------------------------------------------
  // Refusals and short successes are honest
  // ---------------------------------------------------------------------

  predicate Producing<T>(c: Call<T>) { c.Enq? && !c.e.pc.Returned? }

  predicate Consuming<T>(c: Call<T>) { c.Deq? && !c.d.pc.Returned? }

  /** Free space, and published unreserved entries, at this instant. */
  ghost function FreeNow<T>(m: Mem<T>): int { m.slots - 1 - (m.prodHead - m.consTail) }

  ghost function EntriesNow<T>(m: Mem<T>): int { m.prodTail - m.consHead }

  /**
    A turn that ends an enqueue without publishing is the one that reads
    cons.tail.  The head it uses may no longer be current.  Still, the request
    really did not fit at that instant: not in whole for a fixed request, not
    even one entry for a variable one.
   */
  lemma EnqueueRefusalHonest<T(!new)>(s: State<T>, t: nat)
    requires Reachable(s) && t < |s.calls| && Producing(s.calls[t]) && !s.calls[t].e.pc.Publishing?
    requires !Producing(Step(false, s, Turn(t)).calls[t])
    ensures var c := s.calls[t].e;
            c.pc.SawHead? && FreeNow(s.m) < if c.beh.Fixed? then |c.items| else 1
  {
    ReachableInv(s);
    assert CallOk(s.m, t, s.calls[t]);
  }

  lemma DequeueRefusalHonest<T(!new)>(s: State<T>, t: nat)
    requires Reachable(s) && t < |s.calls| && Consuming(s.calls[t]) && !s.calls[t].d.pc.Publishing?
    requires !Consuming(Step(false, s, Turn(t)).calls[t])
    ensures var c := s.calls[t].d;
            c.pc.SawHead? && EntriesNow(s.m) < if c.beh.Fixed? then c.want else 1
  {
    ReachableInv(s);
    assert CallOk(s.m, t, s.calls[t]);
  }

  /** Heads and tails never move back. */
  lemma StepMonotone<T>(s: State<T>, e: Event<T>)
    requires Wf(s) && Inv(s)
    ensures var m' := Step(false, s, e).m;
            && s.m.prodHead <= m'.prodHead && s.m.prodTail <= m'.prodTail
            && s.m.consHead <= m'.consHead && s.m.consTail <= m'.consTail
            && s.m.slots == m'.slots
    ensures e.t < |s.calls| ==> forall u :: 0 <= u < |s.calls| && u != e.t ==> Step(false, s, e).calls[u] == s.calls[u]
    ensures e.t >= |s.calls| ==> Step(false, s, e) == s
  {
    if e.t < |s.calls| {
      assert CallOk(s.m, e.t, s.calls[e.t]);
      if e.Turn? && s.calls[e.t].Enq? {
        EnqMonotone(s, e.t, s.calls[e.t].e);
      } else if e.Turn? && s.calls[e.t].Deq? {
        DeqMonotone(s, e.t, s.calls[e.t].d);
      } else {
        QuietStep(s, e);
      }
    }
  }

  ghost predicate Onward<T>(s: State<T>, t: nat, s': State<T>) {
    && s.m.prodHead <= s'.m.prodHead && s.m.prodTail <= s'.m.prodTail
    && s.m.consHead <= s'.m.consHead && s.m.consTail <= s'.m.consTail && s.m.slots == s'.m.slots
    && t < |s.calls| == |s'.calls| && s'.calls == s.calls[t := s'.calls[t]]
  }

  lemma EnqMonotone<T>(s: State<T>, t: nat, c: EnqCall<T>)
    requires Wf(s) && Shape(s.m) && t < |s.calls| && s.calls[t] == Enq(c) && EnqOk(s.m, t, c)
    ensures Onward(s, t, EnqTurn(false, s, t))
  {
  }

  lemma DeqMonotone<T>(s: State<T>, t: nat, c: DeqCall<T>)
    requires Wf(s) && Shape(s.m) && t < |s.calls| && s.calls[t] == Deq(c) && DeqOk(s.m, t, c)
    ensures Onward(s, t, DeqTurn(false, s, t))
  {
  }

  /** Arrivals, stale turns and turns of idle threads leave the ring alone. */
  lemma QuietStep<T>(s: State<T>, e: Event<T>)
    requires Wf(s) && e.t < |s.calls| && (e.Turn? ==> s.calls[e.t].Idle?)
    ensures Onward(s, e.t, Step(false, s, e))
  {
  }

  lemma {:induction false} RunMonotone<T>(s: State<T>, es: seq<Event<T>>, t: nat)
    requires Wf(s) && Inv(s) && AllMulti(es) && t < |s.calls|
    requires forall k :: 0 <= k < |es| ==> es[k].t != t
    ensures var s' := Run(false, s, es);
            && s.m.prodHead <= s'.m.prodHead && s.m.consHead <= s'.m.consHead
            && s'.calls[t] == s.calls[t]
    decreases |es|
  {
    if es != [] {
      StepMonotone(s, es[0]);
      StepInv(s, es[0]);
      RunMonotone(Step(false, s, es[0]), es[1..], t);
    }
  }

  /**
    Between reading cons.tail and a compare-and-set that succeeds, whatever
    the other threads do: the head read is the true one, so the call takes
    exactly the minimum of its request and the space that was free at the read.
   */
  lemma EnqueueTakesSnapshot<T(!new)>(s: State<T>, t: nat, es: seq<Event<T>>, s1: State<T>, s2: State<T>)
    requires Reachable(s) && t < |s.calls| && s.calls[t].Enq? && s.calls[t].e.pc.SawHead? && AllMulti(es)
    requires forall k :: 0 <= k < |es| ==> es[k].t != t
    requires s1 == Step(false, s, Turn(t)) && s2 == Run(false, s1, es)
    requires s2.calls[t].Enq? && s2.calls[t].e.pc.AtCas? && s2.m.prodHead == s2.calls[t].e.head
    ensures var c, n := s.calls[t].e, s2.calls[t].e.n;
            && n == (if |c.items| <= FreeNow(s.m) then |c.items| else FreeNow(s.m))
            && (c.beh.Fixed? ==> n == |c.items|)
  {
    ReachableInv(s);
    assert CallOk(s.m, t, s.calls[t]);
    StepInv(s, Turn(t));
    RunMonotone(s1, es, t);
    EnqueueSnapshotStep(s, t, s1);
  }

  lemma EnqueueSnapshotStep<T>(s: State<T>, t: nat, s1: State<T>)
    requires Wf(s) && t < |s.calls| && s.calls[t].Enq? && s.calls[t].e.pc.SawHead?
    requires s1 == Step(false, s, Turn(t)) && s1.calls[t].Enq? && s1.calls[t].e.pc.AtCas?
    ensures s1.m == s.m && s1.calls[t].e.head == s.calls[t].e.head
    ensures var c, n := s.calls[t].e, s1.calls[t].e.n;
            s.m.prodHead == c.head ==>
              && n == (if |c.items| <= FreeNow(s.m) then |c.items| else FreeNow(s.m))
              && (c.beh.Fixed? ==> n == |c.items|)
  {
  }

  lemma DequeueTakesSnapshot<T(!new)>(s: State<T>, t: nat, es: seq<Event<T>>, s1: State<T>, s2: State<T>)
    requires Reachable(s) && t < |s.calls| && s.calls[t].Deq? && s.calls[t].d.pc.SawHead? && AllMulti(es)
    requires forall k :: 0 <= k < |es| ==> es[k].t != t
    requires s1 == Step(false, s, Turn(t)) && s2 == Run(false, s1, es)
    requires s2.calls[t].Deq? && s2.calls[t].d.pc.AtCas? && s2.m.consHead == s2.calls[t].d.head
    ensures var c, n := s.calls[t].d, s2.calls[t].d.n;
            && n == (if c.want <= EntriesNow(s.m) then c.want else EntriesNow(s.m))
            && (c.beh.Fixed? ==> n == c.want)
  {
    ReachableInv(s);
    assert CallOk(s.m, t, s.calls[t]);
    StepInv(s, Turn(t));
    RunMonotone(s1, es, t);
    DequeueSnapshotStep(s, t, s1);
  }

  lemma DequeueSnapshotStep<T>(s: State<T>, t: nat, s1: State<T>)
    requires Wf(s) && t < |s.calls| && s.calls[t].Deq? && s.calls[t].d.pc.SawHead?
    requires s1 == Step(false, s, Turn(t)) && s1.calls[t].Deq? && s1.calls[t].d.pc.AtCas?
    ensures s1.m == s.m && s1.calls[t].d.head == s.calls[t].d.head
    ensures var c, n := s.calls[t].d, s1.calls[t].d.n;
            s.m.consHead == c.head ==>
              && n == (if c.want <= EntriesNow(s.m) then c.want else EntriesNow(s.m))
              && (c.beh.Fixed? ==> n == c.want)
  {
  }
}
