/**
  The invariant of the ring with any number of multi-producer and
  multi-consumer threads, kept by every step of every schedule, and what it
  says about the slots: the reservations in flight tile the two gaps between
  tail and head, and no slot is ever touched by two threads at once.
 */
module MpmcInv {
  import opened Words
  import opened RingSpec
  import opened Mpmc

  // ---------------------------------------------------------------------
  // Reservations tile
  // ---------------------------------------------------------------------

  ghost function StartOf(g: seq<Grant>, k: nat, head: nat): nat {
    if k < |g| then g[k].start else head
  }

  /** The k-th grant ends where the next one, or the unreserved part, begins. */
  ghost predicate Adjacent(g: seq<Grant>, k: nat, head: nat)
    requires k < |g|
  {
    g[k].start + g[k].count == StartOf(g, k + 1, head)
  }

  /**
    The grants follow each other without gap or overlap from position 0 to
    `head`; the first `done` of them end at `tail`.
   */
  ghost predicate Tiled(g: seq<Grant>, done: nat, tail: nat, head: nat) {
    && done <= |g|
    && StartOf(g, 0, head) == 0
    && tail == StartOf(g, done, head)
    && (forall k :: 0 <= k < |g| ==> g[k].count >= 1)
    && (forall k :: 0 <= k < |g| ==> Adjacent(g, k, head))
    && (forall j, k :: 0 <= j < k < |g| ==> g[j].start + g[j].count <= g[k].start)
    && (forall k :: 0 <= k < |g| ==> g[k].start + g[k].count <= head)
  }

  lemma TiledReserve(g: seq<Grant>, done: nat, tail: nat, head: nat, tid: nat, n: nat)
    requires Tiled(g, done, tail, head) && n >= 1
    ensures Tiled(g + [Grant(tid, head, n)], done, tail, head + n)
  {
    var g', head' := g + [Grant(tid, head, n)], head + n;
    forall k | 0 <= k < |g'| ensures Adjacent(g', k, head') {
      assert k < |g| ==> Adjacent(g, k, head);
    }
  }

  /** Only the oldest unpublished grant starts at the tail, and publishing it moves the tail to its end. */
  lemma TiledPublish(g: seq<Grant>, done: nat, tail: nat, head: nat, k: nat)
    requires Tiled(g, done, tail, head) && done <= k < |g| && g[k].start == tail
    ensures k == done
    ensures Tiled(g, done + 1, tail + g[k].count, head)
  {
    TiledStrict(g, done, tail, head, done, k);
    assert Adjacent(g, done, head);
  }

  lemma TiledStrict(g: seq<Grant>, done: nat, tail: nat, head: nat, j: nat, k: nat)
    requires Tiled(g, done, tail, head) && j < |g| && k < |g|
    ensures j < k ==> g[j].start < g[k].start
  {
  }

  lemma {:induction false} TiledCover(g: seq<Grant>, done: nat, tail: nat, head: nat, x: nat) returns (k: nat)
    requires Tiled(g, done, tail, head) && tail <= x < head
    ensures done <= k < |g| && g[k].start <= x < g[k].start + g[k].count
    decreases |g| - done
  {
    if x < g[done].start + g[done].count {
      k := done;
    } else {
      assert Adjacent(g, done, head);
      k := TiledCover(g, done + 1, StartOf(g, done + 1, head), head, x);
    }
  }

  // ---------------------------------------------------------------------
  // The invariant
  // ---------------------------------------------------------------------

  predicate InFlight(pc: Pc) {
    pc.Copying? || pc.Waiting? || pc.Publishing?
  }

  predicate EnqFlying<T>(c: Call<T>) { c.Enq? && InFlight(c.e.pc) }

  predicate DeqFlying<T>(c: Call<T>) { c.Deq? && InFlight(c.d.pc) }

  /** Sizes, and the order of the four indices: occupancy is bounded by slots - 1. */
  ghost predicate Shape<T>(m: Mem<T>) {
    && m.slots == |m.ring| && m.slots >= 1
    && m.consTail <= m.consHead <= m.prodTail <= m.prodHead <= m.consTail + m.slots - 1
    && |m.h.log| == m.prodHead
    && m.h.taken == m.consHead
  }

  ghost predicate Lanes<T>(m: Mem<T>) {
    && Tiled(m.h.enqs, m.h.published, m.prodTail, m.prodHead)
    && Tiled(m.h.deqs, |m.h.delivered|, m.consTail, m.consHead)
  }

  /** The slot of position x holds the item logged for x. */
  ghost predicate Holds<T>(m: Mem<T>, x: nat)
    requires Shape(m)
  {
    x < |m.h.log| && m.ring[Cell(m.slots, x)] == m.h.log[x]
  }

  /** Published, unreleased positions hold the items logged for them. */
  ghost predicate Content<T>(m: Mem<T>)
    requires Shape(m)
  {
    forall x :: m.consTail <= x < m.prodTail ==> Holds(m, x)
  }

  /** The batch b is what the log holds for the positions of a grant. */
  ghost predicate Covers<T>(b: seq<T>, log: seq<T>, g: Grant) {
    && |b| == g.count && g.start + g.count <= |log|
    && forall j :: 0 <= j < |b| ==> b[j] == log[g.start + j]
  }

  /** The k-th batch returned is what the k-th reservation covers. */
  ghost predicate Delivery<T>(m: Mem<T>) {
    && |m.h.delivered| <= |m.h.deqs|
    && forall k :: 0 <= k < |m.h.delivered| ==> Covers(m.h.delivered[k], m.h.log, m.h.deqs[k])
  }

  ghost predicate MemOk<T>(m: Mem<T>) {
    RingSize(m.slots) && Shape(m) && Lanes(m) && Content(m) && Delivery(m)
  }

  ghost predicate EnqOk<T>(m: Mem<T>, t: nat, c: EnqCall<T>)
    requires Shape(m)
  {
    && !c.single && |c.items| >= 1 && c.n <= |c.items|
    && (c.pc.SawHead? || c.pc.AtCas? ==> c.head <= m.prodHead)
    && (c.pc.AtCas? ==>
          1 <= c.n == Grantable(|c.items|, c.free, c.beh) && c.free <= m.slots - 1 + m.consTail - c.head)
    && (InFlight(c.pc) ==> EnqHolds(m, t, c))
  }

  /** A producer in flight: its reservation, its items in the log, the slots it wrote. */
  ghost predicate EnqHolds<T>(m: Mem<T>, t: nat, c: EnqCall<T>)
    requires Shape(m) && c.n <= |c.items|
  {
    && m.h.published <= c.ticket < |m.h.enqs|
    && m.h.enqs[c.ticket] == Grant(t, c.head, c.n)
    && 1 <= c.n && c.i <= c.n
    && m.prodTail <= c.head && c.head + c.n <= m.prodHead
    && (!c.pc.Copying? ==> c.i == c.n)
    && (c.pc.Publishing? ==> c.head == m.prodTail)
    && (forall x :: c.head <= x < c.head + c.n ==> m.h.log[x] == c.items[x - c.head])
    && (forall x :: c.head <= x < c.head + c.i ==> Holds(m, x))
  }

  ghost predicate DeqOk<T>(m: Mem<T>, t: nat, c: DeqCall<T>)
    requires Shape(m)
  {
    && !c.single && c.want >= 1
    && (c.pc.SawHead? || c.pc.AtCas? ==> c.head <= m.consHead)
    && (c.pc.AtCas? ==> 1 <= c.n <= c.want && c.head + c.n <= m.prodTail)
    && (InFlight(c.pc) ==> DeqHolds(m, t, c))
  }

  /** A consumer in flight: its reservation, and the part of it already copied out. */
  ghost predicate DeqHolds<T>(m: Mem<T>, t: nat, c: DeqCall<T>)
    requires Shape(m)
  {
    && |m.h.delivered| <= c.ticket < |m.h.deqs|
    && m.h.deqs[c.ticket] == Grant(t, c.head, c.n)
    && 1 <= c.n && |c.out| <= c.n
    && m.consTail <= c.head && c.head + c.n <= m.consHead
    && (!c.pc.Copying? ==> |c.out| == c.n)
    && (c.pc.Publishing? ==> c.head == m.consTail)
    && (forall x :: c.head <= x < c.head + |c.out| ==> c.out[x - c.head] == m.h.log[x])
  }

  ghost predicate CallOk<T>(m: Mem<T>, t: nat, c: Call<T>)
    requires Shape(m)
  {
    match c
    case Idle => true
    case Enq(e) => EnqOk(m, t, e)
    case Deq(d) => DeqOk(m, t, d)
  }

  ghost predicate HeldByEnq<T>(calls: seq<Call<T>>, g: Grant, k: nat) {
    g.tid < |calls| && EnqFlying(calls[g.tid]) && calls[g.tid].e.ticket == k
  }

  ghost predicate HeldByDeq<T>(calls: seq<Call<T>>, g: Grant, k: nat) {
    g.tid < |calls| && DeqFlying(calls[g.tid]) && calls[g.tid].d.ticket == k
  }

  /** Every unpublished grant belongs to a call in flight. */
  ghost predicate Linked<T>(m: Mem<T>, calls: seq<Call<T>>) {
    && (forall k :: m.h.published <= k < |m.h.enqs| ==> HeldByEnq(calls, m.h.enqs[k], k))
    && (forall k :: |m.h.delivered| <= k < |m.h.deqs| ==> HeldByDeq(calls, m.h.deqs[k], k))
  }

  ghost predicate CallsOk<T>(m: Mem<T>, calls: seq<Call<T>>)
    requires Shape(m)
  {
    forall t :: 0 <= t < |calls| ==> CallOk(m, t, calls[t])
  }

  ghost predicate Inv<T>(s: State<T>) {
    MemOk(s.m) && CallsOk(s.m, s.calls) && Linked(s.m, s.calls)
  }

  // ---------------------------------------------------------------------
  // Slots in a window
  // ---------------------------------------------------------------------

  /** Two different positions between cons.tail and prod.head never share a slot. */
  lemma WindowCells<T>(m: Mem<T>, x: nat, y: nat)
    requires Shape(m) && x != y
    requires m.consTail <= x < m.prodHead && m.consTail <= y < m.prodHead
    ensures Cell(m.slots, x) != Cell(m.slots, y)
  {
    if x < y {
      DistinctCells(m.slots, x, y);
    } else {
      DistinctCells(m.slots, y, x);
    }
  }

  /** Two reservations with different tickets are disjoint. */
  lemma TicketsDisjoint(g: seq<Grant>, done: nat, tail: nat, head: nat, j: nat, k: nat)
    requires Tiled(g, done, tail, head) && j < |g| && k < |g| && j != k
    ensures g[j].start + g[j].count <= g[k].start || g[k].start + g[k].count <= g[j].start
  {
  }

  /** Two producers in flight hold disjoint ranges. */
  lemma FlightsDisjoint<T>(m: Mem<T>, t: nat, c: EnqCall<T>, u: nat, d: EnqCall<T>)
    requires Shape(m) && Lanes(m) && t != u
    requires EnqOk(m, t, c) && InFlight(c.pc) && EnqOk(m, u, d) && InFlight(d.pc)
    ensures c.ticket != d.ticket
    ensures c.head + c.n <= d.head || d.head + d.n <= c.head
  {
    TicketsDisjoint(m.h.enqs, m.h.published, m.prodTail, m.prodHead, c.ticket, d.ticket);
  }

  lemma DeqFlightsDisjoint<T>(m: Mem<T>, t: nat, c: DeqCall<T>, u: nat, d: DeqCall<T>)
    requires Shape(m) && Lanes(m) && t != u
    requires DeqOk(m, t, c) && InFlight(c.pc) && DeqOk(m, u, d) && InFlight(d.pc)
    ensures c.ticket != d.ticket
    ensures c.head + c.n <= d.head || d.head + d.n <= c.head
  {
    TicketsDisjoint(m.h.deqs, |m.h.delivered|, m.consTail, m.consHead, c.ticket, d.ticket);
  }

  // ---------------------------------------------------------------------
  // The five steps that change shared memory
  // ---------------------------------------------------------------------

  function EnqReserved<T>(m: Mem<T>, t: nat, items: seq<T>): Mem<T> {
    m.(prodHead := m.prodHead + |items|,
       h := m.h.(log := m.h.log + items, enqueued := m.h.enqueued + [items],
                 enqs := m.h.enqs + [Grant(t, |m.h.log|, |items|)]))
  }

  lemma EnqReserveMem<T>(m: Mem<T>, t: nat, items: seq<T>)
    requires MemOk(m) && |items| >= 1
    requires m.prodHead + |items| <= m.consTail + m.slots - 1
    ensures MemOk(EnqReserved(m, t, items))
  {
    var m' := EnqReserved(m, t, items);
    TiledReserve(m.h.enqs, m.h.published, m.prodTail, m.prodHead, t, |items|);
    assert Content(m') by {
      forall x | m.consTail <= x < m.prodTail ensures Holds(m', x) {
        assert Holds(m, x);
      }
    }
    DeliveryGrows(m, m');
  }

  /** Appending to the log changes no batch already covered. */
  lemma DeliveryGrows<T>(m: Mem<T>, m': Mem<T>)
    requires Shape(m) && Lanes(m) && Delivery(m)
    requires m.h.log <= m'.h.log && m.h.deqs <= m'.h.deqs && m'.h.delivered == m.h.delivered
    ensures Delivery(m')
  {
    forall k | 0 <= k < |m.h.delivered| ensures Covers(m'.h.delivered[k], m'.h.log, m'.h.deqs[k]) {
      assert Covers(m.h.delivered[k], m.h.log, m.h.deqs[k]);
    }
  }

  /** A reservation survives when the log only grows and its written slots still hold. */
  lemma EnqHoldsStable<T>(m: Mem<T>, m': Mem<T>, t: nat, c: EnqCall<T>)
    requires Shape(m) && Shape(m') && c.n <= |c.items| && EnqHolds(m, t, c)
    requires m.h.log <= m'.h.log && m.h.enqs <= m'.h.enqs
    requires m'.h.published <= c.ticket && m'.prodTail <= c.head
    requires m'.prodTail == m.prodTail || !c.pc.Publishing?
    requires forall x :: c.head <= x < c.head + c.i ==> Holds(m', x)
    ensures EnqHolds(m', t, c)
  {
    forall x | c.head <= x < c.head + c.n ensures m'.h.log[x] == c.items[x - c.head] {
      assert m.h.log[x] == c.items[x - c.head];
    }
  }

  lemma DeqHoldsStable<T>(m: Mem<T>, m': Mem<T>, t: nat, c: DeqCall<T>)
    requires Shape(m) && Shape(m') && DeqHolds(m, t, c)
    requires m.h.log <= m'.h.log && m.h.deqs <= m'.h.deqs
    requires |m'.h.delivered| <= c.ticket && m'.consTail <= c.head && m.consHead <= m'.consHead
    requires m'.consTail == m.consTail || !c.pc.Publishing?
    ensures DeqHolds(m', t, c)
  {
    forall x | c.head <= x < c.head + |c.out| ensures c.out[x - c.head] == m'.h.log[x] {
      assert c.out[x - c.head] == m.h.log[x];
    }
  }

  /** Same ring slots, longer log: what held still holds. */
  lemma HoldsStable<T>(m: Mem<T>, m': Mem<T>, lo: nat, hi: nat)
    requires Shape(m) && Shape(m') && m.slots == m'.slots && m.ring == m'.ring && m.h.log <= m'.h.log
    requires forall x :: lo <= x < hi ==> Holds(m, x)
    ensures forall x :: lo <= x < hi ==> Holds(m', x)
  {
    forall x | lo <= x < hi ensures Holds(m', x) {
      assert Holds(m, x);
    }
  }

  /** Steps that leave the ring alone and move tails of other calls only. */
  lemma OtherCall<T>(m: Mem<T>, m': Mem<T>, u: nat, c: Call<T>)
    requires Shape(m) && Shape(m') && CallOk(m, u, c)
    requires m'.slots == m.slots && m'.ring == m.ring && m.h.log <= m'.h.log
    requires m.h.enqs <= m'.h.enqs && m.h.deqs <= m'.h.deqs
    requires m.consTail <= m'.consTail && m.consHead <= m'.consHead
    requires m.prodTail <= m'.prodTail && m.prodHead <= m'.prodHead
    requires EnqFlying(c) ==> m'.h.published <= c.e.ticket && m'.prodTail <= c.e.head
    requires EnqFlying(c) ==> m'.prodTail == m.prodTail || !c.e.pc.Publishing?
    requires DeqFlying(c) ==> |m'.h.delivered| <= c.d.ticket && m'.consTail <= c.d.head
    requires DeqFlying(c) ==> m'.consTail == m.consTail || !c.d.pc.Publishing?
    ensures CallOk(m', u, c)
  {
    if EnqFlying(c) {
      HoldsStable(m, m', c.e.head, c.e.head + c.e.i);
      EnqHoldsStable(m, m', u, c.e);
    } else if DeqFlying(c) {
      DeqHoldsStable(m, m', u, c.d);
    }
  }

  lemma ReserveSelf<T>(m: Mem<T>, t: nat, c: EnqCall<T>, c': EnqCall<T>)
    requires MemOk(m) && EnqOk(m, t, c) && c.pc.AtCas? && c.head == m.prodHead
    requires c' == c.(pc := Copying, i := 0, ticket := |m.h.enqs|)
    ensures var m' := EnqReserved(m, t, c.items[..c.n]); Shape(m') && EnqOk(m', t, c')
  {
    var m' := EnqReserved(m, t, c.items[..c.n]);
    forall x | c.head <= x < c.head + c.n ensures m'.h.log[x] == c.items[x - c.head] {
    }
  }

  lemma EnqReserve<T>(s: State<T>, t: nat, s': State<T>)
    requires Inv(s) && t < |s.calls| && s.calls[t].Enq?
    requires s.calls[t].e.pc.AtCas? && s.m.prodHead == s.calls[t].e.head
    requires var c := s.calls[t].e;
             && s'.m == EnqReserved(s.m, t, c.items[..c.n])
             && s'.calls == s.calls[t := Enq(c.(pc := Copying, i := 0, ticket := |s.m.h.enqs|))]
    ensures Inv(s')
  {
    var m, c := s.m, s.calls[t].e;
    assert CallOk(m, t, s.calls[t]);
    EnqReserveMem(m, t, c.items[..c.n]);
    ReserveCalls(m, s.calls, t, c, c.(pc := Copying, i := 0, ticket := |m.h.enqs|));
    ReserveLinked(m, s.calls, t, c, c.(pc := Copying, i := 0, ticket := |m.h.enqs|));
  }

  lemma ReserveCalls<T>(m: Mem<T>, calls: seq<Call<T>>, t: nat, c: EnqCall<T>, c': EnqCall<T>)
    requires MemOk(m) && CallsOk(m, calls) && t < |calls| && calls[t] == Enq(c) && EnqOk(m, t, c)
    requires c.pc.AtCas? && c.head == m.prodHead && MemOk(EnqReserved(m, t, c.items[..c.n]))
    requires c' == c.(pc := Copying, i := 0, ticket := |m.h.enqs|)
    ensures CallsOk(EnqReserved(m, t, c.items[..c.n]), calls[t := Enq(c')])
  {
    var m', calls' := EnqReserved(m, t, c.items[..c.n]), calls[t := Enq(c')];
    forall u | 0 <= u < |calls'| ensures CallOk(m', u, calls'[u]) {
      if u != t {
        assert CallOk(m, u, calls[u]);
        OtherCall(m, m', u, calls[u]);
      } else {
        ReserveSelf(m, t, c, c');
      }
    }
  }

  lemma ReserveLinked<T>(m: Mem<T>, calls: seq<Call<T>>, t: nat, c: EnqCall<T>, c': EnqCall<T>)
    requires Linked(m, calls) && t < |calls| && calls[t] == Enq(c) && c.pc.AtCas? && c.n <= |c.items|
    requires c' == c.(pc := Copying, i := 0, ticket := |m.h.enqs|)
    ensures Linked(EnqReserved(m, t, c.items[..c.n]), calls[t := Enq(c')])
  {
    var m', calls' := EnqReserved(m, t, c.items[..c.n]), calls[t := Enq(c')];
    forall k | m'.h.published <= k < |m'.h.enqs| ensures HeldByEnq(calls', m'.h.enqs[k], k) {
      assert k < |m.h.enqs| ==> HeldByEnq(calls, m.h.enqs[k], k);
    }
    forall k | |m.h.delivered| <= k < |m.h.deqs| ensures HeldByDeq(calls', m'.h.deqs[k], k) {
      assert HeldByDeq(calls, m.h.deqs[k], k);
    }
  }

  function Written<T>(m: Mem<T>, x: nat, item: T): Mem<T>
    requires 1 <= m.slots == |m.ring|
  {
    m.(ring := m.ring[Cell(m.slots, x) := item])
  }

  /** Writing inside an unpublished reservation disturbs neither published items nor another producer. */
  lemma WriteMem<T>(m: Mem<T>, x: nat, item: T)
    requires MemOk(m) && m.prodTail <= x < m.prodHead
    ensures MemOk(Written(m, x, item))
  {
    var m' := Written(m, x, item);
    forall y | m.consTail <= y < m.prodTail ensures Holds(m', y) {
      assert Holds(m, y);
      WindowCells(m, x, y);
    }
  }

  lemma WriteOther<T>(m: Mem<T>, x: nat, item: T, u: nat, c: Call<T>)
    requires Shape(m) && CallOk(m, u, c) && m.prodTail <= x < m.prodHead
    requires EnqFlying(c) ==> x < c.e.head || c.e.head + c.e.i <= x
    ensures Shape(Written(m, x, item)) && CallOk(Written(m, x, item), u, c)
  {
    var m' := Written(m, x, item);
    if EnqFlying(c) {
      forall y | c.e.head <= y < c.e.head + c.e.i ensures Holds(m', y) {
        assert Holds(m, y);
        WindowCells(m, x, y);
      }
      EnqHoldsStable(m, m', u, c.e);
    } else if DeqFlying(c) {
      DeqHoldsStable(m, m', u, c.d);
    }
  }

  lemma WriteSelf<T>(m: Mem<T>, t: nat, c: EnqCall<T>, c': EnqCall<T>)
    requires Shape(m) && EnqOk(m, t, c) && c.pc.Copying? && c.i < c.n
    requires c' == c.(pc := c'.pc, i := c.i + 1, ret := c'.ret)
    requires c'.pc == if c.i + 1 < c.n then Copying else Waiting
    ensures var m' := Written(m, c.head + c.i, c.items[c.i]);
            Shape(m') && EnqOk(m', t, c')
  {
    var x := c.head + c.i;
    var m' := Written(m, x, c.items[c.i]);
    forall y | c.head <= y < c.head + c'.i ensures Holds(m', y) {
      if y < x {
        assert Holds(m, y);
        WindowCells(m, x, y);
      } else {
        assert m.h.log[x] == c.items[x - c.head];
      }
    }
    EnqHoldsStable(m, m', t, c.(i := 0));
  }

  lemma WriteCalls<T>(m: Mem<T>, calls: seq<Call<T>>, t: nat, c: EnqCall<T>, c': EnqCall<T>, u: nat)
    requires Shape(m) && Lanes(m) && CallsOk(m, calls) && t < |calls| && u < |calls| && calls[t] == Enq(c)
    requires c.pc.Copying? && c.i < c.n && c' == c.(pc := c'.pc, i := c.i + 1, ret := c'.ret)
    requires c'.pc == if c.i + 1 < c.n then Copying else Waiting
    ensures var m' := Written(m, c.head + c.i, c.items[c.i]);
            Shape(m') && CallOk(m', u, if u == t then Enq(c') else calls[u])
  {
    assert CallOk(m, t, calls[t]) && CallOk(m, u, calls[u]);
    if u == t {
      WriteSelf(m, t, c, c');
    } else {
      WriteNeighbour(m, t, c, u, calls[u]);
    }
  }

  lemma WriteNeighbour<T>(m: Mem<T>, t: nat, c: EnqCall<T>, u: nat, d: Call<T>)
    requires Shape(m) && Lanes(m) && t != u && EnqOk(m, t, c) && CallOk(m, u, d) && c.pc.Copying? && c.i < c.n
    ensures var m' := Written(m, c.head + c.i, c.items[c.i]); Shape(m') && CallOk(m', u, d)
  {
    if EnqFlying(d) {
      FlightsDisjoint(m, t, c, u, d.e);
    }
    WriteOther(m, c.head + c.i, c.items[c.i], u, d);
  }

  lemma EnqWrite<T>(s: State<T>, t: nat, c: EnqCall<T>, c': EnqCall<T>, s': State<T>)
    requires Inv(s) && t < |s.calls| && s.calls[t] == Enq(c)
    requires c.pc.Copying? && c.i < c.n && c' == c.(pc := c'.pc, i := c.i + 1, ret := c'.ret)
    requires c'.pc == if c.i + 1 < c.n then Copying else Waiting
    requires s'.m == Written(s.m, c.head + c.i, c.items[c.i]) && s'.calls == s.calls[t := Enq(c')]
    ensures Inv(s')
  {
    CopyTarget(s.m, s.calls, t, c);
    WriteMem(s.m, c.head + c.i, c.items[c.i]);
    WriteAll(s.m, s.calls, t, c, c');
    WriteLinked(s.m, s.calls, t, c, c');
  }

  /** Writing reserves nothing and publishes nothing. */
  lemma WriteLinked<T>(m: Mem<T>, calls: seq<Call<T>>, t: nat, c: EnqCall<T>, c': EnqCall<T>)
    requires Shape(m) && Linked(m, calls) && t < |calls| && calls[t] == Enq(c) && InFlight(c.pc) && InFlight(c'.pc)
    requires c'.ticket == c.ticket && c.i < |c.items|
    ensures Linked(Written(m, c.head + c.i, c.items[c.i]), calls[t := Enq(c')])
  {
    var calls' := calls[t := Enq(c')];
    forall k | m.h.published <= k < |m.h.enqs| ensures HeldByEnq(calls', m.h.enqs[k], k) {
      assert HeldByEnq(calls, m.h.enqs[k], k);
    }
    forall k | |m.h.delivered| <= k < |m.h.deqs| ensures HeldByDeq(calls', m.h.deqs[k], k) {
      assert HeldByDeq(calls, m.h.deqs[k], k);
    }
  }

  lemma CopyTarget<T>(m: Mem<T>, calls: seq<Call<T>>, t: nat, c: EnqCall<T>)
    requires Shape(m) && CallsOk(m, calls) && t < |calls| && calls[t] == Enq(c) && c.pc.Copying? && c.i < c.n
    ensures m.prodTail <= c.head + c.i < m.prodHead && c.n <= |c.items|
  {
    assert CallOk(m, t, calls[t]);
  }

  lemma WriteAll<T>(m: Mem<T>, calls: seq<Call<T>>, t: nat, c: EnqCall<T>, c': EnqCall<T>)
    requires Shape(m) && Lanes(m) && CallsOk(m, calls) && t < |calls| && calls[t] == Enq(c)
    requires c.pc.Copying? && c.i < c.n && c' == c.(pc := c'.pc, i := c.i + 1, ret := c'.ret)
    requires c'.pc == if c.i + 1 < c.n then Copying else Waiting
    ensures var m' := Written(m, c.head + c.i, c.items[c.i]); Shape(m') && CallsOk(m', calls[t := Enq(c')])
  {
    var m', calls' := Written(m, c.head + c.i, c.items[c.i]), calls[t := Enq(c')];
    forall u | 0 <= u < |calls'| ensures CallOk(m', u, calls'[u]) {
      WriteCalls(m, calls, t, c, c', u);
    }
  }

  /** The same grants, held by the same calls. */
  lemma LinkedKept<T>(s: State<T>, s': State<T>, t: nat)
    requires Linked(s.m, s.calls) && t < |s.calls| && s'.m.h == s.m.h
    requires |s'.calls| == |s.calls| && s'.calls == s.calls[t := s'.calls[t]]
    requires EnqFlying(s.calls[t]) ==> EnqFlying(s'.calls[t]) && s'.calls[t].e.ticket == s.calls[t].e.ticket
    requires DeqFlying(s.calls[t]) ==> DeqFlying(s'.calls[t]) && s'.calls[t].d.ticket == s.calls[t].d.ticket
    ensures Linked(s'.m, s'.calls)
  {
    var m := s.m;
    forall k | m.h.published <= k < |m.h.enqs| ensures HeldByEnq(s'.calls, m.h.enqs[k], k) {
      assert HeldByEnq(s.calls, m.h.enqs[k], k);
    }
    forall k | |m.h.delivered| <= k < |m.h.deqs| ensures HeldByDeq(s'.calls, m.h.deqs[k], k) {
      assert HeldByDeq(s.calls, m.h.deqs[k], k);
    }
  }

  function EnqPublished<T>(m: Mem<T>, n: nat): Mem<T> {
    m.(prodTail := m.prodTail + n, h := m.h.(published := m.h.published + 1))
  }

  lemma EnqPublishMem<T>(m: Mem<T>, t: nat, c: EnqCall<T>)
    requires MemOk(m) && EnqOk(m, t, c) && c.pc.Publishing?
    ensures c.ticket == m.h.published
    ensures MemOk(EnqPublished(m, c.n))
  {
    var m' := EnqPublished(m, c.n);
    TiledPublish(m.h.enqs, m.h.published, m.prodTail, m.prodHead, c.ticket);
    forall x | m.consTail <= x < m'.prodTail ensures Holds(m', x) {
      assert Holds(m, x);
    }
  }

  lemma EnqPublishOther<T>(m: Mem<T>, t: nat, c: EnqCall<T>, u: nat, d: Call<T>)
    requires Shape(m) && Lanes(m) && EnqOk(m, t, c) && c.pc.Publishing? && u != t && CallOk(m, u, d)
    requires Shape(EnqPublished(m, c.n)) && c.ticket == m.h.published
    ensures CallOk(EnqPublished(m, c.n), u, d)
  {
    if EnqFlying(d) {
      FlightsDisjoint(m, t, c, u, d.e);
    }
    OtherCall(m, EnqPublished(m, c.n), u, d);
  }

  lemma EnqPublish<T>(s: State<T>, t: nat, s': State<T>)
    requires Inv(s) && t < |s.calls| && s.calls[t].Enq? && s.calls[t].e.pc.Publishing?
    requires var c := s.calls[t].e;
             && s'.m == EnqPublished(s.m, c.n)
             && s'.calls == s.calls[t := Enq(c.(pc := Returned))]
    ensures Inv(s')
  {
    var m, m', c := s.m, s'.m, s.calls[t].e;
    assert CallOk(m, t, s.calls[t]);
    EnqPublishMem(m, t, c);
    forall u | 0 <= u < |s.calls| ensures CallOk(m', u, s'.calls[u]) {
      if u != t {
        assert CallOk(m, u, s.calls[u]);
        EnqPublishOther(m, t, c, u, s.calls[u]);
      }
    }
    forall k | m'.h.published <= k < |m.h.enqs| ensures HeldByEnq(s'.calls, m.h.enqs[k], k) {
      assert HeldByEnq(s.calls, m.h.enqs[k], k);
    }
    forall k | |m.h.delivered| <= k < |m.h.deqs| ensures HeldByDeq(s'.calls, m.h.deqs[k], k) {
      assert HeldByDeq(s.calls, m.h.deqs[k], k);
    }
  }

  function DeqReserved<T>(m: Mem<T>, t: nat, n: nat): Mem<T> {
    m.(consHead := m.consHead + n,
       h := m.h.(taken := m.h.taken + n, deqs := m.h.deqs + [Grant(t, m.h.taken, n)]))
  }

  lemma DeqReserveMem<T>(m: Mem<T>, t: nat, n: nat)
    requires MemOk(m) && n >= 1 && m.consHead + n <= m.prodTail
    ensures MemOk(DeqReserved(m, t, n))
  {
    var m' := DeqReserved(m, t, n);
    TiledReserve(m.h.deqs, |m.h.delivered|, m.consTail, m.consHead, t, n);
    HoldsStable(m, m', m.consTail, m.prodTail);
    DeliveryGrows(m, m');
  }

  lemma DeqReserve<T>(s: State<T>, t: nat, s': State<T>)
    requires Inv(s) && t < |s.calls| && s.calls[t].Deq?
    requires s.calls[t].d.pc.AtCas? && s.m.consHead == s.calls[t].d.head
    requires var c := s.calls[t].d;
             && s'.m == DeqReserved(s.m, t, c.n)
             && s'.calls == s.calls[t := Deq(c.(pc := Copying, out := [], ticket := |s.m.h.deqs|))]
    ensures Inv(s')
  {
    var m, m', c := s.m, s'.m, s.calls[t].d;
    assert CallOk(m, t, s.calls[t]);
    DeqReserveMem(m, t, c.n);
    forall u | 0 <= u < |s.calls| ensures CallOk(m', u, s'.calls[u]) {
      if u != t {
        assert CallOk(m, u, s.calls[u]);
        OtherCall(m, m', u, s.calls[u]);
      }
    }
    forall k | |m'.h.delivered| <= k < |m'.h.deqs| ensures HeldByDeq(s'.calls, m'.h.deqs[k], k) {
      assert k < |m.h.deqs| ==> HeldByDeq(s.calls, m.h.deqs[k], k);
    }
    forall k | m.h.published <= k < |m.h.enqs| ensures HeldByEnq(s'.calls, m'.h.enqs[k], k) {
      assert HeldByEnq(s.calls, m.h.enqs[k], k);
    }
  }

  lemma DeqRead<T>(m: Mem<T>, t: nat, c: DeqCall<T>, c': DeqCall<T>)
    requires MemOk(m) && DeqOk(m, t, c) && c.pc.Copying? && |c.out| < c.n
    requires c' == c.(pc := c'.pc, out := c.out + [m.ring[Cell(m.slots, c.head + |c.out|)]])
    requires c'.pc == if |c'.out| < c.n then Copying else Waiting
    ensures DeqOk(m, t, c')
  {
    var end := c.head + |c.out|;
    assert Holds(m, end);
    forall x | c.head <= x < c.head + |c'.out| ensures c'.out[x - c.head] == m.h.log[x] {
      if x < end {
        assert c.out[x - c.head] == m.h.log[x];
      }
    }
  }

  function DeqPublished<T>(m: Mem<T>, out: seq<T>): Mem<T> {
    m.(consTail := m.consTail + |out|, h := m.h.(delivered := m.h.delivered + [out]))
  }

  lemma DeqPublishMem<T>(m: Mem<T>, t: nat, c: DeqCall<T>)
    requires MemOk(m) && DeqOk(m, t, c) && c.pc.Publishing?
    ensures c.ticket == |m.h.delivered|
    ensures MemOk(DeqPublished(m, c.out))
  {
    var m' := DeqPublished(m, c.out);
    TiledPublish(m.h.deqs, |m.h.delivered|, m.consTail, m.consHead, c.ticket);
    assert Delivery(m') by {
      forall k | 0 <= k < |m'.h.delivered| ensures Covers(m'.h.delivered[k], m'.h.log, m'.h.deqs[k]) {
        assert k < |m.h.delivered| ==> Covers(m.h.delivered[k], m.h.log, m.h.deqs[k]);
      }
    }
    forall x | m'.consTail <= x < m'.prodTail ensures Holds(m', x) {
      assert Holds(m, x);
    }
  }

  lemma DeqPublishOther<T>(m: Mem<T>, t: nat, c: DeqCall<T>, u: nat, d: Call<T>)
    requires Shape(m) && Lanes(m) && DeqOk(m, t, c) && c.pc.Publishing? && u != t && CallOk(m, u, d)
    requires Shape(DeqPublished(m, c.out)) && c.ticket == |m.h.delivered|
    ensures CallOk(DeqPublished(m, c.out), u, d)
  {
    if DeqFlying(d) {
      DeqFlightsDisjoint(m, t, c, u, d.d);
    }
    OtherCall(m, DeqPublished(m, c.out), u, d);
  }

  lemma DeqPublish<T>(s: State<T>, t: nat, s': State<T>)
    requires Inv(s) && t < |s.calls| && s.calls[t].Deq? && s.calls[t].d.pc.Publishing?
    requires var c := s.calls[t].d;
             && s'.m == DeqPublished(s.m, c.out)
             && s'.calls == s.calls[t := Deq(c.(pc := Returned, ret := DeqReturn(c.n, c.beh)))]
    ensures Inv(s')
  {
    var m, m', c := s.m, s'.m, s.calls[t].d;
    assert CallOk(m, t, s.calls[t]);
    DeqPublishMem(m, t, c);
    forall u | 0 <= u < |s.calls| ensures CallOk(m', u, s'.calls[u]) {
      if u != t {
        assert CallOk(m, u, s.calls[u]);
        DeqPublishOther(m, t, c, u, s.calls[u]);
      }
    }
    forall k | |m'.h.delivered| <= k < |m.h.deqs| ensures HeldByDeq(s'.calls, m.h.deqs[k], k) {
      assert HeldByDeq(s.calls, m.h.deqs[k], k);
    }
    forall k | m.h.published <= k < |m.h.enqs| ensures HeldByEnq(s'.calls, m.h.enqs[k], k) {
      assert HeldByEnq(s.calls, m.h.enqs[k], k);
    }
  }

  // ---------------------------------------------------------------------
  // Every step keeps the invariant
  // ---------------------------------------------------------------------

  /** A step that touches only one thread's locals, and not its reservation. */
  lemma LocalStep<T>(s: State<T>, t: nat, c: Call<T>, s': State<T>)
    requires Inv(s) && t < |s.calls| && CallOk(s.m, t, c)
    requires s'.m == s.m && s'.calls == s.calls[t := c]
    requires EnqFlying(s.calls[t]) ==> EnqFlying(c) && c.e.ticket == s.calls[t].e.ticket
    requires DeqFlying(s.calls[t]) ==> DeqFlying(c) && c.d.ticket == s.calls[t].d.ticket
    ensures Inv(s')
  {
    LinkedKept(s, s', t);
  }

  lemma EnqLocalCall<T>(s: State<T>, t: nat, c: EnqCall<T>)
    requires Wf(s) && Shape(s.m) && t < |s.calls| && s.calls[t] == Enq(c) && EnqOk(s.m, t, c)
    requires !c.pc.Copying? && !c.pc.Publishing? && (c.pc.AtCas? ==> s.m.prodHead != c.head)
    ensures var s' := EnqTurn(false, s, t);
            && s'.m == s.m && |s'.calls| == |s.calls| && s'.calls == s.calls[t := s'.calls[t]]
            && s'.calls[t].Enq? && EnqOk(s.m, t, s'.calls[t].e)
            && (InFlight(c.pc) ==> InFlight(s'.calls[t].e.pc) && s'.calls[t].e.ticket == c.ticket)
  {
  }

  lemma EnqLocal<T>(s: State<T>, t: nat, c: EnqCall<T>)
    requires Wf(s) && Inv(s) && t < |s.calls| && s.calls[t] == Enq(c)
    requires !c.pc.Copying? && !c.pc.Publishing? && (c.pc.AtCas? ==> s.m.prodHead != c.head)
    ensures Inv(EnqTurn(false, s, t))
  {
    assert CallOk(s.m, t, s.calls[t]);
    EnqLocalCall(s, t, c);
    var s' := EnqTurn(false, s, t);
    LocalStep(s, t, s'.calls[t], s');
  }

  lemma EnqCasInv<T>(s: State<T>, t: nat, c: EnqCall<T>)
    requires Wf(s) && Inv(s) && t < |s.calls| && s.calls[t] == Enq(c) && c.pc.AtCas? && s.m.prodHead == c.head
    ensures Inv(EnqTurn(false, s, t))
  {
    assert CallOk(s.m, t, s.calls[t]);
    EnqReserve(s, t, EnqTurn(false, s, t));
  }

  lemma EnqCopyInv<T>(s: State<T>, t: nat, c: EnqCall<T>)
    requires Wf(s) && Inv(s) && t < |s.calls| && s.calls[t] == Enq(c) && c.pc.Copying?
    ensures Inv(EnqTurn(false, s, t))
  {
    var s' := EnqTurn(false, s, t);
    assert CallOk(s.m, t, s.calls[t]);
    SlotIsCell(s.m.slots, c.head, c.i);
    EnqWrite(s, t, c, s'.calls[t].e, s');
  }

  lemma EnqTurnInv<T>(s: State<T>, t: nat, c: EnqCall<T>)
    requires Wf(s) && Inv(s) && t < |s.calls| && s.calls[t] == Enq(c)
    ensures Inv(EnqTurn(false, s, t))
  {
    var s' := EnqTurn(false, s, t);
    if c.pc.AtCas? && s.m.prodHead == c.head {
      EnqCasInv(s, t, c);
    } else if c.pc.Copying? {
      EnqCopyInv(s, t, c);
    } else if c.pc.Publishing? {
      assert CallOk(s.m, t, s.calls[t]);
      EnqPublish(s, t, s');
    } else {
      EnqLocal(s, t, c);
    }
  }

  lemma DeqLocalCall<T>(s: State<T>, t: nat, c: DeqCall<T>)
    requires Wf(s) && Shape(s.m) && t < |s.calls| && s.calls[t] == Deq(c) && DeqOk(s.m, t, c)
    requires !c.pc.Copying? && !c.pc.Publishing? && (c.pc.AtCas? ==> s.m.consHead != c.head)
    ensures var s' := DeqTurn(false, s, t);
            && s'.m == s.m && |s'.calls| == |s.calls| && s'.calls == s.calls[t := s'.calls[t]]
            && s'.calls[t].Deq? && DeqOk(s.m, t, s'.calls[t].d)
            && (InFlight(c.pc) ==> InFlight(s'.calls[t].d.pc) && s'.calls[t].d.ticket == c.ticket)
  {
  }

  lemma DeqLocal<T>(s: State<T>, t: nat, c: DeqCall<T>)
    requires Wf(s) && Inv(s) && t < |s.calls| && s.calls[t] == Deq(c)
    requires !c.pc.Copying? && !c.pc.Publishing? && (c.pc.AtCas? ==> s.m.consHead != c.head)
    ensures Inv(DeqTurn(false, s, t))
  {
    assert CallOk(s.m, t, s.calls[t]);
    DeqLocalCall(s, t, c);
    var s' := DeqTurn(false, s, t);
    LocalStep(s, t, s'.calls[t], s');
  }

  lemma DeqCopy<T>(s: State<T>, t: nat, c: DeqCall<T>)
    requires Wf(s) && Inv(s) && t < |s.calls| && s.calls[t] == Deq(c) && c.pc.Copying?
    ensures Inv(DeqTurn(false, s, t))
  {
    var s' := DeqTurn(false, s, t);
    assert CallOk(s.m, t, s.calls[t]);
    SlotIsCell(s.m.slots, c.head, |c.out|);
    DeqRead(s.m, t, c, s'.calls[t].d);
    LocalStep(s, t, s'.calls[t], s');
  }

  lemma DeqTurnInv<T>(s: State<T>, t: nat, c: DeqCall<T>)
    requires Wf(s) && Inv(s) && t < |s.calls| && s.calls[t] == Deq(c)
    ensures Inv(DeqTurn(false, s, t))
  {
    var s' := DeqTurn(false, s, t);
    if c.pc.AtCas? && s.m.consHead == c.head {
      assert CallOk(s.m, t, s.calls[t]);
      DeqReserve(s, t, s');
    } else if c.pc.Copying? {
      DeqCopy(s, t, c);
    } else if c.pc.Publishing? {
      assert CallOk(s.m, t, s.calls[t]);
      DeqPublish(s, t, s');
    } else {
      DeqLocal(s, t, c);
    }
  }

  lemma StepInv<T>(s: State<T>, e: Event<T>)
    requires Wf(s) && Inv(s) && Multi(e)
    ensures Inv(Step(false, s, e))
  {
    var s' := Step(false, s, e);
    if e.t < |s.calls| {
      match e
      case BeginEnq(t, items, beh, single) => BeginInv(s, e);
      case BeginDeq(t, want, beh, single) => BeginInv(s, e);
      case Turn(t) =>
        match s.calls[t] {
          case Idle =>
          case Enq(c) => EnqTurnInv(s, t, c);
          case Deq(c) => DeqTurnInv(s, t, c);
        }
      case StaleTurn(t, seen) => StaleInv(s, t, seen);
    }
  }

  lemma BeginInv<T>(s: State<T>, e: Event<T>)
    requires Wf(s) && Inv(s) && Multi(e) && e.t < |s.calls| && (e.BeginEnq? || e.BeginDeq?)
    ensures Inv(Step(false, s, e))
  {
    var s' := Step(false, s, e);
    if s' != s {
      LocalStep(s, e.t, s'.calls[e.t], s');
    }
  }

  /** A count taken too low only makes a call ask for less, or refuse. */
  lemma StaleInv<T>(s: State<T>, t: nat, seen: nat)
    requires Wf(s) && Inv(s) && t < |s.calls|
    ensures Inv(StaleStep(s, t, seen))
  {
    var s' := StaleStep(s, t, seen);
    if s' != s {
      assert CallOk(s.m, t, s.calls[t]);
      StaleCall(s, t, seen);
      LocalStep(s, t, s'.calls[t], s');
    }
  }

  lemma StaleCall<T>(s: State<T>, t: nat, seen: nat)
    requires Wf(s) && Shape(s.m) && t < |s.calls| && CallOk(s.m, t, s.calls[t]) && StaleStep(s, t, seen) != s
    ensures var s' := StaleStep(s, t, seen);
            && s'.m == s.m && |s'.calls| == |s.calls| && s'.calls == s.calls[t := s'.calls[t]]
            && CallOk(s.m, t, s'.calls[t]) && !EnqFlying(s.calls[t]) && !DeqFlying(s.calls[t])
  {
  }

  lemma {:induction false} RunInv<T>(s: State<T>, es: seq<Event<T>>)
    requires Wf(s) && Inv(s) && AllMulti(es)
    ensures Inv(Run(false, s, es))
    decreases |es|
  {
    if es != [] {
      StepInv(s, es[0]);
      RunInv(Step(false, s, es[0]), es[1..]);
    }
  }

  lemma InitInv<T>(slots: nat, watermark: nat, ring: seq<T>, threads: nat)
    requires RingSize(slots) && 1 <= slots == |ring|
    ensures Inv(Init(slots, watermark, ring, threads))
  {
  }

  /** Every state of every run satisfies the invariant. */
  lemma {:induction false} Safety<T>(slots: nat, watermark: nat, ring: seq<T>, threads: nat, es: seq<Event<T>>)
    requires RingSize(slots) && 1 <= slots == |ring| && AllMulti(es)
    ensures Inv(Run(false, Init(slots, watermark, ring, threads), es))
  {
    InitInv(slots, watermark, ring, threads);
    RunInv(Init(slots, watermark, ring, threads), es);
  }
}
