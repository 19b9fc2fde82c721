/**
  The two pictures of the ring agree: a single-form call that the step machine
  runs alone, on 32-bit indices, does to the ring and returns to its caller
  just what the object's method promises.
 */
module MpmcSolo {
  import opened Words
  import opened RingSpec
  import opened RingCells
  import opened Mpmc

  /** k turns of thread t and of nobody else. */
  function Spin<T>(s: State<T>, t: nat, k: nat): (s': State<T>)
    requires Wf(s)
    ensures Wf(s') && |s'.calls| == |s.calls|
    decreases k
  {
    if k == 0 then s else Spin(Step(true, s, Turn(t)), t, k - 1)
  }

  function Turns<T>(t: nat, k: nat): seq<Event<T>> {
    if k == 0 then [] else [Turn(t)] + Turns(t, k - 1)
  }

  lemma {:induction false} SpinIsRun<T>(s: State<T>, t: nat, k: nat)
    requires Wf(s)
    ensures Spin(s, t, k) == Run(true, s, Turns(t, k))
    decreases k
  {
    if k > 0 {
      assert Turns<T>(t, k)[1..] == Turns(t, k - 1);
      SpinIsRun(Step(true, s, Turn(t)), t, k - 1);
    }
  }

  /** The schedule of one call run alone: it begins, then its thread takes k turns. */
  function WholeCall<T>(begin: Event<T>, k: nat): seq<Event<T>> {
    [begin] + Turns(begin.t, k)
  }

  lemma WholeCallIsSpin<T>(s: State<T>, begin: Event<T>, k: nat)
    requires Wf(s)
    ensures Run(true, s, WholeCall(begin, k)) == Spin(Step(true, s, begin), begin.t, k)
  {
    assert WholeCall(begin, k)[1..] == Turns(begin.t, k);
    SpinIsRun(Step(true, s, begin), begin.t, k);
  }

  lemma {:induction false} SpinSplit<T>(s: State<T>, t: nat, j: nat, k: nat)
    requires Wf(s)
    ensures Spin(s, t, j + k) == Spin(Spin(s, t, j), t, k)
    decreases j
  {
    if j > 0 {
      SpinSplit(Step(true, s, Turn(t)), t, j - 1, k);
    }
  }

  /** Between calls: heads and tails agree, and at most slots - 1 entries are in use. */
  ghost predicate Resting<T>(m: Mem<T>) {
    && RingSize(m.slots) && 1 <= m.slots == |m.ring|
    && m.prodHead == m.prodTail < TWO32 && m.consHead == m.consTail < TWO32
    && Used(m) <= m.slots - 1
  }

  ghost function Used<T>(m: Mem<T>): nat {
    Wrap(m.prodTail - m.consTail)
  }

  ghost function Contents<T>(m: Mem<T>): (s: seq<T>)
    requires |m.ring| >= 1
    ensures |s| == Used(m)
  {
    Entries(m.ring, m.consTail, Used(m))
  }

  // ---------------------------------------------------------------------
  // Enqueue
  // ---------------------------------------------------------------------

  lemma {:induction false} StoreLoop<T>(s: State<T>, t: nat, c: EnqCall<T>, was: seq<T>)
    requires Wf(s) && t < |s.calls| && s.calls[t] == Enq(c) && c.pc.Copying? && c.single
    requires |was| == s.m.slots && s.m.ring == Stored(was, c.head, c.items, c.i)
    ensures Spin(s, t, c.n - c.i) ==
            State(s.m.(ring := Stored(was, c.head, c.items, c.n)),
                  s.calls[t := Enq(c.(pc := Publishing, i := c.n,
                                      ret := EnqReturn(s.m.slots, c.free, c.n, s.m.watermark, c.beh)))],
                  s.stats)
    decreases c.n - c.i
  {
    var s1 := Step(true, s, Turn(t));
    if c.i + 1 < c.n {
      StoreLoop(s1, t, c.(i := c.i + 1), was);
    }
  }

  /** The two reads. */
  lemma EnqLooks<T>(s: State<T>, t: nat, items: seq<T>, beh: Behavior) returns (s2: State<T>)
    requires Wf(s) && Resting(s.m) && t < |s.calls| && s.calls[t] == Enq(NewEnq(items, beh))
    ensures Wf(s2) && s2.m == s.m && |s2.calls| == |s.calls| && Spin(s, t, 3) == Spin(s2, t, 1)
    ensures s2.calls[t] ==
            Enq(EnqSees(NewEnq(items, beh).(pc := SawHead, head := s.m.prodTail), s.m.slots - 1 - Used(s.m)))
  {
    FreeSpace(s.m.slots - 1, s.m.consTail, s.m.prodTail, Used(s.m));
    var s1 := Step(true, s, Turn(t));
    s2 := Step(true, s1, Turn(t));
    assert Spin(s, t, 3) == Spin(s1, t, 2) == Spin(s2, t, 1);
  }

  /** The three turns up to the reservation. */
  lemma EnqReserves<T>(s: State<T>, t: nat, items: seq<T>, beh: Behavior, k: nat)
    requires k == 3 && Wf(s) && Resting(s.m) && t < |s.calls| && s.calls[t] == Enq(NewEnq(items, beh))
    ensures EnqPlaced(s.m, Spin(s, t, k), t, items, beh, Grantable(|items|, s.m.slots - 1 - Used(s.m), beh))
  {
    var s2 := EnqLooks(s, t, items, beh);
    assert Spin(s, t, 3) == Spin(s2, t, 1) == Step(true, s2, Turn(t));
  }

  function NewEnq<T>(items: seq<T>, beh: Behavior): EnqCall<T> {
    EnqCall(Entered, items, beh, true, 0, 0, 0, 0, 0, 0)
  }

  function NewDeq<T>(want: nat, beh: Behavior): DeqCall<T> {
    DeqCall(Entered, want, beh, true, 0, 0, [], 0, 0)
  }

  lemma EnqFinishes<T>(s: State<T>, t: nat, c: EnqCall<T>)
    requires Wf(s) && t < |s.calls| && s.calls[t] == Enq(c) && c.pc.Copying? && c.single && c.i == 0
    requires |s.m.ring| == s.m.slots
    ensures var last := Spin(s, t, c.n + 1);
            && |last.calls| == |s.calls|
            && last.calls[t] == Enq(c.(pc := Returned, i := c.n,
                                       ret := EnqReturn(s.m.slots, c.free, c.n, s.m.watermark, c.beh)))
            && last.m == s.m.(ring := Stored(s.m.ring, c.head, c.items, c.n), prodTail := Wrap(c.head + c.n),
                              h := last.m.h)
  {
    StoreLoop(s, t, c, s.m.ring);
    SpinSplit(s, t, c.n, 1);
    var s1 := Spin(s, t, c.n);
  }

  lemma {:induction false} ReturnedStays<T>(s: State<T>, t: nat, k: nat)
    requires Wf(s) && t < |s.calls| && !s.calls[t].Idle? && Free(s.calls[t])
    ensures Spin(s, t, k) == s
  {
    if k > 0 {
      ReturnedStays(s, t, k - 1);
    }
  }

  lemma EnqEffect<T>(m: Mem<T>, m': Mem<T>, items: seq<T>, n: nat)
    requires Resting(m) && n <= |items| && Used(m) + n <= m.slots - 1
    requires m' == m.(prodHead := Wrap(m.prodTail + n), ring := Stored(m.ring, m.prodTail, items, n),
                      prodTail := Wrap(m.prodTail + n), h := m'.h)
    ensures Resting(m') && Contents(m') == Contents(m) + items[..n]
  {
    UsedMoves(m.consTail, m.prodTail, Used(m), n);
    StoreAppends(m.ring, m.consTail, Used(m), items, n);
  }

  /** What SpDoEnqueue promises its caller, of a call by thread t that found m. */
  ghost predicate Enqueued<T>(m: Mem<T>, last: State<T>, t: nat, items: seq<T>, beh: Behavior)
    requires |m.ring| >= 1
  {
    var free := m.slots - 1 - |Contents(m)|;
    var n := Grantable(|items|, free, beh);
    && Resting(last.m) && Contents(last.m) == Contents(m) + items[..n]
    && t < |last.calls| && last.calls[t].Enq? && last.calls[t].e.pc.Returned?
    && last.calls[t].e.ret ==
         if |items| > free && n == 0 then EnqRefusal(beh)
         else if |Contents(last.m)| >= m.watermark then (if beh.Fixed? then -ERR_QUOT else n - TWO31)
         else (if beh.Fixed? then 0 else n)
  }

  lemma EnqTakes<T>(m: Mem<T>, last: State<T>, t: nat, c: EnqCall<T>)
    requires Resting(m) && 1 <= c.n == Grantable(|c.items|, c.free, c.beh) && c.free == m.slots - 1 - Used(m)
    requires t < |last.calls| && last.calls[t].Enq? && last.calls[t].e.pc.Returned?
    requires last.calls[t].e.ret == EnqReturn(m.slots, c.free, c.n, m.watermark, c.beh)
    requires last.m == m.(prodHead := Wrap(m.prodTail + c.n), ring := Stored(m.ring, m.prodTail, c.items, c.n),
                          prodTail := Wrap(m.prodTail + c.n), h := last.m.h)
    ensures Enqueued(m, last, t, c.items, c.beh)
  {
    EnqEffect(m, last.m, c.items, c.n);
  }

  /** A call for these items that was refused, or has reserved its n positions and copied nothing yet. */
  ghost predicate EnqPlaced<T>(m: Mem<T>, s: State<T>, t: nat, items: seq<T>, beh: Behavior, n: nat) {
    && t < |s.calls| && s.calls[t].Enq?
    && var c := s.calls[t].e;
    && c.items == items && c.beh == beh && c.single && c.i == 0 && c.n == n && c.free == m.slots - 1 - Used(m)
    && (if n == 0 then s.m == m && c.pc.Returned? && c.ret == EnqRefusal(beh)
        else s.m == m.(prodHead := Wrap(m.prodTail + n), h := s.m.h) && c.pc.Copying? && c.head == m.prodTail)
  }

  /** From the third turn on. */
  lemma EnqRest<T>(m: Mem<T>, s: State<T>, t: nat, items: seq<T>, beh: Behavior, n: nat)
    requires Wf(s) && Resting(m) && |items| >= 1 && n == Grantable(|items|, m.slots - 1 - Used(m), beh)
    requires EnqPlaced(m, s, t, items, beh, n)
    ensures Enqueued(m, Spin(s, t, n + 1), t, items, beh)
  {
    var c := s.calls[t].e;
    if n == 0 {
      ReturnedStays(s, t, 1);
      assert Contents(m) + c.items[..0] == Contents(m);
    } else {
      EnqFinishes(s, t, c);
      EnqTakes(m, Spin(s, t, n + 1), t, c);
    }
  }

  lemma EnqWhole<T>(s: State<T>, t: nat, items: seq<T>, beh: Behavior, k: nat)
    requires k == 3 && Wf(s) && Resting(s.m) && t < |s.calls| && s.calls[t] == Enq(NewEnq(items, beh)) && |items| >= 1
    ensures var n := Grantable(|items|, s.m.slots - 1 - Used(s.m), beh);
            Enqueued(s.m, Spin(s, t, k + (n + 1)), t, items, beh)
  {
    var n := Grantable(|items|, s.m.slots - 1 - Used(s.m), beh);
    EnqReserves(s, t, items, beh, k);
    SpinSplit(s, t, k, n + 1);
    var s3 := Spin(s, t, k);
    EnqRest(s.m, s3, t, items, beh, n);
  }

  lemma EnqBegins<T>(s: State<T>, t: nat, items: seq<T>, beh: Behavior, k: nat) returns (s0: State<T>)
    requires Wf(s) && t < |s.calls| && Free(s.calls[t]) && 1 <= |items| < TWO32
    ensures Wf(s0) && s0.m == s.m && |s0.calls| == |s.calls| && s0.calls[t] == Enq(NewEnq(items, beh))
    ensures Run(true, s, WholeCall(BeginEnq(t, items, beh, true), k)) == Spin(s0, t, k)
  {
    s0 := Step(true, s, BeginEnq(t, items, beh, true));
    WholeCallIsSpin(s, BeginEnq(t, items, beh, true), k);
  }

  /** An enqueue run alone keeps the promise of Llring.SpDoEnqueue. */
  lemma SoloEnqueue<T>(s: State<T>, t: nat, items: seq<T>, beh: Behavior) returns (last: State<T>)
    requires Wf(s) && Resting(s.m) && t < |s.calls| && Free(s.calls[t]) && 1 <= |items| < TWO32
    ensures var n := Grantable(|items|, s.m.slots - 1 - |Contents(s.m)|, beh);
            last == Run(true, s, WholeCall(BeginEnq(t, items, beh, true), 3 + (n + 1)))
    ensures Enqueued(s.m, last, t, items, beh)
  {
    var n := Grantable(|items|, s.m.slots - 1 - |Contents(s.m)|, beh);
    var s0 := EnqBegins(s, t, items, beh, 3 + (n + 1));
    EnqWhole(s0, t, items, beh, 3);
    last := Spin(s0, t, 3 + (n + 1));
  }

  // ---------------------------------------------------------------------
  // Dequeue
  // ---------------------------------------------------------------------

  lemma {:induction false} LoadLoop<T>(s: State<T>, t: nat, c: DeqCall<T>)
    requires Wf(s) && t < |s.calls| && s.calls[t] == Deq(c) && c.pc.Copying? && c.single
    requires c.out == Entries(s.m.ring, c.head, |c.out|)
    ensures Spin(s, t, c.n - |c.out|) ==
            State(s.m, s.calls[t := Deq(c.(pc := Publishing, out := Entries(s.m.ring, c.head, c.n)))], s.stats)
    decreases c.n - |c.out|
  {
    var s1 := Step(true, s, Turn(t));
    var out := c.out + [s.m.ring[Slot(s.m.slots, c.head, |c.out|)]];
    assert out == Entries(s.m.ring, c.head, |out|);
    if |out| < c.n {
      LoadLoop(s1, t, c.(out := out));
    }
  }

  lemma DeqReserves<T>(s: State<T>, t: nat, want: nat, beh: Behavior, k: nat)
    requires k == 3 && Wf(s) && Resting(s.m) && t < |s.calls| && s.calls[t] == Deq(NewDeq(want, beh))
    ensures DeqPlaced(s.m, Spin(s, t, k), t, want, beh, Grantable(want, Used(s.m), beh))
  {
    var s1 := Step(true, s, Turn(t));
    var s2 := Step(true, s1, Turn(t));
    assert Spin(s, t, 3) == Spin(s1, t, 2) == Spin(s2, t, 1) == Step(true, s2, Turn(t));
  }

  lemma DeqFinishes<T>(s: State<T>, t: nat, c: DeqCall<T>)
    requires Wf(s) && t < |s.calls| && s.calls[t] == Deq(c) && c.pc.Copying? && c.single && c.out == []
    ensures var last := Spin(s, t, c.n + 1);
            && |last.calls| == |s.calls|
            && last.calls[t] == Deq(c.(pc := Returned, out := Entries(s.m.ring, c.head, c.n),
                                       ret := DeqReturn(c.n, c.beh)))
            && last.m == s.m.(consTail := Wrap(c.head + c.n), h := last.m.h)
  {
    LoadLoop(s, t, c);
    SpinSplit(s, t, c.n, 1);
    var s1 := Spin(s, t, c.n);
  }

  lemma DeqEffect<T>(m: Mem<T>, m': Mem<T>, n: nat)
    requires Resting(m) && n <= Used(m)
    requires m' == m.(consHead := Wrap(m.consTail + n), consTail := Wrap(m.consTail + n), h := m'.h)
    ensures Resting(m') && Contents(m') == Contents(m)[n..]
    ensures Entries(m.ring, m.consTail, n) == Contents(m)[..n]
  {
    UsedMoves(m.consTail, m.prodTail, Used(m), n);
    DropOldest(m.ring, m.consTail, Used(m), n);
  }

  /** What ScDoDequeue promises its caller, of a call by thread t that found m. */
  ghost predicate Dequeued<T>(m: Mem<T>, last: State<T>, t: nat, want: nat, beh: Behavior)
    requires |m.ring| >= 1
  {
    var n := Grantable(want, |Contents(m)|, beh);
    && n <= |Contents(m)| && Resting(last.m) && Contents(last.m) == Contents(m)[n..]
    && t < |last.calls| && last.calls[t].Deq? && last.calls[t].d.pc.Returned?
    && last.calls[t].d.out == Contents(m)[..n]
    && last.calls[t].d.ret == if want > |Contents(m)| && n == 0 then DeqRefusal(beh) else DeqReturn(n, beh)
  }

  lemma DeqTakes<T>(m: Mem<T>, last: State<T>, t: nat, c: DeqCall<T>)
    requires Resting(m) && 1 <= c.n == Grantable(c.want, Used(m), c.beh)
    requires t < |last.calls| && last.calls[t].Deq? && last.calls[t].d.pc.Returned?
    requires last.calls[t].d.out == Entries(m.ring, m.consTail, c.n)
    requires last.calls[t].d.ret == DeqReturn(c.n, c.beh)
    requires last.m == m.(consHead := Wrap(m.consTail + c.n), consTail := Wrap(m.consTail + c.n), h := last.m.h)
    ensures Dequeued(m, last, t, c.want, c.beh)
  {
    DeqEffect(m, last.m, c.n);
  }

  ghost predicate DeqPlaced<T>(m: Mem<T>, s: State<T>, t: nat, want: nat, beh: Behavior, n: nat) {
    && t < |s.calls| && s.calls[t].Deq?
    && var c := s.calls[t].d;
    && c.want == want && c.beh == beh && c.single && c.out == [] && c.n == n
    && (if n == 0 then s.m == m && c.pc.Returned? && c.ret == DeqRefusal(beh)
        else s.m == m.(consHead := Wrap(m.consTail + n), h := s.m.h) && c.pc.Copying? && c.head == m.consTail)
  }

  lemma DeqRest<T>(m: Mem<T>, s: State<T>, t: nat, want: nat, beh: Behavior, n: nat)
    requires Wf(s) && Resting(m) && want >= 1 && n == Grantable(want, Used(m), beh)
    requires DeqPlaced(m, s, t, want, beh, n)
    ensures Dequeued(m, Spin(s, t, n + 1), t, want, beh)
  {
    var c := s.calls[t].d;
    if n == 0 {
      ReturnedStays(s, t, 1);
    } else {
      DeqFinishes(s, t, c);
      DeqTakes(m, Spin(s, t, n + 1), t, c);
    }
  }

  lemma DeqWhole<T>(s: State<T>, t: nat, want: nat, beh: Behavior, k: nat)
    requires k == 3 && Wf(s) && Resting(s.m) && t < |s.calls| && s.calls[t] == Deq(NewDeq(want, beh)) && want >= 1
    ensures var n := Grantable(want, Used(s.m), beh);
            Dequeued(s.m, Spin(s, t, k + (n + 1)), t, want, beh)
  {
    var n := Grantable(want, Used(s.m), beh);
    DeqReserves(s, t, want, beh, k);
    SpinSplit(s, t, k, n + 1);
    var s3 := Spin(s, t, k);
    DeqRest(s.m, s3, t, want, beh, n);
  }

  lemma DeqBegins<T>(s: State<T>, t: nat, want: nat, beh: Behavior, k: nat) returns (s0: State<T>)
    requires Wf(s) && t < |s.calls| && Free(s.calls[t]) && 1 <= want < TWO32
    ensures Wf(s0) && s0.m == s.m && |s0.calls| == |s.calls| && s0.calls[t] == Deq(NewDeq(want, beh))
    ensures Run(true, s, WholeCall(BeginDeq(t, want, beh, true), k)) == Spin(s0, t, k)
  {
    s0 := Step(true, s, BeginDeq(t, want, beh, true));
    WholeCallIsSpin(s, BeginDeq(t, want, beh, true), k);
  }

  /** A dequeue run alone keeps the promise of Llring.ScDoDequeue. */
  lemma SoloDequeue<T>(s: State<T>, t: nat, want: nat, beh: Behavior) returns (last: State<T>)
    requires Wf(s) && Resting(s.m) && t < |s.calls| && Free(s.calls[t]) && 1 <= want < TWO32
    ensures var n := Grantable(want, |Contents(s.m)|, beh);
            last == Run(true, s, WholeCall(BeginDeq(t, want, beh, true), 3 + (n + 1)))
    ensures Dequeued(s.m, last, t, want, beh)
  {
    var n := Grantable(want, |Contents(s.m)|, beh);
    var s0 := DeqBegins(s, t, want, beh, 3 + (n + 1));
    DeqWhole(s0, t, want, beh, 3);
    last := Spin(s0, t, 3 + (n + 1));
  }
}
