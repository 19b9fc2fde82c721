/**
  Nobody waits forever for a neighbour.

  Publishing: among the calls in flight on one side exactly one may move its
  tail; every turn it takes brings the end nearer, so with no new arrivals all
  publish, in reservation order.

  Reserving: a compare-and-set only fails because another one succeeded, and k
  calls on one side together suffer at most k(k-1)/2 failures, in any schedule.
 */
module MpmcProgress {
  import opened Words
  import opened RingSpec
  import opened Mpmc
  import opened MpmcInv
  import opened MpmcTheorems

  // ---------------------------------------------------------------------
  // The publish wait
  // ---------------------------------------------------------------------

  /** Turns a call in flight still needs: its copies, one passed test, one store. */
  function TurnsLeft<T>(c: Call<T>): nat
    requires WfCall(c)
  {
    match c
    case Idle => 0
    case Enq(e) => if e.pc.Copying? then e.n - e.i + 2 else AfterCopies(e.pc)
    case Deq(d) => if d.pc.Copying? then d.n - |d.out| + 2 else AfterCopies(d.pc)
  }

  function AfterCopies(pc: Pc): nat {
    if pc.Waiting? then 2 else if pc.Publishing? then 1 else 0
  }

  function Work<T>(calls: seq<Call<T>>): nat
    requires forall t :: 0 <= t < |calls| ==> WfCall(calls[t])
  {
    if calls == [] then 0 else TurnsLeft(calls[0]) + Work(calls[1..])
  }

  lemma {:induction false} WorkUpdate<T>(calls: seq<Call<T>>, t: nat, c: Call<T>)
    requires forall u :: 0 <= u < |calls| ==> WfCall(calls[u])
    requires t < |calls| && WfCall(c)
    ensures Work(calls[t := c]) == Work(calls) - TurnsLeft(calls[t]) + TurnsLeft(c)
  {
    if t == 0 {
      assert calls[t := c][1..] == calls[1..];
    } else {
      assert calls[t := c][1..] == calls[1..][t - 1 := c];
      WorkUpdate(calls[1..], t - 1, c);
    }
  }

  lemma {:induction false} SomeWork<T>(calls: seq<Call<T>>) returns (t: nat)
    requires forall u :: 0 <= u < |calls| ==> WfCall(calls[u])
    requires Work(calls) > 0
    ensures t < |calls| && TurnsLeft(calls[t]) > 0
  {
    if TurnsLeft(calls[0]) > 0 {
      t := 0;
    } else {
      t := SomeWork(calls[1..]);
      t := t + 1;
    }
  }

  lemma {:induction false} WorkBounds<T>(calls: seq<Call<T>>, t: nat)
    requires forall u :: 0 <= u < |calls| ==> WfCall(calls[u])
    requires t < |calls|
    ensures TurnsLeft(calls[t]) <= Work(calls)
  {
    if t > 0 {
      WorkBounds(calls[1..], t - 1);
    }
  }

  /** Thread t may publish: it is in flight and holds the oldest unpublished reservation of its side. */
  ghost predicate AtFront<T>(s: State<T>, t: nat) {
    && t < |s.calls|
    && (|| (EnqFlying(s.calls[t]) && s.calls[t].e.head == s.m.prodTail)
        || (DeqFlying(s.calls[t]) && s.calls[t].d.head == s.m.consTail))
  }

  /** While a producer is reserved and unpublished, exactly one starts at prod.tail; likewise consumers. */
  lemma FrontUnique<T(!new)>(s: State<T>)
    requires Reachable(s)
    ensures s.m.prodTail < s.m.prodHead <==> exists t: nat :: EnqFront(s, t)
    ensures s.m.consTail < s.m.consHead <==> exists t: nat :: DeqFront(s, t)
    ensures forall t: nat, u: nat :: EnqFront(s, t) && EnqFront(s, u) ==> t == u
    ensures forall t: nat, u: nat :: DeqFront(s, t) && DeqFront(s, u) ==> t == u
  {
    ReachableInv(s);
    EnqFrontUnique(s);
    DeqFrontUnique(s);
  }

  ghost predicate EnqFront<T>(s: State<T>, t: nat) {
    AtFront(s, t) && EnqFlying(s.calls[t])
  }

  ghost predicate DeqFront<T>(s: State<T>, t: nat) {
    AtFront(s, t) && DeqFlying(s.calls[t])
  }

  lemma EnqFrontUnique<T>(s: State<T>)
    requires Inv(s)
    ensures s.m.prodTail < s.m.prodHead <==> exists t: nat :: EnqFront(s, t)
    ensures forall t: nat, u: nat :: EnqFront(s, t) && EnqFront(s, u) ==> t == u
  {
    WritersTile(s, s.m.prodTail);
    forall t: nat | EnqFront(s, t) ensures Writes(s, t, s.m.prodTail) {
      assert CallOk(s.m, t, s.calls[t]);
    }
    if s.m.prodTail < s.m.prodHead {
      var t: nat :| Writes(s, t, s.m.prodTail);
      assert CallOk(s.m, t, s.calls[t]);
      assert EnqFront(s, t);
    }
  }

  lemma DeqFrontUnique<T>(s: State<T>)
    requires Inv(s)
    ensures s.m.consTail < s.m.consHead <==> exists t: nat :: DeqFront(s, t)
    ensures forall t: nat, u: nat :: DeqFront(s, t) && DeqFront(s, u) ==> t == u
  {
    ReadersTile(s, s.m.consTail);
    forall t: nat | DeqFront(s, t) ensures Reads(s, t, s.m.consTail) {
      assert CallOk(s.m, t, s.calls[t]);
    }
    if s.m.consTail < s.m.consHead {
      var t: nat :| Reads(s, t, s.m.consTail);
      assert CallOk(s.m, t, s.calls[t]);
      assert DeqFront(s, t);
    }
  }

  /** The reservation published next, if any, belongs to a call at the front. */
  lemma FrontExists<T>(s: State<T>, t: nat) returns (f: nat)
    requires Wf(s) && Inv(s) && t < |s.calls| && TurnsLeft(s.calls[t]) > 0
    ensures AtFront(s, f)
  {
    assert CallOk(s.m, t, s.calls[t]);
    var m := s.m;
    if s.calls[t].Enq? {
      var k := m.h.published;
      assert HeldByEnq(s.calls, m.h.enqs[k], k);
      f := m.h.enqs[k].tid;
    } else {
      var k := |m.h.delivered|;
      assert HeldByDeq(s.calls, m.h.deqs[k], k);
      f := m.h.deqs[k].tid;
    }
    assert CallOk(m, f, s.calls[f]);
  }

  /**
    A turn of a call in flight is either an idle spin, which changes nothing
    and only happens behind the front, or takes one unit off the work left.
   */
  lemma TurnWorks<T>(s: State<T>, t: nat)
    requires Wf(s) && Inv(s) && t < |s.calls| && TurnsLeft(s.calls[t]) > 0
    ensures var s' := Step(false, s, Turn(t));
            && s'.m.prodHead == s.m.prodHead && s'.m.consHead == s.m.consHead
            && (s' == s || Work(s'.calls) == Work(s.calls) - 1)
            && (AtFront(s, t) ==> Work(s'.calls) == Work(s.calls) - 1)
  {
    var s' := Step(false, s, Turn(t));
    assert CallOk(s.m, t, s.calls[t]);
    TurnCounts(s, t);
    WorkUpdate(s.calls, t, s'.calls[t]);
  }

  lemma TurnCounts<T>(s: State<T>, t: nat)
    requires Wf(s) && t < |s.calls| && TurnsLeft(s.calls[t]) > 0
    requires s.calls[t].Enq? ==> !s.calls[t].e.single
    requires s.calls[t].Deq? ==> !s.calls[t].d.single
    ensures var s' := Step(false, s, Turn(t));
            && s'.m.prodHead == s.m.prodHead && s'.m.consHead == s.m.consHead
            && (|| s' == s
                || (&& s'.calls == s.calls[t := s'.calls[t]]
                    && TurnsLeft(s'.calls[t]) == TurnsLeft(s.calls[t]) - 1))
            && (AtFront(s, t) ==> s' != s)
  {
  }

  /** Only turns of calls already in flight. */
  ghost predicate NoArrivals<T>(s: State<T>, es: seq<Event<T>>)
    requires Wf(s)
    decreases |es|
  {
    es == [] ||
    (&& es[0].Turn? && es[0].t < |s.calls| && TurnsLeft(s.calls[es[0].t]) > 0
     && NoArrivals(Step(false, s, es[0]), es[1..]))
  }

  /** How many turns of the schedule were not idle spins. */
  ghost function Effective<T>(s: State<T>, es: seq<Event<T>>): nat
    requires Wf(s)
    decreases |es|
  {
    if es == [] then 0
    else (if Step(false, s, es[0]) == s then 0 else 1) + Effective(Step(false, s, es[0]), es[1..])
  }

  /** With no arrivals, every non-idle turn pays for itself, in any order. */
  lemma {:induction false} EffectiveTurns<T>(s: State<T>, es: seq<Event<T>>)
    requires Wf(s) && Inv(s) && NoArrivals(s, es)
    ensures Work(Run(false, s, es).calls) + Effective(s, es) == Work(s.calls)
    ensures Inv(Run(false, s, es))
    ensures Run(false, s, es).m.prodHead == s.m.prodHead && Run(false, s, es).m.consHead == s.m.consHead
    decreases |es|
  {
    if es != [] {
      StepInv(s, es[0]);
      TurnWorks(s, es[0].t);
      EffectiveTurns(Step(false, s, es[0]), es[1..]);
    }
  }

  /** No work left means every reservation is published, on both sides. */
  lemma NoWorkAllPublished<T>(s: State<T>)
    requires Wf(s) && Inv(s)
    ensures Work(s.calls) == 0 <==> s.m.prodTail == s.m.prodHead && s.m.consTail == s.m.consHead
  {
    var m := s.m;
    if Work(s.calls) == 0 {
      if m.h.published < |m.h.enqs| {
        var k := m.h.published;
        assert HeldByEnq(s.calls, m.h.enqs[k], k);
        WorkBounds(s.calls, m.h.enqs[k].tid);
      }
      if |m.h.delivered| < |m.h.deqs| {
        var k := |m.h.delivered|;
        assert HeldByDeq(s.calls, m.h.deqs[k], k);
        WorkBounds(s.calls, m.h.deqs[k].tid);
      }
    } else {
      var t := SomeWork(s.calls);
      assert CallOk(m, t, s.calls[t]);
    }
  }

  /** Producers publish in reservation order: only the oldest unpublished reservation's owner ever stores prod.tail. */
  lemma PublishInOrder<T(!new)>(s: State<T>, t: nat, c: EnqCall<T>)
    requires Reachable(s) && t < |s.calls| && s.calls[t] == Enq(c) && c.pc.Publishing?
    ensures s.m.h.published < |s.m.h.enqs| && s.m.h.enqs[s.m.h.published] == Grant(t, s.m.prodTail, c.n)
    ensures Step(false, s, Turn(t)).m.prodTail == s.m.prodTail + c.n
  {
    ReachableInv(s);
    assert CallOk(s.m, t, s.calls[t]);
    EnqPublishMem(s.m, t, c);
  }

  /**
    From any reachable state, with no new arrivals: in every schedule at most
    Work turns are not idle spins, and exactly that many publish everything.
   */
  lemma AllPublish<T(!new)>(s: State<T>, es: seq<Event<T>>)
    requires Reachable(s) && Wf(s) && NoArrivals(s, es)
    ensures Effective(s, es) <= Work(s.calls)
    ensures var s' := Run(false, s, es);
            Effective(s, es) == Work(s.calls) <==> s'.m.prodTail == s.m.prodHead && s'.m.consTail == s.m.consHead
  {
    ReachableInv(s);
    EffectiveTurns(s, es);
    NoWorkAllPublished(Run(false, s, es));
  }

  /** And such a schedule exists: letting the front call run, over and over, publishes everything. */
  lemma {:induction false} Drain<T>(s: State<T>) returns (es: seq<Event<T>>)
    requires Wf(s) && Inv(s)
    ensures NoArrivals(s, es) && |es| == Work(s.calls) == Effective(s, es)
    decreases Work(s.calls)
  {
    if Work(s.calls) == 0 {
      es := [];
    } else {
      var t := SomeWork(s.calls);
      var f := FrontExists(s, t);
      var s1 := Step(false, s, Turn(f));
      assert TurnsLeft(s.calls[f]) > 0;
      StepInv(s, Turn(f));
      TurnWorks(s, f);
      var rest := Drain(s1);
      es := [Turn(f)] + rest;
      assert es[1..] == rest;
    }
  }

  // ---------------------------------------------------------------------
  // Failed compare-and-sets
  // ---------------------------------------------------------------------

  datatype Side = Producers | Consumers

  predicate OnSide<T>(c: Call<T>, side: Side) {
    match side
    case Producers => c.Enq?
    case Consumers => c.Deq?
  }

  function PcOf<T>(c: Call<T>): Pc
    requires !c.Idle?
  {
    match c
    case Enq(e) => e.pc
    case Deq(d) => d.pc
  }

  function HeadRead<T>(c: Call<T>): nat
    requires !c.Idle?
  {
    match c
    case Enq(e) => e.head
    case Deq(d) => d.head
  }

  function HeadOf<T>(m: Mem<T>, side: Side): nat {
    match side
    case Producers => m.prodHead
    case Consumers => m.consHead
  }

  function ScoreOf(stats: Stats, side: Side): Score {
    match side
    case Producers => stats.enq
    case Consumers => stats.deq
  }

  /** A call that neither won nor gave up yet. */
  predicate Pending<T>(c: Call<T>, side: Side) {
    OnSide(c, side) && (PcOf(c).Entered? || PcOf(c).SawHead? || PcOf(c).AtCas?)
  }

  /** A call whose head was overtaken: its compare-and-set is going to fail. */
  predicate Stale<T>(c: Call<T>, side: Side, head: nat) {
    OnSide(c, side) && (PcOf(c).SawHead? || PcOf(c).AtCas?) && HeadRead(c) != head
  }

  function PendingCount<T>(calls: seq<Call<T>>, side: Side): nat {
    if calls == [] then 0 else (if Pending(calls[0], side) then 1 else 0) + PendingCount(calls[1..], side)
  }

  function StaleCount<T>(calls: seq<Call<T>>, side: Side, head: nat): nat {
    if calls == [] then 0 else (if Stale(calls[0], side, head) then 1 else 0) + StaleCount(calls[1..], side, head)
  }

  lemma {:induction false} CountUpdate<T>(calls: seq<Call<T>>, t: nat, c: Call<T>, side: Side, head: nat)
    requires t < |calls|
    ensures PendingCount(calls[t := c], side)
            == PendingCount(calls, side) - (if Pending(calls[t], side) then 1 else 0)
               + (if Pending(c, side) then 1 else 0)
    ensures StaleCount(calls[t := c], side, head)
            == StaleCount(calls, side, head) - (if Stale(calls[t], side, head) then 1 else 0)
               + (if Stale(c, side, head) then 1 else 0)
  {
    if t == 0 {
      assert calls[t := c][1..] == calls[1..];
    } else {
      assert calls[t := c][1..] == calls[1..][t - 1 := c];
      CountUpdate(calls[1..], t - 1, c, side, head);
    }
  }

  lemma {:induction false} StaleArePending<T>(calls: seq<Call<T>>, side: Side, head: nat)
    ensures StaleCount(calls, side, head) <= PendingCount(calls, side)
  {
    if calls != [] {
      StaleArePending(calls[1..], side, head);
    }
  }

  /**
    The j-th win can overtake at most the begun - j calls then pending;
    failures so far and failures already certain are paid for by those.
   */
  ghost predicate Paid<T>(calls: seq<Call<T>>, side: Side, score: Score, head: nat) {
    var k, w := score.begun, score.wins;
    && w + PendingCount(calls, side) <= k
    && 2 * (score.fails + StaleCount(calls, side, head)) <= 2 * (w * k) - w * (w + 1)
  }

  /** Winning with at most k - w - 1 enqueues left to overtake. */
  lemma WinPays(k: nat, w: nat, fails: nat, stale: nat)
    requires 2 * fails <= 2 * (w * k) - w * (w + 1) && stale <= k - (w + 1)
    ensures 2 * (fails + stale) <= 2 * ((w + 1) * k) - (w + 1) * (w + 2)
  {
    assert (w + 1) * k == w * k + k;
    assert (w + 1) * (w + 2) == w * (w + 1) + 2 * (w + 1);
  }

  lemma ArrivalPays(k: nat, w: nat, fails: nat)
    requires 2 * fails <= 2 * (w * k) - w * (w + 1)
    ensures 2 * fails <= 2 * (w * (k + 1)) - w * (w + 1)
  {
    assert w * (k + 1) == w * k + w;
  }

  /** A step on one side: thread t wins, or nobody does and its failure, if any, was certain before. */
  ghost predicate Moves<T>(c: Call<T>, c': Call<T>, side: Side, score: Score, score': Score, head: nat, head': nat) {
    || (&& Pending(c, side) && !Pending(c', side) && score' == Won(score))
    || (&& head' == head && score'.wins == score.wins
        && score.begun <= score'.begun <= score.begun + 1
        && score'.begun + (if Pending(c, side) then 1 else 0) >= score.begun + (if Pending(c', side) then 1 else 0)
        && score'.fails + (if Stale(c', side, head) then 1 else 0)
           <= score.fails + (if Stale(c, side, head) then 1 else 0))
  }

  lemma MovePaid<T>(calls: seq<Call<T>>, t: nat, c: Call<T>, side: Side,
                    score: Score, score': Score, head: nat, head': nat)
    requires t < |calls| && Paid(calls, side, score, head) && Moves(calls[t], c, side, score, score', head, head')
    ensures Paid(calls[t := c], side, score', head')
  {
    CountUpdate(calls, t, c, side, head);
    var k, w, stale := score.begun, score.wins, StaleCount(calls[t := c], side, head');
    if score' == Won(score) && !Pending(c, side) && Pending(calls[t], side) {
      StaleArePending(calls[t := c], side, head');
      WinPays(k, w, score.fails, stale);
    } else if score'.begun == k + 1 {
      ArrivalPays(k, w, score'.fails + stale);
    }
  }

  /** The step from s to s' is thread t's, and moves the side so. */
  ghost predicate Moved<T>(s: State<T>, t: nat, s': State<T>, side: Side) {
    && t < |s.calls| == |s'.calls| && s'.calls == s.calls[t := s'.calls[t]]
    && Moves(s.calls[t], s'.calls[t], side, ScoreOf(s.stats, side), ScoreOf(s'.stats, side),
             HeadOf(s.m, side), HeadOf(s'.m, side))
  }

  /** Every step of either kind of call, and every arrival, moves a side so. */
  lemma StepMoves<T>(s: State<T>, e: Event<T>, side: Side)
    requires Wf(s) && Inv(s) && Multi(e) && e.t < |s.calls|
    ensures Moved(s, e.t, Step(false, s, e), side)
  {
    assert CallOk(s.m, e.t, s.calls[e.t]);
    if e.Turn? {
      match s.calls[e.t]
      case Idle =>
      case Enq(c) => EnqMoves(s, e.t, c, side);
      case Deq(c) => DeqMoves(s, e.t, c, side);
    } else if e.StaleTurn? {
      StaleMoves(s, e.t, e.seen, side);
    } else {
      BeginMoves(s, e, side);
    }
  }

  lemma EnqMoves<T>(s: State<T>, t: nat, c: EnqCall<T>, side: Side)
    requires Wf(s) && t < |s.calls| && s.calls[t] == Enq(c) && !c.single
    ensures Moved(s, t, EnqTurn(false, s, t), side)
  {
  }

  lemma DeqMoves<T>(s: State<T>, t: nat, c: DeqCall<T>, side: Side)
    requires Wf(s) && t < |s.calls| && s.calls[t] == Deq(c) && !c.single
    ensures Moved(s, t, DeqTurn(false, s, t), side)
  {
  }

  lemma StaleMoves<T>(s: State<T>, t: nat, seen: nat, side: Side)
    requires Wf(s) && t < |s.calls|
    ensures Moved(s, t, StaleStep(s, t, seen), side)
  {
  }

  lemma BeginMoves<T>(s: State<T>, e: Event<T>, side: Side)
    requires Wf(s) && e.t < |s.calls| && (e.BeginEnq? || e.BeginDeq?)
    ensures Moved(s, e.t, Step(false, s, e), side)
  {
  }

  lemma {:induction false} RunPaid<T>(s: State<T>, es: seq<Event<T>>, side: Side)
    requires Wf(s) && Inv(s) && AllMulti(es) && Paid(s.calls, side, ScoreOf(s.stats, side), HeadOf(s.m, side))
    ensures var s' := Run(false, s, es); Paid(s'.calls, side, ScoreOf(s'.stats, side), HeadOf(s'.m, side))
    decreases |es|
  {
    if es != [] {
      var e := es[0];
      var s1 := Step(false, s, e);
      if e.t < |s.calls| {
        StepMoves(s, e, side);
        MovePaid(s.calls, e.t, s1.calls[e.t], side, ScoreOf(s.stats, side), ScoreOf(s1.stats, side),
                 HeadOf(s.m, side), HeadOf(s1.m, side));
      }
      StepInv(s, e);
      RunPaid(s1, es[1..], side);
    }
  }

  lemma {:induction false} IdleCounts<T>(calls: seq<Call<T>>, side: Side, head: nat)
    requires forall t :: 0 <= t < |calls| ==> calls[t].Idle?
    ensures PendingCount(calls, side) == 0 && StaleCount(calls, side, head) == 0
  {
    if calls != [] {
      IdleCounts(calls[1..], side, head);
    }
  }

  lemma PairBound(w: nat, k: nat)
    requires w <= k
    ensures 2 * (w * k) - w * (w + 1) <= k * (k - 1)
  {
    var d := k - w;
    assert k * (k - 1) - (2 * (w * k) - w * (w + 1)) == d * d - d;
    assert d == 0 || d * d >= d;
  }

  /** Of k calls begun at most k won, and they lost at most k(k-1)/2 compare-and-sets. */
  predicate FewFails(c: Score) {
    c.fails <= c.begun * (c.begun - 1) / 2 && c.wins <= c.begun
  }

  /** k calls begun on a side, whenever they start and however they interleave: at most k(k-1)/2 failures in all. */
  lemma CasFailureBound<T>(slots: nat, watermark: nat, ring: seq<T>, threads: nat, es: seq<Event<T>>, side: Side)
    requires RingSize(slots) && 1 <= slots == |ring| && AllMulti(es)
    ensures var c := ScoreOf(Run(false, Init(slots, watermark, ring, threads), es).stats, side);
            FewFails(c)
  {
    var s0 := Init(slots, watermark, ring, threads);
    InitInv(slots, watermark, ring, threads);
    IdleCounts(s0.calls, side, 0);
    RunPaid(s0, es, side);
    var c := ScoreOf(Run(false, s0, es).stats, side);
    PairBound(c.wins, c.begun);
  }

  /** A head moves only when a compare-and-set on it wins. */
  lemma {:induction false} HeadMovesByWins<T>(s: State<T>, es: seq<Event<T>>, side: Side)
    requires Wf(s)
    ensures var s' := Run(false, s, es);
            && ScoreOf(s'.stats, side).wins >= ScoreOf(s.stats, side).wins
            && (ScoreOf(s'.stats, side).wins == ScoreOf(s.stats, side).wins ==> HeadOf(s'.m, side) == HeadOf(s.m, side))
    decreases |es|
  {
    if es != [] {
      WinStep(s, es[0], side);
      HeadMovesByWins(Step(false, s, es[0]), es[1..], side);
    }
  }

  lemma WinStep<T>(s: State<T>, e: Event<T>, side: Side)
    requires Wf(s)
    ensures var s' := Step(false, s, e);
            && ScoreOf(s'.stats, side).wins >= ScoreOf(s.stats, side).wins
            && (ScoreOf(s'.stats, side).wins == ScoreOf(s.stats, side).wins ==> HeadOf(s'.m, side) == HeadOf(s.m, side))
  {
  }

  /**
    A failed compare-and-set is somebody else's success: if thread t read the
    head in s and its compare-and-set fails in s', another one won in between.
   */
  lemma FailureMeansProgress<T>(s: State<T>, t: nat, es: seq<Event<T>>, s': State<T>, side: Side)
    requires Wf(s) && t < |s.calls| && OnSide(s.calls[t], side) && PcOf(s.calls[t]).Entered?
    requires s' == Run(false, Step(false, s, Turn(t)), es)
    requires OnSide(s'.calls[t], side) && PcOf(s'.calls[t]).AtCas? && HeadRead(s'.calls[t]) == HeadOf(s.m, side)
    requires ScoreOf(Step(false, s', Turn(t)).stats, side).fails > ScoreOf(s'.stats, side).fails
    ensures ScoreOf(s'.stats, side).wins > ScoreOf(s.stats, side).wins
  {
    HeadMovesByWins(Step(false, s, Turn(t)), es, side);
  }
}
