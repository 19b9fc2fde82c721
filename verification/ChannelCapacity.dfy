/**
  How long a waiting message is safe, from the capacity of the rings.

  A message waits with at most slots - 2 accepted ones behind it, and is
  received with at most slots - 1, so only attempts that did not join its ring
  can push the pool past it: the refused ones, those sent the other way, and a
  send under way, which has written its cell and not yet asked the ring.
 */
module ChannelCapacity {
  import opened Words
  import opened RingSpec
  import opened Channel

  /** The attempts from `from` on that did not join the ring of d. */
  function Elsewhere(ok: seq<bool>, dest: seq<nat>, d: nat, from: nat): nat
    requires |ok| == |dest|
  {
    if |ok| <= from then 0
    else Elsewhere(ok[..|ok| - 1], dest[..|ok| - 1], d, from) + if ok[|ok| - 1] && dest[|ok| - 1] == d then 0 else 1
  }

  /** The attempts from `from` on that were refused. */
  function Refused(ok: seq<bool>, from: nat): nat {
    if |ok| <= from then 0
    else Refused(ok[..|ok| - 1], from) + if ok[|ok| - 1] then 0 else 1
  }

  /** The outcomes so far; a send under way has joined no ring. */
  ghost function Outcomes(tr: Trace): (ok: seq<bool>)
    requires WfTrace(tr)
    ensures |ok| == |tr.dest|
  {
    if tr.sender.Posting? then tr.ok + [false] else tr.ok
  }

  /** The attempts after attempt k that did not join the ring of d: refused, sent the other way, or under way. */
  ghost function Since(tr: Trace, d: nat, k: nat): nat
    requires WfTrace(tr)
  {
    Elsewhere(Outcomes(tr), tr.dest, d, k + 1)
  }

  lemma {:induction false} OneWayElsewhere(ok: seq<bool>, dest: seq<nat>, d: nat, from: nat)
    requires |ok| == |dest| && forall k :: 0 <= k < |dest| ==> dest[k] == d
    ensures Elsewhere(ok, dest, d, from) == Refused(ok, from)
  {
    if |ok| > from {
      OneWayElsewhere(ok[..|ok| - 1], dest[..|ok| - 1], d, from);
    }
  }

  /** In one-way traffic those are the refused ones and the one under way. */
  lemma OneWaySince(tr: Trace, d: nat, k: nat)
    requires WfTrace(tr) && AllTo(tr, d) && k < |tr.ok|
    ensures Since(tr, d, k) == Refused(tr.ok, k + 1) + UnderWay(tr)
  {
    OneWayElsewhere(Outcomes(tr), tr.dest, d, k + 1);
    assert (tr.ok + [false])[..|tr.ok|] == tr.ok;
  }

  lemma ElsewhereSnoc(ok: seq<bool>, dest: seq<nat>, d: nat, from: nat, b: bool, to: nat)
    requires |ok| == |dest| && from <= |ok|
    ensures Elsewhere(ok + [b], dest + [to], d, from) == Elsewhere(ok, dest, d, from) + if b && to == d then 0 else 1
  {
    assert (ok + [b])[..|ok|] == ok && (dest + [to])[..|ok|] == dest;
  }

  // ---------------------------------------------------------------------
  // Attempts after an accepted one
  // ---------------------------------------------------------------------

  ghost predicate Tally(tr: Trace, d: nat, j: nat)
    requires WfTrace(tr) && d < 2 && j < |tr.acc[d]|
  {
    tr.acc[d][j] + Since(tr, d, tr.acc[d][j]) + |tr.acc[d]| - j == |tr.sent|
  }

  /** After attempt acc[d][j] come the later accepted ones and those that went elsewhere. */
  ghost predicate Counted(tr: Trace)
    requires WfTrace(tr)
  {
    forall d: nat, j: nat :: d < 2 && j < |tr.acc[d]| ==> Tally(tr, d, j)
  }

  lemma StepTally(tr: Trace, e: Event, d: nat, j: nat)
    requires WfTrace(tr) && Ordered(tr) && EventOk(e) && d < 2 && j < |Step(tr, e).acc[d]|
    requires j < |tr.acc[d]| ==> Tally(tr, d, j)
    ensures Tally(Step(tr, e), d, j)
  {
    if e.Write? && tr.sender.Resting? {
      assert tr.acc[d][j] < |tr.ok|;
      WriteTally(tr, e.to, e.buf, d, j);
    } else if e.Post? && tr.sender.Posting? {
      assert j < |tr.acc[d]| ==> tr.acc[d][j] < |tr.ok|;
      PostTally(tr, d, j);
    }
  }

  lemma WriteTally(tr: Trace, to: nat, buf: seq<byte>, d: nat, j: nat)
    requires WfTrace(tr) && tr.sender.Resting? && to < 2 && |buf| < MAX_SHARED_OBJ_SIZE
    requires d < 2 && j < |tr.acc[d]| && tr.acc[d][j] < |tr.ok| && Tally(tr, d, j)
    ensures Tally(AfterWrite(tr, to, buf), d, j)
  {
    ElsewhereSnoc(tr.ok, tr.dest, d, tr.acc[d][j] + 1, false, to);
  }

  lemma PostTally(tr: Trace, d: nat, j: nat)
    requires WfTrace(tr) && tr.sender.Posting? && d < 2 && j < |AfterPost(tr).acc[d]|
    requires j < |tr.acc[d]| ==> tr.acc[d][j] < |tr.ok| && Tally(tr, d, j)
    ensures Tally(AfterPost(tr), d, j)
  {
    var tr', n := AfterPost(tr), |tr.ok|;
    var dest, to := tr.dest[..n], tr.dest[n];
    assert tr.dest == dest + [to];
    if j < |tr.acc[d]| {
      ElsewhereSnoc(tr.ok, dest, d, tr.acc[d][j] + 1, false, to);
      ElsewhereSnoc(tr.ok, dest, d, tr.acc[d][j] + 1, tr'.ok[n], to);
    }
  }

  lemma StepCounted(tr: Trace, e: Event)
    requires WfTrace(tr) && Ordered(tr) && Counted(tr) && EventOk(e)
    ensures Counted(Step(tr, e))
  {
    var tr' := Step(tr, e);
    forall d: nat, j: nat | d < 2 && j < |tr'.acc[d]|
      ensures Tally(tr', d, j)
    {
      StepTally(tr, e, d, j);
    }
  }

  /**
    A waiting message is never overwritten while at most slots + 1 attempts go
    elsewhere during its wait, one under way included.
   */
  lemma KeptByCapacity(tr: Trace, d: nat, j: nat)
    requires WfTrace(tr) && Queued(tr) && Counted(tr) && Waits(tr, d, j)
    requires Since(tr, d, tr.acc[d][j]) <= tr.ch.slots + 1
    requires tr.acc[d][j] < |tr.sent|
    ensures Recent(tr, tr.acc[d][j])
  {
    assert Tally(tr, d, j);
  }

  /** How many attempts may go elsewhere while a message is received: one less if its ring filled up again behind it. */
  ghost function Slack(tr: Trace, d: nat): nat
    requires WfTrace(tr) && d < 2
  {
    if |tr.ch.queues[d]| <= tr.ch.slots - 2 then tr.ch.slots + 1 else tr.ch.slots
  }

  /** Process d is copying or clearing message j. */
  ghost predicate Handles(tr: Trace, d: nat, j: nat)
    requires WfTrace(tr)
  {
    && d < 2 && j < |tr.acc[d]|
    && ((tr.hands[d].Took? && j == |tr.got[d]|) || (tr.hands[d].Copied? && j + 1 == |tr.got[d]|))
  }

  lemma KeptInHand(tr: Trace, d: nat, j: nat)
    requires WfTrace(tr) && Counted(tr) && Handles(tr, d, j) && HandOk(tr, d)
    requires Since(tr, d, tr.acc[d][j]) <= Slack(tr, d) && tr.acc[d][j] < |tr.sent|
    ensures Recent(tr, tr.acc[d][j])
  {
    assert Tally(tr, d, j);
  }

  // ---------------------------------------------------------------------
  // Whole runs
  // ---------------------------------------------------------------------

  function Actor(e: Event): nat {
    match e
    case Write(to, _) => to
    case Post => 0
    case Take(me) => me
    case Copy(me, _) => me
    case Clear(me) => me
  }

  /** The message a copy or clearing is for saw at most Slack attempts go elsewhere. */
  ghost predicate Patient(tr: Trace, e: Event)
    requires WfTrace(tr) && EventOk(e)
  {
    (e.Copy? || e.Clear?) ==>
      forall j: nat :: Handles(tr, Actor(e), j) ==> Since(tr, Actor(e), tr.acc[Actor(e)][j]) <= Slack(tr, Actor(e))
  }

  ghost predicate PatientAlong(tr: Trace, es: seq<Event>)
    requires WfTrace(tr) && AllOk(es)
    decreases |es|
  {
    es == [] || (Patient(tr, es[0]) && PatientAlong(Step(tr, es[0]), es[1..]))
  }

  lemma HandledIsRecent(tr: Trace, d: nat, j: nat)
    requires Base(tr) && Counted(tr) && Handles(tr, d, j)
    requires Since(tr, d, tr.acc[d][j]) <= Slack(tr, d)
    ensures Recent(tr, tr.acc[d][j])
  {
    assert HandOk(tr, d);
    KeptInHand(tr, d, j);
  }

  lemma PatientIsTimely(tr: Trace, e: Event)
    requires Inv(tr) && Counted(tr) && EventOk(e) && Patient(tr, e)
    ensures Timely(tr, e)
  {
    var d := Actor(e);
    if e.Copy? && Handles(tr, d, |tr.got[d]|) {
      HandledIsRecent(tr, d, |tr.got[d]|);
    }
    if e.Clear? && |tr.got[d]| >= 1 && Handles(tr, d, |tr.got[d]| - 1) {
      HandledIsRecent(tr, d, |tr.got[d]| - 1);
    }
  }

  /** The bound on attempts elsewhere implies the bound on laps, along any run. */
  lemma {:induction false} PatientRun(tr: Trace, es: seq<Event>)
    requires Inv(tr) && Counted(tr) && AllOk(es) && PatientAlong(tr, es)
    ensures TimelyAlong(tr, es) && Inv(Run(tr, es)) && Counted(Run(tr, es))
    decreases |es|
  {
    if es != [] {
      PatientIsTimely(tr, es[0]);
      StepInv(tr, es[0]);
      StepCounted(tr, es[0]);
      PatientRun(Step(tr, es[0]), es[1..]);
    }
  }

  /** So the receiver gets every message it takes, in order, if few attempts go elsewhere meanwhile. */
  lemma PatientDelivery(slots: nat, memory: seq<seq<byte>>, es: seq<Event>, d: nat)
    requires CleanSlate(slots, memory) && AllOk(es) && d < 2
    requires PatientAlong(Fresh(slots, memory), es)
    ensures var tr := Run(Fresh(slots, memory), es); forall j: nat :: j < |tr.got[d]| ==> Delivered(tr, d, j)
  {
    FreshInv(slots, memory);
    PatientRun(Fresh(slots, memory), es);
  }

  /** Received with nothing in between, a message that saw at most slots + 1 attempts go elsewhere is safe. */
  lemma UndividedIsPatient(tr: Trace, me: nat, cap: nat)
    requires Base(tr) && me < 2 && tr.hands[me].Free? && tr.ch.queues[me] != []
    requires Since(tr, me, tr.acc[me][|tr.got[me]|]) <= tr.ch.slots + 1
    ensures PatientAlong(tr, Whole(me, cap))
  {
    assert HandOk(tr, me);
    TakePatient(tr, me, cap);
    CopyPatient(AfterTake(tr, me), me, cap);
    RestPatient(AfterTake(tr, me), me, cap);
    assert Step(tr, Take(me)) == AfterTake(tr, me);
    PatientCons(tr, Take(me), [Copy(me, cap), Clear(me)]);
    assert [Take(me)] + [Copy(me, cap), Clear(me)] == Whole(me, cap);
  }

  lemma RestPatient(t1: Trace, me: nat, cap: nat)
    requires WfTrace(t1) && me < 2 && t1.hands[me].Took?
    requires Patient(t1, Copy(me, cap)) && Patient(AfterCopy(t1, me, cap), Clear(me))
    ensures PatientAlong(t1, [Copy(me, cap), Clear(me)])
  {
    PatientCons(AfterCopy(t1, me, cap), Clear(me), []);
    assert [Clear(me)] + [] == [Clear(me)];
    PatientCons(t1, Copy(me, cap), [Clear(me)]);
    assert [Copy(me, cap)] + [Clear(me)] == [Copy(me, cap), Clear(me)];
  }

  lemma TakePatient(tr: Trace, me: nat, cap: nat)
    requires WfTrace(tr) && me < 2 && HandOk(tr, me) && tr.hands[me].Free? && tr.ch.queues[me] != []
    requires Since(tr, me, tr.acc[me][|tr.got[me]|]) <= tr.ch.slots + 1
    ensures Patient(AfterTake(tr, me), Copy(me, cap))
    ensures Slack(AfterTake(tr, me), me) == tr.ch.slots + 1
  {
  }

  lemma CopyPatient(t1: Trace, me: nat, cap: nat)
    requires WfTrace(t1) && me < 2 && t1.hands[me].Took? && |t1.got[me]| < |t1.acc[me]| && Patient(t1, Copy(me, cap))
    ensures Patient(AfterCopy(t1, me, cap), Clear(me))
  {
    var t2 := AfterCopy(t1, me, cap);
    forall j: nat | Handles(t2, me, j) ensures Since(t2, me, t2.acc[me][j]) <= Slack(t2, me) {
      assert Handles(t1, Actor(Copy(me, cap)), j);
    }
  }

  lemma PatientCons(tr: Trace, e: Event, es: seq<Event>)
    requires WfTrace(tr) && EventOk(e) && AllOk(es) && Patient(tr, e) && PatientAlong(Step(tr, e), es)
    ensures AllOk([e] + es) && PatientAlong(tr, [e] + es)
  {
    assert ([e] + es)[1..] == es;
  }

  // ---------------------------------------------------------------------
  // Which messages are overwritten
  // ---------------------------------------------------------------------

  /**
    In any run the next send overrides a valid message exactly when no clearing
    reached its cell since the attempt one lap earlier.
   */
  lemma OverrideExactly(tr: Trace)
    requires Base(tr)
    ensures tr.ch.cells[tr.ch.top].valid <==>
            |tr.sent| >= Pool(tr.ch.slots) && !Cleared(tr, |tr.sent| - Pool(tr.ch.slots))
  {
    var pool, n := Pool(tr.ch.slots), |tr.sent|;
    if n >= pool {
      assert Recent(tr, n - pool);
      CellLap(pool, n - pool);
    } else {
      CellIsMod(pool, n);
    }
  }

  /** In timely runs what cleared the cell of a recent attempt was its own receive. */
  lemma ClearedIsFinished(tr: Trace, k: nat)
    requires Inv(tr) && Recent(tr, k)
    ensures Cleared(tr, k) <==> Finished(tr, k)
  {
    if Cleared(tr, k) {
      var i: nat :| ClearsIt(tr, i, k);
      var a := tr.clears[i].attempt;
      assert Finished(tr, a);
      if a < k {
        DistinctCells(Pool(tr.ch.slots), a, k);
      } else if k < a {
        DistinctCells(Pool(tr.ch.slots), k, a);
      }
    }
  }

  /** There the override hits exactly an attempt that was refused, still waits, or is being received. */
  lemma TimelyOverride(tr: Trace)
    requires Inv(tr)
    ensures tr.ch.cells[tr.ch.top].valid <==>
            |tr.sent| >= Pool(tr.ch.slots) && !Finished(tr, |tr.sent| - Pool(tr.ch.slots))
  {
    OverrideExactly(tr);
    if |tr.sent| >= Pool(tr.ch.slots) {
      ClearedIsFinished(tr, |tr.sent| - Pool(tr.ch.slots));
    }
  }

  /** All attempts went to d and none posted was refused. */
  ghost predicate AllAccepted(tr: Trace, d: nat)
    requires WfTrace(tr)
  {
    d < 2 && AllTo(tr, d) && |tr.acc[1 - d]| == 0 && |tr.acc[d]| == |tr.ok|
    && forall k :: 0 <= k < |tr.ok| ==> tr.acc[d][k] == k
  }

  /** One-way traffic without a refusal never overrides a valid message. */
  lemma NoRefusalNoOverride(tr: Trace, d: nat)
    requires Inv(tr) && AllAccepted(tr, d) && tr.sender.Resting?
    ensures !tr.ch.cells[tr.ch.top].valid
  {
    TimelyOverride(tr);
    var pool, n := Pool(tr.ch.slots), |tr.sent|;
    if n >= pool {
      LapFinished(tr, d, n - pool);
    }
  }

  /** An accepted attempt a lap ago left its ring long enough ago to be finished. */
  lemma LapFinished(tr: Trace, d: nat, k: nat)
    requires WfTrace(tr) && AllAccepted(tr, d) && HandOk(tr, d) && k + Pool(tr.ch.slots) <= |tr.ok|
    ensures Finished(tr, k)
  {
    assert k < Done(tr, d) && tr.acc[d][k] == k;
  }

  // ---------------------------------------------------------------------
  // One-way traffic
  // ---------------------------------------------------------------------

  ghost predicate OneWay(es: seq<Event>, d: nat) {
    d < 2 && AllOk(es) && forall i :: 0 <= i < |es| && es[i].Write? ==> es[i].to == d
  }

  ghost predicate AllTo(tr: Trace, d: nat) {
    forall k :: 0 <= k < |tr.dest| ==> tr.dest[k] == d
  }

  /** The message a copy or clearing is for saw at most Slack refusals, one less while a send is under way. */
  ghost predicate FewRefused(tr: Trace, e: Event)
    requires WfTrace(tr) && EventOk(e)
  {
    (e.Copy? || e.Clear?) ==>
      forall j: nat :: Handles(tr, Actor(e), j) ==>
        Refused(tr.ok, tr.acc[Actor(e)][j] + 1) + UnderWay(tr) <= Slack(tr, Actor(e))
  }

  /** slots refusals are harmless to a waiting message, whether or not a send is under way. */
  lemma KeptOneWay(tr: Trace, d: nat, j: nat)
    requires WfTrace(tr) && Ordered(tr) && Queued(tr) && Counted(tr) && AllTo(tr, d) && Waits(tr, d, j)
    requires Refused(tr.ok, tr.acc[d][j] + 1) + UnderWay(tr) <= tr.ch.slots + 1
    ensures Recent(tr, tr.acc[d][j])
  {
    OneWaySince(tr, d, tr.acc[d][j]);
    KeptByCapacity(tr, d, j);
  }

  ghost predicate FewRefusedAlong(tr: Trace, es: seq<Event>)
    requires WfTrace(tr) && AllOk(es)
    decreases |es|
  {
    es == [] || (FewRefused(tr, es[0]) && FewRefusedAlong(Step(tr, es[0]), es[1..]))
  }

  lemma FewIsPatient(tr: Trace, e: Event, d: nat)
    requires WfTrace(tr) && Ordered(tr) && EventOk(e) && AllTo(tr, d) && FewRefused(tr, e) && d < 2
    requires |tr.acc[1 - d]| == 0
    ensures Patient(tr, e)
  {
    if e.Copy? || e.Clear? {
      forall j: nat | Handles(tr, Actor(e), j)
        ensures Since(tr, Actor(e), tr.acc[Actor(e)][j]) <= Slack(tr, Actor(e))
      {
        assert Actor(e) == d;
        OneWaySince(tr, d, tr.acc[d][j]);
      }
    }
  }

  lemma {:induction false} FewIsPatientAlong(tr: Trace, es: seq<Event>, d: nat)
    requires Base(tr) && OneWay(es, d) && AllTo(tr, d) && |tr.acc[1 - d]| == 0
    requires FewRefusedAlong(tr, es)
    ensures PatientAlong(tr, es)
    decreases |es|
  {
    if es != [] {
      FewIsPatient(tr, es[0], d);
      StepBase(tr, es[0]);
      FewIsPatientAlong(Step(tr, es[0]), es[1..], d);
    }
  }

  /** One-way traffic: few enough refusals from the send of a message to its clearing, and every message arrives. */
  lemma OneWayDelivery(slots: nat, memory: seq<seq<byte>>, es: seq<Event>, d: nat)
    requires CleanSlate(slots, memory) && OneWay(es, d)
    requires FewRefusedAlong(Fresh(slots, memory), es)
    ensures var tr := Run(Fresh(slots, memory), es); forall j: nat :: j < |tr.got[d]| ==> Delivered(tr, d, j)
  {
    FreshBase(slots, memory);
    FewIsPatientAlong(Fresh(slots, memory), es, d);
    PatientDelivery(slots, memory, es, d);
  }

  ghost predicate NoneRefused(tr: Trace) {
    forall k :: 0 <= k < |tr.ok| ==> tr.ok[k]
  }

  lemma {:induction false} OutcomesStay(tr: Trace, es: seq<Event>)
    requires WfTrace(tr) && AllOk(es)
    ensures tr.ok <= Run(tr, es).ok
    decreases |es|
  {
    if es != [] {
      OutcomesStay(Step(tr, es[0]), es[1..]);
    }
  }

  lemma NoneElsewhere(tr: Trace, d: nat, k: nat)
    requires WfTrace(tr) && Counted(tr) && AllAccepted(tr, d) && k < |tr.ok|
    ensures Since(tr, d, k) == UnderWay(tr)
  {
    assert Tally(tr, d, k) && tr.acc[d][k] == k;
  }

  lemma AcceptedPatient(tr: Trace, e: Event, d: nat)
    requires WfTrace(tr) && Ordered(tr) && Counted(tr) && AllAccepted(tr, d) && EventOk(e)
    ensures Patient(tr, e)
  {
    if e.Copy? || e.Clear? {
      forall j: nat | Handles(tr, Actor(e), j)
        ensures Since(tr, Actor(e), tr.acc[Actor(e)][j]) <= Slack(tr, Actor(e))
      {
        NoneElsewhere(tr, d, j);
      }
    }
  }

  lemma AcceptedTimely(tr: Trace, e: Event, d: nat)
    requires Inv(tr) && Counted(tr) && AllAccepted(tr, d) && EventOk(e)
    ensures Timely(tr, e)
  {
    AcceptedPatient(tr, e, d);
    PatientIsTimely(tr, e);
  }

  lemma AcceptedStep(tr: Trace, e: Event, d: nat)
    requires WfTrace(tr) && AllAccepted(tr, d) && EventOk(e) && (e.Write? ==> e.to == d)
    requires NoneRefused(Step(tr, e))
    ensures AllAccepted(Step(tr, e), d)
  {
    if e.Post? && tr.sender.Posting? {
      assert Step(tr, e).ok[|tr.ok|];
    }
  }

  /** A one-way run in which no send is refused never overrides a valid message, at any point. */
  lemma {:induction false} OneWayNeverOverrides(tr: Trace, es: seq<Event>, d: nat)
    requires Inv(tr) && Counted(tr) && AllAccepted(tr, d) && OneWay(es, d)
    requires NoneRefused(Run(tr, es))
    ensures TimelyAlong(tr, es)
    ensures var last := Run(tr, es);
            && Inv(last) && AllAccepted(last, d)
            && (last.sender.Resting? ==> !last.ch.cells[last.ch.top].valid)
    decreases |es|
  {
    if es == [] {
      if tr.sender.Resting? {
        NoRefusalNoOverride(tr, d);
      }
    } else {
      var next := Step(tr, es[0]);
      OutcomesStay(next, es[1..]);
      assert forall k :: 0 <= k < |next.ok| ==> next.ok[k] == Run(next, es[1..]).ok[k];
      AcceptedTimely(tr, es[0], d);
      AcceptedStep(tr, es[0], d);
      StepInv(tr, es[0]);
      StepCounted(tr, es[0]);
      OneWayNeverOverrides(next, es[1..], d);
    }
  }

  lemma FreshAccepted(slots: nat, memory: seq<seq<byte>>, d: nat)
    requires CleanSlate(slots, memory) && d < 2
    ensures var tr := Fresh(slots, memory); Inv(tr) && Counted(tr) && AllAccepted(tr, d)
  {
    FreshInv(slots, memory);
  }

  // ---------------------------------------------------------------------
  // The bounds are sharp
  // ---------------------------------------------------------------------

  /** Sends of msgs[from..upto] to d, with nobody receiving. */
  function Flood(d: nat, msgs: seq<seq<byte>>, from: nat, upto: nat): (es: seq<Event>)
    requires from <= upto <= |msgs|
    decreases upto - from
  {
    if from == upto then [] else Send(d, msgs[from]) + Flood(d, msgs, from + 1, upto)
  }

  ghost predicate Short(msgs: seq<seq<byte>>) {
    forall i :: 0 <= i < |msgs| ==> |msgs[i]| < MAX_SHARED_OBJ_SIZE
  }

  /** After n sends, t messages taken and none copied: the ring holds what fits behind those, the rest was refused. */
  ghost predicate Filled(tr: Trace, d: nat, msgs: seq<seq<byte>>, n: nat, t: nat)
    requires WfTrace(tr) && n <= |msgs| && d < 2
  {
    && tr.sender.Resting? && tr.sent == msgs[..n] && AllTo(tr, d)
    && tr.got[d] == [] && Gone(tr, d) == t && tr.clears == [] && tr.ch.slots >= 2
    && |tr.acc[d]| == Min(n, tr.ch.slots - 1 + t) && |tr.ch.queues[d]| == |tr.acc[d]| - t
    && (n > 0 ==> tr.acc[d][0] == 0)
  }

  lemma FillStep(tr: Trace, d: nat, msgs: seq<seq<byte>>, n: nat, t: nat)
    requires n < |msgs| && d < 2 && |msgs[n]| < MAX_SHARED_OBJ_SIZE
    requires WfTrace(tr) && Filled(tr, d, msgs, n, t) && t <= n
    ensures var next := AfterSend(tr, d, msgs[n]);
            Filled(next, d, msgs, n + 1, t) && next.ch.slots == tr.ch.slots && next.hands == tr.hands
  {
    assert msgs[..n + 1] == msgs[..n] + [msgs[n]];
  }

  lemma SendCounted(tr: Trace, to: nat, buf: seq<byte>)
    requires Base(tr) && Counted(tr) && tr.sender.Resting? && to < 2 && |buf| < MAX_SHARED_OBJ_SIZE
    ensures Counted(AfterSend(tr, to, buf))
  {
    WriteBase(tr, to, buf);
    StepCounted(tr, Write(to, buf));
    StepCounted(AfterWrite(tr, to, buf), Post);
  }

  ghost predicate Flooded(tr: Trace, d: nat, msgs: seq<seq<byte>>, n: nat, t: nat)
    requires n <= |msgs| && d < 2
  {
    Base(tr) && Counted(tr) && Filled(tr, d, msgs, n, t)
  }

  lemma FloodStep(tr: Trace, d: nat, msgs: seq<seq<byte>>, n: nat, t: nat) returns (next: Trace)
    requires n < |msgs| && d < 2 && Short(msgs) && t <= n && Flooded(tr, d, msgs, n, t)
    ensures next == Run(tr, Send(d, msgs[n])) && Flooded(next, d, msgs, n + 1, t)
    ensures next.ch.slots == tr.ch.slots && next.hands == tr.hands
  {
    next := AfterSend(tr, d, msgs[n]);
    SendIsTx(tr, d, msgs[n]);
    SendCounted(tr, d, msgs[n]);
    FillStep(tr, d, msgs, n, t);
  }

  lemma {:induction false} FloodRun(tr: Trace, d: nat, msgs: seq<seq<byte>>, n: nat, upto: nat, t: nat)
    returns (last: Trace)
    requires n <= upto <= |msgs| && d < 2 && Short(msgs) && t <= n && Flooded(tr, d, msgs, n, t)
    ensures AllOk(Flood(d, msgs, n, upto)) && last == Run(tr, Flood(d, msgs, n, upto))
    ensures Flooded(last, d, msgs, upto, t) && last.ch.slots == tr.ch.slots && last.hands == tr.hands
    decreases upto - n
  {
    if n < upto {
      var next := FloodStep(tr, d, msgs, n, t);
      last := FloodRun(next, d, msgs, n + 1, upto, t);
      RunAppend(tr, Send(d, msgs[n]), Flood(d, msgs, n + 1, upto));
    } else {
      last := tr;
    }
  }

  lemma FreshFlooded(slots: nat, memory: seq<seq<byte>>, d: nat, msgs: seq<seq<byte>>)
    requires CleanSlate(slots, memory) && slots >= 2 && d < 2
    ensures Flooded(Fresh(slots, memory), d, msgs, 0, 0)
  {
    FreshAccepted(slots, memory, d);
  }

  /** Message 0, taken and not yet copied a whole lap of attempts later: the copy returns the last of them. */
  lemma LapTaken(tr: Trace, d: nat, msgs: seq<seq<byte>>, cap: nat)
    requires Base(tr) && d < 2 && tr.hands[d].Took? && tr.got[d] == [] && |tr.acc[d]| > 0 && tr.acc[d][0] == 0
    requires tr.sent == msgs && tr.clears == [] && |msgs| == Pool(tr.ch.slots) + 1
    ensures Taken(tr, d) == 0
    ensures Look(tr.ch.cells[tr.hands[d].toCopy], cap) == Prefix(msgs[Pool(tr.ch.slots)], cap)
    ensures tr.ch.cells[tr.hands[d].toCopy].valid
  {
    CopiesExactly(tr, d, cap);
    assert !Cleared(tr, Pool(tr.ch.slots));
    assert Recent(tr, Pool(tr.ch.slots)) && HandOk(tr, d);
    CellLap(Pool(tr.ch.slots), 0);
  }

  /** The last send writes over message 0, still waiting, and is overtaken before it asks the ring. */
  function Overtaken(d: nat, last: seq<byte>): seq<Event> {
    [Write(d, last), Take(d)]
  }

  /** Message 0 is being received, and its copy returns the message of attempt n, written after r refusals. */
  ghost predicate FirstLost(tr: Trace, d: nat, n: nat, r: nat, cap: nat) {
    && Base(tr) && d < 2 && tr.hands[d].Took? && Taken(tr, d) == 0 && n < |tr.sent| && Refused(tr.ok, 1) == r
    && Look(tr.ch.cells[tr.hands[d].toCopy], cap) == Prefix(tr.sent[n], cap)
  }

  /** Attempt n was accepted after r refusals, and its cell cleared before it could be received. */
  ghost predicate LastLost(tr: Trace, n: nat, r: nat) {
    WfTrace(tr) && n < |tr.ok| && tr.ok[n] && Refused(tr.ok, 1) == r && Cleared(tr, n)
  }

  /**
    One refusal more is too many.  Of 2 * slots sends nobody receives the first
    slots - 1 are accepted and slots + 1 refused.  One more send writes its cell,
    and before it asks the ring the first message is taken: the copy returns the
    last message in place of the first, and the clearing wipes it.  That send is
    then accepted, so no more than slots + 1 were ever refused, and two messages
    are lost.
   */
  lemma RefusalBoundIsSharp(slots: nat, memory: seq<seq<byte>>, d: nat, msgs: seq<seq<byte>>, cap: nat)
    returns (tr: Trace, tr': Trace)
    requires CleanSlate(slots, memory) && slots >= 2 && d < 2 && |msgs| == Pool(slots) + 1 && Short(msgs)
    ensures AllOk(Flood(d, msgs, 0, Pool(slots)) + Overtaken(d, msgs[Pool(slots)]))
    ensures tr == Run(Fresh(slots, memory), Flood(d, msgs, 0, Pool(slots)) + Overtaken(d, msgs[Pool(slots)]))
    ensures tr.sent == msgs && FirstLost(tr, d, Pool(slots), slots + 1, cap)
    ensures tr' == Run(tr, [Copy(d, cap), Clear(d), Post]) && LastLost(tr', Pool(slots), slots + 1)
  {
    var t0, pool := Fresh(slots, memory), Pool(slots);
    FreshFlooded(slots, memory, d, msgs);
    var t1 := FloodRun(t0, d, msgs, 0, pool, 0);
    tr := Overtake(t1, d, msgs, cap);
    RunAppend(t0, Flood(d, msgs, 0, pool), Overtaken(d, msgs[pool]));
    tr' := AcceptedLate(tr, d, cap);
  }

  lemma RunTwo(tr: Trace, e: Event, f: Event)
    requires WfTrace(tr) && EventOk(e) && EventOk(f)
    ensures Run(tr, [e, f]) == Step(Step(tr, e), f)
  {
    assert [e, f] == [e] + [f];
    RunAppend(tr, [e], [f]);
    RunOne(tr, e);
    RunOne(Step(tr, e), f);
  }

  /** Message 0 waits, the ring is full, slots + 1 were refused: the last write, and a take. */
  lemma Overtake(t1: Trace, d: nat, msgs: seq<seq<byte>>, cap: nat) returns (tr: Trace)
    requires d < 2 && |msgs| == Pool(t1.ch.slots) + 1 && Short(msgs)
    requires Flooded(t1, d, msgs, |msgs| - 1, 0) && t1.hands[d].Free?
    ensures tr == Run(t1, Overtaken(d, msgs[|msgs| - 1])) && tr.sent == msgs && tr.ch.slots == t1.ch.slots
    ensures FirstLost(tr, d, |msgs| - 1, t1.ch.slots + 1, cap) && tr.ch.cells[tr.hands[d].toCopy].valid
    ensures tr.sender.Posting? && tr.sender.target == d && |tr.ch.queues[d]| <= tr.ch.slots - 2
  {
    var last := msgs[|msgs| - 1];
    var t2 := AfterWrite(t1, d, last);
    RefusedSoFar(t1, d, msgs);
    WriteBase(t1, d, last);
    TakeBase(t2, d);
    tr := AfterTake(t2, d);
    RunTwo(t1, Write(d, last), Take(d));
    assert msgs[..|msgs| - 1] + [last] == msgs;
    LapTaken(tr, d, msgs, cap);
  }

  lemma RefusedSoFar(t1: Trace, d: nat, msgs: seq<seq<byte>>)
    requires d < 2 && |msgs| == Pool(t1.ch.slots) + 1 && Flooded(t1, d, msgs, |msgs| - 1, 0)
    ensures Refused(t1.ok, 1) == t1.ch.slots + 1
  {
    assert Tally(t1, d, 0);
    OneWaySince(t1, d, 0);
  }

  /** The copy, the clearing and the post: the taken message made room on the ring. */
  lemma AcceptedLate(tr: Trace, d: nat, cap: nat) returns (tr': Trace)
    requires d < 2 && |tr.sent| == Pool(tr.ch.slots) + 1 && FirstLost(tr, d, |tr.sent| - 1, tr.ch.slots + 1, cap)
    requires tr.ch.cells[tr.hands[d].toCopy].valid
    requires tr.sender.Posting? && tr.sender.target == d && |tr.ch.queues[d]| <= tr.ch.slots - 2
    ensures tr' == Run(tr, [Copy(d, cap), Clear(d), Post])
    ensures LastLost(tr', Pool(tr.ch.slots), tr.ch.slots + 1)
  {
    var t4 := CopiedAndCleared(tr, d, cap);
    RunThree(tr, Copy(d, cap), Clear(d), Post);
    tr' := AfterPost(t4);
    SameClears(t4, tr', Pool(tr.ch.slots));
    assert (tr.ok + [true])[..|tr.ok|] == tr.ok;
  }

  lemma CopiedAndCleared(tr: Trace, d: nat, cap: nat) returns (t4: Trace)
    requires Base(tr) && d < 2 && tr.hands[d].Took? && Taken(tr, d) == 0 && |tr.sent| == Pool(tr.ch.slots) + 1
    requires tr.ch.cells[tr.hands[d].toCopy].valid
    ensures t4 == Step(Step(tr, Copy(d, cap)), Clear(d)) && Cleared(t4, Pool(tr.ch.slots))
    ensures t4.ok == tr.ok && t4.sender == tr.sender && t4.ch.slots == tr.ch.slots && t4.ch.queues == tr.ch.queues
  {
    CopyBase(tr, d, cap);
    var t3 := AfterCopy(tr, d, cap);
    assert HandOk(tr, d) && HandOk(t3, d);
    CellLap(Pool(tr.ch.slots), 0);
    ClearAdds(t3, d, Pool(tr.ch.slots));
    t4 := AfterClear(t3, d);
  }

  /**
    While a message is being received its ring can fill up again behind it, and
    then slots refusals before the copy are too many if a send is under way:
    the copy returns that send's message.
   */
  lemma SlackIsSharp(slots: nat, memory: seq<seq<byte>>, d: nat, msgs: seq<seq<byte>>, cap: nat)
    returns (es: seq<Event>, tr: Trace)
    requires CleanSlate(slots, memory) && slots >= 2 && d < 2 && |msgs| == Pool(slots) + 1 && Short(msgs)
    ensures es == Send(d, msgs[0]) + [Take(d)] + Flood(d, msgs, 1, Pool(slots)) + [Write(d, msgs[Pool(slots)])]
    ensures AllOk(es) && tr == Run(Fresh(slots, memory), es)
    ensures tr.sent == msgs && FirstLost(tr, d, Pool(slots), slots, cap)
  {
    var pool := Pool(slots);
    var before, t3 := TakenAndFull(slots, memory, d, msgs);
    tr := WriteOver(t3, d, msgs, cap);
    RunAppend(Fresh(slots, memory), before, [Write(d, msgs[pool])]);
    es := before + [Write(d, msgs[pool])];
  }

  /** Message 0 taken, the ring full again behind it, slots refusals. */
  lemma TakenAndFull(slots: nat, memory: seq<seq<byte>>, d: nat, msgs: seq<seq<byte>>)
    returns (es: seq<Event>, t3: Trace)
    requires CleanSlate(slots, memory) && slots >= 2 && d < 2 && |msgs| == Pool(slots) + 1 && Short(msgs)
    ensures es == Send(d, msgs[0]) + [Take(d)] + Flood(d, msgs, 1, Pool(slots))
    ensures AllOk(es) && t3 == Run(Fresh(slots, memory), es) && t3.ch.slots == slots
    ensures Flooded(t3, d, msgs, Pool(slots), 1) && t3.hands[d].Took?
  {
    var t2 := TakenFirst(slots, memory, d, msgs);
    t3 := FloodRun(t2, d, msgs, 1, Pool(slots), 1);
    RunAppend(Fresh(slots, memory), Send(d, msgs[0]) + [Take(d)], Flood(d, msgs, 1, Pool(slots)));
    es := Send(d, msgs[0]) + [Take(d)] + Flood(d, msgs, 1, Pool(slots));
  }

  lemma WriteOver(t3: Trace, d: nat, msgs: seq<seq<byte>>, cap: nat) returns (tr: Trace)
    requires d < 2 && |msgs| == Pool(t3.ch.slots) + 1 && Short(msgs)
    requires Flooded(t3, d, msgs, |msgs| - 1, 1) && t3.hands[d].Took?
    ensures tr == Run(t3, [Write(d, msgs[|msgs| - 1])]) && tr.sent == msgs
    ensures FirstLost(tr, d, |msgs| - 1, t3.ch.slots, cap)
  {
    var last := msgs[|msgs| - 1];
    assert Tally(t3, d, 0);
    OneWaySince(t3, d, 0);
    WriteBase(t3, d, last);
    RunOne(t3, Write(d, last));
    tr := AfterWrite(t3, d, last);
    assert msgs[..|msgs| - 1] + [last] == msgs;
    LapTaken(tr, d, msgs, cap);
  }

  lemma TakenFirst(slots: nat, memory: seq<seq<byte>>, d: nat, msgs: seq<seq<byte>>) returns (t2: Trace)
    requires CleanSlate(slots, memory) && slots >= 2 && d < 2 && |msgs| >= 1 && Short(msgs)
    ensures AllOk(Send(d, msgs[0]) + [Take(d)])
    ensures t2 == Run(Fresh(slots, memory), Send(d, msgs[0]) + [Take(d)])
    ensures Flooded(t2, d, msgs, 1, 1) && t2.ch.slots == slots && t2.hands[d].Took?
  {
    FreshFlooded(slots, memory, d, msgs);
    var t1 := FloodStep(Fresh(slots, memory), d, msgs, 0, 0);
    RunAppend(Fresh(slots, memory), Send(d, msgs[0]), [Take(d)]);
    t2 := TakeFilled(t1, d, msgs);
  }

  lemma TakeFilled(t1: Trace, d: nat, msgs: seq<seq<byte>>) returns (t2: Trace)
    requires d < 2 && |msgs| >= 1 && Flooded(t1, d, msgs, 1, 0) && t1.hands[d].Free?
    ensures t2 == Run(t1, [Take(d)]) && t2.ch.slots == t1.ch.slots && t2.hands[d].Took?
    ensures Flooded(t2, d, msgs, 1, 1)
  {
    RunOne(t1, Take(d));
    TakeBase(t1, d);
    StepCounted(t1, Take(d));
    t2 := AfterTake(t1, d);
  }
}
