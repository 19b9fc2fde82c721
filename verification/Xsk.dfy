/**
  The frame loop around an AF_XDP socket, with the kernel as an adversary that
  may move frames between any two accesses of the user to the rings.

  Everything below keeps one invariant: the circulating frames are spread over
  six places, each in exactly one.  From it follows that room on the fill ring
  never runs out, so the branches that would strand frames are never taken.
 */
module Xsk {
  import opened Words
  import opened XskRings

  const PASS: int := 100
  const DROP: int := 200
  const SEND: int := 300

  /** What a packet program decided: the action, the final length, the bytes to skip at the head. */
  datatype Verdict = Verdict(action: int, pktLen: nat, trimHead: int)

  /** One kernel move, naming the frame it picks and the descriptor it writes. */
  datatype Move = TakeFill | DeliverRx(j: nat, desc: Desc) | TakeTx | Transmitted(j: nat)

  function Trimmed(d: Desc, v: Verdict): (r: Desc)
    requires 0 <= d.addr + v.trimHead
    ensures r.addr == d.addr + v.trimHead && r.len == v.pktLen
  {
    Desc(d.addr + v.trimHead, v.pktLen)
  }

  /** What the user sees of the rings; the kernel cannot change it. */
  datatype View = View(
    fillReserved: nat, fillWritten: seq<nat>, fillSent: seq<nat>,
    txReserved: nat, txWritten: seq<Desc>, txSent: seq<Desc>,
    rxSeen: seq<Desc>, rxReleased: nat, compSeen: seq<nat>, compReleased: nat,
    handedRx: nat, handedComp: nat, outstanding: nat, inFlightTx: nat)

  /** Nothing half done: no open reservation, nothing handed over and unreleased, outstanding_tx exact. */
  ghost predicate Quiet(v: View) {
    && v.fillReserved == 0 && v.fillWritten == [] && v.txReserved == 0 && v.txWritten == []
    && v.handedRx == 0 && v.handedComp == 0 && v.compSeen == []
    && v.outstanding == v.inFlightTx
  }

  /** The n oldest received packets went back to the fill ring. */
  function Dropped(v: View, n: nat): View
    requires n <= |v.rxSeen|
  {
    v.(fillSent := v.fillSent + Addrs(v.rxSeen[..n]), rxSeen := v.rxSeen[n..], rxReleased := v.rxReleased + n)
  }

  /** The n oldest received packets went to the tx ring. */
  function Queued(v: View, n: nat): View
    requires n <= |v.rxSeen|
  {
    v.(txSent := v.txSent + v.rxSeen[..n], rxSeen := v.rxSeen[n..], rxReleased := v.rxReleased + n,
       outstanding := v.outstanding + n, inFlightTx := v.inFlightTx + n)
  }

  /** The frames of these oldest completions went back to the fill ring. */
  function Completed(v: View, back: seq<nat>): View
    requires |back| <= v.outstanding && |back| <= v.inFlightTx
  {
    v.(fillSent := v.fillSent + back, compReleased := v.compReleased + |back|,
       outstanding := v.outstanding - |back|, inFlightTx := v.inFlightTx - |back|)
  }

  function Least(a: nat, b: nat): (c: nat)
    ensures c <= a && c <= b && (c == a || c == b)
  {
    if a < b then a else b
  }

  lemma AddrsSnoc(ds: seq<Desc>, i: nat)
    requires i < |ds|
    ensures Addrs(ds[..i + 1]) == Addrs(ds[..i]) + [ds[i].addr]
  {
  }

  // ---------------------------------------------------------------------
  // A batch and its verdicts
  // ---------------------------------------------------------------------

  /** The program kept the packet inside its frame. */
  predicate StaysInFrame(d: Desc, v: Verdict, frameSize: nat)
    requires frameSize >= 1
  {
    0 <= d.addr + v.trimHead && (d.addr + v.trimHead) / frameSize == d.addr / frameSize
  }

  predicate AllInFrame(ds: seq<Desc>, vs: seq<Verdict>, frameSize: nat)
    requires frameSize >= 1
  {
    |ds| == |vs| && forall i :: 0 <= i < |ds| ==> StaysInFrame(ds[i], vs[i], frameSize)
  }

  /** The descriptors after the program's trimming and resizing. */
  function TrimAll(ds: seq<Desc>, vs: seq<Verdict>, frameSize: nat): (r: seq<Desc>)
    requires frameSize >= 1 && AllInFrame(ds, vs, frameSize)
    ensures |r| == |ds|
  {
    seq(|ds|, i requires 0 <= i < |ds| => Trimmed(ds[i], vs[i]))
  }

  /** The packets were moved and resized as their verdicts say. */
  ghost predicate Resized(before: seq<Desc>, after: seq<Desc>, vs: seq<Verdict>)
    requires |vs| <= |before| && |vs| <= |after|
  {
    forall i :: 0 <= i < |vs| ==> after[i].addr == before[i].addr + vs[i].trimHead && after[i].len == vs[i].pktLen
  }

  lemma TrimResizes(all: seq<Desc>, vs: seq<Verdict>, frameSize: nat)
    requires frameSize >= 1 && |vs| <= |all| && AllInFrame(all[..|vs|], vs, frameSize)
    ensures Resized(all, TrimAll(all[..|vs|], vs, frameSize) + all[|vs|..], vs)
  {
    forall i: nat | i < |vs| ensures all[..|vs|][i] == all[i] {
    }
  }

  /** The addresses that go back to the fill ring, in batch order, when sent[i] tells which packets do not. */
  function ToFill(ds: seq<Desc>, sent: seq<bool>): seq<nat>
    requires |ds| == |sent|
  {
    if ds == [] then []
    else ToFill(ds[..|ds| - 1], sent[..|ds| - 1]) + if sent[|ds| - 1] then [] else [ds[|ds| - 1].addr]
  }

  /** The descriptors that go to the tx ring, in batch order. */
  function ToTx(ds: seq<Desc>, sent: seq<bool>): seq<Desc>
    requires |ds| == |sent|
  {
    if ds == [] then []
    else ToTx(ds[..|ds| - 1], sent[..|ds| - 1]) + if sent[|ds| - 1] then [ds[|ds| - 1]] else []
  }

  /** The view after a batch is dealt with: split by `sent`, released in full, outstanding_tx up by the sends. */
  function Processed(v: View, ds: seq<Desc>, sent: seq<bool>): View
    requires |ds| == |sent| <= |v.rxSeen|
  {
    v.(fillSent := v.fillSent + ToFill(ds, sent), txSent := v.txSent + ToTx(ds, sent),
       rxSeen := v.rxSeen[|ds|..], rxReleased := v.rxReleased + |ds|,
       outstanding := v.outstanding + |ToTx(ds, sent)|, inFlightTx := v.inFlightTx + |ToTx(ds, sent)|)
  }

  function Sends(vs: seq<Verdict>): (r: seq<bool>)
    ensures |r| == |vs| && forall i :: 0 <= i < |vs| ==> (r[i] <==> vs[i].action == SEND)
  {
    seq(|vs|, i requires 0 <= i < |vs| => vs[i].action == SEND)
  }

  function Count(s: seq<bool>, b: bool): nat { multiset(s)[b] }

  /** The packet i of a batch stands in its part behind those of its kind before it. */
  lemma {:induction false} PartAt(ds: seq<Desc>, sent: seq<bool>, i: nat)
    requires |ds| == |sent| && i < |ds|
    ensures |ToTx(ds, sent)| == Count(sent, true) && |ToFill(ds, sent)| == Count(sent, false)
    ensures sent[i] ==> Count(sent[..i], true) < |ToTx(ds, sent)| && ToTx(ds, sent)[Count(sent[..i], true)] == ds[i]
    ensures !sent[i] ==>
              Count(sent[..i], false) < |ToFill(ds, sent)| && ToFill(ds, sent)[Count(sent[..i], false)] == ds[i].addr
  {
    var k := |ds| - 1;
    var ds', sent' := ds[..k], sent[..k];
    assert sent == sent' + [sent[k]];
    if i < k {
      assert sent'[..i] == sent[..i];
      PartAt(ds', sent', i);
    } else if k > 0 {
      PartAt(ds', sent', 0);
    }
  }

  /**
    What the packets of a batch became, one by one: a packet sent is behind
    those sent before it on the tx ring, trimmed at the head and of the length
    its verdict says; one not sent is on the fill ring likewise.
   */
  ghost predicate Dealt(v0: View, v: View, vs: seq<Verdict>, sent: seq<bool>)
    requires |vs| == |sent| <= |v0.rxSeen|
  {
    && v0.txSent <= v.txSent && |v.txSent| == |v0.txSent| + Count(sent, true)
    && v0.fillSent <= v.fillSent && |v.fillSent| == |v0.fillSent| + Count(sent, false)
    && forall i :: 0 <= i < |sent| ==> DealtOne(v0, v, vs[i], sent, i)
  }

  ghost predicate DealtOne(v0: View, v: View, verdict: Verdict, sent: seq<bool>, i: nat)
    requires i < |sent| <= |v0.rxSeen|
  {
    var addr, k := v0.rxSeen[i].addr + verdict.trimHead, Count(sent[..i], sent[i]);
    if sent[i] then
      var at := |v0.txSent| + k;
      at < |v.txSent| && v.txSent[at].addr == addr && v.txSent[at].len == verdict.pktLen
    else
      var at := |v0.fillSent| + k;
      at < |v.fillSent| && v.fillSent[at] == addr
  }

  lemma ProcessedDealt(v0: View, n: nat, vs: seq<Verdict>, sent: seq<bool>, frameSize: nat)
    requires frameSize >= 1 && n == |sent| <= |v0.rxSeen| && AllInFrame(v0.rxSeen[..n], vs, frameSize)
    ensures Dealt(v0, Processed(v0, TrimAll(v0.rxSeen[..n], vs, frameSize), sent), vs, sent)
  {
    var ds := TrimAll(v0.rxSeen[..n], vs, frameSize);
    var v := Processed(v0, ds, sent);
    forall i: nat | i < n ensures DealtOne(v0, v, vs[i], sent, i) {
      PartAt(ds, sent, i);
      assert v0.rxSeen[..n][i] == v0.rxSeen[i];
    }
    if n > 0 {
      PartAt(ds, sent, 0);
    }
  }

  lemma {:induction false} PartsLength(ds: seq<Desc>, sent: seq<bool>)
    requires |ds| == |sent|
    ensures |ToFill(ds, sent)| + |ToTx(ds, sent)| == |ds|
  {
    if ds != [] {
      PartsLength(ds[..|ds| - 1], sent[..|ds| - 1]);
    }
  }

  lemma PartsSnoc(ds: seq<Desc>, sent: seq<bool>, d: Desc, b: bool)
    requires |ds| == |sent|
    ensures ToFill(ds + [d], sent + [b]) == ToFill(ds, sent) + (if b then [] else [d.addr])
    ensures ToTx(ds + [d], sent + [b]) == ToTx(ds, sent) + (if b then [d] else [])
  {
    assert (ds + [d])[..|ds|] == ds && (sent + [b])[..|ds|] == sent;
  }

  // ---------------------------------------------------------------------
  // Rounds of the loop
  // ---------------------------------------------------------------------

  /** A packet program: the verdict on the i-th packet of round r, whatever state the program keeps in between. */
  type Program = (nat, nat, Desc) -> Verdict

  ghost predicate KeepsInFrame(program: Program, frameSize: nat)
    requires frameSize >= 1
  {
    forall r: nat, i: nat, d: Desc :: StaysInFrame(d, program(r, i, d), frameSize)
  }

  /** The verdicts are the program's own. */
  ghost predicate Decided(program: Program, r: nat, ds: seq<Desc>, vs: seq<Verdict>) {
    |vs| == |ds| && forall i :: 0 <= i < |ds| ==> vs[i] == program(r, i, ds[i])
  }

  /** The user's view, with all that waits on the completion and receive rings and how many wait on the tx ring. */
  datatype Scene = Scene(view: View, done: seq<nat>, received: seq<Desc>, queued: nat)

  /** One round: the socket at its start, after reclaiming, after polling and at its end, and what was seen between. */
  datatype Round = Round(start: Scene, reclaimed: Scene, polled: Scene, end: Scene,
                         comps: seq<nat>, packets: seq<Desc>, vs: seq<Verdict>, sent: seq<bool>)

  /** Of the completions waiting at the peek, as many as a batch and outstanding_tx allow are back on the fill ring. */
  ghost predicate Reclaimed(a: Scene, b: Scene, comps: seq<nat>, batchSize: nat) {
    var n := Least(|comps|, Least(a.view.outstanding, batchSize));
    && a.done <= comps && comps[n..] <= b.done && a.received <= b.received && b.queued <= a.queued
    && n <= a.view.inFlightTx && b.view == Completed(a.view, comps[..n])
  }

  /** Of the packets waiting at the peek, a batch of the oldest is in hand. */
  ghost predicate Polled(a: Scene, b: Scene, packets: seq<Desc>, batchSize: nat) {
    var n := Least(|packets|, batchSize);
    && a.received <= packets <= b.received && a.done <= b.done && b.queued <= a.queued
    && b.view == a.view.(rxSeen := packets[..n])
  }

  /**
    The packets in hand are split by the program's verdicts: every SEND with
    room is on the tx ring, every other packet on the fill ring, and all are released.
   */
  ghost predicate Acted(a: Scene, b: Scene, program: Program, r: nat, vs: seq<Verdict>, sent: seq<bool>,
                        frameSize: nat, txSize: nat)
  {
    var ds := a.view.rxSeen;
    && |ds| <= |a.received| && a.received[|ds|..] <= b.received && a.done <= b.done
    && b.queued <= a.queued + Count(sent, true)
    && Decided(program, r, ds, vs) && |sent| == |ds| && RightlySent(vs, sent, a.queued, txSize)
    && frameSize >= 1 && AllInFrame(ds, vs, frameSize)
    && b.view == Processed(a.view, TrimAll(ds, vs, frameSize), sent) && Dealt(a.view, b.view, vs, sent)
  }

  ghost predicate Proper(round: Round, program: Program, r: nat, frameSize: nat, batchSize: nat, txSize: nat) {
    && Reclaimed(round.start, round.reclaimed, round.comps, batchSize)
    && Polled(round.reclaimed, round.polled, round.packets, batchSize)
    && Acted(round.polled, round.end, program, r, round.vs, round.sent, frameSize, txSize)
  }

  ghost predicate Linked(log: seq<Round>, k: nat)
    requires k + 1 < |log|
  {
    log[k].end == log[k + 1].start
  }

  ghost predicate Chained(log: seq<Round>, first: Scene, last: Scene) {
    && (if log == [] then first == last else log[0].start == first && log[|log| - 1].end == last)
    && forall k :: 0 <= k < |log| - 1 ==> Linked(log, k)
  }

  ghost predicate AllProper(log: seq<Round>, program: Program, frameSize: nat, batchSize: nat, txSize: nat) {
    forall r :: 0 <= r < |log| ==> Proper(log[r], program, r, frameSize, batchSize, txSize)
  }

  lemma NoneReclaimed(a: Scene, batchSize: nat)
    requires a.view.outstanding == 0
    ensures Reclaimed(a, a, a.done, batchSize)
  {
  }

  lemma SomeReclaimed(a: Scene, b: Scene, comps: seq<nat>, n: nat, batchSize: nat)
    requires n == Least(|comps|, Least(a.view.outstanding, batchSize)) && n <= a.view.inFlightTx
    requires a.done <= comps && comps[n..] <= b.done && a.received <= b.received && b.queued <= a.queued
    requires b.view == Completed(a.view, comps[..n])
    ensures Reclaimed(a, b, comps, batchSize)
  {
  }

  lemma SomePolled(a: Scene, b: Scene, packets: seq<Desc>, batchSize: nat)
    requires a.received <= packets <= b.received && a.done <= b.done && b.queued <= a.queued
    requires b.view == a.view.(rxSeen := packets[..Least(|packets|, batchSize)])
    ensures Polled(a, b, packets, batchSize)
  {
  }

  lemma NoneActed(a: Scene, program: Program, r: nat, frameSize: nat, txSize: nat)
    requires a.view.rxSeen == [] && frameSize >= 1
    ensures Acted(a, a, program, r, [], [], frameSize, txSize)
  {
  }

  /** The packets all rounds together ran the program on. */
  function Handled(log: seq<Round>): nat {
    if log == [] then 0 else Handled(log[..|log| - 1]) + |log[|log| - 1].vs|
  }

  /** Entries taken off the two consumer rings for good, and entries put on the two producer rings. */
  ghost function TakenOff(s: Scene): nat { s.view.rxReleased + s.view.compReleased }

  ghost function PutOn(s: Scene): nat { |s.view.fillSent| + |s.view.txSent| }

  /** Over any rounds every packet handled and every completion reclaimed goes to exactly one of the two rings. */
  lemma {:induction false} Totals(log: seq<Round>, program: Program, first: Scene, last: Scene,
                                  frameSize: nat, batchSize: nat, txSize: nat)
    requires Chained(log, first, last) && AllProper(log, program, frameSize, batchSize, txSize)
    ensures last.view.rxReleased == first.view.rxReleased + Handled(log)
    ensures PutOn(last) - PutOn(first) == TakenOff(last) - TakenOff(first)
  {
    if log != [] {
      var k := |log| - 1;
      var before, round := log[..k], log[k];
      forall j: nat | j < |before| - 1 ensures Linked(before, j) {
        assert Linked(log, j);
      }
      assert k > 0 ==> Linked(log, k - 1);
      Totals(before, program, first, round.start, frameSize, batchSize, txSize);
      assert Proper(round, program, k, frameSize, batchSize, txSize);
      RoundTotals(round, program, k, frameSize, batchSize, txSize);
    }
  }

  lemma RoundTotals(round: Round, program: Program, r: nat, frameSize: nat, batchSize: nat, txSize: nat)
    requires Proper(round, program, r, frameSize, batchSize, txSize)
    ensures round.end.view.rxReleased == round.start.view.rxReleased + |round.vs|
    ensures PutOn(round.end) - PutOn(round.start) == TakenOff(round.end) - TakenOff(round.start)
  {
    PartsLength(TrimAll(round.polled.view.rxSeen, round.vs, frameSize), round.sent);
  }

  lemma OneMore(log: seq<Round>, round: Round, first: Scene)
    requires Chained(log, first, round.start)
    ensures Chained(log + [round], first, round.end)
  {
    var next := log + [round];
    forall k: nat | k < |next| - 1 ensures Linked(next, k) {
      assert k < |log| - 1 ==> Linked(log, k);
    }
  }

  class XskSocket {
    const rxSize: nat
    const txSize: nat
    const frameSize: nat
    const batchSize: nat

    var fq: ProdRing<nat>
    var cq: ConsRing<nat>
    var rx: ConsRing<Desc>
    var tx: ProdRing<Desc>
    var outstandingTx: nat

    // The kernel's own holdings.
    var kernelRx: seq<nat>
    var kernelTx: seq<nat>

    // Peeked entries at the front whose frame is already written to another ring.
    ghost var handedRx: nat
    ghost var handedComp: nat

    /** Frames put on the fill ring at the start. */
    function FillSize(): nat { rxSize * 2 }

    ghost predicate Config() {
      frameSize >= 1 && batchSize >= 1 && FillSize() * frameSize <= ADDR_SPAN
    }

    ghost predicate Shape()
      reads `fq, `cq, `rx, `tx, `kernelRx, `kernelTx, `handedRx, `handedComp
    {
      && fq.Ok() && tx.Ok() && rx.Ok() && cq.Ok()
      && fq.size == FillSize() && tx.size == txSize && rx.size == rxSize && cq.size == txSize * 2
      && handedRx <= rx.peeked && handedComp <= cq.peeked
    }

    /** A frame counts where its address was written last. */
    ghost function Where(): Places
      reads `fq, `cq, `rx, `tx, `kernelRx, `kernelTx, `handedRx, `handedComp
      requires Config() && Shape()
    {
      Places(Frames(fq.queue + fq.written, frameSize), Frames(kernelRx, frameSize),
             DescFrames(rx.entries[handedRx..], frameSize), DescFrames(tx.queue + tx.written, frameSize),
             Frames(kernelTx, frameSize), Frames(cq.entries[handedComp..], frameSize))
    }

    ghost predicate Safe()
      reads `fq, `cq, `rx, `tx, `kernelRx, `kernelTx, `handedRx, `handedComp
    {
      Config() && Shape() && Where().Conserved(FillSize())
    }

    ghost function InFlightTx(): nat
      reads `tx, `kernelTx, `cq
    {
      |tx.queue| + |kernelTx| + |cq.entries|
    }

    ghost function Seen(): (v: View)
      reads this
      requires Shape()
      ensures |v.rxSeen| == rx.peeked && |v.compSeen| == cq.peeked
    {
      View(fq.reserved, fq.written, fq.sent, tx.reserved, tx.written, tx.sent,
           rx.entries[..rx.peeked], rx.released, cq.entries[..cq.peeked], cq.released,
           handedRx, handedComp, outstandingTx, InFlightTx())
    }

    /**
      Received packets and completions not yet peeked: the kernel appends to
      them, nothing but a peek takes any away.
     */
    twostate predicate Onward()
      requires old(rx.Ok()) && old(cq.Ok()) && rx.Ok() && cq.Ok()
      reads `rx, `cq
    {
      old(rx.entries[rx.peeked..]) <= rx.entries[rx.peeked..] && old(cq.entries[cq.peeked..]) <= cq.entries[cq.peeked..]
    }

    /** Between two calls: nothing half done, and outstanding_tx counts the frames under way to completion. */
    ghost predicate Idle()
      reads this
    {
      Safe() && Quiet(Seen())
    }

    /** setup_socket: all frames start on the fill ring. */
    constructor (rxSize: nat, txSize: nat, frameSize: nat, batchSize: nat)
      requires frameSize >= 1 && batchSize >= 1 && rxSize * 2 * frameSize <= ADDR_SPAN
      ensures Idle() && rx.peeked == 0 && outstandingTx == 0
      ensures fq.queue == seq(rxSize * 2, i requires 0 <= i < rxSize * 2 => i * frameSize)
    {
      this.rxSize, this.txSize, this.frameSize, this.batchSize := rxSize, txSize, frameSize, batchSize;
      fq := ProdRing(rxSize * 2, [], 0, [], []);
      cq := ConsRing(txSize * 2, [], 0, 0);
      rx := ConsRing(rxSize, [], 0, 0);
      tx := ProdRing(txSize, [], 0, [], []);
      outstandingTx, kernelRx, kernelTx := 0, [], [];
      handedRx, handedComp := 0, 0;
      new;
      Populate();
    }

    method Populate()
      requires Config() && Shape() && fq == ProdRing(FillSize(), [], 0, [], [])
      requires kernelRx == [] && kernelTx == [] && rx.entries == [] && cq.entries == []
      requires tx.queue == [] && tx.reserved == 0 && tx.written == []
      requires handedRx == 0 && handedComp == 0 && outstandingTx == 0
      modifies this`fq
      ensures Idle()
      ensures fq.queue == seq(FillSize(), i requires 0 <= i < FillSize() => i * frameSize)
    {
      var (ring, ret, idx) := fq.Reserve(FillSize());
      fq := ring;
      for i := 0 to FillSize()
        invariant fq.Ok() && fq.size == FillSize() == fq.reserved && fq.queue == [] == fq.sent && idx == i
        invariant fq.written == seq(i, k requires 0 <= k < i => k * frameSize)
      {
        fq := fq.Write(idx, i * frameSize);
        idx := idx + 1;
      }
      fq := fq.Submit(FillSize());
      FirstFrames(frameSize, FillSize());
      AllOnFill(FillSize());
      assert Where() == Places(seq(FillSize(), i => i), [], [], [], [], []);
    }

    // -------------------------------------------------------------------
    // The kernel
    // -------------------------------------------------------------------

    /** Whether the kernel can make the move now: it has the frame, the target has room, the frame stays the same. */
    predicate Possible(m: Move)
      reads this
    {
      match m
      case TakeFill => fq.queue != []
      case DeliverRx(j, desc) =>
        j < |kernelRx| && |rx.entries| < rx.size && frameSize >= 1 && desc.addr / frameSize == kernelRx[j] / frameSize
      case TakeTx => tx.queue != []
      case Transmitted(j) => j < |kernelTx| && |cq.entries| < cq.size
    }

    method KernelMove(m: Move)
      requires Safe()
      modifies this`fq, this`rx, this`tx, this`cq, this`kernelRx, this`kernelTx
      ensures Safe() && Seen() == old(Seen())
      ensures |fq.queue| <= old(|fq.queue|) && |tx.queue| <= old(|tx.queue|)
      ensures old(rx.entries) <= rx.entries && old(cq.entries) <= cq.entries
    {
      if Possible(m) {
        match m
        case TakeFill => KernelTakesFill();
        case DeliverRx(j, desc) => KernelDelivers(j, desc);
        case TakeTx => KernelTakesTx();
        case Transmitted(j) => KernelCompletes(j);
      }
    }

    method KernelTakesFill()
      requires Safe() && Possible(TakeFill)
      modifies this`fq, this`rx, this`tx, this`cq, this`kernelRx, this`kernelTx
      ensures Safe() && Seen() == old(Seen())
      ensures |fq.queue| <= old(|fq.queue|) && |tx.queue| <= old(|tx.queue|)
      ensures old(rx.entries) <= rx.entries && old(cq.entries) <= cq.entries
    {
      ghost var p := Where();
      HopConserves(p, FillToKernel, FillSize());
      var a := fq.queue[0];
      assert fq.queue + fq.written == [a] + (fq.queue[1..] + fq.written);
      fq := fq.Take();
      kernelRx := kernelRx + [a];
      assert Where() == Hopped(p, FillToKernel);
    }

    method KernelDelivers(j: nat, desc: Desc)
      requires Safe() && Possible(DeliverRx(j, desc))
      modifies this`fq, this`rx, this`tx, this`cq, this`kernelRx, this`kernelTx
      ensures Safe() && Seen() == old(Seen())
      ensures |fq.queue| <= old(|fq.queue|) && |tx.queue| <= old(|tx.queue|)
      ensures old(rx.entries) <= rx.entries && old(cq.entries) <= cq.entries
    {
      ghost var p := Where();
      HopConserves(p, KernelToRx(j), FillSize());
      kernelRx := Without(kernelRx, j);
      rx := rx.(entries := rx.entries + [desc]);
      assert Where() == Hopped(p, KernelToRx(j));
    }

    method KernelTakesTx()
      requires Safe() && Possible(TakeTx)
      modifies this`fq, this`rx, this`tx, this`cq, this`kernelRx, this`kernelTx
      ensures Safe() && Seen() == old(Seen())
      ensures |fq.queue| <= old(|fq.queue|) && |tx.queue| <= old(|tx.queue|)
      ensures old(rx.entries) <= rx.entries && old(cq.entries) <= cq.entries
    {
      ghost var p := Where();
      HopConserves(p, TxToKernel, FillSize());
      var d := tx.queue[0];
      assert tx.queue + tx.written == [d] + (tx.queue[1..] + tx.written);
      tx := tx.Take();
      kernelTx := kernelTx + [d.addr];
      assert Where() == Hopped(p, TxToKernel);
    }

    method KernelCompletes(j: nat)
      requires Safe() && Possible(Transmitted(j))
      modifies this`fq, this`rx, this`tx, this`cq, this`kernelRx, this`kernelTx
      ensures Safe() && Seen() == old(Seen())
      ensures |fq.queue| <= old(|fq.queue|) && |tx.queue| <= old(|tx.queue|)
      ensures old(rx.entries) <= rx.entries && old(cq.entries) <= cq.entries
    {
      ghost var p := Where();
      HopConserves(p, KernelToComp(j), FillSize());
      var a := kernelTx[j];
      kernelTx := Without(kernelTx, j);
      cq := cq.(entries := cq.entries + [a]);
      assert Where() == Hopped(p, KernelToComp(j));
    }

    /** Any number of kernel moves, of any kind. */
    method Kernel()
      requires Safe()
      modifies this`fq, this`rx, this`tx, this`cq, this`kernelRx, this`kernelTx
      ensures Safe() && Onward() && Seen() == old(Seen())
      ensures |fq.queue| <= old(|fq.queue|) && |tx.queue| <= old(|tx.queue|)
      ensures old(rx.entries) <= rx.entries && old(cq.entries) <= cq.entries
    {
      var moves: seq<Move> := *;
      for i := 0 to |moves|
        invariant Safe() && Onward() && Seen() == old(Seen())
        invariant |fq.queue| <= old(|fq.queue|) && |tx.queue| <= old(|tx.queue|)
        invariant old(rx.entries) <= rx.entries && old(cq.entries) <= cq.entries
      {
        KernelMove(moves[i]);
      }
    }

    // -------------------------------------------------------------------
    // Single accesses of the user
    // -------------------------------------------------------------------

    /** Whatever is peeked and not handed on, or completed and not handed on, still fits the fill ring. */
    lemma FillHasRoom(n: nat)
      requires Safe() && fq.written == []
      requires n <= |rx.entries| - handedRx || n <= |cq.entries| - handedComp
      ensures |fq.queue| + n <= fq.size
    {
      assert Where().Count() == FillSize();
    }

    lemma KnownFrame(f: int)
      requires Safe()
      requires f in Where().rx || f in Where().comp
      ensures 0 <= f < FillSize()
    {
      NoOtherFrames(Where(), FillSize(), f);
    }

    /** Write the address of the oldest unhanded received packet to the fill ring. */
    method WriteFill(idx: nat, p: nat)
      requires Safe() && |fq.written| < fq.reserved && idx == |fq.sent| + |fq.written|
      requires handedRx < rx.peeked && p == rx.released + handedRx
      modifies this`fq, this`handedRx
      ensures Safe() && fq.queue == old(fq.queue)
      ensures Seen() == old(Seen()).(fillWritten := old(fq.written) + [rx.At(p).addr], handedRx := old(handedRx) + 1)
    {
      ghost var w, d := Where(), rx.entries[handedRx];
      assert w.rx[0] == d.addr / frameSize;
      KnownFrame(w.rx[0]);
      ExtractInUmem(d.addr, frameSize, FillSize());
      HopConserves(w, RxToFill, FillSize());
      var orig := ExtractAddr(rx.At(p).addr);
      fq := fq.Write(idx, orig);
      handedRx := handedRx + 1;
      assert Where() == Hopped(w, RxToFill);
    }

    method WriteTx(idx: nat, p: nat)
      requires Safe() && |tx.written| < tx.reserved && idx == |tx.sent| + |tx.written|
      requires handedRx < rx.peeked && p == rx.released + handedRx
      modifies this`tx, this`handedRx
      ensures Safe() && tx.queue == old(tx.queue)
      ensures Seen() == old(Seen()).(txWritten := old(tx.written) + [rx.At(p)], handedRx := old(handedRx) + 1)
    {
      ghost var w, d := Where(), rx.entries[handedRx];
      assert w.rx[0] == d.addr / frameSize;
      KnownFrame(w.rx[0]);
      ExtractInUmem(d.addr, frameSize, FillSize());
      HopConserves(w, RxToTx, FillSize());
      var orig := ExtractAddr(rx.At(p).addr);
      tx := tx.Write(idx, Desc(orig, rx.At(p).len));
      handedRx := handedRx + 1;
      assert Where() == Hopped(w, RxToTx);
    }

    method WriteCompleted(idx: nat, c: nat)
      requires Safe() && |fq.written| < fq.reserved && idx == |fq.sent| + |fq.written|
      requires handedComp < cq.peeked && c == cq.released + handedComp
      modifies this`fq, this`handedComp
      ensures Safe() && fq.queue == old(fq.queue)
      ensures Seen() == old(Seen()).(fillWritten := old(fq.written) + [cq.At(c)], handedComp := old(handedComp) + 1)
    {
      ghost var w := Where();
      HopConserves(w, CompToFill, FillSize());
      fq := fq.Write(idx, cq.At(c));
      handedComp := handedComp + 1;
      assert Where() == Hopped(w, CompToFill);
    }

    method SubmitFill(n: nat)
      requires Safe() && n <= |fq.written|
      modifies this`fq
      ensures Safe()
      ensures Seen() == old(Seen()).(fillReserved := old(fq.reserved) - n, fillWritten := old(fq.written)[n..],
                                     fillSent := old(fq.sent) + old(fq.written)[..n])
    {
      fq := fq.Submit(n);
      assert fq.queue + fq.written == old(fq.queue + fq.written);
    }

    method SubmitTx(n: nat)
      requires Safe() && n <= |tx.written|
      modifies this`tx
      ensures Safe()
      ensures Seen() == old(Seen()).(txReserved := old(tx.reserved) - n, txWritten := old(tx.written)[n..],
                                     txSent := old(tx.sent) + old(tx.written)[..n], inFlightTx := old(InFlightTx()) + n)
    {
      tx := tx.Submit(n);
      assert tx.queue + tx.written == old(tx.queue + tx.written);
    }

    /** Give back the n oldest receive entries; only frames already written elsewhere may be given back. */
    method ReleaseRx(n: nat)
      requires Safe() && n <= handedRx
      modifies this`rx, this`handedRx
      ensures Safe() && Onward()
      ensures Seen() == old(Seen()).(rxSeen := old(Seen()).rxSeen[n..], rxReleased := old(rx.released) + n,
                                     handedRx := old(handedRx) - n)
    {
      assert rx.entries[n..][handedRx - n..] == rx.entries[handedRx..];
      rx := rx.Release(n);
      handedRx := handedRx - n;
      assert Where() == old(Where());
    }

    method ReleaseComp(n: nat)
      requires Safe() && n <= handedComp
      modifies this`cq, this`handedComp
      ensures Safe() && Onward()
      ensures Seen() == old(Seen()).(compSeen := old(Seen()).compSeen[n..], compReleased := old(cq.released) + n,
                                     handedComp := old(handedComp) - n, inFlightTx := old(InFlightTx()) - n)
    {
      assert cq.entries[n..][handedComp - n..] == cq.entries[handedComp..];
      cq := cq.Release(n);
      handedComp := handedComp - n;
      assert Where() == old(Where());
    }

    // -------------------------------------------------------------------
    // The calls
    // -------------------------------------------------------------------

    /** The batch is the oldest unreleased receive entries, in order. */
    ghost predicate Front(batch: seq<nat>)
      reads `rx
    {
      |batch| <= rx.peeked && forall i :: 0 <= i < |batch| ==> batch[i] == rx.released + i
    }

    /** The copy loop of drop. */
    method CopyToFill(first: nat, batch: seq<nat>)
      requires Safe() && Front(batch) && handedRx == 0
      requires fq.written == [] && fq.reserved == |batch| && first == |fq.sent|
      modifies this
      ensures Safe() && Onward() && |tx.queue| <= old(|tx.queue|)
      ensures Seen() == old(Seen()).(fillWritten := Addrs(old(Seen()).rxSeen[..|batch|]), handedRx := |batch|)
    {
      var idx := first;
      for i := 0 to |batch|
        invariant Safe() && Onward() && idx == |fq.sent| + i && |tx.queue| <= old(|tx.queue|)
        invariant Seen() == old(Seen()).(fillWritten := Addrs(old(Seen()).rxSeen[..i]), handedRx := i)
      {
        Kernel();
        AddrsSnoc(old(Seen()).rxSeen, i);
        WriteFill(idx, batch[i]);
        idx := idx + 1;
      }
    }

    /** The copy loop of tx. */
    method CopyToTx(first: nat, batch: seq<nat>)
      requires Safe() && Front(batch) && handedRx == 0
      requires tx.written == [] && tx.reserved == |batch| && first == |tx.sent|
      modifies this
      ensures Safe() && Onward() && |tx.queue| <= old(|tx.queue|)
      ensures Seen() == old(Seen()).(txWritten := old(Seen()).rxSeen[..|batch|], handedRx := |batch|)
    {
      var idx := first;
      for i := 0 to |batch|
        invariant Safe() && Onward() && idx == |tx.sent| + i && |tx.queue| <= old(|tx.queue|)
        invariant Seen() == old(Seen()).(txWritten := old(Seen()).rxSeen[..i], handedRx := i)
      {
        Kernel();
        assert old(Seen()).rxSeen[..i + 1] == old(Seen()).rxSeen[..i] + [old(Seen()).rxSeen[i]];
        WriteTx(idx, batch[i]);
        idx := idx + 1;
      }
    }

    /** Reserve on the fill ring for frames that are neither there nor lost: it never fails. */
    method ReserveFill(n: nat) returns (got: nat, idx: nat)
      requires Safe() && fq.reserved == 0 && fq.written == []
      requires n <= rx.peeked - handedRx || n <= cq.peeked - handedComp
      modifies this`fq, this`rx, this`tx, this`cq, this`kernelRx, this`kernelTx
      ensures Safe() && Onward() && Seen() == old(Seen()).(fillReserved := n)
      ensures got == n && idx == |fq.sent| && |tx.queue| <= old(|tx.queue|)
    {
      Kernel();
      FillHasRoom(n);
      got, idx := ReserveOnFill(n);
    }

    method ReserveOnFill(n: nat) returns (got: nat, idx: nat)
      requires Safe()
      modifies this`fq
      ensures Safe() && fq.queue == old(fq.queue) && idx == old(|fq.sent| + fq.reserved)
      ensures got == if old(|fq.queue| + fq.reserved) + n <= fq.size then n else 0
      ensures Seen() == old(Seen()).(fillReserved := old(fq.reserved) + got)
    {
      var (ring, r, i) := fq.Reserve(n);
      fq, got, idx := ring, r, i;
      assert Where() == old(Where());
    }

    method ReserveOnTx(n: nat) returns (got: nat, idx: nat)
      requires Safe()
      modifies this`tx
      ensures Safe() && tx.queue == old(tx.queue) && idx == old(|tx.sent| + tx.reserved)
      ensures got == if old(|tx.queue| + tx.reserved) + n <= tx.size then n else 0
      ensures Seen() == old(Seen()).(txReserved := old(tx.reserved) + got)
    {
      var (ring, r, i) := tx.Reserve(n);
      tx, got, idx := ring, r, i;
      assert Where() == old(Where());
    }

    /** Submit to the fill ring, then give back the receive entries, the kernel moving in between. */
    method FinishFill(n: nat)
      requires Safe() && n == |fq.written| && n <= handedRx
      modifies this
      ensures Safe() && Onward() && |tx.queue| <= old(|tx.queue|)
      ensures Seen() == old(Seen()).(fillReserved := old(fq.reserved) - n, fillWritten := [],
                                     fillSent := old(fq.sent + fq.written), rxSeen := old(Seen()).rxSeen[n..],
                                     rxReleased := old(rx.released) + n, handedRx := old(handedRx) - n)
    {
      HandOverFill(n);
      GiveBackRx(n);
    }

    method HandOverFill(n: nat)
      requires Safe() && n == |fq.written|
      modifies this`fq, this`rx, this`tx, this`cq, this`kernelRx, this`kernelTx
      ensures Safe() && Onward() && |tx.queue| <= old(|tx.queue|)
      ensures Seen() == old(Seen()).(fillReserved := old(fq.reserved) - n, fillWritten := [],
                                     fillSent := old(fq.sent + fq.written))
    {
      Kernel();
      SubmitFill(n);
    }

    /** The release, with the kernel moving before and after. */
    method GiveBackRx(n: nat)
      requires Safe() && n <= handedRx
      modifies this
      ensures Safe() && Onward() && |tx.queue| <= old(|tx.queue|)
      ensures Seen() == old(Seen()).(rxSeen := old(Seen()).rxSeen[n..], rxReleased := old(rx.released) + n,
                                     handedRx := old(handedRx) - n)
    {
      Kernel();
      ReleaseRx(n);
      Kernel();
    }

    method FinishTx(n: nat)
      requires Safe() && n == |tx.written| && n <= handedRx
      modifies this
      ensures Safe() && Onward() && |tx.queue| <= old(|tx.queue|) + n
      ensures Seen() == old(Seen()).(txReserved := old(tx.reserved) - n, txWritten := [],
                                     txSent := old(tx.sent + tx.written), rxSeen := old(Seen()).rxSeen[n..],
                                     rxReleased := old(rx.released) + n, handedRx := old(handedRx) - n,
                                     inFlightTx := old(InFlightTx()) + n)
    {
      HandOverTx(n);
      GiveBackRx(n);
    }

    method HandOverTx(n: nat)
      requires Safe() && n == |tx.written|
      modifies this`fq, this`rx, this`tx, this`cq, this`kernelRx, this`kernelTx
      ensures Safe() && Onward() && |tx.queue| <= old(|tx.queue|) + n
      ensures Seen() == old(Seen()).(txReserved := old(tx.reserved) - n, txWritten := [],
                                     txSent := old(tx.sent + tx.written), inFlightTx := old(InFlightTx()) + n)
    {
      Kernel();
      SubmitTx(n);
    }

    /**
      drop: the whole batch goes back to the fill ring.  The reservation never
      fails, so it always reports the full count.
     */
    method Drop(batch: seq<nat>) returns (ret: nat)
      requires Idle() && Front(batch)
      modifies this
      ensures Idle() && Onward() && ret == |batch| && Seen() == Dropped(old(Seen()), |batch|)
      ensures |tx.queue| <= old(|tx.queue|)
    {
      var cnt := |batch|;
      var got, idx := ReserveFill(cnt);
      if got != cnt {
        assert false;  // the early return of the source is unreachable
      }
      CopyToFill(idx, batch);
      FinishFill(cnt);
      ret := cnt;
    }

    /** tx: the whole batch goes to the tx ring, or, when the kernel left too little room there, none of it. */
    method Tx(batch: seq<nat>) returns (ret: nat)
      requires Idle() && Front(batch)
      modifies this
      ensures Idle() && Onward() && (ret == |batch| || ret == 0)
      ensures Seen() == if ret == |batch| then Queued(old(Seen()), |batch|) else old(Seen())
      ensures old(|tx.queue|) + |batch| <= txSize ==> ret == |batch|
      ensures |tx.queue| <= old(|tx.queue|) + ret
    {
      var cnt := |batch|;
      var got, idx := TryOnTx(cnt);
      if got != cnt {
        return 0;
      }
      QueueAll(idx, batch);
      ret := cnt;
    }

    /** A reservation on the tx ring, the kernel moving first. */
    method TryOnTx(n: nat) returns (got: nat, idx: nat)
      requires Safe() && tx.reserved == 0
      modifies this`fq, this`rx, this`tx, this`cq, this`kernelRx, this`kernelTx
      ensures Safe() && Onward() && |tx.queue| <= old(|tx.queue|) && idx == |tx.sent|
      ensures (got == n || got == 0) && (old(|tx.queue|) + n <= tx.size ==> got == n)
      ensures Seen() == old(Seen()).(txReserved := got)
    {
      Kernel();
      got, idx := ReserveOnTx(n);
    }

    /** The rest of tx, once the room is reserved. */
    method QueueAll(idx: nat, batch: seq<nat>)
      requires Safe() && Front(batch) && handedRx == 0 && outstandingTx == InFlightTx()
      requires tx.written == [] && tx.reserved == |batch| && idx == |tx.sent|
      modifies this
      ensures Safe() && Onward() && |tx.queue| <= old(|tx.queue|) + |batch|
      ensures Seen() == Queued(old(Seen()), |batch|).(txReserved := 0)
    {
      CopyToTx(idx, batch);
      outstandingTx := outstandingTx + |batch|;
      FinishTx(|batch|);
    }

    /**
      complete_tx: completed frames go back to the fill ring.  Whatever was
      peeked is released in full; the retry and the two early returns on a
      failed reservation are unreachable.
     */
    method CompleteTx() returns (ret: nat, ghost waiting: seq<nat>)
      requires Idle()
      modifies this
      ensures Idle() && |tx.queue| <= old(|tx.queue|)
      ensures old(cq.entries) <= waiting && ret == Least(|waiting|, Least(old(outstandingTx), batchSize))
      ensures Seen() == Completed(old(Seen()), waiting[..ret])
      ensures waiting[ret..] <= cq.entries && old(rx.entries[rx.peeked..]) <= rx.entries[rx.peeked..]
    {
      if outstandingTx == 0 {
        return 0, cq.entries;
      }
      Kernel();
      var ndescs := if outstandingTx > batchSize then batchSize else outstandingTx;
      waiting := cq.entries;
      ret := Reclaim(ndescs);
      outstandingTx := outstandingTx - ret;
    }

    /** complete_tx but for the count: peek, and if anything came give it back to the fill ring. */
    method Reclaim(ndescs: nat) returns (rcvd: nat)
      requires Idle() && ndescs <= outstandingTx
      modifies this
      ensures Safe() && |tx.queue| <= old(|tx.queue|)
      ensures rcvd == Least(|old(cq.entries)|, ndescs)
      ensures Seen() == Completed(old(Seen()), old(cq.entries)[..rcvd]).(outstanding := old(outstandingTx))
      ensures old(cq.entries)[rcvd..] <= cq.entries && old(rx.entries[rx.peeked..]) <= rx.entries[rx.peeked..]
    {
      var c;
      rcvd, c := PeekCompleted(ndescs);
      if rcvd > 0 {
        RefillCompleted(c, rcvd);
      }
    }

    /** The refill of complete_tx: every peeked completion goes back to the fill ring and is released. */
    method RefillCompleted(c: nat, rcvd: nat)
      requires Safe() && handedComp == 0 && rcvd == cq.peeked && c == cq.released
      requires fq.reserved == 0 && fq.written == []
      modifies this
      ensures Safe() && Onward() && |tx.queue| <= old(|tx.queue|)
      ensures Seen() == old(Seen()).(fillSent := old(fq.sent) + old(Seen()).compSeen, compSeen := [],
                                     compReleased := old(cq.released) + rcvd, inFlightTx := old(InFlightTx()) - rcvd)
    {
      var got, idx := ReserveFill(rcvd);
      if got != rcvd {
        assert false;  // the retry and the early returns of the source are unreachable
      }
      CopyCompleted(idx, c, rcvd);
      FinishCompleted(rcvd);
    }

    method FinishCompleted(n: nat)
      requires Safe() && n == |fq.written| == handedComp
      modifies this
      ensures Safe() && Onward() && |tx.queue| <= old(|tx.queue|)
      ensures Seen() == old(Seen()).(fillReserved := old(fq.reserved) - n, fillWritten := [],
                                     fillSent := old(fq.sent + fq.written), compSeen := old(Seen()).compSeen[n..],
                                     compReleased := old(cq.released) + n, handedComp := 0,
                                     inFlightTx := old(InFlightTx()) - n)
    {
      HandOverFill(n);
      GiveBackComp(n);
    }

    method GiveBackComp(n: nat)
      requires Safe() && n <= handedComp
      modifies this
      ensures Safe() && Onward() && |tx.queue| <= old(|tx.queue|)
      ensures Seen() == old(Seen()).(compSeen := old(Seen()).compSeen[n..], compReleased := old(cq.released) + n,
                                     handedComp := old(handedComp) - n, inFlightTx := old(InFlightTx()) - n)
    {
      Kernel();
      ReleaseComp(n);
      Kernel();
    }

    method PeekCompleted(n: nat) returns (rcvd: nat, c: nat)
      requires Safe() && cq.peeked == 0
      modifies this`cq
      ensures Safe() && rcvd == cq.peeked == Least(|cq.entries|, n) && c == cq.released && cq.entries == old(cq.entries)
      ensures Seen() == old(Seen()).(compSeen := cq.entries[..rcvd])
    {
      var (ring, k, i) := cq.Peek(n);
      cq, rcvd, c := ring, k, i;
      assert Where() == old(Where());
    }

    method CopyCompleted(first: nat, c: nat, n: nat)
      requires Safe() && handedComp == 0 && n == cq.peeked && c == cq.released
      requires fq.written == [] && fq.reserved == n && first == |fq.sent|
      modifies this
      ensures Safe() && Onward() && |tx.queue| <= old(|tx.queue|)
      ensures Seen() == old(Seen()).(fillWritten := old(Seen()).compSeen[..n], handedComp := n)
    {
      var idx := first;
      for i := 0 to n
        invariant Safe() && Onward() && idx == |fq.sent| + i && |tx.queue| <= old(|tx.queue|)
        invariant Seen() == old(Seen()).(fillWritten := old(Seen()).compSeen[..i], handedComp := i)
      {
        Kernel();
        assert old(Seen()).compSeen[..i + 1] == old(Seen()).compSeen[..i] + [old(Seen()).compSeen[i]];
        WriteCompleted(idx, c + i);
        idx := idx + 1;
      }
    }

    /** poll_rx_queue: the batch is the oldest of the packets waiting at the peek, as many as it may hold. */
    method PollRxQueue(cnt: nat) returns (batch: seq<nat>, ghost waiting: seq<Desc>)
      requires Idle() && rx.peeked == 0
      modifies this
      ensures Idle() && Front(batch) && |tx.queue| <= old(|tx.queue|)
      ensures old(rx.entries) <= waiting && |batch| == rx.peeked == Least(|waiting|, cnt)
      ensures Seen() == old(Seen()).(rxSeen := waiting[..|batch|])
      ensures waiting <= rx.entries && old(cq.entries) <= cq.entries
    {
      Kernel();
      waiting := rx.entries;
      var (ring, rcvd, idx) := rx.Peek(cnt);
      rx := ring;
      batch := [];
      ghost var peeked := Seen();
      for i := 0 to rcvd
        invariant Safe() && Seen() == peeked && |tx.queue| <= old(|tx.queue|)
        invariant waiting <= rx.entries && old(cq.entries) <= cq.entries
        invariant |batch| == i && forall k :: 0 <= k < i ==> batch[k] == rx.released + k
      {
        Kernel();
        batch := batch + [idx + i];
      }
    }

    /**
      apply_action on the oldest received packet: SEND queues it, unless the tx
      ring is full; everything else, and a SEND that found no room, drops it.
     */
    method ApplyAction(p: nat, action: int) returns (sent: bool)
      requires Idle() && rx.peeked >= 1 && p == rx.released
      modifies this
      ensures Idle() && Onward() && (sent ==> action == SEND)
      ensures Seen() == if sent then Queued(old(Seen()), 1) else Dropped(old(Seen()), 1)
      ensures action == SEND && old(|tx.queue|) < txSize ==> sent
      ensures |tx.queue| <= old(|tx.queue|) + if sent then 1 else 0
    {
      sent := false;
      if action == SEND {
        var ret := Tx([p]);
        if ret == 1 {
          sent := true;
        } else {
          var _ := Drop([p]);
        }
      } else if action == PASS {
        // the packet data are copied to the application before this point
        var _ := Drop([p]);
      } else {
        var _ := Drop([p]);
      }
    }

    // -------------------------------------------------------------------
    // Batches
    // -------------------------------------------------------------------

    /** `batch[i]->len = ...; batch[i]->addr += ...`, in place, for the packet k places behind the oldest. */
    method TrimInPlace(p: nat, k: nat, v: Verdict)
      requires Safe() && handedRx == 0 && k < rx.peeked && p == rx.released + k
      requires StaysInFrame(rx.entries[k], v, frameSize)
      modifies this`rx
      ensures Safe() && Onward() && |rx.entries| == old(|rx.entries|)
      ensures Seen() == old(Seen()).(rxSeen := old(Seen()).rxSeen[k := Trimmed(old(rx.entries)[k], v)])
    {
      rx := rx.Put(p, Trimmed(rx.At(p), v));
      assert Where() == old(Where());
    }

    /** One packet: trim it in place, then act on it. */
    method ApplyOne(p: nat, v: Verdict) returns (sent: bool)
      requires Idle() && rx.peeked >= 1 && p == rx.released && StaysInFrame(rx.entries[0], v, frameSize)
      modifies this
      ensures Idle() && Onward() && (sent ==> v.action == SEND)
      ensures var v1 := old(Seen()).(rxSeen := old(Seen()).rxSeen[0 := Trimmed(old(rx.entries)[0], v)]);
              Seen() == if sent then Queued(v1, 1) else Dropped(v1, 1)
      ensures v.action == SEND && old(|tx.queue|) < txSize ==> sent
      ensures |tx.queue| <= old(|tx.queue|) + if sent then 1 else 0
    {
      TrimInPlace(p, 0, v);
      sent := ApplyAction(p, v.action);
    }

    /**
      The per-packet loop of pump_packets: trim, then act.  sent tells which
      packets went to the tx ring: only SENDs, and all of them if there was room.
     */
    method ApplyEach(batch: seq<nat>, vs: seq<Verdict>) returns (sent: seq<bool>)
      requires Idle() && Front(batch) && AllInFrame(Seen().rxSeen[..|batch|], vs, frameSize)
      modifies this
      ensures Idle() && Onward() && |sent| == |batch|
      ensures RightlySent(vs, sent, old(|tx.queue|), txSize) && |tx.queue| <= old(|tx.queue|) + Count(sent, true)
      ensures Seen() == Processed(old(Seen()), TrimAll(old(Seen()).rxSeen[..|batch|], vs, frameSize), sent)
      ensures Dealt(old(Seen()), Seen(), vs, sent)
      ensures old(|tx.queue|) + |ToTx(TrimAll(old(Seen()).rxSeen[..|batch|], vs, frameSize), Sends(vs))| <= txSize
              ==> sent == Sends(vs)
    {
      ghost var ds := TrimAll(Seen().rxSeen[..|batch|], vs, frameSize);
      sent := ActEach(batch, vs, ds);
      assert ds[..|batch|] == ds;
      ProcessedDealt(old(Seen()), |batch|, vs, sent, frameSize);
      if old(|tx.queue|) + |ToTx(ds, Sends(vs))| <= txSize {
        AllSent(ds, vs, sent, old(|tx.queue|), txSize, |sent|);
        assert sent[..|sent|] == sent && Sends(vs)[..|sent|] == Sends(vs);
      }
    }

    /** The loop itself. */
    method ActEach(batch: seq<nat>, vs: seq<Verdict>, ghost ds: seq<Desc>) returns (sent: seq<bool>)
      requires Idle() && Front(batch) && AllInFrame(Seen().rxSeen[..|batch|], vs, frameSize)
      requires ds == TrimAll(Seen().rxSeen[..|batch|], vs, frameSize)
      modifies this
      ensures Idle() && Onward() && |sent| == |batch| && AppliedTo(Seen(), old(Seen()), ds, sent)
      ensures RightlySent(vs, sent, old(|tx.queue|), txSize) && |tx.queue| <= old(|tx.queue|) + Count(sent, true)
    {
      ghost var v0 := Seen();
      sent := [];
      for i := 0 to |batch|
        invariant Idle() && Onward() && |sent| == i && AppliedTo(Seen(), v0, ds, sent)
        invariant RightlySent(vs, sent, old(|tx.queue|), txSize) && |tx.queue| <= old(|tx.queue|) + Count(sent, true)
      {
        ghost var now, queued := Seen(), |tx.queue|;
        assert now.rxSeen[0] == v0.rxSeen[i] == v0.rxSeen[..|batch|][i];
        var b := ApplyOne(batch[i], vs[i]);
        AppliedNext(now, Seen(), v0, ds, sent, b);
        SentNext(vs, sent, b, queued, |tx.queue|, old(|tx.queue|), txSize);
        sent := sent + [b];
      }
    }

    /** The first loop of apply_mix_action: trim every packet, count drops and sends. */
    method TrimAndCount(batch: seq<nat>, vs: seq<Verdict>) returns (drops: nat, sends: nat)
      requires Safe() && handedRx == 0 && Front(batch) && AllInFrame(Seen().rxSeen[..|batch|], vs, frameSize)
      requires forall i :: 0 <= i < |vs| ==> vs[i].action == DROP || vs[i].action == SEND
      modifies this
      ensures Safe() && |tx.queue| <= old(|tx.queue|)
      ensures var ds := TrimAll(old(Seen()).rxSeen[..|batch|], vs, frameSize);
              && Seen() == old(Seen()).(rxSeen := ds + old(Seen()).rxSeen[|batch|..])
              && drops == |ToFill(ds, Sends(vs))| && sends == |ToTx(ds, Sends(vs))|
      ensures |vs| <= rx.peeked && Resized(old(Seen()).rxSeen, Seen().rxSeen, vs)
      ensures drops + sends == |vs| && sends == Count(Sends(vs), true)
    {
      ghost var v0 := Seen();
      ghost var ds := TrimAll(v0.rxSeen[..|batch|], vs, frameSize);
      drops, sends := TrimEach(batch, vs, ds);
      TrimResizes(v0.rxSeen, vs, frameSize);
      CountsWhole(ds, vs, drops, sends);
    }

    /** The loop itself. */
    method TrimEach(batch: seq<nat>, vs: seq<Verdict>, ghost ds: seq<Desc>) returns (drops: nat, sends: nat)
      requires Safe() && handedRx == 0 && Front(batch) && AllInFrame(Seen().rxSeen[..|batch|], vs, frameSize)
      requires forall i :: 0 <= i < |vs| ==> vs[i].action == DROP || vs[i].action == SEND
      requires ds == TrimAll(Seen().rxSeen[..|batch|], vs, frameSize)
      modifies this
      ensures Safe() && |tx.queue| <= old(|tx.queue|) && TrimmedTo(Seen(), old(Seen()), ds, |ds|)
      ensures CountedTo(ds, Sends(vs), |ds|, drops, sends)
    {
      ghost var v0, s := Seen(), Sends(vs);
      drops, sends := 0, 0;
      for i := 0 to |batch|
        invariant Safe() && TrimmedTo(Seen(), v0, ds, i) && |tx.queue| <= old(|tx.queue|)
        invariant CountedTo(ds, s, i, drops, sends)
      {
        CountNext(ds, s, i, drops, sends);
        TrimNext(batch, vs, i, v0, ds);
        if vs[i].action == DROP {
          drops := drops + 1;
        } else {
          sends := sends + 1;
        }
      }
    }

    /** One round of the trimming. */
    method TrimNext(batch: seq<nat>, vs: seq<Verdict>, i: nat, ghost v0: View, ghost ds: seq<Desc>)
      requires Safe() && handedRx == 0 && Front(batch) && i < |batch| == |vs| == |ds| <= |v0.rxSeen|
      requires AllInFrame(v0.rxSeen[..|batch|], vs, frameSize) && ds == TrimAll(v0.rxSeen[..|batch|], vs, frameSize)
      requires TrimmedTo(Seen(), v0, ds, i)
      modifies this
      ensures Safe() && TrimmedTo(Seen(), v0, ds, i + 1) && |tx.queue| <= old(|tx.queue|)
    {
      Kernel();
      ghost var now := Seen();
      assert now.rxSeen[i] == v0.rxSeen[..|batch|][i];
      TrimInPlace(batch[i], i, vs[i]);
      TrimmedNext(now, Seen(), v0, ds, i);
    }

    /** One round of the placing loop. */
    method PlaceOne(p: nat, action: int, fillAt: nat, txAt: nat) returns (fillIdx: nat, txIdx: nat)
      requires Safe() && handedRx < rx.peeked && p == rx.released + handedRx && (action == DROP || action == SEND)
      requires fillAt == |fq.sent| + |fq.written| && txAt == |tx.sent| + |tx.written|
      requires if action == SEND then |tx.written| < tx.reserved else |fq.written| < fq.reserved
      modifies this`fq, this`tx, this`handedRx
      ensures Safe() && tx.queue == old(tx.queue)
      ensures fillIdx == |fq.sent| + |fq.written| && txIdx == |tx.sent| + |tx.written|
      ensures var d := old(Seen()).rxSeen[old(handedRx)];
              Seen() == if action == SEND
                        then old(Seen()).(txWritten := old(tx.written) + [d], handedRx := old(handedRx) + 1)
                        else old(Seen()).(fillWritten := old(fq.written) + [d.addr], handedRx := old(handedRx) + 1)
    {
      fillIdx, txIdx := fillAt, txAt;
      if action == DROP {
        WriteFill(fillIdx, p);
        fillIdx := fillIdx + 1;
      } else {
        WriteTx(txIdx, p);
        txIdx := txIdx + 1;
      }
    }

    method PlaceNext(batch: seq<nat>, vs: seq<Verdict>, i: nat, ghost v0: View, ghost ds: seq<Desc>,
                     fillAt: nat, txAt: nat) returns (fillIdx: nat, txIdx: nat)
      requires Safe() && Front(batch) && i < |batch| == |vs| == |ds| <= |v0.rxSeen| && ds == v0.rxSeen[..|batch|]
      requires vs[i].action == DROP || vs[i].action == SEND
      requires fillAt == |fq.sent| + |fq.written| && txAt == |tx.sent| + |tx.written|
      requires fq.reserved == |ToFill(ds, Sends(vs))| && tx.reserved == |ToTx(ds, Sends(vs))|
      requires PlacedTo(Seen(), v0, ds, Sends(vs), i)
      modifies this
      ensures Safe() && |tx.queue| <= old(|tx.queue|) && Front(batch)
      ensures fillIdx == |fq.sent| + |fq.written| && txIdx == |tx.sent| + |tx.written|
      ensures PlacedTo(Seen(), v0, ds, Sends(vs), i + 1)
    {
      Kernel();
      StepParts(ds, Sends(vs), i);
      fillIdx, txIdx := PlaceOne(batch[i], vs[i].action, fillAt, txAt);
    }

    /** The placing loop of apply_mix_action. */
    method PlaceBoth(batch: seq<nat>, vs: seq<Verdict>, ghost ds: seq<Desc>, fillFirst: nat, txFirst: nat)
      requires Safe() && handedRx == 0 && Front(batch) && |batch| == |vs| == |ds| && ds == Seen().rxSeen[..|batch|]
      requires forall i :: 0 <= i < |vs| ==> vs[i].action == DROP || vs[i].action == SEND
      requires fq.written == [] && tx.written == [] && fillFirst == |fq.sent| && txFirst == |tx.sent|
      requires fq.reserved == |ToFill(ds, Sends(vs))| && tx.reserved == |ToTx(ds, Sends(vs))|
      modifies this
      ensures Safe() && |tx.queue| <= old(|tx.queue|)
      ensures Seen() == old(Seen()).(fillWritten := ToFill(ds, Sends(vs)), txWritten := ToTx(ds, Sends(vs)),
                                     handedRx := |batch|)
    {
      var fillIdx, txIdx := fillFirst, txFirst;
      ghost var s := Sends(vs);
      for i := 0 to |batch|
        invariant Safe() && |tx.queue| <= old(|tx.queue|)
        invariant fillIdx == |fq.sent| + |fq.written| && txIdx == |tx.sent| + |tx.written|
        invariant PlacedTo(Seen(), old(Seen()), ds, s, i)
      {
        fillIdx, txIdx := PlaceNext(batch, vs, i, old(Seen()), ds, fillIdx, txIdx);
      }
      assert ds[..|batch|] == ds && s[..|batch|] == s;
    }

    /**
      apply_mix_action, for batches it was written for: every verdict DROP or
      SEND, and room for the sends.  It leaves what ApplyEach leaves.
     */
    method ApplyMixAction(batch: seq<nat>, vs: seq<Verdict>)
      requires Idle() && Front(batch) && AllInFrame(Seen().rxSeen[..|batch|], vs, frameSize)
      requires forall i :: 0 <= i < |vs| ==> vs[i].action == DROP || vs[i].action == SEND
      requires |tx.queue| + |ToTx(TrimAll(Seen().rxSeen[..|batch|], vs, frameSize), Sends(vs))| <= txSize
      modifies this
      ensures Idle()
      ensures Seen() == Processed(old(Seen()), TrimAll(old(Seen()).rxSeen[..|batch|], vs, frameSize), Sends(vs))
      ensures Dealt(old(Seen()), Seen(), vs, Sends(vs))
    {
      ghost var v0 := Seen();
      ghost var ds := TrimAll(v0.rxSeen[..|batch|], vs, frameSize);
      var sends := MoveBoth(batch, vs, ds);
      outstandingTx := outstandingTx + sends;
      MixIsProcessed(v0, ds, Sends(vs), Seen());
      ProcessedDealt(v0, |batch|, vs, Sends(vs), frameSize);
    }

    /** All of apply_mix_action but the count of outstanding frames. */
    method MoveBoth(batch: seq<nat>, vs: seq<Verdict>, ghost ds: seq<Desc>) returns (sends: nat)
      requires Idle() && Front(batch) && AllInFrame(Seen().rxSeen[..|batch|], vs, frameSize)
      requires forall i :: 0 <= i < |vs| ==> vs[i].action == DROP || vs[i].action == SEND
      requires ds == TrimAll(Seen().rxSeen[..|batch|], vs, frameSize)
      requires |tx.queue| + |ToTx(ds, Sends(vs))| <= txSize
      modifies this
      ensures Safe() && sends == |ToTx(ds, Sends(vs))| && outstandingTx == old(outstandingTx)
      ensures MixMoved(old(Seen()), ds, Sends(vs), Seen())
    {
      var drops;
      drops, sends := TrimAndCount(batch, vs);
      PartsLength(ds, Sends(vs));
      FillBoth(batch, vs, ds, drops, sends);
      FinishBoth(drops, sends);
    }

    /** Both reservations and the placing loop. */
    method FillBoth(batch: seq<nat>, vs: seq<Verdict>, ghost ds: seq<Desc>, drops: nat, sends: nat)
      requires Safe() && handedRx == 0 && Front(batch) && |batch| == |vs| == |ds| && ds == Seen().rxSeen[..|batch|]
      requires forall i :: 0 <= i < |vs| ==> vs[i].action == DROP || vs[i].action == SEND
      requires drops == |ToFill(ds, Sends(vs))| && sends == |ToTx(ds, Sends(vs))| && drops + sends == |ds|
      requires fq.written == [] && tx.written == [] && fq.reserved == 0 && tx.reserved == 0
      requires |tx.queue| + sends <= txSize
      modifies this
      ensures Safe()
      ensures Seen() == old(Seen()).(fillReserved := drops, fillWritten := ToFill(ds, Sends(vs)),
                                     txReserved := sends, txWritten := ToTx(ds, Sends(vs)), handedRx := |batch|)
    {
      var fillIdx, txIdx := ReserveBoth(drops, sends);
      PlaceBoth(batch, vs, ds, fillIdx, txIdx);
    }

    method FinishBoth(drops: nat, sends: nat)
      requires Safe() && drops == |fq.written| == fq.reserved && sends == |tx.written| == tx.reserved
      requires handedRx == drops + sends
      modifies this
      ensures Safe()
      ensures Seen() == old(Seen()).(fillReserved := 0, fillWritten := [], fillSent := old(fq.sent + fq.written),
                                     txReserved := 0, txWritten := [], txSent := old(tx.sent + tx.written),
                                     rxSeen := old(Seen()).rxSeen[drops..][sends..],
                                     rxReleased := old(rx.released) + drops + sends, handedRx := 0,
                                     inFlightTx := old(InFlightTx()) + sends)
    {
      if drops >= 1 {
        FinishFill(drops);
      }
      if sends >= 1 {
        FinishTx(sends);
      }
    }

    method ReserveBoth(drops: nat, sends: nat) returns (fillIdx: nat, txIdx: nat)
      requires Safe() && handedRx == 0 && drops + sends <= rx.peeked && |tx.queue| + sends <= txSize
      requires fq.reserved == 0 && fq.written == [] && tx.reserved == 0 && tx.written == []
      modifies this`fq, this`rx, this`tx, this`cq, this`kernelRx, this`kernelTx
      ensures Safe() && Seen() == old(Seen()).(fillReserved := drops, txReserved := sends)
      ensures fillIdx == |fq.sent| && txIdx == |tx.sent|
    {
      fillIdx, txIdx := |fq.sent|, |tx.sent|;
      Kernel();
      if drops >= 1 {
        var got, idx := ReserveFill(drops);
        fillIdx := idx;
      }
      Kernel();
      if sends >= 1 {
        var got, idx := ReserveOnTx(sends);
        txIdx := idx;
      }
    }

    // -------------------------------------------------------------------
    // The loop
    // -------------------------------------------------------------------

    /** The packet program over a batch. */
    method RunProgram(program: Program, r: nat, batch: seq<nat>, ghost ds: seq<Desc>) returns (vs: seq<Verdict>)
      requires Idle() && Front(batch) && ds == Seen().rxSeen[..|batch|] && KeepsInFrame(program, frameSize)
      modifies this
      ensures Idle() && Onward() && Seen() == old(Seen()) && |tx.queue| <= old(|tx.queue|)
      ensures Decided(program, r, ds, vs) && AllInFrame(ds, vs, frameSize)
    {
      vs := [];
      for i := 0 to |batch|
        invariant Safe() && Onward() && Seen() == old(Seen()) && |tx.queue| <= old(|tx.queue|)
        invariant Decided(program, r, ds[..i], vs)
      {
        Kernel();
        var d := rx.At(batch[i]);
        assert d == Seen().rxSeen[i] == ds[i];
        vs := vs + [program(r, i, d)];
      }
      assert ds[..|batch|] == ds;
    }

    /** What can be seen of the socket now. */
    ghost function Now(): Scene
      reads this
      requires Shape()
    {
      Scene(Seen(), cq.entries, rx.entries, |tx.queue|)
    }

    /** The first step of a round: complete_tx, if anything is outstanding. */
    method ReclaimDue() returns (ghost comps: seq<nat>)
      requires Idle() && rx.peeked == 0
      modifies this
      ensures Idle() && rx.peeked == 0 && Reclaimed(old(Now()), Now(), comps, batchSize)
    {
      ghost var start := Now();
      if outstandingTx > 0 {
        var ret, waiting := CompleteTx();
        comps := waiting;
        SomeReclaimed(start, Now(), comps, ret, batchSize);
      } else {
        comps := cq.entries;
        NoneReclaimed(start, batchSize);
      }
    }

    /** The second step: poll a batch. */
    method PollBatch() returns (batch: seq<nat>, ghost packets: seq<Desc>)
      requires Idle() && rx.peeked == 0
      modifies this
      ensures Idle() && Front(batch) && |batch| == rx.peeked && Polled(old(Now()), Now(), packets, batchSize)
    {
      ghost var start := Now();
      batch, packets := PollRxQueue(batchSize);
      SomePolled(start, Now(), packets, batchSize);
    }

    /** The last step of a round: run the program on every packet of the batch and act on its verdicts. */
    method ActOn(program: Program, r: nat, batch: seq<nat>) returns (ghost vs: seq<Verdict>, ghost sent: seq<bool>)
      requires Idle() && Front(batch) && |batch| == rx.peeked && KeepsInFrame(program, frameSize)
      modifies this
      ensures Idle() && rx.peeked == 0
      ensures Acted(old(Now()), Now(), program, r, vs, sent, frameSize, txSize)
    {
      ghost var ds := Seen().rxSeen;
      var verdicts := RunProgram(program, r, batch, ds);
      ghost var queued := |tx.queue|;
      var done := ApplyEach(batch, verdicts);
      vs, sent := verdicts, done;
      LessRoom(vs, sent, queued, old(|tx.queue|), txSize);
    }

    /** One round of pump_packets: reclaim completions, poll, and deal with the batch unless it is empty. */
    method OneRound(program: Program, r: nat) returns (ghost round: Round)
      requires Idle() && rx.peeked == 0 && KeepsInFrame(program, frameSize)
      modifies this
      ensures Idle() && rx.peeked == 0
      ensures round.start == old(Now()) && round.end == Now()
      ensures Proper(round, program, r, frameSize, batchSize, txSize)
    {
      ghost var start := Now();
      ghost var comps := ReclaimDue();
      ghost var reclaimed := Now();
      var batch, packets := PollBatch();
      ghost var polled := Now();
      ghost var vs, sent := [], [];
      if batch != [] {
        vs, sent := ActOn(program, r, batch);
      } else {
        NoneActed(polled, program, r, frameSize, txSize);
      }
      round := Round(start, reclaimed, polled, Now(), comps, packets, vs, sent);
    }

    /**
      pump_packets: any number of rounds, any packets, any program, the kernel
      moving throughout.  The rounds follow each other without a gap, and each
      is as it should be.
     */
    method PumpPackets(program: Program, rounds: nat) returns (ghost log: seq<Round>)
      requires Idle() && rx.peeked == 0 && KeepsInFrame(program, frameSize)
      modifies this
      ensures Idle() && rx.peeked == 0
      ensures |log| == rounds && Chained(log, old(Now()), Now())
      ensures AllProper(log, program, frameSize, batchSize, txSize)
    {
      log := [];
      for r := 0 to rounds
        invariant Idle() && rx.peeked == 0
        invariant |log| == r && Chained(log, old(Now()), Now())
        invariant AllProper(log, program, frameSize, batchSize, txSize)
      {
        ghost var round := OneRound(program, r);
        OneMore(log, round, old(Now()));
        log := log + [round];
      }
    }
  }

  /** The two parts of a trimmed batch were submitted and released whole. */
  ghost predicate MixMoved(v0: View, ds: seq<Desc>, s: seq<bool>, v: View)
    requires |ds| == |s| <= |v0.rxSeen|
  {
    var drops, sends := |ToFill(ds, s)|, |ToTx(ds, s)|;
    && drops + sends == |ds|
    && v == v0.(fillReserved := 0, fillWritten := [], fillSent := v0.fillSent + ToFill(ds, s),
                txReserved := 0, txWritten := [], txSent := v0.txSent + ToTx(ds, s),
                rxSeen := (ds + v0.rxSeen[|ds|..])[drops..][sends..],
                rxReleased := v0.rxReleased + drops + sends, handedRx := 0, inFlightTx := v0.inFlightTx + sends)
  }

  /** That, with outstanding_tx brought up to date, is processing the batch. */
  lemma MixIsProcessed(v0: View, ds: seq<Desc>, s: seq<bool>, v: View)
    requires Quiet(v0) && |ds| == |s| <= |v0.rxSeen| && v.outstanding == v0.outstanding + |ToTx(ds, s)|
    requires MixMoved(v0, ds, s, v.(outstanding := v0.outstanding))
    ensures v == Processed(v0, ds, s) && Quiet(v)
  {
    var drops, sends := |ToFill(ds, s)|, |ToTx(ds, s)|;
    assert (ds + v0.rxSeen[|ds|..])[drops..][sends..] == v0.rxSeen[|ds|..];
  }

  lemma {:induction false} PartGrow(ds: seq<Desc>, sent: seq<bool>, k: nat)
    requires |ds| == |sent| && k <= |ds|
    ensures |ToTx(ds[..k], sent[..k])| <= |ToTx(ds, sent)|
    ensures |ToFill(ds[..k], sent[..k])| <= |ToFill(ds, sent)|
  {
    if k < |ds| {
      assert ds[..|ds| - 1][..k] == ds[..k] && sent[..|ds| - 1][..k] == sent[..k];
      PartGrow(ds[..|ds| - 1], sent[..|ds| - 1], k);
    } else {
      assert ds[..k] == ds && sent[..k] == sent;
    }
  }

  ghost predicate TrimmedTo(now: View, v0: View, ds: seq<Desc>, i: nat)
    requires i <= |ds| <= |v0.rxSeen|
  {
    now == v0.(rxSeen := ds[..i] + v0.rxSeen[i..])
  }

  ghost predicate CountedTo(ds: seq<Desc>, s: seq<bool>, i: nat, drops: nat, sends: nat)
    requires i <= |ds| == |s|
  {
    drops == |ToFill(ds[..i], s[..i])| && sends == |ToTx(ds[..i], s[..i])|
  }

  lemma CountsWhole(ds: seq<Desc>, vs: seq<Verdict>, drops: nat, sends: nat)
    requires |ds| == |vs| && CountedTo(ds, Sends(vs), |ds|, drops, sends)
    ensures drops == |ToFill(ds, Sends(vs))| && sends == |ToTx(ds, Sends(vs))| == Count(Sends(vs), true)
    ensures drops + sends == |vs|
  {
    var s := Sends(vs);
    assert ds[..|ds|] == ds && s[..|ds|] == s;
    PartsLength(ds, s);
    if |ds| > 0 {
      PartAt(ds, s, 0);
    }
  }

  lemma CountNext(ds: seq<Desc>, s: seq<bool>, i: nat, drops: nat, sends: nat)
    requires i < |ds| == |s| && CountedTo(ds, s, i, drops, sends)
    ensures CountedTo(ds, s, i + 1, drops + (if s[i] then 0 else 1), sends + (if s[i] then 1 else 0))
  {
    StepParts(ds, s, i);
  }

  /** The first i packets are written to the two rings. */
  ghost predicate PlacedTo(now: View, v0: View, ds: seq<Desc>, s: seq<bool>, i: nat)
    requires i <= |ds| == |s|
  {
    now == v0.(fillWritten := ToFill(ds[..i], s[..i]), txWritten := ToTx(ds[..i], s[..i]), handedRx := i)
  }

  lemma TrimmedNext(now: View, next: View, v0: View, ds: seq<Desc>, i: nat)
    requires i < |ds| <= |v0.rxSeen| && TrimmedTo(now, v0, ds, i)
    requires next == now.(rxSeen := now.rxSeen[i := ds[i]])
    ensures TrimmedTo(next, v0, ds, i + 1)
  {
  }

  /** The two parts after one more packet, which still fit the whole. */
  lemma StepParts(ds: seq<Desc>, s: seq<bool>, i: nat)
    requires |ds| == |s| && i < |ds|
    ensures ToFill(ds[..i + 1], s[..i + 1]) == ToFill(ds[..i], s[..i]) + (if s[i] then [] else [ds[i].addr])
    ensures ToTx(ds[..i + 1], s[..i + 1]) == ToTx(ds[..i], s[..i]) + (if s[i] then [ds[i]] else [])
    ensures |ToTx(ds[..i + 1], s[..i + 1])| <= |ToTx(ds, s)|
    ensures |ToFill(ds[..i + 1], s[..i + 1])| <= |ToFill(ds, s)|
  {
    assert ds[..i + 1] == ds[..i] + [ds[i]] && s[..i + 1] == s[..i] + [s[i]];
    PartsSnoc(ds[..i], s[..i], ds[i], s[i]);
    PartGrow(ds, s, i + 1);
  }

  /** The batch is processed as far as `sent` goes. */
  ghost predicate AppliedTo(now: View, v0: View, ds: seq<Desc>, sent: seq<bool>)
    requires |sent| <= |ds| <= |v0.rxSeen|
  {
    now == Processed(v0, ds[..|sent|], sent)
  }

  lemma AppliedNext(now: View, next: View, v0: View, ds: seq<Desc>, sent: seq<bool>, b: bool)
    requires |sent| < |ds| <= |v0.rxSeen| && AppliedTo(now, v0, ds, sent)
    requires var v1 := now.(rxSeen := now.rxSeen[0 := ds[|sent|]]); next == if b then Queued(v1, 1) else Dropped(v1, 1)
    ensures AppliedTo(next, v0, ds, sent + [b])
  {
    ProcessedSnoc(v0, ds, sent, |sent|, b);
  }

  /** No packet but a SEND was sent, and every SEND that found room: there were `queued` in `size` at the start. */
  ghost predicate RightlySent(vs: seq<Verdict>, sent: seq<bool>, queued: nat, size: nat)
    requires |sent| <= |vs|
  {
    forall i :: 0 <= i < |sent| ==> RightlySentOne(vs[i], sent, i, queued, size)
  }

  ghost predicate RightlySentOne(verdict: Verdict, sent: seq<bool>, i: nat, queued: nat, size: nat)
    requires i < |sent|
  {
    && (sent[i] ==> verdict.action == SEND)
    && (verdict.action == SEND && queued + Count(sent[..i], true) < size ==> sent[i])
  }

  lemma SentNext(vs: seq<Verdict>, sent: seq<bool>, b: bool, queued: nat, next: nat, queued0: nat, size: nat)
    requires |sent| < |vs| && RightlySent(vs, sent, queued0, size) && queued <= queued0 + Count(sent, true)
    requires next <= queued + if b then 1 else 0
    requires b ==> vs[|sent|].action == SEND
    requires vs[|sent|].action == SEND && queued < size ==> b
    ensures RightlySent(vs, sent + [b], queued0, size) && next <= queued0 + Count(sent + [b], true)
  {
    var sent' := sent + [b];
    forall i: nat | i < |sent'| ensures RightlySentOne(vs[i], sent', i, queued0, size) {
      if i < |sent| {
        assert sent'[..i] == sent[..i];
        assert RightlySentOne(vs[i], sent, i, queued0, size);
      } else {
        assert sent'[..i] == sent;
      }
    }
  }

  lemma LessRoom(vs: seq<Verdict>, sent: seq<bool>, queued: nat, more: nat, size: nat)
    requires |sent| <= |vs| && RightlySent(vs, sent, queued, size) && queued <= more
    ensures RightlySent(vs, sent, more, size)
  {
    forall i: nat | i < |sent| ensures RightlySentOne(vs[i], sent, i, more, size) {
      assert RightlySentOne(vs[i], sent, i, queued, size);
    }
  }

  /** With room for every SEND at the start, every SEND is sent. */
  lemma {:induction false} AllSent(ds: seq<Desc>, vs: seq<Verdict>, sent: seq<bool>, queued: nat, size: nat, k: nat)
    requires |ds| == |vs| == |sent| && RightlySent(vs, sent, queued, size) && k <= |vs|
    requires queued + |ToTx(ds, Sends(vs))| <= size
    ensures sent[..k] == Sends(vs)[..k]
  {
    if k > 0 {
      AllSent(ds, vs, sent, queued, size, k - 1);
      assert RightlySentOne(vs[k - 1], sent, k - 1, queued, size);
      PartAt(ds, Sends(vs), k - 1);
      assert sent[..k] == sent[..k - 1] + [sent[k - 1]];
      assert Sends(vs)[..k] == Sends(vs)[..k - 1] + [Sends(vs)[k - 1]];
    }
  }

  /** Trimming the oldest packet left and acting on it extends the processed part by one. */
  lemma ProcessedSnoc(v0: View, ds: seq<Desc>, sent: seq<bool>, i: nat, b: bool)
    requires i < |ds| <= |v0.rxSeen| && |sent| == i
    ensures var v := Processed(v0, ds[..i], sent);
            var v1 := v.(rxSeen := v.rxSeen[0 := ds[i]]);
            Processed(v0, ds[..i + 1], sent + [b]) == if b then Queued(v1, 1) else Dropped(v1, 1)
  {
    assert ds[..i + 1] == ds[..i] + [ds[i]];
    PartsSnoc(ds[..i], sent, ds[i], b);
    var rest := v0.rxSeen[i..];
    assert rest[0 := ds[i]][1..] == v0.rxSeen[i + 1..];
    assert rest[0 := ds[i]][..1] == [ds[i]];
    assert Addrs([ds[i]]) == [ds[i].addr];
  }

  lemma FirstFrames(frameSize: nat, n: nat)
    requires frameSize >= 1
    ensures forall i :: 0 <= i < n ==> (i * frameSize) / frameSize == i
  {
    forall i | 0 <= i < n ensures (i * frameSize) / frameSize == i {
      MulDiv(i, frameSize);
    }
  }

  lemma MulDiv(i: nat, m: nat)
    requires m >= 1
    ensures (i * m) / m == i
  {
    QuotientUnique(i * m, m, i, 0);
  }
}
