/**
  Message passing over two rings with a round-robin pool of message cells.

  Every send, refused or not, takes the next cell of the pool, so a message
  that waits long enough is overwritten.  A send is two steps, the cell is
  written and then posted to the ring; a receive is three, the cell is taken
  off the ring, copied, and cleared.  Anything may happen in between.  This
  module says exactly what each receive returns in any run, and when each
  direction delivers what it accepted, in order.
 */
module Channel {
  import opened Words
  import opened RingSpec

  type byte = x: nat | x < 256

  const MAX_SHARED_OBJ_SIZE: nat := 1500

  /** One message in shared memory. */
  datatype Msg = Msg(data: seq<byte>, size: nat, valid: bool)

  /** The shared channel: queues[i] holds the cell numbers waiting for process i. */
  datatype Chan = Chan(slots: nat, top: nat, cells: seq<Msg>, queues: seq<seq<nat>>)

  function Pool(slots: nat): nat { 2 * slots }

  predicate CellOk(m: Msg) {
    |m.data| == MAX_SHARED_OBJ_SIZE && m.size <= MAX_SHARED_OBJ_SIZE
  }

  ghost predicate Wf(ch: Chan) {
    && ch.slots >= 1 && |ch.cells| == Pool(ch.slots) && ch.top < |ch.cells| && |ch.queues| == 2
    && (forall c :: 0 <= c < |ch.cells| ==> CellOk(ch.cells[c]))
    && (forall d, i :: 0 <= d < 2 && 0 <= i < |ch.queues[d]| ==> ch.queues[d][i] < |ch.cells|)
    && (forall d :: 0 <= d < 2 ==> |ch.queues[d]| <= ch.slots - 1)
  }

  function Min(a: nat, b: nat): nat { if a < b then a else b }

  /** memcpy(msg->data, buf, size). */
  function Overwrite(m: Msg, buf: seq<byte>): Msg
    requires |buf| <= |m.data|
  {
    Msg(buf + m.data[|buf|..], |buf|, true)
  }

  /** The first half of vc_tx_msg: the next cell is taken and written. */
  function WriteCell(ch: Chan, buf: seq<byte>): (ch': Chan)
    requires Wf(ch) && |buf| < MAX_SHARED_OBJ_SIZE
    ensures Wf(ch')
  {
    ch.(top := (ch.top + 1) % |ch.cells|, cells := ch.cells[ch.top := Overwrite(ch.cells[ch.top], buf)])
  }

  /** The second half: the ring of process `to` is asked to take the cell. */
  function PostCell(ch: Chan, to: nat, index: nat): (r: (Chan, bool))
    requires Wf(ch) && to < 2 && index < |ch.cells|
    ensures Wf(r.0)
  {
    if |ch.queues[to]| < ch.slots - 1 then
      (ch.(queues := ch.queues[to := ch.queues[to] + [index]]), true)
    else (ch, false)
  }

  /** vc_tx_msg to process `to` with nothing in between its halves. */
  function Tx(ch: Chan, to: nat, buf: seq<byte>): (r: (Chan, bool))
    requires Wf(ch) && to < 2 && |buf| < MAX_SHARED_OBJ_SIZE
    ensures Wf(r.0)
  {
    PostCell(WriteCell(ch, buf), to, ch.top)
  }

  /** The dequeue of vc_rx_msg: it frees the slot of the ring. */
  function TakeOff(ch: Chan, me: nat): (ch': Chan)
    requires Wf(ch) && me < 2 && ch.queues[me] != []
    ensures Wf(ch')
  {
    ch.(queues := ch.queues[me := ch.queues[me][1..]])
  }

  /** The copy of vc_rx_msg, with room for `cap` bytes: nothing from an invalid cell. */
  function Look(m: Msg, cap: nat): seq<byte>
    requires CellOk(m)
  {
    if m.valid then m.data[..Min(m.size, cap)] else []
  }

  function Wiped(m: Msg): Msg { m.(size := 0, valid := false) }

  /** The clearing of vc_rx_msg. */
  function Wipe(ch: Chan, c: nat): (ch': Chan)
    requires Wf(ch) && c < |ch.cells|
    ensures Wf(ch')
  {
    ch.(cells := ch.cells[c := Wiped(ch.cells[c])])
  }

  /** vc_rx_msg of process `me` with nothing in between its steps. */
  function Rx(ch: Chan, me: nat, cap: nat): (r: (Chan, seq<byte>))
    requires Wf(ch) && me < 2
    ensures Wf(r.0)
  {
    if ch.queues[me] == [] then (ch, [])
    else
      var c, ch' := ch.queues[me][0], TakeOff(ch, me);
      (if ch.cells[c].valid then Wipe(ch', c) else ch', Look(ch.cells[c], cap))
  }

  // ---------------------------------------------------------------------
  // Runs
  // ---------------------------------------------------------------------

  datatype Event =
    | Write(to: nat, buf: seq<byte>)
    | Post
    | Take(taker: nat)
    | Copy(copier: nat, cap: nat)
    | Clear(clearer: nat)

  /** The one sender: between calls, or with a cell written and still to post. */
  datatype Sender = Resting | Posting(cell: nat, target: nat)

  /** What a process holds of a receive it has not finished: a cell still to copy, or still to clear. */
  datatype Hand = Free | Took(toCopy: nat) | Copied(toClear: nat)

  /** Attempt `attempt` was received and its cell cleared when `time` attempts had been made. */
  datatype Cleaning = Cleaning(attempt: nat, time: nat)

  /**
    A channel and what happened on it.  Attempts are numbered from 0: sent[k]
    is the payload of attempt k, dest[k] its receiver and, once it is posted,
    ok[k] whether the ring took it; acc[d] are the attempts accepted for process d, got[d] what
    its receives copied, one entry for each message copied or found invalid,
    caps[d] their buffer sizes; clears are all clearings so far.
   */
  datatype Trace = Trace(
    ch: Chan, sender: Sender, hands: seq<Hand>,
    sent: seq<seq<byte>>, dest: seq<nat>, ok: seq<bool>, acc: seq<seq<nat>>,
    got: seq<seq<seq<byte>>>, caps: seq<seq<nat>>, clears: seq<Cleaning>)

  predicate EventOk(e: Event) {
    match e
    case Write(to, buf) => to < 2 && |buf| < MAX_SHARED_OBJ_SIZE
    case Post => true
    case Take(me) => me < 2
    case Copy(me, _) => me < 2
    case Clear(me) => me < 2
  }

  ghost predicate AllOk(es: seq<Event>) {
    forall i :: 0 <= i < |es| ==> EventOk(es[i])
  }

  predicate HandFits(h: Hand, pool: nat) {
    (h.Took? ==> h.toCopy < pool) && (h.Copied? ==> h.toClear < pool)
  }

  predicate SenderFits(h: Sender, pool: nat) {
    h.Posting? ==> h.cell < pool && h.target < 2
  }

  /** Attempts written and not yet posted. */
  function UnderWay(tr: Trace): nat {
    if tr.sender.Posting? then 1 else 0
  }

  ghost predicate WfTrace(tr: Trace) {
    && Wf(tr.ch) && SenderFits(tr.sender, |tr.ch.cells|) && |tr.ok| + UnderWay(tr) == |tr.dest| == |tr.sent|
    && (tr.sender.Posting? ==> tr.sender.target == tr.dest[|tr.ok|])
    && |tr.acc| == 2 && |tr.got| == 2 && |tr.caps| == 2
    && |tr.hands| == 2 && forall d :: 0 <= d < 2 ==> HandFits(tr.hands[d], |tr.ch.cells|)
  }

  ghost function Step(tr: Trace, e: Event): (tr': Trace)
    requires WfTrace(tr) && EventOk(e)
    ensures WfTrace(tr')
  {
    match e
    case Write(to, buf) => if tr.sender.Resting? then AfterWrite(tr, to, buf) else tr
    case Post => if tr.sender.Posting? then AfterPost(tr) else tr
    case Take(me) => if tr.hands[me].Free? && tr.ch.queues[me] != [] then AfterTake(tr, me) else tr
    case Copy(me, cap) => if tr.hands[me].Took? then AfterCopy(tr, me, cap) else tr
    case Clear(me) =>
      if tr.hands[me].Copied? && tr.got[me] != [] && |tr.got[me]| <= |tr.acc[me]| then AfterClear(tr, me) else tr
  }

  ghost function AfterWrite(tr: Trace, to: nat, buf: seq<byte>): (tr': Trace)
    requires WfTrace(tr) && tr.sender.Resting? && to < 2 && |buf| < MAX_SHARED_OBJ_SIZE
    ensures WfTrace(tr')
  {
    tr.(ch := WriteCell(tr.ch, buf), sender := Posting(tr.ch.top, to), sent := tr.sent + [buf], dest := tr.dest + [to])
  }

  ghost function AfterPost(tr: Trace): (tr': Trace)
    requires WfTrace(tr) && tr.sender.Posting?
    ensures WfTrace(tr')
  {
    var to := tr.sender.target;
    var (ch', taken) := PostCell(tr.ch, to, tr.sender.cell);
    tr.(ch := ch', sender := Resting, ok := tr.ok + [taken],
        acc := if taken then tr.acc[to := tr.acc[to] + [|tr.ok|]] else tr.acc)
  }

  ghost function AfterTake(tr: Trace, me: nat): (tr': Trace)
    requires WfTrace(tr) && me < 2 && tr.ch.queues[me] != []
    ensures WfTrace(tr')
  {
    tr.(ch := TakeOff(tr.ch, me), hands := tr.hands[me := Took(tr.ch.queues[me][0])])
  }

  ghost function AfterCopy(tr: Trace, me: nat, cap: nat): (tr': Trace)
    requires WfTrace(tr) && me < 2 && tr.hands[me].Took?
    ensures WfTrace(tr')
  {
    var c := tr.hands[me].toCopy;
    tr.(got := tr.got[me := tr.got[me] + [Look(tr.ch.cells[c], cap)]], caps := tr.caps[me := tr.caps[me] + [cap]],
        hands := tr.hands[me := if tr.ch.cells[c].valid then Copied(c) else Free])
  }

  ghost function AfterClear(tr: Trace, me: nat): (tr': Trace)
    requires WfTrace(tr) && me < 2 && tr.hands[me].Copied? && tr.got[me] != [] && |tr.got[me]| <= |tr.acc[me]|
    ensures WfTrace(tr')
  {
    tr.(ch := Wipe(tr.ch, tr.hands[me].toClear), hands := tr.hands[me := Free],
        clears := tr.clears + [Cleaning(tr.acc[me][|tr.got[me]| - 1], |tr.sent|)])
  }

  ghost function Run(tr: Trace, es: seq<Event>): (tr': Trace)
    requires WfTrace(tr) && AllOk(es)
    ensures WfTrace(tr')
    decreases |es|
  {
    if es == [] then tr else Run(Step(tr, es[0]), es[1..])
  }

  ghost predicate CleanSlate(slots: nat, memory: seq<seq<byte>>) {
    && slots >= 1 && |memory| == Pool(slots)
    && forall c :: 0 <= c < |memory| ==> |memory[c]| == MAX_SHARED_OBJ_SIZE
  }

  /** The channel as connect_shared_channel creates it, over any memory contents. */
  ghost function Fresh(slots: nat, memory: seq<seq<byte>>): (tr: Trace)
    requires CleanSlate(slots, memory)
    ensures WfTrace(tr)
  {
    var cells := seq(|memory|, c requires 0 <= c < |memory| => Msg(memory[c], 0, false));
    Trace(Chan(slots, 0, cells, [[], []]), Resting, [Free, Free], [], [], [], [[], []], [[], []], [[], []], [])
  }

  // ---------------------------------------------------------------------
  // What holds in every run
  // ---------------------------------------------------------------------

  ghost predicate Holds(m: Msg, payload: seq<byte>) {
    m.size == |payload| <= |m.data| && m.data[..m.size] == payload
  }

  function Prefix(payload: seq<byte>, cap: nat): seq<byte> {
    payload[..Min(|payload|, cap)]
  }

  /** The cell of an attempt. */
  ghost function CellOf(tr: Trace, k: nat): (c: nat)
    requires WfTrace(tr)
    ensures c < |tr.ch.cells|
  {
    Cell(Pool(tr.ch.slots), k)
  }

  /** Attempt k was at most one lap of the pool ago: no later attempt took its cell. */
  ghost predicate Recent(tr: Trace, k: nat) {
    k < |tr.sent| <= k + Pool(tr.ch.slots)
  }

  /** Messages taken off the ring of d. */
  ghost function Gone(tr: Trace, d: nat): nat
    requires WfTrace(tr) && d < 2
  {
    |tr.got[d]| + if tr.hands[d].Took? then 1 else 0
  }

  /** Message j for d is accepted and still on the ring. */
  ghost predicate Waits(tr: Trace, d: nat, j: nat)
    requires WfTrace(tr)
  {
    d < 2 && Gone(tr, d) <= j < |tr.acc[d]|
  }

  ghost predicate Ordered(tr: Trace)
    requires WfTrace(tr)
  {
    && (forall d, i :: 0 <= d < 2 && 0 <= i < |tr.acc[d]| ==> tr.acc[d][i] < |tr.ok|)
    && (forall d, i, j :: 0 <= d < 2 && 0 <= i < j < |tr.acc[d]| ==> tr.acc[d][i] < tr.acc[d][j])
    && (forall i, j :: 0 <= i < |tr.acc[0]| && 0 <= j < |tr.acc[1]| ==> tr.acc[0][i] != tr.acc[1][j])
  }

  /** A hand holds the cell of the message it is at. */
  ghost predicate HandOk(tr: Trace, d: nat)
    requires WfTrace(tr) && d < 2
  {
    && |tr.got[d]| == |tr.caps[d]| && Gone(tr, d) + |tr.ch.queues[d]| == |tr.acc[d]|
    && (tr.hands[d].Took? ==> tr.hands[d].toCopy == CellOf(tr, tr.acc[d][|tr.got[d]|]))
    && (tr.hands[d].Copied? ==> |tr.got[d]| >= 1 && tr.hands[d].toClear == CellOf(tr, tr.acc[d][|tr.got[d]| - 1]))
  }

  /** The rings hold the cells of the waiting attempts, in order. */
  ghost predicate Queued(tr: Trace)
    requires WfTrace(tr)
  {
    && tr.ch.top == CellOf(tr, |tr.sent|)
    && (tr.sender.Posting? ==> tr.sender.cell == CellOf(tr, |tr.ok|))
    && HandOk(tr, 0) && HandOk(tr, 1) && InLine(tr)
  }

  ghost predicate InLine(tr: Trace)
    requires WfTrace(tr) && HandOk(tr, 0) && HandOk(tr, 1)
  {
    forall d: nat, j: nat :: Waits(tr, d, j) ==> tr.ch.queues[d][j - Gone(tr, d)] == CellOf(tr, tr.acc[d][j])
  }

  /** The cell of a recent attempt holds that attempt's payload, if anything. */
  ghost predicate RecentHeld(tr: Trace)
    requires WfTrace(tr)
  {
    forall k: nat :: Recent(tr, k) ==>
      var m := tr.ch.cells[CellOf(tr, k)]; m.valid ==> Holds(m, tr.sent[k])
  }

  /** The i-th clearing was of the cell of attempt k, after k was written. */
  ghost predicate ClearsIt(tr: Trace, i: nat, k: nat)
    requires WfTrace(tr)
  {
    i < |tr.clears| && CellOf(tr, tr.clears[i].attempt) == CellOf(tr, k) && k < tr.clears[i].time
  }

  ghost predicate Cleared(tr: Trace, k: nat)
    requires WfTrace(tr)
  {
    exists i: nat :: ClearsIt(tr, i, k)
  }

  /** A cell of the last lap is valid until a clearing after its attempt; a cell never used is not. */
  ghost predicate Marked(tr: Trace)
    requires WfTrace(tr)
  {
    && (forall k: nat :: Recent(tr, k) ==> (tr.ch.cells[CellOf(tr, k)].valid <==> !Cleared(tr, k)))
    && (forall c :: |tr.sent| <= c < |tr.ch.cells| ==> !tr.ch.cells[c].valid)
    && (forall i :: 0 <= i < |tr.clears| ==> tr.clears[i].time <= |tr.sent|)
  }

  ghost predicate Base(tr: Trace) {
    WfTrace(tr) && Ordered(tr) && Queued(tr) && RecentHeld(tr) && Marked(tr)
  }

  lemma NextCell(pool: nat, k: nat)
    requires pool >= 1
    ensures (Cell(pool, k) + 1) % pool == Cell(pool, k + 1)
  {
    CellIsMod(pool, k);
    CellIsMod(pool, k + 1);
    AddMod(k, 1, pool);
  }

  /** Two recent attempts use different cells. */
  lemma RecentCells(tr: Trace, j: nat, k: nat)
    requires WfTrace(tr) && Recent(tr, j) && Recent(tr, k) && j != k
    ensures CellOf(tr, j) != CellOf(tr, k)
  {
    if j < k {
      DistinctCells(Pool(tr.ch.slots), j, k);
    } else {
      DistinctCells(Pool(tr.ch.slots), k, j);
    }
  }

  // Sends

  lemma WriteQueued(tr: Trace, to: nat, buf: seq<byte>)
    requires WfTrace(tr) && Queued(tr) && tr.sender.Resting? && to < 2 && |buf| < MAX_SHARED_OBJ_SIZE
    ensures Queued(AfterWrite(tr, to, buf))
  {
    NextCell(Pool(tr.ch.slots), |tr.sent|);
    LineKept(tr, AfterWrite(tr, to, buf));
  }

  lemma LineKept(tr: Trace, tr': Trace)
    requires WfTrace(tr) && HandOk(tr, 0) && HandOk(tr, 1) && InLine(tr) && WfTrace(tr')
    requires tr'.ch.slots == tr.ch.slots && tr'.ch.queues == tr.ch.queues && tr'.hands == tr.hands
    requires tr'.acc == tr.acc && tr'.got == tr.got && tr'.caps == tr.caps
    ensures HandOk(tr', 0) && HandOk(tr', 1) && InLine(tr')
  {
    forall d: nat, j: nat | Waits(tr', d, j)
      ensures tr'.ch.queues[d][j - Gone(tr', d)] == CellOf(tr', tr'.acc[d][j])
    {
      assert Waits(tr, d, j);
    }
  }

  lemma WriteHeld(tr: Trace, to: nat, buf: seq<byte>)
    requires Base(tr) && tr.sender.Resting? && to < 2 && |buf| < MAX_SHARED_OBJ_SIZE
    ensures RecentHeld(AfterWrite(tr, to, buf))
  {
    var tr', n := AfterWrite(tr, to, buf), |tr.sent|;
    var written := tr'.ch.cells[tr.ch.top];
    assert written.data[..written.size] == buf;
    forall k: nat | Recent(tr', k)
      ensures var m := tr'.ch.cells[CellOf(tr', k)]; m.valid ==> Holds(m, tr'.sent[k])
    {
      if k < n {
        assert Recent(tr, k);
        RecentCells(tr', k, n);
      }
    }
  }

  lemma SameClears(tr: Trace, tr': Trace, k: nat)
    requires WfTrace(tr) && WfTrace(tr') && tr'.clears == tr.clears && tr'.ch.slots == tr.ch.slots
    ensures Cleared(tr', k) <==> Cleared(tr, k)
  {
    if Cleared(tr, k) {
      var i: nat :| ClearsIt(tr, i, k);
      assert ClearsIt(tr', i, k);
    }
    if Cleared(tr', k) {
      var i: nat :| ClearsIt(tr', i, k);
      assert ClearsIt(tr, i, k);
    }
  }

  lemma WriteMarked(tr: Trace, to: nat, buf: seq<byte>)
    requires Base(tr) && tr.sender.Resting? && to < 2 && |buf| < MAX_SHARED_OBJ_SIZE
    ensures Marked(AfterWrite(tr, to, buf))
  {
    var tr', n := AfterWrite(tr, to, buf), |tr.sent|;
    forall k: nat | Recent(tr', k)
      ensures tr'.ch.cells[CellOf(tr', k)].valid <==> !Cleared(tr', k)
    {
      SameClears(tr, tr', k);
      if k < n {
        assert Recent(tr, k);
        RecentCells(tr', k, n);
      }
    }
    if n < Pool(tr.ch.slots) {
      CellIsMod(Pool(tr.ch.slots), n);
    }
  }

  lemma WriteBase(tr: Trace, to: nat, buf: seq<byte>)
    requires Base(tr) && tr.sender.Resting? && to < 2 && |buf| < MAX_SHARED_OBJ_SIZE
    ensures Base(AfterWrite(tr, to, buf))
  {
    WriteQueued(tr, to, buf);
    WriteHeld(tr, to, buf);
    WriteMarked(tr, to, buf);
  }

  lemma PostOrdered(tr: Trace)
    requires WfTrace(tr) && Ordered(tr) && tr.sender.Posting?
    ensures Ordered(AfterPost(tr))
  {
  }

  lemma PostHands(tr: Trace)
    requires WfTrace(tr) && HandOk(tr, 0) && HandOk(tr, 1) && tr.sender.Posting?
    ensures HandOk(AfterPost(tr), 0) && HandOk(AfterPost(tr), 1)
  {
  }

  lemma PostInLine(tr: Trace)
    requires WfTrace(tr) && Queued(tr) && tr.sender.Posting?
    requires HandOk(AfterPost(tr), 0) && HandOk(AfterPost(tr), 1)
    ensures InLine(AfterPost(tr))
  {
    var tr' := AfterPost(tr);
    forall d: nat, j: nat | Waits(tr', d, j)
      ensures tr'.ch.queues[d][j - Gone(tr', d)] == CellOf(tr', tr'.acc[d][j])
    {
      PostInLineAt(tr, d, j);
    }
  }

  lemma PostInLineAt(tr: Trace, d: nat, j: nat)
    requires WfTrace(tr) && Queued(tr) && tr.sender.Posting? && Waits(AfterPost(tr), d, j)
    ensures var tr' := AfterPost(tr);
            var i := j - Gone(tr', d);
            i < |tr'.ch.queues[d]| && tr'.ch.queues[d][i] == CellOf(tr', tr'.acc[d][j])
  {
    assert HandOk(tr, d);
    if j < |tr.acc[d]| {
      assert Waits(tr, d, j);
    }
  }

  lemma PostBase(tr: Trace)
    requires Base(tr) && tr.sender.Posting?
    ensures Base(AfterPost(tr))
  {
    PostOrdered(tr);
    PostHands(tr);
    PostInLine(tr);
    CellsKept(tr, AfterPost(tr));
  }

  // Receives

  /** Steps that touch no cell and make no attempt. */
  lemma CellsKept(tr: Trace, tr': Trace)
    requires Base(tr) && WfTrace(tr') && tr'.ch.slots == tr.ch.slots && tr'.ch.cells == tr.ch.cells
    requires tr'.sent == tr.sent && tr'.clears == tr.clears
    ensures RecentHeld(tr') && Marked(tr')
  {
    forall k: nat | Recent(tr', k)
      ensures tr'.ch.cells[CellOf(tr', k)].valid <==> !Cleared(tr', k)
    {
      assert Recent(tr, k);
      SameClears(tr, tr', k);
    }
    forall k: nat | Recent(tr', k)
      ensures var m := tr'.ch.cells[CellOf(tr', k)]; m.valid ==> Holds(m, tr'.sent[k])
    {
      assert Recent(tr, k);
    }
  }

  lemma TakeBase(tr: Trace, me: nat)
    requires Base(tr) && me < 2 && tr.hands[me].Free? && tr.ch.queues[me] != []
    ensures Base(AfterTake(tr, me))
  {
    CellsKept(tr, AfterTake(tr, me));
    TakeQueued(tr, me);
  }

  lemma TakeQueued(tr: Trace, me: nat)
    requires WfTrace(tr) && Queued(tr) && me < 2 && tr.hands[me].Free? && tr.ch.queues[me] != []
    ensures Queued(AfterTake(tr, me))
  {
    var tr' := AfterTake(tr, me);
    assert Waits(tr, me, |tr.got[me]|);
    forall d: nat, j: nat | Waits(tr', d, j)
      ensures tr'.ch.queues[d][j - Gone(tr', d)] == CellOf(tr', tr'.acc[d][j])
    {
      assert Waits(tr, d, j);
    }
  }

  lemma CopyBase(tr: Trace, me: nat, cap: nat)
    requires Base(tr) && me < 2 && tr.hands[me].Took?
    ensures Base(AfterCopy(tr, me, cap))
  {
    CellsKept(tr, AfterCopy(tr, me, cap));
    CopyQueued(tr, me, cap);
  }

  lemma CopyQueued(tr: Trace, me: nat, cap: nat)
    requires WfTrace(tr) && Queued(tr) && me < 2 && tr.hands[me].Took?
    ensures Queued(AfterCopy(tr, me, cap))
  {
    var tr' := AfterCopy(tr, me, cap);
    forall d: nat, j: nat | Waits(tr', d, j)
      ensures tr'.ch.queues[d][j - Gone(tr', d)] == CellOf(tr', tr'.acc[d][j])
    {
      assert Waits(tr, d, j);
    }
  }

  lemma ClearQueued(tr: Trace, me: nat)
    requires WfTrace(tr) && Queued(tr) && me < 2 && tr.hands[me].Copied?
    ensures Queued(AfterClear(tr, me))
  {
    var tr' := AfterClear(tr, me);
    forall d: nat, j: nat | Waits(tr', d, j)
      ensures tr'.ch.queues[d][j - Gone(tr', d)] == CellOf(tr', tr'.acc[d][j])
    {
      assert Waits(tr, d, j);
    }
  }

  /** What a clearing adds: every attempt made so far on the cell. */
  lemma ClearAdds(tr: Trace, me: nat, k: nat)
    requires Base(tr) && me < 2 && tr.hands[me].Copied? && k < |tr.sent|
    ensures Cleared(AfterClear(tr, me), k) <==> Cleared(tr, k) || CellOf(tr, k) == tr.hands[me].toClear
  {
    var tr' := AfterClear(tr, me);
    if Cleared(tr, k) {
      var i: nat :| ClearsIt(tr, i, k);
      assert ClearsIt(tr', i, k);
    }
    if CellOf(tr, k) == tr.hands[me].toClear {
      assert ClearsIt(tr', |tr.clears|, k);
    }
    if Cleared(tr', k) {
      var i: nat :| ClearsIt(tr', i, k);
      assert i < |tr.clears| ==> ClearsIt(tr, i, k);
    }
  }

  lemma ClearBase(tr: Trace, me: nat)
    requires Base(tr) && me < 2 && tr.hands[me].Copied?
    ensures Base(AfterClear(tr, me))
  {
    var tr' := AfterClear(tr, me);
    ClearQueued(tr, me);
    forall k: nat | Recent(tr', k)
      ensures tr'.ch.cells[CellOf(tr', k)].valid <==> !Cleared(tr', k)
    {
      assert Recent(tr, k);
      ClearAdds(tr, me, k);
    }
    forall k: nat | Recent(tr', k)
      ensures var m := tr'.ch.cells[CellOf(tr', k)]; m.valid ==> Holds(m, tr'.sent[k])
    {
      assert Recent(tr, k);
    }
  }

  lemma StepBase(tr: Trace, e: Event)
    requires Base(tr) && EventOk(e)
    ensures Base(Step(tr, e))
  {
    match e
    case Write(to, buf) => if tr.sender.Resting? { WriteBase(tr, to, buf); }
    case Post => if tr.sender.Posting? { PostBase(tr); }
    case Take(me) => if tr.hands[me].Free? && tr.ch.queues[me] != [] { TakeBase(tr, me); }
    case Copy(me, cap) => if tr.hands[me].Took? { CopyBase(tr, me, cap); }
    case Clear(me) => if tr.hands[me].Copied? { ClearBase(tr, me); }
  }

  lemma {:induction false} RunBase(tr: Trace, es: seq<Event>)
    requires Base(tr) && AllOk(es)
    ensures Base(Run(tr, es))
    decreases |es|
  {
    if es != [] {
      StepBase(tr, es[0]);
      RunBase(Step(tr, es[0]), es[1..]);
    }
  }

  lemma FreshBase(slots: nat, memory: seq<seq<byte>>)
    requires CleanSlate(slots, memory)
    ensures Base(Fresh(slots, memory))
  {
  }

  // ---------------------------------------------------------------------
  // What a receive returns, in every run
  // ---------------------------------------------------------------------

  /** The latest attempt before n on the cell of attempt a. */
  ghost function Latest(pool: nat, a: nat, n: nat): (k: nat)
    requires pool >= 1 && a < n
    ensures a <= k < n <= k + pool && Cell(pool, k) == Cell(pool, a) && (n <= a + pool <==> k == a)
    decreases n - a
  {
    if n <= a + pool then a
    else
      CellLap(pool, a);
      Latest(pool, a + pool, n)
  }

  lemma CellLap(pool: nat, a: nat)
    requires pool >= 1
    ensures Cell(pool, a + pool) == Cell(pool, a)
  {
  }

  /** The attempt whose message process me has taken and not yet copied. */
  ghost function Taken(tr: Trace, me: nat): (a: nat)
    requires Base(tr) && me < 2 && tr.hands[me].Took?
    ensures a < |tr.sent|
  {
    tr.acc[me][|tr.got[me]|]
  }

  /**
    Any run, however late its receives: the copy returns the payload of the
    latest attempt on the cell, or nothing if the cell was cleared since.
   */
  lemma CopiesExactly(tr: Trace, me: nat, cap: nat)
    requires Base(tr) && me < 2 && tr.hands[me].Took?
    ensures var k := Latest(Pool(tr.ch.slots), Taken(tr, me), |tr.sent|);
            Look(tr.ch.cells[tr.hands[me].toCopy], cap) == if Cleared(tr, k) then [] else Prefix(tr.sent[k], cap)
  {
    var k := Latest(Pool(tr.ch.slots), Taken(tr, me), |tr.sent|);
    assert Recent(tr, k);
    var m := tr.ch.cells[CellOf(tr, k)];
    assert HandOk(tr, me);
    if m.valid {
      assert m.data[..m.size][..Min(m.size, cap)] == m.data[..Min(m.size, cap)];
    }
  }

  /**
    A receive returns its own message exactly when no later attempt took the
    cell and no receive cleared the cell since the message was written.  (Two
    attempts with the same bytes cannot be told apart; so the payload is taken
    to differ from the later ones.)
   */
  lemma IntactExactly(slots: nat, memory: seq<seq<byte>>, es: seq<Event>, me: nat, cap: nat)
    requires CleanSlate(slots, memory) && AllOk(es) && me < 2
    requires Run(Fresh(slots, memory), es).hands[me].Took?
    ensures Base(Run(Fresh(slots, memory), es))
    ensures var tr := Run(Fresh(slots, memory), es);
            var a := Taken(tr, me);
            (&& Prefix(tr.sent[a], cap) != []
             && forall k :: a < k < |tr.sent| ==> Prefix(tr.sent[k], cap) != Prefix(tr.sent[a], cap))
            ==> (Look(tr.ch.cells[tr.hands[me].toCopy], cap) == Prefix(tr.sent[a], cap)
                 <==> Recent(tr, a) && !Cleared(tr, a))
  {
    FreshBase(slots, memory);
    RunBase(Fresh(slots, memory), es);
    CopiesExactly(Run(Fresh(slots, memory), es), me, cap);
  }

  // ---------------------------------------------------------------------
  // Timely runs
  // ---------------------------------------------------------------------

  /** Messages for d fully received. */
  ghost function Done(tr: Trace, d: nat): nat
    requires WfTrace(tr) && d < 2
  {
    if tr.hands[d].Copied? && tr.got[d] != [] then |tr.got[d]| - 1 else |tr.got[d]|
  }

  /** The message a process copies or clears was sent less than a lap of the pool ago. */
  ghost predicate Timely(tr: Trace, e: Event)
    requires WfTrace(tr) && EventOk(e)
  {
    match e
    case Write(_, _) => true
    case Post => true
    case Take(_) => true
    case Copy(me, _) =>
      tr.hands[me].Took? && |tr.got[me]| < |tr.acc[me]| ==> Recent(tr, tr.acc[me][|tr.got[me]|])
    case Clear(me) =>
      tr.hands[me].Copied? && 1 <= |tr.got[me]| <= |tr.acc[me]| ==> Recent(tr, tr.acc[me][|tr.got[me]| - 1])
  }

  ghost predicate TimelyAlong(tr: Trace, es: seq<Event>)
    requires WfTrace(tr) && AllOk(es)
    decreases |es|
  {
    es == [] || (Timely(tr, es[0]) && TimelyAlong(Step(tr, es[0]), es[1..]))
  }

  /** Received message j for d is what was accepted, up to the receiver's buffer. */
  ghost predicate Delivered(tr: Trace, d: nat, j: nat)
    requires WfTrace(tr) && d < 2 && j < |tr.got[d]|
  {
    && j < |tr.acc[d]| && j < |tr.caps[d]| && tr.acc[d][j] < |tr.sent|
    && tr.got[d][j] == Prefix(tr.sent[tr.acc[d][j]], tr.caps[d][j])
  }

  ghost predicate Faithful(tr: Trace)
    requires WfTrace(tr)
  {
    forall d: nat, j: nat :: d < 2 && j < |tr.got[d]| ==> Delivered(tr, d, j)
  }

  /** Nothing cleared the cell of a message not yet fully received, or not yet posted. */
  ghost predicate Unspoilt(tr: Trace)
    requires WfTrace(tr)
  {
    && (tr.sender.Posting? ==> !Cleared(tr, |tr.ok|))
    && (forall d: nat, j: nat :: d < 2 && Done(tr, d) <= j < |tr.acc[d]| && Recent(tr, tr.acc[d][j]) ==>
          !Cleared(tr, tr.acc[d][j]))
  }

  ghost predicate Finished(tr: Trace, k: nat)
    requires WfTrace(tr)
  {
    exists d: nat, j: nat :: d < 2 && j < Done(tr, d) && j < |tr.acc[d]| && tr.acc[d][j] == k
  }

  /** Each clearing was timely, of a message then finished; each finished message was cleared. */
  ghost predicate CleanedUp(tr: Trace)
    requires WfTrace(tr)
  {
    && (forall i :: 0 <= i < |tr.clears| ==>
          var w := tr.clears[i]; w.attempt < w.time <= w.attempt + Pool(tr.ch.slots) && Finished(tr, w.attempt))
    && (forall d: nat, j: nat :: d < 2 && j < Done(tr, d) && j < |tr.acc[d]| ==> Cleared(tr, tr.acc[d][j]))
  }

  ghost predicate Inv(tr: Trace) {
    Base(tr) && Faithful(tr) && Unspoilt(tr) && CleanedUp(tr)
  }

  lemma FinishedStays(tr: Trace, tr': Trace, k: nat)
    requires WfTrace(tr) && WfTrace(tr') && Finished(tr, k)
    requires forall d :: 0 <= d < 2 ==> Done(tr, d) <= Done(tr', d) && tr.acc[d] <= tr'.acc[d]
    ensures Finished(tr', k)
  {
    var d: nat, j: nat :| d < 2 && j < Done(tr, d) && j < |tr.acc[d]| && tr.acc[d][j] == k;
    assert tr'.acc[d][j] == k;
  }

  lemma WriteInv(tr: Trace, to: nat, buf: seq<byte>)
    requires Inv(tr) && tr.sender.Resting? && to < 2 && |buf| < MAX_SHARED_OBJ_SIZE
    ensures Inv(AfterWrite(tr, to, buf))
  {
    WriteBase(tr, to, buf);
    FaithfulKept(tr, AfterWrite(tr, to, buf));
    WriteUnspoilt(tr, to, buf);
    SendCleaned(tr, AfterWrite(tr, to, buf));
  }

  /** A new attempt is cleared by no clearing of the past. */
  lemma WriteUnspoilt(tr: Trace, to: nat, buf: seq<byte>)
    requires WfTrace(tr) && Marked(tr) && Ordered(tr) && Unspoilt(tr)
    requires tr.sender.Resting? && to < 2 && |buf| < MAX_SHARED_OBJ_SIZE
    ensures Unspoilt(AfterWrite(tr, to, buf))
  {
    var tr' := AfterWrite(tr, to, buf);
    SameClears(tr, tr', |tr.ok|);
    forall d: nat, j: nat | d < 2 && Done(tr', d) <= j < |tr'.acc[d]| && Recent(tr', tr'.acc[d][j])
      ensures !Cleared(tr', tr'.acc[d][j])
    {
      SameClears(tr, tr', tr.acc[d][j]);
      assert Recent(tr, tr.acc[d][j]);
    }
  }

  lemma PostInv(tr: Trace)
    requires Inv(tr) && tr.sender.Posting?
    ensures Inv(AfterPost(tr))
  {
    PostBase(tr);
    FaithfulKept(tr, AfterPost(tr));
    PostUnspoilt(tr);
    SendCleaned(tr, AfterPost(tr));
  }

  lemma PostUnspoilt(tr: Trace)
    requires WfTrace(tr) && Unspoilt(tr) && tr.sender.Posting?
    ensures Unspoilt(AfterPost(tr))
  {
    var tr' := AfterPost(tr);
    forall d: nat, j: nat | d < 2 && Done(tr', d) <= j < |tr'.acc[d]| && Recent(tr', tr'.acc[d][j])
      ensures !Cleared(tr', tr'.acc[d][j])
    {
      SameClears(tr, tr', tr'.acc[d][j]);
      if j < |tr.acc[d]| {
        assert Recent(tr, tr.acc[d][j]);
      }
    }
  }

  lemma SendCleaned(tr: Trace, tr': Trace)
    requires WfTrace(tr) && HandOk(tr, 0) && HandOk(tr, 1) && CleanedUp(tr) && WfTrace(tr')
    requires tr'.clears == tr.clears && tr'.ch.slots == tr.ch.slots && tr'.hands == tr.hands && tr'.got == tr.got
    requires tr.acc[0] <= tr'.acc[0] && tr.acc[1] <= tr'.acc[1]
    ensures CleanedUp(tr')
  {
    SameCleaned(tr, tr');
  }

  /** Steps that finish no message and clear nothing. */
  lemma SameCleaned(tr: Trace, tr': Trace)
    requires WfTrace(tr) && CleanedUp(tr) && WfTrace(tr') && tr'.clears == tr.clears && tr'.ch.slots == tr.ch.slots
    requires forall d :: 0 <= d < 2 ==> Done(tr', d) == Done(tr, d) <= |tr.acc[d]| && tr.acc[d] <= tr'.acc[d]
    ensures CleanedUp(tr')
  {
    forall i | 0 <= i < |tr'.clears|
      ensures Finished(tr', tr'.clears[i].attempt)
    {
      FinishedStays(tr, tr', tr.clears[i].attempt);
    }
    forall d: nat, j: nat | d < 2 && j < Done(tr', d) && j < |tr'.acc[d]|
      ensures Cleared(tr', tr'.acc[d][j])
    {
      assert tr'.acc[d][j] == tr.acc[d][j];
      SameClears(tr, tr', tr.acc[d][j]);
    }
  }

  lemma TakeInv(tr: Trace, me: nat)
    requires Inv(tr) && me < 2 && tr.hands[me].Free? && tr.ch.queues[me] != []
    ensures Inv(AfterTake(tr, me))
  {
    TakeBase(tr, me);
    FaithfulKept(tr, AfterTake(tr, me));
    UnspoiltKept(tr, AfterTake(tr, me));
    SameCleaned(tr, AfterTake(tr, me));
  }

  lemma FaithfulKept(tr: Trace, tr': Trace)
    requires WfTrace(tr) && Faithful(tr) && WfTrace(tr')
    requires tr'.got == tr.got && tr'.caps == tr.caps && tr.sent <= tr'.sent
    requires tr.acc[0] <= tr'.acc[0] && tr.acc[1] <= tr'.acc[1]
    ensures Faithful(tr')
  {
    forall d: nat, j: nat | d < 2 && j < |tr'.got[d]|
      ensures Delivered(tr', d, j)
    {
      assert Delivered(tr, d, j);
    }
  }

  lemma UnspoiltKept(tr: Trace, tr': Trace)
    requires WfTrace(tr) && Unspoilt(tr) && WfTrace(tr') && tr'.clears == tr.clears && tr'.ch.slots == tr.ch.slots
    requires tr'.sent == tr.sent && tr'.acc == tr.acc && tr'.sender == tr.sender
    requires forall d :: 0 <= d < 2 ==> Done(tr', d) == Done(tr, d)
    ensures Unspoilt(tr')
  {
    SameClears(tr, tr', |tr.ok|);
    forall d: nat, j: nat | d < 2 && Done(tr', d) <= j < |tr'.acc[d]| && Recent(tr', tr'.acc[d][j])
      ensures !Cleared(tr', tr'.acc[d][j])
    {
      assert Recent(tr, tr.acc[d][j]);
      SameClears(tr, tr', tr.acc[d][j]);
    }
  }

  /** A timely copy finds its own message. */
  lemma CopyReturns(tr: Trace, me: nat, cap: nat)
    requires Inv(tr) && me < 2 && tr.hands[me].Took? && Recent(tr, Taken(tr, me))
    ensures tr.ch.cells[tr.hands[me].toCopy].valid
    ensures Look(tr.ch.cells[tr.hands[me].toCopy], cap) == Prefix(tr.sent[Taken(tr, me)], cap)
  {
    assert HandOk(tr, me);
    assert !Cleared(tr, Taken(tr, me));
    CopiesExactly(tr, me, cap);
  }

  lemma CopyInv(tr: Trace, me: nat, cap: nat)
    requires Inv(tr) && me < 2 && tr.hands[me].Took? && Recent(tr, Taken(tr, me))
    ensures Inv(AfterCopy(tr, me, cap))
  {
    CopyBase(tr, me, cap);
    CopyReturns(tr, me, cap);
    CopyFaithful(tr, me, cap);
    CopyDone(tr, me, cap);
    UnspoiltKept(tr, AfterCopy(tr, me, cap));
    SameCleaned(tr, AfterCopy(tr, me, cap));
  }

  lemma CopyFaithful(tr: Trace, me: nat, cap: nat)
    requires WfTrace(tr) && Faithful(tr) && me < 2 && tr.hands[me].Took? && HandOk(tr, me)
    requires tr.acc[me][|tr.got[me]|] < |tr.sent|
    requires Look(tr.ch.cells[tr.hands[me].toCopy], cap) == Prefix(tr.sent[tr.acc[me][|tr.got[me]|]], cap)
    ensures Faithful(AfterCopy(tr, me, cap))
  {
    var tr' := AfterCopy(tr, me, cap);
    forall d: nat, j: nat | d < 2 && j < |tr'.got[d]|
      ensures Delivered(tr', d, j)
    {
      if d != me || j < |tr.got[d]| {
        assert Delivered(tr, d, j);
      }
    }
  }

  /** Copying a valid cell finishes nothing yet. */
  lemma CopyDone(tr: Trace, me: nat, cap: nat)
    requires WfTrace(tr) && me < 2 && tr.hands[me].Took? && tr.ch.cells[tr.hands[me].toCopy].valid
    requires HandOk(tr, 0) && HandOk(tr, 1)
    ensures forall d :: 0 <= d < 2 ==> Done(AfterCopy(tr, me, cap), d) == Done(tr, d) <= |tr.acc[d]|
  {
  }

  /** The attempt whose cell process me has copied and not yet cleared. */
  ghost function InHand(tr: Trace, me: nat): (a: nat)
    requires Base(tr) && me < 2 && tr.hands[me].Copied?
    ensures a < |tr.sent|
  {
    tr.acc[me][|tr.got[me]| - 1]
  }

  /** One more message of me is finished, and none of the other. */
  lemma ClearDone(tr: Trace, me: nat)
    requires WfTrace(tr) && me < 2 && tr.hands[me].Copied? && HandOk(tr, 0) && HandOk(tr, 1)
    ensures forall d :: 0 <= d < 2 ==> Done(tr, d) <= |tr.acc[d]|
    ensures forall d :: 0 <= d < 2 ==> Done(AfterClear(tr, me), d) == Done(tr, d) + if d == me then 1 else 0
    ensures tr.acc[me][Done(tr, me)] == tr.acc[me][|tr.got[me]| - 1]
  {
  }

  lemma OneAttemptEach(tr: Trace, me: nat, i: nat, d: nat, j: nat)
    requires WfTrace(tr) && Ordered(tr) && me < 2 && d < 2 && i < |tr.acc[me]| && j < |tr.acc[d]| && (d != me || i != j)
    ensures tr.acc[me][i] != tr.acc[d][j]
  {
    if d == me && i < j {
      assert tr.acc[me][i] < tr.acc[me][j];
    } else if d == me {
      assert tr.acc[me][j] < tr.acc[me][i];
    }
  }

  /** The other messages still to be received use other cells. */
  lemma OtherUncleared(tr: Trace, me: nat, k: nat)
    requires Base(tr) && me < 2 && tr.hands[me].Copied? && Recent(tr, InHand(tr, me))
    requires Recent(tr, k) && k != InHand(tr, me) && !Cleared(tr, k)
    ensures !Cleared(AfterClear(tr, me), k)
  {
    assert HandOk(tr, me);
    RecentCells(tr, k, InHand(tr, me));
    ClearAdds(tr, me, k);
  }

  lemma ClearUnspoilt(tr: Trace, me: nat)
    requires Inv(tr) && me < 2 && tr.hands[me].Copied? && Recent(tr, InHand(tr, me))
    ensures Unspoilt(AfterClear(tr, me))
  {
    var tr' := AfterClear(tr, me);
    ClearDone(tr, me);
    if tr.sender.Posting? {
      NewUnspoilt(tr, me);
    }
    forall d: nat, j: nat | d < 2 && Done(tr', d) <= j < |tr'.acc[d]| && Recent(tr', tr'.acc[d][j])
      ensures !Cleared(tr', tr'.acc[d][j])
    {
      OtherUnspoilt(tr, me, d, j);
    }
  }

  lemma NewUnspoilt(tr: Trace, me: nat)
    requires Base(tr) && Unspoilt(tr) && me < 2 && tr.hands[me].Copied? && Recent(tr, InHand(tr, me))
    requires tr.sender.Posting?
    ensures !Cleared(AfterClear(tr, me), |tr.ok|)
  {
    assert HandOk(tr, me);
    assert InHand(tr, me) < |tr.ok| && Recent(tr, |tr.ok|);
    OtherUncleared(tr, me, |tr.ok|);
  }

  lemma OtherUnspoilt(tr: Trace, me: nat, d: nat, j: nat)
    requires Base(tr) && Unspoilt(tr) && me < 2 && tr.hands[me].Copied? && Recent(tr, InHand(tr, me))
    requires d < 2 && Done(tr, d) + (if d == me then 1 else 0) <= j < |tr.acc[d]| && Recent(tr, tr.acc[d][j])
    ensures !Cleared(AfterClear(tr, me), tr.acc[d][j])
  {
    assert HandOk(tr, me);
    OneAttemptEach(tr, me, |tr.got[me]| - 1, d, j);
    OtherUncleared(tr, me, tr.acc[d][j]);
  }

  lemma ClearFinishes(tr: Trace, me: nat, k: nat)
    requires WfTrace(tr) && me < 2 && tr.hands[me].Copied? && HandOk(tr, 0) && HandOk(tr, 1)
    requires Finished(tr, k) || k == tr.acc[me][|tr.got[me]| - 1]
    ensures Finished(AfterClear(tr, me), k)
  {
    var tr' := AfterClear(tr, me);
    ClearDone(tr, me);
    if Finished(tr, k) {
      FinishedStays(tr, tr', k);
    } else {
      assert tr'.acc[me][Done(tr, me)] == k;
    }
  }

  lemma ClearTimes(tr: Trace, me: nat)
    requires WfTrace(tr) && CleanedUp(tr) && me < 2 && tr.hands[me].Copied? && HandOk(tr, 0) && HandOk(tr, 1)
    requires Recent(tr, tr.acc[me][|tr.got[me]| - 1])
    ensures var tr' := AfterClear(tr, me);
            forall i :: 0 <= i < |tr'.clears| ==>
              var w := tr'.clears[i]; w.attempt < w.time <= w.attempt + Pool(tr.ch.slots) && Finished(tr', w.attempt)
  {
    var tr' := AfterClear(tr, me);
    forall i | 0 <= i < |tr'.clears|
      ensures var w := tr'.clears[i];
              w.attempt < w.time <= w.attempt + Pool(tr.ch.slots) && Finished(tr', w.attempt)
    {
      assert i < |tr.clears| ==> Finished(tr, tr.clears[i].attempt);
      ClearFinishes(tr, me, tr'.clears[i].attempt);
    }
  }

  lemma ClearCleaned(tr: Trace, me: nat)
    requires Inv(tr) && me < 2 && tr.hands[me].Copied? && Recent(tr, InHand(tr, me))
    ensures CleanedUp(AfterClear(tr, me))
  {
    var tr' := AfterClear(tr, me);
    ClearDone(tr, me);
    ClearTimes(tr, me);
    forall d: nat, j: nat | d < 2 && j < Done(tr', d) && j < |tr'.acc[d]|
      ensures Cleared(tr', tr'.acc[d][j])
    {
      ClearedNow(tr, me, d, j);
    }
  }

  /** A clearing keeps what was cleared, and adds the message in hand. */
  lemma ClearedNow(tr: Trace, me: nat, d: nat, j: nat)
    requires Inv(tr) && me < 2 && d < 2 && tr.hands[me].Copied? && j < |tr.acc[d]|
    requires j < Done(tr, d) || (d == me && j == |tr.got[me]| - 1)
    ensures Cleared(AfterClear(tr, me), tr.acc[d][j])
  {
    assert tr.acc[d][j] < |tr.ok|;
    assert j < Done(tr, d) ==> Cleared(tr, tr.acc[d][j]);
    ClearAdds(tr, me, tr.acc[d][j]);
  }

  lemma ClearInv(tr: Trace, me: nat)
    requires Inv(tr) && me < 2 && tr.hands[me].Copied? && Recent(tr, InHand(tr, me))
    ensures Inv(AfterClear(tr, me))
  {
    ClearBase(tr, me);
    ClearUnspoilt(tr, me);
    ClearCleaned(tr, me);
    FaithfulKept(tr, AfterClear(tr, me));
  }

  /** Writes, posts accepted or refused, takes, and timely copies and clearings keep the invariant. */
  lemma StepInv(tr: Trace, e: Event)
    requires Inv(tr) && EventOk(e) && Timely(tr, e)
    ensures Inv(Step(tr, e))
  {
    match e
    case Write(to, buf) => if tr.sender.Resting? { WriteInv(tr, to, buf); }
    case Post => if tr.sender.Posting? { PostInv(tr); }
    case Take(me) => if tr.hands[me].Free? && tr.ch.queues[me] != [] { TakeInv(tr, me); }
    case Copy(me, cap) => StepCopy(tr, me, cap);
    case Clear(me) => StepClear(tr, me);
  }

  lemma StepCopy(tr: Trace, me: nat, cap: nat)
    requires Inv(tr) && me < 2 && Timely(tr, Copy(me, cap))
    ensures Inv(Step(tr, Copy(me, cap)))
  {
    if tr.hands[me].Took? {
      assert HandOk(tr, me);
      CopyInv(tr, me, cap);
    }
  }

  lemma StepClear(tr: Trace, me: nat)
    requires Inv(tr) && me < 2 && Timely(tr, Clear(me))
    ensures Inv(Step(tr, Clear(me)))
  {
    if tr.hands[me].Copied? {
      assert HandOk(tr, me);
      ClearInv(tr, me);
    }
  }

  lemma {:induction false} RunInv(tr: Trace, es: seq<Event>)
    requires Inv(tr) && AllOk(es) && TimelyAlong(tr, es)
    ensures Inv(Run(tr, es))
    decreases |es|
  {
    if es != [] {
      StepInv(tr, es[0]);
      RunInv(Step(tr, es[0]), es[1..]);
    }
  }

  lemma FreshInv(slots: nat, memory: seq<seq<byte>>)
    requires CleanSlate(slots, memory)
    ensures Inv(Fresh(slots, memory))
  {
    FreshBase(slots, memory);
  }

  /**
    Both directions, any interleaving of the steps of sends and receives,
    refused sends included: if each message is cleared before 2 * slots further
    sends have written their cells, each receiver gets the accepted messages
    one by one, in order, each in full or up to its buffer.
   */
  lemma Delivery(slots: nat, memory: seq<seq<byte>>, es: seq<Event>, d: nat)
    requires CleanSlate(slots, memory) && AllOk(es) && d < 2
    requires TimelyAlong(Fresh(slots, memory), es)
    ensures var tr := Run(Fresh(slots, memory), es);
            && (forall j: nat :: j < |tr.got[d]| ==> Delivered(tr, d, j))
            && (forall i, j :: 0 <= i < j < |tr.acc[d]| ==> tr.acc[d][i] < tr.acc[d][j])
  {
    FreshInv(slots, memory);
    RunInv(Fresh(slots, memory), es);
  }

  // ---------------------------------------------------------------------
  // Calls with nothing in between
  // ---------------------------------------------------------------------

  function Send(to: nat, buf: seq<byte>): seq<Event> {
    [Write(to, buf), Post]
  }

  ghost function AfterSend(tr: Trace, to: nat, buf: seq<byte>): (tr': Trace)
    requires WfTrace(tr) && tr.sender.Resting? && to < 2 && |buf| < MAX_SHARED_OBJ_SIZE
    ensures WfTrace(tr') && tr'.sender.Resting?
  {
    AfterPost(AfterWrite(tr, to, buf))
  }

  /** The two halves of a send in a row are the whole call. */
  lemma SendIsTx(tr: Trace, to: nat, buf: seq<byte>)
    requires WfTrace(tr) && tr.sender.Resting? && to < 2 && |buf| < MAX_SHARED_OBJ_SIZE
    ensures Run(tr, Send(to, buf)) == AfterSend(tr, to, buf)
    ensures AfterSend(tr, to, buf).ch == Tx(tr.ch, to, buf).0
    ensures AfterSend(tr, to, buf).ok == tr.ok + [Tx(tr.ch, to, buf).1]
    ensures Base(tr) ==> Base(AfterSend(tr, to, buf))
  {
    var t1 := AfterWrite(tr, to, buf);
    assert Send(to, buf)[1..] == [Post] && [Post][1..] == [];
    assert Run(AfterPost(t1), []) == AfterPost(t1);
    assert Run(t1, [Post]) == AfterPost(t1);
    if Base(tr) {
      WriteBase(tr, to, buf);
      PostBase(t1);
    }
  }

  function Whole(me: nat, cap: nat): seq<Event> {
    [Take(me), Copy(me, cap), Clear(me)]
  }

  lemma RunThree(tr: Trace, e: Event, f: Event, g: Event)
    requires WfTrace(tr) && EventOk(e) && EventOk(f) && EventOk(g)
    ensures Run(tr, [e, f, g]) == Step(Step(Step(tr, e), f), g)
  {
    assert [e, f, g][1..] == [f, g] && [f, g][1..] == [g] && [g][1..] == [];
    var tr3 := Step(Step(Step(tr, e), f), g);
    assert Run(tr3, []) == tr3;
    assert Run(Step(Step(tr, e), f), [g]) == tr3;
    assert Run(Step(tr, e), [f, g]) == tr3;
  }

  /** The three steps in a row are the whole call. */
  lemma WholeIsRx(tr: Trace, me: nat, cap: nat)
    requires Base(tr) && me < 2 && tr.hands[me].Free?
    ensures var tr' := Run(tr, Whole(me, cap));
            && tr'.ch == Rx(tr.ch, me, cap).0 && tr'.hands == tr.hands && tr'.acc == tr.acc && tr'.sent == tr.sent
            && tr'.sender == tr.sender
            && tr'.got == if tr.ch.queues[me] == [] then tr.got else tr.got[me := tr.got[me] + [Rx(tr.ch, me, cap).1]]
  {
    RunThree(tr, Take(me), Copy(me, cap), Clear(me));
    assert HandOk(tr, me);
    if tr.ch.queues[me] != [] {
      var t2 := TakenAndCopied(tr, me, cap);
      ThenCleared(t2, me);
      assert tr.hands[me := Free] == tr.hands;
    }
  }

  lemma ThenCleared(t2: Trace, me: nat)
    requires WfTrace(t2) && me < 2 && !t2.hands[me].Took? && 1 <= |t2.got[me]| <= |t2.acc[me]|
    ensures var t3 := Step(t2, Clear(me));
            && t3 == t2.(ch := t3.ch, hands := t2.hands[me := Free], clears := t3.clears)
            && t3.ch == if t2.hands[me].Copied? then Wipe(t2.ch, t2.hands[me].toClear) else t2.ch
  {
    assert t2.hands[me].Free? ==> t2.hands[me := Free] == t2.hands;
  }

  lemma TakenAndCopied(tr: Trace, me: nat, cap: nat) returns (t2: Trace)
    requires WfTrace(tr) && me < 2 && HandOk(tr, me) && tr.hands[me].Free? && tr.ch.queues[me] != []
    ensures t2 == Step(Step(tr, Take(me)), Copy(me, cap)) && t2.ch == TakeOff(tr.ch, me)
    ensures var m := tr.ch.cells[tr.ch.queues[me][0]];
            && t2 == tr.(ch := t2.ch, hands := t2.hands, got := t2.got, caps := t2.caps)
            && t2.got == tr.got[me := tr.got[me] + [Look(m, cap)]]
            && t2.hands == tr.hands[me := if m.valid then Copied(tr.ch.queues[me][0]) else Free]
  {
    t2 := AfterCopy(AfterTake(tr, me), me, cap);
  }

  // ---------------------------------------------------------------------
  // A late receive spoils another
  // ---------------------------------------------------------------------

  /** Two slots: attempt 0 waits for process 0; attempts 1 to n - 1 went to process 1 and were received. */
  ghost predicate Parked(tr: Trace, n: nat) {
    && Base(tr) && tr.sender.Resting? && tr.ch.slots == 2 && |tr.sent| == n >= 1
    && tr.ch.queues[0] == [0] && tr.ch.queues[1] == [] && tr.hands[0].Free? && tr.hands[1].Free?
    && tr.got[0] == [] && |tr.acc[1]| == |tr.got[1]| == n - 1
  }

  lemma {:induction false} RunAppend(tr: Trace, es: seq<Event>, fs: seq<Event>)
    requires WfTrace(tr) && AllOk(es) && AllOk(fs)
    ensures AllOk(es + fs) && Run(tr, es + fs) == Run(Run(tr, es), fs)
    decreases |es|
  {
    if es == [] {
      assert es + fs == fs;
    } else {
      assert (es + fs)[0] == es[0] && (es + fs)[1..] == es[1..] + fs;
      RunAppend(Step(tr, es[0]), es[1..], fs);
    }
  }

  lemma RunOne(tr: Trace, e: Event)
    requires WfTrace(tr) && EventOk(e)
    ensures Run(tr, [e]) == Step(tr, e)
  {
    assert Run(Step(tr, e), []) == Step(tr, e);
  }

  /** Another send to process 1, accepted. */
  lemma SendToOne(tr: Trace, n: nat, buf: seq<byte>) returns (t1: Trace)
    requires Parked(tr, n) && n <= 4 && |buf| < MAX_SHARED_OBJ_SIZE
    ensures t1 == AfterSend(tr, 1, buf) == Run(tr, Send(1, buf)) && Base(t1) && |t1.sent| == n + 1
    ensures t1.sender.Resting?
    ensures t1.ch.slots == 2 && t1.ch.queues[0] == [0] && t1.ch.queues[1] == [if n < 4 then n else 0]
    ensures t1.hands == tr.hands && t1.got == tr.got && t1.ch.cells[if n < 4 then n else 0].valid
    ensures |t1.acc[1]| == n && t1.acc[1][n - 1] == n
    ensures n == 4 ==> Look(t1.ch.cells[0], 9) == Prefix(buf, 9)
  {
    t1 := AfterSend(tr, 1, buf);
    SendIsTx(tr, 1, buf);
    LookBack(tr.ch.cells[tr.ch.top], buf, 9);
  }

  /** A written cell gives back what was written. */
  lemma LookBack(m: Msg, buf: seq<byte>, cap: nat)
    requires CellOk(m) && |buf| < MAX_SHARED_OBJ_SIZE
    ensures CellOk(Overwrite(m, buf)) && Look(Overwrite(m, buf), cap) == Prefix(buf, cap)
  {
    var data := buf + m.data[|buf|..];
    assert data[..Min(|buf|, cap)] == buf[..Min(|buf|, cap)];
  }

  lemma Bounce(tr: Trace, n: nat, buf: seq<byte>)
    requires Parked(tr, n) && n <= 3 && |buf| < MAX_SHARED_OBJ_SIZE
    ensures AllOk(Send(1, buf) + Whole(1, 9)) && Parked(Run(tr, Send(1, buf) + Whole(1, 9)), n + 1)
  {
    var t1 := SendToOne(tr, n, buf);
    RunAppend(tr, Send(1, buf), Whole(1, 9));
    RunBase(t1, Whole(1, 9));
    WholeIsRx(t1, 1, 9);
  }

  /** Attempt 4 takes the cell of attempt 0, and attempt 0 is received, and its cell cleared, only then. */
  lemma LateReceive(tr: Trace, e: seq<byte>) returns (tr': Trace)
    requires Parked(tr, 4) && |e| < MAX_SHARED_OBJ_SIZE
    ensures AllOk(Send(1, e) + Whole(0, 9) + [Take(1)])
    ensures tr' == Run(tr, Send(1, e) + Whole(0, 9) + [Take(1)]) && Base(tr')
    ensures tr'.hands[1] == Took(0) && Taken(tr', 1) == 4 && |tr'.sent| == 5 && !tr'.ch.cells[0].valid
    ensures tr'.got[0] == [Prefix(e, 9)]
  {
    var t4 := LateRound(tr, e);
    RunAppend(tr, Send(1, e) + Whole(0, 9), [Take(1)]);
    tr' := TakeFour(t4);
  }

  lemma LateRound(tr: Trace, e: seq<byte>) returns (t4: Trace)
    requires Parked(tr, 4) && |e| < MAX_SHARED_OBJ_SIZE
    ensures AllOk(Send(1, e) + Whole(0, 9)) && t4 == Run(tr, Send(1, e) + Whole(0, 9)) && Wasted(t4)
    ensures t4.got[0] == [Prefix(e, 9)]
  {
    var t1 := SendToOne(tr, 4, e);
    RunAppend(tr, Send(1, e), Whole(0, 9));
    RunBase(t1, Whole(0, 9));
    WholeIsRx(t1, 0, 9);
    LateWipe(t1.ch);
    t4 := Run(t1, Whole(0, 9));
  }

  lemma LateWipe(ch: Chan)
    requires Wf(ch) && ch.queues[0] == [0] && ch.cells[0].valid
    ensures var ch' := Rx(ch, 0, 9).0; ch'.queues[1] == ch.queues[1] && !ch'.cells[0].valid
    ensures Rx(ch, 0, 9).1 == Look(ch.cells[0], 9)
  {
  }

  /** The message of attempt 4 waits, its cell wiped. */
  ghost predicate Wasted(t: Trace) {
    && Base(t) && |t.sent| == 5 && t.ch.queues[1] == [0] && t.hands[1].Free? && |t.got[1]| == 3
    && |t.acc[1]| == 4 && t.acc[1][3] == 4 && !t.ch.cells[0].valid
  }

  lemma TakeFour(t: Trace) returns (t': Trace)
    requires Wasted(t)
    ensures t' == Run(t, [Take(1)]) && Base(t') && t'.got == t.got
    ensures t'.hands[1] == Took(0) && Taken(t', 1) == 4 && |t'.sent| == 5 && !t'.ch.cells[0].valid
  {
    RunOne(t, Take(1));
    TakeBase(t, 1);
    t' := AfterTake(t, 1);
  }

  lemma FirstParked(memory: seq<seq<byte>>, a: seq<byte>)
    requires CleanSlate(2, memory) && |a| < MAX_SHARED_OBJ_SIZE
    ensures Parked(Run(Fresh(2, memory), Send(0, a)), 1)
  {
    FreshBase(2, memory);
    SendIsTx(Fresh(2, memory), 0, a);
  }

  /**
    Being received within a lap is not enough for a message by itself.  Of five
    sends on a ring of two slots the first is received late, and its clearing
    wipes the fifth, which is then lost although no attempt followed it.
   */
  lemma LateClearSpoils(memory: seq<seq<byte>>, a: seq<byte>, b: seq<byte>, e: seq<byte>, cap: nat)
    returns (es: seq<Event>)
    requires CleanSlate(2, memory)
    requires |a| < MAX_SHARED_OBJ_SIZE && |b| < MAX_SHARED_OBJ_SIZE && |e| < MAX_SHARED_OBJ_SIZE
    ensures AllOk(es) && Base(Run(Fresh(2, memory), es))
    ensures var tr := Run(Fresh(2, memory), es);
            && tr.hands[1].Took? && Taken(tr, 1) == 4 && |tr.sent| == 5 && Recent(tr, 4)
            && Look(tr.ch.cells[tr.hands[1].toCopy], cap) == [] && tr.got[0] == [Prefix(e, 9)]
  {
    var t0, round := Fresh(2, memory), Send(1, b) + Whole(1, 9);
    var t1 := Run(t0, Send(0, a));
    FirstParked(memory, a);
    Bounce(t1, 1, b);
    var t2 := Run(t1, round);
    Bounce(t2, 2, b);
    var t3 := Run(t2, round);
    Bounce(t3, 3, b);
    var last := LateReceive(Run(t3, round), e);
    es := Send(0, a) + (round + (round + (round + (Send(1, e) + Whole(0, 9) + [Take(1)]))));
    RunAppend(t3, round, Send(1, e) + Whole(0, 9) + [Take(1)]);
    RunAppend(t2, round, round + (Send(1, e) + Whole(0, 9) + [Take(1)]));
    RunAppend(t1, round, round + (round + (Send(1, e) + Whole(0, 9) + [Take(1)])));
    RunAppend(t0, Send(0, a), round + (round + (round + (Send(1, e) + Whole(0, 9) + [Take(1)]))));
  }
}
