/**
  Whole calls, from the begin of each to its return, through any number of lost
  compare-and-sets.  A call keeps its own request to the end, and answers it as
  a lone call would have at one instant in between: its last read of the
  opposite tail.
 */
module MpmcCalls {
  import opened Words
  import opened RingSpec
  import opened Mpmc
  import opened MpmcInv
  import opened MpmcTheorems
  import opened MpmcSingle
  import opened Mpmc32
  import opened MpmcProgram

  /** What a thread last saw of the ring: nothing in this call, or the memory at its read of the opposite tail. */
  datatype Sight<T> = Unread | Sight(mem: Mem<T>, stale: bool)

  /** The latest call of a thread: the event that began it, and its last read of the opposite tail since. */
  datatype Diary<T> = Diary(asked: Event<T>, seen: Sight<T>)

  /** The event begins a call: its thread is outside any, and the request is one the machine takes. */
  predicate Begins<T>(s: State<T>, e: Event<T>)
    requires e.t < |s.calls|
  {
    || (e.BeginEnq? && Free(s.calls[e.t]) && 1 <= |e.items| < TWO32)
    || (e.BeginDeq? && Free(s.calls[e.t]) && 1 <= e.want < TWO32)
  }

  /** The call's next access is the read of the opposite tail. */
  predicate AboutToRead<T>(c: Call<T>) {
    (c.Enq? && c.e.pc.SawHead?) || (c.Deq? && c.d.pc.SawHead?)
  }

  function NextDiary<T>(s: State<T>, e: Event<T>, t: nat, d: Diary<T>): Diary<T> {
    if e.t != t || t >= |s.calls| then d
    else if Begins(s, e) then Diary(e, Unread)
    else if AboutToRead(s.calls[t]) && (e.Turn? || e.StaleTurn?) then d.(seen := Sight(s.m, e.StaleTurn?))
    else d
  }

  /** The diary of thread t after the events es from s. */
  function DiaryOf<T>(w: bool, s: State<T>, es: seq<Event<T>>, t: nat, d: Diary<T>): Diary<T>
    requires Wf(s)
    decreases |es|
  {
    if es == [] then d else DiaryOf(w, Step(w, s, es[0]), es[1..], t, NextDiary(s, es[0], t, d))
  }

  function Blank<T>(): Diary<T> { Diary(Turn(0), Unread) }

  lemma {:induction false} DiarySnoc<T>(w: bool, s: State<T>, es: seq<Event<T>>, e: Event<T>, t: nat, d: Diary<T>)
    requires Wf(s)
    ensures Run(w, s, es + [e]) == Step(w, Run(w, s, es), e)
    ensures DiaryOf(w, s, es + [e], t, d) == NextDiary(Run(w, s, es), e, t, DiaryOf(w, s, es, t, d))
    decreases |es|
  {
    var all := es + [e];
    if es == [] {
      assert all[0] == e && all[1..] == [];
    } else {
      assert all[0] == es[0] && all[1..] == es[1..] + [e];
      DiarySnoc(w, Step(w, s, es[0]), es[1..], e, t, NextDiary(s, es[0], t, d));
    }
  }

  // ---------------------------------------------------------------------
  // The answer to a request
  // ---------------------------------------------------------------------

  /** Of `want` entries n are taken where `room` could be: all, else none if fixed, else what there is. */
  predicate Took(want: nat, room: int, beh: Behavior, n: nat) {
    n == if want <= room then want else if beh.Fixed? || room <= 0 then 0 else room
  }

  /** What an enqueue that returned took and returned, had it run alone when `room` entries were free. */
  predicate EnqAnswers<T>(c: EnqCall<T>, slots: nat, watermark: nat, room: int) {
    && Took(|c.items|, room, c.beh, c.n)
    && c.ret == if c.n == 0 then EnqRefusal(c.beh) else EnqReturn(slots, room, c.n, watermark, c.beh)
  }

  predicate DeqAnswers<T>(c: DeqCall<T>, room: int) {
    && Took(c.want, room, c.beh, c.n) && |c.out| == c.n
    && c.ret == if c.n == 0 then DeqRefusal(c.beh) else DeqReturn(c.n, c.beh)
  }

  // ---------------------------------------------------------------------
  // What a call remembers
  // ---------------------------------------------------------------------

  /** The locals of an enqueue, against what its thread was asked and what it last saw. */
  ghost predicate EnqTrue<T>(m: Mem<T>, t: nat, c: EnqCall<T>, d: Diary<T>) {
    && d.asked == BeginEnq(t, c.items, c.beh, c.single) && |c.items| >= 1
    && (c.pc.SawHead? || c.pc.AtCas? ==> c.head <= m.prodHead)
    && (c.pc.AtCas? || InFlight(c.pc) || c.pc.Returned? ==> d.seen.Sight?)
    && (c.pc.AtCas? ==>
          && c.head <= d.seen.mem.prodHead <= m.prodHead && Took(|c.items|, c.free, c.beh, c.n)
          && (c.head == d.seen.mem.prodHead ==> !d.seen.stale && c.free == FreeNow(d.seen.mem)))
    && (InFlight(c.pc) ==>
          !d.seen.stale && c.free == FreeNow(d.seen.mem) && Took(|c.items|, c.free, c.beh, c.n) && c.n >= 1)
    && (c.pc.Waiting? || c.pc.Publishing? ==> c.ret == EnqReturn(m.slots, c.free, c.n, m.watermark, c.beh))
    && (c.pc.Returned? ==>
          || EnqAnswers(c, m.slots, m.watermark, FreeNow(d.seen.mem))
          || (d.seen.stale && c.n == 0 && c.ret == EnqRefusal(c.beh)))
  }

  ghost predicate DeqTrue<T>(m: Mem<T>, t: nat, c: DeqCall<T>, d: Diary<T>) {
    && d.asked == BeginDeq(t, c.want, c.beh, c.single) && c.want >= 1
    && (c.pc.SawHead? || c.pc.AtCas? ==> c.head <= m.consHead)
    && (c.pc.AtCas? || InFlight(c.pc) || c.pc.Returned? ==> d.seen.Sight?)
    && (c.pc.AtCas? ==>
          && c.head <= d.seen.mem.consHead <= m.consHead
          && (c.head == d.seen.mem.consHead ==>
                !d.seen.stale && Took(c.want, EntriesNow(d.seen.mem), c.beh, c.n)))
    && (InFlight(c.pc) ==> !d.seen.stale && Took(c.want, EntriesNow(d.seen.mem), c.beh, c.n) && c.n >= 1)
    && (c.pc.Waiting? || c.pc.Publishing? ==> |c.out| == c.n)
    && (c.pc.Returned? ==>
          || DeqAnswers(c, EntriesNow(d.seen.mem))
          || (d.seen.stale && c.n == 0 && c.out == [] && c.ret == DeqRefusal(c.beh)))
  }

  ghost predicate CallTrue<T>(m: Mem<T>, t: nat, c: Call<T>, d: Diary<T>) {
    match c
    case Idle => d.asked.Turn?
    case Enq(e) => EnqTrue(m, t, e, d)
    case Deq(q) => DeqTrue(m, t, q, d)
  }

  lemma EnqTurnTrue<T>(s: State<T>, t: nat, c: EnqCall<T>, d: Diary<T>)
    requires Wf(s) && t < |s.calls| && s.calls[t] == Enq(c) && HeadCurrent(s.m, s.calls[t]) && EnqTrue(s.m, t, c, d)
    ensures var s' := EnqTurn(false, s, t); CallTrue(s'.m, t, s'.calls[t], NextDiary(s, Turn(t), t, d))
  {
  }

  lemma DeqTurnTrue<T>(s: State<T>, t: nat, c: DeqCall<T>, d: Diary<T>)
    requires Wf(s) && t < |s.calls| && s.calls[t] == Deq(c) && HeadCurrent(s.m, s.calls[t]) && DeqTrue(s.m, t, c, d)
    ensures var s' := DeqTurn(false, s, t); CallTrue(s'.m, t, s'.calls[t], NextDiary(s, Turn(t), t, d))
  {
  }

  lemma StaleTurnTrue<T>(s: State<T>, t: nat, seen: nat, d: Diary<T>)
    requires Wf(s) && t < |s.calls| && CallTrue(s.m, t, s.calls[t], d)
    ensures var s' := StaleStep(s, t, seen); CallTrue(s'.m, t, s'.calls[t], NextDiary(s, StaleTurn(t, seen), t, d))
  {
  }

  /** One event, by thread t or another, keeps t's call true to its diary. */
  lemma StepTrue<T>(s: State<T>, e: Event<T>, t: nat, d: Diary<T>)
    requires Wf(s) && HeadsCurrent(s) && t < |s.calls| && CallTrue(s.m, t, s.calls[t], d)
    ensures var s' := Step(false, s, e); CallTrue(s'.m, t, s'.calls[t], NextDiary(s, e, t, d))
  {
    if e.t != t {
      HeadsGrow(s, e, t);
      SizesStay(s, e);
    } else if e.Turn? {
      assert HeadCurrent(s.m, s.calls[t]);
      match s.calls[t]
      case Idle =>
      case Enq(c) => EnqTurnTrue(s, t, c, d);
      case Deq(c) => DeqTurnTrue(s, t, c, d);
    } else if e.StaleTurn? {
      StaleTurnTrue(s, t, e.seen, d);
    }
  }

  lemma SizesStay<T>(s: State<T>, e: Event<T>)
    requires Wf(s)
    ensures Step(false, s, e).m.slots == s.m.slots && Step(false, s, e).m.watermark == s.m.watermark
  {
  }

  lemma {:induction false} RunTrue<T>(s: State<T>, es: seq<Event<T>>, t: nat, d: Diary<T>)
    requires Wf(s) && HeadsCurrent(s) && AloneAlong(false, s, es)
    requires t < |s.calls| && CallTrue(s.m, t, s.calls[t], d)
    ensures var s' := Run(false, s, es); CallTrue(s'.m, t, s'.calls[t], DiaryOf(false, s, es, t, d))
    ensures Run(false, s, es).m.slots == s.m.slots && Run(false, s, es).m.watermark == s.m.watermark
    decreases |es|
  {
    if es != [] {
      StepTrue(s, es[0], t, d);
      HeadsStayCurrent(s, es[0]);
      SizesStay(s, es[0]);
      RunTrue(Step(false, s, es[0]), es[1..], t, NextDiary(s, es[0], t, d));
    }
  }

  // ---------------------------------------------------------------------
  // Requests and answers, over whole runs
  // ---------------------------------------------------------------------

  predicate HasReturned<T>(c: Call<T>) { (c.Enq? && c.e.pc.Returned?) || (c.Deq? && c.d.pc.Returned?) }

  /** The call is for what its begin asked: same items or count, behaviour and form.  No call, no begin. */
  ghost predicate Serves<T>(c: Call<T>, t: nat, asked: Event<T>) {
    match c
    case Idle => asked.Turn?
    case Enq(e) => asked == BeginEnq(t, e.items, e.beh, e.single)
    case Deq(q) => asked == BeginDeq(t, q.want, q.beh, q.single)
  }

  predicate Answers<T>(c: Call<T>, slots: nat, watermark: nat, free: int, entries: int) {
    match c
    case Idle => true
    case Enq(e) => EnqAnswers(e, slots, watermark, free)
    case Deq(q) => DeqAnswers(q, entries)
  }

  /** The call returned with nothing taken. */
  predicate Refused<T>(c: Call<T>) {
    || (c.Enq? && c.e.pc.Returned? && c.e.n == 0 && c.e.ret == EnqRefusal(c.e.beh))
    || (c.Deq? && c.d.pc.Returned? && c.d.n == 0 && c.d.out == [] && c.d.ret == DeqRefusal(c.d.beh))
  }

  /** The whole request, if fixed, or even one entry of it, finds no room. */
  predicate TooMuch<T>(asked: Event<T>, free: int, entries: int) {
    && (asked.BeginEnq? ==> free < if asked.beh.Fixed? then |asked.items| else 1)
    && (asked.BeginDeq? ==> entries < if asked.beh.Fixed? then asked.want else 1)
  }

  /**
    In every run, single and multi forms mixed within their contract, a call is
    for what its begin asked until the next call begins, however many
    compare-and-sets it loses.  Once returned, it took and returned what a lone
    call would have at the instant of its last read of the opposite tail, or
    refused on a count that was too low because its head was stale.
   */
  lemma CallsAnswer<T>(slots: nat, watermark: nat, ring: seq<T>, threads: nat, es: seq<Event<T>>, t: nat)
    requires 1 <= slots == |ring| && t < threads && AloneAlong(false, Init(slots, watermark, ring, threads), es)
    ensures var s0 := Init(slots, watermark, ring, threads);
            var c, d := Run(false, s0, es).calls[t], DiaryOf(false, s0, es, t, Blank());
            && Serves(c, t, d.asked)
            && (HasReturned(c) ==>
                  && d.seen.Sight?
                  && (|| Answers(c, slots, watermark, FreeNow(d.seen.mem), EntriesNow(d.seen.mem))
                      || (d.seen.stale && Refused(c))))
  {
    RunTrue(Init(slots, watermark, ring, threads), es, t, Blank());
  }

  /**
    A call returns by its own step: a publication of the batch it reserved, or
    the read of the opposite tail, which leaves the ring alone.
   */
  lemma ReturnStep<T>(w: bool, s: State<T>, e: Event<T>, t: nat)
    requires Wf(s) && t < |s.calls| && !Free(s.calls[t]) && HasReturned(Step(w, s, e).calls[t])
    ensures e.t == t && (e.Turn? || e.StaleTurn?)
    ensures AboutToRead(s.calls[t]) ==> Step(w, s, e).m == s.m && Refused(Step(w, s, e).calls[t])
    ensures !AboutToRead(s.calls[t]) ==> e.Turn? && Published(s.calls[t], Step(w, s, e).calls[t])
  {
  }

  /** The call stored its tail and returned. */
  ghost predicate Published<T>(c: Call<T>, c': Call<T>) {
    || (c.Enq? && c.e.pc.Publishing? && c' == Enq(c.e.(pc := Returned)))
    || (c.Deq? && c.d.pc.Publishing? && c'.Deq? && c'.d == c.d.(pc := Returned, ret := c'.d.ret))
  }

  /** A lost compare-and-set: the ring is untouched, and the call starts over with its whole request. */
  lemma LostCas<T>(w: bool, s: State<T>, t: nat)
    requires Wf(s) && t < |s.calls| && LosesCas(s.m, s.calls[t])
    ensures var s' := Step(w, s, Turn(t));
            && s'.m == s.m && !Free(s'.calls[t]) && AboutToRead(Step(w, s', Turn(t)).calls[t])
            && (forall asked :: Serves(s.calls[t], t, asked) ==> Serves(s'.calls[t], t, asked))
  {
  }

  predicate LosesCas<T>(m: Mem<T>, c: Call<T>) {
    || (c.Enq? && c.e.pc.AtCas? && !c.e.single && m.prodHead != c.e.head)
    || (c.Deq? && c.d.pc.AtCas? && !c.d.single && m.consHead != c.d.head)
  }

  lemma {:induction false} AloneSplit<T>(w: bool, s: State<T>, es: seq<Event<T>>, e: Event<T>)
    requires Wf(s) && AloneAlong(w, s, es + [e])
    ensures AloneAlong(w, s, es)
    decreases |es|
  {
    var all := es + [e];
    if es != [] {
      assert all[0] == es[0] && all[1..] == es[1..] + [e];
      AloneSplit(w, Step(w, s, es[0]), es[1..], e);
    }
  }

  lemma RefusedHere<T>(s: State<T>, e: Event<T>, t: nat, d: Diary<T>)
    requires Wf(s) && t < |s.calls| && CallTrue(s.m, t, s.calls[t], d)
    requires !Free(s.calls[t]) && Refused(Step(false, s, e).calls[t])
    ensures e.t == t && AboutToRead(s.calls[t]) && Step(false, s, e).m == s.m
    ensures e.Turn? ==> TooMuch(d.asked, FreeNow(s.m), EntriesNow(s.m))
  {
    ReturnStep(false, s, e, t);
    if e.Turn? && AboutToRead(s.calls[t]) {
      RefusedRead(s, t, d);
    }
  }

  lemma RefusedRead<T>(s: State<T>, t: nat, d: Diary<T>)
    requires Wf(s) && t < |s.calls| && CallTrue(s.m, t, s.calls[t], d)
    requires AboutToRead(s.calls[t]) && Refused(Step(false, s, Turn(t)).calls[t])
    ensures TooMuch(d.asked, FreeNow(s.m), EntriesNow(s.m))
  {
  }

  /**
    A call that returns with nothing taken returns at that very read, and what
    its begin asked for did not fit at that instant.
   */
  lemma RefusedOnTheSpot<T>(slots: nat, watermark: nat, ring: seq<T>, threads: nat, es: seq<Event<T>>, e: Event<T>,
                            t: nat)
    requires 1 <= slots == |ring| && t < threads
    requires AloneAlong(false, Init(slots, watermark, ring, threads), es + [e])
    requires var s := Run(false, Init(slots, watermark, ring, threads), es);
             !Free(s.calls[t]) && Refused(Step(false, s, e).calls[t])
    ensures var s0 := Init(slots, watermark, ring, threads);
            var s, d := Run(false, s0, es), DiaryOf(false, s0, es, t, Blank());
            && Run(false, s0, es + [e]) == Step(false, s, e)
            && e.t == t && AboutToRead(s.calls[t]) && Step(false, s, e).m == s.m
            && (e.Turn? ==> TooMuch(d.asked, FreeNow(s.m), EntriesNow(s.m)))
  {
    var s0 := Init(slots, watermark, ring, threads);
    AloneSplit(false, s0, es, e);
    RunTrue(s0, es, t, Blank());
    DiarySnoc(false, s0, es, e, t, Blank());
    RefusedHere(Run(false, s0, es), e, t, DiaryOf(false, s0, es, t, Blank()));
  }

  // ---------------------------------------------------------------------
  // The program's own runs
  // ---------------------------------------------------------------------

  /** Free space and unreserved entries at this instant, from the wrapped positions. */
  ghost function FreeNow32<T>(w: Mem<T>): int { w.slots - 1 - Wrap(w.prodHead - w.consTail) }

  ghost function EntriesNow32<T>(w: Mem<T>): int { Wrap(w.prodTail - w.consHead) }

  lemma CountsNow32<T>(m: Mem<T>)
    requires MemOk(m)
    ensures FreeNow32(WrapMem(m)) == FreeNow(m) && EntriesNow32(WrapMem(m)) == EntriesNow(m)
  {
    WrapDiff(0, m.prodHead, m.consTail);
    WrapDiff(0, m.prodTail, m.consHead);
  }

  /** The diary of the program, and that of the true positions. */
  ghost predicate SameDiary<T>(d32: Diary<T>, d: Diary<T>) {
    && d32.asked == d.asked && (d32.seen.Sight? <==> d.seen.Sight?)
    && (d.seen.Sight? ==> MemOk(d.seen.mem) && d32.seen.mem == WrapMem(d.seen.mem))
  }

  lemma NextSame<T>(s: State<T>, e: Event<T>, t: nat, d32: Diary<T>, d: Diary<T>)
    requires MemOk(s.m) && !e.StaleTurn? && SameDiary(d32, d)
    ensures SameDiary(NextDiary(WrapState(s), e, t, d32), NextDiary(s, Lift(s, e), t, d))
  {
    if e.t < |s.calls| {
      SameSituation(s, e);
    }
  }

  lemma SameSituation<T>(s: State<T>, e: Event<T>)
    requires e.t < |s.calls|
    ensures Begins(WrapState(s), e) <==> Begins(s, e)
    ensures AboutToRead(WrapState(s).calls[e.t]) <==> AboutToRead(s.calls[e.t])
  {
    assert WrapState(s).calls[e.t] == WrapCall(s.calls[e.t]);
  }

  lemma {:induction false} DiaryLift<T>(s: State<T>, es: seq<Event<T>>, t: nat, d32: Diary<T>, d: Diary<T>)
    requires Sound(s) && Real(es) && WindowAlong(s, es) && AloneAlong(true, WrapState(s), es) && SameDiary(d32, d)
    ensures SameDiary(DiaryOf(true, WrapState(s), es, t, d32), DiaryOf(false, s, LiftAll(s, es), t, d))
    decreases |es|
  {
    if es != [] {
      var e := Lift(s, es[0]);
      var s1 := Step(false, s, e);
      SizeOk(s);
      NextSame(s, es[0], t, d32, d);
      Step32(s, es[0]);
      AloneWrapped(s1);
      StepSound(s, e);
      DiaryLift(s1, es[1..], t, NextDiary(WrapState(s), es[0], t, d32), NextDiary(s, e, t, d));
      assert LiftAll(s, es)[0] == e && LiftAll(s, es)[1..] == LiftAll(s1, es[1..]);
    }
  }

  /** The last read of thread t's call was against a head so old that the true count did not fit 32 bits. */
  ghost predicate MisreadLast<T>(s0: State<T>, es: seq<Event<T>>, t: nat)
    requires Wf(s0)
  {
    var d := DiaryOf(false, s0, LiftAll(s0, es), t, Blank());
    d.seen.Sight? && d.seen.stale
  }

  lemma AnswersWrapped<T>(c: Call<T>, t: nat, asked: Event<T>, slots: nat, watermark: nat, free: int, entries: int)
    ensures Serves(WrapCall(c), t, asked) <==> Serves(c, t, asked)
    ensures HasReturned(WrapCall(c)) <==> HasReturned(c)
    ensures Refused(WrapCall(c)) <==> Refused(c)
    ensures Answers(WrapCall(c), slots, watermark, free, entries) <==> Answers(c, slots, watermark, free, entries)
  {
  }

  /** The same for every run of the program: 32-bit indices, through any number of wrap-arounds. */
  lemma CallsAnswer32<T>(slots: nat, watermark: nat, ring: seq<T>, threads: nat, es: seq<Event<T>>, t: nat)
    requires Schedule(slots, watermark, ring, threads, es) && t < threads
    ensures var s0 := Init(slots, watermark, ring, threads);
            var c, d := Run(true, s0, es).calls[t], DiaryOf(true, s0, es, t, Blank());
            && Serves(c, t, d.asked)
            && (HasReturned(c) ==>
                  && d.seen.Sight?
                  && (|| Answers(c, slots, watermark, FreeNow32(d.seen.mem), EntriesNow32(d.seen.mem))
                      || (MisreadLast(s0, es, t) && Refused(c))))
  {
    var s0 := Init(slots, watermark, ring, threads);
    InitSound(slots, watermark, ring, threads);
    Refines(slots, watermark, ring, threads, es);
    DiaryLift(s0, es, t, Blank(), Blank());
    CallsAnswer(slots, watermark, ring, threads, LiftAll(s0, es), t);
    var c, d := TrueRun(s0, es).calls[t], DiaryOf(false, s0, LiftAll(s0, es), t, Blank());
    assert Run(true, s0, es).calls[t] == WrapCall(c);
    if d.seen.Sight? {
      CountsNow32(d.seen.mem);
      AnswersWrapped(c, t, d.asked, slots, watermark, FreeNow(d.seen.mem), EntriesNow(d.seen.mem));
    } else {
      AnswersWrapped(c, t, d.asked, slots, watermark, 0, 0);
    }
  }

  lemma {:induction false} WindowSplit<T>(s: State<T>, es: seq<Event<T>>, e: Event<T>)
    requires Wf(s) && WindowAlong(s, es + [e])
    ensures WindowAlong(s, es)
    decreases |es|
  {
    var all := es + [e];
    if es != [] {
      assert all[0] == es[0] && all[1..] == es[1..] + [e];
      WindowSplit(Step(false, s, Lift(s, es[0])), es[1..], e);
    }
  }

  lemma ScheduleSplit<T>(slots: nat, watermark: nat, ring: seq<T>, threads: nat, es: seq<Event<T>>, e: Event<T>)
    requires Schedule(slots, watermark, ring, threads, es + [e])
    ensures Schedule(slots, watermark, ring, threads, es) && !e.StaleTurn?
  {
    var s0, all := Init(slots, watermark, ring, threads), es + [e];
    WindowSplit(s0, es, e);
    AloneSplit(true, s0, es, e);
    assert all[|es|] == e && forall k :: 0 <= k < |es| ==> all[k] == es[k];
  }

  /** The locals of thread t in the true state the program's run stands for. */
  lemma TrackedCall<T>(slots: nat, watermark: nat, ring: seq<T>, threads: nat, es: seq<Event<T>>, t: nat)
    returns (c: Call<T>, d: Diary<T>)
    requires Schedule(slots, watermark, ring, threads, es) && t < threads
    ensures Run(true, Init(slots, watermark, ring, threads), es).calls[t] == WrapCall(c)
    ensures d.asked == DiaryOf(true, Init(slots, watermark, ring, threads), es, t, Blank()).asked
    ensures AskedSome(d.asked) && (AboutToPublish(c) ==> !TookNone(c))
  {
    var s0 := Init(slots, watermark, ring, threads);
    InitSound(slots, watermark, ring, threads);
    Refines(slots, watermark, ring, threads, es);
    DiaryLift(s0, es, t, Blank(), Blank());
    RunTrue(s0, LiftAll(s0, es), t, Blank());
    c, d := TrueRun(s0, es).calls[t], DiaryOf(false, s0, LiftAll(s0, es), t, Blank());
  }

  predicate AskedSome<T>(asked: Event<T>) {
    (asked.BeginEnq? ==> |asked.items| >= 1) && (asked.BeginDeq? ==> asked.want >= 1)
  }

  predicate AboutToPublish<T>(c: Call<T>) { (c.Enq? && c.e.pc.Publishing?) || (c.Deq? && c.d.pc.Publishing?) }

  predicate TookNone<T>(c: Call<T>) { (c.Enq? && c.e.n == 0) || (c.Deq? && c.d.n == 0) }

  lemma ReturnsReading<T>(w: State<T>, e: Event<T>, t: nat, c: Call<T>)
    requires Wf(w) && t < |w.calls| && w.calls[t] == WrapCall(c) && (AboutToPublish(c) ==> !TookNone(c))
    requires !Free(w.calls[t]) && Refused(Step(true, w, e).calls[t])
    ensures e.t == t && AboutToRead(w.calls[t]) && Step(true, w, e).m == w.m
  {
    ReturnStep(true, w, e, t);
  }

  /** A call that could take nothing, though it asked for something. */
  lemma NothingTaken<T>(c: Call<T>, t: nat, asked: Event<T>, slots: nat, watermark: nat, free: int, entries: int)
    requires AskedSome(asked) && Serves(c, t, asked) && Refused(c) && Answers(c, slots, watermark, free, entries)
    ensures TooMuch(asked, free, entries)
  {
  }

  /** A call of the program that returns with nothing taken returns at that very read, and did not fit then. */
  lemma RefusedOnTheSpot32<T>(slots: nat, watermark: nat, ring: seq<T>, threads: nat, es: seq<Event<T>>, e: Event<T>,
                              t: nat)
    requires Schedule(slots, watermark, ring, threads, es + [e]) && t < threads
    requires var w := Run(true, Init(slots, watermark, ring, threads), es);
             !Free(w.calls[t]) && Refused(Step(true, w, e).calls[t])
    ensures var s0 := Init(slots, watermark, ring, threads);
            var w, d := Run(true, s0, es), DiaryOf(true, s0, es, t, Blank());
            && Run(true, s0, es + [e]) == Step(true, w, e)
            && e.t == t && AboutToRead(w.calls[t]) && Step(true, w, e).m == w.m
            && (!MisreadLast(s0, es + [e], t) ==> TooMuch(d.asked, FreeNow32(w.m), EntriesNow32(w.m)))
  {
    var s0 := Init(slots, watermark, ring, threads);
    ScheduleSplit(slots, watermark, ring, threads, es, e);
    DiarySnoc(true, s0, es, e, t, Blank());
    var c, d := TrackedCall(slots, watermark, ring, threads, es, t);
    ReturnsReading(Run(true, s0, es), e, t, c);
    CallsAnswer32(slots, watermark, ring, threads, es + [e], t);
    if !MisreadLast(s0, es + [e], t) {
      NothingTaken(Run(true, s0, es + [e]).calls[t], t, d.asked, slots, watermark,
                   FreeNow32(Run(true, s0, es).m), EntriesNow32(Run(true, s0, es).m));
    }
  }
}
