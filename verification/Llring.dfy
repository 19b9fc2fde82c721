/**
  The ring as the object its calls update in place: one call at a time, as the
  single-producer and single-consumer forms are used.  Indices are 32-bit and
  run free; the copies are the program's two macros, unrolled loops and all.
 */
module LlringObject {
  import opened Words
  import opened RingSpec
  import opened RingCells

  class Llring<T> {
    const slots: nat
    const mask: nat
    const sp: bool
    const sc: bool
    const ring: array<T>
    var watermark: nat
    var prodHead: nat
    var prodTail: nat
    var consHead: nat
    var consTail: nat

    /** The constants fit each other. */
    ghost predicate Wired() {
      RingSize(slots) && 1 <= slots == ring.Length && mask == slots - 1
    }

    /** Between calls: heads and tails agree, and at most mask entries are in use. */
    ghost predicate Valid()
      reads this
    {
      && Wired() && 1 <= watermark <= slots
      && prodHead == prodTail < TWO32 && consHead == consTail < TWO32
      && Used() <= mask
    }

    ghost function Used(): nat
      reads this
    {
      Wrap(prodTail - consTail)
    }

    /** The entries in the ring, oldest first. */
    ghost function Contents(): (s: seq<T>)
      reads this, ring
      requires Valid()
      ensures |s| == Used() <= slots - 1
    {
      Entries(ring[..], consTail, Used())
    }

    /** An empty ring over zeroed memory, for a power of two of slots; no slots at all make no usable ring. */
    constructor (slots: nat, sp: bool, sc: bool, zero: T)
      requires RingSize(slots) || slots == 0
      ensures fresh(ring) && (slots > 0 ==> Valid() && Contents() == [])
      ensures this.slots == slots == watermark == ring.Length && mask == Wrap(slots - 1)
      ensures this.sp == sp && this.sc == sc
      ensures prodHead == prodTail == consHead == consTail == 0
    {
      this.slots, this.mask, this.watermark := slots, Wrap(slots - 1), slots;
      this.sp, this.sc := sp, sc;
      prodHead, prodTail, consHead, consTail := 0, 0, 0, 0;
      ring := new T[slots](_ => zero);
    }

    /** llring_init: refuses a slot count that is neither a power of two nor zero. */
    static method Init(slots: nat, sp: bool, sc: bool, zero: T) returns (ret: int, r: Llring?<T>)
      requires slots < TWO32
      ensures ret == 0 <==> IsPow2(slots) || slots == 0
      ensures ret == 0 ==> r != null && fresh(r) && fresh(r.ring) && (slots > 0 ==> r.Valid() && r.Contents() == [])
                           && r.slots == slots == r.watermark && r.mask == Wrap(slots - 1) && r.sp == sp && r.sc == sc
      ensures ret != 0 ==> ret == -ERR_NOPOW2 && r == null
    {
      if And(slots, Wrap(slots - 1)) != 0 {
        PowerOfTwoTest(slots);
        return -ERR_NOPOW2, null;
      }
      if slots > 0 {
        PowerOfTwoTest(slots);
        PowerBelowLap(slots);
      }
      r := new Llring(slots, sp, sc, zero);
      ret := 0;
    }

    /** llring_set_water_mark: zero switches marking off, anything from the slot count up is refused. */
    method SetWaterMark(count: nat) returns (ret: int)
      requires Valid()
      modifies this`watermark
      ensures Valid() && Contents() == old(Contents())
      ensures ret == if count >= slots then -ERR_INVAL else 0
      ensures watermark == if count >= slots then old(watermark) else if count == 0 then slots else count
    {
      if count >= slots {
        return -ERR_INVAL;
      }
      watermark := if count == 0 then slots else count;
      ret := 0;
    }

    /** LLRING_ENQUEUE_PTRS, both branches: the same as storing objs[i] at `(head + i) & mask` for i below n. */
    method EnqueuePtrs(head: nat, objs: seq<T>, n: nat)
      requires Wired() && n <= |objs| && n <= mask
      modifies ring
      ensures ring[..] == Stored(old(ring[..]), head, objs, n)
    {
      var idx := And(head, mask);
      ghost var was := ring[..];
      if idx + n < slots {
        StoreUnrolled(idx, objs, n);
      } else {
        StoreAround(idx, objs, n);
      }
      StoredIsLaid(was, head, objs, n);
    }

    /** The branch that stays below the end: four at a time, then the switch that falls through. */
    method StoreUnrolled(base: nat, objs: seq<T>, n: nat)
      requires 1 <= slots == ring.Length && base + n < slots && n <= |objs|
      modifies ring
      ensures forall c :: 0 <= c < slots ==> ring[c] == Laid(old(ring[..]), base, objs, n, c)
    {
      ghost var was := ring[..];
      var i, idx := 0, base;
      var rest := LowBits(n);
      ghost var q, quads: nat := 0, n / 4;
      while i < n - rest
        invariant i == 4 * q && q <= quads && idx == base + i
        invariant forall c :: 0 <= c < slots ==> ring[c] == Laid(was, base, objs, i, c)
      {
        StoreFour(idx, objs, i, base, was);
        i, idx, q := i + 4, idx + 4, q + 1;
      }
      ghost var mid := ring[..];
      StoreRest(idx, objs, i, rest);
      forall c | 0 <= c < slots ensures ring[c] == Laid(was, base, objs, n, c) {
        assert mid[c] == Laid(was, base, objs, i, c);
        assert idx <= c < idx + rest ==> ring[idx - i + (c - base)] == objs[c - base];
      }
    }

    /** One round of the unrolled loop. */
    method StoreFour(idx: nat, objs: seq<T>, i: nat, ghost base: nat, ghost was: seq<T>)
      requires |was| == slots == ring.Length && idx == base + i && base + i + 4 < slots && i + 4 <= |objs|
      requires forall c :: 0 <= c < slots ==> ring[c] == Laid(was, base, objs, i, c)
      modifies ring
      ensures forall c :: 0 <= c < slots ==> ring[c] == Laid(was, base, objs, i + 4, c)
    {
      ring[idx] := objs[i];
      ring[idx + 1] := objs[i + 1];
      ring[idx + 2] := objs[i + 2];
      ring[idx + 3] := objs[i + 3];
    }

    /** The switch: case 3 falls into case 2, which falls into case 1. */
    method StoreRest(first: nat, objs: seq<T>, done: nat, rest: nat)
      requires rest <= 3 && done <= first && done + rest <= |objs| && first + rest <= ring.Length
      modifies ring
      ensures forall j :: done <= j < done + rest ==> ring[first - done + j] == objs[j]
      ensures forall c :: 0 <= c < first || first + rest <= c < ring.Length ==> ring[c] == old(ring[c])
    {
      var i, idx := done, first;
      if rest == 3 {
        ring[idx] := objs[i];
        i, idx := i + 1, idx + 1;
      }
      if rest >= 2 {
        ring[idx] := objs[i];
        i, idx := i + 1, idx + 1;
      }
      if rest >= 1 {
        ring[idx] := objs[i];
        i, idx := i + 1, idx + 1;
      }
    }

    /** The branch that reaches the end: up to it, then on from slot 0. */
    method StoreAround(base: nat, objs: seq<T>, n: nat)
      requires 1 <= slots == ring.Length && base < slots && n <= |objs| && n <= slots && base + n >= slots
      modifies ring
      ensures forall c :: 0 <= c < slots ==> ring[c] == Laid(old(ring[..]), base, objs, n, c)
    {
      ghost var was := ring[..];
      var i, idx := 0, base;
      while idx < slots
        invariant i <= n && idx == base + i <= slots
        invariant forall c :: 0 <= c < slots ==> ring[c] == Laid(was, base, objs, i, c)
      {
        ring[idx] := objs[i];
        i, idx := i + 1, idx + 1;
      }
      idx := 0;
      while i < n
        invariant i <= n && idx == base + i - slots
        invariant forall c :: 0 <= c < slots ==> ring[c] == Laid(was, base, objs, i, c)
      {
        ring[idx] := objs[i];
        i, idx := i + 1, idx + 1;
      }
    }

    /** LLRING_DEQUEUE_PTRS, both branches: the same as loading `(head + i) & mask` into tab[i] for i below n. */
    method DequeuePtrs(head: nat, tab: array<T>, n: nat)
      requires Wired() && n <= tab.Length && n <= mask && tab != ring
      modifies tab
      ensures tab[..] == Entries(ring[..], head, n) + old(tab[..])[n..]
    {
      var idx := And(head, mask);
      if idx + n < slots {
        LoadUnrolled(idx, tab, n);
      } else {
        LoadAround(idx, tab, n);
      }
      EntriesPlaced(ring[..], head, n);
    }

    method LoadUnrolled(base: nat, tab: array<T>, n: nat)
      requires 1 <= slots == ring.Length && base + n < slots && n <= tab.Length && tab != ring
      modifies tab
      ensures forall j :: 0 <= j < n ==> tab[j] == ring[base + j]
      ensures forall j :: n <= j < tab.Length ==> tab[j] == old(tab[j])
    {
      var i, idx := 0, base;
      var rest := LowBits(n);
      ghost var q, quads: nat := 0, n / 4;
      while i < n - rest
        invariant i == 4 * q && q <= quads && idx == base + i
        invariant forall j :: 0 <= j < i ==> tab[j] == ring[base + j]
        invariant forall j :: i <= j < tab.Length ==> tab[j] == old(tab[j])
      {
        tab[i] := ring[idx];
        tab[i + 1] := ring[idx + 1];
        tab[i + 2] := ring[idx + 2];
        tab[i + 3] := ring[idx + 3];
        i, idx, q := i + 4, idx + 4, q + 1;
      }
      LoadRest(idx, tab, i, rest);
    }

    method LoadRest(first: nat, tab: array<T>, done: nat, rest: nat)
      requires rest <= 3 && done + rest <= tab.Length && first + rest <= ring.Length && tab != ring
      modifies tab
      ensures forall j :: 0 <= j < tab.Length ==>
                tab[j] == if done <= j < done + rest then ring[first + j - done] else old(tab[j])
    {
      var i, idx := done, first;
      if rest == 3 {
        tab[i] := ring[idx];
        i, idx := i + 1, idx + 1;
      }
      if rest >= 2 {
        tab[i] := ring[idx];
        i, idx := i + 1, idx + 1;
      }
      if rest >= 1 {
        tab[i] := ring[idx];
        i, idx := i + 1, idx + 1;
      }
    }

    method LoadAround(base: nat, tab: array<T>, n: nat)
      requires 1 <= slots == ring.Length && base < slots && n <= tab.Length && n <= slots && base + n >= slots
      requires tab != ring
      modifies tab
      ensures forall j :: 0 <= j < n ==> tab[j] == ring[Place(slots, base, j)]
      ensures forall j :: n <= j < tab.Length ==> tab[j] == old(tab[j])
    {
      var i, idx := 0, base;
      while idx < slots
        invariant i <= n && idx == base + i <= slots
        invariant forall j :: 0 <= j < i ==> tab[j] == ring[Place(slots, base, j)]
        invariant forall j :: i <= j < tab.Length ==> tab[j] == old(tab[j])
      {
        tab[i] := ring[idx];
        i, idx := i + 1, idx + 1;
      }
      idx := 0;
      while i < n
        invariant i <= n && idx == base + i - slots
        invariant forall j :: 0 <= j < i ==> tab[j] == ring[Place(slots, base, j)]
        invariant forall j :: i <= j < tab.Length ==> tab[j] == old(tab[j])
      {
        tab[i] := ring[idx];
        i, idx := i + 1, idx + 1;
      }
    }

    /**
      __llring_sp_do_enqueue.  It appends what fits, all of it or nothing when
      the request is fixed, and reports the quota exactly when the ring then
      holds at least `watermark` entries.
     */
    method SpDoEnqueue(objs: seq<T>, count: nat, beh: Behavior) returns (ret: int)
      requires Valid() && count <= |objs| && count < TWO32
      modifies this`prodHead, this`prodTail, ring
      ensures Valid()
      ensures var n := Grantable(count, mask - |old(Contents())|, beh);
              Contents() == old(Contents()) + objs[..n]
      ensures var free := mask - |old(Contents())|;
              var n := Grantable(count, free, beh);
              ret == if count > free && n == 0 then EnqRefusal(beh)
                     else if |Contents()| >= watermark then (if beh.Fixed? then -ERR_QUOT else n - TWO31)
                     else (if beh.Fixed? then 0 else n)
    {
      var head, consTail' := prodHead, consTail;
      var free := Wrap(mask + consTail' - head);
      FreeSpace(mask, consTail, prodTail, Used());
      var n := count;
      if n > free {
        if beh.Fixed? {
          return -ERR_NOBUF;
        } else {
          if free == 0 {
            return 0;
          }
          n := free;
        }
      }
      Append(head, objs, n);
      if mask + 1 - free + n > watermark {
        ret := if beh.Fixed? then -ERR_QUOT else n - TWO31;
      } else {
        ret := if beh.Fixed? then 0 else n;
      }
    }

    /** The store of prod.head, the copy, and the store of prod.tail. */
    method Append(head: nat, objs: seq<T>, n: nat)
      requires Valid() && n <= |objs| && Used() + n <= mask && head == prodHead
      modifies this`prodHead, this`prodTail, ring
      ensures Valid() && Contents() == old(Contents()) + objs[..n]
    {
      ghost var was := ring[..];
      AppendEffect(was, consTail, prodTail, Used(), objs, n);
      var next := Wrap(head + n);
      prodHead := next;
      EnqueuePtrs(head, objs, n);
      prodTail := next;
    }

    /** __llring_sc_do_dequeue: hands out the oldest entries, all the caller asked for or nothing when fixed. */
    method ScDoDequeue(tab: array<T>, count: nat, beh: Behavior) returns (ret: int)
      requires Valid() && count <= tab.Length && count < TWO32 && tab != ring
      modifies this`consHead, this`consTail, tab
      ensures Valid()
      ensures var n := Grantable(count, |old(Contents())|, beh);
              && n <= |old(Contents())|
              && tab[..] == old(Contents())[..n] + old(tab[..])[n..]
              && Contents() == old(Contents())[n..]
              && ret == if count > |old(Contents())| && n == 0 then DeqRefusal(beh) else DeqReturn(n, beh)
    {
      var head, prodTail' := consHead, prodTail;
      var entries := Wrap(prodTail' as int - head);
      var n := count;
      if n > entries {
        if beh.Fixed? {
          return -ERR_NOENT;
        } else {
          if entries == 0 {
            return 0;
          }
          n := entries;
        }
      }
      Remove(head, tab, n);
      ret := if beh.Fixed? then 0 else n;
    }

    /** The store of cons.head, the copy, and the store of cons.tail. */
    method Remove(head: nat, tab: array<T>, n: nat)
      requires Valid() && n <= tab.Length && n <= Used() && tab != ring && head == consHead
      modifies this`consHead, this`consTail, tab
      ensures Valid() && Contents() == old(Contents())[n..]
      ensures tab[..] == old(Contents())[..n] + old(tab[..])[n..]
    {
      ghost var used := Used();
      UsedMoves(consTail, prodTail, used, n);
      var next := Wrap(head + n);
      consHead := next;
      DequeuePtrs(head, tab, n);
      assert Entries(ring[..], head, n) == Entries(ring[..], head, used)[..n];
      consTail := next;
      assert Used() == used - n;
      DropOldest(ring[..], head, used, n);
    }

    // The four queries.

    function Full(): (r: int)
      reads this, ring
      requires Valid()
      ensures r == if |Contents()| == slots - 1 then 1 else 0
    {
      MaskedCounts(slots, consTail, prodTail, Used());
      if And(Wrap(consTail - prodTail - 1), mask) == 0 then 1 else 0
    }

    function Empty(): (r: int)
      reads this, ring
      requires Valid()
      ensures r == if Contents() == [] then 1 else 0
    {
      if consTail == prodTail then 1 else 0
    }

    function Count(): (r: nat)
      reads this, ring
      requires Valid()
      ensures r == |Contents()|
    {
      MaskedCounts(slots, consTail, prodTail, Used());
      And(Wrap(prodTail - consTail), mask)
    }

    function FreeCount(): (r: nat)
      reads this, ring
      requires Valid()
      ensures r == slots - 1 - |Contents()|
    {
      MaskedCounts(slots, consTail, prodTail, Used());
      And(Wrap(consTail - prodTail - 1), mask)
    }
  }

  /** What storing behind the used entries and advancing the tail do to the contents. */
  lemma AppendEffect<T>(was: seq<T>, consTail: nat, prodTail: nat, used: nat, objs: seq<T>, n: nat)
    requires RingSize(|was|) && |was| >= 1 && consTail < TWO32 && prodTail < TWO32
    requires used == Wrap(prodTail - consTail) && n <= |objs| && used + n < |was|
    ensures Wrap(Wrap(prodTail + n) - consTail) == used + n
    ensures Entries(Stored(was, prodTail, objs, n), consTail, used + n) == Entries(was, consTail, used) + objs[..n]
  {
    UsedMoves(consTail, prodTail, used, n);
    StoreAppends(was, consTail, used, objs, n);
  }

  lemma PowerBelowLap(slots: nat)
    requires IsPow2(slots) && slots < TWO32
    ensures RingSize(slots)
  {
    var k: nat :| slots == Pow2(k);
    Pow2Of32();
    if k >= 32 {
      Pow2Monotone(32, k);
    }
    Pow2Monotone(k, 31);
    assert Pow2(31) == TWO31;
  }

  /** n & 3, the remainder the unrolled loops leave to the switch. */
  function LowBits(n: nat): (r: nat)
    ensures r == n % 4
  {
    AndMask(n, 2);
    assert Pow2(2) == 4;
    And(n, 3)
  }

  /** The watermark test, in the words of its documentation: it fires once the entries reach the mark. */
  lemma WatermarkMeaning(slots: nat, free: nat, n: nat, watermark: nat, beh: Behavior)
    requires n <= free <= slots - 1 && n < TWO31
    ensures var after := slots - 1 - free + n;
            EnqReturn(slots, free, n, watermark, beh) < 0 <==> after >= watermark
    ensures watermark == slots ==> EnqReturn(slots, free, n, watermark, beh) == if beh.Fixed? then 0 else n
  {
  }
}
