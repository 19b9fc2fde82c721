/**
  The decisions every enqueue and dequeue of the ring makes, whoever runs it:
  how many entries a request gets, which slot an index names, what is returned.
 */
module RingSpec {
  import opened Words

  const ERR_NOBUF: int := 1
  const ERR_QUOT: int := 2
  const ERR_NOENT: int := 3
  const ERR_NOPOW2: int := 4
  const ERR_INVAL: int := 5

  datatype Behavior = Fixed | Variable

  /** How many of `want` entries a call takes when it sees `room`; zero means it refuses. */
  function Grantable(want: nat, room: int, beh: Behavior): (n: nat)
    ensures n <= want
    ensures n > 0 ==> n <= room
  {
    if want <= room then want
    else if beh.Fixed? || room <= 0 then 0
    else room
  }

  function EnqRefusal(beh: Behavior): int {
    if beh.Fixed? then -ERR_NOBUF else 0
  }

  function DeqRefusal(beh: Behavior): int {
    if beh.Fixed? then -ERR_NOENT else 0
  }

  /** The return value after n entries were written into `free` seen ones; the quota flag is bit 31 of an int. */
  function EnqReturn(slots: nat, free: int, n: nat, watermark: nat, beh: Behavior): int {
    if slots - free + n > watermark then
      if beh.Fixed? then -ERR_QUOT else n - TWO31
    else
      if beh.Fixed? then 0 else n
  }

  function DeqReturn(n: nat, beh: Behavior): int {
    if beh.Fixed? then 0 else n
  }

  /**
    A caller can tell from the return value what became of n >= 1 entries: no
    code of an enqueue that stored them is the code of one that did not, a fixed
    refusal is the negative NOBUF and its quota code the negative QUOT, and a
    variable count stands in the low 31 bits, with the quota flag or without.
   */
  lemma EnqCodes(slots: nat, free: int, n: nat, watermark: nat, beh: Behavior)
    requires 1 <= n < 0x8000_0000
    ensures EnqReturn(slots, free, n, watermark, beh) != EnqRefusal(beh)
    ensures beh.Fixed? ==> EnqRefusal(beh) == -1 && EnqReturn(slots, free, n, watermark, beh) in {0, -2}
    ensures beh.Variable? ==> EnqRefusal(beh) == 0 && EnqReturn(slots, free, n, watermark, beh) % 0x8000_0000 == n
  {
  }

  lemma DeqCodes(n: nat, beh: Behavior)
    requires n >= 1
    ensures DeqReturn(n, beh) != DeqRefusal(beh)
    ensures beh.Fixed? ==> DeqRefusal(beh) == -3 && DeqReturn(n, beh) == 0
    ensures beh.Variable? ==> DeqRefusal(beh) == 0 && DeqReturn(n, beh) == n
  {
  }

  /** The slot of the i-th entry of a batch that starts at index `head`. */
  function Slot(slots: nat, head: nat, i: nat): (c: nat)
    requires slots >= 1
    ensures c < slots
  {
    (And(head, slots - 1) + i) % slots
  }

  /** The slot of an unbounded position: count around the ring. */
  function Cell(slots: nat, pos: nat): (c: nat)
    requires slots >= 1
    ensures c < slots
  {
    if pos < slots then pos else Cell(slots, pos - slots)
  }

  lemma {:induction false} CellIsMod(slots: nat, pos: nat)
    requires slots >= 1
    ensures Cell(slots, pos) == pos % slots
  {
    if pos < slots {
      QuotientUnique(pos, slots, 0, pos);
    } else {
      CellIsMod(slots, pos - slots);
      var q, r := (pos - slots) / slots, (pos - slots) % slots;
      assert pos == slots * q + r + slots == slots * (q + 1) + r;
      QuotientUnique(pos, slots, q + 1, r);
    }
  }

  lemma AddMod(x: nat, i: nat, m: nat)
    requires m >= 1
    ensures (x % m + i) % m == (x + i) % m
  {
    var q, r := (x % m + i) / m, (x % m + i) % m;
    assert x % m + i == m * q + r;
    assert x + i == m * (x / m) + m * q + r == m * (x / m + q) + r;
    QuotientUnique(x + i, m, x / m + q, r);
  }

  lemma SlotIsCell(slots: nat, head: nat, i: nat)
    requires IsPow2(slots)
    ensures Slot(slots, head, i) == Cell(slots, head + i)
  {
    MaskIsMod(head, slots);
    AddMod(head, i, slots);
    CellIsMod(slots, head + i);
  }

  /** A wrapped index and the unbounded position it stands for name the same slots. */
  lemma WrappedSlot(slots: nat, head: nat, i: nat)
    requires RingSize(slots)
    ensures Slot(slots, Wrap(head), i) == Slot(slots, head, i)
  {
    MaskIsMod(head, slots);
    MaskIsMod(Wrap(head), slots);
    WrapKeepsSlot(head, slots);
  }

  /** Two positions less than a ring apart never share a slot. */
  lemma {:induction false} DistinctCells(slots: nat, x: nat, y: nat)
    requires x < y < x + slots
    ensures Cell(slots, x) != Cell(slots, y)
    decreases x
  {
    if x >= slots {
      DistinctCells(slots, x - slots, y - slots);
    }
  }
}
