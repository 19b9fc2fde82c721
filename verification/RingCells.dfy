/**
  What the two copy macros mean: the simple loops over `ring[(head + i) & mask]`,
  and how the batch they move relates to the entries already in the ring.
 */
module RingCells {
  import opened Words
  import opened RingSpec

  /** The n entries starting at index `head`, oldest first. */
  function Entries<T>(cells: seq<T>, head: nat, n: nat): (r: seq<T>)
    requires |cells| >= 1
    ensures |r| == n
  {
    seq(n, i requires 0 <= i < n => cells[Slot(|cells|, head, i)])
  }

  /** The ring after the loop that stores objs[0..n] at `head`. */
  function Stored<T>(cells: seq<T>, head: nat, objs: seq<T>, n: nat): (r: seq<T>)
    requires |cells| >= 1 && n <= |objs|
    ensures |r| == |cells|
  {
    if n == 0 then cells
    else Stored(cells, head, objs, n - 1)[Slot(|cells|, head, n - 1) := objs[n - 1]]
  }

  /** Slot without the remainder: the flat part of the ring, then the part that wrapped. */
  lemma SlotFlat(slots: nat, head: nat, i: nat)
    requires slots >= 1
    ensures And(head, slots - 1) + i < slots ==> Slot(slots, head, i) == And(head, slots - 1) + i
    ensures slots <= And(head, slots - 1) + i < 2 * slots ==>
              Slot(slots, head, i) == And(head, slots - 1) + i - slots
  {
    var x := And(head, slots - 1) + i;
    if x < slots {
      QuotientUnique(x, slots, 0, x);
    } else if x < 2 * slots {
      QuotientUnique(x, slots, 1, x - slots);
    }
  }

  /** Distinct offsets below the ring size name distinct slots. */
  lemma SlotsDistinct(slots: nat, head: nat, i: nat, j: nat)
    requires IsPow2(slots) && i < j < i + slots
    ensures Slot(slots, head, i) != Slot(slots, head, j)
  {
    SlotIsCell(slots, head, i);
    SlotIsCell(slots, head, j);
    DistinctCells(slots, head + i, head + j);
  }

  /** Moving the start by k, also across the 32-bit wrap, shifts the offsets by k. */
  lemma SlotShift(slots: nat, head: nat, k: nat, i: nat)
    requires RingSize(slots)
    ensures Slot(slots, Wrap(head + k), i) == Slot(slots, head, k + i)
  {
    WrappedSlot(slots, head + k, i);
    SlotIsCell(slots, head + k, i);
    SlotIsCell(slots, head, k + i);
  }

  /** The loop leaves objs[i] at the i-th slot of the batch and every other slot alone. */
  lemma {:induction false} StoredAt<T>(cells: seq<T>, head: nat, objs: seq<T>, n: nat)
    requires IsPow2(|cells|) && n <= |objs| && n <= |cells|
    ensures forall i :: 0 <= i < n ==> Stored(cells, head, objs, n)[Slot(|cells|, head, i)] == objs[i]
    ensures forall c :: 0 <= c < |cells| && (forall i :: 0 <= i < n ==> Slot(|cells|, head, i) != c)
              ==> Stored(cells, head, objs, n)[c] == cells[c]
  {
    if n > 0 {
      StoredAt(cells, head, objs, n - 1);
      forall i | 0 <= i < n - 1 ensures Slot(|cells|, head, i) != Slot(|cells|, head, n - 1) {
        SlotsDistinct(|cells|, head, i, n - 1);
      }
    }
  }

  /** What slot c holds once objs[0..n] were laid out from slot `base` on, around the end if need be. */
  function Laid<T>(was: seq<T>, base: nat, objs: seq<T>, n: nat, c: nat): T
    requires c < |was| && base < |was| && n <= |objs| && n <= |was|
  {
    if base <= c < base + n then objs[c - base]
    else if c + |was| < base + n then objs[c + |was| - base]
    else was[c]
  }

  lemma {:induction false} StoredIsLaid<T>(was: seq<T>, head: nat, objs: seq<T>, n: nat)
    requires |was| >= 1 && n <= |objs| && n <= |was|
    ensures forall c :: 0 <= c < |was| ==>
              Stored(was, head, objs, n)[c] == Laid(was, And(head, |was| - 1), objs, n, c)
  {
    if n > 0 {
      StoredIsLaid(was, head, objs, n - 1);
      SlotFlat(|was|, head, n - 1);
      var base, last := And(head, |was| - 1), Slot(|was|, head, n - 1);
      forall c | 0 <= c < |was| ensures Stored(was, head, objs, n)[c] == Laid(was, base, objs, n, c) {
        assert Stored(was, head, objs, n)[c]
               == if c == last then objs[n - 1] else Stored(was, head, objs, n - 1)[c];
        assert c != last ==> Laid(was, base, objs, n, c) == Laid(was, base, objs, n - 1, c);
      }
    }
  }

  /** The i-th slot of a batch that starts in slot `base`. */
  function Place(slots: nat, base: nat, i: nat): nat
    requires base < slots
  {
    if base + i < slots then base + i else base + i - slots
  }

  lemma EntriesPlaced<T>(cells: seq<T>, head: nat, n: nat)
    requires |cells| >= 1 && n <= |cells|
    ensures var base := And(head, |cells| - 1);
            forall i :: 0 <= i < n ==>
              var c := Place(|cells|, base, i); c < |cells| && Entries(cells, head, n)[i] == cells[c]
  {
    var base := And(head, |cells| - 1);
    forall i | 0 <= i < n
      ensures Place(|cells|, base, i) < |cells| && Entries(cells, head, n)[i] == cells[Place(|cells|, base, i)]
    {
      SlotFlat(|cells|, head, i);
    }
  }

  /** An entry already in the ring keeps its slot's content. */
  lemma StoreKeeps<T>(cells: seq<T>, start: nat, used: nat, objs: seq<T>, n: nat, i: nat)
    requires RingSize(|cells|) && n <= |objs| && used + n <= |cells| && i < used
    ensures var c := Slot(|cells|, start, i); Stored(cells, Wrap(start + used), objs, n)[c] == cells[c]
  {
    var head, c := Wrap(start + used), Slot(|cells|, start, i);
    StoredAt(cells, head, objs, n);
    forall j | 0 <= j < n ensures Slot(|cells|, head, j) != c {
      SlotShift(|cells|, start, used, j);
      SlotsDistinct(|cells|, start, i, used + j);
    }
  }

  lemma StoreAdds<T>(cells: seq<T>, start: nat, used: nat, objs: seq<T>, n: nat, j: nat)
    requires RingSize(|cells|) && n <= |objs| && used + n <= |cells| && j < n
    ensures Stored(cells, Wrap(start + used), objs, n)[Slot(|cells|, start, used + j)] == objs[j]
  {
    StoredAt(cells, Wrap(start + used), objs, n);
    SlotShift(|cells|, start, used, j);
  }

  /** Storing a batch behind `used` entries appends it to them. */
  lemma StoreAppends<T>(cells: seq<T>, start: nat, used: nat, objs: seq<T>, n: nat)
    requires RingSize(|cells|) && n <= |objs| && used + n <= |cells|
    ensures Entries(Stored(cells, Wrap(start + used), objs, n), start, used + n)
            == Entries(cells, start, used) + objs[..n]
  {
    var left := Entries(Stored(cells, Wrap(start + used), objs, n), start, used + n);
    var right := Entries(cells, start, used) + objs[..n];
    forall i | 0 <= i < used + n ensures left[i] == right[i] {
      if i < used {
        StoreKeeps(cells, start, used, objs, n, i);
      } else {
        StoreAdds(cells, start, used, objs, n, i - used);
      }
    }
  }

  /** Releasing the k oldest entries leaves the others, from the advanced index. */
  lemma DropOldest<T>(cells: seq<T>, start: nat, used: nat, k: nat)
    requires RingSize(|cells|) && k <= used
    ensures Entries(cells, Wrap(start + k), used - k) == Entries(cells, start, used)[k..]
  {
    forall i | 0 <= i < used - k
      ensures Entries(cells, Wrap(start + k), used - k)[i] == Entries(cells, start, used)[k..][i]
    {
      SlotShift(|cells|, start, k, i);
    }
  }

  /** Whatever index a batch is stored at, loading it from there gives it back. */
  lemma StoreLoad<T>(cells: seq<T>, head: nat, objs: seq<T>, n: nat)
    requires IsPow2(|cells|) && n <= |objs| && n <= |cells|
    ensures Entries(Stored(cells, head, objs, n), head, n) == objs[..n]
  {
    StoredAt(cells, head, objs, n);
  }

  /** The two masked differences of the query functions, for at most slots - 1 used entries. */
  lemma MaskedCounts(slots: nat, consTail: nat, prodTail: nat, used: nat)
    requires RingSize(slots) && slots >= 1 && used == Wrap(prodTail - consTail) && used <= slots - 1
    ensures And(used, slots - 1) == used
    ensures And(Wrap(consTail - prodTail - 1), slots - 1) == slots - 1 - used
  {
    UsedMasked(slots, used);
    WrapOpposite(prodTail - consTail);
    FreeMasked(slots, used);
  }

  lemma UsedMasked(slots: nat, used: nat)
    requires IsPow2(slots) && used <= slots - 1
    ensures And(used, slots - 1) == used
  {
    MaskIsMod(used, slots);
    QuotientUnique(used, slots, 0, used);
  }

  lemma FreeMasked(slots: nat, used: nat)
    requires RingSize(slots) && used <= slots - 1
    ensures And(TWO32 - 1 - used, slots - 1) == slots - 1 - used
  {
    MaskIsMod(TWO32 - 1 - used, slots);
    SlotsDivideLap(slots);
    var q: nat :| TWO32 == slots * q;
    assert slots * (q - 1) == TWO32 - slots;
    QuotientUnique(TWO32 - 1 - used, slots, q - 1, slots - 1 - used);
  }

  /** Index arithmetic of an enqueue of n behind `used` entries, and of a dequeue of n of them. */
  lemma UsedMoves(consTail: nat, prodTail: nat, used: nat, n: nat)
    requires consTail < TWO32 && prodTail < TWO32 && used == Wrap(prodTail - consTail) && used + n < TWO32
    ensures prodTail == Wrap(consTail + used)
    ensures Wrap(Wrap(prodTail + n) - consTail) == used + n
    ensures n <= used ==> Wrap(prodTail - Wrap(consTail + n)) == used - n
  {
  }

  lemma FreeSpace(mask: nat, consTail: nat, prodTail: nat, used: nat)
    requires used == Wrap(prodTail - consTail) && used <= mask < TWO32
    ensures Wrap(mask + consTail - prodTail) == mask - used
  {
  }

  lemma SlotsDivideLap(slots: nat)
    requires RingSize(slots)
    ensures exists q: nat :: TWO32 == slots * q
  {
    var k: nat :| slots == Pow2(k);
    Pow2Of32();
    if k > 32 {
      Pow2Monotone(32, k);
    }
    Pow2Divides(k, 32);
  }
}
