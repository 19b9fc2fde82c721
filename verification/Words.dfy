/**
  The 32-bit unsigned arithmetic the ring indices live in, and the two bit
  tricks the ring relies on: `x & (slots - 1)` to find a slot, and
  `slots & (slots - 1)` to test for a power of two.
 */
module Words {

  const TWO32: nat := 0x1_0000_0000
  const TWO31: nat := 0x8000_0000

  /** What a `uint32_t` holds after x was computed in it. */
  function Wrap(x: int): (w: nat)
    ensures w < TWO32
    ensures 0 <= x < TWO32 ==> w == x
  {
    x % TWO32
  }

  /** Bitwise AND of two unsigned numbers. */
  function And(x: nat, y: nat): (z: nat)
    ensures z <= x && z <= y
  {
    if x == 0 || y == 0 then 0
    else 2 * And(x / 2, y / 2) + if x % 2 == 1 && y % 2 == 1 then 1 else 0
  }

  function Pow2(k: nat): (p: nat)
    ensures p >= 1
  {
    if k == 0 then 1 else 2 * Pow2(k - 1)
  }

  ghost predicate IsPow2(s: nat) {
    exists k: nat :: s == Pow2(k)
  }

  /** The size of a ring the indices can address: a power of two up to 2^31. */
  ghost predicate RingSize(slots: nat) {
    IsPow2(slots) && slots <= TWO31
  }

  // ---------------------------------------------------------------------
  // Masking
  // ---------------------------------------------------------------------

  lemma ModDouble(x: nat, m: nat)
    requires m >= 1
    ensures x % (2 * m) == 2 * ((x / 2) % m) + x % 2
  {
    var q, r := (x / 2) / m, (x / 2) % m;
    assert x / 2 == q * m + r;
    assert x == (2 * m) * q + (2 * r + x % 2);
    QuotientUnique(x, 2 * m, q, 2 * r + x % 2);
  }

  lemma QuotientUnique(x: int, m: nat, q: int, r: int)
    requires m >= 1 && x == m * q + r && 0 <= r < m
    ensures x % m == r && x / m == q
  {
    var q', r' := x / m, x % m;
    assert m * (q - q') == r' - r;
    MulGrows(m, q - q');
  }

  lemma MulGrows(m: nat, d: int)
    ensures d >= 1 ==> m * d >= m
    ensures d <= -1 ==> m * d <= 0 - m
  {
  }

  /** Masking with 2^k - 1 is reduction modulo 2^k. */
  lemma {:induction false} AndMask(x: nat, k: nat)
    ensures And(x, Pow2(k) - 1) == x % Pow2(k)
  {
    if k == 0 {
      assert Pow2(k) == 1;
    } else if x == 0 {
      QuotientUnique(0, Pow2(k), 0, 0);
    } else {
      AndMask(x / 2, k - 1);
      AndMaskDoubles(x, Pow2(k - 1));
    }
  }

  lemma AndMaskDoubles(x: nat, m: nat)
    requires x >= 1 && m >= 1 && And(x / 2, m - 1) == (x / 2) % m
    ensures And(x, 2 * m - 1) == x % (2 * m)
  {
    AndHalves(x, m);
    ModDouble(x, m);
  }

  lemma AndHalves(x: nat, m: nat)
    requires x >= 1 && m >= 1
    ensures And(x, 2 * m - 1) == 2 * And(x / 2, m - 1) + x % 2
  {
    var y := 2 * m - 1;
    assert y / 2 == m - 1 && y % 2 == 1;
  }

  lemma MaskIsMod(x: nat, slots: nat)
    requires IsPow2(slots)
    ensures And(x, slots - 1) == x % slots
  {
    var k: nat :| slots == Pow2(k);
    AndMask(x, k);
  }

  /** The test `slots & (slots - 1)` of llring_init is zero exactly on powers of two. */
  lemma {:induction false} PowerOfTwoTest(s: nat)
    requires s >= 1
    ensures And(s, s - 1) == 0 <==> IsPow2(s)
  {
    if s == 1 {
      assert s == Pow2(0);
    } else if s % 2 == 1 {
      assert And(s, s - 1) == 2 * And(s / 2, s / 2);
      AndSelf(s / 2);
      forall k: nat ensures s != Pow2(k) {
      }
    } else {
      PowerOfTwoTest(s / 2);
      assert (s - 1) / 2 == s / 2 - 1;
      if IsPow2(s / 2) {
        var k: nat :| s / 2 == Pow2(k);
        assert s == Pow2(k + 1);
      }
      if IsPow2(s) {
        var k: nat :| s == Pow2(k);
        assert s / 2 == Pow2(k - 1);
      }
    }
  }

  lemma {:induction false} AndSelf(x: nat)
    ensures And(x, x) == x
  {
    if x > 0 {
      AndSelf(x / 2);
    }
  }

  // ---------------------------------------------------------------------
  // Wrap-around
  // ---------------------------------------------------------------------

  /** A difference of two wrapped numbers, taken in 32 bits, is the true one when that fits. */
  lemma WrapDiff(base: int, x: nat, y: nat)
    ensures Wrap(base + Wrap(x) - Wrap(y)) == Wrap(base + x - y)
    ensures 0 <= base + x - y < TWO32 ==> Wrap(base + Wrap(x) - Wrap(y)) == base + x - y
  {
  }

  lemma WrapSum(x: nat, n: nat)
    ensures Wrap(Wrap(x) + n) == Wrap(x + n)
  {
  }

  /** Equal in 32 bits and less than one lap apart means equal. */
  lemma WrapOpposite(d: int)
    ensures Wrap(-d - 1) == TWO32 - 1 - Wrap(d)
  {
  }

  lemma WrapInjective(x: nat, y: nat)
    requires x <= y < x + TWO32
    ensures Wrap(x) == Wrap(y) <==> x == y
  {
  }

  lemma {:induction false} Pow2Divides(k: nat, j: nat)
    requires k <= j
    ensures exists q: nat :: Pow2(j) == Pow2(k) * q
  {
    if k == j {
      assert Pow2(j) == Pow2(k) * 1;
    } else {
      Pow2Divides(k, j - 1);
      var q: nat :| Pow2(j - 1) == Pow2(k) * q;
      assert Pow2(j) == Pow2(k) * (2 * q);
    }
  }

  lemma {:induction false} Pow2Monotone(k: nat, j: nat)
    requires k <= j
    ensures Pow2(k) <= Pow2(j)
  {
    if k < j {
      Pow2Monotone(k, j - 1);
    }
  }

  lemma Pow2Of32()
    ensures Pow2(32) == TWO32
  {
    assert Pow2(8) == 256;
    assert Pow2(16) == 65536;
    assert Pow2(24) == 16777216;
    assert Pow2(32) == TWO32;
  }

  lemma ModOfMod(x: nat, m: nat, q: nat)
    requires m >= 1 && q >= 1
    ensures (x % (m * q)) % m == x % m
  {
    var b := x / (m * q);
    var r := x % (m * q);
    assert x == m * (q * b) + r;
    assert r == m * (r / m) + r % m;
    assert x == m * (q * b + r / m) + r % m;
    QuotientUnique(x, m, q * b + r / m, r % m);
  }

  /** Wrapping an index does not change the slot it names. */
  lemma WrapKeepsSlot(x: nat, slots: nat)
    requires RingSize(slots)
    ensures Wrap(x) % slots == x % slots
  {
    var k: nat :| slots == Pow2(k);
    Pow2Of32();
    if k > 32 {
      Pow2Monotone(32, k);
    }
    Pow2Divides(k, 32);
    var q: nat :| Pow2(32) == Pow2(k) * q;
    ModOfMod(x, slots, q);
  }
}
