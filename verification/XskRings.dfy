/**
  The AF_XDP rings as libbpf presents them to one user, and bags of frames.

  A producer ring reserves all it is asked for or nothing, is filled entry by
  entry, and hands entries over on submit.  A consumer ring gives out at most
  what is there on peek, and gives entries back on release, oldest first.
 */
module XskRings {

  datatype Desc = Desc(addr: nat, len: nat)

  /**
    queue: submitted and not yet taken by the kernel; reserved: how many
    entries are reserved and not submitted, of which `written` are filled in;
    sent: everything ever submitted, which no call reads.
   */
  datatype ProdRing<D> = ProdRing(size: nat, queue: seq<D>, reserved: nat, written: seq<D>, sent: seq<D>) {

    predicate Ok() {
      |queue| + reserved <= size && |written| <= reserved
    }

    /** xsk_ring_prod__reserve: the number reserved, n or 0, and the index of the first entry. */
    function Reserve(n: nat): (r: (ProdRing<D>, nat, nat))
      requires Ok()
      ensures r.0.Ok() && r.1 == if |queue| + reserved + n <= size then n else 0
    {
      if |queue| + reserved + n <= size then (this.(reserved := reserved + n), n, |sent| + reserved)
      else (this, 0, |sent| + reserved)
    }

    /** A write through xsk_ring_prod__fill_addr or xsk_ring_prod__tx_desc: to the next reserved entry. */
    function Write(idx: nat, d: D): (r: ProdRing<D>)
      requires Ok() && |written| < reserved && idx == |sent| + |written|
      ensures r.Ok()
    {
      this.(written := written + [d])
    }

    /** xsk_ring_prod__submit: only entries that were written may be handed over. */
    function Submit(n: nat): (r: ProdRing<D>)
      requires Ok() && n <= |written|
      ensures r.Ok()
    {
      ProdRing(size, queue + written[..n], reserved - n, written[n..], sent + written[..n])
    }

    /** The kernel takes the oldest submitted entry. */
    function Take(): (r: ProdRing<D>)
      requires Ok() && queue != []
      ensures r.Ok()
    {
      this.(queue := queue[1..])
    }
  }

  /** entries: produced and not released, the first `peeked` of them seen by the user; released: how many before. */
  datatype ConsRing<D> = ConsRing(size: nat, entries: seq<D>, peeked: nat, released: nat) {

    predicate Ok() {
      peeked <= |entries| <= size
    }

    /** xsk_ring_cons__peek: how many were got, and the index of the first. */
    function Peek(n: nat): (r: (ConsRing<D>, nat, nat))
      requires Ok()
      ensures r.1 == (if |entries| - peeked < n then |entries| - peeked else n) && r.0.Ok()
    {
      var k := if |entries| - peeked < n then |entries| - peeked else n;
      (this.(peeked := peeked + k), k, released + peeked)
    }

    /** A descriptor pointer is good from its peek until its release. */
    predicate Good(idx: nat) {
      Ok() && released <= idx < released + peeked
    }

    function At(idx: nat): D
      requires Good(idx)
    {
      entries[idx - released]
    }

    function Put(idx: nat, d: D): ConsRing<D>
      requires Good(idx)
    {
      this.(entries := entries[idx - released := d])
    }

    /** xsk_ring_cons__release. */
    function Release(n: nat): (r: ConsRing<D>)
      requires Ok() && n <= peeked
      ensures r.Ok()
    {
      ConsRing(size, entries[n..], peeked - n, released + n)
    }
  }

  // ---------------------------------------------------------------------
  // Frames
  // ---------------------------------------------------------------------

  /** The frames addresses lie in. */
  function Frames(addrs: seq<nat>, frameSize: nat): (r: seq<int>)
    requires frameSize >= 1
    ensures |r| == |addrs|
  {
    seq(|addrs|, i requires 0 <= i < |addrs| => addrs[i] / frameSize)
  }

  function DescFrames(ds: seq<Desc>, frameSize: nat): (r: seq<int>)
    requires frameSize >= 1
    ensures |r| == |ds|
  {
    seq(|ds|, i requires 0 <= i < |ds| => ds[i].addr / frameSize)
  }

  function Addrs(ds: seq<Desc>): (r: seq<nat>)
    ensures |r| == |ds|
  {
    seq(|ds|, i requires 0 <= i < |ds| => ds[i].addr)
  }

  /** Where the frames are: the six places of the loop. */
  datatype Places = Places(fill: seq<int>, kernelRx: seq<int>, rx: seq<int>,
                           tx: seq<int>, kernelTx: seq<int>, comp: seq<int>)
  {
    /** How often frame f occurs in the six places together. */
    ghost function Times(f: int): nat {
      multiset(fill)[f] + multiset(kernelRx)[f] + multiset(rx)[f]
      + multiset(tx)[f] + multiset(kernelTx)[f] + multiset(comp)[f]
    }

    function Count(): nat {
      |fill| + |kernelRx| + |rx| + |tx| + |kernelTx| + |comp|
    }

    /** Each of the frames 0..n is in exactly one of the six places, once, and there is nothing else. */
    ghost predicate Conserved(n: nat) {
      Count() == n && forall f :: Times(f) == if 0 <= f < n then 1 else 0
    }
  }

  /** One frame goes from place to place. */
  datatype Hop = FillToKernel | KernelToRx(j: nat) | RxToFill | RxToTx | TxToKernel | KernelToComp(j: nat) | CompToFill

  predicate CanHop(p: Places, h: Hop) {
    match h
    case FillToKernel => p.fill != []
    case KernelToRx(j) => j < |p.kernelRx|
    case RxToFill => p.rx != []
    case RxToTx => p.rx != []
    case TxToKernel => p.tx != []
    case KernelToComp(j) => j < |p.kernelTx|
    case CompToFill => p.comp != []
  }

  function Hopped(p: Places, h: Hop): Places
    requires CanHop(p, h)
  {
    match h
    case FillToKernel => p.(fill := p.fill[1..], kernelRx := p.kernelRx + [p.fill[0]])
    case KernelToRx(j) => p.(kernelRx := Without(p.kernelRx, j), rx := p.rx + [p.kernelRx[j]])
    case RxToFill => p.(rx := p.rx[1..], fill := p.fill + [p.rx[0]])
    case RxToTx => p.(rx := p.rx[1..], tx := p.tx + [p.rx[0]])
    case TxToKernel => p.(tx := p.tx[1..], kernelTx := p.kernelTx + [p.tx[0]])
    case KernelToComp(j) => p.(kernelTx := Without(p.kernelTx, j), comp := p.comp + [p.kernelTx[j]])
    case CompToFill => p.(comp := p.comp[1..], fill := p.fill + [p.comp[0]])
  }

  function Without<T>(a: seq<T>, j: nat): seq<T>
    requires j < |a|
  {
    a[..j] + a[j + 1..]
  }

  lemma Removed(a: seq<int>, j: nat)
    requires j < |a|
    ensures multiset(a) == multiset(Without(a, j)) + multiset{a[j]}
  {
    assert a == a[..j] + [a[j]] + a[j + 1..];
  }

  lemma RemovedFirst(a: seq<int>)
    requires a != []
    ensures multiset(a) == multiset(a[1..]) + multiset{a[0]}
  {
    assert a == [a[0]] + a[1..];
  }

  lemma KernelHopConserves(p: Places, h: Hop)
    requires CanHop(p, h) && (h.FillToKernel? || h.KernelToRx? || h.TxToKernel? || h.KernelToComp?)
    ensures forall f :: Hopped(p, h).Times(f) == p.Times(f)
  {
    match h
    case FillToKernel => RemovedFirst(p.fill);
    case KernelToRx(j) => Removed(p.kernelRx, j);
    case TxToKernel => RemovedFirst(p.tx);
    case KernelToComp(j) => Removed(p.kernelTx, j);
  }

  lemma UserHopConserves(p: Places, h: Hop)
    requires CanHop(p, h) && (h.RxToFill? || h.RxToTx? || h.CompToFill?)
    ensures forall f :: Hopped(p, h).Times(f) == p.Times(f)
  {
    match h
    case RxToFill => RemovedFirst(p.rx);
    case RxToTx => RemovedFirst(p.rx);
    case CompToFill => RemovedFirst(p.comp);
  }

  /** No hop loses or doubles a frame. */
  lemma HopConserves(p: Places, h: Hop, n: nat)
    requires CanHop(p, h)
    ensures Hopped(p, h).Count() == p.Count()
    ensures forall f :: Hopped(p, h).Times(f) == p.Times(f)
    ensures p.Conserved(n) ==> Hopped(p, h).Conserved(n)
  {
    if h.RxToFill? || h.RxToTx? || h.CompToFill? {
      UserHopConserves(p, h);
    } else {
      KernelHopConserves(p, h);
    }
  }

  /** The initial fill: all frames on the fill ring. */
  lemma AllOnFill(n: nat)
    ensures Places(seq(n, i => i), [], [], [], [], []).Conserved(n)
  {
    var p := Places(seq(n, i => i), [], [], [], [], []);
    forall f ensures p.Times(f) == if 0 <= f < n then 1 else 0 {
      FramesOnce(n, f);
    }
  }

  lemma {:induction false} FramesOnce(n: nat, f: int)
    ensures multiset(seq(n, i => i))[f] == if 0 <= f < n then 1 else 0
  {
    if n == 0 {
      assert seq(n, i => i) == [];
    } else {
      var s: seq<int>, t: seq<int> := seq(n, i => i), seq(n - 1, i => i);
      assert s == t + [n - 1];
      FramesOnce(n - 1, f);
    }
  }

  /** Being in one place excludes every other place, and a second time in the same one. */
  lemma ExactlyOnePlace(p: Places, n: nat, f: int)
    requires p.Conserved(n) && 0 <= f < n
    ensures var in_ := [f in p.fill, f in p.kernelRx, f in p.rx, f in p.tx, f in p.kernelTx, f in p.comp];
            exists k :: 0 <= k < 6 && in_[k] && forall j :: 0 <= j < 6 && j != k ==> !in_[j]
    ensures multiset(p.fill)[f] <= 1 && multiset(p.kernelRx)[f] <= 1 && multiset(p.rx)[f] <= 1
            && multiset(p.tx)[f] <= 1 && multiset(p.kernelTx)[f] <= 1 && multiset(p.comp)[f] <= 1
  {
    var in_ := [f in p.fill, f in p.kernelRx, f in p.rx, f in p.tx, f in p.kernelTx, f in p.comp];
    assert p.Times(f) == 1;
    var k :=
      if in_[0] then 0 else if in_[1] then 1 else if in_[2] then 2
      else if in_[3] then 3 else if in_[4] then 4 else 5;
    assert f in p.fill <==> multiset(p.fill)[f] > 0;
    assert f in p.kernelRx <==> multiset(p.kernelRx)[f] > 0;
    assert f in p.rx <==> multiset(p.rx)[f] > 0;
    assert f in p.tx <==> multiset(p.tx)[f] > 0;
    assert f in p.kernelTx <==> multiset(p.kernelTx)[f] > 0;
    assert f in p.comp <==> multiset(p.comp)[f] > 0;
    assert in_[k] && forall j :: 0 <= j < 6 && j != k ==> !in_[j];
  }

  lemma NoOtherFrames(p: Places, n: nat, f: int)
    requires p.Conserved(n) && (f in p.rx || f in p.comp)
    ensures 0 <= f < n
  {
    assert f in p.rx ==> multiset(p.rx)[f] > 0;
    assert f in p.comp ==> multiset(p.comp)[f] > 0;
    assert p.Times(f) >= 1;
  }

  // ---------------------------------------------------------------------
  // xsk_umem__extract_addr
  // ---------------------------------------------------------------------

  const ADDR_SPAN: nat := 0x1_0000_0000_0000

  /** The low 48 bits of a descriptor address. */
  function ExtractAddr(addr: nat): nat {
    addr % ADDR_SPAN
  }

  lemma ExtractInUmem(addr: nat, frameSize: nat, frames: nat)
    requires frameSize >= 1 && addr / frameSize < frames && frames * frameSize <= ADDR_SPAN
    ensures ExtractAddr(addr) == addr
  {
    assert addr == frameSize * (addr / frameSize) + addr % frameSize;
    assert frameSize * (addr / frameSize) <= frameSize * (frames - 1);
    assert frameSize * (frames - 1) == frames * frameSize - frameSize;
    assert addr < ADDR_SPAN;
  }
}
