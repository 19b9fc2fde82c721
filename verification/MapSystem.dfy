/**
  Where the maps found in the kernel are placed: five parallel arrays, a cursor
  to the first slot that may be empty, and explicit index requests that move an
  earlier placement out of the way.  Lookup by name stops at the first hole.
 */
module MapSystem {
  const MAX_NR_MAPS: nat := 16

  datatype Name = NoName | Named(name: string)

  /** A requested map: its name, and a slot or -1. */
  datatype Request = Request(wanted: string, index: int)

  /** A map the kernel lists; pool is 0 when no memory is left for its value, area 0 when it is not mapped. */
  datatype KernelMap = KernelMap(title: string, fd: int, valueSize: nat, pool: nat, area: nat)

  /** One slot across the five arrays. */
  datatype Slot = Slot(fd: int, mapName: Name, size: nat, buffer: nat, mapped: nat)

  /** A request met by a kernel map, and where the map is now. */
  datatype Hit = Hit(req: nat, kmap: nat, at: nat)

  function SlotOf(m: KernelMap): (s: Slot)
    ensures s.fd == m.fd && s.mapName == Named(m.title) && s.size == m.valueSize
    ensures s.buffer == m.pool && s.mapped == m.area
  {
    Slot(m.fd, Named(m.title), m.valueSize, m.pool, m.area)
  }

  /** Explicit slots lie in the table. */
  ghost predicate InRange(reqs: seq<Request>) {
    forall i :: 0 <= i < |reqs| ==> -1 <= reqs[i].index < MAX_NR_MAPS
  }

  /** No two requests are for the same name. */
  ghost predicate NamesDiffer(reqs: seq<Request>) {
    forall i, j :: 0 <= i < j < |reqs| ==> reqs[i].wanted != reqs[j].wanted
  }

  /** Besides, no two requests are for the same slot. */
  ghost predicate WellAsked(reqs: seq<Request>) {
    && InRange(reqs) && NamesDiffer(reqs)
    && (forall i, j :: 0 <= i < j < |reqs| && reqs[i].index >= 0 ==> reqs[i].index != reqs[j].index)
  }

  /** Descriptors are never zero. */
  ghost predicate RealFds(maps: seq<KernelMap>) {
    forall k :: 0 <= k < |maps| ==> maps[k].fd != 0
  }

  /** Each name is listed once, in any order. */
  ghost predicate WellListed(maps: seq<KernelMap>) {
    forall k, l :: 0 <= k < l < |maps| ==> maps[k].title != maps[l].title
  }

  predicate Matches(reqs: seq<Request>, maps: seq<KernelMap>, i: nat, k: nat) {
    i < |reqs| && k < |maps| && reqs[i].wanted == maps[k].title
  }

  // ---------------------------------------------------------------------
  // The table
  // ---------------------------------------------------------------------

  ghost predicate Owns(t: seq<Slot>, reqs: seq<Request>, maps: seq<KernelMap>, h: Hit) {
    && Matches(reqs, maps, h.req, h.kmap)
    && h.at < |t| && t[h.at] == SlotOf(maps[h.kmap])
  }

  /** A later hit asked for the same slot. */
  ghost predicate Evicted(reqs: seq<Request>, hits: seq<Hit>, p: nat)
    requires p < |hits| && hits[p].req < |reqs|
  {
    exists q :: p < q < |hits| && hits[q].req < |reqs| && reqs[hits[q].req].index == reqs[hits[p].req].index
  }

  /** A map with an explicit slot is there, unless evicted. */
  ghost predicate Pinned(reqs: seq<Request>, hits: seq<Hit>, p: nat) {
    && p < |hits| && hits[p].req < |reqs|
    && (reqs[hits[p].req].index >= 0 ==> hits[p].at == reqs[hits[p].req].index || Evicted(reqs, hits, p))
  }

  ghost predicate AllPinned(reqs: seq<Request>, hits: seq<Hit>) {
    forall p :: 0 <= p < |hits| ==> Pinned(reqs, hits, p)
  }

  ghost predicate Held(hits: seq<Hit>, c: nat) {
    exists p :: 0 <= p < |hits| && hits[p].at == c
  }

  ghost predicate Met(hits: seq<Hit>, i: nat, k: nat) {
    exists p :: 0 <= p < |hits| && hits[p].req == i && hits[p].kmap == k
  }

  ghost function Filled(t: seq<Slot>): set<nat> {
    set c: nat | c < |t| && t[c].fd != 0
  }

  /** No two hits share a slot, or both the request and the map. */
  ghost predicate Apart(hits: seq<Hit>) {
    forall p, q :: 0 <= p < q < |hits| ==>
      hits[p].at != hits[q].at && (hits[p].req != hits[q].req || hits[p].kmap != hits[q].kmap)
  }

  /** The match of request i and map k is not among the hits. */
  ghost predicate NewMatch(hits: seq<Hit>, i: nat, k: nat) {
    forall p :: 0 <= p < |hits| ==> hits[p].req != i || hits[p].kmap != k
  }

  /** Each match has its map in one slot; the other slots are empty. */
  ghost predicate Placed(t: seq<Slot>, reqs: seq<Request>, maps: seq<KernelMap>, hits: seq<Hit>) {
    && |t| == MAX_NR_MAPS && Apart(hits) && AllOwn(t, reqs, maps, hits) && Covered(t, hits) && |Filled(t)| == |hits|
  }

  ghost predicate AllOwn(t: seq<Slot>, reqs: seq<Request>, maps: seq<KernelMap>, hits: seq<Hit>) {
    forall p :: 0 <= p < |hits| ==> Owns(t, reqs, maps, hits[p])
  }

  ghost predicate Covered(t: seq<Slot>, hits: seq<Hit>) {
    forall c: nat :: c < |t| ==> (t[c].fd != 0 <==> Held(hits, c)) && (t[c].mapName.Named? <==> t[c].fd != 0)
  }

  /** Slots below the cursor are filled; a map beyond it asked for its slot. */
  ghost predicate Packed(t: seq<Slot>, reqs: seq<Request>, hits: seq<Hit>, cursor: nat) {
    && cursor < |t|
    && (forall c: nat :: c < cursor ==> t[c].fd != 0)
    && (forall p :: 0 <= p < |hits| ==>
          hits[p].at <= cursor || (hits[p].req < |reqs| && reqs[hits[p].req].index == hits[p].at))
  }

  ghost predicate Good(t: seq<Slot>, reqs: seq<Request>, maps: seq<KernelMap>, hits: seq<Hit>, cursor: nat) {
    Placed(t, reqs, maps, hits) && Packed(t, reqs, hits, cursor) && AllPinned(reqs, hits)
  }

  // ---------------------------------------------------------------------
  // One placement
  // ---------------------------------------------------------------------

  /** Putting a map into an empty slot. */
  lemma PutNew(t: seq<Slot>, reqs: seq<Request>, maps: seq<KernelMap>, hits: seq<Hit>, cursor: nat, h: Hit)
    requires Good(t, reqs, maps, hits, cursor) && h.at < MAX_NR_MAPS && t[h.at].fd == 0
    requires Matches(reqs, maps, h.req, h.kmap) && maps[h.kmap].fd != 0
    requires reqs[h.req].index >= 0 ==> h.at == reqs[h.req].index
    requires reqs[h.req].index < 0 ==> h.at == cursor
    requires NewMatch(hits, h.req, h.kmap)
    ensures Good(t[h.at := SlotOf(maps[h.kmap])], reqs, maps, hits + [h], cursor)
  {
    var t', hits' := t[h.at := SlotOf(maps[h.kmap])], hits + [h];
    assert !Held(hits, h.at);
    ApartSnoc(hits, h);
    CoveredSnoc(t, hits, h, maps[h.kmap]);
    OwnSnoc(t, reqs, maps, hits, h);
    PackedSnoc(t, reqs, hits, cursor, h, SlotOf(maps[h.kmap]));
    PinnedSnoc(reqs, hits, h);
    assert Filled(t') == Filled(t) + {h.at};
  }

  lemma OwnSnoc(t: seq<Slot>, reqs: seq<Request>, maps: seq<KernelMap>, hits: seq<Hit>, h: Hit)
    requires AllOwn(t, reqs, maps, hits) && h.at < |t| && !Held(hits, h.at)
    requires Matches(reqs, maps, h.req, h.kmap)
    ensures AllOwn(t[h.at := SlotOf(maps[h.kmap])], reqs, maps, hits + [h])
  {
    var t', hits' := t[h.at := SlotOf(maps[h.kmap])], hits + [h];
    forall p | 0 <= p < |hits'|
      ensures Owns(t', reqs, maps, hits'[p])
    {
      if p < |hits| {
        assert Owns(t, reqs, maps, hits[p]) && hits[p].at != h.at;
      }
    }
  }

  lemma PinnedSnoc(reqs: seq<Request>, hits: seq<Hit>, h: Hit)
    requires AllPinned(reqs, hits) && h.req < |reqs| && (reqs[h.req].index >= 0 ==> h.at == reqs[h.req].index)
    ensures AllPinned(reqs, hits + [h])
  {
    forall p | 0 <= p < |hits + [h]| ensures Pinned(reqs, hits + [h], p) {
      if p < |hits| {
        assert Pinned(reqs, hits, p);
        if Evicted(reqs, hits, p) {
          var q :| p < q < |hits| && hits[q].req < |reqs| && reqs[hits[q].req].index == reqs[hits[p].req].index;
          assert (hits + [h])[q] == hits[q];
        }
      }
    }
  }

  /** Who is moved away from its own slot is evicted by the newcomer. */
  lemma MovedPinned(reqs: seq<Request>, hits: seq<Hit>, cursor: nat, h: Hit)
    requires AllPinned(reqs, hits) && h.req < |reqs| && h.at == reqs[h.req].index
    ensures AllPinned(reqs, Moved(hits, h.at, cursor) + [h])
  {
    var all := Moved(hits, h.at, cursor) + [h];
    forall p | 0 <= p < |all| ensures Pinned(reqs, all, p) {
      if p < |hits| {
        assert Pinned(reqs, hits, p) && all[p].req == hits[p].req && all[|hits|] == h;
        if Evicted(reqs, hits, p) {
          var q :| p < q < |hits| && hits[q].req < |reqs| && reqs[hits[q].req].index == reqs[hits[p].req].index;
          assert all[q].req == hits[q].req;
        }
      }
    }
  }

  lemma PackedSnoc(t: seq<Slot>, reqs: seq<Request>, hits: seq<Hit>, cursor: nat, h: Hit, now: Slot)
    requires Packed(t, reqs, hits, cursor) && h.at < |t| && now.fd != 0 && h.req < |reqs|
    requires h.at == cursor || h.at == reqs[h.req].index
    ensures Packed(t[h.at := now], reqs, hits + [h], cursor)
  {
  }

  lemma ApartSnoc(hits: seq<Hit>, h: Hit)
    requires Apart(hits) && !Held(hits, h.at) && NewMatch(hits, h.req, h.kmap)
    ensures Apart(hits + [h])
  {
  }

  lemma CoveredSnoc(t: seq<Slot>, hits: seq<Hit>, h: Hit, m: KernelMap)
    requires h.at < |t| && m.fd != 0
    requires forall c: nat :: c < |t| && c != h.at ==>
               (t[c].fd != 0 <==> Held(hits, c)) && (t[c].mapName.Named? <==> t[c].fd != 0)
    ensures Covered(t[h.at := SlotOf(m)], hits + [h])
  {
    var t' := t[h.at := SlotOf(m)];
    forall c: nat | c < |t'|
      ensures (t'[c].fd != 0 <==> Held(hits + [h], c)) && (t'[c].mapName.Named? <==> t'[c].fd != 0)
    {
      HeldSnoc(hits, h, c);
    }
  }

  lemma HeldSnoc(hits: seq<Hit>, h: Hit, c: nat)
    ensures Held(hits + [h], c) <==> Held(hits, c) || h.at == c
  {
    if Held(hits, c) {
      var p :| 0 <= p < |hits| && hits[p].at == c;
      assert (hits + [h])[p].at == c;
    }
    assert (hits + [h])[|hits|] == h;
  }

  /** Moving the map of slot `from` to the empty slot `to`; `from` keeps a stale copy. */
  ghost function Moved(hits: seq<Hit>, from: nat, to: nat): (r: seq<Hit>)
    ensures |r| == |hits|
  {
    seq(|hits|, p requires 0 <= p < |hits| => if hits[p].at == from then hits[p].(at := to) else hits[p])
  }

  /** Moving an earlier placement to the cursor and taking its slot. */
  lemma PutMoved(t: seq<Slot>, reqs: seq<Request>, maps: seq<KernelMap>, hits: seq<Hit>, cursor: nat, h: Hit)
    requires Good(t, reqs, maps, hits, cursor)
    requires h.at < MAX_NR_MAPS && t[h.at].fd != 0 && t[cursor].fd == 0
    requires Matches(reqs, maps, h.req, h.kmap) && maps[h.kmap].fd != 0 && h.at == reqs[h.req].index
    requires NewMatch(hits, h.req, h.kmap)
    ensures var t' := t[cursor := t[h.at]][h.at := SlotOf(maps[h.kmap])];
            Good(t', reqs, maps, Moved(hits, h.at, cursor) + [h], cursor)
  {
    var from := h.at;
    var t1, moved := t[cursor := t[from]], Moved(hits, from, cursor);
    PlaceMoved(t, reqs, maps, hits, cursor, h);
    MovedPacked(t, reqs, hits, cursor, from);
    MovedPinned(reqs, hits, cursor, h);
    PackedSnoc(t1, reqs, moved, cursor, h, SlotOf(maps[h.kmap]));
  }

  lemma PlaceMoved(t: seq<Slot>, reqs: seq<Request>, maps: seq<KernelMap>, hits: seq<Hit>, cursor: nat, h: Hit)
    requires Placed(t, reqs, maps, hits) && h.at < MAX_NR_MAPS && cursor < MAX_NR_MAPS
    requires t[h.at].fd != 0 && t[cursor].fd == 0
    requires Matches(reqs, maps, h.req, h.kmap) && maps[h.kmap].fd != 0 && NewMatch(hits, h.req, h.kmap)
    ensures var t' := t[cursor := t[h.at]][h.at := SlotOf(maps[h.kmap])];
            Placed(t', reqs, maps, Moved(hits, h.at, cursor) + [h])
  {
    var from := h.at;
    var t1, moved := t[cursor := t[from]], Moved(hits, from, cursor);
    var t' := t1[from := SlotOf(maps[h.kmap])];
    assert !Held(hits, cursor) && Held(hits, from);
    forall c: nat ensures Held(moved, c) <==> c == cursor || (Held(hits, c) && c != from) {
      HeldMoved(hits, from, cursor, c);
    }
    MovedApart(hits, from, cursor);
    ApartSnoc(moved, h);
    CoveredSnoc(t1, moved, h, maps[h.kmap]);
    MovedOwn(t, reqs, maps, hits, cursor, h);
    assert Filled(t') == Filled(t) + {cursor};
  }

  lemma MovedApart(hits: seq<Hit>, from: nat, to: nat)
    requires Apart(hits) && !Held(hits, to)
    ensures Apart(Moved(hits, from, to))
  {
  }

  lemma MovedPacked(t: seq<Slot>, reqs: seq<Request>, hits: seq<Hit>, cursor: nat, from: nat)
    requires Packed(t, reqs, hits, cursor) && from < |t| && t[from].fd != 0
    ensures Packed(t[cursor := t[from]], reqs, Moved(hits, from, cursor), cursor)
  {
  }

  lemma MovedOwn(t: seq<Slot>, reqs: seq<Request>, maps: seq<KernelMap>, hits: seq<Hit>, cursor: nat, h: Hit)
    requires AllOwn(t, reqs, maps, hits)
    requires h.at < |t| && cursor < |t| && !Held(hits, cursor) && h.at != cursor
    requires Matches(reqs, maps, h.req, h.kmap)
    ensures AllOwn(t[cursor := t[h.at]][h.at := SlotOf(maps[h.kmap])], reqs, maps, Moved(hits, h.at, cursor) + [h])
  {
    var t', moved := t[cursor := t[h.at]][h.at := SlotOf(maps[h.kmap])], Moved(hits, h.at, cursor);
    forall p | 0 <= p < |hits|
      ensures Owns(t', reqs, maps, moved[p])
    {
      assert Owns(t, reqs, maps, hits[p]);
      if hits[p].at != h.at {
        assert hits[p].at != cursor;
      }
    }
  }

  lemma HeldMoved(hits: seq<Hit>, from: nat, to: nat, c: nat)
    requires Held(hits, from) && !Held(hits, to)
    ensures Held(Moved(hits, from, to), c) <==> c == to || (Held(hits, c) && c != from)
  {
    var moved := Moved(hits, from, to);
    if c == to {
      var p :| 0 <= p < |hits| && hits[p].at == from;
      assert moved[p].at == to;
    } else if Held(hits, c) && c != from {
      var p :| 0 <= p < |hits| && hits[p].at == c;
      assert moved[p].at == c;
    }
    if Held(moved, c) {
      var p :| 0 <= p < |moved| && moved[p].at == c;
      assert Held(hits, hits[p].at);
    }
  }

  // ---------------------------------------------------------------------
  // Room
  // ---------------------------------------------------------------------

  ghost function Asked(hits: seq<Hit>): set<nat> {
    set p | 0 <= p < |hits| :: hits[p].req
  }

  lemma {:induction false} AskedSize(hits: seq<Hit>)
    requires forall p, q :: 0 <= p < q < |hits| ==> hits[p].req != hits[q].req
    ensures |Asked(hits)| == |hits|
  {
    if hits != [] {
      var init, last := hits[..|hits| - 1], hits[|hits| - 1];
      AskedSize(init);
      assert Asked(hits) == Asked(init) + {last.req};
    }
  }

  lemma {:induction false} SizeBelow(s: set<nat>, n: nat)
    requires forall x :: x in s ==> x < n
    ensures |s| <= n
    ensures |s| == n ==> forall x: nat :: x < n ==> x in s
  {
    if n == 0 {
      assert s == {};
    } else {
      var rest := s - {n - 1};
      SizeBelow(rest, n - 1);
      if n - 1 in s {
        assert |s| == |rest| + 1;
      } else {
        assert rest == s;
      }
    }
  }

  /** With fewer hits than slots the table has an empty slot. */
  lemma RoomLeft(t: seq<Slot>, reqs: seq<Request>, maps: seq<KernelMap>, hits: seq<Hit>)
    requires Placed(t, reqs, maps, hits) && |hits| < MAX_NR_MAPS
    ensures exists c: nat :: c < MAX_NR_MAPS && t[c].fd == 0
  {
    if forall c: nat :: c < MAX_NR_MAPS ==> c in Filled(t) {
      SizeFull(Filled(t), MAX_NR_MAPS);
    }
  }

  lemma {:induction false} SizeFull(s: set<nat>, n: nat)
    requires forall x: nat :: x in s <==> x < n
    ensures |s| == n
  {
    if n == 0 {
      assert s == {};
    } else {
      SizeFull(s - {n - 1}, n - 1);
      assert |s| == |s - {n - 1}| + 1;
    }
  }

  // ---------------------------------------------------------------------
  // What lookup by name reaches
  // ---------------------------------------------------------------------

  /** The first slot with the name, with no hole before it. */
  ghost predicate Reached(t: seq<Slot>, c: nat, name: string) {
    && c < |t| && t[c].mapName == Named(name)
    && forall b :: 0 <= b < c ==> t[b].mapName.Named? && t[b].mapName != Named(name)
  }

  ghost function TitleOf(maps: seq<KernelMap>, h: Hit): string
    requires h.kmap < |maps|
  {
    maps[h.kmap].title
  }

  /** With distinct names on both sides a request has one hit, and its explicit slot. */
  lemma OneHitEach(t: seq<Slot>, reqs: seq<Request>, maps: seq<KernelMap>, hits: seq<Hit>, p: nat, q: nat)
    requires NamesDiffer(reqs) && WellListed(maps) && Placed(t, reqs, maps, hits) && p < |hits| && q < |hits| && p != q
    ensures hits[p].req != hits[q].req
    ensures hits[p].kmap < |maps| && hits[q].kmap < |maps| && TitleOf(maps, hits[p]) != TitleOf(maps, hits[q])
  {
    assert Owns(t, reqs, maps, hits[p]) && Owns(t, reqs, maps, hits[q]);
  }

  /** Of the hits that asked for one slot the last is in it. */
  lemma {:induction false} LastAsker(reqs: seq<Request>, hits: seq<Hit>, p: nat) returns (q: nat)
    requires AllPinned(reqs, hits) && p < |hits| && hits[p].req < |reqs| && reqs[hits[p].req].index >= 0
    ensures q < |hits| && hits[q].req < |reqs| && reqs[hits[q].req].index == reqs[hits[p].req].index == hits[q].at
    decreases |hits| - p
  {
    assert Pinned(reqs, hits, p);
    if hits[p].at == reqs[hits[p].req].index {
      q := p;
    } else {
      var r :| p < r < |hits| && hits[r].req < |reqs| && reqs[hits[r].req].index == reqs[hits[p].req].index;
      q := LastAsker(reqs, hits, r);
    }
  }

  lemma ExplicitInPlace(t: seq<Slot>, reqs: seq<Request>, maps: seq<KernelMap>, hits: seq<Hit>, cursor: nat, p: nat)
    requires WellAsked(reqs) && WellListed(maps) && Good(t, reqs, maps, hits, cursor) && p < |hits|
    ensures hits[p].req < |reqs| && (reqs[hits[p].req].index >= 0 ==> hits[p].at == reqs[hits[p].req].index)
  {
    assert Pinned(reqs, hits, p);
    forall q | p < q < |hits| ensures hits[q].req != hits[p].req {
      OneHitEach(t, reqs, maps, hits, p, q);
    }
  }

  /** A found map is reached exactly when no slot before it is empty. */
  lemma ReachedBeforeHole(t: seq<Slot>, reqs: seq<Request>, maps: seq<KernelMap>, hits: seq<Hit>, p: nat)
    requires NamesDiffer(reqs) && WellListed(maps) && Placed(t, reqs, maps, hits) && p < |hits|
    ensures Owns(t, reqs, maps, hits[p])
    ensures Reached(t, hits[p].at, TitleOf(maps, hits[p])) <==> forall c: nat :: c < hits[p].at ==> t[c].fd != 0
  {
    assert Owns(t, reqs, maps, hits[p]);
    var at, title := hits[p].at, TitleOf(maps, hits[p]);
    if forall c: nat :: c < at ==> t[c].fd != 0 {
      forall b | 0 <= b < at
        ensures t[b].mapName.Named? && t[b].mapName != Named(title)
      {
        assert t[b].fd != 0 && Held(hits, b);
        var q :| 0 <= q < |hits| && hits[q].at == b;
        assert Owns(t, reqs, maps, hits[q]);
        OneHitEach(t, reqs, maps, hits, p, q);
      }
    }
  }

  lemma PrefixSize(t: seq<Slot>, n: nat)
    requires n <= |t| && forall c: nat :: c < n ==> t[c].fd != 0
    ensures |Filled(t)| >= n
  {
    var low := set c | c in Filled(t) && c < n;
    SizeFull(low, n);
    SubsetSize(low, Filled(t));
  }

  lemma SubsetSize(a: set<nat>, b: set<nat>)
    requires a <= b
    ensures |a| <= |b|
  {
    assert b == a + (b - a);
  }

  /** If every explicit request that was found lies below the number found, the filled slots are the first ones. */
  lemma FilledPrefix(t: seq<Slot>, reqs: seq<Request>, maps: seq<KernelMap>, hits: seq<Hit>, cursor: nat)
    requires Good(t, reqs, maps, hits, cursor)
    requires forall p :: 0 <= p < |hits| ==> (Owns(t, reqs, maps, hits[p]) && reqs[hits[p].req].index < |hits|)
    ensures forall c: nat :: c < MAX_NR_MAPS ==> (t[c].fd != 0 <==> c < |hits|)
  {
    var m := |hits|;
    forall c | c in Filled(t) ensures c < m {
      assert Held(hits, c);
      var p :| 0 <= p < m && hits[p].at == c;
      assert Owns(t, reqs, maps, hits[p]);
      if c >= m {
        PrefixSize(t, c + 1);
      }
    }
    SizeBelow(Filled(t), m);
    forall c: nat | c < MAX_NR_MAPS ensures t[c].fd != 0 <==> c < m {
      assert t[c].fd != 0 <==> c in Filled(t);
    }
  }

  /** Lookup finds every found map at its slot exactly when every explicit one lies below their number. */
  lemma LookupComplete(t: seq<Slot>, reqs: seq<Request>, maps: seq<KernelMap>, hits: seq<Hit>, cursor: nat)
    requires NamesDiffer(reqs) && WellListed(maps) && Good(t, reqs, maps, hits, cursor)
    ensures forall p :: 0 <= p < |hits| ==> Owns(t, reqs, maps, hits[p])
    ensures (forall p :: 0 <= p < |hits| ==> Reached(t, hits[p].at, TitleOf(maps, hits[p])))
            <==> (forall p :: 0 <= p < |hits| ==> reqs[hits[p].req].index < |hits|)
  {
    if forall p :: 0 <= p < |hits| ==> reqs[hits[p].req].index < |hits| {
      FilledPrefix(t, reqs, maps, hits, cursor);
      forall p | 0 <= p < |hits|
        ensures Reached(t, hits[p].at, TitleOf(maps, hits[p]))
      {
        ReachedBeforeHole(t, reqs, maps, hits, p);
      }
    } else {
      var p :| 0 <= p < |hits| && reqs[hits[p].req].index >= |hits|;
      var q := LastAsker(reqs, hits, p);
      ReachedBeforeHole(t, reqs, maps, hits, q);
      if Reached(t, hits[q].at, TitleOf(maps, hits[q])) {
        PrefixSize(t, hits[q].at + 1);
      }
    }
  }

  /** A name that met no request is not found, whatever was placed. */
  lemma UnknownName(t: seq<Slot>, reqs: seq<Request>, maps: seq<KernelMap>, hits: seq<Hit>, name: string, c: nat)
    requires Placed(t, reqs, maps, hits) && Reached(t, c, name)
    ensures exists p :: 0 <= p < |hits| && hits[p].kmap < |maps| && TitleOf(maps, hits[p]) == name && hits[p].at == c
  {
    assert Held(hits, c);
    var p :| 0 <= p < |hits| && hits[p].at == c;
    assert Owns(t, reqs, maps, hits[p]);
  }

  /** With each name listed once, a slot reached by a listed name holds that listed map. */
  lemma ReachedIsListed(t: seq<Slot>, reqs: seq<Request>, maps: seq<KernelMap>, hits: seq<Hit>, c: nat, k: nat)
    requires WellListed(maps) && Placed(t, reqs, maps, hits) && k < |maps| && Reached(t, c, maps[k].title)
    ensures t[c] == SlotOf(maps[k])
  {
    UnknownName(t, reqs, maps, hits, maps[k].title, c);
    var p :| 0 <= p < |hits| && hits[p].kmap < |maps| && TitleOf(maps, hits[p]) == maps[k].title && hits[p].at == c;
    assert Owns(t, reqs, maps, hits[p]);
    assert hits[p].kmap == k;
  }

  /** fd is what lookup of the name returns. */
  ghost predicate LooksUp(t: seq<Slot>, name: string, fd: int) {
    && (forall c: nat :: Reached(t, c, name) ==> fd == t[c].fd)
    && ((forall c: nat :: !Reached(t, c, name)) ==> fd == 0)
  }

  /** With each name listed once, lookup of a listed name returns that map's own descriptor, or 0. */
  lemma LooksUpOwn(t: seq<Slot>, reqs: seq<Request>, maps: seq<KernelMap>, hits: seq<Hit>, k: nat, fd: int)
    requires WellListed(maps) && Placed(t, reqs, maps, hits) && k < |maps| && LooksUp(t, maps[k].title, fd)
    ensures fd == 0 || fd == maps[k].fd
    ensures forall i: nat :: Matches(reqs, maps, i, k) && Findable(t, reqs, i) ==> fd == maps[k].fd
  {
    forall c: nat | Reached(t, c, maps[k].title) ensures t[c].fd == maps[k].fd {
      ReachedIsListed(t, reqs, maps, hits, c, k);
    }
  }

  /** Every request is met by some listed map. */
  ghost predicate AllListed(reqs: seq<Request>, maps: seq<KernelMap>) {
    forall i: nat :: i < |reqs| ==> Listed(reqs, maps, i)
  }

  ghost predicate Listed(reqs: seq<Request>, maps: seq<KernelMap>, i: nat) {
    exists k: nat :: Matches(reqs, maps, i, k)
  }

  /** Lookup finds the map of request i, at the slot it asked for if it asked for one. */
  ghost predicate Findable(t: seq<Slot>, reqs: seq<Request>, i: nat)
    requires i < |reqs|
  {
    exists c: nat :: Reached(t, c, reqs[i].wanted) && c < |reqs| && (reqs[i].index >= 0 ==> c == reqs[i].index)
  }

  ghost predicate Settled(t: seq<Slot>, reqs: seq<Request>, maps: seq<KernelMap>, hits: seq<Hit>, cursor: nat) {
    && Good(t, reqs, maps, hits, cursor)
    && forall i: nat, k: nat :: Matches(reqs, maps, i, k) ==> Met(hits, i, k)
  }

  /** Every request has exactly one hit. */
  lemma AllAsked(t: seq<Slot>, reqs: seq<Request>, maps: seq<KernelMap>, hits: seq<Hit>, cursor: nat)
    requires NamesDiffer(reqs) && WellListed(maps) && Settled(t, reqs, maps, hits, cursor) && AllListed(reqs, maps)
    ensures |hits| == |reqs| && forall p :: 0 <= p < |hits| ==> Owns(t, reqs, maps, hits[p])
    ensures forall i: nat :: i in Asked(hits) <==> i < |reqs|
  {
    forall p, q | 0 <= p < q < |hits| ensures hits[p].req != hits[q].req {
      OneHitEach(t, reqs, maps, hits, p, q);
    }
    AskedSize(hits);
    forall i: nat
      ensures i in Asked(hits) <==> i < |reqs|
    {
      if i < |reqs| {
        assert Listed(reqs, maps, i);
        var k: nat :| Matches(reqs, maps, i, k);
        assert Met(hits, i, k);
      }
      assert forall p :: 0 <= p < |hits| ==> Owns(t, reqs, maps, hits[p]) && hits[p].req < |reqs|;
    }
    SizeFull(Asked(hits), |reqs|);
  }

  /**
    k requests, all listed by the kernel, with explicit slots below k: in any
    listing order slots 0..k-1 end filled and the rest empty, each explicit
    request at its slot, and lookup finds every requested map.
   */
  lemma AllRequestsFound(t: seq<Slot>, reqs: seq<Request>, maps: seq<KernelMap>, hits: seq<Hit>, cursor: nat)
    requires WellAsked(reqs) && WellListed(maps) && Settled(t, reqs, maps, hits, cursor) && AllListed(reqs, maps)
    requires forall i :: 0 <= i < |reqs| ==> reqs[i].index < |reqs|
    ensures forall c: nat :: c < MAX_NR_MAPS ==> (t[c].fd != 0 <==> c < |reqs|)
    ensures forall i: nat :: i < |reqs| ==> Findable(t, reqs, i)
  {
    AllAsked(t, reqs, maps, hits, cursor);
    LookupComplete(t, reqs, maps, hits, cursor);
    FilledPrefix(t, reqs, maps, hits, cursor);
    forall i: nat | i < |reqs|
      ensures Findable(t, reqs, i)
    {
      assert i in Asked(hits);
      var p :| 0 <= p < |hits| && hits[p].req == i;
      assert Reached(t, hits[p].at, TitleOf(maps, hits[p]));
      ExplicitInPlace(t, reqs, maps, hits, cursor, p);
      assert Held(hits, hits[p].at);
    }
  }

  /** A lone request for slot 5 is placed there, and never found: slot 0 is a hole. */
  lemma LoneRequestMissed(t: seq<Slot>, m: KernelMap, hits: seq<Hit>, cursor: nat, c: nat)
    requires m.fd != 0 && Settled(t, [Request(m.title, 5)], [m], hits, cursor)
    ensures t[5] == SlotOf(m) && !Reached(t, c, m.title)
  {
    var reqs, maps := [Request(m.title, 5)], [m];
    assert Matches(reqs, maps, 0, 0) && Met(hits, 0, 0);
    forall p | 0 <= p < |hits| ensures Owns(t, reqs, maps, hits[p]) && hits[p].at == 5 {
      assert Owns(t, reqs, maps, hits[p]);
      ExplicitInPlace(t, reqs, maps, hits, cursor, p);
    }
    assert !Held(hits, 0);
    assert Reached(t, c, m.title) ==> Held(hits, c);
  }

  // ---------------------------------------------------------------------
  // The order of the two loops
  // ---------------------------------------------------------------------

  /** Whether the loops come to map l and request j before map k and request i. */
  predicate Before(l: nat, j: nat, k: nat, i: nat) {
    l < k || (l == k && j < i)
  }

  /** There is no memory for a map that was asked for. */
  predicate Needs(reqs: seq<Request>, maps: seq<KernelMap>, j: nat, l: nat) {
    Matches(reqs, maps, j, l) && maps[l].pool == 0
  }

  ghost predicate Starved(reqs: seq<Request>, maps: seq<KernelMap>, k: nat, i: nat) {
    exists j: nat, l: nat :: Needs(reqs, maps, j, l) && Before(l, j, k, i)
  }

  /** The hits are exactly the matches already passed. */
  ghost predicate MetBefore(reqs: seq<Request>, maps: seq<KernelMap>, hits: seq<Hit>, k: nat, i: nat) {
    && (forall p :: 0 <= p < |hits| ==> Before(hits[p].kmap, hits[p].req, k, i))
    && (forall j: nat, l: nat :: Matches(reqs, maps, j, l) && Before(l, j, k, i) ==> Met(hits, j, l))
  }

  lemma NextIsNew(reqs: seq<Request>, maps: seq<KernelMap>, hits: seq<Hit>, k: nat, i: nat)
    requires MetBefore(reqs, maps, hits, k, i)
    ensures NewMatch(hits, i, k)
  {
    forall p | 0 <= p < |hits| ensures hits[p].req != i || hits[p].kmap != k {
      assert Before(hits[p].kmap, hits[p].req, k, i);
    }
  }

  /** The matches the loops come to before map k and request i. */
  function MatchCount(reqs: seq<Request>, maps: seq<KernelMap>, k: nat, i: nat): nat
    decreases k, i
  {
    if i > 0 then MatchCount(reqs, maps, k, i - 1) + if Matches(reqs, maps, i - 1, k) then 1 else 0
    else if k > 0 then MatchCount(reqs, maps, k - 1, |reqs|)
    else 0
  }

  function AllMatches(reqs: seq<Request>, maps: seq<KernelMap>): nat {
    MatchCount(reqs, maps, |maps|, 0)
  }

  lemma {:induction false} CountToRow(reqs: seq<Request>, maps: seq<KernelMap>, k: nat, i: nat)
    requires i <= |reqs|
    ensures MatchCount(reqs, maps, k, i) <= MatchCount(reqs, maps, k, |reqs|)
    decreases |reqs| - i
  {
    if i < |reqs| {
      CountToRow(reqs, maps, k, i + 1);
    }
  }

  lemma {:induction false} CountToEnd(reqs: seq<Request>, maps: seq<KernelMap>, k: nat)
    requires k <= |maps|
    ensures MatchCount(reqs, maps, k, 0) <= AllMatches(reqs, maps)
    decreases |maps| - k
  {
    if k < |maps| {
      CountToRow(reqs, maps, k, 0);
      CountToEnd(reqs, maps, k + 1);
    }
  }

  /** A match still to come leaves the count below the total. */
  lemma MatchAhead(reqs: seq<Request>, maps: seq<KernelMap>, k: nat, i: nat)
    requires Matches(reqs, maps, i, k)
    ensures MatchCount(reqs, maps, k, i) < AllMatches(reqs, maps)
  {
    CountToRow(reqs, maps, k, i + 1);
    CountToEnd(reqs, maps, k + 1);
  }

  ghost function MetRequests(reqs: seq<Request>, maps: seq<KernelMap>, k: nat, i: nat): set<nat> {
    set j: nat | j < |reqs| && MetSoFar(reqs, maps, j, k, i)
  }

  ghost predicate MetSoFar(reqs: seq<Request>, maps: seq<KernelMap>, j: nat, k: nat, i: nat) {
    exists l: nat :: Matches(reqs, maps, j, l) && Before(l, j, k, i)
  }

  lemma MetOneMore(reqs: seq<Request>, maps: seq<KernelMap>, k: nat, i: nat)
    requires WellListed(maps) && i < |reqs|
    ensures MetRequests(reqs, maps, k, i + 1)
            == MetRequests(reqs, maps, k, i) + if Matches(reqs, maps, i, k) then {i} else {}
    ensures Matches(reqs, maps, i, k) ==> i !in MetRequests(reqs, maps, k, i)
  {
    forall j: nat | j < |reqs|
      ensures MetSoFar(reqs, maps, j, k, i + 1)
              <==> MetSoFar(reqs, maps, j, k, i) || (j == i && Matches(reqs, maps, i, k))
    {
      if MetSoFar(reqs, maps, j, k, i) {
        var l: nat :| Matches(reqs, maps, j, l) && Before(l, j, k, i);
        assert Matches(reqs, maps, j, l) && Before(l, j, k, i + 1);
      }
      if j == i && Matches(reqs, maps, i, k) {
        assert Matches(reqs, maps, i, k) && Before(k, i, k, i + 1);
      }
    }
  }

  /** With each name listed once a request is met at most once. */
  lemma {:induction false} CountIsMet(reqs: seq<Request>, maps: seq<KernelMap>, k: nat, i: nat)
    requires WellListed(maps) && i <= |reqs|
    ensures MatchCount(reqs, maps, k, i) == |MetRequests(reqs, maps, k, i)|
    decreases k, i
  {
    if i > 0 {
      CountIsMet(reqs, maps, k, i - 1);
      MetOneMore(reqs, maps, k, i - 1);
    } else if k > 0 {
      CountIsMet(reqs, maps, k - 1, |reqs|);
      assert forall j: nat :: j < |reqs| ==>
        (MetSoFar(reqs, maps, j, k, 0) <==> MetSoFar(reqs, maps, j, k - 1, |reqs|));
      assert MetRequests(reqs, maps, k, 0) == MetRequests(reqs, maps, k - 1, |reqs|);
    } else {
      assert MetRequests(reqs, maps, 0, 0) == {};
    }
  }

  /** So then there are no more matches than requests. */
  lemma FewMatches(reqs: seq<Request>, maps: seq<KernelMap>)
    requires WellListed(maps)
    ensures AllMatches(reqs, maps) <= |reqs|
  {
    CountIsMet(reqs, maps, |maps|, 0);
    SizeBelow(MetRequests(reqs, maps, |maps|, 0), |reqs|);
  }

  lemma NextMap(reqs: seq<Request>, maps: seq<KernelMap>, hits: seq<Hit>, k: nat)
    requires MetBefore(reqs, maps, hits, k, |reqs|) && !Starved(reqs, maps, k, |reqs|)
    ensures MetBefore(reqs, maps, hits, k + 1, 0) && !Starved(reqs, maps, k + 1, 0)
  {
  }

  lemma MetSnoc(reqs: seq<Request>, maps: seq<KernelMap>, hits: seq<Hit>, next: seq<Hit>, k: nat, i: nat)
    requires MetBefore(reqs, maps, hits, k, i)
    requires |next| == |hits| + 1 && next[|hits|].req == i && next[|hits|].kmap == k
    requires forall p :: 0 <= p < |hits| ==> next[p].req == hits[p].req && next[p].kmap == hits[p].kmap
    ensures MetBefore(reqs, maps, next, k, i + 1)
  {
    forall j: nat, l: nat | Matches(reqs, maps, j, l) && Before(l, j, k, i + 1)
      ensures Met(next, j, l)
    {
      if Before(l, j, k, i) {
        assert Met(hits, j, l);
        var p :| 0 <= p < |hits| && hits[p].req == j && hits[p].kmap == l;
        assert next[p].req == j && next[p].kmap == l;
      } else {
        assert next[|hits|].req == j && next[|hits|].kmap == l;
      }
    }
  }

  // ---------------------------------------------------------------------
  // The arrays
  // ---------------------------------------------------------------------

  class MapTable {
    const names: array<Name>
    const fds: array<int>
    const valueSize: array<nat>
    const valuePool: array<nat>
    const mmapArea: array<nat>

    ghost predicate Valid() {
      && names.Length == fds.Length == valueSize.Length == valuePool.Length == mmapArea.Length == MAX_NR_MAPS
      && valueSize != valuePool && valueSize != mmapArea && valuePool != mmapArea
    }

    /** The five arrays, slot by slot. */
    ghost function Table(): (t: seq<Slot>)
      reads names, fds, valueSize, valuePool, mmapArea
      requires Valid()
      ensures |t| == MAX_NR_MAPS
    {
      seq(MAX_NR_MAPS, c requires 0 <= c < MAX_NR_MAPS reads names, fds, valueSize, valuePool, mmapArea =>
        Slot(fds[c], names[c], valueSize[c], valuePool[c], mmapArea[c]))
    }

    /** Slot c of the five arrays: descriptor, name, value size, value buffer, mapped area of map m. */
    ghost predicate Recorded(c: nat, m: KernelMap)
      reads names, fds, valueSize, valuePool, mmapArea
      requires Valid() && c < MAX_NR_MAPS
    {
      && fds[c] == m.fd && names[c] == Named(m.title) && valueSize[c] == m.valueSize
      && valuePool[c] == m.pool && mmapArea[c] == m.area
    }

    /** Every hit has its map recorded in its slot; no other slot is in use. */
    ghost predicate AllRecorded(maps: seq<KernelMap>, hits: seq<Hit>)
      reads names, fds, valueSize, valuePool, mmapArea
      requires Valid()
    {
      && (forall p :: 0 <= p < |hits| ==>
            hits[p].kmap < |maps| && hits[p].at < MAX_NR_MAPS && Recorded(hits[p].at, maps[hits[p].kmap]))
      && (forall c: nat :: c < MAX_NR_MAPS && !Held(hits, c) ==> fds[c] == 0 && names[c] == NoName)
    }

    lemma PlacedRecorded(reqs: seq<Request>, maps: seq<KernelMap>, hits: seq<Hit>)
      requires Valid() && Placed(Table(), reqs, maps, hits)
      ensures AllRecorded(maps, hits)
    {
      forall p | 0 <= p < |hits|
        ensures hits[p].kmap < |maps| && hits[p].at < MAX_NR_MAPS && Recorded(hits[p].at, maps[hits[p].kmap])
      {
        assert Owns(Table(), reqs, maps, hits[p]);
      }
      forall c: nat | c < MAX_NR_MAPS && !Held(hits, c) ensures fds[c] == 0 && names[c] == NoName {
        assert Table()[c].fd == fds[c] && Table()[c].mapName == names[c];
      }
    }

    constructor ()
      ensures Valid() && Table() == seq(MAX_NR_MAPS, c => Slot(0, NoName, 0, 0, 0))
      ensures fresh(names) && fresh(fds) && fresh(valueSize) && fresh(valuePool) && fresh(mmapArea)
    {
      names := new Name[MAX_NR_MAPS](_ => NoName);
      fds := new int[MAX_NR_MAPS](_ => 0);
      valueSize := new nat[MAX_NR_MAPS](_ => 0);
      valuePool := new nat[MAX_NR_MAPS](_ => 0);
      mmapArea := new nat[MAX_NR_MAPS](_ => 0);
    }

    /** Skipping the slots used before: it stays inside the table. */
    method FirstEmpty(start: nat) returns (cursor: nat)
      requires Valid() && start < MAX_NR_MAPS
      requires exists c :: start <= c < MAX_NR_MAPS && Table()[c].fd == 0
      ensures start <= cursor < MAX_NR_MAPS && Table()[cursor].fd == 0
      ensures forall c :: start <= c < cursor ==> Table()[c].fd != 0
    {
      cursor := start;
      while fds[cursor] != 0
        invariant start <= cursor < MAX_NR_MAPS
        invariant exists c :: cursor <= c < MAX_NR_MAPS && Table()[c].fd == 0
        invariant forall c :: start <= c < cursor ==> Table()[c].fd != 0
        decreases MAX_NR_MAPS - cursor
      {
        assert Table()[cursor].fd != 0;
        cursor := cursor + 1;
      }
    }

    /** The relocation: all five arrays are copied. */
    method CopySlot(from: nat, to: nat)
      requires Valid() && from < MAX_NR_MAPS && to < MAX_NR_MAPS
      modifies names, fds, valueSize, valuePool, mmapArea
      ensures Table() == old(Table())[to := old(Table())[from]]
    {
      fds[to] := fds[from];
      names[to] := names[from];
      valueSize[to] := valueSize[from];
      valuePool[to] := valuePool[from];
      mmapArea[to] := mmapArea[from];
    }

    /** Recording a map in a slot; it stops half way when there is no memory for its value. */
    method Record(c: nat, name: string, m: KernelMap) returns (ret: int)
      requires Valid() && c < MAX_NR_MAPS && name == m.title
      modifies names, fds, valueSize, valuePool, mmapArea
      ensures ret == if m.pool == 0 then 1 else 0
      ensures ret == 0 ==> Table() == old(Table())[c := SlotOf(m)] && Recorded(c, m)
    {
      fds[c] := m.fd;
      names[c] := Named(name);
      valueSize[c] := m.valueSize;
      if m.pool == 0 {
        return 1;
      }
      valuePool[c] := m.pool;
      mmapArea[c] := m.area;
      ret := 0;
    }

    /** One match of a request and a listed map. */
    method PlaceMap(reqs: seq<Request>, i: nat, maps: seq<KernelMap>, k: nat, start: nat, ghost hits: seq<Hit>)
      returns (ret: int, cursor: nat, ghost hits': seq<Hit>)
      requires Valid() && InRange(reqs) && Matches(reqs, maps, i, k) && maps[k].fd != 0
      requires Good(Table(), reqs, maps, hits, start) && NewMatch(hits, i, k) && |hits| < MAX_NR_MAPS
      modifies names, fds, valueSize, valuePool, mmapArea
      ensures ret == if maps[k].pool == 0 then 1 else 0
      ensures ret == 0 ==> Good(Table(), reqs, maps, hits', cursor) && AllRecorded(maps, hits')
      ensures |hits'| == |hits| + 1 && hits'[|hits|].req == i && hits'[|hits|].kmap == k
      ensures forall p :: 0 <= p < |hits| ==> hits'[p].req == hits[p].req && hits'[p].kmap == hits[p].kmap
    {
      RoomLeft(Table(), reqs, maps, hits);
      cursor := FirstEmpty(start);
      assert Good(Table(), reqs, maps, hits, cursor);
      var cur;
      cur, hits' := MakeRoom(reqs, i, maps, k, cursor, hits);
      hits' := hits' + [Hit(i, k, cur)];
      ret := Record(cur, reqs[i].wanted, maps[k]);
      if ret == 0 {
        PlacedRecorded(reqs, maps, hits');
      }
    }

    /** Choosing the slot; an earlier map in a requested slot moves to the cursor. */
    method MakeRoom(reqs: seq<Request>, i: nat, maps: seq<KernelMap>, k: nat, cursor: nat, ghost hits: seq<Hit>)
      returns (cur: nat, ghost hits': seq<Hit>)
      requires Valid() && InRange(reqs) && Matches(reqs, maps, i, k) && maps[k].fd != 0
      requires Good(Table(), reqs, maps, hits, cursor) && Table()[cursor].fd == 0
      requires NewMatch(hits, i, k)
      modifies names, fds, valueSize, valuePool, mmapArea
      ensures cur < MAX_NR_MAPS
      ensures Good(Table()[cur := SlotOf(maps[k])], reqs, maps, hits' + [Hit(i, k, cur)], cursor)
      ensures |hits'| == |hits|
      ensures forall p :: 0 <= p < |hits| ==> hits'[p].req == hits[p].req && hits'[p].kmap == hits[p].kmap
    {
      ghost var t := Table();
      hits' := hits;
      if reqs[i].index == -1 {
        cur := cursor;
        PutNew(t, reqs, maps, hits, cursor, Hit(i, k, cur));
      } else {
        cur := reqs[i].index;
        assert t[cur].fd == fds[cur];
        if fds[cur] != 0 {
          PutMoved(t, reqs, maps, hits, cursor, Hit(i, k, cur));
          CopySlot(cur, cursor);
          hits' := Moved(hits, cur, cursor);
        } else {
          PutNew(t, reqs, maps, hits, cursor, Hit(i, k, cur));
        }
      }
    }

    /**
      setup_map_system: for each listed map, each request it meets.  It fails
      when there are too many requests or no memory for a map that was asked
      for; otherwise every match is placed.  More matches than slots would send
      the cursor past the arrays; distinct names rule that out (FewMatches).
     */
    method SetupMapSystem(reqs: seq<Request>, maps: seq<KernelMap>)
      returns (ret: int, ghost hits: seq<Hit>, ghost cursor: nat)
      requires Valid() && Table() == seq(MAX_NR_MAPS, c => Slot(0, NoName, 0, 0, 0))
      requires |reqs| <= MAX_NR_MAPS ==> InRange(reqs) && AllMatches(reqs, maps) <= MAX_NR_MAPS
      requires RealFds(maps)
      modifies names, fds, valueSize, valuePool, mmapArea
      ensures ret == if |reqs| > MAX_NR_MAPS || Starved(reqs, maps, |maps|, 0) then 1 else 0
      ensures |reqs| > MAX_NR_MAPS ==> Table() == old(Table())
      ensures ret == 0 ==> Settled(Table(), reqs, maps, hits, cursor) && AllRecorded(maps, hits)
      ensures ret == 0 && WellAsked(reqs) && WellListed(maps) && AllListed(reqs, maps)
              && (forall i :: 0 <= i < |reqs| ==> reqs[i].index < |reqs|)
              ==> (forall c: nat :: c < MAX_NR_MAPS ==> (Table()[c].fd != 0 <==> c < |reqs|))
                  && (forall i: nat :: i < |reqs| ==> Findable(Table(), reqs, i))
    {
      hits, cursor := [], 0;
      if |reqs| > MAX_NR_MAPS {
        return 1, hits, cursor;
      }
      var last: nat := 0;
      assert Filled(Table()) == {};
      for k := 0 to |maps|
        invariant Good(Table(), reqs, maps, hits, last) && !Starved(reqs, maps, k, 0)
        invariant MetBefore(reqs, maps, hits, k, 0) && |hits| == MatchCount(reqs, maps, k, 0)
      {
        ret, last, hits := PlaceListed(reqs, maps, k, last, hits);
        if ret != 0 {
          return 1, hits, cursor;
        }
        NextMap(reqs, maps, hits, k);
      }
      if && WellAsked(reqs) && WellListed(maps) && AllListed(reqs, maps)
         && forall i :: 0 <= i < |reqs| ==> reqs[i].index < |reqs| {
        AllRequestsFound(Table(), reqs, maps, hits, last);
      }
      PlacedRecorded(reqs, maps, hits);
      return 0, hits, last;
    }

    /** The inner loop: every request the map meets. */
    method PlaceListed(reqs: seq<Request>, maps: seq<KernelMap>, k: nat, start: nat, ghost hits0: seq<Hit>)
      returns (ret: int, last: nat, ghost hits: seq<Hit>)
      requires Valid() && InRange(reqs) && RealFds(maps) && k < |maps| && AllMatches(reqs, maps) <= MAX_NR_MAPS
      requires Good(Table(), reqs, maps, hits0, start) && MetBefore(reqs, maps, hits0, k, 0)
      requires |hits0| == MatchCount(reqs, maps, k, 0)
      requires !Starved(reqs, maps, k, 0)
      modifies names, fds, valueSize, valuePool, mmapArea
      ensures ret == 0 ==> Good(Table(), reqs, maps, hits, last) && MetBefore(reqs, maps, hits, k, |reqs|)
      ensures ret == 0 ==> !Starved(reqs, maps, k, |reqs|) && |hits| == MatchCount(reqs, maps, k, |reqs|)
      ensures ret != 0 ==> Starved(reqs, maps, |maps|, 0)
    {
      ret, last, hits := 0, start, hits0;
      for i := 0 to |reqs|
        invariant ret == 0 && Good(Table(), reqs, maps, hits, last) && !Starved(reqs, maps, k, i)
        invariant MetBefore(reqs, maps, hits, k, i) && |hits| == MatchCount(reqs, maps, k, i)
      {
        if reqs[i].wanted == maps[k].title {
          ghost var next;
          NextIsNew(reqs, maps, hits, k, i);
          MatchAhead(reqs, maps, k, i);
          ret, last, next := PlaceMap(reqs, i, maps, k, last, hits);
          if ret != 0 {
            assert Needs(reqs, maps, i, k);
            return;
          }
          MetSnoc(reqs, maps, hits, next, k, i);
          hits := next;
        }
      }
    }

    // Lookup by name.

    /** _get_map_fd: the descriptor of the first slot with the name, 0 when a hole comes first. */
    method GetMapFd(name: string) returns (fd: int)
      requires Valid()
      ensures LooksUp(Table(), name, fd)
    {
      for i := 0 to MAX_NR_MAPS
        invariant forall b :: 0 <= b < i ==> Table()[b].mapName.Named? && Table()[b].mapName != Named(name)
      {
        assert names[i] == Table()[i].mapName && fds[i] == Table()[i].fd;
        if names[i] == NoName {
          return 0;
        } else if names[i] == Named(name) {
          assert Reached(Table(), i, name);
          return fds[i];
        }
      }
      return 0;
    }

    /**
      A lookup after a setup, with each name listed once: the descriptor is that
      of the listed map with the name, or 0; it is the map's for every requested
      map when all requests are listed and their explicit slots below their number.
     */
    method LookUpAfterSetup(reqs: seq<Request>, maps: seq<KernelMap>, k: nat) returns (ret: int, fd: int)
      requires Valid() && Table() == seq(MAX_NR_MAPS, c => Slot(0, NoName, 0, 0, 0))
      requires |reqs| <= MAX_NR_MAPS ==> InRange(reqs)
      requires RealFds(maps) && WellListed(maps) && k < |maps|
      modifies names, fds, valueSize, valuePool, mmapArea
      ensures ret == 0 ==> fd == 0 || fd == maps[k].fd
      ensures ret == 0 && WellAsked(reqs) && AllListed(reqs, maps)
              && (forall i :: 0 <= i < |reqs| ==> reqs[i].index < |reqs|)
              ==> forall i: nat :: Matches(reqs, maps, i, k) ==> fd == maps[k].fd
    {
      FewMatches(reqs, maps);
      ghost var hits, cursor;
      ret, hits, cursor := SetupMapSystem(reqs, maps);
      fd := GetMapFd(maps[k].title);
      if ret == 0 {
        LooksUpOwn(Table(), reqs, maps, hits, k, fd);
      }
    }

    /** _get_map_fd_and_idx: the same, and the slot; idx keeps its value when nothing is found. */
    method GetMapFdAndIdx(name: string, idx0: int) returns (fd: int, idx: int)
      requires Valid()
      ensures forall c: nat :: Reached(Table(), c, name) ==> fd == Table()[c].fd && idx == c
      ensures (forall c: nat :: !Reached(Table(), c, name)) ==> fd == 0 && idx == idx0
    {
      idx := idx0;
      for i := 0 to MAX_NR_MAPS
        invariant idx == idx0
        invariant forall b :: 0 <= b < i ==> Table()[b].mapName.Named? && Table()[b].mapName != Named(name)
      {
        assert names[i] == Table()[i].mapName && fds[i] == Table()[i].fd;
        if names[i] == NoName {
          return 0, idx;
        } else if names[i] == Named(name) {
          assert Reached(Table(), i, name);
          return fds[i], i;
        }
      }
      return 0, idx;
    }
  }
}
