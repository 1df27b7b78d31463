/** Seat chains and the free list after an order leaves or joins them. */
module Chains {
  import opened Base
  import opened Seqs
  import opened Links
  import opened Books
  import opened Changes
  import opened Layout

  /** The pool after `h` was bridged over in its maker's chain. */
  function ChainBridged(pool: seq<OrderNode>, h: nat): seq<OrderNode>
    requires h < |pool| && pool[h].makerPrev < |pool| && pool[h].makerNext < |pool|
  {
    var prev, next := pool[h].makerPrev, pool[h].makerNext;
    var p := if prev != NIL then pool[prev := pool[prev].(makerNext := next)] else pool;
    if next != NIL then p[next := p[next].(makerPrev := prev)] else p
  }

  /** The pool after `h` was spliced in between `prev` and `next`. */
  function ChainSpliced(pool: seq<OrderNode>, prev: nat, next: nat, h: nat): seq<OrderNode>
    requires prev < |pool| && next < |pool| && h < |pool| <= 0x1_0000
  {
    var p0 := pool[h := pool[h].(makerPrev := prev, makerNext := next)];
    var p := if prev != NIL then p0[prev := p0[prev].(makerNext := h)] else p0;
    if next != NIL then p[next := p[next].(makerPrev := h)] else p
  }

  function Freed(pool: seq<OrderNode>, h: nat, head: u16): seq<OrderNode>
    requires h < |pool|
  {
    pool[h := pool[h].(next := head, id := FREED_SEQ, lots := 0)]
  }

  function SeatBridged(s: Seat, n: OrderNode): Seat {
    s.(head := if n.makerPrev == NIL then n.makerNext else s.head, count := (s.count - 1) % 0x1_0000)
  }

  function SeatSpliced(s: Seat, prev: nat, h: u16): Seat {
    s.(head := if prev == NIL then h else s.head, count := (s.count + 1) % 0x1_0000)
  }

  /** Only chain links changed, and only on live nodes, outside `h`. */
  ghost predicate OnlyChainLinks(p: seq<OrderNode>, p': seq<OrderNode>, live: set<nat>, h: nat) {
    && |p'| == |p|
    && forall k | 0 <= k < |p| && k != h ::
         && p'[k] == p[k].(makerPrev := p'[k].makerPrev, makerNext := p'[k].makerNext)
         && (k !in live ==> p'[k] == p[k])
  }

  lemma BridgedNode(pool: seq<OrderNode>, h: nat, k: nat)
    requires ChainBridged.requires(pool, h) && 0 < k < |pool|
    ensures var p := ChainBridged(pool, h);
      && |p| == |pool| && p[0] == pool[0]
      && MakerNext(p)(k) == (if k == MakerPrev(pool)(h) then MakerNext(pool)(h) else MakerNext(pool)(k))
      && MakerPrev(p)(k) == (if k == MakerNext(pool)(h) then MakerPrev(pool)(h) else MakerPrev(pool)(k))
      && p[k] == pool[k].(makerPrev := p[k].makerPrev, makerNext := p[k].makerNext)
      && (k != pool[h].makerPrev && k != pool[h].makerNext ==> p[k] == pool[k])
  {}

  lemma SplicedNode(pool: seq<OrderNode>, prev: nat, next: nat, h: nat, k: nat)
    requires ChainSpliced.requires(pool, prev, next, h) && 0 < k < |pool| && 0 < h
    requires prev != h && next != h
    ensures var p := ChainSpliced(pool, prev, next, h);
      && |p| == |pool| && p[0] == pool[0]
      && (k == h ==> MakerNext(p)(k) == next && MakerPrev(p)(k) == prev)
      && (k != h ==> MakerNext(p)(k) == (if k == prev then h else MakerNext(pool)(k)))
      && (k != h ==> MakerPrev(p)(k) == (if k == next then h else MakerPrev(pool)(k)))
      && p[k] == pool[k].(makerPrev := p[k].makerPrev, makerNext := p[k].makerNext)
      && (k != prev && k != next && k != h ==> p[k] == pool[k])
  {}

  lemma BridgeChain(pool: seq<OrderNode>, c: seq<nat>, h: nat)
    requires ChainLinks(pool, c) && Distinct(c) && h in c
    ensures ChainBridged.requires(pool, h)
    ensures ChainLinks(ChainBridged(pool, h), Without(c, h))
    ensures forall k | 0 <= k < |pool| && k !in c :: ChainBridged(pool, h)[k] == pool[k]
  {
    hide ChainBridged, Linked;
    LinkEnds(MakerPrev(pool), MakerNext(pool), c, h);
    assert 0 < h < |pool|;
    forall k: nat | 0 < k < |pool| { BridgedNode(pool, h, k); }
    WithoutMembers(c, h);
    BridgedNode(pool, h, h);
    var p := ChainBridged(pool, h);
    UnlinkLinked(MakerPrev(pool), MakerNext(pool), MakerPrev(p), MakerNext(p), c, h);
  }

  lemma SpliceChain(pool: seq<OrderNode>, c: seq<nat>, i: nat, h: nat)
    requires ChainLinks(pool, c) && Distinct(c) && h !in c && 0 < h < |pool| <= 0x1_0000 && i <= |c|
    ensures At(c, i - 1) < |pool| && At(c, i) < |pool| && At(c, i - 1) != h && At(c, i) != h
    ensures ChainLinks(ChainSpliced(pool, At(c, i - 1), At(c, i), h), InsertAt(c, i, h))
    ensures forall k | 0 <= k < |pool| && k !in c && k != h ::
      ChainSpliced(pool, At(c, i - 1), At(c, i), h)[k] == pool[k]
  {
    hide ChainSpliced, Linked;
    AtIsIn(c, i as int - 1);
    AtIsIn(c, i);
    var prev, next := At(c, i - 1), At(c, i);
    forall k: nat | 0 < k < |pool| { SplicedNode(pool, prev, next, h, k); }
    SplicedNode(pool, prev, next, h, h);
    InsertMembers(c, i, h);
    var p := ChainSpliced(pool, prev, next, h);
    SpliceLinked(MakerPrev(pool), MakerNext(pool), MakerPrev(p), MakerNext(p), c, i, h);
  }

  /** A chain none of whose nodes changed its chain links. */
  lemma ChainUntouched(p: seq<OrderNode>, p': seq<OrderNode>, c: seq<nat>)
    requires ChainLinks(p, c) && |p'| == |p|
    requires forall k | k in c && k < |p| :: p'[k].makerPrev == p[k].makerPrev && p'[k].makerNext == p[k].makerNext
    ensures ChainLinks(p', c)
  {
    SameLinks(MakerPrev(p), MakerNext(p), MakerPrev(p'), MakerNext(p'), c);
  }

  lemma ChainsUntouched(p: seq<OrderNode>, p': seq<OrderNode>, seats: seq<Seat>, chains: seq<seq<nat>>)
    requires ChainsRep(p, seats, chains) && |p'| == |p|
    requires forall k | 0 <= k < |p| :: p'[k].makerPrev == p[k].makerPrev && p'[k].makerNext == p[k].makerNext
    ensures ChainsRep(p', seats, chains)
  {
    forall m | 0 <= m < |chains|
      ensures ChainLinks(p', chains[m])
    {
      ChainUntouched(p, p', chains[m]);
    }
  }

  lemma BridgeSeat(pool: seq<OrderNode>, s: Seat, c: seq<nat>, h: nat)
    requires ChainLinks(pool, c) && Distinct(c) && h in c && h < |pool|
    requires s.head == At(c, 0) && s.count == |c| % 0x1_0000
    ensures var s', r := SeatBridged(s, pool[h]), Without(c, h);
      s'.head == At(r, 0) && s'.count == |r| % 0x1_0000
  {
    hide Linked;
    var i := IndexOf(c, h);
    LinkEnds(MakerPrev(pool), MakerNext(pool), c, h);
    AtWithout(c, h, 0);
    if 0 < i { AtInside(c, i - 1); }
    assert (|c| % 0x1_0000 - 1) % 0x1_0000 == (|c| - 1) % 0x1_0000;
  }

  /** Taking `h` off its chain and freeing it. */
  lemma ChainsBridged(pool: seq<OrderNode>, seats: seq<Seat>, b: Book, h: nat, head: u16)
    requires ChainsRep(pool, seats, b.chains)
    requires h in b.orders && b.OrderOk(h) && forall m | 0 <= m < |b.chains| :: b.ChainOk(m)
    ensures h < |pool| && ChainBridged.requires(pool, h) && |ChainBridged(pool, h)| == |pool|
    ensures var m := b.orders[h].maker;
      ChainsRep(Freed(ChainBridged(pool, h), h, head), seats[m := SeatBridged(seats[m], pool[h])],
                b.chains[m := Without(b.chains[m], h)])
    ensures OnlyChainLinks(pool, Freed(ChainBridged(pool, h), h, head), b.orders.Keys, h)
  {
    hide ChainBridged, ChainLinks, SeatBridged, At, Without, Freed, Book.ChainOk, Distinct;
    var m := b.orders[h].maker;
    BridgeOwn(pool, seats, b, h, head);
    var chains' := b.chains[m := Without(b.chains[m], h)];
    forall j | 0 <= j < |chains'| && j != m
      ensures ChainLinks(Freed(ChainBridged(pool, h), h, head), chains'[j])
    {
      BridgeOther(pool, b, h, head, j);
    }
  }

  lemma BridgeOwn(pool: seq<OrderNode>, seats: seq<Seat>, b: Book, h: nat, head: u16)
    requires ChainsRep(pool, seats, b.chains)
    requires h in b.orders && b.OrderOk(h) && b.ChainOk(b.orders[h].maker)
    ensures h < |pool| && ChainBridged.requires(pool, h) && |ChainBridged(pool, h)| == |pool|
    ensures var m := b.orders[h].maker;
      var s, c := SeatBridged(seats[m], pool[h]), Without(b.chains[m], h);
      && m < |b.chains| && ChainLinks(pool, b.chains[m]) && Distinct(b.chains[m]) && h in b.chains[m]
      && ChainLinks(Freed(ChainBridged(pool, h), h, head), c)
      && s.head == At(c, 0) && s.count == |c| % 0x1_0000
    ensures OnlyChainLinks(pool, Freed(ChainBridged(pool, h), h, head), b.orders.Keys, h)
  {
    hide ChainBridged, ChainLinks, SeatBridged, At, Freed, OnlyChainLinks, Without;
    var m := b.orders[h].maker;
    ChainDistinct(b, m);
    BridgeFreed(pool, b.chains[m], h, head, b.orders.Keys);
    BridgeSeat(pool, seats[m], b.chains[m], h);
  }

  /** A chain without `h`, whose node is now free. */
  lemma BridgeFreed(pool: seq<OrderNode>, c: seq<nat>, h: nat, head: u16, live: set<nat>)
    requires ChainLinks(pool, c) && Distinct(c) && h in c && forall x | x in c :: x in live
    ensures h < |pool| && ChainBridged.requires(pool, h) && |ChainBridged(pool, h)| == |pool|
    ensures ChainLinks(Freed(ChainBridged(pool, h), h, head), Without(c, h))
    ensures OnlyChainLinks(pool, Freed(ChainBridged(pool, h), h, head), live, h)
  {
    hide ChainBridged, Linked;
    BridgeChain(pool, c, h);
    WithoutMembers(c, h);
    var p := ChainBridged(pool, h);
    BridgedNode(pool, h, h);
    ChainUntouched(p, Freed(p, h, head), Without(c, h));
    forall k: nat | 0 < k < |pool| { BridgedNode(pool, h, k); }
  }

  lemma BridgeOther(pool: seq<OrderNode>, b: Book, h: nat, head: u16, j: nat)
    requires h in b.orders && b.OrderOk(h) && j < |b.chains| && b.ChainOk(j) && j != b.orders[h].maker
    requires ChainLinks(pool, b.chains[b.orders[h].maker]) && Distinct(b.chains[b.orders[h].maker])
    requires b.ChainOk(b.orders[h].maker)
    requires ChainLinks(pool, b.chains[j]) && ChainBridged.requires(pool, h)
    requires h < |ChainBridged(pool, h)|
    ensures ChainLinks(Freed(ChainBridged(pool, h), h, head), b.chains[j])
  {
    hide ChainBridged, Linked;
    BridgeChain(pool, b.chains[b.orders[h].maker], h);
    BridgedNode(pool, h, h);
    ChainUntouched(pool, Freed(ChainBridged(pool, h), h, head), b.chains[j]);
  }

  /** Splicing a fresh `h` into a chain at place `i`. */
  lemma ChainsSpliced(pool: seq<OrderNode>, seats: seq<Seat>, b: Book, m: nat, i: nat, h: u16)
    requires ChainsRep(pool, seats, b.chains) && forall j | 0 <= j < |b.chains| :: b.ChainOk(j)
    requires h !in b.orders && 0 < h < |pool| <= 0x1_0000 && m < |b.chains| && i <= |b.chains[m]|
    ensures var c := b.chains[m];
      && ChainSpliced.requires(pool, At(c, i - 1), At(c, i), h)
      && var p := ChainSpliced(pool, At(c, i - 1), At(c, i), h);
         && ChainsRep(p, seats[m := SeatSpliced(seats[m], At(c, i - 1), h)], b.chains[m := InsertAt(c, i, h)])
         && OnlyChainLinks(pool, p, b.orders.Keys, h)
         && p[h] == pool[h].(makerPrev := p[h].makerPrev, makerNext := p[h].makerNext)
  {
    hide ChainSpliced, ChainLinks, At, SeatSpliced, InsertAt;
    var c := b.chains[m];
    assert b.ChainOk(m);
    SpliceOwn(pool, seats, b, m, i, h);
    var chains' := b.chains[m := InsertAt(c, i, h)];
    forall j | 0 <= j < |chains'| && j != m
      ensures ChainLinks(ChainSpliced(pool, At(c, i - 1), At(c, i), h), chains'[j])
    {
      assert b.ChainOk(j);
      SpliceOther(pool, b, m, i, h, j);
    }
  }

  lemma SpliceOwn(pool: seq<OrderNode>, seats: seq<Seat>, b: Book, m: nat, i: nat, h: u16)
    requires ChainsRep(pool, seats, b.chains) && m < |b.chains| && b.ChainOk(m)
    requires h !in b.orders && 0 < h < |pool| <= 0x1_0000 && i <= |b.chains[m]|
    ensures var c := b.chains[m];
      && ChainSpliced.requires(pool, At(c, i - 1), At(c, i), h) && Distinct(c)
      && var p, s, r := ChainSpliced(pool, At(c, i - 1), At(c, i), h), SeatSpliced(seats[m], At(c, i - 1), h),
        InsertAt(c, i, h);
         && ChainLinks(p, r) && s.head == At(r, 0) && s.count == |r| % 0x1_0000
         && OnlyChainLinks(pool, p, b.orders.Keys, h)
         && p[h] == pool[h].(makerPrev := p[h].makerPrev, makerNext := p[h].makerNext)
  {
    hide ChainSpliced, Linked, At, SeatSpliced, InsertAt;
    var c := b.chains[m];
    ChainDistinct(b, m);
    SpliceChain(pool, c, i, h);
    var prev, next := At(c, i - 1), At(c, i);
    forall k: nat | 0 < k < |pool| { SplicedNode(pool, prev, next, h, k); }
    SplicedNode(pool, prev, next, h, h);
    SpliceSeat(seats[m], c, i, h);
    AtIsIn(c, i as int - 1);
    AtIsIn(c, i);
  }

  lemma SpliceSeat(s: Seat, c: seq<nat>, i: nat, h: u16)
    requires s.head == At(c, 0) && s.count == |c| % 0x1_0000 && i <= |c| && 0 !in c
    ensures var s', r := SeatSpliced(s, At(c, i - 1), h), InsertAt(c, i, h);
      s'.head == At(r, 0) && s'.count == |r| % 0x1_0000
  {
    AtInsert(c, i, h, 0);
    AtZero(c, i);
    InsertMembers(c, i, h);
    assert (|c| % 0x1_0000 + 1) % 0x1_0000 == (|c| + 1) % 0x1_0000;
  }

  lemma SpliceOther(pool: seq<OrderNode>, b: Book, m: nat, i: nat, h: u16, j: nat)
    requires m < |b.chains| && b.ChainOk(m) && j < |b.chains| && b.ChainOk(j) && j != m
    requires ChainLinks(pool, b.chains[m]) && Distinct(b.chains[m]) && ChainLinks(pool, b.chains[j])
    requires h !in b.orders && 0 < h < |pool| <= 0x1_0000 && i <= |b.chains[m]|
    requires ChainSpliced.requires(pool, At(b.chains[m], i - 1), At(b.chains[m], i), h)
    ensures ChainLinks(ChainSpliced(pool, At(b.chains[m], i - 1), At(b.chains[m], i), h), b.chains[j])
  {
    hide ChainSpliced, Linked, At;
    var c := b.chains[m];
    SpliceChain(pool, c, i, h);
    SplicedNode(pool, At(c, i - 1), At(c, i), h, h);
    ChainUntouched(pool, ChainSpliced(pool, At(c, i - 1), At(c, i), h), b.chains[j]);
  }

  lemma AtZero(c: seq<nat>, i: nat)
    requires i <= |c|
    ensures i == 0 ==> At(c, i - 1) == 0
    ensures 0 < i ==> At(c, i - 1) == c[i - 1]
  {}

  // ---- the free list ----

  lemma FreeHead(pool: seq<OrderNode>, f: seq<nat>, h: nat)
    requires FreeLinks(pool, f) && 0 < h < |pool| && h !in f
    requires pool[h].next == At(f, 0) && pool[h].id == FREED_SEQ && pool[h].lots == 0
    ensures FreeLinks(pool, [h] + f)
  {
    var g := [h] + f;
    forall i | 0 <= i < |g|
      ensures Next(pool)(g[i]) == At(g, i + 1)
    {
      if i > 0 { assert g[i] == f[i - 1]; }
    }
  }

  lemma FreeTail(pool: seq<OrderNode>, f: seq<nat>)
    requires FreeLinks(pool, f) && f != []
    ensures FreeLinks(pool, f[1..]) && 0 < f[0] < |pool| && pool[f[0]].next == At(f[1..], 0)
  {
    assert Next(pool)(f[0]) == At(f, 1);
    assert forall h | h in f[1..] :: h in f;
    assert f[0] in f;
    forall i | 0 <= i < |f[1..]|
      ensures Next(pool)(f[1..][i]) == At(f[1..], i + 1)
    {
      assert Next(pool)(f[i + 1]) == At(f, i + 2);
    }
  }

  lemma FreeUntouched(p: seq<OrderNode>, p': seq<OrderNode>, f: seq<nat>)
    requires FreeLinks(p, f) && |p'| == |p|
    requires forall k | k in f && k < |p| :: p'[k].next == p[k].next && p'[k].id == p[k].id && p'[k].lots == p[k].lots
    ensures FreeLinks(p', f)
  {
    forall i | 0 <= i < |f|
      ensures Next(p')(f[i]) == At(f, i + 1)
    {
      assert Next(p)(f[i]) == At(f, i + 1) && f[i] in f;
    }
  }
}
