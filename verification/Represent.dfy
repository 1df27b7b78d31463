/** When a market account represents a book, and the steps between two books. */
module Represent {
  import opened Base
  import opened Bitmaps
  import opened Seqs
  import opened Links
  import opened Books
  import opened Changes
  import Ops
  import opened Layout
  import opened Queues
  import opened Chains

  datatype Raw = Raw(
    header: Market, bidBits: set<nat>, askBits: set<nat>,
    levels: seq<Level>, seats: seq<Seat>, pool: seq<OrderNode>)

  ghost predicate Sizes(r: Raw, b: Book) {
    |r.levels| == WINDOW_TICKS && |r.seats| == MAX_SEATS && |r.pool| == b.p.capacity <= 0x1_0000
  }

  /** Nodes, levels, bitmaps, chains and the free list. */
  ghost predicate Lists(r: Raw, b: Book) {
    && Sizes(r, b)
    && NodesRep(r.pool, b.orders)
    && QueuesRep(r.pool, r.levels, r.bidBits, r.askBits, b)
    && ChainsRep(r.pool, r.seats, b.chains)
    && FreeRep(r.pool, r.header.freeHead, r.header.freeCount, b.free)
  }

  ghost predicate Rep(r: Raw, b: Book) {
    Lists(r, b) && FundsRep(r.seats, b.balances) && HeaderRep(r.header, b)
  }

  /** `h` is off its queue but still on its chain, and its node is as it was. */
  ghost predicate QueueOff(r: Raw, b: Book, h: nat)
    requires h in b.orders && b.OrderOk(h)
  {
    && Sizes(r, b)
    && NodesRep(r.pool, b.orders)
    && QueuesRep(r.pool, r.levels, r.bidBits, r.askBits, Unlist(b, h))
    && ChainsRep(r.pool, r.seats, b.chains)
    && FreeRep(r.pool, r.header.freeHead, r.header.freeCount, b.free)
  }

  lemma QueueLinksOnly(p: seq<OrderNode>, p': seq<OrderNode>, seats: seq<Seat>, b: Book)
    requires OnlyQueueLinks(p, p', b.orders.Keys)
    requires NodesRep(p, b.orders) && ChainsRep(p, seats, b.chains) && FreeLinks(p, b.free)
    requires forall h | h in b.free :: h !in b.orders
    ensures NodesRep(p', b.orders) && ChainsRep(p', seats, b.chains) && FreeLinks(p', b.free)
  {
    ChainsUntouched(p, p', seats, b.chains);
    FreeUntouched(p, p', b.free);
  }

  /** Taking an order off its queue. */
  lemma UnqueueLists(r: Raw, b: Book, h: nat)
    requires Lists(r, b) && b.Structure() && b.Uncrossed() && h in b.orders
    ensures b.OrderOk(h) && h < |r.pool| && NodeIs(r.pool[h], b.orders[h]) && QueueBridged.requires(r.pool, h)
    ensures var o := b.orders[h];
      var slot := Slot(o.tick);
      var l := LevelBridged(r.levels[slot], r.pool[h]);
      QueueOff(r.(pool := QueueBridged(r.pool, h), levels := r.levels[slot := l],
                  bidBits := BitsAfter(r.bidBits, Bid, o.side, slot, l),
                  askBits := BitsAfter(r.askBits, Ask, o.side, slot, l)), b, h)
  {
    hide QueueBridged, LevelBridged, QueuesRep, Book.Uncrossed, Book.Structure, ChainsRep, FreeLinks, NodeIs;
    Facts(b, h);
    ChainsAndFree(b);
    QueuesBridged(r.pool, r.levels, r.bidBits, r.askBits, b, h);
    QueueLinksOnly(r.pool, QueueBridged(r.pool, h), r.seats, b);
    QueuesSize(r, b);
  }

  lemma QueuesSize(r: Raw, b: Book)
    requires QueuesRep(r.pool, r.levels, r.bidBits, r.askBits, b)
    ensures |r.levels| == WINDOW_TICKS
  {}

  /** Queues see only the links and sizes of their own nodes. */
  lemma QueuesUntouched(p: seq<OrderNode>, p': seq<OrderNode>, levels: seq<Level>, bidBits: set<nat>, askBits: set<nat>,
                        b: Book, c: Book)
    requires QueuesRep(p, levels, bidBits, askBits, b) && |p'| == |p|
    requires c.bids == b.bids && c.asks == b.asks && c.anchor == b.anchor
    requires forall h | h in b.orders && h < |p| :: p'[h].prev == p[h].prev && p'[h].next == p[h].next
    requires forall h | h in b.orders :: LotsOf(c.orders)(h) == LotsOf(b.orders)(h)
    requires forall t, h | t in b.bids && h in b.bids[t] :: h in b.orders
    requires forall t, h | t in b.asks && h in b.asks[t] :: h in b.orders
    ensures QueuesRep(p', levels, bidBits, askBits, c)
  {
    forall t | t in b.bids
      ensures LevelIs(p', levels[Slot(t)], c.orders, c.bids[t])
    {
      LevelUntouched(p, p', levels[Slot(t)], b.orders, c.orders, b.bids[t]);
    }
    forall t | t in b.asks
      ensures LevelIs(p', levels[Slot(t)], c.orders, c.asks[t])
    {
      LevelUntouched(p, p', levels[Slot(t)], b.orders, c.orders, b.asks[t]);
    }
  }

  lemma QueuedAreLive(b: Book)
    requires b.Structure()
    ensures forall t, h | t in b.bids && h in b.bids[t] :: h in b.orders
    ensures forall t, h | t in b.asks && h in b.asks[t] :: h in b.orders
  {
    forall t | t in b.bids ensures forall h | h in b.bids[t] :: h in b.orders { assert b.QueueOk(Bid, t); }
    forall t | t in b.asks ensures forall h | h in b.asks[t] :: h in b.orders { assert b.QueueOk(Ask, t); }
  }

  /** A change of chain links and of a node outside every queue and the free list. */
  lemma ChainLinksOnly(p: seq<OrderNode>, p': seq<OrderNode>, r: Raw, live: set<nat>, c: Book, h: nat)
    requires OnlyChainLinks(p, p', live, h) && c.Structure() && h !in c.orders
    requires QueuesRep(p, r.levels, r.bidBits, r.askBits, c)
    ensures QueuesRep(p', r.levels, r.bidBits, r.askBits, c)
    ensures NodesRep(p, c.orders) ==> NodesRep(p', c.orders)
  {
    hide QueuesRep;
    QueuedAreLive(c);
    QueuesUntouched(p, p', r.levels, r.bidBits, r.askBits, c, c);
  }

  lemma FreeGains(p: seq<OrderNode>, p': seq<OrderNode>, live: set<nat>, f: seq<nat>, h: nat)
    requires OnlyChainLinks(p, p', live, h) && FreeLinks(p, f) && h !in f && 0 < h < |p|
    requires forall x | x in f :: x !in live
    requires p'[h].next == At(f, 0) && p'[h].id == FREED_SEQ && p'[h].lots == 0
    ensures FreeLinks(p', [h] + f)
  {
    FreeUntouched(p, p', f);
    FreeHead(p', f, h);
  }

  /** Taking an unqueued order off its chain and freeing its node. */
  lemma UnchainLists(r: Raw, b: Book, h: nat)
    requires b.Structure() && h in b.orders && b.OrderOk(h) && QueueOff(r, b, h)
    requires h <= U16_MAX && r.header.freeCount < U32_MAX
    ensures h < |r.pool| && ChainBridged.requires(r.pool, h) && |ChainBridged(r.pool, h)| == |r.pool|
    ensures NodeIs(r.pool[h], b.orders[h]) && b.orders[h].maker < MAX_SEATS
    ensures var m := b.orders[h].maker;
      Lists(r.(pool := Freed(ChainBridged(r.pool, h), h, r.header.freeHead),
               seats := r.seats[m := SeatBridged(r.seats[m], r.pool[h])],
               header := r.header.(freeHead := h, freeCount := r.header.freeCount + 1)), Unlist(b, h))
  {
    hide ChainBridged, QueuesRep, ChainsRep, SeatBridged, Unlist, Book.Structure, FreeLinks, OnlyChainLinks, NodeIs;
    var p, c := r.pool, Unlist(b, h);
    ChainsAndFree(b);
    ChainsBridged(p, r.seats, b, h, r.header.freeHead);
    var p' := Freed(ChainBridged(p, h), h, r.header.freeHead);
    UnlistStructure(b, h);
    UnlistParts(b, h);
    OnlyChainLength(p, p', b.orders.Keys, h);
    ChainLinksOnly(p, p', r, b.orders.Keys, c, h);
    FreeGains(p, p', b.orders.Keys, b.free, h);
  }

  lemma OnlyChainLength(p: seq<OrderNode>, p': seq<OrderNode>, live: set<nat>, h: nat)
    requires OnlyChainLinks(p, p', live, h)
    ensures |p'| == |p|
  {}

  lemma ChainsAndFree(b: Book)
    requires b.Structure()
    ensures |b.chains| == MAX_SEATS && forall m | 0 <= m < |b.chains| :: b.ChainOk(m)
    ensures forall x | x in b.free :: x !in b.orders && 0 < x < b.p.capacity
  {}

  lemma UnlistParts(b: Book, h: nat)
    requires h in b.orders && b.OrderOk(h)
    ensures var o, c := b.orders[h], Unlist(b, h);
      && c.p == b.p && c.anchor == b.anchor && c.orders == b.orders - {h} && c.free == [h] + b.free
      && c.chains == b.chains[o.maker := Without(b.chains[o.maker], h)]
      && c.balances == b.balances && c.fees == b.fees && c.issued == b.issued
  {}

  // ---- a new order ----

  /** `next_order_id`: the id handed out for a raw counter; all-ones is skipped. */
  function IdFor(raw: u64): (id: u64)
    ensures id != FREED_SEQ
  {
    if raw == FREED_SEQ then 0 else raw
  }

  /** The raw counter hands out stamp after stamp, reduced modulo 2^64 - 1. */
  lemma NextId(raw: u64, issued: nat)
    requires SeqRep(raw, issued)
    ensures IdFor(raw) == issued % FREED_SEQ
    ensures SeqRep(WrappingAdd(IdFor(raw), 1), issued + 1)
  {
    var id := IdFor(raw);
    assert WrappingAdd(id, 1) == id + 1;
    assert (issued + 1) % FREED_SEQ == (issued % FREED_SEQ + 1) % FREED_SEQ;
  }

  /** A node with a fresh order's fields; its links are as they were. */
  function FreshNode(n: OrderNode, tick: u32, side: Side, maker: u16, lots: u32, expiry: u32, id: u64): OrderNode {
    n.(tick := tick, side := side, maker := maker, lots := lots, expiry := expiry, id := id)
  }

  /** The order at `free[0]` is on its queue but on no chain yet. */
  ghost predicate QueueOn(r: Raw, b: Book, c: Book) {
    && Sizes(r, b)
    && NodesRep(r.pool, c.orders)
    && QueuesRep(r.pool, r.levels, r.bidBits, r.askBits, c)
    && ChainsRep(r.pool, r.seats, b.chains)
    && FreeRep(r.pool, r.header.freeHead, r.header.freeCount, c.free)
  }

  /** Writing a free node's fields disturbs nothing that is listed. */
  lemma FillNode(r: Raw, b: Book, h: nat, n: OrderNode)
    requires Lists(r, b) && b.Structure() && h in b.free && h < |r.pool|
    requires n.prev == r.pool[h].prev && n.next == r.pool[h].next
    requires n.makerPrev == r.pool[h].makerPrev && n.makerNext == r.pool[h].makerNext
    ensures var p := r.pool[h := n];
      && NodesRep(p, b.orders)
      && QueuesRep(p, r.levels, r.bidBits, r.askBits, b)
      && ChainsRep(p, r.seats, b.chains)
  {
    hide QueuesRep, ChainsRep, NodeIs, Book.Structure;
    var p := r.pool[h := n];
    ChainsAndFree(b);
    QueuedAreLive(b);
    QueuesUntouched(r.pool, p, r.levels, r.bidBits, r.askBits, b, b);
    ChainsUntouched(r.pool, p, r.seats, b.chains);
  }

  lemma FreeLoses(p: seq<OrderNode>, p': seq<OrderNode>, f: seq<nat>)
    requires FreeLinks(p, f) && f != [] && Distinct(f) && |p'| == |p|
    requires forall k | 0 <= k < |p| && k != f[0] && k in f :: p'[k] == p[k]
    ensures FreeLinks(p', f[1..])
  {
    FreeTail(p, f);
    assert forall k | k in f[1..] :: k in f && k != f[0];
    FreeUntouched(p, p', f[1..]);
  }

  lemma EnlistParts(b: Book, side: Side, tick: nat, lots: nat, m: nat, expiry: nat, i: nat)
    requires b.free != [] && m < |b.chains| && i <= |b.chains[m]|
    ensures var c := Enlist(b, side, tick, lots, m, expiry, i);
      && c.p == b.p && c.anchor == b.anchor && c.free == b.free[1..] && c.issued == b.issued + 1
      && c.orders == b.orders[b.free[0] := Order(side, tick, m, lots, expiry, b.issued)]
      && c.chains == b.chains[m := InsertAt(b.chains[m], i, b.free[0])]
      && c.balances == b.balances && c.fees == b.fees
  {}

  /** Allocating, filling and queueing a node. */
  lemma EnqueueLists(r: Raw, b: Book, side: Side, tick: u32, lots: u32, m: u16, expiry: u32, id: u64)
    requires Lists(r, b) && b.Structure() && b.Uncrossed() && MayJoin(b, side, tick, m, 0)
    requires id == b.issued % FREED_SEQ
    ensures var h, slot := b.free[0], Slot(tick);
      && h == r.header.freeHead < |r.pool| && 0 < r.header.freeCount
      && var p := r.pool[h := FreshNode(r.pool[h], tick, side, m, lots, expiry, id)];
         var l := r.levels[slot];
         && l.tail < |r.pool| && l.tail != h
         && QueueOn(r.(pool := QueueAppended(p, l.tail, h),
                       levels := r.levels[slot := LevelAppended(l, h, lots, tick in b.Levels(side))],
                       bidBits := if side.Bid? then r.bidBits + {slot} else r.bidBits,
                       askBits := if side.Ask? then r.askBits + {slot} else r.askBits,
                       header := r.header.(freeHead := r.pool[h].next, freeCount := r.header.freeCount - 1)),
                    b, Enlist(b, side, tick, lots, m, expiry, 0))
  {
    hide QueuesRep, ChainsRep, Book.Uncrossed, QueueAppended, LevelAppended, Enlist, FreeLinks;
    var h := b.free[0];
    FreeTail(r.pool, b.free);
    assert b.free[0] in b.free;
    var n := FreshNode(r.pool[h], tick, side, m, lots, expiry, id);
    var p := r.pool[h := n];
    FillNode(r, b, h, n);
    QueuesAppended(p, r.levels, r.bidBits, r.askBits, b, side, tick, lots, m, expiry, 0);
    QueuesSize(r, b);
    var l := r.levels[Slot(tick)];
    var p' := QueueAppended(p, l.tail, h);
    EnlistParts(b, side, tick, lots, m, expiry, 0);
    EnqueueNodes(r.pool, p, p', r.seats, b, h);
  }

  /** What queueing a filled node leaves of nodes, chains and the free list. */
  lemma EnqueueNodes(p0: seq<OrderNode>, p: seq<OrderNode>, p': seq<OrderNode>, seats: seq<Seat>, b: Book, h: nat)
    requires OnlyQueueLinks(p, p', b.orders.Keys + {h})
    requires b.free != [] && h == b.free[0] && h < |p0| == |p| && p == p0[h := p[h]] && b.FreeOk()
    requires FreeLinks(p0, b.free) && NodesRep(p, b.orders) && ChainsRep(p, seats, b.chains)
    ensures |p'| == |p0| && FreeLinks(p', b.free[1..]) && ChainsRep(p', seats, b.chains) && NodesRep(p', b.orders)
    ensures p'[h] == p[h].(prev := p'[h].prev, next := p'[h].next)
  {
    ChainsUntouched(p, p', seats, b.chains);
    FreeLoses(p0, p', b.free);
  }

  /** Splicing a queued order into its maker's chain. */
  lemma EnchainLists(r: Raw, b: Book, side: Side, tick: nat, lots: nat, m: nat, expiry: nat, i: nat)
    requires b.Structure() && b.free != [] && m < |b.chains| && i <= |b.chains[m]|
    requires QueueOn(r, b, Enlist(b, side, tick, lots, m, expiry, 0))
    requires Enlist(b, side, tick, lots, m, expiry, i).Structure()
    requires b.free[0] <= U16_MAX
    ensures var h, q := b.free[0], b.chains[m];
      && ChainSpliced.requires(r.pool, At(q, i - 1), At(q, i), h)
      && Lists(r.(pool := ChainSpliced(r.pool, At(q, i - 1), At(q, i), h),
                  seats := r.seats[m := SeatSpliced(r.seats[m], At(q, i - 1), h)]),
               Enlist(b, side, tick, lots, m, expiry, i))
  {
    hide QueuesRep, ChainsRep, ChainSpliced, SeatSpliced, Enlist, Book.Structure, FreeLinks, At, NodeIs;
    var h, q := b.free[0], b.chains[m];
    ChainsAndFree(b);
    assert b.free[0] in b.free;
    ChainsSpliced(r.pool, r.seats, b, m, i, h);
    var p := ChainSpliced(r.pool, At(q, i - 1), At(q, i), h);
    EnlistParts(b, side, tick, lots, m, expiry, i);
    EnlistParts(b, side, tick, lots, m, expiry, 0);
    QueuesOfEnlist(b, side, tick, lots, m, expiry, i);
    SplicedLists(r.pool, p, r, b, Enlist(b, side, tick, lots, m, expiry, 0),
      Enlist(b, side, tick, lots, m, expiry, i), h);
  }

  lemma QueuesOfEnlist(b: Book, side: Side, tick: nat, lots: nat, m: nat, expiry: nat, i: nat)
    requires b.free != [] && m < |b.chains| && i <= |b.chains[m]|
    ensures Enlist(b, side, tick, lots, m, expiry, 0).bids == Enlist(b, side, tick, lots, m, expiry, i).bids
    ensures Enlist(b, side, tick, lots, m, expiry, 0).asks == Enlist(b, side, tick, lots, m, expiry, i).asks
  {}

  lemma SplicedLists(p: seq<OrderNode>, p': seq<OrderNode>, r: Raw, b: Book, c0: Book, c: Book, h: nat)
    requires OnlyChainLinks(p, p', b.orders.Keys, h) && h < |p|
    requires p'[h] == p[h].(makerPrev := p'[h].makerPrev, makerNext := p'[h].makerNext)
    requires c.Structure() && c.bids == c0.bids && c.asks == c0.asks && c.anchor == c0.anchor && c.orders == c0.orders
    requires QueuesRep(p, r.levels, r.bidBits, r.askBits, c0) && NodesRep(p, c0.orders) && FreeLinks(p, c.free)
    ensures |p'| == |p|
    ensures QueuesRep(p', r.levels, r.bidBits, r.askBits, c) && NodesRep(p', c.orders) && FreeLinks(p', c.free)
  {
    hide QueuesRep, NodesRep, Book.Structure, FreeLinks;
    QueuedAreLive(c);
    NodesKept(p, p', b.orders.Keys, h, c.orders);
    QueuesUntouched(p, p', r.levels, r.bidBits, r.askBits, c0, c);
    FreeUntouched(p, p', c.free);
  }

  lemma NodesKept(p: seq<OrderNode>, p': seq<OrderNode>, live: set<nat>, h: nat, orders: map<nat, Order>)
    requires OnlyChainLinks(p, p', live, h) && h < |p|
    requires p'[h] == p[h].(makerPrev := p'[h].makerPrev, makerNext := p'[h].makerNext)
    requires NodesRep(p, orders)
    ensures NodesRep(p', orders)
  {}

  // ---- a smaller order ----

  /** A resized order, on its node and in its level's total. */
  lemma RestateLists(r: Raw, b: Book, h: nat, lots: u32, expiry: u32)
    requires Lists(r, b) && b.Structure() && b.Uncrossed() && h in b.orders && b.OrderOk(h)
    requires lots <= b.orders[h].lots
    ensures h < |r.pool|
    ensures var o := b.orders[h];
      var slot := Slot(o.tick);
      Lists(r.(pool := r.pool[h := r.pool[h].(lots := lots, expiry := expiry)],
               levels := r.levels[slot := r.levels[slot].(total := WrappingSub(r.levels[slot].total, o.lots - lots))]),
            Restate(b, h, lots, expiry))
  {
    hide QueuesRep, ChainsRep, Book.Structure, FreeLinks, NodeIs;
    ChainsAndFree(b);
    QueuesSize(r, b);
    assert h < |r.pool|;
    RestateQueues(r, b, h, lots, expiry);
    NodeWritten(r.pool, b.orders, h, lots, expiry);
    var p := r.pool[h := r.pool[h].(lots := lots, expiry := expiry)];
    ChainsUntouched(r.pool, p, r.seats, b.chains);
    FreeUntouched(r.pool, p, b.free);
  }

  lemma NodeWritten(p: seq<OrderNode>, orders: map<nat, Order>, h: nat, lots: u32, expiry: u32)
    requires NodesRep(p, orders) && h in orders
    ensures h < |p|
    ensures NodesRep(p[h := p[h].(lots := lots, expiry := expiry)],
                     orders[h := orders[h].(lots := lots, expiry := expiry)])
  {}

  lemma RestateQueues(r: Raw, b: Book, h: nat, lots: u32, expiry: u32)
    requires QueuesRep(r.pool, r.levels, r.bidBits, r.askBits, b)
    requires b.Structure() && b.Uncrossed() && h in b.orders && b.OrderOk(h)
    requires lots <= b.orders[h].lots && h < |r.pool|
    ensures var o := b.orders[h];
      var slot := Slot(o.tick);
      QueuesRep(r.pool[h := r.pool[h].(lots := lots, expiry := expiry)],
                r.levels[slot := r.levels[slot].(total := WrappingSub(r.levels[slot].total, o.lots - lots))],
                r.bidBits, r.askBits, Restate(b, h, lots, expiry))
  {
    hide Book.Structure, Book.Uncrossed, LevelIs, WrappingSub, Distinct, VacantRep, BitsRep;
    var o := b.orders[h];
    BothInWindow(b, o.side, o.tick);
    var c, slot := Restate(b, h, lots, expiry), Slot(o.tick);
    var p := r.pool[h := r.pool[h].(lots := lots, expiry := expiry)];
    var l' := r.levels[slot].(total := WrappingSub(r.levels[slot].total, o.lots - lots));
    forall t | t in b.bids { RestateOne(r, b, h, lots, expiry, Bid, t); }
    forall t | t in b.asks { RestateOne(r, b, h, lots, expiry, Ask, t); }
    RestatedVacant(r, b, c, o.side, o.tick, l');
  }

  lemma RestatedVacant(r: Raw, b: Book, c: Book, side: Side, tick: nat, l: Level)
    requires QueuesRep(r.pool, r.levels, r.bidBits, r.askBits, b) && b.InWindow(tick) && tick in b.Levels(side)
    requires c.bids == b.bids && c.asks == b.asks && c.anchor == b.anchor
    ensures VacantRep(r.levels[Slot(tick) := l], c) && BitsRep(r.bidBits, c, c.bids) && BitsRep(r.askBits, c, c.asks)
  {
    hide LevelIs;
    forall t: nat | b.InWindow(t) { SlotInjective(b.anchor, t, tick); }
  }

  lemma RestateOne(r: Raw, b: Book, h: nat, lots: u32, expiry: u32, side: Side, t: nat)
    requires QueuesRep(r.pool, r.levels, r.bidBits, r.askBits, b)
    requires b.Structure() && b.Uncrossed() && h in b.orders && b.OrderOk(h)
    requires lots <= b.orders[h].lots && t in b.Levels(side) && h < |r.pool|
    ensures var o := b.orders[h];
      var slot := Slot(o.tick);
      var l' := r.levels[slot].(total := WrappingSub(r.levels[slot].total, o.lots - lots));
      LevelIs(r.pool[h := r.pool[h].(lots := lots, expiry := expiry)], r.levels[slot := l'][Slot(t)],
              Restate(b, h, lots, expiry).orders, b.Levels(side)[t])
  {
    hide Book.Structure, Book.Uncrossed, LevelIs, WrappingSub, Distinct;
    var o := b.orders[h];
    assert LevelIs(r.pool, r.levels[Slot(t)], b.orders, b.Levels(side)[t]);
    BothInWindow(b, o.side, o.tick);
    BothInWindow(b, side, t);
    if side == o.side && t == o.tick {
      RestateLevel(r.pool, r.levels[Slot(t)], b.orders, h, lots, expiry, b.Levels(side)[t]);
    } else {
      QueuesApart(b, side, t, o.side, o.tick);
      RestateElsewhere(r.pool, r.levels[Slot(t)], b.orders, h, lots, expiry, b.Levels(side)[t]);
    }
  }

  lemma RestateFifo(p: seq<OrderNode>, q: seq<nat>, h: nat, lots: u32, expiry: u32)
    requires FifoLinks(p, q) && h < |p|
    ensures FifoLinks(p[h := p[h].(lots := lots, expiry := expiry)], q)
  {
    var p' := p[h := p[h].(lots := lots, expiry := expiry)];
    SameLinks(Prev(p), Next(p), Prev(p'), Next(p'), q);
  }

  lemma RestateElsewhere(p: seq<OrderNode>, l: Level, orders: map<nat, Order>, h: nat, lots: u32, expiry: u32,
      q: seq<nat>)
    requires LevelIs(p, l, orders, q) && h < |p| && h in orders && h !in q
    ensures LevelIs(p[h := p[h].(lots := lots, expiry := expiry)], l,
                    orders[h := orders[h].(lots := lots, expiry := expiry)], q)
  {
    hide FifoLinks;
    RestateFifo(p, q, h, lots, expiry);
    SumSame(LotsOf(orders), LotsOf(orders[h := orders[h].(lots := lots, expiry := expiry)]), q);
  }

  lemma RestateLevel(p: seq<OrderNode>, l: Level, orders: map<nat, Order>, h: nat, lots: u32, expiry: u32, q: seq<nat>)
    requires LevelIs(p, l, orders, q) && h < |p| && h in orders && h in q && Distinct(q)
    requires lots <= orders[h].lots
    ensures LevelIs(p[h := p[h].(lots := lots, expiry := expiry)],
                    l.(total := WrappingSub(l.total, orders[h].lots - lots)),
                    orders[h := orders[h].(lots := lots, expiry := expiry)], q)
  {
    hide FifoLinks, WrappingSub;
    RestateFifo(p, q, h, lots, expiry);
    var f, g := LotsOf(orders), LotsOf(orders[h := orders[h].(lots := lots, expiry := expiry)]);
    SumChange(f, g, q, h);
    WrapBack(Sum(g, q), orders[h].lots - lots);
  }

  // ---- funds ----

  /** `Seat::unlock` after its check. */
  function Unlocked(s: Seat, base: bool, atoms: u64): Seat
    requires atoms <= if base then s.baseLocked else s.quoteLocked
  {
    if base then s.(baseLocked := s.baseLocked - atoms, baseFree := WrappingAdd(s.baseFree, atoms))
    else s.(quoteLocked := s.quoteLocked - atoms, quoteFree := WrappingAdd(s.quoteFree, atoms))
  }

  /** `Seat::lock` after its check. */
  function Locked(s: Seat, base: bool, atoms: u64): Seat
    requires atoms <= if base then s.baseFree else s.quoteFree
  {
    if base then s.(baseFree := s.baseFree - atoms, baseLocked := WrappingAdd(s.baseLocked, atoms))
    else s.(quoteFree := s.quoteFree - atoms, quoteLocked := WrappingAdd(s.quoteLocked, atoms))
  }

  lemma LocksAre(seats: seq<Seat>, balances: seq<Balance>, m: nat)
    requires FundsRep(seats, balances) && m < |balances|
    ensures m < |seats| && seats[m].baseLocked == balances[m].baseLocked
      && seats[m].quoteLocked == balances[m].quoteLocked
  {}

  lemma UnlockedHead(s: Seat, base: bool, atoms: u64)
    requires atoms <= if base then s.baseLocked else s.quoteLocked
    ensures Unlocked(s, base, atoms).head == s.head && Unlocked(s, base, atoms).count == s.count
  {}

  lemma UnlockFundsRep(seats: seq<Seat>, balances: seq<Balance>, m: nat, base: bool, atoms: u64)
    requires FundsRep(seats, balances) && m < |balances| && atoms <= balances[m].Locked(base)
    requires 0 <= balances[m].baseFree && 0 <= balances[m].quoteFree
    ensures FundsRep(seats[m := Unlocked(seats[m], base, atoms)],
      balances[m := balances[m].Move(base, atoms, 0 - atoms)])
  {
    hide WrappingAdd;
    WrapBack(balances[m].baseFree, atoms);
    WrapBack(balances[m].quoteFree, atoms);
  }

  lemma SameHeads(pool: seq<OrderNode>, seats: seq<Seat>, chains: seq<seq<nat>>, m: nat, s: Seat)
    requires ChainsRep(pool, seats, chains) && m < |seats|
    requires s.head == seats[m].head && s.count == seats[m].count
    ensures ChainsRep(pool, seats[m := s], chains)
  {}

  lemma BridgedFunds(seats: seq<Seat>, balances: seq<Balance>, m: nat, s: Seat)
    requires FundsRep(seats, balances) && m < |seats|
    requires s == seats[m].(head := s.head, count := s.count)
    ensures FundsRep(seats[m := s], balances)
  {}

  lemma ListsSame(r: Raw, u: Book, c: Book)
    requires Lists(r, u) && c == u.(balances := c.balances, fees := c.fees)
    ensures Lists(r, c)
  {}

  lemma SeatFundsOnly(r: Raw, r': Raw, b: Book, h: nat, m: nat, s: Seat)
    requires h in b.orders && b.OrderOk(h) && QueueOff(r, b, h) && m < |r.seats|
    requires r' == r.(seats := r.seats[m := s]) && s.head == r.seats[m].head && s.count == r.seats[m].count
    ensures QueueOff(r', b, h)
  {
    hide Unlist, QueuesRep, ChainLinks;
    SameHeads(r.pool, r.seats, b.chains, m, s);
  }

  // ---- whole operations ----

  lemma HeaderFree(h: Market, h': Market, b: Book)
    requires HeaderRep(h, b) && h' == h.(freeHead := h'.freeHead, freeCount := h'.freeCount)
    ensures HeaderRep(h', b)
  {}

  lemma OrderInBook(b: Book, h: nat)
    requires b.Inv() && h in b.orders
    ensures b.p.Ok() && b.Structure() && b.Uncrossed() && b.LocksExact() && Ops.ChainsOk(b) && b.OrderOk(h)
    ensures |b.chains| == |b.balances| == MAX_SEATS && |b.free| < b.p.capacity
    ensures b.orders[h].tick <= b.p.tickLimit
  {}

  /** What a valid account offers to the removal of one of its orders. */
  lemma BeforeKill(r: Raw, b: Book, h: nat)
    requires b.Inv() && Rep(r, b) && h in b.orders
    ensures Lists(r, b) && HeaderRep(r.header, b) && FundsRep(r.seats, b.balances) && b.p.Ok()
    ensures b.Structure() && b.Uncrossed() && b.OrderOk(h)
    ensures 0 < h <= U16_MAX && h < |r.pool| && NodeIs(r.pool[h], b.orders[h])
    ensures var o := b.orders[h];
      && o.tick <= b.p.tickLimit && o.lots <= b.p.maxLots && o.maker < |r.seats| == |b.balances| == MAX_SEATS
      && 0 <= b.balances[o.maker].baseFree && 0 <= b.balances[o.maker].quoteFree
      && b.p.Atoms(o.side, o.tick, o.lots) <= b.balances[o.maker].Locked(o.side.Ask?)
    ensures r.header.freeCount < U32_MAX
  {
    hide Book.Inv, Book.Structure, Book.Uncrossed, Params.Ok, QueuesRep, ChainsRep, FreeLinks, HeaderRep, FundsRep,
      Params.Atoms;
    OrderInBook(b, h);
    Ops.LockCovers(b, h, b.orders[h].side.Ask?);
    FreeNotNegative(b, b.orders[h].maker);
  }

  lemma FreeNotNegative(b: Book, m: nat)
    requires b.LocksExact() && m < |b.balances|
    ensures 0 <= b.balances[m].baseFree && 0 <= b.balances[m].quoteFree
  {
    assert 0 <= b.balances[m].Free(true) && 0 <= b.balances[m].Free(false);
  }

  lemma AfterKill(r: Raw, b: Book, h: nat)
    requires b.Inv() && h in b.orders && b.OrderOk(h) && b.orders[h].maker < |b.balances|
    requires Lists(r, Unlist(b, h)) && HeaderRep(r.header, b)
    requires var o := b.orders[h];
      FundsRep(r.seats, b.balances[o.maker := Ops.Refund(b.p, b.balances[o.maker], o.side, o.tick, o.lots)])
    ensures Rep(r, Ops.Kill(b, h))
  {
    hide Book.Inv, Lists, FundsRep;
    UnlistParts(b, h);
    ListsSame(r, Unlist(b, h), Ops.Kill(b, h));
  }
}
