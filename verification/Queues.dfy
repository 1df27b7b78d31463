/** Levels and bitmaps after an order leaves or joins its queue. */
module Queues {
  import opened Base
  import opened Bitmaps
  import opened Seqs
  import opened Links
  import opened Books
  import opened Changes
  import opened Layout

  /** Bits of one side after its level at `slot` became `l`. */
  function BitsAfter(bits: set<nat>, side: Side, changed: Side, slot: nat, l: Level): set<nat> {
    if side == changed && l.head == NIL then bits - {slot} else bits
  }

  lemma BothInWindow(b: Book, side: Side, t: nat)
    requires b.Structure() && t in b.Levels(side)
    ensures b.QueueOk(side, t) && b.InWindow(t) && Distinct(b.Levels(side)[t])
  {
    assert b.QueueOk(side, t);
    assert b.Levels(side)[t][0] in b.Levels(side)[t];
    assert b.OrderOk(b.Levels(side)[t][0]);
    QueueDistinct(b, side, t);
  }

  /** Two different queues share no node, and their levels no slot. */
  lemma QueuesApart(b: Book, s1: Side, t1: nat, s2: Side, t2: nat)
    requires b.Structure() && b.Uncrossed() && t1 in b.Levels(s1) && t2 in b.Levels(s2)
    requires s1 != s2 || t1 != t2
    ensures forall h | h in b.Levels(s1)[t1] :: h !in b.Levels(s2)[t2]
    ensures Slot(t1) != Slot(t2)
  {
    BothInWindow(b, s1, t1);
    BothInWindow(b, s2, t2);
    SlotInjective(b.anchor, t1, t2);
  }

  lemma BridgedElsewhere(pool: seq<OrderNode>, q: seq<nat>, h: nat, l: Level, orders: map<nat, Order>, u: seq<nat>)
    requires FifoLinks(pool, q) && Distinct(q) && h in q && QueueBridged.requires(pool, h)
    requires LevelIs(pool, l, orders, u) && forall x | x in u :: x !in q
    ensures LevelIs(QueueBridged(pool, h), l, orders - {h}, u)
  {
    BridgeQueue(pool, q, h);
    LevelUntouched(pool, QueueBridged(pool, h), l, orders, orders - {h}, u);
  }

  /** Every queue that is left has its level. */
  lemma LevelsBridged(pool: seq<OrderNode>, levels: seq<Level>, b: Book, h: nat, side: Side, t: nat)
    requires |levels| == WINDOW_TICKS && b.Structure() && b.Uncrossed() && h in b.orders
    requires LevelsRep(pool, levels, b.orders, b.bids) && LevelsRep(pool, levels, b.orders, b.asks)
    requires h < |pool| && pool[h].lots == b.orders[h].lots && QueueBridged.requires(pool, h)
    requires t in Unlist(b, h).Levels(side)
    ensures var slot := Slot(b.orders[h].tick);
      LevelIs(QueueBridged(pool, h), levels[slot := LevelBridged(levels[slot], pool[h])][Slot(t)],
              Unlist(b, h).orders, Unlist(b, h).Levels(side)[t])
  {
    hide Book.Structure, Book.Uncrossed, Book.QueueOk, QueueBridged, LevelBridged, LevelIs, FifoLinks, Unlist,
      Distinct, Without;
    var o := b.orders[h];
    Facts(b, h);
    UnlistAnchor(b, h);
    UnlistTicks(b, h, side, t);
    BothInWindow(b, o.side, o.tick);
    BothInWindow(b, side, t);
    var q := b.Levels(o.side)[o.tick];
    assert LevelIs(pool, levels[Slot(o.tick)], b.orders, q);
    assert LevelIs(pool, levels[Slot(t)], b.orders, b.Levels(side)[t]);
    if side == o.side && t == o.tick {
      BridgeLevel(pool, levels[Slot(t)], b.orders, q, h);
    } else {
      QueuesApart(b, side, t, o.side, o.tick);
      LevelLinks(pool, levels[Slot(o.tick)], b.orders, q);
      BridgedElsewhere(pool, q, h, levels[Slot(t)], b.orders, b.Levels(side)[t]);
    }
  }

  lemma LevelLinks(pool: seq<OrderNode>, l: Level, orders: map<nat, Order>, q: seq<nat>)
    requires LevelIs(pool, l, orders, q)
    ensures FifoLinks(pool, q)
  {}

  lemma Facts(b: Book, h: nat)
    requires b.Structure() && h in b.orders
    ensures b.OrderOk(h)
  {}

  /** Only the tick of `h` can fall vacant, and then its queue was `h` alone. */
  lemma StillQueued(b: Book, h: nat)
    requires h in b.orders && b.OrderOk(h)
    ensures var o := b.orders[h];
      && (o.tick in Unlist(b, h).Levels(o.side) <==> Without(b.Levels(o.side)[o.tick], h) != [])
      && (forall t | t != o.tick :: t in Unlist(b, h).bids <==> t in b.bids)
      && (forall t | t != o.tick :: t in Unlist(b, h).asks <==> t in b.asks)
  {
    hide Without;
  }

  lemma VacantBridged(pool: seq<OrderNode>, levels: seq<Level>, b: Book, h: nat, t: nat)
    requires |levels| == WINDOW_TICKS && b.Structure() && b.Uncrossed() && h in b.orders
    requires LevelsRep(pool, levels, b.orders, b.bids) && LevelsRep(pool, levels, b.orders, b.asks)
    requires VacantRep(levels, b)
    requires h < |pool| && pool[h].lots == b.orders[h].lots && QueueBridged.requires(pool, h)
    requires b.InWindow(t) && t !in Unlist(b, h).bids && t !in Unlist(b, h).asks
    ensures var slot := Slot(b.orders[h].tick);
      levels[slot := LevelBridged(levels[slot], pool[h])][Slot(t)] == EMPTY_LEVEL
  {
    hide Book.Structure, Book.Uncrossed, Book.QueueOk, QueueBridged, LevelBridged, LevelIs, Distinct, Without, Unlist;
    var o := b.orders[h];
    Facts(b, h);
    BothInWindow(b, o.side, o.tick);
    StillQueued(b, h);
    if t == o.tick {
      assert LevelIs(pool, levels[Slot(t)], b.orders, b.Levels(o.side)[t]);
      BridgeLevel(pool, levels[Slot(t)], b.orders, b.Levels(o.side)[t], h);
    } else {
      SlotInjective(b.anchor, t, o.tick);
    }
  }

  lemma BridgedHead(pool: seq<OrderNode>, levels: seq<Level>, b: Book, h: nat)
    requires |levels| == WINDOW_TICKS && b.Structure() && b.Uncrossed() && h in b.orders
    requires LevelsRep(pool, levels, b.orders, b.bids) && LevelsRep(pool, levels, b.orders, b.asks)
    requires h < |pool| && pool[h].lots == b.orders[h].lots && QueueBridged.requires(pool, h)
    ensures var o := b.orders[h];
      LevelBridged(levels[Slot(o.tick)], pool[h]).head == NIL <==> o.tick !in Unlist(b, h).Levels(o.side)
  {
    hide Book.Structure, Book.Uncrossed, QueueBridged, LevelBridged;
    var o := b.orders[h];
    Facts(b, h);
    BothInWindow(b, o.side, o.tick);
    var q := b.Levels(o.side)[o.tick];
    assert LevelIs(pool, levels[Slot(o.tick)], b.orders, q);
    BridgeLevel(pool, levels[Slot(o.tick)], b.orders, q, h);
    var r := Without(q, h);
    if r != [] { AtInside(r, 0); }
  }

  lemma BitsBridged(bits: set<nat>, b: Book, h: nat, side: Side, l: Level)
    requires b.Structure() && h in b.orders && BitsRep(bits, b, b.Levels(side))
    requires l.head == NIL <==> b.orders[h].tick !in Unlist(b, h).Levels(b.orders[h].side)
    ensures BitsRep(BitsAfter(bits, side, b.orders[h].side, Slot(b.orders[h].tick), l),
                    Unlist(b, h), Unlist(b, h).Levels(side))
  {
    hide Book.Structure;
    var o := b.orders[h];
    Facts(b, h);
    forall t: nat | b.InWindow(t)
      ensures Slot(t) in BitsAfter(bits, side, o.side, Slot(o.tick), l) <==> t in Unlist(b, h).Levels(side)
    {
      SlotInjective(b.anchor, t, o.tick);
    }
  }

  /** Unlinking an order from its queue, as the level array and the bitmaps see it. */
  lemma QueuesBridged(pool: seq<OrderNode>, levels: seq<Level>, bidBits: set<nat>, askBits: set<nat>, b: Book, h: nat)
    requires QueuesRep(pool, levels, bidBits, askBits, b) && NodesRep(pool, b.orders)
    requires b.Structure() && b.Uncrossed() && h in b.orders
    ensures h < |pool| && QueueBridged.requires(pool, h)
    ensures var o := b.orders[h];
      var l := LevelBridged(levels[Slot(o.tick)], pool[h]);
      QueuesRep(QueueBridged(pool, h), levels[Slot(o.tick) := l],
                BitsAfter(bidBits, Bid, o.side, Slot(o.tick), l),
                BitsAfter(askBits, Ask, o.side, Slot(o.tick), l), Unlist(b, h))
    ensures OnlyQueueLinks(pool, QueueBridged(pool, h), b.orders.Keys)
  {
    hide Book.Structure, Book.Uncrossed, LevelIs, Unlist, LevelBridged;
    BridgeAllowed(pool, levels, b, h);
    BridgedHead(pool, levels, b, h);
    var o := b.orders[h];
    var l := LevelBridged(levels[Slot(o.tick)], pool[h]);
    UnlistAnchor(b, h);
    var c := Unlist(b, h);
    forall t | t in c.bids { LevelsBridged(pool, levels, b, h, Bid, t); }
    forall t | t in c.asks { LevelsBridged(pool, levels, b, h, Ask, t); }
    forall t: nat | c.InWindow(t) && t !in c.bids && t !in c.asks
      ensures levels[Slot(o.tick) := l][Slot(t)] == EMPTY_LEVEL
    {
      VacantBridged(pool, levels, b, h, t);
    }
    BitsBridged(bidBits, b, h, Bid, l);
    BitsBridged(askBits, b, h, Ask, l);
  }

  lemma UnlistAnchor(b: Book, h: nat)
    requires h in b.orders && b.OrderOk(h)
    ensures Unlist(b, h).anchor == b.anchor && Unlist(b, h).orders == b.orders - {h}
  {}

  lemma BridgeAllowed(pool: seq<OrderNode>, levels: seq<Level>, b: Book, h: nat)
    requires |levels| == WINDOW_TICKS && b.Structure() && h in b.orders && NodesRep(pool, b.orders)
    requires LevelsRep(pool, levels, b.orders, b.bids) && LevelsRep(pool, levels, b.orders, b.asks)
    ensures b.OrderOk(h) && h < |pool| && NodeIs(pool[h], b.orders[h]) && QueueBridged.requires(pool, h)
    ensures OnlyQueueLinks(pool, QueueBridged(pool, h), b.orders.Keys)
  {
    hide Book.Structure, QueueBridged, FifoLinks, OnlyQueueLinks, NodeIs;
    Facts(b, h);
    var o := b.orders[h];
    BothInWindow(b, o.side, o.tick);
    var q := b.Levels(o.side)[o.tick];
    assert LevelIs(pool, levels[Slot(o.tick)], b.orders, q);
    BridgeLive(pool, q, h, b.orders.Keys);
  }

  lemma BridgeLive(pool: seq<OrderNode>, q: seq<nat>, h: nat, live: set<nat>)
    requires FifoLinks(pool, q) && Distinct(q) && h in q && forall x | x in q :: x in live
    ensures h < |pool| && QueueBridged.requires(pool, h) && OnlyQueueLinks(pool, QueueBridged(pool, h), live)
  {
    hide QueueBridged, FifoLinks;
    BridgeQueue(pool, q, h);
    BridgedLength(pool, h);
    var p := QueueBridged(pool, h);
    forall k | 0 < k < |pool|
      ensures p[k] == pool[k].(prev := p[k].prev, next := p[k].next)
    {
      BridgedNode(pool, h, k);
    }
  }

  lemma BridgedLength(pool: seq<OrderNode>, h: nat)
    requires QueueBridged.requires(pool, h)
    ensures |QueueBridged(pool, h)| == |pool|
    ensures 0 < |pool| ==> QueueBridged(pool, h)[0] == pool[0]
  {}

  // ---- joining a queue ----

  ghost predicate MayJoin(b: Book, side: Side, tick: nat, m: nat, i: nat) {
    && b.free != [] && b.free[0] !in b.orders && 0 < b.free[0] <= U16_MAX
    && m < |b.chains| && i <= |b.chains[m]| && b.InWindow(tick)
    && (side.Bid? ==> tick !in b.asks) && (side.Ask? ==> tick !in b.bids)
  }

  lemma LevelsAppended(pool: seq<OrderNode>, levels: seq<Level>, b: Book, side: Side, tick: nat, lots: nat,
                       m: nat, expiry: nat, i: nat, s: Side, t: nat)
    requires |levels| == WINDOW_TICKS && b.Structure() && b.Uncrossed() && MayJoin(b, side, tick, m, i)
    requires LevelsRep(pool, levels, b.orders, b.bids) && LevelsRep(pool, levels, b.orders, b.asks)
    requires VacantRep(levels, b) && b.free[0] < |pool|
    requires t in Enlist(b, side, tick, lots, m, expiry, i).Levels(s)
    ensures var l, h := levels[Slot(tick)], b.free[0];
      var c := Enlist(b, side, tick, lots, m, expiry, i);
      && l.tail < |pool| && l.tail != h
      && LevelIs(QueueAppended(pool, l.tail, h),
                 levels[Slot(tick) := LevelAppended(l, h, lots, tick in b.Levels(side))][Slot(t)],
                 c.orders, c.Levels(s)[t])
  {
    hide Book.Structure, Book.Uncrossed, QueueAppended, LevelAppended, FifoLinks;
    var l, h := levels[Slot(tick)], b.free[0];
    var o := Order(side, tick, m, lots, expiry, b.issued);
    var q := if tick in b.Levels(side) then b.Levels(side)[tick] else [];
    if q != [] {
      assert LevelIs(pool, l, b.orders, q);
    }
    QueueFacts(b, side, tick);
    AppendLevel(pool, l, b.orders, q, h, o);
    if s != side || t != tick {
      BothInWindow(b, s, t);
      SlotInjective(b.anchor, t, tick);
      assert LevelIs(pool, levels[Slot(t)], b.orders, b.Levels(s)[t]);
      TailElsewhere(pool, b, side, tick, s, t, l);
      AppendedElsewhere(pool, l.tail, h, levels[Slot(t)], b.orders, o, b.Levels(s)[t]);
    }
  }

  lemma AppendedElsewhere(pool: seq<OrderNode>, tail: u16, h: u16, l: Level, orders: map<nat, Order>, o: Order,
      u: seq<nat>)
    requires tail < |pool| && h < |pool| && tail != h && h !in orders
    requires LevelIs(pool, l, orders, u) && forall x | x in u :: x != tail && x in orders
    ensures LevelIs(QueueAppended(pool, tail, h), l, orders[h := o], u)
  {
    hide QueueAppended, Linked;
    forall x | x in u { AppendedNode(pool, tail, h, x); }
    AppendedLength(pool, tail, h);
    LevelUntouched(pool, QueueAppended(pool, tail, h), l, orders, orders[h := o], u);
  }

  lemma AppendedLength(pool: seq<OrderNode>, tail: u16, h: u16)
    requires tail < |pool| && h < |pool|
    ensures |QueueAppended(pool, tail, h)| == |pool|
  {}

  lemma QueueFacts(b: Book, side: Side, tick: nat)
    requires b.Structure()
    ensures tick in b.Levels(side) ==>
      && b.Levels(side)[tick] != [] && Distinct(b.Levels(side)[tick])
      && forall x | x in b.Levels(side)[tick] :: x in b.orders && 0 < x
  {
    if tick in b.Levels(side) {
      BothInWindow(b, side, tick);
      forall x | x in b.Levels(side)[tick] ensures 0 < x { assert b.OrderOk(x); }
    }
  }

  /** The tail of the joined queue is in no other queue. */
  lemma TailElsewhere(pool: seq<OrderNode>, b: Book, side: Side, tick: nat, s: Side, t: nat, l: Level)
    requires b.Structure() && b.Uncrossed() && t in b.Levels(s) && (s != side || t != tick)
    requires if tick in b.Levels(side) then LevelIs(pool, l, b.orders, b.Levels(side)[tick]) else l == EMPTY_LEVEL
    ensures forall x | x in b.Levels(s)[t] :: x != l.tail && x in b.orders
  {
    QueueFacts(b, s, t);
    if tick in b.Levels(side) {
      QueuesApart(b, side, tick, s, t);
      QueueFacts(b, side, tick);
      AtIsIn(b.Levels(side)[tick], |b.Levels(side)[tick]| as int - 1);
    }
  }

  lemma EnlistAnchor(b: Book, side: Side, tick: nat, lots: nat, m: nat, expiry: nat, i: nat)
    requires b.free != [] && m < |b.chains| && i <= |b.chains[m]|
    ensures var c := Enlist(b, side, tick, lots, m, expiry, i);
      && c.anchor == b.anchor
      && c.bids.Keys == b.bids.Keys + (if side.Bid? then {tick} else {})
      && c.asks.Keys == b.asks.Keys + (if side.Ask? then {tick} else {})
  {}

  /** Appending an order to its queue, as the level array and the bitmaps see it. */
  lemma QueuesAppended(pool: seq<OrderNode>, levels: seq<Level>, bidBits: set<nat>, askBits: set<nat>, b: Book,
                       side: Side, tick: nat, lots: nat, m: nat, expiry: nat, i: nat)
    requires QueuesRep(pool, levels, bidBits, askBits, b)
    requires b.Structure() && b.Uncrossed() && MayJoin(b, side, tick, m, i) && b.free[0] < |pool|
    ensures var l, h := levels[Slot(tick)], b.free[0];
      && l.tail < |pool| && l.tail != h
      && QueuesRep(QueueAppended(pool, l.tail, h),
                   levels[Slot(tick) := LevelAppended(l, h, lots, tick in b.Levels(side))],
                   if side.Bid? then bidBits + {Slot(tick)} else bidBits,
                   if side.Ask? then askBits + {Slot(tick)} else askBits,
                   Enlist(b, side, tick, lots, m, expiry, i))
      && OnlyQueueLinks(pool, QueueAppended(pool, l.tail, h), b.orders.Keys + {h})
  {
    hide Book.Structure, Book.Uncrossed, LevelIs, Enlist, LevelAppended, QueueAppended, OnlyQueueLinks, VacantRep,
      BitsRep;
    var c := Enlist(b, side, tick, lots, m, expiry, i);
    EnlistAnchor(b, side, tick, lots, m, expiry, i);
    LevelsAppended(pool, levels, b, side, tick, lots, m, expiry, i, side, tick);
    forall t | t in c.bids { LevelsAppended(pool, levels, b, side, tick, lots, m, expiry, i, Bid, t); }
    forall t | t in c.asks { LevelsAppended(pool, levels, b, side, tick, lots, m, expiry, i, Ask, t); }
    VacantAppended(pool, levels, bidBits, askBits, b, c, side, tick, levels[Slot(tick)], b.free[0], lots);
    TailLive(pool, levels, b, side, tick);
    AppendedLinks(pool, levels[Slot(tick)].tail, b.free[0], b.orders.Keys);
  }

  /** Vacant levels and bits after tick `tick` became occupied. */
  lemma VacantAppended(pool: seq<OrderNode>, levels: seq<Level>, bidBits: set<nat>, askBits: set<nat>, b: Book, c: Book,
                       side: Side, tick: nat, l: Level, h: u16, lots: nat)
    requires QueuesRep(pool, levels, bidBits, askBits, b) && b.InWindow(tick) && c.anchor == b.anchor
    requires c.bids.Keys == b.bids.Keys + (if side.Bid? then {tick} else {})
    requires c.asks.Keys == b.asks.Keys + (if side.Ask? then {tick} else {})
    ensures VacantRep(levels[Slot(tick) := LevelAppended(l, h, lots, tick in b.Levels(side))], c)
    ensures BitsRep(if side.Bid? then bidBits + {Slot(tick)} else bidBits, c, c.bids)
    ensures BitsRep(if side.Ask? then askBits + {Slot(tick)} else askBits, c, c.asks)
  {
    hide LevelIs, LevelAppended;
    forall t: nat | b.InWindow(t) { SlotInjective(b.anchor, t, tick); }
  }

  lemma AppendedLinks(pool: seq<OrderNode>, tail: u16, h: u16, live: set<nat>)
    requires tail < |pool| && h < |pool| && tail != h && (tail == NIL || tail in live)
    ensures OnlyQueueLinks(pool, QueueAppended(pool, tail, h), live + {h})
  {}

  lemma TailLive(pool: seq<OrderNode>, levels: seq<Level>, b: Book, side: Side, tick: nat)
    requires |levels| == WINDOW_TICKS && b.Structure() && b.InWindow(tick) && VacantRep(levels, b)
    requires (side.Bid? ==> tick !in b.asks) && (side.Ask? ==> tick !in b.bids)
    requires LevelsRep(pool, levels, b.orders, b.bids) && LevelsRep(pool, levels, b.orders, b.asks)
    ensures levels[Slot(tick)].tail == NIL || levels[Slot(tick)].tail in b.orders
  {
    if tick in b.Levels(side) {
      QueueFacts(b, side, tick);
      AtIsIn(b.Levels(side)[tick], |b.Levels(side)[tick]| as int - 1);
      assert LevelIs(pool, levels[Slot(tick)], b.orders, b.Levels(side)[tick]);
    }
  }
}
