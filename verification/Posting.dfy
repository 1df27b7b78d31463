/** The steps of a new order on an account that represents a book. */
module Posting {
  import opened Base
  import opened Bitmaps
  import opened Links
  import opened Books
  import opened Changes
  import opened Layout
  import opened Queues
  import opened Represent
  import Ops
  import Frames
  import Matching
  import Quoting
  import Venues
  import Runs

  /** While the claims fit, stored balances are the exact ones. */
  lemma FundsExact(seats: seq<Seat>, b: Book, m: nat)
    requires b.Inv() && b.Fits() && FundsRep(seats, b.balances) && m < MAX_SEATS
    ensures m < |seats| == |b.balances|
    ensures seats[m].baseFree == b.balances[m].baseFree && seats[m].quoteFree == b.balances[m].quoteFree
    ensures b.balances[m].Owned(true) <= U64_MAX && b.balances[m].Owned(false) <= U64_MAX
    ensures 0 <= b.balances[m].Free(true) && 0 <= b.balances[m].Free(false)
    ensures 0 <= b.balances[m].Locked(true) && 0 <= b.balances[m].Locked(false)
  {
    hide Book.Inv;
    SeatCount(b);
    OwnedFits(b, m, true);
    OwnedFits(b, m, false);
  }

  lemma SeatCount(b: Book)
    requires b.Inv()
    ensures |b.balances| == |b.chains| == MAX_SEATS
  {}

  lemma OwnedFits(b: Book, m: nat, base: bool)
    requires b.Inv() && m < |b.balances|
    ensures 0 <= b.balances[m].Free(base) && 0 <= b.balances[m].Locked(base)
    ensures b.balances[m].Owned(base) <= b.Claims(base)
  {
    Frames.OwnedAll(b, base);
    Frames.OwnedNonNegative(b.balances, base);
    Frames.FeesKept(b);
    assert b.balances[m].Locked(base) == b.ChainLock(m, base);
  }

  lemma LockedHead(s: Seat, base: bool, atoms: u64)
    requires atoms <= if base then s.baseFree else s.quoteFree
    ensures Locked(s, base, atoms).head == s.head && Locked(s, base, atoms).count == s.count
  {}

  lemma LockFundsRep(seats: seq<Seat>, balances: seq<Balance>, m: nat, base: bool, atoms: u64)
    requires FundsRep(seats, balances) && m < |balances|
    requires seats[m].baseFree == balances[m].baseFree && seats[m].quoteFree == balances[m].quoteFree
    requires atoms <= balances[m].Free(base) && 0 <= balances[m].Locked(base) && balances[m].Owned(base) <= U64_MAX
    ensures FundsRep(seats[m := Locked(seats[m], base, atoms)], balances[m := balances[m].Move(base, 0 - atoms, atoms)])
  {}

  lemma SameSeats(r: Raw, b: Book, m: nat, s: Seat)
    requires Lists(r, b) && m < |r.seats| && s.head == r.seats[m].head && s.count == r.seats[m].count
    ensures Lists(r.(seats := r.seats[m := s]), b)
  {
    hide QueuesRep, ChainLinks;
    SameHeads(r.pool, r.seats, b.chains, m, s);
  }

  /** What a valid account offers to a new order. */
  lemma BeforePost(r: Raw, b: Book, side: Side, tick: nat, lots: nat, m: nat, expiry: nat, i: nat)
    requires b.Inv() && Rep(r, b) && Ops.CanPost(b, side, tick, lots, m, expiry, i)
    ensures Lists(r, b) && HeaderRep(r.header, b) && FundsRep(r.seats, b.balances) && b.p.Ok()
    ensures b.Structure() && b.Uncrossed() && |r.seats| == |b.balances| == |b.chains| == MAX_SEATS
    ensures tick <= b.p.tickLimit && lots <= b.p.maxLots && i <= |b.chains[m]|
    ensures b.free == [] <==> r.header.freeHead == NIL
    ensures b.free != [] ==> MayJoin(b, side, tick, m, 0) && b.free[0] == r.header.freeHead
    ensures b.free != [] ==> Enlist(b, side, tick, lots, m, expiry, i).Structure()
  {
    hide QueuesRep, ChainsRep, FreeLinks, FundsRep, HeaderRep, Enlist, Times;
    if b.free != [] {
      assert b.free[0] in b.free;
      EnlistStructure(b, side, tick, lots, m, expiry, i);
    }
  }

  lemma EnlistFunds(b: Book, side: Side, tick: nat, lots: nat, m: nat, expiry: nat, i: nat)
    requires b.free != [] && m < |b.chains| && m < |b.balances| && i <= |b.chains[m]|
    ensures var u, c := Enlist(b, side, tick, lots, m, expiry, i), Ops.Posted(b, side, tick, lots, m, expiry, i);
      && c == u.(balances := b.balances[m := Ops.Lock(b.p, b.balances[m], side, tick, lots)])
      && u.fees == c.fees == b.fees
  {}

  /** A queued, chained and paid-for order: the account represents the book with it. */
  lemma AfterPost(h: Market, r: Raw, b: Book, side: Side, tick: nat, lots: nat, m: nat, expiry: nat, i: nat)
    requires b.Inv() && Ops.CanPost(b, side, tick, lots, m, expiry, i) && b.free != []
    requires m < |b.balances| == |b.chains| && Ops.CanPay(b, side, tick, lots, m) && i <= |b.chains[m]|
    requires Lists(r, Enlist(b, side, tick, lots, m, expiry, i)) && HeaderRep(h, b)
    requires r.header == h.(freeHead := r.header.freeHead, freeCount := r.header.freeCount,
      orderSeq := r.header.orderSeq)
    requires SeqRep(r.header.orderSeq, b.issued + 1)
    requires FundsRep(r.seats, b.balances[m := Ops.Lock(b.p, b.balances[m], side, tick, lots)])
    ensures Rep(r, Ops.Post(b, side, tick, lots, m, expiry, i))
  {
    hide Book.Inv, Lists, FundsRep, Enlist, Ops.CanPost;
    EnlistParts(b, side, tick, lots, m, expiry, i);
    EnlistFunds(b, side, tick, lots, m, expiry, i);
    ListsSame(r, Enlist(b, side, tick, lots, m, expiry, i), Ops.Post(b, side, tick, lots, m, expiry, i));
  }

  lemma FreeHeadFits(r: Raw, b: Book)
    requires Lists(r, b)
    ensures r.header.freeHead < |r.pool| || r.header.freeHead == NIL
    ensures r.header.freeHead != NIL ==> 0 < r.header.freeCount
  {
    hide QueuesRep, ChainsRep;
    if b.free != [] { assert b.free[0] in b.free; }
  }

  lemma QueueOnSame(r: Raw, r': Raw, b: Book, c: Book)
    requires QueueOn(r, b, c) && r' == r.(header := r'.header)
    requires r'.header.freeHead == r.header.freeHead && r'.header.freeCount == r.header.freeCount
    ensures QueueOn(r', b, c)
  {
    hide QueuesRep, ChainsRep, NodesRep;
  }

  lemma HeaderSeq(h: Market, b: Book)
    requires HeaderRep(h, b)
    ensures h.maxLots == b.p.maxLots && IdFor(h.orderSeq) == b.issued % FREED_SEQ
    ensures SeqRep(WrappingAdd(IdFor(h.orderSeq), 1), b.issued + 1)
  {
    NextId(h.orderSeq, b.issued);
  }

  /** The level an order is about to join: occupied on its own side, or zeroed. */
  lemma LevelReady(r: Raw, b: Book, side: Side, tick: nat)
    requires Lists(r, b) && b.Structure() && b.InWindow(tick)
    requires (side.Bid? ==> tick !in b.asks) && (side.Ask? ==> tick !in b.bids)
    ensures |r.levels| == WINDOW_TICKS
    ensures var l := r.levels[Slot(tick)];
      && (Slot(tick) in (if side.Bid? then r.bidBits else r.askBits) <==> tick in b.Levels(side))
      && (tick in b.Levels(side) <==> l != EMPTY_LEVEL)
      && (tick in b.Levels(side) ==> l.tail != NIL)
  {
    hide ChainsRep, FreeRep, NodesRep, Book.Structure;
    if tick in b.Levels(side) {
      BothInWindow(b, side, tick);
      assert LevelIs(r.pool, r.levels[Slot(tick)], b.orders, b.Levels(side)[tick]);
      QueueNonZero(r.pool, b.Levels(side)[tick]);
    }
  }

  lemma QueueNonZero(pool: seq<OrderNode>, q: seq<nat>)
    requires FifoLinks(pool, q) && q != []
    ensures At(q, 0) != 0 && At(q, |q| - 1) != 0
  {
    hide Linked;
    assert q[0] in q && q[|q| - 1] in q;
  }

  // ---- walking a chain ----

  /** The sort key stored in a node. */
  function NodeKey(n: OrderNode): nat { Key(n.side, n.tick) }

  lemma ChainNode(pool: seq<OrderNode>, seats: seq<Seat>, b: Book, orders: map<nat, Order>, m: nat, i: nat)
    requires ChainsRep(pool, seats, b.chains) && NodesRep(pool, orders) && m < |b.chains| && i < |b.chains[m]|
    requires forall h | h in b.chains[m] :: h in orders
    ensures var c, h := b.chains[m], b.chains[m][i];
      && m < |seats| && 0 < h < |pool| && NodeIs(pool[h], orders[h]) && NodeKey(pool[h]) == orders[h].SortKey()
      && pool[h].makerNext == At(c, i + 1) && pool[h].makerPrev == At(c, i - 1)
  {
    hide Linked;
    var c := b.chains[m];
    assert ChainLinks(pool, c);
    assert c[i] in c;
    LinkAt(MakerPrev(pool), MakerNext(pool), c, i);
  }

  lemma ChainStart(pool: seq<OrderNode>, seats: seq<Seat>, b: Book, m: nat)
    requires ChainsRep(pool, seats, b.chains) && m < |b.chains|
    ensures m < |seats| && seats[m].head == At(b.chains[m], 0)
    ensures forall i: nat | i <= |b.chains[m]| :: At(b.chains[m], i) == 0 <==> i == |b.chains[m]|
  {
    hide Linked;
    var c := b.chains[m];
    assert ChainLinks(pool, c);
    forall i: nat | i < |c| ensures At(c, i) != 0 { assert c[i] in c; }
  }

  /** A chain is short enough for its stored count to be exact. */
  lemma {:induction false} LengthWithin(s: seq<seq<nat>>, m: nat)
    requires m < |s|
    ensures |s[m]| <= SumLengths(s)
  {
    if m > 0 { LengthWithin(s[1..], m - 1); }
  }

  lemma CountExact(r: Raw, b: Book, m: nat)
    requires b.Inv() && Lists(r, b) && m < MAX_SEATS
    ensures m < |r.seats| && m < |b.chains| && r.seats[m].count == |b.chains[m]|
  {
    hide Book.Inv, QueuesRep, ChainLinks, NodesRep, FreeRep;
    PoolBound(b);
    LengthWithin(b.chains, m);
  }

  lemma PoolBound(b: Book)
    requires b.Inv()
    ensures |b.chains| == MAX_SEATS && SumLengths(b.chains) < b.p.capacity <= MAX_POOL_CAPACITY
  {}

  // ---- best prices through the bitmaps ----

  lemma LeastUnique(s: set<nat>, lo: int, hi: int, x: Option<nat>, y: Option<nat>)
    requires IsLeast(s, lo, hi, x) && IsLeast(s, lo, hi, y)
    ensures x == y
  {}

  lemma GreatestUnique(s: set<nat>, lo: int, hi: int, x: Option<nat>, y: Option<nat>)
    requires IsGreatest(s, lo, hi, x) && IsGreatest(s, lo, hi, y)
    ensures x == y
  {}

  /** The set bits, read as ticks of the window, are the occupied ticks. */
  lemma BitsAreTicks(r: Raw, b: Book, side: Side)
    requires Lists(r, b) && b.Inv()
    ensures TicksOf(if side.Bid? then r.bidBits else r.askBits, b.anchor) == b.Levels(side).Keys
  {
    hide ChainsRep, FreeRep, NodesRep, LevelsRep, VacantRep, Slot;
    var bits := if side.Bid? then r.bidBits else r.askBits;
    assert BitsRep(bits, b, b.Levels(side));
    LevelsInWindow(b, side);
  }

  lemma LevelsInWindow(b: Book, side: Side)
    requires b.Inv()
    ensures forall t | t in b.Levels(side) :: b.InWindow(t)
  {
    forall t | t in b.Levels(side) ensures b.InWindow(t) { BothInWindow(b, side, t); }
  }

  lemma FreePositive(b: Book)
    requires b.Structure() && b.free != []
    ensures 0 < b.free[0] < b.p.capacity && b.free[0] !in b.orders
  {
    assert b.free[0] in b.free;
  }

  /** What the cursor of a chain walk sees, whether the chain's newest order is queued yet or not. */
  lemma WalkNode(pool: seq<OrderNode>, seats: seq<Seat>, b: Book, orders: map<nat, Order>, m: nat, i: nat)
    requires b.Inv() && m < MAX_SEATS && i <= |b.chains[m]|
    requires ChainsRep(pool, seats, b.chains) && NodesRep(pool, orders)
    requires forall h | h in b.orders :: h in orders && orders[h] == b.orders[h]
    ensures At(b.chains[m], i) <= U16_MAX
    ensures At(b.chains[m], i) == 0 <==> i == |b.chains[m]|
    ensures i < |b.chains[m]| ==>
      var h := b.chains[m][i];
      && h in b.orders && 0 < h < |pool| && NodeKey(pool[h]) == b.orders[h].SortKey()
      && pool[h].makerNext == At(b.chains[m], i + 1)
  {
    hide Book.Inv, ChainsRep, NodesRep;
    Quoting.ChainMembers(b, m);
    if i < |b.chains[m]| {
      ChainNode(pool, seats, b, orders, m, i);
      assert b.chains[m][i] in b.chains[m];
      HandleFits(b, b.chains[m][i]);
    }
  }

  lemma HandleFits(b: Book, h: nat)
    requires b.Inv() && h in b.orders
    ensures 0 < h <= U16_MAX
  {
    Ops.OrderFacts(b, h);
  }

  /** The chain walk has passed only keys below the one it looks for. */
  ghost predicate KeysBelow(b: Book, m: nat, i: nat, key: nat)
    requires m < |b.chains| && i <= |b.chains[m]|
  {
    forall j | 0 <= j < i :: b.chains[m][j] in b.orders && b.orders[b.chains[m][j]].SortKey() < key
  }

  lemma BelowStart(b: Book, m: nat, key: nat)
    requires m < |b.chains|
    ensures KeysBelow(b, m, 0, key)
  {}

  lemma BelowStep(b: Book, m: nat, i: nat, key: nat)
    requires m < |b.chains| && i < |b.chains[m]| && KeysBelow(b, m, i, key)
    requires b.chains[m][i] in b.orders && b.orders[b.chains[m][i]].SortKey() < key
    ensures KeysBelow(b, m, i + 1, key)
  {}

  /** The place a walk stops at is the place of the key. */
  lemma PlaceUnique(b: Book, m: nat, side: Side, tick: nat, i: nat)
    requires b.Inv() && m < MAX_SEATS && i <= |b.chains[m]|
    requires KeysBelow(b, m, i, Key(side, tick))
    requires i < |b.chains[m]| ==>
      b.chains[m][i] in b.orders && Key(side, tick) <= b.orders[b.chains[m][i]].SortKey()
    ensures i == Quoting.Place(b, m, side, tick)
    ensures Quoting.FindQuote(b, m, side, tick) ==
      if i < |b.chains[m]| && b.orders[b.chains[m][i]].SortKey() == Key(side, tick) then Some(b.chains[m][i]) else None
  {
    hide Book.Inv;
    Quoting.ChainMembers(b, m);
  }

  lemma QueueOnParts(r: Raw, b: Book, side: Side, tick: nat, lots: nat, m: nat, expiry: nat)
    requires b.free != [] && b.free[0] !in b.orders && m < |b.chains|
    requires QueueOn(r, b, Enlist(b, side, tick, lots, m, expiry, 0))
    ensures var orders := Enlist(b, side, tick, lots, m, expiry, 0).orders;
      && ChainsRep(r.pool, r.seats, b.chains) && NodesRep(r.pool, orders)
      && (forall h | h in b.orders :: h in orders && orders[h] == b.orders[h])
      && b.free[0] < |r.pool| && NodeKey(r.pool[b.free[0]]) == Key(side, tick)
  {
    hide QueuesRep, ChainsRep;
    EnlistParts(b, side, tick, lots, m, expiry, 0);
    var orders := Enlist(b, side, tick, lots, m, expiry, 0).orders;
    assert b.free[0] in orders;
  }

  lemma AtStart(c: seq<nat>)
    ensures At(c, -1) == 0 && (c != [] ==> At(c, 0) == c[0])
  {}

  lemma AtIs(c: seq<nat>, i: nat)
    requires i <= |c|
    ensures i < |c| ==> At(c, i) == c[i]
    ensures 0 < i ==> At(c, i - 1) == c[i - 1]
  {}

  lemma BookStructure(b: Book)
    requires b.Inv()
    ensures b.p.Ok() && b.WindowOk() && b.Structure() && b.Uncrossed() && b.LocksExact()
  {}

  lemma RepParts(r: Raw, b: Book)
    requires Rep(r, b)
    ensures ChainsRep(r.pool, r.seats, b.chains) && NodesRep(r.pool, b.orders) && Sizes(r, b)
    ensures Lists(r, b) && HeaderRep(r.header, b)
  {}

  lemma HeaderAnchor(r: Raw, b: Book)
    requires Rep(r, b)
    ensures r.header.anchor == b.anchor && r.header.tickLimit == b.p.tickLimit && Lists(r, b)
  {
    hide Lists;
  }

  // ---- a smaller order ----

  /** What a valid account offers to a resize. */
  lemma BeforeAmend(r: Raw, b: Book, h: nat, lots: nat)
    requires b.Inv() && Rep(r, b) && h in b.orders && lots <= b.orders[h].lots
    ensures Lists(r, b) && HeaderRep(r.header, b) && FundsRep(r.seats, b.balances) && b.p.Ok()
    ensures 0 < h <= U16_MAX && h < |r.pool| && NodeIs(r.pool[h], b.orders[h])
    ensures var o := b.orders[h];
      var diff := o.lots - lots;
      && o.tick <= b.p.tickLimit && diff <= b.p.maxLots && o.maker < |r.seats| == |b.balances| == MAX_SEATS
      && b.p.Atoms(o.side, o.tick, diff) <= (if o.side.Ask? then r.seats[o.maker].baseLocked
        else r.seats[o.maker].quoteLocked)
  {
    hide Book.Inv, Lists, FundsRep, HeaderRep, Params.Atoms, Params.Ok, Book.Structure, Book.Uncrossed;
    BeforeKill(r, b, h);
    var o := b.orders[h];
    Ops.AtomsAdd(b.p, o.side, o.tick, lots, o.lots - lots);
    LocksAre(r.seats, b.balances, o.maker);
  }

  lemma AmendParts(b: Book, h: nat, lots: nat, expiry: nat)
    requires b.Inv() && h in b.orders && 0 < lots <= b.orders[h].lots && expiry <= U32_MAX
    ensures b.OrderOk(h) && b.Structure() && b.Uncrossed() && b.orders[h].maker < |b.balances|
    ensures var o, u, c := b.orders[h], Restate(b, h, lots, expiry), Ops.Amend(b, h, lots, expiry);
      && c == u.(balances := b.balances[o.maker := Ops.Refund(b.p, b.balances[o.maker], o.side, o.tick, o.lots - lots)])
      && c.fees == u.fees == b.fees && c.p == b.p && c.anchor == b.anchor && c.issued == b.issued
      && 0 <= b.balances[o.maker].baseFree && 0 <= b.balances[o.maker].quoteFree
      && b.p.Atoms(o.side, o.tick, o.lots - lots) <= b.balances[o.maker].Locked(o.side.Ask?)
  {
    hide Book.Inv, Book.Structure, Params.Atoms;
    OrderInBook(b, h);
    var o := b.orders[h];
    Ops.LockCovers(b, h, o.side.Ask?);
    FreeNotNegative(b, o.maker);
    Ops.AtomsAdd(b.p, o.side, o.tick, lots, o.lots - lots);
  }

  /** The account after an in-place resize of node `h` and a refund of `atoms`. */
  function Resized(r: Raw, h: nat, lots: u32, expiry: u32, base: bool, atoms: u64): Raw
    requires h < |r.pool| && |r.levels| == WINDOW_TICKS && r.pool[h].maker < |r.seats| && lots <= r.pool[h].lots
    requires atoms <= if base then r.seats[r.pool[h].maker].baseLocked else r.seats[r.pool[h].maker].quoteLocked
  {
    var n := r.pool[h];
    var slot := Slot(n.tick);
    r.(pool := r.pool[h := n.(lots := lots, expiry := expiry)],
       levels := r.levels[slot := r.levels[slot].(total := WrappingSub(r.levels[slot].total, n.lots - lots))],
       seats := r.seats[n.maker := Unlocked(r.seats[n.maker], base, atoms)])
  }

  /** The resized account represents the amended book. */
  ghost predicate ResizedIs(r: Raw, b: Book, h: nat, lots: u32, expiry: u32, base: bool, atoms: u64)
    requires b.Inv() && h in b.orders && 0 < lots <= b.orders[h].lots
  {
    hide Book.Inv;
    && Resized.requires(r, h, lots, expiry, base, atoms)
    && Rep(Resized(r, h, lots, expiry, base, atoms), Ops.Amend(b, h, lots, expiry))
  }

  lemma AfterAmend(r: Raw, b: Book, h: nat, lots: u32, expiry: u32, base: bool, atoms: u64)
    requires b.Inv() && Rep(r, b) && h in b.orders && 0 < lots <= b.orders[h].lots
    requires base == b.orders[h].side.Ask?
      && atoms == b.p.Atoms(b.orders[h].side, b.orders[h].tick, b.orders[h].lots - lots)
    ensures ResizedIs(r, b, h, lots, expiry, base, atoms)
  {
    hide Book.Inv, QueuesRep, ChainsRep, FundsRep, FreeRep, NodesRep, HeaderRep, Params.Atoms, Ops.Amend,
      Book.Structure,
      Book.Uncrossed, Restate, Book.OrderOk, Slot;
    BeforeAmend(r, b, h, lots);
    AmendParts(b, h, lots, expiry);
    var o := b.orders[h];
    RestateLists(r, b, h, lots, expiry);
    UnlockFundsRep(r.seats, b.balances, o.maker, base, atoms);
    UnlockedHead(r.seats[o.maker], base, atoms);
    var r' := Resized(r, h, lots, expiry, base, atoms);
    SameSeats(r'.(seats := r.seats), Restate(b, h, lots, expiry), o.maker, Unlocked(r.seats[o.maker], base, atoms));
    ListsSame(r', Restate(b, h, lots, expiry), Ops.Amend(b, h, lots, expiry));
    HeaderSame(r.header, b, Ops.Amend(b, h, lots, expiry));
  }

  lemma HeaderSame(h: Market, b: Book, c: Book)
    requires HeaderRep(h, b) && c.p == b.p && c.anchor == b.anchor && c.fees == b.fees && c.issued == b.issued
    ensures HeaderRep(h, c)
  {}

  /** Nothing to refund: only the expiry is written. */
  lemma ResizedSame(r: Raw, b: Book, h: nat, expiry: u32, base: bool)
    requires h < |r.pool| && |r.levels| == WINDOW_TICKS && r.pool[h].maker < |r.seats|
    ensures forall side, tick :: b.p.Atoms(side, tick, 0) == 0
    ensures Resized(r, h, r.pool[h].lots, expiry, base, 0) == r.(pool := r.pool[h := r.pool[h].(expiry := expiry)])
  {
    var n := r.pool[h];
    assert r.levels[Slot(n.tick) := r.levels[Slot(n.tick)]] == r.levels;
    assert Unlocked(r.seats[n.maker], base, 0) == r.seats[n.maker];
    assert r.seats[n.maker := r.seats[n.maker]] == r.seats;
  }

  lemma LotsPositive(b: Book, side: Side, tick: nat, lots: nat, m: nat, expiry: nat, i: nat)
    requires b.Inv() && Ops.CanPost(b, side, tick, lots, m, expiry, i)
    ensures 0 < lots <= b.p.maxLots && tick <= b.p.tickLimit && i <= |b.chains[m]|
  {}

  lemma HeaderLots(h: Market, b: Book)
    requires HeaderRep(h, b)
    ensures h.maxLots == b.p.maxLots && h.tickSize == b.p.tickSize && h.lotSize == b.p.lotSize && h.feeBps == b.p.feeBps
    ensures h.anchor == b.anchor && h.tickLimit == b.p.tickLimit && h.capacity == b.p.capacity
  {}

  lemma NodeLots(r: Raw, b: Book, h: nat)
    requires b.Inv() && Rep(r, b) && h in b.orders
    ensures 0 < h < |r.pool| && NodeIs(r.pool[h], b.orders[h]) && 0 < b.orders[h].lots
  {
    hide Book.Inv, QueuesRep, ChainsRep, FreeRep;
    Ops.OrderFacts(b, h);
  }

  lemma KillFits(b: Book, h: nat)
    requires b.Inv() && b.Fits() && h in b.orders
    ensures Ops.Kill(b, h).Fits()
  {
    hide Book.Inv, Ops.Kill;
    Frames.KillQuiet(b, h);
    Frames.QuietConserves(b, Ops.Kill(b, h), true);
    Frames.QuietConserves(b, Ops.Kill(b, h), false);
  }

  /** The lock check on stored balances is the check on exact ones, and so is its effect. */
  lemma LockExact(r: Raw, b: Book, side: Side, tick: nat, lots: nat, m: nat, base: bool, atoms: u64)
    requires b.Inv() && b.Fits() && Rep(r, b) && m < MAX_SEATS
    requires base == side.Ask? && atoms == b.p.Atoms(side, tick, lots)
    ensures m < |r.seats| == |b.balances|
    ensures Ops.CanPay(b, side, tick, lots, m) <==> atoms <= if base then r.seats[m].baseFree else r.seats[m].quoteFree
    ensures Ops.CanPay(b, side, tick, lots, m) ==>
      var s := Locked(r.seats[m], base, atoms);
      && Lists(r.(seats := r.seats[m := s]), b)
      && FundsRep(r.seats[m := s], b.balances[m := Ops.Lock(b.p, b.balances[m], side, tick, lots)])
  {
    hide Book.Inv, Lists, FundsRep, HeaderRep, Params.Atoms, Book.Fits;
    FundsExact(r.seats, b, m);
    if Ops.CanPay(b, side, tick, lots, m) {
      LockedHead(r.seats[m], base, atoms);
      SameSeats(r, b, m, Locked(r.seats[m], base, atoms));
      LockFundsRep(r.seats, b.balances, m, base, atoms);
    }
  }

  lemma RepHeader(r: Raw, b: Book)
    requires Rep(r, b)
    ensures HeaderRep(r.header, b) && Lists(r, b)
    ensures r.header.feeBps == b.p.feeBps && r.header.anchor == b.anchor
  {
    hide Lists;
  }

  lemma BestInWindow(b: Book, side: Side)
    requires b.Inv()
    ensures Matching.Best(b, side).Some? ==> b.InWindow(Matching.Best(b, side).value)
  {
    hide Book.Inv;
    Matching.BestIsBest(b, side);
  }

  lemma SeatsAre(r: Raw, b: Book)
    requires Rep(r, b)
    ensures |r.seats| == MAX_SEATS == |b.balances|
  {
    hide QueuesRep, ChainsRep, FreeRep, NodesRep;
  }

  /** One free balance moved, on the account and on the book. */
  lemma FreeMoved(r: Raw, b: Book, m: nat, base: bool, atoms: u64, delta: int)
    requires b.Inv() && Rep(r, b) && m < MAX_SEATS && m < |b.balances| && m < |r.seats|
      && 0 <= b.balances[m].Free(base) + delta
    requires atoms == WrappingAdd(b.balances[m].Free(base), delta)
    ensures Venues.Moved(b, m, base, delta).Inv()
    ensures var s := if base then r.seats[m].(baseFree := atoms) else r.seats[m].(quoteFree := atoms);
      Rep(r.(seats := r.seats[m := s]), Venues.Moved(b, m, base, delta))
  {
    hide Book.Inv, Lists, HeaderRep;
    var s := if base then r.seats[m].(baseFree := atoms) else r.seats[m].(quoteFree := atoms);
    Venues.MovedFunds(b, m, base, delta);
    SameSeats(r, b, m, s);
    ListsSame(r.(seats := r.seats[m := s]), b, Venues.Moved(b, m, base, delta));
    HeaderSame(r.header, b, Venues.Moved(b, m, base, delta));
  }

  lemma NoFeesRep(r: Raw, b: Book)
    requires b.Inv() && Rep(r, b) && b.fees <= U64_MAX
    ensures r.header.fees == b.fees && Rep(r.(header := r.header.(fees := 0)), b.(fees := 0))
  {
    hide Book.Inv, QueuesRep, ChainsRep, FreeRep, NodesRep, FundsRep;
    Frames.FeesKept(b);
    ListsSame(r, b, b.(fees := 0));
  }

  lemma WithFeeRep(r: Raw, b: Book, bps: u16)
    requires Rep(r, b)
    ensures Rep(r.(header := r.header.(feeBps := bps)), Runs.WithFee(b, bps))
  {
    hide ChainsRep, FreeRep, NodesRep, FundsRep, LevelsRep;
  }
}
