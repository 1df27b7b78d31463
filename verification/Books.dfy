/**
 The order book as a value: what every instruction means, with queues, chains and
 the free list as sequences of pool handles and balances as exact integers.
 */
module Books {
  import opened Base
  import opened Bitmaps
  import opened Seqs

  const MAX_SEATS: nat := 128
  const MAX_ORDERS_PER_SEAT: nat := 128
  const MIN_POOL_CAPACITY: nat := 64
  const MAX_POOL_CAPACITY: nat := 1 + MAX_SEATS * MAX_ORDERS_PER_SEAT + MAX_ORDERS_PER_SEAT
  const FREED_SEQ: nat := 0xFFFF_FFFF_FFFF_FFFF
  const NO_SEAT: nat := 0xFFFF
  const FEE_DENOMINATOR: nat := 10_000
  const MAX_FEE_BPS: nat := 500

  datatype Side = Bid | Ask {
    function Opposite(): Side { if Bid? then Ask else Bid }
  }

  /** Chains are sorted bids first, then by tick. */
  function Key(side: Side, tick: nat): nat {
    (if side.Bid? then 0 else 0x1_0000_0000) + tick
  }

  datatype Params = Params(
    tickSize: nat, lotSize: nat, feeBps: nat, maxLots: nat, tickLimit: nat, capacity: nat)
  {
    /** What `create_market` establishes. */
    ghost predicate Ok() {
      && 0 < tickSize && 0 < lotSize && 0 < maxLots <= U32_MAX
      && feeBps <= MAX_FEE_BPS
      && tickLimit <= U32_MAX - 2 * WINDOW_TICKS
      && Times(FEE_DENOMINATOR + MAX_FEE_BPS, Times(Times(tickLimit, tickSize), maxLots)) <= U64_MAX
      && Times(lotSize, maxLots) <= U64_MAX
      && MIN_POOL_CAPACITY <= capacity <= MAX_POOL_CAPACITY
    }

    function Notional(tick: nat, lots: nat): nat { Times(Times(tick, tickSize), lots) }
    function BaseAtoms(lots: nat): nat { Times(lotSize, lots) }

    /** What an order of this size locks: quote for a bid, base for an ask. */
    function Atoms(side: Side, tick: nat, lots: nat): nat {
      if side.Bid? then Notional(tick, lots) else BaseAtoms(lots)
    }
  }

  /** An expiry slot of 0 never lapses. */
  predicate Lapsed(expiry: nat, slot: nat) { expiry != 0 && expiry <= slot }

  // `stamp` counts insertions since the market was created; the order id is the
  // stamp modulo 2^64 - 1, so an id is never FREED_SEQ.
  datatype Order = Order(side: Side, tick: nat, maker: nat, lots: nat, expiry: nat, stamp: nat) {
    function Id(): nat { stamp % FREED_SEQ }
    function SortKey(): nat { Key(side, tick) }
    predicate Expired(slot: nat) { Lapsed(expiry, slot) }
    ghost predicate SameIdentity(o: Order) {
      side == o.side && tick == o.tick && maker == o.maker && stamp == o.stamp
    }
    function Lock(p: Params, base: bool): nat {
      if side.Ask? == base then p.Atoms(side, tick, lots) else 0
    }
  }

  datatype Balance = Balance(baseFree: int, quoteFree: int, baseLocked: int, quoteLocked: int) {
    function Free(base: bool): int { if base then baseFree else quoteFree }
    function Locked(base: bool): int { if base then baseLocked else quoteLocked }
    function Owned(base: bool): int { Free(base) + Locked(base) }

    function Move(base: bool, free: int, locked: int): Balance {
      if base then this.(baseFree := baseFree + free, baseLocked := baseLocked + locked)
      else this.(quoteFree := quoteFree + free, quoteLocked := quoteLocked + locked)
    }

    /** A fill of `lots` of an order of `side` at `tick`, on the maker's balances. */
    function Settle(p: Params, side: Side, tick: nat, lots: nat): Balance {
      Move(side.Ask?, 0, 0 - p.Atoms(side, tick, lots)).Move(side.Bid?, p.Atoms(side.Opposite(), tick, lots), 0)
    }
  }

  ghost function SumOwned(s: seq<Balance>, base: bool): int {
    if s == [] then 0 else s[0].Owned(base) + SumOwned(s[1..], base)
  }

  ghost function SumLengths(s: seq<seq<nat>>): nat {
    if s == [] then 0 else |s[0]| + SumLengths(s[1..])
  }

  lemma {:induction false} SumOwnedUpdate(s: seq<Balance>, i: nat, x: Balance, base: bool)
    requires i < |s|
    ensures SumOwned(s[i := x], base) == SumOwned(s, base) - s[i].Owned(base) + x.Owned(base)
  {
    if i > 0 {
      assert s[i := x][1..] == s[1..][i - 1 := x];
      SumOwnedUpdate(s[1..], i - 1, x, base);
    } else {
      assert s[i := x][1..] == s[1..];
    }
  }

  lemma {:induction false} SumLengthsUpdate(s: seq<seq<nat>>, i: nat, x: seq<nat>)
    requires i < |s|
    ensures SumLengths(s[i := x]) == SumLengths(s) - |s[i]| + |x|
  {
    if i > 0 {
      assert s[i := x][1..] == s[1..][i - 1 := x];
      SumLengthsUpdate(s[1..], i - 1, x);
    } else {
      assert s[i := x][1..] == s[1..];
    }
  }

  ghost function StampOf(orders: map<nat, Order>): nat -> nat {
    h => if h in orders then orders[h].stamp else 0
  }

  ghost function KeyOf(orders: map<nat, Order>): nat -> nat {
    h => if h in orders then orders[h].SortKey() else 0
  }

  ghost function LockOf(p: Params, orders: map<nat, Order>, base: bool): nat -> nat {
    h => if h in orders then orders[h].Lock(p, base) else 0
  }

  datatype Book = Book(
    p: Params,
    anchor: nat,
    orders: map<nat, Order>,      // live orders by pool handle
    bids: map<nat, seq<nat>>,     // occupied bid ticks, each with its FIFO
    asks: map<nat, seq<nat>>,
    chains: seq<seq<nat>>,        // per seat, sorted by (side, tick)
    free: seq<nat>,               // the free list, head first
    balances: seq<Balance>,
    fees: int,
    issued: nat)                  // order ids issued so far
  {
    function Levels(side: Side): map<nat, seq<nat>> { if side.Bid? then bids else asks }

    function WithLevels(side: Side, m: map<nat, seq<nat>>): Book {
      if side.Bid? then this.(bids := m) else this.(asks := m)
    }

    predicate InWindow(tick: nat) { anchor <= tick <= anchor + WINDOW_MASK }

    ghost predicate WindowOk() {
      anchor % 64 == 0 && 64 <= anchor && anchor + WINDOW_MASK <= p.tickLimit
    }

    ghost predicate OrderOk(h: nat)
      requires h in orders
    {
      var o := orders[h];
      && 0 < h < p.capacity
      && o.maker < |chains| && h in chains[o.maker]
      && 0 < o.lots <= p.maxLots
      && o.expiry <= U32_MAX
      && o.stamp < issued
      && InWindow(o.tick)
      && o.tick in Levels(o.side) && h in Levels(o.side)[o.tick]
    }

    ghost predicate QueueOk(side: Side, tick: nat)
      requires tick in Levels(side)
    {
      var q := Levels(side)[tick];
      && q != []
      && (forall h | h in q :: h in orders && orders[h].side == side && orders[h].tick == tick)
      && Rising(StampOf(orders), q)
    }

    ghost predicate ChainOk(m: nat)
      requires m < |chains|
    {
      var c := chains[m];
      && (forall h | h in c :: h in orders && orders[h].maker == m)
      && Rising(KeyOf(orders), c)
    }

    ghost predicate FreeOk() {
      && Distinct(free)
      && (forall h | h in free :: 0 < h < p.capacity && h !in orders)
      && (forall h: nat | 0 < h < p.capacity :: h in orders || h in free)
      && |free| + SumLengths(chains) == p.capacity - 1
    }

    /** Every live order is on exactly one queue and on its maker's chain; the rest is free. */
    ghost predicate Structure() {
      && |chains| == MAX_SEATS
      && (forall h | h in orders :: OrderOk(h))
      && (forall t | t in bids :: QueueOk(Bid, t))
      && (forall t | t in asks :: QueueOk(Ask, t))
      && (forall m | 0 <= m < MAX_SEATS :: ChainOk(m))
      && FreeOk()
    }

    /** Never crossed: every bid tick is below every ask tick. */
    ghost predicate Uncrossed() {
      forall x, y | x in bids && y in asks :: x < y
    }

    /** What the orders on a chain lock. */
    ghost function ChainLock(m: nat, base: bool): nat
      requires m < |chains|
    {
      Sum(LockOf(p, orders, base), chains[m])
    }

    /** Locked balances are exactly what the live orders require. */
    ghost predicate LocksExact() {
      && |balances| == |chains|
      && (forall m, base | 0 <= m < |balances| ::
            balances[m].Locked(base) == ChainLock(m, base) && 0 <= balances[m].Free(base))
      && 0 <= fees
    }

    ghost predicate Inv() {
      p.Ok() && WindowOk() && Structure() && Uncrossed() && LocksExact()
    }

    /** All claims on one asset: every seat's balances and, on the quote side, the fees. */
    ghost function Claims(base: bool): int {
      SumOwned(balances, base) + if base then 0 else fees
    }

    /** No balance can have wrapped. */
    ghost predicate Fits() {
      Claims(true) <= U64_MAX && Claims(false) <= U64_MAX
    }
  }

  // ---- primitive changes ----

  function Dequeued(levels: map<nat, seq<nat>>, tick: nat, q: seq<nat>): map<nat, seq<nat>> {
    if q == [] then levels - {tick} else levels[tick := q]
  }

  /** Take an order off its queue and chain and put its node on the free list. */
  ghost function Unlist(b: Book, h: nat): Book
    requires h in b.orders && b.OrderOk(h)
  {
    var o := b.orders[h];
    b.WithLevels(o.side, Dequeued(b.Levels(o.side), o.tick, Without(b.Levels(o.side)[o.tick], h)))
     .(orders := b.orders - {h},
       chains := b.chains[o.maker := Without(b.chains[o.maker], h)],
       free := [h] + b.free)
  }

  /** Change the size and expiry of an order in place. */
  ghost function Restate(b: Book, h: nat, lots: nat, expiry: nat): Book
    requires h in b.orders
  {
    b.(orders := b.orders[h := b.orders[h].(lots := lots, expiry := expiry)])
  }

  ghost function WithBalance(b: Book, m: nat, x: Balance): Book
    requires m < |b.balances|
  {
    b.(balances := b.balances[m := x])
  }

  // ---- the overflow guard ----

  /** A product never below either factor's contribution: scaling keeps the guard. */
  lemma Scaled(k: nat, x: nat)
    requires 0 < k
    ensures x <= Times(k, x)
  {
    TimesMono(1, k, x, x);
    TimesIs(1, x);
  }

  /** Notionals fit u64 with room for the largest fee: `notional * (10_000 + 500)` does not overflow. */
  lemma NotionalFits(p: Params, tick: nat, lots: nat)
    requires p.Ok() && tick <= p.tickLimit && lots <= p.maxLots
    ensures Times(FEE_DENOMINATOR + MAX_FEE_BPS, p.Notional(tick, lots)) <= U64_MAX
    ensures p.Notional(tick, lots) <= U64_MAX && Times(tick, p.tickSize) <= U64_MAX
  {
    var price, top := Times(tick, p.tickSize), Times(p.tickLimit, p.tickSize);
    TimesMono(tick, p.tickLimit, p.tickSize, p.tickSize);
    TimesMono(price, top, lots, p.maxLots);
    TimesMono(FEE_DENOMINATOR + MAX_FEE_BPS, FEE_DENOMINATOR + MAX_FEE_BPS, Times(price, lots), Times(top, p.maxLots));
    Scaled(FEE_DENOMINATOR + MAX_FEE_BPS, p.Notional(tick, lots));
    Scaled(FEE_DENOMINATOR + MAX_FEE_BPS, Times(top, p.maxLots));
    TimesMono(price, top, 1, p.maxLots);
    TimesIs(price, 1);
  }

  lemma BaseAtomsFit(p: Params, lots: nat)
    requires p.Ok() && lots <= p.maxLots
    ensures p.BaseAtoms(lots) <= U64_MAX
  {
    TimesMono(p.lotSize, p.lotSize, lots, p.maxLots);
  }
}
