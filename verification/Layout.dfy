/** The memory layout of a market account, and when it represents a book. */
module Layout {
  import opened Base
  import opened Bitmaps
  import opened Seqs
  import opened Links
  import opened Books
  const NIL: u16 := 0

  datatype OrderNode = OrderNode(
    prev: u16, next: u16, makerPrev: u16, makerNext: u16,
    tick: u32, side: Side, maker: u16, lots: u32, expiry: u32, id: u64)

  datatype Level = Level(head: u16, tail: u16, total: u64)

  const EMPTY_LEVEL: Level := Level(0, 0, 0)

  datatype Seat = Seat(
    baseFree: u64, quoteFree: u64, baseLocked: u64, quoteLocked: u64, head: u16, count: u16)

  datatype Market = Market(
    tickSize: u64, lotSize: u64, anchor: u32, tickLimit: u32, feeBps: u16, maxLots: u32,
    capacity: u32, freeHead: u16, freeCount: u32, orderSeq: u64, fees: u64)

  // ---- links ----

  ghost function Prev(pool: seq<OrderNode>): nat -> nat { (k: nat) => if k < |pool| then pool[k].prev else 0 }
  ghost function Next(pool: seq<OrderNode>): nat -> nat { (k: nat) => if k < |pool| then pool[k].next else 0 }
  ghost function MakerPrev(pool: seq<OrderNode>): nat -> nat { (k: nat) => if k < |pool| then pool[k].makerPrev else 0 }
  ghost function MakerNext(pool: seq<OrderNode>): nat -> nat { (k: nat) => if k < |pool| then pool[k].makerNext else 0 }

  ghost predicate InPool(pool: seq<OrderNode>, q: seq<nat>) {
    forall h | h in q :: 0 < h < |pool|
  }

  ghost predicate FifoLinks(pool: seq<OrderNode>, q: seq<nat>) {
    InPool(pool, q) && Linked(Prev(pool), Next(pool), q)
  }

  ghost predicate ChainLinks(pool: seq<OrderNode>, c: seq<nat>) {
    InPool(pool, c) && Linked(MakerPrev(pool), MakerNext(pool), c)
  }

  ghost predicate FreeLinks(pool: seq<OrderNode>, f: seq<nat>) {
    && InPool(pool, f)
    && (forall i | 0 <= i < |f| :: Next(pool)(f[i]) == At(f, i + 1))
    && (forall h | h in f :: pool[h].id == FREED_SEQ && pool[h].lots == 0)
  }

  // ---- representation, part by part ----

  ghost function LotsOf(orders: map<nat, Order>): nat -> nat {
    h => if h in orders then orders[h].lots else 0
  }

  ghost predicate NodeIs(n: OrderNode, o: Order) {
    && n.tick == o.tick && n.side == o.side && n.maker == o.maker
    && n.lots == o.lots && n.expiry == o.expiry && n.id == o.Id()
  }

  ghost predicate NodesRep(pool: seq<OrderNode>, orders: map<nat, Order>) {
    forall h | h in orders :: h < |pool| && NodeIs(pool[h], orders[h])
  }

  ghost predicate LevelIs(pool: seq<OrderNode>, l: Level, orders: map<nat, Order>, q: seq<nat>) {
    && FifoLinks(pool, q)
    && l.head == At(q, 0) && l.tail == At(q, |q| - 1)
    && l.total == Sum(LotsOf(orders), q) % U64_MODULUS
  }

  /** Each occupied tick of one side has its level. */
  ghost predicate LevelsRep(pool: seq<OrderNode>, levels: seq<Level>, orders: map<nat, Order>, m: map<nat, seq<nat>>)
    requires |levels| == WINDOW_TICKS
  {
    forall t | t in m :: LevelIs(pool, levels[Slot(t)], orders, m[t])
  }

  /** The levels of the other ticks of the window are zeroed. */
  ghost predicate VacantRep(levels: seq<Level>, b: Book)
    requires |levels| == WINDOW_TICKS
  {
    forall t: nat | b.InWindow(t) && t !in b.bids && t !in b.asks :: levels[Slot(t)] == EMPTY_LEVEL
  }

  /** A bit is set exactly when its tick is occupied. */
  ghost predicate BitsRep(bits: set<nat>, b: Book, m: map<nat, seq<nat>>) {
    forall t: nat | b.InWindow(t) :: Slot(t) in bits <==> t in m
  }

  ghost predicate ChainsRep(pool: seq<OrderNode>, seats: seq<Seat>, chains: seq<seq<nat>>) {
    && |seats| == |chains|
    && forall m | 0 <= m < |chains| ::
         ChainLinks(pool, chains[m]) && seats[m].head == At(chains[m], 0) && seats[m].count == |chains[m]| % 0x1_0000
  }

  /** Locked balances are exact; free balances are exact modulo 2^64. */
  ghost predicate FundsRep(seats: seq<Seat>, balances: seq<Balance>) {
    && |seats| == |balances|
    && forall m | 0 <= m < |balances| ::
         && seats[m].baseLocked == balances[m].baseLocked && seats[m].quoteLocked == balances[m].quoteLocked
         && seats[m].baseFree == balances[m].baseFree % U64_MODULUS
         && seats[m].quoteFree == balances[m].quoteFree % U64_MODULUS
  }

  ghost predicate FreeRep(pool: seq<OrderNode>, head: nat, count: nat, f: seq<nat>) {
    FreeLinks(pool, f) && head == At(f, 0) && count == |f|
  }

  /** The raw counter against the ids issued: all-ones stands for the start of the next cycle. */
  ghost predicate SeqRep(raw: nat, issued: nat) {
    raw % FREED_SEQ == issued % FREED_SEQ
  }

  ghost predicate HeaderRep(h: Market, b: Book) {
    && b.p == Params(h.tickSize, h.lotSize, h.feeBps, h.maxLots, h.tickLimit, h.capacity)
    && h.anchor == b.anchor
    && h.fees == b.fees % U64_MODULUS
    && SeqRep(h.orderSeq, b.issued)
  }

  /** Levels and bitmaps represent the queues of both sides. */
  ghost predicate QueuesRep(
    pool: seq<OrderNode>, levels: seq<Level>, bidBits: set<nat>, askBits: set<nat>, b: Book)
  {
    && |levels| == WINDOW_TICKS
    && LevelsRep(pool, levels, b.orders, b.bids) && LevelsRep(pool, levels, b.orders, b.asks)
    && VacantRep(levels, b)
    && BitsRep(bidBits, b, b.bids) && BitsRep(askBits, b, b.asks)
  }

  // ---- one node off or onto its queue ----

  /** Only queue links changed, and only on live nodes. */
  ghost predicate OnlyQueueLinks(p: seq<OrderNode>, p': seq<OrderNode>, live: set<nat>) {
    && |p'| == |p|
    && forall k | 0 <= k < |p| ::
         p'[k] == p[k].(prev := p'[k].prev, next := p'[k].next) && (k !in live ==> p'[k] == p[k])
  }

  /** The pool after `h` was bridged over in its queue. */
  function QueueBridged(pool: seq<OrderNode>, h: nat): seq<OrderNode>
    requires h < |pool| && pool[h].prev < |pool| && pool[h].next < |pool|
  {
    var prev, next := pool[h].prev, pool[h].next;
    var p := if prev != NIL then pool[prev := pool[prev].(next := next)] else pool;
    if next != NIL then p[next := p[next].(prev := prev)] else p
  }

  /** The level after its node `n` was bridged over. */
  function LevelBridged(l: Level, n: OrderNode): Level {
    var head := if n.prev == NIL then n.next else l.head;
    var tail := if n.next == NIL then n.prev else l.tail;
    if head == NIL then EMPTY_LEVEL else Level(head, tail, WrappingSub(l.total, n.lots))
  }

  /** The pool after `h` was appended behind `tail` (NIL: an empty queue). */
  function QueueAppended(pool: seq<OrderNode>, tail: u16, h: u16): seq<OrderNode>
    requires tail < |pool| && h < |pool|
  {
    var p := if tail != NIL then pool[tail := pool[tail].(next := h)] else pool;
    p[h := p[h].(prev := tail, next := NIL)]
  }

  lemma BridgedNode(pool: seq<OrderNode>, h: nat, k: nat)
    requires h < |pool| && pool[h].prev < |pool| && pool[h].next < |pool| && 0 < k < |pool|
    ensures var p := QueueBridged(pool, h);
      && |p| == |pool|
      && Next(p)(k) == (if k == Prev(pool)(h) then Next(pool)(h) else Next(pool)(k))
      && Prev(p)(k) == (if k == Next(pool)(h) then Prev(pool)(h) else Prev(pool)(k))
      && p[k] == pool[k].(prev := p[k].prev, next := p[k].next)
      && (k != pool[h].prev && k != pool[h].next ==> p[k] == pool[k])
  {}

  /** Bridging over `h` leaves its queue, without `h`. */
  lemma BridgeQueue(pool: seq<OrderNode>, q: seq<nat>, h: nat)
    requires FifoLinks(pool, q) && Distinct(q) && h in q
    ensures h < |pool| && pool[h].prev < |pool| && pool[h].next < |pool|
    ensures FifoLinks(QueueBridged(pool, h), Without(q, h))
    ensures forall k | 0 < k < |pool| && k !in q :: QueueBridged(pool, h)[k] == pool[k]
  {
    hide QueueBridged, Linked;
    LinkEnds(Prev(pool), Next(pool), q, h);
    assert 0 < h < |pool|;
    forall k: nat | 0 < k < |pool| { BridgedNode(pool, h, k); }
    WithoutMembers(q, h);
    BridgedNode(pool, h, h);
    UnlinkLinked(Prev(pool), Next(pool), Prev(QueueBridged(pool, h)), Next(QueueBridged(pool, h)), q, h);
  }

  /** Head and tail after bridging over `h`. */
  lemma BridgeEnds(pool: seq<OrderNode>, l: Level, q: seq<nat>, h: nat)
    requires FifoLinks(pool, q) && Distinct(q) && h in q && QueueBridged.requires(pool, h)
    requires l.head == At(q, 0) && l.tail == At(q, |q| - 1)
    ensures (if pool[h].prev == NIL then pool[h].next else l.head) == At(Without(q, h), 0)
    ensures (if pool[h].next == NIL then pool[h].prev else l.tail) == At(Without(q, h), |q| - 2)
  {
    hide Linked;
    var i := IndexOf(q, h);
    LinkEnds(Prev(pool), Next(pool), q, h);
    AtWithout(q, h, 0);
    AtWithout(q, h, |q| - 2);
    if 0 < i { AtInside(q, i - 1); }
    if i + 1 < |q| { AtInside(q, i + 1); }
  }

  /** The level of a queue that loses `h`. */
  lemma BridgeLevel(pool: seq<OrderNode>, l: Level, orders: map<nat, Order>, q: seq<nat>, h: nat)
    requires LevelIs(pool, l, orders, q) && Distinct(q) && h in q
    requires h in orders && pool[h].lots == orders[h].lots
    requires QueueBridged.requires(pool, h)
    ensures var r := Without(q, h);
      if r == [] then LevelBridged(l, pool[h]) == EMPTY_LEVEL
      else LevelIs(QueueBridged(pool, h), LevelBridged(l, pool[h]), orders - {h}, r)
  {
    hide QueueBridged, FifoLinks, Without, WrappingSub, Distinct, At;
    var r := Without(q, h);
    BridgeQueue(pool, q, h);
    BridgeEnds(pool, l, q, h);
    WithoutMembers(q, h);
    SumWithout(LotsOf(orders), q, h);
    SumSame(LotsOf(orders), LotsOf(orders - {h}), r);
    WrapBack(Sum(LotsOf(orders), r), orders[h].lots);
    HeadOf(QueueBridged(pool, h), r);
  }

  lemma HeadOf(pool: seq<OrderNode>, q: seq<nat>)
    ensures if q == [] then At(q, 0) == 0 else FifoLinks(pool, q) ==> At(q, 0) != 0
  {
    if q != [] { assert q[0] in q; }
  }

  /** A level whose nodes kept their queue links and sizes. */
  lemma LevelUntouched(p: seq<OrderNode>, p': seq<OrderNode>, l: Level, orders: map<nat, Order>,
                       orders': map<nat, Order>, q: seq<nat>)
    requires LevelIs(p, l, orders, q) && |p'| == |p|
    requires forall h | h in q && h < |p| :: p'[h].prev == p[h].prev && p'[h].next == p[h].next
    requires forall h | h in q :: LotsOf(orders')(h) == LotsOf(orders)(h)
    ensures LevelIs(p', l, orders', q)
  {
    SameLinks(Prev(p), Next(p), Prev(p'), Next(p'), q);
    SumSame(LotsOf(orders), LotsOf(orders'), q);
  }

  lemma SlotInjective(anchor: nat, t: nat, u: nat)
    requires anchor <= t <= anchor + WINDOW_MASK && anchor <= u <= anchor + WINDOW_MASK
    ensures Slot(t) == Slot(u) ==> t == u
  {
    if t <= u { SlotAfter(t, u); } else { SlotAfter(u, t); }
  }

  /** The level that node `h` joins. */
  function LevelAppended(l: Level, h: u16, lots: nat, occupied: bool): Level {
    if occupied then l.(tail := h, total := WrappingAdd(l.total, lots))
    else Level(h, h, WrappingAdd(l.total, lots))
  }

  lemma AppendedNode(pool: seq<OrderNode>, tail: u16, h: u16, k: nat)
    requires tail < |pool| && h < |pool| && tail != h && 0 < k < |pool|
    ensures var p := QueueAppended(pool, tail, h);
      && |p| == |pool|
      && (k != h ==> Next(p)(k) == (if k == tail then h else Next(pool)(k)) && Prev(p)(k) == Prev(pool)(k))
      && (k == h ==> Next(p)(k) == 0 && Prev(p)(k) == tail)
      && p[k] == pool[k].(prev := p[k].prev, next := p[k].next)
      && (k != tail && k != h ==> p[k] == pool[k])
  {}

  lemma AppendQueue(pool: seq<OrderNode>, q: seq<nat>, tail: u16, h: u16)
    requires FifoLinks(pool, q) && Distinct(q) && h !in q && 0 < h < |pool| && tail == At(q, |q| - 1)
    ensures tail < |pool| && tail != h && FifoLinks(QueueAppended(pool, tail, h), q + [h])
  {
    hide QueueAppended, Linked;
    AtIsIn(q, |q| as int - 1);
    var p := QueueAppended(pool, tail, h);
    forall k: nat | 0 < k < |pool| { AppendedNode(pool, tail, h, k); }
    assert InsertAt(q, |q|, h) == q + [h];
    assert At(q, |q|) == 0;
    SpliceLinked(Prev(pool), Next(pool), Prev(p), Next(p), q, |q|, h);
  }

  /** The level of a queue that gains `h`. */
  lemma AppendLevel(pool: seq<OrderNode>, l: Level, orders: map<nat, Order>, q: seq<nat>, h: u16, o: Order)
    requires if q == [] then l == EMPTY_LEVEL else LevelIs(pool, l, orders, q)
    requires Distinct(q) && h !in q && 0 < h < |pool|
    requires forall x | x in q :: 0 < x
    ensures l.tail < |pool| && l.tail != h
    ensures LevelIs(QueueAppended(pool, l.tail, h), LevelAppended(l, h, o.lots, q != []), orders[h := o], q + [h])
  {
    hide QueueAppended, Linked, WrappingAdd;
    if q == [] { EmptyLinked(Prev(pool), Next(pool)); }
    AppendQueue(pool, q, l.tail, h);
    var f, g := LotsOf(orders), LotsOf(orders[h := o]);
    SumSame(f, g, q);
    SumConcat(g, q, [h]);
    WrapBack(Sum(f, q), o.lots);
  }
}
