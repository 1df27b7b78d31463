/** The order book engine: the mutable view over a market account. */
module Engine {
  import opened Base
  import opened Bitmaps
  import opened Links
  import opened Books
  import opened Changes
  import opened Ops
  import opened Layout
  import opened Queues
  import opened Chains
  import opened Represent
  import opened Posting
  import opened Filling
  import opened Budgets
  import opened Matching
  import opened MergeSteps
  import opened Merging
  import Quoting
  import Hygiene
  import MassQuoting
  import opened Anchoring
  import Reanchoring
  import Reaping
  import Markets
  import Venues
  import Runs
  import opened Creating
  import opened ReapSteps

  // One resting order handled: matching goes on with what remains, or is over.
  datatype Step = Went(remaining: u32, res: TakeResult) | Over

  // One level drained: on to the next one, or matching is over.
  datatype Drained = Next(remaining: u32, res: TakeResult) | Done(remaining: u32, res: TakeResult)

  // Where a merge pass stands: the chain cursor, the next quote, the last payload tick, the highest tick used.
  datatype Cursor = Cursor(prev: u16, cur: u16, quote: nat, lastTick: u32, lastUsed: u32)

  class BookRefMut {
    var header: Market
    const bidBitmap: Bitmap
    const askBitmap: Bitmap
    const levels: array<Level>
    const seats: array<Seat>
    const pool: array<OrderNode>

    ghost var book: Book  // the book this account represents

    ghost function Arrays(): set<object> {
      {levels as object, seats as object, pool as object, bidBitmap.summary as object,
       bidBitmap.leaves as object, askBitmap.summary as object, askBitmap.leaves as object}
    }

    ghost predicate Apart(a: object) {
      && a != bidBitmap.summary as object && a != bidBitmap.leaves as object
      && a != askBitmap.summary as object && a != askBitmap.leaves as object
    }

    ghost predicate Shape()
      reads Arrays()
    {
      && levels.Length == WINDOW_TICKS && seats.Length == MAX_SEATS
      && bidBitmap.Valid() && askBitmap.Valid()
      && bidBitmap.summary != askBitmap.summary && bidBitmap.summary != askBitmap.leaves
      && bidBitmap.leaves != askBitmap.summary && bidBitmap.leaves != askBitmap.leaves
      && Apart(levels) && Apart(seats) && Apart(pool)
      && levels as object != seats && levels as object != pool && seats as object != pool
    }

    ghost function Snapshot(): Raw
      requires Shape()
      reads this, Arrays()
    {
      Raw(header, bidBitmap.Bits(), askBitmap.Bits(), levels[..], seats[..], pool[..])
    }

    ghost predicate Valid()
      reads this, Arrays()
    {
      Shape() && book.Inv() && Rep(Snapshot(), book)
    }

    ghost function SideArrays(side: Side): set<array<bv64>> {
      if side.Bid? then {bidBitmap.summary, bidBitmap.leaves} else {askBitmap.summary, askBitmap.leaves}
    }

    /** A market account as `create_market` leaves it: all zero but the header, and the free list threaded. */
    constructor (h: Market)
      requires h.capacity <= MAX_POOL_CAPACITY && h.freeHead == NIL && h.freeCount == 0 && h.orderSeq == 0
        && h.fees == 0
      requires 0 < h.capacity && Markets.EmptyBook(HeaderParams(h), h.anchor).Inv()
      ensures Valid() && book == Markets.EmptyBook(HeaderParams(h), h.anchor)
      ensures fresh(Arrays())
    {
      hide Markets.EmptyBook, Book.Inv, Rep, FreeLinks, Range, Bitmap.Valid, Bitmap.Bits;
      header := h;
      bidBitmap := new Bitmap();
      askBitmap := new Bitmap();
      levels := new Level[WINDOW_TICKS](_ => EMPTY_LEVEL);
      seats := new Seat[MAX_SEATS](_ => Seat(0, 0, 0, 0, NIL, 0));
      pool := new OrderNode[h.capacity](_ => OrderNode(NIL, NIL, NIL, NIL, 0, Bid, 0, 0, 0, 0));
      book := Markets.EmptyBook(HeaderParams(h), h.anchor);
      new;
      NoFreeNodes(pool[..]);
      ThreadFreeList(1, h.capacity, []);
      EmptyRep(Snapshot(), h);
    }

    /** Thread nodes `[from, to)` onto the free list, lowest first. */
    method ThreadFreeList(from: u32, to: u32, ghost free: seq<nat>)
      requires 0 < from <= to <= pool.Length <= 0x1_0000 && FreeRep(pool[..], header.freeHead, header.freeCount, free)
      requires header.freeCount + (to - from) <= U32_MAX && forall k | k in free :: !(from <= k < to)
      modifies this`header, pool
      ensures FreeRep(pool[..], header.freeHead, header.freeCount, Range(from, to) + free)
      ensures header == old(header).(freeHead := header.freeHead, freeCount := header.freeCount)
    {
      hide FreeLinks, Range, At;
      var head: u16 := header.freeHead;
      var i := to;
      EmptyRange(to, free);
      while i > from
        invariant from <= i <= to && header == old(header)
        invariant FreeLinks(pool[..], Range(i, to) + free) && head == At(Range(i, to) + free, 0)
      {
        i := i - 1;
        ghost var was := pool[..];
        pool[i] := pool[i].(next := head);
        pool[i] := pool[i].(id := FREED_SEQ);
        pool[i] := pool[i].(lots := 0);
        Threaded(was, pool[..], free, i, to);
        head := i;
      }
      RangeLength(from, to, free);
      header := header.(freeHead := head);
      header := header.(freeCount := header.freeCount + (to - from));
    }

    // ---- level FIFO ----

    /** Unlink a live node from its level FIFO; the seat chain and funds are untouched. */
    method FifoUnlink(side: Side, idx: u16)
      requires Shape() && Lists(Snapshot(), book) && book.Structure() && book.Uncrossed()
      requires idx in book.orders && book.orders[idx].side == side
      modifies levels, pool, SideArrays(side)
      ensures Shape() && book.OrderOk(idx) && QueueOff(Snapshot(), book, idx)
    {
      hide Lists, QueueOff, Book.Structure, Book.Uncrossed, Book.OrderOk, Bitmap.Valid, Bitmap.Bits;
      UnqueueLists(Snapshot(), book, idx);
      var node := pool[idx];
      var lvl := Slot(node.tick);
      if node.prev != NIL {
        pool[node.prev] := pool[node.prev].(next := node.next);
      } else {
        levels[lvl] := levels[lvl].(head := node.next);
      }
      if node.next != NIL {
        pool[node.next] := pool[node.next].(prev := node.prev);
      } else {
        levels[lvl] := levels[lvl].(tail := node.prev);
      }
      assert pool[..] == QueueBridged(old(pool[..]), idx);
      if levels[lvl].head == NIL {
        levels[lvl] := EMPTY_LEVEL;
        assert levels[..] == old(levels[..])[lvl := LevelBridged(old(levels[lvl]), node)];
        if side.Bid? { bidBitmap.Clear(node.tick); } else { askBitmap.Clear(node.tick); }
      } else {
        levels[lvl] := levels[lvl].(total := WrappingSub(levels[lvl].total, node.lots));
        assert levels[..] == old(levels[..])[lvl := LevelBridged(old(levels[lvl]), node)];
      }
    }

    // ---- funds ----

    /** Quote atoms for `lots` at `tick`; no product overflows. */
    method Notional(tick: u32, lots: u32) returns (n: u64)
      requires book.p.Ok() && HeaderRep(header, book) && tick <= book.p.tickLimit && lots <= book.p.maxLots
      ensures n == book.p.Notional(tick, lots)
    {
      NotionalFits(book.p, tick, lots);
      TimesIs(tick, header.tickSize);
      var price: u64 := tick * header.tickSize;
      TimesIs(price, lots);
      n := price * lots;
    }

    /** Base atoms for `lots`; the product does not overflow. */
    method BaseAtoms(lots: u32) returns (n: u64)
      requires book.p.Ok() && HeaderRep(header, book) && lots <= book.p.maxLots
      ensures n == book.p.BaseAtoms(lots)
    {
      BaseAtomsFit(book.p, lots);
      TimesIs(header.lotSize, lots);
      n := lots * header.lotSize;
    }

    /** Locked atoms of an order: a bid locks quote, an ask locks base. */
    method LockedAtoms(side: Side, tick: u32, lots: u32) returns (base: bool, atoms: u64)
      requires book.p.Ok() && HeaderRep(header, book) && tick <= book.p.tickLimit && lots <= book.p.maxLots
      ensures base == side.Ask? && atoms == book.p.Atoms(side, tick, lots)
    {
      if side.Bid? {
        atoms := Notional(tick, lots);
        base := false;
      } else {
        atoms := BaseAtoms(lots);
        base := true;
      }
    }

    /** Move `atoms` from locked back to free; a lock smaller than the refund is refused. */
    method Unlock(m: u16, base: bool, atoms: u64) returns (r: Result<()>)
      requires m < seats.Length
      modifies seats
      ensures r.Ok? <==> atoms <= if base then old(seats[m].baseLocked) else old(seats[m].quoteLocked)
      ensures r.Err? ==> r.error == InvalidState && seats[..] == old(seats[..])
      ensures r.Ok? ==> seats[..] == old(seats[..])[m := Unlocked(old(seats[m]), base, atoms)]
    {
      var s := seats[m];
      if base {
        if s.baseLocked < atoms { return Err(InvalidState); }
        seats[m] := s.(baseLocked := s.baseLocked - atoms, baseFree := WrappingAdd(s.baseFree, atoms));
      } else {
        if s.quoteLocked < atoms { return Err(InvalidState); }
        seats[m] := s.(quoteLocked := s.quoteLocked - atoms, quoteFree := WrappingAdd(s.quoteFree, atoms));
      }
      return Ok(());
    }

    /** Move `atoms` from free to locked. */
    method Lock(m: u16, base: bool, atoms: u64) returns (r: Result<()>)
      requires m < seats.Length
      modifies seats
      ensures r.Ok? <==> atoms <= if base then old(seats[m].baseFree) else old(seats[m].quoteFree)
      ensures r.Err? ==> r.error == InsufficientBalance && seats[..] == old(seats[..])
      ensures r.Ok? ==> seats[..] == old(seats[..])[m := Locked(old(seats[m]), base, atoms)]
    {
      var s := seats[m];
      if base {
        if s.baseFree < atoms { return Err(InsufficientBalance); }
        seats[m] := s.(baseFree := s.baseFree - atoms, baseLocked := WrappingAdd(s.baseLocked, atoms));
      } else {
        if s.quoteFree < atoms { return Err(InsufficientBalance); }
        seats[m] := s.(quoteFree := s.quoteFree - atoms, quoteLocked := WrappingAdd(s.quoteLocked, atoms));
      }
      return Ok(());
    }

    // ---- node pool and seat chain ----

    method FreeNode(idx: u16)
      requires idx < pool.Length && header.freeCount < U32_MAX
      modifies this`header, pool
      ensures header == old(header).(freeHead := idx, freeCount := old(header.freeCount) + 1)
      ensures pool[..] == Freed(old(pool[..]), idx, old(header.freeHead))
    {
      var head := header.freeHead;
      pool[idx] := pool[idx].(next := head, id := FREED_SEQ, lots := 0);
      header := header.(freeHead := idx, freeCount := header.freeCount + 1);
    }

    /** Unlink a live node from its seat chain, by its own links, and free it. */
    method ChainUnlink(idx: u16)
      requires Shape() && book.Structure() && idx in book.orders && book.OrderOk(idx)
      requires QueueOff(Snapshot(), book, idx) && header.freeCount < U32_MAX
      modifies this`header, pool, seats
      ensures Shape() && Lists(Snapshot(), Unlist(book, idx))
      ensures header == old(header).(freeHead := header.freeHead, freeCount := header.freeCount)
      ensures forall bal :: FundsRep(old(seats[..]), bal) ==> FundsRep(seats[..], bal)
    {
      hide Lists, QueueOff, Book.Structure, Unlist, Bitmap.Valid, Bitmap.Bits;
      UnchainLists(Snapshot(), book, idx);
      var node := pool[idx];
      if node.makerPrev == NIL {
        seats[node.maker] := seats[node.maker].(head := node.makerNext);
      } else {
        pool[node.makerPrev] := pool[node.makerPrev].(makerNext := node.makerNext);
      }
      if node.makerNext != NIL {
        pool[node.makerNext] := pool[node.makerNext].(makerPrev := node.makerPrev);
      }
      seats[node.maker] := seats[node.maker].(count := (seats[node.maker].count - 1) % 0x1_0000);
      assert pool[..] == ChainBridged(old(pool[..]), idx);
      assert seats[..] == old(seats[..])[node.maker := SeatBridged(old(seats[node.maker]), node)];
      FreeNode(idx);
      ghost var s := SeatBridged(old(seats[node.maker]), node);
      forall bal | FundsRep(old(seats[..]), bal)
        ensures FundsRep(seats[..], bal)
      {
        BridgedFunds(old(seats[..]), bal, node.maker, s);
      }
    }

    // ---- order lifecycle ----

    /** End a live order and refund its lock. A sound book never fails here. */
    method KillOrder(idx: u16) returns (r: Result<()>)
      requires Valid() && idx in book.orders
      modifies this, levels, seats, pool, SideArrays(Bid), SideArrays(Ask)
      ensures Valid() && book == Kill(old(book), idx) && r.Ok?
      ensures header == old(header).(freeHead := header.freeHead, freeCount := header.freeCount)
    {
      hide Book.Inv, Kill, Killed, QueueOff, Lists, HeaderRep, FundsRep, Bitmap.Valid, Bitmap.Bits, Params.Atoms,
        Book.Structure, Book.Uncrossed, Params.Ok, Unlist, Unlocked;
      BeforeKill(Snapshot(), book, idx);
      var node := pool[idx];
      FifoUnlink(node.side, idx);
      var base, atoms := LockedAtoms(node.side, node.tick, node.lots);
      ghost var queued := Snapshot();
      LocksAre(seats[..], book.balances, node.maker);
      r := Unlock(node.maker, base, atoms);
      if r.Err? { return; }
      ghost var s := Unlocked(queued.seats[node.maker], base, atoms);
      UnlockedHead(queued.seats[node.maker], base, atoms);
      SeatFundsOnly(queued, Snapshot(), book, idx, node.maker, s);
      UnlockFundsRep(queued.seats, book.balances, node.maker, base, atoms);
      ChainUnlink(idx);
      HeaderFree(old(header), header, book);
      AfterKill(Snapshot(), book, idx);
      book := Kill(book, idx);
      return Ok(());
    }

    // ---- posting ----

    method AllocNode() returns (r: Result<u16>)
      requires header.freeHead != NIL ==> header.freeHead < pool.Length && 0 < header.freeCount
      modifies this`header
      ensures old(header.freeHead) == NIL ==> r == Err(PoolFull) && header == old(header)
      ensures old(header.freeHead) != NIL ==>
        && r == Ok(old(header.freeHead))
        && header == old(header).(freeHead := pool[r.value].next, freeCount := old(header.freeCount) - 1)
    {
      var idx := header.freeHead;
      if idx == NIL { return Err(PoolFull); }
      header := header.(freeHead := pool[idx].next);
      header := header.(freeCount := header.freeCount - 1);
      return Ok(idx);
    }

    /** The next order id; the all-ones value is skipped. */
    method NextOrderId() returns (id: u64)
      modifies this`header
      ensures id == IdFor(old(header.orderSeq)) && id != FREED_SEQ
      ensures header == old(header).(orderSeq := WrappingAdd(id, 1))
    {
      var raw := header.orderSeq;
      id := if raw == FREED_SEQ then 0 else raw;
      header := header.(orderSeq := WrappingAdd(id, 1));
    }

    /** Append a live node to its level FIFO; the bit is set if the level was empty. */
    method FifoAppend(side: Side, tick: u32, idx: u16, lots: u32)
      requires Shape() && idx < pool.Length && levels[Slot(tick)].tail < pool.Length && levels[Slot(tick)].tail != idx
      requires Slot(tick) in (if side.Bid? then bidBitmap else askBitmap).Bits() <==> levels[Slot(tick)] != EMPTY_LEVEL
      requires levels[Slot(tick)] != EMPTY_LEVEL ==> levels[Slot(tick)].tail != NIL
      modifies levels, pool, SideArrays(side)
      ensures Shape()
      ensures var slot := Slot(tick);
        var l := old(levels[slot]);
        && pool[..] == QueueAppended(old(pool[..]), l.tail, idx)
        && levels[..] == old(levels[..])[slot := LevelAppended(l, idx, lots, l != EMPTY_LEVEL)]
        && bidBitmap.Bits() == (if side.Bid? then old(bidBitmap.Bits()) + {slot} else old(bidBitmap.Bits()))
        && askBitmap.Bits() == (if side.Ask? then old(askBitmap.Bits()) + {slot} else old(askBitmap.Bits()))
    {
      hide Bitmap.Valid, Bitmap.Bits, Slot;
      var lvl := Slot(tick);
      var occupied;
      if side.Bid? { occupied := bidBitmap.Get(tick); } else { occupied := askBitmap.Get(tick); }
      if occupied {
        var tail := levels[lvl].tail;
        pool[tail] := pool[tail].(next := idx);
        pool[idx] := pool[idx].(prev := tail);
        pool[idx] := pool[idx].(next := NIL);
        levels[lvl] := levels[lvl].(tail := idx);
        levels[lvl] := levels[lvl].(total := WrappingAdd(levels[lvl].total, lots));
      } else {
        levels[lvl] := levels[lvl].(head := idx);
        levels[lvl] := levels[lvl].(tail := idx);
        levels[lvl] := levels[lvl].(total := WrappingAdd(levels[lvl].total, lots));
        pool[idx] := pool[idx].(prev := NIL);
        pool[idx] := pool[idx].(next := NIL);
        if side.Bid? { bidBitmap.Set(tick); } else { askBitmap.Set(tick); }
      }
    }

    /** Allocate a node, fill it and queue it; the seat chain and funds are the caller's. */
    method BookInsert(side: Side, tick: u32, lots: u32, maker: u16, expiry: u32) returns (r: Result<u16>)
      requires Shape() && Lists(Snapshot(), book) && HeaderRep(header, book) && book.Structure() && book.Uncrossed()
      requires book.free == [] <==> header.freeHead == NIL
      requires book.free != [] ==> MayJoin(book, side, tick, maker, 0)
      modifies this`header, levels, pool, SideArrays(side)
      ensures lots == 0 || lots > book.p.maxLots ==> r == Err(InvalidLots)
      ensures 0 < lots <= book.p.maxLots && book.free == [] ==> r == Err(PoolFull)
      ensures 0 < lots <= book.p.maxLots && book.free != [] ==>
        && Shape() && r == Ok(book.free[0] as u16)
        && QueueOn(Snapshot(), book, Enlist(book, side, tick, lots, maker, expiry, 0))
        && header == old(header).(freeHead := header.freeHead, freeCount := header.freeCount,
          orderSeq := header.orderSeq)
        && SeqRep(header.orderSeq, book.issued + 1)
    {
      hide Lists, QueueOn, Book.Structure, Book.Uncrossed, Enlist, Bitmap.Valid, Bitmap.Bits, Slot;
      if lots == 0 || lots > header.maxLots { return Err(InvalidLots); }
      FreeHeadFits(Snapshot(), book);
      HeaderSeq(header, book);
      if book.free != [] {
        EnqueueLists(Snapshot(), book, side, tick, lots, maker, expiry, IdFor(header.orderSeq));
        LevelReady(Snapshot(), book, side, tick);
      }
      r := AllocNode();
      if r.Err? { return; }
      var idx := r.value;
      ghost var taken := header;
      var id := NextOrderId();
      pool[idx] := FreshNode(pool[idx], tick, side, maker, lots, expiry, id);
      FifoAppend(side, tick, idx, lots);
      QueueOnSame(Snapshot().(header := taken), Snapshot(), book, Enlist(book, side, tick, lots, maker, expiry, 0));
    }

    // ---- seat chain ----

    /** Splice `idx` between `prev` and `next` on the seat's chain and count it. */
    method ChainSplice(seat: u16, prev: u16, next: u16, idx: u16)
      requires seat < seats.Length && prev < pool.Length && next < pool.Length && idx < pool.Length <= 0x1_0000
      requires seats as object != pool && 0 < idx
      modifies pool, seats
      ensures pool[..] == ChainSpliced(old(pool[..]), prev, next, idx)
      ensures seats[..] == old(seats[..])[seat := SeatSpliced(old(seats[seat]), prev, idx)]
    {
      pool[idx] := pool[idx].(makerPrev := prev);
      pool[idx] := pool[idx].(makerNext := next);
      if prev == NIL {
        seats[seat] := seats[seat].(head := idx);
      } else {
        pool[prev] := pool[prev].(makerNext := idx);
      }
      if next != NIL {
        pool[next] := pool[next].(makerPrev := idx);
      }
      seats[seat] := seats[seat].(count := (seats[seat].count + 1) % 0x1_0000);
    }

    /** Splice a queued order into the maker's chain at place `i`. */
    method ChainSpliceAt(seat: u16, prev: u16, next: u16, idx: u16,
                         ghost side: Side, ghost tick: nat, ghost lots: nat, ghost expiry: nat, ghost i: nat)
      requires Shape() && book.Structure() && book.free != [] && idx == book.free[0] && seat < |book.chains|
      requires i <= |book.chains[seat]| && prev == At(book.chains[seat], i - 1) && next == At(book.chains[seat], i)
      requires QueueOn(Snapshot(), book, Enlist(book, side, tick, lots, seat, expiry, 0))
      requires Enlist(book, side, tick, lots, seat, expiry, i).Structure()
      modifies pool, seats
      ensures Shape() && Lists(Snapshot(), Enlist(book, side, tick, lots, seat, expiry, i))
      ensures forall bal :: FundsRep(old(seats[..]), bal) ==> FundsRep(seats[..], bal)
    {
      hide Lists, QueueOn, Book.Structure, Enlist, Bitmap.Valid, Bitmap.Bits, ChainSpliced;
      EnchainLists(Snapshot(), book, side, tick, lots, seat, expiry, i);
      FreePositive(book);
      ChainsAndFree(book);
      ChainSplice(seat, prev, next, idx);
      ghost var s := SeatSpliced(old(seats[seat]), prev, idx);
      forall bal | FundsRep(old(seats[..]), bal)
        ensures FundsRep(seats[..], bal)
      {
        BridgedFunds(old(seats[..]), bal, seat, s);
      }
    }

    /** Walk the seat's chain to the sorted place of a queued order and splice it in there. */
    method ChainInsertSorted(seat: u16, idx: u16, ghost side: Side, ghost tick: nat, ghost lots: nat, ghost expiry: nat)
      requires Shape() && book.Inv() && seat < MAX_SEATS && book.free != [] && idx == book.free[0]
        && idx !in book.orders
      requires QueueOn(Snapshot(), book, Enlist(book, side, tick, lots, seat, expiry, 0))
      requires Enlist(book, side, tick, lots, seat, expiry, Quoting.Place(book, seat, side, tick)).Structure()
      modifies pool, seats
      ensures Shape()
      ensures Lists(Snapshot(), Enlist(book, side, tick, lots, seat, expiry, Quoting.Place(book, seat, side, tick)))
      ensures forall bal :: FundsRep(old(seats[..]), bal) ==> FundsRep(seats[..], bal)
    {
      hide Book.Inv, Lists, QueueOn, Book.Structure, Enlist, Bitmap.Valid, Bitmap.Bits, ChainsRep, NodesRep, At,
        Quoting.Place;
      QueueOnParts(Snapshot(), book, side, tick, lots, seat, expiry);
      ghost var c, orders := book.chains[seat], Enlist(book, side, tick, lots, seat, expiry, 0).orders;
      ChainStart(pool[..], seats[..], book, seat);
      var key := NodeKey(pool[idx]);
      var prev: u16, cur: u16 := NIL, seats[seat].head;
      ghost var i := 0;
      ghost var raw := Snapshot();
      AtStart(c);
      WalkNode(raw.pool, raw.seats, book, orders, seat, 0);
      while cur != NIL && NodeKey(pool[cur]) < key
        invariant i <= |c| && prev == At(c, i - 1) && cur == At(c, i) && (cur == NIL <==> i == |c|)
        invariant cur != NIL ==> cur == c[i] && cur < pool.Length
        invariant forall j | 0 <= j < i :: c[j] in book.orders && book.orders[c[j]].SortKey() < key
        invariant Shape() && Snapshot() == raw && seats[..] == old(seats[..])
        decreases |c| - i
      {
        WalkNode(raw.pool, raw.seats, book, orders, seat, i);
        WalkNode(raw.pool, raw.seats, book, orders, seat, i + 1);
        prev := cur;
        cur := pool[cur].makerNext;
        i := i + 1;
        AtIs(c, i);
      }
      WalkNode(raw.pool, raw.seats, book, orders, seat, i);
      PlaceUnique(book, seat, side, tick, i);
      BookStructure(book);
      ChainSpliceAt(seat, prev, cur, idx, side, tick, lots, expiry, i);
    }

    /** Locate the maker's live quote at `(side, tick)`; the walk stops once it passes the key. */
    method FindQuote(maker: u16, side: Side, tick: u32) returns (r: Option<u16>)
      requires Valid() && maker < MAX_SEATS
      ensures r == Quoting.FindQuote(book, maker, side, tick)
    {
      hide Book.Inv, Rep, Bitmap.Valid, Bitmap.Bits, ChainsRep, NodesRep, At, Quoting.Place, Quoting.FindQuote,
        KeysBelow;
      Quoting.ChainMembers(book, maker);
      ghost var c, raw := book.chains[maker], Snapshot();
      RepParts(raw, book);
      ChainStart(pool[..], seats[..], book, maker);
      var key := Key(side, tick);
      var cur: u16 := seats[maker].head;
      ghost var i := 0;
      AtStart(c);
      BelowStart(book, maker, key);
      while cur != NIL
        invariant i <= |c| && cur == At(c, i)
        invariant KeysBelow(book, maker, i, key)
        decreases |c| - i
      {
        WalkNode(raw.pool, raw.seats, book, book.orders, maker, i);
        AtIs(c, i);
        var k := NodeKey(pool[cur]);
        if k >= key {
          PlaceUnique(book, maker, side, tick, i);
        }
        if k == key { return Some(cur); }
        if k > key { return None; }
        BelowStep(book, maker, i, key);
        cur := pool[cur].makerNext;
        i := i + 1;
      }
      WalkNode(raw.pool, raw.seats, book, book.orders, maker, i);
      PlaceUnique(book, maker, side, tick, i);
      return None;
    }

    // ---- crossing checks ----

    method BestBid() returns (r: Option<nat>)
      requires Valid()
      ensures r == Matching.Best(book, Bid)
    {
      hide Book.Inv, Lists, Bitmap.Bits, Book.Structure;
      HeaderAnchor(Snapshot(), book);
      r := bidBitmap.PrevAtOrBefore(header.anchor, header.anchor + WINDOW_MASK);
      BitsAreTicks(Snapshot(), book, Bid);
      GreatestUnique(book.bids.Keys, book.anchor, book.anchor + WINDOW_MASK, r, Matching.Best(book, Bid));
    }

    method BestAsk() returns (r: Option<nat>)
      requires Valid()
      ensures r == Matching.Best(book, Ask)
    {
      hide Book.Inv, Lists, Bitmap.Bits, Book.Structure;
      HeaderAnchor(Snapshot(), book);
      r := askBitmap.NextAtOrAfter(header.anchor, header.anchor);
      BitsAreTicks(Snapshot(), book, Ask);
      LeastUnique(book.asks.Keys, book.anchor, book.anchor + WINDOW_TICKS, r, Matching.Best(book, Ask));
    }

    method OpposingBest(side: Side) returns (r: Option<nat>)
      requires Valid()
      ensures r == Matching.Best(book, side.Opposite())
    {
      if side.Bid? { r := BestAsk(); } else { r := BestBid(); }
    }

    /** Window and crossing check against an opposing best; no tick arithmetic overflows. */
    method CheckOrSlideVs(side: Side, tick: u32, slide: bool, opposing: Option<nat>) returns (r: Result<u32>)
      requires HeaderRep(header, book) && book.p.Ok() && book.WindowOk()
      requires opposing.Some? ==> book.InWindow(opposing.value)
      ensures r == Quoting.CheckOrSlide(book.anchor, book.p.tickLimit, side, tick, slide, opposing)
    {
      var anchor := header.anchor;
      var top: u32 := anchor + WINDOW_MASK;
      if tick < anchor || tick > top || tick > header.tickLimit { return Err(TickOutOfWindow); }
      if tick == 0 { return Err(TickOutOfWindow); }
      var adjusted: u32 := tick;
      if side.Bid? {
        if opposing.Some? && tick >= opposing.value {
          if !slide { return Err(WouldCross); }
          if opposing.value == anchor { return Err(TickOutOfWindow); }
          adjusted := opposing.value - 1;
        }
      } else {
        if opposing.Some? && tick <= opposing.value {
          if !slide { return Err(WouldCross); }
          if opposing.value == top { return Err(TickOutOfWindow); }
          adjusted := opposing.value + 1;
        }
      }
      return Ok(adjusted);
    }

    // ---- amending and adding quotes ----

    /** Shrink a live order in place, or leave its size, and set its expiry. */
    method AmendInPlace(cur: u16, lots: u32, expiry: u32) returns (r: Result<u16>)
      requires Valid() && cur in book.orders && 0 < lots <= book.orders[cur].lots
      modifies this`book, levels, seats, pool
      ensures Valid() && book == Ops.Amend(old(book), cur, lots, expiry) && r.Ok?
      ensures header == old(header)
    {
      hide Book.Inv, Lists, HeaderRep, FundsRep, Bitmap.Valid, Bitmap.Bits, Params.Atoms, Ops.Amend, Book.Structure,
        Book.Uncrossed, Params.Ok, Slot, Unlocked, WrappingSub;
      BeforeAmend(Snapshot(), book, cur, lots);
      ghost var refund := book.p.Atoms(book.orders[cur].side, book.orders[cur].tick, book.orders[cur].lots - lots);
      AfterAmend(Snapshot(), book, cur, lots, expiry, book.orders[cur].side.Ask?, refund);
      var node := pool[cur];
      var diff := node.lots - lots;
      if diff > 0 {
        var base, atoms := LockedAtoms(node.side, node.tick, diff);
        var unlocked := Unlock(node.maker, base, atoms);
        if unlocked.Err? { return Err(InvalidState); }
        pool[cur] := pool[cur].(lots := lots);
        var lvl := Slot(node.tick);
        levels[lvl] := levels[lvl].(total := WrappingSub(levels[lvl].total, diff));
      } else {
        ResizedSame(Snapshot(), book, cur, expiry, node.side.Ask?);
      }
      pool[cur] := pool[cur].(expiry := expiry);
      assert Snapshot() == old(Resized(Snapshot(), cur, lots, expiry, book.orders[cur].side.Ask?, refund));
      book := Ops.Amend(book, cur, lots, expiry);
      return Ok(cur);
    }

    /** Lock the funds of a new order; the chains are untouched. */
    method LockFor(side: Side, tick: u32, lots: u32, maker: u16) returns (r: Result<()>)
      requires Valid() && book.Fits() && maker < MAX_SEATS && tick <= book.p.tickLimit && lots <= book.p.maxLots
      modifies seats
      ensures maker < |book.balances|
      ensures !Ops.CanPay(book, side, tick, lots, maker) ==> r == Err(InsufficientBalance)
      ensures Ops.CanPay(book, side, tick, lots, maker) ==>
        && r.Ok? && Shape() && Lists(Snapshot(), book)
        && FundsRep(seats[..], book.balances[maker := Ops.Lock(book.p, book.balances[maker], side, tick, lots)])
    {
      hide Book.Inv, Lists, FundsRep, HeaderRep, Params.Ok, Params.Atoms, Bitmap.Valid, Bitmap.Bits, Locked, Book.Fits,
        Ops.CanPay, Ops.Lock;
      BookStructure(book);
      var base, atoms := LockedAtoms(side, tick, lots);
      LockExact(Snapshot(), book, side, tick, lots, maker, base, atoms);
      r := Lock(maker, base, atoms);
    }

    /** A new quote: seat cap, lock, insert, sorted splice. */
    method InsertSorted(side: Side, tick: u32, lots: u32, maker: u16, expiry: u32) returns (r: Result<u16>)
      requires Valid() && book.Fits() && maker < MAX_SEATS
      requires Ops.CanPost(book, side, tick, lots, maker, expiry, Quoting.Place(book, maker, side, tick))
      modifies this, levels, seats, pool, SideArrays(side)
      ensures match Quoting.Insert(old(book), side, tick, lots, maker, expiry)
              case Err(e) => r == Err(e)
              case Ok(c) => r.Ok? && Valid() && book == c
    {
      hide Book.Inv, Lists, FundsRep, HeaderRep, QueueOn, Enlist, Ops.CanPost, Ops.Post, Params.Ok, Bitmap.Valid,
        Bitmap.Bits,
        Quoting.Place, Book.Structure, Book.Uncrossed, Ops.Lock, Ops.CanPay, Book.Fits, MayJoin;
      ghost var i := Quoting.Place(book, maker, side, tick);
      BeforePost(Snapshot(), book, side, tick, lots, maker, expiry, i);
      CountExact(Snapshot(), book, maker);
      if seats[maker].count >= MAX_ORDERS_PER_SEAT { return Err(TooManyOrders); }
      var locked := LockFor(side, tick, lots, maker);
      if locked.Err? { return Err(locked.error); }
      LotsPositive(book, side, tick, lots, maker, expiry, i);
      r := BookInsert(side, tick, lots, maker, expiry);
      if r.Err? { return; }
      FreePositive(book);
      ChainInsertSorted(maker, r.value, side, tick, lots, expiry);
      AfterPost(old(header), Snapshot(), book, side, tick, lots, maker, expiry, i);
      book := Ops.Post(book, side, tick, lots, maker, expiry, i);
    }

    /** Add, amend or cancel one quote, leaving the maker's other quotes alone. */
    method UpsertOrder(side: Side, tick: u32, lots: u32, maker: u16, expiry: u32, slide: bool) returns (r: Result<u16>)
      requires Valid() && book.Fits() && maker < MAX_SEATS
      modifies this, levels, seats, pool, SideArrays(Bid), SideArrays(Ask)
      ensures match Quoting.Upsert(old(book), side, tick, lots, maker, expiry, slide)
              case Err(e) => r == Err(e)
              case Ok(c) => r.Ok? && Valid() && book == c
    {
      hide Book.Inv, Rep, Lists, HeaderRep, NodesRep, ChainsRep, Bitmap.Valid, Bitmap.Bits, Quoting.Place,
        Book.Structure, Book.Uncrossed, Book.Fits, Ops.Kill,
        Ops.Amend, Ops.CanPost, Quoting.FindQuote, Quoting.Insert, Quoting.Upsert, Matching.Best,
          Quoting.CheckOrSlide, Params.Ok;
      BookStructure(book);
      RepParts(Snapshot(), book);
      HeaderLots(header, book);
      ghost var b := book;
      if lots == 0 {
        Quoting.UpsertCancels(b, side, tick, maker, expiry, slide);
        var cancel := CheckOrSlideVs(side, tick, false, None);
        if cancel.Err? { return Err(cancel.error); }
        var found := FindQuote(maker, side, cancel.value);
        if found.None? { return Err(OrderNotFound); }
        var killed := KillOrder(found.value);
        if killed.Err? { return Err(InvalidState); }
        return Ok(found.value);
      }
      Quoting.UpsertRefuses(b, side, tick, lots, maker, expiry, slide);
      if lots > header.maxLots { return Err(InvalidLots); }
      var best := OpposingBest(side);
      BestInWindow(book, side.Opposite());
      var checked := CheckOrSlideVs(side, tick, slide, best);
      if checked.Err? { return Err(checked.error); }
      var t := checked.value;
      Quoting.UpsertRests(b, side, tick, lots, maker, expiry, slide, t);
      var cur := FindQuote(maker, side, t);
      if cur.Some? {
        NodeLots(Snapshot(), book, cur.value);
        if lots <= pool[cur.value].lots {
          r := AmendInPlace(cur.value, lots, expiry);
          return;
        }
        KillFits(book, cur.value);
        var killed := KillOrder(cur.value);
        if killed.Err? { return Err(InvalidState); }
      }
      r := InsertSorted(side, t, lots, maker, expiry);
    }

    // ---- cancel ----

    /** Cancel by pool index; the id protects against a reused slot. */
    method CancelOrder(seat: u16, idx: u16, expected: u64) returns (r: Result<()>)
      requires Valid() && !FreedHandle(Snapshot(), book, seat, idx, expected)
      modifies this, levels, seats, pool, SideArrays(Bid), SideArrays(Ask)
      ensures match Hygiene.CancelOrder(old(book), seat, idx, expected)
              case Err(e) => r == Err(e)
              case Ok(c) => r.Ok? && Valid() && book == c
    {
      hide Book.Inv, Rep, Ops.Kill, Hygiene.Removed;
      PoolIsCapacity(Snapshot(), book);
      if idx == NIL || idx >= pool.Length { return Err(OrderNotFound); }
      CancelGuard(Snapshot(), book, seat, idx, expected);
      if pool[idx].id != expected || pool[idx].maker != seat { return Err(OrderNotFound); }
      r := KillOrder(idx);
    }

    // ---- matching ----

    /** Pay the maker of a resting order for a fill; a lock smaller than the fill is refused. */
    method SettleMaker(maker: u16, side: Side, baseAtoms: u64, notional: u64) returns (r: Result<()>)
      requires maker < seats.Length
      modifies seats
      ensures r.Ok? <==> (if side.Ask? then baseAtoms <= old(seats[maker].baseLocked)
        else notional <= old(seats[maker].quoteLocked))
      ensures r.Err? ==> r.error == InvalidState && seats[..] == old(seats[..])
      ensures r.Ok? ==>
        var debit, credit := if side.Ask? then baseAtoms else notional, if side.Ask? then notional else baseAtoms;
        seats[..] == old(seats[..])[maker := SettledSeat(old(seats[maker]), side, debit, credit)]
    {
      var s := seats[maker];
      if side.Ask? {
        if s.baseLocked < baseAtoms { return Err(InvalidState); }
        seats[maker] := s.(baseLocked := s.baseLocked - baseAtoms, quoteFree := WrappingAdd(s.quoteFree, notional));
      } else {
        if s.quoteLocked < notional { return Err(InvalidState); }
        seats[maker] := s.(quoteLocked := s.quoteLocked - notional, baseFree := WrappingAdd(s.baseFree, baseAtoms));
      }
      return Ok(());
    }

    /** Fill `fill` lots of the order at `head`: settle its maker, then shrink or remove it. */
    method FillOrder(head: u16, fill: u32, baseAtoms: u64, notional: u64) returns (r: Result<()>)
      requires Valid() && head in book.orders && 0 < fill <= book.orders[head].lots
      requires baseAtoms == book.p.BaseAtoms(fill) && notional == book.p.Notional(book.orders[head].tick, fill)
      modifies this, levels, seats, pool, SideArrays(Bid), SideArrays(Ask)
      ensures Valid() && book == Ops.Fill(old(book), head, fill) && r.Ok?
      ensures header == old(header).(freeHead := header.freeHead, freeCount := header.freeCount)
    {
      hide Book.Inv, Ops.Fill, QueueOff, Lists, HeaderRep, FundsRep, Bitmap.Valid, Bitmap.Bits, Book.Structure,
        Book.Uncrossed,
        Params.Ok, Unlist, Restate, SettledSeat, Params.Notional, Params.BaseAtoms, Slot, WrappingSub, Book.OrderOk,
          Balance.Settle;
      ghost var b, raw := book, Snapshot();
      BeforeFill(raw, book, head, fill);
      var node := pool[head];
      ghost var debit := if node.side.Ask? then baseAtoms else notional;
      ghost var credit := if node.side.Ask? then notional else baseAtoms;
      AfterSettle(raw, book, head, fill, debit, credit);
      r := SettleMaker(node.maker, node.side, baseAtoms, notional);
      if r.Err? { return; }
      ghost var u := if fill == b.orders[head].lots then Unlist(b, head)
                     else Restate(b, head, b.orders[head].lots - fill, b.orders[head].expiry);
      if fill == node.lots {
        FifoUnlink(node.side, head);
        ChainUnlink(head);
        HeaderFree(old(header), header, b);
      } else {
        RestateLists(Snapshot(), book, head, node.lots - fill, node.expiry);
        pool[head] := pool[head].(lots := node.lots - fill);
        var lvl := Slot(node.tick);
        levels[lvl] := levels[lvl].(total := WrappingSub(levels[lvl].total, fill));
        FillDifference(node.lots, fill);
      }
      AfterFill(Snapshot(), b, head, fill, u);
      book := Ops.Fill(b, head, fill);
      return Ok(());
    }

    /** Lots to match against an order under the quote budget; every product fits 64 bits. */
    method FillUnderBudget(a: TakeArgs, o: OrderNode, price: u64, remaining: u32, res: TakeResult) returns (fill: u32)
      requires book.p.Ok() && HeaderRep(header, book) && Underway(book.p, a, remaining, res) && a.maxQuote <= U64_MAX
      requires 0 < o.tick <= book.p.tickLimit && price == Times(o.tick, book.p.tickSize)
      ensures fill == FillSize(book.p, a, Order(o.side, o.tick, o.maker, o.lots, o.expiry, 0), remaining, res)
    {
      hide Accumulated, Params.Ok, Affordable, Times;
      HeaderLots(header, book);
      TickSizePositive(book.p);
      fill := Min(o.lots, remaining);
      if a.maxQuote != U64_MAX {
        BudgetLeft(book.p, a, remaining, res);
        PricePositive(book.p, o.tick);
        var rate: u64 := FEE_DENOMINATOR + header.feeBps;
        var budget: u64 := a.maxQuote - res.quote - res.fee;
        var capped: u64 := Min(budget, U64_MAX / rate);
        CappedFits(budget, rate);
        var scaled: u64 := capped * FEE_DENOMINATOR;
        AffordableIs(book.p, price, budget);
        var affordable: nat := scaled / rate / price;
        if affordable == 0 { return 0; }
        fill := Min(fill, affordable);
      }
    }

    /** Drop an expired or own order from the front: its maker is refunded and matching goes on. */
    method DropHead(a: TakeArgs, head: u16, remaining: u32, res: TakeResult) returns (r: Result<Step>)
      requires Valid() && Front(book, a) == Some(head) && 0 < remaining && Underway(book.p, a, remaining, res)
      requires book.orders[head].Expired(a.slot) || (book.orders[head].maker == a.seat && !a.abort)
      modifies this, levels, seats, pool, SideArrays(Bid), SideArrays(Ask)
      ensures Valid() && r == Ok(Went(remaining, res))
      ensures RoundDone(old(book), book, a, remaining, res, remaining, res)
    {
      hide Book.Inv, Ops.Kill, Rep, Front, Match, Underway, Book.Structure, Bitmap.Valid, RoundDone;
      KilledRound(book, a, remaining, res, head);
      var killed := KillOrder(head);
      return Ok(Went(remaining, res));
    }

    /** Notional, fee and base atoms of a fill; no product overflows. */
    method FillTerms(ghost a: TakeArgs, ghost tick: nat, price: u64, fill: u32, ghost remaining: nat,
        ghost res: TakeResult)
      returns (notional: u64, fee: u64, baseAtoms: u64)
      requires book.p.Ok() && HeaderRep(header, book) && Underway(book.p, a, remaining, res) && fill <= remaining
      requires tick <= book.p.tickLimit && price == Times(tick, book.p.tickSize)
      ensures notional == book.p.Notional(tick, fill) && fee == FeeOn(book.p, notional)
        && baseAtoms == book.p.BaseAtoms(fill)
      ensures res.quote + notional <= U64_MAX && res.fee + fee <= U64_MAX
    {
      hide Params.Ok, Underway, FeeOn, Times, Params.BaseAtoms;
      HeaderLots(header, book);
      UnderwayFits(book.p, a, remaining, res, tick, fill);
      TimesIs(price, fill);
      notional := price * fill;
      var product: u64 := notional * header.feeBps;
      fee := product / FEE_DENOMINATOR;
      baseAtoms := BaseAtoms(fill);
    }

    /** Match `fill` lots against the front order; no product or total overflows. */
    method MatchFill(a: TakeArgs, head: u16, price: u64, fill: u32, remaining: u32, res: TakeResult)
      returns (r: Result<Step>)
      requires Valid() && Front(book, a) == Some(head) && 0 < remaining && Underway(book.p, a, remaining, res)
      requires !book.orders[head].Expired(a.slot) && book.orders[head].maker != a.seat
      requires 0 < book.orders[head].tick && 0 < book.p.tickSize
      requires fill == FillSize(book.p, a, book.orders[head], remaining, res) && 0 < fill
      requires price == Times(book.orders[head].tick, book.p.tickSize)
      modifies this, levels, seats, pool, SideArrays(Bid), SideArrays(Ask)
      ensures Valid() && r.Ok? && r.value.Went?
      ensures RoundDone(old(book), book, a, remaining, res, r.value.remaining, r.value.res)
    {
      hide Book.Inv, Ops.Fill, Rep, Front, Match, Underway, Params.Ok, Book.Structure, FillSize, Bitmap.Valid, FeeOn,
        Params.Notional, Params.BaseAtoms, Times, RoundDone, HeaderRep, Lists;
      FrontFits(book, head);
      RepHeader(Snapshot(), book);
      FilledRound(book, a, remaining, res, head, fill);
      var notional, fee, baseAtoms := FillTerms(a, book.orders[head].tick, price, fill, remaining, res);
      var filled := FillOrder(head, fill, baseAtoms, notional);
      return Ok(Went(remaining - fill, res.Plus(fill, notional, fee)));
    }

    /** Handle the front order of the best level: drop it if expired or the taker's own, else match it. */
    method MatchHead(a: TakeArgs, head: u16, price: u64, remaining: u32, res: TakeResult) returns (r: Result<Step>)
      requires Valid() && Front(book, a) == Some(head) && 0 < remaining && Underway(book.p, a, remaining, res)
      requires a.maxQuote <= U64_MAX && price == Times(book.orders[head].tick, book.p.tickSize)
      modifies this, levels, seats, pool, SideArrays(Bid), SideArrays(Ask)
      ensures r.Err? ==> Match(old(book), a, remaining, res) == Err(r.error)
      ensures r.Ok? ==> Valid()
      ensures r == Ok(Over) ==> book == old(book) && Match(book, a, remaining, res) == Ok((book, res))
      ensures r.Ok? && r.value.Went? ==> RoundDone(old(book), book, a, remaining, res, r.value.remaining, r.value.res)
    {
      hide Book.Inv, Rep, Front, Match, Underway, Params.Ok, Book.Structure, FillSize, Bitmap.Valid, Times, RoundDone,
        HeaderRep, Lists;
      FrontFits(book, head);
      NodeLots(Snapshot(), book, head);
      RepHeader(Snapshot(), book);
      var node := pool[head];
      SameFillSize(book.p, a, book.orders[head], remaining, res);
      if Lapsed(node.expiry, a.slot) {
        r := DropHead(a, head, remaining, res);
        return;
      }
      EndRound(book, a, remaining, res, head);
      if node.maker == a.seat {
        if a.abort { return Err(SelfTrade); }
        r := DropHead(a, head, remaining, res);
        return;
      }
      var fill := FillUnderBudget(a, node, price, remaining, res);
      if fill == 0 { return Ok(Over); }
      r := MatchFill(a, head, price, fill, remaining, res);
    }

    /** The next occupied acceptable level, scanning on from the last one instead of afresh. */
    method NextLevel(a: TakeArgs, last: Option<nat>) returns (r: Option<nat>)
      requires Valid() && Cleared(book, a.side, last)
      ensures r.None? ==> Front(book, a).None?
      ensures r.Some? ==>
        && r == Best(book, a.side.Opposite()) && Acceptable(a, r.value) && book.InWindow(r.value)
        && r.value in book.Levels(a.side.Opposite()) && ClearedBefore(book, a.side, r.value)
        && LevelsLeft(book.anchor, a.side, r) < LevelsLeft(book.anchor, a.side, last)
        && 0 < r.value <= book.p.tickLimit
    {
      hide Book.Inv, Lists, Bitmap.Bits, Book.Structure, Best, ClearedBefore, IsLeast, IsGreatest, Front;
      HeaderAnchor(Snapshot(), book);
      var anchor := header.anchor;
      BitsAreTicks(Snapshot(), book, a.side.Opposite());
      if a.side.Bid? {
        if last.Some? && last.value >= anchor + WINDOW_MASK {
          NoLevelLeft(book, a, last.value);
          return None;
        }
        r := askBitmap.NextAtOrAfter(anchor, if last.None? then anchor else last.value + 1);
      } else {
        if last.Some? && last.value <= anchor {
          NoLevelLeft(book, a, last.value);
          return None;
        }
        r := bidBitmap.PrevAtOrBefore(anchor, if last.None? then anchor + WINDOW_MASK else last.value - 1);
      }
      ScanOn(book, a.side, last, r);
      Filling.FoundLevel(book, a, last, r);
      if r.Some? && !Acceptable(a, r.value) { r := None; }
    }

    /** Whether a tick of the window, or of one it may move to, is occupied on one side: one bit load. */
    method IsOccupied(side: Side, tick: nat, ghost anchor: nat) returns (b: bool)
      requires Valid() && Covers(book, anchor) && anchor <= tick <= anchor + WINDOW_MASK
      ensures b <==> tick in book.Levels(side)
    {
      hide Book.Inv, Lists, Bitmap.Bits, Slot, FundsRep, HeaderRep, Covers;
      if side.Bid? { b := bidBitmap.Get(tick); } else { b := askBitmap.Get(tick); }
      SlotsMoved(Snapshot(), book, anchor, tick);
    }

    /** The order at the front of an occupied level. */
    method LevelHead(side: Side, tick: nat) returns (head: u16)
      requires Valid() && tick in book.Levels(side) && book.Levels(side)[tick] != []
      ensures head == book.Levels(side)[tick][0]
    {
      hide Book.Inv, Lists, Bitmap.Bits, Bitmap.Valid, Slot, FundsRep, HeaderRep;
      HeadIs(Snapshot(), book, side, tick);
      head := levels[Slot(tick)].head;
    }

    method PricePerLot(tick: nat) returns (price: u64)
      requires Valid() && 0 < tick <= book.p.tickLimit
      ensures price == Times(tick, book.p.tickSize) && 0 < price
    {
      hide Book.Inv, Lists, Bitmap.Valid, FundsRep, Params.Ok;
      RepHeader(Snapshot(), book);
      HeaderLots(header, book);
      BookStructure(book);
      TickSizePositive(book.p);
      PricePositive(book.p, tick);
      NotionalFits(book.p, tick, 0);
      TimesIs(tick, header.tickSize);
      price := tick * header.tickSize;
    }

    method AddFees(fee: nat)
      requires Valid() && fee <= U64_MAX
      modifies this
      ensures Valid() && book == old(book).(fees := old(book).fees + fee)
    {
      hide Book.Inv, Rep, Bitmap.Valid;
      FeesAccrue(Snapshot(), book, fee);
      header := header.(fees := WrappingAdd(header.fees, fee));
      book := book.(fees := book.fees + fee);
    }

    /** Drain one level from front to back, as long as lots and budget last. */
    method MatchLevel(a: TakeArgs, best: nat, price: u64, remaining0: u32, res0: TakeResult)
      returns (r: Result<Drained>)
      requires Valid() && book.InWindow(best) && 0 < remaining0 && Underway(book.p, a, remaining0, res0)
      requires ClearedBefore(book, a.side, best) && Acceptable(a, best) && a.maxQuote <= U64_MAX
      requires price == Times(best, book.p.tickSize)
      modifies this, levels, seats, pool, SideArrays(Bid), SideArrays(Ask)
      ensures r.Err? ==> Match(old(book), a, remaining0, res0) == Err(r.error)
      ensures r.Ok? ==>
        && Valid() && book.p == old(book).p && book.anchor == old(book).anchor && book.fees == old(book).fees
        && Match(old(book), a, remaining0, res0) == Match(book, a, r.value.remaining, r.value.res)
        && Underway(book.p, a, r.value.remaining, r.value.res)
        && (|book.orders| < |old(book).orders|
          || (|book.orders| == |old(book).orders| && r.value.remaining <= remaining0))
        && (r.value.Next? ==> Cleared(book, a.side, Some(best)))
        && (r.value.Done? ==> Match(book, a, r.value.remaining, r.value.res) == Ok((book, r.value.res)))
    {
      hide Book.Inv, Rep, Front, Match, Underway, Book.Structure, Bitmap.Valid, Times, Best, RoundDone, Cleared,
        ClearedBefore,
        Acceptable, Book.InWindow;
      var remaining: u32, res := remaining0, res0;
      var bookSide := a.side.Opposite();
      ghost var b := book;
      while true
        invariant Valid() && book.p == b.p && book.anchor == b.anchor && book.fees == b.fees && book.InWindow(best)
        invariant Match(b, a, remaining0, res0) == Match(book, a, remaining, res) && 0 < remaining
        invariant Underway(book.p, a, remaining, res) && ClearedBefore(book, a.side, best)
        invariant |book.orders| < |b.orders| || (|book.orders| == |b.orders| && remaining <= remaining0)
        decreases |book.orders|, remaining
      {
        CoversItself(book, best);
        var occupied := IsOccupied(bookSide, best, book.anchor);
        if !occupied {
          LevelDone(book, a.side, best);
          return Ok(Next(remaining, res));
        }
        StillBest(book, a, best);
        var head := LevelHead(bookSide, best);
        ghost var c := book;
        var step := MatchHead(a, head, price, remaining, res);
        if step.Err? { return Err(step.error); }
        if step.value.Over? { return Ok(Done(remaining, res)); }
        RoundTrans(b, c, book, a, remaining0, res0, remaining, res, step.value.remaining, step.value.res);
        ShrunkCleared(c, book, a.side, best);
        SameWindow(c, book, best);
        remaining, res := step.value.remaining, step.value.res;
        if remaining == 0 {
          MatchEnds(book, a, remaining, res);
          return Ok(Done(remaining, res));
        }
      }
    }

    /** Match the taker against the opposing side, best level first. */
    method Take(a: TakeArgs, maxLots: u32) returns (r: Result<TakeResult>)
      requires Valid() && a.maxQuote <= U64_MAX
      modifies this, levels, seats, pool, SideArrays(Bid), SideArrays(Ask)
      ensures match Matching.Take(old(book), a, maxLots)
              case Err(e) => r == Err(e)
              case Ok((c, res)) => r == Ok(res) && Valid() && book == c
    {
      hide Book.Inv, Rep, Front, Match, Underway, Book.Structure, Bitmap.Valid, Times, Best, Cleared, ClearedBefore,
        Acceptable, LevelsLeft, Book.InWindow;
      RepHeader(Snapshot(), book);
      HeaderLots(header, book);
      if maxLots == 0 || maxLots > header.maxLots { return Err(InvalidLots); }
      ghost var b := book;
      var remaining: u32, res := maxLots, NOTHING;
      // Levels are consumed in strict tick order, so each is found by scanning on from the last.
      var last: Option<nat> := None;
      StartUnderway(book, a, maxLots);
      NothingCleared(book, a.side);
      while remaining > 0
        invariant Valid() && book.p == b.p && book.fees == b.fees
        invariant Match(b, a, maxLots, NOTHING) == Match(book, a, remaining, res)
        invariant Underway(book.p, a, remaining, res) && Cleared(book, a.side, last)
        decreases |book.orders|, remaining, LevelsLeft(book.anchor, a.side, last)
      {
        var best := NextLevel(a, last);
        if best.None? {
          MatchEnds(book, a, remaining, res);
          break;
        }
        last := best;
        var price := PricePerLot(best.value);
        if price == 0 { return Err(TickOutOfWindow); }
        var level := MatchLevel(a, best.value, price, remaining, res);
        if level.Err? { return Err(level.error); }
        remaining, res := level.value.remaining, level.value.res;
        if level.value.Done? { break; }
      }
      if remaining == 0 { MatchEnds(book, a, remaining, res); }
      TotalsFit(book, a, remaining, res);
      AddFees(res.fee);
      return Ok(res);
    }

    // ---- mass quote ----

    /** Lock the funds of a checked quote, queue it and splice it in at the cursor. */
    method PostAtCursor(side: Side, tick: u32, lots: u32, maker: u16, expiry: u32, prev: u16, next: u16, ghost i: nat)
      returns (r: Result<u16>)
      requires Valid() && book.Fits() && maker < MAX_SEATS && Ops.CanPost(book, side, tick, lots, maker, expiry, i)
      requires maker < |book.chains| && prev == At(book.chains[maker], i - 1) && next == At(book.chains[maker], i)
      modifies this, levels, seats, pool, SideArrays(side)
      ensures match Quoting.TryPost(old(book), side, tick, lots, maker, expiry, i)
              case Err(e) => r == Err(e)
              case Ok(c) => Valid() && book == c && old(book).free != [] && r.Ok? && r.value == old(book).free[0]
    {
      hide Book.Inv, Lists, FundsRep, HeaderRep, QueueOn, Enlist, Ops.CanPost, Ops.Post, Params.Ok, Bitmap.Valid,
        Bitmap.Bits,
        Book.Structure, Book.Uncrossed, Ops.Lock, Ops.CanPay, Book.Fits, MayJoin, At;
      BeforePost(Snapshot(), book, side, tick, lots, maker, expiry, i);
      LotsPositive(book, side, tick, lots, maker, expiry, i);
      var locked := LockFor(side, tick, lots, maker);
      if locked.Err? { return Err(locked.error); }
      r := BookInsert(side, tick, lots, maker, expiry);
      if r.Err? { return; }
      ChainSpliceAt(maker, prev, next, r.value, side, tick, lots, expiry, i);
      AfterPost(old(header), Snapshot(), book, side, tick, lots, maker, expiry, i);
      book := Ops.Post(book, side, tick, lots, maker, expiry, i);
    }

    /** Insert one payload quote at the cursor: crossing check, stacking guard, post. */
    method MassQuoteInsert(a: Pass, q: Quote, prev: u16, next: u16, lastUsed: u32, regionNext: Option<nat>,
        ghost i: nat)
      returns (r: Result<(u16, u32)>)
      requires Valid() && MayInsert(book, a, i, q, lastUsed, regionNext)
      requires prev == Handle(book, a, i - 1) && next == Handle(book, a, i)
      modifies this, levels, seats, pool, SideArrays(a.side)
      ensures match Inserted(old(book), a, i, q, lastUsed, regionNext)
              case Err(e) => r == Err(e)
              case Ok((c, t)) =>
                Valid() && book == c && old(book).free != [] && r.Ok? && r.value.0 == old(book).free[0]
                  && r.value.1 == t
    {
      hide Book.Inv, Rep, Ops.CanPost, Bitmap.Valid, Book.Structure, Book.Fits, Best, Quoting.CheckOrSlide, At,
        HeaderRep, Params.Ok,
        Quoting.TryPost, MayInsert, Inserted;
      InsertedIs(book, a, i, q, lastUsed, regionNext);
      RepHeader(Snapshot(), book);
      BookStructure(book);
      BestInWindow(book, a.side.Opposite());
      var checked := CheckOrSlideVs(a.side, q.tick, !q.RejectOnCross(), a.best);
      if checked.Err? { return Err(checked.error); }
      var tick := checked.value;
      if tick <= lastUsed || regionNext == Some(tick) { return Err(WouldCross); }
      var posted := PostAtCursor(a.side, tick, q.lots, a.m, a.expiry, prev, next, i);
      if posted.Err? { return Err(posted.error); }
      return Ok((posted.value, tick));
    }

    /** Cancel the chain quote at the cursor; its successor, read before the node is freed, is next. */
    method CancelQuote(a: Pass, cur: u16, ghost b: Book, ghost i0: nat, ghost i: nat, ghost k: nat, ghost used: nat)
      returns (r: Result<u16>)
      requires Valid() && Paused(b, book, a, i0, i, k, used) && GoodQuote(book, a, k)
      requires cur < pool.Length && Shows(book, a, i, cur, pool[cur].tick, pool[cur].lots)
        && CancelDue(a, k, pool[cur].tick)
      modifies this, levels, seats, pool, SideArrays(Bid), SideArrays(Ask)
      ensures Valid() && Paused(b, book, a, i0, i, k, used) && ToGo(book, a, i, k) < ToGo(old(book), a, i, k)
      ensures Handle(book, a, i - 1) == Handle(old(book), a, i - 1)
      ensures r.Ok? && r.value == Handle(book, a, i)
    {
      hide Book.Inv, Rep, Bitmap.Valid, Paused, ToGo, GoodQuote, Ops.Kill, Current, Handle;
      CursorShows(Snapshot(), b, book, a, i0, i, k, used, cur);
      Cancelled(b, book, a, i0, i, k, used, cur, pool[cur].tick, pool[cur].lots);
      var next := pool[cur].makerNext;
      var killed := KillOrder(cur);
      if killed.Err? { return Err(InvalidState); }
      return Ok(next);
    }

    /** Keep the chain quote at the cursor with no larger a size: it stays where it is. */
    method KeepQuote(a: Pass, cur: u16, ghost b: Book, ghost i0: nat, ghost i: nat, k: nat, ghost used: nat)
      returns (r: Result<u16>)
      requires Valid() && Paused(b, book, a, i0, i, k, used) && GoodQuote(book, a, k) && k < |a.quotes|
      requires cur < pool.Length && Shows(book, a, i, cur, pool[cur].tick, pool[cur].lots)
      requires pool[cur].tick == a.quotes[k].tick && a.quotes[k].lots <= pool[cur].lots
      modifies this, levels, seats, pool, SideArrays(Bid), SideArrays(Ask)
      ensures Valid() && Paused(b, book, a, i0, i + 1, k + 1, a.quotes[k].tick)
      ensures ToGo(book, a, i + 1, k + 1) < ToGo(old(book), a, i, k)
      ensures Handle(book, a, i) == cur && r.Ok? && r.value == Handle(book, a, i + 1)
    {
      hide Book.Inv, Rep, Bitmap.Valid, Paused, ToGo, Ops.Amend, Current, Handle;
      PausedFacts(b, book, a, i0, i, k, used);
      CursorShows(Snapshot(), b, book, a, i0, i, k, used, cur);
      KeptQuoteStep(b, book, a, i0, i, k, used, cur, pool[cur].tick, pool[cur].lots);
      var amended := AmendInPlace(cur, a.quotes[k].lots, a.expiry);
      if amended.Err? { return Err(InvalidState); }
      CursorNext(Snapshot(), b, book, a, i0, i, k + 1, a.quotes[k].tick, cur);
      return Ok(pool[cur].makerNext);
    }

    /** Post a payload quote that no resting quote of this side matches, before the one at the cursor. */
    method AddQuote(a: Pass, prev: u16, cur: u16, used: u32, ghost b: Book, ghost i0: nat, ghost i: nat, k: nat)
      returns (r: Result<(u16, u32)>)
      requires Valid() && Paused(b, book, a, i0, i, k, used) && GoodQuote(book, a, k) && k < |a.quotes|
      requires prev == Handle(book, a, i - 1) && cur == Handle(book, a, i)
      requires cur != NIL ==> cur < pool.Length
      requires cur != NIL && pool[cur].side == a.side ==> a.quotes[k].tick < pool[cur].tick
      modifies this, levels, seats, pool, SideArrays(Bid), SideArrays(Ask)
      ensures r.Err? ==>
        b.Inv() && a.Ok() && a.Hoisted(b) && MergeAt(b, a, i0, 0) && Merge(b, a, i0, 0, 0) == Err(r.error)
      ensures r.Ok? ==>
        && Valid() && Paused(b, book, a, i0, i + 1, k + 1, r.value.1)
          && ToGo(book, a, i + 1, k + 1) < ToGo(old(book), a, i, k)
        && r.value.0 == Handle(book, a, i) && cur == Handle(book, a, i + 1)
    {
      hide Book.Inv, Rep, Bitmap.Valid, Paused, ToGo, Current, Handle, MayInsert, Inserted, Best, Merge, MergeAt;
      PausedFacts(b, book, a, i0, i, k, used);
      CursorShows(Snapshot(), b, book, a, i0, i, k, used, cur);
      AddedStep(b, book, a, i0, i, k, used);
      PausedStart(b, book, a, i0, i, k, used);
      var regionNext := if cur != NIL && pool[cur].side == a.side then Some(pool[cur].tick as nat) else None;
      r := MassQuoteInsert(a, a.quotes[k], prev, cur, used, regionNext, i);
    }

    /** Re-post a quote of a larger size: cancel, then insert at the same place. */
    method RaiseQuote(a: Pass, prev: u16, cur: u16, used: u32, ghost b: Book, ghost i0: nat, ghost i: nat, k: nat)
      returns (r: Result<(u16, u32)>, next: u16)
      requires Valid() && Paused(b, book, a, i0, i, k, used) && GoodQuote(book, a, k) && k < |a.quotes|
      requires prev == Handle(book, a, i - 1)
      requires cur < pool.Length && Shows(book, a, i, cur, pool[cur].tick, pool[cur].lots)
      requires pool[cur].tick == a.quotes[k].tick && pool[cur].lots < a.quotes[k].lots
      modifies this, levels, seats, pool, SideArrays(Bid), SideArrays(Ask)
      ensures r.Err? ==>
        b.Inv() && a.Ok() && a.Hoisted(b) && MergeAt(b, a, i0, 0) && Merge(b, a, i0, 0, 0) == Err(r.error)
      ensures r.Ok? ==>
        && Valid() && Paused(b, book, a, i0, i + 1, k + 1, r.value.1)
          && ToGo(book, a, i + 1, k + 1) < ToGo(old(book), a, i, k)
        && r.value.0 == Handle(book, a, i) && next == Handle(book, a, i + 1)
    {
      hide Book.Inv, Rep, Bitmap.Valid, Paused, ToGo, Current, Handle, MayInsert, Inserted, Best, Merge, MergeAt,
        Ops.Kill, GoodQuote;
      PausedFacts(b, book, a, i0, i, k, used);
      CursorShows(Snapshot(), b, book, a, i0, i, k, used, cur);
      RaisedStep(b, book, a, i0, i, k, used, cur, pool[cur].tick, pool[cur].lots);
      PausedStart(b, book, a, i0, i, k, used);
      next := pool[cur].makerNext;
      var killed := KillOrder(cur);
      if killed.Err? {
        r := Err(InvalidState);
        return;
      }
      r := MassQuoteInsert(a, a.quotes[k], prev, next, used, None, i);
    }

    /** One round of the merge: cancel, post, keep or raise, whichever the two heads call for. */
    method MergeRound(a: Pass, at: Cursor, ghost b: Book, ghost i0: nat, ghost i: nat)
      returns (r: Result<Cursor>, ghost j: nat)
      requires Valid() && Paused(b, book, a, i0, i, at.quote, at.lastUsed) && GoodQuote(book, a, at.quote)
        && at.quote <= |a.quotes|
      requires at.prev == Handle(book, a, i - 1) && at.cur == Handle(book, a, i)
      requires at.cur != NIL ==> at.cur < pool.Length
      requires at.quote < |a.quotes| || (at.cur != NIL && pool[at.cur].side == a.side)
      requires at.quote > 0 ==> at.lastTick == a.quotes[at.quote - 1].tick
      modifies this, levels, seats, pool, SideArrays(Bid), SideArrays(Ask)
      ensures r.Err? ==>
        b.Inv() && a.Ok() && a.Hoisted(b) && MergeAt(b, a, i0, 0) && Merge(b, a, i0, 0, 0) == Err(r.error)
      ensures r.Ok? ==>
        var to := r.value;
        && Valid() && Paused(b, book, a, i0, j, to.quote, to.lastUsed) && to.quote <= |a.quotes|
        && to.prev == Handle(book, a, j - 1) && to.cur == Handle(book, a, j)
        && ToGo(book, a, j, to.quote) < ToGo(old(book), a, i, at.quote)
        && (to.quote > 0 ==> to.lastTick == a.quotes[to.quote - 1].tick)
    {
      hide Book.Inv, Rep, Bitmap.Valid, MergeAt, Best, Merge, Current, ToGo, Paused, Handle, Shows, GoodQuote;
      CursorShows(Snapshot(), b, book, a, i0, i, at.quote, at.lastUsed, at.cur);
      PausedStart(b, book, a, i0, i, at.quote, at.lastUsed);
      j := i;
      var inRegion := at.cur != NIL && pool[at.cur].side == a.side;
      if inRegion && (at.quote == |a.quotes| || pool[at.cur].tick < a.quotes[at.quote].tick) {
        var next := CancelQuote(a, at.cur, b, i0, i, at.quote, at.lastUsed);
        return Ok(at.(cur := next.value)), i;
      }
      var tick := a.quotes[at.quote].tick;
      if !inRegion || tick < pool[at.cur].tick {
        var placed := AddQuote(a, at.prev, at.cur, at.lastUsed, b, i0, i, at.quote);
        if placed.Err? { return Err(placed.error), i; }
        return Ok(Cursor(placed.value.0, at.cur, at.quote + 1, tick, placed.value.1)), i + 1;
      }
      if a.quotes[at.quote].lots <= pool[at.cur].lots {
        var next := KeepQuote(a, at.cur, b, i0, i, at.quote, at.lastUsed);
        return Ok(Cursor(at.cur, next.value, at.quote + 1, tick, tick)), i + 1;
      }
      var placed, next := RaiseQuote(a, at.prev, at.cur, at.lastUsed, b, i0, i, at.quote);
      if placed.Err? { return Err(placed.error), i; }
      return Ok(Cursor(placed.value.0, next, at.quote + 1, tick, placed.value.1)), i + 1;
    }

    /** The checks of a payload quote before it is merged: order, then size. */
    method CheckQuote(a: Pass, at: Cursor, ghost b: Book, ghost i0: nat, ghost i: nat) returns (e: Option<Error>)
      requires Valid() && Paused(b, book, a, i0, i, at.quote, at.lastUsed) && at.quote < |a.quotes|
      requires at.quote > 0 ==> at.lastTick == a.quotes[at.quote - 1].tick
      ensures e.Some? ==>
        b.Inv() && a.Ok() && a.Hoisted(b) && MergeAt(b, a, i0, 0) && Merge(b, a, i0, 0, 0) == Err(e.value)
      ensures e.None? ==> GoodQuote(book, a, at.quote)
    {
      hide Book.Inv, Rep, Bitmap.Valid, MergeAt, Best, Merge, Current, ToGo, Paused, BadOrder;
      PausedStart(b, book, a, i0, i, at.quote, at.lastUsed);
      PausedFacts(b, book, a, i0, i, at.quote, at.lastUsed);
      RepHeader(Snapshot(), book);
      HeaderLots(header, book);
      BadStep(book, a, i, at.quote, at.lastUsed);
      BadOrderIs(a, at.quote, at.lastTick);
      var q := a.quotes[at.quote];
      if at.quote > 0 && q.tick <= at.lastTick { return Some(PayloadNotSorted); }
      if q.lots == 0 || q.lots > header.maxLots { return Some(InvalidLots); }
      return None;
    }

    /**
     Merge one side of a payload into the maker's chain, from the cursor on; returns the
     cursor past this side's region.
     */
    method MassQuoteSide(seat: u16, side: Side, quotes: seq<Quote>, expiry: u32, prev: u16, cur: u16, ghost i0: nat)
      returns (r: Result<(u16, u16)>, ghost at: nat)
      requires Valid() && book.Fits() && seat < MAX_SEATS
      requires MergeAt(book, MassQuoting.PassOf(book, seat, side, quotes, expiry), i0, 0)
      requires prev == HandleOf(book, seat, i0 - 1) && cur == HandleOf(book, seat, i0)
      modifies this, levels, seats, pool, SideArrays(Bid), SideArrays(Ask)
      ensures match Merge(old(book), MassQuoting.PassOf(old(book), seat, side, quotes, expiry), i0, 0, 0)
              case Err(e) => r == Err(e)
              case Ok((c, cursor)) =>
                && Valid() && book == c && at == cursor && c.Fits()
                && r.Ok? && r.value.0 == HandleOf(c, seat, cursor - 1) && r.value.1 == HandleOf(c, seat, cursor)
    {
      hide Book.Inv, Rep, Bitmap.Valid, MergeAt, Best, Merge, Current, ToGo, Paused, GoodQuote, Shows, HandleOf;
      ghost var b := book;
      at := i0;
      var best := OpposingBest(side);
      var a := Pass(seat, side, quotes, expiry, best);
      var here := Cursor(prev, cur, 0, 0, 0);
      StartPaused(book, a, i0);
      while true
        invariant Valid() && Paused(b, book, a, i0, at, here.quote, here.lastUsed) && here.quote <= |a.quotes|
        invariant here.prev == HandleOf(book, seat, at - 1) && here.cur == HandleOf(book, seat, at)
        invariant here.quote > 0 ==> here.lastTick == a.quotes[here.quote - 1].tick
        decreases ToGo(book, a, at, here.quote)
      {
        PausedFacts(b, book, a, i0, at, here.quote, here.lastUsed);
        CursorShows(Snapshot(), b, book, a, i0, at, here.quote, here.lastUsed, here.cur);
        if here.quote < |a.quotes| {
          var bad := CheckQuote(a, here, b, i0, at);
          if bad.Some? { return Err(bad.value), at; }
        } else if here.cur == NIL || pool[here.cur].side != a.side {
          DoneStep(book, a, at, here.lastUsed);
          return Ok((here.prev, here.cur)), at;
        } else {
          NoQuoteLeft(book, a, here.quote);
        }
        var next, j := MergeRound(a, here, b, i0, at);
        if next.Err? { return Err(next.error), at; }
        here, at := next.value, j;
      }
    }

    /** Replace a seat's quotes: the bid pass, then the ask pass from where it stopped. */
    method MassQuote(seat: u16, bids: seq<Quote>, asks: seq<Quote>, expiry: u32) returns (r: Result<()>)
      requires Valid() && book.Fits() && seat < MAX_SEATS
      modifies this, levels, seats, pool, SideArrays(Bid), SideArrays(Ask)
      ensures match MassQuoting.MassQuote(old(book), seat, bids, asks, expiry)
              case Err(e) => r == Err(e)
              case Ok(c) => r.Ok? && Valid() && book == c
    {
      hide Book.Inv, Rep, Bitmap.Valid, MergeAt, Best, Merge, Book.Fits;
      if |bids| + |asks| > MAX_ORDERS_PER_SEAT { return Err(TooManyOrders); }
      ghost var a := MassQuoting.PassOf(book, seat, Bid, bids, expiry);
      MassQuoting.BidStart(book, a);
      SeatHead(Snapshot(), book, seat);
      var head := seats[seat].head;
      var cursor, at := MassQuoteSide(seat, Bid, bids, expiry, NIL, head, 0);
      if cursor.Err? { return Err(cursor.error); }
      MassQuoting.AskStart(old(book), a, MassQuoting.PassOf(book, seat, Ask, asks, expiry));
      var rest, end := MassQuoteSide(seat, Ask, asks, expiry, cursor.value.0, cursor.value.1, at);
      if rest.Err? { return Err(rest.error); }
      return Ok(());
    }

    // ---- hygiene ----

    /** Evict every order of one level; returns how many. */
    method EvictLevel(side: Side, tick: nat, ghost anchor: nat) returns (r: Result<u32>)
      requires Valid() && Covers(book, anchor) && anchor <= tick <= anchor + WINDOW_MASK
      modifies this, levels, seats, pool, SideArrays(Bid), SideArrays(Ask)
      ensures Valid() && Covers(book, anchor) && book == Reanchoring.EvictLevel(old(book), side, tick)
      ensures r.Ok? && r.value == |old(book).orders| - |book.orders|
      ensures header == old(header).(freeHead := header.freeHead, freeCount := header.freeCount)
    {
      hide Book.Inv, Rep, Bitmap.Valid, Ops.Kill, Reanchoring.EvictLevel, Covers, Hygiene.Removed;
      ghost var b := book;
      OrdersBound(book);
      var n: u32 := 0;
      var occupied := IsOccupied(side, tick, anchor);
      while occupied
        invariant Valid() && Covers(book, anchor) && occupied == (tick in book.Levels(side))
        invariant Reanchoring.EvictLevel(book, side, tick) == Reanchoring.EvictLevel(b, side, tick)
        invariant |book.orders| <= |b.orders| && n == |b.orders| - |book.orders|
        invariant header == old(header).(freeHead := header.freeHead, freeCount := header.freeCount)
        decreases |book.orders|
      {
        EvictsHead(book, anchor, side, tick);
        var head := LevelHead(side, tick);
        var killed := KillOrder(head);
        if killed.Err? { return Err(InvalidState); }
        n := n + 1;
        occupied := IsOccupied(side, tick, anchor);
      }
      CoversInv(book, anchor);
      VacantLevel(book, side, tick);
      return Ok(n);
    }

    /** Evict one side of one tick, if it is occupied at all. */
    method EvictSide(side: Side, tick: nat, ghost anchor: nat) returns (r: Result<u32>)
      requires Valid() && Covers(book, anchor) && anchor <= tick <= anchor + WINDOW_MASK
      modifies this, levels, seats, pool, SideArrays(Bid), SideArrays(Ask)
      ensures Valid() && Covers(book, anchor) && book == Reanchoring.EvictLevel(old(book), side, tick)
      ensures r.Ok? && r.value == |old(book).orders| - |book.orders|
      ensures header == old(header).(freeHead := header.freeHead, freeCount := header.freeCount)
    {
      hide Book.Inv, Rep, Bitmap.Valid, Reanchoring.EvictLevel, Covers;
      CoversInv(book, anchor);
      var occupied := IsOccupied(side, tick, anchor);
      if occupied {
        r := EvictLevel(side, tick, anchor);
      } else {
        VacantLevel(book, side, tick);
        r := Ok(0);
      }
    }

    /** Vacate one word of the window that starts at `anchor`, tick by tick, both sides. */
    method EvictWord(start: nat, ghost anchor: nat) returns (r: Result<u32>)
      requires Valid() && Covers(book, anchor) && anchor <= start && start + 63 <= anchor + WINDOW_MASK
        && start % 64 == 0
      modifies this, levels, seats, pool, SideArrays(Bid), SideArrays(Ask)
      ensures Valid() && Covers(book, anchor) && book == Reanchoring.EvictTicks(old(book), start, 64)
      ensures r.Ok? && r.value == |old(book).orders| - |book.orders|
      ensures header == old(header).(freeHead := header.freeHead, freeCount := header.freeCount)
    {
      hide Book.Inv, Rep, Bitmap.Valid, Reanchoring.EvictLevel, Reanchoring.EvictTicks, Covers, Hygiene.Removed;
      ghost var b := book;
      OrdersBound(book);
      var n: u32 := 0;
      var t := start;
      while t < start + 64
        invariant start <= t <= start + 64 && Valid() && Covers(book, anchor)
        invariant Reanchoring.EvictTicks(book, t, start + 64 - t) == Reanchoring.EvictTicks(b, start, 64)
        invariant |book.orders| <= |b.orders| && n == |b.orders| - |book.orders|
        invariant header == old(header).(freeHead := header.freeHead, freeCount := header.freeCount)
      {
        OneTick(book, t, start + 64 - t);
        EvictionsShrink(book, t);
        var bids := EvictSide(Bid, t, anchor);
        if bids.Err? { return Err(InvalidState); }
        var asks := EvictSide(Ask, t, anchor);
        if asks.Err? { return Err(InvalidState); }
        n := n + bids.value + asks.value;
        t := t + 1;
      }
      NoTicks(book, t);
      return Ok(n);
    }

    /** Vacate one word; two empty leaf words are skipped after one load each. */
    method VacateWord(start: nat, ghost anchor: nat) returns (r: Result<u32>)
      requires Valid() && Covers(book, anchor) && anchor <= start && start + 63 <= anchor + WINDOW_MASK
        && start % 64 == 0
      modifies this, levels, seats, pool, SideArrays(Bid), SideArrays(Ask)
      ensures Valid() && Covers(book, anchor) && book == Reanchoring.EvictTicks(old(book), start, 64)
      ensures r.Ok? && r.value == |old(book).orders| - |book.orders|
      ensures header == old(header).(freeHead := header.freeHead, freeCount := header.freeCount)
    {
      hide Book.Inv, Lists, FundsRep, HeaderRep, Bitmap.Bits, Covers, Hygiene.Removed, Slot;
      var bidsEmpty := bidBitmap.WordEmpty(start);
      var asksEmpty := askBitmap.WordEmpty(start);
      if !bidsEmpty || !asksEmpty {
        r := EvictWord(start, anchor);
        return;
      }
      EmptyWords(Snapshot(), book, anchor, start);
      return Ok(0);
    }

    /** Slide the window word by word to `ideal`, while the budget of evicted orders lasts. */
    method SlideTo(anchor: u32, ideal: u32, maxLevels: u32) returns (r: Result<(u32, u32)>)
      requires Valid() && CanMove(book, anchor, ideal) && |book.orders| <= U32_MAX
      modifies this, levels, seats, pool, SideArrays(Bid), SideArrays(Ask)
      ensures r.Ok? && Valid() && CanMove(book, r.value.1, ideal)
      ensures Outcome(old(book), anchor, ideal, 0, maxLevels) == (book.(anchor := r.value.1), r.value.0)
      ensures Covers(book, r.value.1) && book.(anchor := r.value.1).Inv()
      ensures header == old(header).(freeHead := header.freeHead, freeCount := header.freeCount)
    {
      hide Book.Inv, Rep, Bitmap.Valid, Covers, CanMove, Outcome, Reanchoring.EvictTicks, Hygiene.Removed, Towards;
      ghost var b := book;
      var evicted: u32 := 0;
      var cur: u32 := anchor;
      var up := ideal > cur;
      TowardsAt(cur, ideal);
      while cur != ideal && evicted < maxLevels
        invariant Valid() && CanMove(book, cur, ideal) && Towards(cur, ideal, up)
        invariant Outcome(book, cur, ideal, evicted, maxLevels) == Outcome(b, anchor, ideal, 0, maxLevels)
        invariant |book.orders| <= |b.orders| && evicted == |b.orders| - |book.orders|
        invariant header == old(header).(freeHead := header.freeHead, freeCount := header.freeCount)
        decreases Reanchoring.Gap(cur, ideal)
      {
        MoveRound(book, cur, ideal, up, evicted, maxLevels);
        var vacated := VacateWord(if up then cur else cur + WINDOW_MASK - 63, cur);
        if vacated.Err? { return Err(InvalidState); }
        evicted := evicted + vacated.value;
        ghost var was := cur;
        cur := if up then cur + 64 else cur - 64;
        Nearer(was, cur, ideal, up);
      }
      MoveOver(book, cur, ideal, evicted, maxLevels);
      return Ok((evicted, cur));
    }

    /** The clamped, word-aligned target. */
    method IdealAnchor(target: u32) returns (ideal: u32)
      requires HeaderRep(header, book) && WINDOW_MASK <= book.p.tickLimit
      ensures ideal == Reanchoring.Ideal(book.p, target)
    {
      HeaderLots(header, book);
      var maxAnchor := (header.tickLimit - WINDOW_MASK) / 64 * 64;
      ideal := Min(Max(target / 64 * 64, 64), maxAnchor);
    }

    /**
     Move the window towards `target`, evicting every order that falls outside it; returns
     how many orders were evicted and the new anchor.
     */
    method ReanchorStep(target: u32, maxLevels: u32) returns (r: Result<(u32, u32)>)
      requires Valid()
      modifies this, levels, seats, pool, SideArrays(Bid), SideArrays(Ask)
      ensures Valid() && r.Ok?
      ensures (book, r.value.0) == Reanchoring.ReanchorTo(old(book), target, maxLevels) && r.value.1 == book.anchor
    {
      hide Book.Inv, Rep, Bitmap.Valid, Covers, CanMove, Outcome, Reanchoring.ReanchorTo, Reanchoring.Ideal,
        HeaderRep, Lists;
      RepHeader(Snapshot(), book);
      OrdersBound(book);
      MoveStart(book, target);
      var ideal := IdealAnchor(target);
      r := SlideTo(header.anchor, ideal, maxLevels);
      if r.Err? { return; }
      AnchorMoved(Snapshot(), book, r.value.1);
      header := header.(anchor := r.value.1);
      book := book.(anchor := r.value.1);
    }

    /** Reap one level from front to back; each link is read before a kill frees the node. */
    method ReapLevel(a: Reaping.Reap, t: nat, reaped: u32) returns (r: Result<(u32, bool)>)
      requires Valid() && t in book.Levels(a.side) && reaped + |book.orders| <= U32_MAX
      modifies this, levels, seats, pool, SideArrays(Bid), SideArrays(Ask)
      ensures Valid() && r.Ok? && r.value.0 + |book.orders| == reaped + |old(book).orders|
      ensures Reaping.Reaped(book, r.value.0, r.value.1) == LevelReaped(old(book), a, t, reaped)
    {
      hide Book.Inv, Rep, Bitmap.Valid, Ops.Kill, Reaping.ReapLevel, Walking, Reaping.RestOf, At, LevelReaped;
      ghost var b := book;
      WalkStarts(book, a, t, reaped);
      ghost var before, rest: seq<nat> := [], book.Levels(a.side)[t];
      var n: u32 := reaped;
      var cur := LevelHead(a.side, t);
      while cur != NIL
        invariant Valid() && Walking(book, a, t, before, rest) && cur == At(rest, 0)
        invariant LevelReaped(b, a, t, reaped) == RestReaped(book, a, t, rest, n)
        invariant n + |book.orders| == reaped + |b.orders|
        decreases |rest|
      {
        WalkFacts(Snapshot(), book, a, t, before, rest, n);
        var next := pool[cur].next;
        if Lapsed(pool[cur].expiry, a.slot) {
          WalkKills(book, a, t, before, rest);
          var killed := KillOrder(cur);
          if killed.Err? { return Err(InvalidState); }
          n := n + 1;
          if n >= a.max { return Ok((n, true)); }
        } else {
          WalkSkips(book, a, t, before, rest);
          before := before + [rest[0]];
        }
        cur := next;
        rest := rest[1..];
      }
      WalkEnds(book, a, t, before, rest, n);
      return Ok((n, false));
    }

    /** The next occupied level of one side, from `tick` on. */
    method NextOccupied(side: Side, tick: nat) returns (r: Option<nat>)
      requires Valid() && book.InWindow(tick)
      ensures IsLeast(book.Levels(side).Keys, tick, book.anchor + WINDOW_TICKS, r)
    {
      hide Book.Inv, Lists, Bitmap.Bits, FundsRep, IsLeast;
      HeaderAnchor(Snapshot(), book);
      if side.Bid? {
        r := bidBitmap.NextAtOrAfter(header.anchor, tick);
      } else {
        r := askBitmap.NextAtOrAfter(header.anchor, tick);
      }
      BitsAreTicks(Snapshot(), book, side);
    }

    /** Reap the next occupied level from `tick` on; the tick to go on from, if any. */
    method ReapNext(a: Reaping.Reap, tick: nat, reaped: u32) returns (r: Result<(u32, Option<nat>)>)
      requires Valid() && book.InWindow(tick) && reaped + |book.orders| <= U32_MAX
      modifies this, levels, seats, pool, SideArrays(Bid), SideArrays(Ask)
      ensures Valid() && r.Ok?
      ensures Onward(old(book), a, tick, reaped, book, r.value.0, r.value.1)
    {
      hide Book.Inv, Rep, Bitmap.Valid, FromReaped, LevelReaped, IsLeast, Reaping.NextTick, Onward;
      ghost var b := book;
      var found := NextOccupied(a.side, tick);
      ReapSteps.FoundLevel(book, a, tick, reaped, found);
      if found.None? { return Ok((reaped, None)); }
      RepHeader(Snapshot(), book);
      var anchor := header.anchor;
      var t := found.value;
      var level := ReapLevel(a, t, reaped);
      if level.Err? { return Err(InvalidState); }
      AfterLevel(b, a, tick, reaped, t, book, level.value.0, level.value.1);
      if level.value.1 || t >= anchor + WINDOW_MASK { return Ok((level.value.0, None)); }
      return Ok((level.value.0, Some(t + 1)));
    }

    /** Reap expired orders on one side in tick order from `start`, up to the count; returns how many. */
    method ReapExpired(a: Reaping.Reap, start: u32) returns (r: Result<u32>)
      requires Valid()
      modifies this, levels, seats, pool, SideArrays(Bid), SideArrays(Ask)
      ensures Valid() && r.Ok? && (book, r.value) == SideReaped(old(book), a, start)
    {
      hide Book.Inv, Rep, Bitmap.Valid, SideReaped, FromReaped, Onward;
      RepHeader(Snapshot(), book);
      OrdersBound(book);
      ghost var b := book;
      var anchor := header.anchor;
      var tick: nat := Min(Max(start, anchor), anchor + WINDOW_MASK);
      ReapStarts(book, a, start);
      var reaped: u32 := 0;
      while true
        invariant Valid() && book.anchor == b.anchor && book.InWindow(tick)
        invariant reaped + |book.orders| == |b.orders|
        invariant SideReaped(b, a, start) == FromReaped(book, a, tick, reaped)
        decreases b.anchor + WINDOW_TICKS - tick
      {
        ghost var c := book;
        var next := ReapNext(a, tick, reaped);
        if next.Err? { return Err(InvalidState); }
        OnwardTrans(b, a, start, c, tick, reaped, book, next.value.0, next.value.1);
        reaped := next.value.0;
        if next.value.1.None? { return Ok(reaped); }
        tick := next.value.1.value;
      }
    }

    // ---- seat balances, for the instruction handlers ----

    /** Set one free balance of a seat to its exact value moved by `delta`. */
    method SetFree(m: u16, base: bool, atoms: u64, ghost delta: int)
      requires Valid() && m < MAX_SEATS && m < |book.balances| && 0 <= book.balances[m].Free(base) + delta
      requires atoms == WrappingAdd(book.balances[m].Free(base), delta)
      modifies this`book, seats
      ensures Valid() && book == Venues.Moved(old(book), m, base, delta)
    {
      hide Book.Inv, Lists, HeaderRep, Bitmap.Valid, Bitmap.Bits, FundsRep;
      ghost var raw := Snapshot();
      SeatsAre(raw, book);
      seats[m] := if base then seats[m].(baseFree := atoms) else seats[m].(quoteFree := atoms);
      FreeMoved(raw, book, m, base, atoms, delta);
      book := Venues.Moved(book, m, base, delta);
    }

    /** Take the accrued fees, leaving none. */
    method TakeFeesAccrued() returns (amount: u64)
      requires Valid() && book.fees <= U64_MAX
      modifies this
      ensures Valid() && book == old(book).(fees := 0) && amount == old(book).fees
    {
      hide Book.Inv, Lists, FundsRep, Bitmap.Valid;
      Runs.NoFees(book);
      NoFeesRep(Snapshot(), book);
      amount := header.fees;
      header := header.(fees := 0);
      book := book.(fees := 0);
    }

    method SetFeeBps(bps: u16) returns (r: Result<()>)
      requires Valid()
      modifies this
      ensures bps > MAX_FEE_BPS ==> r == Err(InvalidFee)
      ensures bps <= MAX_FEE_BPS ==> r.Ok? && Valid() && book == Runs.WithFee(old(book), bps)
    {
      hide Book.Inv, Rep, Bitmap.Valid;
      if bps > MAX_FEE_BPS { return Err(InvalidFee); }
      Runs.WithFeeInv(book, bps);
      WithFeeRep(Snapshot(), book, bps);
      header := header.(feeBps := bps);
      book := Runs.WithFee(book, bps);
      return Ok(());
    }
  }
}
