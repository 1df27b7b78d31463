/** A fresh account: zeroed regions and a threaded free list represent the empty book. */
module Creating {
  import opened Bitmaps
  import opened Links
  import opened Books
  import opened Layout
  import opened Chains
  import opened Represent
  import Markets

  function HeaderParams(h: Market): Params {
    Params(h.tickSize, h.lotSize, h.feeBps, h.maxLots, h.tickLimit, h.capacity)
  }

  /** The indices `lo`, `lo + 1`, up to but not including `hi`. */
  ghost function Range(lo: nat, hi: nat): (r: seq<nat>)
    requires lo <= hi
    ensures |r| == hi - lo && forall k | 0 <= k < |r| :: r[k] == lo + k
    decreases hi - lo
  {
    if lo == hi then [] else [lo] + Range(lo + 1, hi)
  }

  lemma EmptyRange(hi: nat, free: seq<nat>)
    ensures Range(hi, hi) + free == free
  {}

  lemma RangeLength(lo: nat, hi: nat, free: seq<nat>)
    requires lo <= hi
    ensures |Range(lo, hi) + free| == |free| + (hi - lo)
  {}

  lemma NoFreeNodes(pool: seq<OrderNode>)
    ensures FreeRep(pool, NIL, 0, [])
  {}

  lemma ThreadedOnto(p: seq<OrderNode>, p': seq<OrderNode>, f: seq<nat>, i: nat)
    requires 0 < i < |p| == |p'| && FreeLinks(p, f) && i !in f
    requires forall k | 0 <= k < |p| && k != i :: p'[k] == p[k]
    requires p'[i].next == At(f, 0) && p'[i].id == FREED_SEQ && p'[i].lots == 0
    ensures FreeLinks(p', [i] + f) && At([i] + f, 0) == i
  {
    FreeUntouched(p, p', f);
    FreeHead(p', f, i);
  }

  /** One node threaded in front of the list. */
  lemma Threaded(p: seq<OrderNode>, p': seq<OrderNode>, free: seq<nat>, i: nat, hi: nat)
    requires 0 < i < hi <= |p| == |p'| && FreeLinks(p, Range(i + 1, hi) + free) && i !in free
    requires forall k | 0 <= k < |p| && k != i :: p'[k] == p[k]
    requires p'[i].next == At(Range(i + 1, hi) + free, 0) && p'[i].id == FREED_SEQ && p'[i].lots == 0
    ensures FreeLinks(p', Range(i, hi) + free) && At(Range(i, hi) + free, 0) == i
  {
    hide FreeLinks, At;
    ThreadedOnto(p, p', Range(i + 1, hi) + free, i);
    assert Range(i, hi) + free == [i] + (Range(i + 1, hi) + free);
  }

  lemma RangeIsUnused(capacity: nat)
    requires 0 < capacity
    ensures Range(1, capacity) == Markets.Unused(capacity)
  {}

  lemma EmptyParts(p: Params, anchor: nat)
    requires 0 < p.capacity
    ensures var b := Markets.EmptyBook(p, anchor);
      && b.p == p && b.anchor == anchor && b.orders == map[] && b.bids == map[] && b.asks == map[]
      && b.free == Markets.Unused(p.capacity) && b.fees == 0 && b.issued == 0
      && |b.chains| == |b.balances| == MAX_SEATS
      && (forall m | 0 <= m < MAX_SEATS :: b.chains[m] == [])
      && (forall m | 0 <= m < MAX_SEATS :: b.balances[m] == Balance(0, 0, 0, 0))
  {}

  lemma EmptyRep(r: Raw, h: Market)
    requires 0 < h.capacity <= MAX_POOL_CAPACITY && h.freeHead == NIL && h.freeCount == 0 && h.orderSeq == 0
      && h.fees == 0
    requires r.header == h.(freeHead := r.header.freeHead, freeCount := r.header.freeCount)
    requires r.bidBits == {} && r.askBits == {} && |r.levels| == WINDOW_TICKS && |r.seats| == MAX_SEATS
      && |r.pool| == h.capacity
    requires forall k | 0 <= k < WINDOW_TICKS :: r.levels[k] == EMPTY_LEVEL
    requires forall m | 0 <= m < MAX_SEATS :: r.seats[m] == Seat(0, 0, 0, 0, NIL, 0)
    requires FreeRep(r.pool, r.header.freeHead, r.header.freeCount, Range(1, h.capacity) + [])
    ensures Rep(r, Markets.EmptyBook(HeaderParams(h), h.anchor))
  {
    hide Markets.EmptyBook, FreeLinks, Range;
    RangeIsUnused(h.capacity);
    assert Range(1, h.capacity) + [] == Range(1, h.capacity);
    EmptyParts(HeaderParams(h), h.anchor);
  }
}
