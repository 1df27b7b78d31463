/** Removing orders: cancel, reap and reanchor. */
module Hygiene {
  import opened Base
  import opened Seqs
  import opened Books
  import opened Changes
  import opened Ops
  import opened Frames
  // ---- what a removal leaves ----

  ghost function Alive(orders: map<nat, Order>): nat -> bool { h => h in orders }

  /** Orders only left; the rest are as they were, in the same queue order. */
  ghost predicate Thinned(b: Book, c: Book) {
    && c.p == b.p && c.issued == b.issued
    && (forall h | h in c.orders :: h in b.orders && c.orders[h] == b.orders[h])
    && (forall side, t :: Queue(c, side, t) == Filter(Alive(c.orders), Queue(b, side, t)))
  }

  lemma ThinnedTrans(b: Book, c: Book, d: Book)
    requires Thinned(b, c) && Thinned(c, d)
    ensures Thinned(b, d)
  {
    forall side, t
      ensures Queue(d, side, t) == Filter(Alive(d.orders), Queue(b, side, t))
    {
      FilterTwice(Alive(c.orders), Alive(d.orders), Queue(b, side, t));
      assert Queue(c, side, t) == Filter(Alive(c.orders), Queue(b, side, t));
    }
  }

  lemma ThinnedSelf(b: Book)
    requires QueuesOk(b)
    ensures Thinned(b, b)
  {
    forall side, t
      ensures Queue(b, side, t) == Filter(Alive(b.orders), Queue(b, side, t))
    {
      if t in b.Levels(side) { assert b.QueueOk(side, t); }
      FilterAll(Alive(b.orders), Queue(b, side, t));
    }
  }

  lemma UnlistThins(b: Book, h: nat, side: Side, t: nat)
    requires h in b.orders && b.OrderOk(h)
    requires t in b.Levels(side) ==> b.QueueOk(side, t)
    ensures Queue(Unlist(b, h), side, t) == Filter(Alive(Unlist(b, h).orders), Queue(b, side, t))
  {
    var f, q := Alive(Unlist(b, h).orders), Queue(b, side, t);
    if side == b.orders[h].side && t == b.orders[h].tick {
      QueueDistinct(b, side, t);
      WithoutMembers(q, h);
      FilterWithout(f, q, h);
      FilterAll(f, Without(q, h));
    } else {
      FilterAll(f, q);
    }
  }

  lemma KillThins(b: Book, h: nat)
    requires b.Inv() && h in b.orders
    ensures Thinned(b, Kill(b, h)) && Kill(b, h).orders == b.orders - {h}
  {
    OrderFacts(b, h);
    assert QueuesOk(b);
    KilledThins(b, h);
  }

  lemma KilledThins(b: Book, h: nat)
    requires h in b.orders && b.OrderOk(h) && b.orders[h].maker < |b.balances| && QueuesOk(b)
    ensures Thinned(b, Killed(b, h)) && Killed(b, h).orders == b.orders - {h}
  {
    hide Book.QueueOk, Filter;
    var u, c := Unlist(b, h), Killed(b, h);
    forall side, t
      ensures Queue(c, side, t) == Filter(Alive(c.orders), Queue(b, side, t))
    {
      if t in b.Levels(side) { assert b.QueueOk(side, t); }
      UnlistThins(b, h, side, t);
      assert Queue(c, side, t) == Queue(u, side, t);
    }
  }

  /** A removal that refunds exactly: quiet and thinning. */
  ghost predicate Removed(b: Book, c: Book) {
    Quiet(b, c) && Thinned(b, c) && |c.orders| <= |b.orders|
  }

  lemma RemovedTrans(b: Book, c: Book, d: Book)
    requires Removed(b, c) && Removed(c, d)
    ensures Removed(b, d)
  {
    QuietTrans(b, c, d);
    ThinnedTrans(b, c, d);
  }

  lemma RemovedSelf(b: Book)
    requires b.Inv()
    ensures Removed(b, b)
  {
    assert QueuesOk(b);
    ThinnedSelf(b);
  }

  lemma KillRemoves(b: Book, h: nat)
    requires b.Inv() && h in b.orders
    ensures Removed(b, Kill(b, h)) && Kill(b, h).orders == b.orders - {h} && |Kill(b, h).orders| == |b.orders| - 1
  {
    hide Book.Inv, Kill, Thinned, Quiet;
    KillQuiet(b, h);
    KillThins(b, h);
  }

  // ---- cancel ----

  /** No order id is reused, whatever happened to the fee. */
  ghost predicate Newer(b: Book, c: Book) {
    && b.issued <= c.issued
    && forall h | h in c.orders ::
         || b.issued <= c.orders[h].stamp
         || (h in b.orders && b.orders[h].SameIdentity(c.orders[h]))
  }

  /** `cancel_order`: the handle must name a live order of this seat with this id. */
  ghost function CancelOrder(b: Book, seat: nat, idx: nat, id: nat): (r: Result<Book>)
    requires b.Inv()
    ensures r.Ok? ==> idx in b.orders && b.orders[idx].maker == seat && Removed(b, r.value)
  {
    if idx in b.orders && b.orders[idx].Id() == id && b.orders[idx].maker == seat
    then KillRemoves(b, idx); Ok(Kill(b, idx)) else Err(OrderNotFound)
  }

  /** The order is gone from its queue and its chain; no other queue and no other chain changed. */
  ghost predicate OffLists(b: Book, c: Book, h: nat)
    requires h in b.orders
  {
    var o := b.orders[h];
    && c.orders == b.orders - {h} && c.free == [h] + b.free
    && (forall side, t :: h !in Queue(c, side, t))
    && (forall side, t | side != o.side || t != o.tick :: Queue(c, side, t) == Queue(b, side, t))
    && |c.chains| == |b.chains| && o.maker < |b.chains| && h !in c.chains[o.maker]
    && (forall j | 0 <= j < |b.chains| && j != o.maker :: c.chains[j] == b.chains[j])
  }

  /** The maker has back exactly what the order locked: quote for a bid, base for an ask. */
  ghost predicate Refunded(b: Book, c: Book, o: Order) {
    && |c.balances| == |b.balances| && o.maker < |b.balances|
    && (forall j | 0 <= j < |b.balances| && j != o.maker :: c.balances[j] == b.balances[j])
    && var x, y := b.balances[o.maker], c.balances[o.maker];
       if o.side.Bid? then
         var atoms := Times(Times(o.tick, b.p.tickSize), o.lots);
         y == Balance(x.baseFree, x.quoteFree + atoms, x.baseLocked, x.quoteLocked - atoms)
       else
         var atoms := Times(b.p.lotSize, o.lots);
         y == Balance(x.baseFree + atoms, x.quoteFree, x.baseLocked - atoms, x.quoteLocked)
  }

  ghost predicate Ended(b: Book, c: Book, h: nat)
    requires h in b.orders
  {
    && OffLists(b, c, h) && Refunded(b, c, b.orders[h])
    && c.p == b.p && c.anchor == b.anchor && c.fees == b.fees && c.issued == b.issued
  }

  lemma UnlistQueue(b: Book, h: nat, side: Side, t: nat)
    requires h in b.orders && b.OrderOk(h) && (t in b.Levels(side) ==> b.QueueOk(side, t))
    ensures h !in Queue(Unlist(b, h), side, t)
    ensures side != b.orders[h].side || t != b.orders[h].tick ==> Queue(Unlist(b, h), side, t) == Queue(b, side, t)
  {
    hide Rising;
    if side == b.orders[h].side && t == b.orders[h].tick {
      QueueDistinct(b, side, t);
      WithoutMembers(b.Levels(side)[t], h);
    }
  }

  lemma UnlistChains(b: Book, h: nat)
    requires h in b.orders && b.OrderOk(h) && b.ChainOk(b.orders[h].maker)
    ensures var o, c := b.orders[h], Unlist(b, h);
      && c.orders == b.orders - {h} && c.free == [h] + b.free
      && |c.chains| == |b.chains| && o.maker < |b.chains| && h !in c.chains[o.maker]
      && forall j | 0 <= j < |b.chains| && j != o.maker :: c.chains[j] == b.chains[j]
  {
    ChainDistinct(b, b.orders[h].maker);
    WithoutMembers(b.chains[b.orders[h].maker], h);
  }

  lemma UnlistOff(b: Book, h: nat)
    requires b.Inv() && h in b.orders && b.OrderOk(h)
    ensures OffLists(b, Unlist(b, h), h)
  {
    hide Book.Inv, Unlist, Queue, Book.QueueOk;
    ChainIsOk(b, b.orders[h].maker);
    UnlistChains(b, h);
    forall side, t
      ensures h !in Queue(Unlist(b, h), side, t)
      ensures side != b.orders[h].side || t != b.orders[h].tick ==> Queue(Unlist(b, h), side, t) == Queue(b, side, t)
    {
      if t in b.Levels(side) { QueueIsOk(b, side, t); }
      UnlistQueue(b, h, side, t);
    }
  }

  lemma ChainIsOk(b: Book, m: nat)
    requires b.Inv() && m < |b.chains|
    ensures b.ChainOk(m)
  {}

  lemma KillCancels(b: Book, h: nat)
    requires b.Inv() && h in b.orders
    ensures Ended(b, Kill(b, h), h)
  {
    hide Book.Inv, OffLists;
    OrderFacts(b, h);
    UnlistOff(b, h);
    SameOff(b, Unlist(b, h), Kill(b, h), h);
  }

  lemma SameOff(b: Book, u: Book, c: Book, h: nat)
    requires h in b.orders && OffLists(b, u, h) && c == u.(balances := c.balances)
    ensures OffLists(b, c, h)
  {
    assert forall side, t :: Queue(c, side, t) == Queue(u, side, t);
  }

  /**
   A cancel succeeds iff the index is a live order of that seat with that id; then the order
   is off its queue and chain, its node is free and what it locked is free again.
   */
  lemma CancelExact(b: Book, seat: nat, idx: nat, id: nat)
    requires b.Inv()
    ensures CancelOrder(b, seat, idx, id).Ok? <==>
      idx in b.orders && b.orders[idx].maker == seat && b.orders[idx].stamp % FREED_SEQ == id
    ensures CancelOrder(b, seat, idx, id).Ok? ==> Ended(b, CancelOrder(b, seat, idx, id).value, idx)
    ensures CancelOrder(b, seat, idx, id).Err? ==> CancelOrder(b, seat, idx, id) == Err(OrderNotFound)
  {
    hide Book.Inv, Kill, Ended;
    if CancelOrder(b, seat, idx, id).Ok? { KillCancels(b, idx); }
  }

  lemma IdsApart(s: nat, s': nat)
    requires s < s' < s + FREED_SEQ
    ensures s % FREED_SEQ != s' % FREED_SEQ
  {
    var k := s' / FREED_SEQ - s / FREED_SEQ;
    assert s' - s == FREED_SEQ * k + (s' % FREED_SEQ - s % FREED_SEQ);
  }

  /** Fewer than 2^64 - 1 insertions apart, two orders never share an id. */
  lemma IdsDistinct(b: Book, h: nat, x: nat)
    requires b.Inv() && h in b.orders && x in b.orders
    requires b.orders[h].stamp < b.orders[x].stamp < b.orders[h].stamp + FREED_SEQ
    ensures b.orders[h].Id() != b.orders[x].Id() && b.orders[h].Id() != FREED_SEQ
  {
    IdsApart(b.orders[h].stamp, b.orders[x].stamp);
  }

  /** Until the counter wraps, every queue is strictly increasing in id. */
  lemma QueueIdsRise(b: Book, side: Side, t: nat, i: nat, j: nat)
    requires b.Inv() && b.issued <= FREED_SEQ && t in b.Levels(side) && i < j < |b.Levels(side)[t]|
    ensures var q := b.Levels(side)[t];
      q[i] in b.orders && q[j] in b.orders && b.orders[q[i]].Id() < b.orders[q[j]].Id()
  {
    hide Book.Inv;
    QueueIsOk(b, side, t);
    var q, f := b.Levels(side)[t], StampOf(b.orders);
    assert q[i] in q && q[j] in q && f(q[i]) < f(q[j]);
    OrderFacts(b, q[j]);
  }

  lemma QueueIsOk(b: Book, side: Side, t: nat)
    requires b.Inv() && t in b.Levels(side)
    ensures b.QueueOk(side, t)
  {}

  /**
   A stale handle is refused even after its slot was reused: `h` was live in `b`, had
   ended by `d`, and fewer than 2^64 - 1 orders were posted from it to `c`.
   */
  lemma StaleRefused(b: Book, d: Book, c: Book, h: nat, seat: nat)
    requires b.Inv() && c.Inv() && h in b.orders && Newer(b, d) && Newer(d, c)
    requires h in d.orders ==> d.orders[h].stamp != b.orders[h].stamp
    requires c.issued <= b.orders[h].stamp + FREED_SEQ
    ensures CancelOrder(c, seat, h, b.orders[h].Id()) == Err(OrderNotFound)
  {
    hide Book.Inv, Kill;
    OrderFacts(b, h);
    if h in c.orders {
      OrderFacts(c, h);
      IdsApart(b.orders[h].stamp, c.orders[h].stamp);
    }
  }

  lemma QueuedAt(b: Book, side: Side, t: nat, h: nat)
    requires b.Inv() && t in b.Levels(side) && h in b.Levels(side)[t]
    ensures h in b.orders && b.orders[h].side == side && b.orders[h].tick == t
  {
    hide Book.Inv;
    QueueIsOk(b, side, t);
  }
}
