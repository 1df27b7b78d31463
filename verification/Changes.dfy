/** What the primitive changes of a book keep. */
module Changes {
  import opened Base
  import opened Seqs
  import opened Books

  // ---- taking an order off its lists ----

  lemma QueueDistinct(b: Book, side: Side, t: nat)
    requires t in b.Levels(side) && b.QueueOk(side, t)
    ensures Distinct(b.Levels(side)[t])
  {}

  lemma ChainDistinct(b: Book, m: nat)
    requires m < |b.chains| && b.ChainOk(m)
    ensures Distinct(b.chains[m])
  {}

  lemma UnlistTicks(b: Book, h: nat, side: Side, t: nat)
    requires h in b.orders && b.OrderOk(h)
    requires t in Unlist(b, h).Levels(side)
    ensures t in b.Levels(side)
    ensures Unlist(b, h).Levels(side)[t] ==
      if side == b.orders[h].side && t == b.orders[h].tick
      then Without(b.Levels(side)[t], h) else b.Levels(side)[t]
    ensures Unlist(b, h).Levels(side)[t] == [] ==> b.Levels(side)[t] == []
  {}

  lemma UnlistQueue(b: Book, h: nat, side: Side, t: nat)
    requires h in b.orders && b.OrderOk(h)
    requires t in Unlist(b, h).Levels(side) && t in b.Levels(side) && b.QueueOk(side, t)
    ensures Unlist(b, h).QueueOk(side, t)
  {
    UnlistTicks(b, h, side, t);
    if side == b.orders[h].side && t == b.orders[h].tick {
      QueueDistinct(b, side, t);
      WithoutMembers(b.Levels(side)[t], h);
      WithoutRising(StampOf(b.orders), b.Levels(side)[t], h);
    }
    SameRising(StampOf(b.orders), StampOf(Unlist(b, h).orders), Unlist(b, h).Levels(side)[t]);
  }

  lemma UnlistChain(b: Book, h: nat, m: nat)
    requires h in b.orders && b.OrderOk(h)
    requires m < |b.chains| && b.ChainOk(m)
    ensures Unlist(b, h).ChainOk(m)
  {
    var c := Unlist(b, h);
    if m == b.orders[h].maker {
      ChainDistinct(b, m);
      WithoutMembers(b.chains[m], h);
      WithoutRising(KeyOf(b.orders), b.chains[m], h);
    }
    SameRising(KeyOf(b.orders), KeyOf(c.orders), c.chains[m]);
  }

  /** The lists of another order still hold it. */
  lemma UnlistOrder(b: Book, h: nat, x: nat)
    requires h in b.orders && b.OrderOk(h) && x in b.orders && b.OrderOk(x) && x != h
    requires Distinct(b.Levels(b.orders[h].side)[b.orders[h].tick])
    requires Distinct(b.chains[b.orders[h].maker])
    ensures Unlist(b, h).OrderOk(x)
  {
    var o, y := b.orders[h], b.orders[x];
    WithoutMembers(b.Levels(o.side)[o.tick], h);
    WithoutMembers(b.chains[o.maker], h);
    var c := Unlist(b, h);
    if y.side == o.side && y.tick == o.tick {
      assert x in Without(b.Levels(o.side)[o.tick], h);
      assert c.Levels(y.side)[y.tick] == Without(b.Levels(o.side)[o.tick], h);
    } else {
      assert y.tick in c.Levels(y.side) && c.Levels(y.side)[y.tick] == b.Levels(y.side)[y.tick];
    }
  }

  lemma UnlistFree(b: Book, h: nat)
    requires h in b.orders && b.OrderOk(h) && Distinct(b.chains[b.orders[h].maker]) && b.FreeOk()
    ensures Unlist(b, h).FreeOk()
  {
    var o, c := b.orders[h], Unlist(b, h);
    WithoutMembers(b.chains[o.maker], h);
    SumLengthsUpdate(b.chains, o.maker, Without(b.chains[o.maker], h));
    assert forall x | x in c.free :: x == h || x in b.free;
    forall x: nat | 0 < x < b.p.capacity
      ensures x in c.orders || x in c.free
    {
      if x == h {
        assert c.free[0] == h;
      } else if x in b.free {
        var i :| 0 <= i < |b.free| && b.free[i] == x;
        assert c.free[i + 1] == x;
      }
    }
  }

  lemma UnlistStructure(b: Book, h: nat)
    requires b.Structure() && h in b.orders
    ensures Unlist(b, h).Structure()
  {
    var o, c := b.orders[h], Unlist(b, h);
    assert b.OrderOk(h) && b.QueueOk(o.side, o.tick) && b.ChainOk(o.maker);
    QueueDistinct(b, o.side, o.tick);
    ChainDistinct(b, o.maker);
    forall x | x in c.orders ensures c.OrderOk(x) { UnlistOrder(b, h, x); }
    forall t | t in c.bids ensures c.QueueOk(Bid, t) { UnlistTicks(b, h, Bid, t); UnlistQueue(b, h, Bid, t); }
    forall t | t in c.asks ensures c.QueueOk(Ask, t) { UnlistTicks(b, h, Ask, t); UnlistQueue(b, h, Ask, t); }
    forall m | 0 <= m < MAX_SEATS ensures c.ChainOk(m) { UnlistChain(b, h, m); }
    UnlistFree(b, h);
  }

  lemma UnlistUncrossed(b: Book, h: nat)
    requires b.Structure() && b.Uncrossed() && h in b.orders
    ensures Unlist(b, h).Uncrossed()
    ensures Unlist(b, h).bids.Keys <= b.bids.Keys && Unlist(b, h).asks.Keys <= b.asks.Keys
  {
    var c := Unlist(b, h);
    forall t | t in c.bids ensures t in b.bids { UnlistTicks(b, h, Bid, t); }
    forall t | t in c.asks ensures t in b.asks { UnlistTicks(b, h, Ask, t); }
  }

  lemma UnlistLocks(b: Book, h: nat, m: nat, base: bool)
    requires h in b.orders && b.OrderOk(h) && m < |b.chains| && b.ChainOk(m)
    ensures Unlist(b, h).ChainLock(m, base)
      == b.ChainLock(m, base) - (if m == b.orders[h].maker then b.orders[h].Lock(b.p, base) else 0)
  {
    var c := Unlist(b, h);
    if m == b.orders[h].maker {
      ChainDistinct(b, m);
      WithoutMembers(b.chains[m], h);
      SumWithout(LockOf(b.p, b.orders, base), b.chains[m], h);
    }
    SumSame(LockOf(c.p, c.orders, base), LockOf(b.p, b.orders, base), c.chains[m]);
  }

  // ---- changing an order in place ----

  lemma RestateQueue(b: Book, h: nat, lots: nat, expiry: nat, side: Side, t: nat)
    requires h in b.orders && t in b.Levels(side) && b.QueueOk(side, t)
    ensures Restate(b, h, lots, expiry).QueueOk(side, t)
  {}

  lemma RestateChain(b: Book, h: nat, lots: nat, expiry: nat, m: nat)
    requires h in b.orders && m < |b.chains| && b.ChainOk(m)
    ensures Restate(b, h, lots, expiry).ChainOk(m)
  {}

  lemma RestateOrder(b: Book, h: nat, lots: nat, expiry: nat, x: nat)
    requires h in b.orders && x in b.orders && b.OrderOk(x)
    requires 0 < lots <= b.p.maxLots && expiry <= U32_MAX
    ensures Restate(b, h, lots, expiry).OrderOk(x)
  {}

  lemma RestateStructure(b: Book, h: nat, lots: nat, expiry: nat)
    requires b.Structure() && h in b.orders
    requires 0 < lots <= b.p.maxLots && expiry <= U32_MAX
    ensures Restate(b, h, lots, expiry).Structure()
  {
    var c := Restate(b, h, lots, expiry);
    forall x | x in c.orders ensures c.OrderOk(x) { RestateOrder(b, h, lots, expiry, x); }
    forall t | t in c.bids ensures c.QueueOk(Bid, t) { RestateQueue(b, h, lots, expiry, Bid, t); }
    forall t | t in c.asks ensures c.QueueOk(Ask, t) { RestateQueue(b, h, lots, expiry, Ask, t); }
    forall m | 0 <= m < MAX_SEATS ensures c.ChainOk(m) { RestateChain(b, h, lots, expiry, m); }
    assert b.FreeOk() && c.FreeOk();
  }

  lemma RestateLocks(b: Book, h: nat, lots: nat, expiry: nat, m: nat, base: bool)
    requires h in b.orders && b.OrderOk(h) && m < |b.chains| && b.ChainOk(m)
    ensures var c := Restate(b, h, lots, expiry);
      c.ChainLock(m, base) == b.ChainLock(m, base)
        + (if m == b.orders[h].maker then c.orders[h].Lock(b.p, base) - b.orders[h].Lock(b.p, base) else 0)
  {
    var c := Restate(b, h, lots, expiry);
    if m == b.orders[h].maker {
      ChainDistinct(b, m);
      SumChange(LockOf(b.p, b.orders, base), LockOf(c.p, c.orders, base), b.chains[m], h);
    } else {
      SumSame(LockOf(c.p, c.orders, base), LockOf(b.p, b.orders, base), b.chains[m]);
    }
  }

  // ---- putting a new order on its lists ----

  /** Append to the queue of `tick` and splice into the maker's chain at `i`. */
  ghost function Enlist(b: Book, side: Side, tick: nat, lots: nat, m: nat, expiry: nat, i: nat): Book
    requires b.free != [] && m < |b.chains| && i <= |b.chains[m]|
  {
    var h := b.free[0];
    var q := if tick in b.Levels(side) then b.Levels(side)[tick] else [];
    b.WithLevels(side, b.Levels(side)[tick := q + [h]])
     .(orders := b.orders[h := Order(side, tick, m, lots, expiry, b.issued)],
       chains := b.chains[m := InsertAt(b.chains[m], i, h)],
       free := b.free[1..],
       issued := b.issued + 1)
  }

  /** Place `i` is where a quote of `(side, tick)` belongs, and the maker has none there. */
  ghost predicate Belongs(b: Book, side: Side, tick: nat, m: nat, i: nat)
    requires m < |b.chains| && b.ChainOk(m)
  {
    var c := b.chains[m];
    && i <= |c|
    && (forall j | 0 <= j < i :: b.orders[c[j]].SortKey() < Key(side, tick))
    && (forall j | i <= j < |c| :: Key(side, tick) < b.orders[c[j]].SortKey())
  }

  lemma EnlistQueue(b: Book, side: Side, tick: nat, lots: nat, m: nat, expiry: nat, i: nat, s: Side, t: nat)
    requires b.free != [] && b.free[0] !in b.orders && m < |b.chains| && i <= |b.chains[m]|
    requires t in Enlist(b, side, tick, lots, m, expiry, i).Levels(s)
    requires t in b.Levels(s) ==> b.QueueOk(s, t)
    requires forall h | h in b.orders :: b.orders[h].stamp < b.issued
    ensures Enlist(b, side, tick, lots, m, expiry, i).QueueOk(s, t)
  {
    var c := Enlist(b, side, tick, lots, m, expiry, i);
    if t in b.Levels(s) {
      SameRising(StampOf(b.orders), StampOf(c.orders), b.Levels(s)[t]);
      AppendRising(StampOf(c.orders), b.Levels(s)[t], b.free[0]);
    }
  }

  lemma EnlistChain(b: Book, side: Side, tick: nat, lots: nat, m: nat, expiry: nat, i: nat, m': nat)
    requires b.free != [] && b.free[0] !in b.orders && m < |b.chains| && b.ChainOk(m)
    requires Belongs(b, side, tick, m, i)
    requires m' < |b.chains| && b.ChainOk(m')
    ensures Enlist(b, side, tick, lots, m, expiry, i).ChainOk(m')
  {
    var c := Enlist(b, side, tick, lots, m, expiry, i);
    SameRising(KeyOf(b.orders), KeyOf(c.orders), b.chains[m']);
    if m' == m {
      InsertMembers(b.chains[m], i, b.free[0]);
      InsertRising(KeyOf(c.orders), b.chains[m], i, b.free[0]);
    }
  }

  lemma EnlistOrder(b: Book, side: Side, tick: nat, lots: nat, m: nat, expiry: nat, i: nat, x: nat)
    requires b.free != [] && b.free[0] !in b.orders && m < |b.chains| && i <= |b.chains[m]|
    requires 0 < b.free[0] < b.p.capacity && 0 < lots <= b.p.maxLots && expiry <= U32_MAX && b.InWindow(tick)
    requires x == b.free[0] || (x in b.orders && b.OrderOk(x))
    ensures Enlist(b, side, tick, lots, m, expiry, i).OrderOk(x)
  {
    InsertMembers(b.chains[m], i, b.free[0]);
  }

  lemma EnlistFree(b: Book, side: Side, tick: nat, lots: nat, m: nat, expiry: nat, i: nat)
    requires b.free != [] && m < |b.chains| && i <= |b.chains[m]| && b.FreeOk()
    ensures Enlist(b, side, tick, lots, m, expiry, i).FreeOk()
  {
    var c, h := Enlist(b, side, tick, lots, m, expiry, i), b.free[0];
    InsertMembers(b.chains[m], i, h);
    SumLengthsUpdate(b.chains, m, InsertAt(b.chains[m], i, h));
    assert b.free == [h] + c.free;
    assert forall x | x in b.free :: x == h || x in c.free;
    assert forall x | x in c.free :: x in b.free && x != h;
  }

  lemma EnlistStructure(b: Book, side: Side, tick: nat, lots: nat, m: nat, expiry: nat, i: nat)
    requires b.Structure() && b.free != [] && m < MAX_SEATS && Belongs(b, side, tick, m, i)
    requires 0 < lots <= b.p.maxLots && expiry <= U32_MAX && b.InWindow(tick)
    ensures Enlist(b, side, tick, lots, m, expiry, i).Structure()
  {
    var c := Enlist(b, side, tick, lots, m, expiry, i);
    assert b.free[0] in b.free;
    forall h | h in b.orders ensures b.orders[h].stamp < b.issued { assert b.OrderOk(h); }
    forall x | x in c.orders ensures c.OrderOk(x) { EnlistOrder(b, side, tick, lots, m, expiry, i, x); }
    forall t | t in c.bids ensures c.QueueOk(Bid, t) { EnlistQueue(b, side, tick, lots, m, expiry, i, Bid, t); }
    forall t | t in c.asks ensures c.QueueOk(Ask, t) { EnlistQueue(b, side, tick, lots, m, expiry, i, Ask, t); }
    forall m' | 0 <= m' < MAX_SEATS ensures c.ChainOk(m') { EnlistChain(b, side, tick, lots, m, expiry, i, m'); }
    EnlistFree(b, side, tick, lots, m, expiry, i);
  }

  lemma EnlistLocks(b: Book, side: Side, tick: nat, lots: nat, m: nat, expiry: nat, i: nat, m': nat, base: bool)
    requires b.free != [] && b.free[0] !in b.orders && m < |b.chains| && i <= |b.chains[m]|
    requires m' < |b.chains| && b.ChainOk(m')
    ensures var c := Enlist(b, side, tick, lots, m, expiry, i);
      c.ChainLock(m', base) == b.ChainLock(m', base)
        + if m' == m then c.orders[b.free[0]].Lock(b.p, base) else 0
  {
    var c, h := Enlist(b, side, tick, lots, m, expiry, i), b.free[0];
    SumSame(LockOf(c.p, c.orders, base), LockOf(b.p, b.orders, base), b.chains[m']);
    if m' == m {
      SumInsert(LockOf(c.p, c.orders, base), b.chains[m], i, h);
    }
  }
}
