/** The four things that can happen to an order, and what each keeps. */
module Ops {
  import opened Base
  import opened Seqs
  import opened Books
  import opened Changes

  // The new balance of each operation.
  function Refund(p: Params, x: Balance, side: Side, tick: nat, lots: nat): Balance {
    x.Move(side.Ask?, p.Atoms(side, tick, lots), 0 - p.Atoms(side, tick, lots))
  }

  function Lock(p: Params, x: Balance, side: Side, tick: nat, lots: nat): Balance {
    x.Move(side.Ask?, 0 - p.Atoms(side, tick, lots), p.Atoms(side, tick, lots))
  }

  // Each operation on the lists and on the maker's balances.
  ghost function Killed(b: Book, h: nat): Book
    requires h in b.orders && b.OrderOk(h) && b.orders[h].maker < |b.balances|
  {
    var o := b.orders[h];
    WithBalance(Unlist(b, h), o.maker, Refund(b.p, b.balances[o.maker], o.side, o.tick, o.lots))
  }

  ghost function Filled(b: Book, h: nat, lots: nat): Book
    requires h in b.orders && b.OrderOk(h) && 0 < lots <= b.orders[h].lots && b.orders[h].maker < |b.balances|
  {
    var o := b.orders[h];
    var left := if lots == o.lots then Unlist(b, h) else Restate(b, h, o.lots - lots, o.expiry);
    WithBalance(left, o.maker, b.balances[o.maker].Settle(b.p, o.side, o.tick, lots))
  }

  ghost function Amended(b: Book, h: nat, lots: nat, expiry: nat): Book
    requires h in b.orders && 0 < lots <= b.orders[h].lots && b.orders[h].maker < |b.balances|
  {
    var o := b.orders[h];
    WithBalance(Restate(b, h, lots, expiry), o.maker,
                Refund(b.p, b.balances[o.maker], o.side, o.tick, o.lots - lots))
  }

  ghost function Posted(b: Book, side: Side, tick: nat, lots: nat, m: nat, expiry: nat, i: nat): Book
    requires b.free != [] && m < |b.chains| && m < |b.balances| && i <= |b.chains[m]|
  {
    WithBalance(Enlist(b, side, tick, lots, m, expiry, i), m, Lock(b.p, b.balances[m], side, tick, lots))
  }

  /** A new order may rest at `(side, tick)`, at place `i` of the maker's chain. */
  ghost predicate CanPost(b: Book, side: Side, tick: nat, lots: nat, m: nat, expiry: nat, i: nat)
    requires b.Inv()
  {
    && m < MAX_SEATS && b.ChainOk(m) && Belongs(b, side, tick, m, i)
    && 0 < lots <= b.p.maxLots && expiry <= U32_MAX && b.InWindow(tick)
    && (side.Bid? ==> forall t | t in b.asks :: tick < t)
    && (side.Ask? ==> forall t | t in b.bids :: t < tick)
  }

  ghost predicate CanPay(b: Book, side: Side, tick: nat, lots: nat, m: nat)
    requires m < |b.balances|
  {
    b.p.Atoms(side, tick, lots) <= b.balances[m].Free(side.Ask?)
  }

  lemma AtomsAdd(p: Params, side: Side, tick: nat, x: nat, y: nat)
    ensures p.Atoms(side, tick, x + y) == p.Atoms(side, tick, x) + p.Atoms(side, tick, y)
  {
    TimesAdd(Times(tick, p.tickSize), x, y);
    TimesAdd(p.lotSize, x, y);
  }

  // ---- the invariant ----

  /** Only balances, fees or the fee rate differ: nothing the structure depends on. */
  ghost predicate SameLists(u: Book, c: Book) {
    c == u.(p := u.p.(feeBps := c.p.feeBps), balances := c.balances, fees := c.fees)
  }

  lemma SameStructure(u: Book, c: Book)
    requires u.Structure() && SameLists(u, c)
    ensures c.Structure()
    ensures u.Uncrossed() ==> c.Uncrossed()
  {
    hide Book.OrderOk, Book.QueueOk, Book.ChainOk, Book.FreeOk;
    forall x | x in c.orders ensures c.OrderOk(x) { SameOrder(u, c, x); }
    forall t | t in c.bids ensures c.QueueOk(Bid, t) { SameQueue(u, c, Bid, t); }
    forall t | t in c.asks ensures c.QueueOk(Ask, t) { SameQueue(u, c, Ask, t); }
    forall m | 0 <= m < MAX_SEATS ensures c.ChainOk(m) { SameChain(u, c, m); }
    SameFree(u, c);
  }

  lemma SameOrder(u: Book, c: Book, h: nat)
    requires SameLists(u, c) && h in u.orders && u.OrderOk(h)
    ensures c.OrderOk(h)
  {}

  lemma SameQueue(u: Book, c: Book, side: Side, t: nat)
    requires SameLists(u, c) && t in u.Levels(side) && u.QueueOk(side, t)
    ensures t in c.Levels(side) && c.QueueOk(side, t)
  {}

  lemma SameChain(u: Book, c: Book, m: nat)
    requires SameLists(u, c) && m < |u.chains| && u.ChainOk(m)
    ensures c.ChainOk(m)
  {}

  lemma SameFree(u: Book, c: Book)
    requires SameLists(u, c) && u.FreeOk()
    ensures c.FreeOk()
  {}

  /** Locks stay exact when one seat's locked balances follow its chain. */
  lemma LocksFollow(b: Book, u: Book, m: nat, x: Balance)
    requires b.LocksExact() && m < |b.balances|
    requires u.balances == b.balances && |u.chains| == |b.chains| && u.fees == b.fees
    requires 0 <= x.Free(true) && 0 <= x.Free(false)
    requires forall j, base | 0 <= j < |b.balances| ::
      u.ChainLock(j, base) == if j == m then x.Locked(base) else b.ChainLock(j, base)
    ensures WithBalance(u, m, x).LocksExact()
  {
    var c := WithBalance(u, m, x);
    forall j, base | 0 <= j < |c.balances|
      ensures c.balances[j].Locked(base) == c.ChainLock(j, base) && 0 <= c.balances[j].Free(base)
    {
      assert b.balances[j].Locked(base) == b.ChainLock(j, base);
    }
  }

  ghost predicate ChainsOk(b: Book) {
    |b.chains| == MAX_SEATS && forall m | 0 <= m < MAX_SEATS :: b.ChainOk(m)
  }

  lemma UnlistSettles(b: Book, h: nat, x: Balance)
    requires b.LocksExact() && ChainsOk(b) && h in b.orders && b.OrderOk(h)
    requires 0 <= x.Free(true) && 0 <= x.Free(false)
    requires var o := b.orders[h];
      && x.Locked(true) == b.balances[o.maker].Locked(true) - o.Lock(b.p, true)
      && x.Locked(false) == b.balances[o.maker].Locked(false) - o.Lock(b.p, false)
    ensures WithBalance(Unlist(b, h), b.orders[h].maker, x).LocksExact()
  {
    var m := b.orders[h].maker;
    forall j, base | 0 <= j < |b.balances|
      ensures Unlist(b, h).ChainLock(j, base) == if j == m then x.Locked(base) else b.ChainLock(j, base)
    {
      assert b.ChainOk(j);
      UnlistLocks(b, h, j, base);
    }
    LocksFollow(b, Unlist(b, h), m, x);
  }

  lemma RestateSettles(b: Book, h: nat, lots: nat, expiry: nat, x: Balance)
    requires b.LocksExact() && ChainsOk(b) && h in b.orders && b.OrderOk(h)
    requires 0 <= x.Free(true) && 0 <= x.Free(false)
    requires var o, n := b.orders[h], b.orders[h].(lots := lots, expiry := expiry);
      && x.Locked(true) == b.balances[o.maker].Locked(true) - o.Lock(b.p, true) + n.Lock(b.p, true)
      && x.Locked(false) == b.balances[o.maker].Locked(false) - o.Lock(b.p, false) + n.Lock(b.p, false)
    ensures WithBalance(Restate(b, h, lots, expiry), b.orders[h].maker, x).LocksExact()
  {
    var m, c := b.orders[h].maker, Restate(b, h, lots, expiry);
    forall j, base | 0 <= j < |b.balances|
      ensures c.ChainLock(j, base) == if j == m then x.Locked(base) else b.ChainLock(j, base)
    {
      assert b.ChainOk(j);
      RestateLocks(b, h, lots, expiry, j, base);
    }
    LocksFollow(b, c, m, x);
  }

  lemma EnlistSettles(b: Book, side: Side, tick: nat, lots: nat, m: nat, expiry: nat, i: nat, x: Balance)
    requires b.LocksExact() && ChainsOk(b) && m < MAX_SEATS && i <= |b.chains[m]|
    requires b.free != [] && b.free[0] !in b.orders
    requires 0 <= x.Free(true) && 0 <= x.Free(false)
    requires var n := Order(side, tick, m, lots, expiry, b.issued);
      && x.Locked(true) == b.balances[m].Locked(true) + n.Lock(b.p, true)
      && x.Locked(false) == b.balances[m].Locked(false) + n.Lock(b.p, false)
    ensures WithBalance(Enlist(b, side, tick, lots, m, expiry, i), m, x).LocksExact()
  {
    var c := Enlist(b, side, tick, lots, m, expiry, i);
    forall j, base | 0 <= j < |b.balances|
      ensures c.ChainLock(j, base) == if j == m then x.Locked(base) else b.ChainLock(j, base)
    {
      assert b.ChainOk(j);
      EnlistLocks(b, side, tick, lots, m, expiry, i, j, base);
    }
    LocksFollow(b, c, m, x);
  }

  /** A maker's locked balance covers each of its orders. */
  lemma LockCovers(b: Book, h: nat, base: bool)
    requires b.LocksExact() && ChainsOk(b) && h in b.orders && b.OrderOk(h)
    ensures b.orders[h].Lock(b.p, base) <= b.balances[b.orders[h].maker].Locked(base)
  {
    var m := b.orders[h].maker;
    SumWithout(LockOf(b.p, b.orders, base), b.chains[m], h);
    assert b.balances[m].Locked(base) == b.ChainLock(m, base);
  }

  lemma KillInv(b: Book, h: nat)
    requires b.Inv() && h in b.orders
    ensures b.OrderOk(h) && b.orders[h].maker < |b.balances| && Killed(b, h).Inv()
  {
    assert b.OrderOk(h);
    UnlistStructure(b, h);
    UnlistUncrossed(b, h);
    SameStructure(Unlist(b, h), Killed(b, h));
    KillLocks(b, h);
  }

  lemma KillLocks(b: Book, h: nat)
    requires b.LocksExact() && ChainsOk(b) && h in b.orders && b.OrderOk(h)
    ensures Killed(b, h).LocksExact()
  {
    var o := b.orders[h];
    var x := b.balances[o.maker];
    assert 0 <= x.Free(true) && 0 <= x.Free(false);
    UnlistSettles(b, h, Refund(b.p, x, o.side, o.tick, o.lots));
  }

  lemma FillInv(b: Book, h: nat, lots: nat)
    requires b.Inv() && h in b.orders && 0 < lots <= b.orders[h].lots
    ensures b.OrderOk(h) && b.orders[h].maker < |b.balances| && Filled(b, h, lots).Inv()
  {
    assert b.OrderOk(h);
    FillStructure(b, h, lots);
    FillLocks(b, h, lots);
  }

  lemma FillStructure(b: Book, h: nat, lots: nat)
    requires b.Structure() && b.Uncrossed()
    requires h in b.orders && b.OrderOk(h) && 0 < lots <= b.orders[h].lots && b.orders[h].maker < |b.balances|
    ensures Filled(b, h, lots).Structure() && Filled(b, h, lots).Uncrossed()
  {
    hide Book.Structure, Book.Uncrossed, Unlist, Restate;
    var o := b.orders[h];
    if lots == o.lots {
      UnlistStructure(b, h);
      UnlistUncrossed(b, h);
      SameStructure(Unlist(b, h), Filled(b, h, lots));
    } else {
      RestateStructure(b, h, o.lots - lots, o.expiry);
      RestateUncrossed(b, h, o.lots - lots, o.expiry);
      SameStructure(Restate(b, h, o.lots - lots, o.expiry), Filled(b, h, lots));
    }
  }

  lemma RestateUncrossed(b: Book, h: nat, lots: nat, expiry: nat)
    requires h in b.orders && b.Uncrossed()
    ensures Restate(b, h, lots, expiry).Uncrossed()
  {}

  lemma FillLocks(b: Book, h: nat, lots: nat)
    requires b.LocksExact() && ChainsOk(b) && h in b.orders && b.OrderOk(h) && 0 < lots <= b.orders[h].lots
    ensures Filled(b, h, lots).LocksExact()
  {
    var o := b.orders[h];
    var x := b.balances[o.maker];
    assert 0 <= x.Free(true) && 0 <= x.Free(false);
    if lots == o.lots {
      UnlistSettles(b, h, x.Settle(b.p, o.side, o.tick, lots));
    } else {
      AtomsAdd(b.p, o.side, o.tick, o.lots - lots, lots);
      RestateSettles(b, h, o.lots - lots, o.expiry, x.Settle(b.p, o.side, o.tick, lots));
    }
  }

  lemma AmendInv(b: Book, h: nat, lots: nat, expiry: nat)
    requires b.Inv() && h in b.orders && 0 < lots <= b.orders[h].lots && expiry <= U32_MAX
    ensures b.orders[h].maker < |b.balances| && Amended(b, h, lots, expiry).Inv()
  {
    assert b.OrderOk(h);
    RestateStructure(b, h, lots, expiry);
    RestateUncrossed(b, h, lots, expiry);
    SameStructure(Restate(b, h, lots, expiry), Amended(b, h, lots, expiry));
    AmendLocks(b, h, lots, expiry);
  }

  lemma AmendLocks(b: Book, h: nat, lots: nat, expiry: nat)
    requires b.LocksExact() && ChainsOk(b) && h in b.orders && b.OrderOk(h) && 0 < lots <= b.orders[h].lots
    ensures Amended(b, h, lots, expiry).LocksExact()
  {
    var o := b.orders[h];
    var x := b.balances[o.maker];
    assert 0 <= x.Free(true) && 0 <= x.Free(false);
    AtomsAdd(b.p, o.side, o.tick, o.lots - lots, lots);
    RestateSettles(b, h, lots, expiry, Refund(b.p, x, o.side, o.tick, o.lots - lots));
  }

  lemma PostInv(b: Book, side: Side, tick: nat, lots: nat, m: nat, expiry: nat, i: nat)
    requires b.Inv() && CanPost(b, side, tick, lots, m, expiry, i) && CanPay(b, side, tick, lots, m)
    requires b.free != []
    ensures Posted(b, side, tick, lots, m, expiry, i).Inv()
  {
    hide Book.Structure, Book.LocksExact, Book.Uncrossed, Params.Ok, CanPay;
    FreeHeadNotLive(b);
    EnlistStructure(b, side, tick, lots, m, expiry, i);
    PostLocks(b, side, tick, lots, m, expiry, i);
    EnlistUncrossed(b, side, tick, lots, m, expiry, i);
    SameStructure(Enlist(b, side, tick, lots, m, expiry, i), Posted(b, side, tick, lots, m, expiry, i));
  }

  lemma FreeHeadNotLive(b: Book)
    requires b.Structure() && b.LocksExact() && b.free != []
    ensures b.free[0] !in b.orders && ChainsOk(b) && |b.chains| == |b.balances| == MAX_SEATS
  {
    assert b.free[0] in b.free;
  }

  lemma EnlistUncrossed(b: Book, side: Side, tick: nat, lots: nat, m: nat, expiry: nat, i: nat)
    requires b.Uncrossed() && b.free != [] && m < |b.chains| && i <= |b.chains[m]|
    requires side.Bid? ==> forall t | t in b.asks :: tick < t
    requires side.Ask? ==> forall t | t in b.bids :: t < tick
    ensures Enlist(b, side, tick, lots, m, expiry, i).Uncrossed()
  {}

  lemma PostLocks(b: Book, side: Side, tick: nat, lots: nat, m: nat, expiry: nat, i: nat)
    requires b.LocksExact() && ChainsOk(b) && m < MAX_SEATS && i <= |b.chains[m]|
    requires b.free != [] && b.free[0] !in b.orders && CanPay(b, side, tick, lots, m)
    ensures Posted(b, side, tick, lots, m, expiry, i).LocksExact()
  {
    var x := b.balances[m];
    assert 0 <= x.Free(true) && 0 <= x.Free(false);
    EnlistSettles(b, side, tick, lots, m, expiry, i, Lock(b.p, x, side, tick, lots));
  }

  /** What the invariant says about one order. */
  lemma OrderFacts(b: Book, h: nat)
    requires b.Inv() && h in b.orders
    ensures b.OrderOk(h) && |b.chains| == |b.balances| == MAX_SEATS
    ensures 0 < b.orders[h].tick && 0 < b.p.tickSize
  {}

  // ---- the operations ----

  /** End an order and refund its lock. */
  ghost function Kill(b: Book, h: nat): (c: Book)
    requires b.Inv() && h in b.orders
    ensures c.Inv() && c.p == b.p && c.anchor == b.anchor && |c.orders| < |b.orders|
  {
    KillInv(b, h);
    assert Killed(b, h).orders == b.orders - {h};
    Killed(b, h)
  }

  /** Match `lots` of a resting order: settle the maker, shrink or remove the order. */
  ghost function Fill(b: Book, h: nat, lots: nat): (c: Book)
    requires b.Inv() && h in b.orders && 0 < lots <= b.orders[h].lots
    ensures c.Inv() && c.p == b.p && c.anchor == b.anchor && |c.orders| <= |b.orders|
  {
    FillInv(b, h, lots);
    Filled(b, h, lots)
  }

  /** Set a size no larger than the present one, and the expiry, in place. */
  ghost function Amend(b: Book, h: nat, lots: nat, expiry: nat): (c: Book)
    requires b.Inv() && h in b.orders && 0 < lots <= b.orders[h].lots && expiry <= U32_MAX
    ensures c.Inv() && c.p == b.p && c.anchor == b.anchor
  {
    AmendInv(b, h, lots, expiry);
    Amended(b, h, lots, expiry)
  }

  /** Lock the funds and rest a new order at the tail of its queue. */
  ghost function Post(b: Book, side: Side, tick: nat, lots: nat, m: nat, expiry: nat, i: nat): (c: Book)
    requires b.Inv() && CanPost(b, side, tick, lots, m, expiry, i) && CanPay(b, side, tick, lots, m)
    requires b.free != []
    ensures c.Inv() && c.p == b.p && c.anchor == b.anchor
  {
    PostInv(b, side, tick, lots, m, expiry, i);
    Posted(b, side, tick, lots, m, expiry, i)
  }
}
