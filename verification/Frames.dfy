/** What an operation leaves alone: ownership, identities and other makers. */
module Frames {
  import opened Base
  import opened Seqs
  import opened Books
  import opened Changes
  import opened Ops

  /** No order id is reused: an order of `c` was in `b` with that identity, or is newer than `b`. */
  ghost predicate Later(b: Book, c: Book) {
    && c.p == b.p && b.issued <= c.issued
    && forall h | h in c.orders ::
         || b.issued <= c.orders[h].stamp
         || (h in b.orders && b.orders[h].SameIdentity(c.orders[h]) && c.orders[h].lots <= b.orders[h].lots)
  }

  /** No seat gained or lost anything; funds moved only between free and locked. */
  ghost predicate SameOwned(b: Book, c: Book) {
    && |b.balances| == |c.balances| && c.fees == b.fees
    && forall j, base | 0 <= j < |b.balances| :: c.balances[j].Owned(base) == b.balances[j].Owned(base)
  }

  /** An operation that keeps the invariant, trades nothing and reuses no id. */
  ghost predicate Quiet(b: Book, c: Book) {
    c.Inv() && c.anchor == b.anchor && Later(b, c) && SameOwned(b, c)
  }

  lemma LaterTrans(b: Book, c: Book, d: Book)
    requires Later(b, c) && Later(c, d)
    ensures Later(b, d)
  {}

  lemma QuietTrans(b: Book, c: Book, d: Book)
    requires Quiet(b, c) && Quiet(c, d)
    ensures Quiet(b, d)
  {
    LaterTrans(b, c, d);
    forall j, base | 0 <= j < |b.balances|
      ensures d.balances[j].Owned(base) == b.balances[j].Owned(base)
    {
      assert c.balances[j].Owned(base) == b.balances[j].Owned(base);
    }
  }

  lemma {:induction false} OwnedSums(s: seq<Balance>, t: seq<Balance>, base: bool)
    requires |s| == |t| && forall j | 0 <= j < |s| :: s[j].Owned(base) == t[j].Owned(base)
    ensures SumOwned(s, base) == SumOwned(t, base)
  {
    if s != [] { OwnedSums(s[1..], t[1..], base); }
  }

  /** Quiet operations conserve every asset. */
  lemma QuietConserves(b: Book, c: Book, base: bool)
    requires SameOwned(b, c)
    ensures c.Claims(base) == b.Claims(base)
  {
    OwnedSums(b.balances, c.balances, base);
  }

  lemma SameOwnedBy(b: Book, c: Book, m: nat, x: Balance)
    requires m < |b.balances| && c.balances == b.balances[m := x] && c.fees == b.fees
    requires x.Owned(true) == b.balances[m].Owned(true) && x.Owned(false) == b.balances[m].Owned(false)
    ensures SameOwned(b, c)
  {}

  lemma UnlistLater(b: Book, h: nat)
    requires h in b.orders && b.OrderOk(h)
    ensures Later(b, Unlist(b, h))
  {}

  lemma RestateLater(b: Book, h: nat, lots: nat, expiry: nat)
    requires h in b.orders && lots <= b.orders[h].lots
    ensures Later(b, Restate(b, h, lots, expiry))
  {}

  /** `Later` looks only at the parameters, the id counter and the orders. */
  lemma LaterSame(b: Book, u: Book, c: Book)
    requires Later(b, u) && c.p == u.p && c.issued == u.issued && c.orders == u.orders
    ensures Later(b, c)
  {}

  lemma EnlistLater(b: Book, side: Side, tick: nat, lots: nat, m: nat, expiry: nat, i: nat)
    requires b.free != [] && m < |b.chains| && i <= |b.chains[m]|
    ensures Later(b, Enlist(b, side, tick, lots, m, expiry, i))
  {}

  lemma KillQuiet(b: Book, h: nat)
    requires b.Inv() && h in b.orders
    ensures Quiet(b, Kill(b, h))
  {
    assert b.OrderOk(h);
    UnlistMoves(b, h);
  }

  lemma UnlistMoves(b: Book, h: nat)
    requires h in b.orders && b.OrderOk(h) && b.orders[h].maker < |b.balances|
    ensures Later(b, Killed(b, h)) && SameOwned(b, Killed(b, h))
  {
    var o := b.orders[h];
    UnlistLater(b, h);
    LaterSame(b, Unlist(b, h), Killed(b, h));
    SameOwnedBy(b, Killed(b, h), o.maker, Refund(b.p, b.balances[o.maker], o.side, o.tick, o.lots));
  }

  lemma AmendQuiet(b: Book, h: nat, lots: nat, expiry: nat)
    requires b.Inv() && h in b.orders && 0 < lots <= b.orders[h].lots && expiry <= U32_MAX
    ensures Quiet(b, Amend(b, h, lots, expiry))
  {
    assert b.OrderOk(h);
    RestateMoves(b, h, lots, expiry);
  }

  lemma RestateMoves(b: Book, h: nat, lots: nat, expiry: nat)
    requires h in b.orders && b.orders[h].maker < |b.balances| && 0 < lots <= b.orders[h].lots
    ensures Later(b, Amended(b, h, lots, expiry)) && SameOwned(b, Amended(b, h, lots, expiry))
  {
    var o, c := b.orders[h], Amended(b, h, lots, expiry);
    RestateLater(b, h, lots, expiry);
    LaterSame(b, Restate(b, h, lots, expiry), c);
    SameOwnedBy(b, c, o.maker, Refund(b.p, b.balances[o.maker], o.side, o.tick, o.lots - lots));
  }

  lemma PostQuiet(b: Book, side: Side, tick: nat, lots: nat, m: nat, expiry: nat, i: nat)
    requires b.Inv() && CanPost(b, side, tick, lots, m, expiry, i) && CanPay(b, side, tick, lots, m)
    requires b.free != []
    ensures Quiet(b, Post(b, side, tick, lots, m, expiry, i))
  {
    EnlistMoves(b, side, tick, lots, m, expiry, i);
  }

  lemma EnlistMoves(b: Book, side: Side, tick: nat, lots: nat, m: nat, expiry: nat, i: nat)
    requires b.free != [] && m < |b.chains| == |b.balances| && i <= |b.chains[m]|
    ensures var c := Posted(b, side, tick, lots, m, expiry, i); Later(b, c) && SameOwned(b, c)
  {
    var u, c := Enlist(b, side, tick, lots, m, expiry, i), Posted(b, side, tick, lots, m, expiry, i);
    EnlistLater(b, side, tick, lots, m, expiry, i);
    LaterSame(b, u, c);
    SameOwnedBy(b, c, m, Lock(b.p, b.balances[m], side, tick, lots));
  }

  // ---- other makers ----

  ghost function Queue(b: Book, side: Side, t: nat): seq<nat> {
    if t in b.Levels(side) then b.Levels(side)[t] else []
  }

  ghost function ForeignTo(orders: map<nat, Order>, m: nat): nat -> bool {
    h => h in orders && orders[h].maker != m
  }

  /** The orders of other makers in one queue, in queue order. */
  ghost function Foreign(b: Book, side: Side, t: nat, m: nat): seq<nat> {
    Filter(ForeignTo(b.orders, m), Queue(b, side, t))
  }

  /** Orders, balances, chains and queue order of every maker but `m` are untouched. */
  ghost predicate OthersKept(b: Book, c: Book, m: nat) {
    && (forall h | h in b.orders && b.orders[h].maker != m :: h in c.orders && c.orders[h] == b.orders[h])
    && (forall h | h in c.orders && c.orders[h].maker != m :: h in b.orders && b.orders[h] == c.orders[h])
    && |b.balances| == |c.balances| && |b.chains| == |c.chains|
    && (forall j | 0 <= j < |b.balances| && j != m :: c.balances[j] == b.balances[j])
    && (forall j | 0 <= j < |b.chains| && j != m :: c.chains[j] == b.chains[j])
    && (forall side, t :: Foreign(c, side, t, m) == Foreign(b, side, t, m))
  }

  lemma OthersTrans(b: Book, c: Book, d: Book, m: nat)
    requires OthersKept(b, c, m) && OthersKept(c, d, m)
    ensures OthersKept(b, d, m)
  {
    forall side, t
      ensures Foreign(d, side, t, m) == Foreign(b, side, t, m)
    {
      assert Foreign(c, side, t, m) == Foreign(b, side, t, m);
    }
  }

  lemma UnlistForeign(b: Book, h: nat, side: Side, t: nat)
    requires h in b.orders && b.OrderOk(h)
    requires t in b.Levels(side) ==> b.QueueOk(side, t)
    ensures Foreign(Unlist(b, h), side, t, b.orders[h].maker) == Foreign(b, side, t, b.orders[h].maker)
  {
    var o, c := b.orders[h], Unlist(b, h);
    var f, g := ForeignTo(b.orders, o.maker), ForeignTo(c.orders, o.maker);
    var q := Queue(b, side, t);
    if side == o.side && t == o.tick {
      QueueDistinct(b, side, t);
      WithoutMembers(q, h);
      FilterWithout(f, q, h);
    }
    FilterSame(f, g, Queue(c, side, t));
  }

  ghost predicate QueuesOk(b: Book) {
    (forall t | t in b.bids :: b.QueueOk(Bid, t)) && (forall t | t in b.asks :: b.QueueOk(Ask, t))
  }

  lemma UnlistForeigns(b: Book, h: nat, c: Book)
    requires h in b.orders && b.OrderOk(h) && QueuesOk(b)
    requires c.orders == Unlist(b, h).orders && c.bids == Unlist(b, h).bids && c.asks == Unlist(b, h).asks
    ensures forall side, t :: Foreign(c, side, t, b.orders[h].maker) == Foreign(b, side, t, b.orders[h].maker)
  {
    hide Unlist, Foreign, Book.QueueOk, Book.OrderOk;
    forall side, t
      ensures Foreign(c, side, t, b.orders[h].maker) == Foreign(b, side, t, b.orders[h].maker)
    {
      if t in b.Levels(side) { assert b.QueueOk(side, t); }
      UnlistForeign(b, h, side, t);
      SameForeign(Unlist(b, h), c, side, t, b.orders[h].maker);
    }
  }

  lemma SameForeign(b: Book, c: Book, side: Side, t: nat, m: nat)
    requires c.orders == b.orders && c.bids == b.bids && c.asks == b.asks
    ensures Foreign(c, side, t, m) == Foreign(b, side, t, m)
  {}

  lemma UnlistOthers(b: Book, h: nat, x: Balance)
    requires h in b.orders && b.OrderOk(h) && QueuesOk(b) && |b.balances| == |b.chains|
    ensures OthersKept(b, WithBalance(Unlist(b, h), b.orders[h].maker, x), b.orders[h].maker)
  {
    UnlistForeigns(b, h, WithBalance(Unlist(b, h), b.orders[h].maker, x));
  }

  lemma KillOthers(b: Book, h: nat)
    requires b.Inv() && h in b.orders
    ensures OthersKept(b, Kill(b, h), b.orders[h].maker)
  {
    var o := b.orders[h];
    assert b.OrderOk(h) && QueuesOk(b);
    UnlistOthers(b, h, Refund(b.p, b.balances[o.maker], o.side, o.tick, o.lots));
  }

  lemma RestateOthers(b: Book, h: nat, lots: nat, expiry: nat, x: Balance)
    requires h in b.orders && b.OrderOk(h) && |b.balances| == |b.chains|
    ensures OthersKept(b, WithBalance(Restate(b, h, lots, expiry), b.orders[h].maker, x), b.orders[h].maker)
  {
    var m := b.orders[h].maker;
    var c := WithBalance(Restate(b, h, lots, expiry), m, x);
    forall side, t
      ensures Foreign(c, side, t, m) == Foreign(b, side, t, m)
    {
      FilterSame(ForeignTo(b.orders, m), ForeignTo(c.orders, m), Queue(b, side, t));
      assert Queue(c, side, t) == Queue(b, side, t);
    }
  }

  lemma AmendOthers(b: Book, h: nat, lots: nat, expiry: nat)
    requires b.Inv() && h in b.orders && 0 < lots <= b.orders[h].lots && expiry <= U32_MAX
    ensures OthersKept(b, Amend(b, h, lots, expiry), b.orders[h].maker)
  {
    hide Book.Inv;
    OrderFacts(b, h);
    var o := b.orders[h];
    RestateOthers(b, h, lots, expiry, Refund(b.p, b.balances[o.maker], o.side, o.tick, o.lots - lots));
  }

  lemma EnlistForeign(b: Book, side: Side, tick: nat, lots: nat, m: nat, expiry: nat, i: nat, s: Side, t: nat)
    requires b.free != [] && b.free[0] !in b.orders && m < |b.chains| && i <= |b.chains[m]|
    requires t in b.Levels(s) ==> b.QueueOk(s, t)
    ensures Foreign(Enlist(b, side, tick, lots, m, expiry, i), s, t, m) == Foreign(b, s, t, m)
  {
    var c, q := Enlist(b, side, tick, lots, m, expiry, i), Queue(b, s, t);
    FilterSame(ForeignTo(b.orders, m), ForeignTo(c.orders, m), q);
    if s == side && t == tick {
      assert Queue(c, s, t) == q + [b.free[0]];
      FilterConcat(ForeignTo(c.orders, m), q, [b.free[0]]);
    }
  }

  lemma EnlistOthers(b: Book, side: Side, tick: nat, lots: nat, m: nat, expiry: nat, i: nat, x: Balance)
    requires b.free != [] && b.free[0] !in b.orders && m < |b.chains| && i <= |b.chains[m]|
    requires QueuesOk(b) && |b.balances| == |b.chains|
    ensures OthersKept(b, WithBalance(Enlist(b, side, tick, lots, m, expiry, i), m, x), m)
  {
    var u := Enlist(b, side, tick, lots, m, expiry, i);
    var c := WithBalance(u, m, x);
    forall s, t
      ensures Foreign(c, s, t, m) == Foreign(b, s, t, m)
    {
      if t in b.Levels(s) { assert b.QueueOk(s, t); }
      EnlistForeign(b, side, tick, lots, m, expiry, i, s, t);
      assert Queue(c, s, t) == Queue(u, s, t);
    }
  }

  lemma PostOthers(b: Book, side: Side, tick: nat, lots: nat, m: nat, expiry: nat, i: nat)
    requires b.Inv() && CanPost(b, side, tick, lots, m, expiry, i) && CanPay(b, side, tick, lots, m)
    requires b.free != []
    ensures OthersKept(b, Post(b, side, tick, lots, m, expiry, i), m)
  {
    assert b.free[0] in b.free && QueuesOk(b);
    EnlistOthers(b, side, tick, lots, m, expiry, i, Lock(b.p, b.balances[m], side, tick, lots));
  }

  // ---- claims cover every balance ----

  lemma FeesKept(b: Book)
    requires b.Inv()
    ensures 0 <= b.fees
  {}

  lemma {:induction false} OwnedNonNegative(s: seq<Balance>, base: bool)
    requires forall j | 0 <= j < |s| :: 0 <= s[j].Owned(base)
    ensures 0 <= SumOwned(s, base)
    ensures forall j | 0 <= j < |s| :: s[j].Owned(base) <= SumOwned(s, base)
  {
    if s != [] { OwnedNonNegative(s[1..], base); }
  }

  /** Each balance, and the fees, are within the claims. */
  lemma ClaimsCover(b: Book, base: bool)
    requires b.Inv()
    ensures 0 <= b.Claims(base) && (forall j | 0 <= j < |b.balances| :: 0 <= b.balances[j].Free(base) <= b.Claims(base))
    ensures 0 <= b.fees <= b.Claims(false)
  {
    OwnedAll(b, base);
    OwnedAll(b, false);
    OwnedNonNegative(b.balances, base);
    OwnedNonNegative(b.balances, false);
    FeesKept(b);
  }

  lemma OwnedAll(b: Book, base: bool)
    requires b.Inv()
    ensures forall j | 0 <= j < |b.balances| :: 0 <= b.balances[j].Free(base) <= b.balances[j].Owned(base)
  {
    forall j | 0 <= j < |b.balances|
      ensures 0 <= b.balances[j].Free(base) <= b.balances[j].Owned(base)
    {
      assert b.balances[j].Locked(base) == b.ChainLock(j, base);
    }
  }

  // ---- accruing fees ----

  lemma FeesInv(b: Book, fee: nat)
    requires b.Inv()
    ensures b.(fees := b.fees + fee).Inv()
  {
    var c := b.(fees := b.fees + fee);
    SameStructure(b, c);
    assert c.LocksExact() by { FeesLocks(b, fee); }
  }

  lemma FeesLocks(b: Book, fee: nat)
    requires b.LocksExact()
    ensures b.(fees := b.fees + fee).LocksExact()
  {
    var c := b.(fees := b.fees + fee);
    forall j, base | 0 <= j < |c.balances|
      ensures c.balances[j].Locked(base) == c.ChainLock(j, base) && 0 <= c.balances[j].Free(base)
    {
      assert b.balances[j].Locked(base) == b.ChainLock(j, base);
    }
  }
}
