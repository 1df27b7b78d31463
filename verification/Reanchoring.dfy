/** `reanchor_step`: moving the price window, word by word. */
module Reanchoring {
  import opened Base
  import opened Bitmaps
  import opened Seqs
  import opened Books
  import opened Ops
  import opened Frames
  import opened Hygiene

  // ---- evicting ----

  lemma HeadLive(b: Book, side: Side, t: nat)
    requires b.Inv() && t in b.Levels(side)
    ensures b.Levels(side)[t] != [] && b.Levels(side)[t][0] in b.orders && b.InWindow(t)
    ensures var o := b.orders[b.Levels(side)[t][0]]; o.side == side && o.tick == t
  {
    assert b.QueueOk(side, t);
    assert b.Levels(side)[t][0] in b.Levels(side)[t];
    assert b.OrderOk(b.Levels(side)[t][0]);
  }

  lemma LevelGone(b: Book, side: Side, t: nat)
    requires b.Inv() && t !in b.Levels(side)
    ensures forall h | h in b.orders :: b.orders[h].side != side || b.orders[h].tick != t
  {
    hide Book.Inv;
    forall h | h in b.orders ensures b.orders[h].side != side || b.orders[h].tick != t { OrderFacts(b, h); }
  }

  lemma HeadEvicts(b: Book, side: Side, t: nat)
    requires b.Inv() && t in b.Levels(side)
    ensures b.Levels(side)[t] != [] && b.Levels(side)[t][0] in b.orders
    ensures var c := Kill(b, b.Levels(side)[t][0]);
      && Removed(b, c) && |c.orders| < |b.orders|
      && forall h | h in b.orders && (b.orders[h].side != side || b.orders[h].tick != t) ::
           h in c.orders && c.orders[h] == b.orders[h]
  {
    hide Book.Inv, Kill, Removed;
    HeadLive(b, side, t);
    KillRemoves(b, b.Levels(side)[t][0]);
  }

  /** `evict_level`: kill from the head while the tick is occupied. */
  ghost function EvictLevel(b: Book, side: Side, t: nat): (c: Book)
    requires b.Inv()
    ensures Removed(b, c) && c.Inv()
    ensures forall h | h in c.orders :: c.orders[h].side != side || c.orders[h].tick != t
    ensures forall h | h in b.orders && (b.orders[h].side != side || b.orders[h].tick != t) :: h in c.orders
    decreases |b.orders|
  {
    hide Book.Inv, Kill, Removed, Book.InWindow;
    if t in b.Levels(side) then
      HeadEvicts(b, side, t);
      var h := b.Levels(side)[t][0];
      var c := EvictLevel(Kill(b, h), side, t);
      RemovedTrans(b, Kill(b, h), c);
      c
    else
      LevelGone(b, side, t);
      RemovedSelf(b);
      b
  }

  /** Both sides of `n` ticks from `t` on. */
  ghost function EvictTicks(b: Book, t: nat, n: nat): (c: Book)
    requires b.Inv()
    ensures Removed(b, c) && c.Inv()
    ensures forall h | h in c.orders :: !(t <= c.orders[h].tick < t + n)
    ensures forall h | h in b.orders && !(t <= b.orders[h].tick < t + n) :: h in c.orders
    decreases n
  {
    hide Book.Inv, Kill, Thinned, Quiet, EvictLevel;
    if n == 0 then RemovedSelf(b); b
    else
      var d := EvictLevel(EvictLevel(b, Bid, t), Ask, t);
      EvictedTick(b, t);
      var c := EvictTicks(d, t + 1, n - 1);
      RemovedTrans(b, d, c);
      RemovedOrders(d, c);
      RemovedOrders(b, d);
      c
  }

  lemma RemovedOrders(b: Book, c: Book)
    requires Removed(b, c)
    ensures forall h | h in c.orders :: h in b.orders && c.orders[h] == b.orders[h]
  {}

  lemma EvictedTick(b: Book, t: nat)
    requires b.Inv()
    ensures var d := EvictLevel(EvictLevel(b, Bid, t), Ask, t);
      && Removed(b, d)
      && (forall h | h in d.orders :: d.orders[h].tick != t)
      && (forall h | h in b.orders && b.orders[h].tick != t :: h in d.orders)
  {
    hide Book.Inv, Kill, Thinned, Quiet;
    var c := EvictLevel(b, Bid, t);
    var d := EvictLevel(c, Ask, t);
    RemovedTrans(b, c, d);
    RemovedOrders(c, d);
    RemovedOrders(b, c);
  }

  // ---- moving the window ----

  lemma MovedInv(b: Book, anchor: nat)
    requires b.Inv() && anchor % 64 == 0 && 64 <= anchor && anchor + WINDOW_MASK <= b.p.tickLimit
    requires forall h | h in b.orders :: anchor <= b.orders[h].tick <= anchor + WINDOW_MASK
    ensures b.(anchor := anchor).Inv()
  {
    var c := b.(anchor := anchor);
    MovedStructure(b, anchor);
    assert c.p.Ok() && c.WindowOk() && c.Uncrossed();
    MovedLocks(b, anchor);
  }

  lemma MovedQueue(b: Book, anchor: nat, side: Side, t: nat)
    requires t in b.Levels(side) && b.QueueOk(side, t)
    ensures b.(anchor := anchor).QueueOk(side, t)
  {}

  lemma MovedChain(b: Book, anchor: nat, m: nat)
    requires m < |b.chains| && b.ChainOk(m)
    ensures b.(anchor := anchor).ChainOk(m)
  {}

  lemma MovedOrder(b: Book, anchor: nat, h: nat)
    requires h in b.orders && b.OrderOk(h) && anchor <= b.orders[h].tick <= anchor + WINDOW_MASK
    ensures b.(anchor := anchor).OrderOk(h)
  {}

  lemma MovedStructure(b: Book, anchor: nat)
    requires b.Structure()
    requires forall h | h in b.orders :: anchor <= b.orders[h].tick <= anchor + WINDOW_MASK
    ensures b.(anchor := anchor).Structure()
  {
    hide Book.OrderOk, Book.QueueOk, Book.ChainOk;
    var c := b.(anchor := anchor);
    forall h | h in c.orders ensures c.OrderOk(h) { MovedOrder(b, anchor, h); }
    forall t | t in c.bids ensures c.QueueOk(Bid, t) { MovedQueue(b, anchor, Bid, t); }
    forall t | t in c.asks ensures c.QueueOk(Ask, t) { MovedQueue(b, anchor, Ask, t); }
    forall m | 0 <= m < MAX_SEATS ensures c.ChainOk(m) { MovedChain(b, anchor, m); }
    assert b.FreeOk() && c.FreeOk();
  }

  lemma MovedLocks(b: Book, anchor: nat)
    requires b.LocksExact()
    ensures b.(anchor := anchor).LocksExact()
  {
    var c := b.(anchor := anchor);
    forall m, base | 0 <= m < |c.balances|
      ensures c.balances[m].Locked(base) == c.ChainLock(m, base) && 0 <= c.balances[m].Free(base)
    {
      assert b.balances[m].Locked(base) == b.ChainLock(m, base);
    }
  }

  /** The clamped, aligned target of a move. */
  function Ideal(p: Params, target: nat): nat
    requires WINDOW_MASK <= p.tickLimit
  {
    Min(Max(target / 64 * 64, 64), (p.tickLimit - WINDOW_MASK) / 64 * 64)
  }

  /** The word a move by 64 ticks leaves behind. */
  function Leaving(anchor: nat, up: bool): nat { if up then anchor else anchor + WINDOW_MASK - 63 }

  predicate CanSlide(anchor: nat, up: bool, limit: nat) {
    anchor % 64 == 0 && if up then anchor + 64 + WINDOW_MASK <= limit else 128 <= anchor
  }

  /** Vacate one word and move the window off it. */
  ghost function SlideWord(b: Book, up: bool): (c: Book)
    requires b.Inv() && CanSlide(b.anchor, up, b.p.tickLimit)
    ensures c.Inv() && c.p == b.p && c.anchor == Shifted(b.anchor, up)
    ensures |c.orders| <= |b.orders|
  {
    hide Book.Inv, EvictTicks, Thinned, SameOwned;
    var d := EvictTicks(b, Leaving(b.anchor, up), 64);
    WordLeft(d, b.anchor, up);
    MovedInv(d, Shifted(b.anchor, up));
    d.(anchor := Shifted(b.anchor, up))
  }

  function Shifted(anchor: nat, up: bool): int { if up then anchor + 64 else anchor - 64 }

  lemma WordLeft(d: Book, anchor: nat, up: bool)
    requires d.Inv() && d.anchor == anchor && CanSlide(anchor, up, d.p.tickLimit)
    requires forall h | h in d.orders :: !(Leaving(anchor, up) <= d.orders[h].tick < Leaving(anchor, up) + 64)
    ensures var to := Shifted(anchor, up);
      && to % 64 == 0 && 64 <= to && to + WINDOW_MASK <= d.p.tickLimit
      && forall h | h in d.orders :: to <= d.orders[h].tick <= to + WINDOW_MASK
  {
    hide Book.Inv;
    AnchorAligned(d);
    Aligned(anchor);
    forall h | h in d.orders ensures d.InWindow(d.orders[h].tick) { OrderFacts(d, h); }
  }

  lemma Aligned(anchor: nat)
    requires anchor % 64 == 0 && 64 <= anchor
    ensures (anchor + 64) % 64 == 0 && (anchor - 64) % 64 == 0
  {}

  /** Between two aligned anchors lies at least one word. */
  lemma Toward(anchor: nat, ideal: nat, limit: nat)
    requires anchor % 64 == 0 && ideal % 64 == 0 && 64 <= ideal && anchor != ideal
    requires ideal + WINDOW_MASK <= limit
    ensures if anchor < ideal then anchor + 64 <= ideal else ideal + 64 <= anchor
    ensures CanSlide(anchor, anchor < ideal, limit)
  {
    assert anchor == anchor / 64 * 64 && ideal == ideal / 64 * 64;
  }

  ghost predicate MoveOk(b: Book, ideal: nat) {
    b.Inv() && ideal % 64 == 0 && 64 <= ideal && ideal + WINDOW_MASK <= b.p.tickLimit
  }

  /** `reanchor_step`'s loop: whole words while the budget of evicted orders lasts. */
  ghost function Reanchor(b: Book, ideal: nat, evicted: nat, budget: nat): (r: (Book, nat))
    requires MoveOk(b, ideal)
    ensures MoveOk(r.0, ideal)
    decreases if ideal < b.anchor then b.anchor - ideal else ideal - b.anchor
  {
    hide Book.Inv, SlideWord;
    if b.anchor == ideal || budget <= evicted then (b, evicted)
    else
      AnchorAligned(b);
      Toward(b.anchor, ideal, b.p.tickLimit);
      var c := SlideWord(b, b.anchor < ideal);
      Reanchor(c, ideal, evicted + |b.orders| - |c.orders|, budget)
  }

  lemma Unfolds(b: Book, ideal: nat, evicted: nat, budget: nat)
    requires MoveOk(b, ideal) && b.anchor != ideal && evicted < budget
    requires CanSlide(b.anchor, b.anchor < ideal, b.p.tickLimit)
    requires var c := SlideWord(b, b.anchor < ideal);
      MoveOk(c, ideal) && |c.orders| <= |b.orders|
    ensures var c := SlideWord(b, b.anchor < ideal);
      Reanchor(b, ideal, evicted, budget) == Reanchor(c, ideal, evicted + |b.orders| - |c.orders|, budget)
  {
    hide Book.Inv, SlideWord;
  }

  lemma MoveEnds(b: Book, ideal: nat, evicted: nat, budget: nat)
    requires MoveOk(b, ideal) && (b.anchor == ideal || budget <= evicted)
    ensures Reanchor(b, ideal, evicted, budget) == (b, evicted)
  {
    hide Book.Inv;
  }

  lemma AnchorAligned(b: Book)
    requires b.Inv()
    ensures b.anchor % 64 == 0 && 64 <= b.anchor && b.anchor + WINDOW_MASK <= b.p.tickLimit
  {}

  // ---- what a move leaves ----

  /** Orders only left, refunded exactly; the window may have moved. */
  ghost predicate Left(b: Book, c: Book) {
    Later(b, c) && SameOwned(b, c) && Thinned(b, c) && |c.orders| <= |b.orders|
  }

  lemma LeftTrans(b: Book, c: Book, d: Book)
    requires Left(b, c) && Left(c, d)
    ensures Left(b, d)
  {
    hide Thinned;
    LaterTrans(b, c, d);
    ThinnedTrans(b, c, d);
    forall j, base | 0 <= j < |b.balances|
      ensures d.balances[j].Owned(base) == b.balances[j].Owned(base)
    {
      assert c.balances[j].Owned(base) == b.balances[j].Owned(base);
    }
  }

  /** Exactly the orders inside the window of `c` are left. */
  ghost predicate Restricted(b: Book, c: Book) {
    forall h | h in b.orders :: h in c.orders <==> c.InWindow(b.orders[h].tick)
  }

  lemma SlideLeaves(b: Book, up: bool)
    requires b.Inv() && CanSlide(b.anchor, up, b.p.tickLimit)
    ensures Left(b, SlideWord(b, up)) && Restricted(b, SlideWord(b, up))
  {
    hide Book.Inv, EvictTicks;
    var d, c := EvictTicks(b, Leaving(b.anchor, up), 64), SlideWord(b, up);
    RemovedLeft(b, d, c);
    RemovedOrders(b, d);
    forall h | h in b.orders
      ensures h in c.orders <==> c.InWindow(b.orders[h].tick)
    {
      OrderFacts(b, h);
    }
  }

  lemma RemovedLeft(b: Book, d: Book, c: Book)
    requires Removed(b, d) && c == d.(anchor := c.anchor)
    ensures Left(b, c)
  {
    hide Book.Inv, Filter;
    assert forall side, t :: Queue(c, side, t) == Queue(d, side, t);
  }

  lemma LeftSelf(b: Book)
    requires b.Inv()
    ensures Left(b, b)
  {
    RemovedSelf(b);
  }

  /** Distance still to go. */
  function Gap(anchor: nat, ideal: nat): nat { if anchor < ideal then ideal - anchor else anchor - ideal }

  /** One word of a move. */
  lemma SlideStep(b: Book, ideal: nat)
    requires MoveOk(b, ideal) && b.anchor != ideal
    ensures CanSlide(b.anchor, b.anchor < ideal, b.p.tickLimit)
    ensures var c := SlideWord(b, b.anchor < ideal);
      && MoveOk(c, ideal) && Gap(c.anchor, ideal) + 64 == Gap(b.anchor, ideal)
      && Left(b, c) && Restricted(b, c)
      && (c.anchor == ideal || (c.anchor < ideal) == (b.anchor < ideal))
  {
    hide Book.Inv, SlideWord, Left, Restricted;
    AnchorAligned(b);
    Toward(b.anchor, ideal, b.p.tickLimit);
    SlideLeaves(b, b.anchor < ideal);
  }

  /** A word that left stays out: windows between start and target only shrink away. */
  lemma RestrictedTrans(b: Book, c: Book, d: Book)
    requires Left(b, c) && Restricted(b, c) && Left(c, d) && Restricted(c, d)
    requires b.anchor <= c.anchor <= d.anchor || d.anchor <= c.anchor <= b.anchor
    requires b.Inv()
    ensures Restricted(b, d)
  {
    hide Book.Inv, SameOwned, Later;
    forall h | h in b.orders
      ensures h in d.orders <==> d.InWindow(b.orders[h].tick)
    {
      OrderFacts(b, h);
      if h in c.orders { assert c.orders[h] == b.orders[h]; }
    }
  }

  /**
   The move evicts and refunds exactly the orders outside the window it reaches, keeps
   the rest in place, and counts them; a call that returns below its budget has arrived,
   and a call with any budget left advances a word.
   */
  lemma {:induction false} ReanchorRestricts(b: Book, ideal: nat, evicted: nat, budget: nat)
    requires MoveOk(b, ideal)
    ensures var (c, n) := Reanchor(b, ideal, evicted, budget);
      && MoveOk(c, ideal) && Left(b, c) && Restricted(b, c) && n == evicted + |b.orders| - |c.orders|
      && (c.anchor == ideal || budget <= n)
      && (b.anchor <= c.anchor <= ideal || ideal <= c.anchor <= b.anchor)
      && (b.anchor != ideal && evicted < budget ==> Gap(c.anchor, ideal) + 64 <= Gap(b.anchor, ideal))
    decreases Gap(b.anchor, ideal)
  {
    hide Book.Inv, SlideWord, Left, Restricted, Reanchor;
    if b.anchor == ideal || budget <= evicted {
      MoveEnds(b, ideal, evicted, budget);
      LeftSelf(b);
      AllInWindow(b);
    } else {
      SlideStep(b, ideal);
      var c := SlideWord(b, b.anchor < ideal);
      OrdersLeft(b, c);
      Unfolds(b, ideal, evicted, budget);
      ReanchorRestricts(c, ideal, evicted + |b.orders| - |c.orders|, budget);
      var d := Reanchor(c, ideal, evicted + |b.orders| - |c.orders|, budget).0;
      LeftTrans(b, c, d);
      RestrictedTrans(b, c, d);
    }
  }

  /** The clamp always gives a window the market allows. */
  lemma IdealOk(b: Book, target: nat)
    requires b.Inv()
    ensures WINDOW_MASK <= b.p.tickLimit && MoveOk(b, Ideal(b.p, target))
  {
    hide Book.Inv, Ideal;
    AnchorAligned(b);
    IdealAligned(b.p, target, b.anchor);
  }

  lemma IdealAligned(p: Params, target: nat, anchor: nat)
    requires 64 <= anchor && anchor + WINDOW_MASK <= p.tickLimit
    ensures var ideal := Ideal(p, target); ideal % 64 == 0 && 64 <= ideal && ideal + WINDOW_MASK <= p.tickLimit
  {
    WordCount(anchor, p.tickLimit - WINDOW_MASK);
    assert target / 64 * 64 % 64 == 0;
  }

  /** The whole of `reanchor_step`: the new book and the number of orders evicted. */
  ghost function ReanchorTo(b: Book, target: nat, budget: nat): (Book, nat) {
    if b.Inv() then IdealOk(b, target); Reanchor(b, Ideal(b.p, target), 0, budget) else (b, 0)
  }

  lemma WordCount(anchor: nat, top: nat)
    requires 64 <= anchor <= top
    ensures 64 <= top / 64 * 64 <= top && top / 64 * 64 % 64 == 0
  {}

  lemma OrdersLeft(b: Book, c: Book)
    requires Left(b, c)
    ensures |c.orders| <= |b.orders|
  {}

  lemma AllInWindow(b: Book)
    requires b.Inv()
    ensures Restricted(b, b)
  {
    hide Book.Inv;
    forall h | h in b.orders ensures b.InWindow(b.orders[h].tick) { OrderFacts(b, h); }
  }

  /** A budget above the number of orders never stops a move, whatever it is. */
  lemma {:induction false} EnoughBudget(b: Book, ideal: nat, e1: nat, b1: nat, e2: nat, b2: nat)
    requires MoveOk(b, ideal) && e1 + |b.orders| < b1 && e2 + |b.orders| < b2
    ensures Reanchor(b, ideal, e1, b1).0 == Reanchor(b, ideal, e2, b2).0
    ensures Reanchor(b, ideal, e1, b1).0.anchor == ideal
    decreases Gap(b.anchor, ideal)
  {
    hide Book.Inv, SlideWord, Left, Restricted;
    if b.anchor != ideal {
      SlideStep(b, ideal);
      var c := SlideWord(b, b.anchor < ideal);
      OrdersLeft(b, c);
      var n := |b.orders| - |c.orders|;
      EnoughBudget(c, ideal, e1 + n, b1, e2 + n, b2);
    }
  }

  /**
   A move with budget to spare takes the window to the target: to the aligned word that
   holds it, or as near as the lowest anchor and the tick limit allow.
   */
  lemma ReanchorReaches(b: Book, target: nat, budget: nat)
    requires b.Inv() && |b.orders| < budget
    ensures var anchor, limit := ReanchorTo(b, target, budget).0.anchor, b.p.tickLimit;
      && anchor % 64 == 0 && 64 <= anchor && anchor + WINDOW_MASK <= limit
      && (64 <= target && target + WINDOW_MASK <= limit ==> anchor <= target < anchor + 64)
      && (target < 64 ==> anchor == 64)
      && (limit < target + WINDOW_MASK ==> limit < anchor + 64 + WINDOW_MASK)
  {
    hide Book.Inv, Reanchor;
    IdealOk(b, target);
    EnoughBudget(b, Ideal(b.p, target), 0, budget, 0, budget);
    IdealNear(b.p, target);
  }

  /** The clamp and the alignment of a target. */
  lemma IdealNear(p: Params, target: nat)
    requires 64 + WINDOW_MASK <= p.tickLimit
    ensures var ideal := Ideal(p, target);
      && (64 <= target && target + WINDOW_MASK <= p.tickLimit ==> ideal <= target < ideal + 64)
      && (target < 64 ==> ideal == 64)
      && (p.tickLimit < target + WINDOW_MASK ==> p.tickLimit < ideal + 64 + WINDOW_MASK)
  {
    var top := p.tickLimit - WINDOW_MASK;
    assert top / 64 * 64 <= top < top / 64 * 64 + 64;
    assert target / 64 * 64 <= target < target / 64 * 64 + 64;
    if target <= top { DivMono(target, top); } else { DivMono(top, target); }
    DivMono(64, top);
  }

  lemma DivMono(x: nat, y: nat)
    requires x <= y
    ensures x / 64 <= y / 64
  {}

  /** Stopping anywhere and going on gives the book of the uninterrupted move. */
  lemma {:induction false} Resumed(b: Book, ideal: nat, e1: nat, b1: nat, e2: nat, b2: nat, e3: nat, b3: nat)
    requires MoveOk(b, ideal) && e3 + |b.orders| < b3
    requires e2 + |Reanchor(b, ideal, e1, b1).0.orders| < b2
    ensures Reanchor(Reanchor(b, ideal, e1, b1).0, ideal, e2, b2).0 == Reanchor(b, ideal, e3, b3).0
    decreases Gap(b.anchor, ideal)
  {
    hide Book.Inv, SlideWord, Left, Restricted;
    if b.anchor == ideal || b1 <= e1 {
      EnoughBudget(b, ideal, e2, b2, e3, b3);
    } else {
      SlideStep(b, ideal);
      var c := SlideWord(b, b.anchor < ideal);
      OrdersLeft(b, c);
      var n := |b.orders| - |c.orders|;
      Resumed(c, ideal, e1 + n, b1, e2, b2, e3 + n, b3);
    }
  }

  /** Calls with the same target, each with its own budget. */
  ghost function Calls(b: Book, ideal: nat, budgets: seq<nat>): (c: Book)
    requires MoveOk(b, ideal)
    ensures MoveOk(c, ideal)
    decreases |budgets|
  {
    hide Book.Inv, MoveOk, Left, Restricted, Reanchor, SlideWord;
    if budgets == [] then b else
      ReanchorRestricts(b, ideal, 0, budgets[0]);
      Calls(Reanchor(b, ideal, 0, budgets[0]).0, ideal, budgets[1..])
  }

  /** The move in one call: more budget than there are orders. */
  ghost function WholeMove(b: Book, ideal: nat): Book
    requires MoveOk(b, ideal)
  {
    Reanchor(b, ideal, 0, |b.orders| + 1).0
  }

  /** However a move is split into calls, once it reaches its target the book is that of one call. */
  lemma {:induction false} CallsAgree(b: Book, ideal: nat, budgets: seq<nat>)
    requires MoveOk(b, ideal)
    ensures WholeMove(Calls(b, ideal, budgets), ideal) == WholeMove(b, ideal)
    ensures Calls(b, ideal, budgets).anchor == ideal ==> Calls(b, ideal, budgets) == WholeMove(b, ideal)
    decreases |budgets|
  {
    hide Book.Inv, MoveOk, Left, Restricted, Reanchor, SlideWord;
    if budgets != [] {
      ReanchorRestricts(b, ideal, 0, budgets[0]);
      var c := Reanchor(b, ideal, 0, budgets[0]).0;
      Resumed(b, ideal, 0, budgets[0], 0, |c.orders| + 1, 0, |b.orders| + 1);
      CallsAgree(c, ideal, budgets[1..]);
    } else if b.anchor == ideal {
      AlreadyThere(b, ideal);
    }
  }

  lemma AlreadyThere(b: Book, ideal: nat)
    requires MoveOk(b, ideal) && b.anchor == ideal
    ensures WholeMove(b, ideal) == b
  {}

  /** Calls with a budget of at least one reach the target, a word a call at worst. */
  lemma {:induction false} CallsArrive(b: Book, ideal: nat, budgets: seq<nat>)
    requires MoveOk(b, ideal) && forall x | x in budgets :: 1 <= x
    requires Gap(b.anchor, ideal) <= 64 * |budgets|
    ensures Calls(b, ideal, budgets).anchor == ideal
    decreases |budgets|
  {
    hide Book.Inv, MoveOk, Left, Restricted, Reanchor, SlideWord;
    if budgets != [] {
      if b.anchor != ideal { assert budgets[0] in budgets; }
      ReanchorRestricts(b, ideal, 0, budgets[0]);
      assert forall x | x in budgets[1..] :: x in budgets;
      CallsArrive(Reanchor(b, ideal, 0, budgets[0]).0, ideal, budgets[1..]);
    }
  }
}
