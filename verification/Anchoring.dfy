/** Moving the window of an account: only the anchor label changes. */
module Anchoring {
  import opened Base
  import opened Bitmaps
  import opened Books
  import opened Layout
  import opened Represent
  import opened Posting
  import opened Hygiene
  import opened Reanchoring
  import Ops
  import Frames

  /** `b` with another anchor that still covers its orders. */
  ghost predicate Covers(b: Book, anchor: nat) { b.Inv() && b.(anchor := anchor).Inv() }

  /** The tick of the present window that shares a ring position. */
  function Alias(anchor: nat, t: nat): (u: nat)
    ensures anchor <= u <= anchor + WINDOW_MASK && Slot(u) == Slot(t)
  {
    var d := (t + WINDOW_TICKS - anchor % WINDOW_TICKS) % WINDOW_TICKS;
    AliasSlot(anchor, t, d);
    anchor + d
  }

  lemma AliasSlot(anchor: nat, t: nat, d: nat)
    requires d == (t + WINDOW_TICKS - anchor % WINDOW_TICKS) % WINDOW_TICKS
    ensures Slot(anchor + d) == Slot(t)
  {}

  /** A tick of the new window has no level unless it was in the old window as well. */
  lemma AliasVacant(b: Book, anchor: nat, side: Side, t: nat)
    requires Covers(b, anchor) && anchor <= t <= anchor + WINDOW_MASK && Alias(b.anchor, t) != t
    ensures t !in b.Levels(side) && Alias(b.anchor, t) !in b.Levels(side)
  {
    hide Book.Inv, Alias;
    LevelsInWindow(b, side);
    LevelsInWindow(b.(anchor := anchor), side);
    var u := Alias(b.anchor, t);
    assert b.(anchor := anchor).Levels(side) == b.Levels(side);
    if t in b.Levels(side) { SlotInjective(b.anchor, t, u); }
    if u in b.Levels(side) { SlotInjective(anchor, t, u); }
  }

  lemma SameTick(b: Book, anchor: nat, t: nat)
    requires Alias(b.anchor, t) == t
    ensures b.InWindow(t)
  {}

  /** Every slot of the new window shows its tick truly: the vacated slots simply become the fresh ones. */
  lemma SlotsMoved(r: Raw, b: Book, anchor: nat, t: nat)
    requires Covers(b, anchor) && Lists(r, b) && anchor <= t <= anchor + WINDOW_MASK
    ensures Slot(t) in r.bidBits <==> t in b.bids
    ensures Slot(t) in r.askBits <==> t in b.asks
    ensures t !in b.bids && t !in b.asks ==> |r.levels| == WINDOW_TICKS && r.levels[Slot(t)] == EMPTY_LEVEL
  {
    hide Book.Inv, LevelsRep, ChainsRep, FreeRep, NodesRep, Alias, Slot;
    var u := Alias(b.anchor, t);
    if u == t {
      SameTick(b, anchor, t);
    } else {
      AliasVacant(b, anchor, Bid, t);
      AliasVacant(b, anchor, Ask, t);
    }
    assert b.InWindow(u);
  }

  lemma QueuesMoved(r: Raw, b: Book, anchor: nat)
    requires Covers(b, anchor) && Lists(r, b)
    ensures QueuesRep(r.pool, r.levels, r.bidBits, r.askBits, b.(anchor := anchor))
  {
    hide Book.Inv, ChainsRep, FreeRep, NodesRep, Slot;
    var c := b.(anchor := anchor);
    forall t: nat | c.InWindow(t)
      ensures Slot(t) in r.bidBits <==> t in c.bids
      ensures Slot(t) in r.askBits <==> t in c.asks
      ensures t !in c.bids && t !in c.asks ==> r.levels[Slot(t)] == EMPTY_LEVEL
    {
      SlotsMoved(r, b, anchor, t);
    }
  }

  /** No memory moves: relabelling the anchor represents the moved book. */
  lemma AnchorMoved(r: Raw, b: Book, anchor: u32)
    requires Covers(b, anchor) && Rep(r, b)
    ensures Rep(r.(header := r.header.(anchor := anchor)), b.(anchor := anchor))
  {
    hide Book.Inv, QueuesRep, ChainsRep, FreeRep, NodesRep, FundsRep;
    QueuesMoved(r, b, anchor);
  }

  // ---- the eviction loop does not look at the anchor ----

  lemma KillMoves(b: Book, anchor: nat, h: nat)
    requires Covers(b, anchor) && h in b.orders
    ensures Covers(Ops.Kill(b, h), anchor)
    ensures Ops.Kill(b.(anchor := anchor), h) == Ops.Kill(b, h).(anchor := anchor)
  {
    hide Book.Inv;
    Ops.OrderFacts(b, h);
    Ops.OrderFacts(b.(anchor := anchor), h);
    KilledMoves(b, anchor, h);
    assert Ops.Kill(b.(anchor := anchor), h).Inv() && Ops.Kill(b, h).Inv();
  }

  lemma KilledMoves(b: Book, anchor: nat, h: nat)
    requires h in b.orders && b.OrderOk(h) && b.orders[h].maker < |b.balances| && b.(anchor := anchor).OrderOk(h)
    ensures Ops.Killed(b.(anchor := anchor), h) == Ops.Killed(b, h).(anchor := anchor)
  {}

  lemma {:induction false} EvictLevelMoves(b: Book, anchor: nat, side: Side, t: nat)
    requires Covers(b, anchor)
    ensures Covers(EvictLevel(b, side, t), anchor)
    ensures EvictLevel(b.(anchor := anchor), side, t) == EvictLevel(b, side, t).(anchor := anchor)
    decreases |b.orders|
  {
    hide Book.Inv, Ops.Kill, Removed;
    if t in b.Levels(side) {
      HeadEvicts(b, side, t);
      var h := b.Levels(side)[t][0];
      KillMoves(b, anchor, h);
      EvictLevelMoves(Ops.Kill(b, h), anchor, side, t);
    }
  }

  lemma {:induction false} EvictTicksMoves(b: Book, anchor: nat, t: nat, n: nat)
    requires Covers(b, anchor)
    ensures Covers(EvictTicks(b, t, n), anchor)
    ensures EvictTicks(b.(anchor := anchor), t, n) == EvictTicks(b, t, n).(anchor := anchor)
    decreases n
  {
    hide Book.Inv, EvictLevel, Removed;
    if n > 0 {
      EvictLevelMoves(b, anchor, Bid, t);
      EvictLevelMoves(EvictLevel(b, Bid, t), anchor, Ask, t);
      EvictTicksMoves(EvictLevel(EvictLevel(b, Bid, t), Ask, t), anchor, t + 1, n - 1);
    }
  }

  lemma VacantLevel(b: Book, side: Side, t: nat)
    requires b.Inv() && t !in b.Levels(side)
    ensures EvictLevel(b, side, t) == b
  {}

  /** A vacant word needs no probing. */
  lemma {:induction false} VacantWord(b: Book, t: nat, n: nat)
    requires b.Inv() && forall u | t <= u < t + n :: u !in b.bids && u !in b.asks
    ensures EvictTicks(b, t, n) == b
    decreases n
  {
    hide Book.Inv, EvictLevel, Removed;
    if n > 0 {
      VacantLevel(b, Bid, t);
      VacantLevel(b, Ask, t);
      VacantWord(b, t + 1, n - 1);
    }
  }

  lemma OneTick(b: Book, t: nat, n: nat)
    requires b.Inv() && 0 < n
    ensures EvictTicks(b, t, n) == EvictTicks(EvictLevel(EvictLevel(b, Bid, t), Ask, t), t + 1, n - 1)
  {
    hide Book.Inv, EvictLevel, Removed;
  }

  // ---- facts for the eviction loops ----

  lemma CoversItself(b: Book, t: nat)
    requires b.Inv() && b.InWindow(t)
    ensures Covers(b, b.anchor) && b.anchor <= t <= b.anchor + WINDOW_MASK
  {
    assert b.(anchor := b.anchor) == b;
  }

  lemma CoversInv(b: Book, anchor: nat)
    requires Covers(b, anchor)
    ensures b.Inv() && b.(anchor := anchor).Inv()
  {}

  lemma {:induction false} FewHandles(s: set<nat>, n: nat)
    requires forall h | h in s :: h < n
    ensures |s| <= n
  {
    if n > 0 {
      FewHandles(s - {n - 1}, n - 1);
    } else {
      assert s == {};
    }
  }

  /** Orders live in pool nodes, so counting them stays within 32 bits. */
  lemma OrdersBound(b: Book)
    requires b.Inv()
    ensures |b.orders| <= b.p.capacity <= MAX_POOL_CAPACITY
  {
    hide Book.Structure;
    forall h | h in b.orders.Keys ensures h < b.p.capacity { Ops.OrderFacts(b, h); }
    FewHandles(b.orders.Keys, b.p.capacity);
    assert |b.orders| == |b.orders.Keys|;
  }

  lemma EvictsHead(b: Book, anchor: nat, side: Side, t: nat)
    requires Covers(b, anchor) && t in b.Levels(side)
    ensures b.Levels(side)[t] != [] && b.Levels(side)[t][0] in b.orders
    ensures var c := Ops.Kill(b, b.Levels(side)[t][0]);
      && Covers(c, anchor) && |c.orders| == |b.orders| - 1
      && EvictLevel(c, side, t) == EvictLevel(b, side, t)
  {
    hide Book.Inv, Ops.Kill, Removed;
    HeadEvicts(b, side, t);
    KillRemoves(b, b.Levels(side)[t][0]);
    KillMoves(b, anchor, b.Levels(side)[t][0]);
  }

  lemma EvictionsShrink(b: Book, t: nat)
    requires b.Inv()
    ensures |EvictLevel(b, Bid, t).orders| <= |b.orders|
    ensures |EvictLevel(EvictLevel(b, Bid, t), Ask, t).orders| <= |EvictLevel(b, Bid, t).orders|
  {
    hide Book.Inv, Thinned, Frames.Quiet;
  }

  lemma NoTicks(b: Book, t: nat)
    requires b.Inv()
    ensures EvictTicks(b, t, 0) == b
  {
    hide Book.Inv, Removed;
  }

  /** One round of `reanchor_step`, told on the book whose anchor is not yet relabelled. */
  lemma SlideHere(b: Book, cur: nat, ideal: nat, evicted: nat, budget: nat)
    requires Covers(b, cur) && MoveOk(b.(anchor := cur), ideal) && cur != ideal && evicted < budget
    ensures CanSlide(cur, cur < ideal, b.p.tickLimit)
    ensures var up := cur < ideal;
      var d, to := EvictTicks(b, Leaving(cur, up), 64), Shifted(cur, up);
      && to >= 0 && Covers(d, to) && Covers(d, cur) && MoveOk(d.(anchor := to), ideal) && |d.orders| <= |b.orders|
      && (if up then to <= ideal else ideal <= to)
      && Reanchor(b.(anchor := cur), ideal, evicted, budget)
           == Reanchor(d.(anchor := to), ideal, evicted + |b.orders| - |d.orders|, budget)
  {
    hide Book.Inv, EvictTicks, Left, Restricted, Removed, Reanchor, SlideWord;
    var c, up := b.(anchor := cur), cur < ideal;
    SlideStep(c, ideal);
    OrdersLeft(c, SlideWord(c, up));
    Unfolds(c, ideal, evicted, budget);
    SlideIs(b, cur, up);
    var d, to := EvictTicks(b, Leaving(cur, up), 64), Shifted(cur, up);
    CoversInv(d, cur);
  }

  /** Sliding one word, seen from the anchor the header still holds. */
  lemma SlideIs(b: Book, cur: nat, up: bool)
    requires Covers(b, cur) && CanSlide(cur, up, b.p.tickLimit)
    ensures var d, to := EvictTicks(b, Leaving(cur, up), 64), Shifted(cur, up);
      Covers(d, cur) && to >= 0 && SlideWord(b.(anchor := cur), up) == d.(anchor := to)
  {
    hide Book.Inv, EvictTicks, Removed;
    EvictTicksMoves(b, cur, Leaving(cur, up), 64);
  }

  lemma CoveredWindow(b: Book, anchor: nat)
    requires Covers(b, anchor)
    ensures anchor % 64 == 0 && 64 <= anchor && anchor + WINDOW_MASK <= b.p.tickLimit <= TICK_TOP
  {}

  const TICK_TOP: nat := U32_MAX - 2 * WINDOW_TICKS

  lemma AnchorHere(b: Book)
    requires b.Inv()
    ensures Covers(b, b.anchor) && b.(anchor := b.anchor) == b && WINDOW_MASK <= b.p.tickLimit <= TICK_TOP
  {
    assert b.(anchor := b.anchor) == b;
  }

  lemma WordBounds(cur: nat, up: bool)
    requires cur % 64 == 0
    ensures Leaving(cur, up) % 64 == 0 && cur <= Leaving(cur, up) && Leaving(cur, up) + 63 <= cur + WINDOW_MASK
  {}

  /** Two empty leaf words: no order in the word. */
  lemma EmptyWords(r: Raw, b: Book, anchor: nat, start: nat)
    requires Covers(b, anchor) && Lists(r, b) && anchor <= start && start + 63 <= anchor + WINDOW_MASK
    requires forall t: nat | start <= t < start + 64 :: Slot(t) !in r.bidBits && Slot(t) !in r.askBits
    ensures EvictTicks(b, start, 64) == b
  {
    hide Book.Inv, EvictTicks, Slot;
    forall t | start <= t < start + 64
      ensures t !in b.bids && t !in b.asks
    {
      SlotsMoved(r, b, anchor, t);
    }
    VacantWord(b, start, 64);
  }

  // ---- the loop's contract in total predicates ----

  ghost predicate CanMove(b: Book, cur: nat, ideal: nat) { Covers(b, cur) && MoveOk(b.(anchor := cur), ideal) }

  /** The outcome of a move from the window at `cur`. */
  ghost function Outcome(b: Book, cur: nat, ideal: nat, evicted: nat, budget: nat): (Book, nat) {
    if CanMove(b, cur, ideal) then Reanchor(b.(anchor := cur), ideal, evicted, budget) else (b, evicted)
  }

  predicate Towards(cur: nat, ideal: nat, up: bool) { if up then cur <= ideal else ideal <= cur }

  lemma MoveRound(b: Book, cur: nat, ideal: nat, up: bool, evicted: nat, budget: nat)
    requires CanMove(b, cur, ideal) && Towards(cur, ideal, up) && cur != ideal && evicted < budget
    ensures Covers(b, cur) && cur % 64 == 0 && 64 <= cur && cur + WINDOW_MASK <= TICK_TOP
    ensures Leaving(cur, up) % 64 == 0 && cur <= Leaving(cur, up) && Leaving(cur, up) + 63 <= cur + WINDOW_MASK
    ensures b.Inv()
    ensures var d, to := EvictTicks(b, Leaving(cur, up), 64), Shifted(cur, up);
      && 64 <= to <= TICK_TOP && CanMove(d, to, ideal) && Towards(to, ideal, up) && |d.orders| <= |b.orders|
      && Outcome(b, cur, ideal, evicted, budget) == Outcome(d, to, ideal, evicted + |b.orders| - |d.orders|, budget)
  {
    hide Book.Inv, EvictTicks, Reanchor, MoveOk;
    CoveredWindow(b, cur);
    CoversInv(b, cur);
    WordBounds(cur, up);
    SlideHere(b, cur, ideal, evicted, budget);
    var d, to := EvictTicks(b, Leaving(cur, up), 64), Shifted(cur, up);
    CoveredWindow(d, to);
  }

  lemma MoveOver(b: Book, cur: nat, ideal: nat, evicted: nat, budget: nat)
    requires CanMove(b, cur, ideal) && (cur == ideal || budget <= evicted)
    ensures Outcome(b, cur, ideal, evicted, budget) == (b.(anchor := cur), evicted)
    ensures Covers(b, cur) && b.(anchor := cur).Inv() && cur <= TICK_TOP
  {
    hide Book.Inv;
    MoveEnds(b.(anchor := cur), ideal, evicted, budget);
    CoveredWindow(b, cur);
  }

  lemma MoveStart(b: Book, target: nat)
    requires b.Inv()
    ensures WINDOW_MASK <= b.p.tickLimit <= TICK_TOP && CanMove(b, b.anchor, Ideal(b.p, target))
    ensures forall budget :: Outcome(b, b.anchor, Ideal(b.p, target), 0, budget) == ReanchorTo(b, target, budget)
    ensures 64 <= Ideal(b.p, target) <= TICK_TOP
  {
    hide Book.Inv, Reanchor;
    AnchorHere(b);
    IdealOk(b, target);
    CoveredWindow(b, b.anchor);
  }

  lemma TowardsAt(cur: nat, ideal: nat)
    ensures Towards(cur, ideal, ideal > cur)
  {}

  lemma Nearer(cur: nat, to: nat, ideal: nat, up: bool)
    requires Towards(cur, ideal, up) && Towards(to, ideal, up) && to == Shifted(cur, up)
    ensures Gap(to, ideal) < Gap(cur, ideal)
  {}
}
