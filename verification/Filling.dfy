/** The steps of a fill on an account that represents a book. */
module Filling {
  import opened Base
  import opened Bitmaps
  import opened Books
  import opened Layout
  import opened Represent
  import opened Posting
  import Ops
  import Frames
  import opened Matching
  import opened Budgets

  /** The maker's seat after a fill: `debit` off the lock on its own asset, `credit` onto the other. */
  function SettledSeat(s: Seat, side: Side, debit: u64, credit: u64): Seat
    requires debit <= if side.Ask? then s.baseLocked else s.quoteLocked
  {
    if side.Ask? then s.(baseLocked := s.baseLocked - debit, quoteFree := WrappingAdd(s.quoteFree, credit))
    else s.(quoteLocked := s.quoteLocked - debit, baseFree := WrappingAdd(s.baseFree, credit))
  }

  lemma SettleFundsRep(seats: seq<Seat>, b: Book, m: nat, side: Side, tick: nat, lots: nat, debit: u64, credit: u64)
    requires FundsRep(seats, b.balances) && m < |b.balances|
    requires debit == b.p.Atoms(side, tick, lots) && credit == b.p.Atoms(side.Opposite(), tick, lots)
    requires debit <= b.balances[m].Locked(side.Ask?) && 0 <= b.balances[m].baseFree && 0 <= b.balances[m].quoteFree
    ensures debit <= if side.Ask? then seats[m].baseLocked else seats[m].quoteLocked
    ensures FundsRep(seats[m := SettledSeat(seats[m], side, debit, credit)],
                     b.balances[m := b.balances[m].Settle(b.p, side, tick, lots)])
  {
    hide WrappingAdd, Params.Atoms;
    WrapBack(b.balances[m].baseFree, credit);
    WrapBack(b.balances[m].quoteFree, credit);
  }

  /** What a valid account offers to a fill. */
  lemma BeforeFill(r: Raw, b: Book, h: nat, lots: nat)
    requires b.Inv() && Rep(r, b) && h in b.orders && 0 < lots <= b.orders[h].lots
    ensures Lists(r, b) && HeaderRep(r.header, b) && FundsRep(r.seats, b.balances) && b.p.Ok()
    ensures b.Structure() && b.Uncrossed() && b.OrderOk(h) && 0 < h <= U16_MAX && h < |r.pool|
      && NodeIs(r.pool[h], b.orders[h])
    ensures r.header.freeCount < U32_MAX
    ensures var o := b.orders[h];
      && o.tick <= b.p.tickLimit && lots <= b.p.maxLots && o.maker < |r.seats| == |b.balances| == MAX_SEATS
      && b.p.Atoms(o.side, o.tick, lots) <= b.balances[o.maker].Locked(o.side.Ask?)
      && b.p.Atoms(o.side, o.tick, lots) <= (if o.side.Ask? then r.seats[o.maker].baseLocked
        else r.seats[o.maker].quoteLocked)
      && 0 <= b.balances[o.maker].baseFree && 0 <= b.balances[o.maker].quoteFree
  {
    hide Book.Inv, Lists, FundsRep, HeaderRep, Params.Atoms, Params.Ok, Book.Structure, Book.Uncrossed, Book.OrderOk;
    BeforeKill(r, b, h);
    var o := b.orders[h];
    Ops.AtomsAdd(b.p, o.side, o.tick, lots, o.lots - lots);
    LocksAre(r.seats, b.balances, o.maker);
  }

  /** Settling a seat leaves every list alone and follows the exact balance. */
  lemma AfterSettle(r: Raw, b: Book, h: nat, lots: nat, debit: u64, credit: u64)
    requires b.Inv() && Rep(r, b) && h in b.orders && 0 < lots <= b.orders[h].lots
    requires debit == b.p.Atoms(b.orders[h].side, b.orders[h].tick, lots)
    requires credit == b.p.Atoms(b.orders[h].side.Opposite(), b.orders[h].tick, lots)
    ensures b.orders[h].maker < |r.seats| && b.orders[h].maker < |b.balances|
    ensures debit <= if b.orders[h].side.Ask? then r.seats[b.orders[h].maker].baseLocked
      else r.seats[b.orders[h].maker].quoteLocked
    ensures var o := b.orders[h];
      var s := SettledSeat(r.seats[o.maker], o.side, debit, credit);
      && Lists(r.(seats := r.seats[o.maker := s]), b)
      && FundsRep(r.seats[o.maker := s], b.balances[o.maker := b.balances[o.maker].Settle(b.p, o.side, o.tick, lots)])
  {
    hide Book.Inv, Lists, FundsRep, HeaderRep, Params.Atoms, Params.Ok, Book.Structure, Book.Uncrossed, Book.OrderOk;
    BeforeFill(r, b, h, lots);
    var o := b.orders[h];
    SettleFundsRep(r.seats, b, o.maker, o.side, o.tick, lots, debit, credit);
    SettledHead(r.seats[o.maker], o.side, debit, credit);
    SameSeats(r, b, o.maker, SettledSeat(r.seats[o.maker], o.side, debit, credit));
  }

  lemma SettledHead(s: Seat, side: Side, debit: u64, credit: u64)
    requires debit <= if side.Ask? then s.baseLocked else s.quoteLocked
    ensures SettledSeat(s, side, debit, credit).head == s.head && SettledSeat(s, side, debit, credit).count == s.count
  {}

  lemma FillParts(b: Book, h: nat, lots: nat)
    requires b.Inv() && h in b.orders && 0 < lots <= b.orders[h].lots
    ensures b.OrderOk(h) && b.orders[h].maker < |b.balances|
    ensures var o, c := b.orders[h], Ops.Fill(b, h, lots);
      var u := if lots == o.lots then Unlist(b, h) else Restate(b, h, o.lots - lots, o.expiry);
      && c == u.(balances := b.balances[o.maker := b.balances[o.maker].Settle(b.p, o.side, o.tick, lots)])
      && c.fees == u.fees == b.fees && c.p == b.p && c.anchor == b.anchor && c.issued == b.issued
  {
    hide Book.Inv;
    Ops.OrderFacts(b, h);
  }

  /** The lists of the filled book under settled funds: the account represents it. */
  lemma AfterFill(r: Raw, b: Book, h: nat, lots: nat, u: Book)
    requires b.Inv() && h in b.orders && 0 < lots <= b.orders[h].lots && b.OrderOk(h)
      && b.orders[h].maker < |b.balances|
    requires u == if lots == b.orders[h].lots then Unlist(b, h)
      else Restate(b, h, b.orders[h].lots - lots, b.orders[h].expiry)
    requires Lists(r, u) && HeaderRep(r.header, b)
    requires var o := b.orders[h];
      FundsRep(r.seats, b.balances[o.maker := b.balances[o.maker].Settle(b.p, o.side, o.tick, lots)])
    ensures Rep(r, Ops.Fill(b, h, lots))
  {
    hide Book.Inv, Lists, FundsRep, Balance.Settle, Unlist, Restate;
    FillParts(b, h, lots);
    ListsSame(r, u, Ops.Fill(b, h, lots));
    HeaderSame(r.header, b, Ops.Fill(b, h, lots));
  }

  // ---- machine arithmetic of a fill ----

  lemma {:induction false} QuotientIsDiv(a: nat, b: nat)
    requires 0 < b
    ensures Quotient(a, b) == a / b
  {
    hide Quotient;
    QuotientIs(a, b);
    TimesIs(b, Quotient(a, b));
    MulCommutes(b, Quotient(a, b));
    DivUnique(a, b, Quotient(a, b));
  }

  lemma MulCommutes(a: nat, q: nat)
    ensures a * q == q * a && (q + 1) * a == q * a + a
  {}

  /** The products of one fill fit 64 bits, and so do the running totals after it. */
  lemma FillFits(p: Params, res: TakeResult, tick: nat, f: nat)
    requires p.Ok() && Accumulated(p, res) && tick <= p.tickLimit && res.lots + f <= p.maxLots
    ensures var n := p.Notional(tick, f);
      && Times(tick, p.tickSize) <= U64_MAX && n <= U64_MAX && n * p.feeBps <= U64_MAX
      && FeeOn(p, n) == n * p.feeBps / FEE_DENOMINATOR
      && res.quote + n <= U64_MAX && res.fee + FeeOn(p, n) <= U64_MAX
      && p.BaseAtoms(f) <= U64_MAX
  {
    hide Times;
    var n := p.Notional(tick, f);
    NotionalFits(p, tick, f);
    BaseAtomsFit(p, f);
    TimesIs(n, p.feeBps);
    TimesIs(FEE_DENOMINATOR + MAX_FEE_BPS, n);
    FeeProduct(n, p.feeBps);
    Accumulates(p, res, tick, f);
    AccumulatedFits(p, res.Plus(f, n, FeeOn(p, n)));
  }

  lemma FeeProduct(n: nat, bps: nat)
    requires bps <= MAX_FEE_BPS
    ensures n * bps <= (FEE_DENOMINATOR + MAX_FEE_BPS) * n
  {}

  /** The capped budget product fits 64 bits: capping before multiplying loses no headroom. */
  lemma CappedFits(budget: nat, d: nat)
    requires FEE_DENOMINATOR <= d
    ensures Min(budget, U64_MAX / d) * FEE_DENOMINATOR <= U64_MAX
  {
    var q := U64_MAX / d;
    assert q * d <= U64_MAX by { DivBounds(U64_MAX, d); }
    assert q * FEE_DENOMINATOR <= U64_MAX by { CapTimes(q, d); }
  }

  lemma CapTimes(c: nat, d: nat)
    requires FEE_DENOMINATOR <= d && c * d <= U64_MAX
    ensures c * FEE_DENOMINATOR <= U64_MAX
  {
    MulLe(FEE_DENOMINATOR, d, c);
    assert d * c == c * d;
  }

  /** `Affordable` in machine division. */
  lemma AffordableIs(p: Params, price: nat, budget: nat)
    requires 0 < price
    ensures Affordable(p, price, budget)
      == Min(budget, U64_MAX / (FEE_DENOMINATOR + p.feeBps)) * FEE_DENOMINATOR / (FEE_DENOMINATOR + p.feeBps) / price
  {
    hide Quotient;
    var d := FEE_DENOMINATOR + p.feeBps;
    QuotientIsDiv(U64_MAX, d);
    var capped := Min(budget, U64_MAX / d);
    QuotientIsDiv(capped * FEE_DENOMINATOR, d);
    QuotientIsDiv(capped * FEE_DENOMINATOR / d, price);
  }

  // ---- where matching stands ----

  /** Totals so far, lots still wanted and the budget, as every round of matching finds them. */
  ghost predicate Underway(p: Params, a: TakeArgs, rem: nat, res: TakeResult) {
    Accumulated(p, res) && res.lots + rem <= p.maxLots && WithinBudget(a, res)
  }

  lemma BudgetLeft(p: Params, a: TakeArgs, rem: nat, res: TakeResult)
    requires p.Ok() && Underway(p, a, rem, res)
    ensures res.quote + res.fee <= U64_MAX
    ensures a.maxQuote != U64_MAX ==> res.quote + res.fee <= a.maxQuote
  {
    hide Params.Ok;
    AccumulatedFits(p, res);
  }

  ghost predicate Shrunk(b: Book, c: Book) {
    c.p == b.p && c.anchor == b.anchor && c.fees == b.fees && c.bids.Keys <= b.bids.Keys && c.asks.Keys <= b.asks.Keys
  }

  /** One round of the reference matcher: the same result is still to come, from a smaller state. */
  ghost predicate RoundDone(b: Book, c: Book, a: TakeArgs, rem: nat, res: TakeResult, rem': nat, res': TakeResult)
    requires b.Inv() && c.Inv()
  {
    && Shrunk(b, c) && Underway(b.p, a, rem', res') && rem' <= rem
    && Match(b, a, rem, res) == Match(c, a, rem', res')
    && (|c.orders| < |b.orders| || (|c.orders| == |b.orders| && rem' < rem))
  }

  lemma FilledRound(b: Book, a: TakeArgs, rem: nat, res: TakeResult, h: nat, f: nat)
    requires b.Inv() && Front(b, a) == Some(h) && 0 < rem && Underway(b.p, a, rem, res)
    requires !b.orders[h].Expired(a.slot) && b.orders[h].maker != a.seat
    requires f == FillSize(b.p, a, b.orders[h], rem, res) && 0 < f
    ensures Ops.Fill.requires(b, h, f)
    ensures var n := b.p.Notional(b.orders[h].tick, f);
      RoundDone(b, Ops.Fill(b, h, f), a, rem, res, rem - f, res.Plus(f, n, FeeOn(b.p, n)))
  {
    hide Book.Inv, Ops.Fill, Ops.Kill, Front, FillSize, Accumulated, WithinBudget, Params.Notional, FeeOn, Shrunk;
    FrontFits(b, h);
    FillWithinBudget(b.p, a, b.orders[h], rem, res, f);
    Accumulates(b.p, res, b.orders[h].tick, f);
    FillFacts(b, h, f);
  }

  lemma KilledRound(b: Book, a: TakeArgs, rem: nat, res: TakeResult, h: nat)
    requires b.Inv() && Front(b, a) == Some(h) && 0 < rem && Underway(b.p, a, rem, res)
    requires b.orders[h].Expired(a.slot) || (b.orders[h].maker == a.seat && !a.abort)
    ensures RoundDone(b, Ops.Kill(b, h), a, rem, res, rem, res)
  {
    hide Book.Inv, Ops.Fill, Ops.Kill, Front, FillSize, Underway, Shrunk;
    KillFacts(b, h);
  }

  lemma EndRound(b: Book, a: TakeArgs, rem: nat, res: TakeResult, h: nat)
    requires b.Inv() && Front(b, a) == Some(h) && 0 < rem && !b.orders[h].Expired(a.slot)
    ensures b.orders[h].maker == a.seat && a.abort ==> Match(b, a, rem, res) == Err(SelfTrade)
    ensures b.orders[h].maker != a.seat && FillSize(b.p, a, b.orders[h], rem, res) == 0 ==>
      Match(b, a, rem, res) == Ok((b, res))
  {
    hide Book.Inv, Ops.Fill, Ops.Kill, Front, FillSize;
  }

  lemma FrontAt(b: Book, a: TakeArgs, best: nat)
    requires b.Inv() && Best(b, a.side.Opposite()) == Some(best) && Acceptable(a, best)
    ensures best in b.Levels(a.side.Opposite()) && b.Levels(a.side.Opposite())[best] != []
    ensures Front(b, a) == Some(b.Levels(a.side.Opposite())[best][0])
    ensures b.InWindow(best) && b.QueueOk(a.side.Opposite(), best)
  {
    hide Best;
    BestIsBest(b, a.side.Opposite());
    assert b.QueueOk(a.side.Opposite(), best);
  }

  /** The stored head of an occupied level is the front of its queue. */
  lemma HeadIs(r: Raw, b: Book, side: Side, t: nat)
    requires Lists(r, b) && t in b.Levels(side) && b.Levels(side)[t] != []
    ensures |r.levels| == WINDOW_TICKS && r.levels[Slot(t)].head == b.Levels(side)[t][0]
  {
    hide ChainsRep, FreeRep, NodesRep, FifoLinks;
    assert LevelIs(r.pool, r.levels[Slot(t)], b.orders, b.Levels(side)[t]);
  }

  lemma FillDifference(lots: nat, fill: nat)
    requires fill <= lots
    ensures lots - (lots - fill) == fill
  {}

  // ---- cancel ----

  lemma PoolIsCapacity(r: Raw, b: Book)
    requires b.Inv() && Rep(r, b)
    ensures |r.pool| == b.p.capacity && forall h | h in b.orders :: 0 < h < b.p.capacity
  {
    hide QueuesRep, ChainsRep, FreeRep, NodesRep, Book.Structure;
    forall h | h in b.orders ensures 0 < h < b.p.capacity { Ops.OrderFacts(b, h); }
  }

  /** A freed node that once belonged to the seat, named by the id freed nodes carry. */
  ghost predicate FreedHandle(r: Raw, b: Book, seat: nat, idx: nat, id: nat) {
    idx < |r.pool| && idx in b.free && id == FREED_SEQ && r.pool[idx].maker == seat
  }

  /** What the id check sees: a live order of the seat with that id, or a freed handle. */
  lemma CancelGuard(r: Raw, b: Book, seat: nat, idx: nat, id: nat)
    requires b.Inv() && Rep(r, b) && 0 < idx < |r.pool|
    ensures r.pool[idx].id == id && r.pool[idx].maker == seat <==>
      || (idx in b.orders && b.orders[idx].Id() == id && b.orders[idx].maker == seat)
      || FreedHandle(r, b, seat, idx, id)
  {
    hide QueuesRep, ChainsRep, Book.Structure;
    PoolIsCapacity(r, b);
    EveryNode(b, idx);
    if idx in b.orders { assert NodeIs(r.pool[idx], b.orders[idx]); }
  }

  lemma EveryNode(b: Book, h: nat)
    requires b.Inv() && 0 < h < b.p.capacity
    ensures h in b.orders <==> h !in b.free
  {}

  // ---- facts about one round ----

  lemma TickSizePositive(p: Params)
    requires p.Ok()
    ensures 0 < p.tickSize && p.feeBps <= MAX_FEE_BPS
  {}

  lemma SameFillSize(p: Params, a: TakeArgs, o: Order, rem: nat, res: TakeResult)
    requires p.tickSize > 0 && o.tick > 0
    ensures FillSize(p, a, Order(o.side, o.tick, o.maker, o.lots, o.expiry, 0), rem, res) == FillSize(p, a, o, rem, res)
    ensures Order(o.side, o.tick, o.maker, o.lots, o.expiry, 0).Expired(a.slot) == o.Expired(a.slot)
  {}

  lemma KillFacts(b: Book, h: nat)
    requires b.Inv() && h in b.orders
    ensures Shrunk(b, Ops.Kill(b, h)) && |Ops.Kill(b, h).orders| < |b.orders|
  {
    hide Book.Inv;
    Ops.OrderFacts(b, h);
    UnlistShrinks(b, h);
  }

  lemma UnlistShrinks(b: Book, h: nat)
    requires h in b.orders && b.OrderOk(h)
    ensures Unlist(b, h).bids.Keys <= b.bids.Keys && Unlist(b, h).asks.Keys <= b.asks.Keys
  {}

  lemma FillFacts(b: Book, h: nat, lots: nat)
    requires b.Inv() && h in b.orders && 0 < lots <= b.orders[h].lots
    ensures Ops.Fill.requires(b, h, lots) && Shrunk(b, Ops.Fill(b, h, lots))
    ensures |Ops.Fill(b, h, lots).orders| <= |b.orders|
  {
    hide Book.Inv, Unlist;
    FillParts(b, h, lots);
    UnlistShrinks(b, h);
  }

  lemma UnderwayFits(p: Params, a: TakeArgs, rem: nat, res: TakeResult, tick: nat, f: nat)
    requires p.Ok() && Underway(p, a, rem, res) && tick <= p.tickLimit && f <= rem
    ensures var n := p.Notional(tick, f);
      && n == Times(Times(tick, p.tickSize), f) && n <= U64_MAX && n * p.feeBps <= U64_MAX
      && FeeOn(p, n) == n * p.feeBps / FEE_DENOMINATOR
      && res.quote + n <= U64_MAX && res.fee + FeeOn(p, n) <= U64_MAX && f <= p.maxLots
  {
    hide Params.Ok, Accumulated, FeeOn, Times;
    FillFits(p, res, tick, f);
  }

  // ---- from level to level ----

  /** Every opposing level up to `last`, in price order, is empty. */
  ghost predicate Cleared(b: Book, side: Side, last: Option<nat>) {
    last.Some? ==>
      && b.InWindow(last.value)
      && forall t | t in b.Levels(side.Opposite()) :: if side.Bid? then last.value < t else t < last.value
  }

  /** Every opposing level before `t`, in price order, is empty. */
  ghost predicate ClearedBefore(b: Book, side: Side, t: nat) {
    forall x | x in b.Levels(side.Opposite()) :: if side.Bid? then t <= x else x <= t
  }

  /** Levels a walk may still visit. */
  function LevelsLeft(anchor: nat, side: Side, last: Option<nat>): nat {
    match last
    case None => WINDOW_TICKS
    case Some(t) =>
      if side.Bid? then (if t <= anchor + WINDOW_MASK then anchor + WINDOW_MASK - t else 0)
      else if anchor <= t then t - anchor else 0
  }

  /** Scanning on from the last level finds what a fresh best-price scan would. */
  lemma ScanOn(b: Book, side: Side, last: Option<nat>, r: Option<nat>)
    requires b.Inv() && Cleared(b, side, last)
    requires var keys := b.Levels(side.Opposite()).Keys;
      if side.Bid? then IsLeast(keys, if last.None? then b.anchor else last.value + 1, b.anchor + WINDOW_TICKS, r)
      else IsGreatest(keys, b.anchor, if last.None? then b.anchor + WINDOW_MASK else last.value - 1, r)
    ensures r == Best(b, side.Opposite())
  {
    hide Book.Inv, Book.Structure;
    LevelsInWindow(b, side.Opposite());
    var keys := b.Levels(side.Opposite()).Keys;
    if side.Bid? {
      LeastUnique(keys, b.anchor, b.anchor + WINDOW_TICKS, r, Best(b, Ask));
    } else {
      GreatestUnique(keys, b.anchor, b.anchor + WINDOW_MASK, r, Best(b, Bid));
    }
  }

  /** Past the last tick of the window there is nothing left. */
  lemma NoLevelLeft(b: Book, a: TakeArgs, last: nat)
    requires b.Inv() && Cleared(b, a.side, Some(last))
    requires if a.side.Bid? then last >= b.anchor + WINDOW_MASK else last <= b.anchor
    ensures Front(b, a).None?
  {
    hide Book.Inv, Best;
    BestIsBest(b, a.side.Opposite());
  }

  lemma FoundLevel(b: Book, a: TakeArgs, last: Option<nat>, r: Option<nat>)
    requires b.Inv() && Cleared(b, a.side, last) && r == Best(b, a.side.Opposite())
    ensures r.None? || !Acceptable(a, r.value) ==> Front(b, a).None?
    ensures r.Some? ==>
      && b.InWindow(r.value) && r.value in b.Levels(a.side.Opposite()) && ClearedBefore(b, a.side, r.value)
      && LevelsLeft(b.anchor, a.side, r) < LevelsLeft(b.anchor, a.side, last)
      && 0 < r.value <= b.p.tickLimit
  {
    hide Book.Inv, Best;
    BestIsBest(b, a.side.Opposite());
    if r.Some? { LevelTick(b, a.side.Opposite(), r.value); }
  }

  lemma LevelTick(b: Book, side: Side, t: nat)
    requires b.Inv() && t in b.Levels(side)
    ensures 0 < t <= b.p.tickLimit
  {
    hide Book.Structure;
    LevelsInWindow(b, side);
  }

  /** An occupied level with nothing before it is the best one. */
  lemma StillBest(b: Book, a: TakeArgs, t: nat)
    requires b.Inv() && ClearedBefore(b, a.side, t) && t in b.Levels(a.side.Opposite()) && Acceptable(a, t)
    ensures Best(b, a.side.Opposite()) == Some(t) && b.Levels(a.side.Opposite())[t] != []
    ensures Front(b, a) == Some(b.Levels(a.side.Opposite())[t][0])
    ensures b.orders[b.Levels(a.side.Opposite())[t][0]].tick == t
  {
    hide Book.Inv, Best;
    BestIsBest(b, a.side.Opposite());
    FrontAt(b, a, t);
  }

  lemma ShrunkCleared(b: Book, c: Book, side: Side, t: nat)
    requires Shrunk(b, c) && ClearedBefore(b, side, t)
    ensures ClearedBefore(c, side, t)
  {
    forall x | x in c.Levels(side.Opposite()) ensures x in b.Levels(side.Opposite()) {
      if side.Bid? { assert x in c.asks.Keys; } else { assert x in c.bids.Keys; }
    }
  }

  lemma SameWindow(b: Book, c: Book, t: nat)
    requires Shrunk(b, c) && b.InWindow(t)
    ensures c.InWindow(t)
  {}

  lemma LevelDone(b: Book, side: Side, t: nat)
    requires ClearedBefore(b, side, t) && t !in b.Levels(side.Opposite()) && b.InWindow(t)
    ensures Cleared(b, side, Some(t))
  {}

  lemma MatchEnds(b: Book, a: TakeArgs, rem: nat, res: TakeResult)
    requires b.Inv() && (rem == 0 || Front(b, a).None?)
    ensures Match(b, a, rem, res) == Ok((b, res))
  {
    hide Book.Inv, Front;
  }

  lemma FeesAccrue(r: Raw, b: Book, fee: u64)
    requires b.Inv() && Rep(r, b)
    ensures b.(fees := b.fees + fee).Inv()
    ensures Rep(r.(header := r.header.(fees := WrappingAdd(r.header.fees, fee))), b.(fees := b.fees + fee))
  {
    hide Book.Inv, QueuesRep, ChainsRep, FreeRep, NodesRep, FundsRep, WrappingAdd;
    Frames.FeesInv(b, fee);
    Frames.FeesKept(b);
    WrapBack(b.fees, fee);
    FeesLists(r, b, fee);
  }

  lemma FeesLists(r: Raw, b: Book, fee: nat)
    requires Lists(r, b)
    ensures Lists(r, b.(fees := b.fees + fee))
  {
    ListsSame(r, b, b.(fees := b.fees + fee));
  }

  lemma StartUnderway(b: Book, a: TakeArgs, maxLots: nat)
    requires maxLots <= b.p.maxLots
    ensures Underway(b.p, a, maxLots, NOTHING)
  {
    NothingAccumulated(b.p);
  }

  lemma NothingCleared(b: Book, side: Side)
    ensures Cleared(b, side, None)
  {}

  /** A round seen from the whole match. */
  lemma RoundTrans(b: Book, c: Book, d: Book, a: TakeArgs, rem0: nat, res0: TakeResult, rem: nat, res: TakeResult,
                   rem': nat, res': TakeResult)
    requires b.Inv() && c.Inv() && d.Inv() && RoundDone(c, d, a, rem, res, rem', res')
    requires Match(b, a, rem0, res0) == Match(c, a, rem, res) && c.p == b.p && c.anchor == b.anchor && c.fees == b.fees
    ensures Match(b, a, rem0, res0) == Match(d, a, rem', res') && d.p == b.p && d.anchor == b.anchor && d.fees == b.fees
    ensures Underway(d.p, a, rem', res') && Shrunk(c, d) && rem' <= rem
    ensures |d.orders| < |c.orders| || (|d.orders| == |c.orders| && rem' < rem)
  {
    hide Book.Inv, Match, Underway;
  }

  lemma TotalsFit(b: Book, a: TakeArgs, rem: nat, res: TakeResult)
    requires b.Inv() && Underway(b.p, a, rem, res)
    ensures res.quote + res.fee <= U64_MAX
  {
    hide Book.Structure;
    BudgetLeft(b.p, a, rem, res);
  }
}
