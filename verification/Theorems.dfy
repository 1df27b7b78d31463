/** The main results over whole runs. */
module Theorems {
  import opened Base
  import opened Bitmaps
  import opened Seqs
  import opened Books
  import opened Ops
  import opened Frames
  import opened Matching
  import opened Quoting
  import opened Merging
  import opened MassQuoting
  import opened Capacity
  import opened Hygiene
  import opened Reanchoring
  import opened Reaping
  import opened Venues
  import opened Runs

  // ---- one instruction ----

  lemma RemovedKept(b: Book, c: Book)
    requires b.Inv() && Removed(b, c)
    ensures BookKept(b, c, 0, 0)
  {
    hide Book.Inv, Filter;
    FewerCapped(b, c);
    QuietKept(b, c);
  }

  lemma ReapKept(b: Book, a: Reap, start: nat)
    requires b.Inv()
    ensures BookKept(b, Reaping.ReapExpired(b, a, start).0, 0, 0)
  {
    hide Book.Inv, Removed, BookKept, NoneDue, Earliest;
    ReapExact(b, a, start);
    RemovedKept(b, Reaping.ReapExpired(b, a, start).0);
  }

  lemma ReanchorKept(b: Book, target: nat, budget: nat)
    requires b.Inv() && WINDOW_MASK <= b.p.tickLimit && MoveOk(b, Ideal(b.p, target))
    ensures BookKept(b, Reanchoring.Reanchor(b, Ideal(b.p, target), 0, budget).0, 0, 0)
  {
    hide Book.Inv, Left, BookKept, Restricted, Reanchoring.Reanchor, Ideal;
    ReanchorRestricts(b, Ideal(b.p, target), 0, budget);
    MoveInv(b, Ideal(b.p, target), budget);
    LeftKept(b, Reanchoring.Reanchor(b, Ideal(b.p, target), 0, budget).0);
  }

  lemma MoveInv(b: Book, ideal: nat, budget: nat)
    requires MoveOk(b, ideal)
    ensures Reanchoring.Reanchor(b, ideal, 0, budget).0.Inv()
  {}

  lemma CancelKept(b: Book, seat: nat, node: nat, id: OrderId)
    requires b.Inv()
    ensures CancelOrder(b, seat, node, id).Ok? ==> BookKept(b, CancelOrder(b, seat, node, id).value, 0, 0)
  {
    hide Book.Inv, Removed, BookKept, Kill;
    if CancelOrder(b, seat, node, id).Ok? { RemovedKept(b, CancelOrder(b, seat, node, id).value); }
  }

  lemma MassQuoteKept(b: Book, m: nat, bids: seq<Quote>, asks: seq<Quote>, expiry: nat)
    requires b.Inv() && m < MAX_SEATS && expiry <= U32_MAX && MassQuoting.MassQuote(b, m, bids, asks, expiry).Ok?
    ensures BookKept(b, MassQuoting.MassQuote(b, m, bids, asks, expiry).value, 0, 0)
  {
    hide Book.Inv, BookKept, Quiet, OthersKept, Replaced, MassQuoting.MassQuote, Capped;
    MassQuoteReplaces(b, m, bids, asks, expiry);
    if Capped(b) { MassQuoteCapped(b, m, bids, asks, expiry); }
    QuietKept(b, MassQuoting.MassQuote(b, m, bids, asks, expiry).value);
  }

  lemma BookStepKept(v: Venue, c: Book)
    requires BookKept(v.book, c, 0, 0)
    ensures Kept(v, v.(book := c))
  {
    hide Book.Inv, Capped, Newer, Book.Claims;
  }

  /** Every successful instruction keeps the invariant, the seat cap, ids and both surpluses. */
  lemma ExecuteKept(v: Venue, i: Instruction)
    requires v.book.Inv() && Execute(v, i).Ok?
    ensures Kept(v, Execute(v, i).value)
  {
    hide Book.Inv, Kept, BookKept, Sound, DepositTo, WithdrawFrom, CollectFeesTo, PlaceLimitOn, PlaceTakeOn,
      CancelOrder,
      MassQuoting.MassQuote, Reanchoring.Reanchor, Reaping.ReapExpired, SwapBuy, SwapSell, WithFee, Ideal;
    match i
    case Deposit(seat, ba, qa, bd, qd) => DepositKept(v, seat, ba, qa, bd, qd);
    case Withdraw(seat, ba, qa) => WithdrawKept(v, seat, ba, qa);
    case CollectFees => FeesKept(v.book); CollectFeesKept(v);
    case UpdateFee(bps) => UpdateFeeKept(v.book, bps); BookStepKept(v, WithFee(v.book, bps));
    case PlaceLimit(seat, a, slot) =>
      PlaceLimitKept(v.book, seat, a, slot);
      BookStepKept(v, PlaceLimitOn(v.book, seat, a, slot).value);
    case PlaceTake(seat, side, limit, maxLots, minOut, slot, abort) =>
      PlaceTakeKept(v.book, seat, side, limit, maxLots, minOut, slot, abort);
      BookStepKept(v, PlaceTakeOn(v.book, seat, side, limit, maxLots, minOut, slot, abort).value);
    case Cancel(seat, node, id) =>
      CancelKept(v.book, seat, node, id);
      BookStepKept(v, CancelOrder(v.book, seat, node, id).value);
    case MassQuote(seat, bids, asks, expiry) =>
      MassQuoteKept(v.book, seat, bids, asks, expiry);
      BookStepKept(v, MassQuoting.MassQuote(v.book, seat, bids, asks, expiry).value);
    case Reanchor(target, maxLevels) =>
      IdealOk(v.book, target);
      ReanchorKept(v.book, target, maxLevels);
      BookStepKept(v, Execute(v, i).value.book);
    case ReapExpired(side, start, maxCount, slot) =>
      ReapKept(v.book, Reap(side, maxCount, slot), start);
      BookStepKept(v, Execute(v, i).value.book);
    case Swap(side, delta, limit, minOut, slot) =>
      if side.Bid? { SwapBuyKept(v, delta, limit, minOut, slot); } else { SwapSellKept(v, delta, limit, minOut, slot); }
  }

  // ---- errors that cannot happen ----

  /** A book operation never fails for want of vault funds, or, with the largest pool, of a node. */
  ghost predicate Errs(b: Book, r: Result<Book>) {
    r.Err? ==>
      && r.error != VaultShort && r.error != InvalidState
      && (b.p.capacity == MAX_POOL_CAPACITY && Capped(b) ==> r.error != PoolFull)
  }

  lemma UpsertErrs(b: Book, side: Side, tick: nat, lots: nat, m: nat, expiry: nat, slide: bool)
    requires b.Inv() && m < MAX_SEATS && expiry <= U32_MAX
    ensures Errs(b, Upsert(b, side, tick, lots, m, expiry, slide))
  {
    hide Book.Inv, Upsert, Capped;
    UpsertCapped(b, side, tick, lots, m, expiry, slide);
  }

  lemma KeptErrs(b: Book, c: Book, x: int, y: int, r: Result<Book>)
    requires BookKept(b, c, x, y) && Errs(c, r)
    ensures Errs(b, r)
  {
    hide Book.Inv, Capped, Book.Claims;
  }

  lemma SettleErrs(b: Book, c: Book, m: nat, side: Side, res: TakeResult, minOut: nat)
    requires c.Inv() && m < MAX_SEATS
    ensures Errs(b, SettleTaker(c, m, side, res, minOut))
  {
    hide Book.Inv, Capped, Moved;
  }

  lemma PlaceLimitErrs(b: Book, m: nat, a: LimitArgs, slot: nat)
    requires b.Inv() && m < MAX_SEATS
    ensures Errs(b, PlaceLimitOn(b, m, a, slot))
  {
    hide Book.Inv, Upsert, Take, SettleTaker, BookKept, Errs;
    if a.lots == 0 {
      UpsertErrs(b, a.side, a.tick, 0, m, a.expiry, false);
    } else if a.postOnly {
      UpsertErrs(b, a.side, a.tick, a.lots, m, a.expiry, !a.reject);
    } else {
      var t := TakeArgs(a.side, a.tick, U64_MAX, m, slot, a.reject);
      TakeErrs(b, t, a.lots);
      if Take(b, t, a.lots).Err? {
        OtherErrs(b, Take(b, t, a.lots).error);
      } else {
        RestErrs(b, m, a, slot, t);
      }
    }
  }

  lemma OtherErrs(b: Book, e: Error)
    requires e == InvalidLots || e == SelfTrade
    ensures Errs(b, Err(e))
  {}

  lemma RestErrs(b: Book, m: nat, a: LimitArgs, slot: nat, t: TakeArgs)
    requires b.Inv() && m < MAX_SEATS && t == TakeArgs(a.side, a.tick, U64_MAX, m, slot, a.reject)
    requires a.lots > 0 && !a.postOnly && Take(b, t, a.lots).Ok?
    ensures Errs(b, PlaceLimitOn(b, m, a, slot))
  {
    hide Book.Inv, Upsert, Take, SettleTaker, BookKept, Errs;
    TakerKept(b, m, t, a.lots, 0);
    TakeFacts(b, t, a.lots);
    var (c, res) := Take(b, t, a.lots).value;
    SettleErrs(b, c, m, a.side, res, 0);
    if SettleTaker(c, m, a.side, res, 0).Ok? {
      var d := SettleTaker(c, m, a.side, res, 0).value;
      SettledInv(c, m, a.side, res, 0);
      if a.lots == res.lots {
        FineErrs(b, d);
      } else {
        UpsertErrs(d, a.side, a.tick, a.lots - res.lots, m, a.expiry, false);
        KeptErrs(b, d, 0, 0, Upsert(d, a.side, a.tick, a.lots - res.lots, m, a.expiry, false));
      }
    }
  }

  lemma FineErrs(b: Book, c: Book)
    ensures Errs(b, Ok(c))
  {}

  lemma PlaceTakeErrs(b: Book, m: nat, side: Side, limit: nat, maxLots: nat, minOut: nat, slot: nat, abort: bool)
    requires b.Inv() && m < MAX_SEATS
    ensures Errs(b, PlaceTakeOn(b, m, side, limit, maxLots, minOut, slot, abort))
  {
    hide Book.Inv, Take, SettleTaker, Capped;
    var t := TakeArgs(side, limit, U64_MAX, m, slot, abort);
    TakeErrs(b, t, maxLots);
    TakeInv(b, t, maxLots);
    if Take(b, t, maxLots).Ok? {
      SettleErrs(b, Take(b, t, maxLots).value.0, m, side, Take(b, t, maxLots).value.1, minOut);
    }
  }

  /** Errors of one instruction on a venue. */
  ghost predicate VenueErrs(v: Venue, r: Result<Venue>) {
    r.Err? ==>
      && (Sound(v) ==> r.error != VaultShort) && r.error != InvalidState
      && (v.book.p.capacity == MAX_POOL_CAPACITY && Capped(v.book) ==> r.error != PoolFull)
  }

  lemma OnBookErrs(v: Venue, r: Result<Book>)
    requires Errs(v.book, r)
    ensures VenueErrs(v, OnBook(v, r))
  {
    hide Book.Inv, Capped;
  }

  /**
   No instruction ever fails on a corrupt lock; on a sound venue every outgoing transfer is
   covered; and with the largest pool no instruction runs out of nodes.
   */
  lemma ExecuteErrs(v: Venue, i: Instruction)
    requires v.book.Inv()
    ensures VenueErrs(v, Execute(v, i))
  {
    hide Book.Inv, Capped, Sound, PlaceLimitOn, PlaceTakeOn, MassQuoting.MassQuote, Reanchoring.Reanchor, Errs,
      Reaping.ReapExpired, Ideal, Take, SellTake, Moved, OnBook;
    if SeatOf(i) < MAX_SEATS {
      match i
      case Withdraw(seat, ba, qa) => WithdrawKept(v, seat, ba, qa);
      case CollectFees => FeesKept(v.book); CollectFeesKept(v);
      case PlaceLimit(seat, a, slot) =>
        PlaceLimitErrs(v.book, seat, a, slot);
        OnBookErrs(v, PlaceLimitOn(v.book, seat, a, slot));
      case PlaceTake(seat, side, limit, maxLots, minOut, slot, abort) =>
        PlaceTakeErrs(v.book, seat, side, limit, maxLots, minOut, slot, abort);
        OnBookErrs(v, PlaceTakeOn(v.book, seat, side, limit, maxLots, minOut, slot, abort));
      case Cancel(seat, node, id) =>
        CancelErrs(v.book, CancelOrder(v.book, seat, node, id));
        OnBookErrs(v, CancelOrder(v.book, seat, node, id));
      case MassQuote(seat, bids, asks, expiry) =>
        MassQuoteErrs(v.book, seat, bids, asks, expiry);
        OnBookErrs(v, MassQuoting.MassQuote(v.book, seat, bids, asks, expiry));
      case Swap(side, delta, limit, minOut, slot) => SwapErrs(v, side, delta, limit, minOut, slot);
      case _ =>
    }
  }

  lemma CancelErrs(b: Book, r: Result<Book>)
    requires r.Err? ==> r.error == OrderNotFound
    ensures Errs(b, r)
  {}

  lemma MassQuoteErrs(b: Book, m: nat, bids: seq<Quote>, asks: seq<Quote>, expiry: nat)
    requires b.Inv() && m < MAX_SEATS && expiry <= U32_MAX
    ensures Errs(b, MassQuoting.MassQuote(b, m, bids, asks, expiry))
  {
    hide Book.Inv, Capped, MassQuoting.MassQuote;
    MassQuoteNeverFull(b, m, bids, asks, expiry);
  }

  lemma SwapErrs(v: Venue, side: Side, delta: u64, limit: nat, minOut: nat, slot: nat)
    requires v.book.Inv()
    ensures VenueErrs(v, if side.Bid? then SwapBuy(v, delta, limit, minOut, slot)
      else SwapSell(v, delta, limit, minOut, slot))
  {
    hide Book.Inv, Capped, Sound, Take, SellTake;
    if side.Bid? {
      SwapBuyKept(v, delta, limit, minOut, slot);
      TakeErrs(v.book, TakeArgs(Bid, limit, delta, NO_SEAT, slot, false), v.book.p.maxLots);
    } else {
      SwapSellKept(v, delta, limit, minOut, slot);
      SellErrs(v.book, delta, limit, slot);
    }
  }

  lemma SellErrs(b: Book, delta: nat, limit: nat, slot: nat)
    requires b.Inv()
    ensures var r := SellTake(b, delta, limit, slot); r.Err? ==> r.error == InvalidLots || r.error == SelfTrade
  {
    hide Book.Inv, Take;
    ParamsOk(b);
    var lots := Min(Quotient(delta, b.p.lotSize), b.p.maxLots);
    TakeErrs(b, TakeArgs(Ask, limit, U64_MAX, NO_SEAT, slot, false), lots);
  }

  // ---- whole runs ----

  /** A failed instruction is reverted: the state is as it was. */
  ghost function After(v: Venue, i: Instruction): (w: Venue)
    requires v.book.Inv()
    ensures w.book.Inv()
  {
    hide Book.Inv, Kept;
    match Execute(v, i)
    case Err(_) => v
    case Ok(w) => ExecuteKept(v, i); KeptInv(v, w); w
  }

  lemma KeptInv(v: Venue, w: Venue)
    requires Kept(v, w)
    ensures w.book.Inv()
  {}

  ghost function Run(v: Venue, run: seq<Instruction>): (w: Venue)
    requires v.book.Inv()
    ensures w.book.Inv()
    decreases |run|
  {
    hide Book.Inv, After;
    if run == [] then v else Run(After(v, run[0]), run[1..])
  }

  lemma NextKept(v: Venue, i: Instruction)
    requires v.book.Inv()
    ensures Kept(v, After(v, i))
  {
    hide Book.Inv, Kept, Execute;
    if Execute(v, i).Ok? { ExecuteKept(v, i); } else { NothingKept(v); }
  }

  /** Any run keeps the invariant, the cap, id freshness, and for each asset vault minus claims. */
  lemma {:induction false} RunKept(v: Venue, run: seq<Instruction>)
    requires v.book.Inv()
    ensures Kept(v, Run(v, run))
    decreases |run|
  {
    hide Book.Inv, Kept, After;
    if run == [] {
      NothingKept(v);
    } else {
      NextKept(v, run[0]);
      RunKept(After(v, run[0]), run[1..]);
      KeptTrans(v, After(v, run[0]), Run(v, run));
    }
  }

  lemma KeptSound(v: Venue, w: Venue)
    requires Sound(v) && Kept(v, w)
    ensures Sound(w)
  {
    hide Book.Inv, Capped, Newer;
  }

  /**
   From a sound venue every run stays sound: claims never exceed the vaults, so no
   credit wraps; no instruction in it finds a vault short or a lock corrupt; and with
   the largest pool none runs out of nodes.
   */
  lemma RunSound(v: Venue, run: seq<Instruction>, i: Instruction)
    requires Sound(v)
    ensures Sound(Run(v, run)) && Run(v, run).book.Fits()
    ensures Execute(Run(v, run), i) != Err(VaultShort) && Execute(Run(v, run), i) != Err(InvalidState)
    ensures v.book.p.capacity == MAX_POOL_CAPACITY ==> Execute(Run(v, run), i) != Err(PoolFull)
  {
    hide Book.Inv, Capped, Newer, Execute, Run;
    RunKept(v, run);
    KeptSound(v, Run(v, run));
    ExecuteErrs(Run(v, run), i);
  }

  /** A handle that went stale during a run is refused for the rest of it. */
  lemma RunRefusesStale(v: Venue, before: seq<Instruction>, after: seq<Instruction>, h: nat, seat: nat)
    requires Sound(v) && h in v.book.orders
    requires var d := Run(v, before).book; h in d.orders ==> d.orders[h].stamp != v.book.orders[h].stamp
    requires Run(Run(v, before), after).book.issued <= v.book.orders[h].stamp + FREED_SEQ
    ensures CancelOrder(Run(Run(v, before), after).book, seat, h, v.book.orders[h].Id()) == Err(OrderNotFound)
  {
    hide Book.Inv, Capped, Run, CancelOrder, Surplus;
    RunKept(v, before);
    RunKept(Run(v, before), after);
    StaleRefused(v.book, Run(v, before).book, Run(Run(v, before), after).book, h, seat);
  }
}
