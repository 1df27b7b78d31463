/** The instruction handlers over a market account and its two vaults. */
module Handlers {
  import opened Base
  import opened Books
  import opened Matching
  import opened Layout
  import opened Represent
  import opened Posting
  import opened Engine
  import opened Outcomes
  import Quoting
  import Markets
  import Reaping
  import Venues
  import Runs

  class Program {
    const market: BookRefMut
    var vaultBase: u64
    var vaultQuote: u64

    ghost function State(): Venues.Venue
      reads this, market
    {
      Venues.Venue(market.book, vaultBase, vaultQuote)
    }

    ghost predicate Valid()
      reads this, market, market.Arrays()
    {
      market.Valid() && Runs.Sound(State())
    }

    /** The handler's outcome is the one wanted: that error, or that state. */
    ghost predicate Becomes(r: Result<()>, want: Result<Venues.Venue>)
      reads this, market, market.Arrays()
    {
      match want
      case Err(e) => r == Err(e)
      case Ok(w) => r.Ok? && market.Valid() && State() == w
    }

    constructor (h: Market, vaultBase: u64, vaultQuote: u64)
      requires Created(h, vaultBase, vaultQuote)
      ensures Valid() && State() == CreatedVenue(h, vaultBase, vaultQuote)
    {
      hide Book.Inv, CreatedVenue, Created, Rep, Runs.Sound, Markets.EmptyBook;
      CreatedFacts(h, vaultBase, vaultQuote);
      market := new BookRefMut(h);
      this.vaultBase := vaultBase;
      this.vaultQuote := vaultQuote;
    }

    // ---- balances ----

    /** A stored free balance, exact while it cannot have wrapped. */
    method FreeOf(m: u16, base: bool) returns (free: u64)
      requires market.Valid() && SeatFits(market.book, m)
      ensures free == market.book.balances[m].Free(base)
    {
      hide Book.Inv, Rep;
      SeatExact(market.Snapshot(), market.book, m);
      free := if base then market.seats[m].baseFree else market.seats[m].quoteFree;
    }

    /** Take `amount` off a free balance, if it is there. */
    method Debit(m: u16, base: bool, amount: u64) returns (r: Result<()>)
      requires market.Valid() && SeatFits(market.book, m) && m < MAX_SEATS
      modifies market`book, market.seats
      ensures market.Valid()
      ensures old(market.book).balances[m].Free(base) < amount ==>
        r == Err(InsufficientBalance) && market.book == old(market.book)
      ensures amount <= old(market.book).balances[m].Free(base) ==>
        r.Ok? && market.book == Venues.Moved(old(market.book), m, base, 0 - amount) && SeatFits(market.book, m)
    {
      hide Book.Inv, Rep, WrappingAdd;
      var free := FreeOf(m, base);
      if free < amount { return Err(InsufficientBalance); }
      WrapsNot(free, 0 - amount);
      market.SetFree(m, base, free - amount, 0 - amount);
      return Ok(());
    }

    /** Credit a free balance, wrapping as the program does. */
    method Credit(m: u16, base: bool, amount: u64)
      requires market.Valid() && SeatFits(market.book, m) && m < MAX_SEATS
      modifies market`book, market.seats
      ensures market.Valid() && market.book == Venues.Moved(old(market.book), m, base, amount)
    {
      hide Book.Inv, Rep, WrappingAdd;
      var free := FreeOf(m, base);
      market.SetFree(m, base, WrappingAdd(free, amount), amount);
    }

    /** An outgoing transfer. */
    method Push(base: bool, amount: u64) returns (r: Result<()>)
      modifies this
      ensures match Venues.Push(old(State()), base, amount)
              case Err(e) => r == Err(e)
              case Ok(w) => r.Ok? && State() == w
    {
      if base {
        if vaultBase < amount { return Err(VaultShort); }
        vaultBase := vaultBase - amount;
      } else {
        if vaultQuote < amount { return Err(VaultShort); }
        vaultQuote := vaultQuote - amount;
      }
      return Ok(());
    }

    /** Pull one leg of a deposit and credit what arrived. */
    method DepositLeg(m: u16, base: bool, atoms: u64, delta: u64) returns (r: Result<()>)
      requires Valid() && m < MAX_SEATS
      modifies this, market`book, market.seats
      ensures Becomes(r, LegDeposited(old(State()), m, base, atoms, delta))
      ensures r.Ok? ==> Valid()
    {
      hide Book.Inv, Rep, Runs.Sound, LegDeposited;
      LegIs(State(), m, base, atoms, delta);
      SoundSeat(State(), m);
      if atoms == 0 { return Ok(()); }
      var pre := if base then vaultBase else vaultQuote;
      if pre + delta > U64_MAX { return Err(TransferFailed); }
      var free := FreeOf(m, base);
      if base { vaultBase := pre + delta; } else { vaultQuote := pre + delta; }
      var post := if base then vaultBase else vaultQuote;
      if free + (post - pre) > U64_MAX { return Err(ArithmeticOverflow); }
      WrapsNot(free, post - pre);
      market.SetFree(m, base, free + (post - pre), post - pre);
      return Ok(());
    }

    method Deposit(m: u16, baseAtoms: u64, quoteAtoms: u64, baseDelta: u64, quoteDelta: u64) returns (r: Result<()>)
      requires Valid() && m < MAX_SEATS
      modifies this, market`book, market.seats
      ensures Becomes(r, Deposited(old(State()), m, baseAtoms, quoteAtoms, baseDelta, quoteDelta))
    {
      hide Book.Inv, Rep, Runs.Sound, LegDeposited, Deposited;
      DepositIs(State(), m, baseAtoms, quoteAtoms, baseDelta, quoteDelta);
      r := DepositLeg(m, true, baseAtoms, baseDelta);
      if r.Err? { return; }
      r := DepositLeg(m, false, quoteAtoms, quoteDelta);
    }

    /** The outgoing legs, each skipped when there is nothing to pay. */
    method PayOut(baseOut: u64, quoteOut: u64) returns (r: Result<()>)
      modifies this
      ensures match PaidOut(old(State()), baseOut, quoteOut)
              case Err(e) => r == Err(e)
              case Ok(w) => r.Ok? && State() == w
    {
      if baseOut > 0 {
        r := Push(true, baseOut);
        if r.Err? { return; }
      }
      if quoteOut > 0 {
        r := Push(false, quoteOut);
        if r.Err? { return; }
      }
      return Ok(());
    }

    method Withdraw(m: u16, baseAtoms: u64, quoteAtoms: u64) returns (r: Result<()>)
      requires Valid() && m < MAX_SEATS
      modifies this, market`book, market.seats
      ensures Becomes(r, Withdrawn(old(State()), m, baseAtoms, quoteAtoms))
    {
      hide Book.Inv, Rep, Runs.Sound, Withdrawn, Venues.Moved, PaidOut;
      WithdrawIs(State(), m, baseAtoms, quoteAtoms);
      var baseFree := FreeOf(m, true);
      var quoteFree := FreeOf(m, false);
      var baseOut := if baseAtoms == U64_MAX then baseFree else baseAtoms;
      var quoteOut := if quoteAtoms == U64_MAX then quoteFree else quoteAtoms;
      if baseFree < baseOut || quoteFree < quoteOut { return Err(InsufficientBalance); }
      var base := Debit(m, true, baseOut);
      if base.Err? { return base; }
      var quote := Debit(m, false, quoteOut);
      if quote.Err? { return quote; }
      r := PayOut(baseOut, quoteOut);
    }

    // ---- takers ----

    /** Settle the taker's own leg after the minimum-output check. */
    method SettleTaker(m: u16, side: Side, res: TakeResult, minOut: u64) returns (r: Result<()>)
      requires market.Valid() && SeatFits(market.book, m) && m < MAX_SEATS && res.lots <= market.book.p.maxLots
      requires res.fee <= res.quote && res.quote + res.fee <= U64_MAX
      modifies market`book, market.seats
      ensures match TakerSettled(old(market.book), m, side, res, minOut)
              case Err(e) => r == Err(e)
              case Ok(c) => r.Ok? && market.Valid() && market.book == c
    {
      hide Book.Inv, Rep, Venues.Moved, TakerSettled, Params.Ok, HeaderRep, Lists, WrappingAdd, Params.BaseAtoms;
      SettleIs(market.book, m, side, res, minOut);
      RepHeader(market.Snapshot(), market.book);
      Venues.ParamsOk(market.book);
      var baseAtoms := market.BaseAtoms(res.lots);
      if side.Bid? {
        if baseAtoms < minOut { return Err(SlippageExceeded); }
        r := Debit(m, false, res.quote + res.fee);
        if r.Err? { return; }
        Credit(m, true, baseAtoms);
      } else {
        if res.quote - res.fee < minOut { return Err(SlippageExceeded); }
        r := Debit(m, true, baseAtoms);
        if r.Err? { return; }
        Credit(m, false, res.quote - res.fee);
      }
    }

    method PlaceTake(m: u16, side: Side, limit: u32, maxLots: u32, minOut: u64, slot: u64, abort: bool)
      returns (r: Result<()>)
      requires Valid() && m < MAX_SEATS
      modifies market, market.levels, market.seats, market.pool, market.SideArrays(Bid), market.SideArrays(Ask)
      ensures Becomes(r, TakePlaced(old(State()), m, side, limit, maxLots, minOut, slot, abort))
    {
      hide Book.Inv, Rep, Runs.Sound, TakePlaced, TakerSettled, Matching.Take;
      TakePlacedIs(State(), m, side, limit, maxLots, minOut, slot, abort);
      var taken := market.Take(TakeArgs(side, limit, U64_MAX, m, slot, abort), maxLots);
      if taken.Err? { return Err(taken.error); }
      r := SettleTaker(m, side, taken.value, minOut);
    }

    /** Rest or cancel one quote. */
    method UpsertQuote(m: u16, side: Side, tick: u32, lots: u32, expiry: u32, slide: bool) returns (r: Result<()>)
      requires market.Valid() && market.book.Fits() && m < MAX_SEATS
      modifies market, market.levels, market.seats, market.pool, market.SideArrays(Bid), market.SideArrays(Ask)
      ensures Becomes(r, Upserted(old(State()), side, tick, lots, m, expiry, slide))
    {
      hide Book.Inv, Rep, Quoting.Upsert, Book.Fits;
      var done := market.UpsertOrder(side, tick, lots, m, expiry, slide);
      if done.Err? { return Err(done.error); }
      return Ok(());
    }

    /** Cancel at size zero, post only, or match, settle and rest the remainder. */
    method PlaceLimit(m: u16, a: Venues.LimitArgs, slot: u64) returns (r: Result<()>)
      requires Valid() && m < MAX_SEATS
      modifies market, market.levels, market.seats, market.pool, market.SideArrays(Bid), market.SideArrays(Ask)
      ensures Becomes(r, LimitPlaced(old(State()), m, a, slot))
    {
      hide Book.Inv, Rep, Runs.Sound, LimitPlaced, TakerSettled, Upserted, Matching.Take, Book.Fits;
      if a.lots == 0 {
        PostOnlyIs(State(), m, a, slot);
        r := UpsertQuote(m, a.side, a.tick, 0, a.expiry, false);
        return;
      }
      if a.postOnly {
        PostOnlyIs(State(), m, a, slot);
        r := UpsertQuote(m, a.side, a.tick, a.lots, a.expiry, !a.reject);
        return;
      }
      CrossingIs(State(), m, a, slot);
      var args := TakeArgs(a.side, a.tick, U64_MAX, m, slot, a.reject);
      var taken := market.Take(args, a.lots);
      if taken.Err? { return Err(taken.error); }
      var res := taken.value;
      if res.lots > 0 {
        r := SettleTaker(m, a.side, res, 0);
        if r.Err? { return; }
      } else {
        TookNothing(old(market.book), args, a.lots);
        SettleNothing(market.book, m, a.side, res);
      }
      if a.lots - res.lots > 0 {
        r := UpsertQuote(m, a.side, a.tick, a.lots - res.lots, a.expiry, false);
        return;
      }
      return Ok(());
    }

    // ---- swaps ----

    /** Pull quote, match against what arrived, refund the rest and push the base out. */
    method SwapBuy(delta: u64, limit: u32, minOut: u64, slot: u64) returns (r: Result<()>)
      requires Valid()
      modifies this, market, market.levels, market.seats, market.pool, market.SideArrays(Bid), market.SideArrays(Ask)
      ensures Becomes(r, Swapped(old(State()), Bid, delta, limit, minOut, slot))
    {
      hide Book.Inv, Rep, Runs.Sound, Swapped, Matching.Take, Params.Ok, Params.BaseAtoms, HeaderRep, Lists;
      SwapBuyIs(State(), delta, limit, minOut, slot);
      RepHeader(market.Snapshot(), market.book);
      HeaderLots(market.header, market.book);
      var pre := vaultQuote;
      if pre + delta > U64_MAX { return Err(TransferFailed); }
      vaultQuote := pre + delta;
      var arrived := vaultQuote - pre;
      var taken := market.Take(TakeArgs(Bid, limit, arrived, NO_SEAT, slot, false), market.header.maxLots);
      if taken.Err? { return Err(taken.error); }
      var res := taken.value;
      RepHeader(market.Snapshot(), market.book);
      var baseAtoms := market.BaseAtoms(res.lots);
      if baseAtoms < minOut { return Err(SlippageExceeded); }
      var consumed: u64 := res.quote + res.fee;
      var leftover: u64 := arrived - consumed;
      if leftover > 0 {
        r := Push(false, leftover);
        if r.Err? { return; }
      }
      r := Push(true, baseAtoms);
    }

    /** Match whole lots of what arrived; less than one lot matches nothing. */
    method SellWholeLots(delta: u64, limit: u32, slot: u64) returns (r: Result<TakeResult>)
      requires market.Valid()
      modifies market, market.levels, market.seats, market.pool, market.SideArrays(Bid), market.SideArrays(Ask)
      ensures match Sold(old(market.book), delta, limit, slot)
              case Err(e) => r == Err(e)
              case Ok((c, res)) =>
                && r == Ok(res) && market.Valid() && market.book == c
                && res.quote + res.fee <= U64_MAX && res.lots <= old(market.book).p.maxLots
    {
      hide Book.Inv, Rep, Sold, Matching.Take, HeaderRep, Lists;
      SoldIs(market.book, delta, limit, slot);
      RepHeader(market.Snapshot(), market.book);
      HeaderLots(market.header, market.book);
      var lotsIn := delta / market.header.lotSize;
      var maxLots := Min(lotsIn, market.header.maxLots);
      if maxLots == 0 { return Ok(NOTHING); }
      r := market.Take(TakeArgs(Ask, limit, U64_MAX, NO_SEAT, slot, false), maxLots);
    }

    /** Pull base, match whole lots, refund the rest and push the quote out, net of fee. */
    method SwapSell(delta: u64, limit: u32, minOut: u64, slot: u64) returns (r: Result<()>)
      requires Valid()
      modifies this, market, market.levels, market.seats, market.pool, market.SideArrays(Bid), market.SideArrays(Ask)
      ensures Becomes(r, Swapped(old(State()), Ask, delta, limit, minOut, slot))
    {
      hide Book.Inv, Rep, Runs.Sound, Swapped, Sold, Params.Ok, Params.BaseAtoms, HeaderRep, Lists;
      SwapSellIs(State(), delta, limit, minOut, slot);
      var pre := vaultBase;
      if pre + delta > U64_MAX { return Err(TransferFailed); }
      vaultBase := pre + delta;
      var arrived := vaultBase - pre;
      var taken := SellWholeLots(arrived, limit, slot);
      if taken.Err? { return Err(taken.error); }
      var res := taken.value;
      RepHeader(market.Snapshot(), market.book);
      HeaderLots(market.header, market.book);
      var out: u64 := res.quote - res.fee;
      if out < minOut { return Err(SlippageExceeded); }
      var consumed := market.BaseAtoms(res.lots);
      var leftover: u64 := arrived - consumed;
      if leftover > 0 {
        r := Push(true, leftover);
        if r.Err? { return; }
      }
      r := Push(false, out);
    }

    // ---- the rest ----

    /** Drain the accrued fees. */
    method CollectFees() returns (r: Result<()>)
      requires Valid()
      modifies this, market
      ensures Becomes(r, Executed(old(State()), Runs.CollectFees))
    {
      hide Book.Inv, Rep, Runs.Sound;
      CollectIs(State());
      var amount := market.TakeFeesAccrued();
      if amount > 0 {
        r := Push(false, amount);
        return;
      }
      return Ok(());
    }

    // The dispatch, by what an instruction works on.

    method ProcessFunds(i: Runs.Instruction) returns (r: Result<()>)
      requires Valid() && (i.Deposit? || i.Withdraw? || i.CollectFees? || i.UpdateFee?)
      requires Runs.SeatOf(i) < MAX_SEATS
      modifies this, market, market.seats
      ensures Becomes(r, Executed(old(State()), i))
    {
      hide Book.Inv, Rep, Runs.Sound, Executed, Deposited, Withdrawn;
      ExecutedIs(State(), i);
      match i
      case Deposit(seat, ba, qa, bd, qd) => r := Deposit(seat, ba, qa, bd, qd);
      case Withdraw(seat, ba, qa) => r := Withdraw(seat, ba, qa);
      case CollectFees => r := CollectFees();
      case UpdateFee(bps) => r := market.SetFeeBps(bps);
    }

    method ProcessOrders(i: Runs.Instruction) returns (r: Result<()>)
      requires Valid() && (i.PlaceLimit? || i.PlaceTake? || i.Cancel? || i.MassQuote?)
      requires Runs.SeatOf(i) < MAX_SEATS
      modifies market, market.levels, market.seats, market.pool, market.SideArrays(Bid), market.SideArrays(Ask)
      ensures Becomes(r, Executed(old(State()), i))
    {
      hide Book.Inv, Rep, Runs.Sound, Executed, LimitPlaced, TakePlaced, Book.Fits;
      SoundFits(State());
      ExecutedIs(State(), i);
      match i
      case PlaceLimit(seat, a, slot) => r := PlaceLimit(seat, a, slot);
      case PlaceTake(seat, side, limit, maxLots, minOut, slot, abort) =>
        r := PlaceTake(seat, side, limit, maxLots, minOut, slot, abort);
      case Cancel(seat, node, id) => r := market.CancelOrder(seat, node, id);
      case MassQuote(seat, bids, asks, expiry) => r := market.MassQuote(seat, bids, asks, expiry);
    }

    method ProcessOpen(i: Runs.Instruction) returns (r: Result<()>)
      requires Valid() && (i.Reanchor? || i.ReapExpired? || i.Swap?)
      modifies this, market, market.levels, market.seats, market.pool, market.SideArrays(Bid), market.SideArrays(Ask)
      ensures Becomes(r, Executed(old(State()), i))
    {
      hide Book.Inv, Rep, Runs.Sound, Executed, Swapped, Book.Fits;
      SoundFits(State());
      ExecutedIs(State(), i);
      match i
      case Reanchor(target, maxLevels) =>
        var moved := market.ReanchorStep(target, maxLevels);
        r := Ok(());
      case ReapExpired(side, start, maxCount, slot) =>
        var reaped := market.ReapExpired(Reaping.Reap(side, maxCount, slot), start);
        r := Ok(());
      case Swap(side, delta, limit, minOut, slot) =>
        if side.Bid? { r := SwapBuy(delta, limit, minOut, slot); } else { r := SwapSell(delta, limit, minOut, slot); }
    }

    /** One instruction, from a sound venue: its outcome is exactly what `Execute` says. */
    method Process(i: Runs.Instruction) returns (r: Result<()>)
      requires Valid()
      modifies this, market, market.levels, market.seats, market.pool, market.SideArrays(Bid), market.SideArrays(Ask)
      ensures Becomes(r, Executed(old(State()), i))
      ensures r.Ok? ==> Valid()
    {
      hide Book.Inv, Rep, Runs.Sound, Executed;
      ExecutedSound(State(), i);
      if Runs.SeatOf(i) >= MAX_SEATS { return Err(InvalidSeatIndex); }
      if i.Deposit? || i.Withdraw? || i.CollectFees? || i.UpdateFee? {
        r := ProcessFunds(i);
      } else if i.PlaceLimit? || i.PlaceTake? || i.Cancel? || i.MassQuote? {
        r := ProcessOrders(i);
      } else {
        r := ProcessOpen(i);
      }
    }
  }
}
