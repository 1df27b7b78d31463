/** The instructions over a market and its two vaults. */
module Venues {
  import opened Base
  import opened Books
  import opened Ops
  import opened Frames
  import opened Matching
  import opened MatchingProperties
  import opened Budgets
  import opened Quoting
  datatype Venue = Venue(book: Book, vaultBase: nat, vaultQuote: nat) {
    function Vault(base: bool): nat { if base then vaultBase else vaultQuote }
    function WithVault(base: bool, amount: nat): Venue {
      if base then this.(vaultBase := amount) else this.(vaultQuote := amount)
    }
  }

  // ---- token transfers ----

  /** A pull into a vault; the amount observed may be less than the amount asked for. */
  function Pull(v: Venue, base: bool, delta: nat): Result<Venue> {
    if v.Vault(base) + delta > U64_MAX then Err(TransferFailed)
    else Ok(v.WithVault(base, v.Vault(base) + delta))
  }

  function Push(v: Venue, base: bool, amount: nat): Result<Venue> {
    if v.Vault(base) < amount then Err(VaultShort)
    else Ok(v.WithVault(base, v.Vault(base) - amount))
  }

  // ---- seat balances ----

  ghost function Moved(b: Book, m: nat, base: bool, free: int): Book
    requires m < |b.balances|
  {
    WithBalance(b, m, b.balances[m].Move(base, free, 0))
  }

  lemma MovedFunds(b: Book, m: nat, base: bool, free: int)
    requires b.Inv() && m < MAX_SEATS
    ensures m < |b.balances|
    ensures 0 <= b.balances[m].Free(base) + free ==> Moved(b, m, base, free).Inv()
  {
    SeatExists(b, m);
    if 0 <= b.balances[m].Free(base) + free {
      SameStructure(b, Moved(b, m, base, free));
      MovedFundsLocks(b, m, base, free);
    }
  }

  lemma SeatExists(b: Book, m: nat)
    requires b.Inv() && m < MAX_SEATS
    ensures m < |b.balances| == |b.chains| == MAX_SEATS && 0 <= b.balances[m].Free(true)
      && 0 <= b.balances[m].Free(false)
  {}

  lemma MovedFundsLocks(b: Book, m: nat, base: bool, free: int)
    requires b.LocksExact() && m < |b.balances| && 0 <= b.balances[m].Free(base) + free
    ensures Moved(b, m, base, free).LocksExact()
  {
    var c := Moved(b, m, base, free);
    forall j, side | 0 <= j < |c.balances|
      ensures c.balances[j].Locked(side) == c.ChainLock(j, side) && 0 <= c.balances[j].Free(side)
    {
      assert b.balances[j].Locked(side) == b.ChainLock(j, side) && 0 <= b.balances[j].Free(side);
    }
  }

  // ---- deposit, withdraw, fees ----

  /** One leg of a deposit: pull, then credit what arrived. */
  ghost function DepositLeg(v: Venue, m: nat, base: bool, atoms: nat, delta: nat): (r: Result<Venue>)
    requires v.book.Inv() && m < MAX_SEATS
    ensures r.Ok? ==> r.value.book.Inv()
  {
    if atoms == 0 then Ok(v) else
      match Pull(v, base, delta)
      case Err(e) => Err(e)
      case Ok(w) =>
        MovedFunds(v.book, m, base, delta);
        SeatExists(v.book, m);
        if v.book.balances[m].Free(base) + delta > U64_MAX then Err(ArithmeticOverflow)
        else Ok(w.(book := Moved(v.book, m, base, delta)))
  }

  ghost function DepositTo(v: Venue, m: nat, baseAtoms: nat, quoteAtoms: nat, baseDelta: nat,
      quoteDelta: nat): Result<Venue>
    requires v.book.Inv() && m < MAX_SEATS
  {
    match DepositLeg(v, m, true, baseAtoms, baseDelta)
    case Err(e) => Err(e)
    case Ok(w) => DepositLeg(w, m, false, quoteAtoms, quoteDelta)
  }

  /** The amount asked for; all ones means everything free. */
  function Asked(atoms: nat, free: int): int { if atoms == U64_MAX then free else atoms }

  ghost function WithdrawFrom(v: Venue, m: nat, baseAtoms: nat, quoteAtoms: nat): Result<Venue>
    requires v.book.Inv() && m < MAX_SEATS
  {
    SeatExists(v.book, m);
    var s := v.book.balances[m];
    var baseOut, quoteOut := Asked(baseAtoms, s.baseFree), Asked(quoteAtoms, s.quoteFree);
    if s.baseFree < baseOut || s.quoteFree < quoteOut then Err(InsufficientBalance) else
      var b := Moved(Moved(v.book, m, true, 0 - baseOut), m, false, 0 - quoteOut);
      match Push(v.(book := b), true, baseOut)
      case Err(e) => Err(e)
      case Ok(w) => Push(w, false, quoteOut)
  }

  ghost function CollectFeesTo(v: Venue): Result<Venue>
    requires 0 <= v.book.fees
  {
    Push(v.(book := v.book.(fees := 0)), false, v.book.fees)
  }

  // ---- takers ----

  /** The taker's leg on its own seat, after the minimum-output check. */
  ghost function SettleTaker(b: Book, m: nat, side: Side, res: TakeResult, minOut: nat): Result<Book>
    requires b.Inv() && m < MAX_SEATS
  {
    SeatExists(b, m);
    var s, atoms := b.balances[m], b.p.BaseAtoms(res.lots);
    if side.Bid? then
      if atoms < minOut then Err(SlippageExceeded)
      else if s.quoteFree < res.quote + res.fee then Err(InsufficientBalance)
      else Ok(Moved(Moved(b, m, false, 0 - res.quote - res.fee), m, true, atoms))
    else
      if res.quote - res.fee < minOut then Err(SlippageExceeded)
      else if s.baseFree < atoms then Err(InsufficientBalance)
      else Ok(Moved(Moved(b, m, true, 0 - atoms), m, false, res.quote - res.fee))
  }

  lemma TakeInv(b: Book, a: TakeArgs, maxLots: nat)
    requires b.Inv()
    ensures Take(b, a, maxLots).Ok? ==> Take(b, a, maxLots).value.0.Inv()
  {
    hide Book.Inv, Match, Later;
    if Take(b, a, maxLots).Ok? {
      MatchTrades(b, a, maxLots, NOTHING);
      var (c, res) := Match(b, a, maxLots, NOTHING).value;
      FeesInv(c, res.fee);
    }
  }

  /** `PlaceTake`: match, then settle the taker. */
  ghost function PlaceTakeOn(b: Book, m: nat, side: Side, limit: nat, maxLots: nat, minOut: nat, slot: nat,
      abort: bool): Result<Book>
    requires b.Inv() && m < MAX_SEATS
  {
    TakeInv(b, TakeArgs(side, limit, U64_MAX, m, slot, abort), maxLots);
    match Take(b, TakeArgs(side, limit, U64_MAX, m, slot, abort), maxLots)
    case Err(e) => Err(e)
    case Ok((c, res)) => SettleTaker(c, m, side, res, minOut)
  }

  datatype LimitArgs = LimitArgs(side: Side, tick: u32, lots: u32, expiry: u32, postOnly: bool, reject: bool)

  lemma SettledInv(b: Book, m: nat, side: Side, res: TakeResult, minOut: nat)
    requires b.Inv() && m < MAX_SEATS && res.fee <= res.quote
    ensures SettleTaker(b, m, side, res, minOut).Ok? ==>
      SettleTaker(b, m, side, res, minOut).value.Inv()
  {
    hide Book.Inv, Moved;
    SeatExists(b, m);
    var r := SettleTaker(b, m, side, res, minOut);
    if r.Ok? {
      var first := if side.Bid? then 0 - res.quote - res.fee else 0 - b.p.BaseAtoms(res.lots);
      MovedFunds(b, m, side.Ask?, first);
      MovedIs(b, m, side.Ask?, first);
      MovedFunds(Moved(b, m, side.Ask?, first), m, side.Bid?,
                 if side.Bid? then b.p.BaseAtoms(res.lots) else res.quote - res.fee);
    }
  }

  lemma MovedIs(b: Book, m: nat, base: bool, free: int)
    requires m < |b.balances|
    ensures var c := Moved(b, m, base, free);
      && c == b.(balances := c.balances) && |c.balances| == |b.balances|
      && c.balances[m] == b.balances[m].Move(base, free, 0)
  {}

  /** `PlaceLimit`: cancel at size zero, post only, or match, settle and rest the remainder. */
  ghost function PlaceLimitOn(b: Book, m: nat, a: LimitArgs, slot: nat): Result<Book>
    requires b.Inv() && m < MAX_SEATS
  {
    hide Book.Inv;
    if a.lots == 0 then Upsert(b, a.side, a.tick, 0, m, a.expiry, false)
    else if a.postOnly then Upsert(b, a.side, a.tick, a.lots, m, a.expiry, !a.reject)
    else
      TakeInv(b, TakeArgs(a.side, a.tick, U64_MAX, m, slot, a.reject), a.lots);
      match Take(b, TakeArgs(a.side, a.tick, U64_MAX, m, slot, a.reject), a.lots)
      case Err(e) => Err(e)
      case Ok((c, res)) =>
        TakeFacts(b, TakeArgs(a.side, a.tick, U64_MAX, m, slot, a.reject), a.lots);
        SettledInv(c, m, a.side, res, 0);
        match SettleTaker(c, m, a.side, res, 0)
        case Err(e) => Err(e)
        case Ok(d) =>
          if a.lots == res.lots then Ok(d)
          else Upsert(d, a.side, a.tick, a.lots - res.lots, m, a.expiry, false)
  }

  /** What every taker flow can rely on. */
  lemma TakeFacts(b: Book, a: TakeArgs, maxLots: nat)
    requires b.Inv() && Take(b, a, maxLots).Ok? && a.maxQuote <= U64_MAX
    ensures var (c, res) := Take(b, a, maxLots).value;
      && res.fee <= res.quote && res.lots <= maxLots <= b.p.maxLots && res.quote + res.fee <= a.maxQuote
      && c.p == b.p
  {
    hide Book.Inv, Match, Accumulated, WithinBudget;
    ParamsOk(b);
    NothingAccumulated(b.p);
    assert WithinBudget(a, NOTHING) by { NothingSpent(a); }
    MatchWithinBudget(b, a, maxLots, NOTHING);
    var r := Match(b, a, maxLots, NOTHING).value.1;
    AccumulatedFits(b.p, r);
    BudgetMeans(a, r);
    MatchTrades(b, a, maxLots, NOTHING);
  }

  lemma ParamsOk(b: Book)
    requires b.Inv()
    ensures b.p.Ok()
  {}

  lemma NothingSpent(a: TakeArgs)
    ensures WithinBudget(a, NOTHING)
  {}

  lemma BudgetMeans(a: TakeArgs, r: TakeResult)
    requires WithinBudget(a, r) && r.quote + r.fee <= U64_MAX
    ensures a.maxQuote <= U64_MAX ==> r.quote + r.fee <= a.maxQuote
  {}

  /** `Swap`, buying: pull quote, match on what arrived, refund the rest, push base. */
  ghost function SwapBuy(v: Venue, delta: nat, limit: nat, minOut: nat, slot: nat): Result<Venue>
    requires v.book.Inv()
  {
    hide Book.Inv;
    match Pull(v, false, delta)
    case Err(e) => Err(e)
    case Ok(w) =>
      var a := TakeArgs(Bid, limit, delta, NO_SEAT, slot, false);
      match Take(v.book, a, v.book.p.maxLots)
      case Err(e) => Err(e)
      case Ok((c, res)) =>
        TakeFacts(v.book, a, v.book.p.maxLots);
        if v.book.p.BaseAtoms(res.lots) < minOut then Err(SlippageExceeded) else
          match Push(w.(book := c), false, delta - res.quote - res.fee)
          case Err(e) => Err(e)
          case Ok(x) => Push(x, true, v.book.p.BaseAtoms(res.lots))
  }

  /** Sold lots never exceed the lots that arrived. */
  ghost function SellTake(b: Book, delta: nat, limit: nat, slot: nat): (r: Result<(Book, TakeResult)>)
    requires b.Inv()
    ensures r.Ok? ==> r.value.0.p == b.p && r.value.1.fee <= r.value.1.quote && b.p.BaseAtoms(r.value.1.lots) <= delta
  {
    hide Book.Inv;
    ParamsOk(b);
    var lots := Min(Quotient(delta, b.p.lotSize), b.p.maxLots);
    var a := TakeArgs(Ask, limit, U64_MAX, NO_SEAT, slot, false);
    QuotientIs(delta, b.p.lotSize);
    TimesMono(b.p.lotSize, b.p.lotSize, lots, Quotient(delta, b.p.lotSize));
    if lots == 0 then Ok((b, NOTHING)) else
      if Take(b, a, lots).Ok? then
        TakeFacts(b, a, lots);
        TimesMono(b.p.lotSize, b.p.lotSize, Take(b, a, lots).value.1.lots, lots);
        Take(b, a, lots)
      else Take(b, a, lots)
  }

  /** `Swap`, selling: pull base, match whole lots, refund the rest, push quote net of fee. */
  ghost function SwapSell(v: Venue, delta: nat, limit: nat, minOut: nat, slot: nat): Result<Venue>
    requires v.book.Inv()
  {
    hide Book.Inv, SellTake;
    match Pull(v, true, delta)
    case Err(e) => Err(e)
    case Ok(w) =>
      match SellTake(v.book, delta, limit, slot)
      case Err(e) => Err(e)
      case Ok((c, res)) =>
        if res.quote - res.fee < minOut then Err(SlippageExceeded) else
          match Push(w.(book := c), true, delta - v.book.p.BaseAtoms(res.lots))
          case Err(e) => Err(e)
          case Ok(x) => Push(x, false, res.quote - res.fee)
  }
}
