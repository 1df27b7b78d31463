/** The instructions' meanings in total form, and what each handler needs to know of them. */
module Outcomes {
  import opened Base
  import opened Books
  import opened Frames
  import opened Matching
  import opened MatchingProperties
  import opened Venues
  import opened Runs
  import opened Theorems
  import opened Layout
  import opened Represent
  import opened Posting
  import opened Creating
  import opened Quoting
  import Markets
  import Capacity
  import Ops
  import Hygiene
  import MassQuoting
  import Reanchoring
  import Reaping
  import ReapSteps
  import Filling

  lemma SoundFits(v: Venue)
    requires Sound(v)
    ensures v.book.Inv() && v.book.Fits()
  {
    hide Book.Inv, Capacity.Capped;
  }

  // ---- creation ----

  /** A header `create_market` may write, beside vaults that may already hold something. */
  ghost predicate Created(h: Market, vaultBase: nat, vaultQuote: nat) {
    && h.capacity <= MAX_POOL_CAPACITY && h.freeHead == NIL && h.freeCount == 0 && h.orderSeq == 0 && h.fees == 0
    && 0 < h.capacity && Sound(CreatedVenue(h, vaultBase, vaultQuote))
  }

  ghost function CreatedVenue(h: Market, vaultBase: nat, vaultQuote: nat): Venue {
    Venue(if 0 < h.capacity then Markets.EmptyBook(HeaderParams(h), h.anchor)
          else Markets.EmptyBook(HeaderParams(h).(capacity := 1), h.anchor), vaultBase, vaultQuote)
  }

  lemma CreatedFacts(h: Market, vaultBase: nat, vaultQuote: nat)
    requires Created(h, vaultBase, vaultQuote)
    ensures h.capacity <= MAX_POOL_CAPACITY && h.freeHead == NIL && h.freeCount == 0 && h.orderSeq == 0 && h.fees == 0
    ensures 0 < h.capacity && Markets.EmptyBook(HeaderParams(h), h.anchor).Inv()
    ensures Sound(CreatedVenue(h, vaultBase, vaultQuote))
    ensures CreatedVenue(h, vaultBase, vaultQuote)
      == Venue(Markets.EmptyBook(HeaderParams(h), h.anchor), vaultBase, vaultQuote)
  {
    hide Book.Inv, Markets.EmptyBook;
  }

  /** What passes `create_market`'s checks, written to a zeroed header, is a sound start. */
  lemma ValidatedCreates(d: Markets.NewMarket, h: Market, vaultBase: u64, vaultQuote: u64)
    requires MIN_POOL_CAPACITY <= h.capacity <= MAX_POOL_CAPACITY && Markets.Validate(d, h.capacity).Ok?
    requires HeaderParams(h) == Markets.Validate(d, h.capacity).value && h.anchor == d.anchor
    requires h.freeHead == NIL && h.freeCount == 0 && h.orderSeq == 0 && h.fees == 0
    ensures Created(h, vaultBase, vaultQuote)
  {
    hide Sound, Markets.Validate, Markets.EmptyBook;
    Markets.CreatedSound(d, h.capacity, vaultBase, vaultQuote);
  }

  // ---- deposit ----

  ghost function LegDeposited(v: Venue, m: nat, base: bool, atoms: nat, delta: nat): Result<Venue> {
    if v.book.Inv() && m < MAX_SEATS then Venues.DepositLeg(v, m, base, atoms, delta) else Err(InvalidState)
  }

  ghost function Deposited(v: Venue, m: nat, ba: nat, qa: nat, bd: nat, qd: nat): Result<Venue> {
    if v.book.Inv() && m < MAX_SEATS then DepositTo(v, m, ba, qa, bd, qd) else Err(InvalidState)
  }

  lemma LegIs(v: Venue, m: nat, base: bool, atoms: nat, delta: nat)
    requires Sound(v) && m < MAX_SEATS
    ensures v.book.Inv() && v.book.Fits() && m < |v.book.balances|
    ensures LegDeposited(v, m, base, atoms, delta) ==
      if atoms == 0 then Ok(v)
      else if v.Vault(base) + delta > U64_MAX then Err(TransferFailed)
      else if v.book.balances[m].Free(base) + delta > U64_MAX then Err(ArithmeticOverflow)
      else Ok(v.WithVault(base, v.Vault(base) + delta).(book := Moved(v.book, m, base, delta)))
    ensures 0 <= v.book.balances[m].Free(base)
    ensures LegDeposited(v, m, base, atoms, delta).Ok? ==> Sound(LegDeposited(v, m, base, atoms, delta).value)
  {
    hide Book.Inv, Capacity.Capped, Moved;
    SoundFits(v);
    SeatExists(v.book, m);
    if LegDeposited(v, m, base, atoms, delta).Ok? {
      DepositLegKept(v, m, base, atoms, delta);
      KeptSound(v, LegDeposited(v, m, base, atoms, delta).value);
    }
  }

  lemma DepositIs(v: Venue, m: nat, ba: nat, qa: nat, bd: nat, qd: nat)
    requires Sound(v) && m < MAX_SEATS
    ensures Deposited(v, m, ba, qa, bd, qd) ==
      match LegDeposited(v, m, true, ba, bd)
      case Err(e) => Err(e)
      case Ok(w) => LegDeposited(w, m, false, qa, qd)
  {
    hide Book.Inv, Capacity.Capped, Venues.DepositLeg;
    SoundFits(v);
  }

  // ---- stored balances ----

  /** Neither free balance of the seat can have wrapped. */
  ghost predicate SeatFits(b: Book, m: nat) {
    m < |b.balances| && 0 <= b.balances[m].baseFree <= U64_MAX && 0 <= b.balances[m].quoteFree <= U64_MAX
  }

  lemma SeatExact(r: Raw, b: Book, m: nat)
    requires Rep(r, b) && SeatFits(b, m)
    ensures m < |r.seats| && r.seats[m].baseFree == b.balances[m].baseFree
      && r.seats[m].quoteFree == b.balances[m].quoteFree
  {
    hide Lists, HeaderRep;
  }

  lemma SoundSeat(v: Venue, m: nat)
    requires Sound(v) && m < MAX_SEATS
    ensures v.book.Inv() && v.book.Fits() && SeatFits(v.book, m)
  {
    hide Book.Inv, Capacity.Capped;
    SoundFits(v);
    SeatExists(v.book, m);
    SeatWithin(v.book, m);
  }

  // ---- withdraw ----

  ghost function Withdrawn(v: Venue, m: nat, ba: nat, qa: nat): Result<Venue> {
    if v.book.Inv() && m < MAX_SEATS then WithdrawFrom(v, m, ba, qa) else Err(InvalidState)
  }

  /** The outgoing legs of a withdrawal, base first. */
  ghost function PaidOut(v: Venue, baseOut: nat, quoteOut: nat): Result<Venue> {
    match Push(v, true, baseOut)
    case Err(e) => Err(e)
    case Ok(w) => Push(w, false, quoteOut)
  }

  lemma WithdrawIs(v: Venue, m: nat, ba: nat, qa: nat)
    requires Sound(v) && m < MAX_SEATS
    ensures SeatFits(v.book, m) && v.book.Inv()
    ensures var s := v.book.balances[m];
      var baseOut, quoteOut := Asked(ba, s.baseFree), Asked(qa, s.quoteFree);
      if s.baseFree < baseOut || s.quoteFree < quoteOut then Withdrawn(v, m, ba, qa) == Err(InsufficientBalance)
      else
        var b := Moved(v.book, m, true, 0 - baseOut);
        && m < |b.balances| && b.balances[m].quoteFree == s.quoteFree
        && Withdrawn(v, m, ba, qa) == PaidOut(v.(book := Moved(b, m, false, 0 - quoteOut)), baseOut, quoteOut)
  {
    hide Book.Inv, Capacity.Capped, Moved;
    SoundSeat(v, m);
    var s := v.book.balances[m];
    MovedIs(v.book, m, true, 0 - Asked(ba, s.baseFree));
  }

  // ---- takers ----

  /** Matching never touches the taker's own totals, so its stored balances stay exact. */
  lemma TakerSeat(b: Book, a: TakeArgs, maxLots: nat, m: nat)
    requires b.Inv() && b.Fits() && m < MAX_SEATS && a.seat == m && Take(b, a, maxLots).Ok?
    ensures Take(b, a, maxLots).value.0.Inv() && SeatFits(Take(b, a, maxLots).value.0, m)
  {
    hide Book.Inv, Take, SeatOwnsSame, Book.Fits, SeatFits;
    TakeInv(b, a, maxLots);
    TakerOwnsSame(b, a, maxLots);
    SameOwnedFits(b, Take(b, a, maxLots).value.0, m);
  }

  lemma TakerOwnsSame(b: Book, a: TakeArgs, maxLots: nat)
    requires b.Inv() && Take(b, a, maxLots).Ok?
    ensures SeatOwnsSame(b, Take(b, a, maxLots).value.0, a.seat)
  {
    hide Book.Inv, Match, ClaimsMoved, Later;
    MatchTrades(b, a, maxLots, NOTHING);
  }

  lemma SameOwnedFits(b: Book, c: Book, m: nat)
    requires b.Inv() && c.Inv() && b.Fits() && m < MAX_SEATS && SeatOwnsSame(b, c, m)
    ensures SeatFits(c, m)
  {
    hide Book.Inv;
    SeatExists(b, m);
    OwnedFits(b, m, true);
    OwnedFits(b, m, false);
    OwnedFits(c, m, true);
    OwnedFits(c, m, false);
  }

  ghost function TakerSettled(b: Book, m: nat, side: Side, res: TakeResult, minOut: nat): Result<Book> {
    if b.Inv() && m < MAX_SEATS then SettleTaker(b, m, side, res, minOut) else Err(InvalidState)
  }

  lemma SettleIs(b: Book, m: nat, side: Side, res: TakeResult, minOut: nat)
    requires b.Inv() && SeatFits(b, m) && m < MAX_SEATS
    ensures var s, atoms := b.balances[m], b.p.BaseAtoms(res.lots);
      && TakerSettled(b, m, side, res, minOut) ==
        (if side.Bid? then
           if atoms < minOut then Err(SlippageExceeded)
           else if s.quoteFree < res.quote + res.fee then Err(InsufficientBalance)
           else Ok(Moved(Moved(b, m, false, 0 - res.quote - res.fee), m, true, atoms))
         else
           if res.quote - res.fee < minOut then Err(SlippageExceeded)
           else if s.baseFree < atoms then Err(InsufficientBalance)
           else Ok(Moved(Moved(b, m, true, 0 - atoms), m, false, res.quote - res.fee)))
  {
    hide Book.Inv, Moved;
  }

  ghost function TakePlaced(v: Venue, m: nat, side: Side, limit: nat, maxLots: nat, minOut: nat, slot: nat,
      abort: bool): Result<Venue> {
    if v.book.Inv() && m < MAX_SEATS then OnBook(v, PlaceTakeOn(v.book, m, side, limit, maxLots, minOut, slot, abort))
    else Err(InvalidState)
  }

  lemma TakePlacedIs(v: Venue, m: nat, side: Side, limit: nat, maxLots: nat, minOut: nat, slot: nat, abort: bool)
    requires Sound(v) && m < MAX_SEATS
    ensures v.book.Inv()
    ensures var t := Take(v.book, TakeArgs(side, limit, U64_MAX, m, slot, abort), maxLots);
      && TakePlaced(v, m, side, limit, maxLots, minOut, slot, abort) ==
           (match t
            case Err(e) => Err(e)
            case Ok((c, res)) => OnBook(v, TakerSettled(c, m, side, res, minOut)))
      && (t.Ok? ==>
            && t.value.0.Inv() && SeatFits(t.value.0, m) && t.value.1.quote + t.value.1.fee <= U64_MAX
            && t.value.1.fee <= t.value.1.quote && t.value.1.lots <= v.book.p.maxLots && t.value.0.p == v.book.p)
  {
    hide Book.Inv, Capacity.Capped, Take, SettleTaker;
    SoundFits(v);
    var a := TakeArgs(side, limit, U64_MAX, m, slot, abort);
    if Take(v.book, a, maxLots).Ok? {
      TakerSeat(v.book, a, maxLots, m);
      TakeFacts(v.book, a, maxLots);
    }
  }

  ghost function LimitPlaced(v: Venue, m: nat, a: LimitArgs, slot: nat): Result<Venue> {
    if v.book.Inv() && m < MAX_SEATS then OnBook(v, PlaceLimitOn(v.book, m, a, slot)) else Err(InvalidState)
  }

  ghost function Upserted(v: Venue, side: Side, tick: nat, lots: nat, m: nat, expiry: nat, slide: bool): Result<Venue> {
    if v.book.Inv() && m < MAX_SEATS && expiry <= U32_MAX then
      OnBook(v, Upsert(v.book, side, tick, lots, m, expiry, slide))
    else Err(InvalidState)
  }

  lemma PostOnlyIs(v: Venue, m: nat, a: LimitArgs, slot: nat)
    requires Sound(v) && m < MAX_SEATS && (a.lots == 0 || a.postOnly)
    ensures v.book.Inv() && v.book.Fits()
    ensures LimitPlaced(v, m, a, slot) == Upserted(v, a.side, a.tick, a.lots, m, a.expiry, a.lots > 0 && !a.reject)
  {
    hide Book.Inv, Capacity.Capped, Upsert, Take, SettleTaker;
    SoundFits(v);
  }

  lemma CrossingIs(v: Venue, m: nat, a: LimitArgs, slot: nat)
    requires Sound(v) && m < MAX_SEATS && a.lots > 0 && !a.postOnly
    ensures v.book.Inv() && v.book.Fits()
    ensures var t := Take(v.book, TakeArgs(a.side, a.tick, U64_MAX, m, slot, a.reject), a.lots);
      && (t.Err? ==> LimitPlaced(v, m, a, slot) == Err(t.error))
      && (t.Ok? ==>
            var (c, res) := t.value;
            && c.Inv() && SeatFits(c, m) && res.quote + res.fee <= U64_MAX && res.fee <= res.quote && res.lots <= a.lots
            && c.p == v.book.p && res.lots <= c.p.maxLots
            && match TakerSettled(c, m, a.side, res, 0)
               case Err(e) => LimitPlaced(v, m, a, slot) == Err(e)
               case Ok(d) =>
                 && d.Inv() && d.Fits()
                 && LimitPlaced(v, m, a, slot) ==
                      if res.lots == a.lots then Ok(v.(book := d))
                      else Upserted(v.(book := d), a.side, a.tick, a.lots - res.lots, m, a.expiry, false))
  {
    hide Book.Inv, Capacity.Capped, Upsert, Take, SettleTaker, BookKept;
    SoundFits(v);
    var t := TakeArgs(a.side, a.tick, U64_MAX, m, slot, a.reject);
    if Take(v.book, t, a.lots).Ok? {
      TakerSeat(v.book, t, a.lots, m);
      TakeFacts(v.book, t, a.lots);
      var (c, res) := Take(v.book, t, a.lots).value;
      SettledInv(c, m, a.side, res, 0);
      TakerKept(v.book, m, t, a.lots, 0);
      if SettleTaker(c, m, a.side, res, 0).Ok? { KeptFits(v.book, SettleTaker(c, m, a.side, res, 0).value); }
    }
  }

  lemma KeptFits(b: Book, c: Book)
    requires b.Fits() && BookKept(b, c, 0, 0)
    ensures c.Inv() && c.Fits()
  {
    hide Book.Inv, Book.Claims;
  }

  /** An empty settlement changes nothing: the handler skips it. */
  lemma SettleNothing(b: Book, m: nat, side: Side, res: TakeResult)
    requires b.Inv() && SeatFits(b, m) && m < MAX_SEATS && res == NOTHING
    ensures TakerSettled(b, m, side, res, 0) == Ok(b)
  {
    hide Book.Inv;
    var s := b.balances[m];
    assert b.balances[m := s] == b.balances;
  }

  /** Matching no lots spends nothing. */
  lemma {:induction false} NoLotsNoQuote(b: Book, a: TakeArgs, rem: nat, res: TakeResult)
    requires b.Inv() && Match(b, a, rem, res).Ok?
    ensures var r := Match(b, a, rem, res).value.1; res.lots <= r.lots && (r.lots == res.lots ==> r == res)
    decreases |b.orders|, rem
  {
    hide Book.Inv, Ops.Kill, Ops.Fill, Front, FillSize;
    if rem > 0 && Front(b, a).Some? {
      var h := Front(b, a).value;
      var o := b.orders[h];
      if o.Expired(a.slot) || o.maker == a.seat {
        NoLotsNoQuote(Ops.Kill(b, h), a, rem, res);
      } else {
        var f := FillSize(b.p, a, o, rem, res);
        if f > 0 {
          NoLotsNoQuote(Ops.Fill(b, h, f), a, rem - f,
            res.Plus(f, b.p.Notional(o.tick, f), FeeOn(b.p, b.p.Notional(o.tick, f))));
        }
      }
    }
  }

  lemma TookNothing(b: Book, a: TakeArgs, maxLots: nat)
    requires b.Inv() && Take(b, a, maxLots).Ok? && Take(b, a, maxLots).value.1.lots == 0
    ensures Take(b, a, maxLots).value.1 == NOTHING
  {
    hide Book.Inv, Match;
    NoLotsNoQuote(b, a, maxLots, NOTHING);
  }

  // ---- swaps ----

  ghost function Swapped(v: Venue, side: Side, delta: nat, limit: nat, minOut: nat, slot: nat): Result<Venue> {
    if !v.book.Inv() then Err(InvalidState)
    else if side.Bid? then SwapBuy(v, delta, limit, minOut, slot) else SwapSell(v, delta, limit, minOut, slot)
  }

  lemma SwapBuyIs(v: Venue, delta: u64, limit: nat, minOut: nat, slot: nat)
    requires Sound(v)
    ensures v.book.Inv() && v.book.p.Ok()
    ensures v.vaultQuote + delta > U64_MAX ==> Swapped(v, Bid, delta, limit, minOut, slot) == Err(TransferFailed)
    ensures v.vaultQuote + delta <= U64_MAX ==>
      var w := v.(vaultQuote := v.vaultQuote + delta);
      match Take(v.book, TakeArgs(Bid, limit, delta, NO_SEAT, slot, false), v.book.p.maxLots)
      case Err(e) => Swapped(v, Bid, delta, limit, minOut, slot) == Err(e)
      case Ok((c, res)) =>
        && res.quote + res.fee <= delta && res.lots <= v.book.p.maxLots && c.p == v.book.p && c.Inv()
        && Swapped(v, Bid, delta, limit, minOut, slot) ==
             if v.book.p.BaseAtoms(res.lots) < minOut then Err(SlippageExceeded)
             else match Push(w.(book := c), false, delta - res.quote - res.fee)
                  case Err(e) => Err(e)
                  case Ok(x) => Push(x, true, v.book.p.BaseAtoms(res.lots))
  {
    hide Book.Inv, Capacity.Capped, Take, Params.BaseAtoms, Params.Ok;
    SoundFits(v);
    ParamsOk(v.book);
    var a := TakeArgs(Bid, limit, delta, NO_SEAT, slot, false);
    TakeInv(v.book, a, v.book.p.maxLots);
    if Take(v.book, a, v.book.p.maxLots).Ok? { TakeFacts(v.book, a, v.book.p.maxLots); }
  }

  ghost function Sold(b: Book, delta: nat, limit: nat, slot: nat): Result<(Book, TakeResult)> {
    if b.Inv() then SellTake(b, delta, limit, slot) else Err(InvalidState)
  }

  lemma SwapSellIs(v: Venue, delta: u64, limit: nat, minOut: nat, slot: nat)
    requires Sound(v)
    ensures v.book.Inv() && v.book.p.Ok()
    ensures v.vaultBase + delta > U64_MAX ==> Swapped(v, Ask, delta, limit, minOut, slot) == Err(TransferFailed)
    ensures v.vaultBase + delta <= U64_MAX ==>
      var w := v.(vaultBase := v.vaultBase + delta);
      match Sold(v.book, delta, limit, slot)
      case Err(e) => Swapped(v, Ask, delta, limit, minOut, slot) == Err(e)
      case Ok((c, res)) =>
        && v.book.p.BaseAtoms(res.lots) <= delta && res.fee <= res.quote && c.p == v.book.p
        && Swapped(v, Ask, delta, limit, minOut, slot) ==
             if res.quote - res.fee < minOut then Err(SlippageExceeded)
             else match Push(w.(book := c), true, delta - v.book.p.BaseAtoms(res.lots))
                  case Err(e) => Err(e)
                  case Ok(x) => Push(x, false, res.quote - res.fee)
  {
    hide Book.Inv, Capacity.Capped, SellTake, Params.BaseAtoms, Params.Ok;
    SoundFits(v);
    ParamsOk(v.book);
  }

  lemma SoldIs(b: Book, delta: nat, limit: nat, slot: nat)
    requires b.Inv() && delta <= U64_MAX
    ensures 0 < b.p.lotSize
    ensures var lots := Min(delta / b.p.lotSize, b.p.maxLots);
      && 0 <= lots <= U32_MAX
      && Sold(b, delta, limit, slot) ==
           (if lots == 0 then Ok((b, NOTHING)) else Take(b, TakeArgs(Ask, limit, U64_MAX, NO_SEAT, slot, false), lots))
      && (Sold(b, delta, limit, slot).Ok? ==>
            var (c, res) := Sold(b, delta, limit, slot).value;
            res.quote + res.fee <= U64_MAX && res.lots <= b.p.maxLots && c.Inv())
  {
    hide Book.Inv, Take, Quotient;
    ParamsOk(b);
    Filling.QuotientIsDiv(delta, b.p.lotSize);
    var lots := Min(delta / b.p.lotSize, b.p.maxLots);
    var a := TakeArgs(Ask, limit, U64_MAX, NO_SEAT, slot, false);
    if lots > 0 {
      TakeInv(b, a, lots);
      if Take(b, a, lots).Ok? { TakeFacts(b, a, lots); }
    }
  }

  // ---- every instruction ----

  ghost function Executed(v: Venue, i: Instruction): Result<Venue> {
    if v.book.Inv() then Execute(v, i) else Err(InvalidState)
  }

  lemma CollectIs(v: Venue)
    requires Sound(v)
    ensures v.book.Inv() && 0 <= v.book.fees <= U64_MAX
    ensures Executed(v, Runs.CollectFees) == Push(v.(book := v.book.(fees := 0)), false, v.book.fees)
  {
    hide Book.Inv, Capacity.Capped;
    SoundFits(v);
    ClaimsCover(v.book, false);
  }

  /** The meaning of each instruction, by the form its handler is proved against. */
  lemma ExecutedIs(v: Venue, i: Instruction)
    requires Sound(v)
    ensures v.book.Inv()
    ensures SeatOf(i) < MAX_SEATS ==>
      Executed(v, i) == match i
        case Deposit(seat, ba, qa, bd, qd) => Deposited(v, seat, ba, qa, bd, qd)
        case Withdraw(seat, ba, qa) => Withdrawn(v, seat, ba, qa)
        case CollectFees => Executed(v, Runs.CollectFees)
        case UpdateFee(bps) => if bps > MAX_FEE_BPS then Err(InvalidFee) else Ok(v.(book := WithFee(v.book, bps)))
        case PlaceLimit(seat, a, slot) => LimitPlaced(v, seat, a, slot)
        case PlaceTake(seat, side, limit, maxLots, minOut, slot, abort) =>
          TakePlaced(v, seat, side, limit, maxLots, minOut, slot, abort)
        case Cancel(seat, node, id) => OnBook(v, Hygiene.CancelOrder(v.book, seat, node, id))
        case MassQuote(seat, bids, asks, expiry) => OnBook(v, MassQuoting.MassQuote(v.book, seat, bids, asks, expiry))
        case Reanchor(target, maxLevels) => Ok(v.(book := Reanchoring.ReanchorTo(v.book, target, maxLevels).0))
        case ReapExpired(side, start, maxCount, slot) =>
          Ok(v.(book := ReapSteps.SideReaped(v.book, Reaping.Reap(side, maxCount, slot), start).0))
        case Swap(side, delta, limit, minOut, slot) => Swapped(v, side, delta, limit, minOut, slot)
  {
    hide Book.Inv, Kept, Sound, DepositTo, WithdrawFrom, PlaceLimitOn, PlaceTakeOn, Hygiene.CancelOrder,
      MassQuoting.MassQuote,
      Reanchoring.Reanchor, Reaping.ReapExpired, SwapBuy, SwapSell, WithFee, Reanchoring.Ideal;
    SoundFits(v);
  }

  /** A success leads from a sound venue to a sound one. */
  lemma ExecutedSound(v: Venue, i: Instruction)
    requires Sound(v)
    ensures Executed(v, i).Ok? ==> Sound(Executed(v, i).value)
    ensures SeatOf(i) >= MAX_SEATS ==> Executed(v, i) == Err(InvalidSeatIndex)
  {
    hide Book.Inv, Kept, Sound;
    SoundFits(v);
    if Execute(v, i).Ok? {
      ExecuteKept(v, i);
      KeptSound(v, Execute(v, i).value);
    }
  }
}
