/** Price-time matching: the reference matcher that `take` refines. */
module Matching {
  import opened Base
  import opened Bitmaps
  import opened Books
  import opened Ops
  // ---- best prices ----

  ghost function Lowest(s: set<nat>, lo: nat, hi: nat): (r: Option<nat>)
    ensures IsLeast(s, lo, hi, r)
    decreases hi - lo
  {
    if hi <= lo then None else if lo in s then Some(lo) else Lowest(s, lo + 1, hi)
  }

  ghost function Highest(s: set<nat>, lo: nat, hi: nat): (r: Option<nat>)
    ensures IsGreatest(s, lo, hi, r)
    decreases hi + 1 - lo
  {
    if hi < lo then None else if hi in s then Some(hi)
    else if hi == 0 then None else Highest(s, lo, hi - 1)
  }

  /** Best price of one side: the lowest ask, the highest bid. */
  ghost function Best(b: Book, side: Side): (r: Option<nat>) {
    if side.Ask? then Lowest(b.asks.Keys, b.anchor, b.anchor + WINDOW_TICKS)
    else Highest(b.bids.Keys, b.anchor, b.anchor + WINDOW_MASK)
  }

  /** Every occupied tick is in the window, so the best is the best of all of them. */
  lemma BestIsBest(b: Book, side: Side)
    requires b.Inv()
    ensures Best(b, side).None? ==> b.Levels(side) == map[]
    ensures Best(b, side).Some? ==>
      var t := Best(b, side).value;
      t in b.Levels(side) && b.InWindow(t) && b.Levels(side)[t] != [] && b.Levels(side)[t][0] in b.orders
      && forall x | x in b.Levels(side) :: if side.Ask? then t <= x else x <= t
  {
    forall x | x in b.Levels(side)
      ensures b.InWindow(x)
    {
      assert b.QueueOk(side, x);
      assert b.Levels(side)[x][0] in b.Levels(side)[x];
      assert b.OrderOk(b.Levels(side)[x][0]);
    }
    if Best(b, side).Some? {
      assert b.QueueOk(side, Best(b, side).value);
      var q := b.Levels(side)[Best(b, side).value];
      assert q[0] in q;
    }
  }

  // ---- the matcher ----

  datatype TakeArgs = TakeArgs(side: Side, limit: nat, maxQuote: nat, seat: nat, slot: nat, abort: bool)

  datatype TakeResult = TakeResult(lots: nat, quote: nat, fee: nat) {
    function Plus(n: nat, notional: nat, f: nat): TakeResult {
      TakeResult(lots + n, quote + notional, fee + f)
    }
  }

  const NOTHING := TakeResult(0, 0, 0)

  /** The taker fee on one fill. */
  function FeeOn(p: Params, notional: nat): nat { Times(notional, p.feeBps) / FEE_DENOMINATOR }

  /** How many lots a quote budget buys at a price per lot, fee included. */
  function Affordable(p: Params, price: nat, budget: nat): nat
    requires 0 < price
  {
    var capped := Min(budget, Quotient(U64_MAX, FEE_DENOMINATOR + p.feeBps));
    Quotient(Quotient(capped * FEE_DENOMINATOR, FEE_DENOMINATOR + p.feeBps), price)
  }

  predicate Acceptable(a: TakeArgs, tick: nat) {
    if a.side.Bid? then tick <= a.limit else a.limit <= tick
  }

  /** The order at the front of the best acceptable opposing level. */
  ghost function Front(b: Book, a: TakeArgs): (r: Option<nat>)
    requires b.Inv()
    ensures r.Some? ==>
      && r.value in b.orders && b.OrderOk(r.value) && b.orders[r.value].side == a.side.Opposite()
      && 0 < b.orders[r.value].tick && 0 < b.p.tickSize
  {
    BestIsBest(b, a.side.Opposite());
    match Best(b, a.side.Opposite())
    case None => None
    case Some(t) =>
      assert b.QueueOk(a.side.Opposite(), t);
      assert b.OrderOk(b.Levels(a.side.Opposite())[t][0]);
      if Acceptable(a, t) then Some(b.Levels(a.side.Opposite())[t][0]) else None
  }

  /** Lots matched against one order. */
  function FillSize(p: Params, a: TakeArgs, o: Order, rem: nat, res: TakeResult): (f: nat)
    requires p.tickSize > 0 && o.tick > 0
    ensures f <= o.lots && f <= rem
  {
    PricePositive(p, o.tick);
    var fill := Min(o.lots, rem);
    if a.maxQuote == U64_MAX then fill
    else if a.maxQuote < res.quote + res.fee then 0
    else Min(fill, Affordable(p, Times(o.tick, p.tickSize), a.maxQuote - res.quote - res.fee))
  }

  lemma PricePositive(p: Params, tick: nat)
    requires p.tickSize > 0 && tick > 0
    ensures Times(tick, p.tickSize) > 0
  {
    TimesMono(1, tick, 1, p.tickSize);
  }

  /** Match up to `rem` more lots; `res` is what was matched so far. */
  ghost function Match(b: Book, a: TakeArgs, rem: nat, res: TakeResult): Result<(Book, TakeResult)>
    requires b.Inv()
    decreases |b.orders|, rem
  {
    if rem == 0 || Front(b, a).None? then Ok((b, res)) else
      var h := Front(b, a).value;
      var o := b.orders[h];
      if o.Expired(a.slot) then Match(Kill(b, h), a, rem, res)
      else if o.maker == a.seat then
        if a.abort then Err(SelfTrade) else Match(Kill(b, h), a, rem, res)
      else
        var f := FillSize(b.p, a, o, rem, res);
        if f == 0 then Ok((b, res)) else
          var notional := b.p.Notional(o.tick, f);
          Match(Fill(b, h, f), a, rem - f, res.Plus(f, notional, FeeOn(b.p, notional)))
  }

  ghost function Take(b: Book, a: TakeArgs, maxLots: nat): Result<(Book, TakeResult)>
    requires b.Inv()
  {
    if maxLots == 0 || maxLots > b.p.maxLots then Err(InvalidLots) else
      match Match(b, a, maxLots, NOTHING)
      case Err(e) => Err(e)
      case Ok((c, res)) => Ok((c.(fees := c.fees + res.fee), res))
  }
}
