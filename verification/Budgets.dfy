/** Quote budgets and the arithmetic of fills. */
module Budgets {
  import opened Base
  import opened Books
  import opened Ops
  import opened Matching

  /** What a fill of this notional costs the taker. */
  function Cost(p: Params, notional: nat): nat { notional + FeeOn(p, notional) }

  lemma FeeIs(p: Params, notional: nat)
    ensures FEE_DENOMINATOR * FeeOn(p, notional) <= Times(p.feeBps, notional)
    ensures Times(p.feeBps, notional) < FEE_DENOMINATOR * (FeeOn(p, notional) + 1)
    ensures Times(FEE_DENOMINATOR + p.feeBps, notional) == FEE_DENOMINATOR * notional + Times(p.feeBps, notional)
  {
    hide Times;
    TimesIs(notional, p.feeBps);
    TimesIs(p.feeBps, notional);
    TimesIs(FEE_DENOMINATOR + p.feeBps, notional);
    Distribute(p.feeBps, notional);
  }

  lemma Distribute(bps: nat, n: nat)
    ensures (FEE_DENOMINATOR + bps) * n == FEE_DENOMINATOR * n + bps * n && bps * n == n * bps
  {}

  /** Whatever is affordable, with its fee, fits the budget. */
  lemma AffordableFits(p: Params, price: nat, budget: nat, f: nat)
    requires 0 < price && f <= Affordable(p, price, budget)
    ensures Cost(p, Times(price, f)) <= budget
  {
    hide Times, Quotient, FeeOn;
    var d := FEE_DENOMINATOR + p.feeBps;
    var capped := Min(budget, Quotient(U64_MAX, d));
    var afford := Quotient(capped * FEE_DENOMINATOR, d);
    QuotientIs(capped * FEE_DENOMINATOR, d);
    QuotientIs(afford, price);
    TimesMono(price, price, f, Quotient(afford, price));
    TimesMono(d, d, Times(price, f), afford);
    FeeIs(p, Times(price, f));
  }

  // ---- accumulated totals ----

  /** What matching accumulates stays within one order's worth at the highest price. */
  ghost predicate Accumulated(p: Params, res: TakeResult) {
    && res.lots <= p.maxLots
    && res.quote <= p.Notional(p.tickLimit, res.lots)
    && FEE_DENOMINATOR * res.fee <= Times(p.feeBps, res.quote)
  }

  /** So `quote + fee` never overflows. */
  lemma AccumulatedFits(p: Params, res: TakeResult)
    requires p.Ok() && Accumulated(p, res)
    ensures res.quote + res.fee <= U64_MAX && res.quote <= U64_MAX && res.fee <= U64_MAX
    ensures res.fee <= res.quote
  {
    hide Times;
    NotionalFits(p, p.tickLimit, res.lots);
    TimesMono(FEE_DENOMINATOR + p.feeBps, FEE_DENOMINATOR + MAX_FEE_BPS, res.quote, p.Notional(p.tickLimit, res.lots));
    TimesIs(FEE_DENOMINATOR + p.feeBps, res.quote);
    TimesIs(p.feeBps, res.quote);
    Distribute(p.feeBps, res.quote);
    FeeBelow(p.feeBps, res.quote);
  }

  lemma FeeBelow(bps: nat, quote: nat)
    requires bps <= MAX_FEE_BPS
    ensures bps * quote <= FEE_DENOMINATOR * quote
  {}

  lemma Accumulates(p: Params, res: TakeResult, tick: nat, f: nat)
    requires p.Ok() && Accumulated(p, res) && tick <= p.tickLimit && res.lots + f <= p.maxLots
    ensures Accumulated(p, res.Plus(f, p.Notional(tick, f), FeeOn(p, p.Notional(tick, f))))
  {
    hide Times, FeeOn;
    var n, top := p.Notional(tick, f), Times(p.tickLimit, p.tickSize);
    TimesMono(tick, p.tickLimit, p.tickSize, p.tickSize);
    TimesMono(Times(tick, p.tickSize), top, f, f);
    TimesAdd(top, res.lots, f);
    TimesAdd(p.feeBps, res.quote, n);
    FeeIs(p, n);
  }

  /** The budget left, or none asked for. */
  predicate WithinBudget(a: TakeArgs, res: TakeResult) {
    a.maxQuote == U64_MAX || res.quote + res.fee <= a.maxQuote
  }

  lemma FillWithinBudget(p: Params, a: TakeArgs, o: Order, rem: nat, res: TakeResult, f: nat)
    requires p.tickSize > 0 && o.tick > 0 && WithinBudget(a, res) && f == FillSize(p, a, o, rem, res)
    ensures WithinBudget(a, res.Plus(f, p.Notional(o.tick, f), FeeOn(p, p.Notional(o.tick, f))))
  {
    hide Times, FeeOn, Affordable;
    PricePositive(p, o.tick);
    if a.maxQuote != U64_MAX {
      AffordableFits(p, Times(o.tick, p.tickSize), a.maxQuote - res.quote - res.fee, f);
    }
  }

  /** A budgeted buy never spends more than its budget, fees included; and no total overflows. */
  lemma {:induction false} MatchWithinBudget(b: Book, a: TakeArgs, rem: nat, res: TakeResult)
    requires b.Inv() && Match(b, a, rem, res).Ok?
    requires Accumulated(b.p, res) && res.lots + rem <= b.p.maxLots && WithinBudget(a, res)
    ensures var r := Match(b, a, rem, res).value.1;
      WithinBudget(a, r) && Accumulated(b.p, r) && r.lots <= res.lots + rem
    decreases |b.orders|, rem
  {
    hide Book.Inv, Kill, Fill, Front, FillSize, Accumulated, WithinBudget, Params.Notional, FeeOn;
    if rem > 0 && Front(b, a).Some? {
      var h := Front(b, a).value;
      var o := b.orders[h];
      if o.Expired(a.slot) || o.maker == a.seat {
        MatchWithinBudget(Kill(b, h), a, rem, res);
      } else {
        var f := FillSize(b.p, a, o, rem, res);
        if f > 0 {
          FrontFits(b, h);
          var n := b.p.Notional(o.tick, f);
          FillWithinBudget(b.p, a, o, rem, res, f);
          Accumulates(b.p, res, o.tick, f);
          MatchWithinBudget(Fill(b, h, f), a, rem - f, res.Plus(f, n, FeeOn(b.p, n)));
        }
      }
    }
  }

  lemma FrontFits(b: Book, h: nat)
    requires b.Inv() && h in b.orders
    ensures b.p.Ok() && 0 < b.orders[h].tick <= b.p.tickLimit && 0 < b.orders[h].lots <= b.p.maxLots && b.p.tickSize > 0
  {
    OrderFacts(b, h);
  }

  lemma NothingAccumulated(p: Params)
    ensures Accumulated(p, NOTHING)
  {}

  // ---- the fee of a match ----

  /** A fee is the rate on the quote, rounded down once for each of `fills` fills. */
  predicate FeeOf(p: Params, quote: nat, fee: nat, fills: nat) {
    FEE_DENOMINATOR * fee <= Times(p.feeBps, quote) <= FEE_DENOMINATOR * fee + (FEE_DENOMINATOR - 1) * fills
  }

  lemma FeesAdd(p: Params, n: nat, quote: nat, fee: nat, fills: nat)
    requires FeeOf(p, quote, fee, fills)
    ensures FeeOf(p, n + quote, FeeOn(p, n) + fee, fills + 1)
  {
    hide Times, FeeOn;
    FeeIs(p, n);
    TimesAdd(p.feeBps, n, quote);
  }

  lemma FeesGrow(p: Params, quote: nat, fee: nat, fills: nat, more: nat)
    requires FeeOf(p, quote, fee, fills) && fills <= more
    ensures FeeOf(p, quote, fee, more)
  {
    hide Times;
  }

  lemma FillShrinks(b: Book, h: nat, lots: nat)
    requires b.Inv() && h in b.orders && 0 < lots <= b.orders[h].lots
    ensures |Fill(b, h, lots).orders| == |b.orders| - if lots == b.orders[h].lots then 1 else 0
  {
    hide Book.Inv;
    OrderFacts(b, h);
    var o := b.orders[h];
    assert |b.orders - {h}| == |b.orders| - 1;
    assert b.orders[h := o.(lots := o.lots - lots)].Keys == b.orders.Keys;
  }

  /** The fee between two totals is the rate on the quote between them, up to so many roundings. */
  predicate Charged(p: Params, res: TakeResult, r: TakeResult, fills: int) {
    && res.quote <= r.quote && res.fee <= r.fee && 0 <= fills
    && FeeOf(p, r.quote - res.quote, r.fee - res.fee, fills)
  }

  lemma ChargedFill(p: Params, res: TakeResult, f: nat, n: nat, r: TakeResult, fills: int, more: int)
    requires Charged(p, res.Plus(f, n, FeeOn(p, n)), r, fills) && fills < more
    ensures Charged(p, res, r, more)
  {
    hide FeeOf, FeeOn;
    var res' := res.Plus(f, n, FeeOn(p, n));
    FeesAdd(p, n, r.quote - res'.quote, r.fee - res'.fee, fills);
    FeesGrow(p, r.quote - res.quote, r.fee - res.fee, fills + 1, more);
  }

  lemma ChargedMore(p: Params, res: TakeResult, r: TakeResult, fills: int, more: int)
    requires Charged(p, res, r, fills) && fills <= more
    ensures Charged(p, res, r, more)
  {
    hide FeeOf;
    FeesGrow(p, r.quote - res.quote, r.fee - res.fee, fills, more);
  }

  lemma ChargedNothing(p: Params, res: TakeResult, fills: nat)
    ensures Charged(p, res, res, fills)
  {}

  /** How many fills an unbudgeted match can make: one an order that goes, and a last partial one. */
  function FillsAtMost(before: nat, after: nat, rem: nat): int { before - after + if rem > 0 then 1 else 0 }

  /**
   The fee of a match is the rate on the quote it traded, less at most the rounding of one
   unit a lot; without a budget, of one unit for each order that went and one more.
   */
  lemma {:induction false} MatchFees(b: Book, a: TakeArgs, rem: nat, res: TakeResult)
    requires b.Inv() && Match(b, a, rem, res).Ok?
    ensures var (c, r) := Match(b, a, rem, res).value;
      && Charged(b.p, res, r, r.lots - res.lots)
      && (a.maxQuote == U64_MAX ==> Charged(b.p, res, r, FillsAtMost(|b.orders|, |c.orders|, rem)))
    decreases |b.orders|, rem
  {
    hide Book.Inv, Kill, Fill, Front, FillSize, Charged, FeeOn, Params.Notional;
    if rem == 0 || Front(b, a).None? {
      ChargedNothing(b.p, res, 0);
      ChargedNothing(b.p, res, 1);
    } else {
      var h := Front(b, a).value;
      var o := b.orders[h];
      if o.Expired(a.slot) || o.maker == a.seat {
        var k := Kill(b, h);
        MatchFees(k, a, rem, res);
        var (c, r) := Match(k, a, rem, res).value;
        if a.maxQuote == U64_MAX {
          ChargedMore(b.p, res, r, FillsAtMost(|k.orders|, |c.orders|, rem), FillsAtMost(|b.orders|, |c.orders|, rem));
        }
      } else {
        var f := FillSize(b.p, a, o, rem, res);
        if f == 0 {
          ChargedNothing(b.p, res, 0);
          ChargedNothing(b.p, res, 1);
        } else {
          var n := b.p.Notional(o.tick, f);
          if a.maxQuote == U64_MAX { UnbudgetedFill(b.p, a, o, rem, res); }
          MatchFees(Fill(b, h, f), a, rem - f, res.Plus(f, n, FeeOn(b.p, n)));
          FillFees(b, a, h, f, rem, res);
        }
      }
    }
  }

  lemma UnbudgetedFill(p: Params, a: TakeArgs, o: Order, rem: nat, res: TakeResult)
    requires p.tickSize > 0 && o.tick > 0 && a.maxQuote == U64_MAX
    ensures FillSize(p, a, o, rem, res) == Min(o.lots, rem)
  {}

  /** One fill and the fees of what follows it. */
  lemma FillFees(b: Book, a: TakeArgs, h: nat, f: nat, rem: nat, res: TakeResult)
    requires b.Inv() && h in b.orders && 0 < f <= b.orders[h].lots && f <= rem
    requires a.maxQuote == U64_MAX ==> f == Min(b.orders[h].lots, rem)
    requires var n := b.p.Notional(b.orders[h].tick, f);
      var t := Match(Fill(b, h, f), a, rem - f, res.Plus(f, n, FeeOn(b.p, n)));
      t.Ok? &&
      var (c, r) := t.value;
      && Charged(b.p, res.Plus(f, n, FeeOn(b.p, n)), r, r.lots - res.lots - f)
      && (a.maxQuote == U64_MAX ==>
            Charged(b.p, res.Plus(f, n, FeeOn(b.p, n)), r, FillsAtMost(|Fill(b, h, f).orders|, |c.orders|, rem - f)))
    ensures var n := b.p.Notional(b.orders[h].tick, f);
      var (c, r) := Match(Fill(b, h, f), a, rem - f, res.Plus(f, n, FeeOn(b.p, n))).value;
      && Charged(b.p, res, r, r.lots - res.lots)
      && (a.maxQuote == U64_MAX ==> Charged(b.p, res, r, FillsAtMost(|b.orders|, |c.orders|, rem)))
  {
    hide Book.Inv, Fill, Match, Charged, FeeOn, Params.Notional;
    var n := b.p.Notional(b.orders[h].tick, f);
    var (c, r) := Match(Fill(b, h, f), a, rem - f, res.Plus(f, n, FeeOn(b.p, n))).value;
    FillShrinks(b, h, f);
    ChargedFill(b.p, res, f, n, r, r.lots - res.lots - f, r.lots - res.lots);
    if a.maxQuote == U64_MAX {
      ChargedFill(b.p, res, f, n, r, FillsAtMost(|Fill(b, h, f).orders|, |c.orders|, rem - f),
                  FillsAtMost(|b.orders|, |c.orders|, rem));
    }
  }
}
