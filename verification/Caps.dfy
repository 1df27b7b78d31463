/** When the overflow cap inside the quote budget can shrink a fill: exactly above 246 basis points. */
module Caps {
  import opened Base
  import opened Books
  import opened Ops
  import opened Matching
  import opened Budgets

  // The largest fee with (10_000 + fee)^2 <= 10_000 * 10_500.
  const HARMLESS_BPS: nat := 246

  /** Affordable lots if the budget were not capped before the multiplication. */
  function Uncapped(p: Params, price: nat, budget: nat): nat
    requires 0 < price
  {
    Quotient(Quotient(budget * FEE_DENOMINATOR, FEE_DENOMINATOR + p.feeBps), price)
  }

  lemma {:induction false} QuotientMono(x: nat, y: nat, d: nat)
    requires 0 < d && x <= y
    ensures Quotient(x, d) <= Quotient(y, d)
  {
    if d <= x { QuotientMono(x - d, y - d, d); }
  }

  /** `Quotient(x, d)` is at least `q` exactly when `d * q` fits below `x`. */
  lemma QuotientAtLeast(x: nat, d: nat, q: nat)
    requires 0 < d
    ensures q <= Quotient(x, d) <==> Times(d, q) <= x
  {
    hide Quotient;
    QuotientIs(x, d);
    var k := Quotient(x, d);
    if q <= k {
      TimesMono(d, d, q, k);
    } else {
      TimesMono(d, d, k + 1, q);
    }
  }

  lemma Squares(d: nat, c: nat, n: nat)
    requires FEE_DENOMINATOR <= d <= FEE_DENOMINATOR + HARMLESS_BPS
    requires 10_500 * n <= U64_MAX < d * c + d
    ensures d * n <= FEE_DENOMINATOR * c
  {
    assert c >= 10_000 by { SmallCap(d, c); }
    assert 10_500 * n * d <= (d * c + d) * d by { MulLe(10_500 * n, d * c + d, d); }
    assert (d * c + d) * d == d * d * (c + 1) by { Regroup(d, c); }
    assert d * d <= 104_980_516 by { MulLe2(d, 10_246); }
    assert d * d * (c + 1) <= 104_980_516 * (c + 1) by { MulLe(d * d, 104_980_516, c + 1); }
    assert 10_500 * n * d == 10_500 * (d * n) by { Regroup2(n, d); }
  }

  lemma SmallCap(d: nat, c: nat)
    requires d <= 10_246 && U64_MAX < d * c + d
    ensures c >= 10_000
  {
    if c < 10_000 { MulLe2(d, 10_246); MulLe(d, 10_246, c + 1); }
  }

  lemma MulLe2(x: nat, y: nat)
    requires x <= y
    ensures x * x <= y * y
  {
    MulLe(x, y, x);
    MulLe(x, y, y);
  }

  lemma Regroup(d: nat, c: nat)
    ensures (d * c + d) * d == d * d * (c + 1)
  {}

  lemma Regroup2(n: nat, d: nat)
    ensures 10_500 * n * d == 10_500 * (d * n)
  {}

  /** The cap changes no fill of this many lots at this tick, whatever the budget. */
  ghost predicate Harmless(p: Params, tick: nat, lots: nat, budget: nat)
    requires 0 < Times(tick, p.tickSize)
  {
    var price := Times(tick, p.tickSize);
    Min(lots, Affordable(p, price, budget)) == Min(lots, Uncapped(p, price, budget))
  }

  /** Up to 246 basis points: a capped budget still covers any order the market admits. */
  lemma CapHarmless(p: Params, tick: nat, lots: nat, budget: nat)
    requires p.Ok() && p.feeBps <= HARMLESS_BPS && 0 < tick <= p.tickLimit && lots <= p.maxLots
    requires 0 < Times(tick, p.tickSize)
    ensures Harmless(p, tick, lots, budget)
  {
    hide Quotient, Times;
    var d, price := FEE_DENOMINATOR + p.feeBps, Times(tick, p.tickSize);
    var cap := Quotient(U64_MAX, d);
    if cap < budget {
      var n := Times(price, lots);
      NotionalFits(p, tick, lots);
      TimesIs(FEE_DENOMINATOR + MAX_FEE_BPS, n);
      QuotientIs(U64_MAX, d);
      TimesIs(d, cap);
      Squares(d, cap, n);
      TimesIs(d, n);
      QuotientAtLeast(cap * FEE_DENOMINATOR, d, n);
      QuotientAtLeast(Quotient(cap * FEE_DENOMINATOR, d), price, lots);
      QuotientMono(cap * FEE_DENOMINATOR, budget * FEE_DENOMINATOR, d);
      QuotientAtLeast(Quotient(budget * FEE_DENOMINATOR, d), price, lots);
    }
  }

  /** A market, an order and a budget the cap gets in the way of, at any higher fee. */
  const WITNESS_TICK: nat := 4_294_950_911
  const WITNESS_LOTS: nat := 409_046

  function Witness(bps: nat): Params { Params(1, 1, bps, WITNESS_LOTS, WITNESS_TICK, MIN_POOL_CAPACITY) }

  lemma WitnessOk(bps: nat)
    requires bps <= MAX_FEE_BPS
    ensures Witness(bps).Ok() && Times(WITNESS_TICK, 1) == WITNESS_TICK
    ensures Times(WITNESS_TICK, WITNESS_LOTS) == WITNESS_TICK * WITNESS_LOTS
  {
    hide Times;
    TimesIs(WITNESS_TICK, 1);
    TimesIs(WITNESS_TICK, WITNESS_LOTS);
    TimesIs(FEE_DENOMINATOR + MAX_FEE_BPS, WITNESS_TICK * WITNESS_LOTS);
    TimesIs(1, WITNESS_LOTS);
  }

  /** Above 246 basis points the cap can refuse lots the budget would pay for in full. */
  lemma CapBinds(bps: nat, budget: nat)
    requires HARMLESS_BPS < bps <= MAX_FEE_BPS && 2_000_000_000_000_000 <= budget
    ensures Witness(bps).Ok() && 0 < Times(WITNESS_TICK, 1)
    ensures !Harmless(Witness(bps), WITNESS_TICK, WITNESS_LOTS, budget)
    ensures Cost(Witness(bps), Witness(bps).Notional(WITNESS_TICK, WITNESS_LOTS)) <= budget
  {
    hide Quotient, Times, FeeOn;
    WitnessOk(bps);
    var p, d, n := Witness(bps), FEE_DENOMINATOR + bps, WITNESS_TICK * WITNESS_LOTS;
    var cap := Quotient(U64_MAX, d);
    TimesIs(d, n);
    QuotientIs(U64_MAX, d);
    TimesIs(d, cap);
    CapShort(d, cap);
    CapBelow(d, cap);
    QuotientAtLeast(cap * FEE_DENOMINATOR, d, n);
    QuotientAtLeast(Quotient(cap * FEE_DENOMINATOR, d), WITNESS_TICK, WITNESS_LOTS);
    FeeIs(p, n);
    TimesIs(bps, n);
    FullCost(bps);
    QuotientAtLeast(budget * FEE_DENOMINATOR, d, n);
    QuotientAtLeast(Quotient(budget * FEE_DENOMINATOR, d), WITNESS_TICK, WITNESS_LOTS);
  }

  lemma CapShort(d: nat, cap: nat)
    requires 10_247 <= d <= 10_500 && d * cap <= U64_MAX
    ensures cap * FEE_DENOMINATOR < d * (WITNESS_TICK * WITNESS_LOTS)
  {
    assert 10_247 * cap <= d * cap by { MulLe(10_247, d, cap); }
    assert 10_247 * (WITNESS_TICK * WITNESS_LOTS) <= d * (WITNESS_TICK * WITNESS_LOTS)
      by { MulLe(10_247, d, WITNESS_TICK * WITNESS_LOTS); }
  }

  lemma CapBelow(d: nat, cap: nat)
    requires 10_247 <= d && d * cap <= U64_MAX
    ensures cap < 2_000_000_000_000_000
  {
    assert 10_247 * cap <= d * cap by { MulLe(10_247, d, cap); }
  }

  lemma FullCost(bps: nat)
    requires bps <= MAX_FEE_BPS
    ensures (FEE_DENOMINATOR + bps) * (WITNESS_TICK * WITNESS_LOTS) <= 2_000_000_000_000_000 * FEE_DENOMINATOR
    ensures bps * (WITNESS_TICK * WITNESS_LOTS) <= MAX_FEE_BPS * (WITNESS_TICK * WITNESS_LOTS)
  {
    MulLe(FEE_DENOMINATOR + bps, FEE_DENOMINATOR + MAX_FEE_BPS, WITNESS_TICK * WITNESS_LOTS);
    MulLe(bps, MAX_FEE_BPS, WITNESS_TICK * WITNESS_LOTS);
  }

  /** No market with this fee has a fill the cap changes. */
  ghost predicate NeverBinds(bps: nat) {
    forall p: Params, tick: nat, lots: nat, budget: nat {:trigger Harmless(p, tick, lots, budget)} |
      p.Ok() && p.feeBps == bps && 0 < tick <= p.tickLimit && lots <= p.maxLots && budget <= U64_MAX
      && 0 < Times(tick, p.tickSize) :: Harmless(p, tick, lots, budget)
  }

  /** The cap is lossless exactly for fees up to 246 basis points. */
  lemma CapExactly(bps: nat)
    requires bps <= MAX_FEE_BPS
    ensures NeverBinds(bps) <==> bps <= HARMLESS_BPS
  {
    hide Harmless, Params.Ok, Times;
    if bps <= HARMLESS_BPS {
      forall p: Params, tick: nat, lots: nat, budget: nat | p.Ok() && p.feeBps == bps && 0 < tick <= p.tickLimit
        && lots <= p.maxLots && budget <= U64_MAX && 0 < Times(tick, p.tickSize)
        ensures Harmless(p, tick, lots, budget)
      {
        CapHarmless(p, tick, lots, budget);
      }
    } else {
      CapBinds(bps, U64_MAX - 1);
    }
  }

  // ---- why a budgeted match stops ----

  lemma CannotAfford(p: Params, tick: nat, budget: nat)
    requires p.Ok() && p.feeBps <= HARMLESS_BPS && 0 < tick <= p.tickLimit && 0 < Times(tick, p.tickSize)
    requires Affordable(p, Times(tick, p.tickSize), budget) == 0
    ensures budget <= Cost(p, p.Notional(tick, 1))
  {
    hide Quotient, Times, FeeOn, Params.Ok;
    var d, price := FEE_DENOMINATOR + p.feeBps, Times(tick, p.tickSize);
    LotsAllowed(p);
    CapHarmless(p, tick, 1, budget);
    QuotientAtLeast(Quotient(budget * FEE_DENOMINATOR, d), price, 1);
    TimesIs(price, 1);
    QuotientAtLeast(budget * FEE_DENOMINATOR, d, price);
    FeeIs(p, price);
  }

  lemma LotsAllowed(p: Params)
    requires p.Ok()
    ensures 1 <= p.maxLots
  {}

  /**
   A budgeted match that stops with lots and an acceptable order left stops for want of
   budget: one more lot there would cost at least what remains.
   */
  lemma {:induction false} BudgetStops(b: Book, a: TakeArgs, rem: nat, res: TakeResult)
    requires b.Inv() && b.p.feeBps <= HARMLESS_BPS && a.maxQuote != U64_MAX
    requires Accumulated(b.p, res) && res.lots + rem <= b.p.maxLots && WithinBudget(a, res)
    requires Match(b, a, rem, res).Ok?
    ensures var (c, r) := Match(b, a, rem, res).value;
      c.Inv() && (r.lots < res.lots + rem && Front(c, a).Some? ==>
        var o := c.orders[Front(c, a).value];
        && !o.Expired(a.slot) && o.maker != a.seat
        && a.maxQuote <= r.quote + r.fee + Cost(b.p, b.p.Notional(o.tick, 1)))
    decreases |b.orders|, rem
  {
    hide Book.Inv, Kill, Fill, Front, Accumulated, Params.Notional, FeeOn, Affordable, Times;
    if rem > 0 && Front(b, a).Some? {
      var h := Front(b, a).value;
      var o := b.orders[h];
      FrontFits(b, h);
      if o.Expired(a.slot) || o.maker == a.seat {
        BudgetStops(Kill(b, h), a, rem, res);
      } else {
        var f := FillSize(b.p, a, o, rem, res);
        PricePositive(b.p, o.tick);
        if f > 0 {
          var n := b.p.Notional(o.tick, f);
          FillWithinBudget(b.p, a, o, rem, res, f);
          Accumulates(b.p, res, o.tick, f);
          BudgetStops(Fill(b, h, f), a, rem - f, res.Plus(f, n, FeeOn(b.p, n)));
        } else {
          CannotAfford(b.p, o.tick, a.maxQuote - res.quote - res.fee);
        }
      }
    }
  }
}
