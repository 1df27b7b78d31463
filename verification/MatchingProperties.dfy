/** What matching keeps, conserves and never exceeds. */
module MatchingProperties {
  import opened Base
  import opened Books
  import opened Ops
  import opened Frames
  import opened Matching

  /** Claims move by exactly the fills: makers hand over one asset and receive the other. */
  ghost predicate ClaimsMoved(b: Book, c: Book, taker: Side, lots: nat, quote: nat) {
    if taker.Bid?
    then c.Claims(true) == b.Claims(true) - b.p.BaseAtoms(lots) && c.Claims(false) == b.Claims(false) + quote
    else c.Claims(true) == b.Claims(true) + b.p.BaseAtoms(lots) && c.Claims(false) == b.Claims(false) - quote
  }

  ghost predicate SeatOwnsSame(b: Book, c: Book, seat: nat) {
    && |b.balances| == |c.balances|
    && (seat < |b.balances| ==>
          && c.balances[seat].Owned(true) == b.balances[seat].Owned(true)
          && c.balances[seat].Owned(false) == b.balances[seat].Owned(false))
  }

  /** A matching step or run: the taker's own side and funds are untouched. */
  ghost predicate Traded(b: Book, c: Book, a: TakeArgs, lots: nat, quote: nat) {
    && c.Inv() && c.anchor == b.anchor && Later(b, c) && c.fees == b.fees
    && c.Levels(a.side) == b.Levels(a.side)
    && SeatOwnsSame(b, c, a.seat)
    && ClaimsMoved(b, c, a.side, lots, quote)
  }

  lemma TradedTrans(b: Book, c: Book, d: Book, a: TakeArgs, l1: nat, q1: nat, l2: nat, q2: nat)
    requires Traded(b, c, a, l1, q1) && Traded(c, d, a, l2, q2)
    ensures Traded(b, d, a, l1 + l2, q1 + q2)
  {
    LaterTrans(b, c, d);
    TimesAdd(b.p.lotSize, l1, l2);
  }

  lemma TradedRefl(b: Book, a: TakeArgs)
    requires b.Inv()
    ensures Traded(b, b, a, 0, 0)
  {}

  lemma KillTraded(b: Book, h: nat, a: TakeArgs)
    requires b.Inv() && h in b.orders && b.orders[h].side == a.side.Opposite()
    ensures Traded(b, Kill(b, h), a, 0, 0)
  {
    hide Book.Inv;
    OrderFacts(b, h);
    KillQuiet(b, h);
    QuietConserves(b, Kill(b, h), true);
    QuietConserves(b, Kill(b, h), false);
    if a.seat < |b.balances| {
      assert Kill(b, h).balances[a.seat].Owned(true) == b.balances[a.seat].Owned(true);
      assert Kill(b, h).balances[a.seat].Owned(false) == b.balances[a.seat].Owned(false);
    }
  }

  lemma FillLater(b: Book, h: nat, lots: nat)
    requires h in b.orders && b.OrderOk(h) && 0 < lots <= b.orders[h].lots && b.orders[h].maker < |b.balances|
    ensures Later(b, Filled(b, h, lots))
    ensures var other := b.orders[h].side.Opposite();
      Filled(b, h, lots).Levels(other) == b.Levels(other)
  {
    var o := b.orders[h];
    if lots == o.lots {
      UnlistLater(b, h);
      LaterSame(b, Unlist(b, h), Filled(b, h, lots));
    } else {
      RestateLater(b, h, o.lots - lots, o.expiry);
      LaterSame(b, Restate(b, h, o.lots - lots, o.expiry), Filled(b, h, lots));
    }
  }

  lemma SettleClaims(b: Book, c: Book, m: nat, taker: Side, tick: nat, lots: nat)
    requires m < |b.balances| && c.fees == b.fees
    requires c.balances == b.balances[m := b.balances[m].Settle(b.p, taker.Opposite(), tick, lots)]
    ensures ClaimsMoved(b, c, taker, lots, b.p.Notional(tick, lots))
  {
    var x := b.balances[m].Settle(b.p, taker.Opposite(), tick, lots);
    SumOwnedUpdate(b.balances, m, x, true);
    SumOwnedUpdate(b.balances, m, x, false);
  }

  lemma FilledParts(b: Book, h: nat, lots: nat)
    requires h in b.orders && b.OrderOk(h) && 0 < lots <= b.orders[h].lots && b.orders[h].maker < |b.balances|
    ensures var o, c := b.orders[h], Filled(b, h, lots);
      && c.balances == b.balances[o.maker := b.balances[o.maker].Settle(b.p, o.side, o.tick, lots)]
      && c.fees == b.fees && c.anchor == b.anchor && c.p == b.p
  {}

  lemma FillTraded(b: Book, h: nat, lots: nat, a: TakeArgs)
    requires b.Inv() && h in b.orders && b.orders[h].side == a.side.Opposite()
    requires 0 < lots <= b.orders[h].lots && b.orders[h].maker != a.seat
    ensures Traded(b, Fill(b, h, lots), a, lots, b.p.Notional(b.orders[h].tick, lots))
  {
    hide Book.Inv, Filled, Later, Times;
    OrderFacts(b, h);
    FilledParts(b, h, lots);
    FillLater(b, h, lots);
    SettleClaims(b, Fill(b, h, lots), b.orders[h].maker, a.side, b.orders[h].tick, lots);
  }

  /** Matching keeps the invariant, moves claims by its result and never touches the taker. */
  lemma {:induction false} MatchTrades(b: Book, a: TakeArgs, rem: nat, res: TakeResult)
    requires b.Inv()
    ensures var r := Match(b, a, rem, res);
      r.Ok? ==>
        && res.lots <= r.value.1.lots <= res.lots + rem
        && res.quote <= r.value.1.quote && res.fee <= r.value.1.fee
        && Traded(b, r.value.0, a, r.value.1.lots - res.lots, r.value.1.quote - res.quote)
    decreases |b.orders|, rem
  {
    hide Book.Inv, Kill, Fill, Traded, Front, FillSize, Times;
    if rem == 0 || Front(b, a).None? {
      TradedRefl(b, a);
    } else {
      var h := Front(b, a).value;
      var o := b.orders[h];
      if o.Expired(a.slot) || o.maker == a.seat {
        KillTraded(b, h, a);
        MatchTrades(Kill(b, h), a, rem, res);
        var r := Match(Kill(b, h), a, rem, res);
        if r.Ok? {
          TradedTrans(b, Kill(b, h), r.value.0, a, 0, 0, r.value.1.lots - res.lots, r.value.1.quote - res.quote);
        }
      } else {
        var f := FillSize(b.p, a, o, rem, res);
        if f == 0 {
          TradedRefl(b, a);
        } else {
          var c, n := Fill(b, h, f), b.p.Notional(o.tick, f);
          var res' := res.Plus(f, n, FeeOn(b.p, n));
          FillTraded(b, h, f, a);
          MatchTrades(c, a, rem - f, res');
          var r := Match(c, a, rem - f, res');
          if r.Ok? {
            TradedTrans(b, c, r.value.0, a, f, n, r.value.1.lots - res'.lots, r.value.1.quote - res'.quote);
          }
        }
      }
    }
  }
}
