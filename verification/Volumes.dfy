/** What a match reaches and trades, told from the resting orders, the limit tick and the slot. */
module Volumes {
  import opened Base
  import opened Books
  import opened Ops
  import opened Matching
  import opened Priority
  import Hygiene
  import Runs

  // ---- orders a taker can meet ----

  /** The taker's own order, not lapsed. */
  predicate Own(a: TakeArgs, o: Order) {
    InReach(a, o) && o.maker == a.seat && (o.expiry == 0 || a.slot < o.expiry)
  }

  /** Another seat's order that never expires or expires after the slot. */
  predicate Tradable(a: TakeArgs, o: Order) {
    InReach(a, o) && o.maker != a.seat && (o.expiry == 0 || a.slot < o.expiry)
  }

  /** The front of the book is in reach. */
  lemma FrontIs(b: Book, a: TakeArgs)
    requires b.Inv()
    ensures Front(b, a).Some? ==>
      var o := b.orders[Front(b, a).value];
      && InReach(a, o) && 0 < o.lots
      && (Tradable(a, o) <==> !o.Expired(a.slot) && o.maker != a.seat)
      && (Own(a, o) <==> !o.Expired(a.slot) && o.maker == a.seat)
  {
    hide Book.Inv, Best;
    var side := a.side.Opposite();
    BestIsBest(b, side);
    if Front(b, a).Some? {
      var h := Front(b, a).value;
      OrderFacts(b, h);
      Hygiene.QueuedAt(b, side, Best(b, side).value, h);
    }
  }

  // ---- no order past the limit is touched ----

  /** What was touched was in reach; what is left of it was traded, the rest of it is there. */
  ghost predicate Reached(b: Book, c: Book, a: TakeArgs) {
    forall x | Touched(b, c, x) ::
      && InReach(a, b.orders[x])
      && (x in c.orders ==>
            && Tradable(a, b.orders[x]) && c.orders[x].lots < b.orders[x].lots
            && c.orders[x] == b.orders[x].(lots := c.orders[x].lots))
  }

  lemma KillReaches(b: Book, c: Book, d: Book, a: TakeArgs, h: nat)
    requires h in b.orders && InReach(a, b.orders[h]) && c.orders == b.orders - {h} && Reached(c, d, a)
    requires forall y | y in d.orders :: y in c.orders
    ensures Reached(b, d, a)
  {
    forall x | Touched(b, d, x) && x != h
      ensures Touched(c, d, x)
    {}
  }

  lemma FillReaches(b: Book, c: Book, d: Book, a: TakeArgs, h: nat, lots: nat)
    requires h in b.orders && Tradable(a, b.orders[h]) && 0 < lots < b.orders[h].lots
    requires c.orders == b.orders[h := b.orders[h].(lots := b.orders[h].lots - lots)] && Reached(c, d, a)
    ensures Reached(b, d, a)
  {
    forall x | Touched(b, d, x) && x != h
      ensures Touched(c, d, x)
    {}
    if h in d.orders && Touched(b, d, h) && d.orders[h] != c.orders[h] { assert Touched(c, d, h); }
  }

  lemma FillOrders(b: Book, h: nat, lots: nat)
    requires b.Inv() && h in b.orders && 0 < lots <= b.orders[h].lots
    ensures var o := b.orders[h];
      Fill(b, h, lots).orders
        == if lots == o.lots then b.orders - {h} else b.orders[h := o.(lots := o.lots - lots)]
  {
    hide Book.Inv;
    OrderFacts(b, h);
  }

  lemma KillOrders(b: Book, h: nat)
    requires b.Inv() && h in b.orders
    ensures Kill(b, h).orders == b.orders - {h}
  {
    hide Book.Inv;
    OrderFacts(b, h);
  }

  /**
   Whatever a match fills, drops or refunds is an opposing order at the limit or better; one
   that is still there was filled in part, and lapsed and own orders are never filled.
   */
  lemma {:induction false} MatchWithinLimit(b: Book, a: TakeArgs, rem: nat, res: TakeResult)
    requires b.Inv() && Match(b, a, rem, res).Ok?
    ensures var c := Match(b, a, rem, res).value.0;
      Reached(b, c, a) && forall y | y in c.orders :: y in b.orders
    decreases |b.orders|, rem
  {
    hide Book.Inv, Kill, Fill, Front, FillSize, Reached, InReach, Tradable, Own;
    if rem == 0 || Front(b, a).None? {
      NothingReached(b, a);
    } else {
      FrontIs(b, a);
      var h := Front(b, a).value;
      var o, d := b.orders[h], Match(b, a, rem, res).value.0;
      KillOrders(b, h);
      if o.Expired(a.slot) || o.maker == a.seat {
        MatchWithinLimit(Kill(b, h), a, rem, res);
        KillReaches(b, Kill(b, h), d, a, h);
      } else {
        var f := FillSize(b.p, a, o, rem, res);
        if f == 0 {
          NothingReached(b, a);
        } else {
          var n := b.p.Notional(o.tick, f);
          FillOrders(b, h, f);
          MatchWithinLimit(Fill(b, h, f), a, rem - f, res.Plus(f, n, FeeOn(b.p, n)));
          if f == o.lots { KillReaches(b, Fill(b, h, f), d, a, h); } else { FillReaches(b, Fill(b, h, f), d, a, h, f); }
        }
      }
    }
  }

  lemma NothingReached(b: Book, a: TakeArgs)
    ensures Reached(b, b, a)
  {}

  // ---- volumes ----

  function Part(a: TakeArgs, o: Order): nat { if Tradable(a, o) then o.lots else 0 }

  /** The lots of all the orders the taker can trade with. */
  ghost function Volume(orders: map<nat, Order>, a: TakeArgs): nat
    decreases |orders|
  {
    if orders == map[] then 0 else
      var h :| h in orders;
      Part(a, orders[h]) + Volume(orders - {h}, a)
  }

  lemma {:induction false} VolumeWithout(orders: map<nat, Order>, a: TakeArgs, h: nat)
    requires h in orders
    ensures Volume(orders, a) == Part(a, orders[h]) + Volume(orders - {h}, a)
    decreases |orders|
  {
    hide Part;
    var x :| x in orders && Volume(orders, a) == Part(a, orders[x]) + Volume(orders - {x}, a);
    if x != h {
      VolumeWithout(orders - {x}, a, h);
      VolumeWithout(orders - {h}, a, x);
      assert orders - {x} - {h} == orders - {h} - {x};
    }
  }

  lemma VolumeChanged(orders: map<nat, Order>, a: TakeArgs, h: nat, o: Order)
    requires h in orders
    ensures Volume(orders[h := o], a) + Part(a, orders[h]) == Volume(orders, a) + Part(a, o)
  {
    hide Part;
    VolumeWithout(orders, a, h);
    VolumeWithout(orders[h := o], a, h);
    assert orders[h := o] - {h} == orders - {h};
  }

  lemma {:induction false} NoVolume(orders: map<nat, Order>, a: TakeArgs)
    requires forall h | h in orders :: !InReach(a, orders[h])
    ensures Volume(orders, a) == 0
    decreases |orders|
  {
    hide InReach;
    if orders != map[] {
      var h :| h in orders;
      VolumeWithout(orders, a, h);
      NoVolume(orders - {h}, a);
    }
  }

  lemma FillVolume(b: Book, a: TakeArgs, h: nat, lots: nat)
    requires b.Inv() && h in b.orders && 0 < lots <= b.orders[h].lots && Tradable(a, b.orders[h])
    ensures Volume(Fill(b, h, lots).orders, a) + lots == Volume(b.orders, a)
  {
    hide Book.Inv, Fill;
    FillOrders(b, h, lots);
    var o := b.orders[h];
    VolumeWithout(b.orders, a, h);
    if lots < o.lots { VolumeChanged(b.orders, a, h, o.(lots := o.lots - lots)); }
  }

  /** Under any budget, the lots traded are the lots that tradable orders lost. */
  lemma {:induction false} MatchTradesVolume(b: Book, a: TakeArgs, rem: nat, res: TakeResult)
    requires b.Inv() && Match(b, a, rem, res).Ok?
    ensures var (c, r) := Match(b, a, rem, res).value;
      Volume(c.orders, a) + r.lots == Volume(b.orders, a) + res.lots
    decreases |b.orders|, rem
  {
    hide Book.Inv, Kill, Fill, Front, FillSize, InReach, Tradable, Own, Volume;
    if rem > 0 && Front(b, a).Some? {
      FrontIs(b, a);
      var h := Front(b, a).value;
      var o := b.orders[h];
      if o.Expired(a.slot) || o.maker == a.seat {
        VolumeWithout(b.orders, a, h);
        KillOrders(b, h);
        MatchTradesVolume(Kill(b, h), a, rem, res);
      } else {
        var f := FillSize(b.p, a, o, rem, res);
        if f > 0 {
          var n := b.p.Notional(o.tick, f);
          FillVolume(b, a, h, f);
          MatchTradesVolume(Fill(b, h, f), a, rem - f, res.Plus(f, n, FeeOn(b.p, n)));
        }
      }
    }
  }

  /** Without a budget a match trades all it can: every lot it could trade, or all asked for. */
  lemma MatchTakesVolume(b: Book, a: TakeArgs, rem: nat, res: TakeResult)
    requires b.Inv() && a.maxQuote == U64_MAX && Match(b, a, rem, res).Ok?
    ensures Match(b, a, rem, res).value.1.lots == res.lots + Min(rem, Volume(b.orders, a))
  {
    hide Book.Inv, Match, Front, InReach, Volume;
    var (c, r) := Match(b, a, rem, res).value;
    MatchTradesVolume(b, a, rem, res);
    MatchExhausts(b, a, rem, res);
    if r.lots < res.lots + rem { NoVolume(c.orders, a); }
  }

  // ---- when a match succeeds ----

  /** The orders matched before `y`. */
  ghost function AheadOf(orders: map<nat, Order>, side: Side, y: Order): map<nat, Order> {
    map h | h in orders && Precedes(side, orders[h], y) :: orders[h]
  }

  /** An own order is met before `rem` lots are traded. */
  ghost predicate MeetsOwn(orders: map<nat, Order>, a: TakeArgs, rem: nat) {
    exists y | y in orders :: Own(a, orders[y]) && Volume(AheadOf(orders, a.side, orders[y]), a) < rem
  }

  lemma DroppedMeets(orders: map<nat, Order>, a: TakeArgs, rem: nat, h: nat)
    requires h in orders && !Own(a, orders[h]) && !Tradable(a, orders[h])
    ensures MeetsOwn(orders - {h}, a, rem) <==> MeetsOwn(orders, a, rem)
  {
    hide Own, Tradable, Volume, Precedes;
    forall y | y in orders && y != h
      ensures Volume(AheadOf(orders - {h}, a.side, orders[y]), a) == Volume(AheadOf(orders, a.side, orders[y]), a)
    {
      var s := AheadOf(orders, a.side, orders[y]);
      assert AheadOf(orders - {h}, a.side, orders[y]) == s - {h};
      if h in s { VolumeWithout(s, a, h); } else { assert s - {h} == s; }
    }
    if MeetsOwn(orders, a, rem) {
      var y :| y in orders && Own(a, orders[y]) && Volume(AheadOf(orders, a.side, orders[y]), a) < rem;
      assert y in orders - {h} && (orders - {h})[y] == orders[y];
    }
    if MeetsOwn(orders - {h}, a, rem) {
      var y :| y in orders - {h} && Own(a, (orders - {h})[y])
        && Volume(AheadOf(orders - {h}, a.side, (orders - {h})[y]), a) < rem;
      assert y in orders && orders[y] == (orders - {h})[y];
    }
  }

  /** `lots` of the order `h`, which precedes every own order, are traded. */
  lemma TradedMeets(orders: map<nat, Order>, after: map<nat, Order>, a: TakeArgs, rem: nat, h: nat, lots: nat)
    requires h in orders && Tradable(a, orders[h]) && 0 < lots <= orders[h].lots && lots <= rem
    requires after
      == if lots == orders[h].lots then orders - {h} else orders[h := orders[h].(lots := orders[h].lots - lots)]
    requires forall y | y in orders && y != h && Own(a, orders[y]) :: Precedes(a.side, orders[h], orders[y])
    ensures MeetsOwn(after, a, rem - lots) <==> MeetsOwn(orders, a, rem)
  {
    hide Volume, InReach;
    forall y | y in orders && y != h && Own(a, orders[y])
      ensures y in after && after[y] == orders[y]
      ensures Volume(AheadOf(after, a.side, orders[y]), a) + lots == Volume(AheadOf(orders, a.side, orders[y]), a)
    {
      TradedBefore(orders, after, a, h, lots, orders[y]);
    }
    forall y | y in after && Own(a, after[y])
      ensures y in orders && y != h && after[y] == orders[y]
    {}
    if MeetsOwn(orders, a, rem) {
      var y :| y in orders && Own(a, orders[y]) && Volume(AheadOf(orders, a.side, orders[y]), a) < rem;
      assert y in after && Own(a, after[y]);
    }
  }

  lemma TradedBefore(orders: map<nat, Order>, after: map<nat, Order>, a: TakeArgs, h: nat, lots: nat, y: Order)
    requires h in orders && Tradable(a, orders[h]) && 0 < lots <= orders[h].lots
    requires after
      == if lots == orders[h].lots then orders - {h} else orders[h := orders[h].(lots := orders[h].lots - lots)]
    requires Precedes(a.side, orders[h], y)
    ensures Volume(AheadOf(after, a.side, y), a) + lots == Volume(AheadOf(orders, a.side, y), a)
  {
    hide Volume;
    var o, s := orders[h], AheadOf(orders, a.side, y);
    VolumeWithout(s, a, h);
    if lots == o.lots {
      assert AheadOf(after, a.side, y) == s - {h};
    } else {
      assert AheadOf(after, a.side, y) == s[h := o.(lots := o.lots - lots)];
      VolumeChanged(s, a, h, o.(lots := o.lots - lots));
    }
  }

  /** Nothing tradable comes before the front of the book. */
  lemma FrontHasNoneBefore(b: Book, a: TakeArgs)
    requires b.Inv() && Front(b, a).Some?
    ensures Volume(AheadOf(b.orders, a.side, b.orders[Front(b, a).value]), a) == 0
  {
    hide Book.Inv, Front, Volume;
    var h := Front(b, a).value;
    var s := AheadOf(b.orders, a.side, b.orders[h]);
    forall x | x in s
      ensures !InReach(a, s[x])
    {
      if InReach(a, s[x]) && x != h { FrontFirst(b, a, x); }
    }
    NoVolume(s, a);
  }

  lemma OwnsFollow(b: Book, a: TakeArgs)
    requires b.Inv() && Front(b, a).Some?
    ensures var h := Front(b, a).value;
      forall y | y in b.orders && y != h && Own(a, b.orders[y]) :: Precedes(a.side, b.orders[h], b.orders[y])
  {
    hide Book.Inv, Front, Precedes;
    forall y | y in b.orders && y != Front(b, a).value && Own(a, b.orders[y])
      ensures Precedes(a.side, b.orders[Front(b, a).value], b.orders[y])
    {
      FrontFirst(b, a, y);
    }
  }

  /** A match asked to abort does so iff it meets an own order before it is filled. */
  lemma {:induction false} MatchAborts(b: Book, a: TakeArgs, rem: nat, res: TakeResult)
    requires b.Inv() && a.maxQuote == U64_MAX && a.abort
    ensures Match(b, a, rem, res).Err? <==> MeetsOwn(b.orders, a, rem)
    decreases |b.orders|, rem
  {
    hide Book.Inv, Kill, Fill, Front, InReach, Tradable, Own, Volume, MeetsOwn, AheadOf;
    if rem == 0 {
      MeetsNone(b.orders, a, 0);
    } else if Front(b, a).None? {
      NoneInReach(b, a);
      MeetsNone(b.orders, a, rem);
    } else {
      FrontIs(b, a);
      var h := Front(b, a).value;
      var o := b.orders[h];
      if o.Expired(a.slot) {
        KillOrders(b, h);
        DroppedMeets(b.orders, a, rem, h);
        MatchAborts(Kill(b, h), a, rem, res);
      } else if o.maker == a.seat {
        FrontHasNoneBefore(b, a);
        MeetsFront(b.orders, a, rem, h);
      } else {
        var f := FillSize(b.p, a, o, rem, res);
        var n := b.p.Notional(o.tick, f);
        OwnsFollow(b, a);
        FillOrders(b, h, f);
        TradedMeets(b.orders, Fill(b, h, f).orders, a, rem, h, f);
        MatchAborts(Fill(b, h, f), a, rem - f, res.Plus(f, n, FeeOn(b.p, n)));
      }
    }
  }

  lemma MeetsNone(orders: map<nat, Order>, a: TakeArgs, rem: nat)
    requires rem == 0 || forall h | h in orders :: !InReach(a, orders[h])
    ensures !MeetsOwn(orders, a, rem)
  {
    hide InReach;
  }

  lemma MeetsFront(orders: map<nat, Order>, a: TakeArgs, rem: nat, h: nat)
    requires h in orders && Own(a, orders[h]) && Volume(AheadOf(orders, a.side, orders[h]), a) == 0 < rem
    ensures MeetsOwn(orders, a, rem)
  {}

  /**
   A take succeeds iff it asks for a lot or more, for no more than the market's largest
   order, and does not meet an own order it was told to abort on.
   */
  lemma TakeSucceeds(b: Book, a: TakeArgs, maxLots: nat)
    requires b.Inv() && (a.abort ==> a.maxQuote == U64_MAX)
    ensures Take(b, a, maxLots).Ok? <==>
      0 < maxLots <= b.p.maxLots && !(a.abort && MeetsOwn(b.orders, a, maxLots))
    ensures !(0 < maxLots <= b.p.maxLots) ==> Take(b, a, maxLots) == Err(InvalidLots)
    ensures Take(b, a, maxLots).Ok? && a.maxQuote == U64_MAX ==>
      Take(b, a, maxLots).value.1.lots == Min(maxLots, Volume(b.orders, a))
  {
    hide Book.Inv, Match, MeetsOwn, Volume;
    Runs.MatchErrs(b, a, maxLots, NOTHING);
    if a.abort { MatchAborts(b, a, maxLots, NOTHING); }
    if Match(b, a, maxLots, NOTHING).Ok? && a.maxQuote == U64_MAX { MatchTakesVolume(b, a, maxLots, NOTHING); }
  }

  /** A swap takes no resting order for its own: to it every order in reach that has not lapsed is tradable. */
  lemma SwapTradesAll(b: Book, a: TakeArgs, h: nat)
    requires b.Inv() && a.seat == NO_SEAT && h in b.orders
    ensures Tradable(a, b.orders[h]) <==>
      InReach(a, b.orders[h]) && (b.orders[h].expiry == 0 || a.slot < b.orders[h].expiry)
  {
    OrderFacts(b, h);
  }
}
