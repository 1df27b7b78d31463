/** Price-time priority and completeness of matching. */
module Priority {
  import opened Base
  import opened Books
  import opened Ops
  import opened Matching
  import opened Hygiene
  import opened Quoting
  import opened QuotingProperties

  /** `x` is matched before `y` by a taker on `side`: better price first, then earlier. */
  predicate Precedes(side: Side, x: Order, y: Order) {
    || (if side.Bid? then x.tick < y.tick else y.tick < x.tick)
    || (x.tick == y.tick && x.stamp < y.stamp)
  }

  lemma FrontFirst(b: Book, a: TakeArgs, y: nat)
    requires b.Inv() && Front(b, a).Some? && y in b.orders && y != Front(b, a).value
    requires b.orders[y].side == a.side.Opposite()
    ensures Precedes(a.side, b.orders[Front(b, a).value], b.orders[y])
  {
    hide Book.Inv, Best;
    var h, side := Front(b, a).value, a.side.Opposite();
    BestIsBest(b, side);
    OrderFacts(b, y);
    QueuedAt(b, side, Best(b, side).value, h);
    if b.orders[y].tick == b.orders[h].tick {
      FrontOfQueue(b, side, b.orders[y].tick, y);
    }
  }

  lemma FrontOfQueue(b: Book, side: Side, t: nat, y: nat)
    requires b.Inv() && t in b.Levels(side) && y in b.Levels(side)[t] && y != b.Levels(side)[t][0]
    ensures var h := b.Levels(side)[t][0];
      h in b.orders && y in b.orders && b.orders[h].stamp < b.orders[y].stamp
  {
    hide Book.Inv;
    QueueIsOk(b, side, t);
    var q, f := b.Levels(side)[t], StampOf(b.orders);
    var i :| 0 <= i < |q| && q[i] == y;
    assert q[0] in q && f(q[0]) < f(q[i]);
  }

  /** `x` was filled, partly or wholly, or refunded. */
  ghost predicate Touched(b: Book, c: Book, x: nat) {
    x in b.orders && !(x in c.orders && c.orders[x] == b.orders[x])
  }

  /** One matching step changes its order alone. */
  ghost predicate OnlyTouches(b: Book, c: Book, h: nat) {
    && (forall y | y in c.orders :: y in b.orders && b.orders[y].SameIdentity(c.orders[y]))
    && (forall x | x in b.orders && x != h :: x in c.orders && c.orders[x] == b.orders[x])
  }

  lemma KillTouches(b: Book, h: nat)
    requires b.Inv() && h in b.orders
    ensures OnlyTouches(b, Kill(b, h), h)
  {
    hide Book.Inv;
    OrderFacts(b, h);
  }

  lemma FillTouches(b: Book, h: nat, lots: nat)
    requires b.Inv() && h in b.orders && 0 < lots <= b.orders[h].lots
    ensures OnlyTouches(b, Fill(b, h, lots), h)
  {
    hide Book.Inv;
    OrderFacts(b, h);
  }

  /** Whatever matching touched precedes every other opposing order that is left. */
  ghost predicate InPriority(b: Book, c: Book, side: Side) {
    && (forall y | y in c.orders :: y in b.orders && b.orders[y].SameIdentity(c.orders[y]))
    && (forall x, y | Touched(b, c, x) && y in c.orders && y != x && c.orders[y].side == side.Opposite() ::
          Precedes(side, b.orders[x], c.orders[y]))
  }

  lemma StepInPriority(b: Book, d: Book, c: Book, a: TakeArgs)
    requires b.Inv() && Front(b, a).Some? && OnlyTouches(b, d, Front(b, a).value) && InPriority(d, c, a.side)
    ensures InPriority(b, c, a.side)
  {
    hide Book.Inv, Front, Precedes;
    var h := Front(b, a).value;
    forall x, y | Touched(b, c, x) && y in c.orders && y != x && c.orders[y].side == a.side.Opposite()
      ensures Precedes(a.side, b.orders[x], c.orders[y])
    {
      assert b.orders[y].SameIdentity(c.orders[y]);
      if x == h {
        FrontFirst(b, a, y);
        PrecedesIdentity(a.side, b.orders[h], b.orders[y], c.orders[y]);
      } else {
        assert Touched(d, c, x);
      }
    }
  }

  lemma PrecedesIdentity(side: Side, x: Order, y: Order, y': Order)
    requires Precedes(side, x, y) && y.SameIdentity(y')
    ensures Precedes(side, x, y')
  {}

  /** Matching respects price-time priority, and stops early only for want of budget. */
  lemma {:induction false} MatchInPriority(b: Book, a: TakeArgs, rem: nat, res: TakeResult)
    requires b.Inv() && Match(b, a, rem, res).Ok?
    ensures InPriority(b, Match(b, a, rem, res).value.0, a.side)
    decreases |b.orders|, rem
  {
    hide Book.Inv, Kill, Fill, Front, FillSize, InPriority, OnlyTouches;
    if rem == 0 || Front(b, a).None? {
      NothingTouched(b, a.side);
    } else {
      var h := Front(b, a).value;
      var o := b.orders[h];
      if o.Expired(a.slot) || o.maker == a.seat {
        KillTouches(b, h);
        MatchInPriority(Kill(b, h), a, rem, res);
        StepInPriority(b, Kill(b, h), Match(b, a, rem, res).value.0, a);
      } else {
        var f := FillSize(b.p, a, o, rem, res);
        if f == 0 {
          NothingTouched(b, a.side);
        } else {
          var n := b.p.Notional(o.tick, f);
          FillTouches(b, h, f);
          MatchInPriority(Fill(b, h, f), a, rem - f, res.Plus(f, n, FeeOn(b.p, n)));
          StepInPriority(b, Fill(b, h, f), Match(b, a, rem, res).value.0, a);
        }
      }
    }
  }

  lemma NothingTouched(b: Book, side: Side)
    ensures InPriority(b, b, side)
  {}

  // ---- completeness ----

  /** An opposing order at the limit tick or better. */
  predicate InReach(a: TakeArgs, o: Order) {
    o.side != a.side && if a.side.Bid? then o.tick <= a.limit else a.limit <= o.tick
  }

  /** With no front, no order is in reach. */
  lemma NoneInReach(b: Book, a: TakeArgs)
    requires b.Inv() && Front(b, a).None?
    ensures forall h | h in b.orders :: !InReach(a, b.orders[h])
  {
    hide Book.Inv, Best;
    BestIsBest(b, a.side.Opposite());
    forall h | h in b.orders ensures !InReach(a, b.orders[h]) { OrderFacts(b, h); }
  }

  /** Without a budget, matching ends only when filled or when no order within the limit is left. */
  lemma {:induction false} MatchExhausts(b: Book, a: TakeArgs, rem: nat, res: TakeResult)
    requires b.Inv() && a.maxQuote == U64_MAX && Match(b, a, rem, res).Ok?
    ensures var (c, r) := Match(b, a, rem, res).value;
      && c.Inv() && c.p == b.p && c.anchor == b.anchor
      && r.lots <= res.lots + rem
      && (r.lots < res.lots + rem ==> Front(c, a).None? && forall h | h in c.orders :: !InReach(a, c.orders[h]))
    decreases |b.orders|, rem
  {
    hide Book.Inv, Kill, Fill, Front, InReach;
    if rem > 0 && Front(b, a).None? {
      NoneInReach(b, a);
    } else if rem > 0 {
      var h := Front(b, a).value;
      var o := b.orders[h];
      if o.Expired(a.slot) || o.maker == a.seat {
        MatchExhausts(Kill(b, h), a, rem, res);
      } else {
        var f := FillSize(b.p, a, o, rem, res);
        OrderFacts(b, h);
        var n := b.p.Notional(o.tick, f);
        MatchExhausts(Fill(b, h, f), a, rem - f, res.Plus(f, n, FeeOn(b.p, n)));
      }
    }
  }

  /** Once nothing acceptable is left, resting at the limit cannot cross. */
  lemma RemainderCannotCross(b: Book, a: TakeArgs, slide: bool)
    requires b.Inv() && Front(b, a).None?
    ensures CheckOrSlide(b.anchor, b.p.tickLimit, a.side, a.limit, slide, Best(b, a.side.Opposite())) != Err(WouldCross)
    ensures Target(b, a.side, a.limit, 1, slide).Ok? ==> Target(b, a.side, a.limit, 1, slide) == Ok(a.limit)
  {
    hide Book.Inv, Best;
    BestIsBest(b, a.side.Opposite());
  }

  lemma RestsUncrossed(b: Book, a: TakeArgs, lots: nat, m: nat, expiry: nat)
    requires b.Inv() && Front(b, a).None? && m < MAX_SEATS && expiry <= U32_MAX && 0 < lots
    ensures Upsert(b, a.side, a.limit, lots, m, expiry, false) != Err(WouldCross)
  {
    hide Book.Inv, Best, Front, CheckOrSlide, FindQuote, Kill, CanPost;
    RemainderCannotCross(b, a, false);
  }

  /** Fees and balances do not move the front of the book. */
  lemma SameFront(b: Book, c: Book, a: TakeArgs)
    requires b.Inv() && c.Inv() && c == b.(balances := c.balances, fees := c.fees)
    ensures Front(c, a) == Front(b, a)
  {
    hide Book.Inv;
  }
}
