/** When quotes are accepted and where they rest, told from ticks, flags, funds and free nodes. */
module Placing {
  import opened Base
  import opened Bitmaps
  import opened Books
  import opened Ops
  import opened Frames
  import opened Matching
  import opened Hygiene
  import opened Reanchoring
  import opened Quoting
  import opened Merging
  import opened MergingProperties
  import opened MassQuoting
  import opened Collisions
  import Capacity
  import Venues

  // ---- one tick ----

  /** An opposing order at the tick or past it. */
  ghost predicate Crossing(b: Book, side: Side, tick: nat) {
    exists t | t in b.Levels(side.Opposite()) :: if side.Bid? then t <= tick else tick <= t
  }

  /**
   The check, told from the opposing ticks: outside the window it fails; a tick that does not
   cross rests where it is; one that does is refused, or slides to be next to an opposing
   order without crossing any, unless that is at the edge of the window.
   */
  lemma CheckedExactly(b: Book, side: Side, tick: nat, slide: bool)
    requires b.Inv()
    ensures var r := CheckOrSlide(b.anchor, b.p.tickLimit, side, tick, slide, Best(b, side.Opposite()));
      if !b.InWindow(tick) then r == Err(TickOutOfWindow)
      else if !Crossing(b, side, tick) then r == Ok(tick)
      else if !slide then r == Err(WouldCross)
      else if side.Bid? then
        if b.anchor in b.asks then r == Err(TickOutOfWindow)
        else r.Ok? && r.value + 1 in b.asks && forall t | t in b.asks :: r.value < t
      else
        if b.anchor + WINDOW_MASK in b.bids then r == Err(TickOutOfWindow)
        else r.Ok? && r.value - 1 in b.bids && forall t | t in b.bids :: t < r.value
  {
    hide Book.Structure, Book.Uncrossed, Book.LocksExact, Params.Ok, Best;
    BestIsBest(b, side.Opposite());
    var best := Best(b, side.Opposite());
    if best.Some? && (if side.Bid? then best.value <= tick else tick <= best.value) {
      assert Crossing(b, side, tick);
    }
    forall t | t in b.Levels(side.Opposite()) ensures b.InWindow(t) { HeadLive(b, side.Opposite(), t); }
  }

  /** A new order is refused at 128 on the chain, then when its lock is not paid for, then for want of a node. */
  lemma InsertExactly(b: Book, side: Side, tick: nat, lots: nat, m: nat, expiry: nat)
    requires b.Inv() && m < MAX_SEATS && CanPost(b, side, tick, lots, m, expiry, Place(b, m, side, tick))
    ensures m < |b.chains| && m < |b.balances|
    ensures var r := Insert(b, side, tick, lots, m, expiry);
      var short := if side.Bid? then b.balances[m].quoteFree < Times(Times(tick, b.p.tickSize), lots)
        else b.balances[m].baseFree < Times(b.p.lotSize, lots);
      if |b.chains[m]| >= 128 then r == Err(TooManyOrders)
      else if short then r == Err(InsufficientBalance)
      else if b.free == [] then r == Err(PoolFull)
      else
        && r.Ok? && r.value.Inv() && r.value.free == b.free[1..]
        && r.value.orders == b.orders[b.free[0] := Order(side, tick, m, lots, expiry, b.issued)]
  {
    hide Book.Inv, CanPost, Place;
    ChainMembers(b, m);
  }

  // ---- one quote of a pass ----

  /** Where a quote of a pass rests: its own tick, or one off the opposing best. */
  function RestTick(a: Pass, q: Quote): int {
    if !Crosses(a, q) then q.tick else if a.side.Bid? then a.best.value - 1 else a.best.value + 1
  }

  /** A quote of good size in the window, which slides within it if it crosses. */
  predicate Fair(b: Book, a: Pass, q: Quote) {
    && 0 < q.lots <= b.p.maxLots && b.InWindow(q.tick) && b.anchor <= RestTick(a, q) <= b.anchor + WINDOW_MASK
    && (Crosses(a, q) ==> q.flags % 2 == 0)
  }

  lemma FairSlides(b: Book, a: Pass, q: Quote)
    requires b.Inv() && a.Hoisted(b) && Fair(b, a, q)
    ensures RestTick(a, q) >= 0 && a.Slid(b, q) == Ok(RestTick(a, q))
  {
    hide Book.Inv, Best;
    BestIsBest(b, a.side.Opposite());
    AnchorAligned(b);
  }

  /** A crossing quote with the lowest bit of its flags set makes its pass fail. */
  lemma FlaggedFails(b: Book, a: Pass, i: nat, j: nat)
    requires b.Inv() && a.Ok() && a.Hoisted(b) && MergeAt(b, a, i, 0) && j < |a.quotes|
    requires Crosses(a, a.quotes[j]) && a.quotes[j].flags % 2 == 1
    ensures Merge(b, a, i, 0, 0).Err?
  {
    hide Book.Inv, View, Best, MergeAt, Merge, Crosses;
    RefusedFails(b, a, i);
  }

  // ---- a whole pass ----

  /** What the quotes from `k` on lock where they rest. */
  ghost function CostFrom(p: Params, a: Pass, k: nat): nat
    requires k <= |a.quotes|
    decreases |a.quotes| - k
  {
    if k == |a.quotes| then 0
    else p.Atoms(a.side, Max(RestTick(a, a.quotes[k]), 0), a.quotes[k].lots) + CostFrom(p, a, k + 1)
  }

  /** From quote `k` on the payload ascends, every quote is fair, and funds and nodes cover them all. */
  ghost predicate Provided(b: Book, a: Pass, k: nat)
    requires k <= |a.quotes|
  {
    && (forall j | k <= j < |a.quotes| :: !BadOrder(a, j) && Fair(b, a, a.quotes[j]))
    && a.m < |b.balances| && CostFrom(b.p, a, k) <= b.balances[a.m].Free(a.side.Ask?)
    && |a.quotes| - k <= |b.free|
  }

  lemma KillProvides(b: Book, a: Pass, k: nat, h: nat)
    requires b.Inv() && h in b.orders && b.orders[h].maker == a.m && k <= |a.quotes| && Provided(b, a, k)
    ensures Provided(Kill(b, h), a, k)
  {
    hide Book.Inv, Kill, Times, CostFrom, OffLists;
    KillCancels(b, h);
    KillFrees(b, Kill(b, h), h);
  }

  lemma KillFrees(b: Book, c: Book, h: nat)
    requires h in b.orders && OffLists(b, c, h)
    ensures |c.free| == |b.free| + 1
  {}

  lemma AmendProvides(b: Book, a: Pass, k: nat, h: nat, lots: nat)
    requires b.Inv() && a.Ok() && h in b.orders && b.orders[h].maker == a.m && 0 < lots <= b.orders[h].lots
    requires k < |a.quotes| && Provided(b, a, k)
    ensures Provided(Amend(b, h, lots, a.expiry), a, k + 1)
  {
    hide Book.Inv, Times;
    OrderFacts(b, h);
  }

  lemma InsertProvides(b: Book, a: Pass, i: nat, k: nat, used: nat, next: Option<nat>)
    requires b.Inv() && a.Ok() && a.Hoisted(b) && MergeAt(b, a, i, used) && k < |a.quotes| && Provided(b, a, k)
    requires Ahead(b, a, i, a.quotes[k], next)
    ensures var r := MergeInsert(b, a, i, a.quotes[k], used, next);
      && (r.Err? ==> r.error == WouldCross)
      && (r.Ok? ==> Provided(r.value.0, a, k + 1))
  {
    hide Book.Inv, View, Best, CheckOrSlide, MergeAt, Ahead, Params.Atoms, CanPost;
    var q := a.quotes[k];
    FairSlides(b, a, q);
    var t := RestTick(a, q);
    if t > used && next != Some(t) {
      InsertFits(b, a, i, used, q, next, t);
      CheckedCanPost(b, a.side, q.tick, !q.RejectOnCross(), t, q.lots, a.m, a.expiry, i);
      PostPays(b, a.side, t, q.lots, a.m, a.expiry, i);
    }
  }

  lemma PostPays(b: Book, side: Side, tick: nat, lots: nat, m: nat, expiry: nat, i: nat)
    requires b.Inv() && CanPost(b, side, tick, lots, m, expiry, i) && m < |b.balances|
    requires CanPay(b, side, tick, lots, m) && b.free != []
    ensures var c := Post(b, side, tick, lots, m, expiry, i);
      && c.p == b.p && c.anchor == b.anchor && c.free == b.free[1..] && |c.balances| == |b.balances|
      && c.balances[m].Free(side.Ask?) == b.balances[m].Free(side.Ask?) - b.p.Atoms(side, tick, lots)
  {
    hide Book.Inv;
    ChainMembers(b, m);
  }

  /** A provided pass can fail in one way only. */
  lemma {:induction false} ProvidedCrosses(b: Book, a: Pass, i: nat, k: nat, used: nat)
    requires b.Inv() && a.Ok() && a.Hoisted(b) && MergeAt(b, a, i, used) && k <= |a.quotes| && Provided(b, a, k)
    ensures Merge(b, a, i, k, used).Err? ==> Merge(b, a, i, k, used).error == WouldCross
    decreases 2 * (|a.quotes| - k) + |View(b, a.m)| - i
  {
    hide Book.Inv, View, Kill, Amend, MergeInsert, MergeAt, Ahead, Best, Provided, CheckOrSlide;
    CursorFits(b, a, i, used);
    ProvidedQuote(b, a, k);
    var x := Current(b, a, i);
    if x.Some? && (k == |a.quotes| || x.value.o.tick < a.quotes[k].tick) {
      KillMerge(b, a, i, used);
      CurrentOwn(b, a, i);
      KillProvides(b, a, k, x.value.h);
      ProvidedCrosses(Kill(b, x.value.h), a, i, k, used);
    } else if k == |a.quotes| {
    } else if x.None? || a.quotes[k].tick < x.value.o.tick {
      PastRegion(b, a, i, k, used);
      var next := if x.Some? then Some(x.value.o.tick) else None;
      InsertProvides(b, a, i, k, used, next);
      if MergeInsert(b, a, i, a.quotes[k], used, next).Ok? {
        InsertMerge(b, a, i, a.quotes[k], used, next);
        var (c, t) := MergeInsert(b, a, i, a.quotes[k], used, next).value;
        ProvidedCrosses(c, a, i + 1, k + 1, t);
      }
    } else if a.quotes[k].lots <= x.value.o.lots {
      KeepMerge(b, a, i, used, a.quotes[k]);
      CurrentOwn(b, a, i);
      AmendProvides(b, a, k, x.value.h, a.quotes[k].lots);
      ProvidedCrosses(Amend(b, x.value.h, a.quotes[k].lots, a.expiry), a, i + 1, k + 1, a.quotes[k].tick);
    } else {
      var e := Kill(b, x.value.h);
      KillMerge(b, a, i, used);
      Reposted(b, a, i, used, a.quotes[k]);
      CurrentOwn(b, a, i);
      KillProvides(b, a, k, x.value.h);
      InsertProvides(e, a, i, k, used, None);
      if MergeInsert(e, a, i, a.quotes[k], used, None).Ok? {
        InsertMerge(e, a, i, a.quotes[k], used, None);
        var (c, t) := MergeInsert(e, a, i, a.quotes[k], used, None).value;
        ProvidedCrosses(c, a, i + 1, k + 1, t);
      }
    }
  }

  lemma ProvidedQuote(b: Book, a: Pass, k: nat)
    requires k <= |a.quotes| && Provided(b, a, k)
    ensures k < |a.quotes| ==> !BadOrder(a, k) && 0 < a.quotes[k].lots <= b.p.maxLots
  {}

  lemma CurrentOwn(b: Book, a: Pass, i: nat)
    requires b.Inv() && a.Ok() && Current(b, a, i).Some?
    ensures Current(b, a, i).value.o.maker == a.m
  {
    ViewFacts(b, a.m);
  }

  /** The order a quote rests as. */
  predicate RestsAs(a: Pass, q: Quote, o: Order) {
    o.side == a.side && o.maker == a.m && o.tick == RestTick(a, q) && o.lots == q.lots && o.expiry == a.expiry
  }

  /** The quotes of a pass in payload order, from place `i` of the chain on. */
  ghost predicate RestFrom(w: seq<Resting>, a: Pass, i: nat) {
    i + |a.quotes| <= |w| && forall j | 0 <= j < |a.quotes| :: RestsAs(a, a.quotes[j], w[i + j].o)
  }

  lemma RestsFair(b: Book, a: Pass, i: nat)
    requires b.Inv() && a.Ok() && a.Hoisted(b) && MergeAt(b, a, i, 0) && Provided(b, a, 0)
    requires Merge(b, a, i, 0, 0).Ok?
    ensures var c := Merge(b, a, i, 0, 0).value.0; c.Inv() && RestFrom(View(c, a.m), a, i)
  {
    hide Book.Inv, View, Best, MergeAt, Merge, CostFrom, CheckOrSlide, Crosses, Prioritized, Past, RestsAs;
    MergeQuotes(b, a, i, 0, 0);
    var w := View(Merge(b, a, i, 0, 0).value.0, a.m);
    forall j | 0 <= j < |a.quotes|
      ensures RestsAs(a, a.quotes[j], w[i + j].o)
    {
      assert IsQuote(b, a, a.quotes[j], w[i + j - 0].o);
      QuoteRests(b, a, a.quotes[j], w[i + j].o);
    }
  }

  lemma QuoteRests(b: Book, a: Pass, q: Quote, o: Order)
    requires b.Inv() && a.Hoisted(b) && Fair(b, a, q) && IsQuote(b, a, q, o)
    ensures RestsAs(a, q, o)
  {
    hide Book.Inv, Best, CheckOrSlide, Crosses;
    FairSlides(b, a, q);
  }

  lemma NoneRefused(b: Book, a: Pass)
    requires Provided(b, a, 0)
    ensures !Refused(a, 0)
  {
    hide Crosses, CostFrom;
  }

  /**
   A pass whose quotes ascend, are fair, are paid for, have nodes and do not collide succeeds,
   and rests each at its own tick, or one off the opposing best if it crosses.
   */
  lemma PassSucceeds(b: Book, a: Pass, i: nat)
    requires b.Inv() && a.Ok() && a.Hoisted(b) && MergeAt(b, a, i, 0) && Provided(b, a, 0)
    requires !Stacked(a, 0) && !Met(a, View(b, a.m), 0)
    ensures Merge(b, a, i, 0, 0).Ok?
    ensures var c := Merge(b, a, i, 0, 0).value.0; c.Inv() && RestFrom(View(c, a.m), a, i)
  {
    hide Book.Inv, View, Best, MergeAt, Merge, Stacked, Met, Refused, Provided, RestFrom;
    ProvidedCrosses(b, a, i, 0, 0);
    PassCollides(b, a, i);
    NoneRefused(b, a);
    RestsFair(b, a, i);
  }

  // ---- the instruction ----

  /** Nothing stands in the way of a pass. */
  ghost predicate Welcome(b: Book, a: Pass)
    requires b.Inv() && a.Ok()
  {
    Provided(b, a, 0) && !Stacked(a, 0) && !Met(a, View(b, a.m), 0)
  }

  /** The bids are welcome to the book, and the asks to the book the bids leave. */
  ghost predicate BothWelcome(b: Book, m: nat, bids: seq<Quote>, asks: seq<Quote>, expiry: nat)
    requires b.Inv() && m < MAX_SEATS && expiry <= U32_MAX
  {
    hide Book.Inv, View, Best, MergeAt, Merge, Welcome;
    var a := PassOf(b, m, Bid, bids, expiry);
    BidStart(b, a);
    && Welcome(b, a)
    && match Merge(b, a, 0, 0, 0)
       case Err(_) => true
       case Ok((c, cursor)) =>
         AskStart(b, a, PassOf(c, m, Ask, asks, expiry));
         Welcome(c, PassOf(c, m, Ask, asks, expiry))
  }

  /** Too many quotes are refused as such, and welcome ones succeed. */
  lemma MassQuoteSucceeds(b: Book, m: nat, bids: seq<Quote>, asks: seq<Quote>, expiry: nat)
    requires b.Inv() && m < MAX_SEATS && expiry <= U32_MAX
    ensures MassQuote(b, m, bids, asks, expiry) == Err(TooManyOrders) <==> |bids| + |asks| > 128
    ensures |bids| + |asks| <= 128 && BothWelcome(b, m, bids, asks, expiry) ==>
      MassQuote(b, m, bids, asks, expiry).Ok?
  {
    hide Book.Inv, View, Best, MergeAt, Merge, Welcome;
    var a := PassOf(b, m, Bid, bids, expiry);
    BidStart(b, a);
    Capacity.MergeErrors(b, a, 0, 0, 0);
    if Welcome(b, a) { WelcomeSucceeds(b, a, 0); }
    if Merge(b, a, 0, 0, 0).Ok? {
      var (c, cursor) := Merge(b, a, 0, 0, 0).value;
      var a' := PassOf(c, m, Ask, asks, expiry);
      AskStart(b, a, a');
      Capacity.MergeErrors(c, a', cursor, 0, 0);
      if Welcome(c, a') { WelcomeSucceeds(c, a', cursor); }
    }
  }

  lemma WelcomeSucceeds(b: Book, a: Pass, i: nat)
    requires b.Inv() && a.Ok() && a.Hoisted(b) && MergeAt(b, a, i, 0) && Welcome(b, a)
    ensures Merge(b, a, i, 0, 0).Ok?
  {
    hide Book.Inv, View, Best, MergeAt, Merge, Stacked, Met, Provided;
    PassSucceeds(b, a, i);
  }

  lemma NoQuotesWelcome(b: Book, a: Pass)
    requires b.Inv() && a.Ok() && a.quotes == []
    ensures Welcome(b, a)
  {
    hide Book.Inv, View, Crosses;
    Venues.SeatExists(b, a.m);
  }

  /** One bid alone collides with nothing. */
  lemma LoneWelcome(b: Book, a: Pass, q: Quote)
    requires b.Inv() && a.Ok() && a.side.Bid? && a.quotes == [q] && Fair(b, a, q) && b.free != []
    requires a.m < |b.balances|
    requires b.p.Atoms(a.side, Max(RestTick(a, q), 0), q.lots) <= b.balances[a.m].Free(a.side.Ask?)
    ensures Welcome(b, a)
  {
    hide Book.Inv, View, Crosses, Fair, RestTick, Params.Atoms;
    assert CostFrom(b.p, a, 1) == 0;
  }

  /** A lone bid across the lowest ask `t` that may slide below it and is paid for there. */
  ghost predicate Slidable(b: Book, m: nat, q: Quote, t: nat) {
    && t in b.asks && (forall x | x in b.asks :: t <= x) && b.anchor < t <= q.tick <= b.anchor + WINDOW_MASK
    && q.flags % 2 == 0 && 0 < q.lots <= b.p.maxLots && b.free != []
    && m < |b.balances| && Times(Times(t - 1, b.p.tickSize), q.lots) <= b.balances[m].quoteFree
  }

  lemma SlidableWelcome(b: Book, m: nat, q: Quote, expiry: nat, t: nat)
    requires b.Inv() && m < MAX_SEATS && expiry <= U32_MAX && Slidable(b, m, q, t)
    ensures var a := PassOf(b, m, Bid, [q], expiry);
      a.best == Some(t) && Fair(b, a, q) && RestTick(a, q) == t - 1 && Welcome(b, a)
  {
    hide Book.Inv, View, Best, Welcome;
    BestIs(b, t);
    AnchorAligned(b);
    LoneWelcome(b, PassOf(b, m, Bid, [q], expiry), q);
  }

  lemma SlidableAccepted(b: Book, m: nat, q: Quote, expiry: nat, t: nat)
    requires b.Inv() && m < MAX_SEATS && expiry <= U32_MAX && Slidable(b, m, q, t)
    ensures MassQuote(b, m, [q], [], expiry).Ok?
  {
    hide Book.Inv, View, Best, MergeAt, Merge, Welcome, MassQuote, Slidable, Fair, RestTick;
    var a := PassOf(b, m, Bid, [q], expiry);
    SlidableWelcome(b, m, q, expiry, t);
    BidStart(b, a);
    WelcomeSucceeds(b, a, 0);
    var c := Merge(b, a, 0, 0, 0).value.0;
    AskStart(b, a, PassOf(c, m, Ask, [], expiry));
    NoQuotesWelcome(c, PassOf(c, m, Ask, [], expiry));
    MassQuoteSucceeds(b, m, [q], [], expiry);
  }

  /**
   A single crossing bid that may slide, of good size, in the window and paid for, is accepted
   while a node is free: it rests one tick below the lowest ask and replaces all the seat had.
   */
  lemma LoneBidSlides(b: Book, m: nat, q: Quote, expiry: nat, t: nat)
    requires b.Inv() && m < MAX_SEATS && expiry <= U32_MAX && Slidable(b, m, q, t)
    ensures MassQuote(b, m, [q], [], expiry).Ok?
    ensures var d := MassQuote(b, m, [q], [], expiry).value;
      && d.Inv() && |View(d, m)| == 1
      && var o := View(d, m)[0].o;
         && o.side.Bid? && o.maker == m && o.tick == t - 1 && o.lots == q.lots && o.expiry == expiry
  {
    hide Book.Inv, View, Best, Welcome, MassQuote, Slidable, Fair, RestTick, Quiet, OthersKept, Placed, IsQuote;
    SlidableAccepted(b, m, q, expiry, t);
    SlidableWelcome(b, m, q, expiry, t);
    MassQuoteReplaces(b, m, [q], [], expiry);
    var d := MassQuote(b, m, [q], [], expiry).value;
    QuietInv(b, d);
    assert IsQuote(b, PassOf(b, m, Bid, [q], expiry), [q][0], View(d, m)[0].o);
    QuoteRests(b, PassOf(b, m, Bid, [q], expiry), q, View(d, m)[0].o);
  }

  lemma QuietInv(b: Book, d: Book)
    requires Quiet(b, d)
    ensures d.Inv()
  {}

  lemma BestIs(b: Book, t: nat)
    requires b.Inv() && t in b.asks && forall x | x in b.asks :: t <= x
    ensures Best(b, Ask) == Some(t)
  {
    hide Book.Inv, Best;
    BestIsBest(b, Ask);
  }

  /** The same bid with the lowest bit of its flags set is refused. */
  lemma FlaggedBidRefused(b: Book, m: nat, bids: seq<Quote>, asks: seq<Quote>, expiry: nat, j: nat, t: nat)
    requires b.Inv() && m < MAX_SEATS && expiry <= U32_MAX && j < |bids|
    requires t in b.asks && t <= bids[j].tick && bids[j].flags % 2 == 1
    ensures MassQuote(b, m, bids, asks, expiry).Err?
  {
    hide Book.Inv, View, Best, MergeAt, Merge;
    var a := PassOf(b, m, Bid, bids, expiry);
    BestIsBest(b, Ask);
    BidStart(b, a);
    FlaggedFails(b, a, 0, j);
  }
}
