/** `upsert_order` is a map update on the maker's quotes, keyed by side and slid tick. */
module QuotingProperties {
  import opened Base
  import opened Seqs
  import opened Books
  import opened Changes
  import opened Ops
  import opened Frames
  import opened Matching
  import opened Quoting

  /** One queue became `q`; every other queue is as it was. */
  ghost predicate Requeued(b: Book, c: Book, side: Side, t: nat, q: seq<nat>) {
    && Queue(c, side, t) == q
    && forall s, u | s != side || u != t :: Queue(c, s, u) == Queue(b, s, u)
  }

  ghost function Rest(q: seq<nat>, prior: Option<nat>): seq<nat> {
    if prior.Some? && prior.value in q then Without(q, prior.value) else q
  }

  lemma UnlistRequeues(b: Book, h: nat)
    requires h in b.orders && b.OrderOk(h)
    ensures var o := b.orders[h];
      Requeued(b, Unlist(b, h), o.side, o.tick, Without(Queue(b, o.side, o.tick), h))
  {}

  lemma EnlistRequeues(b: Book, side: Side, tick: nat, lots: nat, m: nat, expiry: nat, i: nat)
    requires b.free != [] && m < |b.chains| && i <= |b.chains[m]|
    ensures Requeued(b, Enlist(b, side, tick, lots, m, expiry, i), side, tick, Queue(b, side, tick) + [b.free[0]])
  {}

  lemma KillRequeues(b: Book, h: nat)
    requires b.Inv() && h in b.orders
    ensures b.OrderOk(h) && Kill(b, h).orders == b.orders - {h} && Kill(b, h).free == [h] + b.free
    ensures Kill(b, h).issued == b.issued
    ensures var o := b.orders[h];
      && h in Queue(b, o.side, o.tick)
      && Requeued(b, Kill(b, h), o.side, o.tick, Without(Queue(b, o.side, o.tick), h))
  {
    hide Book.Inv;
    OrderFacts(b, h);
    UnlistRequeues(b, h);
    var u, c := Unlist(b, h), Kill(b, h);
    assert forall s, t :: Queue(c, s, t) == Queue(u, s, t);
  }

  lemma AmendRequeues(b: Book, h: nat, lots: nat, expiry: nat)
    requires b.Inv() && h in b.orders && 0 < lots <= b.orders[h].lots && expiry <= U32_MAX
    ensures var o, c := b.orders[h], Amend(b, h, lots, expiry);
      && c.orders == b.orders[h := o.(lots := lots, expiry := expiry)] && c.bids == b.bids && c.asks == b.asks
      && c.issued == b.issued
  {
    hide Book.Inv;
    OrderFacts(b, h);
  }

  lemma PostRequeues(b: Book, side: Side, tick: nat, lots: nat, m: nat, expiry: nat, i: nat)
    requires b.Inv() && CanPost(b, side, tick, lots, m, expiry, i) && CanPay(b, side, tick, lots, m)
    requires b.free != []
    ensures var c := Post(b, side, tick, lots, m, expiry, i);
      && c.orders == b.orders[b.free[0] := Order(side, tick, m, lots, expiry, b.issued)]
      && Requeued(b, c, side, tick, Queue(b, side, tick) + [b.free[0]])
  {
    hide Book.Inv;
    ChainMembers(b, m);
    EnlistRequeues(b, side, tick, lots, m, expiry, i);
    var u, c := Enlist(b, side, tick, lots, m, expiry, i), Post(b, side, tick, lots, m, expiry, i);
    assert forall s, t :: Queue(c, s, t) == Queue(u, s, t);
  }

  /** The tick a quote goes to: the slide applies to a new size only. */
  ghost function Target(b: Book, side: Side, tick: nat, lots: nat, slide: bool): Result<nat> {
    if lots == 0 then CheckOrSlide(b.anchor, b.p.tickLimit, side, tick, false, None)
    else CheckOrSlide(b.anchor, b.p.tickLimit, side, tick, slide, Best(b, side.Opposite()))
  }

  /**
   The map update: lots 0 removes the quote; a size no larger keeps its id and
   place; a new or larger size gets a fresh id at the tail of its queue.
   */
  ghost predicate Updated(b: Book, c: Book, m: nat, side: Side, t: nat, lots: nat, expiry: nat, prior: Option<nat>)
    requires prior.Some? ==> prior.value in b.orders
  {
    var q := Queue(b, side, t);
    if lots == 0 then
      prior.Some? && c.orders == b.orders - {prior.value} && Requeued(b, c, side, t, Rest(q, prior))
    else if prior.Some? && lots <= b.orders[prior.value].lots then
      && c.orders == b.orders[prior.value := b.orders[prior.value].(lots := lots, expiry := expiry)]
      && c.bids == b.bids && c.asks == b.asks
    else exists n: nat {:trigger c.orders[n]} ::
      && n in c.orders && (n !in b.orders || prior == Some(n))
      && c.orders
           == (b.orders - if prior.Some? then {prior.value} else {})[n := Order(side, t, m, lots, expiry, b.issued)]
      && Requeued(b, c, side, t, Rest(q, prior) + [n])
  }

  /** An inserted quote is quiet, leaves the others alone and is one new order at the tail. */
  lemma InsertUpdates(b: Book, side: Side, t: nat, lots: nat, m: nat, expiry: nat)
    requires b.Inv() && m < MAX_SEATS && CanPost(b, side, t, lots, m, expiry, Place(b, m, side, t))
    requires Insert(b, side, t, lots, m, expiry).Ok?
    ensures var c := Insert(b, side, t, lots, m, expiry).value;
      && Quiet(b, c) && OthersKept(b, c, m)
      && b.free != [] && b.free[0] !in b.orders
      && c.orders == b.orders[b.free[0] := Order(side, t, m, lots, expiry, b.issued)]
      && Requeued(b, c, side, t, Queue(b, side, t) + [b.free[0]])
  {
    hide Book.Inv, Post, Quiet, OthersKept, CanPost, Requeued, Place;
    var i := Place(b, m, side, t);
    PostRequeues(b, side, t, lots, m, expiry, i);
    PostQuiet(b, side, t, lots, m, expiry, i);
    PostOthers(b, side, t, lots, m, expiry, i);
    FreeIsFree(b);
  }

  lemma FreeIsFree(b: Book)
    requires b.Inv() && b.free != []
    ensures b.free[0] !in b.orders
  {
    assert b.free[0] in b.free;
  }

  /** Success changes exactly the maker's quote at the target key. */
  lemma UpsertUpdates(b: Book, side: Side, tick: nat, lots: nat, m: nat, expiry: nat, slide: bool)
    requires b.Inv() && m < MAX_SEATS && expiry <= U32_MAX
    requires Upsert(b, side, tick, lots, m, expiry, slide).Ok?
    ensures Target(b, side, tick, lots, slide).Ok?
    ensures var c, t := Upsert(b, side, tick, lots, m, expiry, slide).value, Target(b, side, tick, lots, slide).value;
      && Quiet(b, c) && OthersKept(b, c, m)
      && Updated(b, c, m, side, t, lots, expiry, FindQuote(b, m, side, t))
  {
    hide Book.Inv, Quiet, OthersKept, Kill, Amend, Insert, FindQuote, CanPost, Requeued, CheckOrSlide, Best, Place,
      Queue;
    var t := Target(b, side, tick, lots, slide).value;
    TargetFits(b, side, tick, lots, slide);
    var prior := FindQuote(b, m, side, t);
    if prior.Some? {
      FindQuoteExact(b, m, side, t, prior.value);
      var h := prior.value;
      if 0 < lots <= b.orders[h].lots {
        AmendQuiet(b, h, lots, expiry);
        AmendOthers(b, h, lots, expiry);
        AmendRequeues(b, h, lots, expiry);
      } else {
        KillQuiet(b, h);
        KillOthers(b, h);
        KillRequeues(b, h);
        if lots > 0 {
          ReplaceUpdates(b, side, tick, slide, t, lots, m, expiry, h);
        }
      }
    } else {
      PlaceBelongs(b, m, side, t);
      CheckedCanPost(b, side, tick, slide, t, lots, m, expiry, Place(b, m, side, t));
      InsertUpdates(b, side, t, lots, m, expiry);
      assert b.orders - {} == b.orders;
      assert b.free[0] in Upsert(b, side, tick, lots, m, expiry, slide).value.orders;
    }
  }

  lemma TargetFits(b: Book, side: Side, tick: nat, lots: nat, slide: bool)
    requires b.Inv() && Target(b, side, tick, lots, slide).Ok?
    ensures b.InWindow(Target(b, side, tick, lots, slide).value)
    ensures 0 < Target(b, side, tick, lots, slide).value <= U32_MAX
  {
    if lots > 0 { CheckedTick(b, side, tick, slide, Target(b, side, tick, lots, slide).value); }
  }

  lemma ReplaceUpdates(b: Book, side: Side, tick: nat, slide: bool, t: nat, lots: nat, m: nat, expiry: nat, h: nat)
    requires b.Inv() && m < MAX_SEATS && expiry <= U32_MAX && 0 < lots <= b.p.maxLots && t <= U32_MAX
    requires CheckOrSlide(b.anchor, b.p.tickLimit, side, tick, slide, Best(b, side.Opposite())) == Ok(t)
    requires FindQuote(b, m, side, t) == Some(h) && b.orders[h].lots < lots
    ensures FindQuote(Kill(b, h), m, side, t).None?
    ensures CanPost(Kill(b, h), side, t, lots, m, expiry, Place(Kill(b, h), m, side, t))
    ensures Insert(Kill(b, h), side, t, lots, m, expiry).Ok? ==>
      var c := Insert(Kill(b, h), side, t, lots, m, expiry).value;
      Quiet(b, c) && OthersKept(b, c, m) && Updated(b, c, m, side, t, lots, expiry, Some(h))
  {
    hide Book.Inv, Quiet, OthersKept, Kill, Insert, FindQuote, CanPost, CheckOrSlide, Best, Place, Queue;
    FindQuoteExact(b, m, side, t, h);
    AfterKill(b, h, m, side, t);
    var k := Kill(b, h);
    PlaceBelongs(k, m, side, t);
    CheckedCanPost(k, side, tick, slide, t, lots, m, expiry, Place(k, m, side, t));
    KillQuiet(b, h);
    KillOthers(b, h);
    KillRequeues(b, h);
    if Insert(k, side, t, lots, m, expiry).Ok? {
      var c := Insert(k, side, t, lots, m, expiry).value;
      InsertUpdates(k, side, t, lots, m, expiry);
      QuietTrans(b, k, c);
      OthersTrans(b, k, c, m);
      assert h in c.orders;
    }
  }
}
