/** The mass-quote merge of one side: a payload against the maker's chain region. */
module Merging {
  import opened Base
  import opened Seqs
  import opened Books
  import opened Changes
  import opened Ops
  import opened Matching
  import opened Quoting

  datatype Quote = Quote(tick: u32, lots: u32, flags: u8) {
    predicate RejectOnCross() { flags % 2 == 1 }
  }

  // `best` is the opposing best, scanned once before the pass.
  datatype Pass = Pass(m: nat, side: Side, quotes: seq<Quote>, expiry: nat, best: Option<nat>) {
    ghost predicate Ok() { m < MAX_SEATS && expiry <= U32_MAX }

    ghost predicate Hoisted(b: Book) { best == Best(b, side.Opposite()) }

    /** Where a payload quote rests: its own tick, or one off the opposing best. */
    function Slid(b: Book, q: Quote): Result<nat> {
      CheckOrSlide(b.anchor, b.p.tickLimit, side, q.tick, !q.RejectOnCross(), best)
    }
  }

  // ---- a chain with its orders ----

  datatype Resting = Resting(h: nat, o: Order)

  ghost function ViewOf(orders: map<nat, Order>, c: seq<nat>): (v: seq<Resting>)
    requires forall h | h in c :: h in orders
    ensures |v| == |c| && forall j | 0 <= j < |c| :: v[j] == Resting(c[j], orders[c[j]])
  {
    seq(|c|, j requires 0 <= j < |c| => Resting(c[j], orders[c[j]]))
  }

  ghost function View(b: Book, m: nat): (v: seq<Resting>)
    requires b.Inv() && m < MAX_SEATS
    ensures m < |b.chains| && |v| == |b.chains[m]|
  {
    ChainMembers(b, m);
    ViewOf(b.orders, b.chains[m])
  }

  lemma ViewFacts(b: Book, m: nat)
    requires b.Inv() && m < MAX_SEATS
    ensures var v, c := View(b, m), b.chains[m];
      && (forall j | 0 <= j < |v| ::
            && v[j].h == c[j] && v[j].h in b.orders && v[j].o == b.orders[v[j].h]
            && v[j].o.maker == m && 0 < v[j].o.tick <= U32_MAX && v[j].o.stamp < b.issued
            && v[j].o.tick in b.Levels(v[j].o.side))
      && (forall j, k | 0 <= j < k < |v| :: v[j].o.SortKey() < v[k].o.SortKey())
  {
    ChainMembers(b, m);
    var v, c := View(b, m), b.chains[m];
    forall j | 0 <= j < |v|
      ensures 0 < v[j].o.tick <= U32_MAX && v[j].o.stamp < b.issued && v[j].o.tick in b.Levels(v[j].o.side)
    {
      assert c[j] in c;
      OrderFacts(b, c[j]);
      TickFits(b, c[j]);
    }
    var f := KeyOf(b.orders);
    forall j, k | 0 <= j < k < |v|
      ensures v[j].o.SortKey() < v[k].o.SortKey()
    {
      assert f(c[j]) < f(c[k]);
      assert c[j] in c && c[k] in c;
    }
  }

  lemma UnlistChainAt(b: Book, h: nat, m: nat, i: nat)
    requires h in b.orders && b.OrderOk(h) && b.orders[h].maker == m && b.ChainOk(m)
    requires i < |b.chains[m]| && b.chains[m][i] == h
    ensures var c, c' := b.chains[m], Unlist(b, h).chains[m];
      c' == c[..i] + c[i + 1..] && forall x | x in c' :: x in c && x != h
  {
    ChainDistinct(b, m);
    WithoutMembers(b.chains[m], h);
  }

  lemma KillView(b: Book, m: nat, i: nat)
    requires b.Inv() && m < MAX_SEATS && i < |View(b, m)|
    ensures View(b, m)[i].h in b.orders
    ensures var v := View(b, m); View(Kill(b, v[i].h), m) == v[..i] + v[i + 1..]
  {
    hide Book.Inv, View, Unlist;
    ViewIs(b, m);
    ChainMembers(b, m);
    var c, h := b.chains[m], b.chains[m][i];
    assert h in c;
    OrderFacts(b, h);
    ViewIs(Kill(b, h), m);
    UnlistChainAt(b, h, m, i);
    KillChain(b, h);
  }

  lemma ViewIs(b: Book, m: nat)
    requires b.Inv() && m < MAX_SEATS
    ensures (forall h | h in b.chains[m] :: h in b.orders) && View(b, m) == ViewOf(b.orders, b.chains[m])
  {
    ChainMembers(b, m);
  }

  lemma KillChain(b: Book, h: nat)
    requires b.Inv() && h in b.orders && b.OrderOk(h)
    ensures Kill(b, h).chains == Unlist(b, h).chains && Kill(b, h).orders == b.orders - {h}
  {
    hide Book.Inv;
    OrderFacts(b, h);
  }

  lemma AmendView(b: Book, m: nat, i: nat, lots: nat, expiry: nat)
    requires b.Inv() && m < MAX_SEATS && i < |View(b, m)| && expiry <= U32_MAX
    requires 0 < lots <= View(b, m)[i].o.lots
    ensures var v := View(b, m);
      && v[i].h in b.orders && b.orders[v[i].h] == v[i].o
      && View(Amend(b, v[i].h, lots, expiry), m) == v[i := v[i].(o := v[i].o.(lots := lots, expiry := expiry))]
  {
    hide Book.Inv, View;
    ViewIs(b, m);
    ChainMembers(b, m);
    var c, h := b.chains[m], b.chains[m][i];
    assert h in c;
    OrderFacts(b, h);
    ChainDistinct(b, m);
    ViewIs(Amend(b, h, lots, expiry), m);
  }

  lemma PostView(b: Book, side: Side, tick: nat, lots: nat, m: nat, expiry: nat, i: nat)
    requires b.Inv() && CanPost(b, side, tick, lots, m, expiry, i) && CanPay(b, side, tick, lots, m)
    requires b.free != []
    ensures var v, o := View(b, m), Order(side, tick, m, lots, expiry, b.issued);
      i <= |v| && View(Post(b, side, tick, lots, m, expiry, i), m) == v[..i] + [Resting(b.free[0], o)] + v[i..]
  {
    hide Book.Inv, View, InsertAt, CanPay, Post;
    ViewIs(b, m);
    ChainMembers(b, m);
    FreeNotLive(b);
    var c := Post(b, side, tick, lots, m, expiry, i);
    ViewIs(c, m);
    PostChain(b, side, tick, lots, m, expiry, i);
    ViewInserted(b.orders, b.chains[m], i, b.free[0], Order(side, tick, m, lots, expiry, b.issued));
  }

  lemma PostChain(b: Book, side: Side, tick: nat, lots: nat, m: nat, expiry: nat, i: nat)
    requires b.Inv() && CanPost(b, side, tick, lots, m, expiry, i) && CanPay(b, side, tick, lots, m)
    requires b.free != [] && m < |b.chains| && i <= |b.chains[m]|
    ensures var c := Post(b, side, tick, lots, m, expiry, i);
      && c.orders == b.orders[b.free[0] := Order(side, tick, m, lots, expiry, b.issued)]
      && m < |c.chains| && c.chains[m] == InsertAt(b.chains[m], i, b.free[0])
  {
    hide Book.Inv, CanPost, CanPay;
  }

  lemma ViewInserted(orders: map<nat, Order>, c: seq<nat>, i: nat, h: nat, o: Order)
    requires i <= |c| && h !in orders && forall x | x in c :: x in orders
    ensures forall x | x in InsertAt(c, i, h) :: x in orders[h := o]
    ensures var v := ViewOf(orders, c);
      ViewOf(orders[h := o], InsertAt(c, i, h)) == v[..i] + [Resting(h, o)] + v[i..]
  {
    InsertMembers(c, i, h);
  }

  lemma FreeNotLive(b: Book)
    requires b.Inv() && b.free != []
    ensures b.free[0] !in b.orders
  {
    assert b.free[0] in b.free;
  }

  // ---- where the merge stands ----

  /** Before place `i`: keys up to `used`. From `i` on: this side's region, then later keys. */
  ghost predicate MergeAt(b: Book, a: Pass, i: nat, used: nat)
    requires b.Inv() && a.Ok()
  {
    var v := View(b, a.m);
    && i <= |v|
    && (forall j | 0 <= j < i :: v[j].o.SortKey() <= Key(a.side, used))
    && (forall j | i <= j < |v| :: Key(a.side, used) < v[j].o.SortKey())
  }

  /** The chain order at the cursor, while the cursor is in this side's region. */
  ghost function Current(b: Book, a: Pass, i: nat): (r: Option<Resting>)
    requires b.Inv() && a.Ok()
    ensures r.Some? ==>
      && i < |View(b, a.m)| && r.value == View(b, a.m)[i]
      && r.value.h in b.orders && b.orders[r.value.h] == r.value.o && r.value.o.side == a.side
  {
    ViewFacts(b, a.m);
    var v := View(b, a.m);
    if i < |v| && v[i].o.side == a.side then Some(v[i]) else None
  }

  /** A payload quote belongs at the cursor; only a slid ask can still meet the next one. */
  ghost predicate Ahead(b: Book, a: Pass, i: nat, q: Quote, next: Option<nat>)
    requires b.Inv() && a.Ok()
  {
    var v := View(b, a.m);
    && (forall j | i <= j < |v| :: Key(a.side, q.tick) < v[j].o.SortKey())
    && match next
       case Some(n) => i < |v| && v[i].o.side == a.side && v[i].o.tick == n
       case None => a.side.Bid? || i == |v| || a.best.None? || a.best.value < q.tick
  }

  /** The stacking guard is exact: a tick that passes it has its own place in the chain. */
  lemma InsertFits(b: Book, a: Pass, i: nat, used: nat, q: Quote, next: Option<nat>, t: nat)
    requires b.Inv() && a.Ok() && a.Hoisted(b) && MergeAt(b, a, i, used) && Ahead(b, a, i, q, next)
    requires a.Slid(b, q) == Ok(t) && t > used && next != Some(t)
    ensures b.ChainOk(a.m) && Belongs(b, a.side, t, a.m, i)
    ensures 0 < t <= U32_MAX
  {
    hide Book.Inv, View, Best, CheckOrSlide;
    ChainMembers(b, a.m);
    ViewFacts(b, a.m);
    CheckedTick(b, a.side, q.tick, !q.RejectOnCross(), t);
    SlidBounds(b, a, q, t);
    var v := View(b, a.m);
    forall j | i <= j < |v|
      ensures Key(a.side, t) < v[j].o.SortKey()
    {
      if a.side.Ask? && t != q.tick { NextAsk(b, a, i, j, t); }
    }
  }

  /** A bid slides down, an ask up, to one tick off the opposing best. */
  lemma SlidBounds(b: Book, a: Pass, q: Quote, t: nat)
    requires a.Slid(b, q) == Ok(t)
    ensures a.side.Bid? ==> t <= q.tick
    ensures a.side.Ask? && t != q.tick ==> a.best.Some? && q.tick <= a.best.value && t == a.best.value + 1
  {}

  /** Resting asks are above the best bid. */
  lemma NextAsk(b: Book, a: Pass, i: nat, j: nat, t: nat)
    requires b.Inv() && a.Ok() && a.Hoisted(b) && a.side.Ask? && a.best == Some(t - 1)
    requires i <= j < |View(b, a.m)| && View(b, a.m)[i].o.side.Ask? && View(b, a.m)[i].o.tick != t
    ensures Key(a.side, t) < View(b, a.m)[j].o.SortKey()
  {
    hide Book.Inv, View, Best;
    ViewFacts(b, a.m);
    BestIsBest(b, Bid);
    NoCross(b);
    var v := View(b, a.m);
    assert v[i].o.tick in b.asks && t - 1 in b.bids;
  }

  lemma NoCross(b: Book)
    requires b.Inv()
    ensures forall x, y | x in b.bids && y in b.asks :: x < y
  {}

  /** `mass_quote_insert`: check, stacking guard, lock, post and splice at the cursor. */
  ghost function MergeInsert(b: Book, a: Pass, i: nat, q: Quote, used: nat, next: Option<nat>): Result<(Book, nat)>
    requires b.Inv() && a.Ok() && a.Hoisted(b) && MergeAt(b, a, i, used) && Ahead(b, a, i, q, next)
    requires 0 < q.lots <= b.p.maxLots
  {
    match a.Slid(b, q)
    case Err(e) => Err(e)
    case Ok(t) =>
      if t <= used || next == Some(t) then Err(WouldCross) else
        InsertFits(b, a, i, used, q, next, t);
        CheckedCanPost(b, a.side, q.tick, !q.RejectOnCross(), t, q.lots, a.m, a.expiry, i);
        match TryPost(b, a.side, t, q.lots, a.m, a.expiry, i)
        case Err(e) => Err(e)
        case Ok(c) => Ok((c, t))
  }

  // ---- the steps keep the merge's footing ----

  lemma KillMerge(b: Book, a: Pass, i: nat, used: nat)
    requires b.Inv() && a.Ok() && a.Hoisted(b) && MergeAt(b, a, i, used) && Current(b, a, i).Some?
    ensures var c := Kill(b, Current(b, a, i).value.h);
      && MergeAt(c, a, i, used) && a.Hoisted(c) && View(c, a.m) == View(b, a.m)[..i] + View(b, a.m)[i + 1..]
  {
    hide Book.Inv, View, Kill;
    var x := Current(b, a, i).value;
    KillView(b, a.m, i);
    KillParts(b, x.h);
    KillBest(b, x.h);
  }

  lemma KillBest(b: Book, h: nat)
    requires b.Inv() && h in b.orders
    ensures Best(Kill(b, h), b.orders[h].side.Opposite()) == Best(b, b.orders[h].side.Opposite())
  {
    hide Book.Inv, Kill;
    KillParts(b, h);
  }

  lemma KeepMerge(b: Book, a: Pass, i: nat, used: nat, q: Quote)
    requires b.Inv() && a.Ok() && a.Hoisted(b) && MergeAt(b, a, i, used) && Current(b, a, i).Some?
    requires Current(b, a, i).value.o.tick == q.tick && 0 < q.lots <= Current(b, a, i).value.o.lots
    ensures var x := Current(b, a, i).value;
      var c := Amend(b, x.h, q.lots, a.expiry);
      && MergeAt(c, a, i + 1, q.tick) && a.Hoisted(c)
      && View(c, a.m) == View(b, a.m)[i := x.(o := x.o.(lots := q.lots, expiry := a.expiry))]
  {
    hide Book.Inv, View;
    var x := Current(b, a, i).value;
    ViewFacts(b, a.m);
    AmendView(b, a.m, i, q.lots, a.expiry);
    AmendLevels(b, x.h, q.lots, a.expiry);
  }

  lemma AmendLevels(b: Book, h: nat, lots: nat, expiry: nat)
    requires b.Inv() && h in b.orders && 0 < lots <= b.orders[h].lots && expiry <= U32_MAX
    ensures Amend(b, h, lots, expiry).bids == b.bids && Amend(b, h, lots, expiry).asks == b.asks
  {
    hide Book.Inv;
    OrderFacts(b, h);
  }

  lemma PostLevels(b: Book, side: Side, tick: nat, lots: nat, m: nat, expiry: nat, i: nat)
    requires b.Inv() && CanPost(b, side, tick, lots, m, expiry, i) && CanPay(b, side, tick, lots, m)
    requires b.free != []
    ensures var c := Post(b, side, tick, lots, m, expiry, i);
      c.Levels(side.Opposite()) == b.Levels(side.Opposite()) && c.free == b.free[1..]
  {
    hide Book.Inv;
    ChainMembers(b, m);
  }

  lemma InsertMerge(b: Book, a: Pass, i: nat, q: Quote, used: nat, next: Option<nat>)
    requires b.Inv() && a.Ok() && a.Hoisted(b) && MergeAt(b, a, i, used) && Ahead(b, a, i, q, next)
    requires 0 < q.lots <= b.p.maxLots && MergeInsert(b, a, i, q, used, next).Ok?
    ensures var (c, t) := MergeInsert(b, a, i, q, used, next).value;
      && c.Inv() && c.p == b.p && c.anchor == b.anchor && MergeAt(c, a, i + 1, t) && a.Hoisted(c)
      && a.Slid(b, q) == Ok(t) && b.free != []
      && View(c, a.m) == View(b, a.m)[..i]
           + [Resting(b.free[0], Order(a.side, t, a.m, q.lots, a.expiry, b.issued))] + View(b, a.m)[i..]
  {
    hide Book.Inv, View, Post, CanPost, Best, CheckOrSlide;
    var t := a.Slid(b, q).value;
    InsertFits(b, a, i, used, q, next, t);
    CheckedCanPost(b, a.side, q.tick, !q.RejectOnCross(), t, q.lots, a.m, a.expiry, i);
    ViewIs(b, a.m);
    PostView(b, a.side, t, q.lots, a.m, a.expiry, i);
    PostLevels(b, a.side, t, q.lots, a.m, a.expiry, i);
    var c := Post(b, a.side, t, q.lots, a.m, a.expiry, i);
    BestOfLevels(b, c, a.side.Opposite());
  }

  lemma BestOfLevels(b: Book, c: Book, side: Side)
    requires c.Levels(side) == b.Levels(side) && c.anchor == b.anchor
    ensures Best(c, side) == Best(b, side)
  {}

  // ---- the merge ----

  predicate BadOrder(a: Pass, k: nat)
    requires k < |a.quotes|
  {
    0 < k && a.quotes[k].tick <= a.quotes[k - 1].tick
  }

  lemma PastRegion(b: Book, a: Pass, i: nat, k: nat, used: nat)
    requires b.Inv() && a.Ok() && MergeAt(b, a, i, used) && k < |a.quotes|
    requires match Current(b, a, i)
             case None => true
             case Some(x) => a.quotes[k].tick < x.o.tick
    ensures Ahead(b, a, i, a.quotes[k], match Current(b, a, i) case None => None case Some(x) => Some(x.o.tick))
  {
    ViewFacts(b, a.m);
  }

  /** Re-posting a larger quote at its own tick: it does not cross, so it does not slide. */
  lemma Reposted(b: Book, a: Pass, i: nat, used: nat, q: Quote)
    requires b.Inv() && a.Ok() && a.Hoisted(b) && MergeAt(b, a, i, used) && Current(b, a, i).Some?
    requires Current(b, a, i).value.o.tick == q.tick
    ensures Ahead(Kill(b, Current(b, a, i).value.h), a, i, q, None)
  {
    hide Book.Inv, Kill, View, Best;
    ViewFacts(b, a.m);
    KillMerge(b, a, i, used);
    BestIsBest(b, a.side.Opposite());
    NoCross(b);
  }

  /**
   Merge the payload from quote `k` on into the chain from place `i` on; `used` is
   the highest tick placed or kept so far. Returns the book and the cursor.
   */
  ghost function Merge(b: Book, a: Pass, i: nat, k: nat, used: nat): Result<(Book, nat)>
    requires b.Inv() && a.Ok() && a.Hoisted(b) && MergeAt(b, a, i, used) && k <= |a.quotes|
    decreases 2 * (|a.quotes| - k) + |View(b, a.m)| - i
  {
    hide Book.Inv, View;
    var x := Current(b, a, i);
    if k < |a.quotes| && BadOrder(a, k) then Err(PayloadNotSorted)
    else if k < |a.quotes| && (a.quotes[k].lots == 0 || a.quotes[k].lots > b.p.maxLots) then Err(InvalidLots)
    else if x.None? && k == |a.quotes| then Ok((b, i))
    else if x.Some? && (k == |a.quotes| || x.value.o.tick < a.quotes[k].tick) then
      KillMerge(b, a, i, used);
      Merge(Kill(b, x.value.h), a, i, k, used)
    else if x.None? || a.quotes[k].tick < x.value.o.tick then
      PastRegion(b, a, i, k, used);
      var next := if x.Some? then Some(x.value.o.tick) else None;
      match MergeInsert(b, a, i, a.quotes[k], used, next)
      case Err(e) => Err(e)
      case Ok((c, t)) =>
        InsertMerge(b, a, i, a.quotes[k], used, next);
        Merge(c, a, i + 1, k + 1, t)
    else if a.quotes[k].lots <= x.value.o.lots then
      KeepMerge(b, a, i, used, a.quotes[k]);
      Merge(Amend(b, x.value.h, a.quotes[k].lots, a.expiry), a, i + 1, k + 1, a.quotes[k].tick)
    else
      KillMerge(b, a, i, used);
      Reposted(b, a, i, used, a.quotes[k]);
      match MergeInsert(Kill(b, x.value.h), a, i, a.quotes[k], used, None)
      case Err(e) => Err(e)
      case Ok((c, t)) =>
        InsertMerge(Kill(b, x.value.h), a, i, a.quotes[k], used, None);
        Merge(c, a, i + 1, k + 1, t)
  }
}
