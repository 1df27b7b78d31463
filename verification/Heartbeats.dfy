/** Re-sending the quotes a maker already has: only the expiries change. */
module Heartbeats {
  import opened Base
  import opened Books
  import opened Ops
  import opened Matching
  import opened Quoting
  import opened Merging
  import opened MassQuoting

  predicate Restates(o: Order, side: Side, q: Quote) {
    o.side == side && o.tick == q.tick && o.lots == q.lots
  }

  /** From place `s` on, the chain is exactly these quotes of one side. */
  ghost predicate Restated(v: seq<Resting>, s: nat, side: Side, quotes: seq<Quote>) {
    && s + |quotes| <= |v|
    && forall j | 0 <= j < |quotes| :: Restates(v[s + j].o, side, quotes[j])
  }

  /** `d` is `b` with a new expiry on the orders at places `lo` up to `hi` of the chain. */
  ghost predicate Refreshed(b: Book, d: Book, v: seq<Resting>, lo: nat, hi: nat, expiry: nat) {
    && lo <= hi <= |v| && d == b.(orders := d.orders) && d.orders.Keys == b.orders.Keys
    && (forall n | lo <= n < hi :: v[n].h in b.orders && d.orders[v[n].h] == b.orders[v[n].h].(expiry := expiry))
    && (forall h | h in b.orders && (forall n | lo <= n < hi :: v[n].h != h) :: d.orders[h] == b.orders[h])
  }

  /** Amending to the same size changes nothing but the expiry. */
  lemma AmendSame(b: Book, h: nat, lots: nat, expiry: nat)
    requires b.Inv() && h in b.orders && lots == b.orders[h].lots && 0 < lots && expiry <= U32_MAX
    ensures Amend(b, h, lots, expiry) == b.(orders := b.orders[h := b.orders[h].(expiry := expiry)])
  {
    hide Book.Inv;
    OrderFacts(b, h);
  }

  lemma Refresh(b: Book, c: Book, d: Book, v: seq<Resting>, i: nat, hi: nat, expiry: nat, x: Resting)
    requires i < hi <= |v| && v[i].h in b.orders && x.h == v[i].h
    requires c == b.(orders := b.orders[v[i].h := b.orders[v[i].h].(expiry := expiry)])
    requires forall n | i < n < hi :: v[n].h != v[i].h
    requires Refreshed(c, d, v[i := x], i + 1, hi, expiry)
    ensures Refreshed(b, d, v, i, hi, expiry)
  {
    var u := v[i := x];
    assert forall n | i < n < hi :: u[n] == v[n];
    assert c.orders.Keys == b.orders.Keys;
    forall h | h in b.orders && (forall n | i <= n < hi :: v[n].h != h)
      ensures d.orders[h] == b.orders[h]
    {
      assert v[i].h != h;
    }
  }

  lemma RestatedStep(v: seq<Resting>, s: nat, side: Side, quotes: seq<Quote>, k: nat, x: Resting)
    requires Restated(v, s, side, quotes) && k < |quotes|
    requires Restates(x.o, side, quotes[k])
    ensures Restated(v[s + k := x], s, side, quotes)
  {}

  lemma HandlesDiffer(b: Book, m: nat)
    requires b.Inv() && m < MAX_SEATS
    ensures forall j, k | 0 <= j < k < |View(b, m)| :: View(b, m)[j].h != View(b, m)[k].h
  {
    hide Book.Inv, View;
    ViewFacts(b, m);
  }

  /** A merge whose next quote restates the chain order at the cursor keeps it. */
  lemma PassKeeps(b: Book, a: Pass, i: nat, k: nat, used: nat)
    requires b.Inv() && a.Ok() && a.Hoisted(b) && k < |a.quotes| && MergeAt(b, a, i, used)
    requires Current(b, a, i).Some? && (0 < k ==> a.quotes[k - 1].tick < a.quotes[k].tick)
    requires var o, q := Current(b, a, i).value.o, a.quotes[k]; o.tick == q.tick && o.lots == q.lots
    ensures var x := Current(b, a, i).value;
      var c := b.(orders := b.orders[x.h := x.o.(expiry := a.expiry)]);
      && c.Inv() && a.Hoisted(c) && MergeAt(c, a, i + 1, a.quotes[k].tick)
      && View(c, a.m) == View(b, a.m)[i := x.(o := x.o.(expiry := a.expiry))]
      && Merge(b, a, i, k, used) == Merge(c, a, i + 1, k + 1, a.quotes[k].tick)
  {
    hide Book.Inv, View, Amend, MergeAt, Best;
    var x := Current(b, a, i).value;
    Sized(b, x.h);
    KeepMerge(b, a, i, used, a.quotes[k]);
    AmendSame(b, x.h, a.quotes[k].lots, a.expiry);
  }

  lemma RestatedAt(b: Book, a: Pass, s: nat, k: nat)
    requires b.Inv() && a.Ok() && Restated(View(b, a.m), s, a.side, a.quotes) && k < |a.quotes|
    ensures s + k < |View(b, a.m)| && Current(b, a, s + k) == Some(View(b, a.m)[s + k])
    ensures var o, q := View(b, a.m)[s + k].o, a.quotes[k]; o.tick == q.tick && o.lots == q.lots
    ensures 0 < k ==> a.quotes[k - 1].tick < a.quotes[k].tick
  {
    hide Book.Inv, View;
    ViewFacts(b, a.m);
    assert Restates(View(b, a.m)[s + k].o, a.side, a.quotes[k]);
    if 0 < k {
      assert Restates(View(b, a.m)[s + (k - 1)].o, a.side, a.quotes[k - 1]);
      assert View(b, a.m)[s + (k - 1)].o.SortKey() < View(b, a.m)[s + k].o.SortKey();
    }
  }

  /** One pass over its own quotes refreshes them and stops where they end. */
  lemma {:induction false} PassRefreshes(b: Book, a: Pass, s: nat, k: nat, used: nat)
    requires b.Inv() && a.Ok() && a.Hoisted(b) && k <= |a.quotes|
    requires Restated(View(b, a.m), s, a.side, a.quotes) && MergeAt(b, a, s + k, used)
    requires s + |a.quotes| < |View(b, a.m)| ==> View(b, a.m)[s + |a.quotes|].o.side != a.side
    ensures Merge(b, a, s + k, k, used).Ok?
    ensures var (d, cursor) := Merge(b, a, s + k, k, used).value;
      cursor == s + |a.quotes| && Refreshed(b, d, View(b, a.m), s + k, cursor, a.expiry)
    decreases |a.quotes| - k
  {
    hide Book.Inv, View, MergeAt, Best, Refreshed, Merge;
    var v, i := View(b, a.m), s + k;
    if k == |a.quotes| {
      PassEnds(b, a, s, used);
      NothingRefreshed(b, v, i, a.expiry);
    } else {
      RestatedAt(b, a, s, k);
      PassKeeps(b, a, i, k, used);
      var x := v[i];
      var y := x.(o := x.o.(expiry := a.expiry));
      var c := b.(orders := b.orders[x.h := y.o]);
      RestatedStep(v, s, a.side, a.quotes, k, y);
      PassRefreshes(c, a, s, k + 1, a.quotes[k].tick);
      HandlesDiffer(b, a.m);
      ViewFacts(b, a.m);
      Refresh(b, c, Merge(b, a, i, k, used).value.0, v, i, s + |a.quotes|, a.expiry, y);
    }
  }

  lemma PassEnds(b: Book, a: Pass, s: nat, used: nat)
    requires b.Inv() && a.Ok() && a.Hoisted(b) && MergeAt(b, a, s + |a.quotes|, used)
    requires s + |a.quotes| < |View(b, a.m)| ==> View(b, a.m)[s + |a.quotes|].o.side != a.side
    ensures Merge(b, a, s + |a.quotes|, |a.quotes|, used) == Ok((b, s + |a.quotes|))
    ensures s + |a.quotes| <= |View(b, a.m)|
  {
    hide Book.Inv, View, Best;
  }

  lemma NothingRefreshed(b: Book, v: seq<Resting>, i: nat, expiry: nat)
    requires i <= |v|
    ensures Refreshed(b, b, v, i, i, expiry)
  {}

  lemma Sized(b: Book, h: nat)
    requires b.Inv() && h in b.orders
    ensures 0 < b.orders[h].lots <= b.p.maxLots
  {
    OrderFacts(b, h);
  }

  /** The seat's chain restates the payload: every quote at its own tick, at its own size. */
  ghost predicate SameQuotes(b: Book, m: nat, bids: seq<Quote>, asks: seq<Quote>)
    requires b.Inv() && m < MAX_SEATS
  {
    var v := View(b, m);
    |v| == |bids| + |asks| && Restated(v, 0, Bid, bids) && Restated(v, |bids|, Ask, asks)
  }

  /** A refreshed book seen from the chain. */
  lemma RefreshedView(b: Book, d: Book, m: nat, lo: nat, hi: nat, expiry: nat)
    requires b.Inv() && d.Inv() && m < MAX_SEATS && Refreshed(b, d, View(b, m), lo, hi, expiry)
    ensures |View(d, m)| == |View(b, m)|
    ensures forall n | 0 <= n < |View(b, m)| ::
      var v := View(b, m)[n];
      View(d, m)[n] == if lo <= n < hi then v.(o := v.o.(expiry := expiry)) else v
  {
    hide Book.Inv, View;
    ViewFacts(b, m);
    ViewFacts(d, m);
    HandlesDiffer(b, m);
  }

  /** `d` is `b` with a new expiry on every order of one maker, and nothing else changed. */
  ghost predicate OnlyExpiries(b: Book, d: Book, m: nat, expiry: nat) {
    && d == b.(orders := d.orders) && d.orders.Keys == b.orders.Keys
    && forall h | h in b.orders ::
         d.orders[h] == if b.orders[h].maker == m then b.orders[h].(expiry := expiry) else b.orders[h]
  }

  lemma WholeChain(b: Book, m: nat, h: nat)
    requires b.Inv() && m < MAX_SEATS && h in b.orders
    ensures b.orders[h].maker == m <==> exists n :: 0 <= n < |View(b, m)| && View(b, m)[n].h == h
  {
    hide Book.Inv, View;
    ViewFacts(b, m);
    OrderFacts(b, h);
    ChainMembers(b, m);
    if b.orders[h].maker == m {
      var n :| 0 <= n < |b.chains[m]| && b.chains[m][n] == h;
      assert View(b, m)[n].h == h;
    }
  }

  lemma TwoPasses(b: Book, c: Book, d: Book, m: nat, mid: nat, expiry: nat)
    requires b.Inv() && c.Inv() && m < MAX_SEATS && mid <= |View(b, m)|
    requires Refreshed(b, c, View(b, m), 0, mid, expiry) && Refreshed(c, d, View(c, m), mid, |View(c, m)|, expiry)
    ensures OnlyExpiries(b, d, m, expiry)
  {
    hide Book.Inv, View;
    RefreshedView(b, c, m, 0, mid, expiry);
    HandlesDiffer(b, m);
    var v := View(b, m);
    forall h | h in b.orders
      ensures d.orders[h] == if b.orders[h].maker == m then b.orders[h].(expiry := expiry) else b.orders[h]
    {
      WholeChain(b, m, h);
      if b.orders[h].maker == m {
        var n :| 0 <= n < |v| && v[n].h == h;
      }
    }
  }

  lemma RestatedTail(v: seq<Resting>, w: seq<Resting>, s: nat, side: Side, quotes: seq<Quote>)
    requires Restated(v, s, side, quotes) && |w| == |v| && forall n | s <= n < |v| :: w[n] == v[n]
    ensures Restated(w, s, side, quotes)
  {}

  /** Re-sending an unslid payload changes only expiries: no order, id, queue or balance moves. */
  lemma MassQuoteHeartbeat(b: Book, m: nat, bids: seq<Quote>, asks: seq<Quote>, expiry: nat)
    requires b.Inv() && m < MAX_SEATS && expiry <= U32_MAX
    requires SameQuotes(b, m, bids, asks) && |bids| + |asks| <= MAX_ORDERS_PER_SEAT
    ensures MassQuote(b, m, bids, asks, expiry).Ok?
    ensures OnlyExpiries(b, MassQuote(b, m, bids, asks, expiry).value, m, expiry)
  {
    hide Book.Inv, View, MergeAt, Best, Refreshed, Merge, OnlyExpiries;
    var a, v := PassOf(b, m, Bid, bids, expiry), View(b, m);
    BidStart(b, a);
    if |bids| < |v| { assert Restates(v[|bids| + 0].o, Ask, asks[0]); }
    PassRefreshes(b, a, 0, 0, 0);
    var (c, cursor) := Merge(b, a, 0, 0, 0).value;
    var a' := PassOf(c, m, Ask, asks, expiry);
    AskStart(b, a, a');
    RefreshedView(b, c, m, 0, cursor, expiry);
    RestatedTail(v, View(c, m), cursor, Ask, asks);
    PassRefreshes(c, a', cursor, 0, 0);
    TwoPasses(b, c, Merge(c, a', cursor, 0, 0).value.0, m, cursor, expiry);
  }
}
