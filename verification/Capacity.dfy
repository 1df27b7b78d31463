/** With the largest pool no operation can run out of nodes. */
module Capacity {
  import opened Base
  import opened Books
  import opened Ops
  import opened Frames
  import opened Matching
  import opened Quoting
  import opened Merging
  import opened MergingProperties
  import opened MassQuoting

  /** Every chain but that of `m` is within the seat cap. */
  ghost predicate OthersCapped(b: Book, m: nat) {
    forall j | 0 <= j < |b.chains| && j != m :: |b.chains[j]| <= MAX_ORDERS_PER_SEAT
  }

  /** The cap that holds between instructions. */
  ghost predicate Capped(b: Book) {
    forall j | 0 <= j < |b.chains| :: |b.chains[j]| <= MAX_ORDERS_PER_SEAT
  }

  lemma {:induction false} LengthsAtMost(s: seq<seq<nat>>)
    requires forall j | 0 <= j < |s| :: |s[j]| <= MAX_ORDERS_PER_SEAT
    ensures SumLengths(s) <= MAX_ORDERS_PER_SEAT * |s|
  {
    if s != [] { LengthsAtMost(s[1..]); }
  }

  lemma {:induction false} LengthsBut(s: seq<seq<nat>>, m: nat)
    requires m < |s| && forall j | 0 <= j < |s| && j != m :: |s[j]| <= MAX_ORDERS_PER_SEAT
    ensures SumLengths(s) <= MAX_ORDERS_PER_SEAT * (|s| - 1) + |s[m]|
  {
    if m == 0 {
      LengthsAtMost(s[1..]);
    } else {
      LengthsBut(s[1..], m - 1);
    }
  }

  /** A full table beside one seat's temporary surplus still leaves a node. */
  lemma NodeLeft(b: Book, m: nat)
    requires b.Inv() && b.p.capacity == MAX_POOL_CAPACITY && m < MAX_SEATS && m < |b.chains|
    requires OthersCapped(b, m) && |b.chains[m]| < 2 * MAX_ORDERS_PER_SEAT
    ensures b.free != []
  {
    LengthsBut(b.chains, m);
  }

  /** The errors of a quote that could not be placed. */
  predicate PostError(e: Error) {
    e == TickOutOfWindow || e == WouldCross || e == InsufficientBalance || e == PoolFull
  }

  predicate MergeError(e: Error) { PostError(e) || e == PayloadNotSorted || e == InvalidLots }

  lemma InsertErrors(b: Book, a: Pass, i: nat, q: Quote, used: nat, next: Option<nat>)
    requires b.Inv() && a.Ok() && a.Hoisted(b) && MergeAt(b, a, i, used) && Ahead(b, a, i, q, next)
    requires 0 < q.lots <= b.p.maxLots
    ensures var r := MergeInsert(b, a, i, q, used, next);
      r.Err? ==> PostError(r.error) && (b.free != [] ==> r.error != PoolFull)
  {
    hide Book.Inv, View, Best, Post, CanPost, MergeAt, Ahead;
    if a.Slid(b, q).Ok? && a.Slid(b, q).value > used && next != Some(a.Slid(b, q).value) {
      InsertFits(b, a, i, used, q, next, a.Slid(b, q).value);
      CheckedCanPost(b, a.side, q.tick, !q.RejectOnCross(), a.Slid(b, q).value, q.lots, a.m, a.expiry, i);
    }
  }

  lemma OthersStayCapped(b: Book, c: Book, m: nat)
    requires OthersKept(b, c, m) && OthersCapped(b, m)
    ensures OthersCapped(c, m)
  {}

  lemma ViewLength(b: Book, m: nat)
    requires b.Inv() && m < MAX_SEATS
    ensures m < |b.chains| && |View(b, m)| == |b.chains[m]|
  {}

  /** Old and new quotes of one seat together fit the largest pool. */
  ghost predicate Roomy(b: Book, a: Pass, k: nat)
    requires b.Inv() && a.Ok()
  {
    && b.p.capacity == MAX_POOL_CAPACITY && OthersCapped(b, a.m)
    && |View(b, a.m)| + |a.quotes| - k <= 2 * MAX_ORDERS_PER_SEAT
  }

  lemma RoomLeft(b: Book, a: Pass, k: nat)
    requires b.Inv() && a.Ok() && Roomy(b, a, k) && k < |a.quotes|
    ensures b.free != []
  {
    hide Book.Inv, View;
    ViewLength(b, a.m);
    NodeLeft(b, a.m);
  }

  lemma RoomyStep(b: Book, c: Book, a: Pass, k: nat, k': nat)
    requires b.Inv() && a.Ok() && c.Inv() && c.p == b.p && OthersKept(b, c, a.m) && Roomy(b, a, k)
    requires |View(c, a.m)| - k' <= |View(b, a.m)| - k
    ensures Roomy(c, a, k')
  {
    hide Book.Inv, View;
    OthersStayCapped(b, c, a.m);
  }

  /** How a pass can fail; with room for old and new quotes, never for want of a node. */
  lemma {:induction false} MergeErrors(b: Book, a: Pass, i: nat, k: nat, used: nat)
    requires b.Inv() && a.Ok() && a.Hoisted(b) && MergeAt(b, a, i, used) && k <= |a.quotes|
    ensures var r := Merge(b, a, i, k, used);
      r.Err? ==> MergeError(r.error) && (Roomy(b, a, k) ==> r.error != PoolFull)
    decreases 2 * (|a.quotes| - k) + |View(b, a.m)| - i
  {
    hide Book.Inv, View, Kill, Amend, MergeInsert, MergeAt, Ahead, Best, OthersKept, Roomy;
    CursorFits(b, a, i, used);
    ViewFacts(b, a.m);
    var x := Current(b, a, i);
    if k < |a.quotes| && (BadOrder(a, k) || a.quotes[k].lots == 0 || a.quotes[k].lots > b.p.maxLots) {
    } else if x.Some? && (k == |a.quotes| || x.value.o.tick < a.quotes[k].tick) {
      var c := Kill(b, x.value.h);
      KillMerge(b, a, i, used);
      KillOthers(b, x.value.h);
      if Roomy(b, a, k) { RoomyStep(b, c, a, k, k); }
      MergeErrors(c, a, i, k, used);
    } else if k == |a.quotes| {
    } else if x.None? || a.quotes[k].tick < x.value.o.tick {
      var next := if x.Some? then Some(x.value.o.tick) else None;
      PastRegion(b, a, i, k, used);
      InsertErrors(b, a, i, a.quotes[k], used, next);
      if Roomy(b, a, k) { RoomLeft(b, a, k); }
      if MergeInsert(b, a, i, a.quotes[k], used, next).Ok? {
        InsertedRoomy(b, a, i, k, used, next);
        var (c, t) := MergeInsert(b, a, i, a.quotes[k], used, next).value;
        MergeErrors(c, a, i + 1, k + 1, t);
      }
    } else if a.quotes[k].lots <= x.value.o.lots {
      var c := Amend(b, x.value.h, a.quotes[k].lots, a.expiry);
      KeepMerge(b, a, i, used, a.quotes[k]);
      AmendOthers(b, x.value.h, a.quotes[k].lots, a.expiry);
      if Roomy(b, a, k) { RoomyStep(b, c, a, k, k + 1); }
      MergeErrors(c, a, i + 1, k + 1, a.quotes[k].tick);
    } else {
      var e := Kill(b, x.value.h);
      KillMerge(b, a, i, used);
      KillOthers(b, x.value.h);
      Reposted(b, a, i, used, a.quotes[k]);
      if Roomy(b, a, k) { RoomyStep(b, e, a, k, k); RoomLeft(e, a, k); }
      InsertErrors(e, a, i, a.quotes[k], used, None);
      if MergeInsert(e, a, i, a.quotes[k], used, None).Ok? {
        InsertedRoomy(e, a, i, k, used, None);
        var (c, t) := MergeInsert(e, a, i, a.quotes[k], used, None).value;
        MergeErrors(c, a, i + 1, k + 1, t);
      }
    }
  }

  lemma InsertedRoomy(b: Book, a: Pass, i: nat, k: nat, used: nat, next: Option<nat>)
    requires b.Inv() && a.Ok() && a.Hoisted(b) && MergeAt(b, a, i, used) && k < |a.quotes|
    requires Ahead(b, a, i, a.quotes[k], next) && 0 < a.quotes[k].lots <= b.p.maxLots
    requires MergeInsert(b, a, i, a.quotes[k], used, next).Ok?
    ensures var (c, t) := MergeInsert(b, a, i, a.quotes[k], used, next).value;
      && c.Inv() && c.p == b.p && a.Hoisted(c) && MergeAt(c, a, i + 1, t)
      && (Roomy(b, a, k) ==> Roomy(c, a, k + 1))
      && |View(c, a.m)| == |View(b, a.m)| + 1 && i <= |View(b, a.m)|
  {
    hide Book.Inv, View, MergeInsert, MergeAt, Ahead, Best, Roomy, OthersKept;
    CursorFits(b, a, i, used);
    InsertMerge(b, a, i, a.quotes[k], used, next);
    InsertOneSided(b, a, i, a.quotes[k], used, next);
    var (c, t) := MergeInsert(b, a, i, a.quotes[k], used, next).value;
    if Roomy(b, a, k) { RoomyStep(b, c, a, k, k + 1); }
  }

  lemma CappedBut(b: Book, m: nat)
    requires m < |b.chains|
    ensures Capped(b) <==> OthersCapped(b, m) && |b.chains[m]| <= MAX_ORDERS_PER_SEAT
  {}

  /** Not even a full flip of 128 asks to 128 bids runs out of nodes. */
  lemma MassQuoteNeverFull(b: Book, m: nat, bids: seq<Quote>, asks: seq<Quote>, expiry: nat)
    requires b.Inv() && m < MAX_SEATS && expiry <= U32_MAX
    ensures var r := MassQuote(b, m, bids, asks, expiry);
      r.Err? ==>
        && (MergeError(r.error) || r.error == TooManyOrders)
        && (b.p.capacity == MAX_POOL_CAPACITY && Capped(b) ==> r.error != PoolFull)
  {
    hide Book.Inv, View, Best, MergeAt, Merge, OthersKept, Capped, OthersCapped, Past, Merged, Prioritized, MergeError;
    ViewLength(b, m);
    CappedBut(b, m);
    if |bids| + |asks| <= MAX_ORDERS_PER_SEAT {
      var a := PassOf(b, m, Bid, bids, expiry);
      BidStart(b, a);
      MergeErrors(b, a, 0, 0, 0);
      if Merge(b, a, 0, 0, 0).Ok? {
        var (c, cursor) := Merge(b, a, 0, 0, 0).value;
        FirstPass(b, m, bids, expiry, a);
        if Capped(b) { OthersStayCapped(b, c, m); }
        var a' := PassOf(c, m, Ask, asks, expiry);
        AskStart(b, a, a');
        MergeErrors(c, a', cursor, 0, 0);
      }
    }
  }

  lemma MassQuoteCapped(b: Book, m: nat, bids: seq<Quote>, asks: seq<Quote>, expiry: nat)
    requires b.Inv() && m < MAX_SEATS && expiry <= U32_MAX
    requires MassQuote(b, m, bids, asks, expiry).Ok? && Capped(b)
    ensures Capped(MassQuote(b, m, bids, asks, expiry).value)
  {
    hide Book.Inv, MassQuote, OthersKept, Capped, OthersCapped, Quiet, Replaced;
    var d := MassQuote(b, m, bids, asks, expiry).value;
    MassQuoteReplaces(b, m, bids, asks, expiry);
    ViewLength(b, m);
    CappedBut(b, m);
    CappedBut(d, m);
    OthersStayCapped(b, d, m);
  }

  lemma InsertCapped(b: Book, side: Side, t: nat, lots: nat, m: nat, expiry: nat)
    requires b.Inv() && m < MAX_SEATS && CanPost(b, side, t, lots, m, expiry, Place(b, m, side, t))
    ensures var r := Insert(b, side, t, lots, m, expiry);
      && (r.Err? ==>
            && (PostError(r.error) || r.error == TooManyOrders)
            && (Capped(b) && b.p.capacity == MAX_POOL_CAPACITY ==> r.error != PoolFull))
      && (r.Ok? && Capped(b) ==> Capped(r.value))
  {
    hide Book.Inv, View, Post, CanPost, Place, OthersKept, OthersCapped, Capped;
    ViewLength(b, m);
    CappedBut(b, m);
    if Capped(b) && b.p.capacity == MAX_POOL_CAPACITY && |b.chains[m]| < MAX_ORDERS_PER_SEAT { NodeLeft(b, m); }
    if Insert(b, side, t, lots, m, expiry).Ok? && Capped(b) {
      var i := Place(b, m, side, t);
      var c := Post(b, side, t, lots, m, expiry, i);
      PostView(b, side, t, lots, m, expiry, i);
      ViewLength(c, m);
      PostOthers(b, side, t, lots, m, expiry, i);
      OthersStayCapped(b, c, m);
      CappedBut(c, m);
    }
  }

  // ---- operations that only take orders away ----

  ghost predicate ChainsShrink(b: Book, c: Book) {
    |c.chains| == |b.chains| && forall j | 0 <= j < |b.chains| :: |c.chains[j]| <= |b.chains[j]|
  }

  lemma ShrinkCapped(b: Book, c: Book)
    requires ChainsShrink(b, c) && Capped(b)
    ensures Capped(c)
  {}

  lemma KillShrinks(b: Book, h: nat)
    requires b.Inv() && h in b.orders
    ensures ChainsShrink(b, Kill(b, h))
  {
    hide Book.Inv;
    OrderFacts(b, h);
  }

  lemma AmendShrinks(b: Book, h: nat, lots: nat, expiry: nat)
    requires b.Inv() && h in b.orders && 0 < lots <= b.orders[h].lots && expiry <= U32_MAX
    ensures ChainsShrink(b, Amend(b, h, lots, expiry))
  {
    hide Book.Inv;
    OrderFacts(b, h);
  }

  predicate UpsertError(e: Error) {
    PostError(e) || e == InvalidLots || e == OrderNotFound || e == TooManyOrders
  }

  /** `upsert_order` keeps the cap, and cannot run out of nodes. */
  lemma UpsertCapped(b: Book, side: Side, tick: nat, lots: nat, m: nat, expiry: nat, slide: bool)
    requires b.Inv() && m < MAX_SEATS && expiry <= U32_MAX
    ensures var r := Upsert(b, side, tick, lots, m, expiry, slide);
      && (r.Err? ==>
            && UpsertError(r.error)
            && (Capped(b) && b.p.capacity == MAX_POOL_CAPACITY ==> r.error != PoolFull))
      && (r.Ok? && Capped(b) ==> Capped(r.value))
  {
    hide Book.Inv, Kill, Amend, Insert, Capped, FindQuote, Best, CanPost, ChainsShrink;
    if lots == 0 {
      var r := CheckOrSlide(b.anchor, b.p.tickLimit, side, tick, false, None);
      if r.Ok? && FindQuote(b, m, side, r.value).Some? {
        var h := FindQuote(b, m, side, r.value).value;
        KillShrinks(b, h);
        if Capped(b) { ShrinkCapped(b, Kill(b, h)); }
      }
    } else if lots <= b.p.maxLots {
      var r := CheckOrSlide(b.anchor, b.p.tickLimit, side, tick, slide, Best(b, side.Opposite()));
      if r.Ok? { UpsertAtCapped(b, side, tick, lots, m, expiry, slide, r.value); }
    }
  }

  lemma UpsertAtCapped(b: Book, side: Side, tick: nat, lots: nat, m: nat, expiry: nat, slide: bool, t: nat)
    requires b.Inv() && m < MAX_SEATS && expiry <= U32_MAX && 0 < lots <= b.p.maxLots
    requires CheckOrSlide(b.anchor, b.p.tickLimit, side, tick, slide, Best(b, side.Opposite())) == Ok(t)
    ensures var r := Upsert(b, side, tick, lots, m, expiry, slide);
      && (r.Err? ==>
            && UpsertError(r.error)
            && (Capped(b) && b.p.capacity == MAX_POOL_CAPACITY ==> r.error != PoolFull))
      && (r.Ok? && Capped(b) ==> Capped(r.value))
  {
    hide Book.Inv, Kill, Amend, Insert, Capped, FindQuote, Best, CanPost, ChainsShrink, CheckOrSlide, Place;
    CheckedTick(b, side, tick, slide, t);
    var x := FindQuote(b, m, side, t);
    if x.None? {
      PlaceBelongs(b, m, side, t);
      CheckedCanPost(b, side, tick, slide, t, lots, m, expiry, Place(b, m, side, t));
      InsertCapped(b, side, t, lots, m, expiry);
    } else if lots <= b.orders[x.value].lots {
      AmendShrinks(b, x.value, lots, expiry);
      if Capped(b) { ShrinkCapped(b, Amend(b, x.value, lots, expiry)); }
    } else {
      var k := Kill(b, x.value);
      AfterKill(b, x.value, m, side, t);
      PlaceBelongs(k, m, side, t);
      CheckedCanPost(k, side, tick, slide, t, lots, m, expiry, Place(k, m, side, t));
      KillShrinks(b, x.value);
      if Capped(b) { ShrinkCapped(b, k); }
      InsertCapped(k, side, t, lots, m, expiry);
    }
  }
}
