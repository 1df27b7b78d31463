/** Resting quotes: the crossing check and the meaning of `upsert_order`. */
module Quoting {
  import opened Base
  import opened Bitmaps
  import opened Seqs
  import opened Books
  import opened Changes
  import opened Ops
  import opened Matching

  /** Window and crossing check of a resting order; `slide` rests it one tick off the opposing best. */
  function CheckOrSlide(anchor: nat, tickLimit: nat, side: Side, tick: nat, slide: bool,
      opposing: Option<nat>): Result<nat>
  {
    if tick < anchor || tick > anchor + WINDOW_MASK || tick > tickLimit then Err(TickOutOfWindow)
    else if tick == 0 then Err(TickOutOfWindow)
    else if side.Bid? && opposing.Some? && tick >= opposing.value then
      if !slide then Err(WouldCross)
      else if opposing.value == anchor || opposing.value == 0 then Err(TickOutOfWindow)
      else Ok(opposing.value - 1)
    else if side.Ask? && opposing.Some? && tick <= opposing.value then
      if !slide then Err(WouldCross)
      else if opposing.value == anchor + WINDOW_MASK then Err(TickOutOfWindow)
      else Ok(opposing.value + 1)
    else Ok(tick)
  }

  /** First place of the maker's chain, from `i` on, whose key is not below `key`. */
  ghost function PlaceFrom(b: Book, m: nat, key: nat, i: nat): (r: nat)
    requires m < |b.chains| && i <= |b.chains[m]| && forall h | h in b.chains[m] :: h in b.orders
    ensures i <= r <= |b.chains[m]|
    ensures forall j | i <= j < r :: b.orders[b.chains[m][j]].SortKey() < key
    ensures r < |b.chains[m]| ==> key <= b.orders[b.chains[m][r]].SortKey()
    decreases |b.chains[m]| - i
  {
    if i < |b.chains[m]| && b.orders[b.chains[m][i]].SortKey() < key then PlaceFrom(b, m, key, i + 1) else i
  }

  lemma ChainMembers(b: Book, m: nat)
    requires b.Inv() && m < MAX_SEATS
    ensures m < |b.chains| == |b.balances| && b.ChainOk(m)
    ensures forall h | h in b.chains[m] :: h in b.orders && b.orders[h].maker == m
  {
    assert b.ChainOk(m);
  }

  /** Where a quote of `(side, tick)` is, or would go, in the maker's chain. */
  ghost function Place(b: Book, m: nat, side: Side, tick: nat): (r: nat)
    requires b.Inv() && m < MAX_SEATS
    ensures m < |b.chains| && r <= |b.chains[m]|
  {
    ChainMembers(b, m);
    PlaceFrom(b, m, Key(side, tick), 0)
  }

  /** The maker's live quote at `(side, tick)`. */
  ghost function FindQuote(b: Book, m: nat, side: Side, tick: nat): (r: Option<nat>)
    requires b.Inv() && m < MAX_SEATS
    ensures r.Some? ==> r.value in b.orders
  {
    ChainMembers(b, m);
    var c, i := b.chains[m], Place(b, m, side, tick);
    if i < |c| && b.orders[c[i]].SortKey() == Key(side, tick) then Some(c[i]) else None
  }

  lemma KeyInjective(s: Side, t: nat, s': Side, t': nat)
    requires t <= U32_MAX && t' <= U32_MAX
    ensures Key(s, t) == Key(s', t') <==> s == s' && t == t'
  {}

  /** The walk finds the maker's quote exactly when there is one. */
  lemma FindQuoteExact(b: Book, m: nat, side: Side, tick: nat, h: nat)
    requires b.Inv() && m < MAX_SEATS && tick <= U32_MAX
    ensures FindQuote(b, m, side, tick) == Some(h) <==>
      h in b.orders && b.orders[h].maker == m && b.orders[h].side == side && b.orders[h].tick == tick
  {
    ChainMembers(b, m);
    var c, i, key := b.chains[m], Place(b, m, side, tick), Key(side, tick);
    if FindQuote(b, m, side, tick) == Some(h) {
      TickFits(b, h);
      KeyInjective(side, tick, b.orders[h].side, b.orders[h].tick);
    }
    if h in b.orders && b.orders[h].maker == m && b.orders[h].side == side && b.orders[h].tick == tick {
      OrderFacts(b, h);
      var j :| 0 <= j < |c| && c[j] == h;
      RisingAt(b, m, i, j, key);
    }
  }

  lemma TickFits(b: Book, h: nat)
    requires b.Inv() && h in b.orders
    ensures b.orders[h].tick <= U32_MAX
  {
    OrderFacts(b, h);
  }

  lemma RisingAt(b: Book, m: nat, i: nat, j: nat, key: nat)
    requires m < |b.chains| && b.ChainOk(m) && j < |b.chains[m]| && i <= |b.chains[m]|
    requires b.orders[b.chains[m][j]].SortKey() == key
    requires forall k | 0 <= k < i :: b.orders[b.chains[m][k]].SortKey() < key
    requires i < |b.chains[m]| ==> key <= b.orders[b.chains[m][i]].SortKey()
    ensures i == j
  {
    var f, c := KeyOf(b.orders), b.chains[m];
    assert c[j] in c;
    if i < |c| { assert c[i] in c; }
    if i < j {
      RisingPair(f, c, i, j);
    }
  }

  lemma RisingPair(f: nat -> nat, q: seq<nat>, i: nat, j: nat)
    requires Rising(f, q) && i < j < |q|
    ensures f(q[i]) < f(q[j])
  {}

  /** Without a quote at the key, its place is free. */
  lemma PlaceBelongs(b: Book, m: nat, side: Side, tick: nat)
    requires b.Inv() && m < MAX_SEATS && FindQuote(b, m, side, tick).None?
    ensures b.ChainOk(m) && Belongs(b, side, tick, m, Place(b, m, side, tick))
  {
    ChainMembers(b, m);
    var f, c, i := KeyOf(b.orders), b.chains[m], Place(b, m, side, tick);
    forall j | i <= j < |c|
      ensures Key(side, tick) < b.orders[c[j]].SortKey()
    {
      assert c[i] in c && c[j] in c;
      if i < j { assert f(c[i]) < f(c[j]); }
    }
  }

  // ---- posting ----

  /** A checked tick is a positive tick of the window. */
  lemma CheckedTick(b: Book, side: Side, tick: nat, slide: bool, t: nat)
    requires b.Inv() && CheckOrSlide(b.anchor, b.p.tickLimit, side, tick, slide, Best(b, side.Opposite())) == Ok(t)
    ensures b.InWindow(t) && 0 < t <= b.p.tickLimit <= U32_MAX
  {
    BestIsBest(b, side.Opposite());
  }

  /** Lock, allocate and rest a new order: the two ways it can still be refused. */
  ghost function TryPost(b: Book, side: Side, tick: nat, lots: nat, m: nat, expiry: nat, i: nat): Result<Book>
    requires b.Inv() && CanPost(b, side, tick, lots, m, expiry, i)
  {
    if !CanPay(b, side, tick, lots, m) then Err(InsufficientBalance)
    else if b.free == [] then Err(PoolFull)
    else Ok(Post(b, side, tick, lots, m, expiry, i))
  }

  /** A checked tick may be posted. */
  lemma CheckedCanPost(b: Book, side: Side, tick: nat, slide: bool, t: nat, lots: nat, m: nat, expiry: nat, i: nat)
    requires b.Inv() && m < MAX_SEATS && 0 < lots <= b.p.maxLots && expiry <= U32_MAX
    requires CheckOrSlide(b.anchor, b.p.tickLimit, side, tick, slide, Best(b, side.Opposite())) == Ok(t)
    requires b.ChainOk(m) && Belongs(b, side, t, m, i)
    ensures CanPost(b, side, t, lots, m, expiry, i)
  {
    hide Book.Structure, Book.Uncrossed, Book.LocksExact, Params.Ok, Best, Belongs, Book.ChainOk;
    BestIsBest(b, side.Opposite());
  }

  /** Refusal at the seat cap, then the post. */
  ghost function Insert(b: Book, side: Side, tick: nat, lots: nat, m: nat, expiry: nat): Result<Book>
    requires b.Inv() && m < MAX_SEATS && CanPost(b, side, tick, lots, m, expiry, Place(b, m, side, tick))
  {
    ChainMembers(b, m);
    if |b.chains[m]| >= MAX_ORDERS_PER_SEAT then Err(TooManyOrders)
    else TryPost(b, side, tick, lots, m, expiry, Place(b, m, side, tick))
  }

  /** Removing a maker's quote leaves its key free and the opposing side as it was. */
  lemma AfterKill(b: Book, h: nat, m: nat, side: Side, tick: nat)
    requires b.Inv() && m < MAX_SEATS && tick <= U32_MAX && FindQuote(b, m, side, tick) == Some(h)
    ensures FindQuote(Kill(b, h), m, side, tick).None?
    ensures Best(Kill(b, h), side.Opposite()) == Best(b, side.Opposite())
  {
    hide Book.Inv, Kill, FindQuote;
    FindQuoteExact(b, m, side, tick, h);
    var c := Kill(b, h);
    KillParts(b, h);
    if FindQuote(c, m, side, tick).Some? {
      var x := FindQuote(c, m, side, tick).value;
      FindQuoteExact(c, m, side, tick, x);
      FindQuoteExact(b, m, side, tick, x);
    }
  }

  lemma KillParts(b: Book, h: nat)
    requires b.Inv() && h in b.orders
    ensures var c, other := Kill(b, h), b.orders[h].side.Opposite();
      c.orders == b.orders - {h} && c.Levels(other) == b.Levels(other)
  {
    hide Book.Inv;
    OrderFacts(b, h);
  }

  /** `upsert_order`: add, amend or cancel one quote. */
  ghost function Upsert(b: Book, side: Side, tick: nat, lots: nat, m: nat, expiry: nat, slide: bool): Result<Book>
    requires b.Inv() && m < MAX_SEATS && expiry <= U32_MAX
  {
    if lots == 0 then
      match CheckOrSlide(b.anchor, b.p.tickLimit, side, tick, false, None)
      case Err(e) => Err(e)
      case Ok(t) =>
        if FindQuote(b, m, side, t).None? then Err(OrderNotFound)
        else Ok(Kill(b, FindQuote(b, m, side, t).value))
    else if lots > b.p.maxLots then Err(InvalidLots)
    else
      match CheckOrSlide(b.anchor, b.p.tickLimit, side, tick, slide, Best(b, side.Opposite()))
      case Err(e) => Err(e)
      case Ok(t) =>
        match FindQuote(b, m, side, t)
        case None =>
          PlaceBelongs(b, m, side, t);
          CheckedCanPost(b, side, tick, slide, t, lots, m, expiry, Place(b, m, side, t));
          Insert(b, side, t, lots, m, expiry)
        case Some(h) =>
          if lots <= b.orders[h].lots then Ok(Amend(b, h, lots, expiry)) else
            CheckedTick(b, side, tick, slide, t);
            AfterKill(b, h, m, side, t);
            PlaceBelongs(Kill(b, h), m, side, t);
            CheckedCanPost(Kill(b, h), side, tick, slide, t, lots, m, expiry, Place(Kill(b, h), m, side, t));
            Insert(Kill(b, h), side, t, lots, m, expiry)
  }

  // ---- the exits of `upsert_order` ----

  lemma UpsertCancels(b: Book, side: Side, tick: nat, m: nat, expiry: nat, slide: bool)
    requires b.Inv() && m < MAX_SEATS && expiry <= U32_MAX
    ensures match CheckOrSlide(b.anchor, b.p.tickLimit, side, tick, false, None)
            case Err(e) => Upsert(b, side, tick, 0, m, expiry, slide) == Err(e)
            case Ok(t) =>
              match FindQuote(b, m, side, t)
              case None => Upsert(b, side, tick, 0, m, expiry, slide) == Err(OrderNotFound)
              case Some(h) => Upsert(b, side, tick, 0, m, expiry, slide) == Ok(Kill(b, h))
  {
    hide Book.Inv, CheckOrSlide, FindQuote, Kill;
  }

  lemma UpsertRefuses(b: Book, side: Side, tick: nat, lots: nat, m: nat, expiry: nat, slide: bool)
    requires b.Inv() && m < MAX_SEATS && expiry <= U32_MAX && 0 < lots
    ensures lots > b.p.maxLots ==> Upsert(b, side, tick, lots, m, expiry, slide) == Err(InvalidLots)
    ensures lots <= b.p.maxLots ==>
      match CheckOrSlide(b.anchor, b.p.tickLimit, side, tick, slide, Best(b, side.Opposite()))
      case Err(e) => Upsert(b, side, tick, lots, m, expiry, slide) == Err(e)
      case Ok(_) => true
  {
    hide Book.Inv, CheckOrSlide, FindQuote, Best, Place, Kill, Amend, Insert, CanPost, Belongs;
  }

  lemma UpsertRests(b: Book, side: Side, tick: nat, lots: nat, m: nat, expiry: nat, slide: bool, t: nat)
    requires b.Inv() && m < MAX_SEATS && expiry <= U32_MAX && 0 < lots <= b.p.maxLots
    requires CheckOrSlide(b.anchor, b.p.tickLimit, side, tick, slide, Best(b, side.Opposite())) == Ok(t)
    ensures match FindQuote(b, m, side, t)
            case None =>
              && CanPost(b, side, t, lots, m, expiry, Place(b, m, side, t))
              && Upsert(b, side, tick, lots, m, expiry, slide) == Insert(b, side, t, lots, m, expiry)
            case Some(h) =>
              if lots <= b.orders[h].lots then
                Upsert(b, side, tick, lots, m, expiry, slide) == Ok(Amend(b, h, lots, expiry))
              else
                && CanPost(Kill(b, h), side, t, lots, m, expiry, Place(Kill(b, h), m, side, t))
                && Upsert(b, side, tick, lots, m, expiry, slide) == Insert(Kill(b, h), side, t, lots, m, expiry)
  {
    hide Book.Inv, CheckOrSlide, FindQuote, Best, Place, Kill, Amend, Insert, CanPost, Belongs;
    match FindQuote(b, m, side, t)
    case None =>
      PlaceBelongs(b, m, side, t);
      CheckedCanPost(b, side, tick, slide, t, lots, m, expiry, Place(b, m, side, t));
    case Some(h) =>
      if lots > b.orders[h].lots {
        CheckedTick(b, side, tick, slide, t);
        AfterKill(b, h, m, side, t);
        PlaceBelongs(Kill(b, h), m, side, t);
        CheckedCanPost(Kill(b, h), side, tick, slide, t, lots, m, expiry, Place(Kill(b, h), m, side, t));
      }
  }
}
