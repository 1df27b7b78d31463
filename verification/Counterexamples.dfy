/** Concrete accounts and books on which a promise of the program's text fails. */
module Counterexamples {
  import opened Base
  import opened Bitmaps
  import opened Links
  import opened Books
  import opened Ops
  import opened Matching
  import opened Quoting
  import opened Merging
  import opened MassQuoting
  import opened Reanchoring
  import opened Stopping
  import opened Reaping
  import opened Layout
  import opened Represent
  import opened Creating
  import opened Filling
  import Caps
  import Markets
  import Outcomes
  import Runs
  import Venues

  // ---- a market whose first two seats hold a thousand atoms of each asset ----

  const FUNDS: Balance := Balance(1000, 1000, 0, 0)

  ghost function Bare(): Book {
    WitnessCapacity();
    Markets.EmptyBook(Caps.Witness(0), 64)
  }

  lemma BareIs()
    ensures var b := Bare();
      && b.Inv() && b.p == Caps.Witness(0) && b.anchor == 64 && |b.balances| == |b.chains| == MAX_SEATS
      && b.orders == map[] && b.bids == map[] && b.asks == map[] && b.free == Markets.Unused(64) && b.issued == 0
      && forall m | 0 <= m < MAX_SEATS :: b.chains[m] == [] && b.balances[m] == Balance(0, 0, 0, 0)
  {
    hide Book.Inv, Markets.EmptyBook, Runs.Sound, Caps.Witness, Markets.Unused;
    WitnessCapacity();
    EmptyParts(Caps.Witness(0), 64);
    BareInv();
  }

  lemma BareInv()
    ensures Bare().Inv()
  {
    hide Book.Inv, Markets.EmptyBook, Runs.Sound, Caps.Witness, Markets.Unused;
    Markets.SoundStartExists(0);
    Outcomes.SoundFits(Venues.Venue(Bare(), 0, 0));
  }

  lemma WitnessCapacity()
    ensures Caps.Witness(0).capacity == 64 && Caps.Witness(0).tickSize == Caps.Witness(0).lotSize == 1
    ensures 1 <= Caps.Witness(0).maxLots && Caps.Witness(0).tickLimit == Caps.WITNESS_TICK
  {}

  /** The parts of a sample book that a next order depends on. */
  ghost predicate Sample(b: Book, used: nat) {
    && b.Inv() && b.p == Caps.Witness(0) && b.anchor == 64 && |b.balances| == |b.chains| == MAX_SEATS
    && b.bids == map[] && used < 2 && b.free == Markets.Unused(64)[used..] && b.issued == used
    && (forall m | used <= m < 2 :: b.chains[m] == [] && b.balances[m] == FUNDS)
  }

  ghost function Funded(): (b: Book)
    ensures Sample(b, 0) && b.orders == map[] && b.asks == map[]
  {
    hide Book.Structure, Book.Uncrossed, Params.Ok, Bare, Caps.Witness;
    BareIs();
    var a := Bare();
    var b := a.(balances := a.balances[0 := FUNDS][1 := FUNDS]);
    SameStructure(a, b);
    FundedLocks(a, b);
    b
  }

  lemma FundedLocks(a: Book, b: Book)
    requires a.LocksExact() && |a.balances| == |a.chains| == MAX_SEATS
    requires a.balances[0] == a.balances[1] == Balance(0, 0, 0, 0)
    requires b == a.(balances := a.balances[0 := FUNDS][1 := FUNDS])
    ensures b.LocksExact()
  {
    forall m, base | 0 <= m < |b.balances|
      ensures b.balances[m].Locked(base) == b.ChainLock(m, base) && 0 <= b.balances[m].Free(base)
    {
      assert a.balances[m].Locked(base) == a.ChainLock(m, base);
    }
  }

  /** Seat `m` rests one lot to sell. */
  ghost function WithAsk(b: Book, m: nat, tick: nat): (c: Book)
    requires Sample(b, m) && b.InWindow(tick)
    ensures c.Inv() && c.p == b.p && c.anchor == b.anchor
  {
    hide Book.Inv, CanPost, CanPay, Book.InWindow, Posted;
    AskFits(b, m, tick);
    Post(b, Ask, tick, 1, m, 5, 0)
  }

  lemma WithAskIs(b: Book, m: nat, tick: nat)
    requires Sample(b, m) && b.InWindow(tick)
    ensures var c := WithAsk(b, m, tick);
      && c.orders == b.orders[m + 1 := Order(Ask, tick, m, 1, 5, m)] && c.asks.Keys == b.asks.Keys + {tick}
      && (m == 0 ==> Sample(c, 1))
  {
    hide Book.Inv, CanPost, CanPay, Book.InWindow;
    AskFits(b, m, tick);
    var f := Markets.Unused(64);
    assert f[m..][1..] == f[m + 1..];
  }

  lemma AskFits(b: Book, m: nat, tick: nat)
    requires Sample(b, m) && b.InWindow(tick)
    ensures CanPost(b, Ask, tick, 1, m, 5, 0) && CanPay(b, Ask, tick, 1, m)
    ensures b.free != [] && b.free[0] == m + 1
  {
    ChainMembers(b, m);
    TimesIs(1, 1);
  }

  lemma SampleWindow(b: Book, used: nat)
    requires Sample(b, used)
    ensures b.Inv() && b.anchor == 64 && b.p == Caps.Witness(0) && b.bids == map[] && b.free != []
    ensures used == 1 ==> |b.chains| == |b.balances| == MAX_SEATS && b.chains[1] == [] && b.balances[1] == FUNDS
  {}

  /** One order to sell at tick 100, expiring at slot 5. */
  ghost function OneAsk(): Book {
    hide Book.Inv, WithAsk, Funded, Caps.Witness;
    WithAsk(Funded(), 0, 100)
  }

  lemma OneAskIs()
    ensures var b := OneAsk();
      && Sample(b, 1) && b.orders == map[1 := Order(Ask, 100, 0, 1, 5, 0)] && b.asks.Keys == {100}
  {
    hide Book.Inv, WithAsk, Funded, Caps.Witness, Markets.Unused;
    WithAskIs(Funded(), 0, 100);
  }

  /** And another at tick 101, in the same word. */
  ghost function TwoAsks(): Book {
    hide Book.Inv, WithAsk, OneAsk, Caps.Witness;
    OneAskIs();
    WithAsk(OneAsk(), 1, 101)
  }

  lemma TwoAsksAre()
    ensures var b := TwoAsks();
      && b.Inv() && b.anchor == 64 && b.p == Caps.Witness(0)
      && b.orders == map[1 := Order(Ask, 100, 0, 1, 5, 0), 2 := Order(Ask, 101, 1, 1, 5, 1)]
  {
    hide Book.Inv, WithAsk, OneAsk, Caps.Witness, Markets.Unused;
    OneAskIs();
    WithAskIs(OneAsk(), 1, 101);
  }

  // ---- the failures ----

  /** A reap asked for no order reaps one. */
  lemma ReapOfNoneReapsOne()
    ensures OneAsk().Inv() && ReapExpired(OneAsk(), Reap(Ask, 0, 10), 0).1 == 1
  {
    hide Book.Inv, ReapExpired, OneAsk, Sample, Caps.Witness;
    OneAskIs();
    SampleWindow(OneAsk(), 1);
    var b, a := OneAsk(), Reap(Ask, 0, 10);
    ReapRespectsCount(b, a, 0);
    assert Due(a, Start(b, 0), b.orders[1]);
  }

  /** A move with a budget of one evicts two. */
  lemma BudgetOvershot()
    ensures MoveOk(TwoAsks(), 128) && Reanchor(TwoAsks(), 128, 0, 1).1 == 2
  {
    hide Book.Inv, Reanchor, Left, TwoAsks, Caps.Witness;
    WitnessCapacity();
    TwoAsksAre();
    var b := TwoAsks();
    ReanchorRestricts(b, 128, 0, 1);
    var c := Reanchor(b, 128, 0, 1).0;
    assert b.orders[1].tick == 100 && b.orders[2].tick == 101;
    LeftOrders(b, c);
    assert c.orders.Keys == {};
  }

  /** On an empty chain, the second of two bids that slide to one tick crosses. */
  lemma SecondCrosses(b: Book, a: Pass, t: nat)
    requires b.Inv() && a.Ok() && a.Hoisted(b) && MergeAt(b, a, 0, 0) && View(b, a.m) == [] && a.m < |b.balances|
    requires |a.quotes| == 2 && !BadOrder(a, 0) && !BadOrder(a, 1)
    requires 0 < a.quotes[0].lots <= b.p.maxLots && 0 < a.quotes[1].lots <= b.p.maxLots
    requires 0 < t && a.Slid(b, a.quotes[0]) == Ok(t) && a.Slid(b, a.quotes[1]) == Ok(t)
    requires CanPay(b, a.side, t, a.quotes[0].lots, a.m) && b.free != []
    ensures Merge(b, a, 0, 0, 0) == Err(WouldCross)
  {
    hide Book.Inv, View, Best, MergeAt, CheckOrSlide, CanPost, CanPay;
    var q := a.quotes[0];
    PastRegion(b, a, 0, 0, 0);
    assert MergeInsert(b, a, 0, q, 0, None).Ok?;
    InsertMerge(b, a, 0, q, 0, None);
    var c := MergeInsert(b, a, 0, q, 0, None).value.0;
    PastRegion(c, a, 1, 1, t);
    assert a.Slid(c, a.quotes[1]) == Ok(t);
    assert Merge(c, a, 1, 1, t) == Err(WouldCross);
  }

  /** Two bids across the best ask slide to one tick, and the mass quote is refused. */
  lemma SlidBidsRefused()
    ensures OneAsk().Inv()
      && MassQuote(OneAsk(), 1, [Quote(100, 1, 0), Quote(101, 1, 0)], [], 0) == Err(WouldCross)
  {
    hide Book.Inv, Best, Merge, MergeAt, View, OneAsk, Sample, Caps.Witness;
    WitnessCapacity();
    OneAskIs();
    SampleWindow(OneAsk(), 1);
    var b, bids := OneAsk(), [Quote(100, 1, 0), Quote(101, 1, 0)];
    BestIsBest(b, Ask);
    var a := PassOf(b, 1, Bid, bids, 0);
    assert a.Slid(b, bids[0]) == Ok(99) && a.Slid(b, bids[1]) == Ok(99);
    BidStart(b, a);
    TimesIs(99, 1);
    assert CanPay(b, Bid, 99, 1, 1);
    SecondCrosses(b, a, 99);
  }

  /** A created account, as a value: every node but the reserved one is free. */
  ghost function Created(h: Market): Raw
    requires 2 <= h.capacity <= MAX_POOL_CAPACITY
  {
    Raw(h.(freeHead := 1, freeCount := h.capacity - 1), {}, {},
        seq(WINDOW_TICKS, _ => EMPTY_LEVEL), seq(MAX_SEATS, _ => Seat(0, 0, 0, 0, NIL, 0)),
        seq(h.capacity, (k: nat) => Unwritten(k, h.capacity)))
  }

  function Unwritten(k: nat, capacity: u32): OrderNode
    requires capacity <= MAX_POOL_CAPACITY
  {
    OrderNode(NIL, if 0 < k && k + 1 < capacity then k + 1 else NIL, NIL, NIL, 0, Bid, 0, 0, 0,
              if k == 0 then 0 else FREED_SEQ)
  }

  const SAMPLE: Market := Market(1, 1, 64, 4_294_950_911, 0, 409_046, 64, 0, 0, 0, 0)

  lemma CreatedIs()
    ensures Rep(Created(SAMPLE), Bare())
  {
    hide Book.Inv, Rep, Range, Markets.EmptyBook;
    var r := Created(SAMPLE);
    var f := Range(1, 64) + [];
    forall i | 0 <= i < |f|
      ensures Next(r.pool)(f[i]) == At(f, i + 1)
    {}
    assert forall x | x in f :: 0 < x < 64;
    EmptyRep(r, SAMPLE);
  }

  /** On a created account the id check lets node 1 of seat 0 through, though it is no order. */
  lemma FreedIdPasses()
    ensures var r, b := Created(SAMPLE), Bare();
      && Rep(r, b) && b.Inv() && 1 !in b.orders
      && r.pool[1].id == FREED_SEQ && r.pool[1].maker == 0 && FreedHandle(r, b, 0, 1, FREED_SEQ)
  {
    hide Book.Inv, Rep, Bare;
    BareIs();
    CreatedIs();
    assert Markets.Unused(64)[0] == 1;
  }
}
