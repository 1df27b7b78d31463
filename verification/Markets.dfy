/** `create_market`: parameter validation, the overflow guard and the empty book. */
module Markets {
  import opened Base
  import opened Bitmaps
  import opened Seqs
  import opened Books
  import opened Capacity
  import opened Venues
  import opened Runs
  import Caps

  datatype NewMarket = NewMarket(
    tickSize: u64, lotSize: u64, anchor: u32, maxLots: u32, feeBps: u16)

  const TICK_CEILING: nat := 0xFFFF_FFFF - 2 * WINDOW_TICKS

  /** Checked 64-bit multiplication. */
  function CheckedMul(x: nat, y: nat): Option<nat> {
    if x * y > U64_MAX then None else Some(x * y)
  }

  /** The worst-case cost of one tick of price: `tick_size * max_lots * 10_500`. */
  function Denominator(d: NewMarket): Option<nat> {
    match CheckedMul(d.tickSize, d.maxLots)
    case None => None
    case Some(x) => CheckedMul(x, FEE_DENOMINATOR + MAX_FEE_BPS)
  }

  function TickLimit(denom: nat): nat
    requires 0 < denom
  {
    Min(U64_MAX / denom, TICK_CEILING)
  }

  function Validate(d: NewMarket, capacity: nat): Result<Params> {
    if d.tickSize == 0 || d.lotSize == 0 || d.maxLots == 0 then Err(InvalidMarketParams)
    else if d.anchor % 64 != 0 || d.anchor == 0 then Err(InvalidMarketParams)
    else if CheckedMul(d.tickSize, d.anchor).None? then Err(InvalidMarketParams)
    else if Denominator(d).None? || CheckedMul(d.lotSize, d.maxLots).None? then Err(InvalidMarketParams)
    else
      DenominatorPositive(d);
      var limit := TickLimit(Denominator(d).value);
      if d.anchor + WINDOW_MASK > U32_MAX || d.anchor + WINDOW_MASK > limit then Err(InvalidMarketParams)
      else if d.feeBps > MAX_FEE_BPS then Err(InvalidFee)
      else Ok(Params(d.tickSize, d.lotSize, d.feeBps, d.maxLots, limit, capacity))
  }

  /** The denominator of valid parameters is positive, so the division is safe. */
  lemma DenominatorPositive(d: NewMarket)
    requires d.tickSize > 0 && d.maxLots > 0 && Denominator(d).Some?
    ensures Denominator(d).value == d.tickSize * d.maxLots * (FEE_DENOMINATOR + MAX_FEE_BPS) > 0
  {
    Positive(d.tickSize, d.maxLots);
  }

  lemma Positive(x: nat, y: nat)
    requires x > 0 && y > 0
    ensures x * y > 0
  {}

  lemma Regroup(limit: nat, size: nat, lots: nat)
    ensures limit * (size * lots * (FEE_DENOMINATOR + MAX_FEE_BPS))
      == (FEE_DENOMINATOR + MAX_FEE_BPS) * ((limit * size) * lots)
  {
    assert (limit * size) * lots == limit * (size * lots);
    var x := size * lots;
    assert limit * (x * (FEE_DENOMINATOR + MAX_FEE_BPS)) == (limit * x) * (FEE_DENOMINATOR + MAX_FEE_BPS);
  }

  /** The checks imply every bound the engine's unchecked arithmetic relies on. */
  lemma ValidatedOk(d: NewMarket, capacity: nat)
    requires MIN_POOL_CAPACITY <= capacity <= MAX_POOL_CAPACITY && Validate(d, capacity).Ok?
    ensures Validate(d, capacity).value.Ok()
  {
    hide Times;
    var p := Validate(d, capacity).value;
    DenominatorPositive(d);
    var denom := Denominator(d).value;
    DivBounds(U64_MAX, denom);
    MulLe(p.tickLimit, U64_MAX / denom, denom);
    Regroup(p.tickLimit, d.tickSize, d.maxLots);
    TimesIs(p.tickLimit, p.tickSize);
    TimesIs(p.tickLimit * p.tickSize, p.maxLots);
    TimesIs(FEE_DENOMINATOR + MAX_FEE_BPS, (p.tickLimit * p.tickSize) * p.maxLots);
    TimesIs(p.lotSize, p.maxLots);
  }

  /** The limit is as high as the guard allows: one tick more would overflow or leave the window no room. */
  lemma TickLimitIsTight(d: NewMarket, capacity: nat)
    requires Validate(d, capacity).Ok?
    ensures var p := Validate(d, capacity).value;
      p.tickLimit == TICK_CEILING
      || Times(FEE_DENOMINATOR + MAX_FEE_BPS, Times(Times(p.tickLimit + 1, p.tickSize), p.maxLots)) > U64_MAX
  {
    hide Times;
    var p := Validate(d, capacity).value;
    DenominatorPositive(d);
    DivBounds(U64_MAX, Denominator(d).value);
    Regroup(p.tickLimit + 1, d.tickSize, d.maxLots);
    TimesIs(p.tickLimit + 1, p.tickSize);
    TimesIs((p.tickLimit + 1) * p.tickSize, p.maxLots);
    TimesIs(FEE_DENOMINATOR + MAX_FEE_BPS, ((p.tickLimit + 1) * p.tickSize) * p.maxLots);
  }

  /** What the checks ask of a market's sizes and anchor, but for the room of the window. */
  predicate SizesOk(d: NewMarket) {
    && 0 < d.tickSize && 0 < d.lotSize && 0 < d.maxLots && 0 < d.anchor && d.anchor % 64 == 0
    && d.tickSize * d.anchor <= U64_MAX && d.lotSize * d.maxLots <= U64_MAX
    && d.tickSize * d.maxLots * (FEE_DENOMINATOR + MAX_FEE_BPS) <= U64_MAX
  }

  /** No order at the tick costs more than fits, at the largest size and fee. */
  predicate TickFits(d: NewMarket, tick: nat) {
    tick <= TICK_CEILING && tick * (d.tickSize * d.maxLots * (FEE_DENOMINATOR + MAX_FEE_BPS)) <= U64_MAX
  }

  /**
   The checks pass iff the sizes are in order, the whole first window fits and the fee is
   allowed; then the market carries what was asked for and the highest tick that fits.
   */
  lemma ValidateExact(d: NewMarket, capacity: nat)
    ensures Validate(d, capacity).Ok? <==>
      SizesOk(d) && TickFits(d, d.anchor + WINDOW_MASK) && d.feeBps <= MAX_FEE_BPS
    ensures Validate(d, capacity).Ok? ==>
      var p := Validate(d, capacity).value;
      && p.tickSize == d.tickSize && p.lotSize == d.lotSize && p.feeBps == d.feeBps && p.maxLots == d.maxLots
      && p.capacity == capacity && TickFits(d, p.tickLimit) && !TickFits(d, p.tickLimit + 1)
    ensures Validate(d, capacity).Err? ==>
      Validate(d, capacity).error
        == if SizesOk(d) && TickFits(d, d.anchor + WINDOW_MASK) then InvalidFee else InvalidMarketParams
  {
    if d.tickSize > 0 && d.maxLots > 0 && Denominator(d).Some? {
      DenominatorPositive(d);
      LimitFits(d, d.anchor + WINDOW_MASK);
      LimitFits(d, TickLimit(Denominator(d).value));
      LimitFits(d, TickLimit(Denominator(d).value) + 1);
    } else if d.tickSize > 0 && d.maxLots > 0 {
      DenominatorNone(d);
    }
  }

  lemma DenominatorNone(d: NewMarket)
    requires d.tickSize > 0 && d.maxLots > 0 && Denominator(d).None?
    ensures d.tickSize * d.maxLots * (FEE_DENOMINATOR + MAX_FEE_BPS) > U64_MAX
  {}

  /** A tick is within the limit iff it fits. */
  lemma LimitFits(d: NewMarket, tick: nat)
    requires d.tickSize > 0 && d.maxLots > 0 && Denominator(d).Some?
    ensures 0 < Denominator(d).value
    ensures tick <= TickLimit(Denominator(d).value) <==> TickFits(d, tick)
  {
    DenominatorPositive(d);
    QuotientBounds(U64_MAX, Denominator(d).value, tick);
  }

  lemma QuotientBounds(n: nat, d: nat, x: nat)
    requires 0 < d
    ensures x <= n / d <==> x * d <= n
  {
    DivBounds(n, d);
    if x <= n / d { MulLe(x, n / d, d); } else { MulLe(n / d + 1, x, d); }
  }

  // ---- the empty book ----

  ghost function Unused(capacity: nat): (f: seq<nat>)
    requires 0 < capacity
    ensures |f| == capacity - 1 && forall i | 0 <= i < |f| :: f[i] == i + 1
  {
    seq(capacity - 1, (i: nat) => i + 1)
  }

  ghost function EmptyBook(p: Params, anchor: nat): Book
    requires 0 < p.capacity
  {
    Book(p, anchor, map[], map[], map[], seq(MAX_SEATS, _ => []), Unused(p.capacity),
         seq(MAX_SEATS, _ => Balance(0, 0, 0, 0)), 0, 0)
  }

  lemma {:induction false} NoOrders(s: seq<seq<nat>>)
    requires forall j | 0 <= j < |s| :: s[j] == []
    ensures SumLengths(s) == 0
  {
    if s != [] { NoOrders(s[1..]); }
  }

  lemma {:induction false} NoFunds(s: seq<Balance>, base: bool)
    requires forall j | 0 <= j < |s| :: s[j] == Balance(0, 0, 0, 0)
    ensures SumOwned(s, base) == 0
  {
    if s != [] { NoFunds(s[1..], base); }
  }

  lemma EmptyStructure(p: Params, anchor: nat)
    requires 0 < p.capacity
    ensures EmptyBook(p, anchor).Structure() && EmptyBook(p, anchor).Uncrossed()
  {
    var b := EmptyBook(p, anchor);
    NoOrders(b.chains);
    forall h: nat | 0 < h < p.capacity ensures h in b.free { assert b.free[h - 1] == h; }
  }

  lemma SumNone(f: nat -> nat)
    ensures Sum(f, []) == 0
  {}

  lemma EmptyLocks(p: Params, anchor: nat)
    requires 0 < p.capacity
    ensures EmptyBook(p, anchor).LocksExact()
  {
    hide Sum, LockOf;
    var b := EmptyBook(p, anchor);
    forall m, base | 0 <= m < |b.balances|
      ensures b.balances[m].Locked(base) == b.ChainLock(m, base) && 0 <= b.balances[m].Free(base)
    {
      SumNone(LockOf(p, b.orders, base));
      assert b.chains[m] == [];
    }
  }

  lemma EmptyClaims(p: Params, anchor: nat, base: bool)
    requires 0 < p.capacity
    ensures EmptyBook(p, anchor).Claims(base) == 0
  {
    hide SumOwned;
    NoFunds(EmptyBook(p, anchor).balances, base);
  }

  lemma StartsInWindow(d: NewMarket, capacity: nat)
    requires 0 < capacity && Validate(d, capacity).Ok?
    ensures EmptyBook(Validate(d, capacity).value, d.anchor).WindowOk()
  {
    hide TickLimit;
  }

  lemma EmptyCapped(p: Params, anchor: nat)
    requires 0 < p.capacity
    ensures Capped(EmptyBook(p, anchor))
  {}

  /** A market starts sound, whatever its vaults already hold. */
  lemma CreatedSound(d: NewMarket, capacity: nat, vaultBase: u64, vaultQuote: u64)
    requires MIN_POOL_CAPACITY <= capacity <= MAX_POOL_CAPACITY && Validate(d, capacity).Ok?
    ensures Sound(Venue(EmptyBook(Validate(d, capacity).value, d.anchor), vaultBase, vaultQuote))
  {
    hide Book.Structure, Book.Uncrossed, Book.LocksExact, Book.WindowOk, Params.Ok, Validate, Capped, EmptyBook;
    var p := Validate(d, capacity).value;
    ValidatedOk(d, capacity);
    CapacityKept(d, capacity);
    EmptyParts(p, d.anchor);
    EmptyStructure(p, d.anchor);
    EmptyLocks(p, d.anchor);
    EmptyClaims(p, d.anchor, true);
    EmptyClaims(p, d.anchor, false);
    EmptyCapped(p, d.anchor);
    StartsInWindow(d, capacity);
  }

  lemma CapacityKept(d: NewMarket, capacity: nat)
    requires Validate(d, capacity).Ok?
    ensures Validate(d, capacity).value.capacity == capacity
  {}

  lemma EmptyParts(p: Params, anchor: nat)
    requires 0 < p.capacity
    ensures EmptyBook(p, anchor).p == p && EmptyBook(p, anchor).anchor == anchor
  {}

  /** The parameters on which the fill cap binds are ones `create_market` accepts. */
  lemma WitnessAccepted(bps: u16)
    requires bps <= MAX_FEE_BPS
    ensures Validate(NewMarket(1, 1, 64, Caps.WITNESS_LOTS, bps), MIN_POOL_CAPACITY) == Ok(Caps.Witness(bps))
  {}

  /** Sound states exist: that market, just created, with empty vaults. */
  lemma SoundStartExists(bps: u16)
    requires bps <= MAX_FEE_BPS
    ensures Sound(Venue(EmptyBook(Caps.Witness(bps), 64), 0, 0))
  {
    hide Sound, EmptyBook, Validate;
    WitnessAccepted(bps);
    CreatedSound(NewMarket(1, 1, 64, Caps.WITNESS_LOTS, bps), MIN_POOL_CAPACITY, 0, 0);
  }
}
