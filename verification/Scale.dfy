/** The client's conversions between atoms and ticks and their decimal texts. */
module Scale {
  import opened Base
  import opened Decimals

  datatype Rounding = Down | Up | Nearest

  // ---- one rounded division ----

  /** `x * y / denominator`, resolved by `rounding`. */
  function MulDiv(x: u128, y: u128, denominator: u128, rounding: Rounding): Conversion<u128> {
    if denominator == 0 then Failed(DivideByZero) else
    var prod :- CheckedMul(x, y);
    var quotient, remainder := prod / denominator, prod % denominator;
    var roundUp := match rounding
      case Down => false
      case Up => remainder > 0
      case Nearest => Min(2 * remainder, U128_MAX) >= denominator;
    if roundUp then Checked(quotient + 1) else Converted(quotient)
  }

  /** `q` is `x * y / d` under a rounding; halves go up under `Nearest`. */
  predicate Rounded(x: nat, y: nat, d: nat, rounding: Rounding, q: nat) {
    var n, p := x * y, q * d;
    match rounding
    case Down => p <= n < p + d
    case Up => p < n + d && n <= p
    case Nearest => 2 * p <= 2 * n + d && 2 * n < 2 * p + d
  }

  /** The division fails only on a zero divisor or a product over u128; otherwise it rounds as asked. */
  lemma MulDivExact(x: u128, y: u128, d: u128, rounding: Rounding)
    ensures d == 0 ==> MulDiv(x, y, d, rounding) == Failed(DivideByZero)
    ensures 0 < d && x * y > U128_MAX ==> MulDiv(x, y, d, rounding) == Failed(Overflow)
    ensures 0 < d && x * y <= U128_MAX ==>
      && MulDiv(x, y, d, rounding).Converted?
      && Rounded(x, y, d, rounding, MulDiv(x, y, d, rounding).value)
  {
    if 0 < d && x * y <= U128_MAX {
      var n := x * y;
      Split(n, d);
      Below(n, d);
      assert (n / d + 1) * d == n / d * d + d;
    }
  }

  /** An inexact quotient leaves room for one more. */
  lemma Below(n: nat, d: nat)
    requires 0 < d && n <= U128_MAX
    ensures n / d <= U128_MAX && (0 < n % d ==> n / d < U128_MAX)
    ensures d == 1 ==> n % d == 0
  {
    Split(n, d);
    MulLe(1, d, n / d);
  }

  /** At most one integer is the rounded quotient. */
  lemma RoundedUnique(x: nat, y: nat, d: nat, rounding: Rounding, q: nat, r: nat)
    requires 0 < d && Rounded(x, y, d, rounding, q) && Rounded(x, y, d, rounding, r)
    ensures q == r
  {
    Apart(q, r, d);
    Apart(r, q, d);
  }

  lemma Apart(q: nat, r: nat, d: nat)
    ensures q < r ==> q * d + d <= r * d
  {
    if q < r {
      MulLe(q + 1, r, d);
      assert (q + 1) * d == q * d + d;
    }
  }

  // ---- amounts ----

  function AtomsToUiAmount(atoms: u64, decimals: u8): Conversion<string> { Render(atoms, decimals) }

  function UiAmountToAtoms(uiAmount: string, decimals: u8): Conversion<u64> {
    var parsed :- Parsed(uiAmount);
    if parsed.1 > decimals then Failed(TooPrecise) else
    var scale :- Pow10(decimals - parsed.1);
    var atoms :- CheckedMul(parsed.0, scale);
    if atoms <= U64_MAX then Converted(atoms) else Failed(Overflow)
  }

  /** Atoms to text and back is the identity, for every amount and every scale that can be rendered. */
  lemma AmountRoundTrips(atoms: u64, decimals: u8)
    ensures AtomsToUiAmount(atoms, decimals).Converted? <==> decimals <= MAX_EXPONENT
    ensures decimals <= MAX_EXPONENT ==>
      UiAmountToAtoms(AtomsToUiAmount(atoms, decimals).value, decimals) == Converted(atoms)
  {
    Pow10Fits(decimals);
    if decimals <= MAX_EXPONENT {
      hide Parsed, Render;
      RenderParses(atoms, decimals);
      Pow10Fits(0);
      assert atoms * Power(0) == atoms;
    }
  }

  /** A text is read as exactly the amount it denotes, or refused: nothing is truncated. */
  lemma AmountExact(ui: string, decimals: u8, a: u64)
    ensures UiAmountToAtoms(ui, decimals) == Converted(a) <==>
      && Parsed(ui).Converted?
      && var (m, n) := Parsed(ui).value;
         n <= decimals <= n + MAX_EXPONENT && a * Power(n) == m * Power(decimals)
  {
    hide Parsed, Power;
    if Parsed(ui).Converted? && Parsed(ui).value.1 <= decimals {
      var (m, n) := Parsed(ui).value;
      Pow10Fits(decimals - n);
      Rescaled(a, m, n, decimals);
    }
  }

  lemma Rescaled(a: nat, m: nat, n: nat, decimals: nat)
    requires n <= decimals
    ensures a * Power(n) == m * Power(decimals) <==> a == m * Power(decimals - n)
  {
    hide Power;
    PowerAdd(decimals - n, n);
    Regroup(m, Power(decimals - n), Power(n));
    SameFactor(a, m * Power(decimals - n), Power(n));
  }

  lemma SameFactor(x: nat, y: nat, k: nat)
    requires 0 < k
    ensures x * k == y * k <==> x == y
  {
    if x < y { MulLe(x + 1, y, k); }
    if y < x { MulLe(y + 1, x, k); }
  }

  // ---- prices ----

  // `baseDecimals` and `quoteDecimals` are the mints' decimals.
  datatype Units = Units(tickSize: u64, baseLotSize: u64, baseDecimals: u8, quoteDecimals: u8) {
    /** Ticks of quote per lot, at `digits` fractional digits, in the unit of `Lot`. */
    function Tick(digits: nat): nat { tickSize * Power(baseDecimals + digits) }
    function Lot(): nat { baseLotSize * Power(quoteDecimals) }
  }

  function TickToUiPrice(tick: u32, u: Units, outDecimals: u8): Conversion<string> {
    var quoteAtomsPerLot :- CheckedMul(tick, u.tickSize);
    var basePow :- Pow10(u.baseDecimals);
    var outPow :- Pow10(outDecimals);
    var scale :- CheckedMul(basePow, outPow);
    var quotePow :- Pow10(u.quoteDecimals);
    var denominator :- CheckedMul(u.baseLotSize, quotePow);
    var scaled :- MulDiv(quoteAtomsPerLot, scale, denominator, Nearest);
    Render(scaled, outDecimals)
  }

  function UiPriceToTick(uiPrice: string, u: Units, rounding: Rounding): Conversion<u32> {
    var parsed :- Parsed(uiPrice);
    var quotePow :- Pow10(u.quoteDecimals);
    var numerator :- CheckedMul(u.baseLotSize, quotePow);
    var basePow :- Pow10(u.baseDecimals);
    var perBase :- CheckedMul(u.tickSize, basePow);
    var fracPow :- Pow10(parsed.1);
    var denominator :- CheckedMul(perBase, fracPow);
    var tick :- MulDiv(parsed.0, numerator, denominator, rounding);
    if tick <= U32_MAX then Converted(tick) else Failed(Overflow)
  }

  /** A rendered price is the nearest multiple of its last digit to `tick * Tick / Lot`. */
  lemma PriceOfTick(tick: u32, u: Units, outDecimals: u8) returns (p: nat)
    requires TickToUiPrice(tick, u, outDecimals).Converted?
    ensures outDecimals <= MAX_EXPONENT && 0 < u.Lot() && p <= U128_MAX
    ensures TickToUiPrice(tick, u, outDecimals) == Render(p, outDecimals)
    ensures Rounded(tick, u.Tick(outDecimals), u.Lot(), Nearest, p)
  {
    hide Power, Render, MulDiv, Rounded;
    Pow10Fits(outDecimals);
    var scale, lot := Power(u.baseDecimals) * Power(outDecimals), u.Lot();
    p := MulDiv(tick * u.tickSize, scale, lot, Nearest).value;
    MulDivExact(tick * u.tickSize, scale, lot, Nearest);
    PowerAdd(u.baseDecimals, outDecimals);
    RoundedRegrouped(tick, u.tickSize, scale, lot, Nearest, p);
  }

  lemma RoundedRegrouped(x: nat, y: nat, z: nat, d: nat, rounding: Rounding, q: nat)
    requires Rounded(x * y, z, d, rounding, q)
    ensures Rounded(x, y * z, d, rounding, q)
  {
    Regroup(x, y, z);
  }

  lemma Regroup(x: nat, y: nat, z: nat)
    ensures x * y * z == x * (y * z)
  {}

  /**
   A price text with mantissa `m` and `n` fractional digits is turned into a tick when
   neither scale overflows, by the rounding asked for.
   */
  lemma TickOfPrice(ui: string, u: Units, rounding: Rounding, m: u128, n: u32)
    requires Parsed(ui) == Converted((m, n))
    ensures UiPriceToTick(ui, u, rounding).Converted? ==>
      0 < u.Tick(n) && Rounded(m, u.Lot(), u.Tick(n), rounding, UiPriceToTick(ui, u, rounding).value)
    ensures UiPriceToTick(ui, u, rounding) == Failed(DivideByZero) ==> u.Tick(n) == 0
    ensures UiPriceToTick(ui, u, rounding).Converted?
      || UiPriceToTick(ui, u, rounding).error in {Overflow, DivideByZero}
  {
    hide Power, Parsed, MulDiv, Rounded;
    var t, lot := u.tickSize * Power(u.baseDecimals) * Power(n), u.Lot();
    PowerAdd(u.baseDecimals, n);
    Regroup(u.tickSize, Power(u.baseDecimals), Power(n));
    if m <= U128_MAX && lot <= U128_MAX && t <= U128_MAX { MulDivExact(m, lot, t, rounding); }
  }

  /** `Down` and `Up` give the exact floor and ceiling tick of a price, `Nearest` the closest one. */
  lemma TickExact(ui: string, u: Units, rounding: Rounding, m: u128, n: u32, t: u32)
    requires Parsed(ui) == Converted((m, n)) && UiPriceToTick(ui, u, rounding) == Converted(t)
    ensures match rounding
            case Down => t * u.Tick(n) <= m * u.Lot() < (t + 1) * u.Tick(n)
            case Up => (t - 1) * u.Tick(n) < m * u.Lot() <= t * u.Tick(n)
            case Nearest => (2 * t - 1) * u.Tick(n) <= 2 * (m * u.Lot()) < (2 * t + 1) * u.Tick(n)
  {
    hide Units.Tick, Units.Lot, Parsed, UiPriceToTick;
    TickOfPrice(ui, u, rounding, m, n);
  }

  // ---- tick to price and back ----

  /**
   Whether `Nearest` twice leads back to `tick`: how far the price was moved, in units of
   `1 / lot`, against half a tick.
   */
  predicate Recoverable(tick: nat, step: nat, lot: nat)
    requires 0 < lot
  {
    var rem := tick * step % lot;
    if 2 * rem >= lot then 2 * (lot - rem) < step else 2 * rem <= step
  }

  /** The first rounding, by its remainder. */
  lemma NearestIs(x: nat, y: nat, d: nat, p: nat)
    requires 0 < d && Rounded(x, y, d, Nearest, p)
    ensures var n := x * y;
      p * d == if 2 * (n % d) >= d then n + (d - n % d) else n - n % d
  {
    var n := x * y;
    Split(n, d);
    var q := n / d;
    assert (q + 1) * d == q * d + d;
    RoundedUnique(x, y, d, Nearest, p, if 2 * (n % d) >= d then q + 1 else q);
  }

  lemma RecoverableExact(tick: nat, step: nat, lot: nat, p: nat)
    requires 0 < lot && 0 < step && Rounded(tick, step, lot, Nearest, p)
    ensures Rounded(p, lot, step, Nearest, tick) <==> Recoverable(tick, step, lot)
  {
    NearestIs(tick, step, lot, p);
  }

  /** A price scale at least as fine as the ticks always leads back. */
  lemma FineScaleRecovers(tick: nat, step: nat, lot: nat)
    requires 0 < lot <= step
    ensures Recoverable(tick, step, lot)
  {
    var rem := tick * step % lot;
    Split(tick * step, lot);
    if 2 * rem >= lot && lot == step {
      Exact(tick, step);
    }
  }

  lemma Exact(q: nat, d: nat)
    requires 0 < d
    ensures q * d % d == 0
  {
    DivUnique(q * d, d, q);
    Split(q * d, d);
  }

  /** Tick to price to tick: the way back succeeds exactly when the tick is recoverable. */
  lemma PriceRoundTripsExactly(tick: u32, u: Units, outDecimals: u8)
    requires TickToUiPrice(tick, u, outDecimals).Converted?
    requires UiPriceToTick(TickToUiPrice(tick, u, outDecimals).value, u, Nearest).Converted?
    ensures 0 < u.Lot()
    ensures UiPriceToTick(TickToUiPrice(tick, u, outDecimals).value, u, Nearest) == Converted(tick)
      <==> Recoverable(tick, u.Tick(outDecimals), u.Lot())
  {
    hide Units.Tick, Units.Lot, Rounded, Recoverable, Parsed, Render, TickToUiPrice, UiPriceToTick;
    var p := PriceOfTick(tick, u, outDecimals);
    RenderParses(p, outDecimals);
    var ui := TickToUiPrice(tick, u, outDecimals).value;
    TickOfPrice(ui, u, Nearest, p, outDecimals);
    RecoverableExact(tick, u.Tick(outDecimals), u.Lot(), p);
    var back := UiPriceToTick(ui, u, Nearest).value;
    if Recoverable(tick, u.Tick(outDecimals), u.Lot()) {
      RoundedUnique(p, u.Lot(), u.Tick(outDecimals), Nearest, back, tick);
    }
  }

  /** At a fine enough price scale no call returns a different tick: it is the same one or an overflow. */
  lemma PriceRoundTrips(tick: u32, u: Units, outDecimals: u8)
    requires u.Lot() <= u.Tick(outDecimals)
    requires TickToUiPrice(tick, u, outDecimals).Converted?
    ensures UiPriceToTick(TickToUiPrice(tick, u, outDecimals).value, u, Nearest) in {Converted(tick), Failed(Overflow)}
  {
    hide Units.Tick, Units.Lot, Rounded, Recoverable, Parsed, Render, TickToUiPrice, UiPriceToTick;
    var p := PriceOfTick(tick, u, outDecimals);
    RenderParses(p, outDecimals);
    var ui := TickToUiPrice(tick, u, outDecimals).value;
    TickOfPrice(ui, u, Nearest, p, outDecimals);
    if UiPriceToTick(ui, u, Nearest).Converted? {
      FineScaleRecovers(tick, u.Tick(outDecimals), u.Lot());
      PriceRoundTripsExactly(tick, u, outDecimals);
    }
  }

  /** A coarse scale loses ticks: one atom a tick, ten atoms a lot, no decimals, and tick 1 comes back as 0. */
  lemma CoarsePriceLosesTick()
    ensures var u := Units(1, 10, 0, 0);
      && TickToUiPrice(1, u, 0) == Converted("0")
      && UiPriceToTick("0", u, Nearest) == Converted(0)
  {
    assert Power(0) == 1;
    WholeParses("0", 0);
  }
}
