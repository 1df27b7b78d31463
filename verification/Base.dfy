/** Machine integers, error codes and the wrapping counters shared by every module. */
module Base {
  const U16_MAX: int := 0xFFFF
  const U32_MAX: int := 0xFFFF_FFFF
  const U64_MAX: int := 0xFFFF_FFFF_FFFF_FFFF
  const U64_MODULUS: int := 0x1_0000_0000_0000_0000

  // A value of one of these types is in range wherever it is stored, so giving
  // an implicit (unchecked) machine operation this result type is a proof that
  // it cannot overflow.
  type u8 = x: int | 0 <= x <= 0xFF
  type u16 = x: int | 0 <= x <= 0xFFFF
  type u32 = x: int | 0 <= x <= 0xFFFF_FFFF
  type u64 = x: int | 0 <= x <= 0xFFFF_FFFF_FFFF_FFFF

  datatype Option<+T> = None | Some(value: T)

  datatype Result<+T> = Ok(value: T) | Err(error: Error)

  datatype Error =
    | TickOutOfWindow
    | InvalidLots
    | PoolFull
    | OrderNotFound
    | WouldCross
    | PayloadNotSorted
    | TooManyOrders
    | SlippageExceeded
    | SelfTrade
    | InvalidFee
    | InvalidMarketParams
    | InsufficientBalance
    | InvalidState
    | ArithmeticOverflow
    | InvalidSeatIndex
    | TransferFailed
    | VaultShort

  // The explicit wrapping operations of the program.
  function WrappingAdd(a: int, b: int): u64 { (a + b) % U64_MODULUS }
  function WrappingSub(a: int, b: int): u64 { (a - b) % U64_MODULUS }

  lemma WrapBack(a: nat, b: nat)
    ensures WrappingSub((a + b) % U64_MODULUS, b) == a % U64_MODULUS
    ensures WrappingAdd(a % U64_MODULUS, b) == (a + b) % U64_MODULUS
  {}

  lemma WrapsNot(a: int, b: int)
    requires 0 <= a + b <= U64_MAX
    ensures WrappingAdd(a, b) == a + b
  {}

  function Min(a: int, b: int): int { if a < b then a else b }
  function Max(a: int, b: int): int { if a < b then b else a }

  /** The product `a * b`, by repeated addition: nonlinear facts enter a proof only where asked for. */
  function Times(a: nat, b: nat): nat {
    if b == 0 then 0 else Times(a, b - 1) + a
  }

  lemma {:induction false} TimesIs(a: nat, b: nat)
    ensures Times(a, b) == a * b
  {
    if b > 0 {
      TimesIs(a, b - 1);
      assert a * b == a * (b - 1) + a;
    }
  }

  lemma {:induction false} TimesAdd(a: nat, x: nat, y: nat)
    ensures Times(a, x + y) == Times(a, x) + Times(a, y)
  {
    if y > 0 { TimesAdd(a, x, y - 1); }
  }

  lemma {:induction false} TimesMono(a: nat, b: nat, x: nat, y: nat)
    requires a <= b && x <= y
    ensures Times(a, x) <= Times(b, y)
  {
    if x > 0 { TimesMono(a, b, x - 1, y - 1); }
  }

  /** The quotient `a / b`, by repeated subtraction. */
  function Quotient(a: nat, b: nat): nat
    requires 0 < b
  {
    if a < b then 0 else 1 + Quotient(a - b, b)
  }

  lemma {:induction false} QuotientIs(a: nat, b: nat)
    requires 0 < b
    ensures Times(b, Quotient(a, b)) <= a < Times(b, Quotient(a, b)) + b
  {
    if b <= a {
      QuotientIs(a - b, b);
      assert Quotient(a, b) == 1 + Quotient(a - b, b);
    }
  }

  // ---- products and quotients the solver should not search for ----

  lemma MulLe(x: nat, y: nat, k: nat)
    requires x <= y
    ensures x * k <= y * k
  {}

  lemma DivBounds(x: nat, d: nat)
    requires 0 < d
    ensures x / d * d <= x < (x / d + 1) * d
  {}

  lemma DivUnique(x: nat, d: nat, q: nat)
    requires 0 < d && q * d <= x < (q + 1) * d
    ensures x / d == q
  {
    DivBounds(x, d);
    if x / d < q { MulLe(x / d + 1, q, d); }
    if q < x / d { MulLe(q + 1, x / d, d); }
  }
}
