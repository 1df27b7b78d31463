/** Unsigned decimals as text: what the client's scale module renders and parses. */
module Decimals {
  import opened Base

  const U128_MAX: int := 0xFFFF_FFFF_FFFF_FFFF_FFFF_FFFF_FFFF_FFFF
  const MAX_EXPONENT: nat := 38

  type u128 = x: int | 0 <= x <= U128_MAX

  datatype ScaleError = Malformed | TooPrecise | Overflow | DivideByZero

  datatype Conversion<+T> = Converted(value: T) | Failed(error: ScaleError) {
    predicate IsFailure() { Failed? }

    function PropagateFailure<U>(): Conversion<U>
      requires Failed?
    {
      Failed(error)
    }

    function Extract(): T
      requires Converted?
    {
      value
    }
  }

  /** A checked u128 operation. */
  function Checked(x: nat): Conversion<u128> { if x <= U128_MAX then Converted(x) else Failed(Overflow) }

  function CheckedMul(x: u128, y: u128): Conversion<u128> { Checked(x * y) }

  // ---- powers of ten ----

  function Power(e: nat): (r: nat)
    ensures 0 < r
  {
    if e == 0 then 1 else 10 * Power(e - 1)
  }

  /** `pow10`: a checked power. */
  function Pow10(e: nat): Conversion<u128> { Checked(Power(e)) }

  lemma {:induction false} PowerMono(a: nat, b: nat)
    requires a <= b
    ensures Power(a) <= Power(b)
  {
    if a < b { PowerMono(a, b - 1); }
  }

  lemma {:induction false} PowerAdd(a: nat, b: nat)
    ensures Power(a + b) == Power(a) * Power(b)
  {
    if b > 0 {
      PowerAdd(a, b - 1);
      assert Power(a) * (10 * Power(b - 1)) == 10 * (Power(a) * Power(b - 1));
    }
  }

  lemma PowerLimit()
    ensures Power(38) <= U128_MAX < Power(39)
  {
    assert Power(10) == 100_0000_0000;
    assert Power(20) == 100_0000_0000 * 100_0000_0000 by { PowerAdd(10, 10); }
    assert Power(30) == Power(20) * 100_0000_0000 by { PowerAdd(20, 10); }
    assert Power(38) == Power(30) * 1_0000_0000 by { assert Power(8) == 1_0000_0000; PowerAdd(30, 8); }
  }

  /** Powers up to 10^38 fit u128, and no others. */
  lemma Pow10Fits(e: nat)
    ensures Pow10(e).Converted? <==> e <= MAX_EXPONENT
  {
    PowerLimit();
    if e <= MAX_EXPONENT { PowerMono(e, MAX_EXPONENT); } else { PowerMono(MAX_EXPONENT + 1, e); }
  }

  // ---- digits ----

  predicate IsDigit(c: char) { '0' <= c <= '9' }

  function DigitOf(c: char): (d: nat)
    requires IsDigit(c)
    ensures d < 10
  {
    c as int - '0' as int
  }

  function DigitChar(d: nat): (c: char)
    requires d < 10
    ensures IsDigit(c) && DigitOf(c) == d
  {
    ('0' as int + d) as char
  }

  predicate AllDigits(s: string) { forall i | 0 <= i < |s| :: IsDigit(s[i]) }

  /** The number a string of digits denotes. */
  function Value(s: string): nat
    requires AllDigits(s)
  {
    if s == [] then 0 else 10 * Value(s[..|s| - 1]) + DigitOf(s[|s| - 1])
  }

  function ToString(v: nat): (s: string)
    ensures s != [] && AllDigits(s)
  {
    if v < 10 then [DigitChar(v)] else ToString(v / 10) + [DigitChar(v % 10)]
  }

  function Zeros(n: nat): (s: string)
    ensures |s| == n && AllDigits(s)
  {
    seq(n, _ => '0')
  }

  /** Zero-padded to a width. */
  function Padded(v: nat, width: nat): (s: string)
    ensures AllDigits(s)
  {
    var t := ToString(v);
    if |t| < width then Zeros(width - |t|) + t else t
  }

  lemma {:induction false} ValueOfString(v: nat)
    ensures Value(ToString(v)) == v
  {
    if v >= 10 {
      ValueOfString(v / 10);
      assert ToString(v)[..|ToString(v)| - 1] == ToString(v / 10);
    }
  }

  lemma {:induction false} StringLength(v: nat, w: nat)
    requires v < Power(w) && 0 < w
    ensures |ToString(v)| <= w
  {
    if v >= 10 {
      assert 1 < w && v / 10 < Power(w - 1);
      StringLength(v / 10, w - 1);
    }
  }

  lemma {:induction false} ValueConcat(a: string, b: string)
    requires AllDigits(a) && AllDigits(b)
    ensures AllDigits(a + b) && Value(a + b) == Value(a) * Power(|b|) + Value(b)
  {
    if b == [] {
      assert a + b == a;
    } else {
      var c := b[..|b| - 1];
      ValueConcat(a, c);
      assert (a + b)[..|a + b| - 1] == a + c;
      assert 10 * (Value(a) * Power(|c|)) == Value(a) * (10 * Power(|c|));
    }
  }

  lemma {:induction false} ValueOfZeros(n: nat)
    ensures Value(Zeros(n)) == 0
  {
    if n > 0 {
      assert Zeros(n)[..n - 1] == Zeros(n - 1);
      ValueOfZeros(n - 1);
    }
  }

  lemma PaddedIs(v: nat, width: nat)
    requires v < Power(width) && 0 < width
    ensures |Padded(v, width)| == width && Value(Padded(v, width)) == v
  {
    StringLength(v, width);
    ValueOfString(v);
    var n := width - |ToString(v)|;
    ValueOfZeros(n);
    ValueConcat(Zeros(n), ToString(v));
  }

  // ---- rendering ----

  /** `value / 10^decimals` with all its decimals. */
  function Render(value: u128, decimals: u8): Conversion<string> {
    var pow :- Pow10(decimals);
    if decimals == 0 then Converted(ToString(value))
    else Converted(ToString(value / pow) + "." + Padded(value % pow, decimals))
  }

  // ---- parsing ----

  // The code points with the White_Space property.
  predicate IsSpace(c: char) {
    var x := c as int;
    || 0x9 <= x <= 0xD || x == 0x20 || x == 0x85 || x == 0xA0 || x == 0x1680 || 0x2000 <= x <= 0x200A
    || x == 0x2028 || x == 0x2029 || x == 0x202F || x == 0x205F || x == 0x3000
  }

  function TrimStart(s: string): string {
    if s != [] && IsSpace(s[0]) then TrimStart(s[1..]) else s
  }

  function TrimEnd(s: string): string {
    if s != [] && IsSpace(s[|s| - 1]) then TrimEnd(s[..|s| - 1]) else s
  }

  function Trim(s: string): string { TrimEnd(TrimStart(s)) }

  /** The position of the first point, or the length. */
  function Point(s: string): (i: nat)
    ensures i <= |s| && (i < |s| ==> s[i] == '.') && forall j | 0 <= j < i :: s[j] != '.'
  {
    if s == [] || s[0] == '.' then 0 else 1 + Point(s[1..])
  }

  function IntPart(s: string): string { s[..Point(s)] }
  function FracPart(s: string): string { if Point(s) < |s| then s[Point(s) + 1..] else "" }

  /** Digits read one by one, each step checked; the first bad character or overflow decides. */
  function Read(s: string): Conversion<u128> {
    if s == [] then Converted(0) else
    var mantissa :- Read(s[..|s| - 1]);
    if !IsDigit(s[|s| - 1]) then Failed(Malformed) else Checked(10 * mantissa + DigitOf(s[|s| - 1]))
  }

  /** Mantissa and number of fractional digits, the latter cut to u32. */
  function Parsed(s: string): Conversion<(u128, u32)> {
    var t := Trim(s);
    if IntPart(t) == "" && FracPart(t) == "" then Failed(Malformed) else
    var mantissa :- Read(IntPart(t) + FracPart(t));
    Converted((mantissa, |FracPart(t)| % 0x1_0000_0000))
  }

  /** `parse_decimal` as it runs: both parts in one pass over a mantissa. */
  method ParseDecimal(s: string) returns (r: Conversion<(u128, u32)>)
    ensures r == Parsed(s)
  {
    hide Trim, Read, Checked, IsDigit;
    var t := Trim(s);
    var intPart, fracPart := IntPart(t), FracPart(t);
    if intPart == "" && fracPart == "" { return Failed(Malformed); }
    var digits := intPart + fracPart;
    var mantissa: u128 := 0;
    ReadNothing();
    for i := 0 to |digits|
      invariant Read(digits[..i]) == Converted(mantissa)
    {
      ReadStep(digits, i, mantissa);
      if !IsDigit(digits[i]) || 10 * mantissa > U128_MAX || 10 * mantissa + DigitOf(digits[i]) > U128_MAX {
        ReadFails(digits, i + 1);
        return Failed(if IsDigit(digits[i]) then Overflow else Malformed);
      }
      mantissa := 10 * mantissa + DigitOf(digits[i]);
    }
    assert digits[..|digits|] == digits;
    return Converted((mantissa, |fracPart| % 0x1_0000_0000));
  }

  lemma ReadNothing()
    ensures Read("") == Converted(0)
  {}

  lemma ReadStep(s: string, i: nat, m: u128)
    requires i < |s| && Read(s[..i]) == Converted(m)
    ensures !IsDigit(s[i]) ==> Read(s[..i + 1]) == Failed(Malformed)
    ensures IsDigit(s[i]) ==>
      Read(s[..i + 1]) == if 10 * m + DigitOf(s[i]) <= U128_MAX then Converted(10 * m + DigitOf(s[i]))
        else Failed(Overflow)
  {
    assert s[..i + 1][..i] == s[..i];
  }

  /** An error in a prefix is the error of the whole. */
  lemma {:induction false} ReadFails(s: string, n: nat)
    requires n <= |s| && Read(s[..n]).Failed?
    ensures Read(s) == Read(s[..n])
    decreases |s|
  {
    if n < |s| {
      assert s[..|s| - 1][..n] == s[..n];
      ReadFails(s[..|s| - 1], n);
    } else {
      assert s[..n] == s;
    }
  }

  /** Reading yields exactly the value of the digits, while it fits. */
  lemma {:induction false} ReadIs(s: string, v: nat)
    ensures Read(s) == Converted(v) <==> AllDigits(s) && Value(s) == v && v <= U128_MAX
  {
    if s != [] {
      var front := s[..|s| - 1];
      if AllDigits(front) { ReadIs(front, Value(front)); }
      if Read(front).Converted? { ReadIs(front, Read(front).value); }
      assert AllDigits(s) <==> AllDigits(front) && IsDigit(s[|s| - 1]);
    }
  }

  /** A parse succeeds exactly on digits around at most one point, once trimmed. */
  lemma ParsedIs(s: string, m: nat, n: nat)
    ensures var t := Trim(s);
      Parsed(s) == Converted((m, n)) <==>
        && AllDigits(IntPart(t) + FracPart(t)) && IntPart(t) + FracPart(t) != ""
        && Value(IntPart(t) + FracPart(t)) == m && m <= U128_MAX && n == |FracPart(t)| % 0x1_0000_0000
  {
    var t := Trim(s);
    ReadIs(IntPart(t) + FracPart(t), m);
  }

  // ---- what is rendered parses back ----

  lemma NothingToTrim(s: string)
    requires s != [] && !IsSpace(s[0]) && !IsSpace(s[|s| - 1])
    ensures Trim(s) == s
  {}

  lemma SplitAt(a: string, b: string)
    requires AllDigits(a)
    ensures IntPart(a) == a && FracPart(a) == ""
    ensures IntPart(a + "." + b) == a && FracPart(a + "." + b) == b
  {
    var s := a + "." + b;
    assert s[|a|] == '.';
    assert forall i | 0 <= i < |a| :: s[i] == a[i] && IsDigit(s[i]);
    assert Point(s) == |a| && Point(a) == |a|;
  }

  lemma Split(value: nat, pow: nat)
    requires 0 < pow
    ensures value / pow * pow + value % pow == value && 0 <= value % pow < pow && 0 <= value / pow
  {}

  /** The digits around the point read as the scaled integer. */
  lemma RenderedDigits(q: nat, r: nat, decimals: nat)
    requires 0 < decimals && r < Power(decimals)
    ensures var a, b := ToString(q), Padded(r, decimals);
      AllDigits(a + b) && Value(a + b) == q * Power(decimals) + r && |b| == decimals
  {
    hide ToString, Padded, Value, Power;
    PaddedIs(r, decimals);
    ValueOfString(q);
    ValueConcat(ToString(q), Padded(r, decimals));
  }

  lemma PlainParses(a: string, b: string, v: u128)
    requires a != "" && b != "" && AllDigits(a) && AllDigits(b) && AllDigits(a + b) && Value(a + b) == v && |b| <= 0xFF
    ensures Parsed(a + "." + b) == Converted((v, |b|))
  {
    hide Trim, Parsed, IntPart, FracPart, Value;
    NothingToTrim(a + "." + b);
    SplitAt(a, b);
    ParsedIs(a + "." + b, v, |b|);
  }

  lemma WholeParses(a: string, v: u128)
    requires a != "" && AllDigits(a) && Value(a) == v
    ensures Parsed(a) == Converted((v, 0))
  {
    hide Trim, Parsed, IntPart, FracPart, Value;
    NothingToTrim(a);
    SplitAt(a, "");
    assert a + "" == a;
    ParsedIs(a, v, 0);
  }

  lemma RenderParses(value: u128, decimals: u8)
    requires decimals <= MAX_EXPONENT
    ensures Render(value, decimals).Converted?
    ensures Parsed(Render(value, decimals).value) == Converted((value, decimals))
  {
    hide Parsed, ToString, Padded, Value, Power;
    Pow10Fits(decimals);
    if decimals == 0 {
      ValueOfString(value);
      WholeParses(ToString(value), value);
    } else {
      var pow := Power(decimals);
      Split(value, pow);
      RenderedDigits(value / pow, value % pow, decimals);
      PlainParses(ToString(value / pow), Padded(value % pow, decimals), value);
    }
  }
}
