/** The MassQuote wire format: the client's encoder against the program's decoder. */
module Codec {
  import opened Base
  import opened Merging

  const DISCRIMINATOR: u8 := 20
  const HEADER: nat := 6
  const QUOTE_LEN: nat := 9

  datatype Args = Args(seat: u16, expiry: u32, bids: seq<Quote>, asks: seq<Quote>)

  // ---- little-endian fields ----

  function LeU16(x: u16): seq<u8> { [x % 0x100, x / 0x100] }

  function LeU32(x: u32): seq<u8> {
    [x % 0x100, x / 0x100 % 0x100, x / 0x1_0000 % 0x100, x / 0x100_0000]
  }

  function FromLeU16(a: u8, b: u8): u16 { a + 0x100 * b }

  function FromLeU32(a: u8, b: u8, c: u8, d: u8): u32 { a + 0x100 * b + 0x1_0000 * c + 0x100_0000 * d }

  lemma LeU16Inverse(x: u16, a: u8, b: u8)
    ensures FromLeU16(LeU16(x)[0], LeU16(x)[1]) == x
    ensures LeU16(FromLeU16(a, b)) == [a, b]
  {}

  /** Dropping one byte: the quotient and the byte dropped. */
  lemma Drop(a: u8, rest: nat)
    ensures (a + 0x100 * rest) % 0x100 == a && (a + 0x100 * rest) / 0x100 == rest
  {}

  lemma DropTwice(x: nat)
    ensures x / 0x1_0000 == x / 0x100 / 0x100 && x / 0x100_0000 == x / 0x100 / 0x100 / 0x100
  {}

  lemma LeU32Inverse(x: u32, a: u8, b: u8, c: u8, d: u8)
    ensures var s := LeU32(x);
      FromLeU32(s[0], s[1], s[2], s[3]) == x
    ensures LeU32(FromLeU32(a, b, c, d)) == [a, b, c, d]
  {
    DropTwice(x);
    var y := FromLeU32(a, b, c, d);
    DropTwice(y);
    Drop(a, b + 0x100 * c + 0x1_0000 * d);
    Drop(b, c + 0x100 * d);
    Drop(c, d);
  }

  // ---- the encoder ----

  /** A growing byte vector. */
  class Bytes {
    var data: seq<u8>

    constructor ()
      ensures data == []
    {
      data := [];
    }

    method Push(b: u8)
      modifies this
      ensures data == old(data) + [b]
    {
      data := data + [b];
    }

    method Extend(s: seq<u8>)
      modifies this
      ensures data == old(data) + s
    {
      data := data + s;
    }
  }

  function QuoteBytes(q: Quote): (s: seq<u8>)
    ensures |s| == QUOTE_LEN
  {
    LeU32(q.tick) + LeU32(q.lots) + [q.flags]
  }

  ghost function QuotesBytes(qs: seq<Quote>): (s: seq<u8>)
    ensures |s| == |qs| * QUOTE_LEN
  {
    if qs == [] then [] else QuotesBytes(qs[..|qs| - 1]) + QuoteBytes(qs[|qs| - 1])
  }

  /** One side: its length, then its quotes. */
  ghost function SideBytes(qs: seq<Quote>): seq<u8>
    requires |qs| <= 0xFF
  {
    [|qs| as u8] + QuotesBytes(qs)
  }

  ghost function Payload(a: Args): seq<u8>
    requires |a.bids| <= 0xFF && |a.asks| <= 0xFF
  {
    LeU16(a.seat) + LeU32(a.expiry) + SideBytes(a.bids) + SideBytes(a.asks)
  }

  method EncodeQuote(out: Bytes, quote: Quote)
    modifies out
    ensures out.data == old(out.data) + QuoteBytes(quote)
  {
    out.Extend(LeU32(quote.tick));
    out.Extend(LeU32(quote.lots));
    out.Push(quote.flags);
  }

  method EncodeSide(out: Bytes, qs: seq<Quote>)
    requires |qs| <= 0xFF
    modifies out
    ensures out.data == old(out.data) + SideBytes(qs)
  {
    out.Push(|qs|);
    for i := 0 to |qs|
      invariant out.data == old(out.data) + [|qs| as u8] + QuotesBytes(qs[..i])
    {
      EncodeQuote(out, qs[i]);
      assert qs[..i + 1][..i] == qs[..i];
    }
    assert qs[..|qs|] == qs;
  }

  /** `MassQuote::instruction`: the data bytes, unless a side holds more than 255 quotes. */
  method Encode(a: Args) returns (r: Option<seq<u8>>)
    ensures r.None? <==> |a.bids| > 0xFF || |a.asks| > 0xFF
    ensures r.Some? ==> r.value == [DISCRIMINATOR] + Payload(a)
  {
    if |a.bids| > 0xFF || |a.asks| > 0xFF { return None; }
    var out := new Bytes();
    out.Push(DISCRIMINATOR);
    out.Extend(LeU16(a.seat));
    out.Extend(LeU32(a.expiry));
    EncodeSide(out, a.bids);
    EncodeSide(out, a.asks);
    r := Some(out.data);
  }

  // ---- the decoder ----

  // The decoder keeps slices of the payload; the merge parses quotes as it goes.
  datatype InstructionData = InstructionData(
    seatIndex: u16, expirySlot: u32, bidCount: nat, askCount: nat, bids: seq<u8>, asks: seq<u8>)

  /** The program's decoder, on the bytes after the discriminator. */
  function TryFrom(data: seq<u8>): (r: Option<InstructionData>)
    ensures r.Some? ==>
      |r.value.bids| == r.value.bidCount * QUOTE_LEN && |r.value.asks| == r.value.askCount * QUOTE_LEN
  {
    if |data| < HEADER + 2 then None else
    var bidCount, bidsStart := data[HEADER], HEADER + 1;
    var asksLenAt := bidsStart + bidCount * QUOTE_LEN;
    if |data| < asksLenAt + 1 then None else
    var askCount, asksStart := data[asksLenAt], asksLenAt + 1;
    if |data| != asksStart + askCount * QUOTE_LEN then None else
    Some(InstructionData(
      FromLeU16(data[0], data[1]), FromLeU32(data[2], data[3], data[4], data[5]),
      bidCount, askCount, data[bidsStart..asksLenAt], data[asksStart..]))
  }

  /** `Quote::parse`: the `i`-th quote of a slice. */
  function Parse(data: seq<u8>, i: nat): Quote
    requires (i + 1) * QUOTE_LEN <= |data|
  {
    var p := i * QUOTE_LEN;
    Quote(FromLeU32(data[p], data[p + 1], data[p + 2], data[p + 3]),
          FromLeU32(data[p + 4], data[p + 5], data[p + 6], data[p + 7]), data[p + 8])
  }

  ghost function Quotes(data: seq<u8>, n: nat): (qs: seq<Quote>)
    requires n * QUOTE_LEN == |data|
    ensures |qs| == n
  {
    seq(n, i requires 0 <= i < n => Parse(data, i))
  }

  /** What a decoded payload asks for. */
  ghost function Decoded(data: seq<u8>): Option<Args> {
    match TryFrom(data)
    case None => None
    case Some(d) => Some(Args(d.seatIndex, d.expirySlot, Quotes(d.bids, d.bidCount), Quotes(d.asks, d.askCount)))
  }

  // ---- one quote, then a side ----

  lemma ParseOne(data: seq<u8>, i: nat, q: Quote)
    requires (i + 1) * QUOTE_LEN <= |data|
    ensures Parse(data, i) == q <==> data[i * QUOTE_LEN..(i + 1) * QUOTE_LEN] == QuoteBytes(q)
  {
    var s := data[i * QUOTE_LEN..(i + 1) * QUOTE_LEN];
    LeU32Inverse(q.tick, s[0], s[1], s[2], s[3]);
    LeU32Inverse(q.lots, s[4], s[5], s[6], s[7]);
    assert s == [s[0], s[1], s[2], s[3]] + [s[4], s[5], s[6], s[7]] + [s[8]];
  }

  /** The last quote of a slice, and the slice before it. */
  lemma QuotesSplit(data: seq<u8>, n: nat)
    requires 0 < n && n * QUOTE_LEN == |data|
    ensures var head := data[..(n - 1) * QUOTE_LEN];
      Quotes(data, n) == Quotes(head, n - 1) + [Parse(data, n - 1)]
  {}

  lemma SameHalves<T>(a: seq<T>, b: seq<T>, c: seq<T>, d: seq<T>)
    requires |a| == |c|
    ensures a + b == c + d <==> a == c && b == d
  {
    if a + b == c + d {
      assert a == (a + b)[..|a|] && b == (a + b)[|a|..];
      assert c == (c + d)[..|c|] && d == (c + d)[|c|..];
    }
  }

  /** A slice parses to the quotes it was encoded from, and to no others. */
  lemma {:induction false} SliceInverse(data: seq<u8>, n: nat, qs: seq<Quote>)
    requires n * QUOTE_LEN == |data| && |qs| == n
    ensures Quotes(data, n) == qs <==> data == QuotesBytes(qs)
  {
    hide Quotes, Parse, QuoteBytes;
    if n > 0 {
      var k := (n - 1) * QUOTE_LEN;
      var front, last := qs[..n - 1], qs[n - 1];
      SliceInverse(data[..k], n - 1, front);
      QuotesSplit(data, n);
      ParseOne(data, n - 1, last);
      assert qs == front + [last] && data == data[..k] + data[k..];
      SameHalves(data[..k], data[k..], QuotesBytes(front), QuoteBytes(last));
      SameHalves(Quotes(data[..k], n - 1), [Parse(data, n - 1)], front, [last]);
    }
  }

  // ---- the round trips ----

  /** Where the decoder looks for each part of an encoded payload. */
  lemma PayloadParts(a: Args)
    requires |a.bids| <= 0xFF && |a.asks| <= 0xFF
    ensures var data, mid := Payload(a), HEADER + 1 + |a.bids| * QUOTE_LEN;
      && |data| == mid + 1 + |a.asks| * QUOTE_LEN
      && data[..2] == LeU16(a.seat) && data[2..HEADER] == LeU32(a.expiry)
      && data[HEADER] == |a.bids| && data[HEADER + 1..mid] == QuotesBytes(a.bids)
      && data[mid] == |a.asks| && data[mid + 1..] == QuotesBytes(a.asks)
  {}

  /** An accepted payload, part by part. */
  lemma AcceptedParts(data: seq<u8>)
    requires TryFrom(data).Some?
    ensures var d := TryFrom(data).value;
      var mid := HEADER + 1 + d.bidCount * QUOTE_LEN;
      && mid < |data| && d.bidCount == data[HEADER] && d.askCount == data[mid]
      && d.bids == data[HEADER + 1..mid] && d.asks == data[mid + 1..]
      && LeU16(d.seatIndex) == data[..2] && LeU32(d.expirySlot) == data[2..HEADER]
  {
    hide LeU16, LeU32, FromLeU16, FromLeU32;
    LeU16Inverse(0, data[0], data[1]);
    LeU32Inverse(0, data[2], data[3], data[4], data[5]);
    assert data[..2] == [data[0], data[1]] && data[2..HEADER] == [data[2], data[3], data[4], data[5]];
  }

  lemma Sliced(data: seq<u8>, mid: nat)
    requires HEADER < mid < |data|
    ensures data == data[..2] + data[2..HEADER] + ([data[HEADER]] + data[HEADER + 1..mid])
      + ([data[mid]] + data[mid + 1..])
  {}

  /** A payload is rebuilt from what the decoder read from it. */
  lemma Rebuilt(data: seq<u8>, a: Args)
    requires Decoded(data) == Some(a)
    ensures |a.bids| <= 0xFF && |a.asks| <= 0xFF && Payload(a) == data
  {
    hide TryFrom, LeU16, LeU32, QuotesBytes, Quotes;
    var d := TryFrom(data).value;
    AcceptedParts(data);
    SliceInverse(d.bids, d.bidCount, a.bids);
    SliceInverse(d.asks, d.askCount, a.asks);
    Sliced(data, HEADER + 1 + d.bidCount * QUOTE_LEN);
  }

  /** Decoding what the client encodes returns its arguments. */
  lemma DecodeEncoded(a: Args)
    requires |a.bids| <= 0xFF && |a.asks| <= 0xFF
    ensures Decoded(Payload(a)) == Some(a)
  {
    hide Payload, LeU16, LeU32, FromLeU16, FromLeU32, QuotesBytes, Quotes;
    var data, mid := Payload(a), HEADER + 1 + |a.bids| * QUOTE_LEN;
    PayloadParts(a);
    LeU16Inverse(a.seat, 0, 0);
    LeU32Inverse(a.expiry, 0, 0, 0, 0);
    SliceInverse(data[HEADER + 1..mid], |a.bids|, a.bids);
    SliceInverse(data[mid + 1..], |a.asks|, a.asks);
    assert data[0] == data[..2][0] && data[1] == data[..2][1];
    assert forall i | 0 <= i < 4 :: data[2 + i] == data[2..HEADER][i];
  }

  /** The accepted payloads are exactly the encodings, and each is read as what it encodes. */
  lemma DecodesExactly(data: seq<u8>, a: Args)
    ensures Decoded(data) == Some(a) <==> |a.bids| <= 0xFF && |a.asks| <= 0xFF && Payload(a) == data
  {
    if Decoded(data) == Some(a) { Rebuilt(data, a); }
    if |a.bids| <= 0xFF && |a.asks| <= 0xFF { DecodeEncoded(a); }
  }
}
