/**
 The two-level occupancy bitmap over the ring of 8,192 ticks: 128 leaf words and
 a two-word summary whose bit `w` says that leaf word `w` is non-zero.
 */
module Bitmaps {
  import opened Base
  import opened Words

  const WINDOW_TICKS: nat := 8192
  const WINDOW_MASK: nat := 8191
  const LEAF_WORDS: nat := 128

  /** `tick & WINDOW_MASK`: the ring position of a tick. */
  function Slot(tick: nat): (p: nat)
    ensures p < WINDOW_TICKS
  {
    tick % WINDOW_TICKS
  }

  /** `r` is the least element of `s` in `[lo, hi)`. */
  ghost predicate IsLeast(s: set<nat>, lo: int, hi: int, r: Option<nat>) {
    match r
    case None => forall p | p in s :: !(lo <= p < hi)
    case Some(p) => p in s && lo <= p < hi && forall q | q in s && lo <= q < hi :: p <= q
  }

  /** `r` is the greatest element of `s` in `[lo, hi]`. */
  ghost predicate IsGreatest(s: set<nat>, lo: int, hi: int, r: Option<nat>) {
    match r
    case None => forall p | p in s :: !(lo <= p <= hi)
    case Some(p) => p in s && lo <= p <= hi && forall q | q in s && lo <= q <= hi :: q <= p
  }

  /** The set ring positions. */
  ghost function Positions(leaves: seq<bv64>): set<nat>
    requires |leaves| == LEAF_WORDS
  {
    set p: nat | p < WINDOW_TICKS && Has(leaves[p / 64], p % 64)
  }

  /** A summary bit is set exactly when its leaf word is non-zero. */
  ghost predicate Summarizes(summary: seq<bv64>, leaves: seq<bv64>) {
    && |summary| == 2 && |leaves| == LEAF_WORDS
    && forall w: nat | w < LEAF_WORDS :: Has(summary[w / 64], w % 64) <==> leaves[w] != 0
  }

  lemma EmptyWord(leaves: seq<bv64>, w: nat)
    requires |leaves| == LEAF_WORDS && w < LEAF_WORDS && leaves[w] == 0
    ensures forall p | p in Positions(leaves) :: p / 64 != w
  {
    ZeroHasNothing(leaves[w]);
  }

  /** A summary word whose bits from `w` on are clear: those leaf words are zero. */
  lemma ClearFrom(summary: seq<bv64>, leaves: seq<bv64>, w: nat)
    requires Summarizes(summary, leaves) && w < LEAF_WORDS
    requires KeepFrom(summary[w / 64], w % 64) == 0
    ensures forall x: nat | w <= x < (w / 64 + 1) * 64 :: x < LEAF_WORDS && leaves[x] == 0
  {
    var sm := KeepFrom(summary[w / 64], w % 64);
    ZeroHasNothing(sm);
    forall x: nat | w <= x < (w / 64 + 1) * 64
      ensures x < LEAF_WORDS && leaves[x] == 0
    {
      assert x / 64 == w / 64;
      Keeps(summary[w / 64], w % 64, x % 64);
      assert !Has(sm, x % 64);
    }
  }

  /** The first summary bit at or after `w` names the first non-zero leaf word. */
  lemma FirstFrom(summary: seq<bv64>, leaves: seq<bv64>, w: nat, cand: nat)
    requires Summarizes(summary, leaves) && w < LEAF_WORDS
    requires KeepFrom(summary[w / 64], w % 64) != 0
    requires cand == w / 64 * 64 + TrailingZeros(KeepFrom(summary[w / 64], w % 64))
    ensures w <= cand < LEAF_WORDS && leaves[cand] != 0
    ensures forall x: nat | w <= x < cand :: leaves[x] == 0
  {
    var sm := KeepFrom(summary[w / 64], w % 64);
    Keeps(summary[w / 64], w % 64, cand % 64);
    assert cand % 64 == TrailingZeros(sm) && cand / 64 == w / 64;
    forall x: nat | w <= x < cand
      ensures leaves[x] == 0
    {
      assert x / 64 == w / 64;
      Keeps(summary[w / 64], w % 64, x % 64);
      assert !Has(sm, x % 64);
    }
  }

  lemma ClearTo(summary: seq<bv64>, leaves: seq<bv64>, w: nat)
    requires Summarizes(summary, leaves) && w < LEAF_WORDS
    requires KeepTo(summary[w / 64], w % 64) == 0
    ensures forall x: nat | w / 64 * 64 <= x <= w :: leaves[x] == 0
  {
    var sm := KeepTo(summary[w / 64], w % 64);
    ZeroHasNothing(sm);
    forall x: nat | w / 64 * 64 <= x <= w
      ensures leaves[x] == 0
    {
      assert x / 64 == w / 64;
      Keeps(summary[w / 64], w % 64, x % 64);
      assert !Has(sm, x % 64);
    }
  }

  lemma LastTo(summary: seq<bv64>, leaves: seq<bv64>, w: nat, cand: int)
    requires Summarizes(summary, leaves) && w < LEAF_WORDS
    requires KeepTo(summary[w / 64], w % 64) != 0
    requires cand == w / 64 * 64 + 63 - LeadingZeros(KeepTo(summary[w / 64], w % 64))
    ensures 0 <= cand <= w && leaves[cand] != 0
    ensures forall x: nat | cand < x <= w :: leaves[x] == 0
  {
    var sm := KeepTo(summary[w / 64], w % 64);
    Keeps(summary[w / 64], w % 64, cand % 64);
    assert cand % 64 == 63 - LeadingZeros(sm) && cand / 64 == w / 64;
    forall x: nat | cand < x <= w
      ensures leaves[x] == 0
    {
      assert x / 64 == w / 64;
      Keeps(summary[w / 64], w % 64, x % 64);
      assert !Has(sm, x % 64);
    }
  }

  /** Positions of one word, from the word's own lowest bit. */
  lemma LowestOfWord(leaves: seq<bv64>, w: nat, k: nat, m: bv64)
    requires |leaves| == LEAF_WORDS && w < LEAF_WORDS && k < 64
    requires m == KeepFrom(leaves[w], k)
    ensures m == 0 ==> forall p | p in Positions(leaves) :: !(w * 64 + k <= p < w * 64 + 64)
    ensures m != 0 ==>
      IsLeast(Positions(leaves), w * 64 + k, w * 64 + 64, Some(w * 64 + TrailingZeros(m)))
  {
    ZeroHasNothing(m);
    forall i: nat | i < 64
      ensures Has(m, i) <==> k <= i && Has(leaves[w], i)
    {
      Keeps(leaves[w], k, i);
    }
    if m != 0 {
      var p := w * 64 + TrailingZeros(m);
      assert p / 64 == w && p % 64 == TrailingZeros(m);
    }
  }

  lemma HighestOfWord(leaves: seq<bv64>, w: nat, k: nat, m: bv64)
    requires |leaves| == LEAF_WORDS && w < LEAF_WORDS && k < 64
    requires m == KeepTo(leaves[w], k)
    ensures m == 0 ==> forall p | p in Positions(leaves) :: !(w * 64 <= p <= w * 64 + k)
    ensures m != 0 ==>
      IsGreatest(Positions(leaves), w * 64, w * 64 + k, Some(w * 64 + 63 - LeadingZeros(m)))
  {
    ZeroHasNothing(m);
    forall i: nat | i < 64
      ensures Has(m, i) <==> i <= k && Has(leaves[w], i)
    {
      Keeps(leaves[w], k, i);
    }
    if m != 0 {
      var p := w * 64 + 63 - LeadingZeros(m);
      assert p / 64 == w && p % 64 == 63 - LeadingZeros(m);
    }
  }

  /** The extremes of a whole non-zero word. */
  lemma LowestOfWhole(leaves: seq<bv64>, w: nat)
    requires |leaves| == LEAF_WORDS && w < LEAF_WORDS && leaves[w] != 0
    ensures IsLeast(Positions(leaves), w * 64, w * 64 + 64, Some(w * 64 + TrailingZeros(leaves[w])))
  {
    var low := w * 64 + TrailingZeros(leaves[w]);
    assert low / 64 == w && low % 64 == TrailingZeros(leaves[w]);
  }

  lemma HighestOfWhole(leaves: seq<bv64>, w: nat)
    requires |leaves| == LEAF_WORDS && w < LEAF_WORDS && leaves[w] != 0
    ensures IsGreatest(Positions(leaves), w * 64, w * 64 + 63, Some(w * 64 + 63 - LeadingZeros(leaves[w])))
  {
    var high := w * 64 + 63 - LeadingZeros(leaves[w]);
    assert high / 64 == w && high % 64 == 63 - LeadingZeros(leaves[w]);
  }

  /** Replacing one leaf word by one that differs at a single place. */
  lemma SetPosition(leaves: seq<bv64>, p: nat, word: bv64)
    requires |leaves| == LEAF_WORDS && p < WINDOW_TICKS
    requires forall i: nat | i < 64 :: Has(word, i) <==> i == p % 64 || Has(leaves[p / 64], i)
    ensures Positions(leaves[p / 64 := word]) == Positions(leaves) + {p}
  {}

  lemma ClearPosition(leaves: seq<bv64>, p: nat, word: bv64)
    requires |leaves| == LEAF_WORDS && p < WINDOW_TICKS
    requires forall i: nat | i < 64 :: Has(word, i) <==> i != p % 64 && Has(leaves[p / 64], i)
    ensures Positions(leaves[p / 64 := word]) == Positions(leaves) - {p}
  {}

  // ---- the ring: tick order against position order ----

  /** The position of a tick at or after `from`, before and after the physical wrap. */
  lemma SlotAfter(from: nat, t: nat)
    requires from <= t < from + WINDOW_TICKS
    ensures var p := Slot(from) + (t - from);
      Slot(t) == if p < WINDOW_TICKS then p else p - WINDOW_TICKS
  {}

  lemma SlotBefore(from: nat, t: nat)
    requires t <= from < t + WINDOW_TICKS
    ensures var p := Slot(from) - (from - t);
      Slot(t) == if 0 <= p then p else p + WINDOW_TICKS
  {}

  // ---- what one physical segment scan finds ----

  lemma UpInFirst(leaves: seq<bv64>, from: nat, to: nat)
    requires |leaves| == LEAF_WORDS && from < WINDOW_TICKS
    requires KeepFrom(leaves[from / 64], from % 64) != 0
    ensures var p := from / 64 * 64 + TrailingZeros(KeepFrom(leaves[from / 64], from % 64));
      IsLeast(Positions(leaves), from, to, if p < to then Some(p) else None)
  {
    var m := KeepFrom(leaves[from / 64], from % 64);
    LowestOfWord(leaves, from / 64, from % 64, m);
    LeastPast(Positions(leaves), from, from, from / 64 * 64 + 64, from / 64 * 64 + TrailingZeros(m), to);
  }

  lemma DownInFirst(leaves: seq<bv64>, from: nat, downTo: nat)
    requires |leaves| == LEAF_WORDS && from < WINDOW_TICKS
    requires KeepTo(leaves[from / 64], from % 64) != 0
    ensures var p := from / 64 * 64 + 63 - LeadingZeros(KeepTo(leaves[from / 64], from % 64));
      IsGreatest(Positions(leaves), downTo, from, if p >= downTo then Some(p) else None)
  {
    var m := KeepTo(leaves[from / 64], from % 64);
    HighestOfWord(leaves, from / 64, from % 64, m);
    GreatestPast(Positions(leaves), from, from, from / 64 * 64, from / 64 * 64 + 63 - LeadingZeros(m), downTo);
  }

  /** Past an empty first word: the next non-zero word up to the one of `to - 1`, if any. */
  lemma UpPastFirst(leaves: seq<bv64>, from: nat, to: nat, cand: Option<nat>)
    requires |leaves| == LEAF_WORDS && from < to <= WINDOW_TICKS
    requires KeepFrom(leaves[from / 64], from % 64) == 0
    requires cand.Some? ==> from / 64 < cand.value <= (to - 1) / 64 && leaves[cand.value] != 0
    requires forall x: nat | from / 64 < x < (if cand.Some? then cand.value else (to - 1) / 64 + 1) :: leaves[x] == 0
    ensures cand.None? ==> IsLeast(Positions(leaves), from, to, None)
    ensures cand.Some? ==>
      var p := cand.value * 64 + TrailingZeros(leaves[cand.value]);
      IsLeast(Positions(leaves), from, to, if p < to then Some(p) else None)
  {
    var first, bits := from / 64, Positions(leaves);
    LowestOfWord(leaves, first, from % 64, KeepFrom(leaves[first], from % 64));
    if cand.Some? {
      SkipWords(leaves, first + 1, cand.value);
      LowestOfWhole(leaves, cand.value);
      LeastPast(bits, from, cand.value * 64, cand.value * 64 + 64,
                cand.value * 64 + TrailingZeros(leaves[cand.value]), to);
    } else {
      SkipWords(leaves, first + 1, (to - 1) / 64 + 1);
    }
  }

  lemma DownPastFirst(leaves: seq<bv64>, from: nat, downTo: nat, cand: Option<nat>)
    requires |leaves| == LEAF_WORDS && downTo <= from < WINDOW_TICKS
    requires KeepTo(leaves[from / 64], from % 64) == 0
    requires cand.Some? ==> downTo / 64 <= cand.value < from / 64 && leaves[cand.value] != 0
    requires forall x: nat | (if cand.Some? then cand.value + 1 else downTo / 64) <= x < from / 64 :: leaves[x] == 0
    ensures cand.None? ==> IsGreatest(Positions(leaves), downTo, from, None)
    ensures cand.Some? ==>
      var p := cand.value * 64 + 63 - LeadingZeros(leaves[cand.value]);
      IsGreatest(Positions(leaves), downTo, from, if p >= downTo then Some(p) else None)
  {
    var first, bits := from / 64, Positions(leaves);
    HighestOfWord(leaves, first, from % 64, KeepTo(leaves[first], from % 64));
    if cand.Some? {
      SkipWords(leaves, cand.value + 1, first);
      HighestOfWhole(leaves, cand.value);
      GreatestPast(bits, from, cand.value * 64 + 63, cand.value * 64,
                   cand.value * 64 + 63 - LeadingZeros(leaves[cand.value]), downTo);
    } else {
      SkipWords(leaves, downTo / 64, first);
    }
  }

  /** The ticks of a window whose ring position is in `bits`. */
  ghost function TicksOf(bits: set<nat>, anchor: nat): set<nat> {
    set t: nat | anchor <= t < anchor + WINDOW_TICKS && Slot(t) in bits
  }

  /** The two physical segments of an upward scan, read back as ticks. */
  lemma RingUp(bits: set<nat>, anchor: nat, from: nat, up: Option<nat>, low: Option<nat>, r: Option<nat>)
    requires anchor <= from < anchor + WINDOW_TICKS
    requires var count := WINDOW_TICKS - (from - anchor);
      var seg := Min(WINDOW_TICKS, Slot(from) + count) - Slot(from);
      && IsLeast(bits, Slot(from), Slot(from) + seg, up)
      && (up.None? ==> IsLeast(bits, 0, count - seg, low))
      && r == if up.Some? then Some(from + (up.value - Slot(from)))
              else if low.Some? then Some(from + seg + low.value)
              else None
    ensures IsLeast(TicksOf(bits, anchor), from, anchor + WINDOW_TICKS, r)
  {
    forall t: nat | from <= t < from + WINDOW_TICKS { SlotAfter(from, t); }
  }

  lemma RingDown(bits: set<nat>, anchor: nat, from: nat, down: Option<nat>, high: Option<nat>, r: Option<nat>)
    requires anchor <= from < anchor + WINDOW_TICKS
    requires var count := from - anchor + 1;
      var seg := Min(count, Slot(from) + 1);
      && IsGreatest(bits, Slot(from) + 1 - seg, Slot(from), down)
      && (down.None? ==> IsGreatest(bits, WINDOW_TICKS - (count - seg), WINDOW_TICKS - 1, high))
      && r == if down.Some? then Some(from - (Slot(from) - down.value))
              else if high.Some? then Some(from - (Slot(from) + 1) - (WINDOW_TICKS - 1 - high.value))
              else None
    ensures IsGreatest(TicksOf(bits, anchor), anchor, from, r)
  {
    forall t: nat | t <= from < t + WINDOW_TICKS { SlotBefore(from, t); }
  }

  class Bitmap {
    const summary: array<bv64>
    const leaves: array<bv64>

    ghost predicate Valid()
      reads summary, leaves
    {
      summary != leaves && Summarizes(summary[..], leaves[..])
    }

    /** The set ring positions. */
    ghost function Bits(): set<nat>
      requires leaves.Length == LEAF_WORDS
      reads leaves
    {
      Positions(leaves[..])
    }

    /** The set ticks of the window that starts at `anchor`. */
    ghost function Ticks(anchor: nat): set<nat>
      requires leaves.Length == LEAF_WORDS
      reads leaves
    {
      TicksOf(Bits(), anchor)
    }

    constructor ()
      ensures Valid() && Bits() == {}
      ensures fresh(summary) && fresh(leaves)
    {
      summary := new bv64[2](_ => 0);
      leaves := new bv64[LEAF_WORDS](_ => 0);
      new;
      ZeroHasNothing(0);
    }

    method Get(tick: nat) returns (b: bool)
      requires Valid()
      ensures b <==> Slot(tick) in Bits()
    {
      var pos := Slot(tick);
      Probe(leaves[pos / 64], pos % 64);
      b := And(leaves[pos / 64], Bit(pos % 64)) != 0;
    }

    method Set(tick: nat)
      requires Valid()
      modifies summary, leaves
      ensures Valid() && Bits() == old(Bits()) + {Slot(tick)}
    {
      var pos := Slot(tick);
      var w := pos / 64;
      forall i: nat | i < 64 { Updates(leaves[w], pos % 64, i); }
      SetPosition(leaves[..], pos, Or(leaves[w], Bit(pos % 64)));
      leaves[w] := Or(leaves[w], Bit(pos % 64));
      var s := w / 64;
      ghost var was := summary[s];
      summary[s] := Or(summary[s], Bit(w % 64));
      forall x: nat | x < LEAF_WORDS
        ensures Has(summary[x / 64], x % 64) <==> leaves[x] != 0
      {
        Updates(was, w % 64, x % 64);
        if x == w {
          Updates(old(leaves[w]), pos % 64, pos % 64);
          ZeroHasNothing(leaves[w]);
        }
      }
    }

    method Clear(tick: nat)
      requires Valid()
      modifies summary, leaves
      ensures Valid() && Bits() == old(Bits()) - {Slot(tick)}
    {
      var pos := Slot(tick);
      var w := pos / 64;
      var leaf := And(leaves[w], Not(Bit(pos % 64)));
      forall i: nat | i < 64 { Updates(leaves[w], pos % 64, i); }
      ClearPosition(leaves[..], pos, leaf);
      leaves[w] := leaf;
      if leaf == 0 {
        var s := w / 64;
        ghost var was := summary[s];
        summary[s] := And(summary[s], Not(Bit(w % 64)));
        forall x: nat | x < LEAF_WORDS
          ensures Has(summary[x / 64], x % 64) <==> leaves[x] != 0
        {
          Updates(was, w % 64, x % 64);
        }
      } else {
        KeptNonzero(old(leaves[w]), pos % 64);
        assert forall x: nat | x < LEAF_WORDS :: Has(summary[x / 64], x % 64) <==> leaves[x] != 0;
      }
    }

    /** The first non-zero leaf word in `[w, last]`, through the summary. */
    method WordUp(from: nat, last: nat) returns (r: Option<nat>)
      requires Valid() && 0 < from && last < LEAF_WORDS
      ensures r.None? ==> forall x: nat | from <= x <= last :: leaves[x] == 0
      ensures r.Some? ==> from <= r.value <= last && leaves[r.value] != 0
      ensures r.Some? ==> forall x: nat | from <= x < r.value :: leaves[x] == 0
    {
      var w := from;
      while w <= last
        invariant from <= w
        invariant forall x: nat | from <= x < w && x < LEAF_WORDS :: leaves[x] == 0
      {
        var s := w / 64;
        var sm := KeepFrom(summary[s], w % 64);
        if sm == 0 {
          ClearFrom(summary[..], leaves[..], w);
          w := (s + 1) * 64;
        } else {
          var cand := s * 64 + TrailingZeros(sm);
          FirstFrom(summary[..], leaves[..], w, cand);
          return if cand > last then None else Some(cand);
        }
      }
      return None;
    }

    /** The last non-zero leaf word in `[downWord, w]`, through the summary. */
    method WordDown(from: nat, downWord: nat) returns (r: Option<nat>)
      requires Valid() && from < LEAF_WORDS
      ensures r.None? ==> forall x: nat | downWord <= x <= from :: leaves[x] == 0
      ensures r.Some? ==> downWord <= r.value <= from && leaves[r.value] != 0
      ensures r.Some? ==> forall x: nat | r.value < x <= from :: leaves[x] == 0
    {
      var w := from;
      while true
        invariant 0 <= w <= from
        invariant forall x: nat | w < x <= from :: leaves[x] == 0
        decreases w
      {
        var s := w / 64;
        var sm := KeepTo(summary[s], w % 64);
        if sm == 0 {
          ClearTo(summary[..], leaves[..], w);
          if s == 0 { return None; }
          w := s * 64 - 1;
          if w < downWord { return None; }
        } else {
          var cand := s * 64 + 63 - LeadingZeros(sm);
          LastTo(summary[..], leaves[..], w, cand);
          return if cand < downWord then None else Some(cand);
        }
      }
    }

    /** Lowest set position in `[from, to)`, no wrap. */
    method ScanUp(from: nat, to: nat) returns (r: Option<nat>)
      requires Valid() && from < WINDOW_TICKS && to <= WINDOW_TICKS
      ensures IsLeast(Bits(), from, to, r)
    {
      hide IsLeast, KeepFrom, TrailingZeros, Positions;
      if from >= to {
        NoneBetween(Bits(), from, to);
        return None;
      }
      var first := from / 64;
      var m := KeepFrom(leaves[first], from % 64);
      if m != 0 {
        var p := first * 64 + TrailingZeros(m);
        UpInFirst(leaves[..], from, to);
        return if p < to then Some(p) else None;
      }
      var last := (to - 1) / 64;
      var cand := WordUp(first + 1, last);
      UpPastFirst(leaves[..], from, to, cand);
      if cand.None? { return None; }
      var p := cand.value * 64 + TrailingZeros(leaves[cand.value]);
      return if p < to then Some(p) else None;
    }

    /** Highest set position in `[downTo, from]`, no wrap. */
    method ScanDown(from: nat, downTo: nat) returns (r: Option<nat>)
      requires Valid() && downTo <= from < WINDOW_TICKS
      ensures IsGreatest(Bits(), downTo, from, r)
    {
      hide IsGreatest, KeepTo, LeadingZeros, Positions;
      var first := from / 64;
      var m := KeepTo(leaves[first], from % 64);
      if m != 0 {
        var p := first * 64 + 63 - LeadingZeros(m);
        DownInFirst(leaves[..], from, downTo);
        return if p >= downTo then Some(p) else None;
      }
      if first == 0 {
        DownPastFirst(leaves[..], from, downTo, None);
        return None;
      }
      var cand := WordDown(first - 1, downTo / 64);
      DownPastFirst(leaves[..], from, downTo, cand);
      if cand.None? { return None; }
      var p := cand.value * 64 + 63 - LeadingZeros(leaves[cand.value]);
      return if p >= downTo then Some(p) else None;
    }

    /** Lowest set tick at or after `from`, in tick order, within the window. */
    method NextAtOrAfter(anchor: nat, from: nat) returns (r: Option<nat>)
      requires Valid() && anchor <= from < anchor + WINDOW_TICKS
      ensures IsLeast(Ticks(anchor), from, anchor + WINDOW_TICKS, r)
    {
      hide Positions, Slot;
      var rel := from - anchor;
      var startPos := Slot(from);
      var count := WINDOW_TICKS - rel;
      var segEnd := Min(WINDOW_TICKS, startPos + count);
      var remaining := count - (segEnd - startPos);
      var up := ScanUp(startPos, segEnd);
      if up.Some? {
        r := Some(from + (up.value - startPos));
        RingUp(Bits(), anchor, from, up, None, r);
        return;
      }
      var low := None;
      if remaining > 0 {
        low := ScanUp(0, remaining);
      }
      r := if low.Some? then Some(from + (segEnd - startPos) + low.value) else None;
      RingUp(Bits(), anchor, from, up, low, r);
    }

    /** Highest set tick at or before `from`, in tick order, within the window. */
    method PrevAtOrBefore(anchor: nat, from: nat) returns (r: Option<nat>)
      requires Valid() && anchor <= from < anchor + WINDOW_TICKS
      ensures IsGreatest(Ticks(anchor), anchor, from, r)
    {
      hide Positions, Slot;
      var rel := from - anchor;
      var startPos := Slot(from);
      var count := rel + 1;
      var segStart := startPos + 1 - Min(count, startPos + 1);
      var remaining := count - (startPos + 1 - segStart);
      var down := ScanDown(startPos, segStart);
      if down.Some? {
        r := Some(from - (startPos - down.value));
        RingDown(Bits(), anchor, from, down, None, r);
        return;
      }
      var high := None;
      if remaining > 0 {
        high := ScanDown(WINDOW_TICKS - 1, WINDOW_TICKS - remaining);
      }
      r := if high.Some? then Some(from - (startPos + 1) - (WINDOW_TICKS - 1 - high.value)) else None;
      RingDown(Bits(), anchor, from, down, high, r);
    }

    /** True when the 64-tick word that starts at `tick` has no set position. */
    method WordEmpty(tick: nat) returns (b: bool)
      requires Valid() && tick % 64 == 0
      ensures b <==> forall t: nat | tick <= t < tick + 64 :: Slot(t) !in Bits()
    {
      b := leaves[Slot(tick) / 64] == 0;
      WordOfTicks(leaves[..], tick);
    }
  }

  /** An aligned group of 64 ticks is one leaf word. */
  lemma AlignedSlot(tick: nat, i: nat)
    requires tick % 64 == 0 && i < 64
    ensures Slot(tick + i) / 64 == Slot(tick) / 64 && Slot(tick + i) % 64 == i
  {
    SlotAfter(tick, tick + i);
    AlignedBase(tick);
  }

  lemma AlignedBase(tick: nat)
    requires tick % 64 == 0
    ensures Slot(tick) % 64 == 0 && Slot(tick) <= WINDOW_TICKS - 64
  {}

  lemma WordOfTicks(leaves: seq<bv64>, tick: nat)
    requires |leaves| == LEAF_WORDS && tick % 64 == 0
    ensures leaves[Slot(tick) / 64] == 0
      <==> forall t: nat | tick <= t < tick + 64 :: Slot(t) !in Positions(leaves)
  {
    var w := Slot(tick) / 64;
    ZeroHasNothing(leaves[w]);
    if leaves[w] != 0 {
      var i := TrailingZeros(leaves[w]);
      AlignedSlot(tick, i);
      assert Slot(tick + i) in Positions(leaves);
    } else {
      forall t: nat | tick <= t < tick + 64
        ensures Slot(t) !in Positions(leaves)
      {
        AlignedSlot(tick, t - tick);
      }
    }
  }

  lemma NoneBetween(s: set<nat>, lo: int, hi: int)
    requires hi <= lo
    ensures IsLeast(s, lo, hi, None)
  {}

  /** A least element found past an empty stretch, cut at `to`. */
  lemma LeastPast(s: set<nat>, lo: int, mid: int, end: int, p: nat, to: int)
    requires lo <= mid
    requires forall q | q in s :: !(lo <= q < mid)
    requires IsLeast(s, mid, end, Some(p))
    ensures IsLeast(s, lo, to, if p < to then Some(p) else None)
  {}

  lemma GreatestPast(s: set<nat>, hi: int, mid: int, start: int, p: nat, to: int)
    requires mid <= hi
    requires forall q | q in s :: !(mid < q <= hi)
    requires IsGreatest(s, start, mid, Some(p))
    ensures IsGreatest(s, to, hi, if p >= to then Some(p) else None)
  {}

  lemma KeptNonzero(w: bv64, k: nat)
    requires k < 64 && And(w, Not(Bit(k))) != 0
    ensures w != 0
  {
    if w == 0 { ZeroAnd(Not(Bit(k))); }
  }

  lemma ZeroAnd(a: bv64)
    ensures And(0, a) == 0
  {}

  lemma SkipWords(leaves: seq<bv64>, lo: nat, hi: nat)
    requires |leaves| == LEAF_WORDS && hi <= LEAF_WORDS
    requires forall x: nat | lo <= x < hi :: leaves[x] == 0
    ensures forall p | p in Positions(leaves) :: !(lo * 64 <= p < hi * 64)
  {
    forall p | p in Positions(leaves)
      ensures !(lo * 64 <= p < hi * 64)
    {
      if lo * 64 <= p < hi * 64 { EmptyWord(leaves, p / 64); }
    }
  }
}
