/** Where a bounded window move stops, and what it evicts by then, told from the book before it. */
module Stopping {
  import opened Bitmaps
  import opened Books
  import opened Ops
  import opened Reanchoring

  // ---- orders and windows ----

  predicate Covered(anchor: nat, tick: nat) { anchor <= tick <= anchor + WINDOW_MASK }

  ghost function Inside(b: Book, anchor: nat): set<nat> {
    set h | h in b.orders && Covered(anchor, b.orders[h].tick)
  }

  /** How many orders lie outside the window at an anchor. */
  ghost function Outside(b: Book, anchor: nat): (n: nat) {
    InsideFew(b, anchor);
    |b.orders| - |Inside(b, anchor)|
  }

  lemma InsideFew(b: Book, anchor: nat)
    ensures |Inside(b, anchor)| <= |b.orders|
  {
    FewerIn(Inside(b, anchor), b.orders.Keys);
  }

  lemma FewerIn(s: set<nat>, t: set<nat>)
    requires s <= t
    ensures |t| == |s| + |t - s|
  {
    assert t == s + (t - s);
  }

  /** The orders on the word a move off `anchor` leaves. */
  ghost function OnWord(b: Book, anchor: nat, up: bool): set<nat> {
    set h | h in b.orders && Leaving(anchor, up) <= b.orders[h].tick < Leaving(anchor, up) + 64
  }

  lemma NoneOutside(b: Book)
    requires b.Inv()
    ensures Outside(b, b.anchor) == 0
  {
    hide Book.Inv;
    forall h | h in b.orders ensures h in Inside(b, b.anchor) { OrderFacts(b, h); }
    assert Inside(b, b.anchor) == b.orders.Keys;
  }

  lemma LeftOrders(b: Book, c: Book)
    requires Left(b, c)
    ensures forall h | h in c.orders :: h in b.orders && c.orders[h] == b.orders[h]
  {}

  /** `y` is ahead of `x` on the way up or down. */
  predicate Beyond(x: nat, y: nat, up: bool) { if up then x <= y else y <= x }

  /** From a window on the way, the rest of the way looks as it did at the start. */
  lemma SameAhead(b: Book, c: Book, y: nat, up: bool)
    requires b.Inv() && Left(b, c) && Restricted(b, c) && Beyond(b.anchor, c.anchor, up) && Beyond(c.anchor, y, up)
    ensures Outside(b, y) == |b.orders| - |c.orders| + Outside(c, y)
  {
    hide Book.Inv, Left;
    LeftOrders(b, c);
    forall h | h in b.orders
      ensures h in Inside(b, y) <==> h in Inside(c, y)
    {
      OrderFacts(b, h);
    }
    assert Inside(b, y) == Inside(c, y);
  }

  /** One word further, the orders on that word are outside too. */
  lemma OneWordMore(b: Book, x: nat, up: bool)
    requires b.Inv() && Beyond(b.anchor, x, up) && (up || 64 <= x)
    ensures Outside(b, Shifted(x, up)) == Outside(b, x) + |Inside(b, x) * OnWord(b, x, up)|
  {
    hide Book.Inv;
    var y: nat, s := Shifted(x, up), OnWord(b, x, up);
    forall h | h in b.orders
      ensures h in Inside(b, y) <==> h in Inside(b, x) && h !in s
    {
      OrderFacts(b, h);
    }
    assert Inside(b, y) == Inside(b, x) - s;
    FewerIn(Inside(b, x) * s, Inside(b, x));
    assert Inside(b, x) - Inside(b, x) * s == Inside(b, y);
  }

  // ---- where a move stops ----

  /** An anchor a move from the book's window to `ideal` can stop at. */
  ghost predicate OnTheWay(b: Book, ideal: nat, x: nat) {
    x % 64 == 0 && (b.anchor <= x <= ideal || ideal <= x <= b.anchor)
  }

  /** The move has spent its budget at `x`, or is there. */
  ghost predicate Enough(b: Book, ideal: nat, evicted: nat, budget: nat, x: nat) {
    x == ideal || budget <= evicted + Outside(b, x)
  }

  /** `x` is the first anchor on the way whose window excludes enough orders, or the target. */
  ghost predicate StopsAt(b: Book, ideal: nat, evicted: nat, budget: nat, x: nat) {
    && OnTheWay(b, ideal, x) && Enough(b, ideal, evicted, budget, x)
    && forall y: nat | OnTheWay(b, ideal, y) && Gap(x, ideal) < Gap(y, ideal) :: !Enough(b, ideal, evicted, budget, y)
  }

  lemma StopUnique(b: Book, ideal: nat, evicted: nat, budget: nat, x: nat, y: nat)
    requires StopsAt(b, ideal, evicted, budget, x) && StopsAt(b, ideal, evicted, budget, y)
    ensures x == y
  {
    hide Enough;
    assert Gap(x, ideal) >= Gap(y, ideal) && Gap(y, ideal) >= Gap(x, ideal);
  }

  /** The anchor a move returns is the first one at which its budget is spent, or its target. */
  lemma {:induction false} ReanchorStops(b: Book, ideal: nat, evicted: nat, budget: nat)
    requires MoveOk(b, ideal)
    ensures var (c, n) := Reanchor(b, ideal, evicted, budget);
      StopsAt(b, ideal, evicted, budget, c.anchor) && n == evicted + Outside(b, c.anchor)
    decreases Gap(b.anchor, ideal)
  {
    hide Book.Inv, SlideWord, Left, Restricted, Reanchor, Enough, StopsAt;
    AnchorAligned(b);
    if b.anchor == ideal || budget <= evicted {
      MoveEnds(b, ideal, evicted, budget);
      NoneOutside(b);
      StopsHere(b, ideal, evicted, budget);
    } else {
      SlideStep(b, ideal);
      var c := SlideWord(b, b.anchor < ideal);
      OrdersLeft(b, c);
      Unfolds(b, ideal, evicted, budget);
      var e := evicted + |b.orders| - |c.orders|;
      ReanchorStops(c, ideal, e, budget);
      StopsLater(b, c, ideal, evicted, budget, Reanchor(c, ideal, e, budget).0.anchor);
    }
  }

  lemma StopsHere(b: Book, ideal: nat, evicted: nat, budget: nat)
    requires b.anchor % 64 == 0 && Outside(b, b.anchor) == 0 && (b.anchor == ideal || budget <= evicted)
    ensures StopsAt(b, ideal, evicted, budget, b.anchor)
  {
    hide Outside;
  }

  lemma StopsLater(b: Book, c: Book, ideal: nat, evicted: nat, budget: nat, x: nat)
    requires MoveOk(b, ideal) && b.anchor != ideal && evicted < budget
    requires Left(b, c) && Restricted(b, c) && |c.orders| <= |b.orders|
    requires c.anchor % 64 == 0 && b.anchor % 64 == 0 && Gap(c.anchor, ideal) + 64 == Gap(b.anchor, ideal)
    requires c.anchor == ideal || (c.anchor < ideal) == (b.anchor < ideal)
    requires StopsAt(c, ideal, evicted + |b.orders| - |c.orders|, budget, x)
    ensures StopsAt(b, ideal, evicted, budget, x)
    ensures evicted + |b.orders| - |c.orders| + Outside(c, x) == evicted + Outside(b, x)
  {
    hide Book.Inv, Left, Restricted, Outside;
    var up := b.anchor < ideal;
    SameAhead(b, c, x, up);
    NoneOutside(b);
    forall y: nat | OnTheWay(b, ideal, y) && Gap(x, ideal) < Gap(y, ideal)
      ensures !Enough(b, ideal, evicted, budget, y)
    {
      if y != b.anchor {
        WordsApart(b.anchor, y);
        SameAhead(b, c, y, up);
        assert OnTheWay(c, ideal, y);
        assert !Enough(c, ideal, evicted + |b.orders| - |c.orders|, budget, y);
      }
    }
  }

  lemma WordsApart(x: nat, y: nat)
    requires x % 64 == 0 && y % 64 == 0 && x != y
    ensures x + 64 <= y || y + 64 <= x
  {
    assert x == x / 64 * 64 && y == y / 64 * 64;
  }

  /** A move that did not reach its target has spent its budget; one word before it had not. */
  lemma BudgetSpent(b: Book, ideal: nat, evicted: nat, budget: nat, prev: nat)
    requires MoveOk(b, ideal)
    ensures var (c, n) := Reanchor(b, ideal, evicted, budget);
      && (c.anchor == ideal || budget <= n)
      && (c.anchor != b.anchor && prev == Shifted(c.anchor, ideal < b.anchor) ==>
            && evicted + Outside(b, prev) < budget
            && n == evicted + Outside(b, prev) + |Inside(b, prev) * OnWord(b, prev, b.anchor < ideal)|)
  {
    hide Book.Inv, Reanchor, Outside;
    ReanchorStops(b, ideal, evicted, budget);
    AnchorAligned(b);
    var c, up := Reanchor(b, ideal, evicted, budget).0, b.anchor < ideal;
    if c.anchor != b.anchor && prev == Shifted(c.anchor, !up) {
      WordsApart(b.anchor, c.anchor);
      assert OnTheWay(b, ideal, prev) && Gap(c.anchor, ideal) < Gap(prev, ideal);
      assert !Enough(b, ideal, evicted, budget, prev);
      OneWordMore(b, prev, up);
    }
  }

  /**
   The count stays within the budget exactly when no more than the budget's orders lie
   outside the first window that excludes enough of them, or outside the target's.
   */
  lemma BudgetKept(b: Book, ideal: nat, budget: nat, x: nat)
    requires MoveOk(b, ideal) && StopsAt(b, ideal, 0, budget, x)
    ensures var (c, n) := Reanchor(b, ideal, 0, budget);
      c.anchor == x && (n <= budget <==> Outside(b, x) <= budget)
  {
    hide Book.Inv, Reanchor, StopsAt, Outside;
    ReanchorStops(b, ideal, 0, budget);
    StopUnique(b, ideal, 0, budget, Reanchor(b, ideal, 0, budget).0.anchor, x);
  }
}
