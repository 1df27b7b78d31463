/** When a mass quote is refused because its quotes cross or slide onto one another. */
module Collisions {
  import opened Base
  import opened Books
  import opened Ops
  import opened Matching
  import opened Quoting
  import opened Merging
  import opened MergingProperties
  import opened MassQuoting

  // ---- the condition, on the payload and the book before a pass ----

  /** The quote crosses the opposing best. */
  predicate Crosses(a: Pass, q: Quote) {
    a.best.Some? && if a.side.Bid? then a.best.value <= q.tick else q.tick <= a.best.value
  }

  /** The quote crosses, or is one tick short of it: it would rest next to the opposing best. */
  predicate Near(a: Pass, q: Quote) {
    a.best.Some? && if a.side.Bid? then a.best.value <= q.tick + 1 else q.tick <= a.best.value + 1
  }

  /** A crossing quote asks, by the lowest bit of its flags, to be rejected rather than slid. */
  ghost predicate Refused(a: Pass, k: nat) {
    exists j | k <= j < |a.quotes| :: Crosses(a, a.quotes[j]) && a.quotes[j].flags % 2 == 1
  }

  /** A crossing quote has company next to the opposing best. */
  ghost predicate Stacked(a: Pass, k: nat) {
    exists j, n | k <= j < |a.quotes| && k <= n < |a.quotes| && j != n ::
      Crosses(a, a.quotes[j]) && Near(a, a.quotes[n])
  }

  /** A crossing ask slides onto an ask the seat already has there, replaced by the payload or not. */
  ghost predicate Met(a: Pass, v: seq<Resting>, k: nat) {
    && a.side.Ask? && a.best.Some?
    && (exists j | k <= j < |a.quotes| :: Crosses(a, a.quotes[j]))
    && (exists n | 0 <= n < |v| :: v[n].o.side.Ask? && v[n].o.tick == a.best.value + 1)
  }

  ghost predicate Collides(a: Pass, v: seq<Resting>, k: nat) {
    Refused(a, k) || Stacked(a, k) || Met(a, v, k)
  }

  /** A later quote slides to a tick already used. */
  ghost predicate Pending(b: Book, a: Pass, k: nat, used: nat) {
    exists j | k <= j < |a.quotes| ::
      && a.Slid(b, a.quotes[j]).Ok? && a.Slid(b, a.quotes[j]).value <= used
      && (0 < k ==> k - 1 < |a.quotes| && a.quotes[k - 1].tick < a.quotes[j].tick)
  }

  // ---- refusal means collision ----

  lemma RefusedHere(b: Book, a: Pass, k: nat)
    requires k < |a.quotes| && a.Slid(b, a.quotes[k]) == Err(WouldCross)
    ensures Refused(a, k)
  {
    assert Crosses(a, a.quotes[k]) && a.quotes[k].flags % 2 == 1;
  }

  lemma MetHere(b: Book, a: Pass, v: seq<Resting>, i: nat, k: nat, t: nat)
    requires k < |a.quotes| && a.Slid(b, a.quotes[k]) == Ok(t) && i < |v|
    requires v[i].o.side == a.side && v[i].o.tick == t && a.quotes[k].tick < t
    ensures Met(a, v, k)
  {
    assert Crosses(a, a.quotes[k]);
  }

  /** Why an insert answers `WouldCross`. */
  lemma InsertCollides(b: Book, a: Pass, i: nat, k: nat, used: nat, next: Option<nat>)
    requires b.Inv() && a.Ok() && a.Hoisted(b) && MergeAt(b, a, i, used) && k < |a.quotes| && !BadOrder(a, k)
    requires Ahead(b, a, i, a.quotes[k], next) && 0 < a.quotes[k].lots <= b.p.maxLots
    requires next.Some? ==> a.quotes[k].tick < next.value
    requires MergeInsert(b, a, i, a.quotes[k], used, next) == Err(WouldCross)
    ensures Collides(a, View(b, a.m), k) || Pending(b, a, k, used)
  {
    hide Book.Inv, View, Best, CheckOrSlide, CanPost, Refused, Stacked, Met, MergeAt;
    var q := a.quotes[k];
    match a.Slid(b, q) {
      case Err(e) => RefusedHere(b, a, k);
      case Ok(t) =>
        if next == Some(t) { MetHere(b, a, View(b, a.m), i, k, t); }
    }
  }

  lemma FewerCollide(a: Pass, v: seq<Resting>, w: seq<Resting>, k: nat)
    requires forall x | x in w :: x in v
    ensures Collides(a, w, k) ==> Collides(a, v, k)
  {
    if Met(a, w, k) {
      var n :| 0 <= n < |w| && w[n].o.side.Ask? && w[n].o.tick == a.best.value + 1;
      assert w[n] in v;
      var l :| 0 <= l < |v| && v[l] == w[n];
      assert v[l].o.side.Ask?;
    }
  }

  /** Two quotes that end up at or below the same tick, in payload order, crowd the opposing best. */
  lemma StackedPair(b: Book, a: Pass, k: nat, j: nat)
    requires k < j < |a.quotes| && a.Slid(b, a.quotes[k]).Ok? && a.Slid(b, a.quotes[j]).Ok?
    requires a.quotes[k].tick < a.quotes[j].tick && a.Slid(b, a.quotes[j]).value <= a.Slid(b, a.quotes[k]).value
    ensures Stacked(a, k)
  {
    if a.side.Bid? {
      assert Crosses(a, a.quotes[j]) && Near(a, a.quotes[k]);
    } else {
      assert Crosses(a, a.quotes[k]) && Near(a, a.quotes[j]);
    }
  }

  lemma StackedWith(b: Book, a: Pass, k: nat, j: nat)
    requires a.side.Ask? && a.best.Some? && k < j < |a.quotes| && Crosses(a, a.quotes[j])
    requires a.Slid(b, a.quotes[k]) == Ok(a.best.value + 1)
    ensures Stacked(a, k)
  {
    assert Crosses(a, a.quotes[j]) && Near(a, a.quotes[k]);
  }

  /** Quote `k` rested at `t`: a collision later on was one already. */
  lemma StepCollides(b: Book, c: Book, a: Pass, v: seq<Resting>, w: seq<Resting>, k: nat, t: nat)
    requires k < |a.quotes| && a.Slid(b, a.quotes[k]) == Ok(t) && c.anchor == b.anchor && c.p == b.p
    requires forall n | 0 <= n < |w| ::
      w[n].o.tick == t || exists l :: 0 <= l < |v| && v[l].o.side == w[n].o.side && v[l].o.tick == w[n].o.tick
    requires Collides(a, w, k + 1) || Pending(c, a, k + 1, t)
    ensures Collides(a, v, k)
  {
    hide CheckOrSlide;
    if Pending(c, a, k + 1, t) {
      var j :| k + 1 <= j < |a.quotes| && a.Slid(c, a.quotes[j]).Ok? && a.Slid(c, a.quotes[j]).value <= t
        && a.quotes[k].tick < a.quotes[j].tick;
      StackedPair(b, a, k, j);
    } else if Met(a, w, k + 1) {
      var j :| k + 1 <= j < |a.quotes| && Crosses(a, a.quotes[j]);
      var n :| 0 <= n < |w| && w[n].o.side.Ask? && w[n].o.tick == a.best.value + 1;
      if w[n].o.tick == t {
        StackedWith(b, a, k, j);
      } else {
        var l :| 0 <= l < |v| && v[l].o.side == w[n].o.side && v[l].o.tick == w[n].o.tick;
        assert v[l].o.side.Ask?;
      }
    }
  }

  /** A pass that answers `WouldCross` has a collision. */
  lemma {:induction false} CrossingCollides(b: Book, a: Pass, i: nat, k: nat, used: nat)
    requires b.Inv() && a.Ok() && a.Hoisted(b) && MergeAt(b, a, i, used) && k <= |a.quotes|
    requires Merge(b, a, i, k, used) == Err(WouldCross)
    ensures Collides(a, View(b, a.m), k) || Pending(b, a, k, used)
    decreases 2 * (|a.quotes| - k) + |View(b, a.m)| - i
  {
    hide Book.Inv, View, Kill, Amend, MergeInsert, MergeAt, Ahead, Best, Collides, Pending, CheckOrSlide;
    CursorFits(b, a, i, used);
    var x := Current(b, a, i);
    if x.Some? && (k == |a.quotes| || x.value.o.tick < a.quotes[k].tick) {
      var c := Kill(b, x.value.h);
      KillMerge(b, a, i, used);
      KilledSame(b, x.value.h);
      CrossingCollides(c, a, i, k, used);
      KilledCollides(b, c, a, i, k, used);
    } else if x.None? || a.quotes[k].tick < x.value.o.tick {
      PastRegion(b, a, i, k, used);
      var next := if x.Some? then Some(x.value.o.tick) else None;
      if MergeInsert(b, a, i, a.quotes[k], used, next).Err? {
        InsertCollides(b, a, i, k, used, next);
      } else {
        InsertMerge(b, a, i, a.quotes[k], used, next);
        var (c, t) := MergeInsert(b, a, i, a.quotes[k], used, next).value;
        CrossingCollides(c, a, i + 1, k + 1, t);
        InsertedCollides(b, c, a, i, k, used, t);
      }
    } else if a.quotes[k].lots <= x.value.o.lots {
      var c := Amend(b, x.value.h, a.quotes[k].lots, a.expiry);
      KeepMerge(b, a, i, used, a.quotes[k]);
      KeptSlides(b, a, i, a.quotes[k]);
      CrossingCollides(c, a, i + 1, k + 1, a.quotes[k].tick);
      KeptCollides(b, c, a, i, k, used);
    } else {
      var e := Kill(b, x.value.h);
      KillMerge(b, a, i, used);
      Reposted(b, a, i, used, a.quotes[k]);
      KilledSame(b, x.value.h);
      if MergeInsert(e, a, i, a.quotes[k], used, None).Err? {
        InsertCollides(e, a, i, k, used, None);
      } else {
        InsertMerge(e, a, i, a.quotes[k], used, None);
        var (c, t) := MergeInsert(e, a, i, a.quotes[k], used, None).value;
        CrossingCollides(c, a, i + 1, k + 1, t);
        InsertedCollides(e, c, a, i, k, used, t);
      }
      KilledCollides(b, e, a, i, k, used);
    }
  }

  lemma KilledCollides(b: Book, c: Book, a: Pass, i: nat, k: nat, used: nat)
    requires b.Inv() && c.Inv() && a.Ok() && i < |View(b, a.m)| && c.anchor == b.anchor && c.p == b.p
    requires View(c, a.m) == View(b, a.m)[..i] + View(b, a.m)[i + 1..]
    requires Collides(a, View(c, a.m), k) || Pending(c, a, k, used)
    ensures Collides(a, View(b, a.m), k) || Pending(b, a, k, used)
  {
    hide Book.Inv, View, Collides, CheckOrSlide;
    var v, w := View(b, a.m), View(c, a.m);
    FewerCollide(a, v, w, k);
  }

  lemma KilledSame(b: Book, h: nat)
    requires b.Inv() && h in b.orders
    ensures Kill(b, h).anchor == b.anchor && Kill(b, h).p == b.p
  {}

  lemma InsertedCollides(b: Book, c: Book, a: Pass, i: nat, k: nat, used: nat, t: nat)
    requires b.Inv() && c.Inv() && a.Ok() && k < |a.quotes| && i <= |View(b, a.m)|
    requires a.Slid(b, a.quotes[k]) == Ok(t) && c.anchor == b.anchor && c.p == b.p
    requires exists y: Resting :: y.o.tick == t && View(c, a.m) == View(b, a.m)[..i] + [y] + View(b, a.m)[i..]
    requires Collides(a, View(c, a.m), k + 1) || Pending(c, a, k + 1, t)
    ensures Collides(a, View(b, a.m), k)
  {
    hide Book.Inv, View, Collides, Pending, CheckOrSlide;
    var v, w := View(b, a.m), View(c, a.m);
    var y: Resting :| y.o.tick == t && w == v[..i] + [y] + v[i..];
    assert w[i] == y;
    forall n | 0 <= n < |w| && w[n].o.tick != t
      ensures exists l :: 0 <= l < |v| && v[l].o.side == w[n].o.side && v[l].o.tick == w[n].o.tick
    {
      assert v[if n < i then n else n - 1] == w[n];
    }
    StepCollides(b, c, a, v, w, k, t);
  }

  lemma KeptCollides(b: Book, c: Book, a: Pass, i: nat, k: nat, used: nat)
    requires b.Inv() && c.Inv() && a.Ok() && k < |a.quotes| && i < |View(b, a.m)|
    requires a.Slid(b, a.quotes[k]) == Ok(a.quotes[k].tick) && c.anchor == b.anchor && c.p == b.p
    requires exists y: Resting :: y.o.tick == a.quotes[k].tick && View(c, a.m) == View(b, a.m)[i := y]
    requires Collides(a, View(c, a.m), k + 1) || Pending(c, a, k + 1, a.quotes[k].tick)
    ensures Collides(a, View(b, a.m), k)
  {
    hide Book.Inv, View, Collides, Pending, CheckOrSlide;
    var v, w, t := View(b, a.m), View(c, a.m), a.quotes[k].tick;
    var y: Resting :| y.o.tick == t && w == v[i := y];
    forall n | 0 <= n < |w| && w[n].o.tick != t
      ensures exists l :: 0 <= l < |v| && v[l].o.side == w[n].o.side && v[l].o.tick == w[n].o.tick
    {
      assert v[n] == w[n];
    }
    StepCollides(b, c, a, v, w, k, t);
  }

  // ---- collision means refusal ----

  /** Quotes that rest have their own ticks. */
  lemma OwnTicks(b: Book, a: Pass, i: nat, j: nat, n: nat)
    requires b.Inv() && a.Ok() && a.Hoisted(b) && MergeAt(b, a, i, 0) && Merge(b, a, i, 0, 0).Ok?
    requires j < n < |a.quotes|
    ensures a.Slid(b, a.quotes[j]).Ok? && a.Slid(b, a.quotes[n]).Ok? && a.quotes[j].tick < a.quotes[n].tick
    ensures a.Slid(b, a.quotes[j]).value < a.Slid(b, a.quotes[n]).value
  {
    hide Book.Inv, View, Best, MergeAt, Merge, CheckOrSlide, Prioritized, Past;
    MergeQuotes(b, a, i, 0, 0);
    var d := Merge(b, a, i, 0, 0).value.0;
    ViewFacts(d, a.m);
    var w := View(d, a.m);
    assert IsQuote(b, a, a.quotes[j], w[i + j - 0].o) && IsQuote(b, a, a.quotes[n], w[i + n - 0].o);
    assert w[i + j].o.SortKey() < w[i + n].o.SortKey();
  }

  lemma OwnTick(b: Book, a: Pass, i: nat, j: nat)
    requires b.Inv() && a.Ok() && a.Hoisted(b) && MergeAt(b, a, i, 0) && Merge(b, a, i, 0, 0).Ok?
    requires j < |a.quotes|
    ensures a.Slid(b, a.quotes[j]).Ok?
  {
    hide Book.Inv, View, Best, MergeAt, Merge, CheckOrSlide, Prioritized, Past;
    MergeQuotes(b, a, i, 0, 0);
    assert IsQuote(b, a, a.quotes[j], View(Merge(b, a, i, 0, 0).value.0, a.m)[i + j - 0].o);
  }

  /** Two quotes of one side that slide to the same tick make the pass fail: neither is dropped. */
  lemma EqualSlidesFail(b: Book, a: Pass, i: nat, j: nat, n: nat)
    requires b.Inv() && a.Ok() && a.Hoisted(b) && MergeAt(b, a, i, 0) && j < n < |a.quotes|
    requires a.Slid(b, a.quotes[j]).Ok? && a.Slid(b, a.quotes[j]) == a.Slid(b, a.quotes[n])
    ensures Merge(b, a, i, 0, 0).Err?
  {
    hide Book.Inv, View, Best, MergeAt, Merge, CheckOrSlide;
    if Merge(b, a, i, 0, 0).Ok? { OwnTicks(b, a, i, j, n); }
  }

  lemma StackedFails(b: Book, a: Pass, i: nat)
    requires b.Inv() && a.Ok() && a.Hoisted(b) && MergeAt(b, a, i, 0) && Stacked(a, 0)
    ensures Merge(b, a, i, 0, 0).Err?
  {
    hide Book.Inv, View, Best, MergeAt, Merge;
    var j, n :| 0 <= j < |a.quotes| && 0 <= n < |a.quotes| && j != n && Crosses(a, a.quotes[j]) && Near(a, a.quotes[n]);
    if Merge(b, a, i, 0, 0).Ok? { OwnTicks(b, a, i, Min(j, n), Max(j, n)); }
  }

  lemma RefusedFails(b: Book, a: Pass, i: nat)
    requires b.Inv() && a.Ok() && a.Hoisted(b) && MergeAt(b, a, i, 0) && Refused(a, 0)
    ensures Merge(b, a, i, 0, 0).Err?
  {
    hide Book.Inv, View, Best, MergeAt, Merge;
    var j :| 0 <= j < |a.quotes| && Crosses(a, a.quotes[j]) && a.quotes[j].flags % 2 == 1;
    if Merge(b, a, i, 0, 0).Ok? { OwnTick(b, a, i, j); }
  }

  /** The seat's ask next to the best bid is its lowest one, so a pass starts at it. */
  lemma LowestAsk(b: Book, a: Pass, i: nat, n: nat)
    requires b.Inv() && a.Ok() && a.Hoisted(b) && MergeAt(b, a, i, 0) && a.side.Ask? && a.best.Some?
    requires n < |View(b, a.m)| && View(b, a.m)[n].o.side.Ask? && View(b, a.m)[n].o.tick == a.best.value + 1
    ensures n == i && Current(b, a, i) == Some(View(b, a.m)[n])
  {
    hide Book.Inv, View, Best;
    BestIsBest(b, Bid);
    NoCross(b);
    AskKeys(b, a, n);
    AskKeys(b, a, i);
    AskKeysRise(b, a, i, n);
  }

  /** What a chain place says about its tick. */
  lemma AskKeys(b: Book, a: Pass, n: nat)
    requires b.Inv() && a.Ok() && n < |View(b, a.m)|
    ensures var o := View(b, a.m)[n].o;
      && 0 < o.tick <= U32_MAX && o.tick in b.Levels(o.side)
      && (Key(Ask, 0) < o.SortKey() <==> o.side.Ask?)
  {
    hide Book.Inv, View;
    ViewFacts(b, a.m);
  }

  lemma AskKeysRise(b: Book, a: Pass, i: nat, n: nat)
    requires b.Inv() && a.Ok()
    ensures i < n < |View(b, a.m)| ==> View(b, a.m)[i].o.SortKey() < View(b, a.m)[n].o.SortKey()
  {
    hide Book.Inv, View;
    ViewFacts(b, a.m);
  }

  /** The first quote crosses if any does. */
  lemma FirstCrosses(b: Book, a: Pass, i: nat, j: nat)
    requires b.Inv() && a.Ok() && a.Hoisted(b) && MergeAt(b, a, i, 0) && Merge(b, a, i, 0, 0).Ok?
    requires a.side.Ask? && j < |a.quotes| && Crosses(a, a.quotes[j])
    ensures Crosses(a, a.quotes[0])
  {
    hide Book.Inv, View, Best, MergeAt, Merge;
    if 0 < j { OwnTicks(b, a, i, 0, j); }
  }

  lemma MetFails(b: Book, a: Pass, i: nat)
    requires b.Inv() && a.Ok() && a.Hoisted(b) && MergeAt(b, a, i, 0) && Met(a, View(b, a.m), 0)
    ensures Merge(b, a, i, 0, 0).Err?
  {
    hide Book.Inv, View, Best, MergeAt, Merge;
    var v := View(b, a.m);
    var j :| 0 <= j < |a.quotes| && Crosses(a, a.quotes[j]);
    var n :| 0 <= n < |v| && v[n].o.side.Ask? && v[n].o.tick == a.best.value + 1;
    LowestAsk(b, a, i, n);
    if Merge(b, a, i, 0, 0).Ok? {
      FirstCrosses(b, a, i, j);
      SlidesOnto(b, a, i);
    }
  }

  /** Sliding onto the order at the cursor fails at once. */
  lemma SlidesOnto(b: Book, a: Pass, i: nat)
    requires b.Inv() && a.Ok() && a.Hoisted(b) && MergeAt(b, a, i, 0) && a.side.Ask?
    requires 0 < |a.quotes| && Crosses(a, a.quotes[0])
    requires Current(b, a, i).Some? && Current(b, a, i).value.o.tick == a.best.value + 1
    ensures Merge(b, a, i, 0, 0).Err?
  {
    hide Book.Inv, View, Best, MergeAt, Kill, Amend;
    PastRegion(b, a, i, 0, 0);
  }

  // ---- the exact condition ----

  /** No quote slides to tick 0, so nothing is pending at the start of a pass. */
  lemma NothingPending(b: Book, a: Pass)
    requires b.Inv() && a.Ok() && a.Hoisted(b)
    ensures !Pending(b, a, 0, 0)
  {
    hide Book.Inv, Best, CheckOrSlide;
    forall j | 0 <= j < |a.quotes| && a.Slid(b, a.quotes[j]).Ok?
      ensures a.Slid(b, a.quotes[j]).value > 0
    {
      CheckedTick(b, a.side, a.quotes[j].tick, !a.quotes[j].RejectOnCross(), a.Slid(b, a.quotes[j]).value);
    }
  }

  /**
   A pass answers `WouldCross` only on a collision, and a collision makes it fail: among
   passes that nothing else fails, the collisions are exactly the refusals.
   */
  lemma PassCollides(b: Book, a: Pass, i: nat)
    requires b.Inv() && a.Ok() && a.Hoisted(b) && MergeAt(b, a, i, 0)
    ensures Merge(b, a, i, 0, 0) == Err(WouldCross) ==> Collides(a, View(b, a.m), 0)
    ensures Collides(a, View(b, a.m), 0) ==> Merge(b, a, i, 0, 0).Err?
  {
    hide Book.Inv, View, Best, MergeAt, Merge, Refused, Stacked, Met, Pending;
    if Merge(b, a, i, 0, 0) == Err(WouldCross) {
      CrossingCollides(b, a, i, 0, 0);
      NothingPending(b, a);
    }
    if Refused(a, 0) { RefusedFails(b, a, i); }
    if Stacked(a, 0) { StackedFails(b, a, i); }
    if Met(a, View(b, a.m), 0) { MetFails(b, a, i); }
  }

  /** The bids collide against the book, or else the asks against the book the bids leave. */
  ghost predicate Clashes(b: Book, m: nat, bids: seq<Quote>, asks: seq<Quote>, expiry: nat)
    requires b.Inv() && m < MAX_SEATS && expiry <= U32_MAX
  {
    hide Book.Inv, View, Best, MergeAt, Merge;
    var a := PassOf(b, m, Bid, bids, expiry);
    BidStart(b, a);
    || Collides(a, View(b, m), 0)
    || match Merge(b, a, 0, 0, 0)
       case Err(_) => false
       case Ok((c, cursor)) =>
         AskStart(b, a, PassOf(c, m, Ask, asks, expiry));
         Collides(PassOf(c, m, Ask, asks, expiry), View(c, m), 0)
  }

  /** A mass quote answers `WouldCross` only when its quotes clash, and then it never succeeds. */
  lemma MassQuoteClashes(b: Book, m: nat, bids: seq<Quote>, asks: seq<Quote>, expiry: nat)
    requires b.Inv() && m < MAX_SEATS && expiry <= U32_MAX
    ensures MassQuote(b, m, bids, asks, expiry) == Err(WouldCross) ==> Clashes(b, m, bids, asks, expiry)
    ensures Clashes(b, m, bids, asks, expiry) ==> MassQuote(b, m, bids, asks, expiry).Err?
  {
    hide Book.Inv, View, Best, MergeAt, Merge, Collides;
    var a := PassOf(b, m, Bid, bids, expiry);
    BidStart(b, a);
    PassCollides(b, a, 0);
    if Merge(b, a, 0, 0, 0).Ok? {
      var (c, cursor) := Merge(b, a, 0, 0, 0).value;
      var a' := PassOf(c, m, Ask, asks, expiry);
      AskStart(b, a, a');
      PassCollides(c, a', cursor);
    }
  }

  /** Two bids of a payload that slide to the same tick fail the whole instruction. */
  lemma EqualBidsFail(b: Book, m: nat, bids: seq<Quote>, asks: seq<Quote>, expiry: nat, j: nat, n: nat)
    requires b.Inv() && m < MAX_SEATS && expiry <= U32_MAX && j < n < |bids|
    requires var a := PassOf(b, m, Bid, bids, expiry);
      a.Slid(b, bids[j]).Ok? && a.Slid(b, bids[j]) == a.Slid(b, bids[n])
    ensures MassQuote(b, m, bids, asks, expiry).Err?
  {
    hide Book.Inv, View, Best, MergeAt, Merge, CheckOrSlide;
    var a := PassOf(b, m, Bid, bids, expiry);
    BidStart(b, a);
    EqualSlidesFail(b, a, 0, j, n);
  }
}
