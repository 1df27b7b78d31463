/** What one merge pass leaves: the payload's quotes, kept priority, untouched others. */
module MergingProperties {
  import opened Base
  import opened Books
  import opened Ops
  import opened Frames
  import opened Matching
  import opened Quoting
  import opened Merging

  /** A chain from some place on, past the orders of `side`. */
  ghost function Past(v: seq<Resting>, side: Side): (r: seq<Resting>)
    ensures |r| <= |v| && r == v[|v| - |r|..]
    ensures forall j | 0 <= j < |v| - |r| :: v[j].o.side == side
    ensures r != [] ==> r[0].o.side != side
  {
    if v != [] && v[0].o.side == side then Past(v[1..], side) else v
  }

  /** A pass trades nothing, touches no other maker and no opposing level. */
  ghost predicate OneSided(b: Book, c: Book, a: Pass) {
    && Quiet(b, c) && OthersKept(b, c, a.m)
    && c.Levels(a.side.Opposite()) == b.Levels(a.side.Opposite())
  }

  lemma OneSidedTrans(b: Book, c: Book, d: Book, a: Pass)
    requires OneSided(b, c, a) && OneSided(c, d, a)
    ensures OneSided(b, d, a)
  {
    QuietTrans(b, c, d);
    OthersTrans(b, c, d, a.m);
  }

  lemma NothingOneSided(b: Book, a: Pass)
    requires b.Inv()
    ensures OneSided(b, b, a)
  {}

  lemma KillOneSided(b: Book, a: Pass, h: nat)
    requires b.Inv() && h in b.orders && b.orders[h].maker == a.m && b.orders[h].side == a.side
    ensures OneSided(b, Kill(b, h), a)
  {
    hide Book.Inv, Kill, OthersKept, Quiet;
    KillQuiet(b, h);
    KillOthers(b, h);
    KillParts(b, h);
  }

  lemma AmendOneSided(b: Book, a: Pass, h: nat, lots: nat)
    requires b.Inv() && a.Ok() && h in b.orders && b.orders[h].maker == a.m && 0 < lots <= b.orders[h].lots
    ensures OneSided(b, Amend(b, h, lots, a.expiry), a)
  {
    hide Book.Inv, Amend, OthersKept, Quiet;
    AmendQuiet(b, h, lots, a.expiry);
    AmendOthers(b, h, lots, a.expiry);
    AmendLevels(b, h, lots, a.expiry);
  }

  lemma InsertOneSided(b: Book, a: Pass, i: nat, q: Quote, used: nat, next: Option<nat>)
    requires b.Inv() && a.Ok() && a.Hoisted(b) && MergeAt(b, a, i, used) && Ahead(b, a, i, q, next)
    requires 0 < q.lots <= b.p.maxLots && MergeInsert(b, a, i, q, used, next).Ok?
    ensures OneSided(b, MergeInsert(b, a, i, q, used, next).value.0, a)
  {
    hide Book.Inv, View, Post, CanPost, Best, CheckOrSlide, OthersKept, Quiet, Ahead, MergeAt;
    var t := a.Slid(b, q).value;
    InsertFits(b, a, i, used, q, next, t);
    CheckedCanPost(b, a.side, q.tick, !q.RejectOnCross(), t, q.lots, a.m, a.expiry, i);
    PostQuiet(b, a.side, t, q.lots, a.m, a.expiry, i);
    PostOthers(b, a.side, t, q.lots, a.m, a.expiry, i);
    PostLevels(b, a.side, t, q.lots, a.m, a.expiry, i);
  }

  lemma CursorFits(b: Book, a: Pass, i: nat, used: nat)
    requires b.Inv() && a.Ok() && MergeAt(b, a, i, used)
    ensures i <= |View(b, a.m)|
  {}

  /** The whole pass is one-sided; the hoisted opposing best stays the one a rescan would find. */
  lemma {:induction false} MergeOneSided(b: Book, a: Pass, i: nat, k: nat, used: nat)
    requires b.Inv() && a.Ok() && a.Hoisted(b) && MergeAt(b, a, i, used) && k <= |a.quotes|
    requires Merge(b, a, i, k, used).Ok?
    ensures OneSided(b, Merge(b, a, i, k, used).value.0, a)
    ensures a.Hoisted(Merge(b, a, i, k, used).value.0)
    decreases 2 * (|a.quotes| - k) + |View(b, a.m)| - i
  {
    hide Book.Inv, View, OneSided, Kill, Amend, MergeInsert, MergeAt, Current, Ahead;
    CursorFits(b, a, i, used);
    var x, d := Current(b, a, i), Merge(b, a, i, k, used).value.0;
    if x.Some? && (k == |a.quotes| || x.value.o.tick < a.quotes[k].tick) {
      ViewFacts(b, a.m);
      KillMerge(b, a, i, used);
      KillOneSided(b, a, x.value.h);
      MergeOneSided(Kill(b, x.value.h), a, i, k, used);
      OneSidedTrans(b, Kill(b, x.value.h), d, a);
    } else if x.None? && k == |a.quotes| {
      NothingOneSided(b, a);
    } else if x.None? || a.quotes[k].tick < x.value.o.tick {
      PastRegion(b, a, i, k, used);
      var next := if x.Some? then Some(x.value.o.tick) else None;
      var (c, t) := MergeInsert(b, a, i, a.quotes[k], used, next).value;
      InsertMerge(b, a, i, a.quotes[k], used, next);
      InsertOneSided(b, a, i, a.quotes[k], used, next);
      MergeOneSided(c, a, i + 1, k + 1, t);
      OneSidedTrans(b, c, d, a);
    } else if a.quotes[k].lots <= x.value.o.lots {
      ViewFacts(b, a.m);
      KeepMerge(b, a, i, used, a.quotes[k]);
      var c := Amend(b, x.value.h, a.quotes[k].lots, a.expiry);
      AmendOneSided(b, a, x.value.h, a.quotes[k].lots);
      MergeOneSided(c, a, i + 1, k + 1, a.quotes[k].tick);
      OneSidedTrans(b, c, d, a);
    } else {
      ViewFacts(b, a.m);
      KillMerge(b, a, i, used);
      Reposted(b, a, i, used, a.quotes[k]);
      var e := Kill(b, x.value.h);
      var (c, t) := MergeInsert(e, a, i, a.quotes[k], used, None).value;
      InsertMerge(e, a, i, a.quotes[k], used, None);
      KillOneSided(b, a, x.value.h);
      InsertOneSided(e, a, i, a.quotes[k], used, None);
      MergeOneSided(c, a, i + 1, k + 1, t);
      OneSidedTrans(b, e, c, a);
      OneSidedTrans(b, c, d, a);
    }
  }

  // ---- the chain after a pass ----

  /** The order a payload quote became. */
  ghost predicate IsQuote(b: Book, a: Pass, q: Quote, o: Order) {
    && o.side == a.side && o.maker == a.m && o.lots == q.lots && o.expiry == a.expiry
    && a.Slid(b, q) == Ok(o.tick)
  }

  /** A resting order that a quote keeps: same tick, no larger size. */
  predicate KeptBy(a: Pass, x: Resting, q: Quote) {
    x.o.side == a.side && x.o.tick == q.tick && q.lots <= x.o.lots
  }

  /** From place `i` on the chain holds the quotes from `k` on, then what was past this side's region. */
  ghost predicate Merged(b: Book, a: Pass, v: seq<Resting>, w: seq<Resting>, i: nat, k: nat, cursor: nat)
    requires i <= |v| && k <= |a.quotes|
  {
    && cursor == i + |a.quotes| - k <= |w|
    && w[..i] == v[..i] && w[cursor..] == Past(v[i..], a.side)
    && forall j | k <= j < |a.quotes| :: IsQuote(b, a, a.quotes[j], w[i + j - k].o)
  }

  /** Size down or same keeps the node, the id and the place; anything else is posted afresh. */
  ghost predicate Placed(issued: nat, a: Pass, v: seq<Resting>, i: nat, q: Quote, y: Resting) {
    && (forall n | i <= n < |v| && KeptBy(a, v[n], q) ::
          y == v[n].(o := v[n].o.(lots := q.lots, expiry := a.expiry)))
    && (y.o.stamp >= issued || exists n :: i <= n < |v| && KeptBy(a, v[n], q))
  }

  ghost predicate Prioritized(issued: nat, a: Pass, v: seq<Resting>, w: seq<Resting>, i: nat, k: nat)
    requires i <= |v| && k <= |a.quotes| && i + |a.quotes| - k <= |w|
  {
    forall j | k <= j < |a.quotes| :: Placed(issued, a, v, i, a.quotes[j], w[i + j - k])
  }

  predicate Ascending(qs: seq<Quote>, k: nat) {
    forall j, n | k <= j < n < |qs| :: qs[j].tick < qs[n].tick
  }

  // Each kind of step, on the views.

  lemma PastStep(v: seq<Resting>, i: nat, side: Side)
    requires i < |v| && v[i].o.side == side
    ensures Past(v[i..], side) == Past(v[i + 1..], side)
  {
    assert v[i..][1..] == v[i + 1..];
  }

  lemma KilledView(b: Book, a: Pass, v: seq<Resting>, w: seq<Resting>, i: nat, k: nat, cursor: nat)
    requires i < |v| && k <= |a.quotes| && v[i].o.side == a.side
    requires Merged(b, a, v[..i] + v[i + 1..], w, i, k, cursor)
    ensures Merged(b, a, v, w, i, k, cursor)
  {
    hide Past, IsQuote;
    var u := v[..i] + v[i + 1..];
    PastStep(v, i, a.side);
    assert u[i..] == v[i + 1..] && u[..i] == v[..i];
  }

  lemma KilledPriority(issued: nat, a: Pass, v: seq<Resting>, i: nat, q: Quote, y: Resting)
    requires i < |v| && !KeptBy(a, v[i], q)
    requires Placed(issued, a, v[..i] + v[i + 1..], i, q, y)
    ensures Placed(issued, a, v, i, q, y)
  {
    var u := v[..i] + v[i + 1..];
    assert forall n | i < n < |v| :: v[n] == u[n - 1];
    assert forall n | i <= n < |u| :: u[n] == v[n + 1];
  }

  lemma KeptView(b: Book, c: Book, a: Pass, v: seq<Resting>, w: seq<Resting>, i: nat, k: nat, cursor: nat, x: Resting)
    requires i < |v| && k < |a.quotes| && v[i].o.side == a.side && c.anchor == b.anchor && c.p == b.p
    requires Merged(c, a, v[i := x], w, i + 1, k + 1, cursor) && IsQuote(b, a, a.quotes[k], x.o)
    ensures Merged(b, a, v, w, i, k, cursor)
  {
    hide Past;
    var u := v[i := x];
    PastStep(v, i, a.side);
    assert u[i + 1..] == v[i + 1..] && w[..i + 1] == u[..i + 1];
    assert w[..i] == w[..i + 1][..i] && v[..i] == u[..i + 1][..i];
    assert w[i] == w[..i + 1][i];
  }

  lemma KeptPriority(issued: nat, a: Pass, v: seq<Resting>, i: nat, x: Resting, q: Quote, y: Resting)
    requires i < |v| && v[i].o.tick != q.tick
    requires Placed(issued, a, v[i := x], i + 1, q, y)
    ensures Placed(issued, a, v, i, q, y)
  {
    var u := v[i := x];
    assert forall n | i < n < |v| :: u[n] == v[n];
  }

  lemma InsertedView(b: Book, c: Book, a: Pass, v: seq<Resting>, w: seq<Resting>, i: nat, k: nat, cursor: nat,
      x: Resting)
    requires i <= |v| && k < |a.quotes| && c.anchor == b.anchor && c.p == b.p
    requires Merged(c, a, v[..i] + [x] + v[i..], w, i + 1, k + 1, cursor) && IsQuote(b, a, a.quotes[k], x.o)
    ensures Merged(b, a, v, w, i, k, cursor)
    ensures w[i] == x
  {
    hide Past;
    var u := v[..i] + [x] + v[i..];
    assert u[i + 1..] == v[i..] && w[..i + 1] == u[..i + 1];
    assert w[..i] == w[..i + 1][..i] && v[..i] == u[..i + 1][..i];
    assert w[i] == w[..i + 1][i] == x;
  }

  lemma InsertedPriority(issued: nat, later: nat, a: Pass, v: seq<Resting>, i: nat, x: Resting, q: Quote, y: Resting)
    requires i <= |v| && issued <= later
    requires Placed(later, a, v[..i] + [x] + v[i..], i + 1, q, y)
    ensures Placed(issued, a, v, i, q, y)
  {
    var u := v[..i] + [x] + v[i..];
    assert forall n | i <= n < |v| :: v[n] == u[n + 1];
    assert forall n | i < n < |u| :: u[n] == v[n - 1];
  }

  lemma Ascends(b: Book, a: Pass, i: nat, k: nat, used: nat)
    requires b.Inv() && a.Ok() && a.Hoisted(b) && MergeAt(b, a, i, used) && k <= |a.quotes|
    requires Merge(b, a, i, k, used).Ok?
    ensures k < |a.quotes| ==> !BadOrder(a, k) && 0 < a.quotes[k].lots <= b.p.maxLots
  {}

  lemma AscendingFrom(qs: seq<Quote>, k: nat)
    requires k < |qs| && Ascending(qs, k + 1) && (k + 1 < |qs| ==> qs[k].tick < qs[k + 1].tick)
    ensures Ascending(qs, k)
  {}

  /** A resting quote at its own tick neither crosses nor leaves the window, so it never slides. */
  lemma KeptSlides(b: Book, a: Pass, i: nat, q: Quote)
    requires b.Inv() && a.Ok() && a.Hoisted(b) && Current(b, a, i).Some? && Current(b, a, i).value.o.tick == q.tick
    ensures a.Slid(b, q) == Ok(q.tick)
  {
    hide Book.Inv, View, Best;
    ViewFacts(b, a.m);
    BestIsBest(b, a.side.Opposite());
    NoCross(b);
    InTheWindow(b, Current(b, a, i).value.h);
  }

  lemma InTheWindow(b: Book, h: nat)
    requires b.Inv() && h in b.orders
    ensures b.InWindow(b.orders[h].tick) && b.orders[h].tick <= b.p.tickLimit && 64 <= b.orders[h].tick
  {
    OrderFacts(b, h);
  }

  lemma StepIssued(b: Book, h: nat)
    requires b.Inv() && h in b.orders
    ensures Kill(b, h).issued == b.issued
  {
    hide Book.Inv;
    OrderFacts(b, h);
  }

  lemma InsertIssued(b: Book, a: Pass, i: nat, q: Quote, used: nat, next: Option<nat>)
    requires b.Inv() && a.Ok() && a.Hoisted(b) && MergeAt(b, a, i, used) && Ahead(b, a, i, q, next)
    requires 0 < q.lots <= b.p.maxLots && MergeInsert(b, a, i, q, used, next).Ok?
    ensures MergeInsert(b, a, i, q, used, next).value.0.issued == b.issued + 1
  {
    hide Book.Inv, View, CanPost, Best, CheckOrSlide, Ahead, MergeAt;
    var t := a.Slid(b, q).value;
    InsertFits(b, a, i, used, q, next, t);
    CheckedCanPost(b, a.side, q.tick, !q.RejectOnCross(), t, q.lots, a.m, a.expiry, i);
    ChainMembers(b, a.m);
  }

  /** After an insert: the new order is quote `k`, and no resting order from `i` on is kept by it. */
  lemma InsertedQuotes(b: Book, c: Book, a: Pass, v: seq<Resting>, w: seq<Resting>, i: nat, k: nat, cursor: nat,
      x: Resting)
    requires i <= |v| && k < |a.quotes| && Ascending(a.quotes, k)
    requires c.anchor == b.anchor && c.p == b.p && b.issued <= c.issued
    requires IsQuote(b, a, a.quotes[k], x.o) && x.o.stamp == b.issued
    requires forall n | i <= n < |v| :: !KeptBy(a, v[n], a.quotes[k])
    requires var u := v[..i] + [x] + v[i..];
      Merged(c, a, u, w, i + 1, k + 1, cursor) && Prioritized(c.issued, a, u, w, i + 1, k + 1)
    ensures Merged(b, a, v, w, i, k, cursor) && Prioritized(b.issued, a, v, w, i, k)
  {
    hide Past;
    InsertedView(b, c, a, v, w, i, k, cursor, x);
    forall j | k <= j < |a.quotes|
      ensures Placed(b.issued, a, v, i, a.quotes[j], w[i + j - k])
    {
      if j > k {
        assert Placed(c.issued, a, v[..i] + [x] + v[i..], i + 1, a.quotes[j], w[(i + 1) + j - (k + 1)]);
        InsertedPriority(b.issued, c.issued, a, v, i, x, a.quotes[j], w[i + j - k]);
      }
    }
  }

  lemma KilledQuotes(b: Book, c: Book, a: Pass, v: seq<Resting>, w: seq<Resting>, i: nat, k: nat, cursor: nat)
    requires i < |v| && k <= |a.quotes| && v[i].o.side == a.side && Ascending(a.quotes, k)
    requires c.anchor == b.anchor && c.p == b.p && c.issued == b.issued
    requires forall j | k <= j < |a.quotes| :: !KeptBy(a, v[i], a.quotes[j])
    requires var u := v[..i] + v[i + 1..];
      Merged(c, a, u, w, i, k, cursor) && Prioritized(c.issued, a, u, w, i, k)
    ensures Merged(b, a, v, w, i, k, cursor) && Prioritized(b.issued, a, v, w, i, k)
  {
    hide Past, Placed, KeptBy;
    KilledView(c, a, v, w, i, k, cursor);
    forall j | k <= j < |a.quotes|
      ensures Placed(b.issued, a, v, i, a.quotes[j], w[i + j - k])
    {
      KilledPriority(b.issued, a, v, i, a.quotes[j], w[i + j - k]);
    }
  }

  lemma KeptPlace(issued: nat, a: Pass, v: seq<Resting>, i: nat, q: Quote)
    requires i < |v| && KeptBy(a, v[i], q)
    requires forall n | i < n < |v| :: v[i].o.SortKey() < v[n].o.SortKey()
    ensures Placed(issued, a, v, i, q, v[i].(o := v[i].o.(lots := q.lots, expiry := a.expiry)))
  {}

  lemma KeptQuotes(b: Book, c: Book, a: Pass, v: seq<Resting>, w: seq<Resting>, i: nat, k: nat, cursor: nat)
    requires i < |v| && k < |a.quotes| && Ascending(a.quotes, k)
    requires v[i].o.side == a.side && v[i].o.tick == a.quotes[k].tick && a.quotes[k].lots <= v[i].o.lots
    requires c.anchor == b.anchor && c.p == b.p && c.issued == b.issued
    requires forall n | i < n < |v| :: v[i].o.SortKey() < v[n].o.SortKey()
    requires var x := v[i].(o := v[i].o.(lots := a.quotes[k].lots, expiry := a.expiry));
      var u := v[i := x];
      && IsQuote(b, a, a.quotes[k], x.o)
      && Merged(c, a, u, w, i + 1, k + 1, cursor) && Prioritized(c.issued, a, u, w, i + 1, k + 1)
    ensures Merged(b, a, v, w, i, k, cursor) && Prioritized(b.issued, a, v, w, i, k)
  {
    hide Past, Placed, IsQuote;
    var x := v[i].(o := v[i].o.(lots := a.quotes[k].lots, expiry := a.expiry));
    KeptView(b, c, a, v, w, i, k, cursor, x);
    assert w[i] == w[..i + 1][i] == v[i := x][i];
    KeptPlace(b.issued, a, v, i, a.quotes[k]);
    forall j | k <= j < |a.quotes|
      ensures Placed(b.issued, a, v, i, a.quotes[j], w[i + j - k])
    {
      if j > k {
        assert Placed(c.issued, a, v[i := x], i + 1, a.quotes[j], w[(i + 1) + j - (k + 1)]);
        KeptPriority(b.issued, a, v, i, x, a.quotes[j], w[i + j - k]);
      }
    }
  }

  // Each kind of step, on the books.

  /** What a pass from `(b, i, k)` promises of its result. */
  ghost predicate Leaves(b: Book, a: Pass, i: nat, k: nat, d: Book, cursor: nat)
    requires b.Inv() && a.Ok() && k <= |a.quotes|
  {
    && i <= |View(b, a.m)| && Ascending(a.quotes, k)
    && d.Inv() && d.p == b.p && d.anchor == b.anchor
    && Merged(b, a, View(b, a.m), View(d, a.m), i, k, cursor)
    && Prioritized(b.issued, a, View(b, a.m), View(d, a.m), i, k)
  }

  lemma KillLeaves(b: Book, a: Pass, i: nat, k: nat, used: nat, d: Book, cursor: nat)
    requires b.Inv() && a.Ok() && a.Hoisted(b) && MergeAt(b, a, i, used) && k <= |a.quotes|
    requires Current(b, a, i).Some?
    requires var x := Current(b, a, i).value.o;
      k < |a.quotes| ==> x.tick < a.quotes[k].tick || (x.tick == a.quotes[k].tick && x.lots < a.quotes[k].lots)
    requires Leaves(Kill(b, Current(b, a, i).value.h), a, i, k, d, cursor)
    ensures Leaves(b, a, i, k, d, cursor)
  {
    hide Book.Inv, View, Kill, MergeAt, Merged, Prioritized, Best, Ascending, KeptBy;
    var x := Current(b, a, i).value;
    var v := View(b, a.m);
    KillMerge(b, a, i, used);
    StepIssued(b, x.h);
    NoneKeeps(a, v[i], k);
    KilledQuotes(b, Kill(b, x.h), a, v, View(d, a.m), i, k, cursor);
  }

  lemma InsertLeaves(b: Book, a: Pass, i: nat, k: nat, used: nat, next: Option<nat>, d: Book, cursor: nat)
    requires b.Inv() && a.Ok() && a.Hoisted(b) && MergeAt(b, a, i, used) && k < |a.quotes|
    requires Ahead(b, a, i, a.quotes[k], next) && 0 < a.quotes[k].lots <= b.p.maxLots
    requires MergeInsert(b, a, i, a.quotes[k], used, next).Ok?
    requires k + 1 < |a.quotes| ==> a.quotes[k].tick < a.quotes[k + 1].tick
    requires MergeInsert(b, a, i, a.quotes[k], used, next).value.0.Inv()
    requires Leaves(MergeInsert(b, a, i, a.quotes[k], used, next).value.0, a, i + 1, k + 1, d, cursor)
    ensures Leaves(b, a, i, k, d, cursor)
  {
    hide Book.Inv, View, MergeInsert, MergeAt, Ahead, Merged, Prioritized, IsQuote, Best, Ascending, KeptBy;
    var (c, t) := MergeInsert(b, a, i, a.quotes[k], used, next).value;
    CursorFits(b, a, i, used);
    NotKept(b, a, i, a.quotes[k], next);
    InsertMerge(b, a, i, a.quotes[k], used, next);
    InsertIssued(b, a, i, a.quotes[k], used, next);
    var y := Resting(b.free[0], Order(a.side, t, a.m, a.quotes[k].lots, a.expiry, b.issued));
    NewQuote(b, a, a.quotes[k], t, y);
    AscendingFrom(a.quotes, k);
    InsertedQuotes(b, c, a, View(b, a.m), View(d, a.m), i, k, cursor, y);
  }

  lemma KeepLeaves(b: Book, a: Pass, i: nat, k: nat, used: nat, d: Book, cursor: nat)
    requires b.Inv() && a.Ok() && a.Hoisted(b) && MergeAt(b, a, i, used) && k < |a.quotes|
    requires Current(b, a, i).Some? && 0 < a.quotes[k].lots
    requires var x := Current(b, a, i).value.o;
      x.tick == a.quotes[k].tick && a.quotes[k].lots <= x.lots
    requires k + 1 < |a.quotes| ==> a.quotes[k].tick < a.quotes[k + 1].tick
    requires Leaves(Amend(b, Current(b, a, i).value.h, a.quotes[k].lots, a.expiry), a, i + 1, k + 1, d, cursor)
    ensures Leaves(b, a, i, k, d, cursor)
  {
    hide Book.Inv, View, Amend, MergeAt, Merged, Prioritized, IsQuote, Best, Ascending;
    var x, q := Current(b, a, i).value, a.quotes[k];
    ViewFacts(b, a.m);
    KeepMerge(b, a, i, used, q);
    KeptSlides(b, a, i, q);
    KeptQuote(b, a, q, x.o);
    AmendIssued(b, x.h, q.lots, a.expiry);
    AscendingFrom(a.quotes, k);
    KeptQuotes(b, Amend(b, x.h, q.lots, a.expiry), a, View(b, a.m), View(d, a.m), i, k, cursor);
  }

  /**
   A successful pass leaves, from its start on, exactly the payload's quotes of this
   side in payload order, then what was past the region; a quote kept at its own tick
   with lots not increased keeps its node and id.
   */
  lemma {:induction false} MergeQuotes(b: Book, a: Pass, i: nat, k: nat, used: nat)
    requires b.Inv() && a.Ok() && a.Hoisted(b) && MergeAt(b, a, i, used) && k <= |a.quotes|
    requires Merge(b, a, i, k, used).Ok?
    ensures var (d, cursor) := Merge(b, a, i, k, used).value;
      Leaves(b, a, i, k, d, cursor)
    decreases 2 * (|a.quotes| - k) + |View(b, a.m)| - i
  {
    hide Book.Inv, View, Kill, Amend, MergeInsert, MergeAt, Ahead, Leaves, Best;
    CursorFits(b, a, i, used);
    Ascends(b, a, i, k, used);
    var x := Current(b, a, i);
    var (d, cursor) := Merge(b, a, i, k, used).value;
    if x.Some? && (k == |a.quotes| || x.value.o.tick < a.quotes[k].tick) {
      KillMerge(b, a, i, used);
      MergeQuotes(Kill(b, x.value.h), a, i, k, used);
      KillLeaves(b, a, i, k, used, d, cursor);
    } else if x.None? && k == |a.quotes| {
      NothingLeft(b, a, i, k);
    } else if x.None? || a.quotes[k].tick < x.value.o.tick {
      var next := if x.Some? then Some(x.value.o.tick) else None;
      PastRegion(b, a, i, k, used);
      InsertMerge(b, a, i, a.quotes[k], used, next);
      var (c, t) := MergeInsert(b, a, i, a.quotes[k], used, next).value;
      MergeQuotes(c, a, i + 1, k + 1, t);
      Ascends(c, a, i + 1, k + 1, t);
      InsertLeaves(b, a, i, k, used, next, d, cursor);
    } else if a.quotes[k].lots <= x.value.o.lots {
      var c := Amend(b, x.value.h, a.quotes[k].lots, a.expiry);
      KeepMerge(b, a, i, used, a.quotes[k]);
      MergeQuotes(c, a, i + 1, k + 1, a.quotes[k].tick);
      Ascends(c, a, i + 1, k + 1, a.quotes[k].tick);
      KeepLeaves(b, a, i, k, used, d, cursor);
    } else {
      var e := Kill(b, x.value.h);
      KillMerge(b, a, i, used);
      Reposted(b, a, i, used, a.quotes[k]);
      InsertMerge(e, a, i, a.quotes[k], used, None);
      var (c, t) := MergeInsert(e, a, i, a.quotes[k], used, None).value;
      MergeQuotes(c, a, i + 1, k + 1, t);
      Ascends(c, a, i + 1, k + 1, t);
      InsertLeaves(e, a, i, k, used, None, d, cursor);
      KillLeaves(b, a, i, k, used, d, cursor);
    }
  }

  lemma NothingLeft(b: Book, a: Pass, i: nat, k: nat)
    requires b.Inv() && a.Ok() && k == |a.quotes| && i <= |View(b, a.m)| && Current(b, a, i).None?
    ensures Leaves(b, a, i, k, b, i)
  {
    hide Book.Inv, View, Merged, Prioritized;
    NothingMerged(b, a, View(b, a.m), i, k);
  }

  lemma NothingMerged(b: Book, a: Pass, v: seq<Resting>, i: nat, k: nat)
    requires i <= |v| && k == |a.quotes| && (i < |v| ==> v[i].o.side != a.side)
    ensures Merged(b, a, v, v, i, k, i) && Prioritized(b.issued, a, v, v, i, k) && Ascending(a.quotes, k)
  {}

  /** A chain order that no quote from `k` on keeps. */
  lemma NoneKeeps(a: Pass, x: Resting, k: nat)
    requires k <= |a.quotes| && Ascending(a.quotes, k)
    requires k < |a.quotes| ==>
      x.o.tick < a.quotes[k].tick || (x.o.tick == a.quotes[k].tick && x.o.lots < a.quotes[k].lots)
    ensures forall j | k <= j < |a.quotes| :: !KeptBy(a, x, a.quotes[j])
  {}

  lemma NotKept(b: Book, a: Pass, i: nat, q: Quote, next: Option<nat>)
    requires b.Inv() && a.Ok() && Ahead(b, a, i, q, next)
    ensures forall n | i <= n < |View(b, a.m)| :: !KeptBy(a, View(b, a.m)[n], q)
  {
    hide Book.Inv, View;
  }

  lemma NewQuote(b: Book, a: Pass, q: Quote, t: nat, y: Resting)
    requires a.Slid(b, q) == Ok(t) && y.o == Order(a.side, t, a.m, q.lots, a.expiry, y.o.stamp)
    ensures IsQuote(b, a, q, y.o)
  {}

  lemma KeptQuote(b: Book, a: Pass, q: Quote, o: Order)
    requires a.Slid(b, q) == Ok(q.tick) && o.side == a.side && o.maker == a.m && o.tick == q.tick
    ensures IsQuote(b, a, q, o.(lots := q.lots, expiry := a.expiry))
  {}

  lemma AmendIssued(b: Book, h: nat, lots: nat, expiry: nat)
    requires b.Inv() && h in b.orders && 0 < lots <= b.orders[h].lots && expiry <= U32_MAX
    ensures Amend(b, h, lots, expiry).issued == b.issued
  {
    hide Book.Inv;
    OrderFacts(b, h);
  }
}
