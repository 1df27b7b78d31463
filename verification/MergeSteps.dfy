/** The steps of a merge pass on an account that represents a book. */
module MergeSteps {
  import opened Base
  import opened Links
  import opened Books
  import opened Layout
  import opened Represent
  import opened Posting
  import opened Matching
  import opened Quoting
  import opened Merging
  import opened MergingProperties
  import Frames
  import Ops

  lemma QuietFits(b: Book, c: Book)
    requires Frames.Quiet(b, c) && b.Fits()
    ensures c.Fits()
  {
    hide Book.Inv;
    Frames.QuietConserves(b, c, true);
    Frames.QuietConserves(b, c, false);
  }

  /** The chain's handles are those of its view. */
  lemma AtView(b: Book, m: nat, i: int)
    requires b.Inv() && m < MAX_SEATS
    ensures m < |b.chains|
    ensures At(b.chains[m], i) == if 0 <= i < |View(b, m)| then View(b, m)[i].h else 0
  {
    hide Book.Inv, View;
    ViewFacts(b, m);
    ChainMembers(b, m);
  }

  /** What the cursor shows: the order at place `i`, and whether it is in this side's region. */
  lemma CursorNode(r: Raw, b: Book, a: Pass, i: nat, cur: u16)
    requires b.Inv() && Rep(r, b) && a.Ok() && i <= |View(b, a.m)| && a.m < |b.chains| && cur == At(b.chains[a.m], i)
    ensures cur == NIL <==> i == |View(b, a.m)|
    ensures cur != NIL ==>
      && cur < |r.pool| && cur in b.orders && NodeIs(r.pool[cur], b.orders[cur])
        && View(b, a.m)[i] == Resting(cur, b.orders[cur])
      && r.pool[cur].makerNext == At(b.chains[a.m], i + 1)
    ensures Current(b, a, i) ==
      if cur != NIL && b.orders[cur].side == a.side then Some(Resting(cur, b.orders[cur])) else None
  {
    hide Book.Inv, View, QueuesRep, FreeRep, ChainsRep, NodeIs;
    ViewFacts(b, a.m);
    ViewLengthIs(b, a.m);
    AtView(b, a.m, i);
    WalkNode(r.pool, r.seats, b, b.orders, a.m, i);
  }

  lemma ViewLengthIs(b: Book, m: nat)
    requires b.Inv() && m < MAX_SEATS
    ensures m < |b.chains| && |View(b, m)| == |b.chains[m]|
  {}

  /** The pass, seen from a later point of it. */
  ghost predicate Same(b: Book, c: Book, a: Pass, i0: nat, i: nat, k: nat, used: nat)
    requires b.Inv() && a.Ok() && a.Hoisted(b) && MergeAt(b, a, i0, 0)
  {
    && c.Inv() && a.Hoisted(c) && MergeAt(c, a, i, used) && k <= |a.quotes| && c.Fits() && a.m < |c.chains|
    && Merge(b, a, i0, 0, 0) == Merge(c, a, i, k, used)
  }

  /** How far the pass still has to go. */
  ghost function Measure(b: Book, a: Pass, i: nat, k: nat): int
    requires b.Inv() && a.Ok()
  {
    2 * (|a.quotes| - k) + |View(b, a.m)| - i
  }

  ghost predicate GoodQuote(b: Book, a: Pass, k: nat) {
    k < |a.quotes| ==> !BadOrder(a, k) && 0 < a.quotes[k].lots <= b.p.maxLots
  }

  lemma KillStep(b: Book, c: Book, a: Pass, i0: nat, i: nat, k: nat, used: nat, x: Resting)
    requires b.Inv() && a.Ok() && a.Hoisted(b) && MergeAt(b, a, i0, 0) && Same(b, c, a, i0, i, k, used)
    requires GoodQuote(c, a, k) && Current(c, a, i) == Some(x) && (k == |a.quotes| || x.o.tick < a.quotes[k].tick)
    ensures var d := Ops.Kill(c, x.h);
      && Same(b, d, a, i0, i, k, used) && Measure(d, a, i, k) < Measure(c, a, i, k) && i <= |View(d, a.m)|
      && At(d.chains[a.m], i - 1) == At(c.chains[a.m], i - 1) && At(d.chains[a.m], i) == At(c.chains[a.m], i + 1)
  {
    hide Book.Inv, View, Ops.Kill, Best, Book.Fits;
    var d := Ops.Kill(c, x.h);
    KillMerge(c, a, i, used);
    Frames.KillQuiet(c, x.h);
    QuietFits(c, d);
    ViewLengthIs(d, a.m);
    KilledCursor(c, d, a.m, i);
  }

  lemma KilledCursor(c: Book, d: Book, m: nat, i: nat)
    requires c.Inv() && d.Inv() && m < MAX_SEATS && i < |View(c, m)|
      && View(d, m) == View(c, m)[..i] + View(c, m)[i + 1..]
    ensures m < |c.chains| && m < |d.chains|
    ensures At(d.chains[m], i - 1) == At(c.chains[m], i - 1) && At(d.chains[m], i) == At(c.chains[m], i + 1)
  {
    hide Book.Inv, View;
    AtView(c, m, i - 1);
    AtView(d, m, i - 1);
    AtView(c, m, i + 1);
    AtView(d, m, i);
  }

  lemma InsertedCursor(c: Book, d: Book, m: nat, i: nat, x: Resting)
    requires c.Inv() && d.Inv() && m < MAX_SEATS && i <= |View(c, m)|
      && View(d, m) == View(c, m)[..i] + [x] + View(c, m)[i..]
    ensures m < |c.chains| && m < |d.chains|
    ensures At(d.chains[m], i) == x.h && At(d.chains[m], i + 1) == At(c.chains[m], i)
  {
    hide Book.Inv, View;
    AtView(d, m, i);
    AtView(c, m, i);
    AtView(d, m, i + 1);
  }

  lemma KeepStep(b: Book, c: Book, a: Pass, i0: nat, i: nat, k: nat, used: nat, x: Resting)
    requires b.Inv() && a.Ok() && a.Hoisted(b) && MergeAt(b, a, i0, 0) && Same(b, c, a, i0, i, k, used)
    requires GoodQuote(c, a, k) && k < |a.quotes| && Current(c, a, i) == Some(x)
    requires x.o.tick == a.quotes[k].tick && a.quotes[k].lots <= x.o.lots
    ensures var d := Ops.Amend(c, x.h, a.quotes[k].lots, a.expiry);
      && Same(b, d, a, i0, i + 1, k + 1, a.quotes[k].tick) && Measure(d, a, i + 1, k + 1) < Measure(c, a, i, k)
      && i + 1 <= |View(d, a.m)|
      && At(d.chains[a.m], i) == x.h && At(d.chains[a.m], i + 1) == At(c.chains[a.m], i + 1)
  {
    hide Book.Inv, View, Ops.Amend, Best, Book.Fits;
    var d := Ops.Amend(c, x.h, a.quotes[k].lots, a.expiry);
    KeepMerge(c, a, i, used, a.quotes[k]);
    Frames.AmendQuiet(c, x.h, a.quotes[k].lots, a.expiry);
    QuietFits(c, d);
    ViewLengthIs(d, a.m);
    AtView(d, a.m, i);
    AtView(d, a.m, i + 1);
    AtView(c, a.m, i + 1);
  }

  /** The next resting tick of the region, for the stacking guard. */
  ghost function RegionNext(b: Book, a: Pass, i: nat): Option<nat>
    requires b.Inv() && a.Ok()
  {
    match Current(b, a, i)
    case None => None
    case Some(x) => Some(x.o.tick)
  }

  lemma InsertStep(b: Book, c: Book, a: Pass, i0: nat, i: nat, k: nat, used: nat)
    requires b.Inv() && a.Ok() && a.Hoisted(b) && MergeAt(b, a, i0, 0) && Same(b, c, a, i0, i, k, used)
    requires GoodQuote(c, a, k) && k < |a.quotes|
    requires match Current(c, a, i) case None => true case Some(x) => a.quotes[k].tick < x.o.tick
    ensures Ahead(c, a, i, a.quotes[k], RegionNext(c, a, i))
    ensures match MergeInsert(c, a, i, a.quotes[k], used, RegionNext(c, a, i))
            case Err(e) => Merge(b, a, i0, 0, 0) == Err(e)
            case Ok((d, t)) =>
              && Same(b, d, a, i0, i + 1, k + 1, t) && Measure(d, a, i + 1, k + 1) < Measure(c, a, i, k)
              && c.free != [] && At(d.chains[a.m], i) == c.free[0] && At(d.chains[a.m], i + 1) == At(c.chains[a.m], i)
  {
    hide Book.Inv, View, Best, Book.Fits, MergeInsert, MergeAt, Ahead;
    PastRegion(c, a, i, k, used);
    var next := RegionNext(c, a, i);
    if MergeInsert(c, a, i, a.quotes[k], used, next).Ok? {
      PlacedStep(c, a, i, a.quotes[k], used, next);
    }
  }

  /** A placed quote: cursor, claims and footing after it. */
  lemma PlacedStep(c: Book, a: Pass, i: nat, q: Quote, used: nat, next: Option<nat>)
    requires c.Inv() && a.Ok() && a.Hoisted(c) && MergeAt(c, a, i, used) && Ahead(c, a, i, q, next) && c.Fits()
    requires 0 < q.lots <= c.p.maxLots && MergeInsert(c, a, i, q, used, next).Ok?
    ensures var (d, t) := MergeInsert(c, a, i, q, used, next).value;
      && d.Inv() && a.Hoisted(d) && MergeAt(d, a, i + 1, t) && d.Fits() && a.m < |d.chains| && a.m < |c.chains|
      && |View(d, a.m)| == |View(c, a.m)| + 1 && d.p == c.p
      && c.free != [] && At(d.chains[a.m], i) == c.free[0] && At(d.chains[a.m], i + 1) == At(c.chains[a.m], i)
  {
    hide Book.Inv, View, Best, Book.Fits, MergeInsert, Ahead, OneSided;
    InsertMerge(c, a, i, q, used, next);
    InsertOneSided(c, a, i, q, used, next);
    var (d, t) := MergeInsert(c, a, i, q, used, next).value;
    QuietOf(c, d, a);
    QuietFits(c, d);
    InsertedCursor(c, d, a.m, i, Resting(c.free[0], Order(a.side, t, a.m, q.lots, a.expiry, c.issued)));
  }

  lemma QuietOf(c: Book, d: Book, a: Pass)
    requires OneSided(c, d, a)
    ensures Frames.Quiet(c, d)
  {}

  /** A larger size: the killed quote's successor is next in line. */
  lemma RepostStep(b: Book, c: Book, a: Pass, i0: nat, i: nat, k: nat, used: nat, x: Resting)
    requires b.Inv() && a.Ok() && a.Hoisted(b) && MergeAt(b, a, i0, 0) && Same(b, c, a, i0, i, k, used)
    requires GoodQuote(c, a, k) && k < |a.quotes| && Current(c, a, i) == Some(x)
    requires x.o.tick == a.quotes[k].tick && x.o.lots < a.quotes[k].lots
    ensures var e := Ops.Kill(c, x.h);
      && a.Hoisted(e) && MergeAt(e, a, i, used) && e.Fits() && Ahead(e, a, i, a.quotes[k], None) && a.m < |e.chains|
      && At(e.chains[a.m], i - 1) == At(c.chains[a.m], i - 1) && At(e.chains[a.m], i) == At(c.chains[a.m], i + 1)
      && match MergeInsert(e, a, i, a.quotes[k], used, None)
         case Err(err) => Merge(b, a, i0, 0, 0) == Err(err)
         case Ok((d, t)) =>
           && Same(b, d, a, i0, i + 1, k + 1, t) && Measure(d, a, i + 1, k + 1) < Measure(c, a, i, k)
           && e.free != [] && At(d.chains[a.m], i) == e.free[0] && At(d.chains[a.m], i + 1) == At(e.chains[a.m], i)
  {
    hide Book.Inv, View, Best, Book.Fits, MergeInsert, MergeAt, Ahead, Ops.Kill;
    var e := Ops.Kill(c, x.h);
    KillMerge(c, a, i, used);
    Frames.KillQuiet(c, x.h);
    QuietFits(c, e);
    KilledCursor(c, e, a.m, i);
    Reposted(c, a, i, used, a.quotes[k]);
    if MergeInsert(e, a, i, a.quotes[k], used, None).Ok? {
      PlacedStep(e, a, i, a.quotes[k], used, None);
    }
  }

  lemma DoneStep(c: Book, a: Pass, i: nat, used: nat)
    requires c.Inv() && a.Ok() && a.Hoisted(c) && MergeAt(c, a, i, used) && Current(c, a, i).None?
    ensures Merge(c, a, i, |a.quotes|, used) == Ok((c, i))
  {
    hide Book.Inv, View, Best, MergeAt;
  }

  lemma BadStep(c: Book, a: Pass, i: nat, k: nat, used: nat)
    requires c.Inv() && a.Ok() && a.Hoisted(c) && MergeAt(c, a, i, used) && k < |a.quotes|
    ensures BadOrder(a, k) ==> Merge(c, a, i, k, used) == Err(PayloadNotSorted)
    ensures !BadOrder(a, k) && (a.quotes[k].lots == 0 || a.quotes[k].lots > c.p.maxLots) ==>
      Merge(c, a, i, k, used) == Err(InvalidLots)
  {
    hide Book.Inv, View, Best, MergeAt;
  }

  // ---- the same, in total predicates for the methods' contracts ----

  /** A pass from `b` stands at place `i` of the chain of `c`, at quote `k`. */
  ghost predicate Paused(b: Book, c: Book, a: Pass, i0: nat, i: nat, k: nat, used: nat) {
    && b.Inv() && a.Ok() && a.Hoisted(b) && MergeAt(b, a, i0, 0) && Same(b, c, a, i0, i, k, used)
    && i <= |View(c, a.m)|
  }

  /** The handle at a place of the maker's chain. */
  ghost function HandleOf(c: Book, m: nat, i: int): nat { if m < |c.chains| then At(c.chains[m], i) else 0 }
  ghost function Handle(c: Book, a: Pass, i: int): nat { HandleOf(c, a.m, i) }

  ghost function ToGo(c: Book, a: Pass, i: nat, k: nat): int {
    if c.Inv() && a.Ok() then Measure(c, a, i, k) else 0
  }

  /** The cursor shows a quote of this side, at this tick and size. */
  ghost predicate Shows(c: Book, a: Pass, i: nat, cur: nat, tick: nat, lots: nat) {
    && c.Inv() && a.Ok() && cur in c.orders && cur == Handle(c, a, i) && c.orders[cur].tick == tick
      && c.orders[cur].lots == lots
    && Current(c, a, i) == Some(Resting(cur, c.orders[cur]))
  }

  predicate CancelDue(a: Pass, k: nat, tick: nat) { k < |a.quotes| ==> tick < a.quotes[k].tick }

  lemma Cancelled(b: Book, c: Book, a: Pass, i0: nat, i: nat, k: nat, used: nat, cur: nat, tick: nat, lots: nat)
    requires Paused(b, c, a, i0, i, k, used) && Shows(c, a, i, cur, tick, lots) && GoodQuote(c, a, k)
      && CancelDue(a, k, tick)
    ensures var d := Ops.Kill(c, cur);
      && Paused(b, d, a, i0, i, k, used) && ToGo(d, a, i, k) < ToGo(c, a, i, k)
      && Handle(d, a, i - 1) == Handle(c, a, i - 1) && Handle(d, a, i) == Handle(c, a, i + 1)
  {
    hide Book.Inv, View, Ops.Kill, Measure, Same, MergeAt, Best;
    StandsAt(b, c, a, i0, i, k, used);
    KillStep(b, c, a, i0, i, k, used, Resting(cur, c.orders[cur]));
    StandsAt(b, Ops.Kill(c, cur), a, i0, i, k, used);
  }

  lemma StandsAt(b: Book, c: Book, a: Pass, i0: nat, i: nat, k: nat, used: nat)
    requires b.Inv() && a.Ok() && a.Hoisted(b) && MergeAt(b, a, i0, 0) && Same(b, c, a, i0, i, k, used)
    ensures c.Inv() && a.m < |c.chains| && c.Fits() && k <= |a.quotes| && i <= |View(c, a.m)|
  {
    hide Book.Inv, View, Best;
  }

  lemma KeptQuoteStep(b: Book, c: Book, a: Pass, i0: nat, i: nat, k: nat, used: nat, cur: nat, tick: nat, lots: nat)
    requires Paused(b, c, a, i0, i, k, used) && Shows(c, a, i, cur, tick, lots) && GoodQuote(c, a, k)
    requires k < |a.quotes| && tick == a.quotes[k].tick && a.quotes[k].lots <= lots
    ensures 0 < a.quotes[k].lots <= c.orders[cur].lots
    ensures var d := Ops.Amend(c, cur, a.quotes[k].lots, a.expiry);
      && Paused(b, d, a, i0, i + 1, k + 1, a.quotes[k].tick) && ToGo(d, a, i + 1, k + 1) < ToGo(c, a, i, k)
      && Handle(d, a, i) == cur && Handle(d, a, i + 1) == Handle(c, a, i + 1)
  {
    hide Book.Inv, View, Ops.Amend, Measure, Same, MergeAt, Best;
    KeepStep(b, c, a, i0, i, k, used, Resting(cur, c.orders[cur]));
    var d := Ops.Amend(c, cur, a.quotes[k].lots, a.expiry);
    StandsAt(b, d, a, i0, i + 1, k + 1, a.quotes[k].tick);
    StandsAt(b, c, a, i0, i, k, used);
  }

  /** `MergeInsert` where it is allowed; any other use is no concern. */
  ghost predicate MayInsert(c: Book, a: Pass, i: nat, q: Quote, used: nat, next: Option<nat>) {
    && c.Inv() && a.Ok() && a.Hoisted(c) && MergeAt(c, a, i, used) && Ahead(c, a, i, q, next)
    && 0 < q.lots <= c.p.maxLots && c.Fits() && a.m < |c.chains|
  }

  ghost function Inserted(c: Book, a: Pass, i: nat, q: Quote, used: nat, next: Option<nat>): Result<(Book, nat)> {
    if MayInsert(c, a, i, q, used, next) then MergeInsert(c, a, i, q, used, next) else Err(InvalidState)
  }

  /** The insert at the cursor either fails the whole pass or moves it on by one quote. */
  ghost predicate Goes(b: Book, c: Book, a: Pass, i0: nat, i: nat, k: nat, r: Result<(Book, nat)>, before: int)
    requires b.Inv() && a.Ok() && a.Hoisted(b) && MergeAt(b, a, i0, 0)
  {
    match r
    case Err(e) => Merge(b, a, i0, 0, 0) == Err(e)
    case Ok((d, t)) =>
      && Paused(b, d, a, i0, i + 1, k + 1, t) && ToGo(d, a, i + 1, k + 1) < before
      && c.free != [] && Handle(d, a, i) == c.free[0] && Handle(d, a, i + 1) == Handle(c, a, i)
  }

  lemma AddedStep(b: Book, c: Book, a: Pass, i0: nat, i: nat, k: nat, used: nat)
    requires Paused(b, c, a, i0, i, k, used) && GoodQuote(c, a, k) && k < |a.quotes|
    requires match Current(c, a, i) case None => true case Some(x) => a.quotes[k].tick < x.o.tick
    ensures MayInsert(c, a, i, a.quotes[k], used, RegionNext(c, a, i))
    ensures Goes(b, c, a, i0, i, k, Inserted(c, a, i, a.quotes[k], used, RegionNext(c, a, i)), ToGo(c, a, i, k))
  {
    hide Book.Inv, View, Measure, MergeAt, Best, MergeInsert, Ahead, Merge, Current;
    InsertStep(b, c, a, i0, i, k, used);
    var r := MergeInsert(c, a, i, a.quotes[k], used, RegionNext(c, a, i));
    if r.Ok? { StandsAt(b, r.value.0, a, i0, i + 1, k + 1, r.value.1); }
  }

  lemma RaisedStep(b: Book, c: Book, a: Pass, i0: nat, i: nat, k: nat, used: nat, cur: nat, tick: nat, lots: nat)
    requires Paused(b, c, a, i0, i, k, used) && Shows(c, a, i, cur, tick, lots) && GoodQuote(c, a, k)
    requires k < |a.quotes| && tick == a.quotes[k].tick && lots < a.quotes[k].lots
    ensures var e := Ops.Kill(c, cur);
      && MayInsert(e, a, i, a.quotes[k], used, None)
      && Handle(e, a, i - 1) == Handle(c, a, i - 1) && Handle(e, a, i) == Handle(c, a, i + 1)
      && Goes(b, e, a, i0, i, k, Inserted(e, a, i, a.quotes[k], used, None), ToGo(c, a, i, k))
  {
    hide Book.Inv, View, Measure, MergeAt, Best, MergeInsert, Ahead, Merge, Current, Ops.Kill;
    RepostStep(b, c, a, i0, i, k, used, Resting(cur, c.orders[cur]));
    KilledParams(c, cur);
    var e := Ops.Kill(c, cur);
    var r := MergeInsert(e, a, i, a.quotes[k], used, None);
    if r.Ok? { StandsAt(b, r.value.0, a, i0, i + 1, k + 1, r.value.1); }
  }

  lemma KilledParams(c: Book, h: nat)
    requires c.Inv() && h in c.orders
    ensures Ops.Kill(c, h).p == c.p
  {}

  /** What the cursor shows on the account, and what that means for the pass. */
  lemma CursorShows(r: Raw, b: Book, c: Book, a: Pass, i0: nat, i: nat, k: nat, used: nat, cur: u16)
    requires Paused(b, c, a, i0, i, k, used) && Rep(r, c) && cur == Handle(c, a, i)
    ensures cur != NIL ==>
      && cur < |r.pool| && cur in c.orders && NodeIs(r.pool[cur], c.orders[cur])
        && r.pool[cur].makerNext == Handle(c, a, i + 1)
      && (r.pool[cur].side == a.side ==> Shows(c, a, i, cur, r.pool[cur].tick, r.pool[cur].lots))
    ensures Current(c, a, i).Some? <==> cur != NIL && r.pool[cur].side == a.side
    ensures RegionNext(c, a, i) == if cur != NIL && r.pool[cur].side == a.side then Some(r.pool[cur].tick) else None
    ensures Current(c, a, i).Some? ==> Current(c, a, i).value.o.tick == r.pool[cur].tick
  {
    hide Book.Inv, View, MergeAt, Best, Merge, Rep, Current;
    StandsAt(b, c, a, i0, i, k, used);
    CursorNode(r, c, a, i, cur);
  }

  lemma PausedFacts(b: Book, c: Book, a: Pass, i0: nat, i: nat, k: nat, used: nat)
    requires Paused(b, c, a, i0, i, k, used)
    ensures c.Inv() && c.Fits() && a.Ok() && a.Hoisted(c) && a.m < |c.chains| && k <= |a.quotes|
      && 0 <= ToGo(c, a, i, k)
    ensures Merge(b, a, i0, 0, 0) == Merge(c, a, i, k, used) && MergeAt(c, a, i, used)
  {
    hide Book.Inv, View, MergeAt, Best, Merge;
  }

  lemma StartPaused(b: Book, a: Pass, i0: nat)
    requires b.Inv() && a.Ok() && a.Hoisted(b) && MergeAt(b, a, i0, 0) && b.Fits()
    ensures Paused(b, b, a, i0, i0, 0, 0)
  {
    hide Book.Inv, Best, Merge;
    ViewLengthIs(b, a.m);
  }

  /** The link of the order the cursor has just passed. */
  lemma CursorNext(r: Raw, b: Book, c: Book, a: Pass, i0: nat, i: nat, k: nat, used: nat, cur: u16)
    requires Paused(b, c, a, i0, i + 1, k, used) && Rep(r, c) && cur == Handle(c, a, i) && cur != NIL
    ensures cur < |r.pool| && r.pool[cur].makerNext == Handle(c, a, i + 1)
  {
    hide Book.Inv, View, MergeAt, Best, Merge, Rep, Current;
    StandsAt(b, c, a, i0, i + 1, k, used);
    CursorNode(r, c, a, i, cur);
  }

  /** The outcome of an insert, case by case. */
  lemma InsertedIs(c: Book, a: Pass, i: nat, q: Quote, used: nat, next: Option<nat>)
    requires MayInsert(c, a, i, q, used, next)
    ensures c.Inv() && c.Fits() && a.m < MAX_SEATS && a.m < |c.chains| && a.best == Best(c, a.side.Opposite())
      && a.expiry <= U32_MAX
    ensures a.Slid(c, q).Err? ==> Inserted(c, a, i, q, used, next) == Err(a.Slid(c, q).error)
    ensures a.Slid(c, q).Ok? ==>
      var t := a.Slid(c, q).value;
      if t <= used || next == Some(t) then Inserted(c, a, i, q, used, next) == Err(WouldCross)
      else
        && Ops.CanPost(c, a.side, t, q.lots, a.m, a.expiry, i)
        && Inserted(c, a, i, q, used, next) ==
             match TryPost(c, a.side, t, q.lots, a.m, a.expiry, i)
             case Err(e) => Err(e)
             case Ok(d) => Ok((d, t))
  {
    hide Book.Inv, View, MergeAt, Ahead, Best, CheckOrSlide, Ops.CanPost, TryPost, Book.Fits;
    if a.Slid(c, q).Ok? && a.Slid(c, q).value > used && next != Some(a.Slid(c, q).value) {
      InsertFits(c, a, i, used, q, next, a.Slid(c, q).value);
      CheckedCanPost(c, a.side, q.tick, !q.RejectOnCross(), a.Slid(c, q).value, q.lots, a.m, a.expiry, i);
    }
  }

  lemma PausedStart(b: Book, c: Book, a: Pass, i0: nat, i: nat, k: nat, used: nat)
    requires Paused(b, c, a, i0, i, k, used)
    ensures b.Inv() && a.Ok() && a.Hoisted(b) && MergeAt(b, a, i0, 0)
  {
    hide Book.Inv, View, Best, Merge;
  }

  lemma NoQuoteLeft(c: Book, a: Pass, k: nat)
    requires k == |a.quotes|
    ensures GoodQuote(c, a, k)
  {}

  lemma BadOrderIs(a: Pass, k: nat, lastTick: nat)
    requires k < |a.quotes| && (k > 0 ==> lastTick == a.quotes[k - 1].tick)
    ensures BadOrder(a, k) <==> k > 0 && a.quotes[k].tick <= lastTick
  {}

  lemma SeatHead(r: Raw, b: Book, m: nat)
    requires b.Inv() && Rep(r, b) && m < MAX_SEATS
    ensures m < |r.seats| && r.seats[m].head == HandleOf(b, m, 0) && HandleOf(b, m, -1) == 0
  {
    hide QueuesRep, FreeRep, NodesRep, ChainLinks;
    ChainMembers(b, m);
  }
}
