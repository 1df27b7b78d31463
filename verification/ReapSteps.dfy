/** Walking a level's FIFO while reaping it. */
module ReapSteps {
  import opened Base
  import opened Bitmaps
  import opened Seqs
  import opened Links
  import opened Books
  import opened Changes
  import opened Layout
  import opened Represent
  import opened Posting
  import opened Hygiene
  import opened QuotingProperties
  import opened Reaping
  import Frames
  import Ops

  /** The walk stands before `rest`; what it passed and kept is `before`. */
  ghost predicate Walking(b: Book, a: Reap, t: nat, before: seq<nat>, rest: seq<nat>) {
    b.Inv() && b.InWindow(t) && Frames.Queue(b, a.side, t) == before + rest && RestOf(b.orders, a.side, t, rest)
  }

  ghost function LevelReaped(b: Book, a: Reap, t: nat, n: nat): Reaped {
    if b.Inv() && t in b.Levels(a.side) then LevelIsRest(b, a, t); Reaping.ReapLevel(b, a, t, b.Levels(a.side)[t], n)
    else Reaped(b, n, false)
  }

  ghost function RestReaped(b: Book, a: Reap, t: nat, rest: seq<nat>, n: nat): Reaped {
    if b.Inv() && RestOf(b.orders, a.side, t, rest) then Reaping.ReapLevel(b, a, t, rest, n) else Reaped(b, n, false)
  }

  lemma WalkStarts(b: Book, a: Reap, t: nat, n: nat)
    requires b.Inv() && t in b.Levels(a.side)
    ensures b.Levels(a.side)[t] != [] && Walking(b, a, t, [], b.Levels(a.side)[t])
    ensures LevelReaped(b, a, t, n) == RestReaped(b, a, t, b.Levels(a.side)[t], n)
    ensures At(b.Levels(a.side)[t], 0) == b.Levels(a.side)[t][0]
  {
    hide Book.Inv, RestOf;
    LevelIsRest(b, a, t);
    QueueIsOk(b, a.side, t);
    assert [] + b.Levels(a.side)[t] == b.Levels(a.side)[t];
  }

  /** The node the walk stands on, and the one its link leads to. */
  lemma WalkFacts(r: Raw, b: Book, a: Reap, t: nat, before: seq<nat>, rest: seq<nat>, n: nat)
    requires Walking(b, a, t, before, rest) && Rep(r, b) && At(rest, 0) != 0
    ensures rest != [] && rest[0] == At(rest, 0) && rest[0] in b.orders && 0 < rest[0] < |r.pool|
    ensures r.pool[rest[0]].next == At(rest[1..], 0) && r.pool[rest[0]].expiry == b.orders[rest[0]].expiry
    ensures b.orders[rest[0]].side == a.side && b.orders[rest[0]].tick == t
    ensures Lapsed(r.pool[rest[0]].expiry, a.slot) == b.orders[rest[0]].Expired(a.slot)
    ensures RestReaped(b, a, t, rest, n) ==
      if !b.orders[rest[0]].Expired(a.slot) then RestReaped(b, a, t, rest[1..], n)
      else if n + 1 >= a.max then Reaped(Ops.Kill(b, rest[0]), n + 1, true)
      else RestReaped(Ops.Kill(b, rest[0]), a, t, rest[1..], n + 1)
    ensures |Ops.Kill(b, rest[0]).orders| == |b.orders| - 1
  {
    hide Book.Inv, Ops.Kill, Removed, ChainsRep, FreeRep, FundsRep, HeaderRep, LevelsRep, VacantRep, BitsRep, Rising;
    RestAfter(b, a, t, rest);
    KillRemoves(b, rest[0]);
    NodeLots(r, b, rest[0]);
    QueueNext(r, b, a.side, t, before, rest);
  }

  lemma QueueNext(r: Raw, b: Book, side: Side, t: nat, before: seq<nat>, rest: seq<nat>)
    requires Rep(r, b) && rest != [] && Frames.Queue(b, side, t) == before + rest
    ensures 0 < rest[0] < |r.pool| && r.pool[rest[0]].next == At(rest[1..], 0)
  {
    hide ChainsRep, FreeRep, FundsRep, HeaderRep, NodesRep, Linked, Book.Inv;
    var q := before + rest;
    assert q != [] && t in b.Levels(side) && b.Levels(side)[t] == q;
    assert LevelIs(r.pool, r.levels[Slot(t)], b.orders, q);
    LinkAt(Prev(r.pool), Next(r.pool), q, |before|);
    assert q[|before|] in q;
  }

  lemma WalkSkips(b: Book, a: Reap, t: nat, before: seq<nat>, rest: seq<nat>)
    requires Walking(b, a, t, before, rest) && rest != []
    ensures Walking(b, a, t, before + [rest[0]], rest[1..])
  {
    hide Book.Inv, RestOf;
    RestAfter(b, a, t, rest);
    assert before + rest == (before + [rest[0]]) + rest[1..];
  }

  lemma WalkKills(b: Book, a: Reap, t: nat, before: seq<nat>, rest: seq<nat>)
    requires Walking(b, a, t, before, rest) && rest != []
    ensures rest[0] in b.orders && Walking(Ops.Kill(b, rest[0]), a, t, before, rest[1..])
  {
    hide Book.Inv, Ops.Kill, RestOf;
    RestAfter(b, a, t, rest);
    var h := rest[0];
    KillRequeues(b, h);
    QueueOfOrder(b, h);
    DistinctWithout(before, rest);
    SameAnchor(b, h);
  }

  lemma SameAnchor(b: Book, h: nat)
    requires b.Inv() && h in b.orders
    ensures Ops.Kill(b, h).anchor == b.anchor
  {}

  lemma QueueOfOrder(b: Book, h: nat)
    requires b.Inv() && h in b.orders
    ensures Distinct(Frames.Queue(b, b.orders[h].side, b.orders[h].tick))
  {
    hide Book.Inv;
    Ops.OrderFacts(b, h);
    QueueIsOk(b, b.orders[h].side, b.orders[h].tick);
    QueueDistinct(b, b.orders[h].side, b.orders[h].tick);
  }

  lemma DistinctWithout(before: seq<nat>, rest: seq<nat>)
    requires rest != [] && Distinct(before + rest)
    ensures rest[0] in before + rest && Without(before + rest, rest[0]) == before + rest[1..]
  {
    var q := before + rest;
    assert q[|before|] == rest[0];
    assert IndexOf(q, rest[0]) == |before|;
  }

  lemma WalkEnds(b: Book, a: Reap, t: nat, before: seq<nat>, rest: seq<nat>, n: nat)
    requires Walking(b, a, t, before, rest) && At(rest, 0) == 0
    ensures RestReaped(b, a, t, rest, n) == Reaped(b, n, false)
  {
    hide Book.Inv;
    if rest != [] {
      assert rest[0] in rest;
      Ops.OrderFacts(b, rest[0]);
      assert false;
    }
  }

  // ---- from level to level ----

  /** What is still to come of a walk from tick `t`. */
  ghost function FromReaped(b: Book, a: Reap, t: nat, n: nat): (Book, nat) {
    if b.Inv() then (var r := ReapFrom(b, a, t, n); (r.book, r.count)) else (b, n)
  }

  ghost function SideReaped(b: Book, a: Reap, start: nat): (Book, nat) {
    if b.Inv() then Reaping.ReapExpired(b, a, start) else (b, 0)
  }

  lemma ReapStarts(b: Book, a: Reap, start: nat)
    requires b.Inv()
    ensures var t := Min(Max(start, b.anchor), b.anchor + WINDOW_MASK);
      b.InWindow(t) && SideReaped(b, a, start) == FromReaped(b, a, t, 0)
  {
    hide Book.Inv, ReapFrom;
  }

  /** From tick `t` and `n` reaped, the walk has come to `c` and `count`, to go on at `next` if anywhere. */
  ghost predicate Onward(b: Book, a: Reap, t: nat, n: nat, c: Book, count: nat, next: Option<nat>) {
    && c.anchor == b.anchor && n + |b.orders| == count + |c.orders|
    && (next.Some? ==> c.InWindow(next.value) && t < next.value)
    && FromReaped(b, a, t, n) ==
         match next case None => (c, count) case Some(u) => FromReaped(c, a, u, count)
  }

  lemma FoundLevel(b: Book, a: Reap, t: nat, n: nat, u: Option<nat>)
    requires b.Inv() && IsLeast(b.Levels(a.side).Keys, t, b.anchor + WINDOW_TICKS, u)
    ensures u.None? ==> Onward(b, a, t, n, b, n, None)
    ensures u.Some? ==> u.value in b.Levels(a.side) && t <= u.value < b.anchor + WINDOW_TICKS
    ensures u == NextTick(b, a, t)
  {
    hide Book.Inv, NextTick;
    LeastUnique(b.Levels(a.side).Keys, t, b.anchor + WINDOW_TICKS, u, NextTick(b, a, t));
  }

  /** A level reaped: its outcome, or the rest of the walk from the tick after it. */
  lemma AfterLevel(b: Book, a: Reap, t: nat, n: nat, u: nat, c: Book, count: nat, done: bool)
    requires b.Inv() && b.InWindow(t) && NextTick(b, a, t) == Some(u)
      && LevelReaped(b, a, u, n) == Reaped(c, count, done)
    requires n + |b.orders| == count + |c.orders|
    ensures Onward(b, a, t, n, c, count, if done || u >= b.anchor + WINDOW_MASK then None else Some(u + 1))
  {
    hide Book.Inv, Reaping.ReapLevel, WalkedLevel, RestOf, NextTick;
    NextTickBounds(b, a, t);
    LevelIsRest(b, a, u);
    ReapedLevel(b, a, u, b.Levels(a.side)[u], n);
    LevelBooks(b, LevelReaped(b, a, u, n), a, u, b.Levels(a.side)[u], n);
  }

  lemma OnwardTrans(b: Book, a: Reap, start: nat, c: Book, t: nat, n: nat, d: Book, count: nat, next: Option<nat>)
    requires SideReaped(b, a, start) == FromReaped(c, a, t, n) && Onward(c, a, t, n, d, count, next)
    ensures d.anchor == c.anchor && n + |c.orders| == count + |d.orders|
    ensures next.None? ==> SideReaped(b, a, start) == (d, count)
    ensures next.Some? ==>
      && d.InWindow(next.value) && t < next.value && SideReaped(b, a, start) == FromReaped(d, a, next.value, count)
  {
    hide FromReaped, SideReaped;
  }
}
