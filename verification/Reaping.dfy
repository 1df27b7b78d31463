/** `reap_expired`: a bounded walk that removes expired orders of one side. */
module Reaping {
  import opened Base
  import opened Bitmaps
  import opened Seqs
  import opened Books
  import opened Ops
  import opened Frames
  import opened Matching
  import opened Hygiene
  import opened Reanchoring

  datatype Reap = Reap(side: Side, max: nat, slot: nat)

  // `done`: the count was reached.
  datatype Reaped = Reaped(book: Book, count: nat, done: bool)

  /** The rest of a level's FIFO, all of it live at this tick. */
  ghost predicate RestOf(orders: map<nat, Order>, side: Side, t: nat, q: seq<nat>) {
    Rising(StampOf(orders), q) && forall h | h in q :: h in orders && orders[h].side == side && orders[h].tick == t
  }

  lemma StampsRise(orders: map<nat, Order>, q: seq<nat>)
    requires Rising(StampOf(orders), q) && q != [] && forall h | h in q :: h in orders
    ensures Rising(StampOf(orders), q[1..]) && Rising(StampOf(orders - {q[0]}), q[1..]) && q[0] in orders
    ensures forall h | h in q[1..] :: h in q && h in orders && h != q[0] && orders[q[0]].stamp < orders[h].stamp
  {
    hide Rising;
    var f := StampOf(orders);
    RisingTail(f, q);
    forall h | h in q[1..]
      ensures h in q && h in orders && h != q[0] && orders[q[0]].stamp < orders[h].stamp
    {
      assert f(q[0]) < f(h);
    }
    SameRising(f, StampOf(orders - {q[0]}), q[1..]);
  }

  lemma RestTail(orders: map<nat, Order>, side: Side, t: nat, q: seq<nat>)
    requires RestOf(orders, side, t, q) && q != []
    ensures q[0] in orders && orders[q[0]].side == side && orders[q[0]].tick == t
    ensures RestOf(orders, side, t, q[1..]) && RestOf(orders - {q[0]}, side, t, q[1..])
    ensures forall h | h in q[1..] :: h in orders && orders[q[0]].stamp < orders[h].stamp
  {
    hide Rising, StampOf;
    StampsRise(orders, q);
  }

  lemma RestAfter(b: Book, a: Reap, t: nat, q: seq<nat>)
    requires b.Inv() && RestOf(b.orders, a.side, t, q) && q != []
    ensures q[0] in b.orders && b.orders[q[0]].side == a.side && b.orders[q[0]].tick == t
    ensures RestOf(b.orders, a.side, t, q[1..]) && RestOf(Kill(b, q[0]).orders, a.side, t, q[1..])
    ensures forall h | h in q[1..] :: h in b.orders && b.orders[q[0]].stamp < b.orders[h].stamp
  {
    hide Book.Inv, Kill, Removed, RestOf;
    RestTail(b.orders, a.side, t, q);
    KillRemoves(b, q[0]);
  }

  /** One level, from front to back. */
  ghost function ReapLevel(b: Book, a: Reap, t: nat, q: seq<nat>, n: nat): (r: Reaped)
    requires b.Inv() && RestOf(b.orders, a.side, t, q)
    ensures r.book.Inv()
    decreases |q|
  {
    hide Book.Inv, RestOf;
    if q == [] then Reaped(b, n, false) else
      RestAfter(b, a, t, q);
      if !b.orders[q[0]].Expired(a.slot) then ReapLevel(b, a, t, q[1..], n)
      else if n + 1 >= a.max then Reaped(Kill(b, q[0]), n + 1, true)
      else ReapLevel(Kill(b, q[0]), a, t, q[1..], n + 1)
  }

  /** The next occupied tick from `t` on. */
  ghost function NextTick(b: Book, a: Reap, t: nat): (r: Option<nat>)
    requires b.Inv()
    ensures IsLeast(b.Levels(a.side).Keys, t, b.anchor + WINDOW_TICKS, r)
    ensures r.Some? ==> RestOf(b.orders, a.side, r.value, b.Levels(a.side)[r.value]) && b.InWindow(r.value)
  {
    var r := Lowest(b.Levels(a.side).Keys, t, b.anchor + WINDOW_TICKS);
    if r.Some? then LevelIsRest(b, a, r.value); r else r
  }

  lemma LevelIsRest(b: Book, a: Reap, t: nat)
    requires b.Inv() && t in b.Levels(a.side)
    ensures RestOf(b.orders, a.side, t, b.Levels(a.side)[t]) && b.InWindow(t)
  {
    hide Book.Inv;
    HeadLive(b, a.side, t);
    QueueIsOk(b, a.side, t);
  }

  /** `reap_expired`'s loop, from tick `t` on with `n` reaped so far. */
  ghost function ReapFrom(b: Book, a: Reap, t: nat, n: nat): (r: Reaped)
    requires b.Inv()
    ensures r.book.Inv()
    decreases b.anchor + WINDOW_TICKS - t
  {
    hide Book.Inv, RestOf, ReapLevel;
    var u := NextTick(b, a, t);
    if u.None? then Reaped(b, n, false) else
      var r := ReapLevel(b, a, u.value, b.Levels(a.side)[u.value], n);
      ReapedLevel(b, a, u.value, b.Levels(a.side)[u.value], n);
      if r.done || u.value >= b.anchor + WINDOW_MASK then r
      else ReapFrom(r.book, a, u.value + 1, r.count)
  }

  // ---- what a walk did ----

  /** `x` comes before `y` in tick, then time, order. */
  predicate Before(x: Order, y: Order) {
    x.tick < y.tick || (x.tick == y.tick && x.stamp < y.stamp)
  }

  /** Only expired orders of this side at ticks from `lo` on left, each counted once. */
  ghost predicate ReapedBy(b: Book, c: Book, a: Reap, lo: nat, n: nat) {
    && Removed(b, c) && |b.orders| == |c.orders| + n
    && forall h | h in b.orders && h !in c.orders ::
         b.orders[h].side == a.side && lo <= b.orders[h].tick && b.orders[h].Expired(a.slot)
  }

  lemma ReapedTrans(b: Book, c: Book, d: Book, a: Reap, lo: nat, lo': nat, n: nat, k: nat)
    requires ReapedBy(b, c, a, lo, n) && ReapedBy(c, d, a, lo', k) && lo <= lo'
    ensures ReapedBy(b, d, a, lo, n + k)
  {
    hide Quiet, Thinned;
    RemovedTrans(b, c, d);
    RemovedOrders(b, c);
    RemovedOrders(c, d);
  }

  lemma ReapNothing(b: Book, a: Reap, lo: nat)
    requires b.Inv()
    ensures ReapedBy(b, b, a, lo, 0)
  {
    RemovedSelf(b);
  }

  lemma ReapOne(b: Book, a: Reap, h: nat, lo: nat)
    requires b.Inv() && h in b.orders && b.orders[h].side == a.side && b.orders[h].Expired(a.slot)
    requires lo <= b.orders[h].tick
    ensures ReapedBy(b, Kill(b, h), a, lo, 1)
  {
    hide Book.Inv, Kill, Removed;
    KillRemoves(b, h);
  }

  /** What one level walk did, from `n` counted orders on. */
  ghost predicate WalkedLevel(b: Book, r: Reaped, a: Reap, t: nat, q: seq<nat>, n: nat) {
    && r.book.Inv() && n <= r.count && ReapedBy(b, r.book, a, t, r.count - n)
    && (r.done ==> r.count >= a.max && r.count > n)
    && (n < Max(1, a.max) ==> r.count <= Max(1, a.max) && (!r.done ==> r.count < Max(1, a.max)))
    && FromLevel(b, r.book, q)
    && (!r.done ==> NoneExpired(b, r.book, a.slot, q))
    && OldestFirst(b, r.book, a.slot, q)
  }

  /** Only orders of `q` went. */
  ghost predicate FromLevel(b: Book, c: Book, q: seq<nat>) {
    forall h | h in b.orders && h !in c.orders :: h in q
  }

  /** No expired order of `q` is left. */
  ghost predicate NoneExpired(b: Book, c: Book, slot: nat, q: seq<nat>) {
    forall h | h in q && h in b.orders && b.orders[h].Expired(slot) :: h !in c.orders
  }

  /** What went is older than any expired order of `q` that stayed. */
  ghost predicate OldestFirst(b: Book, c: Book, slot: nat, q: seq<nat>) {
    forall x, y | x in b.orders && x !in c.orders && y in q && y in c.orders && y in b.orders
                  && b.orders[y].Expired(slot) :: b.orders[x].stamp < b.orders[y].stamp
  }

  lemma {:induction false} ReapedLevel(b: Book, a: Reap, t: nat, q: seq<nat>, n: nat)
    requires b.Inv() && RestOf(b.orders, a.side, t, q)
    ensures WalkedLevel(b, ReapLevel(b, a, t, q, n), a, t, q, n)
    decreases |q|
  {
    hide Book.Inv, Kill, ReapedBy, RestOf, Removed;
    if q == [] {
      ReapNothing(b, a, t);
    } else {
      RestAfter(b, a, t, q);
      var h := q[0];
      if !b.orders[h].Expired(a.slot) {
        ReapedLevel(b, a, t, q[1..], n);
        SkippedHead(b, ReapLevel(b, a, t, q[1..], n), a, t, q, n);
      } else {
        ReapOne(b, a, h, t);
        KillRemoves(b, h);
        if n + 1 < a.max {
          ReapedLevel(Kill(b, h), a, t, q[1..], n + 1);
          KilledHead(b, Kill(b, h), ReapLevel(Kill(b, h), a, t, q[1..], n + 1), a, t, q, n);
        } else {
          LastHead(b, Kill(b, h), a, t, q, n);
        }
      }
    }
  }

  lemma SkippedHead(b: Book, r: Reaped, a: Reap, t: nat, q: seq<nat>, n: nat)
    requires q != [] && q[0] in b.orders && !b.orders[q[0]].Expired(a.slot)
    requires WalkedLevel(b, r, a, t, q[1..], n)
    ensures WalkedLevel(b, r, a, t, q, n)
  {
    hide Book.Inv, ReapedBy;
    assert forall x | x in q :: x == q[0] || x in q[1..];
  }

  lemma KilledHead(b: Book, c: Book, r: Reaped, a: Reap, t: nat, q: seq<nat>, n: nat)
    requires q != [] && q[0] in b.orders && ReapedBy(b, c, a, t, 1) && c.orders == b.orders - {q[0]} && n + 1 < a.max
    requires forall h | h in q[1..] :: h in b.orders && b.orders[q[0]].stamp < b.orders[h].stamp
    requires WalkedLevel(c, r, a, t, q[1..], n + 1)
    ensures WalkedLevel(b, r, a, t, q, n)
  {
    hide Book.Inv, ReapedBy, FromLevel, NoneExpired, OldestFirst;
    ReapedTrans(b, c, r.book, a, t, t, 1, r.count - n - 1);
    ReapedOrders(c, r.book, a, t, r.count - n - 1);
    KilledFrom(b, c, r.book, q);
    if !r.done { KilledExpired(b, c, r.book, a.slot, q); }
    KilledOldest(b, c, r.book, a.slot, q);
  }

  lemma KilledFrom(b: Book, c: Book, d: Book, q: seq<nat>)
    requires q != [] && c.orders == b.orders - {q[0]} && FromLevel(c, d, q[1..])
    ensures FromLevel(b, d, q)
  {}

  lemma KilledExpired(b: Book, c: Book, d: Book, slot: nat, q: seq<nat>)
    requires q != [] && c.orders == b.orders - {q[0]} && NoneExpired(c, d, slot, q[1..])
    requires forall h | h in d.orders :: h in c.orders
    ensures NoneExpired(b, d, slot, q)
  {
    assert forall x | x in q :: x == q[0] || x in q[1..];
  }

  lemma KilledOldest(b: Book, c: Book, d: Book, slot: nat, q: seq<nat>)
    requires q != [] && q[0] in b.orders && c.orders == b.orders - {q[0]} && OldestFirst(c, d, slot, q[1..])
    requires forall h | h in q[1..] :: h in b.orders && b.orders[q[0]].stamp < b.orders[h].stamp
    requires forall h | h in d.orders :: h in c.orders
    ensures OldestFirst(b, d, slot, q)
  {
    assert forall x | x in q :: x == q[0] || x in q[1..];
  }

  lemma LastHead(b: Book, c: Book, a: Reap, t: nat, q: seq<nat>, n: nat)
    requires q != [] && q[0] in b.orders && c.Inv() && ReapedBy(b, c, a, t, 1) && c.orders == b.orders - {q[0]}
    requires forall h | h in q[1..] :: h in b.orders && b.orders[q[0]].stamp < b.orders[h].stamp
    requires n + 1 >= a.max
    ensures WalkedLevel(b, Reaped(c, n + 1, true), a, t, q, n)
  {
    hide Book.Inv, ReapedBy;
    assert forall x | x in q :: x == q[0] || x in q[1..];
  }

  lemma ReapedOrders(b: Book, c: Book, a: Reap, lo: nat, n: nat)
    requires ReapedBy(b, c, a, lo, n)
    ensures forall h | h in c.orders :: h in b.orders && c.orders[h] == b.orders[h]
    ensures c.p == b.p && c.anchor == b.anchor && |c.orders| <= |b.orders|
    ensures forall h | h in b.orders && h !in c.orders ::
      b.orders[h].side == a.side && lo <= b.orders[h].tick && b.orders[h].Expired(a.slot)
  {}

  predicate Due(a: Reap, lo: nat, o: Order) { o.side == a.side && lo <= o.tick && o.Expired(a.slot) }

  /** No expired order is left from tick `lo` on. */
  ghost predicate NoneDue(c: Book, a: Reap, lo: nat) {
    forall h | h in c.orders :: !Due(a, lo, c.orders[h])
  }

  /** Whatever left came before every expired order still there. */
  ghost predicate Earliest(b: Book, c: Book, a: Reap, lo: nat) {
    forall x, y | x in b.orders && x !in c.orders && y in c.orders && Due(a, lo, c.orders[y]) ::
      Before(b.orders[x], c.orders[y])
  }

  /** What the whole walk did, from tick `t` and `n` counted orders on. */
  ghost predicate Walked(b: Book, r: Reaped, a: Reap, t: nat, n: nat) {
    && r.book.Inv() && n <= r.count && ReapedBy(b, r.book, a, t, r.count - n)
    && (r.done ==> r.count >= a.max && r.count > n)
    && (n < Max(1, a.max) ==> r.count <= Max(1, a.max))
    && (!r.done ==> NoneDue(r.book, a, t))
    && Earliest(b, r.book, a, t)
  }

  /** Orders of the side at or after `t` are at or after the next occupied tick, and queued there. */
  lemma NextTickHas(b: Book, a: Reap, t: nat, h: nat)
    requires b.Inv() && h in b.orders && b.orders[h].side == a.side && t <= b.orders[h].tick
    ensures var u := NextTick(b, a, t);
      && u.Some? && u.value <= b.orders[h].tick && u.value in b.Levels(a.side)
      && (u.value == b.orders[h].tick ==> h in b.Levels(a.side)[u.value])
      && t <= u.value < b.anchor + WINDOW_TICKS
  {
    hide Book.Inv;
    OrderFacts(b, h);
  }

  lemma {:induction false} ReapWalked(b: Book, a: Reap, t: nat, n: nat)
    requires b.Inv() && n < Max(1, a.max)
    ensures Walked(b, ReapFrom(b, a, t, n), a, t, n)
    decreases b.anchor + WINDOW_TICKS - t
  {
    hide Book.Inv, ReapedBy, RestOf, ReapLevel, WalkedLevel, Walked, NextTick;
    var u := NextTick(b, a, t);
    if u.None? {
      NoneToReap(b, a, t, n);
    } else {
      var q := b.Levels(a.side)[u.value];
      NextTickBounds(b, a, t);
      var r := ReapLevel(b, a, u.value, q, n);
      ReapedLevel(b, a, u.value, q, n);
      if r.done || u.value >= b.anchor + WINDOW_MASK {
        LevelEnds(b, r, a, t, n);
      } else {
        LevelBooks(b, r, a, u.value, q, n);
        ReapWalked(r.book, a, u.value + 1, r.count);
        LevelGoesOn(b, r, ReapFrom(r.book, a, u.value + 1, r.count), a, t, n);
      }
    }
  }

  lemma NextTickBounds(b: Book, a: Reap, t: nat)
    requires b.Inv() && NextTick(b, a, t).Some?
    ensures var u := NextTick(b, a, t).value;
      t <= u < b.anchor + WINDOW_TICKS && u in b.Levels(a.side) && RestOf(b.orders, a.side, u, b.Levels(a.side)[u])
  {
    hide Book.Inv, NextTick;
  }

  lemma LevelCounts(b: Book, r: Reaped, a: Reap, t: nat, q: seq<nat>, n: nat)
    requires WalkedLevel(b, r, a, t, q, n)
    ensures n <= r.count && ReapedBy(b, r.book, a, t, r.count - n) && (r.done ==> r.count >= a.max && r.count > n)
    ensures n < Max(1, a.max) ==> r.count <= Max(1, a.max) && (!r.done ==> r.count < Max(1, a.max))
    ensures !r.done ==> forall h | h in q && h in b.orders && b.orders[h].Expired(a.slot) :: h !in r.book.orders
  {
    hide Book.Inv, ReapedBy;
  }

  lemma LevelBooks(b: Book, r: Reaped, a: Reap, t: nat, q: seq<nat>, n: nat)
    requires WalkedLevel(b, r, a, t, q, n)
    ensures r.book.Inv() && r.book.anchor == b.anchor && r.book.p == b.p
    ensures n < Max(1, a.max) && !r.done ==> r.count < Max(1, a.max)
  {
    hide Book.Inv, ReapedBy;
    ReapedOrders(b, r.book, a, t, r.count - n);
  }

  lemma NoneToReap(b: Book, a: Reap, t: nat, n: nat)
    requires b.Inv() && NextTick(b, a, t).None?
    ensures Walked(b, Reaped(b, n, false), a, t, n)
  {
    hide Book.Inv, ReapedBy, NextTick;
    ReapNothing(b, a, t);
    forall h | h in b.orders && b.orders[h].side == a.side && t <= b.orders[h].tick
      ensures false
    {
      NextTickHas(b, a, t, h);
    }
  }

  lemma ReapedLower(b: Book, c: Book, a: Reap, lo: nat, lo': nat, n: nat)
    requires ReapedBy(b, c, a, lo', n) && lo <= lo'
    ensures ReapedBy(b, c, a, lo, n)
  {}

  /** A level walk seen from the start `t` of the whole walk: all it removed was at `u`. */
  lemma RemovedAt(b: Book, r: Reaped, a: Reap, u: nat, n: nat)
    requires b.Inv() && u in b.Levels(a.side) && WalkedLevel(b, r, a, u, b.Levels(a.side)[u], n)
    ensures forall x | x in b.orders && x !in r.book.orders :: b.orders[x].tick == u
  {
    hide Book.Inv, ReapedBy;
    forall x | x in b.orders && x !in r.book.orders
      ensures b.orders[x].tick == u
    {
      QueuedAt(b, a.side, u, x);
    }
  }

  lemma DueAt(b: Book, c: Book, a: Reap, t: nat, y: nat)
    requires b.Inv() && y in c.orders && y in b.orders && c.orders[y] == b.orders[y] && Due(a, t, c.orders[y])
    ensures var u := NextTick(b, a, t);
      && u.Some? && u.value <= b.orders[y].tick < b.anchor + WINDOW_TICKS && u.value in b.Levels(a.side)
      && (u.value == b.orders[y].tick ==> y in b.Levels(a.side)[u.value])
  {
    hide Book.Inv, NextTick;
    NextTickHas(b, a, t, y);
    OrderFacts(b, y);
  }

  lemma LevelEnds(b: Book, r: Reaped, a: Reap, t: nat, n: nat)
    requires b.Inv() && NextTick(b, a, t).Some?
    requires var u := NextTick(b, a, t).value;
      && u in b.Levels(a.side) && WalkedLevel(b, r, a, u, b.Levels(a.side)[u], n)
      && (r.done || u >= b.anchor + WINDOW_MASK)
    ensures Walked(b, r, a, t, n)
  {
    hide Book.Inv, ReapedBy, NextTick, Due, WalkedLevel, RestOf;
    var u, k := NextTick(b, a, t).value, r.count - n;
    NextTickBounds(b, a, t);
    LevelCounts(b, r, a, u, b.Levels(a.side)[u], n);
    LevelBooks(b, r, a, u, b.Levels(a.side)[u], n);
    RemovedAt(b, r, a, u, n);
    ReapedLower(b, r.book, a, t, u, k);
    ReapedOrders(b, r.book, a, u, k);
    forall y | y in r.book.orders && Due(a, t, r.book.orders[y])
      ensures r.done && y in b.orders && r.book.orders[y] == b.orders[y]
      ensures forall x | x in b.orders && x !in r.book.orders :: Before(b.orders[x], b.orders[y])
    {
      DueAt(b, r.book, a, t, y);
      DueExpired(a, t, b.orders[y]);
      if b.orders[y].tick == u { LevelOrder(b, r, a, u, b.Levels(a.side)[u], n, y); }
    }
  }

  lemma LevelOrder(b: Book, r: Reaped, a: Reap, t: nat, q: seq<nat>, n: nat, y: nat)
    requires WalkedLevel(b, r, a, t, q, n) && y in q && y in r.book.orders && y in b.orders
    requires b.orders[y].Expired(a.slot)
    ensures r.done && forall x | x in b.orders && x !in r.book.orders :: b.orders[x].stamp < b.orders[y].stamp
  {
    hide Book.Inv, ReapedBy;
  }

  lemma DueExpired(a: Reap, lo: nat, o: Order)
    requires Due(a, lo, o)
    ensures o.Expired(a.slot)
  {}

  lemma LevelGoesOn(b: Book, r: Reaped, e: Reaped, a: Reap, t: nat, n: nat)
    requires b.Inv() && NextTick(b, a, t).Some?
    requires var u := NextTick(b, a, t).value;
      && u in b.Levels(a.side) && WalkedLevel(b, r, a, u, b.Levels(a.side)[u], n)
      && !r.done && Walked(r.book, e, a, u + 1, r.count)
    ensures Walked(b, e, a, t, n)
  {
    hide Book.Inv, ReapedBy, NextTick, Due, Earliest, NoneDue, WalkedLevel, RestOf;
    var u := NextTick(b, a, t).value;
    NextTickBounds(b, a, t);
    LevelCounts(b, r, a, u, b.Levels(a.side)[u], n);
    RemovedAt(b, r, a, u, n);
    ReapedTrans(b, r.book, e.book, a, u, u + 1, r.count - n, e.count - r.count);
    ReapedLower(b, e.book, a, t, u, e.count - n);
    ReapedOrders(b, r.book, a, u, r.count - n);
    ReapedOrders(r.book, e.book, a, u + 1, e.count - r.count);
    forall y | y in e.book.orders && Due(a, t, e.book.orders[y])
      ensures u + 1 <= e.book.orders[y].tick
    {
      DueAt(b, e.book, a, t, y);
      DueExpired(a, t, b.orders[y]);
    }
    LaterDue(b, r.book, e.book, a, t, u, !e.done);
  }

  lemma LaterDue(b: Book, d: Book, c: Book, a: Reap, t: nat, u: nat, all: bool)
    requires Earliest(d, c, a, u + 1) && (all ==> NoneDue(c, a, u + 1))
    requires forall h | h in d.orders :: h in b.orders && d.orders[h] == b.orders[h]
    requires forall x | x in b.orders && x !in d.orders :: b.orders[x].tick == u
    requires forall y | y in c.orders && Due(a, t, c.orders[y]) :: u + 1 <= c.orders[y].tick
    ensures Earliest(b, c, a, t) && (all ==> NoneDue(c, a, t))
  {
    forall x, y | x in b.orders && x !in c.orders && y in c.orders && Due(a, t, c.orders[y])
      ensures Before(b.orders[x], c.orders[y])
    {
      if x in d.orders { assert Due(a, u + 1, c.orders[y]); }
    }
    assert forall h | h in c.orders :: Due(a, t, c.orders[h]) ==> Due(a, u + 1, c.orders[h]);
  }

  /** The tick a reap starts from: clamped into the window. */
  function Start(b: Book, start: nat): nat { Min(Max(start, b.anchor), b.anchor + WINDOW_MASK) }

  ghost function ReapExpired(b: Book, a: Reap, start: nat): (Book, nat)
    requires b.Inv()
  {
    var r := ReapFrom(b, a, Start(b, start), 0);
    (r.book, r.count)
  }

  /**
   Reaping removes only expired orders of the side at or after the clamped start, each
   refunded once, the survivors in place; at most max(1, count) of them, the earliest in
   tick then time; and when fewer than that, none is left.
   */
  lemma ReapExact(b: Book, a: Reap, start: nat)
    requires b.Inv()
    ensures var (c, n) := ReapExpired(b, a, start);
      var lo := Start(b, start);
      && ReapedBy(b, c, a, lo, n) && n <= Max(1, a.max)
      && (n < Max(1, a.max) ==> NoneDue(c, a, lo)) && Earliest(b, c, a, lo)
  {
    hide Book.Inv, ReapedBy, NoneDue, Earliest;
    ReapWalked(b, a, Start(b, start), 0);
  }

  /** At or after the start asked for, which stands for the last tick when it is past the window. */
  predicate FromStart(b: Book, start: nat, tick: nat) { start <= tick || tick == b.anchor + WINDOW_MASK }

  /**
   Told from the stored slots: what a reap removes had an expiry other than 0 and at or
   before the slot; with count left, no such order of the side stays from the start on.
   */
  lemma ReapBySlot(b: Book, a: Reap, start: nat)
    requires b.Inv()
    ensures var (c, n) := ReapExpired(b, a, start);
      && (forall h | h in b.orders && h !in c.orders ::
            b.orders[h].side == a.side && FromStart(b, start, b.orders[h].tick) && 0 < b.orders[h].expiry <= a.slot)
      && (forall h | h in c.orders :: h in b.orders && c.orders[h] == b.orders[h])
      && (n < a.max ==> forall h | h in c.orders && c.orders[h].side == a.side
        && FromStart(b, start, c.orders[h].tick) ::
            c.orders[h].expiry == 0 || a.slot < c.orders[h].expiry)
  {
    hide Book.Inv, ReapedBy, Earliest, ReapExpired;
    ReapExact(b, a, start);
    var (c, n) := ReapExpired(b, a, start);
    ReapedOrders(b, c, a, Start(b, start), n);
    forall h | h in b.orders
      ensures Start(b, start) <= b.orders[h].tick <==> FromStart(b, start, b.orders[h].tick)
    {
      OrderFacts(b, h);
    }
    if n < a.max {
      forall h | h in c.orders && c.orders[h].side == a.side && FromStart(b, start, c.orders[h].tick)
        ensures c.orders[h].expiry == 0 || a.slot < c.orders[h].expiry
      {
        assert !Due(a, Start(b, start), c.orders[h]);
      }
    }
  }

  /** The count asked for is respected exactly when it is positive or nothing is due. */
  lemma ReapRespectsCount(b: Book, a: Reap, start: nat)
    requires b.Inv()
    ensures ReapExpired(b, a, start).1 <= a.max <==> 1 <= a.max || NoneDue(b, a, Start(b, start))
    ensures a.max == 0 ==> ReapExpired(b, a, start).1 == if NoneDue(b, a, Start(b, start)) then 0 else 1
  {
    hide Book.Inv, ReapedBy, NoneDue, Earliest, ReapExpired;
    var (c, n) := ReapExpired(b, a, start);
    ReapExact(b, a, start);
    NothingReaped(b, c, a, Start(b, start), n);
  }

  lemma NothingReaped(b: Book, c: Book, a: Reap, lo: nat, n: nat)
    requires ReapedBy(b, c, a, lo, n)
    ensures n == 0 && NoneDue(c, a, lo) ==> NoneDue(b, a, lo)
    ensures NoneDue(b, a, lo) ==> n == 0
  {
    hide ReapedBy;
    ReapedOrders(b, c, a, lo, n);
    ReapedSize(b, c, a, lo, n);
    if n == 0 { SameSize(c.orders.Keys, b.orders.Keys); }
    if NoneDue(b, a, lo) {
      assert forall h | h in b.orders :: !Due(a, lo, b.orders[h]) && h in c.orders;
      assert c.orders.Keys == b.orders.Keys;
    }
  }

  lemma ReapedSize(b: Book, c: Book, a: Reap, lo: nat, n: nat)
    requires ReapedBy(b, c, a, lo, n)
    ensures |b.orders.Keys| == |c.orders.Keys| + n && c.orders.Keys <= b.orders.Keys
  {
    hide Removed;
    ReapedOrders(b, c, a, lo, n);
  }

  lemma SameSize(s: set<nat>, t: set<nat>)
    requires s <= t && |s| == |t|
    ensures s == t
  {
    assert t == s + (t - s);
  }
}
