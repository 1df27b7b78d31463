/** Whole runs: every instruction is atomic, and what any run keeps. */
module Runs {
  import opened Base
  import opened Seqs
  import opened Books
  import opened Changes
  import opened Ops
  import opened Frames
  import opened Matching
  import opened MatchingProperties
  import opened Priority
  import opened Quoting
  import opened QuotingProperties
  import opened Merging
  import opened MassQuoting
  import opened Capacity
  import opened Hygiene
  import opened Reanchoring
  import opened Reaping
  import opened Venues

  // An order id a live order can have: `Cancel` is not called with `FREED_SEQ`.
  type OrderId = x: nat | x < FREED_SEQ

  // Pulls carry the amount observed to arrive beside the amount asked for.
  datatype Instruction =
    | Deposit(seat: u16, baseAtoms: u64, quoteAtoms: u64, baseDelta: u64, quoteDelta: u64)
    | Withdraw(seat: u16, baseAtoms: u64, quoteAtoms: u64)
    | CollectFees
    | UpdateFee(bps: u16)
    | PlaceLimit(seat: u16, limit: LimitArgs, slot: u64)
    | PlaceTake(seat: u16, side: Side, limitTick: u32, maxLots: u32, minOut: u64, slot: u64, abort: bool)
    | Cancel(seat: u16, node: u16, id: OrderId)
    | MassQuote(seat: u16, bids: seq<Quote>, asks: seq<Quote>, expiry: u32)
    | Reanchor(target: u32, maxLevels: u32)
    | ReapExpired(side: Side, start: u32, maxCount: u32, slot: u64)
    | Swap(side: Side, delta: u64, limitTick: u32, minOut: u64, slot: u64)

  ghost function OnBook(v: Venue, r: Result<Book>): Result<Venue> {
    match r
    case Err(e) => Err(e)
    case Ok(b) => Ok(v.(book := b))
  }

  ghost function WithFee(b: Book, bps: nat): Book { b.(p := b.p.(feeBps := bps)) }

  function SeatOf(i: Instruction): nat {
    match i
    case Deposit(seat, _, _, _, _) => seat
    case Withdraw(seat, _, _) => seat
    case PlaceLimit(seat, _, _) => seat
    case PlaceTake(seat, _, _, _, _, _, _) => seat
    case Cancel(seat, _, _) => seat
    case MassQuote(seat, _, _, _) => seat
    case _ => 0
  }

  /** One instruction: the new state, or the error it is reverted with. */
  ghost function Execute(v: Venue, i: Instruction): Result<Venue>
    requires v.book.Inv()
  {
    hide Book.Inv;
    if SeatOf(i) >= MAX_SEATS then Err(InvalidSeatIndex) else
      match i
      case Deposit(seat, ba, qa, bd, qd) => DepositTo(v, seat, ba, qa, bd, qd)
      case Withdraw(seat, ba, qa) => WithdrawFrom(v, seat, ba, qa)
      case CollectFees => FeesKept(v.book); CollectFeesTo(v)
      case UpdateFee(bps) => if bps > MAX_FEE_BPS then Err(InvalidFee) else Ok(v.(book := WithFee(v.book, bps)))
      case PlaceLimit(seat, a, slot) => OnBook(v, PlaceLimitOn(v.book, seat, a, slot))
      case PlaceTake(seat, side, limit, maxLots, minOut, slot, abort) =>
        OnBook(v, PlaceTakeOn(v.book, seat, side, limit, maxLots, minOut, slot, abort))
      case Cancel(seat, node, id) => OnBook(v, CancelOrder(v.book, seat, node, id))
      case MassQuote(seat, bids, asks, expiry) => OnBook(v, MassQuoting.MassQuote(v.book, seat, bids, asks, expiry))
      case Reanchor(target, maxLevels) =>
        IdealOk(v.book, target);
        Ok(v.(book := Reanchoring.Reanchor(v.book, Ideal(v.book.p, target), 0, maxLevels).0))
      case ReapExpired(side, start, maxCount, slot) =>
        Ok(v.(book := Reaping.ReapExpired(v.book, Reap(side, maxCount, slot), start).0))
      case Swap(side, delta, limit, minOut, slot) =>
        if side.Bid? then SwapBuy(v, delta, limit, minOut, slot) else SwapSell(v, delta, limit, minOut, slot)
  }

  // ---- what every reachable state has ----

  ghost predicate Sound(v: Venue) {
    && v.book.Inv() && Capped(v.book)
    && v.book.Claims(true) <= v.vaultBase <= U64_MAX && v.book.Claims(false) <= v.vaultQuote <= U64_MAX
  }

  /** What the vaults hold beyond all claims. */
  ghost function Surplus(v: Venue, base: bool): int { v.Vault(base) - v.book.Claims(base) }

  /** A step keeps the invariant, the cap, the surplus and the vault bounds. */
  ghost predicate Kept(v: Venue, w: Venue) {
    && w.book.Inv() && (Capped(v.book) ==> Capped(w.book)) && Newer(v.book, w.book)
    && Surplus(w, true) == Surplus(v, true) && Surplus(w, false) == Surplus(v, false)
    && w.book.p.capacity == v.book.p.capacity
    && (v.vaultBase <= U64_MAX ==> w.vaultBase <= U64_MAX) && (v.vaultQuote <= U64_MAX ==> w.vaultQuote <= U64_MAX)
  }

  // ---- what each kind of step does to a book ----

  /** Invariant, cap and ids kept; the claims on base and quote moved by these amounts. */
  ghost predicate BookKept(b: Book, c: Book, base: int, quote: int) {
    && c.Inv() && (Capped(b) ==> Capped(c)) && Newer(b, c) && c.p.capacity == b.p.capacity
    && c.Claims(true) == b.Claims(true) + base && c.Claims(false) == b.Claims(false) + quote
  }

  lemma BookKeptTrans(b: Book, c: Book, d: Book, x: int, y: int, x': int, y': int)
    requires BookKept(b, c, x, y) && BookKept(c, d, x', y')
    ensures BookKept(b, d, x + x', y + y')
  {
    hide Book.Inv, Capped, Book.Claims;
  }

  /** A changed book and changed vaults: the surplus stays when both moved alike. */
  lemma VenueKept(v: Venue, w: Venue, base: int, quote: int)
    requires BookKept(v.book, w.book, base, quote)
    requires w.vaultBase == v.vaultBase + base && w.vaultQuote == v.vaultQuote + quote
    requires w.vaultBase <= U64_MAX || w.vaultBase <= v.vaultBase
    requires w.vaultQuote <= U64_MAX || w.vaultQuote <= v.vaultQuote
    ensures Kept(v, w)
  {
    hide Book.Inv, Capped, Newer;
  }

  lemma QuietKept(b: Book, c: Book)
    requires b.Inv() && Quiet(b, c) && (Capped(b) ==> Capped(c))
    ensures BookKept(b, c, 0, 0)
  {
    hide Book.Inv, Capped;
    QuietConserves(b, c, true);
    QuietConserves(b, c, false);
  }

  lemma LeftKept(b: Book, c: Book)
    requires b.Inv() && c.Inv() && Left(b, c)
    ensures BookKept(b, c, 0, 0)
  {
    hide Book.Inv, Capped, Filter;
    QuietConserves(b, c, true);
    QuietConserves(b, c, false);
    FewerCapped(b, c);
  }

  /** The orders of `c` are orders of `b`, of the same makers. */
  ghost predicate Within(b: Book, c: Book) {
    forall h | h in c.orders :: h in b.orders && c.orders[h].maker == b.orders[h].maker
  }

  lemma {:induction false} DistinctFits(p: seq<nat>, q: seq<nat>)
    requires Distinct(p) && Distinct(q) && forall x | x in p :: x in q
    ensures |p| <= |q|
    decreases |p|
  {
    if p != [] {
      assert p[0] in p;
      WithoutMembers(q, p[0]);
      forall x | x in p[1..]
        ensures x in Without(q, p[0])
      {
        var i :| 0 <= i < |p[1..]| && p[1..][i] == x;
        assert p[i + 1] == x && x in p;
      }
      DistinctFits(p[1..], Without(q, p[0]));
    }
  }

  lemma ChainSubset(b: Book, c: Book, j: nat)
    requires b.Inv() && c.Inv() && Within(b, c) && j < |c.chains|
    ensures j < |b.chains| && |c.chains[j]| <= |b.chains[j]|
  {
    hide Book.Inv;
    ChainCount(b);
    ChainCount(c);
    ChainMembers(b, j);
    ChainMembers(c, j);
    ChainDistinct(b, j);
    ChainDistinct(c, j);
    forall h | h in c.chains[j]
      ensures h in b.chains[j]
    {
      OrderFacts(b, h);
    }
    DistinctFits(c.chains[j], b.chains[j]);
  }

  lemma ChainCount(b: Book)
    requires b.Inv()
    ensures |b.chains| == MAX_SEATS
  {}

  /** Fewer orders, shorter chains. */
  lemma FewerCapped(b: Book, c: Book)
    requires b.Inv() && c.Inv() && Within(b, c)
    ensures Capped(b) ==> Capped(c)
  {
    hide Book.Inv;
    forall j | 0 <= j < |c.chains| ensures j < |b.chains| && |c.chains[j]| <= |b.chains[j]| { ChainSubset(b, c, j); }
  }

  /** One seat's free balance moved. */
  lemma MovedKept(b: Book, m: nat, base: bool, free: int)
    requires b.Inv() && m < |b.balances| && Moved(b, m, base, free).Inv()
    ensures BookKept(b, Moved(b, m, base, free), if base then free else 0, if base then 0 else free)
  {
    hide Book.Inv;
    var x := b.balances[m].Move(base, free, 0);
    SumOwnedUpdate(b.balances, m, x, true);
    SumOwnedUpdate(b.balances, m, x, false);
  }

  // ---- matching ----

  lemma TakeKept(b: Book, a: TakeArgs, maxLots: nat)
    requires b.Inv() && Take(b, a, maxLots).Ok?
    ensures var (c, res) := Take(b, a, maxLots).value;
      var atoms := b.p.BaseAtoms(res.lots);
      if a.side.Bid? then BookKept(b, c, 0 - atoms, res.quote + res.fee)
      else BookKept(b, c, atoms, res.fee - res.quote)
  {
    hide Book.Inv, Match, InPriority, SeatOwnsSame;
    MatchTrades(b, a, maxLots, NOTHING);
    MatchInPriority(b, a, maxLots, NOTHING);
    TakeInv(b, a, maxLots);
    var (d, res) := Match(b, a, maxLots, NOTHING).value;
    var c := d.(fees := d.fees + res.fee);
    MatchedWithin(b, d, c, a.side);
    FewerCapped(b, c);
    FeeClaims(d, res.fee);
  }

  lemma MatchedWithin(b: Book, d: Book, c: Book, side: Side)
    requires InPriority(b, d, side) && c.orders == d.orders && c.issued == d.issued && b.issued <= d.issued
    ensures Within(b, c) && Newer(b, c)
  {}

  lemma FeeClaims(d: Book, fee: nat)
    ensures d.(fees := d.fees + fee).Claims(true) == d.Claims(true)
    ensures d.(fees := d.fees + fee).Claims(false) == d.Claims(false) + fee
  {}

  lemma SettleKept(b: Book, m: nat, side: Side, res: TakeResult, minOut: nat)
    requires b.Inv() && m < MAX_SEATS && res.fee <= res.quote && SettleTaker(b, m, side, res, minOut).Ok?
    ensures var c, atoms := SettleTaker(b, m, side, res, minOut).value, b.p.BaseAtoms(res.lots);
      && c.Inv() && c.p == b.p
      && if side.Bid? then BookKept(b, c, atoms, 0 - res.quote - res.fee)
         else BookKept(b, c, 0 - atoms, res.quote - res.fee)
  {
    hide Book.Inv, Moved, BookKept;
    SeatExists(b, m);
    var first := if side.Bid? then 0 - res.quote - res.fee else 0 - b.p.BaseAtoms(res.lots);
    var second := if side.Bid? then b.p.BaseAtoms(res.lots) else res.quote - res.fee;
    var mid := Moved(b, m, side.Ask?, first);
    MovedFunds(b, m, side.Ask?, first);
    MovedIs(b, m, side.Ask?, first);
    MovedFunds(mid, m, side.Bid?, second);
    MovedIs(mid, m, side.Bid?, second);
    MovedKept(b, m, side.Ask?, first);
    MovedKept(mid, m, side.Bid?, second);
    BookKeptTrans(b, mid, Moved(mid, m, side.Bid?, second), if side.Ask? then first else 0,
                  if side.Ask? then 0 else first, if side.Bid? then second else 0, if side.Bid? then 0 else second);
  }

  /** Matching and settling conserve both assets. */
  lemma TakerKept(b: Book, m: nat, a: TakeArgs, maxLots: nat, minOut: nat)
    requires b.Inv() && m < MAX_SEATS && a.maxQuote <= U64_MAX && Take(b, a, maxLots).Ok?
    ensures var (c, res) := Take(b, a, maxLots).value;
      c.Inv() && res.fee <= res.quote && (SettleTaker(c, m, a.side, res, minOut).Ok? ==>
        BookKept(b, SettleTaker(c, m, a.side, res, minOut).value, 0, 0))
  {
    hide Book.Inv, Take, SettleTaker, BookKept;
    TakeInv(b, a, maxLots);
    TakeFacts(b, a, maxLots);
    TakeKept(b, a, maxLots);
    var (c, res) := Take(b, a, maxLots).value;
    if SettleTaker(c, m, a.side, res, minOut).Ok? {
      SettleKept(c, m, a.side, res, minOut);
      var d := SettleTaker(c, m, a.side, res, minOut).value;
      var atoms: int := b.p.BaseAtoms(res.lots);
      if a.side.Bid? {
        BookKeptTrans(b, c, d, 0 - atoms, res.quote + res.fee, atoms, 0 - res.quote - res.fee);
      } else {
        BookKeptTrans(b, c, d, atoms, res.fee - res.quote, 0 - atoms, res.quote - res.fee);
      }
    }
  }

  lemma UpsertKept(b: Book, side: Side, tick: nat, lots: nat, m: nat, expiry: nat, slide: bool)
    requires b.Inv() && m < MAX_SEATS && expiry <= U32_MAX
    requires Upsert(b, side, tick, lots, m, expiry, slide).Ok?
    ensures BookKept(b, Upsert(b, side, tick, lots, m, expiry, slide).value, 0, 0)
  {
    hide Book.Inv, Upsert, Capped, Updated, BookKept, OthersKept, Quiet;
    UpsertUpdates(b, side, tick, lots, m, expiry, slide);
    if Capped(b) { UpsertCapped(b, side, tick, lots, m, expiry, slide); }
    QuietKept(b, Upsert(b, side, tick, lots, m, expiry, slide).value);
  }

  lemma PlaceLimitKept(b: Book, m: nat, a: LimitArgs, slot: nat)
    requires b.Inv() && m < MAX_SEATS && PlaceLimitOn(b, m, a, slot).Ok?
    ensures BookKept(b, PlaceLimitOn(b, m, a, slot).value, 0, 0)
  {
    hide Book.Inv, Upsert, Take, SettleTaker, BookKept;
    if a.lots == 0 {
      UpsertKept(b, a.side, a.tick, 0, m, a.expiry, false);
    } else if a.postOnly {
      UpsertKept(b, a.side, a.tick, a.lots, m, a.expiry, !a.reject);
    } else {
      var t := TakeArgs(a.side, a.tick, U64_MAX, m, slot, a.reject);
      TakerKept(b, m, t, a.lots, 0);
      TakeFacts(b, t, a.lots);
      var (c, res) := Take(b, t, a.lots).value;
      var d := SettleTaker(c, m, a.side, res, 0).value;
      SettledInv(c, m, a.side, res, 0);
      if a.lots != res.lots {
        UpsertKept(d, a.side, a.tick, a.lots - res.lots, m, a.expiry, false);
        BookKeptTrans(b, d, PlaceLimitOn(b, m, a, slot).value, 0, 0, 0, 0);
      }
    }
  }

  lemma PlaceTakeKept(b: Book, m: nat, side: Side, limit: nat, maxLots: nat, minOut: nat, slot: nat, abort: bool)
    requires b.Inv() && m < MAX_SEATS && PlaceTakeOn(b, m, side, limit, maxLots, minOut, slot, abort).Ok?
    ensures BookKept(b, PlaceTakeOn(b, m, side, limit, maxLots, minOut, slot, abort).value, 0, 0)
  {
    hide Book.Inv, Take, SettleTaker, BookKept;
    TakerKept(b, m, TakeArgs(side, limit, U64_MAX, m, slot, abort), maxLots, minOut);
  }

  // ---- every instruction ----

  lemma DepositLegKept(v: Venue, m: nat, base: bool, atoms: nat, delta: nat)
    requires v.book.Inv() && m < MAX_SEATS && DepositLeg(v, m, base, atoms, delta).Ok?
    ensures Kept(v, DepositLeg(v, m, base, atoms, delta).value)
  {
    hide Book.Inv, Capped, BookKept;
    if atoms == 0 {
      NothingKept(v);
    } else {
      MovedFunds(v.book, m, base, delta);
      SeatExists(v.book, m);
      MovedKept(v.book, m, base, delta);
      VenueKept(v, DepositLeg(v, m, base, atoms, delta).value, if base then delta else 0, if base then 0 else delta);
    }
  }

  lemma NothingKept(v: Venue)
    requires v.book.Inv()
    ensures Kept(v, v)
  {}

  lemma KeptTrans(v: Venue, w: Venue, x: Venue)
    requires Kept(v, w) && Kept(w, x)
    ensures Kept(v, x)
  {
    hide Book.Inv, Capped, Book.Claims;
  }

  lemma DepositKept(v: Venue, m: nat, ba: nat, qa: nat, bd: nat, qd: nat)
    requires v.book.Inv() && m < MAX_SEATS && DepositTo(v, m, ba, qa, bd, qd).Ok?
    ensures Kept(v, DepositTo(v, m, ba, qa, bd, qd).value)
  {
    hide Book.Inv, DepositLeg, Kept;
    var w := DepositLeg(v, m, true, ba, bd).value;
    DepositLegKept(v, m, true, ba, bd);
    DepositLegKept(w, m, false, qa, qd);
    KeptTrans(v, w, DepositTo(v, m, ba, qa, bd, qd).value);
  }

  /** A withdrawal conserves, and its pushes are covered. */
  lemma WithdrawKept(v: Venue, m: nat, ba: nat, qa: nat)
    requires v.book.Inv() && m < MAX_SEATS
    ensures Sound(v) ==> WithdrawFrom(v, m, ba, qa) != Err(VaultShort)
    ensures WithdrawFrom(v, m, ba, qa).Ok? ==> Kept(v, WithdrawFrom(v, m, ba, qa).value)
  {
    hide Book.Inv, Capped, BookKept, Moved;
    SeatExists(v.book, m);
    ClaimsCover(v.book, true);
    ClaimsCover(v.book, false);
    var s := v.book.balances[m];
    var baseOut, quoteOut := Asked(ba, s.baseFree), Asked(qa, s.quoteFree);
    if baseOut <= s.baseFree && quoteOut <= s.quoteFree {
      SeatWithin(v.book, m);
      var b := Moved(v.book, m, true, 0 - baseOut);
      MovedFunds(v.book, m, true, 0 - baseOut);
      MovedIs(v.book, m, true, 0 - baseOut);
      MovedFunds(b, m, false, 0 - quoteOut);
      MovedKept(v.book, m, true, 0 - baseOut);
      MovedKept(b, m, false, 0 - quoteOut);
      var r := WithdrawFrom(v, m, ba, qa);
      if r.Ok? {
        BookKeptTrans(v.book, b, r.value.book, 0 - baseOut, 0, 0, 0 - quoteOut);
        VenueKept(v, r.value, 0 - baseOut, 0 - quoteOut);
      }
    }
  }

  lemma SeatWithin(b: Book, m: nat)
    requires b.Inv() && m < MAX_SEATS
    ensures m < |b.balances|
    ensures b.balances[m].baseFree <= b.Claims(true) && b.balances[m].quoteFree <= b.Claims(false)
  {
    hide Book.Inv;
    SeatExists(b, m);
    ClaimsCover(b, true);
    ClaimsCover(b, false);
    assert b.balances[m].Free(true) <= b.Claims(true) && b.balances[m].Free(false) <= b.Claims(false);
  }

  lemma CollectFeesKept(v: Venue)
    requires v.book.Inv() && 0 <= v.book.fees
    ensures Sound(v) ==> CollectFeesTo(v).Ok?
    ensures CollectFeesTo(v).Ok? ==> Kept(v, CollectFeesTo(v).value)
  {
    hide Book.Inv, Capped, BookKept;
    ClaimsCover(v.book, false);
    var c := v.book.(fees := 0);
    NoFees(v.book);
    if CollectFeesTo(v).Ok? { VenueKept(v, CollectFeesTo(v).value, 0, 0 - v.book.fees); }
  }

  lemma NoFees(b: Book)
    requires b.Inv()
    ensures BookKept(b, b.(fees := 0), 0, 0 - b.fees)
  {
    var c := b.(fees := 0);
    SameStructure(b, c);
    NoFeesLocks(b);
  }

  lemma NoFeesLocks(b: Book)
    requires b.LocksExact()
    ensures b.(fees := 0).LocksExact()
  {
    var c := b.(fees := 0);
    forall j, base | 0 <= j < |c.balances|
      ensures c.balances[j].Locked(base) == c.ChainLock(j, base) && 0 <= c.balances[j].Free(base)
    {
      assert b.balances[j].Locked(base) == b.ChainLock(j, base);
    }
  }

  lemma UpdateFeeKept(b: Book, bps: nat)
    requires b.Inv() && bps <= MAX_FEE_BPS
    ensures BookKept(b, WithFee(b, bps), 0, 0)
  {
    hide Book.Inv;
    WithFeeInv(b, bps);
  }

  /** Nothing resting depends on the fee. */
  lemma WithFeeInv(b: Book, bps: nat)
    requires b.Inv() && bps <= MAX_FEE_BPS
    ensures WithFee(b, bps).Inv()
  {
    var c := WithFee(b, bps);
    SameStructure(b, c);
    assert c.p.Ok() && c.WindowOk();
    WithFeeLocks(b, bps);
  }

  lemma WithFeeLocks(b: Book, bps: nat)
    requires b.LocksExact()
    ensures WithFee(b, bps).LocksExact()
  {
    var c := WithFee(b, bps);
    forall j, base | 0 <= j < |c.balances|
      ensures c.balances[j].Locked(base) == c.ChainLock(j, base) && 0 <= c.balances[j].Free(base)
    {
      assert b.balances[j].Locked(base) == b.ChainLock(j, base);
      SumSame(LockOf(b.p, b.orders, base), LockOf(c.p, c.orders, base), b.chains[j]);
    }
  }

  // ---- the funds instructions, told from balances and vaults ----

  /** Only this seat's balances and the vaults changed. */
  ghost predicate SeatOnly(v: Venue, w: Venue, m: nat) {
    && w.book == v.book.(balances := w.book.balances) && m < |v.book.balances| == |w.book.balances|
    && forall j | 0 <= j < |v.book.balances| && j != m :: w.book.balances[j] == v.book.balances[j]
  }

  /** What is left of a free balance after a withdrawal; all ones asks for everything. */
  function LeftFree(free: int, atoms: nat): int { if atoms == U64_MAX then 0 else free - atoms }

  /**
   From a sound state a withdrawal succeeds iff neither amount exceeds the free balance,
   unless it is all ones, which empties it; the vaults pay out exactly what the seat loses.
   */
  lemma WithdrawExact(v: Venue, m: nat, ba: nat, qa: nat)
    requires Sound(v) && m < MAX_SEATS
    ensures m < |v.book.balances|
    ensures var s, r := v.book.balances[m], WithdrawFrom(v, m, ba, qa);
      && (r.Ok? <==> (ba == U64_MAX || ba <= s.baseFree) && (qa == U64_MAX || qa <= s.quoteFree))
      && (r.Err? ==> r.error == InsufficientBalance)
      && (r.Ok? ==>
            var b, q := LeftFree(s.baseFree, ba), LeftFree(s.quoteFree, qa);
            && SeatOnly(v, r.value, m)
            && r.value.book.balances[m] == Balance(b, q, s.baseLocked, s.quoteLocked)
            && r.value.vaultBase == v.vaultBase - (s.baseFree - b)
            && r.value.vaultQuote == v.vaultQuote - (s.quoteFree - q))
  {
    hide Book.Inv, Capped;
    SeatExists(v.book, m);
    SeatWithin(v.book, m);
  }

  /**
   From a sound state a deposit fails only when a vault would overflow; each leg asked for
   credits what arrived to the seat and the vault alike.
   */
  lemma DepositExact(v: Venue, m: nat, ba: nat, qa: nat, bd: nat, qd: nat)
    requires Sound(v) && m < MAX_SEATS
    ensures m < |v.book.balances|
    ensures var b, q := if ba == 0 then 0 else bd, if qa == 0 then 0 else qd;
      var s, r := v.book.balances[m], DepositTo(v, m, ba, qa, bd, qd);
      && (r.Ok? <==> v.vaultBase + b <= U64_MAX && v.vaultQuote + q <= U64_MAX)
      && (r.Err? ==> r.error == TransferFailed)
      && (r.Ok? ==>
            && SeatOnly(v, r.value, m)
            && r.value.book.balances[m] == Balance(s.baseFree + b, s.quoteFree + q, s.baseLocked, s.quoteLocked)
            && r.value.vaultBase == v.vaultBase + b && r.value.vaultQuote == v.vaultQuote + q)
  {
    hide Book.Inv, Capped;
    SeatExists(v.book, m);
    SeatWithin(v.book, m);
    LegExact(v, m, true, ba, bd);
    if DepositLeg(v, m, true, ba, bd).Ok? {
      var w := DepositLeg(v, m, true, ba, bd).value;
      LegExact(w, m, false, qa, qd);
    }
  }

  lemma LegExact(v: Venue, m: nat, base: bool, atoms: nat, delta: nat)
    requires v.book.Inv() && m < MAX_SEATS && m < |v.book.balances|
    requires v.book.balances[m].Free(base) <= v.Vault(base) <= U64_MAX
    ensures var d, r := if atoms == 0 then 0 else delta, DepositLeg(v, m, base, atoms, delta);
      && (r.Ok? <==> v.Vault(base) + d <= U64_MAX)
      && (r.Err? ==> r.error == TransferFailed)
      && (r.Ok? ==>
            && SeatOnly(v, r.value, m) && r.value.book.balances[m] == v.book.balances[m].Move(base, d, 0)
            && r.value == v.WithVault(base, v.Vault(base) + d).(book := r.value.book))
  {
    hide Book.Inv;
    SeatExists(v.book, m);
    MovedFunds(v.book, m, base, delta);
  }

  /** From a sound state collecting pays out the whole of the accrued fees. */
  lemma CollectFeesExact(v: Venue)
    requires Sound(v)
    ensures 0 <= v.book.fees <= v.vaultQuote
    ensures Execute(v, CollectFees) == Ok(Venue(v.book.(fees := 0), v.vaultBase, v.vaultQuote - v.book.fees))
  {
    hide Book.Inv, Capped;
    FeesKept(v.book);
    ClaimsCover(v.book, false);
  }

  /** A new fee is stored iff it is at most 500 basis points, and nothing else changes. */
  lemma UpdateFeeExact(v: Venue, bps: u16)
    requires v.book.Inv()
    ensures Execute(v, UpdateFee(bps))
      == if bps <= 500 then Ok(v.(book := v.book.(p := v.book.p.(feeBps := bps)))) else Err(InvalidFee)
  {
    hide Book.Inv;
  }

  /** A buying swap conserves, and its refund and its output are covered. */
  lemma SwapBuyKept(v: Venue, delta: nat, limit: nat, minOut: nat, slot: nat)
    requires v.book.Inv() && delta <= U64_MAX
    ensures Sound(v) ==> SwapBuy(v, delta, limit, minOut, slot) != Err(VaultShort)
    ensures SwapBuy(v, delta, limit, minOut, slot).Ok? ==> Kept(v, SwapBuy(v, delta, limit, minOut, slot).value)
  {
    hide Book.Inv, Capped, Take, BookKept;
    var a := TakeArgs(Bid, limit, delta, NO_SEAT, slot, false);
    var t := Take(v.book, a, v.book.p.maxLots);
    if t.Ok? {
      var (c, res) := t.value;
      TakeFacts(v.book, a, v.book.p.maxLots);
      TakeKept(v.book, a, v.book.p.maxLots);
      var atoms: int := v.book.p.BaseAtoms(res.lots);
      KeptClaims(v.book, c, 0 - atoms, res.quote + res.fee);
      TakeErrs(v.book, a, v.book.p.maxLots);
      var r := SwapBuy(v, delta, limit, minOut, slot);
      if r.Ok? { VenueKept(v, r.value, 0 - atoms, res.quote + res.fee); }
    } else {
      TakeErrs(v.book, a, v.book.p.maxLots);
    }
  }

  lemma KeptClaims(b: Book, c: Book, x: int, y: int)
    requires b.Inv() && BookKept(b, c, x, y)
    ensures 0 <= b.Claims(true) + x && 0 <= b.Claims(false) + y
  {
    hide Book.Inv;
    ClaimsCover(c, true);
    ClaimsCover(c, false);
  }

  /** Matching fails only on its lot count or on a self trade. */
  lemma TakeErrs(b: Book, a: TakeArgs, maxLots: nat)
    requires b.Inv()
    ensures Take(b, a, maxLots).Err?
      ==> Take(b, a, maxLots).error == InvalidLots || Take(b, a, maxLots).error == SelfTrade
  {
    hide Book.Inv, Match;
    MatchErrs(b, a, maxLots, NOTHING);
  }

  lemma {:induction false} MatchErrs(b: Book, a: TakeArgs, rem: nat, res: TakeResult)
    requires b.Inv()
    ensures Match(b, a, rem, res).Err? ==> Match(b, a, rem, res).error == SelfTrade && a.abort
    decreases |b.orders|, rem
  {
    hide Book.Inv, Kill, Fill, Front, FillSize;
    if rem > 0 && Front(b, a).Some? {
      var h := Front(b, a).value;
      var o := b.orders[h];
      if o.Expired(a.slot) || (o.maker == a.seat && !a.abort) {
        MatchErrs(Kill(b, h), a, rem, res);
      } else if o.maker != a.seat {
        var f := FillSize(b.p, a, o, rem, res);
        if f > 0 {
          MatchErrs(Fill(b, h, f), a, rem - f,
            res.Plus(f, b.p.Notional(o.tick, f), FeeOn(b.p, b.p.Notional(o.tick, f))));
        }
      }
    }
  }

  /** Resting the remainder of a crossing limit order never fails with `WouldCross`. */
  lemma RestNeverCrosses(b: Book, m: nat, a: LimitArgs, slot: nat)
    requires b.Inv() && m < MAX_SEATS && 0 < a.lots && !a.postOnly
    ensures PlaceLimitOn(b, m, a, slot) != Err(WouldCross)
  {
    hide Book.Inv, Take, Upsert, SettleTaker, Front;
    var t := TakeArgs(a.side, a.tick, U64_MAX, m, slot, a.reject);
    TakeErrs(b, t, a.lots);
    if Take(b, t, a.lots).Ok? {
      var (c, res) := Take(b, t, a.lots).value;
      TakeInv(b, t, a.lots);
      TakeFacts(b, t, a.lots);
      SettledInv(c, m, a.side, res, 0);
      SettledOnly(c, m, a.side, res);
      if SettleTaker(c, m, a.side, res, 0).Ok? && res.lots < a.lots {
        var d := SettleTaker(c, m, a.side, res, 0).value;
        TakenExhausts(b, t, a.lots);
        SameFront(c, d, t);
        RestsUncrossed(d, t, a.lots - res.lots, m, a.expiry);
      }
    }
  }

  lemma TakenExhausts(b: Book, a: TakeArgs, maxLots: nat)
    requires b.Inv() && a.maxQuote == U64_MAX && Take(b, a, maxLots).Ok?
    ensures var (c, res) := Take(b, a, maxLots).value;
      c.Inv() && (res.lots < maxLots ==> Front(c, a).None?)
  {
    hide Book.Inv, Match, Front;
    TakeInv(b, a, maxLots);
    MatchExhausts(b, a, maxLots, NOTHING);
    var c := Match(b, a, maxLots, NOTHING).value.0;
    SameFront(c, Take(b, a, maxLots).value.0, a);
  }

  /** Settling touches balances only, and has its own errors. */
  lemma SettledOnly(b: Book, m: nat, side: Side, res: TakeResult)
    requires b.Inv() && m < MAX_SEATS
    ensures SettleTaker(b, m, side, res, 0) != Err(WouldCross)
    ensures SettleTaker(b, m, side, res, 0).Ok? ==>
      var d := SettleTaker(b, m, side, res, 0).value;
      d == b.(balances := d.balances, fees := d.fees)
  {
    hide Book.Inv;
    SeatExists(b, m);
  }

  lemma SellKept(b: Book, delta: nat, limit: nat, slot: nat)
    requires b.Inv()
    ensures var r := SellTake(b, delta, limit, slot);
      && (r.Ok? ==> BookKept(b, r.value.0, b.p.BaseAtoms(r.value.1.lots), r.value.1.fee - r.value.1.quote))
      && (r.Ok? ==> r.value.1.fee <= r.value.1.quote <= b.Claims(false))
      && r != Err(VaultShort)
  {
    hide Book.Inv, Take, Capped, Newer;
    ParamsOk(b);
    var lots := Min(Quotient(delta, b.p.lotSize), b.p.maxLots);
    var a := TakeArgs(Ask, limit, U64_MAX, NO_SEAT, slot, false);
    ClaimsCover(b, false);
    if lots > 0 {
      TakeErrs(b, a, lots);
      if Take(b, a, lots).Ok? {
        TakeFacts(b, a, lots);
        TakeKept(b, a, lots);
        var (c, res) := Take(b, a, lots).value;
        ClaimsCover(c, false);
        SoldWithin(b, a, lots);
      }
    } else {
      NothingBookKept(b);
    }
  }

  lemma NothingBookKept(b: Book)
    requires b.Inv()
    ensures BookKept(b, b, 0, 0)
  {}

  /** The quote paid out comes out of the makers' claims. */
  lemma SoldWithin(b: Book, a: TakeArgs, lots: nat)
    requires b.Inv() && a.side.Ask? && Take(b, a, lots).Ok?
    ensures Take(b, a, lots).value.1.quote <= b.Claims(false)
  {
    hide Book.Inv, Match, Later, SeatOwnsSame;
    MatchTrades(b, a, lots, NOTHING);
    ClaimsCover(Match(b, a, lots, NOTHING).value.0, false);
  }

  lemma SwapSellKept(v: Venue, delta: nat, limit: nat, minOut: nat, slot: nat)
    requires v.book.Inv() && delta <= U64_MAX
    ensures Sound(v) ==> SwapSell(v, delta, limit, minOut, slot) != Err(VaultShort)
    ensures SwapSell(v, delta, limit, minOut, slot).Ok? ==> Kept(v, SwapSell(v, delta, limit, minOut, slot).value)
  {
    hide Book.Inv, Capped, SellTake, BookKept;
    SellKept(v.book, delta, limit, slot);
    var r := SwapSell(v, delta, limit, minOut, slot);
    if r.Ok? {
      var res := SellTake(v.book, delta, limit, slot).value.1;
      VenueKept(v, r.value, v.book.p.BaseAtoms(res.lots), res.fee - res.quote);
    }
  }
}
