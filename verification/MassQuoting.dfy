/** `MassQuote`: the bid pass, then the ask pass from the cursor the bid pass returned. */
module MassQuoting {
  import opened Base
  import opened Books
  import opened Frames
  import opened Matching
  import opened Quoting
  import opened Merging
  import opened MergingProperties

  /** The pass over one side, with the opposing best of the book it starts from. */
  ghost function PassOf(b: Book, m: nat, side: Side, quotes: seq<Quote>, expiry: nat): Pass {
    Pass(m, side, quotes, expiry, Best(b, side.Opposite()))
  }

  lemma BidStart(b: Book, a: Pass)
    requires b.Inv() && a.Ok() && a.side.Bid?
    ensures MergeAt(b, a, 0, 0)
  {
    ViewFacts(b, a.m);
  }

  /** Where a bid pass stops, no bid is left: the ask pass can start there. */
  lemma AskStart(b: Book, a: Pass, a': Pass)
    requires b.Inv() && a.Ok() && a.Hoisted(b) && a.side.Bid? && MergeAt(b, a, 0, 0) && Merge(b, a, 0, 0, 0).Ok?
    requires a'.Ok() && a'.side.Ask? && a'.m == a.m
    ensures var (c, cursor) := Merge(b, a, 0, 0, 0).value;
      c.Inv() && c.p == b.p && c.anchor == b.anchor && MergeAt(c, a', cursor, 0)
  {
    hide Book.Inv, View, Best, MergeAt, Prioritized, Merge, CheckOrSlide;
    MergeQuotes(b, a, 0, 0, 0);
    var (c, cursor) := Merge(b, a, 0, 0, 0).value;
    ViewFacts(c, a.m);
    BidsThenAsks(b, a, View(b, a.m), View(c, a.m), cursor);
    AskFooting(c, a', cursor);
  }

  lemma BidsThenAsks(b: Book, a: Pass, v: seq<Resting>, w: seq<Resting>, cursor: nat)
    requires a.side.Bid? && Merged(b, a, v, w, 0, 0, cursor)
    requires forall j, k | 0 <= j < k < |w| :: w[j].o.SortKey() < w[k].o.SortKey()
    requires forall j | 0 <= j < |w| :: 0 < w[j].o.tick <= U32_MAX
    ensures forall j | 0 <= j < cursor :: w[j].o.side.Bid?
    ensures forall j | cursor <= j < |w| :: w[j].o.side.Ask?
  {
    hide Pass.Slid;
    forall j | 0 <= j < cursor
      ensures w[j].o.side.Bid?
    {
      assert IsQuote(b, a, a.quotes[j], w[0 + j - 0].o);
    }
    forall j | cursor <= j < |w|
      ensures w[j].o.side.Ask?
    {
      assert w[cursor..][0] == w[cursor] && v[0..] == v;
    }
  }

  lemma AskFooting(c: Book, a: Pass, cursor: nat)
    requires c.Inv() && a.Ok() && a.side.Ask? && cursor <= |View(c, a.m)|
    requires forall j | 0 <= j < cursor :: View(c, a.m)[j].o.side.Bid?
    requires forall j | cursor <= j < |View(c, a.m)| :: View(c, a.m)[j].o.side.Ask?
    ensures MergeAt(c, a, cursor, 0)
  {
    hide Book.Inv, View;
    ViewFacts(c, a.m);
  }

  ghost function MassQuote(b: Book, m: nat, bids: seq<Quote>, asks: seq<Quote>, expiry: nat): Result<Book>
    requires b.Inv() && m < MAX_SEATS && expiry <= U32_MAX
  {
    hide Book.Inv, View, Best, MergeAt, Merge;
    if |bids| + |asks| > MAX_ORDERS_PER_SEAT then Err(TooManyOrders) else
      var a := PassOf(b, m, Bid, bids, expiry);
      BidStart(b, a);
      match Merge(b, a, 0, 0, 0)
      case Err(e) => Err(e)
      case Ok((c, cursor)) =>
        var a' := PassOf(c, m, Ask, asks, expiry);
        AskStart(b, a, a');
        match Merge(c, a', cursor, 0, 0)
        case Err(e) => Err(e)
        case Ok((d, _)) => Ok(d)
  }

  // ---- the chain after the instruction ----

  /** Past the bids, a chain is a shifted tail of what it was. */
  lemma PastShift(v: seq<Resting>, u: seq<Resting>, cursor: nat, p: nat)
    requires cursor <= |u| && u[cursor..] == Past(v, Bid) && p == |v| - |Past(v, Bid)|
    ensures |u| - cursor == |v| - p
    ensures forall n | 0 <= n < p :: v[n].o.side.Bid?
    ensures forall n | p <= n < |v| :: v[n] == u[cursor + (n - p)]
    ensures forall n | cursor <= n < |u| :: u[n] == v[p + (n - cursor)]
  {
    hide Past;
    var r := Past(v, Bid);
    forall n | p <= n < |v|
      ensures v[n] == u[cursor + (n - p)]
    {
      assert r[n - p] == u[cursor..][n - p];
    }
  }

  /** Priority of an ask-pass quote, told against the chain before the whole instruction. */
  lemma PlacedPast(issued: nat, later: nat, a: Pass, v: seq<Resting>, u: seq<Resting>, cursor: nat, q: Quote,
      y: Resting)
    requires a.side.Ask? && cursor <= |u| && u[cursor..] == Past(v, Bid) && issued <= later
    requires Placed(later, a, u, cursor, q, y)
    ensures Placed(issued, a, v, 0, q, y)
  {
    hide Past;
    var p := |v| - |Past(v, Bid)|;
    PastShift(v, u, cursor, p);
    forall n | 0 <= n < |v| && KeptBy(a, v[n], q)
      ensures y == v[n].(o := v[n].o.(lots := q.lots, expiry := a.expiry))
    {
      assert KeptBy(a, u[cursor + (n - p)], q);
    }
    if y.o.stamp < issued {
      var n :| cursor <= n < |u| && KeptBy(a, u[n], q);
      assert KeptBy(a, v[p + (n - cursor)], q);
    }
  }

  /** What the seat's chain holds after a successful MassQuote. */
  ghost predicate Replaced(b: Book, d: Book, m: nat, bids: seq<Quote>, asks: seq<Quote>, expiry: nat)
    requires b.Inv() && d.Inv() && m < MAX_SEATS
  {
    var v, w := View(b, m), View(d, m);
    var bidPass, askPass := PassOf(b, m, Bid, bids, expiry), PassOf(d, m, Ask, asks, expiry);
    && |w| == |bids| + |asks|
    && (forall j | 0 <= j < |bids| ::
          IsQuote(b, bidPass, bids[j], w[j].o) && Placed(b.issued, bidPass, v, 0, bids[j], w[j]))
    && (forall j | 0 <= j < |asks| ::
          IsQuote(d, askPass, asks[j], w[|bids| + j].o) && Placed(b.issued, askPass, v, 0, asks[j], w[|bids| + j]))
  }

  lemma ReplacedBids(b: Book, c: Book, a: Pass, v: seq<Resting>, u: seq<Resting>, w: seq<Resting>, cursor: nat)
    requires Merged(b, a, v, u, 0, 0, cursor) && Prioritized(b.issued, a, v, u, 0, 0)
    requires cursor <= |w| && w[..cursor] == u[..cursor]
    ensures forall j | 0 <= j < |a.quotes| ::
      IsQuote(b, a, a.quotes[j], w[j].o) && Placed(b.issued, a, v, 0, a.quotes[j], w[j])
  {
    hide IsQuote, Placed;
    forall j | 0 <= j < |a.quotes|
      ensures IsQuote(b, a, a.quotes[j], w[j].o) && Placed(b.issued, a, v, 0, a.quotes[j], w[j])
    {
      assert w[j] == w[..cursor][j] == u[j] == u[0 + j - 0];
      assert IsQuote(b, a, a.quotes[j], u[0 + j - 0].o);
      assert Placed(b.issued, a, v, 0, a.quotes[j], u[0 + j - 0]);
    }
  }

  lemma ReplacedAsks(issued: nat, c: Book, a: Pass, v: seq<Resting>, u: seq<Resting>, w: seq<Resting>, cursor: nat,
      end: nat)
    requires cursor <= |u| && Merged(c, a, u, w, cursor, 0, end) && Prioritized(c.issued, a, u, w, cursor, 0)
    requires a.side.Ask? && u[cursor..] == Past(v, Bid) && issued <= c.issued
    ensures cursor + |a.quotes| <= |w|
    ensures forall j | 0 <= j < |a.quotes| ::
      IsQuote(c, a, a.quotes[j], w[cursor + j].o) && Placed(issued, a, v, 0, a.quotes[j], w[cursor + j])
  {
    hide IsQuote, Placed, Past;
    MergedQuotes(c, a, u, w, cursor, end);
    forall j | 0 <= j < |a.quotes|
      ensures Placed(issued, a, v, 0, a.quotes[j], w[cursor + j])
    {
      PlacedPast(issued, c.issued, a, v, u, cursor, a.quotes[j], w[cursor + j]);
    }
  }

  /** A merge from its start on, one quote at a time. */
  lemma MergedQuotes(c: Book, a: Pass, u: seq<Resting>, w: seq<Resting>, cursor: nat, end: nat)
    requires cursor <= |u| && Merged(c, a, u, w, cursor, 0, end) && Prioritized(c.issued, a, u, w, cursor, 0)
    ensures cursor + |a.quotes| <= |w|
    ensures forall j | 0 <= j < |a.quotes| ::
      IsQuote(c, a, a.quotes[j], w[cursor + j].o) && Placed(c.issued, a, u, cursor, a.quotes[j], w[cursor + j])
  {
    hide IsQuote, Placed, Past;
    forall j | 0 <= j < |a.quotes|
      ensures IsQuote(c, a, a.quotes[j], w[cursor + j].o) && Placed(c.issued, a, u, cursor, a.quotes[j], w[cursor + j])
    {
      assert w[cursor + j] == w[cursor + j - 0];
      assert IsQuote(c, a, a.quotes[j], w[cursor + j - 0].o);
      assert Placed(c.issued, a, u, cursor, a.quotes[j], w[cursor + j - 0]);
    }
  }

  /** Nothing is past the asks. */
  lemma {:induction false} NoneLeft(v: seq<Resting>)
    requires forall j | 0 <= j < |v| :: v[j].o.side.Ask?
    ensures Past(v, Ask) == []
  {
    if v != [] { NoneLeft(v[1..]); }
  }

  lemma FirstPass(b: Book, m: nat, bids: seq<Quote>, expiry: nat, a: Pass)
    requires b.Inv() && m < MAX_SEATS && expiry <= U32_MAX && a == PassOf(b, m, Bid, bids, expiry)
    requires MergeAt(b, a, 0, 0) && Merge(b, a, 0, 0, 0).Ok?
    ensures var (c, cursor) := Merge(b, a, 0, 0, 0).value;
      && c.Inv() && Quiet(b, c) && OthersKept(b, c, m) && cursor == |bids| <= |View(c, m)|
      && Merged(b, a, View(b, m), View(c, m), 0, 0, cursor)
      && Prioritized(b.issued, a, View(b, m), View(c, m), 0, 0)
      && View(c, m)[cursor..] == Past(View(b, m), Bid)
      && forall j | cursor <= j < |View(c, m)| :: View(c, m)[j].o.side.Ask?
  {
    hide Book.Inv, View, Best, MergeAt, Prioritized, Merge, OthersKept, IsQuote, Past;
    MergeQuotes(b, a, 0, 0, 0);
    MergeOneSided(b, a, 0, 0, 0);
    var (c, cursor) := Merge(b, a, 0, 0, 0).value;
    ViewFacts(c, m);
    BidsThenAsks(b, a, View(b, m), View(c, m), cursor);
    assert View(b, m)[0..] == View(b, m);
  }

  lemma SecondPass(c: Book, m: nat, asks: seq<Quote>, expiry: nat, a: Pass, cursor: nat)
    requires c.Inv() && m < MAX_SEATS && expiry <= U32_MAX && a == PassOf(c, m, Ask, asks, expiry)
    requires MergeAt(c, a, cursor, 0) && Merge(c, a, cursor, 0, 0).Ok? && cursor <= |View(c, m)|
    requires forall j | cursor <= j < |View(c, m)| :: View(c, m)[j].o.side.Ask?
    ensures var (d, end) := Merge(c, a, cursor, 0, 0).value;
      && d.Inv() && Quiet(c, d) && OthersKept(c, d, m) && a == PassOf(d, m, Ask, asks, expiry)
      && end == cursor + |asks| == |View(d, m)| && View(d, m)[..cursor] == View(c, m)[..cursor]
      && Merged(c, a, View(c, m), View(d, m), cursor, 0, end)
      && Prioritized(c.issued, a, View(c, m), View(d, m), cursor, 0)
  {
    hide Book.Inv, View, Best, MergeAt, Prioritized, Merge, OthersKept, IsQuote, Past;
    MergeQuotes(c, a, cursor, 0, 0);
    MergeOneSided(c, a, cursor, 0, 0);
    NoneLeft(View(c, m)[cursor..]);
  }

  /**
   A successful MassQuote leaves exactly the payload's bids, then its asks, one order
   per quote; bids slide against the best ask at entry, asks against the best bid the
   bid pass left; kept quotes keep node and id; nobody else is touched.
   */
  lemma MassQuoteReplaces(b: Book, m: nat, bids: seq<Quote>, asks: seq<Quote>, expiry: nat)
    requires b.Inv() && m < MAX_SEATS && expiry <= U32_MAX && MassQuote(b, m, bids, asks, expiry).Ok?
    ensures var d := MassQuote(b, m, bids, asks, expiry).value;
      Quiet(b, d) && OthersKept(b, d, m) && Replaced(b, d, m, bids, asks, expiry)
      && |d.chains[m]| <= MAX_ORDERS_PER_SEAT && m < |d.chains|
  {
    hide Book.Inv, View, Best, MergeAt, Prioritized, Merge, OthersKept, IsQuote, Past, Merged, Placed;
    var a := PassOf(b, m, Bid, bids, expiry);
    BidStart(b, a);
    var (c, cursor) := Merge(b, a, 0, 0, 0).value;
    FirstPass(b, m, bids, expiry, a);
    var a' := PassOf(c, m, Ask, asks, expiry);
    AskStart(b, a, a');
    var (d, end) := Merge(c, a', cursor, 0, 0).value;
    SecondPass(c, m, asks, expiry, a', cursor);
    QuietTrans(b, c, d);
    OthersTrans(b, c, d, m);
    ReplacedBids(b, c, a, View(b, m), View(c, m), View(d, m), cursor);
    ReplacedAsks(b.issued, c, a', View(b, m), View(c, m), View(d, m), cursor, end);
    SlidSame(c, d, a');
  }

  lemma SlidSame(c: Book, d: Book, a: Pass)
    requires c.anchor == d.anchor && c.p == d.p
    ensures forall q, o | IsQuote(c, a, q, o) :: IsQuote(d, a, q, o)
  {}
}
