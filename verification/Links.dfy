/** Doubly linked lists as sequences of node indices, with 0 as the null index. */
module Links {
  import opened Seqs

  /** `q[i]`, or 0 outside the list. */
  ghost function At(q: seq<nat>, i: int): nat { if 0 <= i < |q| then q[i] else 0 }

  ghost predicate Linked(pv: nat -> nat, nx: nat -> nat, q: seq<nat>) {
    forall i | 0 <= i < |q| :: pv(q[i]) == At(q, i - 1) && nx(q[i]) == At(q, i + 1)
  }

  lemma LinkAt(pv: nat -> nat, nx: nat -> nat, q: seq<nat>, i: nat)
    requires Linked(pv, nx, q) && i < |q|
    ensures pv(q[i]) == At(q, i - 1) && nx(q[i]) == At(q, i + 1)
  {}

  lemma AtInside(q: seq<nat>, i: nat)
    requires i < |q|
    ensures At(q, i) == q[i] && q[i] in q
  {}

  lemma AtIsIn(q: seq<nat>, i: int)
    ensures At(q, i) == 0 || At(q, i) in q
  {}

  lemma AtDistinct(q: seq<nat>, i: int, j: int)
    requires Distinct(q) && 0 !in q && 0 <= i < |q| && At(q, i) == At(q, j)
    ensures i == j
  {}

  lemma AtWithout(q: seq<nat>, h: nat, j: int)
    requires h in q
    ensures At(Without(q, h), j) == if j < IndexOf(q, h) then At(q, j) else At(q, j + 1)
  {}

  lemma AtInsert(q: seq<nat>, i: nat, h: nat, j: int)
    requires i <= |q|
    ensures At(InsertAt(q, i, h), j) == if j < i then At(q, j) else if j == i then h else At(q, j - 1)
  {}

  /** The neighbours of a listed node. */
  lemma LinkEnds(pv: nat -> nat, nx: nat -> nat, q: seq<nat>, h: nat)
    requires Linked(pv, nx, q) && h in q
    ensures pv(h) == At(q, IndexOf(q, h) - 1) && nx(h) == At(q, IndexOf(q, h) + 1)
    ensures pv(h) == 0 || pv(h) in q
    ensures nx(h) == 0 || nx(h) in q
  {
    LinkAt(pv, nx, q, IndexOf(q, h));
    AtIsIn(q, IndexOf(q, h) as int - 1);
    AtIsIn(q, IndexOf(q, h) + 1);
  }

  /** Bridging over `h` removes it from the list. */
  lemma UnlinkLinked(pv: nat -> nat, nx: nat -> nat, pv': nat -> nat, nx': nat -> nat, q: seq<nat>, h: nat)
    requires Linked(pv, nx, q) && Distinct(q) && 0 !in q && h in q
    requires forall k | k in q && k != h ::
      && nx'(k) == (if k == pv(h) then nx(h) else nx(k))
      && pv'(k) == (if k == nx(h) then pv(h) else pv(k))
    ensures Linked(pv', nx', Without(q, h))
  {
    var r := Without(q, h);
    WithoutMembers(q, h);
    forall j | 0 <= j < |r|
      ensures pv'(r[j]) == At(r, j - 1) && nx'(r[j]) == At(r, j + 1)
    {
      UnlinkNode(pv, nx, pv', nx', q, h, j);
    }
  }

  lemma UnlinkNode(pv: nat -> nat, nx: nat -> nat, pv': nat -> nat, nx': nat -> nat, q: seq<nat>, h: nat, j: nat)
    requires Linked(pv, nx, q) && Distinct(q) && 0 !in q && h in q && j < |Without(q, h)|
    requires forall k | k in q && k != h ::
      && nx'(k) == (if k == pv(h) then nx(h) else nx(k))
      && pv'(k) == (if k == nx(h) then pv(h) else pv(k))
    ensures pv'(Without(q, h)[j]) == At(Without(q, h), j - 1)
    ensures nx'(Without(q, h)[j]) == At(Without(q, h), j + 1)
  {
    hide Linked, At;
    var i: int := IndexOf(q, h);
    var j': int := if j < i then j else j + 1;
    var k := Without(q, h)[j];
    assert k == q[j'];
    LinkEnds(pv, nx, q, h);
    LinkAt(pv, nx, q, j');
    AtInside(q, j');
    AtInside(q, i);
    AtWithout(q, h, j - 1);
    AtWithout(q, h, j + 1);
    if k == h { AtDistinct(q, j', i); }
    if k == pv(h) { AtDistinct(q, j', i - 1); }
    if k == nx(h) { AtDistinct(q, j', i + 1); }
  }

  /** Splicing `h` in at place `i`. */
  lemma SpliceLinked(pv: nat -> nat, nx: nat -> nat, pv': nat -> nat, nx': nat -> nat, q: seq<nat>, i: nat, h: nat)
    requires Linked(pv, nx, q) && Distinct(q) && 0 !in q && h !in q && i <= |q|
    requires pv'(h) == At(q, i - 1) && nx'(h) == At(q, i)
    requires forall k | k in q ::
      && nx'(k) == (if k == At(q, i - 1) then h else nx(k))
      && pv'(k) == (if k == At(q, i) then h else pv(k))
    ensures Linked(pv', nx', InsertAt(q, i, h))
  {
    var r := InsertAt(q, i, h);
    forall j | 0 <= j < |r|
      ensures pv'(r[j]) == At(r, j - 1) && nx'(r[j]) == At(r, j + 1)
    {
      SpliceNode(pv, nx, pv', nx', q, i, h, j);
    }
  }

  lemma SpliceNode(pv: nat -> nat, nx: nat -> nat, pv': nat -> nat, nx': nat -> nat, q: seq<nat>, i: nat, h: nat,
      j: nat)
    requires Linked(pv, nx, q) && Distinct(q) && 0 !in q && h !in q && i <= |q| && j <= |q|
    requires pv'(h) == At(q, i - 1) && nx'(h) == At(q, i)
    requires forall k | k in q ::
      && nx'(k) == (if k == At(q, i - 1) then h else nx(k))
      && pv'(k) == (if k == At(q, i) then h else pv(k))
    ensures pv'(InsertAt(q, i, h)[j]) == At(InsertAt(q, i, h), j - 1)
    ensures nx'(InsertAt(q, i, h)[j]) == At(InsertAt(q, i, h), j + 1)
  {
    hide Linked, At;
    var r := InsertAt(q, i, h);
    AtInsert(q, i, h, j - 1);
    AtInsert(q, i, h, j + 1);
    if j == i {
      assert r[j] == h;
    } else {
      var j': int := if j < i then j else j - 1;
      assert r[j] == q[j'];
      LinkAt(pv, nx, q, j');
      AtInside(q, j');
      if q[j'] == At(q, i - 1) { AtDistinct(q, j', i - 1); }
      if q[j'] == At(q, i) { AtDistinct(q, j', i); }
    }
  }

  lemma EmptyLinked(pv: nat -> nat, nx: nat -> nat)
    ensures Linked(pv, nx, [])
  {}

  lemma SameLinks(pv: nat -> nat, nx: nat -> nat, pv': nat -> nat, nx': nat -> nat, q: seq<nat>)
    requires Linked(pv, nx, q) && forall k | k in q :: pv'(k) == pv(k) && nx'(k) == nx(k)
    ensures Linked(pv', nx', q)
  {}
}
