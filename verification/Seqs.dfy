/** Sequences of handles: removal, insertion and sums. */
module Seqs {
  ghost predicate Distinct(q: seq<nat>) {
    forall i, j | 0 <= i < j < |q| :: q[i] != q[j]
  }

  ghost function IndexOf(q: seq<nat>, h: nat): (i: nat)
    requires h in q
    ensures i < |q| && q[i] == h
  {
    if q[0] == h then 0 else 1 + IndexOf(q[1..], h)
  }

  /** The sequence without its first `h`. */
  ghost function Without(q: seq<nat>, h: nat): (r: seq<nat>)
    requires h in q
  {
    q[..IndexOf(q, h)] + q[IndexOf(q, h) + 1..]
  }

  ghost function InsertAt(q: seq<nat>, i: nat, h: nat): (r: seq<nat>)
    requires i <= |q|
  {
    q[..i] + [h] + q[i..]
  }

  lemma WithoutMembers(q: seq<nat>, h: nat)
    requires h in q && Distinct(q)
    ensures forall x :: x in Without(q, h) <==> x in q && x != h
    ensures |Without(q, h)| == |q| - 1 && Distinct(Without(q, h))
  {
    var k := IndexOf(q, h);
    forall x | x in q && x != h
      ensures x in Without(q, h)
    {
      var i :| 0 <= i < |q| && q[i] == x;
      assert Without(q, h)[if i < k then i else i - 1] == x;
    }
  }

  ghost predicate Rising(f: nat -> nat, q: seq<nat>) {
    forall i, j | 0 <= i < j < |q| :: f(q[i]) < f(q[j])
  }

  /** Removal keeps the order of the rest. */
  lemma WithoutRising(f: nat -> nat, q: seq<nat>, h: nat)
    requires h in q && Rising(f, q)
    ensures Rising(f, Without(q, h))
  {
    var k, r := IndexOf(q, h), Without(q, h);
    forall i, j | 0 <= i < j < |r|
      ensures f(r[i]) < f(r[j])
    {
      assert r[i] == q[if i < k then i else i + 1] && r[j] == q[if j < k then j else j + 1];
    }
  }

  lemma RisingTail(f: nat -> nat, q: seq<nat>)
    requires Rising(f, q) && q != []
    ensures Rising(f, q[1..]) && q[0] in q
    ensures forall h | h in q[1..] :: h in q && f(q[0]) < f(h)
  {
    forall h | h in q[1..]
      ensures h in q && f(q[0]) < f(h)
    {
      var i :| 0 <= i < |q[1..]| && q[1..][i] == h;
      assert q[i + 1] == h;
    }
  }

  lemma SameRising(f: nat -> nat, g: nat -> nat, q: seq<nat>)
    requires Rising(f, q) && forall h | h in q :: f(h) == g(h)
    ensures Rising(g, q)
  {}

  lemma AppendRising(f: nat -> nat, q: seq<nat>, h: nat)
    requires Rising(f, q) && forall x | x in q :: f(x) < f(h)
    ensures Rising(f, q + [h])
  {}

  lemma InsertRising(f: nat -> nat, q: seq<nat>, i: nat, h: nat)
    requires i <= |q| && Rising(f, q)
    requires forall j | 0 <= j < i :: f(q[j]) < f(h)
    requires forall j | i <= j < |q| :: f(h) < f(q[j])
    ensures Rising(f, InsertAt(q, i, h))
  {}

  lemma InsertMembers(q: seq<nat>, i: nat, h: nat)
    requires i <= |q|
    ensures forall x :: x in InsertAt(q, i, h) <==> x in q || x == h
    ensures |InsertAt(q, i, h)| == |q| + 1
  {
    var r := InsertAt(q, i, h);
    forall x | x in q
      ensures x in r
    {
      var k :| 0 <= k < |q| && q[k] == x;
      assert r[if k < i then k else k + 1] == x;
    }
    assert r[i] == h;
  }

  ghost function Sum(f: nat -> nat, q: seq<nat>): nat {
    if q == [] then 0 else f(q[0]) + Sum(f, q[1..])
  }

  lemma {:induction false} SumSame(f: nat -> nat, g: nat -> nat, q: seq<nat>)
    requires forall h | h in q :: f(h) == g(h)
    ensures Sum(f, q) == Sum(g, q)
  {
    if q != [] { SumSame(f, g, q[1..]); }
  }

  lemma {:induction false} SumConcat(f: nat -> nat, p: seq<nat>, q: seq<nat>)
    ensures Sum(f, p + q) == Sum(f, p) + Sum(f, q)
  {
    if p == [] {
      assert p + q == q;
    } else {
      assert (p + q)[1..] == p[1..] + q;
      SumConcat(f, p[1..], q);
    }
  }

  lemma SumWithout(f: nat -> nat, q: seq<nat>, h: nat)
    requires h in q
    ensures Sum(f, q) == Sum(f, Without(q, h)) + f(h)
  {
    var k := IndexOf(q, h);
    assert q == q[..k] + ([h] + q[k + 1..]);
    SumConcat(f, q[..k], [h] + q[k + 1..]);
    SumConcat(f, [h], q[k + 1..]);
    SumConcat(f, q[..k], q[k + 1..]);
  }

  lemma SumInsert(f: nat -> nat, q: seq<nat>, i: nat, h: nat)
    requires i <= |q|
    ensures Sum(f, InsertAt(q, i, h)) == Sum(f, q) + f(h)
  {
    assert q == q[..i] + q[i..];
    SumConcat(f, q[..i] + [h], q[i..]);
    SumConcat(f, q[..i], [h]);
    SumConcat(f, q[..i], q[i..]);
  }

  /** Changing the weight of one element. */
  lemma SumChange(f: nat -> nat, g: nat -> nat, q: seq<nat>, h: nat)
    requires h in q && Distinct(q)
    requires forall x | x in q && x != h :: f(x) == g(x)
    ensures Sum(g, q) + f(h) == Sum(f, q) + g(h)
  {
    WithoutMembers(q, h);
    SumWithout(f, q, h);
    SumWithout(g, q, h);
    SumSame(f, g, Without(q, h));
  }

  ghost function Filter(f: nat -> bool, q: seq<nat>): seq<nat> {
    if q == [] then [] else (if f(q[0]) then [q[0]] else []) + Filter(f, q[1..])
  }

  lemma {:induction false} FilterSame(f: nat -> bool, g: nat -> bool, q: seq<nat>)
    requires forall h | h in q :: f(h) == g(h)
    ensures Filter(f, q) == Filter(g, q)
  {
    if q != [] { FilterSame(f, g, q[1..]); }
  }

  lemma {:induction false} FilterConcat(f: nat -> bool, p: seq<nat>, q: seq<nat>)
    ensures Filter(f, p + q) == Filter(f, p) + Filter(f, q)
  {
    if p == [] {
      assert p + q == q;
    } else {
      assert (p + q)[1..] == p[1..] + q;
      FilterConcat(f, p[1..], q);
    }
  }

  lemma FilterWithout(f: nat -> bool, q: seq<nat>, h: nat)
    requires h in q && !f(h)
    ensures Filter(f, Without(q, h)) == Filter(f, q)
  {
    var k := IndexOf(q, h);
    assert q == q[..k] + ([h] + q[k + 1..]);
    FilterConcat(f, q[..k], [h] + q[k + 1..]);
    FilterConcat(f, [h], q[k + 1..]);
    FilterConcat(f, q[..k], q[k + 1..]);
  }

  lemma FilterCons(f: nat -> bool, x: nat, r: seq<nat>)
    ensures Filter(f, [x] + r) == if f(x) then [x] + Filter(f, r) else Filter(f, r)
  {
    assert ([x] + r)[1..] == r;
  }

  lemma {:induction false} FilterTwice(f: nat -> bool, g: nat -> bool, q: seq<nat>)
    requires forall h | g(h) :: f(h)
    ensures Filter(g, Filter(f, q)) == Filter(g, q)
    decreases |q|, 1
  {
    if q != [] {
      FilterStep(f, g, q[0], q[1..]);
      assert q == [q[0]] + q[1..];
    }
  }

  lemma FilterStep(f: nat -> bool, g: nat -> bool, x: nat, r: seq<nat>)
    requires forall h | g(h) :: f(h)
    ensures Filter(g, Filter(f, [x] + r)) == Filter(g, [x] + r)
    decreases |r| + 1, 0
  {
    hide Filter;
    FilterTwice(f, g, r);
    FilterCons(f, x, r);
    FilterCons(g, x, r);
    FilterCons(g, x, Filter(f, r));
  }

  lemma {:induction false} FilterAll(f: nat -> bool, q: seq<nat>)
    requires forall h | h in q :: f(h)
    ensures Filter(f, q) == q
  {
    if q != [] { FilterAll(f, q[1..]); }
  }
}
