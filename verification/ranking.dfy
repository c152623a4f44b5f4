/**
 * Python's stable `sorted(xs, key=k, reverse=True)`, modelled as
 * decorate-sort-undecorate: each element is tagged with its input position,
 * and the tagged elements are put into the strict total order "larger key
 * first, earlier position first on equal keys". Sorting in that order is
 * exactly a stable descending sort.
 */
module Ranking {

  datatype Ranked<T> = Ranked(pos: nat, key: int, value: T)

  /** `a` is placed before `b` by a stable descending sort. */
  predicate Before<T>(a: Ranked<T>, b: Ranked<T>) {
    a.key > b.key || (a.key == b.key && a.pos < b.pos)
  }

  predicate Ordered<T>(s: seq<Ranked<T>>) {
    forall i, j :: 0 <= i < j < |s| ==> Before(s[i], s[j])
  }

  predicate DistinctPositions<T>(s: seq<Ranked<T>>) {
    forall i, j :: 0 <= i < j < |s| ==> s[i].pos != s[j].pos
  }

  /** Tag every element with its index and its sort key. */
  function Decorate<T>(xs: seq<T>, key: T -> int): (r: seq<Ranked<T>>)
    ensures |r| == |xs|
    ensures forall i :: 0 <= i < |xs| ==> r[i] == Ranked(i, key(xs[i]), xs[i])
  {
    seq(|xs|, i requires 0 <= i < |xs| => Ranked(i, key(xs[i]), xs[i]))
  }

  function Values<T>(s: seq<Ranked<T>>): (r: seq<T>)
    ensures |r| == |s|
    ensures forall i :: 0 <= i < |s| ==> r[i] == s[i].value
  {
    seq(|s|, i requires 0 <= i < |s| => s[i].value)
  }

  /** Insert `x` into an ordered sequence, keeping it ordered. */
  function Insert<T>(x: Ranked<T>, s: seq<Ranked<T>>): (r: seq<Ranked<T>>)
    requires Ordered(s) && DistinctPositions(s)
    requires forall k :: 0 <= k < |s| ==> s[k].pos != x.pos
    ensures Ordered(r) && DistinctPositions(r)
    ensures |r| == |s| + 1
    ensures forall k :: 0 <= k < |r| ==> r[k] in s || r[k] == x
    ensures x in r && forall k :: 0 <= k < |s| ==> s[k] in r
    decreases |s|
  {
    if |s| == 0 || Before(x, s[0]) then
      [x] + s
    else
      var rest := Insert(x, s[1..]);
      assert forall k :: 0 <= k < |rest| ==> rest[k] in s[1..] || rest[k] == x;
      assert forall k :: 0 <= k < |rest| ==> Before(s[0], rest[k]) && rest[k].pos != s[0].pos;
      ConsOrdered(s[0], rest);
      [s[0]] + rest
  }

  /** An element placed before an ordered sequence it precedes keeps it ordered. */
  lemma ConsOrdered<T>(a: Ranked<T>, s: seq<Ranked<T>>)
    requires Ordered(s) && DistinctPositions(s)
    requires forall k :: 0 <= k < |s| ==> Before(a, s[k]) && s[k].pos != a.pos
    ensures Ordered([a] + s) && DistinctPositions([a] + s)
  {
    forall i, j | 0 <= i < j < |s| + 1
      ensures Before(([a] + s)[i], ([a] + s)[j]) && ([a] + s)[i].pos != ([a] + s)[j].pos
    {
      assert ([a] + s)[j] == s[j - 1];
      if i > 0 {
        assert ([a] + s)[i] == s[i - 1];
      }
    }
  }

  /** Insertion sort into the stable descending order. */
  function Sort<T>(s: seq<Ranked<T>>): (r: seq<Ranked<T>>)
    requires DistinctPositions(s)
    ensures Ordered(r) && DistinctPositions(r)
    ensures |r| == |s|
    ensures forall k :: 0 <= k < |r| ==> r[k] in s
    ensures forall k :: 0 <= k < |s| ==> s[k] in r
    decreases |s|
  {
    if |s| == 0 then []
    else
      var rest := Sort(s[1..]);
      TailSorted(s, rest);
      Insert(s[0], rest)
  }

  /** What the recursive call of `Sort` says about the whole input. */
  lemma TailSorted<T>(s: seq<Ranked<T>>, rest: seq<Ranked<T>>)
    requires |s| > 0 && DistinctPositions(s)
    requires forall k :: 0 <= k < |rest| ==> rest[k] in s[1..]
    requires forall k :: 0 <= k < |s| - 1 ==> s[1..][k] in rest
    ensures forall k :: 0 <= k < |rest| ==> rest[k] in s && rest[k].pos != s[0].pos
    ensures forall k :: 1 <= k < |s| ==> s[k] in rest
  {
    forall k | 0 <= k < |rest|
      ensures rest[k] in s && rest[k].pos != s[0].pos
    {
      var m :| 0 <= m < |s| - 1 && s[1..][m] == rest[k];
      assert s[m + 1] == rest[k];
    }
    forall k | 1 <= k < |s|
      ensures s[k] in rest
    {
      assert s[k] == s[1..][k - 1];
    }
  }

  /** `sorted(xs, key=key, reverse=True)`, with every element still tagged by its input position. */
  function SortDesc<T>(xs: seq<T>, key: T -> int): (r: seq<Ranked<T>>)
    ensures Ordered(r) && DistinctPositions(r)
    ensures |r| == |xs|
    ensures forall k :: 0 <= k < |r| ==> r[k] in Decorate(xs, key)
    ensures forall k :: 0 <= k < |xs| ==> Decorate(xs, key)[k] in r
  {
    Sort(Decorate(xs, key))
  }

  /**
   * What the sorted sequence says about the input: every element is an input
   * element under its own position, keys never increase, equal keys keep
   * input order, and a prefix outranks everything after it.
   */
  lemma SortDescFacts<T>(xs: seq<T>, key: T -> int, cut: nat)
    requires cut <= |xs|
    ensures var r := SortDesc(xs, key);
      && (forall i :: 0 <= i < |r| ==> r[i].pos < |xs| && r[i].value == xs[r[i].pos] && r[i].key == key(xs[r[i].pos]))
      && (forall i, j :: 0 <= i < j < |r| ==> r[i].key >= r[j].key)
      && (forall i, j :: 0 <= i < j < |r| && r[i].key == r[j].key ==> r[i].pos < r[j].pos)
      && (forall i, j :: 0 <= i < cut <= j < |r| ==> Before(r[i], r[j]))
      && (forall p :: 0 <= p < |xs| ==> Ranked(p, key(xs[p]), xs[p]) in r)
  {
    var r := SortDesc(xs, key);
    var d := Decorate(xs, key);
    forall i | 0 <= i < |r|
      ensures r[i].pos < |xs| && r[i].value == xs[r[i].pos] && r[i].key == key(xs[r[i].pos])
    {
      assert r[i] in d;
    }
    forall p | 0 <= p < |xs|
      ensures Ranked(p, key(xs[p]), xs[p]) in r
    {
      assert d[p] in r;
    }
  }

  /** What the first `cut` values of the sorted sequence say about the input. */
  lemma SortDescTop<T>(xs: seq<T>, key: T -> int, cut: nat, r: seq<Ranked<T>>, top: seq<T>)
    requires cut <= |xs| && r == SortDesc(xs, key) && top == Values(r[..cut])
    ensures |top| == cut
    ensures forall i :: 0 <= i < |top| ==> r[i].pos < |xs| && top[i] == xs[r[i].pos]
    ensures forall i, j :: 0 <= i < j < |top| ==> key(top[i]) >= key(top[j])
    ensures forall i, j :: 0 <= i < j < |top| && key(top[i]) == key(top[j]) ==> r[i].pos < r[j].pos
    ensures forall p :: 0 <= p < |xs| ==> Ranked(p, key(xs[p]), xs[p]) in r
    ensures forall i, j :: 0 <= i < |top| <= j < |r| ==> Before(r[i], r[j])
  {
    SortDescFacts(xs, key, cut);
    assert forall i :: 0 <= i < |top| ==> top[i] == r[i].value;
  }
}
