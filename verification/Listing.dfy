/** Documents in the order the store lists them, and Python's stable sorts. */
module Listing {
  import opened Text
  import opened TopicFolding
  import opened MemoryTiers

  /** The names in ascending order. */
  ghost function SortedNames(C: set<string>): (r: seq<string>)
    ensures forall x :: x in r <==> x in C
    ensures forall i, j :: 0 <= i < j < |r| ==> r[i] != r[j]
    decreases |C|
  {
    if C == {} then []
    else
      assert exists x :: x in C && forall y :: y in C ==> LexLeq(x, y) by { var x := FirstOfSet(C); }
      var x :| x in C && forall y :: y in C ==> LexLeq(x, y);
      [x] + SortedNames(C - {x})
  }

  lemma SortedNamesStep(C: set<string>, x: string)
    requires x in C && forall y :: y in C ==> LexLeq(x, y)
    ensures SortedNames(C) == [x] + SortedNames(C - {x})
  {
    var z := SortedNames(C)[0];
    assert z in C;
    assert LexLeq(z, x);
    LexAntisymmetric(x, z);
  }

  method LeastName(C: set<string>) returns (x: string)
    requires C != {}
    ensures x in C && SortedNames(C) == [x] + SortedNames(C - {x})
  {
    ghost var least := FirstOfSet(C);
    x :| x in C && forall y :: y in C ==> LexLeq(x, y);
    SortedNamesStep(C, x);
  }

  lemma Regroup(a: seq<string>, x: string, b: seq<string>)
    ensures a + ([x] + b) == (a + [x]) + b
  {}

  method SortNames(C: set<string>) returns (r: seq<string>)
    ensures r == SortedNames(C)
  {
    assert SortedNames({}) == [];
    hide SortedNames, LexLeq;
    r := [];
    var todo := C;
    while todo != {}
      invariant todo <= C && r + SortedNames(todo) == SortedNames(C)
      decreases todo
    {
      var x := LeastName(todo);
      Regroup(r, x, SortedNames(todo - {x}));
      r := r + [x];
      todo := todo - {x};
    }
    assert r + [] == r;
  }

  // ----- a tier as a list of documents -----

  function Pick(m: map<string, Item>, names: seq<string>): (r: seq<Item>)
    requires forall x :: x in names ==> x in m
    ensures |r| == |names| && forall k :: 0 <= k < |r| ==> r[k] == m[names[k]]
  {
    seq(|names|, k requires 0 <= k < |names| => m[names[k]])
  }

  /** Every document of the tier, in name order. */
  ghost function Documents(m: map<string, Item>): (r: seq<Item>)
    ensures forall i :: i in r ==> exists x :: x in m && m[x] == i
    ensures forall x :: x in m ==> m[x] in r
  {
    var names := SortedNames(m.Keys);
    var r := Pick(m, names);
    assert forall x :: x in m ==> m[x] in r by {
      forall x | x in m ensures m[x] in r {
        assert x in names;
        var k :| 0 <= k < |names| && names[k] == x;
        assert r[k] == m[x];
      }
    }
    r
  }

  method ListDocuments(m: map<string, Item>) returns (r: seq<Item>)
    ensures r == Documents(m)
  {
    var names := SortNames(m.Keys);
    r := Pick(m, names);
  }

  function Keep(xs: seq<Item>, p: Item -> bool): (r: seq<Item>)
    ensures forall i :: i in r <==> i in xs && p(i)
  {
    if xs == [] then []
    else
      var last := xs[|xs| - 1];
      var front := Keep(xs[..|xs| - 1], p);
      assert xs == xs[..|xs| - 1] + [last];
      if p(last) then front + [last] else front
  }

  // ----- stable sorting by a key -----

  ghost predicate Ascending(xs: seq<Item>, key: Item -> int) {
    forall i, j :: 0 <= i < j < |xs| ==> key(xs[i]) <= key(xs[j])
  }

  /** x goes after every element with a key no greater than its own. */
  function InsertBy(xs: seq<Item>, x: Item, key: Item -> int): (r: seq<Item>)
    requires Ascending(xs, key)
    ensures Ascending(r, key) && multiset(r) == multiset(xs) + multiset{x}
  {
    if xs == [] then [x]
    else
      var last := xs[|xs| - 1];
      var front := xs[..|xs| - 1];
      assert xs == front + [last];
      if key(last) <= key(x) then xs + [x]
      else
        var r := InsertBy(front, x, key);
        LastIsGreatest(front, x, last, r, key);
        r + [last]
  }

  lemma LastIsGreatest(front: seq<Item>, x: Item, last: Item, r: seq<Item>, key: Item -> int)
    requires Ascending(front + [last], key) && Ascending(r, key) && key(x) < key(last)
    requires multiset(r) == multiset(front) + multiset{x}
    ensures Ascending(r + [last], key)
  {
    var xs := front + [last];
    forall k | 0 <= k < |r| ensures key(r[k]) <= key(last) {
      assert r[k] in multiset(r);
      if r[k] != x {
        assert r[k] in multiset(front);
        var j :| 0 <= j < |front| && front[j] == r[k];
        assert xs[j] == r[k] && xs[|front|] == last;
      }
    }
  }

  /** Python's stable `sorted(xs, key=key)`. */
  function SortBy(xs: seq<Item>, key: Item -> int): (r: seq<Item>)
    ensures Ascending(r, key) && multiset(r) == multiset(xs)
  {
    if xs == [] then []
    else
      assert xs == xs[..|xs| - 1] + [xs[|xs| - 1]];
      InsertBy(SortBy(xs[..|xs| - 1], key), xs[|xs| - 1], key)
  }

  /** `items.sort(key=created, reverse=True)`: newest first, ties in the order given. */
  function NewestFirst(xs: seq<Item>): seq<Item> {
    SortBy(xs, NewestKey)
  }

  function NewestKey(i: Item): int {
    var c: int := i.created;
    -c
  }

  function LastTouched(i: Item): int {
    if i.updated != 0 then i.updated else i.created
  }

  function OldestFirst(xs: seq<Item>): seq<Item> {
    SortBy(xs, LastTouched)
  }

  lemma SortByMembers(xs: seq<Item>, key: Item -> int, i: Item)
    ensures i in SortBy(xs, key) <==> i in xs
    ensures |SortBy(xs, key)| == |xs|
  {
    var r := SortBy(xs, key);
    assert i in r <==> i in multiset(r);
    assert i in xs <==> i in multiset(xs);
    assert |multiset(r)| == |r| && |multiset(xs)| == |xs|;
  }
}
