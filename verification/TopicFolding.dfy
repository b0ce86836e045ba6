/** Topics mapped onto existing semantic nodes (memory/consolidate.py, `_canonical_map`). */
module TopicFolding {
  import opened Text
  import opened Canonicalize

  /** The least string, as `sorted(xs)[0]`. */
  function FirstByName(xs: seq<string>): (r: string)
    requires xs != []
    ensures r in xs
    ensures forall x :: x in xs ==> LexLeq(r, x)
  {
    if |xs| == 1 then
      LexReflexive(xs[0]);
      xs[0]
    else
      var r := FirstByName(xs[1..]);
      LexTotal(r, xs[0]);
      assert xs == [xs[0]] + xs[1..];
      if LexLeq(r, xs[0]) then r
      else
        LexReflexive(xs[0]);
        assert forall x :: x in xs[1..] ==> LexLeq(xs[0], x) by {
          forall x | x in xs[1..] ensures LexLeq(xs[0], x) { LexTransitive(xs[0], r, x); }
        }
        xs[0]
  }

  // ----- what the re-rooted map is -----

  ghost predicate SemanticLinked(S: set<Topic>, sem: set<Topic>, t: Topic, u: Topic) {
    u in S && u in sem && Linked(S, t, u)
  }

  /** t's cluster already has a semantic node other than its canonical slug. */
  ghost predicate Reroots(S: set<Topic>, sem: set<Topic>, t: Topic)
    requires t in S
  {
    Canonical(S, t) !in sem && exists u :: SemanticLinked(S, sem, t, u)
  }

  /** r is where t folds: the canonical slug, or the first semantic node of the cluster. */
  ghost predicate IsFold(S: set<Topic>, sem: set<Topic>, t: Topic, r: Topic)
    requires t in S
  {
    if Reroots(S, sem, t) then
      SemanticLinked(S, sem, t, r) && forall u :: SemanticLinked(S, sem, t, u) ==> LexLeq(r, u)
    else r == Canonical(S, t)
  }

  lemma {:induction false} FirstOfSet(C: set<string>) returns (r: string)
    requires C != {}
    ensures r in C && forall u :: u in C ==> LexLeq(r, u)
    decreases |C|
  {
    var x :| x in C;
    var D := C - {x};
    LexReflexive(x);
    if D == {} {
      r := x;
      assert forall u :: u in C ==> u == x || u in D;
    } else {
      var y := FirstOfSet(D);
      LexTotal(x, y);
      r := if LexLeq(y, x) then y else x;
      forall u | u in C ensures LexLeq(r, u) {
        if u != x { LexTransitive(r, y, u) by { LexReflexive(y); } }
      }
    }
  }

  ghost function Fold(S: set<Topic>, sem: set<Topic>, t: Topic): (r: Topic)
    requires t in S
    ensures IsFold(S, sem, t, r)
  {
    assert exists r :: IsFold(S, sem, t, r) by {
      if Reroots(S, sem, t) {
        var C := set u | u in S && SemanticLinked(S, sem, t, u);
        var u :| SemanticLinked(S, sem, t, u);
        assert u in C;
        var r := FirstOfSet(C);
        assert forall u :: SemanticLinked(S, sem, t, u) ==> u in C;
        assert IsFold(S, sem, t, r);
      } else {
        assert IsFold(S, sem, t, Canonical(S, t));
      }
    }
    var r :| IsFold(S, sem, t, r);
    r
  }

  lemma FoldIsUnique(S: set<Topic>, sem: set<Topic>, t: Topic, r: Topic)
    requires t in S && IsFold(S, sem, t, r)
    ensures r == Fold(S, sem, t)
  {
    if Reroots(S, sem, t) { LexAntisymmetric(r, Fold(S, sem, t)); }
  }

  ghost function FoldMap(S: set<Topic>, sem: set<Topic>): map<Topic, Topic> {
    map t | t in S :: Fold(S, sem, t)
  }

  // ----- what folding promises -----

  lemma FoldStaysLinked(S: set<Topic>, sem: set<Topic>, t: Topic)
    requires t in S
    ensures Fold(S, sem, t) in S && Linked(S, t, Fold(S, sem, t))
  {
  }

  lemma LinkedFoldAlike(S: set<Topic>, sem: set<Topic>, t: Topic, u: Topic)
    requires t in S && u in S && Linked(S, t, u)
    ensures Fold(S, sem, t) == Fold(S, sem, u)
  {
    hide Linked;
    ClusteringIsExact(S, t, u);
    LinkedSymmetric(S, t, u);
    forall v ensures SemanticLinked(S, sem, t, v) <==> SemanticLinked(S, sem, u, v) {
      if SemanticLinked(S, sem, t, v) { LinkedTransitive(S, u, t, v); }
      if SemanticLinked(S, sem, u, v) { LinkedTransitive(S, t, u, v); }
    }
    FoldIsUnique(S, sem, u, Fold(S, sem, t));
  }

  /** Re-rooting keeps the clustering's groups. */
  lemma FoldKeepsPartition(S: set<Topic>, sem: set<Topic>, t: Topic, u: Topic)
    requires t in S && u in S
    ensures FoldMap(S, sem)[t] == FoldMap(S, sem)[u] <==> Linked(S, t, u)
  {
    hide Linked, Fold;
    FoldStaysLinked(S, sem, t);
    FoldStaysLinked(S, sem, u);
    if Fold(S, sem, t) == Fold(S, sem, u) {
      LinkedSymmetric(S, u, Fold(S, sem, u));
      LinkedTransitive(S, t, Fold(S, sem, t), u);
    }
    if Linked(S, t, u) { LinkedFoldAlike(S, sem, t, u); }
  }

  lemma FoldIsIdempotent(S: set<Topic>, sem: set<Topic>, t: Topic)
    requires t in S
    ensures Fold(S, sem, t) in S && Fold(S, sem, Fold(S, sem, t)) == Fold(S, sem, t)
  {
    FoldStaysLinked(S, sem, t);
    LinkedFoldAlike(S, sem, t, Fold(S, sem, t));
  }

  /** A group with a semantic topic folds onto a semantic topic of that group. */
  lemma FoldPrefersSemantic(S: set<Topic>, sem: set<Topic>, t: Topic, u: Topic)
    requires t in S && SemanticLinked(S, sem, t, u)
    ensures SemanticLinked(S, sem, t, Fold(S, sem, t))
  {
  }

  /** A topic whose cluster mates that are left all fold onto themselves, as it does, still folds onto
      itself when other topics are gone, whichever are semantic. */
  lemma SettledTopicsStaySettled(S: set<Topic>, sem: set<Topic>, T: set<Topic>, sem': set<Topic>, t: Topic)
    requires t in T && T <= S
    requires forall u :: u in T && Linked(T, t, u) ==> Fold(S, sem, u) == u
    ensures Fold(T, sem', t) == t
  {
    var r := Fold(T, sem', t);
    LinkedSelf(T, t);
    FoldStaysLinked(T, sem', t);
    hide Linked;
    RestrictingNeverJoins(T, S, t, r);
    LinkedFoldAlike(S, sem, t, r);
  }

  // ----- the algorithm -----

  ghost function ToSet(xs: seq<string>): set<string> {
    set x | x in xs
  }

  /** Topics listed by the slug the canonicalizer gave them. */
  ghost predicate IsGroup(universe: seq<Topic>, c: map<Topic, Topic>, r: Topic, members: seq<Topic>) {
    members != [] && forall m :: m in members <==> m in universe && m in c && c[m] == r
  }

  method Groups(universe: seq<Topic>, c: map<Topic, Topic>) returns (groups: map<Topic, seq<Topic>>)
    requires forall t :: t in universe ==> t in c
    ensures groups.Keys == set t | t in universe :: c[t]
    ensures forall r :: r in groups ==> IsGroup(universe, c, r, groups[r])
  {
    groups := map[];
    assert universe[..0] == [];
    for i := 0 to |universe|
      invariant groups.Keys == set t | t in universe[..i] :: c[t]
      invariant forall r :: r in groups ==> IsGroup(universe[..i], c, r, groups[r])
    {
      var t := universe[i];
      var done := universe[..i];
      assert universe[..i + 1] == done + [t];
      assert forall m :: m in done + [t] <==> m in done || m == t;
      GroupGrows(done, c, t, groups);
      groups := groups[c[t] := (if c[t] in groups then groups[c[t]] else []) + [t]];
    }
    assert universe[..|universe|] == universe;
  }

  lemma GroupGrows(done: seq<Topic>, c: map<Topic, Topic>, t: Topic, groups: map<Topic, seq<Topic>>)
    requires t in c && (forall m :: m in done ==> m in c && c[m] in groups)
    requires forall r :: r in groups ==> IsGroup(done, c, r, groups[r])
    ensures forall r :: r in groups && r != c[t] ==> IsGroup(done + [t], c, r, groups[r])
    ensures IsGroup(done + [t], c, c[t], (if c[t] in groups then groups[c[t]] else []) + [t])
  {
    assert forall m :: m in done + [t] <==> m in done || m == t;
    if c[t] in groups { assert IsGroup(done, c, c[t], groups[c[t]]); }
    forall q | q in groups && q != c[t] ensures IsGroup(done + [t], c, q, groups[q]) {
      assert IsGroup(done, c, q, groups[q]);
    }
  }

  function Filter(xs: seq<string>, keep: set<string>): (r: seq<string>)
    ensures forall x :: x in r <==> x in xs && x in keep
  {
    if xs == [] then []
    else if xs[0] in keep then [xs[0]] + Filter(xs[1..], keep)
    else Filter(xs[1..], keep)
  }

  /** The fold of each member of one group. */
  lemma GroupFolds(S: set<Topic>, sem: set<Topic>, universe: seq<Topic>, r: Topic, members: seq<Topic>)
    requires S == ToSet(universe) && IsGroup(universe, CanonicalMap(S), r, members)
    ensures forall m :: m in members ==>
              var inside := Filter(members, sem);
              IsFold(S, sem, m, if r in sem || inside == [] then r else FirstByName(inside))
  {
    hide Linked, Canonical, IsFold, SemanticLinked;
    var inside := Filter(members, sem);
    forall m | m in members
      ensures IsFold(S, sem, m, if r in sem || inside == [] then r else FirstByName(inside))
    {
      assert m in S && Canonical(S, m) == r;
      forall u ensures SemanticLinked(S, sem, m, u) <==> u in inside { InsideIff(S, sem, universe, r, members, m, u); }
      hide IsGroup, ToSet, CanonicalMap;
      InsideFolds(S, sem, m, r, inside);
    }
  }

  lemma InsideIff(S: set<Topic>, sem: set<Topic>, universe: seq<Topic>, r: Topic, members: seq<Topic>, m: Topic, u: Topic)
    requires S == ToSet(universe) && IsGroup(universe, CanonicalMap(S), r, members) && m in members
    ensures SemanticLinked(S, sem, m, u) <==> u in Filter(members, sem)
  {
    hide Linked, Canonical;
    if u in S { ClusteringIsExact(S, m, u); }
  }

  /** Where a topic folds, from the list of its cluster's semantic members. */
  lemma InsideFolds(S: set<Topic>, sem: set<Topic>, m: Topic, r: Topic, inside: seq<Topic>)
    requires m in S && Canonical(S, m) == r && forall u :: SemanticLinked(S, sem, m, u) <==> u in inside
    ensures IsFold(S, sem, m, if r in sem || inside == [] then r else FirstByName(inside))
  {
    hide SemanticLinked, Canonical;
    if inside != [] {
      assert inside[0] in inside && FirstByName(inside) in inside;
      assert SemanticLinked(S, sem, m, inside[0]);
    }
  }

  lemma UniverseSet(a: seq<Topic>, b: seq<Topic>)
    ensures var u := Dedup(a + b);
            ToSet(u) == ToSet(a) + ToSet(b) && forall t :: t in u <==> t in ToSet(u)
  {
  }

  lemma FoldMapIs(S: set<Topic>, sem: set<Topic>, mapping: map<Topic, Topic>)
    requires mapping.Keys == S && forall t :: t in S ==> IsFold(S, sem, t, mapping[t])
    ensures mapping == FoldMap(S, sem)
  {
    hide IsFold;
    forall t | t in S ensures mapping[t] == Fold(S, sem, t) { FoldIsUnique(S, sem, t, mapping[t]); }
  }

  lemma NamesCover(S: set<Topic>)
    ensures CanonicalMap(S).Keys == S
  {}

  method CanonicalTopicMap(canonicalize: bool, freshTopics: seq<Topic>, semTopics: seq<Topic>)
    returns (mapping: map<Topic, Topic>)
    ensures mapping == if canonicalize then FoldMap(ToSet(freshTopics) + ToSet(semTopics), ToSet(semTopics)) else map[]
  {
    hide IsFold, Canonical, IsGroup, Fold, FoldMap, CanonicalMap;
    if !canonicalize { return map[]; }
    var universe := Dedup(freshTopics + semTopics);
    mapping := DeterministicCanonical(universe);
    var sem := set t | t in semTopics;
    ghost var S := set t | t in universe;
    assert S == ToSet(universe) && sem == ToSet(semTopics);
    assert mapping.Keys == S by { NamesCover(S); }
    hide ToSet;
    UniverseSet(freshTopics, semTopics);
    var groups := Groups(universe, mapping);
    mapping := Reroot(universe, sem, mapping, groups, S);
    FoldMapIs(S, sem, mapping);
  }

  method AssignAll(m0: map<Topic, Topic>, members: seq<Topic>, to: Topic) returns (m: map<Topic, Topic>)
    ensures m.Keys == m0.Keys + ToSet(members)
    ensures forall t :: t in m ==> m[t] == if t in members then to else m0[t]
  {
    m := m0;
    for k := 0 to |members|
      invariant m.Keys == m0.Keys + ToSet(members[..k])
      invariant forall t :: t in m ==> m[t] == if t in members[..k] then to else m0[t]
    {
      assert members[..k + 1] == members[..k] + [members[k]];
      m := m[members[k] := to];
    }
    assert members[..|members|] == members;
  }

  /** Where the loop has t: folded once its group is done, at its canonical slug before. */
  ghost predicate Rerooting(S: set<Topic>, sem: set<Topic>, canonical: map<Topic, Topic>, todo: set<Topic>,
                            mapping: map<Topic, Topic>, t: Topic)
  {
    && t in S && t in canonical && t in mapping
    && if canonical[t] in todo then mapping[t] == canonical[t] else IsFold(S, sem, t, mapping[t])
  }

  /** Every topic is where the loop should have it. */
  ghost predicate AllRerooting(S: set<Topic>, sem: set<Topic>, canonical: map<Topic, Topic>, todo: set<Topic>,
                               mapping: map<Topic, Topic>)
  {
    && mapping.Keys == S
    && forall t {:trigger Rerooting(S, sem, canonical, todo, mapping, t)} :: t in S ==>
         Rerooting(S, sem, canonical, todo, mapping, t)
  }

  /** One group: its members go to its first semantic member, unless its slug is semantic already. */
  method RerootGroup(universe: seq<Topic>, sem: set<Topic>, ghost canonical: map<Topic, Topic>,
                     r: Topic, members: seq<Topic>, before: map<Topic, Topic>, ghost todo: set<Topic>, ghost S: set<Topic>)
    returns (mapping: map<Topic, Topic>)
    requires S == ToSet(universe) && canonical == CanonicalMap(S)
    requires IsGroup(universe, canonical, r, members) && r in todo
    requires AllRerooting(S, sem, canonical, todo, before)
    ensures AllRerooting(S, sem, canonical, todo - {r}, mapping)
  {
    hide IsFold, Canonical, CanonicalMap;
    GroupFolds(S, sem, universe, r, members);
    var inside := Filter(members, sem);
    mapping := before;
    if r !in sem && inside != [] {
      mapping := AssignAll(mapping, members, FirstByName(inside));
    }
    forall t | t in S ensures Rerooting(S, sem, canonical, todo - {r}, mapping, t) {
      assert Rerooting(S, sem, canonical, todo, before, t);
      assert t in members <==> canonical[t] == r;
    }
  }

  /** The loop over groups, in any order. */
  method Reroot(universe: seq<Topic>, sem: set<Topic>, canonical: map<Topic, Topic>,
                groups: map<Topic, seq<Topic>>, ghost S: set<Topic>)
    returns (mapping: map<Topic, Topic>)
    requires S == ToSet(universe) && canonical.Keys == S && canonical == CanonicalMap(S)
    requires forall t :: t in S ==> canonical[t] in groups.Keys
    requires forall r :: r in groups ==> IsGroup(universe, canonical, r, groups[r])
    ensures mapping.Keys == S && forall t :: t in S ==> IsFold(S, sem, t, mapping[t])
  {
    hide IsFold, Canonical, CanonicalMap, IsGroup, ToSet;
    mapping := canonical;
    var todo := groups.Keys;
    while todo != {}
      invariant todo <= groups.Keys && AllRerooting(S, sem, canonical, todo, mapping)
      decreases todo
    {
      var r :| r in todo;
      mapping := RerootGroup(universe, sem, canonical, r, groups[r], mapping, todo, S);
      todo := todo - {r};
    }
    forall t | t in S ensures IsFold(S, sem, t, mapping[t]) {
      assert Rerooting(S, sem, canonical, todo, mapping, t);
    }
  }
}
