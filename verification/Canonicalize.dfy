/** Topic clustering by union-find with path halving (memory/canonicalize.py). */
module Canonicalize {
  import opened Text

  type Topic = string

  const STOP: set<string> := {
    "cpu", "core", "cores", "project", "private", "my", "the", "a", "an",
    "of", "for", "to", "is", "in", "on", "s", "user", "users", "context",
    "design", "focus", "preference", "preferences", "habit", "target" }

  // ----- tokens and similarity -----

  /** The words of a slug, cut at '-' and '_'; `word` is the one being read. */
  function WordsFrom(slug: string, word: string): set<string> {
    var here := if word == "" || word in STOP then {} else {word};
    if slug == "" then here
    else if slug[0] == '-' || slug[0] == '_' then here + WordsFrom(slug[1..], "")
    else WordsFrom(slug[1..], word + [slug[0]])
  }

  function Tokens(slug: Topic): set<string> {
    WordsFrom(slug, "")
  }

  /** The Jaccard index of two non-empty sets is at least one half. */
  predicate HalfShared(a: set<string>, b: set<string>) {
    a != {} && b != {} && 2 * |a * b| >= |a + b|
  }

  predicate Similar(a: Topic, b: Topic) {
    var ta, tb := Tokens(a), Tokens(b);
    ta != {} && tb != {} && (ta <= tb || tb <= ta || HalfShared(ta, tb))
  }

  lemma SimilarIsSymmetric(a: Topic, b: Topic)
    ensures Similar(a, b) == Similar(b, a)
  {
    var ta, tb := Tokens(a), Tokens(b);
    assert ta * tb == tb * ta && ta + tb == tb + ta;
  }

  // ----- chains of similar topics -----

  /** A walk inside S from a to b, each step between similar topics. */
  ghost predicate Chain(S: set<Topic>, p: seq<Topic>, a: Topic, b: Topic) {
    && p != [] && p[0] == a && p[|p| - 1] == b
    && (forall i :: 0 <= i < |p| ==> p[i] in S)
    && (forall i :: 0 <= i < |p| - 1 ==> Similar(p[i], p[i + 1]))
  }

  ghost predicate Linked(S: set<Topic>, a: Topic, b: Topic) {
    exists p :: Chain(S, p, a, b)
  }

  lemma LinkedSelf(S: set<Topic>, a: Topic)
    requires a in S
    ensures Linked(S, a, a)
  {
    assert Chain(S, [a], a, a);
  }

  lemma LinkedStep(S: set<Topic>, a: Topic, b: Topic)
    requires a in S && b in S && Similar(a, b)
    ensures Linked(S, a, b)
  {
    assert Chain(S, [a, b], a, b);
  }

  lemma LinkedTransitive(S: set<Topic>, a: Topic, b: Topic, c: Topic)
    requires Linked(S, a, b) && Linked(S, b, c)
    ensures Linked(S, a, c)
  {
    hide Similar;
    var p :| Chain(S, p, a, b);
    var q :| Chain(S, q, b, c);
    var r := p + q[1..];
    assert forall i :: |p| <= i < |r| ==> r[i] == q[i - |p| + 1];
    assert Chain(S, r, a, c);
  }

  lemma LinkedSymmetric(S: set<Topic>, a: Topic, b: Topic)
    requires Linked(S, a, b)
    ensures Linked(S, b, a)
  {
    hide Similar;
    var p :| Chain(S, p, a, b);
    var n := |p|;
    var r := seq(n, i requires 0 <= i < n => p[n - 1 - i]);
    forall i | 0 <= i < n - 1 ensures Similar(r[i], r[i + 1]) {
      assert r[i] == p[n - 1 - i] && r[i + 1] == p[n - 2 - i];
      SimilarIsSymmetric(p[n - 2 - i], p[n - 1 - i]);
    }
    assert Chain(S, r, b, a);
  }

  /** Fewer topics, fewer links: restricting the set never joins two clusters. */
  lemma RestrictingNeverJoins(S: set<Topic>, T: set<Topic>, a: Topic, b: Topic)
    requires S <= T && Linked(S, a, b)
    ensures Linked(T, a, b)
  {
    hide Similar;
    var p :| Chain(S, p, a, b);
    assert Chain(T, p, a, b);
  }

  /** A relation that every similar pair satisfies and that composes holds along every chain. */
  lemma {:induction false} ChainFollows(S: set<Topic>, p: seq<Topic>, a: Topic, b: Topic, root: map<Topic, Topic>)
    requires Chain(S, p, a, b) && S <= root.Keys
    requires forall x, y :: x in S && y in S && Similar(x, y) ==> root[x] == root[y]
    ensures root[a] == root[b]
    decreases |p|
  {
    hide Similar;
    if |p| > 1 {
      assert Similar(p[0], p[1]);
      ChainFollows(S, p[1..], p[1], b, root);
    }
  }

  // ----- the order that picks a cluster's name -----

  function Weight(t: Topic): nat {
    if |Tokens(t)| == 0 then 99 else |Tokens(t)|
  }

  /** The sort key: fewest tokens first, then the name. */
  predicate KeyLeq(a: Topic, b: Topic) {
    Weight(a) < Weight(b) || (Weight(a) == Weight(b) && LexLeq(a, b))
  }

  lemma KeyTotal(a: Topic, b: Topic)
    ensures KeyLeq(a, b) || KeyLeq(b, a)
  {
    LexTotal(a, b);
  }

  lemma KeyTransitive(a: Topic, b: Topic, c: Topic)
    requires KeyLeq(a, b) && KeyLeq(b, c)
    ensures KeyLeq(a, c)
  {
    if LexLeq(a, b) && LexLeq(b, c) { LexTransitive(a, b, c); }
  }

  lemma KeyAntisymmetric(a: Topic, b: Topic)
    requires KeyLeq(a, b) && KeyLeq(b, a)
    ensures a == b
  {
    LexAntisymmetric(a, b);
  }

  /** `sorted(members, key=...)[0]`. */
  function LeastMember(members: seq<Topic>): (r: Topic)
    requires members != []
    ensures r in members
    ensures forall m :: m in members ==> KeyLeq(r, m)
  {
    if |members| == 1 then
      LexReflexive(members[0]);
      members[0]
    else
      var r := LeastMember(members[1..]);
      KeyTotal(r, members[0]);
      assert members == [members[0]] + members[1..];
      assert forall m :: m in members ==> m == members[0] || m in members[1..];
      if KeyLeq(r, members[0]) then r
      else
        assert forall m :: m in members[1..] ==> KeyLeq(members[0], m) by {
          forall m | m in members[1..] ensures KeyLeq(members[0], m) { KeyTransitive(members[0], r, m); }
        }
        LexReflexive(members[0]);
        members[0]
  }

  // ----- union-find -----

  type Links = map<Topic, Topic>
  type Ranks = map<Topic, nat>

  /** x's entry agrees with its tree's root, and ranks grow strictly along parents. */
  ghost predicate Node(parent: Links, root: Links, rank: Ranks, x: Topic) {
    && x in parent && x in root && x in rank
    && parent[x] in parent && root[x] in parent
    && parent[x] in root && parent[x] in rank && root[x] in root && root[x] in rank
    && root[parent[x]] == root[x] && root[root[x]] == root[x]
    && (parent[x] == x <==> root[x] == x)
    && (parent[x] != x ==> rank[x] < rank[parent[x]])
    && rank[x] <= rank[root[x]]
  }

  ghost predicate IsForest(parent: Links, root: Links, rank: Ranks) {
    && parent.Keys == root.Keys == rank.Keys
    && forall x {:trigger Node(parent, root, rank, x)} :: x in parent ==> Node(parent, root, rank, x)
  }

  lemma NodeAround(parent: Links, root: Links, rank: Ranks, x: Topic)
    requires IsForest(parent, root, rank) && x in parent
    ensures Node(parent, root, rank, x)
    ensures Node(parent, root, rank, parent[x]) && Node(parent, root, rank, root[x])
  {
    assert Node(parent, root, rank, x);
  }

  /** Halving the path at x moves x's parent up without moving any root. */
  lemma HalvingKeepsRoots(parent: Links, root: Links, rank: Ranks, x: Topic)
    requires IsForest(parent, root, rank) && x in parent && parent[x] != x
    ensures parent[x] in parent && parent[parent[x]] in parent
    ensures var up := parent[parent[x]];
            && IsForest(parent[x := up], root, rank)
            && up in root && x in root && root[x] in rank && up in rank && x in rank
            && root[up] == root[x] && rank[x] < rank[up] <= rank[root[x]]
  {
    NodeAround(parent, root, rank, x);
    NodeAround(parent, root, rank, parent[x]);
    HalvedForest(parent, root, rank, x, parent[parent[x]]);
  }

  lemma HalvedForest(parent: Links, root: Links, rank: Ranks, x: Topic, up: Topic)
    requires IsForest(parent, root, rank)
    requires Node(parent, root, rank, x) && Node(parent, root, rank, up)
    requires parent[x] != x && rank[x] < rank[up] && root[up] == root[x]
    ensures IsForest(parent[x := up], root, rank)
  {
    hide Node;
    NodeIn(parent, root, rank, x);
    forall y | y in parent ensures Node(parent[x := up], root, rank, y) {
      hide IsForest;
      NodeAround(parent, root, rank, y);
      HalvedNode(parent, root, rank, x, up, y);
    }
  }

  lemma NodeIn(parent: Links, root: Links, rank: Ranks, x: Topic)
    requires Node(parent, root, rank, x)
    ensures x in parent && x in root && x in rank
  {}

  lemma HalvedNode(parent: Links, root: Links, rank: Ranks, x: Topic, up: Topic, y: Topic)
    requires Node(parent, root, rank, x) && Node(parent, root, rank, up) && Node(parent, root, rank, y)
    requires parent[x] != x && rank[x] < rank[up] && root[up] == root[x]
    ensures Node(parent[x := up], root, rank, y)
  {
  }

  ghost function Joined(root: Links, ra: Topic, rb: Topic): Links {
    map x | x in root :: if root[x] == rb then ra else root[x]
  }

  ghost function Raised(rank: Ranks, ra: Topic, rb: Topic): Ranks
    requires ra in rank && rb in rank
  {
    rank[ra := if rank[ra] > rank[rb] then rank[ra] else rank[rb] + 1]
  }

  /** Hanging one root under another joins exactly those two trees. */
  lemma JoiningKeepsForest(parent: Links, root: Links, rank: Ranks, ra: Topic, rb: Topic)
    requires IsForest(parent, root, rank) && ra in parent && rb in parent && ra != rb
    requires root[ra] == ra && root[rb] == rb
    ensures IsForest(parent[rb := ra], Joined(root, ra, rb), Raised(rank, ra, rb))
  {
    hide Node;
    NodeAround(parent, root, rank, ra);
    NodeAround(parent, root, rank, rb);
    forall y | y in parent ensures Node(parent[rb := ra], Joined(root, ra, rb), Raised(rank, ra, rb), y) {
      NodeAround(parent, root, rank, y);
      JoinedNode(parent, root, rank, ra, rb, y);
    }
  }

  lemma JoinedNode(parent: Links, root: Links, rank: Ranks, ra: Topic, rb: Topic, y: Topic)
    requires Node(parent, root, rank, ra) && Node(parent, root, rank, rb)
    requires ra != rb && root[ra] == ra && root[rb] == rb
    requires Node(parent, root, rank, y) && Node(parent, root, rank, parent[y]) && Node(parent, root, rank, root[y])
    ensures Node(parent[rb := ra], Joined(root, ra, rb), Raised(rank, ra, rb), y)
  {
    var root', rank' := Joined(root, ra, rb), Raised(rank, ra, rb);
    assert root'[y] == if root[y] == rb then ra else root[y];
    assert root'[ra] == ra;
    assert rank'[y] == if y == ra then rank'[ra] else rank[y];
  }

  /** The `parent` dict, with what it stands for: `root` names each topic's tree, `rank` grows towards it. */
  class Forest {
    var parent: Links
    ghost var root: Links
    ghost var rank: Ranks

    ghost predicate Valid()
      reads this
    {
      IsForest(parent, root, rank)
    }

    /** Every topic its own tree. */
    constructor (topics: seq<Topic>)
      ensures Valid() && root == map t | t in topics :: t
    {
      parent := map t | t in topics :: t;
      root := map t | t in topics :: t;
      rank := map t | t in topics :: 0;
    }

    /** Find with path halving: the root, with every root left as it was. */
    method Find(x0: Topic) returns (x: Topic)
      requires Valid() && x0 in parent
      modifies this`parent
      ensures Valid() && parent.Keys == old(parent.Keys)
      ensures x == root[x0] && x in parent && root[x] == x
    {
      x := x0;
      assert Node(parent, root, rank, x0);
      while parent[x] != x
        invariant Valid() && parent.Keys == old(parent.Keys)
        invariant x in parent && root[x] == root[x0] && rank[x] <= rank[root[x0]]
        decreases rank[root[x0]] - rank[x]
      {
        HalvingKeepsRoots(parent, root, rank, x);
        parent := parent[x := parent[parent[x]]];
        x := parent[x];
      }
      assert Node(parent, root, rank, x);
    }

    /** Union: the two trees become one, the others stay. */
    method Union(a: Topic, b: Topic)
      requires Valid() && a in parent && b in parent
      modifies this
      ensures Valid()
      ensures root == if old(root[a]) == old(root[b]) then old(root)
                      else Joined(old(root), old(root[a]), old(root[b]))
    {
      var ra := Find(a);
      var rb := Find(b);
      if ra != rb {
        JoiningKeepsForest(parent, root, rank, ra, rb);
        parent := parent[rb := ra];
        rank := Raised(rank, ra, rb);
        root := Joined(root, ra, rb);
      }
    }
  }

  // ----- the canonical slug of a topic -----

  /** r is the least member, by sort key, of t's cluster. */
  ghost predicate IsLeast(S: set<Topic>, t: Topic, r: Topic) {
    r in S && Linked(S, t, r) && forall u :: u in S && Linked(S, t, u) ==> KeyLeq(r, u)
  }

  lemma {:induction false} LeastOfSet(C: set<Topic>) returns (r: Topic)
    requires C != {}
    ensures r in C && forall u :: u in C ==> KeyLeq(r, u)
    decreases |C|
  {
    hide KeyLeq;
    var x :| x in C;
    var D := C - {x};
    KeyReflexive(x);
    if D == {} {
      r := x;
      assert forall u :: u in C ==> u == x || u in D;
    } else {
      var y := LeastOfSet(D);
      KeyTotal(x, y);
      r := if KeyLeq(y, x) then y else x;
      forall u | u in C ensures KeyLeq(r, u) {
        if u != x { KeyTransitive(r, y, u) by { KeyReflexive(y); } }
      }
    }
  }

  lemma KeyReflexive(a: Topic)
    ensures KeyLeq(a, a)
  {
    LexReflexive(a);
  }

  ghost function Canonical(S: set<Topic>, t: Topic): (r: Topic)
    requires t in S
    ensures IsLeast(S, t, r)
  {
    assert exists r :: IsLeast(S, t, r) by {
      LinkedSelf(S, t);
      var C := set u | u in S && Linked(S, t, u);
      assert t in C;
      var r := LeastOfSet(C);
      assert forall u :: u in S && Linked(S, t, u) ==> u in C;
      assert IsLeast(S, t, r);
    }
    var r :| IsLeast(S, t, r);
    r
  }

  lemma LeastIsUnique(S: set<Topic>, t: Topic, r: Topic)
    requires t in S && IsLeast(S, t, r)
    ensures r == Canonical(S, t)
  {
    KeyAntisymmetric(r, Canonical(S, t));
  }

  /** Each topic with its canonical slug: it depends on the set of topics only, not on order or repeats. */
  ghost function CanonicalMap(S: set<Topic>): map<Topic, Topic> {
    map t | t in S :: Canonical(S, t)
  }

  /** Two topics share a slug exactly when a chain of similar pairs links them. */
  lemma ClusteringIsExact(S: set<Topic>, t: Topic, u: Topic)
    requires t in S && u in S
    ensures CanonicalMap(S)[t] == CanonicalMap(S)[u] <==> Linked(S, t, u)
  {
    hide Linked, KeyLeq;
    var r := Canonical(S, t);
    if r == Canonical(S, u) {
      LinkedSymmetric(S, u, r);
      LinkedTransitive(S, t, r, u);
    }
    if Linked(S, t, u) {
      LinkedSymmetric(S, t, u);
      LinkedTransitive(S, u, t, r);
      forall v | v in S && Linked(S, u, v) ensures KeyLeq(r, v) {
        LinkedTransitive(S, t, u, v);
      }
      LeastIsUnique(S, u, r);
    }
  }

  lemma CanonicalIsIdempotent(S: set<Topic>, t: Topic)
    requires t in S
    ensures CanonicalMap(S)[t] in S
    ensures CanonicalMap(S)[CanonicalMap(S)[t]] == CanonicalMap(S)[t]
  {
    ClusteringIsExact(S, t, Canonical(S, t));
  }

  // ----- the algorithm -----

  ghost predicate SoundAt(S: set<Topic>, root: Links, x: Topic) {
    x in root && root[x] in S && Linked(S, x, root[x])
  }

  /** Every topic is linked to its root. */
  ghost predicate Sound(S: set<Topic>, root: Links) {
    root.Keys == S && forall x {:trigger SoundAt(S, root, x)} :: x in S ==> SoundAt(S, root, x)
  }

  ghost predicate SameRootIfSimilar(root: Links, a: Topic, b: Topic) {
    a in root && b in root && (Similar(a, b) ==> root[a] == root[b])
  }

  /** The pairs the double loop has handled before reaching (i, j). */
  ghost predicate Earlier(p: nat, q: nat, i: nat, j: nat) {
    p < q && (p < i || (p == i && q < j))
  }

  /** Every similar pair handled so far shares a root. */
  ghost predicate Processed(uniq: seq<Topic>, root: Links, i: nat, j: nat) {
    forall p: nat, q: nat :: q < |uniq| && Earlier(p, q, i, j) ==> SameRootIfSimilar(root, uniq[p], uniq[q])
  }

  /** Joining the trees of two similar topics keeps the forest sound. */
  lemma JoiningIsSound(S: set<Topic>, root: Links, a: Topic, b: Topic)
    requires Sound(S, root) && a in S && b in S && Similar(a, b)
    ensures Sound(S, Joined(root, root[a], root[b]))
  {
    hide Linked, Similar;
    assert SoundAt(S, root, a) && SoundAt(S, root, b);
    forall x | x in S ensures SoundAt(S, Joined(root, root[a], root[b]), x) {
      assert SoundAt(S, root, x);
      if root[x] == root[b] {
        LinkedSymmetric(S, b, root[b]);
        LinkedTransitive(S, x, root[x], b);
        SimilarIsSymmetric(a, b);
        LinkedStep(S, b, a);
        LinkedTransitive(S, x, b, a);
        LinkedTransitive(S, x, a, root[a]);
      }
    }
  }

  /** Once every similar pair shares a root, sharing a root is being linked. */
  lemma RootsAreClusters(S: set<Topic>, root: Links, t: Topic, u: Topic)
    requires Sound(S, root) && t in S && u in S
    requires forall x, y :: x in S && y in S && Similar(x, y) ==> root[x] == root[y]
    ensures root[t] == root[u] <==> Linked(S, t, u)
  {
    assert SoundAt(S, root, t) && SoundAt(S, root, u);
    if root[t] == root[u] {
      LinkedSymmetric(S, u, root[u]);
      LinkedTransitive(S, t, root[t], u);
    }
    if Linked(S, t, u) {
      var p :| Chain(S, p, t, u);
      ChainFollows(S, p, t, u, root);
    }
  }

  /** The trees are the clusters. */
  ghost predicate RootsAreLinks(S: set<Topic>, root: Links) {
    root.Keys == S && forall t, u :: t in S && u in S ==> (root[t] == root[u] <==> Linked(S, t, u))
  }

  /** Each topic is given the least member of its cluster. */
  ghost predicate NamedByLeast(S: set<Topic>, mapping: map<Topic, Topic>) {
    forall t :: t in mapping ==> IsLeast(S, t, mapping[t])
  }

  method DeterministicCanonical(topics: seq<Topic>) returns (mapping: map<Topic, Topic>)
    ensures mapping == CanonicalMap(set t | t in topics)
  {
    hide RootsAreLinks, NamedByLeast, IsClustering, CanonicalMap, IsForest;
    var uniq := Dedup(topics);
    ghost var S := set t | t in uniq;
    assert S == set t | t in topics;
    var forest := UniteSimilar(uniq, S);
    var clusters := Clusters(uniq, S, forest);
    mapping := NameClusters(S, clusters, forest.root);
    LeastIsCanonical(S, mapping);
  }

  lemma LeastIsCanonical(S: set<Topic>, mapping: map<Topic, Topic>)
    requires mapping.Keys == S && NamedByLeast(S, mapping)
    ensures mapping == CanonicalMap(S)
  {
    hide IsLeast;
    forall t | t in S ensures mapping[t] == Canonical(S, t) { LeastIsUnique(S, t, mapping[t]); }
  }

  /** The members listed are those of `done` with this root. */
  ghost predicate IsCluster(done: set<Topic>, root: Links, r: Topic, members: seq<Topic>) {
    members != [] && forall m :: m in members <==> m in done && m in root && root[m] == r
  }

  /** The dict from root to members. */
  ghost predicate IsClustering(done: set<Topic>, root: Links, clusters: map<Topic, seq<Topic>>) {
    && (forall m :: m in done && m in root ==> root[m] in clusters)
    && forall r :: r in clusters ==> IsCluster(done, root, r, clusters[r])
  }

  method Clusters(uniq: seq<Topic>, ghost S: set<Topic>, forest: Forest) returns (clusters: map<Topic, seq<Topic>>)
    requires forest.Valid() && S == (set t | t in uniq) && forest.root.Keys == S
    modifies forest`parent
    ensures forest.Valid() && forest.root == old(forest.root)
    ensures IsClustering(S, forest.root, clusters)
  {
    hide IsForest, IsCluster;
    clusters := map[];
    ghost var done: set<Topic> := {};
    for i := 0 to |uniq|
      invariant forest.Valid() && forest.root == old(forest.root)
      invariant done == (set t | t in uniq[..i]) && IsClustering(done, forest.root, clusters)
    {
      hide IsClustering;
      var t := uniq[i];
      ForestHas(forest, t);
      var r := forest.Find(t);
      AddToCluster(done, forest.root, t, clusters);
      assert uniq[..i + 1] == uniq[..i] + [t];
      clusters := clusters[r := (if r in clusters then clusters[r] else []) + [t]];
      done := done + {t};
    }
    assert uniq[..|uniq|] == uniq;
  }

  lemma ForestHas(forest: Forest, t: Topic)
    requires forest.Valid() && t in forest.root
    ensures t in forest.parent
  {}

  lemma AddToCluster(done: set<Topic>, root: Links, t: Topic, clusters: map<Topic, seq<Topic>>)
    requires t in root && IsClustering(done, root, clusters)
    ensures var r := root[t];
            IsClustering(done + {t}, root, clusters[r := (if r in clusters then clusters[r] else []) + [t]])
  {
    var r := root[t];
    var members := (if r in clusters then clusters[r] else []) + [t];
    var clusters' := clusters[r := members];
    if r in clusters { assert IsCluster(done, root, r, clusters[r]); }
    assert IsCluster(done + {t}, root, r, members);
    forall q | q in clusters' ensures IsCluster(done + {t}, root, q, clusters'[q]) {
      if q != r { assert IsCluster(done, root, q, clusters[q]); }
    }
  }

  /** Each cluster's least member names all of it; the clusters may come in any order. */
  method NameClusters(ghost S: set<Topic>, clusters: map<Topic, seq<Topic>>, ghost root: Links)
    returns (mapping: map<Topic, Topic>)
    requires RootsAreLinks(S, root) && IsClustering(S, root, clusters)
    ensures mapping.Keys == S && NamedByLeast(S, mapping)
  {
    hide IsLeast, Linked, NamedByLeast, RootsAreLinks;
    assert NamedByLeast(S, map[]) by { NothingNamed(S); }
    assert root.Keys == S by { RootsCover(S, root); }
    mapping := map[];
    var todo := clusters.Keys;
    while todo != {}
      invariant todo <= clusters.Keys
      invariant mapping.Keys == set t | t in S && root[t] !in todo
      invariant NamedByLeast(S, mapping)
      decreases todo
    {
      var r :| r in todo;
      var members := clusters[r];
      assert IsCluster(S, root, r, members);
      var rep := LeastMember(members);
      mapping := NameMembers(S, root, r, members, rep, mapping);
      todo := todo - {r};
    }
  }

  lemma NothingNamed(S: set<Topic>)
    ensures NamedByLeast(S, map[])
  {}

  lemma RootsCover(S: set<Topic>, root: Links)
    requires RootsAreLinks(S, root)
    ensures root.Keys == S
  {}

  /** One cluster: all its members get rep. */
  method NameMembers(ghost S: set<Topic>, ghost root: Links, ghost r: Topic, members: seq<Topic>, rep: Topic,
                     before: map<Topic, Topic>)
    returns (mapping: map<Topic, Topic>)
    requires RootsAreLinks(S, root) && IsCluster(S, root, r, members) && NamedByLeast(S, before)
    requires rep in members && forall m :: m in members ==> KeyLeq(rep, m)
    ensures mapping.Keys == before.Keys + (set m | m in members) && NamedByLeast(S, mapping)
  {
    hide IsLeast, KeyLeq;
    ClusterLeast(S, root, members, r, rep);
    hide IsCluster, RootsAreLinks;
    mapping := before;
    for k := 0 to |members|
      invariant mapping.Keys == before.Keys + set m | m in members[..k]
      invariant NamedByLeast(S, mapping)
    {
      mapping := mapping[members[k] := rep];
    }
    assert members[..|members|] == members;
  }

  /** When trees are clusters, the least member of a tree is the canonical slug of its members. */
  lemma ClusterLeast(S: set<Topic>, root: Links, members: seq<Topic>, r: Topic, rep: Topic)
    requires RootsAreLinks(S, root) && IsCluster(S, root, r, members)
    requires rep in members && forall m :: m in members ==> KeyLeq(rep, m)
    ensures forall m :: m in members ==> IsLeast(S, m, rep)
  {
    hide Linked, KeyLeq;
  }

  /** The double loop over pairs. */
  method UniteSimilar(uniq: seq<Topic>, ghost S: set<Topic>) returns (forest: Forest)
    requires S == set t | t in uniq
    ensures fresh(forest) && forest.Valid() && forest.root.Keys == S && RootsAreLinks(S, forest.root)
  {
    hide Linked, Similar, Processed, IsForest;
    forest := new Forest(uniq);
    forall x | x in S ensures SoundAt(S, forest.root, x) { LinkedSelf(S, x); }
    NothingProcessed(uniq, forest.root);
    for i := 0 to |uniq|
      invariant forest.Valid() && Sound(S, forest.root) && Processed(uniq, forest.root, i, 0)
    {
      UniteRow(uniq, i, S, forest);
    }
    AllProcessed(uniq, S, forest.root);
    forall t, u | t in S && u in S ensures forest.root[t] == forest.root[u] <==> Linked(S, t, u) {
      RootsAreClusters(S, forest.root, t, u);
    }
  }

  /** Topic i against every later one. */
  method UniteRow(uniq: seq<Topic>, i: nat, ghost S: set<Topic>, forest: Forest)
    requires i < |uniq| && forall k :: 0 <= k < |uniq| ==> uniq[k] in S
    requires forest.Valid() && Sound(S, forest.root) && Processed(uniq, forest.root, i, 0)
    modifies forest
    ensures forest.Valid() && Sound(S, forest.root) && Processed(uniq, forest.root, i + 1, 0)
  {
    hide Linked, Similar, Processed, SoundAt, Joined, Raised;
    RowStarts(uniq, forest.root, i);
    for j := i + 1 to |uniq|
      invariant forest.Valid() && Sound(S, forest.root) && Processed(uniq, forest.root, i, j)
    {
      var a, b := uniq[i], uniq[j];
      PairProcessed(uniq, forest.root, i, j);
      if Similar(a, b) {
        JoiningIsSound(S, forest.root, a, b);
        forest.Union(a, b);
      }
    }
    RowEnds(uniq, forest.root, i);
  }

  lemma NothingProcessed(uniq: seq<Topic>, root: Links)
    ensures Processed(uniq, root, 0, 0)
  {
  }

  lemma RowStarts(uniq: seq<Topic>, root: Links, i: nat)
    requires Processed(uniq, root, i, 0)
    ensures Processed(uniq, root, i, i + 1)
  {
    assert forall p: nat, q: nat :: Earlier(p, q, i, i + 1) ==> Earlier(p, q, i, 0);
  }

  lemma RowEnds(uniq: seq<Topic>, root: Links, i: nat)
    requires Processed(uniq, root, i, |uniq|)
    ensures Processed(uniq, root, i + 1, 0)
  {
    assert forall p: nat, q: nat :: q < |uniq| && Earlier(p, q, i + 1, 0) ==> Earlier(p, q, i, |uniq|);
  }

  /** One turn of the inner loop. */
  lemma PairProcessed(uniq: seq<Topic>, root: Links, i: nat, j: nat)
    requires i < j < |uniq| && Processed(uniq, root, i, j) && uniq[i] in root && uniq[j] in root
    ensures !Similar(uniq[i], uniq[j]) || root[uniq[i]] == root[uniq[j]] ==> Processed(uniq, root, i, j + 1)
    ensures Processed(uniq, Joined(root, root[uniq[i]], root[uniq[j]]), i, j + 1)
  {
    hide Similar;
    var root' := Joined(root, root[uniq[i]], root[uniq[j]]);
    forall p: nat, q: nat | q < |uniq| && Earlier(p, q, i, j + 1)
      ensures SameRootIfSimilar(root', uniq[p], uniq[q])
    {
      assert (p == i && q == j) || Earlier(p, q, i, j);
    }
    forall p: nat, q: nat | q < |uniq| && Earlier(p, q, i, j + 1) && !(p == i && q == j)
      ensures SameRootIfSimilar(root, uniq[p], uniq[q])
    {
      assert Earlier(p, q, i, j);
    }
  }

  lemma AllProcessed(uniq: seq<Topic>, S: set<Topic>, root: Links)
    requires S == (set t | t in uniq) && Processed(uniq, root, |uniq|, 0) && root.Keys == S
    ensures forall x, y :: x in S && y in S && Similar(x, y) ==> root[x] == root[y]
  {
    hide Similar, Linked;
    forall x, y | x in S && y in S && Similar(x, y) ensures root[x] == root[y] {
      var p :| 0 <= p < |uniq| && uniq[p] == x;
      var q :| 0 <= q < |uniq| && uniq[q] == y;
      SimilarIsSymmetric(x, y);
      assert p < q ==> Earlier(p, q, |uniq|, 0);
      assert q < p ==> Earlier(q, p, |uniq|, 0);
    }
  }
}
