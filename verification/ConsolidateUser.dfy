/** `consolidate_user` over the store object (memory/consolidate.py), proved to do what `Consolidate.Pass` says. */
module ConsolidateUser {
  import opened Text
  import opened TopicFolding
  import opened MemoryTiers
  import opened Listing
  import opened Consolidate

  method GrowHistory(h: seq<string>, elder: seq<string>, current: string) returns (supersedes: seq<string>)
    ensures supersedes == History(h, elder, current)
  {
    hide Strip;
    supersedes := h;
    for k := 0 to |elder|
      invariant supersedes == History(h, elder[..k], current)
    {
      assert elder[..k + 1][..k] == elder[..k];
      var o := Strip(elder[k]);
      if o != "" && o != current && o !in supersedes { supersedes := supersedes + [o]; }
    }
    assert elder[..|elder|] == elder;
  }

  method GrowSources(srcs: seq<string>, more: seq<string>) returns (r: seq<string>)
    ensures r == AddSources(srcs, more)
  {
    r := srcs;
    for k := 0 to |more|
      invariant r == AddSources(srcs, more[..k])
    {
      assert more[..k + 1][..k] == more[..k];
      if more[k] !in r { r := r + [more[k]]; }
    }
    assert more[..|more|] == more;
  }

  method GrowAllSources(srcs: seq<string>, items: seq<Item>) returns (r: seq<string>)
    ensures r == AddAllSources(srcs, items)
  {
    r := srcs;
    for k := 0 to |items|
      invariant r == AddAllSources(srcs, items[..k])
    {
      assert items[..k + 1][..k] == items[..k];
      r := GrowSources(r, items[k].sources);
    }
    assert items[..|items|] == items;
  }

  /** `for it in items: store.set_status(...)`. */
  method StatusEach(store: MemoryStore, tier: Tier, ids: seq<string>, status: Status, wall: Stamp)
    modifies store
    ensures store.State() == SetAll(old(store.State()), tier, ids, status, wall)
  {
    hide SetStatus;
    for k := 0 to |ids|
      invariant store.State() == SetAll(old(store.State()), tier, ids[..k], status, wall)
    {
      assert ids[..k + 1][..k] == ids[..k];
      var _ := store.ChangeStatus(tier, ids[k], status, wall);
    }
    assert ids[..|ids|] == ids;
  }

  /** One variant folded into its group's node. */
  method MergeVariant(store: MemoryStore, rep: string, variant: string, c: Config) returns (merged: bool)
    modifies store
    ensures (store.State(), merged) == MergeDup(old(store.State()), Pair(rep, variant), c)
  {
    hide PutSemantic, SetStatus, History, AddSources;
    if variant !in store.semantic || rep !in store.semantic { return false; }
    var dup, target := store.semantic[variant], store.semantic[rep];
    var newer, elder := target, dup;
    if LastTouched(dup) > LastTouched(target) { newer, elder := dup, target; }
    var supersedes := GrowHistory(newer.supersedes, [elder.text] + elder.supersedes, newer.text);
    var srcs := GrowSources(newer.sources, elder.sources);
    store.Put(Item(rep, rep, newer.text, Consolidated,
                   if dup.confidence > target.confidence then dup.confidence else target.confidence,
                   Oldest(target.created, dup.created), c.now, srcs,
                   target.accessCount + dup.accessCount, supersedes), c.wall);
    var _ := store.ChangeStatus(Semantic, dup.id, Archived, c.wall);
    return true;
  }

  lemma MergeMore(s: Tiers, ps: seq<Pair>, p: Pair, c: Config)
    ensures var (s1, n) := MergeAll(s, ps, c);
            var (s2, done) := MergeDup(s1, p, c);
            MergeAll(s, ps + [p], c) == (s2, if done then n + 1 else n)
  {
    hide MergeDup;
    assert (ps + [p])[..|ps|] == ps;
  }

  /** The nested loops over duplicate groups, in sorted order. */
  method MergeDuplicates(store: MemoryStore, reps: seq<string>, groups: map<string, seq<string>>,
                         sem: seq<string>, m: map<string, string>, c: Config)
    returns (merged: nat)
    requires forall r :: r in reps ==> r in groups && groups[r] == Variants(r, sem, m)
    modifies store
    ensures (store.State(), merged) == MergeAll(old(store.State()), AllPairs(reps, sem, m), c)
  {
    hide MergeDup, MergeAll, Variants;
    ghost var s0 := store.State();
    merged := 0;
    assert MergeAll(s0, [], c) == (s0, 0) by { MergeNone(s0, c); }
    ghost var pairs: seq<Pair> := [];
    for k := 0 to |reps|
      invariant pairs == AllPairs(reps[..k], sem, m)
      invariant (store.State(), merged) == MergeAll(s0, pairs, c)
    {
      var variants := groups[reps[k]];
      ghost var before := pairs;
      for j := 0 to |variants|
        invariant pairs == before + PairsOf(reps[k], variants[..j])
        invariant (store.State(), merged) == MergeAll(s0, pairs, c)
      {
        assert PairsOf(reps[k], variants[..j + 1]) == PairsOf(reps[k], variants[..j]) + [Pair(reps[k], variants[j])];
        MergeMore(s0, pairs, Pair(reps[k], variants[j]), c);
        pairs := pairs + [Pair(reps[k], variants[j])];
        var done := MergeVariant(store, reps[k], variants[j], c);
        if done { merged := merged + 1; }
      }
      assert variants[..|variants|] == variants;
      assert reps[..k + 1][..k] == reps[..k];
    }
    assert reps[..|reps|] == reps;
  }

  lemma MergeNone(s: Tiers, c: Config)
    ensures MergeAll(s, [], c) == (s, 0)
  {
  }

  /** One topic's captures folded into its node. */
  method FoldOne(store: MemoryStore, w: Work, c: Config)
    modifies store
    ensures store.State() == FoldTopic(old(store.State()), w, c)
  {
    hide PutSemantic, SetAll, History, AddAllSources, Strip, Dedup, Confidence;
    var topic, items := w.topic, w.items;
    var existing := if topic in store.semantic then Some(store.semantic[topic]) else None;
    var texts := Dedup(Texts(items));
    var merged := Strip(DefaultSynth(if existing.Some? then Some(existing.value.text) else None, texts));
    var prior := if existing.Some? then [existing.value.text] else [];
    var supersedes := GrowHistory(if existing.Some? then existing.value.supersedes else [],
                                  (if texts == [] then [] else texts[1..]) + prior, merged);
    var srcs := GrowAllSources(if existing.Some? then existing.value.sources else [], items);
    var support := |items| + if existing.Some? then 1 else 0;
    store.Put(Item(topic, topic, merged, if existing.Some? then Consolidated else Active,
                   Confidence(support, existing.Some?),
                   if existing.Some? then existing.value.created else c.now, c.now, srcs,
                   if existing.Some? then existing.value.accessCount else 0, supersedes), c.wall);
    StatusEach(store, Episodic, Ids(items), Consolidated, c.wall);
  }

  /** The loop over topics. */
  method FoldEach(store: MemoryStore, work: seq<Work>, c: Config) returns (created: nat)
    modifies store
    ensures (store.State(), created) == FoldAll(old(store.State()), work, c)
  {
    hide FoldTopic;
    created := 0;
    for k := 0 to |work|
      invariant (store.State(), created) == FoldAll(old(store.State()), work[..k], c)
    {
      assert work[..k + 1][..k] == work[..k];
      if work[k].topic !in store.semantic { created := created + 1; }
      FoldOne(store, work[k], c);
    }
    assert work[..|work|] == work;
  }

  /** The dict from topic to captures, for the captures seen so far. */
  ghost predicate IsClustering(clusters: map<string, seq<Item>>, done: seq<Item>, m: map<string, string>,
                               only: Option<set<string>>)
  {
    && clusters.Keys == PromotedTopics(done, m, only)
    && forall t :: t in clusters ==> clusters[t] == ClusterItems(done, m, t)
  }

  /** The fresh captures grouped by the topic they fold onto. */
  method Cluster(pending: seq<Item>, m: map<string, string>, only: Option<set<string>>)
    returns (clusters: map<string, seq<Item>>)
    ensures IsClustering(clusters, pending, m, only)
  {
    hide Wanted, At, ClusterItems;
    clusters := map[];
    assert pending[..0] == [];
    for k := 0 to |pending|
      invariant IsClustering(clusters, pending[..k], m, only)
    {
      hide IsClustering;
      assert pending[..k + 1] == pending[..k] + [pending[k]];
      var ct := At(m, pending[k].topic);
      ClusterMore(clusters, pending[..k], pending[k], m, only);
      if Wanted(only, ct) {
        clusters := clusters[ct := (if ct in clusters then clusters[ct] else []) + [pending[k]]];
      }
    }
    assert pending[..|pending|] == pending;
  }

  lemma ClusterIsPromoted(done: seq<Item>, m: map<string, string>, only: Option<set<string>>, t: string)
    requires Wanted(only, t) && ClusterItems(done, m, t) != []
    ensures t in PromotedTopics(done, m, only)
  {
    assert ClusterItems(done, m, t)[0] in ClusterItems(done, m, t);
  }

  lemma PromotedIsWanted(done: seq<Item>, m: map<string, string>, only: Option<set<string>>, t: string)
    requires t in PromotedTopics(done, m, only)
    ensures Wanted(only, t)
  {
    hide Wanted, At;
  }

  lemma ClusterMore(clusters: map<string, seq<Item>>, done: seq<Item>, i: Item, m: map<string, string>,
                    only: Option<set<string>>)
    requires IsClustering(clusters, done, m, only)
    ensures var ct := At(m, i.topic);
            IsClustering(if Wanted(only, ct)
                         then clusters[ct := (if ct in clusters then clusters[ct] else []) + [i]] else clusters,
                         done + [i], m, only)
  {
    hide Wanted, At, ClusterItems, PromotedTopics;
    var ct := At(m, i.topic);
    PromotedMore(done, i, m, only);
    forall t | t in PromotedTopics(done, m, only) ensures Wanted(only, t) { PromotedIsWanted(done, m, only, t); }
    if Wanted(only, ct) && ClusterItems(done, m, ct) != [] { ClusterIsPromoted(done, m, only, ct); }
    forall t ensures ClusterItems(done + [i], m, t) ==
                     if ct == t then ClusterItems(done, m, t) + [i] else ClusterItems(done, m, t)
    {
      ItemsMore(done, i, m, t);
    }
  }

  lemma ItemsMore(done: seq<Item>, i: Item, m: map<string, string>, t: string)
    ensures ClusterItems(done + [i], m, t) ==
            if At(m, i.topic) == t then ClusterItems(done, m, t) + [i] else ClusterItems(done, m, t)
  {
    assert (done + [i])[..|done|] == done;
  }

  lemma PromotedMore(done: seq<Item>, i: Item, m: map<string, string>, only: Option<set<string>>)
    ensures PromotedTopics(done + [i], m, only) ==
            PromotedTopics(done, m, only) + if Wanted(only, At(m, i.topic)) then {At(m, i.topic)} else {}
  {
    hide Wanted, At;
    assert forall x :: x in done + [i] <==> x in done || x == i;
  }

  /** The dict from a group's node to its variants, for the topics seen so far. */
  ghost predicate IsGrouping(groups: map<string, seq<string>>, done: seq<string>, m: map<string, string>) {
    && groups.Keys == Representatives(done, m)
    && forall r :: r in groups ==> groups[r] == Variants(r, done, m)
  }

  /** The variant topics grouped by where they fold. */
  method DuplicateGroups(sem: seq<string>, m: map<string, string>) returns (groups: map<string, seq<string>>)
    ensures IsGrouping(groups, sem, m)
  {
    hide At, Variants;
    groups := map[];
    assert sem[..0] == [];
    for k := 0 to |sem|
      invariant IsGrouping(groups, sem[..k], m)
    {
      hide IsGrouping;
      assert sem[..k + 1] == sem[..k] + [sem[k]];
      var ct := At(m, sem[k]);
      GroupMore(groups, sem[..k], sem[k], m);
      if ct != sem[k] {
        groups := groups[ct := (if ct in groups then groups[ct] else []) + [sem[k]]];
      }
    }
    assert sem[..|sem|] == sem;
  }

  lemma GroupIsRepresented(done: seq<string>, m: map<string, string>, r: string)
    requires Variants(r, done, m) != []
    ensures r in Representatives(done, m)
  {
    assert Variants(r, done, m)[0] in Variants(r, done, m);
  }

  lemma GroupMore(groups: map<string, seq<string>>, done: seq<string>, t: string, m: map<string, string>)
    requires IsGrouping(groups, done, m)
    ensures var ct := At(m, t);
            IsGrouping(if ct != t then groups[ct := (if ct in groups then groups[ct] else []) + [t]] else groups,
                       done + [t], m)
  {
    hide At, Variants, Representatives;
    var ct := At(m, t);
    RepresentativesMore(done, t, m);
    if Variants(ct, done, m) != [] { GroupIsRepresented(done, m, ct); }
    forall r ensures Variants(r, done + [t], m) ==
                     if ct == r && t != r then Variants(r, done, m) + [t] else Variants(r, done, m)
    {
      VariantsMore(done, t, m, r);
    }
  }

  lemma VariantsMore(done: seq<string>, t: string, m: map<string, string>, r: string)
    ensures Variants(r, done + [t], m) ==
            if At(m, t) == r && t != r then Variants(r, done, m) + [t] else Variants(r, done, m)
  {
    assert (done + [t])[..|done|] == done;
  }

  lemma RepresentativesMore(done: seq<string>, t: string, m: map<string, string>)
    ensures Representatives(done + [t], m) == Representatives(done, m) + if At(m, t) != t then {At(m, t)} else {}
  {
    hide At;
    assert forall x :: x in done + [t] <==> x in done || x == t;
  }

  method SweepStale(store: MemoryStore, c: Config) returns (archived: nat)
    modifies store
    ensures (store.State(), archived) == Sweep(old(store.State()), c)
  {
    var docs := ListDocuments(store.semantic);
    var ids := Ids(StaleOf(docs, c));
    StatusEach(store, Semantic, ids, Archived, c.wall);
    return |ids|;
  }

  method PruneSurplus(store: MemoryStore, c: Config) returns (pruned: nat)
    modifies store
    ensures (store.State(), pruned) == Prune(old(store.State()), c)
  {
    var docs := ListDocuments(store.episodic);
    var ids := Ids(Surplus(Keep(docs, IsConsolidated), c.cap));
    StatusEach(store, Episodic, ids, Archived, c.wall);
    return |ids|;
  }

  /** The pass. */
  method Run(store: MemoryStore, c: Config) returns (report: Report)
    modifies store
    ensures (store.State(), report) == Pass(old(store.State()), c)
  {
    hide FoldMap, MergeAll, FoldAll, Sweep, Prune, ToSet, SortedNames, AllPairs, SortBy, Representatives, PromotedTopics;
    var docs := ListDocuments(store.episodic);
    var pending := Keep(docs, Fresh);
    var facts := ListDocuments(store.semantic);
    var sem := Topics(Keep(facts, Live));
    var m := CanonicalTopicMap(c.canonicalize, Topics(pending), sem);
    var only := OnlyTopics(c.only, m);
    var clusters := Cluster(pending, m, only);
    var groups := DuplicateGroups(sem, m);

    var reps := SortNames(groups.Keys);
    var merged := MergeDuplicates(store, reps, groups, sem, m, c);

    var topics := SortNames(clusters.Keys);
    var work := seq(|topics|, k requires 0 <= k < |topics| && topics[k] in clusters =>
                      Work(topics[k], NewestFirst(clusters[topics[k]])));
    assert work == WorkOf(topics, pending, m);
    FoldAllCount(store.State(), work, c);
    var created := FoldEach(store, work, c);

    var stale := SweepStale(store, c);
    var pruned := PruneSurplus(store, c);
    report := Report(|pending|, |work|, created, |work| - created, stale, pruned, merged, topics);
  }
}
