/** What the merge phase leaves in every node, and what the numbers of a pass's report count. */
module PassOutcome {
  import opened Text
  import opened MemoryTiers
  import opened Listing
  import opened Consolidate
  import opened NoLoss
  import opened FixedPoint
  import opened Merging
  import opened Retention
  import opened FoldOutcome

  // ----- a merge invents nothing -----

  /** The node says x: as its text or in its history. */
  ghost predicate SaidBy(i: Item, x: string) {
    x == Strip(i.text) || x in i.supersedes || exists e :: e in i.supersedes && Strip(e) == x
  }

  ghost predicate SaidIn(m: map<string, Item>, group: seq<string>, x: string) {
    exists v :: v in group && v in m && SaidBy(m[v], x)
  }

  ghost predicate SourceIn(m: map<string, Item>, group: seq<string>, x: string) {
    exists v :: v in group && v in m && x in m[v].sources
  }

  /** The node's statements and sources are those of the group. */
  ghost predicate GroupRecords(m: map<string, Item>, group: seq<string>, i: Item) {
    && (forall x :: x in i.supersedes || x == Strip(i.text) ==> SaidIn(m, group, x))
    && (forall x :: x in i.sources ==> SourceIn(m, group, x))
  }

  /** Merging two nodes takes statements and sources from them alone. */
  lemma MergedItemRecords(target: Item, dup: Item, rep: string, now: Moment)
    ensures var i := MergedItem(target, dup, rep, now);
            && (forall x :: x in i.supersedes || x == Strip(i.text) ==> SaidBy(target, x) || SaidBy(dup, x))
            && (forall x :: x in i.sources ==> x in target.sources || x in dup.sources)
  {
    hide Strip, History, AddSources;
    var dupNewer := LastTouched(dup) > LastTouched(target);
    var newer, elder := if dupNewer then dup else target, if dupNewer then target else dup;
    var i := MergedItem(target, dup, rep, now);
    SourcesFrom(newer.sources, elder.sources);
    HistoryInventsNothing(newer.supersedes, [elder.text] + elder.supersedes, newer.text);
    forall x | x in i.supersedes ensures SaidBy(target, x) || SaidBy(dup, x) {
      var k :| 0 <= k < |i.supersedes| && i.supersedes[k] == x;
      if k >= |newer.supersedes| {
        assert IsElder(i.supersedes, k, [elder.text] + elder.supersedes, newer.text);
        assert SaidBy(elder, x);
      }
    }
  }

  lemma {:induction false} SourcesFrom(srcs: seq<string>, more: seq<string>)
    ensures forall x :: x in AddSources(srcs, more) ==> x in srcs || x in more
  {
    if more != [] { SourcesFrom(srcs, more[..|more| - 1]); }
  }

  lemma SaidAgain(i: Item, x: string)
    requires SaidBy(i, x)
    ensures SaidBy(i, Strip(x))
  {
    StripAgain(i.text);
    if e :| e in i.supersedes && Strip(e) == x { StripAgain(e); }
  }

  lemma GroupRecordsMore(m: map<string, Item>, group: seq<string>, v: string, i: Item, j: Item, rep: string, now: Moment)
    requires GroupRecords(m, group, i) && v in m
    requires j == MergedItem(i, m[v], rep, now).(text := j.text)
    requires Strip(j.text) == Strip(MergedItem(i, m[v], rep, now).text)
    ensures GroupRecords(m, group + [v], j)
  {
    hide Strip, MergedItem;
    MergedItemRecords(i, m[v], rep, now);
    var all := group + [v];
    forall x | x in j.supersedes || x == Strip(j.text) ensures SaidIn(m, all, x) {
      if SaidBy(i, x) {
        if e :| e in i.supersedes && Strip(e) == x && x !in i.supersedes && x != Strip(i.text) {
          assert SaidIn(m, group, e);
          var u :| u in group && u in m && SaidBy(m[u], e);
          SaidAgain(m[u], e);
          assert u in all;
        } else {
          assert SaidIn(m, group, x);
          var u :| u in group && u in m && SaidBy(m[u], x);
          assert u in all;
        }
      } else {
        assert v in all && SaidBy(m[v], x);
      }
    }
    forall x | x in j.sources ensures SourceIn(m, all, x) {
      if x in i.sources {
        assert SourceIn(m, group, x);
        var u :| u in group && u in m && x in m[u].sources;
        assert u in all;
      } else {
        assert v in all;
      }
    }
  }

  lemma MergeDupItem(s: Tiers, p: Pair, c: Config)
    requires Stored(s) && p.rep in s.semantic && p.variant in s.semantic && p.rep != p.variant
    ensures var s' := MergeDup(s, p, c).0;
            p.rep in s'.semantic
            && var n, j := MergedItem(s.semantic[p.rep], s.semantic[p.variant], p.rep, c.now), s'.semantic[p.rep];
               j == n.(text := j.text) && j.text == Strip(n.text)
  {
    hide History, AddSources, Strip, EntryOf;
  }

  lemma {:induction false} MergesRecordOnly(s: Tiers, ps: seq<Pair>, c: Config, r: string)
    requires Stored(s) && Mergeable(s, ps) && r in s.semantic && forall p :: p in ps ==> p.variant != r
    ensures var s' := MergeAll(s, ps, c).0;
            r in s'.semantic && GroupRecords(s.semantic, [r] + VariantsIn(ps, r), s'.semantic[r])
  {
    hide MergeDup, Mergeable, Grows, GroupRecords, VariantsIn, MergedItem, Strip;
    if ps == [] {
      NothingMerged(s, r, c.now);
      OwnRecords(s.semantic, r);
    } else {
      var front, last := ps[..|ps| - 1], ps[|ps| - 1];
      assert ps == front + [last];
      FrontMergeable(s, ps);
      VariantsMore(ps, r);
      MergesRecordOnly(s, front, c, r);
      MergeAllGrows(s, front, c);
      var s1 := MergeAll(s, front, c).0;
      GrowsStored(s, s1);
      GrowsAt(s, s1, last.rep);
      GrowsAt(s, s1, last.variant);
      MergeDupIs(s1, last, c, r);
      if last.rep == r {
        MergeFrame(s, front, c, last.variant);
        MergeDupItem(s1, last, c);
        var j := MergeAll(s, ps, c).0.semantic[r];
        StripAgain(MergedItem(s1.semantic[r], s1.semantic[last.variant], r, c.now).text);
        GroupRecordsMore(s.semantic, [r] + VariantsIn(front, r), last.variant, s1.semantic[r], j, r, c.now);
        assert [r] + VariantsIn(front, r) + [last.variant] == [r] + VariantsIn(ps, r);
      }
    }
  }

  lemma OwnRecords(m: map<string, Item>, r: string)
    requires r in m
    ensures VariantsIn([], r) == [] && GroupRecords(m, [r] + VariantsIn([], r), m[r])
  {
    hide Strip;
    assert [r] + VariantsIn([], r) == [r] && r in [r];
    forall x | x in m[r].supersedes || x == Strip(m[r].text) ensures SaidIn(m, [r], x) { assert SaidBy(m[r], x); }
  }

  /** In a pass the node of a group ends the merge phase with statements and sources of the group's nodes alone. */
  lemma MergeRecordsOnly(s: Tiers, c: Config, r: string)
    requires Stored(s) && LiveAt(s, r) && At(Mapping(s, c), r) == r
    ensures var s', m := MergeAll(s, PairList(s, Mapping(s, c)), c).0, Mapping(s, c);
            && r in s'.semantic
            && GroupRecords(s.semantic, [r] + Variants(r, SemTopics(s), m), s'.semantic[r])
  {
    hide MergeAll, SemTopics, Mapping, GroupRecords, SortedNames, At, AllPairs, Variants, FreshItems, VariantsIn;
    var m := Mapping(s, c);
    var sem, ps := SemTopics(s), PairList(s, m);
    SemTopicsDistinct(s);
    VariantsInAll(SortedNames(Representatives(sem, m)), sem, m, r);
    VariantsHaveRepresentative(sem, m, r);
    SemTopicIs(s, r);
    PairsAreMergeable(s, c);
    forall p | p in ps ensures p.variant != r { PairIs(s, m, p); }
    MergesRecordOnly(s, ps, c, r);
  }

  /** Of two nodes merged, the text of the one touched later stays, by the date of its last change or, where it
      has none, of its making; the group's own on a tie. */
  lemma LaterTextStays(s: Tiers, p: Pair, c: Config)
    requires Stored(s) && p.rep in s.semantic && p.variant in s.semantic && p.rep != p.variant
    ensures var s', kept, dup := MergeDup(s, p, c).0, s.semantic[p.rep], s.semantic[p.variant];
            var keptAt := if kept.updated == 0 then kept.created else kept.updated;
            var dupAt := if dup.updated == 0 then dup.created else dup.updated;
            && p.rep in s'.semantic
            && s'.semantic[p.rep].text == (if keptAt < dupAt then Strip(dup.text) else Strip(kept.text))
  {
    hide Strip, History, AddSources;
    MergeDupItem(s, p, c);
    hide MergeDup, Stored;
  }

  // ----- the variants -----

  lemma {:induction false} VariantArchived(s: Tiers, ps: seq<Pair>, c: Config, k: nat)
    requires Stored(s) && Mergeable(s, ps) && k < |ps|
    ensures ps[k].variant in s.semantic
    ensures var v, s' := ps[k].variant, MergeAll(s, ps, c).0;
            v in s'.semantic && s'.semantic[v] == s.semantic[v].(status := Archived, updated := c.wall)
  {
    var front, last := ps[..|ps| - 1], ps[|ps| - 1];
    FrontMergeable(s, ps);
    assert ps[k] in ps && last in ps && ps == front + [last];
    var v := ps[k].variant;
    assert k < |front| ==> front[k] == ps[k] && ps[k] in front;
    forall p | p in front ensures p.rep != v { assert p in ps; }
    hide MergeDup, Mergeable, Grows;
    MergeAllGrows(s, front, c);
    var s1 := MergeAll(s, front, c).0;
    GrowsStored(s, s1);
    GrowsAt(s, s1, last.rep);
    GrowsAt(s, s1, last.variant);
    MergeDupIs(s1, last, c, v);
    if k < |front| {
      VariantArchived(s, front, c, k);
    } else {
      MergeFrame(s, front, c, v);
    }
  }

  /** In a pass every live topic that folds elsewhere is archived by the merge phase, and otherwise as it was; one
      that folds onto itself and that nothing folds onto is as it was. */
  lemma VariantsAreArchived(s: Tiers, c: Config, t: string)
    requires Stored(s) && LiveAt(s, t)
    ensures var s', m := MergeAll(s, PairList(s, Mapping(s, c)), c).0, Mapping(s, c);
            && t in s'.semantic
            && (At(m, t) != t ==> s'.semantic[t] == s.semantic[t].(status := Archived, updated := c.wall))
            && (At(m, t) == t && (forall u :: LiveAt(s, u) && u != t ==> At(m, u) != t) ==>
                  s'.semantic[t] == s.semantic[t])
  {
    hide MergeAll, SemTopics, Mapping, SortedNames, At, AllPairs, Variants, FreshItems, Mergeable, PairList;
    var m := Mapping(s, c);
    var ps := PairList(s, m);
    PairsAreMergeable(s, c);
    SemTopicIs(s, t);
    PairIs(s, m, Pair(At(m, t), t));
    if At(m, t) != t {
      var k :| 0 <= k < |ps| && ps[k] == Pair(At(m, t), t);
      VariantArchived(s, ps, c, k);
    } else {
      MergeAllGrows(s, ps, c);
      GrowsAt(s, MergeAll(s, ps, c).0, t);
      if forall u :: LiveAt(s, u) && u != t ==> At(m, u) != t {
        forall p | p in ps ensures t != p.rep && t != p.variant {
          PairIs(s, m, p);
          SemTopicIs(s, p.variant);
        }
        MergeFrame(s, ps, c, t);
      }
    }
  }

  // ----- the numbers of the report -----

  lemma {:induction false} DistinctCount(xs: seq<string>, C: set<string>)
    requires Distinct(xs) && forall x :: x in xs <==> x in C
    ensures |xs| == |C|
  {
    if xs == [] {
      assert C == {};
    } else {
      var front, last := xs[..|xs| - 1], xs[|xs| - 1];
      assert xs == front + [last];
      forall x | x in front ensures x != last { var k :| 0 <= k < |front| && front[k] == x; }
      DistinctCount(front, C - {last});
    }
  }

  lemma {:induction false} MergeCount(s: Tiers, ps: seq<Pair>, c: Config)
    requires Stored(s) && Mergeable(s, ps)
    ensures MergeAll(s, ps, c).1 == |ps|
  {
    hide MergeDup, Mergeable, Grows;
    if ps != [] {
      var front, last := ps[..|ps| - 1], ps[|ps| - 1];
      FrontMergeable(s, ps);
      MergeCount(s, front, c);
      MergeAllGrows(s, front, c);
      var s1 := MergeAll(s, front, c).0;
      GrowsAt(s, s1, last.rep);
      GrowsAt(s, s1, last.variant);
      MergeDupDone(s1, last, c);
    }
  }

  lemma MergeDupDone(s: Tiers, p: Pair, c: Config)
    ensures MergeDup(s, p, c).1 <==> p.variant in s.semantic && p.rep in s.semantic
  {
    hide MergedItem, PutSemantic, SetStatus;
  }

  function VariantNames(ps: seq<Pair>): (r: seq<string>)
    ensures |r| == |ps| && forall k :: 0 <= k < |r| ==> r[k] == ps[k].variant
  {
    seq(|ps|, k requires 0 <= k < |ps| => ps[k].variant)
  }

  /** The pass reports as merged just the live topics that fold elsewhere. */
  lemma MergedAreCounted(s: Tiers, c: Config)
    requires Stored(s)
    ensures var m := Mapping(s, c);
            Pass(s, c).1.duplicatesMerged == |set t | t in s.semantic && Live(s.semantic[t]) && At(m, t) != t|
  {
    hide MergeAll, FoldAll, SemTopics, Mapping, At, PairList, WorkList, Sweep, Prune, Promotions, FreshItems, Live;
    var m := Mapping(s, c);
    var ps := PairList(s, m);
    var elsewhere := set t | t in s.semantic && Live(s.semantic[t]) && At(m, t) != t;
    PairsAreMergeable(s, c);
    MergeCount(s, ps, c);
    var names := VariantNames(ps);
    forall t ensures t in names <==> t in elsewhere {
      SemTopicIs(s, t);
      PairIs(s, m, Pair(At(m, t), t));
      if t in names {
        var k :| 0 <= k < |ps| && ps[k].variant == t;
        assert ps[k] in ps;
        PairIs(s, m, ps[k]);
      }
      if Pair(At(m, t), t) in ps {
        var k :| 0 <= k < |ps| && ps[k] == Pair(At(m, t), t);
        assert names[k] == t;
      }
    }
    assert Distinct(names) by { NamesDistinct(s, ps); }
    DistinctCount(names, elsewhere);
  }

  lemma NamesDistinct(s: Tiers, ps: seq<Pair>)
    requires Mergeable(s, ps)
    ensures Distinct(VariantNames(ps))
  {}

  /** The captures it reports as seen are the active and draft ones. */
  lemma SeenAreCounted(s: Tiers, c: Config)
    requires Stored(s)
    ensures Pass(s, c).1.episodicSeen ==
            |set e | e in s.episodic && (s.episodic[e].status == Active || s.episodic[e].status == Draft)|
  {
    hide MergeAll, FoldAll, Mapping, PairList, WorkList, Sweep, Prune, Promotions, Documents;
    var waiting := FreshItems(s);
    var names := set e | e in s.episodic && (s.episodic[e].status == Active || s.episodic[e].status == Draft);
    DocumentsDistinct(s.episodic);
    KeepDistinct(Documents(s.episodic), Fresh);
    forall i | i in waiting ensures i.id in names { FreshItemIs(s, i); }
    forall e | e in names ensures e in Ids(waiting) {
      FreshItemIs(s, s.episodic[e]);
      IdIn(waiting, s.episodic[e]);
    }
    DistinctSize(waiting, names);
    CoveredSize(waiting, names);
  }

  /** Those of the topics that have no node. */
  function Without(s: Tiers, topics: seq<string>): set<string> {
    set t | t in topics && t !in s.semantic
  }

  lemma WithoutMore(s: Tiers, topics: seq<string>, t: string)
    requires t !in topics
    ensures |Without(s, topics + [t])| == |Without(s, topics)| + if t in s.semantic then 0 else 1
  {
    assert Without(s, topics + [t]) == Without(s, topics) + if t in s.semantic then {} else {t};
  }

  lemma {:induction false} FoldCount(s: Tiers, work: seq<Work>, topics: seq<string>, c: Config)
    requires DistinctTopics(work) && |topics| == |work| && forall k :: 0 <= k < |work| ==> topics[k] == work[k].topic
    ensures FoldAll(s, work, c).1 == |Without(s, topics)|
  {
    hide FoldTopic, Without;
    if work == [] {
      assert topics == [];
      NoneWithout(s);
    } else {
      var front, last := work[..|work| - 1], work[|work| - 1];
      var before := topics[..|front|];
      assert topics == before + [last.topic];
      FoldCount(s, front, before, c);
      forall w | w in front ensures w.topic != last.topic {
        var k :| 0 <= k < |front| && front[k] == w;
        assert work[k] == w;
      }
      FoldAllFrame(s, front, c, last.topic);
      assert last.topic !in before by {
        forall k | 0 <= k < |front| ensures before[k] != last.topic { assert front[k] in front; }
      }
      WithoutMore(s, before, last.topic);
    }
  }

  lemma NoneWithout(s: Tiers)
    ensures Without(s, []) == {}
  {}

  /** It reports as created those of its topics that had no node after the merges, and as updated the others. */
  lemma CreatedAreCounted(s: Tiers, c: Config)
    requires Stored(s)
    ensures var m, r := Mapping(s, c), Pass(s, c).1;
            var s1 := MergeAll(s, PairList(s, m), c).0;
            && r.created == |set t | t in r.topics && t !in s1.semantic|
            && r.topicsConsolidated == |r.topics| == r.created + r.updated
  {
    hide MergeAll, FoldAll, Mapping, PairList, Sweep, Prune, FreshItems, Promotions;
    var m := Mapping(s, c);
    var work := WorkList(s, m, c);
    WorkIsDistinct(s, m, c);
    FoldCount(MergeAll(s, PairList(s, m), c).0, work, Promotions(s, m, c), c);
  }

  /** The topics it reports are those the captures taken up fold onto, each once. */
  lemma TopicsAreReported(s: Tiers, c: Config, t: string)
    requires Stored(s)
    ensures var m := Mapping(s, c);
            && Distinct(Pass(s, c).1.topics)
            && (t in Pass(s, c).1.topics <==>
                  exists e :: e in s.episodic && (s.episodic[e].status == Active || s.episodic[e].status == Draft)
                              && At(m, s.episodic[e].topic) == t
                              && (c.only.None? || exists u :: u in c.only.value && At(m, u) == t))
  {
    hide MergeAll, FoldAll, Mapping, PairList, WorkList, Sweep, Prune, FreshItems, At;
    var m := Mapping(s, c);
    if t in Promotions(s, m, c) {
      var i :| i in FreshItems(s) && At(m, i.topic) == t && Wanted(OnlyTopics(c.only, m), t);
      FreshItemIs(s, i);
    }
    forall e | e in s.episodic && Fresh(s.episodic[e]) ensures s.episodic[e] in FreshItems(s) {
      FreshItemIs(s, s.episodic[e]);
    }
  }

  lemma {:induction false} ClusterDistinct(pending: seq<Item>, m: map<string, string>, topic: string)
    requires DistinctIds(pending)
    ensures DistinctIds(ClusterItems(pending, m, topic))
  {
    hide At;
    if pending != [] {
      var front, last := pending[..|pending| - 1], pending[|pending| - 1];
      ClusterDistinct(front, m, topic);
      forall i | i in ClusterItems(front, m, topic) ensures i.id != last.id {
        var k :| 0 <= k < |front| && front[k] == i;
        assert pending[k] == i;
      }
    }
  }

  /** A topic's work has each capture that folds onto it once: so many captures count for its confidence. */
  lemma CapturesAreCounted(s: Tiers, c: Config, w: Work)
    requires Stored(s) && w in WorkList(s, Mapping(s, c), c)
    ensures var m := Mapping(s, c);
            |w.items| == |set e | e in s.episodic && (s.episodic[e].status == Active || s.episodic[e].status == Draft)
                                  && At(m, s.episodic[e].topic) == w.topic|
  {
    hide Mapping, At, SortBy, SortedNames, Documents;
    var m := Mapping(s, c);
    var taken := ClusterItems(FreshItems(s), m, w.topic);
    var names := set e | e in s.episodic && (s.episodic[e].status == Active || s.episodic[e].status == Draft)
                         && At(m, s.episodic[e].topic) == w.topic;
    WorkIsCluster(s, m, c, w);
    SameLength(taken);
    DocumentsDistinct(s.episodic);
    KeepDistinct(Documents(s.episodic), Fresh);
    ClusterDistinct(FreshItems(s), m, w.topic);
    hide FreshItems;
    forall i | i in taken ensures i.id in names { FreshItemIs(s, i); }
    forall e | e in names ensures e in Ids(taken) {
      FreshItemIs(s, s.episodic[e]);
      IdIn(taken, s.episodic[e]);
    }
    DistinctSize(taken, names);
    CoveredSize(taken, names);
  }

  lemma SameLength(xs: seq<Item>)
    ensures |NewestFirst(xs)| == |xs|
  {
    hide SortBy;
    assert |multiset(NewestFirst(xs))| == |multiset(xs)|;
  }

  lemma WorkIsCluster(s: Tiers, m: map<string, string>, c: Config, w: Work)
    requires w in WorkList(s, m, c)
    ensures w.items == NewestFirst(ClusterItems(FreshItems(s), m, w.topic))
  {
    hide FreshItems, SortedNames, SortBy, ClusterItems;
    var work := WorkList(s, m, c);
    var k :| 0 <= k < |work| && work[k] == w;
  }

  /** It reports as archived the facts the sweep archives. */
  lemma ArchivedAreCounted(s: Tiers, c: Config)
    requires Stored(s)
    ensures var (s', n) := Sweep(s, c);
            n == |set t | t in s.semantic && t in s'.semantic && s'.semantic[t].status != s.semantic[t].status|
  {
    hide Documents, SetAll, OlderThan, Sweep;
    SweepIsExact(s, c);
    var s' := Sweep(s, c).0;
    var stale := StaleOf(Documents(s.semantic), c);
    var gone := set t | t in s.semantic && t in s'.semantic && s'.semantic[t].status != s.semantic[t].status;
    SweepCountIs(s, c);
    DocumentsDistinct(s.semantic);
    StaleDistinct(Documents(s.semantic), c);
    forall i | i in stale ensures i.id in gone { DocumentIs(s.semantic, i); }
    forall t | t in gone ensures t in Ids(stale) {
      DocumentIs(s.semantic, s.semantic[t]);
      IdIn(stale, s.semantic[t]);
    }
    DistinctSize(stale, gone);
    CoveredSize(stale, gone);
  }

  lemma SweepCountIs(s: Tiers, c: Config)
    ensures Sweep(s, c).1 == |StaleOf(Documents(s.semantic), c)|
  {
    hide SetAll, StaleOf, Documents;
  }

  lemma {:induction false} StaleDistinct(xs: seq<Item>, c: Config)
    requires DistinctIds(xs)
    ensures DistinctIds(StaleOf(xs, c))
  {
    hide Stale;
    if xs != [] {
      var front, last := xs[..|xs| - 1], xs[|xs| - 1];
      StaleDistinct(front, c);
      forall i | i in StaleOf(front, c) ensures i.id != last.id {
        var k :| 0 <= k < |front| && front[k] == i;
        assert xs[k] == i;
      }
    }
  }
}
