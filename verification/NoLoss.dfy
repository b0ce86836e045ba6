/** A consolidation pass loses no recorded statement, no source and no document. */
module NoLoss {
  import opened Text
  import opened Canonicalize
  import opened TopicFolding
  import opened MemoryTiers
  import opened Listing
  import opened Consolidate

  // ----- what a document says -----

  /** o, trimmed and not blank, is the current text or in the history. */
  ghost predicate Says(i: Item, o: string) {
    o != "" && (Strip(i.text) == o || exists k :: 0 <= k < |i.supersedes| && Strip(i.supersedes[k]) == o)
  }

  /** y says all that x says and names all of x's sources. */
  ghost predicate Kept(x: Item, y: Item) {
    && (forall o :: Says(x, o) ==> Says(y, o))
    && forall src :: src in x.sources ==> src in y.sources
  }

  /** y says what the capture e says and names its sources. */
  ghost predicate Absorbs(y: Item, e: Item) {
    && (Strip(e.text) != "" ==> Says(y, Strip(e.text)))
    && forall src :: src in e.sources ==> src in y.sources
  }

  /** Only status and date of the capture have changed. */
  ghost predicate SameCapture(x: Item, y: Item) {
    y == x.(status := y.status, updated := y.updated)
  }

  /** Documents are stored under their ids; a semantic one's id is its topic. */
  ghost predicate Stored(s: Tiers) {
    && Keyed(s)
    && forall e :: e in s.episodic ==> s.episodic[e].id == e
  }

  /** Nothing recorded in a is missing from b. */
  ghost predicate Grows(a: Tiers, b: Tiers) {
    && Stored(b)
    && (forall t :: t in a.semantic ==> t in b.semantic && Kept(a.semantic[t], b.semantic[t]))
    && a.episodic.Keys == b.episodic.Keys
    && forall e :: e in a.episodic ==> SameCapture(a.episodic[e], b.episodic[e])
  }

  lemma KeptSelf(x: Item)
    ensures Kept(x, x)
  {
  }

  lemma KeptChain(x: Item, y: Item, z: Item)
    requires Kept(x, y) && Kept(y, z)
    ensures Kept(x, z)
  {
    hide Says;
  }

  lemma GrowsSelf(a: Tiers)
    requires Stored(a)
    ensures Grows(a, a)
  {
  }

  lemma GrowsChain(a: Tiers, b: Tiers, c: Tiers)
    requires Grows(a, b) && Grows(b, c)
    ensures Grows(a, c)
  {
    hide Kept;
    forall t | t in a.semantic ensures Kept(a.semantic[t], c.semantic[t]) {
      KeptChain(a.semantic[t], b.semantic[t], c.semantic[t]);
    }
  }

  // ----- histories and sources only grow -----

  lemma {:induction false} HistoryHolds(h: seq<string>, elder: seq<string>, current: string)
    ensures h <= History(h, elder, current)
    ensures forall e :: e in elder ==>
              Strip(e) == "" || Strip(e) == current || Strip(e) in History(h, elder, current)
  {
    hide Strip;
    if elder != [] {
      var front, last := elder[..|elder| - 1], elder[|elder| - 1];
      HistoryHolds(h, front, current);
      assert elder == front + [last];
    }
  }

  lemma {:induction false} SourcesHold(srcs: seq<string>, more: seq<string>)
    ensures forall x :: x in AddSources(srcs, more) <==> x in srcs || x in more
  {
    if more != [] {
      SourcesHold(srcs, more[..|more| - 1]);
      assert more == more[..|more| - 1] + [more[|more| - 1]];
    }
  }

  lemma {:induction false} AllSourcesHold(srcs: seq<string>, items: seq<Item>)
    ensures forall x :: x in srcs ==> x in AddAllSources(srcs, items)
    ensures forall i, x :: i in items && x in i.sources ==> x in AddAllSources(srcs, items)
  {
    if items != [] {
      var front, last := items[..|items| - 1], items[|items| - 1];
      AllSourcesHold(srcs, front);
      SourcesHold(AddAllSources(srcs, front), last.sources);
      assert items == front + [last];
    }
  }

  /** A document whose text is `current` and whose history is `History(h, elder, current)`
      says everything in h, everything in elder, and the text. */
  lemma HistorySays(i: Item, h: seq<string>, elder: seq<string>, o: string)
    requires i.supersedes == History(h, elder, i.text) && o != "" && Strip(o) == o
    requires Strip(i.text) == o || (exists k :: 0 <= k < |h| && Strip(h[k]) == o) || exists e :: e in elder && Strip(e) == o
    ensures Says(i, o)
  {
    hide Strip;
    HistoryHolds(h, elder, i.text);
    if Strip(i.text) != o {
      if k :| 0 <= k < |h| && Strip(h[k]) == o {
        assert i.supersedes[k] == h[k];
      } else {
        var e :| e in elder && Strip(e) == o;
        if o in i.supersedes {
          var k :| 0 <= k < |i.supersedes| && i.supersedes[k] == o;
        }
      }
    }
  }

  lemma SaysStripped(i: Item, o: string)
    requires Says(i, o)
    ensures Strip(o) == o
  {
    hide Strip;
    if Strip(i.text) == o {
      StripAgain(i.text);
    } else {
      var k :| 0 <= k < |i.supersedes| && Strip(i.supersedes[k]) == o;
      StripAgain(i.supersedes[k]);
    }
  }

  /** What is stored says the same as what was written. */
  lemma StoredSays(i: Item, updated: Stamp)
    ensures Kept(i, i.(text := Strip(i.text), updated := updated))
  {
    hide Strip;
    StripAgain(i.text);
  }

  /** Merging a variant keeps all that both nodes said. */
  lemma MergeKeeps(target: Item, dup: Item, rep: string, now: Moment)
    ensures Kept(target, MergedItem(target, dup, rep, now)) && Kept(dup, MergedItem(target, dup, rep, now))
  {
    hide Strip;
    var n := MergedItem(target, dup, rep, now);
    var dupNewer := LastTouched(dup) > LastTouched(target);
    var newer := if dupNewer then dup else target;
    var elder := if dupNewer then target else dup;
    SourcesHold(newer.sources, elder.sources);
    forall o | Says(newer, o) || Says(elder, o) ensures Says(n, o) {
      if Says(newer, o) {
        SaysStripped(newer, o);
      } else {
        SaysStripped(elder, o);
        var all := [elder.text] + elder.supersedes;
        if Strip(elder.text) == o {
          assert all[0] in all;
        } else {
          var k :| 0 <= k < |elder.supersedes| && Strip(elder.supersedes[k]) == o;
          assert all[k + 1] == elder.supersedes[k] && all[k + 1] in all;
        }
      }
      HistorySays(n, newer.supersedes, [elder.text] + elder.supersedes, o);
    }
  }

  /** Folding captures into a node keeps all the node said and absorbs every capture. */
  lemma FoldKeeps(existing: Option<Item>, topic: string, items: seq<Item>, now: Moment)
    requires items != []
    ensures existing.Some? ==> Kept(existing.value, Folded(existing, topic, items, now))
    ensures forall e :: e in items ==> Absorbs(Folded(existing, topic, items, now), e)
  {
    hide Strip;
    var f := Folded(existing, topic, items, now);
    var texts := Dedup(Texts(items));
    assert Texts(items)[0] in texts;
    var prior := if existing.Some? then [existing.value.text] else [];
    var h := if existing.Some? then existing.value.supersedes else [];
    var elder := texts[1..] + prior;
    AllSourcesHold(if existing.Some? then existing.value.sources else [], items);
    StripAgain(texts[0]);
    assert f.text == Strip(texts[0]) && f.supersedes == History(h, elder, f.text);
    if existing.Some? {
      var x := existing.value;
      forall o | Says(x, o) ensures Says(f, o) {
        SaysStripped(x, o);
        if Strip(x.text) == o { assert prior[0] in elder; }
        HistorySays(f, h, elder, o);
      }
    }
    forall e | e in items && Strip(e.text) != "" ensures Says(f, Strip(e.text)) {
      var k :| 0 <= k < |items| && items[k] == e;
      assert Texts(items)[k] in texts;
      var j :| 0 <= j < |texts| && texts[j] == e.text;
      StripAgain(e.text);
      if j > 0 { assert texts[1..][j - 1] in elder; }
      HistorySays(f, h, elder, Strip(e.text));
    }
  }

  // ----- every step of the pass grows the tiers -----

  lemma StatusGrows(s: Tiers, tier: Tier, id: string, status: Status, wall: Stamp)
    requires Stored(s)
    ensures Grows(s, SetStatus(s, tier, id, status, wall).0)
  {
    if tier == Episodic || id !in s.semantic {
      forall t | t in s.semantic ensures Kept(s.semantic[t], s.semantic[t]) { KeptSelf(s.semantic[t]); }
      hide Kept, EntryOf;
    } else {
      SemanticStatusGrows(s, id, status, wall);
    }
  }

  lemma SemanticStatusGrows(s: Tiers, id: string, status: Status, wall: Stamp)
    requires Stored(s) && id in s.semantic
    ensures Grows(s, SetStatus(s, Semantic, id, status, wall).0)
  {
    RestampedKept(s.semantic[id], status, wall);
    forall t | t in s.semantic ensures Kept(s.semantic[t], s.semantic[t]) { KeptSelf(s.semantic[t]); }
    hide Kept, EntryOf;
  }

  lemma RestampedKept(x: Item, status: Status, wall: Stamp)
    ensures Kept(x, x.(status := status, updated := wall))
  {
    hide Strip;
  }

  lemma {:induction false} AllStatusGrows(s: Tiers, tier: Tier, ids: seq<string>, status: Status, wall: Stamp)
    requires Stored(s)
    ensures Grows(s, SetAll(s, tier, ids, status, wall))
  {
    hide Grows, SetStatus;
    if ids == [] {
      GrowsSelf(s);
    } else {
      var front := SetAll(s, tier, ids[..|ids| - 1], status, wall);
      AllStatusGrows(s, tier, ids[..|ids| - 1], status, wall);
      GrowsStored(s, front);
      StatusGrows(front, tier, ids[|ids| - 1], status, wall);
      GrowsChain(s, front, SetStatus(front, tier, ids[|ids| - 1], status, wall).0);
    }
  }

  lemma GrowsStored(a: Tiers, b: Tiers)
    requires Grows(a, b)
    ensures Stored(b)
  {
  }

  lemma PutGrows(s: Tiers, item: Item, wall: Stamp)
    requires Stored(s) && item.id == item.topic
    requires item.id in s.semantic ==> Kept(s.semantic[item.id], item)
    ensures Grows(s, PutSemantic(s, item, wall))
    ensures item.id in PutSemantic(s, item, wall).semantic
    ensures Kept(item, PutSemantic(s, item, wall).semantic[item.id])
  {
    hide Strip, Kept;
    var stored := PutSemantic(s, item, wall).semantic[item.id];
    StoredSays(item, stored.updated);
    if item.id in s.semantic { KeptChain(s.semantic[item.id], item, stored); }
    forall t | t in s.semantic ensures Kept(s.semantic[t], PutSemantic(s, item, wall).semantic[t]) {
      KeptSelf(s.semantic[t]);
    }
  }

  lemma MergeDupGrows(s: Tiers, p: Pair, c: Config)
    requires Stored(s)
    ensures Grows(s, MergeDup(s, p, c).0)
    ensures p.variant in s.semantic && p.rep in s.semantic ==>
              p.rep in MergeDup(s, p, c).0.semantic && Kept(s.semantic[p.variant], MergeDup(s, p, c).0.semantic[p.rep])
  {
    hide Strip, Kept, Grows, MergedItem, SetStatus, PutSemantic;
    if p.variant in s.semantic && p.rep in s.semantic {
      var target, dup := s.semantic[p.rep], s.semantic[p.variant];
      var n := MergedItem(target, dup, p.rep, c.now);
      MergedIs(target, dup, p.rep, c.now);
      var s1 := PutSemantic(s, n, c.wall);
      MergeKeeps(target, dup, p.rep, c.now);
      PutGrows(s, n, c.wall);
      GrowsStored(s, s1);
      var s2 := SetStatus(s1, Semantic, dup.id, Archived, c.wall).0;
      StatusGrows(s1, Semantic, dup.id, Archived, c.wall);
      GrowsChain(s, s1, s2);
      GrowsAt(s1, s2, p.rep);
      KeptChain(dup, n, s1.semantic[p.rep]);
      KeptChain(dup, s1.semantic[p.rep], s2.semantic[p.rep]);
    } else {
      GrowsSelf(s);
    }
  }

  lemma MergedIs(target: Item, dup: Item, rep: string, now: Moment)
    ensures MergedItem(target, dup, rep, now).id == rep && MergedItem(target, dup, rep, now).topic == rep
  {
  }

  lemma GrowsAt(a: Tiers, b: Tiers, t: string)
    requires Grows(a, b) && t in a.semantic
    ensures t in b.semantic && Kept(a.semantic[t], b.semantic[t])
  {
  }

  /** The merges lose nothing, and each variant's content ends up in its group's node. */
  lemma {:induction false} MergeAllGrows(s: Tiers, ps: seq<Pair>, c: Config)
    requires Stored(s)
    ensures Grows(s, MergeAll(s, ps, c).0)
    ensures forall p :: p in ps && p.variant in s.semantic && p.rep in s.semantic ==>
              p.rep in MergeAll(s, ps, c).0.semantic && Kept(s.semantic[p.variant], MergeAll(s, ps, c).0.semantic[p.rep])
  {
    hide Grows, Kept, MergeDup;
    if ps == [] {
      GrowsSelf(s);
    } else {
      var front, last := ps[..|ps| - 1], ps[|ps| - 1];
      assert ps == front + [last];
      var s1 := MergeAll(s, front, c).0;
      var s2 := MergeDup(s1, last, c).0;
      MergeAllGrows(s, front, c);
      GrowsStored(s, s1);
      MergeDupGrows(s1, last, c);
      GrowsChain(s, s1, s2);
      forall p | p in ps && p.variant in s.semantic && p.rep in s.semantic
        ensures p.rep in s2.semantic && Kept(s.semantic[p.variant], s2.semantic[p.rep])
      {
        GrowsAt(s, s1, p.variant);
        GrowsAt(s, s1, p.rep);
        if p in front {
          GrowsAt(s1, s2, p.rep);
          KeptChain(s.semantic[p.variant], s1.semantic[p.rep], s2.semantic[p.rep]);
        } else {
          KeptChain(s.semantic[p.variant], s1.semantic[p.variant], s2.semantic[p.rep]);
        }
      }
    }
  }

  lemma FoldedIs(existing: Option<Item>, topic: string, items: seq<Item>, now: Moment)
    ensures Folded(existing, topic, items, now).id == topic && Folded(existing, topic, items, now).topic == topic
  {
  }

  lemma AbsorbsKept(x: Item, y: Item, e: Item)
    requires Absorbs(x, e) && Kept(x, y)
    ensures Absorbs(y, e)
  {
    hide Strip, Says;
  }

  lemma FoldTopicGrows(s: Tiers, w: Work, c: Config)
    requires Stored(s) && w.items != []
    ensures Grows(s, FoldTopic(s, w, c)) && w.topic in FoldTopic(s, w, c).semantic
    ensures forall e :: e in w.items ==> Absorbs(FoldTopic(s, w, c).semantic[w.topic], e)
  {
    hide Strip, Kept, Absorbs, Grows, Folded, SetStatus, PutSemantic, SetAll;
    var existing := Existing(s, w.topic);
    var f := Folded(existing, w.topic, w.items, c.now);
    FoldedIs(existing, w.topic, w.items, c.now);
    FoldKeeps(existing, w.topic, w.items, c.now);
    PutGrows(s, f, c.wall);
    var s1 := PutSemantic(s, f, c.wall);
    GrowsStored(s, s1);
    AllStatusGrows(s1, Episodic, Ids(w.items), Consolidated, c.wall);
    var s2 := FoldTopic(s, w, c);
    GrowsChain(s, s1, s2);
    GrowsAt(s1, s2, w.topic);
    forall e | e in w.items ensures Absorbs(s2.semantic[w.topic], e) {
      AbsorbsKept(f, s1.semantic[w.topic], e);
      AbsorbsKept(s1.semantic[w.topic], s2.semantic[w.topic], e);
    }
  }

  lemma {:induction false} FoldAllGrows(s: Tiers, work: seq<Work>, c: Config)
    requires Stored(s) && forall w :: w in work ==> w.items != []
    ensures Grows(s, FoldAll(s, work, c).0)
    ensures forall w, e :: w in work && e in w.items ==>
              w.topic in FoldAll(s, work, c).0.semantic && Absorbs(FoldAll(s, work, c).0.semantic[w.topic], e)
  {
    hide Grows, Kept, Absorbs, FoldTopic;
    if work == [] {
      GrowsSelf(s);
    } else {
      var front, last := work[..|work| - 1], work[|work| - 1];
      assert work == front + [last];
      var s1 := FoldAll(s, front, c).0;
      var s2 := FoldTopic(s1, last, c);
      FoldAllGrows(s, front, c);
      GrowsStored(s, s1);
      FoldTopicGrows(s1, last, c);
      GrowsChain(s, s1, s2);
      forall w, e | w in work && e in w.items
        ensures w.topic in s2.semantic && Absorbs(s2.semantic[w.topic], e)
      {
        if w in front {
          GrowsAt(s1, s2, w.topic);
          AbsorbsKept(s1.semantic[w.topic], s2.semantic[w.topic], e);
        }
      }
    }
  }

  // ----- the whole pass -----

  lemma DocumentIs(m: map<string, Item>, i: Item)
    requires forall x :: x in m ==> m[x].id == x
    ensures i in Documents(m) <==> i.id in m && m[i.id] == i
  {
    hide SortedNames;
    if i in Documents(m) {
      var x :| x in m && m[x] == i;
    }
  }

  /** The live semantic topics. */
  lemma SemTopicIs(s: Tiers, t: string)
    requires Stored(s)
    ensures t in SemTopics(s) <==> t in s.semantic && Live(s.semantic[t])
  {
    hide Documents;
    var live := Keep(Documents(s.semantic), Live);
    if t in s.semantic && Live(s.semantic[t]) {
      DocumentIs(s.semantic, s.semantic[t]);
      var k :| 0 <= k < |live| && live[k] == s.semantic[t];
      assert Topics(live)[k] == t;
    }
    if t in SemTopics(s) {
      var k :| 0 <= k < |live| && Topics(live)[k] == t;
      assert live[k] in live;
      DocumentIs(s.semantic, live[k]);
    }
  }

  lemma FreshItemIs(s: Tiers, i: Item)
    requires Stored(s)
    ensures i in FreshItems(s) <==> i.id in s.episodic && s.episodic[i.id] == i && Fresh(i)
  {
    hide Documents;
    DocumentIs(s.episodic, i);
  }

  /** The topics the mapping is about. */
  ghost predicate InUniverse(s: Tiers, t: string) {
    t in SemTopics(s) || exists i :: i in FreshItems(s) && i.topic == t
  }

  lemma TopicsAre(items: seq<Item>, t: string)
    ensures t in ToSet(Topics(items)) <==> exists i :: i in items && i.topic == t
  {
    if i :| i in items && i.topic == t {
      var k :| 0 <= k < |items| && items[k] == i;
      assert Topics(items)[k] == t;
    }
    if t in Topics(items) {
      var k :| 0 <= k < |items| && Topics(items)[k] == t;
      assert items[k] in items && items[k].topic == t;
    }
  }

  lemma UniverseIs(s: Tiers, t: string)
    ensures InUniverse(s, t) <==> t in ToSet(Topics(FreshItems(s))) + ToSet(SemTopics(s))
  {
    hide FreshItems, SemTopics;
    TopicsAre(FreshItems(s), t);
  }

  /** A live node's topic folds onto a live node; folding twice is folding once. */
  lemma MappingFolds(s: Tiers, c: Config, t: string)
    requires InUniverse(s, t)
    ensures var m := Mapping(s, c);
            && InUniverse(s, At(m, t)) && At(m, At(m, t)) == At(m, t)
            && (t in SemTopics(s) ==> At(m, t) in SemTopics(s))
  {
    hide FreshItems, SemTopics, Linked, InUniverse, Fold;
    var m := Mapping(s, c);
    if c.canonicalize {
      var sem := ToSet(SemTopics(s));
      var U := ToSet(Topics(FreshItems(s))) + sem;
      UniverseIs(s, t);
      UniverseIs(s, At(m, t));
      FoldIsIdempotent(U, sem, t);
      if t in sem {
        LinkedSelf(U, t);
        FoldPrefersSemantic(U, sem, t, t);
      }
    }
  }

  /** A variant is a live topic that folds elsewhere; it is paired with where it folds. */
  lemma PairIs(s: Tiers, m: map<string, string>, p: Pair)
    ensures p in PairList(s, m) <==>
            p.variant in SemTopics(s) && p.rep == At(m, p.variant) && p.rep != p.variant
  {
    hide SemTopics, SortedNames;
  }

  /** Each promoted capture is in the work of the topic it folds onto. */
  lemma WorkHas(s: Tiers, m: map<string, string>, c: Config, e: Item)
    requires e in FreshItems(s) && Wanted(OnlyTopics(c.only, m), At(m, e.topic))
    ensures exists w :: w in WorkList(s, m, c) && w.topic == At(m, e.topic) && e in w.items
  {
    hide FreshItems, SortedNames, SortBy, Wanted, OnlyTopics;
    var pending := FreshItems(s);
    var topics := SortedNames(PromotedTopics(pending, m, OnlyTopics(c.only, m)));
    var ct := At(m, e.topic);
    assert ct in topics;
    var k :| 0 <= k < |topics| && topics[k] == ct;
    var w := WorkList(s, m, c)[k];
    SortByMembers(ClusterItems(pending, m, ct), NewestKey, e);
    assert w in WorkList(s, m, c) && e in w.items;
  }

  /** Every piece of work has captures, all of them fresh, wanted and folding onto its topic. */
  lemma WorkIs(s: Tiers, m: map<string, string>, c: Config, w: Work)
    requires w in WorkList(s, m, c)
    ensures w.items != [] && Ascending(w.items, NewestKey)
    ensures Wanted(OnlyTopics(c.only, m), w.topic)
    ensures forall e :: e in w.items <==> e in FreshItems(s) && At(m, e.topic) == w.topic
  {
    hide FreshItems, SortedNames, SortBy, Wanted, OnlyTopics;
    var pending := FreshItems(s);
    var promoted := PromotedTopics(pending, m, OnlyTopics(c.only, m));
    var topics := SortedNames(promoted);
    var k :| 0 <= k < |topics| && w == WorkList(s, m, c)[k];
    assert topics[k] in promoted;
    var cluster := ClusterItems(pending, m, w.topic);
    forall e ensures e in w.items <==> e in pending && At(m, e.topic) == w.topic {
      SortByMembers(cluster, NewestKey, e);
    }
    var i :| i in pending && At(m, i.topic) == w.topic;
    assert i in w.items;
  }

  /** The four phases, each growing the tiers. */
  lemma PhasesGrow(s: Tiers, c: Config)
    requires Stored(s)
    ensures var m := Mapping(s, c);
            var s1 := MergeAll(s, PairList(s, m), c).0;
            var s2 := FoldAll(s1, WorkList(s, m, c), c).0;
            Grows(s, s1) && Grows(s1, s2) && Grows(s2, Pass(s, c).0)
  {
    hide Grows, MergeAll, FoldAll, SetAll, PairList, WorkList, Documents;
    var m := Mapping(s, c);
    var work := WorkList(s, m, c);
    var s1 := MergeAll(s, PairList(s, m), c).0;
    MergeAllGrows(s, PairList(s, m), c);
    GrowsStored(s, s1);
    forall w | w in work ensures w.items != [] { WorkIs(s, m, c, w); }
    var s2 := FoldAll(s1, work, c).0;
    FoldAllGrows(s1, work, c);
    GrowsStored(s1, s2);
    var stale := Ids(StaleOf(Documents(s2.semantic), c));
    var s3 := Sweep(s2, c).0;
    AllStatusGrows(s2, Semantic, stale, Archived, c.wall);
    GrowsStored(s2, s3);
    AllStatusGrows(s3, Episodic, Ids(Surplus(Keep(Documents(s3.episodic), IsConsolidated), c.cap)), Archived, c.wall);
    GrowsChain(s2, s3, Pass(s, c).0);
  }

  /** The pass takes this capture up. */
  ghost predicate Promoted(i: Item, m: map<string, string>, c: Config) {
    Fresh(i) && Wanted(OnlyTopics(c.only, m), At(m, i.topic))
  }

  /** No document disappears or says less. What a live node said, the node it folds onto says afterwards,
      sources included; and so does what every promoted capture said. */
  lemma NothingIsLost(s: Tiers, c: Config)
    requires Stored(s)
    ensures var m, s' := Mapping(s, c), Pass(s, c).0;
            && Grows(s, s')
            && (forall t :: t in s.semantic && Live(s.semantic[t]) ==>
                  At(m, t) in s'.semantic && Kept(s.semantic[t], s'.semantic[At(m, t)]))
            && (forall e :: e in s.episodic && Promoted(s.episodic[e], m, c) ==>
                  At(m, s.episodic[e].topic) in s'.semantic &&
                  Absorbs(s'.semantic[At(m, s.episodic[e].topic)], s.episodic[e]))
  {
    hide Grows, Kept, Absorbs, Mapping, MergeAll, FoldAll, PairList, WorkList, Pass, SemTopics, FreshItems, At, Wanted;
    var m, s' := Mapping(s, c), Pass(s, c).0;
    var work := WorkList(s, m, c);
    var s1 := MergeAll(s, PairList(s, m), c).0;
    var s2 := FoldAll(s1, work, c).0;
    PhasesGrow(s, c);
    GrowsStored(s, s1);
    GrowsChain(s, s1, s2);
    GrowsChain(s, s2, s');
    GrowsChain(s1, s2, s');
    MergeAllGrows(s, PairList(s, m), c);
    forall t | t in s.semantic && Live(s.semantic[t])
      ensures At(m, t) in s'.semantic && Kept(s.semantic[t], s'.semantic[At(m, t)])
    {
      SemTopicIs(s, t);
      MappingFolds(s, c, t) by { assert InUniverse(s, t); }
      var ct := At(m, t);
      SemTopicIs(s, ct);
      if ct == t {
        GrowsAt(s, s', t);
      } else {
        PairIs(s, m, Pair(ct, t));
        GrowsAt(s1, s', ct);
        KeptChain(s.semantic[t], s1.semantic[ct], s'.semantic[ct]);
      }
    }
    forall w | w in work ensures w.items != [] { WorkIs(s, m, c, w); }
    FoldAllGrows(s1, work, c);
    forall e | e in s.episodic && Promoted(s.episodic[e], m, c)
      ensures At(m, s.episodic[e].topic) in s'.semantic &&
              Absorbs(s'.semantic[At(m, s.episodic[e].topic)], s.episodic[e])
    {
      var i := s.episodic[e];
      FreshItemIs(s, i);
      WorkHas(s, m, c, i);
      var w :| w in work && w.topic == At(m, i.topic) && i in w.items;
      GrowsAt(s2, s', w.topic);
      AbsorbsKept(s2.semantic[w.topic], s'.semantic[w.topic], i);
    }
  }
}
