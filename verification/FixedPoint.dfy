/** One consolidation pass reaches a fixed point, keeps the index exact, and lets the newest capture win. */
module FixedPoint {
  import opened Text
  import opened TopicFolding
  import opened MemoryTiers
  import opened Listing
  import opened Consolidate
  import opened NoLoss

  // ----- exactly what a batch of status changes does -----

  ghost function Restamped(m: map<string, Item>, ids: seq<string>, status: Status, wall: Stamp): map<string, Item> {
    map e | e in m :: if e in ids then m[e].(status := status, updated := wall) else m[e]
  }

  lemma RestampMore(m: map<string, Item>, ids: seq<string>, id: string, status: Status, wall: Stamp)
    ensures var m' := Restamped(m, ids, status, wall);
            Restamped(m, ids + [id], status, wall) ==
            if id in m then m'[id := m'[id].(status := status, updated := wall)] else m'
  {
    assert forall e :: e in ids + [id] <==> e in ids || e == id;
  }

  lemma {:induction false} SetAllEpisodic(s: Tiers, ids: seq<string>, status: Status, wall: Stamp)
    ensures var s' := SetAll(s, Episodic, ids, status, wall);
            s'.semantic == s.semantic && s'.index == s.index && s'.episodic == Restamped(s.episodic, ids, status, wall)
  {
    hide EntryOf;
    if ids != [] {
      var front, last := ids[..|ids| - 1], ids[|ids| - 1];
      assert ids == front + [last];
      RestampMore(s.episodic, front, last, status, wall);
      assert Restamped(s.episodic, front, status, wall).Keys == s.episodic.Keys;
      hide Restamped;
      SetAllEpisodic(s, front, status, wall);
    }
  }

  lemma {:induction false} SetAllSemantic(s: Tiers, ids: seq<string>, status: Status, wall: Stamp)
    ensures var s' := SetAll(s, Semantic, ids, status, wall);
            s'.episodic == s.episodic && s'.semantic == Restamped(s.semantic, ids, status, wall)
  {
    hide EntryOf;
    if ids != [] {
      var front, last := ids[..|ids| - 1], ids[|ids| - 1];
      assert ids == front + [last];
      RestampMore(s.semantic, front, last, status, wall);
      assert Restamped(s.semantic, front, status, wall).Keys == s.semantic.Keys;
      hide Restamped;
      SetAllSemantic(s, front, status, wall);
    }
  }

  // ----- which topics are live -----

  ghost predicate LiveAt(s: Tiers, t: string) {
    t in s.semantic && Live(s.semantic[t])
  }

  lemma MergeDupLive(s: Tiers, p: Pair, c: Config, t: string)
    requires Stored(s) && p.rep != p.variant && LiveAt(s, p.rep) && p.variant in s.semantic
    ensures MergeDup(s, p, c).0.episodic == s.episodic
    ensures LiveAt(MergeDup(s, p, c).0, t) <==> LiveAt(s, t) && t != p.variant
  {
    hide History, AddSources, Strip;
  }

  /** After the merges the live topics are the old ones without the variants. */
  lemma {:induction false} MergeAllLive(s: Tiers, ps: seq<Pair>, c: Config, t: string)
    requires Stored(s)
    requires forall p :: p in ps ==> LiveAt(s, p.rep) && LiveAt(s, p.variant)
    requires forall p, q :: p in ps && q in ps ==> p.rep != q.variant
    ensures MergeAll(s, ps, c).0.episodic == s.episodic
    ensures LiveAt(MergeAll(s, ps, c).0, t) <==> LiveAt(s, t) && forall p :: p in ps ==> t != p.variant
  {
    hide LiveAt, MergeDup, Grows;
    if ps != [] {
      var front, last := ps[..|ps| - 1], ps[|ps| - 1];
      assert ps == front + [last];
      var s1 := MergeAll(s, front, c).0;
      MergeAllGrows(s, front, c);
      GrowsStored(s, s1);
      MergeAllLive(s, front, c, t);
      MergeAllLive(s, front, c, last.rep);
      assert last in ps;
      assert LiveAt(s, last.variant);
      LiveIsStored(s, last.variant);
      GrowsAt(s, s1, last.variant);
      MergeDupLive(s1, last, c, t);
    }
  }

  lemma LiveIsStored(s: Tiers, t: string)
    requires LiveAt(s, t)
    ensures t in s.semantic
  {
  }

  lemma FoldTopicLive(s: Tiers, w: Work, c: Config, t: string)
    ensures LiveAt(FoldTopic(s, w, c), t) <==> LiveAt(s, t) || t == w.topic
    ensures FoldTopic(s, w, c).episodic == Restamped(s.episodic, Ids(w.items), Consolidated, c.wall)
    ensures t != w.topic ==> (t in FoldTopic(s, w, c).semantic <==> t in s.semantic)
    ensures t != w.topic && t in s.semantic ==> FoldTopic(s, w, c).semantic[t] == s.semantic[t]
    ensures w.topic in FoldTopic(s, w, c).semantic
  {
    hide History, AddAllSources, Strip, SetAll, Restamped, Dedup;
    SetAllEpisodic(PutSemantic(s, Folded(Existing(s, w.topic), w.topic, w.items, c.now), c.wall),
                   Ids(w.items), Consolidated, c.wall);
  }

  ghost predicate WorkedOn(work: seq<Work>, t: string) {
    exists w :: w in work && w.topic == t
  }

  ghost predicate TakenUp(work: seq<Work>, e: string) {
    exists w :: w in work && e in Ids(w.items)
  }

  /** After the folding the live topics are the old ones and those worked on,
      and every capture of the work is consolidated. */
  lemma {:induction false} FoldAllLive(s: Tiers, work: seq<Work>, c: Config, t: string)
    ensures LiveAt(FoldAll(s, work, c).0, t) <==> LiveAt(s, t) || WorkedOn(work, t)
    ensures FoldAll(s, work, c).0.episodic.Keys == s.episodic.Keys
    ensures forall e :: e in s.episodic ==>
              FoldAll(s, work, c).0.episodic[e].status ==
              if TakenUp(work, e) then Consolidated else s.episodic[e].status
  {
    hide LiveAt, FoldTopic;
    if work != [] {
      var front, last := work[..|work| - 1], work[|work| - 1];
      assert work == front + [last];
      var s1 := FoldAll(s, front, c).0;
      FoldAllLive(s, front, c, t);
      FoldTopicLive(s1, last, c, t);
      assert WorkedOn(work, t) <==> WorkedOn(front, t) || t == last.topic;
      forall e ensures TakenUp(work, e) <==> TakenUp(front, e) || e in Ids(last.items) {
        if e in Ids(last.items) { assert last in work; }
        if w :| w in front && e in Ids(w.items) { assert w in work; }
      }
    }
  }

  // ----- what one pass leaves behind -----

  /** The topics the pass knew. */
  ghost function Universe(s: Tiers): set<string> {
    ToSet(Topics(FreshItems(s))) + ToSet(SemTopics(s))
  }

  /** Every live topic is one the pass knew and folds onto itself. */
  ghost predicate Settled(s': Tiers, U: set<string>, m: map<string, string>) {
    forall t :: LiveAt(s', t) ==> t in U && At(m, t) == t
  }

  ghost predicate NothingFresh(s: Tiers) {
    forall e :: e in s.episodic ==> !Fresh(s.episodic[e])
  }

  lemma MergesSettle(s: Tiers, c: Config)
    requires Stored(s)
    ensures var m := Mapping(s, c);
            var s1 := MergeAll(s, PairList(s, m), c).0;
            Stored(s1) && Settled(s1, Universe(s), m) && s1.episodic == s.episodic
  {
    hide MergeAll, Mapping, PairList, LiveAt, Grows, SemTopics, FreshItems, At, InUniverse;
    var m := Mapping(s, c);
    var ps := PairList(s, m);
    forall p | p in ps
      ensures LiveAt(s, p.rep) && LiveAt(s, p.variant) && At(m, p.rep) == p.rep && At(m, p.variant) != p.variant
    {
      PairIs(s, m, p);
      InUniverseIf(s, p.variant);
      MappingFolds(s, c, p.variant);
      LiveTopicIs(s, p.variant);
      LiveTopicIs(s, p.rep);
    }
    MergeAllGrows(s, ps, c);
    GrowsStored(s, MergeAll(s, ps, c).0);
    forall t | LiveAt(MergeAll(s, ps, c).0, t) ensures t in Universe(s) && At(m, t) == t {
      MergeAllLive(s, ps, c, t);
      LiveTopicIs(s, t);
      InUniverseIf(s, t);
      UniverseIs(s, t);
      if At(m, t) != t { PairIs(s, m, Pair(At(m, t), t)); }
    }
    MergeAllLive(s, ps, c, "");
  }

  lemma InUniverseIf(s: Tiers, t: string)
    requires t in SemTopics(s)
    ensures InUniverse(s, t)
  {
  }

  lemma LiveTopicIs(s: Tiers, t: string)
    requires Stored(s)
    ensures t in SemTopics(s) <==> LiveAt(s, t)
  {
    SemTopicIs(s, t);
  }

  /** When everything is promoted, folding leaves nothing fresh and every live topic settled. */
  lemma FoldingSettles(s: Tiers, c: Config, s1: Tiers)
    requires Stored(s) && c.only == None
    requires Settled(s1, Universe(s), Mapping(s, c)) && s1.episodic == s.episodic
    ensures var s2 := FoldAll(s1, WorkList(s, Mapping(s, c), c), c).0;
            Settled(s2, Universe(s), Mapping(s, c)) && NothingFresh(s2)
  {
    hide FoldAll, Mapping, WorkList, LiveAt, SemTopics, FreshItems, InUniverse, At;
    var m := Mapping(s, c);
    var work := WorkList(s, m, c);
    var s2 := FoldAll(s1, work, c).0;
    forall t | LiveAt(s2, t) ensures t in Universe(s) && At(m, t) == t {
      FoldAllLive(s1, work, c, t);
      if WorkedOn(work, t) {
        var w :| w in work && w.topic == t;
        WorkIs(s, m, c, w);
        var i := w.items[0];
        FreshInUniverse(s, i);
        MappingFolds(s, c, i.topic);
        UniverseIs(s, t);
      }
    }
    FoldAllLive(s1, work, c, "");
    forall e | e in s2.episodic ensures !Fresh(s2.episodic[e]) {
      var i := s.episodic[e];
      FreshItemIs(s, i);
      if Fresh(i) {
        WorkHas(s, m, c, i);
        var w :| w in work && w.topic == At(m, i.topic) && i in w.items;
        var k :| 0 <= k < |w.items| && w.items[k] == i;
        assert Ids(w.items)[k] == e;
        assert TakenUp(work, e);
      }
    }
  }

  lemma FreshInUniverse(s: Tiers, i: Item)
    requires i in FreshItems(s)
    ensures InUniverse(s, i.topic)
  {
  }

  ghost predicate NothingStale(s: Tiers, c: Config) {
    forall t :: t in s.semantic ==> !Stale(s.semantic[t], c)
  }

  lemma SweepLeavesNoneStale(s: Tiers, c: Config)
    requires Stored(s)
    ensures var s' := Sweep(s, c).0;
            NothingStale(s', c) && s'.episodic == s.episodic && forall t :: LiveAt(s', t) ==> LiveAt(s, t)
  {
    hide Documents, SetAll, OlderThan;
    var stale := StaleOf(Documents(s.semantic), c);
    SetAllSemantic(s, Ids(stale), Archived, c.wall);
    forall t | t in s.semantic && Stale(s.semantic[t], c) ensures t in Ids(stale) {
      DocumentIs(s.semantic, s.semantic[t]);
      var k :| 0 <= k < |stale| && stale[k] == s.semantic[t];
      assert Ids(stale)[k] == t;
    }
  }

  ghost function ConsolidatedNames(s: Tiers): set<string> {
    set e | e in s.episodic && s.episodic[e].status == Consolidated
  }

  lemma {:induction false} SeqSetSize(xs: seq<string>)
    ensures |ToSet(xs)| <= |xs|
  {
    if xs == [] {
    } else {
      var front, last := xs[..|xs| - 1], xs[|xs| - 1];
      SeqSetSize(front);
      assert ToSet(xs) == ToSet(front) + {last};
    }
  }

  /** The cap holds after pruning. */
  lemma PruneMeetsCap(s: Tiers, c: Config)
    requires Stored(s)
    ensures var s' := Prune(s, c).0;
            && s'.semantic == s.semantic && (c.cap == 0 || |ConsolidatedNames(s')| <= c.cap)
            && (NothingFresh(s) ==> NothingFresh(s'))
  {
    hide Documents, SetAll, SortBy;
    var all := Keep(Documents(s.episodic), IsConsolidated);
    var done := OldestFirst(all);
    var ids := Ids(Surplus(all, c.cap));
    SetAllEpisodic(s, ids, Archived, c.wall);
    var s' := Prune(s, c).0;
    if c.cap != 0 {
      var n := if |done| <= c.cap then 0 else |done| - c.cap;
      var rest := Ids(done[n..]);
      assert n > 0 ==> ids == Ids(done[..n]);
      forall e | e in ConsolidatedNames(s') ensures e in ToSet(rest) {
        assert e in s.episodic && s.episodic[e].status == Consolidated && s.episodic[e].id == e && e !in ids;
        DocumentIs(s.episodic, s.episodic[e]);
        SortByMembers(all, LastTouched, s.episodic[e]);
        KeptIsRest(done, n, s.episodic[e]);
      }
      SeqSetSize(rest);
      SetSizes(ConsolidatedNames(s'), ToSet(rest));
    }
  }

  lemma KeptIsRest(done: seq<Item>, n: nat, i: Item)
    requires n <= |done| && i in done && (n > 0 ==> i.id !in Ids(done[..n]))
    ensures i.id in Ids(done[n..])
  {
    var k :| 0 <= k < |done| && done[k] == i;
    forall j | 0 <= j < n ensures done[j].id in Ids(done[..n]) { assert Ids(done[..n])[j] == done[j].id; }
    assert Ids(done[n..])[k - n] == i.id;
  }

  lemma {:induction false} SetSizes(a: set<string>, b: set<string>)
    requires a <= b
    ensures |a| <= |b|
    decreases |a|
  {
    if x :| x in a { SetSizes(a - {x}, b - {x}); }
  }

  // ----- a second pass finds nothing to do -----

  ghost predicate DistinctIds(xs: seq<Item>) {
    forall i, j :: 0 <= i < j < |xs| ==> xs[i].id != xs[j].id
  }

  lemma {:induction false} KeepDistinct(xs: seq<Item>, p: Item -> bool)
    requires DistinctIds(xs)
    ensures DistinctIds(Keep(xs, p))
  {
    if xs != [] {
      var front, last := xs[..|xs| - 1], xs[|xs| - 1];
      KeepDistinct(front, p);
      forall i | i in Keep(front, p) ensures i.id != last.id {
        var k :| 0 <= k < |front| && front[k] == i;
        assert xs[k] == i;
      }
    }
  }

  lemma DocumentsDistinct(m: map<string, Item>)
    requires forall x :: x in m ==> m[x].id == x
    ensures DistinctIds(Documents(m))
  {
    hide SortedNames;
    var names := SortedNames(m.Keys);
    assert forall k :: 0 <= k < |names| ==> names[k] in m;
  }

  lemma {:induction false} DistinctSize(xs: seq<Item>, C: set<string>)
    requires DistinctIds(xs) && forall i :: i in xs ==> i.id in C
    ensures |xs| <= |C|
  {
    if xs != [] {
      var front, last := xs[..|xs| - 1], xs[|xs| - 1];
      assert last in xs;
      forall i | i in front ensures i.id in C - {last.id} {
        var k :| 0 <= k < |front| && front[k] == i;
        assert xs[k] == i && xs[|xs| - 1] == last;
      }
      DistinctSize(front, C - {last.id});
    }
  }

  /** A state in which a pass has nothing to do. */
  ghost predicate Quiet(s: Tiers, c: Config) {
    && Stored(s) && NothingFresh(s) && NothingStale(s, c)
    && (c.cap == 0 || |ConsolidatedNames(s)| <= c.cap)
    && forall t :: LiveAt(s, t) ==> At(Mapping(s, c), t) == t
  }

  const NO_WORK := Report(0, 0, 0, 0, 0, 0, 0, [])

  lemma KeepNone(xs: seq<Item>, p: Item -> bool)
    requires forall i :: i in xs ==> !p(i)
    ensures Keep(xs, p) == []
  {
    if Keep(xs, p) != [] { assert Keep(xs, p)[0] in Keep(xs, p); }
  }

  lemma NoFreshItems(s: Tiers)
    requires Stored(s) && NothingFresh(s)
    ensures FreshItems(s) == []
  {
    hide Documents;
    forall i | i in Documents(s.episodic) ensures !Fresh(i) { DocumentIs(s.episodic, i); }
    KeepNone(Documents(s.episodic), Fresh);
  }

  lemma NoPairs(s: Tiers, m: map<string, string>)
    requires Stored(s) && forall t :: LiveAt(s, t) ==> At(m, t) == t
    ensures PairList(s, m) == []
  {
    hide PairList;
    var ps := PairList(s, m);
    if ps != [] {
      PairIs(s, m, ps[0]);
      LiveTopicIs(s, ps[0].variant);
    }
  }

  lemma NoSweep(s: Tiers, c: Config)
    requires Stored(s) && NothingStale(s, c)
    ensures Sweep(s, c) == (s, 0)
  {
    hide Documents, OlderThan;
    var stale := StaleOf(Documents(s.semantic), c);
    if stale != [] {
      assert stale[0] in stale;
      DocumentIs(s.semantic, stale[0]);
    }
  }

  lemma NoPrune(s: Tiers, c: Config)
    requires Stored(s) && (c.cap == 0 || |ConsolidatedNames(s)| <= c.cap)
    ensures Prune(s, c) == (s, 0)
  {
    hide Documents, SortBy;
    var all := Keep(Documents(s.episodic), IsConsolidated);
    DocumentsDistinct(s.episodic);
    KeepDistinct(Documents(s.episodic), IsConsolidated);
    forall i | i in all ensures i.id in ConsolidatedNames(s) { DocumentIs(s.episodic, i); }
    DistinctSize(all, ConsolidatedNames(s));
    SortingKeepsLength(all);
  }

  lemma QuietPassDoesNothing(s: Tiers, c: Config)
    requires Quiet(s, c)
    ensures Pass(s, c) == (s, NO_WORK)
  {
    hide Documents, SetAll, SortBy, PairList, FreshItems, Mapping, Sweep, Prune, LiveAt;
    var m := Mapping(s, c);
    NoFreshItems(s);
    NoPairs(s, m);
    NoWorkList(s, m, c);
    NoSweep(s, c);
    NoPrune(s, c);
  }

  lemma NoWorkList(s: Tiers, m: map<string, string>, c: Config)
    requires FreshItems(s) == []
    ensures WorkList(s, m, c) == [] && Promotions(s, m, c) == []
  {
    hide FreshItems;
    assert PromotedTopics([], m, OnlyTopics(c.only, m)) == {};
  }

  /** With nothing fresh and every live topic settled, each live topic folds onto itself again. */
  lemma SettledFoldsOntoItself(s: Tiers, c: Config, s': Tiers, c': Config, t: string)
    requires Stored(s') && NothingFresh(s') && Settled(s', Universe(s), Mapping(s, c))
    requires c'.canonicalize == c.canonicalize && LiveAt(s', t)
    ensures At(Mapping(s', c'), t) == t
  {
    hide FreshItems, SemTopics, Fold, LiveAt;
    if c.canonicalize {
      NoFreshItems(s');
      var sem, sem' := ToSet(SemTopics(s)), ToSet(SemTopics(s'));
      assert ToSet(Topics([])) + sem' == sem';
      forall u | u in sem' ensures u in Universe(s) && Fold(Universe(s), sem, u) == u {
        LiveTopicIs(s', u);
      }
      LiveTopicIs(s', t);
      SettledTopicsStaySettled(Universe(s), sem, sem', sem', t);
    }
  }

  /** One pass that promotes everything is a fixed point: run again at the same `now`, whenever that is on the
      wall clock, it leaves the tiers and the index as they are and reports no work at all. */
  lemma OnePassIsAFixedPoint(s: Tiers, c: Config, wall': Moment)
    requires Stored(s) && c.only == None
    ensures Pass(Pass(s, c).0, c.(wall := wall')) == (Pass(s, c).0, NO_WORK)
  {
    hide MergeAll, FoldAll, Mapping, PairList, WorkList, Sweep, Prune, LiveAt, Stored, Grows;
    hide FreshItems, SemTopics, Universe;
    var m := Mapping(s, c);
    var s1 := MergeAll(s, PairList(s, m), c).0;
    MergesSettle(s, c);
    var s2 := FoldAll(s1, WorkList(s, m, c), c).0;
    FoldingSettles(s, c, s1);
    PhasesGrow(s, c);
    GrowsStored(s1, s2);
    var s3 := Sweep(s2, c).0;
    SweepLeavesNoneStale(s2, c);
    SweepStored(s2, c);
    var s4 := Prune(s3, c).0;
    PruneMeetsCap(s3, c);
    GrowsStored(s2, s4);
    assert NothingFresh(s3);
    assert Settled(s3, Universe(s), m);
    assert Settled(s4, Universe(s), m) by {
      forall t | LiveAt(s4, t) ensures LiveAt(s3, t) { SameSemanticLive(s3, s4, t); }
    }
    var c' := c.(wall := wall');
    forall t | LiveAt(s4, t) ensures At(Mapping(s4, c'), t) == t {
      SettledFoldsOntoItself(s, c, s4, c', t);
    }
    assert NothingStale(s4, c') by { hide OlderThan; }
    QuietPassDoesNothing(s4, c');
  }

  lemma SweepStored(s: Tiers, c: Config)
    requires Stored(s)
    ensures Stored(Sweep(s, c).0)
  {
    hide Grows;
    AllStatusGrows(s, Semantic, Ids(StaleOf(Documents(s.semantic), c)), Archived, c.wall);
    GrowsStored(s, Sweep(s, c).0);
  }

  lemma SameSemanticLive(a: Tiers, b: Tiers, t: string)
    requires a.semantic == b.semantic && LiveAt(b, t)
    ensures LiveAt(a, t)
  {
  }

  // ----- the newest capture wins -----

  lemma DedupKeepsFirst(xs: seq<string>)
    requires xs != []
    ensures Dedup(xs) != [] && Dedup(xs)[0] == xs[0]
  {
    if |xs| == 1 {
      assert xs[..0] == [];
    } else {
      DedupKeepsFirst(xs[..|xs| - 1]);
    }
  }

  lemma FoldTopicText(s: Tiers, w: Work, c: Config)
    requires w.items != []
    ensures w.topic in FoldTopic(s, w, c).semantic
    ensures FoldTopic(s, w, c).semantic[w.topic].text == Strip(w.items[0].text)
  {
    hide History, AddAllSources, Strip, SetAll, Restamped, Dedup;
    var f := Folded(Existing(s, w.topic), w.topic, w.items, c.now);
    SetAllEpisodic(PutSemantic(s, f, c.wall), Ids(w.items), Consolidated, c.wall);
    DedupKeepsFirst(Texts(w.items));
    StripAgain(w.items[0].text);
  }

  lemma {:induction false} FoldAllText(s: Tiers, work: seq<Work>, c: Config, k: nat)
    requires k < |work| && forall w :: w in work ==> w.items != []
    requires forall i, j :: 0 <= i < j < |work| ==> work[i].topic != work[j].topic
    ensures work[k].topic in FoldAll(s, work, c).0.semantic
    ensures FoldAll(s, work, c).0.semantic[work[k].topic].text == Strip(work[k].items[0].text)
  {
    hide FoldTopic, Strip;
    var front, last := work[..|work| - 1], work[|work| - 1];
    assert last in work && forall w :: w in front ==> w in work;
    var s1 := FoldAll(s, front, c).0;
    if k < |front| {
      FoldAllText(s, front, c, k);
      FoldTopicLive(s1, last, c, work[k].topic);
    } else {
      FoldTopicText(s1, last, c);
    }
  }

  /** Each topic worked on ends with the text of a newest one of its captures. */
  lemma NewestCaptureWins(s: Tiers, c: Config, w: Work)
    requires Stored(s) && w in WorkList(s, Mapping(s, c), c)
    ensures var m, s' := Mapping(s, c), Pass(s, c).0;
            && w.topic in s'.semantic && w.items != []
            && s'.semantic[w.topic].text == Strip(w.items[0].text)
            && (forall e :: e in w.items <==> e in FreshItems(s) && At(m, e.topic) == w.topic)
            && (forall e :: e in w.items ==> e.created <= w.items[0].created)
  {
    hide MergeAll, FoldAll, Mapping, PairList, Documents, SetAll, Strip, SortBy, SortedNames, FreshItems, At;
    var m := Mapping(s, c);
    var work := WorkList(s, m, c);
    var s1 := MergeAll(s, PairList(s, m), c).0;
    var s2 := FoldAll(s1, work, c).0;
    forall v | v in work ensures v.items != [] { WorkIs(s, m, c, v); }
    WorkIs(s, m, c, w);
    var k :| 0 <= k < |work| && work[k] == w;
    FoldAllText(s1, work, c, k);
    SetAllSemantic(s2, Ids(StaleOf(Documents(s2.semantic), c)), Archived, c.wall);
    var s3 := Sweep(s2, c).0;
    SetAllEpisodic(s3, Ids(Surplus(Keep(Documents(s3.episodic), IsConsolidated), c.cap)), Archived, c.wall);
    forall e | e in w.items ensures e.created <= w.items[0].created {
      var j :| 0 <= j < |w.items| && w.items[j] == e;
      assert NewestKey(w.items[0]) <= NewestKey(w.items[j]);
    }
  }

  // ----- the index stays exact -----

  lemma {:induction false} SetAllKeepsIndex(s: Tiers, tier: Tier, ids: seq<string>, status: Status, wall: Stamp)
    requires IndexExact(s)
    ensures IndexExact(SetAll(s, tier, ids, status, wall))
  {
    hide IndexExact, SetStatus;
    if ids != [] {
      SetAllKeepsIndex(s, tier, ids[..|ids| - 1], status, wall);
      SetStatusKeepsIndex(SetAll(s, tier, ids[..|ids| - 1], status, wall), tier, ids[|ids| - 1], status, wall);
    }
  }

  lemma {:induction false} MergeAllKeepsIndex(s: Tiers, ps: seq<Pair>, c: Config)
    requires IndexExact(s)
    ensures IndexExact(MergeAll(s, ps, c).0)
  {
    hide IndexExact, PutSemantic, SetStatus, History, AddSources;
    if ps != [] {
      var p, s1 := ps[|ps| - 1], MergeAll(s, ps[..|ps| - 1], c).0;
      MergeAllKeepsIndex(s, ps[..|ps| - 1], c);
      if p.variant in s1.semantic && p.rep in s1.semantic {
        var dup := s1.semantic[p.variant];
        var n := MergedItem(s1.semantic[p.rep], dup, p.rep, c.now);
        PutKeepsIndexIff(s1, n, c.wall);
        SetStatusKeepsIndex(PutSemantic(s1, n, c.wall), Semantic, dup.id, Archived, c.wall);
      }
    }
  }

  lemma {:induction false} FoldAllKeepsIndex(s: Tiers, work: seq<Work>, c: Config)
    requires IndexExact(s)
    ensures IndexExact(FoldAll(s, work, c).0)
  {
    hide IndexExact, PutSemantic, SetAll, History, AddAllSources, Strip, Dedup;
    if work != [] {
      var w, s1 := work[|work| - 1], FoldAll(s, work[..|work| - 1], c).0;
      FoldAllKeepsIndex(s, work[..|work| - 1], c);
      var f := Folded(Existing(s1, w.topic), w.topic, w.items, c.now);
      PutKeepsIndexIff(s1, f, c.wall);
      SetAllKeepsIndex(PutSemantic(s1, f, c.wall), Episodic, Ids(w.items), Consolidated, c.wall);
    }
  }

  lemma PassKeepsIndex(s: Tiers, c: Config)
    requires IndexExact(s)
    ensures IndexExact(Pass(s, c).0)
  {
    hide IndexExact, MergeAll, FoldAll, SetAll, Mapping, PairList, WorkList, Documents;
    var m := Mapping(s, c);
    var s1 := MergeAll(s, PairList(s, m), c).0;
    MergeAllKeepsIndex(s, PairList(s, m), c);
    var s2 := FoldAll(s1, WorkList(s, m, c), c).0;
    FoldAllKeepsIndex(s1, WorkList(s, m, c), c);
    SetAllKeepsIndex(s2, Semantic, Ids(StaleOf(Documents(s2.semantic), c)), Archived, c.wall);
    var s3 := Sweep(s2, c).0;
    SetAllKeepsIndex(s3, Episodic, Ids(Surplus(Keep(Documents(s3.episodic), IsConsolidated), c.cap)), Archived, c.wall);
  }

  /** One use of the store. */
  datatype Op =
    | Capture(item: Item)
    | Put(item: Item, wall: Stamp)
    | Corroborated(topic: string, source: string, wall: Stamp)
    | Status(tier: Tier, id: string, status: Status, wall: Stamp)
    | Access(topic: string)
    | Reverted(topic: string, wall: Stamp)
    | Consolidation(c: Config)

  ghost function Apply(s: Tiers, op: Op): Tiers {
    match op
    case Capture(i) => s.(episodic := s.episodic[i.id := i])
    case Put(i, wall) => PutSemantic(s, i, wall)
    case Corroborated(topic, source, wall) => Corroborate(s, topic, source, wall).0
    case Status(tier, id, status, wall) => SetStatus(s, tier, id, status, wall).0
    case Access(topic) => RecordAccess(s, topic)
    case Reverted(topic, wall) => Revert(s, topic, wall).0
    case Consolidation(c) => Pass(s, c).0
  }

  /** The uses the index is meant for: no archived document is written, no archived topic reverted. */
  ghost predicate Proper(s: Tiers, op: Op) {
    match op
    case Put(i, wall) => i.id == i.topic && i.status != Archived
    case Reverted(topic, wall) =>
      !(topic in s.semantic && s.semantic[topic].status == Archived && s.semantic[topic].supersedes != [])
    case _ => true
  }

  ghost function Run(s: Tiers, ops: seq<Op>): Tiers
    decreases |ops|
  {
    if ops == [] then s else Run(Apply(s, ops[0]), ops[1..])
  }

  ghost predicate ProperRun(s: Tiers, ops: seq<Op>)
    decreases |ops|
  {
    ops == [] || (Proper(s, ops[0]) && ProperRun(Apply(s, ops[0]), ops[1..]))
  }

  /** Over any proper run the index stays the projection of the semantic tier. */
  lemma {:induction false} RunKeepsIndex(s: Tiers, ops: seq<Op>)
    requires IndexExact(s) && ProperRun(s, ops)
    ensures IndexExact(Run(s, ops))
    decreases |ops|
  {
    hide Apply, Proper, IndexExact;
    if ops != [] {
      ApplyKeepsIndex(s, ops[0]);
      RunKeepsIndex(Apply(s, ops[0]), ops[1..]);
    }
  }

  lemma ApplyKeepsIndex(s: Tiers, op: Op)
    requires IndexExact(s) && Proper(s, op)
    ensures IndexExact(Apply(s, op))
  {
    hide Pass, PutSemantic, SetStatus, Corroborate, Revert, RecordAccess;
    match op
    case Capture(i) =>
      var s' := s.(episodic := s.episodic[i.id := i]);
      forall t ensures IndexedRight(s', t) { assert IndexedRight(s, t); }
    case Put(i, wall) => PutKeepsIndexIff(s, i, wall);
    case Corroborated(topic, source, wall) => CorroborateKeepsIndex(s, topic, source, wall);
    case Status(tier, id, status, wall) => SetStatusKeepsIndex(s, tier, id, status, wall);
    case Access(topic) => RecordAccessKeepsIndex(s, topic);
    case Reverted(topic, wall) => RevertKeepsIndexIff(s, topic, wall);
    case Consolidation(c) => PassKeepsIndex(s, c);
  }
}
