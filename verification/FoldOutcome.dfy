/** What a pass leaves in the node of each topic worked on, field by field, and in each capture. */
module FoldOutcome {
  import opened Text
  import opened TopicFolding
  import opened MemoryTiers
  import opened Listing
  import opened Consolidate
  import opened NoLoss
  import opened FixedPoint
  import opened Retention

  // ----- the history and the sources invent nothing -----

  /** The k-th entry is a stripped elder text, neither blank nor current nor an entry already. */
  ghost predicate IsElder(grown: seq<string>, k: nat, elder: seq<string>, current: string)
    requires k < |grown|
  {
    && grown[k] != "" && grown[k] != current && grown[k] !in grown[..k]
    && exists e :: e in elder && Strip(e) == grown[k]
  }

  lemma {:induction false} HistoryInventsNothing(h: seq<string>, elder: seq<string>, current: string)
    ensures var grown := History(h, elder, current);
            && h <= grown
            && forall k :: |h| <= k < |grown| ==> IsElder(grown, k, elder, current)
  {
    hide Strip;
    if elder != [] {
      var front, last := elder[..|elder| - 1], elder[|elder| - 1];
      assert elder == front + [last];
      HistoryInventsNothing(h, front, current);
      var before, grown := History(h, front, current), History(h, elder, current);
      forall k | |h| <= k < |grown| ensures IsElder(grown, k, elder, current) {
        if k < |before| {
          assert IsElder(before, k, front, current);
          assert grown[..k] == before[..k] && grown[k] == before[k];
          var e :| e in front && Strip(e) == grown[k];
          assert e in elder;
        } else {
          assert grown[..k] == before;
          assert last in elder;
        }
      }
    }
  }

  lemma {:induction false} SourcesInventNothing(srcs: seq<string>, items: seq<Item>, x: string)
    ensures x in AddAllSources(srcs, items) <==> x in srcs || exists i :: i in items && x in i.sources
  {
    if items != [] {
      var front, last := items[..|items| - 1], items[|items| - 1];
      assert items == front + [last];
      SourcesInventNothing(srcs, front, x);
      SourcesHold(AddAllSources(srcs, front), last.sources);
    }
  }

  // ----- one topic -----

  /** i is the node `was` (none when there was none) with these captures folded in, newest first. A node that
      was there keeps its uses and its date; its confidence starts at 70 for one capture, a new one's at 50, and
      each further capture adds 10, up to 95. */
  ghost predicate FoldedFrom(was: Option<Item>, topic: string, items: seq<Item>, now: Moment, i: Item)
    requires items != []
  {
    && i.id == topic && i.topic == topic && i.updated == now && i.text == Strip(items[0].text)
    && (match was
        case Some(x) =>
          && i.accessCount == x.accessCount && i.created == x.created && i.status == Consolidated
          && i.confidence == (if |items| >= 4 then 95 else 60 + 10 * |items|)
        case None =>
          && i.accessCount == 0 && i.created == now && i.status == Active
          && i.confidence == (if |items| >= 6 then 95 else 40 + 10 * |items|))
  }

  /** The node's sources are those it had and the captures'; its history is the one it had and older texts. */
  ghost predicate RecordsOnly(was: Option<Item>, items: seq<Item>, i: Item) {
    && (forall x :: x in i.sources <==> (was.Some? && x in was.value.sources) || exists e :: e in items && x in e.sources)
    && var h := if was.Some? then was.value.supersedes else [];
       && h <= i.supersedes
       && forall k :: |h| <= k < |i.supersedes| ==>
            && i.supersedes[k] != "" && i.supersedes[k] != i.text && i.supersedes[k] !in i.supersedes[..k]
            && ((was.Some? && Strip(was.value.text) == i.supersedes[k]) ||
                exists e :: e in items && Strip(e.text) == i.supersedes[k])
  }

  ghost function Node(s: Tiers, t: string): Option<Item> {
    if t in s.semantic then Some(s.semantic[t]) else None
  }

  lemma FoldTopicOutcome(s: Tiers, w: Work, c: Config)
    requires w.items != []
    ensures var s' := FoldTopic(s, w, c);
            w.topic in s'.semantic && FoldedFrom(Node(s, w.topic), w.topic, w.items, c.now, s'.semantic[w.topic])
  {
    FoldTopicText(s, w, c);
    hide History, AddAllSources, Strip, SetAll, Restamped, Dedup;
    var f := Folded(Existing(s, w.topic), w.topic, w.items, c.now);
    SetAllEpisodic(PutSemantic(s, f, c.wall), Ids(w.items), Consolidated, c.wall);
  }

  lemma FoldTopicRecords(s: Tiers, w: Work, c: Config)
    requires w.items != []
    ensures var s' := FoldTopic(s, w, c);
            w.topic in s'.semantic && RecordsOnly(Node(s, w.topic), w.items, s'.semantic[w.topic])
  {
    hide SetAll, Restamped, Dedup, History, AddAllSources, Strip;
    var f := Folded(Existing(s, w.topic), w.topic, w.items, c.now);
    SetAllEpisodic(PutSemantic(s, f, c.wall), Ids(w.items), Consolidated, c.wall);
    FoldedRecords(Node(s, w.topic), w.topic, w.items, c.now);
    FoldedIsStripped(Node(s, w.topic), w.topic, w.items, c.now);
  }

  lemma FoldedIsStripped(was: Option<Item>, topic: string, items: seq<Item>, now: Moment)
    ensures Strip(Folded(was, topic, items, now).text) == Folded(was, topic, items, now).text
  {
    StripAgain(DefaultSynth(if was.Some? then Some(was.value.text) else None, Dedup(Texts(items))));
  }

  lemma FoldedRecords(was: Option<Item>, topic: string, items: seq<Item>, now: Moment)
    ensures RecordsOnly(was, items, Folded(was, topic, items, now))
  {
    hide Strip, History, AddAllSources, DefaultSynth;
    var f := Folded(was, topic, items, now);
    var texts := Dedup(Texts(items));
    var prior := if was.Some? then [was.value.text] else [];
    var elder := (if texts == [] then [] else texts[1..]) + prior;
    var h := if was.Some? then was.value.supersedes else [];
    assert f.supersedes == History(h, elder, f.text);
    HistoryInventsNothing(h, elder, f.text);
    assert h <= f.supersedes;
    forall k | |h| <= k < |f.supersedes|
      ensures IsElder(f.supersedes, k, elder, f.text)
      ensures (was.Some? && Strip(was.value.text) == f.supersedes[k]) ||
              exists e :: e in items && Strip(e.text) == f.supersedes[k]
    {
      assert IsElder(f.supersedes, k, elder, f.text);
      var e :| e in elder && Strip(e) == f.supersedes[k];
      ElderIs(was, items, e);
    }
    forall x ensures x in f.sources <==> (was.Some? && x in was.value.sources) || exists e :: e in items && x in e.sources {
      SourcesInventNothing(if was.Some? then was.value.sources else [], items, x);
    }
  }

  lemma ElderIs(was: Option<Item>, items: seq<Item>, e: string)
    requires var texts := Dedup(Texts(items));
             e in (if texts == [] then [] else texts[1..]) + if was.Some? then [was.value.text] else []
    ensures (was.Some? && e == was.value.text) || exists i :: i in items && i.text == e
  {
    var texts := Dedup(Texts(items));
    if e in texts {
      var k :| 0 <= k < |items| && Texts(items)[k] == e;
      assert items[k] in items;
    }
  }

  // ----- every topic -----

  ghost predicate DistinctTopics(work: seq<Work>) {
    forall i, j :: 0 <= i < j < |work| ==> work[i].topic != work[j].topic
  }

  ghost predicate HaveCaptures(work: seq<Work>) {
    forall w :: w in work ==> w.items != []
  }

  /** A node nobody works on is as it was. */
  lemma {:induction false} FoldAllFrame(s: Tiers, work: seq<Work>, c: Config, t: string)
    requires forall w :: w in work ==> w.topic != t
    ensures Node(FoldAll(s, work, c).0, t) == Node(s, t)
  {
    hide FoldTopic;
    if work != [] {
      var front, last := work[..|work| - 1], work[|work| - 1];
      assert work == front + [last];
      FoldAllFrame(s, front, c, t);
      FoldTopicLive(FoldAll(s, front, c).0, last, c, t);
    }
  }

  /** Each topic is folded from the node it had before the folding. */
  lemma {:induction false} FoldAllOutcome(s: Tiers, work: seq<Work>, c: Config, k: nat)
    requires k < |work| && HaveCaptures(work) && DistinctTopics(work)
    ensures var w, s' := work[k], FoldAll(s, work, c).0;
            && w in work && w.topic in s'.semantic
            && FoldedFrom(Node(s, w.topic), w.topic, w.items, c.now, s'.semantic[w.topic])
            && RecordsOnly(Node(s, w.topic), w.items, s'.semantic[w.topic])
  {
    hide FoldTopic, FoldedFrom, RecordsOnly;
    var front, last := work[..|work| - 1], work[|work| - 1];
    assert last in work && forall w :: w in front ==> w in work;
    var s1 := FoldAll(s, front, c).0;
    if k < |front| {
      FoldAllOutcome(s, front, c, k);
      FoldTopicLive(s1, last, c, work[k].topic);
    } else {
      forall w | w in front ensures w.topic != last.topic {
        var j :| 0 <= j < |front| && front[j] == w;
        assert work[j] == w;
      }
      FoldAllFrame(s, front, c, last.topic);
      FoldTopicOutcome(s1, last, c);
      FoldTopicRecords(s1, last, c);
    }
  }

  /** Each capture taken up is consolidated, the others are as they were. */
  lemma {:induction false} FoldAllCaptures(s: Tiers, work: seq<Work>, c: Config, e: string)
    requires e in s.episodic
    ensures var s' := FoldAll(s, work, c).0;
            && e in s'.episodic
            && s'.episodic[e] == if TakenUp(work, e) then s.episodic[e].(status := Consolidated, updated := c.wall)
                                 else s.episodic[e]
  {
    hide FoldTopic, Ids;
    if work != [] {
      var front, last := work[..|work| - 1], work[|work| - 1];
      assert work == front + [last];
      FoldAllCaptures(s, front, c, e);
      FoldTopicLive(FoldAll(s, front, c).0, last, c, "");
      assert TakenUp(work, e) <==> TakenUp(front, e) || e in Ids(last.items);
    }
  }

  lemma WorkIsDistinct(s: Tiers, m: map<string, string>, c: Config)
    ensures DistinctTopics(WorkList(s, m, c)) && HaveCaptures(WorkList(s, m, c))
  {
    hide FreshItems, SortedNames, PromotedTopics, NewestFirst, ClusterItems;
    forall w | w in WorkList(s, m, c) ensures w.items != [] { WorkIs(s, m, c, w); }
  }

  /** In a pass, every topic worked on is folded from the node it had after the merge phase. Only the sweep
      comes after, and it touches status and date alone: it archives, of these, just the facts made in this very
      pass when the clock error exceeds the limit. */
  lemma TopicsAreFolded(s: Tiers, c: Config, w: Work)
    requires Stored(s) && w in WorkList(s, Mapping(s, c), c)
    ensures var s1 := MergeAll(s, PairList(s, Mapping(s, c)), c).0;
            var s2 := FoldAll(s1, WorkList(s, Mapping(s, c), c), c).0;
            && w.items != [] && w.topic in s2.semantic && w.topic in Pass(s, c).0.semantic
            && FoldedFrom(Node(s1, w.topic), w.topic, w.items, c.now, s2.semantic[w.topic])
            && RecordsOnly(Node(s1, w.topic), w.items, s2.semantic[w.topic])
            && var i := Pass(s, c).0.semantic[w.topic];
               && i == s2.semantic[w.topic].(status := i.status, updated := i.updated)
               && i.status == if w.topic in s1.semantic then Consolidated
                              else if c.staleDays < 0 || c.zone > 86400 * c.staleDays then Archived else Active
  {
    hide MergeAll, FoldAll, Mapping, PairList, WorkList, Documents, SetAll, FoldedFrom, RecordsOnly,
      StaleOf, Surplus, Grows;
    var m := Mapping(s, c);
    var work := WorkList(s, m, c);
    var s1 := MergeAll(s, PairList(s, m), c).0;
    WorkIsDistinct(s, m, c);
    var k :| 0 <= k < |work| && work[k] == w;
    FoldAllOutcome(s1, work, c, k);
    var s2 := FoldAll(s1, work, c).0;
    PhasesGrow(s, c);
    GrowsStored(s1, s2);
    SweepArchivesIff(s2, c, w.topic);
    assert FoldedFrom(Node(s1, w.topic), w.topic, w.items, c.now, s2.semantic[w.topic]);
    var s3 := Sweep(s2, c).0;
    SetAllEpisodic(s3, Ids(Surplus(Keep(Documents(s3.episodic), IsConsolidated), c.cap)), Archived, c.wall);
    hide Sweep;
    StatusAndUses(Node(s1, w.topic), w.topic, w.items, c.now, s2.semantic[w.topic]);
  }

  lemma StatusAndUses(was: Option<Item>, topic: string, items: seq<Item>, now: Moment, i: Item)
    requires items != [] && FoldedFrom(was, topic, items, now, i)
    ensures i.updated == now && if was.Some? then i.status == Consolidated else i.status == Active && i.accessCount == 0
  {
    hide Strip;
  }

  /** The captures a pass takes up are the active and draft ones that fold where a wanted topic folds, or all
      of them when none are named; it marks them consolidated, and changes no other. */
  lemma CapturesAreMarked(s: Tiers, c: Config, e: string)
    requires Stored(s) && e in s.episodic
    ensures var m := Mapping(s, c);
            var s2 := FoldAll(MergeAll(s, PairList(s, m), c).0, WorkList(s, m, c), c).0;
            var i := s.episodic[e];
            && e in s2.episodic
            && s2.episodic[e] ==
                 if (i.status == Active || i.status == Draft) &&
                    (c.only.None? || exists t :: t in c.only.value && At(m, t) == At(m, i.topic))
                 then i.(status := Consolidated, updated := c.wall) else i
  {
    hide Mapping, PairList, WorkList, FreshItems, At, FoldAll, Ids;
    var m := Mapping(s, c);
    var s1 := MergeAll(s, PairList(s, m), c).0;
    MergesLeaveCaptures(s, PairList(s, m), c);
    hide MergeAll;
    FoldAllCaptures(s1, WorkList(s, m, c), c, e);
    TakenUpIff(s, m, c, e);
    FreshItemIs(s, s.episodic[e]);
  }

  lemma {:induction false} MergesLeaveCaptures(s: Tiers, ps: seq<Pair>, c: Config)
    ensures MergeAll(s, ps, c).0.episodic == s.episodic
  {
    hide History, AddSources, Strip, EntryOf;
    if ps != [] { MergesLeaveCaptures(s, ps[..|ps| - 1], c); }
  }

  lemma TakenUpIff(s: Tiers, m: map<string, string>, c: Config, e: string)
    requires Stored(s) && e in s.episodic
    ensures TakenUp(WorkList(s, m, c), e) <==>
            s.episodic[e] in FreshItems(s) && Wanted(OnlyTopics(c.only, m), At(m, s.episodic[e].topic))
  {
    hide WorkList, FreshItems, At, Wanted, OnlyTopics;
    var i := s.episodic[e];
    if i in FreshItems(s) && Wanted(OnlyTopics(c.only, m), At(m, i.topic)) {
      WorkHas(s, m, c, i);
      var w :| w in WorkList(s, m, c) && w.topic == At(m, i.topic) && i in w.items;
      IdIn(w.items, i);
    }
    if TakenUp(WorkList(s, m, c), e) {
      var w :| w in WorkList(s, m, c) && e in Ids(w.items);
      var k :| 0 <= k < |w.items| && Ids(w.items)[k] == e;
      WorkIs(s, m, c, w);
      assert w.items[k] in w.items;
      FreshItemIs(s, w.items[k]);
    }
  }
}
