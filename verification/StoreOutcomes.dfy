/** What the store operations leave behind, field by field, and what undoes what. */
module StoreOutcomes {
  import opened Text
  import opened MemoryTiers
  import opened Listing
  import opened Consolidate
  import opened NoLoss
  import opened FixedPoint
  import opened FoldOutcome

  // ----- undoing a fold -----

  /** One capture folded into the node of its topic, then reverted: the node's text and history are as they
      were exactly when its text was recorded by the fold, as it is when it is not blank, not the new text and not
      in the history yet; or when there was nothing to record and no history to fall back on. Whatever
      else the fold counted stays. */
  lemma RevertUndoesFoldIff(s: Tiers, topic: string, capture: Item, c: Config, wall: Moment)
    requires topic in s.semantic && Strip(s.semantic[topic].text) == s.semantic[topic].text
    ensures var was, s1 := s.semantic[topic], FoldTopic(s, Work(topic, [capture]), c);
            topic in s1.semantic && topic in Revert(s1, topic, wall).0.semantic
            && var now, folded := Revert(s1, topic, wall).0.semantic[topic], s1.semantic[topic];
               && (now.text == was.text && now.supersedes == was.supersedes <==>
                     || (was.text != "" && was.text != Strip(capture.text) && was.text !in was.supersedes)
                     || (was.text == Strip(capture.text) && was.supersedes == []))
               && now == folded.(text := now.text, supersedes := now.supersedes, updated := now.updated)
  {
    hide Strip, SetAll, AddAllSources, EntryOf, Dedup;
    var was := s.semantic[topic];
    var f := Folded(Some(was), topic, [capture], c.now);
    assert Texts([capture]) == [capture.text];
    DedupOne(capture.text);
    SetAllEpisodic(PutSemantic(s, f, c.wall), Ids([capture]), Consolidated, c.wall);
    OneElder(was.supersedes, was.text, Strip(capture.text));
    StripAgain(capture.text);
    var s1 := FoldTopic(s, Work(topic, [capture]), c);
    var grown := f.supersedes;
    assert s1.semantic[topic] == f;
    if grown != [] {
      assert Revert(s1, topic, wall).0.semantic[topic].supersedes == grown[..|grown| - 1];
      if grown == was.supersedes { assert |grown[..|grown| - 1]| != |was.supersedes|; }
    }
  }

  lemma DedupOne(x: string)
    ensures Dedup([x]) == [x]
  {
    assert [x][..0] == [];
  }

  lemma OneElder(h: seq<string>, elder: string, current: string)
    requires Strip(elder) == elder
    ensures History(h, [elder], current) == if elder != "" && elder != current && elder !in h then h + [elder] else h
  {
    assert [elder][..0] == [];
  }

  // ----- undoing a merge of two nodes -----

  lemma {:induction false} HistoryOfCons(h: seq<string>, e: string, rest: seq<string>, current: string)
    ensures History(h, [e] + rest, current) == History(History(h, [e], current), rest, current)
  {
    hide Strip;
    var all := [e] + rest;
    if rest == [] {
      assert all == [e];
    } else {
      var front := rest[..|rest| - 1];
      HistoryOfCons(h, e, front, current);
      assert all[..|all| - 1] == [e] + front && all[|all| - 1] == rest[|rest| - 1];
    }
  }

  /** A statement that adds nothing to a history. */
  predicate AddsNothing(x: string, h: seq<string>, current: string) {
    Strip(x) == "" || Strip(x) == current || Strip(x) in h
  }

  /** A grown history ends in an entry that was not there. */
  lemma {:induction false} GrownEndsNew(h: seq<string>, elder: seq<string>, current: string)
    ensures var grown := History(h, elder, current);
            if forall x :: x in elder ==> AddsNothing(x, h, current) then grown == h
            else |grown| > |h| && grown[|grown| - 1] !in h
    ensures forall x :: x in History(h, elder, current) && x !in h ==> Strip(x) == x
  {
    hide Strip;
    if elder != [] {
      var front, last := elder[..|elder| - 1], elder[|elder| - 1];
      assert elder == front + [last];
      assert last in elder && forall x :: x in front ==> x in elder;
      GrownEndsNew(h, front, current);
      HistoryInventsNothing(h, front, current);
      StripAgain(last);
    }
  }

  /** After two nodes are merged, reverting the one kept brings back the text that lost, where the merge recorded
      it, exactly when the losing node's own history had nothing to add: its entries are recorded after its text,
      and the last one recorded is the one that comes back. */
  lemma RevertAfterMergeIff(s: Tiers, p: Pair, c: Config, wall: Moment, newer: Item, elder: Item)
    requires Stored(s) && p.rep != p.variant && p.rep in s.semantic && p.variant in s.semantic
    requires var kept, dup := s.semantic[p.rep], s.semantic[p.variant];
             (newer, elder) == if LastTouched(dup) > LastTouched(kept) then (dup, kept) else (kept, dup)
    requires !AddsNothing(elder.text, newer.supersedes, newer.text)
    ensures var s1 := MergeDup(s, p, c).0;
            p.rep in Revert(s1, p.rep, wall).0.semantic
            && (Revert(s1, p.rep, wall).0.semantic[p.rep].text == Strip(elder.text) <==>
                  forall x :: x in elder.supersedes ==>
                    AddsNothing(x, newer.supersedes, newer.text) || Strip(x) == Strip(elder.text))
  {
    hide Strip, History, AddSources, EntryOf;
    var e, h := Strip(elder.text), newer.supersedes;
    var h1 := h + [e];
    HistoryOfCons(h, elder.text, elder.supersedes, newer.text);
    OneRecorded(h, elder.text, newer.text);
    GrownEndsNew(h1, elder.supersedes, newer.text);
    var grown := History(h1, elder.supersedes, newer.text);
    assert grown == MergedItem(s.semantic[p.rep], s.semantic[p.variant], p.rep, c.now).supersedes;
    StripAgain(elder.text);
    assert forall x :: AddsNothing(x, h1, newer.text) <==> AddsNothing(x, h, newer.text) || Strip(x) == e;
    var s1 := MergeDup(s, p, c).0;
    assert s1.semantic[p.rep].supersedes == grown;
    assert grown != [];
    var last := grown[|grown| - 1];
    assert last !in h1 ==> Strip(last) == last;
    assert grown == h1 ==> last == e;
  }

  lemma OneRecorded(h: seq<string>, elder: string, current: string)
    requires !AddsNothing(elder, h, current)
    ensures History(h, [elder], current) == h + [Strip(elder)]
  {
    hide Strip;
    assert [elder][..0] == [];
  }

  /** Such a merge: the node kept says "a", the variant says "b" and said "c" before it. After the merge and a
      revert the topic says "c", not "b". */
  lemma RevertBringsBackOlder(c: Config, wall: Moment)
    ensures var kept := Item("k", "k", "a", Active, 50, 1, 2, [], 0, []);
            var dup := Item("v", "v", "b", Active, 50, 1, 1, [], 0, ["c"]);
            var s := Tiers(map[], map["k" := kept, "v" := dup], map[]);
            var s1 := MergeDup(s, Pair("k", "v"), c).0;
            "k" in Revert(s1, "k", wall).0.semantic && Revert(s1, "k", wall).0.semantic["k"].text != "b"
  {
    var kept := Item("k", "k", "a", Active, 50, 1, 2, [], 0, []);
    var dup := Item("v", "v", "b", Active, 50, 1, 1, [], 0, ["c"]);
    var s := Tiers(map[], map["k" := kept, "v" := dup], map[]);
    LetterStays('b');
    LetterStays('c');
    hide Strip, MergeDup, Revert;
    assert "c" in dup.supersedes && !AddsNothing("c", kept.supersedes, kept.text);
    assert !AddsNothing("b", kept.supersedes, kept.text);
    assert Stored(s);
    RevertAfterMergeIff(s, Pair("k", "v"), c, wall, kept, dup);
  }

  lemma LetterStays(x: char)
    requires !IsSpace(x)
    ensures Strip([x]) == [x]
  {
    StripOf("", [x], "");
    assert "" + [x] + "" == [x];
  }

  // ----- captures seen again, accesses, archiving -----

  function Times(s: Tiers, topic: string, source: string, wall: Moment, n: nat): Tiers {
    if n == 0 then s else Corroborate(Times(s, topic, source, wall, n - 1), topic, source, wall).0
  }

  /** Of a live fact, what n sightings from one source come to. */
  ghost predicate SeenBy(s: Tiers, s': Tiers, topic: string, source: string, wall: Moment, n: nat) {
    && Stored(s') && s'.episodic == s.episodic && s'.semantic.Keys == s.semantic.Keys
    && (forall t :: t in s.semantic && t != topic ==> s'.semantic[t] == s.semantic[t])
    && topic in s.semantic
    && var was, i := s.semantic[topic], s'.semantic[topic];
       && i == was.(confidence := i.confidence, sources := i.sources, updated := wall)
       && i.confidence == (if was.confidence + 5 * n <= 95 then was.confidence + 5 * n else 95)
       && i.sources == if source == "" || source in was.sources then was.sources else was.sources + [source]
  }

  ghost predicate LiveFact(s: Tiers, topic: string) {
    && Stored(s) && topic in s.semantic && Strip(s.semantic[topic].text) == s.semantic[topic].text
    && (s.semantic[topic].status == Active || s.semantic[topic].status == Consolidated)
  }

  lemma SeenOnce(s: Tiers, topic: string, source: string, wall: Moment)
    requires LiveFact(s, topic)
    ensures SeenBy(s, Corroborate(s, topic, source, wall).0, topic, source, wall, 1)
  {
    hide Strip, EntryOf;
  }

  lemma SeenOnceMore(s: Tiers, s1: Tiers, s2: Tiers, topic: string, source: string, wall: Moment, n: nat)
    requires SeenBy(s, s1, topic, source, wall, n) && SeenBy(s1, s2, topic, source, wall, 1)
    ensures SeenBy(s, s2, topic, source, wall, n + 1)
  {
    hide Stored;
  }

  /** A live fact seen n times more from one source: five hundredths each time up to 95, the source listed once,
      and nothing else touched. */
  lemma {:induction false} SeenAgain(s: Tiers, topic: string, source: string, wall: Moment, n: nat)
    requires LiveFact(s, topic) && n > 0
    ensures SeenBy(s, Times(s, topic, source, wall, n), topic, source, wall, n)
  {
    hide Strip, Corroborate, SeenBy;
    if n == 1 {
      assert Times(s, topic, source, wall, 1) == Corroborate(Times(s, topic, source, wall, 0), topic, source, wall).0;
      SeenOnce(s, topic, source, wall);
    } else {
      var s1 := Times(s, topic, source, wall, n - 1);
      SeenAgain(s, topic, source, wall, n - 1);
      StaysLive(s, s1, topic, source, wall, n - 1);
      SeenOnce(s1, topic, source, wall);
      SeenOnceMore(s, s1, Corroborate(s1, topic, source, wall).0, topic, source, wall, n - 1);
    }
  }

  lemma StaysLive(s: Tiers, s1: Tiers, topic: string, source: string, wall: Moment, n: nat)
    requires LiveFact(s, topic) && SeenBy(s, s1, topic, source, wall, n)
    ensures LiveFact(s1, topic)
  {
    hide Strip, Stored;
  }

  /** A fact that is not live, or not there, is not corroborated. */
  lemma NotSeenAgain(s: Tiers, topic: string, source: string, wall: Moment)
    ensures Corroborate(s, topic, source, wall).1 <==>
            topic in s.semantic && s.semantic[topic].status != Draft && s.semantic[topic].status != Archived
    ensures !Corroborate(s, topic, source, wall).1 ==> Corroborate(s, topic, source, wall).0 == s
  {
    hide PutSemantic;
  }

  function Accessed(s: Tiers, topic: string, n: nat): Tiers {
    if n == 0 then s else RecordAccess(Accessed(s, topic, n - 1), topic)
  }

  /** n accesses of a fact add n to its count and change nothing else. */
  lemma {:induction false} AccessesAddUp(s: Tiers, topic: string, n: nat)
    requires topic in s.semantic
    ensures var i := s.semantic[topic];
            Accessed(s, topic, n) == s.(semantic := s.semantic[topic := i.(accessCount := i.accessCount + n)])
  {
    var i := s.semantic[topic];
    if n == 0 {
      assert s.semantic == s.semantic[topic := i];
    } else {
      AccessesAddUp(s, topic, n - 1);
    }
  }

  /** A fact archived and given its status again is as it was, but for the date, and so is its index entry. */
  lemma ArchiveThenRestore(s: Tiers, topic: string, t1: Moment, t2: Moment)
    requires IndexExact(s) && topic in s.semantic && s.semantic[topic].status != Archived
    ensures var was := s.semantic[topic];
            var s1 := SetStatus(s, Semantic, topic, Archived, t1).0;
            var s2 := SetStatus(s1, Semantic, topic, was.status, t2).0;
            && topic in s.index && topic !in s1.index
            && s2 == s.(semantic := s.semantic[topic := was.(updated := t2)],
                        index := s.index[topic := s.index[topic].(updated := t2)])
  {
    hide Summary;
    assert IndexedRight(s, topic);
    var was := s.semantic[topic];
    var s1 := SetStatus(s, Semantic, topic, Archived, t1).0;
    var s2 := SetStatus(s1, Semantic, topic, was.status, t2).0;
    assert s2.semantic == s.semantic[topic := was.(updated := t2)];
    assert s2.index == s.index[topic := EntryOf(was.(updated := t2))];
  }

  /** The index lists just the facts that are not archived, each by its topic, with the confidence, status and
      date it has, and its text up to 160 characters. */
  lemma IndexSays(s: Tiers, topic: string)
    requires IndexExact(s)
    ensures topic in s.index <==> topic in s.semantic && s.semantic[topic].status != Archived
    ensures topic in s.index ==>
              var e, i := s.index[topic], s.semantic[topic];
              && e.id == topic && e.confidence == i.confidence && e.status == i.status && e.updated == i.updated
              && e.summary <= Strip(i.text) && |e.summary| <= 160
              && (e.summary != Strip(i.text) ==> |e.summary| == 160 && |Strip(i.text)| > 160)
  {
    hide Strip;
    assert IndexedRight(s, topic);
  }
}
