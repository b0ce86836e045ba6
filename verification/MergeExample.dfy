/** Three topics a pass merges, where the newest text is not the one kept. */
module MergeExample {
  import opened Text
  import opened Canonicalize
  import opened TopicFolding
  import opened MemoryTiers
  import opened Listing
  import opened Consolidate
  import opened NoLoss
  import opened Merging

  const TEA := "tea"
  const BLACK := "tea-black"
  const GREEN := "tea-green"

  const TOPICS: set<string> := {TEA, BLACK, GREEN}

  // ----- the topics are one cluster, named by the shortest -----

  lemma {:induction false} WordRead(w: string, rest: string, word: string)
    requires '-' !in w && '_' !in w
    ensures WordsFrom(w + rest, word) == WordsFrom(rest, word + w)
  {
    if w == "" {
      assert w + rest == rest && word + w == word;
    } else {
      assert (w + rest)[1..] == w[1..] + rest;
      WordRead(w[1..], rest, word + [w[0]]);
      assert word + [w[0]] + w[1..] == word + w;
    }
  }

  lemma OneWord(w: string)
    requires '-' !in w && '_' !in w && w != "" && w !in STOP
    ensures Tokens(w) == {w}
  {
    WordRead(w, "", "");
    assert w + "" == w && "" + w == w;
  }

  lemma TwoWords(v: string, w: string)
    requires '-' !in v && '_' !in v && v != "" && v !in STOP
    requires '-' !in w && '_' !in w && w != "" && w !in STOP
    ensures Tokens(v + "-" + w) == {v, w}
  {
    var rest := "-" + w;
    assert v + "-" + w == v + rest && rest[1..] == w;
    WordRead(v, rest, "");
    assert "" + v == v;
    OneWord(w);
    assert Tokens(w) == WordsFrom(w, "");
  }

  lemma TeaTokens()
    ensures Tokens(TEA) == {"tea"} && Tokens(BLACK) == {"tea", "black"} && Tokens(GREEN) == {"tea", "green"}
  {
    hide Tokens;
    OneWord("tea");
    TwoWords("tea", "black");
    TwoWords("tea", "green");
    assert BLACK == "tea" + "-" + "black" && GREEN == "tea" + "-" + "green";
  }

  lemma TeaIsTheName(t: string)
    requires t in TOPICS
    ensures Canonical(TOPICS, t) == TEA
  {
    TeaTokens();
    assert {"tea"} <= {"tea", "black"} && {"tea"} <= {"tea", "green"};
    assert Similar(t, TEA);
    assert Weight(TEA) == 1;
    assert |{"tea", "black"}| == 2 && |{"tea", "green"}| == 2;
    LexReflexive(TEA);
    hide Linked, Tokens, LexLeq;
    LinkedStep(TOPICS, t, TEA);
    LeastIsUnique(TOPICS, t, TEA);
  }

  // ----- any three topics in name order, of which the first names the cluster -----

  ghost predicate Trio(a: string, b: string, c: string) {
    && a != b && a != c && b != c
    && LexLeq(a, b) && LexLeq(a, c) && LexLeq(b, c)
    && forall t :: t in {a, b, c} ==> Canonical({a, b, c}, t) == a
  }

  lemma NothingListed()
    ensures SortedNames({}) == []
  {}

  lemma Sorted(a: string, b: string, c: string)
    requires a != b && a != c && b != c && LexLeq(a, b) && LexLeq(a, c) && LexLeq(b, c)
    ensures SortedNames({a, b, c}) == [a, b, c] && SortedNames({}) == []
  {
    NothingListed();
    hide LexLeq, SortedNames;
    LexReflexive(a);
    LexReflexive(b);
    LexReflexive(c);
    SortedNamesStep({a, b, c}, a);
    assert {a, b, c} - {a} == {b, c};
    SortedNamesStep({b, c}, b);
    assert {b, c} - {b} == {c};
    SortedNamesStep({c}, c);
    assert {c} - {c} == {};
  }

  function Fact(topic: string, text: string, date: nat): Item {
    Item(topic, topic, text, Active, 50, date, date, [], 0, [])
  }

  /** Three live facts, touched in the order of their names. */
  ghost function Facts(a: string, b: string, c: string): Tiers {
    Tiers(map[], map[a := Fact(a, "first", 1), b := Fact(b, "second", 2), c := Fact(c, "third", 3)], map[])
  }

  ghost function Settings(): Config {
    Config(true, 90, 10, 10, 0, 0, None)
  }

  lemma KeepMore(xs: seq<Item>, x: Item, p: Item -> bool)
    requires p(x)
    ensures Keep(xs + [x], p) == Keep(xs, p) + [x]
  {
    assert (xs + [x])[..|xs|] == xs;
  }

  lemma KeepThree(x: Item, y: Item, z: Item, p: Item -> bool)
    requires p(x) && p(y) && p(z)
    ensures Keep([x, y, z], p) == [x, y, z]
  {
    KeepMore([], x, p);
    KeepMore([x], y, p);
    KeepMore([x, y], z, p);
    assert [] + [x] == [x] && [x] + [y] == [x, y] && [x, y] + [z] == [x, y, z];
  }

  lemma FactsAre(a: string, b: string, c: string)
    requires a != b && a != c && b != c
    ensures var m := Facts(a, b, c).semantic;
            && m.Keys == {a, b, c} && m[a] == Fact(a, "first", 1)
            && m[b] == Fact(b, "second", 2) && m[c] == Fact(c, "third", 3)
            && Facts(a, b, c).episodic == map[] && Stored(Facts(a, b, c))
  {}

  lemma DocumentsOfThree(m: map<string, Item>, a: string, b: string, c: string)
    requires SortedNames(m.Keys) == [a, b, c] && a in m && b in m && c in m
    ensures Documents(m) == [m[a], m[b], m[c]]
  {
    hide SortedNames;
  }

  lemma NoCaptures(s: Tiers)
    requires s.episodic == map[]
    ensures FreshItems(s) == []
  {
    assert s.episodic.Keys == {};
    assert SortedNames({}) == [];
    hide SortedNames;
    assert Documents(s.episodic) == [];
  }

  lemma Listed(a: string, b: string, c: string)
    requires Trio(a, b, c)
    ensures FreshItems(Facts(a, b, c)) == [] && SemTopics(Facts(a, b, c)) == [a, b, c]
  {
    hide Facts, Trio, FreshItems, Documents, Keep, Stored, SortedNames, Canonical, LexLeq;
    var s := Facts(a, b, c);
    var m := s.semantic;
    TrioIs(a, b, c, a);
    FactsAre(a, b, c);
    Sorted(a, b, c);
    DocumentsOfThree(m, a, b, c);
    NoCaptures(s);
    KeepThree(m[a], m[b], m[c], Live);
    assert Topics([m[a], m[b], m[c]]) == [a, b, c];
  }

  lemma TrioIs(a: string, b: string, c: string, t: string)
    requires Trio(a, b, c) && t in {a, b, c}
    ensures a != b && a != c && b != c && Canonical({a, b, c}, t) == a
    ensures LexLeq(a, b) && LexLeq(a, c) && LexLeq(b, c)
  {
    hide Canonical, LexLeq;
  }

  /** When every topic is semantic, folding is naming. */
  lemma CanonicalFolds(S: set<Topic>, t: Topic)
    requires t in S
    ensures Fold(S, S, t) == Canonical(S, t)
  {
    hide Linked;
    FoldIsUnique(S, S, t, Canonical(S, t));
  }

  lemma AllFold(a: string, b: string, c: string, t: string)
    requires Trio(a, b, c) && t in {a, b, c}
    ensures At(Mapping(Facts(a, b, c), Settings()), t) == a
  {
    hide SemTopics, FreshItems, Canonical, Facts, Trio, Fold;
    Listed(a, b, c);
    TrioIs(a, b, c, t);
    CanonicalFolds({a, b, c}, t);
    var sem := {a, b, c};
    assert ToSet([a, b, c]) == sem;
    assert ToSet(Topics([])) + sem == sem;
  }

  lemma VariantsGrow(rep: string, sem: seq<string>, t: string, m: map<string, string>)
    ensures Variants(rep, sem + [t], m) == Variants(rep, sem, m) + if At(m, t) == rep && t != rep then [t] else []
  {
    assert (sem + [t])[..|sem|] == sem;
  }

  lemma VariantsThree(a: string, b: string, c: string, m: map<string, string>)
    requires a != b && a != c && At(m, a) == a && At(m, b) == a && At(m, c) == a
    ensures Variants(a, [a, b, c], m) == [b, c]
  {
    VariantsGrow(a, [], a, m);
    VariantsGrow(a, [a], b, m);
    VariantsGrow(a, [a, b], c, m);
    hide At;
    assert [] + [a] == [a] && [a] + [b] == [a, b] && [a, b] + [c] == [a, b, c];
    assert Variants(a, [], m) == [];
  }

  /** The pass merges the three into the first. The third was touched last, and the second one's text is
      what is stored. */
  lemma TrioKeepsTheSecond(a: string, b: string, c: string)
    requires Trio(a, b, c)
    ensures var s := Facts(a, b, c);
            var s' := MergeAll(s, PairList(s, Mapping(s, Settings())), Settings()).0;
            && Stored(s) && a in s'.semantic && Strip(s'.semantic[a].text) == "second"
            && Newest(s.semantic, [b, c, a], c) && !SaysNewest(s.semantic, [b, c, a], s'.semantic[a].text)
  {
    hide MergeAll, PairList, Mapping, SemTopics, At, Facts, Trio, Stored;
    var s := Facts(a, b, c);
    Listed(a, b, c);
    TrioIs(a, b, c, a);
    FactsAre(a, b, c);
    AllFold(a, b, c, a);
    AllFold(a, b, c, b);
    AllFold(a, b, c, c);
    VariantsThree(a, b, c, Mapping(s, Settings()));
    hide Variants;
    StoredTextIsNewestIff(s, Settings(), a);
    SecondWins(s.semantic, a, b, c, MergeAll(s, PairList(s, Mapping(s, Settings())), Settings()).0.semantic[a].text);
  }

  lemma SecondWins(m: map<string, Item>, a: string, b: string, c: string, text: string)
    requires m.Keys == {a, b, c} && a != b && a != c && b != c
    requires m[a] == Fact(a, "first", 1)
            && m[b] == Fact(b, "second", 2) && m[c] == Fact(c, "third", 3)
    requires AllIn([b, c], m) && NewestIff(m, a, [b, c], text)
    ensures Strip(text) == "second" && Newest(m, [b, c, a], c) && !SaysNewest(m, [b, c, a], text)
  {
    TextsAreTrimmed();
    hide Strip;
    assert [b, c] + [a] == [b, c, a] && [b, c][1] == c;
    assert Newest(m, [b, c, a], c);
  }

  lemma TextsAreTrimmed()
    ensures Strip("second") == "second" && Strip("third") == "third" && Strip("first") == "first"
  {
    StripOf("", "first", "");
    StripOf("", "second", "");
    StripOf("", "third", "");
    assert "" + "first" + "" == "first" && "" + "second" + "" == "second" && "" + "third" + "" == "third";
  }

  // ----- the three topics are such -----

  lemma {:induction false} LexPrefix(p: string, a: string, b: string)
    requires LexLeq(a, b)
    ensures LexLeq(p + a, p + b)
  {
    if p == "" {
      assert p + a == a && p + b == b;
    } else {
      assert (p + a)[1..] == p[1..] + a && (p + b)[1..] == p[1..] + b;
      LexPrefix(p[1..], a, b);
    }
  }

  lemma TeaIsATrio()
    ensures Trio(TEA, BLACK, GREEN)
  {
    hide Canonical, LexLeq;
    forall t | t in TOPICS ensures Canonical(TOPICS, t) == TEA { TeaIsTheName(t); }
    ShorterFirst("tea", "-black");
    ShorterFirst("tea", "-green");
    BlackBeforeGreen();
    assert "tea" + "-black" == BLACK && "tea" + "-green" == GREEN;
  }

  lemma ShorterFirst(p: string, rest: string)
    ensures LexLeq(p, p + rest)
  {
    LexPrefix(p, "", rest);
    assert p + "" == p;
  }

  lemma BlackBeforeGreen()
    ensures LexLeq(BLACK, GREEN)
  {
    assert LexLeq("black", "green");
    hide LexLeq;
    LexPrefix("tea-", "black", "green");
    assert "tea-" + "black" == BLACK && "tea-" + "green" == GREEN;
  }

  /** The newest need not win. */
  lemma NewestCanLose()
    ensures var s := Facts(TEA, BLACK, GREEN);
            var s' := MergeAll(s, PairList(s, Mapping(s, Settings())), Settings()).0;
            && Stored(s) && TEA in s'.semantic && Strip(s'.semantic[TEA].text) == "second"
            && Newest(s.semantic, [BLACK, GREEN, TEA], GREEN)
            && !SaysNewest(s.semantic, [BLACK, GREEN, TEA], s'.semantic[TEA].text)
  {
    TeaIsATrio();
    hide *;
    TrioKeepsTheSecond(TEA, BLACK, GREEN);
  }
}
