/** What the merge of variant nodes leaves in a group's node: whose text, and which totals. */
module Merging {
  import opened Text
  import opened MemoryTiers
  import opened Listing
  import opened Consolidate
  import opened NoLoss
  import opened FixedPoint

  /** Every pair names two nodes; no node is merged away twice, or after others merged into it. */
  ghost predicate Mergeable(s: Tiers, ps: seq<Pair>) {
    && (forall p :: p in ps ==> p.rep in s.semantic && p.variant in s.semantic)
    && (forall p, q :: p in ps && q in ps ==> p.rep != q.variant)
    && forall i, j :: 0 <= i < j < |ps| ==> ps[i].variant != ps[j].variant
  }

  /** The variants merged into r, in order. */
  ghost function VariantsIn(ps: seq<Pair>, r: string): (vs: seq<string>)
    ensures forall v :: v in vs ==> Pair(r, v) in ps
  {
    if ps == [] then []
    else
      var last := ps[|ps| - 1];
      assert ps == ps[..|ps| - 1] + [last];
      VariantsIn(ps[..|ps| - 1], r) + if last.rep == r then [last.variant] else []
  }

  ghost predicate AllIn(vs: seq<string>, m: map<string, Item>) {
    forall v :: v in vs ==> v in m
  }

  /** Whose text the node ends with: the first variant's if it was touched after the node itself, else the
      node's own; a further variant's only if its date lies after the pass's own clock. */
  ghost function Winner(m: map<string, Item>, r: string, vs: seq<string>, now: int): Item
    requires r in m && AllIn(vs, m)
  {
    if vs == [] then m[r]
    else
      var last := m[vs[|vs| - 1]];
      if |vs| == 1 then if LastTouched(last) > LastTouched(m[r]) then last else m[r]
      else if LastTouched(last) > now then last
      else Winner(m, r, vs[..|vs| - 1], now)
  }

  ghost function Accesses(m: map<string, Item>, r: string, vs: seq<string>): int
    requires r in m && AllIn(vs, m)
  {
    if vs == [] then m[r].accessCount else Accesses(m, r, vs[..|vs| - 1]) + m[vs[|vs| - 1]].accessCount
  }

  /** The earliest creation in the group. */
  ghost function Earliest(m: map<string, Item>, r: string, vs: seq<string>): (t: nat)
    requires r in m && AllIn(vs, m)
    ensures t <= m[r].created && forall v :: v in vs ==> t <= m[v].created
    ensures t == m[r].created || exists v :: v in vs && t == m[v].created
  {
    if vs == [] then m[r].created
    else
      var front, last := vs[..|vs| - 1], vs[|vs| - 1];
      assert vs == front + [last];
      Oldest(Earliest(m, r, front), m[last].created)
  }

  /** The highest confidence in the group. */
  ghost function Surest(m: map<string, Item>, r: string, vs: seq<string>): (t: int)
    requires r in m && AllIn(vs, m)
    ensures t >= m[r].confidence && forall v :: v in vs ==> t >= m[v].confidence
    ensures t == m[r].confidence || exists v :: v in vs && t == m[v].confidence
  {
    if vs == [] then m[r].confidence
    else
      var front, last := vs[..|vs| - 1], vs[|vs| - 1];
      assert vs == front + [last];
      var t := Surest(m, r, front);
      if m[last].confidence > t then m[last].confidence else t
  }

  /** i carries the winner's text, all accesses, the earliest creation and the highest confidence. */
  ghost predicate Merged(m: map<string, Item>, r: string, vs: seq<string>, now: Moment, i: Item)
    requires r in m && AllIn(vs, m)
  {
    && Strip(i.text) == Strip(Winner(m, r, vs, now).text)
    && i.accessCount == Accesses(m, r, vs) && i.created == Earliest(m, r, vs) && i.confidence == Surest(m, r, vs)
    && (if vs == [] then i == m[r] else i.updated == now && i.status == Consolidated)
  }

  lemma MergeDupIs(s: Tiers, p: Pair, c: Config, x: string)
    requires Stored(s) && p.rep in s.semantic && p.variant in s.semantic && p.rep != p.variant
    ensures var s' := MergeDup(s, p, c).0;
            && (x != p.rep && x != p.variant ==> (x in s'.semantic <==> x in s.semantic))
            && (x != p.rep && x != p.variant && x in s.semantic ==> s'.semantic[x] == s.semantic[x])
            && p.rep in s'.semantic
            && s'.semantic[p.rep].text == Strip((if LastTouched(s.semantic[p.variant]) > LastTouched(s.semantic[p.rep])
                                                 then s.semantic[p.variant] else s.semantic[p.rep]).text)
            && s'.semantic[p.rep].accessCount == s.semantic[p.rep].accessCount + s.semantic[p.variant].accessCount
            && s'.semantic[p.rep].created == Oldest(s.semantic[p.rep].created, s.semantic[p.variant].created)
            && s'.semantic[p.rep].confidence == (if s.semantic[p.variant].confidence > s.semantic[p.rep].confidence
                                                 then s.semantic[p.variant].confidence else s.semantic[p.rep].confidence)
            && s'.semantic[p.rep].updated == c.now && s'.semantic[p.rep].status == Consolidated
            && p.variant in s'.semantic
            && s'.semantic[p.variant] == s.semantic[p.variant].(status := Archived, updated := c.wall)
  {
    hide History, AddSources, Strip, EntryOf;
  }

  lemma FrontMergeable(s: Tiers, ps: seq<Pair>)
    requires Mergeable(s, ps) && ps != []
    ensures Mergeable(s, ps[..|ps| - 1])
    ensures forall p :: p in ps[..|ps| - 1] ==> p in ps && p.variant != ps[|ps| - 1].variant
    ensures forall p :: p in ps[..|ps| - 1] ==> p.rep != ps[|ps| - 1].variant && p.variant != ps[|ps| - 1].rep
    ensures var last := ps[|ps| - 1]; last.rep in s.semantic && last.variant in s.semantic && last.rep != last.variant
  {
    var front, last := ps[..|ps| - 1], ps[|ps| - 1];
    assert ps == front + [last];
    forall p | p in front ensures p in ps && p.variant != last.variant {
      var i :| 0 <= i < |front| && front[i] == p;
      assert ps[i] == p;
    }
  }

  /** Nodes no pair names stay as they are. */
  lemma {:induction false} MergeFrame(s: Tiers, ps: seq<Pair>, c: Config, x: string)
    requires Stored(s) && Mergeable(s, ps) && x in s.semantic
    requires forall p :: p in ps ==> x != p.rep && x != p.variant
    ensures var s' := MergeAll(s, ps, c).0; x in s'.semantic && s'.semantic[x] == s.semantic[x]
  {
    hide MergeDup, Mergeable, Grows;
    if ps != [] {
      var front, last := ps[..|ps| - 1], ps[|ps| - 1];
      assert ps == front + [last];
      FrontMergeable(s, ps);
      MergeFrame(s, front, c, x);
      MergeAllGrows(s, front, c);
      var s1 := MergeAll(s, front, c).0;
      GrowsStored(s, s1);
      GrowsAt(s, s1, last.rep);
      GrowsAt(s, s1, last.variant);
      MergeDupIs(s1, last, c, x);
    }
  }

  lemma TotalsMore(m: map<string, Item>, r: string, vs: seq<string>, v: string)
    requires r in m && AllIn(vs + [v], m) && AllIn(vs, m) && v in m
    ensures Accesses(m, r, vs + [v]) == Accesses(m, r, vs) + m[v].accessCount
    ensures Earliest(m, r, vs + [v]) == Oldest(Earliest(m, r, vs), m[v].created)
    ensures Surest(m, r, vs + [v]) == if m[v].confidence > Surest(m, r, vs) then m[v].confidence else Surest(m, r, vs)
  {
    var all := vs + [v];
    assert all[..|all| - 1] == vs && all[|all| - 1] == v;
  }

  lemma WinnerMore(m: map<string, Item>, r: string, vs: seq<string>, v: string, now: int)
    requires r in m && AllIn(vs + [v], m) && AllIn(vs, m) && v in m
    ensures Winner(m, r, vs + [v], now) ==
            if LastTouched(m[v]) > (if vs == [] then LastTouched(m[r]) else now) then m[v] else Winner(m, r, vs, now)
  {
    var all := vs + [v];
    assert all[..|all| - 1] == vs && all[|all| - 1] == v;
  }

  /** One more variant. */
  lemma MergedMore(m: map<string, Item>, r: string, vs: seq<string>, v: string, now: Moment, i: Item, i': Item)
    requires r in m && AllIn(vs + [v], m) && AllIn(vs, m) && v in m && Merged(m, r, vs, now, i)
    requires i'.text == Strip((if LastTouched(m[v]) > LastTouched(i) then m[v] else i).text)
    requires i'.accessCount == i.accessCount + m[v].accessCount && i'.created == Oldest(i.created, m[v].created)
    requires i'.confidence == (if m[v].confidence > i.confidence then m[v].confidence else i.confidence)
    requires i'.updated == now && i'.status == Consolidated
    ensures Merged(m, r, vs + [v], now, i')
  {
    TotalsMore(m, r, vs, v);
    WinnerMore(m, r, vs, v, now);
    StripAgain(m[v].text);
    StripAgain(i.text);
    hide Strip, Accesses, Earliest, Surest, Winner, AllIn;
  }

  /** After the merges a group's node is the merge of it and its variants, however the groups' pairs lie. */
  lemma {:induction false} MergesInto(s: Tiers, ps: seq<Pair>, c: Config, r: string)
    requires Stored(s) && Mergeable(s, ps) && r in s.semantic && forall p :: p in ps ==> p.variant != r
    ensures AllIn(VariantsIn(ps, r), s.semantic)
    ensures var s' := MergeAll(s, ps, c).0;
            r in s'.semantic && Merged(s.semantic, r, VariantsIn(ps, r), c.now, s'.semantic[r])
  {
    hide MergeDup, Mergeable, Grows, Merged, VariantsIn;
    VariantsStored(s, ps, r);
    if ps == [] {
      NothingMerged(s, r, c.now);
    } else {
      var front, last := ps[..|ps| - 1], ps[|ps| - 1];
      assert ps == front + [last];
      FrontMergeable(s, ps);
      VariantsMore(ps, r);
      MergesInto(s, front, c, r);
      MergeAllGrows(s, front, c);
      var s1 := MergeAll(s, front, c).0;
      GrowsStored(s, s1);
      GrowsAt(s, s1, last.rep);
      GrowsAt(s, s1, last.variant);
      MergeDupIs(s1, last, c, r);
      if last.rep == r {
        MergeFrame(s, front, c, last.variant);
        MergedMore(s.semantic, r, VariantsIn(front, r), last.variant, c.now, s1.semantic[r],
                   MergeAll(s, ps, c).0.semantic[r]);
      }
    }
  }

  lemma VariantsStored(s: Tiers, ps: seq<Pair>, r: string)
    requires Mergeable(s, ps)
    ensures AllIn(VariantsIn(ps, r), s.semantic)
  {}

  lemma VariantsMore(ps: seq<Pair>, r: string)
    requires ps != []
    ensures var last := ps[|ps| - 1];
            VariantsIn(ps, r) == if last.rep == r then VariantsIn(ps[..|ps| - 1], r) + [last.variant]
                                 else VariantsIn(ps[..|ps| - 1], r)
  {}

  lemma NothingMerged(s: Tiers, r: string, now: Moment)
    requires r in s.semantic
    ensures VariantsIn([], r) == [] && Merged(s.semantic, r, [], now, s.semantic[r])
  {}

  // ----- the pairs of a pass -----

  ghost predicate Distinct(xs: seq<string>) {
    forall i, j :: 0 <= i < j < |xs| ==> xs[i] != xs[j]
  }

  ghost predicate DistinctVariants(ps: seq<Pair>) {
    forall i, j :: 0 <= i < j < |ps| ==> ps[i].variant != ps[j].variant
  }

  lemma SemTopicsDistinct(s: Tiers)
    requires Stored(s)
    ensures Distinct(SemTopics(s))
  {
    DocumentsDistinct(s.semantic);
    KeepDistinct(Documents(s.semantic), Live);
    var live := Keep(Documents(s.semantic), Live);
    forall i | i in live ensures i.id == i.topic {
      var x :| x in s.semantic && s.semantic[x] == i;
    }
  }

  lemma {:induction false} VariantsDistinct(rep: string, sem: seq<string>, m: map<string, string>)
    requires Distinct(sem)
    ensures Distinct(Variants(rep, sem, m))
  {
    hide At;
    if sem != [] {
      var front, last := sem[..|sem| - 1], sem[|sem| - 1];
      VariantsDistinct(rep, front, m);
      assert last !in front;
    }
  }

  lemma {:induction false} AllPairsDistinct(reps: seq<string>, sem: seq<string>, m: map<string, string>)
    requires Distinct(sem) && Distinct(reps)
    ensures DistinctVariants(AllPairs(reps, sem, m))
  {
    hide Variants, At;
    if reps != [] {
      var front, last := reps[..|reps| - 1], reps[|reps| - 1];
      assert last !in front;
      AllPairsDistinct(front, sem, m);
      VariantsDistinct(last, sem, m);
      var a, b := AllPairs(front, sem, m), PairsOf(last, Variants(last, sem, m));
      forall i, j | 0 <= i < |a| && 0 <= j < |b| ensures a[i].variant != b[j].variant {
        assert a[i] in a && b[j].variant == Variants(last, sem, m)[j];
      }
      JoinedDistinct(a, b);
    }
  }

  lemma JoinedDistinct(a: seq<Pair>, b: seq<Pair>)
    requires DistinctVariants(a) && DistinctVariants(b)
    requires forall i, j :: 0 <= i < |a| && 0 <= j < |b| ==> a[i].variant != b[j].variant
    ensures DistinctVariants(a + b)
  {}

  lemma {:induction false} VariantsInJoined(a: seq<Pair>, b: seq<Pair>, r: string)
    ensures VariantsIn(a + b, r) == VariantsIn(a, r) + VariantsIn(b, r)
  {
    if b == [] {
      assert a + b == a;
    } else {
      assert (a + b)[..|a + b| - 1] == a + b[..|b| - 1];
      VariantsInJoined(a, b[..|b| - 1], r);
    }
  }

  lemma {:induction false} VariantsInBlock(rep: string, vs: seq<string>, r: string)
    ensures VariantsIn(PairsOf(rep, vs), r) == if rep == r then vs else []
  {
    if vs == [] {
      NoPairsNoVariants(r);
    } else {
      var front, last := vs[..|vs| - 1], vs[|vs| - 1];
      BlockGrows(rep, front, last);
      hide VariantsIn, PairsOf;
      assert vs == front + [last];
      VariantsMore(PairsOf(rep, vs), r);
      VariantsInBlock(rep, front, r);
    }
  }

  lemma BlockGrows(rep: string, front: seq<string>, last: string)
    ensures PairsOf(rep, front + [last]) == PairsOf(rep, front) + [Pair(rep, last)]
  {}

  lemma AllPairsMore(front: seq<string>, last: string, sem: seq<string>, m: map<string, string>)
    ensures AllPairs(front + [last], sem, m) == AllPairs(front, sem, m) + PairsOf(last, Variants(last, sem, m))
  {
    hide Variants;
    var all := front + [last];
    assert all[..|all| - 1] == front && all[|all| - 1] == last;
  }

  lemma {:induction false} VariantsInAll(reps: seq<string>, sem: seq<string>, m: map<string, string>, r: string)
    requires Distinct(reps)
    ensures VariantsIn(AllPairs(reps, sem, m), r) == if r in reps then Variants(r, sem, m) else []
  {
    if reps == [] {
      assert AllPairs(reps, sem, m) == [];
      NoPairsNoVariants(r);
    } else {
      hide *;
      FrontDistinct(reps);
      VariantsInAll(reps[..|reps| - 1], sem, m, r);
      VariantsInMore(reps[..|reps| - 1], reps[|reps| - 1], sem, m, r);
    }
  }

  lemma VariantsInMore(front: seq<string>, last: string, sem: seq<string>, m: map<string, string>, r: string)
    requires last !in front
    requires VariantsIn(AllPairs(front, sem, m), r) == if r in front then Variants(r, sem, m) else []
    ensures VariantsIn(AllPairs(front + [last], sem, m), r) ==
            if r == last || r in front then Variants(r, sem, m) else []
  {
    hide *;
    AllPairsMore(front, last, sem, m);
    VariantsInBlock(last, Variants(last, sem, m), r);
    VariantsInJoined(AllPairs(front, sem, m), PairsOf(last, Variants(last, sem, m)), r);
  }

  lemma FrontDistinct(xs: seq<string>)
    requires Distinct(xs) && xs != []
    ensures var front, last := xs[..|xs| - 1], xs[|xs| - 1];
            Distinct(front) && last !in front && xs == front + [last] && forall x :: x in xs <==> x == last || x in front
  {}

  lemma NoPairsNoVariants(r: string)
    ensures VariantsIn([], r) == []
  {}

  lemma PairsAreMergeable(s: Tiers, c: Config)
    requires Stored(s)
    ensures var ps := PairList(s, Mapping(s, c));
            Mergeable(s, ps) && forall p :: p in ps ==> At(Mapping(s, c), p.rep) == p.rep
  {
    hide SemTopics, Mapping, SortedNames, At, AllPairs, Variants, FreshItems;
    var m := Mapping(s, c);
    var sem, ps := SemTopics(s), PairList(s, m);
    SemTopicsDistinct(s);
    AllPairsDistinct(SortedNames(Representatives(sem, m)), sem, m);
    forall p | p in ps
      ensures p.rep in s.semantic && p.variant in s.semantic
      ensures At(m, p.rep) == p.rep && p.rep == At(m, p.variant) && p.rep != p.variant
    {
      PairIs(s, m, p);
      SemTopicIs(s, p.variant);
      assert InUniverse(s, p.variant);
      MappingFolds(s, c, p.variant);
      SemTopicIs(s, p.rep);
    }
  }

  /** In a pass each group's node ends the merge phase as the merge of the group: the winner's text, the
      sum of the accesses, the earliest creation, the highest confidence, consolidated. */
  lemma GroupIsMerged(s: Tiers, c: Config, r: string)
    requires Stored(s) && r in SemTopics(s) && At(Mapping(s, c), r) == r
    ensures var m := Mapping(s, c);
            var vs := Variants(r, SemTopics(s), m);
            var s' := MergeAll(s, PairList(s, m), c).0;
            && r in s.semantic && AllIn(vs, s.semantic) && r in s'.semantic
            && Merged(s.semantic, r, vs, c.now, s'.semantic[r])
  {
    hide MergeAll, SemTopics, Mapping, Merged, SortedNames, At, AllPairs, Variants, FreshItems, VariantsIn;
    var m := Mapping(s, c);
    var sem, ps := SemTopics(s), PairList(s, m);
    var reps := SortedNames(Representatives(sem, m));
    SemTopicsDistinct(s);
    VariantsInAll(reps, sem, m, r);
    VariantsHaveRepresentative(sem, m, r);
    SemTopicIs(s, r);
    PairsAreMergeable(s, c);
    MergesInto(s, ps, c, r);
  }

  lemma VariantsHaveRepresentative(sem: seq<string>, m: map<string, string>, r: string)
    ensures Variants(r, sem, m) != [] ==> r in Representatives(sem, m)
  {
    var vs := Variants(r, sem, m);
    if vs != [] {
      assert vs[0] in vs;
      assert At(m, vs[0]) in Representatives(sem, m);
    }
  }

  // ----- does the newest value win? -----

  /** With all dates up to now: the first variant or the node itself wins. */
  lemma {:induction false} WinnerIsEarly(m: map<string, Item>, r: string, vs: seq<string>, now: int)
    requires r in m && AllIn(vs, m) && vs != [] && forall v :: v in vs ==> LastTouched(m[v]) <= now
    ensures Winner(m, r, vs, now) == if LastTouched(m[vs[0]]) > LastTouched(m[r]) then m[vs[0]] else m[r]
  {
    if |vs| > 1 {
      assert vs[|vs| - 1] in vs;
      WinnerIsEarly(m, r, vs[..|vs| - 1], now);
    }
  }

  /** The text kept by the merge is a most recently touched one if and only if no variant after the first
      was touched later than both the node and the first variant. */
  lemma NewestMergedWinsIff(m: map<string, Item>, r: string, vs: seq<string>, now: int)
    requires r in m && AllIn(vs, m) && vs != [] && forall v :: v in vs ==> LastTouched(m[v]) <= now
    ensures var w := LastTouched(Winner(m, r, vs, now));
            (LastTouched(m[r]) <= w && forall v :: v in vs ==> LastTouched(m[v]) <= w)
            <==> forall k :: 0 < k < |vs| ==>
                   LastTouched(m[vs[k]]) <= LastTouched(m[r]) || LastTouched(m[vs[k]]) <= LastTouched(m[vs[0]])
  {
    WinnerIsEarly(m, r, vs, now);
  }

  // ----- the text the store ends up with -----

  /** No other node of the group was touched later. */
  ghost predicate Newest(m: map<string, Item>, group: seq<string>, v: string) {
    v in m && v in group && forall x :: x in group && x in m ==> LastTouched(m[x]) <= LastTouched(m[v])
  }

  /** The text is that of a newest node of the group. */
  ghost predicate SaysNewest(m: map<string, Item>, group: seq<string>, text: string) {
    exists v :: Newest(m, group, v) && Strip(m[v].text) == Strip(text)
  }

  /** The node, or its first variant when that was touched later. */
  ghost function EarlyWinner(m: map<string, Item>, r: string, vs: seq<string>): string
    requires r in m && AllIn(vs, m) && vs != []
  {
    if LastTouched(m[vs[0]]) > LastTouched(m[r]) then vs[0] else r
  }

  /** No variant after the first was touched later than both the node and the first variant. */
  ghost predicate NoneLater(m: map<string, Item>, r: string, vs: seq<string>)
    requires r in m && AllIn(vs, m) && vs != []
  {
    forall k :: 0 < k < |vs| ==> LastTouched(m[vs[k]]) <= LastTouched(m[EarlyWinner(m, r, vs)])
  }

  /** One that was, and is a newest, says the same as the early winner. */
  ghost predicate SameAnyway(m: map<string, Item>, r: string, vs: seq<string>)
    requires r in m && AllIn(vs, m) && vs != []
  {
    exists k :: 0 < k < |vs| && Newest(m, vs + [r], vs[k])
      && Strip(m[vs[k]].text) == Strip(m[EarlyWinner(m, r, vs)].text)
  }

  ghost predicate DatedBy(m: map<string, Item>, vs: seq<string>, now: int) {
    forall v :: v in vs && v in m ==> LastTouched(m[v]) <= now
  }

  /** The text is the early winner's; it is a newest one if and only if no later variant was touched after
      that, or one that was says the same. */
  ghost predicate NewestIff(m: map<string, Item>, r: string, vs: seq<string>, text: string)
    requires r in m && AllIn(vs, m) && vs != []
  {
    && Strip(text) == Strip(m[EarlyWinner(m, r, vs)].text)
    && (SaysNewest(m, vs + [r], text) <==> NoneLater(m, r, vs) || SameAnyway(m, r, vs))
  }

  /** After the merge phase this holds of the stored text of every group. */
  lemma StoredTextIsNewestIff(s: Tiers, c: Config, r: string)
    requires Stored(s) && r in SemTopics(s) && At(Mapping(s, c), r) == r
    requires var vs := Variants(r, SemTopics(s), Mapping(s, c)); vs != [] && DatedBy(s.semantic, vs, c.now)
    ensures var m := Mapping(s, c);
            var vs := Variants(r, SemTopics(s), m);
            var s' := MergeAll(s, PairList(s, m), c).0;
            && r in s.semantic && AllIn(vs, s.semantic) && r in s'.semantic
            && NewestIff(s.semantic, r, vs, s'.semantic[r].text)
  {
    hide MergeAll, PairList, SemTopics, Mapping, At, Variants, Winner, Strip;
    hide NoneLater, SameAnyway, SaysNewest;
    var m := Mapping(s, c);
    var vs := Variants(r, SemTopics(s), m);
    GroupIsMerged(s, c, r);
    WinnerIsEarly(s.semantic, r, vs, c.now);
    EarlyWinnerNewestIff(s.semantic, r, vs, MergeAll(s, PairList(s, m), c).0.semantic[r].text);
  }

  lemma EarlyWinnerNewestIff(m: map<string, Item>, r: string, vs: seq<string>, text: string)
    requires r in m && AllIn(vs, m) && vs != [] && Strip(text) == Strip(m[EarlyWinner(m, r, vs)].text)
    ensures SaysNewest(m, vs + [r], text) <==> NoneLater(m, r, vs) || SameAnyway(m, r, vs)
  {
    hide Strip;
    var w := EarlyWinner(m, r, vs);
    if NoneLater(m, r, vs) {
      forall x | x in vs + [r] ensures LastTouched(m[x]) <= LastTouched(m[w]) {
        var k :| 0 <= k < |vs + [r]| && (vs + [r])[k] == x;
      }
      assert vs[0] in vs;
      assert Newest(m, vs + [r], w);
    } else {
      var k :| 0 < k < |vs| && LastTouched(m[vs[k]]) > LastTouched(m[w]);
      assert vs[k] in vs + [r] && vs[0] in vs;
      if SaysNewest(m, vs + [r], text) {
        var v :| Newest(m, vs + [r], v) && Strip(m[v].text) == Strip(text);
        var j :| 0 <= j < |vs + [r]| && (vs + [r])[j] == v;
        assert LastTouched(m[v]) >= LastTouched(m[vs[k]]);
        assert v != r && v != vs[0];
        assert 0 < j < |vs| && vs[j] == v;
      }
    }
  }
}
