/** Which facts the sweep archives and which captures the cap keeps. */
module Retention {
  import opened MemoryTiers
  import opened Listing
  import opened Consolidate
  import opened NoLoss
  import opened FixedPoint

  /** The sweep archives the stale facts and touches nothing else. */
  lemma SweepIsExact(s: Tiers, c: Config)
    requires Stored(s)
    ensures var s' := Sweep(s, c).0;
            && s'.episodic == s.episodic && s'.semantic.Keys == s.semantic.Keys
            && forall t :: t in s.semantic ==>
                 s'.semantic[t] == if Stale(s.semantic[t], c) then s.semantic[t].(status := Archived, updated := c.wall)
                                   else s.semantic[t]
  {
    hide Documents, SetAll, Stale, OlderThan;
    var stale := StaleOf(Documents(s.semantic), c);
    SetAllSemantic(s, Ids(stale), Archived, c.wall);
    forall t | t in s.semantic ensures t in Ids(stale) <==> Stale(s.semantic[t], c) {
      DocumentIs(s.semantic, s.semantic[t]);
      IdIn(stale, s.semantic[t]);
      if t in Ids(stale) {
        var k :| 0 <= k < |stale| && Ids(stale)[k] == t;
        assert stale[k] in stale;
        DocumentIs(s.semantic, stale[k]);
      }
    }
  }

  /** What the sweep archives, in terms of the fields and the clock. */
  lemma SweepArchivesIff(s: Tiers, c: Config, t: string)
    requires Stored(s) && t in s.semantic
    ensures var i, s' := s.semantic[t], Sweep(s, c).0;
            && t in s'.semantic
            && (s'.semantic[t].status == Archived && i.status != Archived <==>
                  && i.status == Active && i.accessCount == 0
                  && (c.staleDays < 0 ||
                      ((i.updated != 0 || i.created != 0)
                       && c.now - ((if i.updated != 0 then i.updated else i.created) - c.zone) > 86400 * c.staleDays)))
            && s'.semantic[t] == if s'.semantic[t].status != i.status
                                 then i.(status := Archived, updated := c.wall) else i
  {
    hide Sweep, Stored, Documents;
    SweepIsExact(s, c);
  }

  /** A fact that has been used is not archived by the sweep, however old it is. */
  lemma UsedFactsStay(s: Tiers, c: Config, t: string)
    requires Stored(s) && t in s.semantic && s.semantic[t].accessCount >= 0
    ensures var s1 := RecordAccess(s, t); t in Sweep(s1, c).0.semantic && Sweep(s1, c).0.semantic[t] == s1.semantic[t]
  {
    hide Sweep, Documents;
    var s1 := RecordAccess(s, t);
    SweepArchivesIff(s1, c, t);
  }

  lemma IdIn(xs: seq<Item>, i: Item)
    ensures i in xs ==> i.id in Ids(xs)
  {
    if i in xs {
      var k :| 0 <= k < |xs| && xs[k] == i;
      assert Ids(xs)[k] == i.id;
    }
  }

  /** Capture e is archived by the prune. */
  ghost predicate Pruned(s: Tiers, c: Config, e: string) {
    e in Ids(Surplus(Keep(Documents(s.episodic), IsConsolidated), c.cap))
  }

  /** The prune archives only consolidated captures, none of them touched after one it keeps, and as many
      as exceed the cap. */
  lemma PruneKeepsTheNewest(s: Tiers, c: Config)
    requires Stored(s)
    ensures var s' := Prune(s, c).0;
            && s'.semantic == s.semantic && s'.episodic.Keys == s.episodic.Keys
            && (forall e :: e in s.episodic ==>
                  s'.episodic[e] == if Pruned(s, c, e) then s.episodic[e].(status := Archived, updated := c.wall)
                                    else s.episodic[e])
            && (forall e :: Pruned(s, c, e) ==> e in s.episodic && s.episodic[e].status == Consolidated)
            && (forall e, k ::
                  Pruned(s, c, e) && k in s.episodic && s.episodic[k].status == Consolidated && !Pruned(s, c, k)
                  ==> LastTouched(s.episodic[e]) <= LastTouched(s.episodic[k]))
    ensures var total := |ConsolidatedNames(s)|;
            Prune(s, c).1 == if c.cap == 0 || total <= c.cap then 0 else total - c.cap
  {
    hide Documents, SetAll, SortBy, Ascending;
    var all := Keep(Documents(s.episodic), IsConsolidated);
    var done := OldestFirst(all);
    var surplus := Surplus(all, c.cap);
    SetAllEpisodic(s, Ids(surplus), Archived, c.wall);
    ConsolidatedCount(s);
    SortingKeepsLength(all);
    forall e | Pruned(s, c, e)
      ensures e in s.episodic && s.episodic[e].status == Consolidated && s.episodic[e] in surplus
    {
      var k :| 0 <= k < |surplus| && Ids(surplus)[k] == e;
      SurplusIsFront(all, c.cap, k);
      DocumentIs(s.episodic, surplus[k]);
    }
    forall e, k | Pruned(s, c, e) && k in s.episodic && s.episodic[k].status == Consolidated && !Pruned(s, c, k)
      ensures LastTouched(s.episodic[e]) <= LastTouched(s.episodic[k])
    {
      DocumentIs(s.episodic, s.episodic[k]);
      IdIn(surplus, s.episodic[k]);
      SurplusIsOldest(all, c.cap, s.episodic[e], s.episodic[k]);
    }
  }

  /** In terms of the dates: what the prune archives was last changed, or made where it was never changed, no later
      than any consolidated capture it keeps. */
  lemma PrunedAreTheOldest(s: Tiers, c: Config, e: string, k: string)
    requires Stored(s) && e in s.episodic && k in s.episodic
    requires s.episodic[e].status == Consolidated && s.episodic[k].status == Consolidated
    ensures var s', gone, kept := Prune(s, c).0, s.episodic[e], s.episodic[k];
            && e in s'.episodic && k in s'.episodic
            && (s'.episodic[e].status == Archived && s'.episodic[k].status != Archived ==>
                  (if gone.updated == 0 then gone.created else gone.updated)
                  <= (if kept.updated == 0 then kept.created else kept.updated))
  {
    hide Prune, Pruned, Stored;
    PruneKeepsTheNewest(s, c);
  }

  lemma SurplusIsFront(all: seq<Item>, cap: nat, k: nat)
    requires k < |Surplus(all, cap)|
    ensures Surplus(all, cap)[k] in all
  {
    hide SortBy;
    SortByMembers(all, LastTouched, Surplus(all, cap)[k]);
  }

  /** Of what is sorted, the front is touched no later than the rest. */
  lemma SurplusIsOldest(all: seq<Item>, cap: nat, i: Item, j: Item)
    requires i in Surplus(all, cap) && j in all && j !in Surplus(all, cap)
    ensures LastTouched(i) <= LastTouched(j)
  {
    var done, front := OldestFirst(all), Surplus(all, cap);
    SortByMembers(all, LastTouched, j);
    hide SortBy;
    var a :| 0 <= a < |front| && front[a] == i;
    var b :| 0 <= b < |done| && done[b] == j;
    assert front == done[..|front|];
    forall x | 0 <= x < |front| ensures done[x] != j { assert front[x] == done[x]; }
  }

  lemma ConsolidatedCount(s: Tiers)
    requires Stored(s)
    ensures |Keep(Documents(s.episodic), IsConsolidated)| == |ConsolidatedNames(s)|
  {
    hide Documents;
    var all := Keep(Documents(s.episodic), IsConsolidated);
    DocumentsDistinct(s.episodic);
    KeepDistinct(Documents(s.episodic), IsConsolidated);
    forall i | i in all ensures i.id in ConsolidatedNames(s) { DocumentIs(s.episodic, i); }
    forall e | e in ConsolidatedNames(s) ensures e in Ids(all) {
      DocumentIs(s.episodic, s.episodic[e]);
      IdIn(all, s.episodic[e]);
    }
    DistinctSize(all, ConsolidatedNames(s));
    CoveredSize(all, ConsolidatedNames(s));
  }

  lemma {:induction false} CoveredSize(xs: seq<Item>, C: set<string>)
    requires forall e :: e in C ==> e in Ids(xs)
    ensures |C| <= |xs|
  {
    if xs == [] {
      assert C == {};
    } else {
      var front, last := xs[..|xs| - 1], xs[|xs| - 1];
      forall e | e in C - {last.id} ensures e in Ids(front) {
        var k :| 0 <= k < |xs| && Ids(xs)[k] == e;
        assert Ids(front)[k] == e;
      }
      CoveredSize(front, C - {last.id});
      assert |C| <= |C - {last.id}| + 1;
    }
  }
}
