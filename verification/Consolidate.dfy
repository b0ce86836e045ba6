/** The consolidation pass (memory/consolidate.py) with the default synthesizer: what one pass
    does to the tiers, as a function. */
module Consolidate {
  import opened Text
  import opened TopicFolding
  import opened MemoryTiers
  import opened Listing

  /** A time that prints as a non-empty timestamp. */
  type Moment = n: nat | n > 0 witness 1

  /** One call's settings. `now` is the pass's own clock, `wall` what the store stamps status changes with,
      `zone` the seconds by which local time is ahead of UTC, `cap` the episodic cap (0 keeps all),
      `only` the topics to promote (None promotes everything). */
  datatype Config = Config(
    canonicalize: bool, staleDays: int, now: Moment, wall: Moment, zone: int, cap: nat, only: Option<set<string>>)

  datatype Report = Report(
    episodicSeen: nat, topicsConsolidated: nat, created: nat, updated: nat,
    archivedStale: nat, prunedEpisodic: nat, duplicatesMerged: nat, topics: seq<string>)

  // ----- small pieces -----

  function At(m: map<string, string>, t: string): string {
    if t in m then m[t] else t
  }

  predicate Fresh(i: Item) {
    i.status == Active || i.status == Draft
  }

  predicate IsConsolidated(i: Item) {
    i.status == Consolidated
  }

  /** The last capture is the current statement. */
  function DefaultSynth(existing: Option<string>, newestFirst: seq<string>): string {
    if newestFirst != [] then newestFirst[0] else if existing.Some? then existing.value else ""
  }

  function Confidence(support: nat, hadExisting: bool): int {
    Lesser(95, 50 + 10 * (if support > 1 then support - 1 else 0) + if hadExisting then 10 else 0)
  }

  /** The history grown by every older statement that is not blank, not current and not there yet. */
  function History(h: seq<string>, elder: seq<string>, current: string): seq<string> {
    if elder == [] then h
    else
      var h' := History(h, elder[..|elder| - 1], current);
      var o := Strip(elder[|elder| - 1]);
      if o != "" && o != current && o !in h' then h' + [o] else h'
  }

  function AddSources(srcs: seq<string>, more: seq<string>): seq<string> {
    if more == [] then srcs
    else
      var srcs' := AddSources(srcs, more[..|more| - 1]);
      if more[|more| - 1] in srcs' then srcs' else srcs' + [more[|more| - 1]]
  }

  function AddAllSources(srcs: seq<string>, items: seq<Item>): seq<string> {
    if items == [] then srcs
    else AddSources(AddAllSources(srcs, items[..|items| - 1]), items[|items| - 1].sources)
  }

  function Texts(items: seq<Item>): (r: seq<string>)
    ensures |r| == |items| && forall k :: 0 <= k < |r| ==> r[k] == items[k].text
  {
    seq(|items|, k requires 0 <= k < |items| => items[k].text)
  }

  function Topics(items: seq<Item>): (r: seq<string>)
    ensures |r| == |items| && forall k :: 0 <= k < |r| ==> r[k] == items[k].topic
  {
    seq(|items|, k requires 0 <= k < |items| => items[k].topic)
  }

  function Ids(items: seq<Item>): (r: seq<string>)
    ensures |r| == |items| && forall k :: 0 <= k < |r| ==> r[k] == items[k].id
  {
    seq(|items|, k requires 0 <= k < |items| => items[k].id)
  }

  function Oldest(a: nat, b: nat): nat {
    if a <= b then a else b
  }

  function SetAll(s: Tiers, tier: Tier, ids: seq<string>, status: Status, wall: Stamp): Tiers {
    if ids == [] then s
    else SetStatus(SetAll(s, tier, ids[..|ids| - 1], status, wall), tier, ids[|ids| - 1], status, wall).0
  }

  // ----- phase 1.5: variant slugs that grew their own nodes -----

  datatype Pair = Pair(rep: string, variant: string)

  function MergedItem(target: Item, dup: Item, rep: string, now: Moment): Item {
    var dupNewer := LastTouched(dup) > LastTouched(target);
    var newer := if dupNewer then dup else target;
    var elder := if dupNewer then target else dup;
    Item(rep, rep, newer.text, Consolidated,
         if dup.confidence > target.confidence then dup.confidence else target.confidence,
         Oldest(target.created, dup.created), now,
         AddSources(newer.sources, elder.sources),
         target.accessCount + dup.accessCount,
         History(newer.supersedes, [elder.text] + elder.supersedes, newer.text))
  }

  /** The variant's node goes into the group's node and is archived; false when either is missing. */
  function MergeDup(s: Tiers, p: Pair, c: Config): (Tiers, bool) {
    if p.variant !in s.semantic || p.rep !in s.semantic then (s, false)
    else
      var dup := s.semantic[p.variant];
      var s1 := PutSemantic(s, MergedItem(s.semantic[p.rep], dup, p.rep, c.now), c.wall);
      (SetStatus(s1, Semantic, dup.id, Archived, c.wall).0, true)
  }

  function MergeAll(s: Tiers, ps: seq<Pair>, c: Config): (Tiers, nat) {
    if ps == [] then (s, 0)
    else
      var (s1, n) := MergeAll(s, ps[..|ps| - 1], c);
      var (s2, done) := MergeDup(s1, ps[|ps| - 1], c);
      (s2, if done then n + 1 else n)
  }

  /** The topics that fold onto rep without being it, in listing order. */
  function Variants(rep: string, sem: seq<string>, m: map<string, string>): (r: seq<string>)
    ensures forall t :: t in r <==> t in sem && At(m, t) == rep && t != rep
  {
    if sem == [] then []
    else
      var last := sem[|sem| - 1];
      var front := Variants(rep, sem[..|sem| - 1], m);
      assert sem == sem[..|sem| - 1] + [last];
      if At(m, last) == rep && last != rep then front + [last] else front
  }

  function PairsOf(rep: string, variants: seq<string>): (r: seq<Pair>)
    ensures |r| == |variants| && forall k :: 0 <= k < |r| ==> r[k] == Pair(rep, variants[k])
  {
    seq(|variants|, k requires 0 <= k < |variants| => Pair(rep, variants[k]))
  }

  function AllPairs(reps: seq<string>, sem: seq<string>, m: map<string, string>): (r: seq<Pair>)
    ensures forall p :: p in r <==> p.rep in reps && p.variant in Variants(p.rep, sem, m)
  {
    if reps == [] then []
    else
      var last := reps[|reps| - 1];
      var here := PairsOf(last, Variants(last, sem, m));
      assert reps == reps[..|reps| - 1] + [last];
      assert forall p: Pair :: p in here ==> p.rep == last && p.variant in Variants(last, sem, m);
      assert forall p: Pair :: p.rep == last && p.variant in Variants(last, sem, m) ==> p in here by {
        forall p: Pair | p.rep == last && p.variant in Variants(last, sem, m) ensures p in here {
          var vs := Variants(last, sem, m);
          var k :| 0 <= k < |vs| && vs[k] == p.variant;
          assert here[k] == p;
        }
      }
      AllPairs(reps[..|reps| - 1], sem, m) + here
  }

  ghost function Representatives(sem: seq<string>, m: map<string, string>): set<string> {
    set t | t in sem && At(m, t) != t :: At(m, t)
  }

  // ----- phase 2: each topic's captures into its node -----

  /** A canonical topic and its captures, newest first. */
  datatype Work = Work(topic: string, items: seq<Item>)

  function Folded(existing: Option<Item>, topic: string, items: seq<Item>, now: Moment): Item {
    var texts := Dedup(Texts(items));
    var prior := if existing.Some? then [existing.value.text] else [];
    var merged := Strip(DefaultSynth(if existing.Some? then Some(existing.value.text) else None, texts));
    Item(topic, topic, merged,
         if existing.Some? then Consolidated else Active,
         Confidence(|items| + |prior|, existing.Some?),
         if existing.Some? then existing.value.created else now, now,
         AddAllSources(if existing.Some? then existing.value.sources else [], items),
         if existing.Some? then existing.value.accessCount else 0,
         History(if existing.Some? then existing.value.supersedes else [],
                 (if texts == [] then [] else texts[1..]) + prior, merged))
  }

  function Existing(s: Tiers, topic: string): Option<Item> {
    if topic in s.semantic then Some(s.semantic[topic]) else None
  }

  function FoldTopic(s: Tiers, w: Work, c: Config): Tiers {
    SetAll(PutSemantic(s, Folded(Existing(s, w.topic), w.topic, w.items, c.now), c.wall),
           Episodic, Ids(w.items), Consolidated, c.wall)
  }

  /** The tiers after the work, and how many topics had no node before. */
  function FoldAll(s: Tiers, work: seq<Work>, c: Config): (Tiers, nat) {
    if work == [] then (s, 0)
    else
      var (s1, n) := FoldAll(s, work[..|work| - 1], c);
      var w := work[|work| - 1];
      (FoldTopic(s1, w, c), if w.topic in s1.semantic then n else n + 1)
  }

  /** The fresh captures whose topic folds onto `topic`. */
  function ClusterItems(pending: seq<Item>, m: map<string, string>, topic: string): (r: seq<Item>)
    ensures forall i :: i in r <==> i in pending && At(m, i.topic) == topic
  {
    if pending == [] then []
    else
      var last := pending[|pending| - 1];
      var front := ClusterItems(pending[..|pending| - 1], m, topic);
      assert pending == pending[..|pending| - 1] + [last];
      if At(m, last.topic) == topic then front + [last] else front
  }

  function OnlyTopics(only: Option<set<string>>, m: map<string, string>): Option<set<string>> {
    if only.Some? then Some(set t | t in only.value :: At(m, t)) else None
  }

  predicate Wanted(only: Option<set<string>>, topic: string) {
    only.Some? ==> topic in only.value
  }

  ghost function PromotedTopics(pending: seq<Item>, m: map<string, string>, only: Option<set<string>>): set<string> {
    set i | i in pending && Wanted(only, At(m, i.topic)) :: At(m, i.topic)
  }

  function WorkOf(topics: seq<string>, pending: seq<Item>, m: map<string, string>): (r: seq<Work>)
    ensures |r| == |topics|
    ensures forall k :: 0 <= k < |r| ==> r[k] == Work(topics[k], NewestFirst(ClusterItems(pending, m, topics[k])))
  {
    seq(|topics|, k requires 0 <= k < |topics| => Work(topics[k], NewestFirst(ClusterItems(pending, m, topics[k]))))
  }

  // ----- phases 3 and 4: the stale sweep and the cap -----

  /** `_age_days(ref, now) > stale_days`: the timestamp is UTC but is read as local time. */
  predicate OlderThan(ref: Stamp, now: Moment, zone: int, days: int) {
    var age := if ref == 0 || now - (ref - zone) < 0 then 0 else now - (ref - zone);
    age > days * 86400
  }

  predicate Stale(i: Item, c: Config) {
    var ref := if i.updated != 0 then i.updated else i.created;
    i.status == Active && OlderThan(ref, c.now, c.zone, c.staleDays) && i.accessCount == 0
  }

  function StaleOf(xs: seq<Item>, c: Config): (r: seq<Item>)
    ensures forall i :: i in r <==> i in xs && Stale(i, c)
  {
    if xs == [] then []
    else
      var last := xs[|xs| - 1];
      var front := StaleOf(xs[..|xs| - 1], c);
      assert xs == xs[..|xs| - 1] + [last];
      if Stale(last, c) then front + [last] else front
  }

  /** The consolidated captures beyond the cap, oldest first. */
  function Surplus(consolidated: seq<Item>, cap: nat): seq<Item> {
    var done := OldestFirst(consolidated);
    SortingKeepsLength(consolidated);
    if cap == 0 || |done| <= cap then [] else done[..|done| - cap]
  }

  lemma SortingKeepsLength(xs: seq<Item>)
    ensures |OldestFirst(xs)| == |xs|
  {
    assert |multiset(OldestFirst(xs))| == |multiset(xs)|;
  }

  // ----- the pass -----

  ghost function FreshItems(s: Tiers): seq<Item> {
    Keep(Documents(s.episodic), Fresh)
  }

  ghost function SemTopics(s: Tiers): seq<string> {
    Topics(Keep(Documents(s.semantic), Live))
  }

  ghost function Mapping(s: Tiers, c: Config): map<string, string> {
    var sem := ToSet(SemTopics(s));
    if c.canonicalize then FoldMap(ToSet(Topics(FreshItems(s))) + sem, sem) else map[]
  }

  ghost function PairList(s: Tiers, m: map<string, string>): seq<Pair> {
    AllPairs(SortedNames(Representatives(SemTopics(s), m)), SemTopics(s), m)
  }

  /** The topics to work on, in order. */
  ghost function Promotions(s: Tiers, m: map<string, string>, c: Config): seq<string> {
    SortedNames(PromotedTopics(FreshItems(s), m, OnlyTopics(c.only, m)))
  }

  ghost function WorkList(s: Tiers, m: map<string, string>, c: Config): seq<Work> {
    WorkOf(Promotions(s, m, c), FreshItems(s), m)
  }

  ghost function Sweep(s: Tiers, c: Config): (Tiers, nat) {
    var ids := Ids(StaleOf(Documents(s.semantic), c));
    (SetAll(s, Semantic, ids, Archived, c.wall), |ids|)
  }

  ghost function Prune(s: Tiers, c: Config): (Tiers, nat) {
    var ids := Ids(Surplus(Keep(Documents(s.episodic), IsConsolidated), c.cap));
    (SetAll(s, Episodic, ids, Archived, c.wall), |ids|)
  }

  lemma FoldAllCount(s: Tiers, work: seq<Work>, c: Config)
    ensures FoldAll(s, work, c).1 <= |work|
  {
    if work != [] { FoldAllCount(s, work[..|work| - 1], c); }
  }

  ghost function Pass(s: Tiers, c: Config): (Tiers, Report) {
    var m := Mapping(s, c);
    var work := WorkList(s, m, c);
    var (s1, merged) := MergeAll(s, PairList(s, m), c);
    var (s2, created) := FoldAll(s1, work, c);
    FoldAllCount(s1, work, c);
    var (s3, stale) := Sweep(s2, c);
    var (s4, pruned) := Prune(s3, c);
    (s4, Report(|FreshItems(s)|, |work|, created, |work| - created, stale, pruned, merged, Promotions(s, m, c)))
  }
}
