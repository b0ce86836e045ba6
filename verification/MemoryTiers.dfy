/** One user's memory: two tiers of documents and the topic index (memory/store.py).
    Documents are held as `MemoryItem.from_document` reads them. Topics are slugs already. */
module MemoryTiers {
  import opened Text

  datatype Status = Draft | Active | Consolidated | Archived

  datatype Tier = Episodic | Semantic

  /** A timestamp; 0 is the empty one. */
  type Stamp = nat

  /** Confidence is held in hundredths. */
  datatype Item = Item(
    id: string, topic: string, text: string, status: Status, confidence: int,
    created: Stamp, updated: Stamp, sources: seq<string>, accessCount: int, supersedes: seq<string>)

  datatype Entry = Entry(id: string, summary: string, confidence: int, status: Status, updated: Stamp)

  datatype Tiers = Tiers(episodic: map<string, Item>, semantic: map<string, Item>, index: map<string, Entry>)

  predicate Live(i: Item) {
    i.status == Active || i.status == Consolidated
  }

  function Summary(text: string): string {
    var t := Strip(text);
    if |t| <= 160 then t else t[..160]
  }

  function EntryOf(i: Item): Entry {
    Entry(i.id, Summary(i.text), i.confidence, i.status, i.updated)
  }

  function Lesser(a: int, b: int): int {
    if a <= b then a else b
  }

  function Drop(index: map<string, Entry>, topic: string): map<string, Entry> {
    index - {topic}
  }

  // ----- what each store operation does to the tiers -----

  function PutSemantic(s: Tiers, item: Item, wall: Stamp): Tiers {
    var i := item.(text := Strip(item.text), updated := if item.updated == 0 then wall else item.updated);
    s.(semantic := s.semantic[i.id := i], index := s.index[i.topic := EntryOf(i)])
  }

  /** A change of status; false when there is no such document. */
  function SetStatus(s: Tiers, tier: Tier, id: string, status: Status, wall: Stamp): (Tiers, bool) {
    match tier
    case Episodic =>
      if id !in s.episodic then (s, false)
      else (s.(episodic := s.episodic[id := s.episodic[id].(status := status, updated := wall)]), true)
    case Semantic =>
      if id !in s.semantic then (s, false)
      else
        var i := s.semantic[id].(status := status, updated := wall);
        var index := if status == Archived then Drop(s.index, i.topic) else s.index[i.topic := EntryOf(i)];
        (s.(semantic := s.semantic[id := i], index := index), true)
  }

  /** A repeat capture of a live fact. */
  function Corroborate(s: Tiers, topic: string, source: string, wall: Stamp): (Tiers, bool) {
    if topic !in s.semantic || !Live(s.semantic[topic]) then (s, false)
    else
      var i := s.semantic[topic];
      var sources := if source != "" && source !in i.sources then i.sources + [source] else i.sources;
      (PutSemantic(s, i.(confidence := Lesser(95, i.confidence + 5), sources := sources, updated := wall), wall), true)
  }

  function RecordAccess(s: Tiers, topic: string): Tiers {
    if topic !in s.semantic then s
    else
      var i := s.semantic[topic];
      s.(semantic := s.semantic[topic := i.(accessCount := i.accessCount + 1)])
  }

  /** Back to the last superseded text. */
  function Revert(s: Tiers, topic: string, wall: Stamp): (Tiers, bool) {
    if topic !in s.semantic || s.semantic[topic].supersedes == [] then (s, false)
    else
      var i := s.semantic[topic];
      var n := |i.supersedes| - 1;
      var restored := i.(text := Strip(i.supersedes[n]), supersedes := i.supersedes[..n], updated := wall);
      (s.(semantic := s.semantic[i.id := restored], index := s.index[i.topic := EntryOf(restored)]), true)
  }

  // ----- the index is the projection of the semantic tier -----

  /** Each semantic document is stored under its topic. */
  ghost predicate Keyed(s: Tiers) {
    forall t :: t in s.semantic ==> s.semantic[t].id == t && s.semantic[t].topic == t
  }

  /** What the index should hold for topic t. */
  ghost predicate IndexedRight(s: Tiers, t: string) {
    if t in s.semantic && s.semantic[t].status != Archived
    then t in s.index && s.index[t] == EntryOf(s.semantic[t])
    else t !in s.index
  }

  /** The index has exactly the non-archived topics, each entry as its document says. */
  ghost predicate IndexExact(s: Tiers) {
    Keyed(s) && forall t :: IndexedRight(s, t)
  }

  /** Writing a document keeps the index exact unless the document is archived. */
  lemma PutKeepsIndexIff(s: Tiers, item: Item, wall: Stamp)
    requires IndexExact(s) && item.id == item.topic
    ensures IndexExact(PutSemantic(s, item, wall)) <==> item.status != Archived
  {
    var s' := PutSemantic(s, item, wall);
    forall t | t != item.id ensures IndexedRight(s', t) { assert IndexedRight(s, t); }
    assert IndexedRight(s', item.id) <==> item.status != Archived;
  }

  lemma SetStatusKeepsIndex(s: Tiers, tier: Tier, id: string, status: Status, wall: Stamp)
    requires IndexExact(s)
    ensures IndexExact(SetStatus(s, tier, id, status, wall).0)
  {
    var s' := SetStatus(s, tier, id, status, wall).0;
    forall t ensures IndexedRight(s', t) { assert IndexedRight(s, t); }
  }

  lemma CorroborateKeepsIndex(s: Tiers, topic: string, source: string, wall: Stamp)
    requires IndexExact(s)
    ensures IndexExact(Corroborate(s, topic, source, wall).0)
  {
    if topic in s.semantic && Live(s.semantic[topic]) {
      var i := s.semantic[topic];
      assert i.id == i.topic;
      hide IndexExact, PutSemantic;
      var sources := if source != "" && source !in i.sources then i.sources + [source] else i.sources;
      PutKeepsIndexIff(s, i.(confidence := Lesser(95, i.confidence + 5), sources := sources, updated := wall), wall);
    }
  }

  lemma RecordAccessKeepsIndex(s: Tiers, topic: string)
    requires IndexExact(s)
    ensures IndexExact(RecordAccess(s, topic))
  {
    var s' := RecordAccess(s, topic);
    forall t ensures IndexedRight(s', t) { assert IndexedRight(s, t); }
  }

  /** Undoing a merge keeps the index exact unless the topic is archived and has a history:
      then the code brings back an entry for an archived topic. */
  lemma RevertKeepsIndexIff(s: Tiers, topic: string, wall: Stamp)
    requires IndexExact(s)
    ensures IndexExact(Revert(s, topic, wall).0) <==>
            !(topic in s.semantic && s.semantic[topic].status == Archived && s.semantic[topic].supersedes != [])
  {
    var s' := Revert(s, topic, wall).0;
    forall t | t != topic ensures IndexedRight(s', t) { assert IndexedRight(s, t); }
    assert IndexedRight(s, topic);
    assert IndexedRight(s', topic) <==>
           !(topic in s.semantic && s.semantic[topic].status == Archived && s.semantic[topic].supersedes != []);
  }

  // ----- the store object -----

  class MemoryStore {
    var episodic: map<string, Item>
    var semantic: map<string, Item>
    var index: map<string, Entry>

    ghost function State(): Tiers
      reads this
    {
      Tiers(episodic, semantic, index)
    }

    constructor ()
      ensures State() == Tiers(map[], map[], map[])
    {
      episodic, semantic, index := map[], map[], map[];
    }

    method IndexUpsert(i: Item)
      modifies this`index
      ensures index == old(index)[i.topic := EntryOf(i)]
    {
      index := index[i.topic := EntryOf(i)];
    }

    method IndexDrop(topic: string)
      modifies this`index
      ensures index == Drop(old(index), topic)
    {
      if topic in index { index := index - {topic}; }
    }

    method Put(item: Item, wall: Stamp)
      modifies this
      ensures State() == PutSemantic(old(State()), item, wall)
    {
      var i := item;
      if i.updated == 0 { i := i.(updated := wall); }
      i := i.(text := Strip(i.text));
      semantic := semantic[i.id := i];
      IndexUpsert(i);
    }

    method ChangeStatus(tier: Tier, id: string, status: Status, wall: Stamp) returns (found: bool)
      modifies this
      ensures (State(), found) == SetStatus(old(State()), tier, id, status, wall)
    {
      if tier == Episodic {
        if id !in episodic { return false; }
        episodic := episodic[id := episodic[id].(status := status, updated := wall)];
        return true;
      }
      if id !in semantic { return false; }
      var i := semantic[id].(status := status, updated := wall);
      semantic := semantic[id := i];
      if status == Archived {
        IndexDrop(i.topic);
      } else {
        IndexUpsert(i);
      }
      return true;
    }

    method CorroborateSemantic(topic: string, source: string, wall: Stamp) returns (done: bool)
      modifies this
      ensures (State(), done) == Corroborate(old(State()), topic, source, wall)
    {
      if topic !in semantic { return false; }
      var i := semantic[topic];
      if i.status != Active && i.status != Consolidated { return false; }
      i := i.(confidence := Lesser(95, i.confidence + 5));
      if source != "" && source !in i.sources { i := i.(sources := i.sources + [source]); }
      i := i.(updated := wall);
      Put(i, wall);
      return true;
    }

    method Access(topic: string)
      modifies this`semantic
      ensures State() == RecordAccess(old(State()), topic)
    {
      if topic in semantic {
        var i := semantic[topic];
        semantic := semantic[topic := i.(accessCount := i.accessCount + 1)];
      }
    }

    method RevertSemantic(topic: string, wall: Stamp) returns (done: bool)
      modifies this
      ensures (State(), done) == Revert(old(State()), topic, wall)
    {
      if topic !in semantic || semantic[topic].supersedes == [] { return false; }
      var i := semantic[topic];
      var n := |i.supersedes| - 1;
      var prior := i.supersedes[n];
      var restored := i.(text := Strip(prior), updated := wall, supersedes := i.supersedes[..n]);
      semantic := semantic[i.id := restored];
      IndexUpsert(restored);
      return true;
    }
  }
}
