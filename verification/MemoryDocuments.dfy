/** The memories of the tiers and the documents they are kept in are one thing: an `Item` is what its
    document says, with timestamps as numbers and confidence in hundredths. */
module MemoryDocuments {
  import opened Text
  import opened MemoryTiers
  import opened Frontmatter

  const SEMANTIC := "semantic"

  function TierName(t: Tier): string {
    match t
    case Episodic => EPISODIC
    case Semantic => SEMANTIC
  }

  function StatusName(s: Status): string {
    match s
    case Draft => "draft"
    case Active => ACTIVE
    case Consolidated => "consolidated"
    case Archived => "archived"
  }

  /** The full record of an item; `stamp` prints a timestamp. */
  function RecordOf(i: Item, tier: Tier, stamp: Stamp -> string): Memory {
    Memory(i.id, i.topic, i.text, TierName(tier), StatusName(i.status), i.confidence as real / 100.0,
           stamp(i.created), stamp(i.updated), i.sources, i.accessCount, i.supersedes)
  }

  /** An item put into a document and read back is the item with its text stripped, if and only if it has a
      topic, or no id either, and its confidence is not zero. */
  lemma StoredItemReadsBackIff(lib: Library, i: Item, tier: Tier, stamp: Stamp -> string)
    requires Converts(lib) && Faithful(lib, ToDocument(RecordOf(i, tier, stamp)).header)
    ensures FromDocument(lib, Parsed(lib, Serialized(lib, ToDocument(RecordOf(i, tier, stamp))), i.id))
            == RecordOf(i.(text := Strip(i.text)), tier, stamp)
            <==> (i.topic != "" || i.id == "") && i.confidence != 0
  {
    hide Strip, Converts, Faithful, FromDocument, Parsed, Serialized, ToDocument;
    var m := RecordOf(i, tier, stamp);
    MemoryRoundTripIff(lib, m);
    assert RecordOf(i.(text := Strip(i.text)), tier, stamp) == m.(text := Strip(m.text));
  }

  /** So what `put_semantic` leaves in the tier, as the model of the tiers has it, is what is read back. */
  lemma TierHoldsWhatIsRead(lib: Library, s: Tiers, item: Item, wall: Stamp, stamp: Stamp -> string)
    requires item.topic != "" && item.confidence != 0
    requires var dated := item.(updated := if item.updated == 0 then wall else item.updated);
             Converts(lib) && Faithful(lib, ToDocument(RecordOf(dated, Semantic, stamp)).header)
    ensures var dated := item.(updated := if item.updated == 0 then wall else item.updated);
            FromDocument(lib, Parsed(lib, Serialized(lib, ToDocument(RecordOf(dated, Semantic, stamp))), item.id))
            == RecordOf(PutSemantic(s, item, wall).semantic[item.id], Semantic, stamp)
  {
    var dated := item.(updated := if item.updated == 0 then wall else item.updated);
    hide Strip, Converts, Faithful, FromDocument, Parsed, Serialized, ToDocument, RecordOf;
    StoredItemReadsBackIff(lib, dated, Semantic, stamp);
  }
}
