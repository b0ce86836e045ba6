/** Markdown documents with a YAML header (docstore/filesystem.py) and the memories kept in them
    (memory/store.py, `to_document` and `from_document`). */
module Frontmatter {
  import opened Text

  datatype Value = Str(s: string) | Float(x: real) | Int(n: int) | List(xs: seq<string>)

  type Header = map<string, Value>

  datatype Document = Document(id: string, header: Header, body: string)

  /** The YAML library and Python's conversions: any functions. `load` answers none on an error and on
      anything that is not a mapping. */
  datatype Library = Library(
    dump: Header -> string, load: string -> Option<Header>,
    asText: Value -> string, asFloat: Value -> real, asInt: Value -> int, asList: Value -> seq<string>)

  const FENCE := "---"

  // ---- Printing and parsing -----------------------------------------------------------------------

  function RStrip(s: string): string {
    s[..Trail(s, 0, |s|)]
  }

  function Serialized(lib: Library, doc: Document): string {
    var body := RStrip(doc.body) + "\n";
    if doc.header == map[] then body
    else FENCE + "\n" + Strip(lib.dump(doc.header)) + "\n" + FENCE + "\n\n" + body
  }

  /** The end of a run of blanks and tabs. */
  function Blanks(s: string, i: nat): (j: nat)
    requires i <= |s|
    ensures i <= j <= |s|
    decreases |s| - i
  {
    if i < |s| && (s[i] == ' ' || s[i] == '\t') then Blanks(s, i + 1) else i
  }

  /** The pattern `^---[ \t]*$`, matched line by line, at i. */
  predicate FenceAt(s: string, i: nat) {
    && i + 3 <= |s| && (i == 0 || s[i - 1] == '\n') && s[i..i + 3] == FENCE
    && var j := Blanks(s, i + 3); j == |s| || s[j] == '\n'
  }

  /** Where it first matches from i on. */
  function NextFence(s: string, i: nat): (r: Option<nat>)
    requires i <= |s|
    ensures r.Some? ==> FenceAt(s, r.value)
    decreases |s| - i
  {
    if FenceAt(s, i) then Some(i) else if i == |s| then None else NextFence(s, i + 1)
  }

  /** `lstrip("\n")` */
  function DropNewlines(s: string): string {
    if s != "" && s[0] == '\n' then DropNewlines(s[1..]) else s
  }

  predicate StartsWith(s: string, prefix: string) {
    prefix <= s
  }

  /** What follows the first newline. */
  function AfterLine(s: string): string {
    if s == "" then "" else if s[0] == '\n' then s[1..] else AfterLine(s[1..])
  }

  function Parsed(lib: Library, text: string, id: string): Document {
    if StartsWith(text, "---\n") || StartsWith(text, "---\r\n") then
      var rest := AfterLine(text);
      match NextFence(rest, 0)
      case None => Document(id, map[], text)
      case Some(i) =>
        var header := match lib.load(rest[..i]) case Some(h) => h case None => map[];
        Document(id, header, DropNewlines(rest[Blanks(rest, i + 3)..]))
    else Document(id, map[], text)
  }

  /** What is asked of the library: reading a trimmed dump gives back what was dumped, and no line of it
      is a fence. */
  ghost predicate Faithful(lib: Library, header: Header) {
    var text := Strip(lib.dump(header));
    && lib.load(text + "\n") == Some(header)
    && forall i: nat :: !FenceAt(text, i)
  }

  lemma {:induction false} BlanksStopAtNewline(s: string, t: string, i: nat)
    requires i <= |s|
    ensures Blanks(s + "\n" + t, i) == Blanks(s, i)
    decreases |s| - i
  {
    if i < |s| { BlanksStopAtNewline(s, t, i + 1); }
  }

  /** A fence inside the first part is a fence of it alone. */
  lemma FenceWithin(s: string, t: string, i: nat)
    requires i <= |s| && FenceAt(s + "\n" + t, i)
    ensures FenceAt(s, i)
  {
    var whole := s + "\n" + t;
    assert whole[i..i + 3][0] == '-' && whole[i..i + 3][1] == '-' && whole[i..i + 3][2] == '-';
    assert whole[|s|] == '\n';
    assert whole[i..i + 3] == s[i..i + 3];
    BlanksStopAtNewline(s, t, i + 3);
  }

  lemma {:induction false} FirstFence(s: string, t: string, i: nat)
    requires i <= |s| + 1 && (forall k: nat :: !FenceAt(s, k)) && FenceAt(s + "\n" + t, |s| + 1)
    ensures NextFence(s + "\n" + t, i) == Some(|s| + 1)
    decreases |s| + 1 - i
  {
    if i <= |s| {
      if FenceAt(s + "\n" + t, i) { FenceWithin(s, t, i); }
      FirstFence(s, t, i + 1);
    }
  }

  lemma {:induction false} AfterFirstLine(line: string, t: string)
    requires '\n' !in line
    ensures AfterLine(line + "\n" + t) == t
  {
    var s := line + "\n" + t;
    if line == "" {
      assert s[1..] == t;
    } else {
      assert s[0] == line[0] && s[1..] == line[1..] + "\n" + t;
      AfterFirstLine(line[1..], t);
    }
  }

  lemma FenceAlone(s: string, i: nat)
    requires 0 < i && i + 4 <= |s| && s[i - 1] == '\n' && s[i..i + 3] == FENCE && s[i + 3] == '\n'
    ensures FenceAt(s, i) && Blanks(s, i + 3) == i + 3
  {}

  lemma Joined(a: string, b: string)
    ensures (a + b)[..|a|] == a && (a + b)[|a|..] == b
  {}

  lemma FenceBegins(t: string)
    ensures var fence := FENCE + "\n" + t;
            |fence| >= 4 && fence[0..3] == FENCE && fence[3] == '\n' && fence[3..] == "\n" + t
  {
    Joined(FENCE, "\n" + t);
    assert FENCE + "\n" + t == FENCE + ("\n" + t);
    assert (FENCE + "\n" + t)[0..3] == (FENCE + "\n" + t)[..3];
  }

  lemma FenceAfter(a: string, fence: string)
    requires a != "" && a[|a| - 1] == '\n' && |fence| >= 4 && fence[0..3] == FENCE && fence[3] == '\n'
    ensures var s := a + fence; FenceAt(s, |a|) && Blanks(s, |a| + 3) == |a| + 3 && s[|a| + 3..] == fence[3..]
  {
    hide FenceAt, Blanks;
    var s := a + fence;
    Joined(a, fence);
    assert s[|a| - 1] == a[|a| - 1] && s[|a| + 3] == fence[3];
    SliceOfDrop(s, |a|, 0, 3);
    FenceAlone(s, |a|);
  }

  /** A fence on a line of its own is one wherever a line ends before it. */
  lemma FenceLine(a: string, t: string)
    requires a != "" && a[|a| - 1] == '\n'
    ensures var s := a + (FENCE + "\n" + t);
            && FenceAt(s, |a|) && Blanks(s, |a| + 3) == |a| + 3
            && s[..|a|] == a && s[|a| + 3..] == "\n" + t
  {
    hide FenceAt, Blanks;
    var fence := FENCE + "\n" + t;
    FenceBegins(t);
    FenceAfter(a, fence);
    Joined(a, fence);
  }

  /** A header, the closing fence on a line of its own, and what follows. */
  lemma ClosingFence(h: string, t: string)
    requires forall k: nat :: !FenceAt(h, k)
    ensures var rest := h + "\n" + (FENCE + "\n" + t);
            && NextFence(rest, 0) == Some(|h| + 1) && rest[..|h| + 1] == h + "\n"
            && Blanks(rest, |h| + 4) == |h| + 4 && rest[|h| + 4..] == "\n" + t
  {
    hide FenceAt, NextFence, Blanks;
    FenceLine(h + "\n", t);
    FirstFence(h, FENCE + "\n" + t, 0);
  }

  /** Parsing what was printed gives the header back, and the body up to its outer whitespace; lines of
      the body that look like fences do not matter. */
  lemma ParsingAPrintedDocument(lib: Library, doc: Document)
    requires doc.header != map[] && Faithful(lib, doc.header)
    ensures Parsed(lib, Serialized(lib, doc), doc.id)
            == Document(doc.id, doc.header, DropNewlines(RStrip(doc.body) + "\n"))
  {
    var h, body := Strip(lib.dump(doc.header)), RStrip(doc.body) + "\n";
    var text := Serialized(lib, doc);
    var rest := h + "\n" + (FENCE + "\n" + ("\n" + body));
    hide Strip, RStrip, FenceAt, AfterLine, Blanks, NextFence;
    assert text == FENCE + "\n" + rest;
    AfterFirstLine(FENCE, rest);
    ClosingFence(h, "\n" + body);
    TwoNewlinesDropped(body);
  }

  lemma TwoNewlinesDropped(body: string)
    ensures DropNewlines("\n" + ("\n" + body)) == DropNewlines(body)
  {
    assert ("\n" + ("\n" + body))[1..] == "\n" + body && ("\n" + body)[1..] == body;
  }

  /** A document without a header reads back as it was printed if and only if its text does not open
      with a fence that is closed further on. */
  lemma PlainDocumentReadsBackIff(lib: Library, doc: Document)
    requires doc.header == map[]
    ensures var text := Serialized(lib, doc);
            Parsed(lib, text, doc.id) == Document(doc.id, map[], text)
            <==> !((StartsWith(text, "---\n") || StartsWith(text, "---\r\n")) && NextFence(AfterLine(text), 0).Some?)
  {
    var text := Serialized(lib, doc);
    var rest := AfterLine(text);
    AfterLineShorter(text);
    if NextFence(rest, 0).Some? {
      DropNewlinesShorter(rest[Blanks(rest, NextFence(rest, 0).value + 3)..]);
    }
  }

  lemma {:induction false} AfterLineShorter(s: string)
    ensures |AfterLine(s)| <= |s| && (s != "" ==> |AfterLine(s)| < |s|)
  {
    if s != "" { AfterLineShorter(s[1..]); }
  }

  lemma {:induction false} DropNewlinesShorter(s: string)
    ensures |DropNewlines(s)| <= |s|
  {
    if s != "" { DropNewlinesShorter(s[1..]); }
  }

  // ---- Memories -----------------------------------------------------------------------------------

  datatype Memory = Memory(
    id: string, topic: string, text: string, memoryType: string, status: string, confidence: real,
    created: string, updated: string, sources: seq<string>, accessCount: int, supersedes: seq<string>)

  const EPISODIC := "episodic"
  const ACTIVE := "active"

  function ToDocument(m: Memory): Document {
    var header: Header := map[
      "topic" := Str(m.topic), "memory_type" := Str(m.memoryType), "status" := Str(m.status),
      "confidence" := Float(m.confidence), "created" := Str(m.created), "updated" := Str(m.updated),
      "access_count" := Int(m.accessCount)];
    var header := if m.sources != [] then header["sources" := List(m.sources)] else header;
    var header := if m.supersedes != [] then header["supersedes" := List(m.supersedes)] else header;
    Document(m.id, header, Strip(m.text) + "\n")
  }

  predicate Truthy(v: Value) {
    match v
    case Str(s) => s != ""
    case Float(x) => x != 0.0
    case Int(n) => n != 0
    case List(xs) => xs != []
  }

  /** `get(key) or default`: present and truthy. */
  predicate Has(header: Header, key: string) {
    key in header && Truthy(header[key])
  }

  function FromDocument(lib: Library, doc: Document): Memory {
    var h := doc.header;
    Memory(
      doc.id,
      if Has(h, "topic") then lib.asText(h["topic"]) else doc.id,
      Strip(doc.body),
      if Has(h, "memory_type") then lib.asText(h["memory_type"]) else EPISODIC,
      if Has(h, "status") then lib.asText(h["status"]) else ACTIVE,
      if Has(h, "confidence") then lib.asFloat(h["confidence"]) else 0.5,
      if Has(h, "created") then lib.asText(h["created"]) else "",
      if Has(h, "updated") then lib.asText(h["updated"]) else "",
      if Has(h, "sources") then lib.asList(h["sources"]) else [],
      if Has(h, "access_count") then lib.asInt(h["access_count"]) else 0,
      if Has(h, "supersedes") then lib.asList(h["supersedes"]) else [])
  }

  /** Conversions leave values of their own type alone. */
  ghost predicate Converts(lib: Library) {
    && (forall s :: lib.asText(Str(s)) == s) && (forall x :: lib.asFloat(Float(x)) == x)
    && (forall n :: lib.asInt(Int(n)) == n) && forall xs :: lib.asList(List(xs)) == xs
  }

  /** The fields that survive the document form on their own. */
  ghost predicate Survives(m: Memory) {
    (m.topic != "" || m.id == "") && m.memoryType != "" && m.status != "" && m.confidence != 0.0
  }

  /** Stripping outer whitespace once more, on either side of the newline printing puts there. */
  lemma {:induction false} DroppedThenStripped(s: string)
    ensures Strip(DropNewlines(s)) == Strip(s)
  {
    if s != "" && s[0] == '\n' {
      DroppedThenStripped(s[1..]);
      assert s == "\n" + s[1..] + "";
      StripPadded("\n", s[1..], "");
    }
  }

  lemma BodyReadsBack(text: string)
    ensures Strip(DropNewlines(RStrip(Strip(text) + "\n") + "\n")) == Strip(text)
  {
    var t := Strip(text);
    var s := t + "\n";
    var k := Trail(s, 0, |s|);
    TrailSkips(s, 0, |s|);
    StripAgain(text);
    hide Strip, Trail, DropNewlines;
    DroppedThenStripped(RStrip(s) + "\n");
    assert "" + RStrip(s) + "\n" == RStrip(s) + "\n";
    StripPadded("", RStrip(s), "\n");
    assert "" + s[..k] + s[k..] == s;
    StripPadded("", s[..k], s[k..]);
    assert "" + t + "\n" == s;
    StripPadded("", t, "\n");
  }

  lemma Entries(m: Memory)
    ensures var h := ToDocument(m).header;
            && "topic" in h && h["topic"] == Str(m.topic)
            && "memory_type" in h && h["memory_type"] == Str(m.memoryType)
            && "status" in h && h["status"] == Str(m.status)
            && "confidence" in h && h["confidence"] == Float(m.confidence)
            && "created" in h && h["created"] == Str(m.created)
            && "updated" in h && h["updated"] == Str(m.updated)
            && "access_count" in h && h["access_count"] == Int(m.accessCount)
            && ("sources" in h <==> m.sources != []) && (m.sources != [] ==> h["sources"] == List(m.sources))
            && ("supersedes" in h <==> m.supersedes != []) && (m.supersedes != [] ==> h["supersedes"] == List(m.supersedes))
  {
    hide Strip;
  }

  /** The header and the conversions, without the text in between. */
  lemma HeaderReadsBackIff(lib: Library, m: Memory, body: string)
    requires Converts(lib)
    ensures FromDocument(lib, ToDocument(m).(body := body)) == m.(text := Strip(body)) <==> Survives(m)
  {
    assert ToDocument(m).id == m.id;
    Entries(m);
    hide Strip, ToDocument;
  }

  /** Printing a memory and parsing it returns it, with its text stripped, if and only if its topic,
      type, status and confidence are ones the defaults do not replace. */
  lemma MemoryRoundTripIff(lib: Library, m: Memory)
    requires Converts(lib) && Faithful(lib, ToDocument(m).header)
    ensures FromDocument(lib, Parsed(lib, Serialized(lib, ToDocument(m)), m.id)) == m.(text := Strip(m.text))
            <==> Survives(m)
  {
    var doc := ToDocument(m);
    assert "topic" in doc.header;
    ParsingAPrintedDocument(lib, doc);
    BodyReadsBack(m.text);
    HeaderReadsBackIff(lib, m, DropNewlines(RStrip(doc.body) + "\n"));
    hide Faithful, Converts, Survives, FromDocument, Serialized, Parsed, Strip;
  }
}
