/** Splitting a shell command into segments, and the metacharacter scan
    (permissions/broadening.py). */
module ShellSplit {
  import opened Text

  datatype Quote = Unquoted | Single | Double

  /** A separator; `End` is the empty one after the last segment. */
  datatype Sep = And | Or | Pipe | Semi | End {
    function Text(): string {
      match this
      case And => "&&"
      case Or => "||"
      case Pipe => "|"
      case Semi => ";"
      case End => ""
    }

    function Len(): nat {
      match this
      case And => 2
      case Or => 2
      case Pipe => 1
      case Semi => 1
      case End => 0
    }
  }

  /** One segment and the separator that follows it. */
  datatype Piece = Piece(segment: string, sep: Sep)

  // ----- one scanning step -----

  /** The separator at position i of unquoted text, `End` if there is none. */
  function SepAt(s: string, i: nat): (sep: Sep)
    requires i <= |s|
    ensures i + sep.Len() <= |s|
  {
    if i + 1 < |s| && s[i] == '&' && s[i + 1] == '&' then And
    else if i + 1 < |s| && s[i] == '|' && s[i + 1] == '|' then Or
    else if i < |s| && s[i] == '|' then Pipe
    else if i < |s| && s[i] == ';' then Semi
    else End
  }

  predicate AtSep(s: string, i: nat, q: Quote)
    requires i <= |s|
  {
    q == Unquoted && SepAt(s, i) != End
  }

  /** A backslash takes the next character with it, except inside single quotes. */
  function Width(s: string, i: nat, q: Quote): (w: nat)
    requires i < |s|
    ensures 1 <= w <= 2 && i + w <= |s|
  {
    if q != Single && s[i] == '\\' && i + 1 < |s| then 2 else 1
  }

  function After(c: char, q: Quote): Quote {
    match q
    case Unquoted => if c == '\'' then Single else if c == '"' then Double else Unquoted
    case Single => if c == '\'' then Unquoted else Single
    case Double => if c == '"' then Unquoted else Double
  }

  // ----- what the splitter computes -----

  /** Where the text from i on meets its first unquoted separator or ends, and the quote state there. */
  ghost function Cut(s: string, i: nat, q: Quote): (r: (nat, Quote))
    requires i <= |s|
    ensures i <= r.0 <= |s|
    ensures r.0 < |s| ==> AtSep(s, r.0, r.1)
    decreases |s| - i
  {
    if i == |s| || AtSep(s, i, q) then (i, q) else Cut(s, i + Width(s, i, q), After(s[i], q))
  }

  /** The segments from i on; None when a segment is blank or a quote stays open. */
  ghost function SplitFrom(s: string, i: nat): (r: Option<seq<Piece>>)
    requires i <= |s|
    ensures r.Some? ==> r.value != []
    decreases |s| - i
  {
    var (k, q) := Cut(s, i, Unquoted);
    var segment := Strip(s[i..k]);
    if segment == "" then None
    else if k == |s| then
      if q == Unquoted then Some([Piece(segment, End)]) else None
    else
      Glue([Piece(segment, SepAt(s, k))], SplitFrom(s, k + SepAt(s, k).Len()))
  }

  ghost function Glue(pairs: seq<Piece>, rest: Option<seq<Piece>>): Option<seq<Piece>> {
    if rest.None? then None else Some(pairs + rest.value)
  }

  ghost function Split(s: string): Option<seq<Piece>> {
    SplitFrom(s, 0)
  }

  lemma {:induction false} BlankCut(s: string, i: nat)
    requires AllSpace(s) && i <= |s|
    ensures Cut(s, i, Unquoted) == (|s|, Unquoted)
    decreases |s| - i
  {
    if i < |s| { BlankCut(s, i + 1); }
  }

  lemma BlankNeverSplits(s: string)
    requires Strip(s) == ""
    ensures Split(s) == None
  {
    var i, j := StripSlice(s);
    assert s == s[..i] + s[i..j] + s[j..];
    BlankCut(s, 0);
    assert s[0..|s|] == s;
  }

  lemma SplitAtSep(s: string, i: nat, k: nat)
    requires i <= k <= |s| && Cut(s, i, Unquoted) == (k, Unquoted) && AtSep(s, k, Unquoted)
    ensures var sep := SepAt(s, k);
            SplitFrom(s, i) == if Strip(s[i..k]) == "" then None
                               else Glue([Piece(Strip(s[i..k]), sep)], SplitFrom(s, k + sep.Len()))
  {
    hide Strip;
  }

  lemma SplitAtEnd(s: string, i: nat, q: Quote)
    requires i <= |s| && Cut(s, i, Unquoted) == (|s|, q)
    ensures SplitFrom(s, i) == if q == Unquoted && Strip(s[i..|s|]) != ""
                               then Some([Piece(Strip(s[i..|s|]), End)]) else None
  {
  }

  lemma GlueGlue(a: seq<Piece>, b: seq<Piece>, r: Option<seq<Piece>>)
    ensures Glue(a, Glue(b, r)) == Glue(a + b, r)
  {
    if r.Some? { assert a + (b + r.value) == (a + b) + r.value; }
  }

  /** Where the loop stands: `pairs` are cut off, the current segment began at start,
      and the scan is at i in state q. */
  ghost predicate Scanning(s: string, pairs: seq<Piece>, start: nat, i: nat, q: Quote) {
    && start <= i <= |s|
    && Cut(s, start, Unquoted) == Cut(s, i, q)
    && Split(s) == Glue(pairs, SplitFrom(s, start))
  }

  lemma ScanStart(s: string)
    ensures Scanning(s, [], 0, 0, Unquoted)
  {
    if Split(s).Some? { assert [] + Split(s).value == Split(s).value; }
  }

  lemma ScanChar(s: string, pairs: seq<Piece>, start: nat, i: nat, q: Quote)
    requires Scanning(s, pairs, start, i, q) && i < |s| && !AtSep(s, i, q)
    ensures Scanning(s, pairs, start, i + Width(s, i, q), After(s[i], q))
  {
  }

  lemma ScanSep(s: string, pairs: seq<Piece>, start: nat, i: nat, segment: string, sep: Sep)
    requires Scanning(s, pairs, start, i, Unquoted) && AtSep(s, i, Unquoted)
    requires segment == Strip(s[start..i]) && sep == SepAt(s, i)
    ensures segment == "" ==> Split(s) == None
    ensures segment != "" ==>
              Scanning(s, pairs + [Piece(segment, sep)], i + sep.Len(), i + sep.Len(), Unquoted)
  {
    hide Strip;
    var cutOff, rest := pairs + [Piece(segment, sep)], SplitFrom(s, i + sep.Len());
    assert Split(s) == if segment == "" then None else Glue(cutOff, rest) by {
      SplitAtSep(s, start, i);
      GlueGlue(pairs, [Piece(segment, sep)], rest);
    }
  }

  lemma ScanEnd(s: string, pairs: seq<Piece>, start: nat, q: Quote)
    requires Scanning(s, pairs, start, |s|, q)
    ensures var segment := Strip(s[start..]);
            Split(s) == if q == Unquoted && segment != "" then Some(pairs + [Piece(segment, End)]) else None
  {
    assert s[start..|s|] == s[start..];
  }

  /** The splitter's loop. */
  method SplitCompound(command: string) returns (r: Option<seq<Piece>>)
    ensures r == Split(command)
  {
    hide Strip;
    if Strip(command) == "" {
      BlankNeverSplits(command);
      return None;
    }
    var pairs: seq<Piece> := [];
    var buf: string := "";
    var i, n, state := 0, |command|, Unquoted;
    ghost var start: nat := 0;
    ScanStart(command);
    while i < n
      invariant start <= i <= n && buf == command[start..i]
      invariant Scanning(command, pairs, start, i, state)
    {
      if AtSep(command, i, state) {
        var sep := SepAt(command, i);
        var segment := Strip(buf);
        ScanSep(command, pairs, start, i, segment, sep);
        if segment == "" { return None; }
        pairs := pairs + [Piece(segment, sep)];
        buf := "";
        i := i + sep.Len();
        start := i;
      } else {
        ScanChar(command, pairs, start, i, state);
        var c, w := command[i], Width(command, i, state);
        assert buf + command[i..i + w] == command[start..i + w];
        buf := buf + command[i..i + w];
        i := i + w;
        state := After(c, state);
      }
    }
    ScanEnd(command, pairs, start, state);
    if state != Unquoted { return None; }
    var trailing := Strip(buf);
    if trailing == "" { return None; }
    return Some(pairs + [Piece(trailing, End)]);
  }

  // ----- a segment the splitter made is one whole segment again -----

  /** Text that the splitter leaves alone: trimmed, not blank, no separator outside quotes, quotes closed. */
  ghost predicate Whole(segment: string) {
    segment != "" && Strip(segment) == segment && Cut(segment, 0, Unquoted) == (|segment|, Unquoted)
  }

  lemma WholeSplits(segment: string)
    requires Whole(segment)
    ensures Split(segment) == Some([Piece(segment, End)])
  {
    assert segment[0..|segment|] == segment;
  }

  lemma CutStep(s: string, i: nat, q: Quote)
    requires i <= |s|
    ensures Cut(s, i, q) == if i == |s| || AtSep(s, i, q) then (i, q) else Cut(s, i + Width(s, i, q), After(s[i], q))
  {}

  /** The cut looks only at what lies ahead. */
  lemma {:induction false} CutShift(t: string, a: nat, s: string, i: nat, q: Quote)
    requires a <= |t| && t[a..] == s && i <= |s|
    ensures var r := Cut(s, i, q); Cut(t, a + i, q) == (a + r.0, r.1)
    ensures SepAt(t, a + i) == SepAt(s, i)
    decreases |s| - i
  {
    assert i < |s| ==> s[i] == t[a + i];
    assert i + 1 < |s| ==> s[i + 1] == t[a + i + 1];
    if i < |s| && !AtSep(s, i, q) {
      assert Width(t, a + i, q) == Width(s, i, q);
      CutShift(t, a, s, i + Width(s, i, q), After(s[i], q));
    }
  }

  /** Dropping what lies beyond the cut does not move it. */
  lemma {:induction false} CutInside(s: string, i: nat, q: Quote, k: nat, e: Quote)
    requires i <= k <= |s| && Cut(s, i, q) == (k, e)
    ensures Cut(s[..k], i, q) == (k, e)
    decreases k - i
  {
    var t := s[..k];
    assert i < k ==> t[i] == s[i];
    assert i + 1 < k ==> t[i + 1] == s[i + 1];
    hide Cut;
    CutStep(s, i, q);
    CutStep(t, i, q);
    if i < k {
      CutInside(s, i + Width(s, i, q), After(s[i], q), k, e);
    }
  }

  lemma {:induction false} CutTrimEnd(s: string, i: nat, q: Quote)
    requires i < |s| && IsSpace(s[|s| - 1]) && Cut(s, i, q) == (|s|, Unquoted)
    ensures Cut(s[..|s| - 1], i, q) == (|s| - 1, Unquoted)
    decreases |s| - i
  {
    var t := s[..|s| - 1];
    assert forall x :: 0 <= x < |t| ==> t[x] == s[x];
    var j := i + Width(s, i, q);
    if j < |s| {
      CutTrimEnd(s, j, After(s[i], q));
      assert Width(t, i, q) == Width(s, i, q);
    } else if i < |s| - 1 {
      assert Cut(t, i, q) == Cut(t, i + 1, After(s[i], q));
    }
  }

  lemma {:induction false} CutSkipsSpaces(s: string, i: nat)
    requires i <= |s| && forall k :: 0 <= k < i ==> IsSpace(s[k])
    ensures Cut(s, 0, Unquoted) == Cut(s, i, Unquoted)
  {
    if i > 0 {
      CutSkipsSpaces(s, i - 1);
      SpaceCut(s, i - 1);
    }
  }

  lemma SpaceCut(s: string, i: nat)
    requires i < |s| && IsSpace(s[i])
    ensures Cut(s, i, Unquoted) == Cut(s, i + 1, Unquoted)
  {}

  lemma {:induction false} CutWithoutTail(s: string, j: nat)
    requires j <= |s| && forall k :: j <= k < |s| ==> IsSpace(s[k])
    requires Cut(s, 0, Unquoted) == (|s|, Unquoted)
    ensures Cut(s[..j], 0, Unquoted) == (j, Unquoted)
    decreases |s|
  {
    hide IsSpace, Cut;
    if j < |s| {
      CutTrimEnd(s, 0, Unquoted);
      var t := s[..|s| - 1];
      assert t[..j] == s[..j];
      CutWithoutTail(t, j);
    } else {
      assert s[..j] == s;
    }
  }

  lemma CutTrimmed(s: string, i: nat, j: nat)
    requires i <= j <= |s| && AllSpace(s[..i]) && AllSpace(s[j..])
    requires Cut(s, 0, Unquoted) == (|s|, Unquoted)
    ensures Cut(s[i..j], 0, Unquoted) == (j - i, Unquoted)
  {
    hide IsSpace, Cut;
    forall k | 0 <= k < i ensures IsSpace(s[k]) { assert s[..i][k] == s[k]; }
    forall k | j <= k < |s| ensures IsSpace(s[k]) { assert s[j..][k - j] == s[k]; }
    CutWithoutTail(s, j);
    var t := s[..j];
    assert forall k :: 0 <= k < i ==> t[k] == s[k];
    CutSkipsSpaces(t, i);
    assert t[i..] == s[i..j];
    CutShift(t, i, s[i..j], 0, Unquoted);
  }

  /** The text between two cuts, trimmed, is whole. */
  lemma CutGivesWhole(s: string, i: nat, k: nat)
    requires i <= k <= |s| && Cut(s, i, Unquoted) == (k, Unquoted) && Strip(s[i..k]) != ""
    ensures Whole(Strip(s[i..k]))
  {
    hide Cut, Strip;
    CutInside(s, i, Unquoted, k, Unquoted);
    var raw := s[i..k];
    assert s[..k][i..] == raw;
    CutShift(s[..k], i, raw, 0, Unquoted);
    var a, b := StripSlice(raw);
    CutTrimmed(raw, a, b);
    StripAgain(raw);
  }

  /** What every successful split looks like. */
  ghost predicate WellFormed(ps: seq<Piece>) {
    && ps != []
    && (forall k :: 0 <= k < |ps| ==> Whole(ps[k].segment))
    && (forall k :: 0 <= k < |ps| - 1 ==> ps[k].sep != End)
    && ps[|ps| - 1].sep == End
  }

  lemma {:induction false} SplitFromWellFormed(s: string, i: nat)
    requires i <= |s| && SplitFrom(s, i).Some?
    ensures WellFormed(SplitFrom(s, i).value)
    decreases |s| - i
  {
    hide Strip;
    var (k, q) := Cut(s, i, Unquoted);
    if k < |s| {
      var p, next := Piece(Strip(s[i..k]), SepAt(s, k)), k + SepAt(s, k).Len();
      SplitAtSep(s, i, k);
      CutGivesWhole(s, i, k);
      SplitFromWellFormed(s, next);
      WellFormedCons(p, SplitFrom(s, next).value);
    } else {
      SplitAtEnd(s, i, q);
      CutGivesWhole(s, i, k);
    }
  }

  lemma WellFormedCons(p: Piece, ps: seq<Piece>)
    requires Whole(p.segment) && p.sep != End && WellFormed(ps)
    ensures WellFormed([p] + ps)
  {
  }

  /** Each segment of a split splits into itself. */
  lemma SegmentsResplit(s: string, k: nat)
    requires Split(s).Some? && k < |Split(s).value|
    ensures var segment := Split(s).value[k].segment;
            segment != "" && Strip(segment) == segment && Split(segment) == Some([Piece(segment, End)])
  {
    SplitFromWellFormed(s, 0);
    WholeSplits(Split(s).value[k].segment);
  }

  // ----- the splitter is a homomorphism -----

  /** `ps` with its last segment followed by sep. */
  ghost function LinkTo(ps: seq<Piece>, sep: Sep): seq<Piece>
    requires ps != []
  {
    ps[..|ps| - 1] + [Piece(ps[|ps| - 1].segment, sep)]
  }

  /** t continues c with a spaced separator. */
  ghost predicate Continues(t: string, c: string, sep: Sep) {
    && sep != End
    && |c| + 2 + sep.Len() <= |t|
    && t[..|c|] == c && t[|c|] == ' ' && t[|c| + 1..|c| + 1 + sep.Len()] == sep.Text() && t[|c| + 1 + sep.Len()] == ' '
  }

  lemma SepAhead(t: string, c: string, sep: Sep)
    requires Continues(t, c, sep)
    ensures SepAt(t, |c| + 1) == sep && SepAt(t, |c|) == End
  {
    assert forall x :: 0 <= x < sep.Len() ==> t[|c| + 1 + x] == sep.Text()[x];
  }

  /** Before the separator, one step in the longer text is one step in c, except that a last backslash
      also takes the space. */
  lemma SameStep(t: string, c: string, sep: Sep, i: nat, q: Quote)
    requires Continues(t, c, sep) && i < |c|
    ensures t[i] == c[i] && SepAt(t, i) == SepAt(c, i)
    ensures Width(t, i, q) == if i + 1 == |c| && q != Single && c[i] == '\\' then 2 else Width(c, i, q)
  {
    assert t[i] == t[..|c|][i] == c[i];
    assert i + 1 < |c| ==> t[i + 1] == t[..|c|][i + 1] == c[i + 1];
  }

  lemma PlainSpace(t: string, i: nat)
    requires i < |t| && t[i] == ' '
    ensures Width(t, i, Unquoted) == 1 && After(t[i], Unquoted) == Unquoted
  {}

  lemma {:induction false} CutContinues(t: string, c: string, sep: Sep, i: nat, q: Quote)
    requires Continues(t, c, sep) && i <= |c|
    ensures var r := Cut(c, i, q);
            && (r.0 < |c| ==> Cut(t, i, q) == r && SepAt(t, r.0) == SepAt(c, r.0))
            && (r == (|c|, Unquoted) ==> Cut(t, i, q) == (|c| + 1, Unquoted))
    decreases |c| - i
  {
    hide Cut, SepAt, Width;
    SepAhead(t, c, sep);
    CutStep(c, i, q);
    CutStep(t, i, q);
    CutStep(t, |c| + 1, q);
    if i < |c| {
      SameStep(t, c, sep, i, q);
      hide Continues;
      if AtSep(c, i, q) {
      } else if i + 1 == |c| && q != Single && c[i] == '\\' {
        CutStep(c, |c|, q);
      } else {
        CutContinues(t, c, sep, i + Width(c, i, q), After(c[i], q));
      }
    } else {
      PlainSpace(t, |c|);
    }
  }

  /** After a spaced separator the split starts afresh. */
  lemma {:induction false} SplitFromShift(t: string, a: nat, s: string, i: nat)
    requires a <= |t| && t[a..] == s && i <= |s|
    ensures SplitFrom(t, a + i) == SplitFrom(s, i)
    decreases |s| - i
  {
    hide Strip, Cut, SplitFrom, SepAt;
    var (k, q) := Cut(s, i, Unquoted);
    CutShift(t, a, s, i, Unquoted);
    CutShift(t, a, s, k, Unquoted);
    SliceOfDrop(t, a, i, k);
    if k < |s| {
      SplitAtSep(s, i, k);
      SplitAtSep(t, a + i, a + k);
      SplitFromShift(t, a, s, k + SepAt(s, k).Len());
    } else {
      SplitAtEnd(s, i, q);
      SplitAtEnd(t, a + i, q);
    }
  }

  lemma CutSkipsSpace(t: string)
    requires t != "" && t[0] == ' '
    ensures Cut(t, 0, Unquoted) == Cut(t, 1, Unquoted)
  {
  }

  lemma LeadingSpace(d: string)
    ensures Split(" " + d) == Split(d)
  {
    hide Strip, Cut, SplitFrom, SepAt;
    var t := " " + d;
    assert t[1..] == d;
    var (k, q) := Cut(d, 0, Unquoted);
    CutShift(t, 1, d, 0, Unquoted);
    CutShift(t, 1, d, k, Unquoted);
    CutSkipsSpace(t);
    assert t[0..1 + k] == " " + d[0..k] + "";
    StripPadded(" ", d[0..k], "");
    if k < |d| {
      SplitAtSep(d, 0, k);
      SplitAtSep(t, 0, 1 + k);
      SplitFromShift(t, 1, d, k + SepAt(d, k).Len());
    } else {
      SplitAtEnd(d, 0, q);
      SplitAtEnd(t, 0, q);
    }
  }

  lemma {:induction false} SplitFromContinues(t: string, c: string, sep: Sep, i: nat)
    requires Continues(t, c, sep) && i <= |c| && SplitFrom(c, i).Some?
    ensures SplitFrom(t, i) == Glue(LinkTo(SplitFrom(c, i).value, sep), SplitFrom(t, |c| + 1 + sep.Len()))
    decreases |c| - i
  {
    hide Strip, Cut, SplitFrom, SepAt;
    var (k, q) := Cut(c, i, Unquoted);
    CutContinues(t, c, sep, i, Unquoted);
    var tail := SplitFrom(t, |c| + 1 + sep.Len());
    if k < |c| {
      var here := SepAt(c, k);
      SliceOfTake(t, |c|, i, k);
      SplitAtSep(c, i, k);
      SplitAtSep(t, i, k);
      SplitFromContinues(t, c, sep, k + here.Len());
      var p, ps := Piece(Strip(c[i..k]), here), SplitFrom(c, k + here.Len()).value;
      assert LinkTo([p] + ps, sep) == [p] + LinkTo(ps, sep);
      GlueGlue([p], LinkTo(ps, sep), tail);
    } else {
      SplitAtEnd(c, i, q);
      SepAhead(t, c, sep);
      SliceOfTake(t, |c|, i, |c|);
      assert t[i..|c| + 1] == "" + t[i..|c|] + " ";
      StripPadded("", c[i..|c|], " ");
      SplitAtSep(t, i, |c| + 1);
      var segment := Strip(c[i..|c|]);
      assert LinkTo([Piece(segment, End)], sep) == [Piece(segment, sep)];
    }
  }

  /** Where the parts of `c sep d` lie. */
  lemma PartsOf(c: string, sep: Sep, d: string)
    ensures var t, a := c + " " + sep.Text() + " " + d, |c| + 1 + sep.Len();
            && |t| == a + 1 + |d| && t[..|c|] == c && t[|c|] == ' '
            && t[|c| + 1..a] == sep.Text() && t[a..] == " " + d
  {
    var u := sep.Text();
    var t, a := c + " " + u + " " + d, |c| + 1 + sep.Len();
    assert |u| == sep.Len();
    assert t[..|c|] == c;
    assert t == (c + " ") + (u + (" " + d));
    assert t[|c| + 1..] == u + (" " + d);
    assert t[|c| + 1..][..|u|] == u && t[|c| + 1..][|u|..] == " " + d;
  }

  /** Splitting `c sep d` is splitting c, then splitting d, for every d, splittable or not. */
  lemma SplitIsHomomorphism(c: string, sep: Sep, d: string)
    requires Split(c).Some? && sep != End
    ensures Split(c + " " + sep.Text() + " " + d) == Glue(LinkTo(Split(c).value, sep), Split(d))
  {
    hide Strip, Cut, SplitFrom, SepAt;
    var t := c + " " + sep.Text() + " " + d;
    PartsOf(c, sep, d);
    SplitFromContinues(t, c, sep, 0);
    var a := |c| + 1 + sep.Len();
    SplitFromShift(t, a, " " + d, 0);
    LeadingSpace(d);
  }

  /** The segments written out with their separators, spaced. */
  function Join(ps: seq<Piece>): string {
    if ps == [] then ""
    else if |ps| == 1 then ps[0].segment
    else ps[0].segment + " " + ps[0].sep.Text() + " " + Join(ps[1..])
  }

  lemma {:induction false} SplitOfJoin(ps: seq<Piece>)
    requires WellFormed(ps)
    ensures Split(Join(ps)) == Some(ps)
  {
    var p := ps[0];
    WholeSplits(p.segment);
    if |ps| == 1 {
      assert ps == [p];
    } else {
      assert WellFormed(ps[1..]);
      SplitOfJoin(ps[1..]);
      SplitIsHomomorphism(p.segment, p.sep, Join(ps[1..]));
      assert LinkTo([Piece(p.segment, End)], p.sep) == [p];
      assert [p] + ps[1..] == ps;
    }
  }

  /** Writing a split out with spaced separators loses nothing. */
  lemma SplitJoinRoundTrip(s: string)
    requires Split(s).Some?
    ensures Split(Join(Split(s).value)) == Split(s)
  {
    SplitFromWellFormed(s, 0);
    SplitOfJoin(Split(s).value);
  }

  // ----- the metacharacter scan -----

  /** Characters the broadener cannot handle, by quote state. */
  predicate Danger(c: char, q: Quote) {
    match q
    case Unquoted => c in {'(', ')', '$', '`', '<', '>', '{', '}'}
    case Single => false
    case Double => c in {'$', '`'}
  }

  /** What the scan reports: a dangerous character in force, or a quote left open. */
  ghost predicate Unsafe(s: string, i: nat, q: Quote)
    requires i <= |s|
    decreases |s| - i
  {
    if i == |s| then q != Unquoted
    else Danger(s[i], q) || Unsafe(s, i + Width(s, i, q), After(s[i], q))
  }

  /** Some character from i on that is dangerous in its quote state. */
  ghost predicate Exposed(s: string, i: nat, q: Quote)
    requires i <= |s|
    decreases |s| - i
  {
    i < |s| && (Danger(s[i], q) || Exposed(s, i + Width(s, i, q), After(s[i], q)))
  }

  /** The scan's loop. */
  method HasUnsafeMetachars(segment: string) returns (r: bool)
    ensures r == Unsafe(segment, 0, Unquoted)
  {
    var i, n, state := 0, |segment|, Unquoted;
    while i < n
      invariant 0 <= i <= n
      invariant Unsafe(segment, 0, Unquoted) == Unsafe(segment, i, state)
    {
      var c := segment[i];
      if Danger(c, state) { return true; }
      i := i + Width(segment, i, state);
      state := After(c, state);
    }
    return state != Unquoted;
  }

  /** The quote state at the end of the text. */
  ghost function EndState(s: string, i: nat, q: Quote): Quote
    requires i <= |s|
    decreases |s| - i
  {
    if i == |s| then q else EndState(s, i + Width(s, i, q), After(s[i], q))
  }

  /** On any text the scan fires on a dangerous character in force, or because a quote is open at the end. */
  lemma {:induction false} ScanFiresIff(s: string, i: nat, q: Quote)
    requires i <= |s|
    ensures Unsafe(s, i, q) <==> Exposed(s, i, q) || EndState(s, i, q) != Unquoted
    decreases |s| - i
  {
    if i < |s| { ScanFiresIff(s, i + Width(s, i, q), After(s[i], q)); }
  }

  /** The broadener scans a segment with its harmless redirects taken out. Whatever that leaves, the scan
      is exact if and only if a character is exposed or the quotes close. */
  lemma CleanedScanIsExactIff(segment: string, clean: string -> string)
    ensures var cleaned := clean(segment);
            (Unsafe(cleaned, 0, Unquoted) <==> Exposed(cleaned, 0, Unquoted))
            <==> Exposed(cleaned, 0, Unquoted) || EndState(cleaned, 0, Unquoted) == Unquoted
  {
    ScanFiresIff(clean(segment), 0, Unquoted);
  }

  /** A backslash with the space it takes, a redirect, and a pair of quotes. */
  ghost predicate IsQuotedRedirect(s: string) {
    |s| == 7 && s[0] == '\\' && s[1] == ' ' && s[2] == '>' && s[3] == '&' && s[4] == '1' && s[5] == '"' && s[6] == '"'
  }

  /** A backslash and a pair of quotes. */
  ghost predicate IsEscapedQuote(t: string) {
    |t| == 3 && t[0] == '\\' && t[1] == '"' && t[2] == '"'
  }

  lemma QuotedRedirectCuts(s: string)
    requires IsQuotedRedirect(s)
    ensures Cut(s, 0, Unquoted) == (7, Unquoted)
  {
    hide Cut;
    CutStep(s, 0, Unquoted);
    CutStep(s, 2, Unquoted);
    CutStep(s, 3, Unquoted);
    CutStep(s, 4, Unquoted);
    CutStep(s, 5, Unquoted);
    CutStep(s, 6, Double);
    CutStep(s, 7, Unquoted);
  }

  lemma QuotedRedirectIsWhole(s: string)
    requires IsQuotedRedirect(s)
    ensures Whole(s)
  {
    hide Cut, Strip;
    QuotedRedirectCuts(s);
    StripOf("", s, "");
    assert "" + s + "" == s;
  }

  lemma EscapedQuoteStaysOpen(t: string)
    requires IsEscapedQuote(t)
    ensures Unsafe(t, 0, Unquoted) && !Exposed(t, 0, Unquoted)
  {
    assert Width(t, 0, Unquoted) == 2 && After(t[0], Unquoted) == Unquoted && After(t[2], Unquoted) == Double;
    assert Exposed(t, 2, Unquoted) == Exposed(t, 3, Double) == false;
    assert EndState(t, 2, Unquoted) == EndState(t, 3, Double) == Double;
    ScanFiresIff(t, 0, Unquoted);
  }

  /** A redirect taken out between a backslash and a quote escapes the quote: the segment splits, its quotes
      close, and the scan of what is left fires on an open one. */
  lemma CleaningCanOpenAQuote(segment: string, clean: string -> string)
    requires IsQuotedRedirect(segment) && IsEscapedQuote(clean(segment))
    ensures Split(segment) == Some([Piece(segment, End)])
    ensures Unsafe(clean(segment), 0, Unquoted) && !Exposed(clean(segment), 0, Unquoted)
  {
    QuotedRedirectIsWhole(segment);
    WholeSplits(segment);
    EscapedQuoteStaysOpen(clean(segment));
  }

  lemma {:induction false} ClosedQuotes(s: string, i: nat, q: Quote)
    requires i <= |s| && Cut(s, i, q) == (|s|, Unquoted)
    ensures Unsafe(s, i, q) == Exposed(s, i, q)
    decreases |s| - i
  {
    if i < |s| { ClosedQuotes(s, i + Width(s, i, q), After(s[i], q)); }
  }

  /** On a segment the splitter made, the scan fires only on a dangerous character,
      never on an open quote. */
  lemma SegmentScanIsExact(s: string, k: nat)
    requires Split(s).Some? && k < |Split(s).value|
    ensures var segment := Split(s).value[k].segment;
            Unsafe(segment, 0, Unquoted) == Exposed(segment, 0, Unquoted)
  {
    SplitFromWellFormed(s, 0);
    ClosedQuotes(Split(s).value[k].segment, 0, Unquoted);
  }

  // ----- broadening for "Allow always" -----

  /** The pattern stored for one segment; None where broadening it is unsafe. Redirect
      stripping and prefix choice are any functions. */
  ghost function PatternOf(segment: string, clean: string -> string, broaden: string -> Option<string>)
    : Option<string>
  {
    var cleaned := clean(segment);
    if cleaned == "" || Unsafe(cleaned, 0, Unquoted) then None else broaden(cleaned)
  }

  /** One pattern per segment, or None as soon as one segment has none. */
  ghost function PatternsOf(ps: seq<Piece>, clean: string -> string, broaden: string -> Option<string>)
    : (r: Option<seq<string>>)
    ensures r.Some? ==> |r.value| == |ps|
  {
    if ps == [] then Some([])
    else
      var front := PatternsOf(ps[..|ps| - 1], clean, broaden);
      var last := PatternOf(ps[|ps| - 1].segment, clean, broaden);
      if front.Some? && last.Some? then Some(front.value + [last.value]) else None
  }

  method BroadenRunBash(command: string, clean: string -> string, broaden: string -> Option<string>)
    returns (r: Option<seq<string>>)
    ensures Split(command).None? ==> r == None
    ensures Split(command).Some? ==>
              var all := PatternsOf(Split(command).value, clean, broaden);
              r == if all.Some? then Some(Dedup(all.value)) else None
  {
    var split := SplitCompound(command);
    if split.None? { return None; }
    var ps := split.value;
    var broadened: seq<string> := [];
    for k := 0 to |ps|
      invariant PatternsOf(ps[..k], clean, broaden).Some?
      invariant broadened == Dedup(PatternsOf(ps[..k], clean, broaden).value)
    {
      assert ps[..k + 1][..k] == ps[..k];
      var cleaned := clean(ps[k].segment);
      var unsafe := HasUnsafeMetachars(cleaned);
      var pattern := if cleaned == "" || unsafe then None else broaden(cleaned);
      if pattern.None? {
        NoPatternNoResult(ps, k, clean, broaden);
        return None;
      }
      if pattern.value !in broadened { broadened := broadened + [pattern.value]; }
    }
    assert ps[..|ps|] == ps;
    return Some(broadened);
  }

  lemma {:induction false} NoPatternNoResult(
    ps: seq<Piece>, k: nat, clean: string -> string, broaden: string -> Option<string>)
    requires k < |ps| && PatternOf(ps[k].segment, clean, broaden) == None
    ensures PatternsOf(ps, clean, broaden) == None
  {
    if k < |ps| - 1 { NoPatternNoResult(ps[..|ps| - 1], k, clean, broaden); }
  }

  lemma {:induction false} PatternAt(
    ps: seq<Piece>, k: nat, clean: string -> string, broaden: string -> Option<string>)
    requires k < |ps| && PatternsOf(ps, clean, broaden).Some?
    ensures PatternOf(ps[k].segment, clean, broaden) == Some(PatternsOf(ps, clean, broaden).value[k])
  {
    if k < |ps| - 1 { PatternAt(ps[..|ps| - 1], k, clean, broaden); }
  }
}
