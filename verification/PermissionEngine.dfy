/** The permission decision (permissions/engine.py). Rule matching, command classification
    and path protection are any functions, gathered in `Host`. */
module PermissionEngine {
  import opened Text
  import opened ShellSplit

  datatype RuleBehavior = DENY | ASK | ALLOW

  datatype RuleSource = POLICY | USER | PROJECT | SESSION

  datatype Rule = Rule(source: RuleSource, behavior: RuleBehavior, toolName: string, content: Option<string>)

  datatype Mode = Default | Plan | AcceptEdits | BypassPermissions | DontAsk

  datatype Tier = ReadOnly | Mutating | Dangerous | Catastrophic

  /** What path classification says: nothing, always ask, or never. */
  datatype Protection = Open | AskFirst | Secret

  datatype Tool = Tool(name: string, isReadOnly: bool, isDestructive: bool)

  /** The session around a call. `matches(rule, tool, key)` says whether a rule covers a call whose
      rule key is `key`; for run_bash the key is the command. */
  datatype Host = Host(
    matches: (Rule, string, string) -> bool,
    tierOf: string -> Tier,
    readOnlyCommand: string -> bool,
    commandPaths: string -> seq<string>,
    resolve: string -> Option<string>,
    protectionOf: string -> Protection,
    isPathTool: string -> bool)

  const RUN_BASH := "run_bash"

  // ----- searching the rules -----

  /** The first rule with this behavior that covers the call. */
  function FirstMatch(rules: seq<Rule>, b: RuleBehavior, tool: string, key: string, h: Host): (r: Option<Rule>)
    ensures r.Some? ==> r.value in rules && r.value.behavior == b && h.matches(r.value, tool, key)
    ensures r.None? ==> forall k :: 0 <= k < |rules| && rules[k].behavior == b ==> !h.matches(rules[k], tool, key)
  {
    if rules == [] then None
    else if rules[0].behavior == b && h.matches(rules[0], tool, key) then Some(rules[0])
    else FirstMatch(rules[1..], b, tool, key, h)
  }

  /** A rule that grants the command as a whole: no content, a bare `*`, or this very text. */
  predicate GrantsWhole(r: Rule, command: string) {
    && r.behavior == ALLOW
    && (r.toolName == RUN_BASH || r.toolName == "*")
    && (r.content == None || r.content == Some("*") || r.content == Some(command))
  }

  function WholeCommandRule(rules: seq<Rule>, command: string): (r: Option<Rule>)
    ensures r.Some? ==> r.value in rules && GrantsWhole(r.value, command)
    ensures r.None? ==> forall k :: 0 <= k < |rules| ==> !GrantsWhole(rules[k], command)
  {
    if rules == [] then None
    else if GrantsWhole(rules[0], command) then Some(rules[0])
    else WholeCommandRule(rules[1..], command)
  }

  /** Some separator occurs in the text, quoted or not. */
  predicate LooksCompound(command: string) {
    exists i :: 0 <= i < |command| && SepAt(command, i) != End
  }

  function CoveringRule(rules: seq<Rule>, command: string, h: Host): Option<Rule> {
    FirstMatch(rules, ALLOW, RUN_BASH, command, h)
  }

  ghost predicate CoversAll(rules: seq<Rule>, ps: seq<Piece>, h: Host) {
    forall k :: 0 <= k < |ps| ==> CoveringRule(rules, ps[k].segment, h).Some?
  }

  /** The ALLOW rule that admits a command, segment by segment. */
  ghost function BashAllow(rules: seq<Rule>, command: string, h: Host): Option<Rule> {
    match Split(command)
    case None =>
      if LooksCompound(command) then WholeCommandRule(rules, command) else CoveringRule(rules, command, h)
    case Some(ps) =>
      if |ps| == 1 then CoveringRule(rules, command, h)
      else if CoversAll(rules, ps, h) then CoveringRule(rules, ps[0].segment, h)
      else WholeCommandRule(rules, command)
  }

  lemma EmptyNeverSplits()
    ensures Split("") == None && !LooksCompound("")
  {
    assert Strip("") == "";
    BlankNeverSplits("");
  }

  method BashAllowMatch(rules: seq<Rule>, command: string, h: Host) returns (r: Option<Rule>)
    ensures r == BashAllow(rules, command, h)
  {
    var split := None;
    if command != "" { split := SplitCompound(command); } else { EmptyNeverSplits(); }
    if split.None? && command != "" {
      if LooksCompound(command) { return WholeCommandRule(rules, command); }
      return CoveringRule(rules, command, h);
    }
    var ps := if split.Some? then split.value else [];
    if |ps| <= 1 { return CoveringRule(rules, command, h); }
    var matched: Option<Rule> := None;
    for k := 0 to |ps|
      invariant CoversAll(rules, ps[..k], h)
      invariant matched == if k == 0 then None else CoveringRule(rules, ps[0].segment, h)
    {
      var hit := CoveringRule(rules, ps[k].segment, h);
      if hit.None? { return WholeCommandRule(rules, command); }
      matched := if matched.Some? then matched else hit;
    }
    return matched;
  }

  // ----- what the matcher promises -----

  ghost predicate SomeGrantsWhole(rules: seq<Rule>, command: string) {
    exists k :: 0 <= k < |rules| && GrantsWhole(rules[k], command)
  }

  /** Some ALLOW rule covers the segment on its own. */
  ghost predicate Granted(rules: seq<Rule>, segment: string, h: Host) {
    exists k :: 0 <= k < |rules| && rules[k].behavior == ALLOW && h.matches(rules[k], RUN_BASH, segment)
  }

  ghost predicate EverySegmentGranted(rules: seq<Rule>, ps: seq<Piece>, h: Host) {
    forall j :: 0 <= j < |ps| ==> Granted(rules, ps[j].segment, h)
  }

  lemma CoveringRuleIff(rules: seq<Rule>, segment: string, h: Host)
    ensures CoveringRule(rules, segment, h).Some? <==> Granted(rules, segment, h)
  {
    var r := CoveringRule(rules, segment, h);
    if r.Some? {
      var k :| 0 <= k < |rules| && rules[k] == r.value;
      assert h.matches(rules[k], RUN_BASH, segment);
    }
  }

  lemma CoversAllIsGranted(rules: seq<Rule>, ps: seq<Piece>, h: Host)
    ensures CoversAll(rules, ps, h) <==> EverySegmentGranted(rules, ps, h)
  {
    forall j | 0 <= j < |ps|
      ensures CoveringRule(rules, ps[j].segment, h).Some? <==> Granted(rules, ps[j].segment, h)
    {
      CoveringRuleIff(rules, ps[j].segment, h);
    }
  }

  lemma WholeCommandRuleIff(rules: seq<Rule>, command: string)
    ensures WholeCommandRule(rules, command).Some? <==> SomeGrantsWhole(rules, command)
  {
    var r := WholeCommandRule(rules, command);
    if r.Some? {
      var k :| 0 <= k < |rules| && rules[k] == r.value;
      assert GrantsWhole(rules[k], command);
    }
  }

  /** A compound is admitted exactly when each segment is granted or the whole is. */
  lemma CompoundAdmittedIff(rules: seq<Rule>, command: string, h: Host)
    requires Split(command).Some? && |Split(command).value| >= 2
    ensures BashAllow(rules, command, h).Some? <==>
            EverySegmentGranted(rules, Split(command).value, h) || SomeGrantsWhole(rules, command)
  {
    hide Split;
    CoversAllIsGranted(rules, Split(command).value, h);
    WholeCommandRuleIff(rules, command);
  }

  /** Joining two commands: the compound is admitted exactly when every segment of both is granted,
      or the whole compound is. So covered commands compose, and an uncovered addition withdraws the grant. */
  lemma JoinedAdmittedIff(rules: seq<Rule>, c: string, sep: Sep, d: string, h: Host)
    requires Split(c).Some? && Split(d).Some? && sep != End
    ensures var joined := c + " " + sep.Text() + " " + d;
            BashAllow(rules, joined, h).Some? <==>
            || (EverySegmentGranted(rules, Split(c).value, h) && EverySegmentGranted(rules, Split(d).value, h))
            || SomeGrantsWhole(rules, joined)
  {
    hide Split;
    var joined := c + " " + sep.Text() + " " + d;
    SplitIsHomomorphism(c, sep, d);
    var ps, qs := Split(c).value, Split(d).value;
    SplitNotEmpty(c);
    SplitNotEmpty(d);
    var all := LinkTo(ps, sep) + qs;
    assert Split(joined) == Some(all);
    CompoundAdmittedIff(rules, joined, h);
    SegmentsOfLink(rules, ps, sep, qs, h);
  }

  lemma SplitNotEmpty(c: string)
    ensures Split(c).Some? ==> Split(c).value != []
  {
  }

  lemma SegmentsOfLink(rules: seq<Rule>, ps: seq<Piece>, sep: Sep, qs: seq<Piece>, h: Host)
    requires ps != []
    ensures EverySegmentGranted(rules, LinkTo(ps, sep) + qs, h) <==>
            EverySegmentGranted(rules, ps, h) && EverySegmentGranted(rules, qs, h)
  {
    var all := LinkTo(ps, sep) + qs;
    CoversAllIsGranted(rules, all, h);
    CoversAllIsGranted(rules, ps, h);
    CoversAllIsGranted(rules, qs, h);
    assert forall k :: 0 <= k < |ps| ==> all[k].segment == ps[k].segment;
    assert forall k :: 0 <= k < |qs| ==> all[|ps| + k] == qs[k];
    assert forall k :: |ps| <= k < |all| ==> all[k] == qs[k - |ps|];
  }

  /** Appending something that cannot be split does not evade the segments: only a whole grant admits it. */
  lemma UnsplittableTailNeedsWholeGrant(rules: seq<Rule>, c: string, sep: Sep, d: string, h: Host)
    requires Split(c).Some? && Split(d).None? && sep != End
    ensures var joined := c + " " + sep.Text() + " " + d;
            BashAllow(rules, joined, h).Some? <==> SomeGrantsWhole(rules, joined)
  {
    hide Split;
    var joined := c + " " + sep.Text() + " " + d;
    SplitIsHomomorphism(c, sep, d);
    PartsOf(c, sep, d);
    SepAhead(joined, c, sep);
    WholeCommandRuleIff(rules, joined);
  }

  // ----- "Allow always" -----

  /** What one click on a run_bash command stores: the command stripped, then each broadened pattern
      that differs from it. `broadened` is none where broadening is refused. */
  function AllowAlwaysContents(raw: string, broadened: Option<seq<string>>): seq<string> {
    var literal := Strip(raw);
    if literal == "" || broadened.None? || broadened.value == [] || broadened.value == [literal] then [literal]
    else [literal] + Without(broadened.value, literal)
  }

  function Without(xs: seq<string>, x: string): (r: seq<string>)
    ensures forall y :: y in r <==> y in xs && y != x
  {
    if xs == [] then [] else if xs[0] == x then Without(xs[1..], x) else [xs[0]] + Without(xs[1..], x)
  }

  /** The stored rules; an empty content means any command. */
  function SessionRules(contents: seq<string>): (r: seq<Rule>)
    ensures |r| == |contents|
    ensures forall k :: 0 <= k < |r| ==>
              r[k] == Rule(SESSION, ALLOW, RUN_BASH, if contents[k] == "" then None else Some(contents[k]))
  {
    seq(|contents|, k requires 0 <= k < |contents| =>
      Rule(SESSION, ALLOW, RUN_BASH, if contents[k] == "" then None else Some(contents[k])))
  }

  ghost function AfterClick(rules: seq<Rule>, raw: string, broadened: Option<seq<string>>): seq<Rule> {
    rules + SessionRules(AllowAlwaysContents(raw, broadened))
  }

  /** The command splits into several segments, or cannot be split but has a separator in it. */
  ghost predicate Compound(command: string) {
    if Split(command).Some? then |Split(command).value| >= 2 else LooksCompound(command)
  }

  /** A stored content that grants the command as a whole. */
  predicate WholeContent(content: string, command: string) {
    content == "" || content == "*" || content == command
  }

  ghost predicate SomePatternWhole(broadened: Option<seq<string>>, command: string) {
    broadened.Some? && exists x :: x in broadened.value && WholeContent(x, command)
  }

  lemma SeparatorChar(s: string, i: nat)
    requires i <= |s| && SepAt(s, i) != End
    ensures i < |s| && s[i] in {'&', '|', ';'} && !IsSpace(s[i])
  {}

  lemma CompoundLooksIt(raw: string)
    requires Compound(raw)
    ensures LooksCompound(raw)
  {
    if Split(raw).Some? {
      var (k, q) := Cut(raw, 0, Unquoted);
      assert AtSep(raw, k, q);
    }
  }

  /** A compound has a separator in it, also once stripped. */
  lemma CompoundBody(raw: string)
    requires Compound(raw)
    ensures Strip(raw) != "" && Strip(raw) != "*"
  {
    CompoundLooksIt(raw);
    var i :| 0 <= i < |raw| && SepAt(raw, i) != End;
    SeparatorChar(raw, i);
    var a, b := StripSlice(raw);
    hide Strip, Compound, SepAt, LooksCompound;
    forall x | 0 <= x < a ensures IsSpace(raw[x]) { assert raw[..a][x] == raw[x]; }
    forall x | b <= x < |raw| ensures IsSpace(raw[x]) { assert raw[b..][x - b] == raw[x]; }
    hide IsSpace;
    assert Strip(raw)[i - a] == raw[i];
  }

  lemma SomeGrantsWholeOf(a: seq<Rule>, b: seq<Rule>, command: string)
    ensures SomeGrantsWhole(a + b, command) <==> SomeGrantsWhole(a, command) || SomeGrantsWhole(b, command)
  {
    hide GrantsWhole;
    var all := a + b;
    assert forall k :: 0 <= k < |a| ==> all[k] == a[k];
    assert forall k :: 0 <= k < |b| ==> all[|a| + k] == b[k];
    if SomeGrantsWhole(all, command) {
      var k :| 0 <= k < |all| && GrantsWhole(all[k], command);
      assert GrantsWhole(if k < |a| then a[k] else b[k - |a|], command);
    }
  }

  lemma SessionGrantsWhole(contents: seq<string>, command: string)
    ensures SomeGrantsWhole(SessionRules(contents), command) <==> exists x :: x in contents && WholeContent(x, command)
  {
    var added := SessionRules(contents);
    forall k | 0 <= k < |contents| ensures GrantsWhole(added[k], command) <==> WholeContent(contents[k], command) {}
    hide SessionRules, GrantsWhole, WholeContent;
    if SomeGrantsWhole(added, command) {
      var k :| 0 <= k < |added| && GrantsWhole(added[k], command);
      assert contents[k] in contents;
    }
  }

  lemma WholeGrantsAfterClick(rules: seq<Rule>, raw: string, broadened: Option<seq<string>>)
    requires Compound(raw)
    ensures SomeGrantsWhole(AfterClick(rules, raw, broadened), raw) <==>
            SomeGrantsWhole(rules, raw) || raw == Strip(raw) || SomePatternWhole(broadened, raw)
  {
    CompoundBody(raw);
    hide Strip, Compound, SomeGrantsWhole, SessionRules;
    var contents := AllowAlwaysContents(raw, broadened);
    SomeGrantsWholeOf(rules, SessionRules(contents), raw);
    SessionGrantsWhole(contents, raw);
    assert contents[0] == Strip(raw) && contents[0] in contents;
    assert broadened.Some? ==> forall x :: x in contents <==> x == Strip(raw) || x in broadened.value;
  }

  /** After the click the same compound is admitted again if and only if it has no outer whitespace, or
      the rules there were or a pattern grant it as a whole, or its segments are all covered. */
  lemma AllowAlwaysCoversRerunIff(rules: seq<Rule>, raw: string, broadened: Option<seq<string>>, h: Host)
    requires Compound(raw)
    ensures BashAllow(AfterClick(rules, raw, broadened), raw, h).Some? <==>
            || raw == Strip(raw) || SomeGrantsWhole(rules, raw) || SomePatternWhole(broadened, raw)
            || (Split(raw).Some? && EverySegmentGranted(AfterClick(rules, raw, broadened), Split(raw).value, h))
  {
    WholeGrantsAfterClick(rules, raw, broadened);
    hide Split, Strip, AfterClick, SomeGrantsWhole, SomePatternWhole, EverySegmentGranted;
    var all := AfterClick(rules, raw, broadened);
    WholeCommandRuleIff(all, raw);
    if Split(raw).Some? { CompoundAdmittedIff(all, raw, h); }
  }

  /** A host in which no rule covers any single command. */
  function Matchless(): Host {
    Host((r, t, k) => false, c => Mutating, c => false, c => [], p => None, p => Open, t => false)
  }

  /** So it is admitted whatever the rules match exactly when one of the first three holds. */
  lemma RerunAlwaysAdmittedIff(rules: seq<Rule>, raw: string, broadened: Option<seq<string>>)
    requires Compound(raw)
    ensures (forall h :: BashAllow(AfterClick(rules, raw, broadened), raw, h).Some?) <==>
            raw == Strip(raw) || SomeGrantsWhole(rules, raw) || SomePatternWhole(broadened, raw)
  {
    hide Strip, AfterClick, BashAllow, SomeGrantsWhole, SomePatternWhole;
    forall h
      ensures raw == Strip(raw) || SomeGrantsWhole(rules, raw) || SomePatternWhole(broadened, raw)
              ==> BashAllow(AfterClick(rules, raw, broadened), raw, h).Some?
    {
      AllowAlwaysCoversRerunIff(rules, raw, broadened, h);
    }
    var all := AfterClick(rules, raw, broadened);
    AllowAlwaysCoversRerunIff(rules, raw, broadened, Matchless());
    if Split(raw).Some? {
      SplitNotEmpty(raw);
      hide Split;
      assert !Granted(all, Split(raw).value[0].segment, Matchless());
    }
    assert BashAllow(all, raw, Matchless()).Some? <==>
           raw == Strip(raw) || SomeGrantsWhole(rules, raw) || SomePatternWhole(broadened, raw);
  }

  /** A host in which a rule covers just its own text. */
  function Literal(): Host {
    Matchless().(matches := (r: Rule, t: string, k: string) => r.content == None || r.content == Some(k))
  }

  lemma {:induction false} PlainCut(s: string, i: nat)
    requires i <= |s| && forall k :: i <= k < |s| ==> s[k] !in {'&', '|', ';', '\'', '"', '\\'}
    ensures Cut(s, i, Unquoted) == (|s|, Unquoted)
    decreases |s| - i
  {
    if i < |s| { PlainCut(s, i + 1); }
  }

  /** Two commands joined and a space put before them: the text stored is not the text compared. */
  lemma LeadingSpaceAsksAgain(c: string, d: string)
    requires Whole(c) && Whole(d)
    ensures var joined := c + " " + And.Text() + " " + d;
            && Compound(" " + joined) && AllowAlwaysContents(" " + joined, None) == [joined]
            && BashAllow(AfterClick([], " " + joined, None), " " + joined, Literal()).None?
  {
    hide SepAt, Cut, SplitFrom, BashAllow, AfterClick;
    var joined := c + " " + And.Text() + " " + d;
    WholeSplits(c);
    WholeSplits(d);
    JoinedIsTrimmed(c, d);
    hide Strip, Split, Whole, Trimmed;
    SplitIsHomomorphism(c, And, d);
    LeadingSpace(joined);
    var segments := [Piece(c, And), Piece(d, End)];
    assert LinkTo([Piece(c, End)], And) == [Piece(c, And)];
    assert [Piece(c, And)] + [Piece(d, End)] == segments;
    assert Split(" " + joined) == Some(segments);
    hide Split, SomeGrantsWhole;
    StripOf(" ", joined, "");
    assert " " + joined + "" == " " + joined;
    AllowAlwaysCoversRerunIff([], " " + joined, None, Literal());
    OnlyRuleIs(" " + joined, joined);
    assert segments[0].segment == c && |c| < |joined|;
    assert !Granted([Rule(SESSION, ALLOW, RUN_BASH, Some(joined))], segments[0].segment, Literal());
  }

  lemma JoinedIsTrimmed(c: string, d: string)
    requires Whole(c) && Whole(d)
    ensures Trimmed(c + " " + And.Text() + " " + d) && c + " " + And.Text() + " " + d != ""
  {
    var joined := c + " " + And.Text() + " " + d;
    var _, _ := StripSlice(c);
    var _, _ := StripSlice(d);
    hide Strip, IsSpace;
    assert joined[0] == c[0] && joined[|joined| - 1] == d[|d| - 1];
  }

  lemma OnlyRuleIs(raw: string, literal: string)
    requires Strip(raw) == literal && literal != ""
    ensures AfterClick([], raw, None) == [Rule(SESSION, ALLOW, RUN_BASH, Some(literal))]
  {
    hide Strip;
  }

  lemma SudoIsWhole()
    ensures Whole("sudo ls")
  {
    PlainIsWhole("sudo ls");
  }

  lemma PwdIsWhole()
    ensures Whole("pwd")
  {
    PlainIsWhole("pwd");
  }

  lemma SudoJoined()
    ensures "sudo ls" + " " + "&&" + " " + "pwd" == "sudo ls && pwd" && " " + "sudo ls && pwd" == " sudo ls && pwd"
  {}

  /** Such a pair of commands. */
  lemma SudoAsksAgain()
    ensures Compound(" sudo ls && pwd") && AllowAlwaysContents(" sudo ls && pwd", None) == ["sudo ls && pwd"]
    ensures BashAllow(AfterClick([], " sudo ls && pwd", None), " sudo ls && pwd", Literal()).None?
  {
    assert And.Text() == "&&";
    hide *;
    SudoIsWhole();
    PwdIsWhole();
    SudoJoined();
    LeadingSpaceAsksAgain("sudo ls", "pwd");
  }

  lemma PlainIsWhole(s: string)
    requires s != "" && Trimmed(s) && forall k :: 0 <= k < |s| ==> s[k] !in {'&', '|', ';', '\'', '"', '\\'}
    ensures Whole(s)
  {
    PlainCut(s, 0);
    StripOf("", s, "");
    assert "" + s + "" == s;
  }

  // ----- the decision -----

  datatype Verdict = Allowed | Asked | Denied

  datatype Decision = Decision(behavior: Verdict, matchedRule: Option<Rule>)

  datatype Call = Call(tool: Tool, key: string, mode: Mode, outOfScope: bool, sandboxIsolated: bool)

  /** What the decision looks at, besides the mode. */
  datatype Facts = Facts(
    deny: Option<Rule>, ask: Option<Rule>, allow: Option<Rule>,
    protection: Protection, tier: Tier, planOk: bool, outOfScope: bool)

  function ProtectionOfPath(raw: string, h: Host): Protection {
    match h.resolve(raw)
    case None => Open
    case Some(path) => if path == "" then Open else h.protectionOf(path)
  }

  ghost predicate SomePath(paths: seq<string>, p: Protection, h: Host) {
    exists k :: 0 <= k < |paths| && ProtectionOfPath(paths[k], h) == p
  }

  /** The strictest protection among the paths. */
  ghost function WorstProtection(paths: seq<string>, h: Host): Protection {
    if SomePath(paths, Secret, h) then Secret else if SomePath(paths, AskFirst, h) then AskFirst else Open
  }

  lemma SomePathGrows(paths: seq<string>, path: string, p: Protection, h: Host)
    ensures SomePath(paths + [path], p, h) <==> SomePath(paths, p, h) || ProtectionOfPath(path, h) == p
  {
    var all := paths + [path];
    assert all[|paths|] == path;
    assert forall k :: 0 <= k < |paths| ==> all[k] == paths[k];
  }

  method CommandProtection(paths: seq<string>, h: Host) returns (protected: Protection)
    ensures protected == WorstProtection(paths, h)
  {
    protected := Open;
    for k := 0 to |paths|
      invariant protected == WorstProtection(paths[..k], h) && protected != Secret
    {
      assert paths[..k + 1] == paths[..k] + [paths[k]];
      SomePathGrows(paths[..k], paths[k], Secret, h);
      SomePathGrows(paths[..k], paths[k], AskFirst, h);
      var pc := ProtectionOfPath(paths[k], h);
      if pc == Secret {
        assert SomePath(paths, Secret, h);
        return Secret;
      }
      if pc == AskFirst && protected == Open { protected := AskFirst; }
    }
    assert paths[..|paths|] == paths;
  }

  ghost function FactsOf(call: Call, rules: seq<Rule>, h: Host): Facts {
    var bash := call.tool.name == RUN_BASH;
    Facts(
      FirstMatch(rules, DENY, call.tool.name, call.key, h),
      FirstMatch(rules, ASK, call.tool.name, call.key, h),
      if bash then BashAllow(rules, call.key, h) else FirstMatch(rules, ALLOW, call.tool.name, call.key, h),
      if bash then WorstProtection(h.commandPaths(call.key), h)
      else if h.isPathTool(call.tool.name) then ProtectionOfPath(call.key, h) else Open,
      if bash then h.tierOf(call.key) else Mutating,
      bash && h.readOnlyCommand(call.key),
      call.outOfScope)
  }

  function EffectiveMode(call: Call): Mode {
    if call.sandboxIsolated && (call.mode == Default || call.mode == AcceptEdits)
    then BypassPermissions else call.mode
  }

  /** An outcome that would prompt, which dontAsk turns into a refusal. */
  function Prompt(mode: Mode, rule: Option<Rule>): Decision {
    Decision(if mode == DontAsk then Denied else Asked, rule)
  }

  /** The cascade of steps 1 to 4. */
  function Cascade(f: Facts, mode: Mode, tool: Tool): Decision {
    if f.deny.Some? then Decision(Denied, f.deny)
    else if f.protection == Secret then Decision(Denied, None)
    else if f.tier == Catastrophic && f.allow.None? then Decision(Denied, None)
    else if f.tier == ReadOnly && f.ask.None? && f.protection == Open then Decision(Allowed, f.allow)
    else if mode == Plan && !tool.isReadOnly then Decision(if f.planOk then Allowed else Denied, None)
    else if f.tier == Dangerous && f.allow.None? then Prompt(mode, None)
    else if f.outOfScope && f.tier == Mutating && f.allow.None? then Prompt(mode, None)
    else if mode == BypassPermissions then Decision(Allowed, None)
    else if f.protection == AskFirst then Prompt(mode, None)
    else if f.ask.Some? && f.allow.None? then Prompt(mode, f.ask)
    else if tool.isDestructive && f.allow.None? then
      if mode == AcceptEdits then Decision(Allowed, None) else Prompt(mode, None)
    else Decision(Allowed, f.allow)
  }

  ghost function Decide(call: Call, rules: seq<Rule>, h: Host): Decision {
    Cascade(FactsOf(call, rules, h), EffectiveMode(call), call.tool)
  }

  method DecideImpl(call: Call, rules: seq<Rule>, h: Host) returns (d: Decision)
    ensures d == Decide(call, rules, h)
  {
    hide FirstMatch, BashAllow, WorstProtection, ProtectionOfPath, SomePath;
    var mode := call.mode;
    if call.sandboxIsolated && (mode == Default || mode == AcceptEdits) { mode := BypassPermissions; }
    var name := call.tool.name;
    var protected := Open;
    if h.isPathTool(name) { protected := ProtectionOfPath(call.key, h); }
    var tier := Mutating;
    if name == RUN_BASH {
      tier := h.tierOf(call.key);
      protected := CommandProtection(h.commandPaths(call.key), h);
    }
    // Step 1
    var deny := FirstMatch(rules, DENY, name, call.key, h);
    if deny.Some? { return Decision(Denied, deny); }
    // Step 1b
    if protected == Secret { return Decision(Denied, None); }
    var allow;
    if name == RUN_BASH {
      allow := BashAllowMatch(rules, call.key, h);
    } else {
      allow := FirstMatch(rules, ALLOW, name, call.key, h);
    }
    var ask := FirstMatch(rules, ASK, name, call.key, h);
    // Steps 1c and 1d
    if tier == Catastrophic && allow.None? { return Decision(Denied, None); }
    if tier == ReadOnly && ask.None? && protected == Open { return Decision(Allowed, allow); }
    // Step 2a
    if mode == Plan && !call.tool.isReadOnly {
      if name == RUN_BASH && h.readOnlyCommand(call.key) { return Decision(Allowed, None); }
      return Decision(Denied, None);
    }
    // Step 1e
    if tier == Dangerous && allow.None? {
      if mode == DontAsk { return Decision(Denied, None); }
      return Decision(Asked, None);
    }
    // Step 1f
    if call.outOfScope && tier == Mutating && allow.None? {
      if mode == DontAsk { return Decision(Denied, None); }
      return Decision(Asked, None);
    }
    // Step 2b
    if mode == BypassPermissions { return Decision(Allowed, None); }
    // Step 2c
    if protected == AskFirst {
      if mode == DontAsk { return Decision(Denied, None); }
      return Decision(Asked, None);
    }
    // Step 3
    if ask.Some? && allow.None? {
      if mode == DontAsk { return Decision(Denied, ask); }
      return Decision(Asked, ask);
    }
    // Step 4
    if call.tool.isDestructive && allow.None? {
      if mode == AcceptEdits { return Decision(Allowed, None); }
      if mode == DontAsk { return Decision(Denied, None); }
      return Decision(Asked, None);
    }
    return Decision(Allowed, allow);
  }

  // ----- monotonicity -----

  /** a is no stricter than b. */
  predicate NoStricter(a: Verdict, b: Verdict) {
    a == Allowed || b == Denied || a == b
  }

  ghost function Insert(rules: seq<Rule>, i: nat, r: Rule): seq<Rule>
    requires i <= |rules|
  {
    rules[..i] + [r] + rules[i..]
  }

  lemma {:induction false} InsertKeepsMatch(
    rules: seq<Rule>, i: nat, r: Rule, b: RuleBehavior, tool: string, key: string, h: Host)
    requires i <= |rules|
    ensures r.behavior != b ==> FirstMatch(Insert(rules, i, r), b, tool, key, h) == FirstMatch(rules, b, tool, key, h)
    ensures FirstMatch(rules, b, tool, key, h).Some? ==> FirstMatch(Insert(rules, i, r), b, tool, key, h).Some?
  {
    if i == 0 {
      assert Insert(rules, 0, r)[1..] == rules;
    } else {
      InsertKeepsMatch(rules[1..], i - 1, r, b, tool, key, h);
      assert Insert(rules, i, r)[1..] == Insert(rules[1..], i - 1, r);
    }
  }

  lemma {:induction false} InsertKeepsWhole(rules: seq<Rule>, i: nat, r: Rule, command: string)
    requires i <= |rules|
    ensures r.behavior != ALLOW ==> WholeCommandRule(Insert(rules, i, r), command) == WholeCommandRule(rules, command)
    ensures WholeCommandRule(rules, command).Some? ==> WholeCommandRule(Insert(rules, i, r), command).Some?
  {
    if i == 0 {
      assert Insert(rules, 0, r)[1..] == rules;
    } else {
      InsertKeepsWhole(rules[1..], i - 1, r, command);
      assert Insert(rules, i, r)[1..] == Insert(rules[1..], i - 1, r);
    }
  }

  lemma InsertKeepsBashAllow(rules: seq<Rule>, i: nat, r: Rule, command: string, h: Host)
    requires i <= |rules|
    ensures r.behavior != ALLOW ==> BashAllow(Insert(rules, i, r), command, h) == BashAllow(rules, command, h)
    ensures BashAllow(rules, command, h).Some? ==> BashAllow(Insert(rules, i, r), command, h).Some?
  {
    hide Split;
    InsertKeepsMatch(rules, i, r, ALLOW, RUN_BASH, command, h);
    InsertKeepsWhole(rules, i, r, command);
    SplitNotEmpty(command);
    if Split(command).Some? {
      var ps := Split(command).value;
      forall k | 0 <= k < |ps|
        ensures r.behavior != ALLOW ==>
                  CoveringRule(Insert(rules, i, r), ps[k].segment, h) == CoveringRule(rules, ps[k].segment, h)
        ensures CoveringRule(rules, ps[k].segment, h).Some? ==>
                  CoveringRule(Insert(rules, i, r), ps[k].segment, h).Some?
      {
        InsertKeepsMatch(rules, i, r, ALLOW, RUN_BASH, ps[k].segment, h);
      }
    }
  }

  /** A DENY or ASK rule, put anywhere, never loosens a decision. */
  lemma RestrictingRuleNeverLoosens(call: Call, rules: seq<Rule>, i: nat, r: Rule, h: Host)
    requires i <= |rules| && r.behavior != ALLOW
    ensures NoStricter(Decide(call, rules, h).behavior, Decide(call, Insert(rules, i, r), h).behavior)
  {
    hide BashAllow, WorstProtection, FirstMatch, Insert, ProtectionOfPath;
    InsertKeepsMatch(rules, i, r, DENY, call.tool.name, call.key, h);
    InsertKeepsMatch(rules, i, r, ASK, call.tool.name, call.key, h);
    InsertKeepsMatch(rules, i, r, ALLOW, call.tool.name, call.key, h);
    InsertKeepsBashAllow(rules, i, r, call.key, h);
  }

  /** An ALLOW rule, put anywhere, never tightens a decision. */
  lemma GrantingRuleNeverTightens(call: Call, rules: seq<Rule>, i: nat, r: Rule, h: Host)
    requires i <= |rules| && r.behavior == ALLOW
    ensures NoStricter(Decide(call, Insert(rules, i, r), h).behavior, Decide(call, rules, h).behavior)
  {
    hide BashAllow, WorstProtection, FirstMatch, Insert, ProtectionOfPath;
    InsertKeepsMatch(rules, i, r, DENY, call.tool.name, call.key, h);
    InsertKeepsMatch(rules, i, r, ASK, call.tool.name, call.key, h);
    InsertKeepsMatch(rules, i, r, ALLOW, call.tool.name, call.key, h);
    InsertKeepsBashAllow(rules, i, r, call.key, h);
  }

  /** bypassPermissions, acceptEdits, default, dontAsk: each no stricter than the next. */
  lemma ModesAreOrdered(call: Call, rules: seq<Rule>, h: Host)
    ensures NoStricter(Decide(call.(mode := BypassPermissions), rules, h).behavior,
                       Decide(call.(mode := AcceptEdits), rules, h).behavior)
    ensures NoStricter(Decide(call.(mode := AcceptEdits), rules, h).behavior,
                       Decide(call.(mode := Default), rules, h).behavior)
    ensures NoStricter(Decide(call.(mode := Default), rules, h).behavior,
                       Decide(call.(mode := DontAsk), rules, h).behavior)
  {
    hide BashAllow, WorstProtection, FirstMatch;
    var f := FactsOf(call, rules, h);
    assert FactsOf(call.(mode := BypassPermissions), rules, h) == f;
    assert FactsOf(call.(mode := AcceptEdits), rules, h) == f;
    assert FactsOf(call.(mode := Default), rules, h) == f;
    assert FactsOf(call.(mode := DontAsk), rules, h) == f;
  }

  /** Something short of a refusal stands in the way of the call outside plan mode. */
  predicate NeedsPrompt(f: Facts, tool: Tool, bypass: bool) {
    || (f.tier == Dangerous && f.allow.None?)
    || (f.outOfScope && f.tier == Mutating && f.allow.None?)
    || (!bypass && (f.protection == AskFirst || (f.ask.Some? && f.allow.None?) || (tool.isDestructive && f.allow.None?)))
  }

  /** Plan mode is not in that order: it is looser than default just when it lets a read-only command
      through, past the floor, that default would prompt for. */
  lemma PlanIsLooserIff(call: Call, rules: seq<Rule>, h: Host)
    ensures var f := FactsOf(call, rules, h);
            !NoStricter(Decide(call.(mode := Default), rules, h).behavior, Decide(call.(mode := Plan), rules, h).behavior)
            <==>
            && f.deny.None? && f.protection != Secret && (f.tier == Catastrophic ==> f.allow.Some?)
            && !(f.tier == ReadOnly && f.ask.None? && f.protection == Open)
            && !call.tool.isReadOnly && f.planOk && NeedsPrompt(f, call.tool, call.sandboxIsolated)
  {
    hide BashAllow, WorstProtection, FirstMatch;
    var f := FactsOf(call, rules, h);
    assert FactsOf(call.(mode := Default), rules, h) == f;
    assert FactsOf(call.(mode := Plan), rules, h) == f;
  }

  /** The floor under every mode: a matching DENY rule, secret material, or a catastrophic command
      without a grant is refused; a dangerous command without a grant, or a mutating one that writes out of
      scope, is never allowed outside plan mode. */
  lemma FloorHoldsInEveryMode(call: Call, rules: seq<Rule>, h: Host)
    ensures var f, d := FactsOf(call, rules, h), Decide(call, rules, h).behavior;
            && (f.deny.Some? || f.protection == Secret || (f.tier == Catastrophic && f.allow.None?) ==> d == Denied)
            && (f.tier == Dangerous && f.allow.None? && call.mode != Plan ==> d != Allowed)
            && (f.outOfScope && f.tier == Mutating && f.allow.None? && call.mode != Plan ==> d != Allowed)
  {
    hide FactsOf;
  }

  /** Appending what no rule grants to a command that splits gives back the floor: a result that is
      catastrophic, dangerous or writes out of scope is allowed in no mode but plan, bypass included. */
  lemma NoEscalationByAppending(rules: seq<Rule>, c: string, sep: Sep, d: string, call: Call, h: Host)
    requires Split(c).Some? && sep != End
    requires call.tool.name == RUN_BASH && call.key == c + " " + sep.Text() + " " + d && call.mode != Plan
    requires Split(d).Some? ==> !EverySegmentGranted(rules, Split(d).value, h)
    requires !SomeGrantsWhole(rules, call.key)
    requires var tier := h.tierOf(call.key);
             tier == Catastrophic || tier == Dangerous || (call.outOfScope && tier == Mutating)
    ensures Decide(call, rules, h).behavior != Allowed
  {
    hide Split, BashAllow, WorstProtection, FirstMatch;
    if Split(d).Some? {
      JoinedAdmittedIff(rules, c, sep, d, h);
    } else {
      UnsplittableTailNeedsWholeGrant(rules, c, sep, d, h);
    }
    FloorHoldsInEveryMode(call, rules, h);
  }
}
