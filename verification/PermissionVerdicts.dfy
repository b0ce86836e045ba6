/** When a call is allowed, asked about or denied, and which rule is reported, in terms of the call, the
    rules and the host alone. */
module PermissionVerdicts {
  import opened Text
  import opened ShellSplit
  import opened PermissionEngine

  // ----- which rule admits a command -----

  ghost predicate Covers(r: Rule, b: RuleBehavior, tool: string, key: string, h: Host) {
    r.behavior == b && h.matches(r, tool, key)
  }

  /** r covers the call and no rule before it does. */
  ghost predicate FirstCovering(rules: seq<Rule>, r: Rule, b: RuleBehavior, tool: string, key: string, h: Host) {
    exists k :: 0 <= k < |rules| && rules[k] == r && Covers(r, b, tool, key, h)
                && forall j :: 0 <= j < k ==> !Covers(rules[j], b, tool, key, h)
  }

  /** r grants the command as a whole and no rule before it does. */
  ghost predicate FirstWhole(rules: seq<Rule>, r: Rule, command: string) {
    exists k :: 0 <= k < |rules| && rules[k] == r && GrantsWhole(r, command)
                && forall j :: 0 <= j < k ==> !GrantsWhole(rules[j], command)
  }

  lemma {:induction false} FirstMatchIsFirst(rules: seq<Rule>, b: RuleBehavior, tool: string, key: string, h: Host)
    requires FirstMatch(rules, b, tool, key, h).Some?
    ensures FirstCovering(rules, FirstMatch(rules, b, tool, key, h).value, b, tool, key, h)
  {
    var r := FirstMatch(rules, b, tool, key, h).value;
    if Covers(rules[0], b, tool, key, h) {
      assert rules[0] == r;
    } else {
      FirstMatchIsFirst(rules[1..], b, tool, key, h);
      var k :| 0 <= k < |rules[1..]| && rules[1..][k] == r && Covers(r, b, tool, key, h)
               && forall j :: 0 <= j < k ==> !Covers(rules[1..][j], b, tool, key, h);
      assert rules[k + 1] == r;
      forall j | 0 <= j < k + 1 ensures !Covers(rules[j], b, tool, key, h) {
        if j > 0 { assert rules[1..][j - 1] == rules[j]; }
      }
    }
  }

  lemma {:induction false} WholeRuleIsFirst(rules: seq<Rule>, command: string)
    requires WholeCommandRule(rules, command).Some?
    ensures FirstWhole(rules, WholeCommandRule(rules, command).value, command)
  {
    var r := WholeCommandRule(rules, command).value;
    if GrantsWhole(rules[0], command) {
      assert rules[0] == r;
    } else {
      WholeRuleIsFirst(rules[1..], command);
      hide GrantsWhole;
      var k :| 0 <= k < |rules[1..]| && rules[1..][k] == r && GrantsWhole(r, command)
               && forall j :: 0 <= j < k ==> !GrantsWhole(rules[1..][j], command);
      assert rules[k + 1] == r;
      forall j | 0 <= j < k + 1 ensures !GrantsWhole(rules[j], command) {
        if j > 0 { assert rules[1..][j - 1] == rules[j]; }
      }
    }
  }

  /** A command of one segment, or one that cannot be split and has no separator in it, is admitted
      exactly when a rule covers its text. */
  lemma SingleAdmittedIff(rules: seq<Rule>, command: string, h: Host)
    requires if Split(command).Some? then |Split(command).value| == 1 else !LooksCompound(command)
    ensures BashAllow(rules, command, h).Some? <==> Granted(rules, command, h)
  {
    hide Split, LooksCompound;
    CoveringRuleIff(rules, command, h);
  }

  /** One that cannot be split but has a separator in it only by a rule that grants the whole text. */
  lemma UnsplittableAdmittedIff(rules: seq<Rule>, command: string, h: Host)
    requires Split(command).None? && LooksCompound(command)
    ensures BashAllow(rules, command, h).Some? <==> SomeGrantsWhole(rules, command)
  {
    hide Split, LooksCompound;
    WholeCommandRuleIff(rules, command);
  }

  /** The rule reported is an ALLOW rule of the list, the first that covers the command, or its first segment
      where every segment is granted, or grants the whole text. */
  lemma AdmittingRuleIs(rules: seq<Rule>, command: string, h: Host)
    requires BashAllow(rules, command, h).Some?
    ensures var r := BashAllow(rules, command, h).value;
            && r in rules && r.behavior == ALLOW
            && if !Compound(command) then FirstCovering(rules, r, ALLOW, RUN_BASH, command, h)
               else if Split(command).Some? && EverySegmentGranted(rules, Split(command).value, h)
               then FirstCovering(rules, r, ALLOW, RUN_BASH, Split(command).value[0].segment, h)
               else FirstWhole(rules, r, command)
  {
    hide Split, LooksCompound, FirstMatch, WholeCommandRule, CoversAll;
    SplitNotEmpty(command);
    if !Compound(command) {
      FirstMatchIsFirst(rules, ALLOW, RUN_BASH, command, h);
    } else {
      if Split(command).Some? {
        var ps := Split(command).value;
        CoversAllIsGranted(rules, ps, h);
        if EverySegmentGranted(rules, ps, h) {
          CoveringRuleIff(rules, ps[0].segment, h);
          FirstMatchIsFirst(rules, ALLOW, RUN_BASH, ps[0].segment, h);
        } else {
          WholeRuleIsFirst(rules, command);
        }
      } else {
        WholeRuleIsFirst(rules, command);
      }
    }
  }

  // ----- what a click stores -----

  /** A click on "Allow always" adds session rules on run_bash, first the command's own text without outer whitespace
      (a blank one grants every command), then of the patterns each that differs from it, and no other; a blank command
      brings none. */
  lemma ClickStores(rules: seq<Rule>, raw: string, broadened: Option<seq<string>>)
    ensures var after := AfterClick(rules, raw, broadened);
            && |after| > |rules| && after[..|rules|] == rules
            && after[|rules|] == Rule(SESSION, ALLOW, RUN_BASH, if Strip(raw) == "" then None else Some(Strip(raw)))
            && (forall k :: |rules| < k < |after| ==>
                  && after[k].source == SESSION && after[k].behavior == ALLOW && after[k].toolName == RUN_BASH
                  && broadened.Some? && Strip(raw) != ""
                  && exists x :: x in broadened.value && x != Strip(raw)
                                 && after[k].content == if x == "" then None else Some(x))
            && (broadened.Some? && Strip(raw) != "" ==>
                  forall x :: x in broadened.value && x != "" ==> Rule(SESSION, ALLOW, RUN_BASH, Some(x)) in after)
  {
    hide Strip;
    var contents := AllowAlwaysContents(raw, broadened);
    var added := SessionRules(contents);
    var after := AfterClick(rules, raw, broadened);
    assert after == rules + added && contents[0] == Strip(raw);
    hide SessionRules, AfterClick;
    forall k | |rules| < k < |after|
      ensures broadened.Some? && contents[k - |rules|] in broadened.value && contents[k - |rules|] != Strip(raw)
      ensures Strip(raw) != "" && after[k] == added[k - |rules|]
    {
      assert contents[k - |rules|] in contents[1..];
    }
    if broadened.Some? && Strip(raw) != "" {
      forall x | x in broadened.value && x != "" ensures Rule(SESSION, ALLOW, RUN_BASH, Some(x)) in after {
        assert x in contents;
        var j :| 0 <= j < |contents| && contents[j] == x;
        assert after[|rules| + j] == added[j];
      }
    }
  }

  /** So a command that is not a compound is not asked about again wherever the stored text matches it. */
  lemma SingleRerunIsAdmitted(rules: seq<Rule>, raw: string, broadened: Option<seq<string>>, h: Host)
    requires !Compound(raw) && Strip(raw) != ""
    requires h.matches(Rule(SESSION, ALLOW, RUN_BASH, Some(Strip(raw))), RUN_BASH, raw)
    ensures BashAllow(AfterClick(rules, raw, broadened), raw, h).Some?
  {
    hide Split, LooksCompound, Strip, AfterClick;
    ClickStores(rules, raw, broadened);
    SplitNotEmpty(raw);
    var after := AfterClick(rules, raw, broadened);
    assert h.matches(after[|rules|], RUN_BASH, raw);
    SingleAdmittedIff(after, raw, h);
  }

  // ----- what is known of a call -----

  /** Some rule with this behavior covers the call. */
  ghost predicate HasRule(call: Call, rules: seq<Rule>, b: RuleBehavior, h: Host) {
    exists k :: 0 <= k < |rules| && rules[k].behavior == b && h.matches(rules[k], call.tool.name, call.key)
  }

  predicate IsBash(call: Call) {
    call.tool.name == RUN_BASH
  }

  /** The paths the call names: those of the command, or the one a path tool is given. */
  predicate Names(call: Call, raw: string, h: Host) {
    if IsBash(call) then raw in h.commandPaths(call.key) else h.isPathTool(call.tool.name) && raw == call.key
  }

  /** A path the call names resolves to one so protected. */
  ghost predicate Touches(call: Call, p: Protection, h: Host) {
    exists raw :: Names(call, raw, h) && Resolves(raw, p, h)
  }

  predicate Resolves(raw: string, p: Protection, h: Host) {
    h.resolve(raw).Some? && h.resolve(raw).value != "" && h.protectionOf(h.resolve(raw).value) == p
  }

  /** The rules let the call through: a command by its segments or as a whole, another call by an ALLOW rule. */
  ghost predicate Let(call: Call, rules: seq<Rule>, h: Host) {
    if !IsBash(call) then HasRule(call, rules, ALLOW, h)
    else if !Compound(call.key) then Granted(rules, call.key, h)
    else || SomeGrantsWhole(rules, call.key)
         || (Split(call.key).Some? && EverySegmentGranted(rules, Split(call.key).value, h))
  }

  predicate OfTier(call: Call, t: Tier, h: Host) {
    if IsBash(call) then h.tierOf(call.key) == t else t == Mutating
  }

  /** Refused in every mode. */
  ghost predicate Refused(call: Call, rules: seq<Rule>, h: Host) {
    || HasRule(call, rules, DENY, h) || Touches(call, Secret, h)
    || (OfTier(call, Catastrophic, h) && !Let(call, rules, h))
  }

  /** Let through in every mode: a read-only command that no ASK rule and no guarded path is about. */
  ghost predicate FreeRead(call: Call, rules: seq<Rule>, h: Host) {
    OfTier(call, ReadOnly, h) && !HasRule(call, rules, ASK, h) && !Touches(call, AskFirst, h)
  }

  /** Not let through, and dangerous or changing something out of scope. */
  ghost predicate Risky(call: Call, rules: seq<Rule>, h: Host) {
    !Let(call, rules, h) && (OfTier(call, Dangerous, h) || (call.outOfScope && OfTier(call, Mutating, h)))
  }

  /** A guarded path, or an ASK rule that no grant overrides. */
  ghost predicate Guarded(call: Call, rules: seq<Rule>, h: Host) {
    Touches(call, AskFirst, h) || (HasRule(call, rules, ASK, h) && !Let(call, rules, h))
  }

  /** A destructive tool that no rule lets through. */
  ghost predicate Edits(call: Call, rules: seq<Rule>, h: Host) {
    call.tool.isDestructive && !Let(call, rules, h)
  }

  /** Past the steps that are the same in every mode. */
  ghost predicate Open(call: Call, rules: seq<Rule>, h: Host) {
    !Refused(call, rules, h) && !FreeRead(call, rules, h)
  }

  // ----- what the facts of a call mean -----

  lemma MatchIff(call: Call, rules: seq<Rule>, b: RuleBehavior, h: Host)
    ensures FirstMatch(rules, b, call.tool.name, call.key, h).Some? <==> HasRule(call, rules, b, h)
  {
    var r := FirstMatch(rules, b, call.tool.name, call.key, h);
    if r.Some? {
      var k :| 0 <= k < |rules| && rules[k] == r.value;
      assert h.matches(rules[k], call.tool.name, call.key);
    }
  }

  lemma ProtectionIff(call: Call, rules: seq<Rule>, h: Host)
    ensures var p := FactsOf(call, rules, h).protection;
            (p == Secret <==> Touches(call, Secret, h))
            && (p == PermissionEngine.Open <==> !Touches(call, Secret, h) && !Touches(call, AskFirst, h))
  {
    hide FirstMatch, BashAllow;
    if IsBash(call) {
      var paths := h.commandPaths(call.key);
      SomePathIff(call, Secret, h);
      SomePathIff(call, AskFirst, h);
    } else if h.isPathTool(call.tool.name) {
      assert forall p :: Resolves(call.key, p, h) ==> Touches(call, p, h) by {
        assert Names(call, call.key, h);
      }
    }
  }

  lemma SomePathIff(call: Call, p: Protection, h: Host)
    requires IsBash(call) && p != PermissionEngine.Open
    ensures SomePath(h.commandPaths(call.key), p, h) <==> Touches(call, p, h)
  {
    var paths := h.commandPaths(call.key);
    if SomePath(paths, p, h) {
      var k :| 0 <= k < |paths| && ProtectionOfPath(paths[k], h) == p;
      assert Names(call, paths[k], h) && Resolves(paths[k], p, h);
    }
    if Touches(call, p, h) {
      var raw :| Names(call, raw, h) && Resolves(raw, p, h);
      var k :| 0 <= k < |paths| && paths[k] == raw;
      assert ProtectionOfPath(paths[k], h) == p;
    }
  }

  lemma LetIff(call: Call, rules: seq<Rule>, h: Host)
    ensures FactsOf(call, rules, h).allow.Some? <==> Let(call, rules, h)
  {
    hide Split, LooksCompound, FirstMatch, BashAllow, WorstProtection, ProtectionOfPath;
    if IsBash(call) {
      SplitNotEmpty(call.key);
      if !Compound(call.key) {
        SingleAdmittedIff(rules, call.key, h);
      } else if Split(call.key).Some? {
        CompoundAdmittedIff(rules, call.key, h);
      } else {
        UnsplittableAdmittedIff(rules, call.key, h);
      }
    } else {
      MatchIff(call, rules, ALLOW, h);
    }
  }

  /** The facts the cascade looks at, each in terms of the call. */
  ghost predicate FactsMean(f: Facts, call: Call, rules: seq<Rule>, h: Host) {
    && (f.deny.Some? <==> HasRule(call, rules, DENY, h))
    && (f.ask.Some? <==> HasRule(call, rules, ASK, h))
    && (f.allow.Some? <==> Let(call, rules, h))
    && (f.protection == Secret <==> Touches(call, Secret, h))
    && (f.protection == PermissionEngine.Open <==> !Touches(call, Secret, h) && !Touches(call, AskFirst, h))
    && OfTier(call, f.tier, h)
    && (f.planOk <==> IsBash(call) && h.readOnlyCommand(call.key))
    && f.outOfScope == call.outOfScope
  }

  lemma FactsAre(call: Call, rules: seq<Rule>, h: Host)
    ensures FactsMean(FactsOf(call, rules, h), call, rules, h)
  {
    hide FirstMatch, BashAllow, WorstProtection, ProtectionOfPath, HasRule, Let, Touches;
    MatchIff(call, rules, DENY, h);
    MatchIff(call, rules, ASK, h);
    LetIff(call, rules, h);
    ProtectionIff(call, rules, h);
  }

  // ----- the verdict in each mode -----

  /** What is refused, or is a free read, is so in every mode. */
  lemma EveryMode(call: Call, rules: seq<Rule>, h: Host)
    ensures Refused(call, rules, h) ==> Decide(call, rules, h).behavior == Denied
    ensures !Refused(call, rules, h) && FreeRead(call, rules, h) ==> Decide(call, rules, h).behavior == Verdict.Allowed
  {
    hide FactsOf, HasRule, Let, Touches;
    FactsAre(call, rules, h);
  }

  /** Past those, plan mode on a tool that can change something refuses all but read-only commands. */
  lemma PlanVerdict(call: Call, rules: seq<Rule>, h: Host)
    requires call.mode == Plan && !call.tool.isReadOnly && Open(call, rules, h)
    ensures var v := Decide(call, rules, h).behavior;
            && (v == Denied <==> !(IsBash(call) && h.readOnlyCommand(call.key)))
            && v != Asked
  {
    hide FactsOf, HasRule, Let, Touches;
    FactsAre(call, rules, h);
  }

  /** Default mode, and plan mode on a read-only tool. */
  lemma DefaultVerdict(call: Call, rules: seq<Rule>, h: Host)
    requires (call.mode == Default && !call.sandboxIsolated) || (call.mode == Plan && call.tool.isReadOnly)
    ensures var v := Decide(call, rules, h).behavior;
            && (v == Denied <==> Refused(call, rules, h))
            && (v == Asked <==> Open(call, rules, h)
                                && (Risky(call, rules, h) || Guarded(call, rules, h) || Edits(call, rules, h)))
  {
    hide FactsOf, HasRule, Let, Touches;
    FactsAre(call, rules, h);
  }

  lemma AcceptEditsVerdict(call: Call, rules: seq<Rule>, h: Host)
    requires call.mode == AcceptEdits && !call.sandboxIsolated
    ensures var v := Decide(call, rules, h).behavior;
            && (v == Denied <==> Refused(call, rules, h))
            && (v == Asked <==> Open(call, rules, h) && (Risky(call, rules, h) || Guarded(call, rules, h)))
  {
    hide FactsOf, HasRule, Let, Touches;
    FactsAre(call, rules, h);
  }

  /** Bypass mode, and default and acceptEdits where the sandbox is isolated. */
  lemma BypassVerdict(call: Call, rules: seq<Rule>, h: Host)
    requires call.mode == BypassPermissions || (call.sandboxIsolated && call.mode in {Default, AcceptEdits})
    ensures var v := Decide(call, rules, h).behavior;
            && (v == Denied <==> Refused(call, rules, h))
            && (v == Asked <==> Open(call, rules, h) && Risky(call, rules, h))
  {
    hide FactsOf, HasRule, Let, Touches;
    FactsAre(call, rules, h);
  }

  /** dontAsk never asks, and refuses what default would ask about. */
  lemma DontAskVerdict(call: Call, rules: seq<Rule>, h: Host)
    requires call.mode == DontAsk
    ensures var v := Decide(call, rules, h).behavior;
            && v != Asked
            && (v == Denied <==>
                  || Refused(call, rules, h)
                  || (Open(call, rules, h)
                      && (Risky(call, rules, h) || Guarded(call, rules, h) || Edits(call, rules, h))))
  {
    hide FactsOf, HasRule, Let, Touches;
    FactsAre(call, rules, h);
  }

  // ----- the rule reported -----

  /** The call is let through by the rules, rather than by the mode. */
  predicate ModeDecides(call: Call) {
    || call.mode == BypassPermissions || (call.sandboxIsolated && call.mode in {Default, AcceptEdits})
    || (call.mode == Plan && !call.tool.isReadOnly)
  }

  /** A refusal by rule reports the first DENY rule covering the call. A prompt, or the refusal dontAsk makes
      of it, reports the first ASK rule exactly when nothing but the rule is in the way. An allowance reports
      a grant exactly when there is one and the mode was not what decided. */
  lemma RuleReported(call: Call, rules: seq<Rule>, h: Host)
    ensures var d := Decide(call, rules, h);
            match d.behavior
            case Denied =>
              if HasRule(call, rules, DENY, h)
              then d.matchedRule.Some? && FirstCovering(rules, d.matchedRule.value, DENY, call.tool.name, call.key, h)
              else if !Refused(call, rules, h) && call.mode == DontAsk then AskReported(d.matchedRule, call, rules, h)
              else d.matchedRule == None
            case Asked => AskReported(d.matchedRule, call, rules, h)
            case Allowed =>
              && (d.matchedRule.Some? <==> Let(call, rules, h) && (FreeRead(call, rules, h) || !ModeDecides(call)))
              && (d.matchedRule.Some? && IsBash(call) ==> d.matchedRule == BashAllow(rules, call.key, h))
              && (d.matchedRule.Some? && !IsBash(call) ==>
                    FirstCovering(rules, d.matchedRule.value, ALLOW, call.tool.name, call.key, h))
  {
    hide FirstMatch, BashAllow, WorstProtection, ProtectionOfPath, HasRule, Let, Touches, FirstCovering;
    FactsAre(call, rules, h);
    var f := FactsOf(call, rules, h);
    if f.deny.Some? { FirstMatchIsFirst(rules, DENY, call.tool.name, call.key, h); }
    if f.ask.Some? { FirstMatchIsFirst(rules, ASK, call.tool.name, call.key, h); }
    if f.allow.Some? && !IsBash(call) { FirstMatchIsFirst(rules, ALLOW, call.tool.name, call.key, h); }
  }

  ghost predicate AskReported(reported: Option<Rule>, call: Call, rules: seq<Rule>, h: Host) {
    && (reported.Some? <==> HasRule(call, rules, ASK, h) && !Touches(call, AskFirst, h) && !Risky(call, rules, h)
                            && !Let(call, rules, h))
    && (reported.Some? ==> FirstCovering(rules, reported.value, ASK, call.tool.name, call.key, h))
  }
}
