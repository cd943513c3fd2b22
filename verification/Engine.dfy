/**
 The engine of internal/policy/engine.go: the atomic policy pointer and Evaluate, and what evaluating a
 compiled policy means for the configuration it came from.
 */
module Engine {
  import opened Basics
  import opened Policy
  import Verbs

  /** What Evaluate answers for the policy it loaded; without one it fails closed. */
  function Evaluated(globs: Globs, p: Option<CompiledPolicy>, call: Call): Decision {
    if p.None? then Deny else Decide(globs, p.value, call)
  }

  class Engine {
    var current: Option<CompiledPolicy>

    /** New. */
    constructor (p: Option<CompiledPolicy>)
      ensures current == Some(if p.Some? then p.value else DENY_BY_DEFAULT)
    {
      current := if p.None? then Some(DENY_BY_DEFAULT) else p;
    }

    /** Update: a nil policy is replaced by deny-by-default, so the pointer is never nil afterwards. */
    method Update(p: Option<CompiledPolicy>)
      modifies this
      ensures current == Some(if p.Some? then p.value else DENY_BY_DEFAULT)
    {
      if p.None? {
        var startup := new Engine(Some(DENY_BY_DEFAULT));
        current := startup.current;
        return;
      }
      current := p;
    }

    method Evaluate(globs: Globs, call: Call) returns (d: Decision)
      ensures d == Evaluated(globs, current, call)
    {
      var p := current;
      if p.None? {
        return Deny;
      }
      var printable := CheckAsciiPrintable(call.tool);
      if !printable {
        return Deny;
      }
      var rules := p.value.rules;
      hide RuleMatches;
      for i := 0 to |rules|
        invariant FirstMatch(globs, rules, call) == FirstMatch(globs, rules[i..], call)
      {
        if RuleMatches(globs, rules[i], call) {
          return rules[i].decision;
        }
      }
      var destructive := Verbs.IsDestructiveTool(s => Verbs.Lower(s), call.tool);
      d := if destructive then RequireApproval else p.value.defaultDecision;
    }
  }

  method CheckAsciiPrintable(s: string) returns (ok: bool)
    ensures ok <==> IsAsciiPrintable(s)
  {
    if s == "" {
      return false;
    }
    for i := 0 to |s|
      invariant forall j :: 0 <= j < i ==> '!' <= s[j] <= '~'
    {
      if s[i] < '!' || s[i] > '~' {
        return false;
      }
    }
    ok := true;
  }

  // ---------- what the in-place sort leaves ----------

  lemma {:induction false} InBucket(rules: seq<CompiledRule>, r: CompiledRule)
    requires r in rules
    ensures r in Bucket(rules, r.specificity)
  {
    if rules[0] != r {
      InBucket(rules[1..], r);
    }
  }

  lemma {:induction false} BucketWithin(rules: seq<CompiledRule>, r: CompiledRule, k: int)
    requires r in Bucket(rules, k)
    ensures r in rules && r.specificity == k
  {
    if rules[1..] != [] && r in Bucket(rules[1..], k) {
      BucketWithin(rules[1..], r, k);
    }
  }

  lemma {:induction false} EmptyBucket(rules: seq<CompiledRule>, k: int)
    requires forall i :: 0 <= i < |rules| ==> rules[i].specificity != k
    ensures Bucket(rules, k) == []
  {
    if rules != [] {
      EmptyBucket(rules[1..], k);
    }
  }

  lemma SortedTail(rules: seq<CompiledRule>)
    requires Sorted(rules) && rules != []
    ensures Sorted(rules[1..])
    ensures rules[0].specificity == GLOB_TOOL ==> Bucket(rules[1..], EXACT_TOOL) == []
  {
    if rules[0].specificity == GLOB_TOOL {
      EmptyBucket(rules[1..], EXACT_TOOL);
    }
  }

  ghost predicate TwoSpecificities(rules: seq<CompiledRule>) {
    forall i :: 0 <= i < |rules| ==> rules[i].specificity == EXACT_TOOL || rules[i].specificity == GLOB_TOOL
  }

  lemma {:induction false} SortedIsTwoBuckets(rules: seq<CompiledRule>)
    requires Sorted(rules) && TwoSpecificities(rules)
    ensures rules == Bucket(rules, EXACT_TOOL) + Bucket(rules, GLOB_TOOL)
  {
    hide Bucket, Sorted, TwoSpecificities;
    if rules == [] {
      NoBuckets();
    } else {
      var r, rest := rules[0], rules[1..];
      SortedTail(rules);
      TwoTail(rules);
      SortedIsTwoBuckets(rest);
      BucketUnfold(rules, EXACT_TOOL);
      BucketUnfold(rules, GLOB_TOOL);
      OneMoreRule(rules, Bucket(rest, EXACT_TOOL), Bucket(rest, GLOB_TOOL));
    }
  }

  lemma NoBuckets()
    ensures Bucket([], EXACT_TOOL) == Bucket([], GLOB_TOOL) == []
  {
  }

  lemma TwoTail(rules: seq<CompiledRule>)
    requires TwoSpecificities(rules) && rules != []
    ensures TwoSpecificities(rules[1..]) && (rules[0].specificity == EXACT_TOOL || rules[0].specificity == GLOB_TOOL)
  {
  }

  /** The first rule joins the front of one of the two lists. */
  lemma OneMoreRule<T>(rules: seq<T>, exact: seq<T>, glob: seq<T>)
    requires rules != [] && rules[1..] == exact + glob
    ensures rules == ([rules[0]] + exact) + ([] + glob)
    ensures exact == [] ==> rules == ([] + exact) + ([rules[0]] + glob)
  {
    assert rules == [rules[0]] + rules[1..];
  }

  /** The compiled rules are the exact rules followed by the glob rules, each in file order. */
  lemma CompiledOrder(c: Config, p: CompiledPolicy)
    requires CompilesTo(c, p)
    ensures p.rules == Bucket(CompiledAll(c.rules), EXACT_TOOL) + Bucket(CompiledAll(c.rules), GLOB_TOOL)
  {
    var all := CompiledAll(c.rules);
    assert Bucket(p.rules, EXACT_TOOL) == Bucket(all, EXACT_TOOL);
    assert Bucket(p.rules, GLOB_TOOL) == Bucket(all, GLOB_TOOL);
    forall i | 0 <= i < |p.rules|
      ensures p.rules[i].specificity == EXACT_TOOL || p.rules[i].specificity == GLOB_TOOL
    {
      InBucket(p.rules, p.rules[i]);
      assert p.rules[i] in Bucket(all, p.rules[i].specificity);
      BucketWithin(all, p.rules[i], p.rules[i].specificity);
      assert p.rules[i] in all;
    }
    SortedIsTwoBuckets(p.rules);
  }

  // ---------- Compile, sort, Evaluate against the configuration ----------

  lemma {:induction false} FirstMatchAppend(globs: Globs, a: seq<CompiledRule>, b: seq<CompiledRule>, call: Call)
    ensures FirstMatch(globs, a + b, call) ==
            if FirstMatch(globs, a, call).Some? then FirstMatch(globs, a, call) else FirstMatch(globs, b, call)
  {
    hide RuleMatches;
    if a == [] {
      assert a + b == b;
    } else {
      assert (a + b)[1..] == a[1..] + b;
      FirstMatchAppend(globs, a[1..], b, call);
    }
  }

  lemma {:induction false} FirstInBucket(globs: Globs, rules: seq<Rule>, glob: bool, call: Call)
    ensures var k := if glob then GLOB_TOOL else EXACT_TOOL;
            var first := FirstApplying(globs, rules, glob, call);
            FirstMatch(globs, Bucket(CompiledAll(rules), k), call)
              == if first.Some? then Some(Compiled(first.value)) else None
  {
    hide Compiled, Applies, RuleMatches, IsGlob;
    var k := if glob then GLOB_TOOL else EXACT_TOOL;
    if rules == [] {
      assert Bucket(CompiledAll(rules), k) == [];
    } else {
      FirstInBucket(globs, rules[1..], glob, call);
      BucketCons(rules, glob);
      CompiledRuleMatches(globs, rules[0], call);
      var head := if IsGlob(rules[0].tool) == glob then [Compiled(rules[0])] else [];
      FirstMatchAppend(globs, head, Bucket(CompiledAll(rules[1..]), k), call);
      hide Bucket, CompiledAll;
      assert FirstMatch(globs, head, call).Some? <==> IsGlob(rules[0].tool) == glob && Applies(globs, rules[0], call);
    }
  }

  lemma BucketCons(rules: seq<Rule>, glob: bool)
    requires rules != []
    ensures var k := if glob then GLOB_TOOL else EXACT_TOOL;
            Bucket(CompiledAll(rules), k) ==
            (if IsGlob(rules[0].tool) == glob then [Compiled(rules[0])] else []) + Bucket(CompiledAll(rules[1..]), k)
  {
    hide IsGlob, ParseDecision;
    assert CompiledAll(rules)[1..] == CompiledAll(rules[1..]);
  }

  lemma CompiledRuleMatches(globs: Globs, r: Rule, call: Call)
    ensures RuleMatches(globs, Compiled(r), call) <==> Applies(globs, r, call)
  {
    hide IsGlob, ParseDecision;
  }

  /** Evaluating the compiled, sorted policy is what the configuration declares, for every call. */
  lemma CompiledMeansDeclared(globs: Globs, c: Config, p: CompiledPolicy, call: Call)
    requires CompilesTo(c, p)
    ensures Decide(globs, p, call) == Declared(globs, c, call)
  {
    hide IsAsciiPrintable, ParseDecision, Verbs.IsDestructive;
    CompiledOrder(c, p);
    var all := CompiledAll(c.rules);
    FirstMatchAppend(globs, Bucket(all, EXACT_TOOL), Bucket(all, GLOB_TOOL), call);
    FirstInBucket(globs, c.rules, false, call);
    FirstInBucket(globs, c.rules, true, call);
  }

  /** `FirstApplying` is the earliest rule of its group: it applies, and none before it in the file does. */
  lemma {:induction false} FirstApplyingIsEarliest(globs: Globs, rules: seq<Rule>, glob: bool, call: Call)
    ensures match FirstApplying(globs, rules, glob, call)
            case None =>
              forall i :: 0 <= i < |rules| ==> !(IsGlob(rules[i].tool) == glob && Applies(globs, rules[i], call))
            case Some(r) =>
              exists i :: 0 <= i < |rules| && rules[i] == r && IsGlob(r.tool) == glob && Applies(globs, r, call)
                          && forall j :: 0 <= j < i ==>
                                           !(IsGlob(rules[j].tool) == glob && Applies(globs, rules[j], call))
  {
    hide IsGlob, Applies;
    if rules != [] && !(IsGlob(rules[0].tool) == glob && Applies(globs, rules[0], call)) {
      FirstApplyingIsEarliest(globs, rules[1..], glob, call);
      var found := FirstApplying(globs, rules[1..], glob, call);
      if found.Some? {
        var i :| 0 <= i < |rules[1..]| && rules[1..][i] == found.value
                 && forall j :: 0 <= j < i ==>
                                  !(IsGlob(rules[1..][j].tool) == glob && Applies(globs, rules[1..][j], call));
        assert rules[i + 1] == found.value;
        forall j | 0 <= j < i + 1
          ensures !(IsGlob(rules[j].tool) == glob && Applies(globs, rules[j], call))
        {
          assert j > 0 ==> rules[j] == rules[1..][j - 1];
        }
      } else {
        forall i | 0 <= i < |rules|
          ensures !(IsGlob(rules[i].tool) == glob && Applies(globs, rules[i], call))
        {
          assert i > 0 ==> rules[i] == rules[1..][i - 1];
        }
      }
    }
  }

  // ---------- the order of rules ----------

  /** The rules of one group, in file order. */
  function Group(rules: seq<Rule>, glob: bool): seq<Rule> {
    if rules == [] then []
    else (if IsGlob(rules[0].tool) == glob then [rules[0]] else []) + Group(rules[1..], glob)
  }

  lemma {:induction false} BucketOfGroup(rules: seq<Rule>, glob: bool)
    ensures Bucket(CompiledAll(rules), if glob then GLOB_TOOL else EXACT_TOOL) == CompiledAll(Group(rules, glob))
  {
    hide IsGlob, ParseDecision;
    if rules != [] {
      BucketOfGroup(rules[1..], glob);
      BucketCons(rules, glob);
      var g := Group(rules[1..], glob);
      assert ([rules[0]] + g)[1..] == g;
    }
  }

  /** A compiled policy that is given a version is still what its configuration compiles to, and decides the
      same; and so is the policy in force before any configuration, whatever its version. */
  lemma VersionsDoNotDecide(globs: Globs, c: Config, p: CompiledPolicy, version: int, call: Call)
    ensures CompilesTo(c, p) ==> CompilesTo(c, p.(version := version))
    ensures CompilesTo(Config("deny", []), DENY_BY_DEFAULT.(version := version))
    ensures Decide(globs, p.(version := version), call) == Decide(globs, p, call)
  {
    hide IsAsciiPrintable, Verbs.IsDestructive;
  }

  /** Reordering rules without reordering the exact ones among themselves or the glob ones among
      themselves compiles to the same rules, so no decision changes. */
  lemma OrderBetweenGroupsIrrelevant(
    globs: Globs, c: Config, d: Config, p: CompiledPolicy, q: CompiledPolicy, call: Call)
    requires CompilesTo(c, p) && CompilesTo(d, q)
    requires c.defaultAction == d.defaultAction
    requires Group(c.rules, false) == Group(d.rules, false) && Group(c.rules, true) == Group(d.rules, true)
    ensures p.(version := 0) == q.(version := 0)
    ensures Decide(globs, p, call) == Decide(globs, q, call)
    ensures Declared(globs, c, call) == Declared(globs, d, call)
  {
    hide ParseDecision, Bucket, CompiledAll, SameBuckets, Sorted, Group, Decide, Declared;
    CompiledOrder(c, p);
    CompiledOrder(d, q);
    BucketOfGroup(c.rules, false);
    BucketOfGroup(c.rules, true);
    BucketOfGroup(d.rules, false);
    BucketOfGroup(d.rules, true);
    CompiledMeansDeclared(globs, c, p, call);
    CompiledMeansDeclared(globs, d, q, call);
    VersionsDoNotDecide(globs, c, p, 0, call);
    VersionsDoNotDecide(globs, d, q, 0, call);
  }

  lemma {:induction false} FirstApplyingSnoc(globs: Globs, rules: seq<Rule>, r: Rule, glob: bool, call: Call)
    ensures FirstApplying(globs, rules + [r], glob, call) ==
            if FirstApplying(globs, rules, glob, call).Some? then FirstApplying(globs, rules, glob, call)
            else if IsGlob(r.tool) == glob && Applies(globs, r, call) then Some(r)
            else None
  {
    hide IsGlob, Applies;
    if rules == [] {
      assert rules + [r] == [r];
    } else {
      assert (rules + [r])[1..] == rules[1..] + [r];
      FirstApplyingSnoc(globs, rules[1..], r, glob, call);
    }
  }

  /** Whether some rule outranks `r` for the call: an exact rule always, a glob rule only if `r` is one. */
  predicate Outranked(globs: Globs, c: Config, r: Rule, call: Call) {
    || FirstApplying(globs, c.rules, false, call).Some?
    || (IsGlob(r.tool) && FirstApplying(globs, c.rules, true, call).Some?)
  }

  /** Appending a rule decides exactly the calls it applies to and no earlier-ranked rule did. */
  lemma AppendedRule(globs: Globs, c: Config, r: Rule, call: Call)
    ensures Declared(globs, c.(rules := c.rules + [r]), call) ==
            if IsAsciiPrintable(call.tool) && Applies(globs, r, call) && !Outranked(globs, c, r, call)
            then ParseDecision(r.action)
            else Declared(globs, c, call)
  {
    hide IsGlob, Applies, IsAsciiPrintable, ParseDecision, Verbs.IsDestructive;
    FirstApplyingSnoc(globs, c.rules, r, false, call);
    FirstApplyingSnoc(globs, c.rules, r, true, call);
  }

  // ---------- the gate ----------

  lemma {:induction false} FirstMatchIsRule(globs: Globs, rules: seq<CompiledRule>, call: Call)
    ensures var first := FirstMatch(globs, rules, call);
            first.Some? ==> first.value in rules && RuleMatches(globs, first.value, call)
  {
    hide RuleMatches;
    if rules != [] {
      FirstMatchIsRule(globs, rules[1..], call);
    }
  }

  /** Whatever the default and the catch-all rule say, a destructive name is allowed only by an
      explicit rule that matches the call and says allow. */
  lemma DestructiveNeedsRule(globs: Globs, p: CompiledPolicy, call: Call)
    requires Verbs.IsDestructive(call.tool)
    ensures Decide(globs, p, call) == Allow ==>
              exists r :: r in p.rules && RuleMatches(globs, r, call) && r.decision == Allow
    ensures FirstMatch(globs, p.rules, call).None? ==>
              Decide(globs, p, call) == Deny || Decide(globs, p, call) == RequireApproval
  {
    hide RuleMatches;
    FirstMatchIsRule(globs, p.rules, call);
  }

  /** A policy made by Compile never answers Unset. */
  lemma CompiledNeverUnset(globs: Globs, c: Config, p: CompiledPolicy, call: Call)
    requires Compiles(globs, c) && CompilesTo(c, p)
    ensures Decide(globs, p, call) != Unset
  {
    hide IsGlob, Applies, ParseDecision;
    CompiledMeansDeclared(globs, c, p, call);
    FirstApplyingIsEarliest(globs, c.rules, false, call);
    FirstApplyingIsEarliest(globs, c.rules, true, call);
    assert forall r :: r in c.rules ==> RuleCompiles(globs, r);
  }

  /** Before any configuration is loaded nothing is allowed, and approval is asked for exactly on
      printable destructive names. The policy then in force has version 0. */
  lemma StartupPosture(globs: Globs, call: Call)
    ensures DENY_BY_DEFAULT.version == 0 && DENY_BY_DEFAULT.rules == []
    ensures DENY_BY_DEFAULT.catchAll ==
            CompiledRule(Rule("__destructive_catchall__", "*", [], "require_approval"), None, [], RequireApproval, 2)
    ensures Decide(globs, DENY_BY_DEFAULT, call) ==
            if IsAsciiPrintable(call.tool) && Verbs.IsDestructive(call.tool) then RequireApproval else Deny
  {
  }

  // ---------- the decision, spelled out ----------

  /** A pattern is a glob when it has one of the four characters that start a glob construct. */
  ghost predicate Patterned(pattern: string) {
    exists i :: 0 <= i < |pattern| && (pattern[i] == '*' || pattern[i] == '?' || pattern[i] == '[' || pattern[i] == '{')
  }

  /** The rule is about this tool, and, if it lists targets, some one of them matches a target that is given. */
  ghost predicate Speaks(globs: Globs, r: Rule, call: Call) {
    && (Patterned(r.tool) ==> globs.matches(r.tool, call.tool))
    && (!Patterned(r.tool) ==> r.tool == call.tool)
    && (r.targets == []
        || (call.target != "" && exists i :: 0 <= i < |r.targets| && globs.matches(r.targets[i], call.target)))
  }

  lemma RuleSpelled(globs: Globs, r: Rule, call: Call)
    ensures IsGlob(r.tool) <==> Patterned(r.tool)
    ensures Applies(globs, r, call) <==> Speaks(globs, r, call)
    ensures RuleMatches(globs, Compiled(r), call) <==> Speaks(globs, r, call)
  {
    assert IsGlob(r.tool) <==> Patterned(r.tool);
    CompiledRuleMatches(globs, r, call);
    hide IsGlob, Patterned, RuleMatches, Compiled;
  }

  /** Rule `i` speaks about the call, and none before it of its kind, exact or glob, does. */
  ghost predicate SpeaksFirst(globs: Globs, rules: seq<Rule>, glob: bool, call: Call, i: nat) {
    && i < |rules| && Patterned(rules[i].tool) == glob && Speaks(globs, rules[i], call)
    && forall j :: 0 <= j < i ==> !(Patterned(rules[j].tool) == glob && Speaks(globs, rules[j], call))
  }

  ghost predicate Silent(globs: Globs, rules: seq<Rule>, glob: bool, call: Call) {
    forall j :: 0 <= j < |rules| ==> !(Patterned(rules[j].tool) == glob && Speaks(globs, rules[j], call))
  }

  /** What the configuration prescribes, as a word of the configuration: the action of the first exact rule
      that speaks about the call, else of the first glob rule that does, else approval when a verb is spelled in
      the name, else the default; and denial for a name that is not printable ASCII. */
  ghost predicate Prescribes(globs: Globs, c: Config, call: Call, action: string) {
    if call.tool == "" || exists k :: 0 <= k < |call.tool| && !('!' <= call.tool[k] <= '~') then action == "deny"
    else
      || (exists i: nat :: SpeaksFirst(globs, c.rules, false, call, i) && action == c.rules[i].action)
      || (Silent(globs, c.rules, false, call)
          && exists i: nat :: SpeaksFirst(globs, c.rules, true, call, i) && action == c.rules[i].action)
      || (Silent(globs, c.rules, false, call) && Silent(globs, c.rules, true, call)
          && action == if NamesVerb(call.tool) then "require_approval" else c.defaultAction)
  }

  ghost predicate NamesVerb(tool: string) {
    exists v, i: nat ::
      v in ["delete", "drop", "truncate", "revoke", "disable", "wipe", "purge"] && Verbs.SpelledAt(tool, v, i)
  }

  lemma FirstSpelled(globs: Globs, rules: seq<Rule>, glob: bool, call: Call)
    ensures forall i: nat ::
              SpeaksFirst(globs, rules, glob, call, i) ==> FirstApplying(globs, rules, glob, call) == Some(rules[i])
    ensures Silent(globs, rules, glob, call) ==> FirstApplying(globs, rules, glob, call) == None
  {
    FirstApplyingIsEarliest(globs, rules, glob, call);
    forall j | 0 <= j < |rules|
      ensures IsGlob(rules[j].tool) == glob && Applies(globs, rules[j], call) <==>
              Patterned(rules[j].tool) == glob && Speaks(globs, rules[j], call)
    {
      RuleSpelled(globs, rules[j], call);
    }
    hide IsGlob, Applies, Patterned, Speaks, FirstApplying;
  }

  /** The compiled policy decides what the configuration prescribes. */
  lemma DecisionSpelled(globs: Globs, c: Config, p: CompiledPolicy, call: Call, action: string)
    requires CompilesTo(c, p) && Prescribes(globs, c, call, action)
    ensures Decide(globs, p, call) == Allow <==> action == "allow"
    ensures Decide(globs, p, call) == Deny <==> action == "deny"
    ensures Decide(globs, p, call) == RequireApproval <==> action == "require_approval"
  {
    CompiledMeansDeclared(globs, c, p, call);
    FirstSpelled(globs, c.rules, false, call);
    FirstSpelled(globs, c.rules, true, call);
    if IsAsciiPrintable(call.tool) {
      Verbs.GateSpelled(call.tool);
    }
    hide Decide, CompilesTo, SpeaksFirst, Silent, FirstApplying, Verbs.IsDestructive, Verbs.SpelledAt;
  }

  /** Every call has something prescribed. */
  lemma SomethingPrescribed(globs: Globs, c: Config, call: Call) returns (action: string)
    ensures Prescribes(globs, c, call, action)
  {
    action := "deny";
    if IsAsciiPrintable(call.tool) {
      var exact := FirstOrSilent(globs, c.rules, false, call);
      var glob := FirstOrSilent(globs, c.rules, true, call);
      hide SpeaksFirst, Silent;
      action := if exact.Some? then c.rules[exact.value].action
                else if glob.Some? then c.rules[glob.value].action
                else if NamesVerb(call.tool) then "require_approval" else c.defaultAction;
    }
  }

  lemma {:induction false} FirstOrSilent(globs: Globs, rules: seq<Rule>, glob: bool, call: Call)
      returns (first: Option<nat>)
    ensures first.Some? ==> SpeaksFirst(globs, rules, glob, call, first.value)
    ensures first.None? ==> Silent(globs, rules, glob, call)
  {
    hide Patterned, Speaks;
    first := None;
    var i := 0;
    while i < |rules|
      invariant i <= |rules|
      invariant forall j :: 0 <= j < i ==> !(Patterned(rules[j].tool) == glob && Speaks(globs, rules[j], call))
    {
      if Patterned(rules[i].tool) == glob && Speaks(globs, rules[i], call) {
        return Some(i);
      }
      i := i + 1;
    }
  }
}
