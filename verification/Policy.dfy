/**
 Policies of internal/policy: the configured rules, their compiled form, and what a compiled policy
 decides. Pattern compilation and glob matching are arbitrary functions (`Globs`).
 */
module Policy {
  import opened Basics
  import Verbs

  datatype Decision = Unset | Allow | Deny | RequireApproval

  function ParseDecision(s: string): (d: Decision)
    ensures s == "allow" <==> d == Allow
    ensures s == "deny" <==> d == Deny
    ensures s == "require_approval" <==> d == RequireApproval
  {
    if s == "allow" then Allow
    else if s == "deny" then Deny
    else if s == "require_approval" then RequireApproval
    else Unset
  }

  /** The glob library: which patterns compile, and which texts a compiled pattern matches. */
  datatype Globs = Globs(compiles: string -> bool, matches: (string, string) -> bool)

  /** config.Rule, without the approval fields the engine never reads. */
  datatype Rule = Rule(id: string, tool: string, targets: seq<string>, action: string)

  datatype Config = Config(defaultAction: string, rules: seq<Rule>)

  datatype CompiledRule = CompiledRule(
    raw: Rule, toolGlob: Option<string>, targetGlobs: seq<string>, decision: Decision, specificity: int)

  datatype CompiledPolicy = CompiledPolicy(
    version: int, rules: seq<CompiledRule>, defaultDecision: Decision, catchAll: CompiledRule)

  const EXACT_TOOL := 0
  const GLOB_TOOL := 1
  const CATCH_ALL_SPECIFICITY := 2

  const CATCH_ALL := CompiledRule(
    Rule("__destructive_catchall__", "*", [], "require_approval"), None, [], RequireApproval, CATCH_ALL_SPECIFICITY)

  const DENY_BY_DEFAULT := CompiledPolicy(0, [], Deny, CATCH_ALL)

  predicate IsGlob(pattern: string) {
    exists i :: 0 <= i < |pattern| && (pattern[i] == '*' || pattern[i] == '?' || pattern[i] == '[' || pattern[i] == '{')
  }

  /** What Evaluate is asked about; the arguments map is never read by the engine. */
  datatype Call = Call(tool: string, target: string)

  predicate IsAsciiPrintable(s: string) {
    s != "" && forall i :: 0 <= i < |s| ==> '!' <= s[i] <= '~'
  }

  predicate AnyTarget(globs: Globs, patterns: seq<string>, target: string) {
    exists i :: 0 <= i < |patterns| && globs.matches(patterns[i], target)
  }

  // ---------- the declared meaning of a configuration ----------

  /** Whether a configured rule speaks about a call. */
  predicate Applies(globs: Globs, r: Rule, call: Call) {
    && (if IsGlob(r.tool) then globs.matches(r.tool, call.tool) else call.tool == r.tool)
    && (r.targets == [] || (call.target != "" && AnyTarget(globs, r.targets, call.target)))
  }

  /** The first rule in file order, among exact or among glob rules, that applies to the call. */
  function FirstApplying(globs: Globs, rules: seq<Rule>, glob: bool, call: Call): Option<Rule> {
    if rules == [] then None
    else if IsGlob(rules[0].tool) == glob && Applies(globs, rules[0], call) then Some(rules[0])
    else FirstApplying(globs, rules[1..], glob, call)
  }

  /** What the configuration says: exact rules before glob rules, each in file order, then the
      destructive-verb gate, then the default. No sorting and no compiled form is involved. */
  function Declared(globs: Globs, c: Config, call: Call): Decision {
    if !IsAsciiPrintable(call.tool) then Deny
    else
      var exact, glob := FirstApplying(globs, c.rules, false, call), FirstApplying(globs, c.rules, true, call);
      if exact.Some? then ParseDecision(exact.value.action)
      else if glob.Some? then ParseDecision(glob.value.action)
      else if Verbs.IsDestructive(call.tool) then RequireApproval
      else ParseDecision(c.defaultAction)
  }

  // ---------- the compiled form ----------

  predicate RuleMatches(globs: Globs, r: CompiledRule, call: Call) {
    && (if r.toolGlob.None? then call.tool == r.raw.tool else globs.matches(r.toolGlob.value, call.tool))
    && (r.targetGlobs == [] || (call.target != "" && AnyTarget(globs, r.targetGlobs, call.target)))
  }

  /** The first matching rule of a list. */
  function FirstMatch(globs: Globs, rules: seq<CompiledRule>, call: Call): Option<CompiledRule> {
    if rules == [] then None
    else if RuleMatches(globs, rules[0], call) then Some(rules[0])
    else FirstMatch(globs, rules[1..], call)
  }

  /** What a compiled policy decides. */
  function Decide(globs: Globs, p: CompiledPolicy, call: Call): Decision {
    if !IsAsciiPrintable(call.tool) then Deny
    else
      var first := FirstMatch(globs, p.rules, call);
      if first.Some? then first.value.decision
      else if Verbs.IsDestructive(call.tool) then RequireApproval
      else p.defaultDecision
  }

  predicate RuleCompiles(globs: Globs, r: Rule) {
    && ParseDecision(r.action) != Unset
    && (IsGlob(r.tool) ==> globs.compiles(r.tool))
    && forall i :: 0 <= i < |r.targets| ==> globs.compiles(r.targets[i])
  }

  /** The configurations Compile accepts. */
  predicate Compiles(globs: Globs, c: Config) {
    && ParseDecision(c.defaultAction) != Unset
    && forall i :: 0 <= i < |c.rules| ==> RuleCompiles(globs, c.rules[i])
  }

  /** The compiled form of one rule. */
  function Compiled(r: Rule): CompiledRule {
    CompiledRule(r, if IsGlob(r.tool) then Some(r.tool) else None, r.targets, ParseDecision(r.action),
                 if IsGlob(r.tool) then GLOB_TOOL else EXACT_TOOL)
  }

  function CompiledAll(rules: seq<Rule>): (rs: seq<CompiledRule>)
    ensures |rs| == |rules|
    ensures forall i :: 0 <= i < |rules| ==> rs[i] == Compiled(rules[i])
  {
    if rules == [] then [] else [Compiled(rules[0])] + CompiledAll(rules[1..])
  }

  // ---------- stable sorting ----------

  ghost predicate Sorted(rules: seq<CompiledRule>) {
    forall i, j :: 0 <= i < j < |rules| ==> rules[i].specificity <= rules[j].specificity
  }

  /** The rules of one specificity, in order. */
  ghost function Bucket(rules: seq<CompiledRule>, k: int): seq<CompiledRule> {
    if rules == [] then []
    else (if rules[0].specificity == k then [rules[0]] else []) + Bucket(rules[1..], k)
  }

  /** The two lists have the same rules of every specificity, in the same order. */
  ghost predicate SameBuckets(a: seq<CompiledRule>, b: seq<CompiledRule>) {
    forall k :: Bucket(a, k) == Bucket(b, k)
  }

  lemma BucketUnfold(rules: seq<CompiledRule>, k: int)
    requires rules != []
    ensures Bucket(rules, k) == (if rules[0].specificity == k then [rules[0]] else []) + Bucket(rules[1..], k)
  {
  }

  lemma {:induction false} BucketAppend(a: seq<CompiledRule>, b: seq<CompiledRule>, k: int)
    ensures Bucket(a + b, k) == Bucket(a, k) + Bucket(b, k)
  {
    if a == [] {
      assert a + b == b;
    } else {
      hide Bucket;
      assert (a + b)[1..] == a[1..] + b;
      BucketUnfold(a + b, k);
      BucketUnfold(a, k);
      BucketAppend(a[1..], b, k);
    }
  }

  /** Exchanging two neighbours of different specificity keeps every bucket. */
  lemma SwapKeepsBuckets(rules: seq<CompiledRule>, j: nat)
    requires 0 < j < |rules| && rules[j - 1].specificity != rules[j].specificity
    ensures SameBuckets(rules[j - 1 := rules[j]][j := rules[j - 1]], rules)
  {
    hide Bucket;
    var x, y, pre, post := rules[j - 1], rules[j], rules[..j - 1], rules[j + 1..];
    var swapped := rules[j - 1 := y][j := x];
    assert rules == pre + ([x, y] + post);
    assert swapped == pre + ([y, x] + post);
    forall k
      ensures Bucket(swapped, k) == Bucket(rules, k)
    {
      BucketAppend(pre, [x, y] + post, k);
      BucketAppend(pre, [y, x] + post, k);
      BucketAppend([x, y], post, k);
      BucketAppend([y, x], post, k);
      PairBuckets(x, y, k);
    }
  }

  lemma PairBuckets(x: CompiledRule, y: CompiledRule, k: int)
    requires x.specificity != y.specificity
    ensures Bucket([x, y], k) == Bucket([y, x], k)
  {
    assert [x, y][1..] == [y] && [y, x][1..] == [x];
    assert Bucket([x], k) == if x.specificity == k then [x] else [];
    assert Bucket([y], k) == if y.specificity == k then [y] else [];
  }

  /** sortBySpecificity: the insertion sort, in place. The result is sorted, and within each specificity
      nothing is lost, added or reordered. */
  method SortBySpecificity(rules: array<CompiledRule>)
    modifies rules
    ensures Sorted(rules[..])
    ensures SameBuckets(rules[..], old(rules[..]))
  {
    hide SameBuckets;
    var i := 1;
    SameBucketsRefl(rules[..]);
    while i < rules.Length
      invariant 1 <= i
      invariant Sorted(rules[..if i <= rules.Length then i else rules.Length])
      invariant SameBuckets(rules[..], old(rules[..]))
    {
      var j := i;
      while j > 0 && rules[j - 1].specificity > rules[j].specificity
        invariant j <= i < rules.Length
        invariant forall a, b :: 0 <= a < b <= i && b != j ==> rules[a].specificity <= rules[b].specificity
        invariant SameBuckets(rules[..], old(rules[..]))
      {
        ghost var was := rules[..];
        SwapKeepsBuckets(was, j);
        rules[j - 1], rules[j] := rules[j], rules[j - 1];
        assert rules[..] == was[j - 1 := was[j]][j := was[j - 1]];
        SameBucketsTrans(rules[..], was, old(rules[..]));
        j := j - 1;
      }
      i := i + 1;
    }
    assert rules[..] == rules[..rules.Length];
  }

  lemma SameBucketsRefl(a: seq<CompiledRule>)
    ensures SameBuckets(a, a)
  {
  }

  lemma SameBucketsTrans(a: seq<CompiledRule>, b: seq<CompiledRule>, c: seq<CompiledRule>)
    requires SameBuckets(a, b) && SameBuckets(b, c)
    ensures SameBuckets(a, c)
  {
  }

  // ---------- Compile ----------

  datatype CompileError =
    NilConfig | BadDefault | BadAction(rule: nat) | BadTool(rule: nat) | BadTarget(rule: nat, target: nat)

  /** What is wrong with a rule, if its error is reported as `e`: the first thing in field order. */
  ghost predicate FirstFault(globs: Globs, r: Rule, e: CompileError) {
    match e
    case NilConfig => false
    case BadDefault => false
    case BadAction(_) => ParseDecision(r.action) == Unset
    case BadTool(_) => ParseDecision(r.action) != Unset && IsGlob(r.tool) && !globs.compiles(r.tool)
    case BadTarget(_, t) =>
      && ParseDecision(r.action) != Unset && (IsGlob(r.tool) ==> globs.compiles(r.tool))
      && t < |r.targets| && !globs.compiles(r.targets[t])
      && forall i :: 0 <= i < t ==> globs.compiles(r.targets[i])
  }

  /** compileRule; `index` only labels the error. */
  method CompileRule(globs: Globs, r: Rule, index: nat) returns (res: Result<CompiledRule, CompileError>)
    ensures res.Ok? <==> RuleCompiles(globs, r)
    ensures res.Ok? ==> res.value == Compiled(r)
    ensures res.Err? ==> FirstFault(globs, r, res.error) && res.error.rule == index
  {
    hide ParseDecision, IsGlob;
    var decision := ParseDecision(r.action);
    if decision == Unset {
      return Err(BadAction(index));
    }
    var cr := CompiledRule(r, None, [], decision, EXACT_TOOL);
    if IsGlob(r.tool) {
      if !globs.compiles(r.tool) {
        return Err(BadTool(index));
      }
      cr := cr.(toolGlob := Some(r.tool), specificity := GLOB_TOOL);
    }
    for t := 0 to |r.targets|
      invariant cr == Compiled(r).(targetGlobs := r.targets[..t])
      invariant forall i :: 0 <= i < t ==> globs.compiles(r.targets[i])
    {
      if !globs.compiles(r.targets[t]) {
        return Err(BadTarget(index, t));
      }
      cr := cr.(targetGlobs := cr.targetGlobs + [r.targets[t]]);
    }
    assert r.targets[..|r.targets|] == r.targets;
    res := Ok(cr);
  }

  /** Compile: every rule compiled in file order, then sorted in place. */
  method Compile(globs: Globs, c: Option<Config>) returns (res: Result<CompiledPolicy, CompileError>)
    ensures res.Ok? <==> c.Some? && Compiles(globs, c.value)
    ensures res.Ok? ==> CompilesTo(c.value, res.value) && res.value.version == 0
    ensures res == Err(NilConfig) <==> c.None?
    ensures res == Err(BadDefault) <==> c.Some? && ParseDecision(c.value.defaultAction) == Unset
    ensures res.Err? && !res.error.NilConfig? && !res.error.BadDefault? ==>
              var i := res.error.rule;
              && i < |c.value.rules| && FirstFault(globs, c.value.rules[i], res.error)
              && forall k :: 0 <= k < i ==> RuleCompiles(globs, c.value.rules[k])
  {
    if c.None? {
      return Err(NilConfig);
    }
    hide ParseDecision, Compiled, RuleCompiles, IsGlob, FirstFault, Sorted, SameBuckets, Bucket, CompiledAll;
    var cfg := c.value;
    var def := ParseDecision(cfg.defaultAction);
    if def == Unset {
      return Err(BadDefault);
    }
    var rules: seq<CompiledRule> := [];
    for i := 0 to |cfg.rules|
      invariant |rules| == i && forall k :: 0 <= k < i ==> rules[k] == Compiled(cfg.rules[k])
      invariant forall k :: 0 <= k < i ==> RuleCompiles(globs, cfg.rules[k])
    {
      var cr := CompileRule(globs, cfg.rules[i], i);
      if cr.Err? {
        return Err(cr.error);
      }
      rules := rules + [cr.value];
    }
    var slice := new CompiledRule[|rules|](i requires 0 <= i < |rules| => rules[i]);
    assert rules == CompiledAll(cfg.rules);
    assert slice[..] == rules;
    SortBySpecificity(slice);
    res := Ok(CompiledPolicy(0, slice[..], def, CATCH_ALL));
  }

  /** `p` is the configuration compiled and stably sorted; its version is whatever its installer made it. */
  ghost predicate CompilesTo(c: Config, p: CompiledPolicy) {
    && p.catchAll == CATCH_ALL
    && p.defaultDecision == ParseDecision(c.defaultAction)
    && Sorted(p.rules) && SameBuckets(p.rules, CompiledAll(c.rules))
  }

  /** Each of the policies was compiled from the configuration at the same place, and then given any version. */
  ghost predicate AllCompiled(configs: seq<Config>, installed: seq<CompiledPolicy>) {
    |configs| == |installed| && forall k :: 0 <= k < |configs| ==> CompilesTo(configs[k], installed[k])
  }
}
