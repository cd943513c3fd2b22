/**
 Any number of goroutines evaluate calls while policies are swapped. Each atomic action is one step:
 storing the pointer, starting a call, loading the pointer, looking at one rule.
 */
module EngineRuns {
  import opened Basics
  import opened Policy
  import opened Engine
  import Verbs

  /** One call of Evaluate. `from` and `to` are the policies current when it started and ended, `k` the one it
      loaded. */
  datatype Thread =
    | Started(call: Call, from: nat)
    | Scanning(call: Call, from: nat, k: nat, snapshot: CompiledPolicy, next: nat)
    | Done(call: Call, from: nat, k: nat, to: nat, answer: Decision)

  /** `installed` lists every policy the pointer has held, the current one last. */
  datatype State = State(installed: seq<CompiledPolicy>, threads: map<nat, Thread>)

  datatype Action = Update(p: Option<CompiledPolicy>) | Start(t: nat, call: Call) | Load(t: nat) | Look(t: nat)

  function Initial(p: Option<CompiledPolicy>): State {
    State([if p.Some? then p.value else DENY_BY_DEFAULT], map[])
  }

  function Next(globs: Globs, s: State, a: Action): Option<State>
    requires s.installed != []
  {
    var now := |s.installed| - 1;
    match a
    case Update(p) => Some(s.(installed := s.installed + [if p.Some? then p.value else DENY_BY_DEFAULT]))
    case Start(t, call) =>
      if t in s.threads then None else Some(s.(threads := s.threads[t := Started(call, now)]))
    case Load(t) =>
      if t !in s.threads || !s.threads[t].Started? then None
      else
        var th := s.threads[t];
        Some(s.(threads := s.threads[t :=
          if IsAsciiPrintable(th.call.tool) then Scanning(th.call, th.from, now, s.installed[now], 0)
          else Done(th.call, th.from, now, now, Deny)]))
    case Look(t) =>
      if t !in s.threads || !s.threads[t].Scanning? then None
      else
        var th := s.threads[t];
        Some(s.(threads := s.threads[t :=
          if th.next < |th.snapshot.rules| then
            if RuleMatches(globs, th.snapshot.rules[th.next], th.call)
            then Done(th.call, th.from, th.k, now, th.snapshot.rules[th.next].decision)
            else th.(next := th.next + 1)
          else
            Done(th.call, th.from, th.k, now,
                 if Verbs.IsDestructive(th.call.tool) then RequireApproval else th.snapshot.defaultDecision)]))
  }

  /** The states the actions lead to, one after the other; None if one of them is not possible. */
  function Run(globs: Globs, s: State, actions: seq<Action>): (r: Option<State>)
    requires s.installed != []
    ensures r.Some? ==> r.value.installed != []
    decreases |actions|
  {
    if actions == [] then Some(s)
    else
      var next := Next(globs, s, actions[0]);
      if next.None? then None else Run(globs, next.value, actions[1..])
  }

  ghost predicate ThreadInv(globs: Globs, installed: seq<CompiledPolicy>, th: Thread) {
    match th
    case Started(_, from) => from < |installed|
    case Scanning(call, from, k, snapshot, next) =>
      && from <= k < |installed| && installed[k] == snapshot
      && IsAsciiPrintable(call.tool)
      && next <= |snapshot.rules|
      && FirstMatch(globs, snapshot.rules, call) == FirstMatch(globs, snapshot.rules[next..], call)
    case Done(call, from, k, to, answer) =>
      from <= k <= to < |installed| && answer == Decide(globs, installed[k], call)
  }

  ghost predicate Inv(globs: Globs, s: State) {
    s.installed != [] && forall t :: t in s.threads ==> ThreadInv(globs, s.installed, s.threads[t])
  }

  lemma StepKeepsInv(globs: Globs, s: State, a: Action, s': State)
    requires Inv(globs, s) && Next(globs, s, a) == Some(s')
    ensures Inv(globs, s')
  {
    hide RuleMatches, IsAsciiPrintable, Verbs.IsDestructive;
    forall t | t in s'.threads
      ensures ThreadInv(globs, s'.installed, s'.threads[t])
    {
      if t in s.threads {
        assert ThreadInv(globs, s.installed, s.threads[t]);
        if a == Look(t) {
          var th := s.threads[t];
          if th.next < |th.snapshot.rules| {
            assert th.snapshot.rules[th.next..][1..] == th.snapshot.rules[th.next + 1..];
          }
        }
      }
    }
  }

  lemma {:induction false} RunKeepsInv(globs: Globs, s: State, actions: seq<Action>)
    requires Inv(globs, s)
    ensures Run(globs, s, actions).Some? ==> Inv(globs, Run(globs, s, actions).value)
    decreases |actions|
  {
    hide ThreadInv;
    if actions != [] {
      var next := Next(globs, s, actions[0]);
      if next.Some? {
        StepKeepsInv(globs, s, actions[0], next.value);
        RunKeepsInv(globs, next.value, actions[1..]);
      }
    }
  }

  /** In every run, every answer is what one single policy decides, and that policy was current at some
      instant between the start and the end of the call. */
  lemma AnswersAreSnapshots(globs: Globs, p: Option<CompiledPolicy>, actions: seq<Action>, t: nat)
    requires Run(globs, Initial(p), actions).Some?
    requires var s := Run(globs, Initial(p), actions).value; t in s.threads && s.threads[t].Done?
    ensures var s := Run(globs, Initial(p), actions).value;
            var th := s.threads[t];
            && th.from <= th.k <= th.to < |s.installed|
            && th.answer == Decide(globs, s.installed[th.k], th.call)
  {
    RunKeepsInv(globs, Initial(p), actions);
    var s := Run(globs, Initial(p), actions).value;
    assert ThreadInv(globs, s.installed, s.threads[t]);
  }

  /** The policies installed by a list of actions. */
  function Installs(actions: seq<Action>): seq<CompiledPolicy> {
    if actions == [] then []
    else
      (match actions[0]
       case Update(Some(p)) => [p]
       case Update(None) => [DENY_BY_DEFAULT]
       case _ => [])
      + Installs(actions[1..])
  }

  lemma {:induction false} RunInstalls(globs: Globs, s: State, actions: seq<Action>)
    requires s.installed != [] && Run(globs, s, actions).Some?
    ensures Run(globs, s, actions).value.installed == s.installed + Installs(actions)
    decreases |actions|
  {
    hide RuleMatches, IsAsciiPrintable;
    if actions != [] {
      RunInstalls(globs, Next(globs, s, actions[0]).value, actions[1..]);
    }
  }

  /** The call and the policy current at its start are those it was started with. */
  lemma {:induction false} RunKeepsCall(globs: Globs, s: State, actions: seq<Action>, t: nat)
    requires s.installed != [] && Run(globs, s, actions).Some? && t in s.threads
    ensures var s' := Run(globs, s, actions).value;
            t in s'.threads && s'.threads[t].call == s.threads[t].call && s'.threads[t].from == s.threads[t].from
    decreases |actions|
  {
    hide RuleMatches, IsAsciiPrintable;
    if actions != [] {
      RunKeepsCall(globs, Next(globs, s, actions[0]).value, actions[1..], t);
    }
  }

  /** In every run, a call started when `before` had been installed and answered by the end of `after` is
      answered by one policy: the last of `before` or one installed since, never an older one. */
  lemma AnswerIsRecent(globs: Globs, p: CompiledPolicy, before: seq<Action>, t: nat, call: Call, after: seq<Action>)
      returns (k: nat)
    requires Run(globs, Initial(Some(p)), before).Some?
    requires var s := Run(globs, Initial(Some(p)), before).value;
             && Next(globs, s, Start(t, call)).Some? && Run(globs, Next(globs, s, Start(t, call)).value, after).Some?
             && var end := Run(globs, Next(globs, s, Start(t, call)).value, after).value;
                t in end.threads && end.threads[t].Done?
    ensures var s := Run(globs, Initial(Some(p)), before).value;
            var end := Run(globs, Next(globs, s, Start(t, call)).value, after).value;
            var policies := [p] + Installs(before) + Installs(after);
            && |Installs(before)| <= k < |policies| && end.installed == policies
            && end.threads[t].answer == Decide(globs, policies[k], call)
  {
    hide Decide, ThreadInv;
    var s := Run(globs, Initial(Some(p)), before).value;
    var started := Next(globs, s, Start(t, call)).value;
    assert Inv(globs, Initial(Some(p)));
    RunInstalls(globs, Initial(Some(p)), before);
    RunInstalls(globs, started, after);
    RunKeepsInv(globs, Initial(Some(p)), before);
    StepKeepsInv(globs, s, Start(t, call), started);
    RunKeepsInv(globs, started, after);
    RunKeepsCall(globs, started, after, t);
    var end := Run(globs, started, after).value;
    assert ThreadInv(globs, end.installed, end.threads[t]);
    DoneMeans(globs, end.installed, end.threads[t]);
    k := end.threads[t].k;
  }

  lemma DoneMeans(globs: Globs, installed: seq<CompiledPolicy>, th: Thread)
    requires ThreadInv(globs, installed, th) && th.Done?
    ensures th.from <= th.k < |installed| && th.answer == Decide(globs, installed[th.k], th.call)
  {
  }

  /** In every run, a destructive name is allowed only by an explicit allow rule of a policy current during the call. */
  lemma DestructiveGateHolds(globs: Globs, p: Option<CompiledPolicy>, actions: seq<Action>, t: nat)
    requires Run(globs, Initial(p), actions).Some?
    requires var s := Run(globs, Initial(p), actions).value;
             && t in s.threads && s.threads[t].Done?
             && Verbs.IsDestructive(s.threads[t].call.tool) && s.threads[t].answer == Allow
    ensures var s := Run(globs, Initial(p), actions).value;
            exists k, r :: s.threads[t].from <= k <= s.threads[t].to < |s.installed| && r in s.installed[k].rules
                        && RuleMatches(globs, r, s.threads[t].call) && r.decision == Allow
  {
    AnswersAreSnapshots(globs, p, actions, t);
    var s := Run(globs, Initial(p), actions).value;
    DestructiveNeedsRule(globs, s.installed[s.threads[t].k], s.threads[t].call);
  }

  /** In every run with compiled policies, every answer is what one single configuration declares, and its
      policy was current at some instant between the start and the end of the call. */
  lemma AnswersAreDeclared(globs: Globs, p: Option<CompiledPolicy>, actions: seq<Action>, t: nat, configs: seq<Config>)
    requires Run(globs, Initial(p), actions).Some?
    requires var s := Run(globs, Initial(p), actions).value;
             t in s.threads && s.threads[t].Done? && AllCompiled(configs, s.installed)
    ensures var th := Run(globs, Initial(p), actions).value.threads[t];
            th.from <= th.k <= th.to < |configs| && th.answer == Declared(globs, configs[th.k], th.call)
  {
    AnswersAreSnapshots(globs, p, actions, t);
    var s := Run(globs, Initial(p), actions).value;
    var th := s.threads[t];
    hide Run, CompilesTo, Decide, Declared;
    CompiledMeansDeclared(globs, configs[th.k], s.installed[th.k], th.call);
  }

  /** Whatever else has happened, a new call can be made and answered by its own steps: it loads the policy
      current then and answers what that decides. */
  lemma CallsFinish(globs: Globs, p: Option<CompiledPolicy>, before: seq<Action>, t: nat, call: Call)
      returns (looks: seq<Action>)
    requires Run(globs, Initial(p), before).Some? && t !in Run(globs, Initial(p), before).value.threads
    ensures forall i :: 0 <= i < |looks| ==> looks[i] == Look(t)
    ensures var s := Run(globs, Initial(p), before).value;
            var end := Run(globs, s, [Start(t, call), Load(t)] + looks);
            && end.Some? && end.value.installed == s.installed && t in end.value.threads
            && end.value.threads[t].Done?
            && end.value.threads[t].answer == Decide(globs, s.installed[|s.installed| - 1], call)
  {
    hide Decide, ThreadInv;
    var s := Run(globs, Initial(p), before).value;
    assert Inv(globs, Initial(p));
    RunKeepsInv(globs, Initial(p), before);
    var started := Next(globs, s, Start(t, call)).value;
    StepKeepsInv(globs, s, Start(t, call), started);
    var loaded := Next(globs, started, Load(t)).value;
    StepKeepsInv(globs, started, Load(t), loaded);
    hide Inv;
    looks := LooksFinish(globs, loaded, t);
    assert ([Load(t)] + looks)[1..] == looks;
    assert ([Start(t, call), Load(t)] + looks)[1..] == [Load(t)] + looks;
    var end := Run(globs, loaded, looks).value;
    RunKeepsInv(globs, loaded, looks);
    AnswerOfDone(globs, end, t);
  }

  lemma AnswerOfDone(globs: Globs, s: State, t: nat)
    requires Inv(globs, s) && t in s.threads && s.threads[t].Done?
    ensures s.threads[t].k < |s.installed|
    ensures s.threads[t].answer == Decide(globs, s.installed[s.threads[t].k], s.threads[t].call)
  {
    hide Decide;
    assert ThreadInv(globs, s.installed, s.threads[t]);
  }

  lemma {:induction false} LooksFinish(globs: Globs, s: State, t: nat) returns (looks: seq<Action>)
    requires Inv(globs, s) && t in s.threads && !s.threads[t].Started?
    ensures forall i :: 0 <= i < |looks| ==> looks[i] == Look(t)
    ensures var end := Run(globs, s, looks);
            && end.Some? && end.value.installed == s.installed && t in end.value.threads
            && end.value.threads[t].Done? && end.value.threads[t].k == s.threads[t].k
            && end.value.threads[t].call == s.threads[t].call
    decreases if s.threads[t].Scanning? then 1 + |s.threads[t].snapshot.rules| - s.threads[t].next else 0
  {
    if s.threads[t].Done? {
      looks := [];
    } else {
      LookGoesOn(globs, s, t);
      hide Next, Inv;
      var next := Next(globs, s, Look(t)).value;
      StepKeepsInv(globs, s, Look(t), next);
      var rest := LooksFinish(globs, next, t);
      looks := [Look(t)] + rest;
      assert looks[1..] == rest;
    }
  }

  lemma LookGoesOn(globs: Globs, s: State, t: nat)
    requires Inv(globs, s) && t in s.threads && s.threads[t].Scanning?
    ensures var next, th := Next(globs, s, Look(t)), s.threads[t];
            && next.Some? && next.value.installed == s.installed && t in next.value.threads
            && var th' := next.value.threads[t];
               && !th'.Started? && th'.k == th.k && th'.call == th.call && th.next <= |th.snapshot.rules|
               && (th'.Scanning? ==> th'.snapshot == th.snapshot && th'.next == th.next + 1 <= |th.snapshot.rules|)
  {
    assert ThreadInv(globs, s.installed, s.threads[t]);
    hide RuleMatches, IsAsciiPrintable, Verbs.IsDestructive, FirstMatch;
  }
}
