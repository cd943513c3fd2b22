/** Every schedule of the proxy's pumps ends, and what a failed write can leave behind. */
module ProxyProgress {
  import opened Basics
  import opened Framing
  import opened FramingRoundTrip
  import opened Intercept
  import opened Pumps
  import opened ProxyRuns
  import opened ProxySafety
  import opened ProxyTheorems
  import Policy

  // ---------- termination ----------

  /** How many steps are left before the agent pump reads again, or for good when it reads no more. */
  function AgentRank(pc: AgentPc): nat {
    match pc
    case AEvaluating(_, _, _) => 9
    case AEmitting(_, _, _) => 8
    case AReadingVersion(_, _, _, _, _) => 7
    case ALocking(_) => 6
    case AHeader(_) => 5
    case ABody(_) => 4
    case AChildHeader(_) => 4
    case AUnlocking(_) => 3
    case AChildBody(_) => 3
    case AReading => 2
    case ASending(_) => 1
    case AStopped(_) => 0
  }

  function ChildRank(pc: ChildPc): nat {
    match pc
    case CLocking(_) => 6
    case CHeader(_) => 5
    case CBody(_) => 4
    case CUnlocking(_) => 3
    case CReading => 2
    case CSending(_) => 1
    case CStopped(_) => 0
  }

  /** A bound on the steps still to come: every frame read uses up input and takes fewer than ten steps. */
  function StepsLeft(s: State): nat {
    10 * |s.agent.input| + AgentRank(s.agent.pc) + 10 * |s.child.input| + ChildRank(s.child.pc)
    + if s.run.None? then 1 else 0
  }

  lemma AgentStepIsProgress(w: World, s: State, s': State)
    requires s.installed != [] && AgentNext(w, s) == Some(s')
    ensures s'.child == s.child && s'.run == s.run
    ensures 10 * |s'.agent.input| + AgentRank(s'.agent.pc) < 10 * |s.agent.input| + AgentRank(s.agent.pc)
  {
    ParseConsumes(s.agent.input, MAX_FRAME_BYTES);
    hide Parse, Inspect, Policy.Decide, HeaderBytes;
  }

  lemma ChildStepIsProgress(s: State, s': State)
    requires ChildNext(s) == Some(s')
    ensures s'.agent == s.agent && s'.run == s.run
    ensures 10 * |s'.child.input| + ChildRank(s'.child.pc) < 10 * |s.child.input| + ChildRank(s.child.pc)
  {
    ParseConsumes(s.child.input, MAX_FRAME_BYTES);
    hide Parse, HeaderBytes;
  }

  lemma StepIsProgress(w: World, s: State, a: Action, s': State)
    requires s.installed != [] && Next(w, s, a) == Some(s')
    ensures if a.Install? then StepsLeft(s') == StepsLeft(s) else StepsLeft(s') < StepsLeft(s)
  {
    hide AgentNext, ChildNext, HeaderBytes;
    if a.AgentStep? {
      AgentStepIsProgress(w, s, s');
    } else if a.ChildStep? {
      ChildStepIsProgress(s, s');
    }
  }

  /** The steps of a schedule that are not policy swaps. */
  function Moves(actions: seq<Action>): nat {
    if actions == [] then 0 else (if actions[0].Install? then 0 else 1) + Moves(actions[1..])
  }

  /** Whatever the order of steps, and however often policies are swapped, only so many steps are possible. */
  lemma {:induction false} SchedulesAreBounded(w: World, s: State, actions: seq<Action>)
    requires s.installed != []
    ensures Steps(w, s, actions).Some? ==> Moves(actions) + StepsLeft(Steps(w, s, actions).value) <= StepsLeft(s)
    decreases |actions|
  {
    hide Next, StepsLeft;
    if actions != [] {
      var next := Next(w, s, actions[0]);
      if next.Some? {
        StepIsProgress(w, s, actions[0], next.value);
        SchedulesAreBounded(w, next.value, actions[1..]);
      }
    }
  }

  /** Every schedule ends, and it ends well: from a reachable state only boundedly many steps are possible, and
      when neither pump can take one, both have returned. */
  lemma EveryScheduleEnds(w: World, agentIn: bytes, childOut: bytes, p: Policy.CompiledPolicy, actions: seq<Action>)
    requires Steps(w, Initial(agentIn, childOut, p), actions).Some?
    ensures Moves(actions) <= 10 * (|agentIn| + |childOut|) + 5
    ensures var s := Steps(w, Initial(agentIn, childOut, p), actions).value;
            AgentNext(w, s).None? && ChildNext(s).None? ==> s.agent.pc.AStopped? && s.child.pc.CStopped?
  {
    var start := Initial(agentIn, childOut, p);
    SchedulesAreBounded(w, start, actions);
    var s := Steps(w, start, actions).value;
    assert Reachable(w, agentIn, childOut, p, s);
    hide Reachable, Steps, AgentNext, ChildNext;
    PumpsCanProceed(w, agentIn, childOut, p, s);
  }

  // ---------- behind a failed write ----------

  const RELAY: seq<Action> := [ChildStep, ChildStep, ChildStep, ChildStep]

  function CutAnswer(n: nat): seq<Action> {
    [AgentStep, AgentStep, AgentStep, AgentStep, AgentFails(n), AgentStep]
  }

  lemma StepsJoin(w: World, s: State, s': State, a: Action, rest: seq<Action>)
    requires s.installed != [] && Next(w, s, a) == Some(s')
    ensures s'.installed != [] && Steps(w, s, [a] + rest) == Steps(w, s', rest)
  {
    assert ([a] + rest)[1..] == rest;
  }

  lemma {:induction false} StepsAppend(w: World, s: State, xs: seq<Action>, ys: seq<Action>)
    requires s.installed != [] && Steps(w, s, xs).Some?
    ensures Steps(w, s, xs + ys) == Steps(w, Steps(w, s, xs).value, ys)
    decreases |xs|
  {
    hide Next;
    if xs == [] {
      assert xs + ys == ys;
    } else {
      assert (xs + ys)[1..] == xs[1..] + ys;
      StepsAppend(w, Next(w, s, xs[0]).value, xs[1..], ys);
    }
  }

  lemma AnswerCut(w: World, raw: bytes, childOut: bytes, n: nat, p: Policy.CompiledPolicy)
    requires |raw| <= MAX_FRAME_BYTES && IsToolsCall(w.decode(raw)) && Inspect(w, w.decode(raw).req).Refuse?
    requires n <= |w.encode(Inspect(w, w.decode(raw).req).reply)|
    ensures var answer := w.encode(Inspect(w, w.decode(raw).req).reply);
            var run := Steps(w, Initial(FrameBytes(raw), childOut, p), CutAnswer(n));
            && run.Some? && run.value.child == ChildPump(CReading, childOut)
            && run.value.out.mutex.None? && run.value.out.broken
            && run.value.out.written == HeaderBytes(|answer|) + answer[..n]
  {
    hide Parse, Inspect, HeaderBytes, FrameBytes, ChildNext;
    WriteThenRead(raw, [], MAX_FRAME_BYTES);
    assert FrameBytes(raw) + [] == FrameBytes(raw);
    var answer := w.encode(Inspect(w, w.decode(raw).req).reply);
    var s0 := Initial(FrameBytes(raw), childOut, p);
    var s1 := Next(w, s0, AgentStep).value;
    var s2 := Next(w, s1, AgentStep).value;
    var s3 := Next(w, s2, AgentStep).value;
    var s4 := Next(w, s3, AgentStep).value;
    assert s4.agent.pc == ABody(answer) && s4.out.written == [] + HeaderBytes(|answer|);
    var s5 := Next(w, s4, AgentFails(n)).value;
    var s6 := Next(w, s5, AgentStep).value;
    hide Next;
    StepsJoin(w, s5, s6, AgentStep, []);
    StepsJoin(w, s4, s5, AgentFails(n), [AgentStep]);
    StepsJoin(w, s3, s4, AgentStep, [AgentFails(n), AgentStep]);
    StepsJoin(w, s2, s3, AgentStep, [AgentStep, AgentFails(n), AgentStep]);
    StepsJoin(w, s1, s2, AgentStep, [AgentStep, AgentStep, AgentFails(n), AgentStep]);
    StepsJoin(w, s0, s1, AgentStep, [AgentStep, AgentStep, AgentStep, AgentFails(n), AgentStep]);
  }

  lemma RelayOne(w: World, s: State, body: bytes)
    requires s.installed != [] && s.child == ChildPump(CReading, FrameBytes(body)) && s.out.mutex.None?
    requires |body| <= MAX_FRAME_BYTES
    ensures var run := Steps(w, s, RELAY);
            && run.Some? && run.value.out.written == s.out.written + FrameBytes(body)
            && run.value.out.broken == s.out.broken
  {
    hide Parse, HeaderBytes, AgentNext;
    WriteThenRead(body, [], MAX_FRAME_BYTES);
    assert FrameBytes(body) + [] == FrameBytes(body);
    var s1 := Next(w, s, ChildStep).value;
    var s2 := Next(w, s1, ChildStep).value;
    var s3 := Next(w, s2, ChildStep).value;
    var s4 := Next(w, s3, ChildStep).value;
    assert s4.out.written == s.out.written + HeaderBytes(|body|) + body == s.out.written + FrameBytes(body);
    hide Next;
    StepsJoin(w, s3, s4, ChildStep, []);
    StepsJoin(w, s2, s3, ChildStep, [ChildStep]);
    StepsJoin(w, s1, s2, ChildStep, [ChildStep, ChildStep]);
    StepsJoin(w, s, s1, ChildStep, [ChildStep, ChildStep, ChildStep]);
  }

  /** A write to stdout that fails in the body of an answer, and a child frame after it: the frame is written
      behind the part of the answer that got through. */
  lemma FrameBehindCutAnswer(w: World, raw: bytes, body: bytes, n: nat, p: Policy.CompiledPolicy)
    requires |raw| <= MAX_FRAME_BYTES && |body| <= MAX_FRAME_BYTES
    requires IsToolsCall(w.decode(raw)) && Inspect(w, w.decode(raw).req).Refuse?
    requires n <= |w.encode(Inspect(w, w.decode(raw).req).reply)|
    ensures var answer := w.encode(Inspect(w, w.decode(raw).req).reply);
            var run := Steps(w, Initial(FrameBytes(raw), FrameBytes(body), p), CutAnswer(n) + RELAY);
            run.Some? && run.value.out.broken
            && run.value.out.written == HeaderBytes(|answer|) + answer[..n] + FrameBytes(body)
  {
    hide Inspect, HeaderBytes, FrameBytes, Steps, CutAnswer, RELAY;
    AnswerCut(w, raw, FrameBytes(body), n, p);
    var start := Initial(FrameBytes(raw), FrameBytes(body), p);
    RelayOne(w, Steps(w, start, CutAnswer(n)).value, body);
    StepsAppend(w, start, CutAnswer(n), RELAY);
  }
}
