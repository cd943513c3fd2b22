/** What every interleaving of ProxyRuns keeps, and what that means for the byte streams. */
module ProxySafety {
  import opened Basics
  import opened Framing
  import opened FramingRoundTrip
  import opened Intercept
  import opened Pumps
  import opened ProxyRuns
  import Policy

  // ---------- the invariant ----------

  /** A part of a stream still to be written ends its last frame. */
  ghost predicate TailOfLast(owed: bytes, bodies: seq<bytes>) {
    owed == [] || (bodies != [] && |owed| <= |FrameBytes(bodies[|bodies| - 1])|)
  }

  /** Agent frames are read in order, each exactly once. */
  ghost predicate InputInv(g: AgentPump, agentIn: bytes) {
    var all, rest := ParseAll(agentIn, MAX_FRAME_BYTES), ParseAll(g.input, MAX_FRAME_BYTES);
    all.bodies == Collect(g.handled, Raw) + HeldByAgent(g.pc) + rest.bodies && all.error == rest.error
  }

  ghost predicate ChildStreamInv(g: AgentPump) {
    var owed, bodies := OwedToChild(g.pc) + g.lost, Collect(g.handled, Forwards);
    && g.toChild + owed == Stream(bodies)
    && TailOfLast(owed, bodies)
    && (g.lost != [] ==> g.pc == ASending(WriteFailed) || g.pc == AStopped(WriteFailed))
  }

  ghost predicate MutexInv(s: State) {
    && (s.out.mutex == Some(Agent) <==> AgentHolds(s.agent.pc))
    && (s.out.mutex == Some(Child) <==> ChildHolds(s.child.pc))
    && (s.out.mutex.Some? ==> s.out.delivered != [] && s.out.delivered[|s.out.delivered| - 1].from == s.out.mutex.value)
  }

  ghost predicate AgentStreamInv(s: State) {
    var owed, bodies := OwedToAgent(s.agent.pc, s.child.pc), Collect(s.out.delivered, Body);
    !s.out.broken ==> s.out.written + owed == Stream(bodies) && TailOfLast(owed, bodies)
  }

  /** Child frames are delivered in their own order, and so are the synthetic answers. */
  ghost predicate RelayInv(c: ChildPump, delivered: seq<Delivery>, childOut: bytes) {
    ParseAll(childOut, MAX_FRAME_BYTES).bodies ==
    Collect(delivered, From(Child)) + HeldByChild(c.pc) + ParseAll(c.input, MAX_FRAME_BYTES).bodies
  }

  ghost predicate AnswerInv(g: AgentPump, delivered: seq<Delivery>) {
    Collect(g.handled, Answers) == Collect(delivered, From(Agent)) + WaitingAnswer(g.pc)
  }

  ghost predicate EventInv(g: AgentPump, events: seq<Event>) {
    Collect(events, CallEvent) == Collect(g.handled, Records) + EmittedEarly(g.pc)
  }

  function Unsent(s: State): nat {
    (if s.agent.pc.AStopped? then 0 else 1) + (if s.child.pc.CStopped? then 0 else 1)
  }

  /** Every pump reports once; what is not in the channel has been taken or is still to come. */
  ghost predicate ChannelInv(s: State) {
    |s.finished| + Unsent(s) + (if s.run.Some? then 1 else 0) == 2
  }

  /** A call that passed inspection, and the decision of one installed policy on it. */
  ghost predicate DecidedBy(
    w: World, installed: seq<Policy.CompiledPolicy>, req: Request, call: Policy.Call, d: Policy.Decision, k: nat)
  {
    Inspect(w, req) == Ask(call) && k < |installed| && d == Policy.Decide(w.globs, installed[k], call)
  }

  ghost predicate CallIs(w: World, raw: bytes, req: Request) {
    w.decode(raw) == Call(req) && req.methodName == "tools/call"
  }

  /** The verdict on a frame is the one pumpAgentToChild and interceptCall give it. */
  ghost predicate Justified(w: World, installed: seq<Policy.CompiledPolicy>, h: Handled) {
    match h.verdict
    case Pass => !IsToolsCall(w.decode(h.raw))
    case Rejected(event, answer) =>
      exists req, reply :: CallIs(w, h.raw, req) && Inspect(w, req) == Refuse(event, reply) && answer == w.encode(reply)
    case Allowed(event, k) =>
      exists req, call :: CallIs(w, h.raw, req) && DecidedBy(w, installed, req, call, Policy.Allow, k)
                          && event == Judged(Policy.Allow, call.tool, call.target)
    case Denied(event, k, j, answer) =>
      exists req, call, d :: CallIs(w, h.raw, req) && DecidedBy(w, installed, req, call, d, k) && d != Policy.Allow
                             && event == Judged(d, call.tool, call.target)
                             && k <= j < |installed| && answer == w.encode(Denial(req, call, d, installed[j].version))
  }

  /** The same for the call in progress. */
  ghost predicate InProgress(w: World, installed: seq<Policy.CompiledPolicy>, pc: AgentPc) {
    match pc
    case AEvaluating(raw, req, call) => CallIs(w, raw, req) && Inspect(w, req) == Ask(call)
    case AEmitting(raw, req, Refusing(event, reply)) => CallIs(w, raw, req) && Inspect(w, req) == Refuse(event, reply)
    case AEmitting(raw, req, Deciding(call, d, k)) => CallIs(w, raw, req) && DecidedBy(w, installed, req, call, d, k)
    case AReadingVersion(raw, req, call, d, k) =>
      CallIs(w, raw, req) && DecidedBy(w, installed, req, call, d, k) && d != Policy.Allow
    case _ => true
  }

  ghost predicate VerdictInv(w: World, g: AgentPump, installed: seq<Policy.CompiledPolicy>) {
    && InProgress(w, installed, g.pc)
    && forall i :: 0 <= i < |g.handled| ==> Justified(w, installed, g.handled[i])
  }

  /** The policy that decided, and the one whose version was reported, were current while the frame was in hand. */
  predicate Timely(h: Handled, installed: nat) {
    && h.from <= h.to < installed
    && (h.verdict.Allowed? || h.verdict.Denied? ==> h.from <= h.verdict.k <= h.to)
    && (h.verdict.Denied? ==> h.verdict.j == h.to)
  }

  /** Frames are handled one after the other, each between its reading and the present. */
  ghost predicate TimeInv(g: AgentPump, installed: nat) {
    && (forall i :: 0 <= i < |g.handled| ==> Timely(g.handled[i], installed))
    && (forall i, j :: 0 <= i < j < |g.handled| ==> g.handled[i].to <= g.handled[j].from)
    && (HeldByAgent(g.pc) != [] ==>
          g.since < installed && forall i :: 0 <= i < |g.handled| ==> g.handled[i].to <= g.since)
    && (g.pc.AReadingVersion? ==> g.since <= g.pc.k < installed)
    && (g.pc.AEmitting? && g.pc.pending.Deciding? ==> g.since <= g.pc.pending.k < installed)
  }

  ghost predicate EndsRightly(input: bytes, ending: Ending) {
    ending.InputEnded? ==>
      var r := Parse(input, MAX_FRAME_BYTES);
      r.Fail? && ending.clean == r.error.IsEof()
  }

  /** A pump that reports the end of its input has met it. */
  ghost predicate EndingInv(s: State) {
    && (s.agent.pc.ASending? || s.agent.pc.AStopped? ==> EndsRightly(s.agent.input, s.agent.pc.ending))
    && (s.child.pc.CSending? || s.child.pc.CStopped? ==> EndsRightly(s.child.input, s.child.pc.ending))
  }

  ghost predicate Inv(w: World, s: State, agentIn: bytes, childOut: bytes) {
    && s.installed != []
    && InputInv(s.agent, agentIn) && ChildStreamInv(s.agent)
    && MutexInv(s) && AgentStreamInv(s)
    && RelayInv(s.child, s.out.delivered, childOut) && AnswerInv(s.agent, s.out.delivered)
    && EventInv(s.agent, s.events) && ChannelInv(s)
    && VerdictInv(w, s.agent, s.installed) && TimeInv(s.agent, |s.installed|) && EndingInv(s)
  }

  // ---------- one step keeps it ----------

  lemma ReadStep(s: bytes, cap: nat)
    ensures Parse(s, cap).Frame? ==>
              && ParseAll(s, cap).bodies == [Parse(s, cap).body] + ParseAll(Parse(s, cap).rest, cap).bodies
              && ParseAll(s, cap).error == ParseAll(Parse(s, cap).rest, cap).error
    ensures Parse(s, cap).Fail? ==> ParseAll(s, cap) == StreamResult([], Parse(s, cap).error)
  {
    hide ParseHeader;
  }

  // ---------- the agent pump: judging a frame, and writing ----------

  predicate Judging(pc: AgentPc) {
    pc.AReading? || pc.AEvaluating? || pc.AEmitting? || pc.AReadingVersion?
  }

  /** The frames an agent step adds to the history: none or one. */
  function Added(g: AgentPump, h: AgentPump): seq<Handled> {
    if |h.handled| > |g.handled| then h.handled[|g.handled|..] else []
  }

  /** A judging step writes nothing and handles at most the frame in hand; a frame handled is on its way to the
      child or its answer to the agent. */
  lemma JudgingShape(w: World, s: State, s': State)
    requires s.installed != [] && AgentNext(w, s) == Some(s') && Judging(s.agent.pc)
    ensures var g, h, x := s.agent, s'.agent, Added(s.agent, s'.agent);
            && h.handled == g.handled + x && |x| <= 1
            && h.toChild == g.toChild && h.lost == g.lost && s'.out == s.out && s'.child == s.child
            && OwedToChild(h.pc) == (if x != [] && Forwards(x[0]) != [] then FrameBytes(x[0].raw) else [])
            && WaitingAnswer(h.pc) == (if x != [] then Answers(x[0]) else [])
    ensures s.agent.pc.AReading? ==> ReadShape(s.agent, s'.agent)
    ensures !s.agent.pc.AReading? ==>
              && s'.agent.input == s.agent.input
              && Raws(Added(s.agent, s'.agent)) + HeldByAgent(s'.agent.pc) == HeldByAgent(s.agent.pc)
  {
    hide Parse, Inspect, Policy.Decide, HeaderBytes, FrameBytes;
  }

  function Raws(x: seq<Handled>): seq<bytes> {
    if x == [] then [] else [x[0].raw]
  }

  predicate ReadShape(g: AgentPump, h: AgentPump) {
    match Parse(g.input, MAX_FRAME_BYTES)
    case Fail(e, _) => h == g.(pc := ASending(InputEnded(e.IsEof())))
    case Frame(raw, rest) => h.input == rest && Raws(Added(g, h)) + HeldByAgent(h.pc) == [raw]
  }

  /** A step that is not judging leaves input and history alone. */
  lemma WritingShape(w: World, s: State, s': State)
    requires s.installed != [] && AgentNext(w, s) == Some(s') && !Judging(s.agent.pc)
    ensures var g, h := s.agent, s'.agent;
            && h.handled == g.handled && h.input == g.input && h.since == g.since && h.lost == g.lost
            && s'.child == s.child && s'.events == s.events && s'.installed == s.installed
            && HeldByAgent(g.pc) == HeldByAgent(h.pc) == []
            && !h.pc.AEmitting? && !h.pc.AReadingVersion?
            && !g.pc.AStopped? && (g.pc.ASending? ==> h.pc == AStopped(g.pc.ending))
            && h.toChild + OwedToChild(h.pc) == g.toChild + OwedToChild(g.pc)
            && |OwedToChild(h.pc)| <= |OwedToChild(g.pc)|
  {
    hide AgentRead, AgentEvaluate, AgentEmitted, AgentDeny, HeaderBytes;
    if s.agent.pc.AChildHeader? {
      assert s.agent.toChild + FrameBytes(s.agent.pc.raw) == s'.agent.toChild + s.agent.pc.raw;
    }
  }

  lemma CollectAdded<T>(g: AgentPump, h: AgentPump, f: Handled -> seq<T>)
    requires h.handled == g.handled + Added(g, h) && |Added(g, h)| <= 1
    ensures Collect(h.handled, f) == Collect(g.handled, f) + if Added(g, h) == [] then [] else f(Added(g, h)[0])
  {
    hide Collect;
    var x := Added(g, h);
    if x == [] {
      assert h.handled == g.handled;
    } else {
      assert h.handled == g.handled + [x[0]];
      CollectSnoc(g.handled, x[0], f);
    }
    hide Added;
  }

  lemma Rejoin<T>(before: seq<T>, x: seq<T>, held: seq<T>, later: seq<T>)
    ensures before + x + held + later == before + (x + held) + later
    ensures before + x + held + later == before + [] + ((x + held) + later)
  {
  }

  // ---------- invariant by invariant ----------

  lemma InputByAgent(w: World, s: State, s': State, agentIn: bytes)
    requires s.installed != [] && AgentNext(w, s) == Some(s') && InputInv(s.agent, agentIn)
    ensures InputInv(s'.agent, agentIn)
  {
    var g, h := s.agent, s'.agent;
    hide AgentNext, Parse, ParseAll, Collect, Added;
    if Judging(g.pc) {
      JudgingShape(w, s, s');
      CollectAdded(g, h, Raw);
      ReadStep(g.input, MAX_FRAME_BYTES);
      Rejoin(Collect(g.handled, Raw), Raws(Added(g, h)), HeldByAgent(h.pc), ParseAll(h.input, MAX_FRAME_BYTES).bodies);
    } else {
      WritingShape(w, s, s');
    }
  }

  lemma InputStep(w: World, s: State, a: Action, s': State, agentIn: bytes)
    requires s.installed != [] && Next(w, s, a) == Some(s') && InputInv(s.agent, agentIn)
    ensures InputInv(s'.agent, agentIn)
  {
    hide AgentNext, ChildNext, ChildFailure, ParseAll, Collect, HeaderBytes;
    if a.AgentStep? {
      InputByAgent(w, s, s', agentIn);
    }
  }

  lemma CutChildKeeps(g: AgentPump, unwritten: bytes, n: nat)
    requires ChildStreamInv(g) && OwedToChild(g.pc) == unwritten && g.lost == [] && n <= |unwritten|
    ensures ChildStreamInv(CutChild(g, unwritten, n))
  {
    hide FrameBytes, Collect, Stream;
    assert g.toChild + unwritten[..n] + unwritten[n..] == g.toChild + unwritten;
    assert unwritten + g.lost == unwritten;
  }

  lemma ChildStreamJudging(w: World, s: State, s': State)
    requires s.installed != [] && AgentNext(w, s) == Some(s') && ChildStreamInv(s.agent) && Judging(s.agent.pc)
    ensures ChildStreamInv(s'.agent)
  {
    var g, h := s.agent, s'.agent;
    hide AgentNext, Collect, Stream, FrameBytes, Added, Forwards;
    JudgingShape(w, s, s');
    CollectAdded(g, h, Forwards);
    var x, before := Added(g, h), Collect(g.handled, Forwards);
    assert OwedToChild(g.pc) == [] && g.lost == [] && g.toChild + ([] + []) == g.toChild && before + [] == before;
    assert g.toChild == Stream(before);
    if x != [] && Forwards(x[0]) != [] {
      assert Forwards(x[0]) == [x[0].raw] by { OnlyRaw(x[0]); }
      StreamSnoc(before, x[0].raw);
      assert OwedToChild(h.pc) + h.lost == FrameBytes(x[0].raw);
    } else {
      assert OwedToChild(h.pc) + h.lost == [] && Collect(h.handled, Forwards) == before;
    }
  }

  lemma Regroup(a: bytes, b: bytes, c: bytes)
    ensures a + (b + c) == (a + b) + c
  {
  }

  lemma OnlyRaw(h: Handled)
    ensures Forwards(h) == [] || Forwards(h) == [h.raw]
  {
  }

  lemma ChildStreamAgent(w: World, s: State, s': State)
    requires s.installed != [] && AgentNext(w, s) == Some(s') && ChildStreamInv(s.agent)
    ensures ChildStreamInv(s'.agent)
  {
    if Judging(s.agent.pc) {
      ChildStreamJudging(w, s, s');
    } else {
      var g, h := s.agent, s'.agent;
      hide AgentNext, Collect, Stream, FrameBytes, OwedToChild, HeldByAgent;
      WritingShape(w, s, s');
      Regroup(g.toChild, OwedToChild(g.pc), g.lost);
      Regroup(h.toChild, OwedToChild(h.pc), h.lost);
    }
  }

  lemma ChildStreamStep(w: World, s: State, a: Action, s': State)
    requires s.installed != [] && Next(w, s, a) == Some(s') && ChildStreamInv(s.agent)
    ensures ChildStreamInv(s'.agent)
  {
    if a.AgentStep? {
      ChildStreamAgent(w, s, s');
    } else if a.AgentFails? {
      var g := s.agent;
      if g.pc.AChildHeader? || g.pc.AChildBody? {
        hide HeaderBytes, Collect, Stream;
        assert |FrameBytes(g.pc.raw)| >= |HeaderBytes(|g.pc.raw|)|;
        CutChildKeeps(g, OwedToChild(g.pc), a.n);
      }
    }
    hide AgentNext, ChildNext, ChildFailure, HeaderBytes, Collect, Stream;
  }

  lemma MutexStep(w: World, s: State, a: Action, s': State)
    requires s.installed != [] && Next(w, s, a) == Some(s') && MutexInv(s)
    ensures MutexInv(s')
  {
    hide Parse, Inspect, Policy.Decide, HeaderBytes;
  }

  lemma AgentStreamGrows(before: seq<Delivery>, after: seq<Delivery>)
    requires before <= after && |after| <= |before| + 1
    ensures |after| > |before| ==> Collect(after, Body) == Collect(before, Body) + [after[|before|].body]
    ensures |after| > |before| ==>
              Stream(Collect(after, Body)) == Stream(Collect(before, Body)) + FrameBytes(after[|before|].body)
  {
    hide Collect, Stream, FrameBytes;
    if |after| > |before| {
      assert after == before + [after[|before|]];
      CollectSnoc(before, after[|before|], Body);
      StreamSnoc(Collect(before, Body), after[|before|].body);
    }
  }

  lemma AgentStreamByAgent(w: World, s: State, s': State)
    requires s.installed != [] && AgentNext(w, s) == Some(s') && MutexInv(s) && AgentStreamInv(s)
    ensures AgentStreamInv(s')
  {
    hide Parse, Inspect, Policy.Decide, HeaderBytes, Collect, Stream, AgentRead, AgentEvaluate, AgentEmitted, AgentDeny;
    if s.agent.pc.ALocking? {
      AgentStreamGrows(s.out.delivered, s'.out.delivered);
    } else if !AgentHolds(s.agent.pc) {
      hide AgentNext;
      AwayFromStdout(w, s, s');
    }
  }

  lemma AwayFromStdout(w: World, s: State, s': State)
    requires s.installed != [] && AgentNext(w, s) == Some(s') && !AgentHolds(s.agent.pc) && !s.agent.pc.ALocking?
    ensures s'.out == s.out && s'.child == s.child && !AgentHolds(s'.agent.pc)
  {
    hide Parse, Inspect, Policy.Decide, HeaderBytes;
  }

  lemma AgentStreamByChild(s: State, s': State)
    requires ChildNext(s) == Some(s') && MutexInv(s) && AgentStreamInv(s)
    ensures AgentStreamInv(s')
  {
    hide Parse, HeaderBytes, Collect, Stream;
    if s.child.pc.CLocking? {
      AgentStreamGrows(s.out.delivered, s'.out.delivered);
    }
  }

  lemma AgentStreamStep(w: World, s: State, a: Action, s': State)
    requires s.installed != [] && Next(w, s, a) == Some(s') && MutexInv(s) && AgentStreamInv(s)
    ensures AgentStreamInv(s')
  {
    hide AgentNext, ChildNext;
    if a.AgentStep? {
      AgentStreamByAgent(w, s, s');
    } else if a.ChildStep? {
      AgentStreamByChild(s, s');
    } else {
      hide HeaderBytes, Collect, Stream, MutexInv;
    }
  }

  lemma RelayStep(w: World, s: State, a: Action, s': State, childOut: bytes)
    requires s.installed != [] && Next(w, s, a) == Some(s') && RelayInv(s.child, s.out.delivered, childOut)
    ensures RelayInv(s'.child, s'.out.delivered, childOut)
  {
    hide Parse, ParseAll, AgentRead, AgentEvaluate, AgentEmitted, AgentDeny, HeaderBytes, Collect;
    ReadStep(s.child.input, MAX_FRAME_BYTES);
    var before, after := s.out.delivered, s'.out.delivered;
    if |after| > |before| {
      CollectSnoc(before, after[|before|], From(Child));
    }
  }

  lemma AnswerByAgent(w: World, s: State, s': State)
    requires s.installed != [] && AgentNext(w, s) == Some(s') && AnswerInv(s.agent, s.out.delivered)
    ensures AnswerInv(s'.agent, s'.out.delivered)
  {
    hide Collect, Added, FrameBytes, HeaderBytes;
    if Judging(s.agent.pc) {
      JudgingShape(w, s, s');
      hide AgentNext;
      CollectAdded(s.agent, s'.agent, Answers);
    } else {
      hide AgentRead, AgentEvaluate, AgentEmitted, AgentDeny;
      var before, after := s.out.delivered, s'.out.delivered;
      if |after| > |before| {
        CollectSnoc(before, after[|before|], From(Agent));
      }
    }
  }

  lemma AnswerStep(w: World, s: State, a: Action, s': State)
    requires s.installed != [] && Next(w, s, a) == Some(s') && AnswerInv(s.agent, s.out.delivered)
    ensures AnswerInv(s'.agent, s'.out.delivered)
  {
    hide AgentNext, Parse, HeaderBytes, Collect;
    if a.AgentStep? {
      AnswerByAgent(w, s, s');
    } else {
      var before, after := s.out.delivered, s'.out.delivered;
      if |after| > |before| {
        CollectSnoc(before, after[|before|], From(Agent));
      }
    }
  }

  lemma InspectEvent(w: World, req: Request)
    ensures Inspect(w, req).Refuse? ==> Inspect(w, req).event.Rejection?
  {
    hide ExtractTarget;
  }

  lemma EventStep(w: World, s: State, a: Action, s': State)
    requires s.installed != [] && Next(w, s, a) == Some(s')
    requires EventInv(s.agent, s.events) && InProgress(w, s.installed, s.agent.pc)
    ensures EventInv(s'.agent, s'.events)
  {
    hide Parse, Inspect, Policy.Decide, HeaderBytes, Collect, ChildNext, ChildFailure;
    var g, h := s.agent, s'.agent;
    if |h.handled| > |g.handled| {
      CollectSnoc(g.handled, h.handled[|g.handled|], Records);
    }
    if |s'.events| > |s.events| {
      CollectSnoc(s.events, s'.events[|s.events|], CallEvent);
    }
    if g.pc.AEmitting? {
      InspectEvent(w, g.pc.req);
    }
  }

  lemma ChannelStep(w: World, s: State, a: Action, s': State)
    requires s.installed != [] && Next(w, s, a) == Some(s') && ChannelInv(s)
    ensures ChannelInv(s')
  {
    hide Parse, Inspect, Policy.Decide, HeaderBytes;
  }

  lemma EndingStep(w: World, s: State, a: Action, s': State)
    requires s.installed != [] && Next(w, s, a) == Some(s') && EndingInv(s)
    ensures EndingInv(s')
  {
    hide Parse, Inspect, Policy.Decide, HeaderBytes;
  }

  lemma JustifiedLater(w: World, installed: seq<Policy.CompiledPolicy>, more: seq<Policy.CompiledPolicy>, h: Handled)
    requires installed <= more && Justified(w, installed, h)
    ensures Justified(w, more, h)
  {
    hide Inspect, Policy.Decide;
  }

  lemma NewVerdict(w: World, s: State, s': State)
    requires s.installed != [] && AgentNext(w, s) == Some(s') && InProgress(w, s.installed, s.agent.pc)
    ensures InProgress(w, s'.installed, s'.agent.pc)
    ensures var g, h := s.agent, s'.agent;
            if |h.handled| > |g.handled|
            then h.handled == g.handled + [h.handled[|g.handled|]] && Justified(w, s'.installed, h.handled[|g.handled|])
            else h.handled == g.handled
  {
    hide Parse, Inspect, Policy.Decide, HeaderBytes;
    var pc := s.agent.pc;
    if pc.AEmitting? && pc.pending.Deciding? && pc.pending.decision == Policy.Allow {
      assert DecidedBy(w, s.installed, pc.req, pc.pending.call, Policy.Allow, pc.pending.k);
    }
  }

  lemma InProgressLater(w: World, installed: seq<Policy.CompiledPolicy>, more: seq<Policy.CompiledPolicy>, pc: AgentPc)
    requires installed <= more && InProgress(w, installed, pc)
    ensures InProgress(w, more, pc)
  {
    hide Inspect, Policy.Decide;
  }

  lemma VerdictStep(w: World, s: State, a: Action, s': State)
    requires s.installed != [] && Next(w, s, a) == Some(s') && VerdictInv(w, s.agent, s.installed)
    ensures VerdictInv(w, s'.agent, s'.installed)
  {
    hide Parse, HeaderBytes, Justified, ChildNext, ChildFailure;
    forall i | 0 <= i < |s.agent.handled|
      ensures Justified(w, s'.installed, s.agent.handled[i])
    {
      JustifiedLater(w, s.installed, s'.installed, s.agent.handled[i]);
    }
    if a.AgentStep? {
      NewVerdict(w, s, s');
      hide AgentNext, InProgress;
    } else {
      InProgressLater(w, s.installed, s'.installed, s.agent.pc);
    }
  }

  lemma TimeByAgent(w: World, s: State, s': State)
    requires s.installed != [] && AgentNext(w, s) == Some(s') && TimeInv(s.agent, |s.installed|)
    ensures TimeInv(s'.agent, |s'.installed|)
  {
    if Judging(s.agent.pc) {
      JudgingTimes(w, s, s');
      hide AgentNext;
    } else {
      WritingShape(w, s, s');
      hide AgentNext;
    }
  }

  lemma JudgingTimes(w: World, s: State, s': State)
    requires s.installed != [] && AgentNext(w, s) == Some(s') && Judging(s.agent.pc)
    requires TimeInv(s.agent, |s.installed|)
    ensures var g, h, x, now := s.agent, s'.agent, Added(s.agent, s'.agent), |s.installed| - 1;
            && s'.installed == s.installed && h.handled == g.handled + x && |x| <= 1
            && (x != [] ==> Timely(x[0], |s.installed|) && HeldByAgent(h.pc) == [])
            && (x != [] ==> x[0].from == if g.pc.AReading? then now else g.since)
            && h.since == (if g.pc.AReading? && Parse(g.input, MAX_FRAME_BYTES).Frame? then now else g.since)
            && (HeldByAgent(h.pc) != [] ==> h.since == if g.pc.AReading? then now else g.since)
            && (h.pc.AReadingVersion? ==> h.since <= h.pc.k <= now)
            && (h.pc.AEmitting? && h.pc.pending.Deciding? ==> h.since <= h.pc.pending.k <= now)
  {
    hide Parse, Inspect, Policy.Decide;
  }

  lemma TimeStep(w: World, s: State, a: Action, s': State)
    requires s.installed != [] && Next(w, s, a) == Some(s') && TimeInv(s.agent, |s.installed|)
    ensures TimeInv(s'.agent, |s'.installed|)
  {
    hide AgentNext, HeaderBytes;
    if a.AgentStep? {
      TimeByAgent(w, s, s');
    }
  }

  lemma StepKeepsInv(w: World, s: State, a: Action, s': State, agentIn: bytes, childOut: bytes)
    requires s.installed != []
    ensures Inv(w, s, agentIn, childOut) && Next(w, s, a) == Some(s') ==> Inv(w, s', agentIn, childOut)
  {
    hide Next, InputInv, ChildStreamInv, MutexInv, AgentStreamInv, RelayInv, AnswerInv, EventInv, ChannelInv, TimeInv;
    hide EndingInv, InProgress, Justified;
    if Inv(w, s, agentIn, childOut) && Next(w, s, a) == Some(s') {
      InputStep(w, s, a, s', agentIn);
      ChildStreamStep(w, s, a, s');
      MutexStep(w, s, a, s');
      AgentStreamStep(w, s, a, s');
      RelayStep(w, s, a, s', childOut);
      AnswerStep(w, s, a, s');
      EventStep(w, s, a, s');
      ChannelStep(w, s, a, s');
      VerdictStep(w, s, a, s');
      TimeStep(w, s, a, s');
      EndingStep(w, s, a, s');
    }
  }

  lemma InitialInv(w: World, agentIn: bytes, childOut: bytes, p: Policy.CompiledPolicy)
    ensures Inv(w, Initial(agentIn, childOut, p), agentIn, childOut)
  {
    hide ParseAll;
    var s := Initial(agentIn, childOut, p);
    assert s.events[..0] == [];
    assert Collect([Startup], CallEvent) == Collect([Startup][..0], CallEvent) + CallEvent(Startup);
  }

  lemma {:induction false} RunKeepsInv(w: World, s: State, actions: seq<Action>, agentIn: bytes, childOut: bytes)
    requires s.installed != []
    ensures Inv(w, s, agentIn, childOut) && Steps(w, s, actions).Some? ==>
              Inv(w, Steps(w, s, actions).value, agentIn, childOut)
    decreases |actions|
  {
    hide Inv, Next;
    if actions != [] {
      var next := Next(w, s, actions[0]);
      if next.Some? {
        StepKeepsInv(w, s, actions[0], next.value, agentIn, childOut);
        RunKeepsInv(w, next.value, actions[1..], agentIn, childOut);
      }
    }
  }
}
