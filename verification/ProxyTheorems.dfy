/** The main results about the proxy, for every reachable state of every interleaving. */
module ProxyTheorems {
  import opened Basics
  import opened Framing
  import opened FramingRoundTrip
  import opened Intercept
  import opened Pumps
  import opened ProxyRuns
  import opened ProxySafety
  import Policy
  import Engine

  /** `s` is reached from the start by some list of actions. */
  ghost predicate Reachable(w: World, agentIn: bytes, childOut: bytes, p: Policy.CompiledPolicy, s: State) {
    exists actions :: Steps(w, Initial(agentIn, childOut, p), actions) == Some(s)
  }

  lemma ReachableInv(w: World, agentIn: bytes, childOut: bytes, p: Policy.CompiledPolicy, s: State)
    requires Reachable(w, agentIn, childOut, p, s)
    ensures Inv(w, s, agentIn, childOut)
  {
    var actions :| Steps(w, Initial(agentIn, childOut, p), actions) == Some(s);
    InitialInv(w, agentIn, childOut, p);
    RunKeepsInv(w, Initial(agentIn, childOut, p), actions, agentIn, childOut);
  }

  // ---------- reading the streams back ----------

  lemma {:induction false} BodiesWithin(s: bytes, cap: nat)
    requires cap <= MAX_INT
    ensures AllWithin(ParseAll(s, cap).bodies, cap)
    decreases |s|
  {
    ReadStep(s, cap);
    ParseConsumes(s, cap);
    if Parse(s, cap).Frame? {
      assert |Parse(s, cap).body| <= cap by {
        hide ParseHeader;
      }
      hide Parse, ParseAll;
      BodiesWithin(Parse(s, cap).rest, cap);
    }
  }

  /** A written stream, with at most the end of its last frame missing, reads back as its frames. */
  lemma {:induction false} ReadBack(written: bytes, owed: bytes, bodies: seq<bytes>, cap: nat)
    requires written + owed == Stream(bodies) && TailOfLast(owed, bodies) && AllWithin(bodies, cap)
    ensures owed == [] ==> ParseAll(written, cap) == StreamResult(bodies, HeaderEof)
    ensures owed != [] ==> bodies != [] && ParseAll(written, cap).bodies == bodies[..|bodies| - 1]
  {
    hide FrameBytes, Stream, ParseAll;
    if owed == [] {
      assert written == Stream(bodies);
      StreamRoundTrip(bodies, cap);
    } else {
      var init, last := bodies[..|bodies| - 1], bodies[|bodies| - 1];
      assert bodies == init + [last];
      StreamSnoc(init, last);
      var frame, whole := FrameBytes(last), Stream(init);
      var n := |frame| - |owed|;
      assert written == (whole + frame)[..|whole| + n] == whole + frame[..n];
      TruncatedStream(init, last, frame[..n], cap);
    }
  }

  lemma {:induction false} ForwardsWithin(handled: seq<Handled>, cap: nat)
    requires AllWithin(Collect(handled, Raw), cap)
    ensures AllWithin(Collect(handled, Forwards), cap)
  {
    if handled != [] {
      var init, last := handled[..|handled| - 1], handled[|handled| - 1];
      var raws := Collect(init, Raw);
      assert Collect(handled, Raw) == raws + [last.raw];
      assert forall i :: 0 <= i < |raws| ==> raws[i] == (raws + [last.raw])[i];
      assert (raws + [last.raw])[|raws|] == last.raw;
      ForwardsWithin(init, cap);
    }
  }

  // ---------- end to end ----------

  /** What the child can read from its stdin is, in order and byte for byte, the agent's frames that are
      not tools/call or were allowed by a policy current while the frame was in hand, with at most the last of
      them still missing. Once the agent pump has met the end of its input, nothing is missing. */
  lemma ChildSeesFilteredStream(w: World, agentIn: bytes, childOut: bytes, p: Policy.CompiledPolicy, s: State)
    requires Reachable(w, agentIn, childOut, p, s)
    ensures var frames, forwarded := ParseAll(agentIn, MAX_FRAME_BYTES).bodies, Collect(s.agent.handled, Forwards);
            var seen := ParseAll(s.agent.toChild, MAX_FRAME_BYTES);
            && Collect(s.agent.handled, Raw) <= frames
            && (forall i :: 0 <= i < |s.agent.handled| ==>
                  Justified(w, s.installed, s.agent.handled[i]) && Timely(s.agent.handled[i], |s.installed|))
            && (seen.bodies == forwarded || (forwarded != [] && seen.bodies == forwarded[..|forwarded| - 1]))
            && (s.agent.pc.AStopped? && s.agent.pc.ending.InputEnded? ==>
                  Collect(s.agent.handled, Raw) == frames && seen == StreamResult(forwarded, HeaderEof))
  {
    ReachableInv(w, agentIn, childOut, p, s);
    FramesReadInOrder(s.agent, agentIn);
    ChildStreamRead(s.agent, agentIn);
    assert VerdictInv(w, s.agent, s.installed) && TimeInv(s.agent, |s.installed|);
    if s.agent.pc.AStopped? {
      assert EndingInv(s);
      ReadStep(s.agent.input, MAX_FRAME_BYTES);
    }
    hide Inv, InputInv, ChildStreamInv, Justified, Timely, ParseAll, Parse, Collect, Stream, FrameBytes;
  }

  lemma FramesReadInOrder(g: AgentPump, agentIn: bytes)
    requires InputInv(g, agentIn)
    ensures var raws, all := Collect(g.handled, Raw), ParseAll(agentIn, MAX_FRAME_BYTES);
            && raws <= all.bodies && AllWithin(raws, MAX_FRAME_BYTES)
            && (HeldByAgent(g.pc) == [] && ParseAll(g.input, MAX_FRAME_BYTES).bodies == [] ==> raws == all.bodies)
  {
    hide ParseAll, Collect, AllWithin;
    BodiesWithin(agentIn, MAX_FRAME_BYTES);
    var raws, later := Collect(g.handled, Raw), HeldByAgent(g.pc) + ParseAll(g.input, MAX_FRAME_BYTES).bodies;
    assert raws + HeldByAgent(g.pc) + ParseAll(g.input, MAX_FRAME_BYTES).bodies == raws + later;
    PrefixWithin(raws, later, MAX_FRAME_BYTES);
  }

  lemma PrefixWithin(xs: seq<bytes>, ys: seq<bytes>, cap: nat)
    requires AllWithin(xs + ys, cap)
    ensures AllWithin(xs, cap) && xs <= xs + ys
  {
    assert forall i :: 0 <= i < |xs| ==> xs[i] == (xs + ys)[i];
  }

  lemma ChildStreamRead(g: AgentPump, agentIn: bytes)
    requires InputInv(g, agentIn) && ChildStreamInv(g)
    ensures var forwarded, seen := Collect(g.handled, Forwards), ParseAll(g.toChild, MAX_FRAME_BYTES);
            && (seen.bodies == forwarded || (forwarded != [] && seen.bodies == forwarded[..|forwarded| - 1]))
            && (g.pc.AStopped? && g.pc.ending.InputEnded? ==> seen == StreamResult(forwarded, HeaderEof))
  {
    FramesReadInOrder(g, agentIn);
    hide InputInv, ParseAll, Collect, Stream, FrameBytes;
    ForwardsWithin(g.handled, MAX_FRAME_BYTES);
    ReadBack(g.toChild, OwedToChild(g.pc) + g.lost, Collect(g.handled, Forwards), MAX_FRAME_BYTES);
  }

  lemma VerdictIsJustified(w: World, agentIn: bytes, childOut: bytes, p: Policy.CompiledPolicy, s: State, i: nat)
    requires Reachable(w, agentIn, childOut, p, s) && i < |s.agent.handled|
    ensures Justified(w, s.installed, s.agent.handled[i]) && Timely(s.agent.handled[i], |s.installed|)
  {
    ReachableInv(w, agentIn, childOut, p, s);
    hide Reachable, Justified, Timely;
    hide InputInv, ChildStreamInv, MutexInv, AgentStreamInv, RelayInv, AnswerInv, EventInv, ChannelInv, EndingInv;
  }

  /** In every run, a frame is forwarded only if it is not a tools/call, or its call passed inspection and was
      allowed by a policy that was current between the reading of the frame and its handling. */
  lemma ForwardedMeansAllowed(w: World, agentIn: bytes, childOut: bytes, p: Policy.CompiledPolicy, s: State, i: nat)
    requires Reachable(w, agentIn, childOut, p, s) && i < |s.agent.handled| && Forwards(s.agent.handled[i]) != []
    ensures var h := s.agent.handled[i];
            var m := w.decode(h.raw);
            !IsToolsCall(m) || exists k :: h.from <= k <= h.to < |s.installed| && Forwarded(w, s.installed[k], m.req)
  {
    VerdictIsJustified(w, agentIn, childOut, p, s, i);
    hide Reachable, Inspect, Policy.Decide;
  }

  /** When the policies were compiled from `configs`, a tools/call is forwarded only if a configuration whose
      policy was current between its reading and its handling declares it allowed. */
  lemma ForwardedMeansDeclared(w: World, agentIn: bytes, childOut: bytes, p: Policy.CompiledPolicy, s: State, i: nat,
                               configs: seq<Policy.Config>)
    requires Reachable(w, agentIn, childOut, p, s) && i < |s.agent.handled| && Forwards(s.agent.handled[i]) != []
    requires IsToolsCall(w.decode(s.agent.handled[i].raw))
    ensures Policy.AllCompiled(configs, s.installed) ==>
              var h := s.agent.handled[i];
              var asked := Inspect(w, w.decode(h.raw).req);
              && asked.Ask?
              && exists k :: h.from <= k <= h.to < |configs|
                             && Policy.Declared(w.globs, configs[k], asked.call) == Policy.Allow
  {
    ForwardedMeansAllowed(w, agentIn, childOut, p, s, i);
    var h := s.agent.handled[i];
    var req := w.decode(h.raw).req;
    var k :| h.from <= k <= h.to < |s.installed| && Forwarded(w, s.installed[k], req);
    hide Reachable, Inspect, Policy.Decide, Policy.Declared, Policy.CompilesTo;
    if Policy.AllCompiled(configs, s.installed) {
      Engine.CompiledMeansDeclared(w.globs, configs[k], s.installed[k], Inspect(w, req).call);
      assert Policy.Declared(w.globs, configs[k], Inspect(w, req).call) == Policy.Allow;
    }
  }

  /** In every run, of two frames judged by policy, the later one was judged by the same policy or a newer one. */
  lemma NoOlderPolicy(w: World, agentIn: bytes, childOut: bytes, p: Policy.CompiledPolicy, s: State, i: nat, j: nat)
    requires Reachable(w, agentIn, childOut, p, s) && i < j < |s.agent.handled|
    requires s.agent.handled[i].verdict.Allowed? || s.agent.handled[i].verdict.Denied?
    requires s.agent.handled[j].verdict.Allowed? || s.agent.handled[j].verdict.Denied?
    ensures s.agent.handled[i].verdict.k <= s.agent.handled[j].verdict.k < |s.installed|
  {
    VerdictIsJustified(w, agentIn, childOut, p, s, i);
    VerdictIsJustified(w, agentIn, childOut, p, s, j);
    ReachableInv(w, agentIn, childOut, p, s);
    assert TimeInv(s.agent, |s.installed|);
    hide Reachable, Inv, Justified;
  }

  /** Of the frames counted from `base` on, each was read when policy `n` or a newer one was current. */
  ghost predicate ReadSince(g: AgentPump, base: nat, n: nat) {
    && |g.handled| + |HeldByAgent(g.pc)| >= base
    && (forall i :: base <= i < |g.handled| ==> g.handled[i].from >= n)
    && (HeldByAgent(g.pc) != [] && |g.handled| >= base ==> g.since >= n)
  }

  lemma ReadSinceJudging(w: World, s: State, s': State, base: nat, n: nat)
    requires s.installed != [] && AgentNext(w, s) == Some(s') && Judging(s.agent.pc) && TimeInv(s.agent, |s.installed|)
    requires n < |s.installed| && ReadSince(s.agent, base, n)
    ensures ReadSince(s'.agent, base, n)
  {
    hide AgentNext, Timely, FrameBytes, Forwards, Answers, Parse, OwedToChild, WaitingAnswer, TimeInv;
    JudgingTimes(w, s, s');
    HandsOn(w, s, s');
    hide Added;
  }

  /** A judging step neither drops the frame in hand nor takes a second one. */
  lemma HandsOn(w: World, s: State, s': State)
    requires s.installed != [] && AgentNext(w, s) == Some(s') && Judging(s.agent.pc)
    ensures |HeldByAgent(s.agent.pc)| <= |Added(s.agent, s'.agent)| + |HeldByAgent(s'.agent.pc)|
    ensures s.agent.pc.AReading? ==> HeldByAgent(s.agent.pc) == []
  {
    hide AgentNext, FrameBytes, Forwards, Answers, Parse, OwedToChild, WaitingAnswer;
    JudgingShape(w, s, s');
  }

  lemma ReadSinceWriting(w: World, s: State, s': State, base: nat, n: nat)
    requires s.installed != [] && AgentNext(w, s) == Some(s') && !Judging(s.agent.pc)
    requires ReadSince(s.agent, base, n)
    ensures ReadSince(s'.agent, base, n)
  {
    hide AgentNext;
    WritingShape(w, s, s');
    hide FrameBytes, OwedToChild;
  }

  lemma ReadSinceStep(w: World, s: State, a: Action, s': State, base: nat, n: nat)
    requires s.installed != [] && Next(w, s, a) == Some(s') && TimeInv(s.agent, |s.installed|)
    requires n < |s.installed| && ReadSince(s.agent, base, n)
    ensures ReadSince(s'.agent, base, n)
  {
    hide AgentNext, HeaderBytes, TimeInv;
    if a.AgentStep? {
      hide ReadSince;
      if Judging(s.agent.pc) {
        ReadSinceJudging(w, s, s', base, n);
      } else {
        ReadSinceWriting(w, s, s', base, n);
      }
    }
  }

  lemma {:induction false} RunReadSince(w: World, s: State, actions: seq<Action>, agentIn: bytes, childOut: bytes,
                                        base: nat, n: nat)
    requires s.installed != []
    ensures Inv(w, s, agentIn, childOut) && n < |s.installed| && ReadSince(s.agent, base, n)
            && Steps(w, s, actions).Some? ==>
              ReadSince(Steps(w, s, actions).value.agent, base, n)
    decreases |actions|
  {
    if actions != [] && Inv(w, s, agentIn, childOut) && n < |s.installed| && ReadSince(s.agent, base, n) {
      assert TimeInv(s.agent, |s.installed|);
      hide Inv, Next, ReadSince, TimeInv;
      var next := Next(w, s, actions[0]);
      if next.Some? {
        ReadSinceStep(w, s, actions[0], next.value, base, n);
        StepKeepsInv(w, s, actions[0], next.value, agentIn, childOut);
        RunReadSince(w, next.value, actions[1..], agentIn, childOut, base, n);
      }
    }
  }

  /** In every run, once a policy is current, no frame read from then on is judged by an older one. */
  lemma SwapTakesEffect(w: World, agentIn: bytes, childOut: bytes, p: Policy.CompiledPolicy, s: State,
                        later: seq<Action>, i: nat)
    requires s.installed != [] && Reachable(w, agentIn, childOut, p, s) && Steps(w, s, later).Some?
    requires |s.agent.handled| + |HeldByAgent(s.agent.pc)| <= i < |Steps(w, s, later).value.agent.handled|
    ensures var h := Steps(w, s, later).value.agent.handled[i];
            h.verdict.Allowed? || h.verdict.Denied? ==> h.verdict.k >= |s.installed| - 1
  {
    ReachableInv(w, agentIn, childOut, p, s);
    var base, n := |s.agent.handled| + |HeldByAgent(s.agent.pc)|, |s.installed| - 1;
    RunReadSince(w, s, later, agentIn, childOut, base, n);
    RunKeepsInv(w, s, later, agentIn, childOut);
    var s' := Steps(w, s, later).value;
    assert TimeInv(s'.agent, |s'.installed|);
    hide Reachable, Inv, Steps;
    assert Timely(s'.agent.handled[i], |s'.installed|);
  }

  // ---------- the agent's stream ----------

  lemma OwedOnlyWhileHeld(a: AgentPc, c: ChildPc)
    ensures !AgentHolds(a) && !ChildHolds(c) ==> OwedToAgent(a, c) == []
  {
    hide FrameBytes;
  }

  /** As long as no write to stdout has failed, the bytes written are whole frames, and nothing else while the
      mutex is free; while it is held they lack only the end of the last frame, which the holder is writing. */
  lemma StdoutIsWholeFrames(w: World, agentIn: bytes, childOut: bytes, p: Policy.CompiledPolicy, s: State)
    requires Reachable(w, agentIn, childOut, p, s) && !s.out.broken
    ensures var frames, owed := Collect(s.out.delivered, Body), OwedToAgent(s.agent.pc, s.child.pc);
            && s.out.written + owed == Stream(frames)
            && (s.out.mutex.None? ==> s.out.written == Stream(frames))
            && (s.out.mutex.Some? ==>
                  && s.out.delivered != [] && s.out.delivered[|s.out.delivered| - 1].from == s.out.mutex.value
                  && (owed == [] || (frames != [] && |owed| <= |FrameBytes(frames[|frames| - 1])|)))
  {
    hide Reachable, AgentStreamInv, MutexInv, Collect, Stream, FrameBytes, OwedToAgent;
    StdoutInv(w, agentIn, childOut, p, s);
    WholeFrames(s);
  }

  lemma StdoutInv(w: World, agentIn: bytes, childOut: bytes, p: Policy.CompiledPolicy, s: State)
    requires Reachable(w, agentIn, childOut, p, s)
    ensures MutexInv(s) && AgentStreamInv(s)
  {
    ReachableInv(w, agentIn, childOut, p, s);
    hide Reachable, InputInv, ChildStreamInv, MutexInv, AgentStreamInv, RelayInv, AnswerInv, EventInv, ChannelInv;
    hide VerdictInv, TimeInv, EndingInv;
  }

  lemma WholeFrames(s: State)
    requires MutexInv(s) && AgentStreamInv(s) && !s.out.broken
    ensures var frames, owed := Collect(s.out.delivered, Body), OwedToAgent(s.agent.pc, s.child.pc);
            && s.out.written + owed == Stream(frames)
            && (s.out.mutex.None? ==> s.out.written == Stream(frames))
            && (s.out.mutex.Some? ==>
                  && s.out.delivered != [] && s.out.delivered[|s.out.delivered| - 1].from == s.out.mutex.value
                  && (owed == [] || (frames != [] && |owed| <= |FrameBytes(frames[|frames| - 1])|)))
  {
    OwedOnlyWhileHeld(s.agent.pc, s.child.pc);
    hide Collect, Stream, FrameBytes, OwedToAgent;
    assert s.out.written + [] == s.out.written;
  }

  /** Reading the agent's stream back gives whole frames and at most one partial frame, and that one belongs
      to the pump that holds the mutex. */
  lemma FramesNeverInterleave(w: World, agentIn: bytes, childOut: bytes, p: Policy.CompiledPolicy, s: State, cap: nat)
    requires Reachable(w, agentIn, childOut, p, s) && !s.out.broken
    requires AllWithin(Collect(s.out.delivered, Body), cap)
    ensures var frames, seen := Collect(s.out.delivered, Body), ParseAll(s.out.written, cap);
            && (s.out.mutex.None? ==> seen == StreamResult(frames, HeaderEof))
            && (s.out.mutex.Some? ==>
                  && s.out.delivered != [] && s.out.delivered[|s.out.delivered| - 1].from == s.out.mutex.value
                  && (|| seen == StreamResult(frames, HeaderEof)
                      || (frames != [] && seen.bodies == frames[..|frames| - 1])))
  {
    StdoutIsWholeFrames(w, agentIn, childOut, p, s);
    hide Reachable, ParseAll, Collect, Stream, FrameBytes, OwedToAgent;
    var owed := OwedToAgent(s.agent.pc, s.child.pc);
    assert s.out.mutex.None? ==> s.out.written + [] == s.out.written;
    ReadBack(s.out.written, if s.out.mutex.None? then [] else owed, Collect(s.out.delivered, Body), cap);
  }

  /** Every delivered frame is in exactly one of the two lists that are merged. */
  lemma {:induction false} MergeIsComplete(delivered: seq<Delivery>)
    ensures multiset(Collect(delivered, Body)) ==
            multiset(Collect(delivered, From(Child))) + multiset(Collect(delivered, From(Agent)))
  {
    if delivered != [] {
      MergeIsComplete(delivered[..|delivered| - 1]);
    }
  }

  /** The frames the agent gets are an order-preserving merge: those from the child are the child's frames,
      in order, and the others are the answers to refused calls, in order, with at most one waiting; every
      frame delivered is one or the other. */
  lemma DeliveryIsMerge(w: World, agentIn: bytes, childOut: bytes, p: Policy.CompiledPolicy, s: State)
    requires Reachable(w, agentIn, childOut, p, s)
    ensures Collect(s.out.delivered, From(Child)) <= ParseAll(childOut, MAX_FRAME_BYTES).bodies
    ensures var given, due := Collect(s.out.delivered, From(Agent)), Collect(s.agent.handled, Answers);
            given == due || (due != [] && given == due[..|due| - 1])
    ensures s.child.pc == CStopped(InputEnded(true)) || s.child.pc == CStopped(InputEnded(false)) ==>
              Collect(s.out.delivered, From(Child)) == ParseAll(childOut, MAX_FRAME_BYTES).bodies
    ensures multiset(Collect(s.out.delivered, Body)) ==
            multiset(Collect(s.out.delivered, From(Child))) + multiset(Collect(s.out.delivered, From(Agent)))
  {
    ReachableInv(w, agentIn, childOut, p, s);
    MergeIsComplete(s.out.delivered);
    ReadStep(s.child.input, MAX_FRAME_BYTES);
    RelayedPrefix(s.child, s.out.delivered, childOut);
    AnswersDue(s.agent, s.out.delivered);
    hide InputInv, ChildStreamInv, MutexInv, AgentStreamInv, RelayInv, AnswerInv, EventInv, ChannelInv, VerdictInv;
    hide TimeInv, ParseAll, Parse, Collect;
  }

  lemma RelayedPrefix(c: ChildPump, delivered: seq<Delivery>, childOut: bytes)
    requires RelayInv(c, delivered, childOut)
    ensures var relayed, all := Collect(delivered, From(Child)), ParseAll(childOut, MAX_FRAME_BYTES).bodies;
            && relayed <= all
            && (HeldByChild(c.pc) == [] && ParseAll(c.input, MAX_FRAME_BYTES).bodies == [] ==> relayed == all)
  {
    hide ParseAll, Collect;
    var relayed, later := Collect(delivered, From(Child)), ParseAll(c.input, MAX_FRAME_BYTES).bodies;
    assert relayed + HeldByChild(c.pc) + later == relayed + (HeldByChild(c.pc) + later);
  }

  lemma AnswersDue(g: AgentPump, delivered: seq<Delivery>)
    requires AnswerInv(g, delivered)
    ensures var given, due := Collect(delivered, From(Agent)), Collect(g.handled, Answers);
            given == due || (due != [] && given == due[..|due| - 1])
  {
    hide Collect;
  }

  // ---------- records ----------

  /** In every run, whatever tools/call the child can read from its stdin passed inspection, has an allow event
      with its tool and target in the audit trail, and was allowed by a policy that was installed. */
  lemma ChildCallsAreRecorded(w: World, agentIn: bytes, childOut: bytes, p: Policy.CompiledPolicy, s: State, f: bytes)
    requires Reachable(w, agentIn, childOut, p, s)
    requires f in ParseAll(s.agent.toChild, MAX_FRAME_BYTES).bodies && IsToolsCall(w.decode(f))
    ensures var asked := Inspect(w, w.decode(f).req);
            && asked.Ask?
            && Judged(Policy.Allow, asked.call.tool, asked.call.target) in s.events
            && exists k :: 0 <= k < |s.installed| && Forwarded(w, s.installed[k], w.decode(f).req)
  {
    var i := SeenFrame(w, agentIn, childOut, p, s, f);
    var h := s.agent.handled[i];
    VerdictIsJustified(w, agentIn, childOut, p, s, i);
    AllowRecord(w, s.installed, h);
    var asked := Inspect(w, w.decode(f).req);
    var e := Judged(Policy.Allow, asked.call.tool, asked.call.target);
    hide Inspect, Forwarded, Justified, Timely, Records;
    CollectHas(s.agent.handled, Records, i, e);
    RecordsComeFirst(w, agentIn, childOut, p, s);
    hide Reachable, ParseAll, Collect, Stream;
    var trail := Collect(s.events, CallEvent);
    assert e in trail;
    var at := CollectSource(s.events, CallEvent, e);
  }

  /** When every configuration installed names targets in all its allow rules and does not allow by default,
      every tools/call the child can read carries, in the primary argument its action declares, a string that
      a target of one of those rules matches. */
  lemma ChildCallsHitListedTargets(w: World, agentIn: bytes, childOut: bytes, p: Policy.CompiledPolicy, s: State,
                                   configs: seq<Policy.Config>, f: bytes)
    requires Reachable(w, agentIn, childOut, p, s)
    requires f in ParseAll(s.agent.toChild, MAX_FRAME_BYTES).bodies && IsToolsCall(w.decode(f))
    ensures TargetedConfigs(configs, s.installed) ==>
              var ps := w.decodeParams(w.decode(f).req.params);
              && ps.Params? && ps.name in w.actions
              && var key := w.actions[ps.name].primaryArg;
                 && key in ps.args && ps.args[key].Str?
                 && exists k, r, t :: 0 <= k < |configs| && r in configs[k].rules && r.action == "allow"
                                      && t in r.targets
                                      && w.globs.matches(t, ps.args[key].s)
  {
    if TargetedConfigs(configs, s.installed) {
      ChildCallsAreRecorded(w, agentIn, childOut, p, s, f);
      var req := w.decode(f).req;
      var k :| 0 <= k < |s.installed| && Forwarded(w, s.installed[k], req);
      assert Policy.CompilesTo(configs[k], s.installed[k]) && OnlyTargetedAllows(configs[k]);
      hide Reachable, ParseAll, Policy.CompilesTo, Policy.Decide, Policy.Applies;
      ForwardedCalls(w, s.installed[k], req);
      ForwardedTargetIsListed(w, configs[k], s.installed[k], req);
    }
  }

  /** The policies were compiled from these configurations, which allow only on named targets. */
  ghost predicate TargetedConfigs(configs: seq<Policy.Config>, installed: seq<Policy.CompiledPolicy>) {
    Policy.AllCompiled(configs, installed) && forall k :: 0 <= k < |configs| ==> OnlyTargetedAllows(configs[k])
  }

  ghost predicate OnlyTargetedAllows(c: Policy.Config) {
    c.defaultAction != "allow" && forall r :: r in c.rules && r.action == "allow" ==> r.targets != []
  }

  /** A frame the child can read is one of those handled and forwarded. */
  lemma SeenFrame(w: World, agentIn: bytes, childOut: bytes, p: Policy.CompiledPolicy, s: State, f: bytes)
      returns (i: nat)
    requires Reachable(w, agentIn, childOut, p, s) && f in ParseAll(s.agent.toChild, MAX_FRAME_BYTES).bodies
    ensures i < |s.agent.handled| && s.agent.handled[i].raw == f && Forwards(s.agent.handled[i]) != []
  {
    ChildSeesFilteredStream(w, agentIn, childOut, p, s);
    hide Reachable, ParseAll, Collect, Justified, Timely;
    var forwarded := Collect(s.agent.handled, Forwards);
    assert f in forwarded;
    i := CollectSource(s.agent.handled, Forwards, f);
  }

  lemma AllowRecord(w: World, installed: seq<Policy.CompiledPolicy>, h: Handled)
    requires Justified(w, installed, h) && Forwards(h) != [] && IsToolsCall(w.decode(h.raw))
    ensures var asked := Inspect(w, w.decode(h.raw).req);
            && asked.Ask? && Records(h) == [Judged(Policy.Allow, asked.call.tool, asked.call.target)]
            && exists k :: 0 <= k < |installed| && Forwarded(w, installed[k], w.decode(h.raw).req)
  {
    hide Inspect, Policy.Decide;
  }

  function CallsOf(w: World): Handled -> seq<Handled> {
    (h: Handled) => if IsToolsCall(w.decode(h.raw)) then [h] else []
  }

  /** Event `e` says what happened to the tools/call `h`: the rejection inspection prescribes, answered, or the
      decision on its tool and target, which is forwarded on allow and answered otherwise. */
  ghost predicate RecordFits(w: World, h: Handled, e: Event) {
    && IsToolsCall(w.decode(h.raw))
    && var i := Inspect(w, w.decode(h.raw).req);
       if i.Refuse? then e == i.event && Forwards(h) == [] && Answers(h) == [w.encode(i.reply)]
       else
         && e.Judged? && e.tool == i.call.tool && e.target == i.call.target
         && Forwards(h) == (if e.decision == Policy.Allow then [h.raw] else [])
         && (Answers(h) == [] <==> e.decision == Policy.Allow)
  }

  lemma OneRecord(w: World, installed: seq<Policy.CompiledPolicy>, h: Handled)
    requires Justified(w, installed, h)
    ensures if IsToolsCall(w.decode(h.raw)) then |Records(h)| == 1 && RecordFits(w, h, Records(h)[0])
            else Records(h) == []
  {
    hide Inspect, Policy.Decide;
  }

  lemma {:induction false} CallsAndRecords(w: World, installed: seq<Policy.CompiledPolicy>, handled: seq<Handled>)
    requires forall i :: 0 <= i < |handled| ==> Justified(w, installed, handled[i])
    ensures var calls, records := Collect(handled, CallsOf(w)), Collect(handled, Records);
            |calls| == |records| && forall c :: 0 <= c < |calls| ==> RecordFits(w, calls[c], records[c])
  {
    hide Justified, RecordFits, Records;
    if handled != [] {
      var init, h := handled[..|handled| - 1], handled[|handled| - 1];
      CallsAndRecords(w, installed, init);
      OneRecord(w, installed, h);
    }
  }

  /** In every reachable state, the audit trail has exactly one event for each tools/call handled, in order, and
      at most one more, for the call in hand; each call is forwarded or answered as its event says. */
  lemma OneVerdictOneRecord(w: World, agentIn: bytes, childOut: bytes, p: Policy.CompiledPolicy, s: State)
    requires Reachable(w, agentIn, childOut, p, s)
    ensures var calls, trail := Collect(s.agent.handled, CallsOf(w)), Collect(s.events, CallEvent);
            && |calls| <= |trail| <= |calls| + 1
            && forall c :: 0 <= c < |calls| ==> RecordFits(w, calls[c], trail[c])
  {
    ReachableInv(w, agentIn, childOut, p, s);
    assert VerdictInv(w, s.agent, s.installed);
    CallsAndRecords(w, s.installed, s.agent.handled);
    RecordsComeFirst(w, agentIn, childOut, p, s);
    hide Reachable, Inv, Justified, RecordFits, Collect, Stream, CallsOf;
  }

  /** In every reachable state the audit trail holds, in order, the records of all handled frames, and at
      most one more, of the call in progress. What the child's stdin holds, and the answers whose writing to
      stdout has begun, are of handled frames only, so no byte of an effect precedes its record. */
  lemma RecordsComeFirst(w: World, agentIn: bytes, childOut: bytes, p: Policy.CompiledPolicy, s: State)
    requires Reachable(w, agentIn, childOut, p, s)
    ensures var trail, due := Collect(s.events, CallEvent), Collect(s.agent.handled, Records);
            due <= trail && |trail| <= |due| + 1 && (|trail| == |due| + 1 ==> s.agent.pc.AReadingVersion?)
    ensures s.agent.toChild <= Stream(Collect(s.agent.handled, Forwards))
    ensures Collect(s.out.delivered, From(Agent)) <= Collect(s.agent.handled, Answers)
    ensures !s.out.broken ==> s.out.written <= Stream(Collect(s.out.delivered, Body))
  {
    ReachableInv(w, agentIn, childOut, p, s);
    assert EventInv(s.agent, s.events) && ChildStreamInv(s.agent) && AnswerInv(s.agent, s.out.delivered);
    hide Reachable, Inv, Collect, Stream, FrameBytes;
    var owed := OwedToChild(s.agent.pc) + s.agent.lost;
    assert s.agent.toChild <= s.agent.toChild + owed;
    if !s.out.broken {
      StdoutIsWholeFrames(w, agentIn, childOut, p, s);
      assert s.out.written <= s.out.written + OwedToAgent(s.agent.pc, s.child.pc);
    }
  }

  /** Every policy installed has a higher version than the ones before. */
  ghost predicate Rising(installed: seq<Policy.CompiledPolicy>) {
    forall a, b :: 0 <= a < b < |installed| ==> installed[a].version < installed[b].version
  }

  /** In every run, a denial answers the call that was in the frame and was decided by policy `k`, with the
      version of the policy current when the answer was built. If versions never go down, it is at least the
      version of the policy that decided. */
  lemma ReportedVersion(w: World, agentIn: bytes, childOut: bytes, p: Policy.CompiledPolicy, s: State, i: nat)
      returns (req: Request, call: Policy.Call, d: Policy.Decision, reason: string)
    requires Reachable(w, agentIn, childOut, p, s) && i < |s.agent.handled| && s.agent.handled[i].verdict.Denied?
    ensures var h := s.agent.handled[i];
            var Denied(event, k, j, answer) := h.verdict;
            && CallIs(w, h.raw, req) && DecidedBy(w, s.installed, req, call, d, k) && d != Policy.Allow
            && event == Judged(d, call.tool, call.target)
            && h.from <= k <= j == h.to < |s.installed|
            && GivesReason(d, reason)
            && answer == w.encode(Reply(req.id, -32000,
                                        Some(Detail(reason, call.tool, call.target, s.installed[j].version))))
            && ((forall a, b :: 0 <= a < b < |s.installed| ==> s.installed[a].version <= s.installed[b].version) ==>
                  s.installed[k].version <= s.installed[j].version)
            && (Rising(s.installed) ==> (s.installed[j].version == s.installed[k].version <==> j == k))
  {
    VerdictIsJustified(w, agentIn, childOut, p, s, i);
    hide Reachable, Inspect, Policy.Decide;
    var h := s.agent.handled[i];
    req, call, d :| CallIs(w, h.raw, req) && DecidedBy(w, s.installed, req, call, d, h.verdict.k) && d != Policy.Allow
                    && h.verdict.event == Judged(d, call.tool, call.target)
                    && h.verdict.answer == w.encode(Denial(req, call, d, s.installed[h.verdict.j].version));
    reason := if d == Policy.Deny then "policy_deny"
              else if d == Policy.Unset then "policy_unset" else "approval_pending";
    DenialSpelled(req, call, d, s.installed[h.verdict.j].version, reason);
    hide Denial;
  }

  lemma DenyStep(w: World, s: State)
    requires s.installed != [] && s.agent.pc.AReadingVersion? && s.agent.pc.k < |s.installed|
    ensures var next := Next(w, s, AgentStep);
            && next.Some? && |next.value.agent.handled| == |s.agent.handled| + 1
            && DenialReports(w, s, next.value.agent.handled[|s.agent.handled|])
  {
    hide AgentRead, AgentEvaluate, AgentEmitted, HeaderBytes;
  }

  lemma DenialInHand(w: World, agentIn: bytes, childOut: bytes, p: Policy.CompiledPolicy, s: State)
    requires Reachable(w, agentIn, childOut, p, s) && s.agent.pc.AReadingVersion?
    ensures s.installed != [] && s.agent.pc.k < |s.installed|
    ensures InProgress(w, s.installed, s.agent.pc)
  {
    ReachableInv(w, agentIn, childOut, p, s);
    hide Reachable, InProgress, Justified;
    hide InputInv, ChildStreamInv, MutexInv, AgentStreamInv, RelayInv, AnswerInv, EventInv, ChannelInv, EndingInv;
  }

  /** When a denial is about to be built, the version it will report is the current policy's. So it reports the
      policy that decided the call exactly when none was installed since; and when every policy installed
      has a higher version than the one before, that is also exactly when it reports the right version. */
  lemma VersionIsCurrent(w: World, agentIn: bytes, childOut: bytes, p: Policy.CompiledPolicy, s: State)
    requires Reachable(w, agentIn, childOut, p, s) && s.agent.pc.AReadingVersion?
    ensures s.installed != [] && s.agent.pc.k < |s.installed|
    ensures var AReadingVersion(raw, req, call, d, k) := s.agent.pc;
            CallIs(w, raw, req) && DecidedBy(w, s.installed, req, call, d, k)
    ensures var next := Next(w, s, AgentStep);
            && next.Some? && |next.value.agent.handled| == |s.agent.handled| + 1
            && DenialReports(w, s, next.value.agent.handled[|s.agent.handled|])
  {
    hide Reachable, DecidedBy, CallIs, Next, DenialReports;
    DenialInHand(w, agentIn, childOut, p, s);
    DenyStep(w, s);
  }

  /** `h` is the denial of the call in hand in `s`, and what its version says about the policy that decided. */
  ghost predicate DenialReports(w: World, s: State, h: Handled)
    requires s.agent.pc.AReadingVersion? && s.agent.pc.k < |s.installed|
  {
    var AReadingVersion(raw, req, call, d, k) := s.agent.pc;
    var now := |s.installed| - 1;
    && h.raw == raw && h.verdict.Denied? && h.verdict.k == k && h.verdict.j == now
    && (forall reason :: GivesReason(d, reason) ==>
                           h.verdict.answer == w.encode(Reply(req.id, -32000, Some(
                             Detail(reason, call.tool, call.target, s.installed[now].version)))))
    && (h.verdict.j == k <==> k == now)
    && (Rising(s.installed) ==> (s.installed[now].version == s.installed[k].version <==> k == now))
  }

  /** It does happen: a call that policy `p` denies, and a policy `q` installed before the answer is built; the
      answer reports the version of `q`, which did not decide. */
  lemma OtherVersionReported(w: World, raw: bytes, childOut: bytes, p: Policy.CompiledPolicy, q: Policy.CompiledPolicy,
                             reason: string)
    requires |raw| <= MAX_FRAME_BYTES && IsToolsCall(w.decode(raw)) && Inspect(w, w.decode(raw).req).Ask?
    requires GivesReason(Policy.Decide(w.globs, p, Inspect(w, w.decode(raw).req).call), reason)
    ensures var req, call := w.decode(raw).req, Inspect(w, w.decode(raw).req).call;
            var d := Policy.Decide(w.globs, p, call);
            var answer := w.encode(Reply(req.id, -32000, Some(Detail(reason, call.tool, call.target, q.version))));
            var actions := [AgentStep, AgentStep, AgentStep, Install(q), AgentStep];
            var run := Steps(w, Initial(FrameBytes(raw), childOut, p), actions);
            && run.Some? && run.value.installed == [p, q]
            && run.value.agent.handled == [Handled(raw, Denied(Judged(d, call.tool, call.target), 0, 1, answer), 0, 1)]
  {
    hide Parse, Inspect, Policy.Decide, HeaderBytes, FrameBytes;
    var s0 := Initial(FrameBytes(raw), childOut, p);
    WriteThenRead(raw, [], MAX_FRAME_BYTES);
    assert FrameBytes(raw) + [] == FrameBytes(raw);
    var s1 := Next(w, s0, AgentStep).value;
    assert s1.agent.since == 0;
    assert s1.agent.pc == AEvaluating(raw, w.decode(raw).req, Inspect(w, w.decode(raw).req).call);
    var s2 := Next(w, s1, AgentStep).value;
    var s3 := Next(w, s2, AgentStep).value;
    var s4 := Next(w, s3, Install(q)).value;
    var s5 := Next(w, s4, AgentStep).value;
    assert s5.agent.handled == [] + [s5.agent.handled[0]];
    hide Next;
    assert Steps(w, s4, [AgentStep]) == Steps(w, s5, []) == Some(s5);
    assert Steps(w, s3, [Install(q), AgentStep]) == Steps(w, s4, [AgentStep]);
    assert Steps(w, s2, [AgentStep, Install(q), AgentStep]) == Steps(w, s3, [Install(q), AgentStep]);
    assert Steps(w, s1, [AgentStep, AgentStep, Install(q), AgentStep])
           == Steps(w, s2, [AgentStep, Install(q), AgentStep]);
  }

  // ---------- the sequential pump ----------

  lemma {:induction false} SameEffects(w: World, p: Policy.CompiledPolicy, handled: seq<Handled>)
    requires forall i :: 0 <= i < |handled| ==> Justified(w, [p], handled[i])
    ensures EffectsOf(w, p, Collect(handled, Raw)) ==
            Effects(Collect(handled, Forwards), Collect(handled, Answers), Collect(handled, Records))
  {
    hide Justified, RouteOf, EventsOf;
    if handled != [] {
      var init, h := handled[..|handled| - 1], handled[|handled| - 1];
      SameEffects(w, p, init);
      EffectsSnoc(w, p, Collect(init, Raw), h.raw);
      OneFrame(w, p, h);
    }
  }

  /** Without a policy swap, once the agent's input has ended, the concurrent proxy has sent to the child,
      begun to send to the agent and recorded exactly what the pump run by itself does on the same input. */
  lemma SamePolicySameEffects(w: World, agentIn: bytes, childOut: bytes, p: Policy.CompiledPolicy, s: State)
    requires Reachable(w, agentIn, childOut, p, s) && s.installed == [p]
    requires s.agent.pc.AStopped? && s.agent.pc.ending.InputEnded?
    ensures var effects := EffectsOf(w, p, ParseAll(agentIn, MAX_FRAME_BYTES).bodies);
            && ParseAll(s.agent.toChild, MAX_FRAME_BYTES) == StreamResult(effects.toChild, HeaderEof)
            && Collect(s.out.delivered, From(Agent)) == effects.toAgent
            && Collect(s.events, CallEvent) == effects.events
  {
    ChildSeesFilteredStream(w, agentIn, childOut, p, s);
    ReachableInv(w, agentIn, childOut, p, s);
    assert AnswerInv(s.agent, s.out.delivered) && EventInv(s.agent, s.events);
    hide Reachable, Inv, Justified, Timely, ParseAll, Collect, EffectsOf;
    SameEffects(w, p, s.agent.handled);
    assert Collect(s.out.delivered, From(Agent)) + [] == Collect(s.out.delivered, From(Agent));
    assert Collect(s.agent.handled, Records) + [] == Collect(s.agent.handled, Records);
  }

  /** The agent pump that has met the end of its input has written every forwarded frame whole, and reports a
      clean end exactly when reading that input ends cleanly. */
  lemma AgentPumpEnds(w: World, agentIn: bytes, childOut: bytes, p: Policy.CompiledPolicy, s: State)
    requires Reachable(w, agentIn, childOut, p, s)
    requires s.agent.pc.AStopped? && s.agent.pc.ending.InputEnded?
    ensures s.agent.toChild == Stream(Collect(s.agent.handled, Forwards))
    ensures s.agent.pc.ending.clean <==> ParseAll(agentIn, MAX_FRAME_BYTES).error.IsEof()
  {
    ReachableInv(w, agentIn, childOut, p, s);
    assert InputInv(s.agent, agentIn) && ChildStreamInv(s.agent) && EndingInv(s);
    hide Reachable, Inv, Parse, ParseAll, Collect, Stream, FrameBytes;
    ReadStep(s.agent.input, MAX_FRAME_BYTES);
    assert s.agent.lost == [] && s.agent.toChild + ([] + []) == s.agent.toChild;
  }

  /** Complete frames and then a frame cut short: in every run, the agent pump that has met the end of that
      input has handled exactly the complete frames, has forwarded no part of the cut one, and reports a clean
      end exactly when no body byte of it was there. */
  lemma TruncatedAgentInput(w: World, agentIn: bytes, childOut: bytes, p: Policy.CompiledPolicy, s: State,
                            frames: seq<bytes>, last: bytes, cut: bytes)
    requires Reachable(w, agentIn, childOut, p, s)
    requires s.agent.pc.AStopped? && s.agent.pc.ending.InputEnded?
    ensures CutInput(agentIn, frames, last, cut) ==>
              && Collect(s.agent.handled, Raw) == frames
              && s.agent.toChild == Stream(Collect(s.agent.handled, Forwards))
              && (s.agent.pc.ending.clean <==> |cut| <= |HeaderBytes(|last|)|)
  {
    hide Reachable, Justified, Timely, Parse, ParseAll, Collect, Stream, FrameBytes, HeaderBytes, AllWithin;
    if CutInput(agentIn, frames, last, cut) {
      TruncatedStream(frames, last, cut, MAX_FRAME_BYTES);
      ChildSeesFilteredStream(w, agentIn, childOut, p, s);
      AgentPumpEnds(w, agentIn, childOut, p, s);
    }
  }

  /** The input is the frames of `frames` and then `cut`, the frame of `last` without its end. */
  ghost predicate CutInput(agentIn: bytes, frames: seq<bytes>, last: bytes, cut: bytes) {
    AllWithin(frames + [last], MAX_FRAME_BYTES) && cut < FrameBytes(last) && agentIn == Stream(frames) + cut
  }

  lemma OneFrame(w: World, p: Policy.CompiledPolicy, h: Handled)
    requires Justified(w, [p], h)
    ensures Records(h) == EventsOf(w, p, h.raw)
    ensures match RouteOf(w, p, h.raw)
            case ToChild => Forwards(h) == [h.raw] && Answers(h) == []
            case ToAgent(answer) => Forwards(h) == [] && Answers(h) == [answer]
  {
    RouteUnfold(w, p, h.raw);
    hide RouteOf, EventsOf, Inspect, Policy.Decide;
  }

  // ---------- progress ----------

  /** Reporting to Run never blocks a pump. */
  lemma ReportsNeverBlock(w: World, agentIn: bytes, childOut: bytes, p: Policy.CompiledPolicy, s: State)
    requires Reachable(w, agentIn, childOut, p, s)
    ensures s.agent.pc.ASending? ==> |s.finished| < CAPACITY && AgentNext(w, s).Some?
    ensures s.child.pc.CSending? ==> |s.finished| < CAPACITY && ChildNext(s).Some?
  {
    ReachableInv(w, agentIn, childOut, p, s);
    hide InputInv, ChildStreamInv, MutexInv, AgentStreamInv, RelayInv, AnswerInv, EventInv, VerdictInv, TimeInv;
    hide Reachable, EndingInv, AgentNext, ChildNext;
    SendEnabled(w, s);
  }

  lemma SendEnabled(w: World, s: State)
    requires s.installed != []
    ensures s.agent.pc.ASending? && |s.finished| < CAPACITY ==> AgentNext(w, s).Some?
    ensures s.child.pc.CSending? && |s.finished| < CAPACITY ==> ChildNext(s).Some?
  {
    hide Parse, AgentRead, AgentEvaluate, AgentEmitted, AgentDeny, HeaderBytes;
  }

  /** No deadlock: while a pump has not returned, that pump or the holder of the mutex can take a step. */
  lemma PumpsCanProceed(w: World, agentIn: bytes, childOut: bytes, p: Policy.CompiledPolicy, s: State)
    requires Reachable(w, agentIn, childOut, p, s)
    ensures !s.agent.pc.AStopped? ==> AgentNext(w, s).Some? || (s.out.mutex == Some(Child) && ChildNext(s).Some?)
    ensures !s.child.pc.CStopped? ==> ChildNext(s).Some? || (s.out.mutex == Some(Agent) && AgentNext(w, s).Some?)
  {
    ReachableInv(w, agentIn, childOut, p, s);
    ReportsNeverBlock(w, agentIn, childOut, p, s);
    assert MutexInv(s);
    hide Inv, Initial, Reachable;
    EnabledByMutex(w, s);
    hide AgentNext, ChildNext;
  }

  lemma EnabledByMutex(w: World, s: State)
    requires s.installed != [] && MutexInv(s)
    requires s.agent.pc.ASending? || s.child.pc.CSending? ==> |s.finished| < CAPACITY
    ensures !s.agent.pc.AStopped? ==> AgentNext(w, s).Some? || (s.out.mutex == Some(Child) && ChildNext(s).Some?)
    ensures !s.child.pc.CStopped? ==> ChildNext(s).Some? || (s.out.mutex == Some(Agent) && AgentNext(w, s).Some?)
  {
    hide Parse, AgentRead, AgentEvaluate, AgentEmitted, AgentDeny, HeaderBytes;
  }
}
