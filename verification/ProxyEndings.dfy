/**
 How the pumps and Run end: when a pump fails, what it reports, whose report Run returns, and the first and
 the last event of the trail.
 */
module ProxyEndings {
  import opened Basics
  import opened Framing
  import opened Intercept
  import Catalog
  import opened Pumps
  import opened ProxyRuns
  import Policy

  // ---------- a failed write ends a pump ----------

  /** The agent pump is on its way out because of a failed write. */
  predicate AgentFailed(pc: AgentPc) {
    pc == AUnlocking(false) || pc == ASending(WriteFailed) || pc == AStopped(WriteFailed)
  }

  predicate ChildFailed(pc: ChildPc) {
    pc == CUnlocking(false) || pc == CSending(WriteFailed) || pc == CStopped(WriteFailed)
  }

  lemma AgentFailedStep(w: World, s: State, a: Action, s': State)
    requires s.installed != [] && Next(w, s, a) == Some(s')
    ensures AgentFailed(s'.agent.pc) <==> AgentFailed(s.agent.pc) || a.AgentFails?
  {
    hide Parse, Inspect, Policy.Decide, HeaderBytes, FrameBytes, IsToolsCall;
    hide ChildNext, ChildFailure;
  }

  lemma ChildFailedStep(w: World, s: State, a: Action, s': State)
    requires s.installed != [] && Next(w, s, a) == Some(s')
    ensures ChildFailed(s'.child.pc) <==> ChildFailed(s.child.pc) || a.ChildFails?
  {
    hide Parse, HeaderBytes, FrameBytes, AgentRead, AgentEvaluate, AgentEmitted, AgentDeny;
  }

  lemma {:induction false} FailedRun(w: World, s: State, actions: seq<Action>)
    requires s.installed != [] && Steps(w, s, actions).Some?
    ensures var s' := Steps(w, s, actions).value;
            && (AgentFailed(s'.agent.pc) <==> AgentFailed(s.agent.pc) || exists a :: a in actions && a.AgentFails?)
            && (ChildFailed(s'.child.pc) <==> ChildFailed(s.child.pc) || exists a :: a in actions && a.ChildFails?)
    decreases |actions|
  {
    hide Next, AgentFailed, ChildFailed;
    if actions != [] {
      var next := Next(w, s, actions[0]).value;
      AgentFailedStep(w, s, actions[0], next);
      ChildFailedStep(w, s, actions[0], next);
      FailedRun(w, next, actions[1..]);
      assert forall a :: a in actions <==> a == actions[0] || a in actions[1..];
    }
  }

  /** In every run, a pump is on its way out for a failed write, and once it has returned reports one, exactly
      when a write of its own failed. */
  lemma FailureEndsThePump(w: World, agentIn: bytes, childOut: bytes, p: Policy.CompiledPolicy, actions: seq<Action>)
    requires Steps(w, Initial(agentIn, childOut, p), actions).Some?
    ensures var s := Steps(w, Initial(agentIn, childOut, p), actions).value;
            && (AgentFailed(s.agent.pc) <==> exists a :: a in actions && a.AgentFails?)
            && (ChildFailed(s.child.pc) <==> exists a :: a in actions && a.ChildFails?)
  {
    FailedRun(w, Initial(agentIn, childOut, p), actions);
  }

  /** The chunk the agent pump is about to write to the child, or to stdout. */
  predicate ToChildNext(pc: AgentPc, chunk: bytes) {
    (pc.AChildHeader? && chunk == HeaderBytes(|pc.raw|)) || pc == AChildBody(chunk)
  }

  predicate ToStdoutNext(pc: AgentPc, chunk: bytes) {
    (pc.AHeader? && chunk == HeaderBytes(|pc.body|)) || pc == ABody(chunk)
  }

  predicate RelayNext(pc: ChildPc, chunk: bytes) {
    (pc.CHeader? && chunk == HeaderBytes(|pc.body|)) || pc == CBody(chunk)
  }

  lemma Beginning(frame: bytes, chunk: bytes, rest: bytes, n: nat)
    requires frame == chunk + rest && n <= |chunk|
    ensures frame[..n] == chunk[..n]
  {
  }

  /** Any write may fail after any number of its bytes, and then these are on the stream; otherwise all are. */
  lemma AgentWrites(w: World, s: State, chunk: bytes, n: nat)
    requires s.installed != [] && n <= |chunk|
    ensures ToChildNext(s.agent.pc, chunk) ==>
              var next, fails := Next(w, s, AgentStep), Next(w, s, AgentFails(n));
              && next.Some? && next.value.agent.toChild == s.agent.toChild + chunk && next.value.out == s.out
              && fails.Some? && fails.value.agent.toChild == s.agent.toChild + chunk[..n] && fails.value.out == s.out
    ensures ToStdoutNext(s.agent.pc, chunk) ==>
              var next, fails := Next(w, s, AgentStep), Next(w, s, AgentFails(n));
              && next.Some? && next.value.out == s.out.(written := s.out.written + chunk)
              && fails.Some? && fails.value.out == s.out.(written := s.out.written + chunk[..n], broken := true)
  {
    if s.agent.pc.AChildHeader? && ToChildNext(s.agent.pc, chunk) {
      Beginning(FrameBytes(s.agent.pc.raw), chunk, s.agent.pc.raw, n);
    }
    hide HeaderBytes, FrameBytes, AgentRead, AgentEvaluate, AgentEmitted, AgentDeny;
  }

  lemma ChildWrites(w: World, s: State, chunk: bytes, n: nat)
    requires s.installed != [] && n <= |chunk| && RelayNext(s.child.pc, chunk)
    ensures var next, fails := Next(w, s, ChildStep), Next(w, s, ChildFails(n));
            && next.Some? && next.value.out == s.out.(written := s.out.written + chunk)
            && fails.Some? && fails.value.out == s.out.(written := s.out.written + chunk[..n], broken := true)
  {
    hide HeaderBytes, Parse;
  }

  // ---------- the reports ----------

  /** The reports made so far, in order: the one Run took and those still in the channel. */
  function Reports(s: State): seq<Ending> {
    (if s.run.Some? then [s.run.value] else []) + s.finished
  }

  /** What the pumps that returned have reported, in the one order or the other. */
  predicate ReportsFit(s: State) {
    var a, c, r := s.agent.pc, s.child.pc, Reports(s);
    if a.AStopped? && c.CStopped? then r == [a.ending, c.ending] || r == [c.ending, a.ending]
    else if a.AStopped? then r == [a.ending]
    else if c.CStopped? then r == [c.ending]
    else r == []
  }

  /** While it judges a frame the agent pump reports nothing. */
  lemma JudgingIsSilent(w: World, s: State, s': State)
    requires s.installed != [] && AgentNext(w, s) == Some(s')
    requires var pc := s.agent.pc; pc.AReading? || pc.AEvaluating? || pc.AEmitting? || pc.AReadingVersion?
    ensures !s'.agent.pc.AStopped? && s'.child == s.child && s'.finished == s.finished && s'.run == s.run
  {
    hide Parse, Inspect, Policy.Decide, IsToolsCall;
  }

  lemma ReportsByAgent(w: World, s: State, s': State)
    requires s.installed != [] && ReportsFit(s) && AgentNext(w, s) == Some(s')
    ensures ReportsFit(s') && Reports(s) <= Reports(s')
  {
    hide HeaderBytes, AgentRead, AgentEvaluate, AgentEmitted, AgentDeny;
    var pc := s.agent.pc;
    if pc.AReading? || pc.AEvaluating? || pc.AEmitting? || pc.AReadingVersion? {
      JudgingIsSilent(w, s, s');
    }
  }

  lemma ReportsByChild(s: State, s': State)
    requires ReportsFit(s) && ChildNext(s) == Some(s')
    ensures ReportsFit(s') && Reports(s) <= Reports(s')
  {
    hide Parse, HeaderBytes;
  }

  lemma ReportsStep(w: World, s: State, a: Action, s': State)
    requires s.installed != [] && ReportsFit(s) && Next(w, s, a) == Some(s')
    ensures ReportsFit(s') && Reports(s) <= Reports(s')
  {
    hide AgentNext, ChildNext, HeaderBytes, FrameBytes;
    if a.AgentStep? {
      ReportsByAgent(w, s, s');
    } else if a.ChildStep? {
      ReportsByChild(s, s');
    }
  }

  lemma {:induction false} ReportsRun(w: World, s: State, actions: seq<Action>)
    requires s.installed != [] && ReportsFit(s) && Steps(w, s, actions).Some?
    ensures ReportsFit(Steps(w, s, actions).value) && Reports(s) <= Reports(Steps(w, s, actions).value)
    decreases |actions|
  {
    hide Next, ReportsFit, Reports;
    if actions != [] {
      var next := Next(w, s, actions[0]).value;
      ReportsStep(w, s, actions[0], next);
      ReportsRun(w, next, actions[1..]);
    }
  }

  /** In every run, Run takes the report of the pump that returned first, and while it waits it can take it:
      whatever happens after one pump has returned and the other has not, no other report comes before its. */
  lemma FirstReportCounts(w: World, agentIn: bytes, childOut: bytes, p: Policy.CompiledPolicy,
                          before: seq<Action>, after: seq<Action>)
    requires Steps(w, Initial(agentIn, childOut, p), before).Some?
    requires Steps(w, Steps(w, Initial(agentIn, childOut, p), before).value, after).Some?
    ensures var s := Steps(w, Initial(agentIn, childOut, p), before).value;
            var end := Steps(w, s, after).value;
            && (s.agent.pc.AStopped? && !s.child.pc.CStopped? && end.run.Some? ==>
                  end.run.value == s.agent.pc.ending)
            && (s.child.pc.CStopped? && !s.agent.pc.AStopped? && end.run.Some? ==>
                  end.run.value == s.child.pc.ending)
            && (end.agent.pc.AStopped? || end.child.pc.CStopped? ==>
                  end.run.Some? || (Next(w, end, RunStep).Some? && Next(w, end, RunStep).value.run.Some?))
            && (end.run.Some? ==> end.agent.pc == AStopped(end.run.value) || end.child.pc == CStopped(end.run.value))
  {
    hide Next;
    ReportsRun(w, Initial(agentIn, childOut, p), before);
    var s := Steps(w, Initial(agentIn, childOut, p), before).value;
    ReportsRun(w, s, after);
    var end := Steps(w, s, after).value;
    hide Steps;
    RunTakes(w, end);
    hide ReportsFit;
    FirstOfReports(s);
    FirstOfReports(end);
  }

  lemma RunTakes(w: World, s: State)
    requires s.installed != []
    ensures s.run.None? && s.finished != [] ==>
              Next(w, s, RunStep).Some? && Next(w, s, RunStep).value.run.Some?
  {
  }

  lemma FirstOfReports(s: State)
    requires ReportsFit(s)
    ensures s.agent.pc.AStopped? && !s.child.pc.CStopped? ==> Reports(s) == [s.agent.pc.ending]
    ensures s.child.pc.CStopped? && !s.agent.pc.AStopped? ==> Reports(s) == [s.child.pc.ending]
    ensures s.agent.pc.AStopped? || s.child.pc.CStopped? ==> Reports(s) != []
    ensures Reports(s) != [] ==> s.agent.pc == AStopped(Reports(s)[0]) || s.child.pc == CStopped(Reports(s)[0])
    ensures s.run.Some? ==> Reports(s) != [] && Reports(s)[0] == s.run.value
    ensures s.run.None? ==> Reports(s) == s.finished
  {
  }

  // ---------- the first and the last event ----------

  function Lifecycle(e: Event): seq<Event> {
    if e.Startup? || e.Shutdown? then [e] else []
  }

  /** Nothing but a rejection waits to be recorded for a refused call. */
  predicate RefusesByRejection(pc: AgentPc) {
    pc.AEmitting? && pc.pending.Refusing? ==> pc.pending.event.Rejection?
  }

  /** The trail begins with the startup event, and a shutdown event follows when Run has a report: clean exactly
      when that is a clean end of input. */
  ghost predicate Bracketed(s: State) {
    && s.events != [] && s.events[0] == Startup
    && Collect(s.events, Lifecycle) ==
       [Startup] + if s.run.None? then [] else [Shutdown(s.run.value == InputEnded(true))]
  }

  lemma RefusesStep(w: World, s: State, a: Action, s': State)
    requires s.installed != [] && RefusesByRejection(s.agent.pc) && Next(w, s, a) == Some(s')
    ensures RefusesByRejection(s'.agent.pc)
  {
    hide Parse, Catalog.Validated, ExtractTarget, Policy.Decide, HeaderBytes, FrameBytes, IsToolsCall;
  }

  lemma EventsGrow(w: World, s: State, a: Action, s': State)
    requires s.installed != [] && RefusesByRejection(s.agent.pc) && Next(w, s, a) == Some(s')
    ensures || (s'.events == s.events && s'.run == s.run)
            || (exists e :: s'.events == s.events + [e] && s'.run == s.run && Lifecycle(e) == [])
            || (s.run.None? && s'.run.Some? && s'.events == s.events + [Shutdown(s'.run.value == InputEnded(true))])
  {
    hide Parse, Inspect, Policy.Decide, HeaderBytes, FrameBytes, AgentRead, AgentEvaluate, AgentEmitted, AgentDeny;
    if a.AgentStep? && s.agent.pc.AEmitting? {
      var e := EventOf(s.agent.pc.pending);
      assert s'.events == s.events + [e] && s'.run == s.run && Lifecycle(e) == [];
    }
  }

  lemma BracketedStep(w: World, s: State, a: Action, s': State)
    requires s.installed != [] && RefusesByRejection(s.agent.pc) && Bracketed(s) && Next(w, s, a) == Some(s')
    ensures Bracketed(s')
  {
    EventsGrow(w, s, a, s');
    hide Next;
    if |s'.events| > |s.events| {
      CollectSnoc(s.events, s'.events[|s.events|], Lifecycle);
      assert s'.events == s.events + [s'.events[|s.events|]];
    }
    hide Collect;
  }

  lemma {:induction false} BracketedRun(w: World, s: State, actions: seq<Action>)
    requires s.installed != [] && RefusesByRejection(s.agent.pc) && Bracketed(s) && Steps(w, s, actions).Some?
    ensures Bracketed(Steps(w, s, actions).value)
    decreases |actions|
  {
    hide Next, Bracketed, RefusesByRejection;
    if actions != [] {
      var next := Next(w, s, actions[0]).value;
      RefusesStep(w, s, actions[0], next);
      BracketedStep(w, s, actions[0], next);
      BracketedRun(w, next, actions[1..]);
    }
  }

  /** In every run the trail begins with the startup event and has no other; it has a shutdown event exactly
      when Run has its report, one, and that says whether the report is a clean end of input. */
  lemma TrailIsBracketed(w: World, agentIn: bytes, childOut: bytes, p: Policy.CompiledPolicy, actions: seq<Action>)
    requires Steps(w, Initial(agentIn, childOut, p), actions).Some?
    ensures Bracketed(Steps(w, Initial(agentIn, childOut, p), actions).value)
  {
    CollectSnoc([], Startup, Lifecycle);
    assert [] + [Startup] == [Startup];
    BracketedRun(w, Initial(agentIn, childOut, p), actions);
  }
}
