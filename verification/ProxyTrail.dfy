/** The audit trail against what the child can read, call by call. */
module ProxyTrail {
  import opened Basics
  import opened Framing
  import opened Intercept
  import opened Pumps
  import opened ProxyRuns
  import opened ProxySafety
  import opened ProxyTheorems
  import Policy

  function CallFrame(w: World): bytes -> seq<bytes> {
    (f: bytes) => if IsToolsCall(w.decode(f)) then [f] else []
  }

  function AllowEvent(e: Event): seq<Event> {
    if e.Judged? && e.decision == Policy.Allow then [e] else []
  }

  /** Event `e` allows the call in frame `f`: its tool and its target. */
  ghost predicate Allows(w: World, e: Event, f: bytes) {
    && IsToolsCall(w.decode(f))
    && var asked := Inspect(w, w.decode(f).req);
       asked.Ask? && e == Judged(Policy.Allow, asked.call.tool, asked.call.target)
  }

  /** The events allow the frames one by one, in order. */
  ghost predicate AllowEach(w: World, events: seq<Event>, frames: seq<bytes>) {
    |events| == |frames| && forall c :: 0 <= c < |frames| ==> Allows(w, events[c], frames[c])
  }

  lemma CollectNone<S, T>(f: S -> seq<T>)
    ensures Collect([], f) == []
  {
  }

  lemma {:induction false} CollectAppend<S, T>(xs: seq<S>, ys: seq<S>, f: S -> seq<T>)
    ensures Collect(xs + ys, f) == Collect(xs, f) + Collect(ys, f)
  {
    hide Collect;
    if ys == [] {
      assert xs + ys == xs;
      CollectNone(f);
    } else {
      var init, last := ys[..|ys| - 1], ys[|ys| - 1];
      assert ys == init + [last] && xs + ys == (xs + init) + [last];
      CollectSnoc(xs + init, last, f);
      CollectSnoc(init, last, f);
      CollectAppend(xs, init, f);
    }
  }

  lemma CollectOne<S, T>(x: S, f: S -> seq<T>)
    ensures Collect([x], f) == f(x)
  {
    CollectSnoc([], x, f);
    assert [] + [x] == [x];
  }

  /** One handled frame: a call that is forwarded has one allow event, and nothing else has one. */
  lemma OneAllow(w: World, installed: seq<Policy.CompiledPolicy>, h: Handled)
    requires Justified(w, installed, h)
    ensures AllowEach(w, Collect(Records(h), AllowEvent), Collect(Forwards(h), CallFrame(w)))
  {
    CollectNone(AllowEvent);
    CollectNone(CallFrame(w));
    CollectOne(h.raw, CallFrame(w));
    if !h.verdict.Pass? {
      CollectOne(h.verdict.event, AllowEvent);
    }
    OneRecord(w, installed, h);
    if IsToolsCall(w.decode(h.raw)) && Forwards(h) != [] {
      AllowRecord(w, installed, h);
    }
    InspectRejects(w, h);
    hide Collect, Inspect, Justified;
  }

  lemma InspectRejects(w: World, h: Handled)
    ensures IsToolsCall(w.decode(h.raw)) && Inspect(w, w.decode(h.raw).req).Refuse? ==>
              Inspect(w, w.decode(h.raw).req).event.Rejection?
  {
    if IsToolsCall(w.decode(h.raw)) {
      InspectEvent(w, w.decode(h.raw).req);
    }
  }

  lemma AllowEachJoins(w: World, e1: seq<Event>, f1: seq<bytes>, e2: seq<Event>, f2: seq<bytes>)
    requires AllowEach(w, e1, f1) && AllowEach(w, e2, f2)
    ensures AllowEach(w, e1 + e2, f1 + f2)
  {
    hide Allows;
  }

  lemma {:induction false} HandledAllows(w: World, installed: seq<Policy.CompiledPolicy>, handled: seq<Handled>)
    requires forall i :: 0 <= i < |handled| ==> Justified(w, installed, handled[i])
    ensures AllowEach(w, Collect(Collect(handled, Records), AllowEvent),
                      Collect(Collect(handled, Forwards), CallFrame(w)))
  {
    if handled == [] {
      CollectNone(Records);
      CollectNone(Forwards);
      CollectNone(AllowEvent);
      CollectNone(CallFrame(w));
    } else {
      hide Justified, AllowEach, Collect, Records, Forwards;
      var init, h := handled[..|handled| - 1], handled[|handled| - 1];
      assert handled == init + [h];
      CollectSnoc(init, h, Records);
      CollectSnoc(init, h, Forwards);
      HandledAllows(w, installed, init);
      OneAllow(w, installed, h);
      CollectAppend(Collect(init, Records), Records(h), AllowEvent);
      CollectAppend(Collect(init, Forwards), Forwards(h), CallFrame(w));
      AllowEachJoins(w, Collect(Collect(init, Records), AllowEvent), Collect(Collect(init, Forwards), CallFrame(w)),
                     Collect(Records(h), AllowEvent), Collect(Forwards(h), CallFrame(w)));
    }
  }

  lemma {:induction false} AllowsAreCallEvents(events: seq<Event>)
    ensures Collect(events, AllowEvent) == Collect(Collect(events, CallEvent), AllowEvent)
  {
    if events == [] {
      CollectNone(CallEvent);
      CollectNone(AllowEvent);
    } else {
      hide Collect;
      var init, e := events[..|events| - 1], events[|events| - 1];
      assert events == init + [e];
      CollectSnoc(init, e, AllowEvent);
      CollectSnoc(init, e, CallEvent);
      AllowsAreCallEvents(init);
      CollectAppend(Collect(init, CallEvent), CallEvent(e), AllowEvent);
      CollectNone(AllowEvent);
      CollectOne(e, AllowEvent);
    }
  }

  /** The trail's allow events are those of the handled frames: a call in hand has none yet. */
  lemma TrailAllows(w: World, agentIn: bytes, childOut: bytes, p: Policy.CompiledPolicy, s: State)
    requires Reachable(w, agentIn, childOut, p, s)
    ensures Collect(s.events, AllowEvent) == Collect(Collect(s.agent.handled, Records), AllowEvent)
  {
    ReachableInv(w, agentIn, childOut, p, s);
    assert EventInv(s.agent, s.events);
    if s.agent.pc.AReadingVersion? {
      DenialInHand(w, agentIn, childOut, p, s);
      CollectOne(EmittedEarly(s.agent.pc)[0], AllowEvent);
    } else {
      CollectNone(AllowEvent);
    }
    hide Reachable, Inv, Collect;
    AllowsAreCallEvents(s.events);
    CollectAppend(Collect(s.agent.handled, Records), EmittedEarly(s.agent.pc), AllowEvent);
  }

  lemma SeenFrames(w: World, agentIn: bytes, childOut: bytes, p: Policy.CompiledPolicy, s: State)
    requires Reachable(w, agentIn, childOut, p, s)
    ensures ButLast(ParseAll(s.agent.toChild, MAX_FRAME_BYTES).bodies, Collect(s.agent.handled, Forwards))
    ensures forall i :: 0 <= i < |s.agent.handled| ==> Justified(w, s.installed, s.agent.handled[i])
  {
    ChildSeesFilteredStream(w, agentIn, childOut, p, s);
    hide Reachable, ParseAll, Collect, Justified, Timely;
  }

  /** All of `forwarded`, or all but the last. */
  predicate ButLast(seen: seq<bytes>, forwarded: seq<bytes>) {
    seen == forwarded || (forwarded != [] && seen == forwarded[..|forwarded| - 1])
  }

  lemma CallsButLast(w: World, seen: seq<bytes>, forwarded: seq<bytes>)
    requires ButLast(seen, forwarded)
    ensures var calls, all := Collect(seen, CallFrame(w)), Collect(forwarded, CallFrame(w));
            calls <= all && |all| <= |calls| + 1
  {
    hide Collect;
    if seen != forwarded {
      var last := forwarded[|forwarded| - 1];
      assert forwarded == seen + [last];
      CollectSnoc(seen, last, CallFrame(w));
    }
  }

  /** In every reachable state, the tools/call frames the child can read from its stdin are matched, in order
      and one to one, by the first allow events of the trail, each with the call's tool and target; at most
      one allow event has its frame still on the way. */
  lemma ChildCallsMatchAllows(w: World, agentIn: bytes, childOut: bytes, p: Policy.CompiledPolicy, s: State)
    requires Reachable(w, agentIn, childOut, p, s)
    ensures var calls := Collect(ParseAll(s.agent.toChild, MAX_FRAME_BYTES).bodies, CallFrame(w));
            var allows := Collect(s.events, AllowEvent);
            |calls| <= |allows| <= |calls| + 1 && AllowEach(w, allows[..|calls|], calls)
  {
    hide Reachable, ParseAll, Collect, Justified, Allows, ButLast, CallFrame;
    SeenFrames(w, agentIn, childOut, p, s);
    TrailAllows(w, agentIn, childOut, p, s);
    HandledAllows(w, s.installed, s.agent.handled);
    CallsButLast(w, ParseAll(s.agent.toChild, MAX_FRAME_BYTES).bodies, Collect(s.agent.handled, Forwards));
  }
}
