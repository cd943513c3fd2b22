/**
 The two pump loops of internal/proxy/proxy.go, each run by itself from its input stream to the end.
 How their steps interleave is the subject of ProxyRuns.
 */
module Pumps {
  import opened Basics
  import opened Framing
  import opened FramingRoundTrip
  import opened FrameIO
  import opened Intercept
  import Policy
  import Engine

  /** Where one agent frame goes. */
  datatype Route = ToChild | ToAgent(answer: bytes)

  /** shouldIntercept on a decoded message. */
  predicate IsToolsCall(m: Message) {
    m.Call? && m.req.methodName == "tools/call"
  }

  function RouteOf(w: World, p: Policy.CompiledPolicy, raw: bytes): Route {
    var m := w.decode(raw);
    if !IsToolsCall(m) then ToChild
    else
      match Inspect(w, m.req)
      case Refuse(_, reply) => ToAgent(w.encode(reply))
      case Ask(call) =>
        var d := Policy.Decide(w.globs, p, call);
        if d == Policy.Allow then ToChild else ToAgent(w.encode(Denial(m.req, call, d, p.version)))
  }

  /** The audit events one agent frame causes. */
  function EventsOf(w: World, p: Policy.CompiledPolicy, raw: bytes): seq<Event> {
    var m := w.decode(raw);
    if !IsToolsCall(m) then []
    else
      match Inspect(w, m.req)
      case Refuse(event, _) => [event]
      case Ask(call) => [Judged(Policy.Decide(w.globs, p, call), call.tool, call.target)]
  }

  /** What handling a list of agent frames sends to the child, sends to the agent, and records. */
  datatype Effects = Effects(toChild: seq<bytes>, toAgent: seq<bytes>, events: seq<Event>)

  function EffectsOf(w: World, p: Policy.CompiledPolicy, frames: seq<bytes>): Effects {
    if frames == [] then Effects([], [], [])
    else
      var before, raw := EffectsOf(w, p, frames[..|frames| - 1]), frames[|frames| - 1];
      var route := RouteOf(w, p, raw);
      Effects(before.toChild + (if route.ToChild? then [raw] else []),
              before.toAgent + (if route.ToAgent? then [route.answer] else []),
              before.events + EventsOf(w, p, raw))
  }

  /** How a pump ends: at the end of its input, or on a write error. */
  datatype Ending = InputEnded(clean: bool) | WriteFailed

  /** A writer whose last write failed holds a proper prefix of the frame after what it held before. */
  ghost predicate CutWrite(written: bytes, before: bytes, frame: bytes) {
    exists n :: 0 <= n < |frame| && written == before + frame[..n]
  }

  /** The write of the frame routed by `route` was cut; the other stream has only what came before. */
  ghost predicate CutAtFrame(
    route: Route, raw: bytes, child: bytes, childBefore: bytes, agent: bytes, agentBefore: bytes)
  {
    match route
    case ToChild => CutWrite(child, childBefore, FrameBytes(raw)) && agent == agentBefore
    case ToAgent(answer) => CutWrite(agent, agentBefore, FrameBytes(answer)) && child == childBefore
  }

  lemma EffectsSnoc(w: World, p: Policy.CompiledPolicy, frames: seq<bytes>, raw: bytes)
    ensures var before, after, route := EffectsOf(w, p, frames), EffectsOf(w, p, frames + [raw]), RouteOf(w, p, raw);
            && after.toChild == (if route.ToChild? then before.toChild + [raw] else before.toChild)
            && after.toAgent == (if route.ToAgent? then before.toAgent + [route.answer] else before.toAgent)
            && after.events == before.events + EventsOf(w, p, raw)
  {
    hide RouteOf, EventsOf;
    assert (frames + [raw])[..|frames|] == frames;
  }

  lemma StreamGrows(base: bytes, bodies: seq<bytes>, body: bytes)
    ensures base + Stream(bodies + [body]) == base + Stream(bodies) + FrameBytes(body)
  {
    hide FrameBytes;
    StreamSnoc(bodies, body);
  }

  /** `done` has been read from `s` and `here` is left. */
  ghost predicate ReadSoFar(s: bytes, done: seq<bytes>, here: bytes) {
    var all, rest := ParseAll(s, MAX_FRAME_BYTES), ParseAll(here, MAX_FRAME_BYTES);
    all.bodies == done + rest.bodies && all.error == rest.error
  }

  lemma ReadSoFarSnoc(s: bytes, done: seq<bytes>, here: bytes, body: bytes, rest: bytes)
    requires ReadSoFar(s, done, here) && Parse(here, MAX_FRAME_BYTES) == Frame(body, rest)
    ensures ReadSoFar(s, done + [body], rest) && |rest| < |here|
    ensures var all := ParseAll(s, MAX_FRAME_BYTES).bodies;
            |done| < |all| && all[..|done|] == done && all[|done|] == body && all[..|done| + 1] == done + [body]
  {
    ParseConsumes(here, MAX_FRAME_BYTES);
    hide Parse;
    var later := ParseAll(rest, MAX_FRAME_BYTES).bodies;
    assert done + ([body] + later) == done + [body] + later;
  }

  lemma ReadSoFarEnds(s: bytes, done: seq<bytes>, here: bytes)
    requires ReadSoFar(s, done, here) && Parse(here, MAX_FRAME_BYTES).Fail?
    ensures ParseAll(s, MAX_FRAME_BYTES) == StreamResult(done, Parse(here, MAX_FRAME_BYTES).error)
  {
    hide ParseHeader;
    assert done + [] == done;
  }

  class Proxy {
    const stdin: Reader
    const stdout: Writer
    const childStdin: Writer
    const childStdout: Reader
    const engine: Engine.Engine
    const trail: Trail

    ghost predicate Valid()
      reads this, stdin, childStdout, engine
    {
      stdin.Valid() && childStdout.Valid() && stdout != childStdin && engine.current.Some?
    }

    constructor (
      stdin: Reader, stdout: Writer, childStdin: Writer, childStdout: Reader, engine: Engine.Engine, trail: Trail)
      requires stdin.Valid() && childStdout.Valid() && stdout != childStdin && engine.current.Some?
      ensures Valid()
    {
      this.stdin, this.stdout, this.childStdin, this.childStdout := stdin, stdout, childStdin, childStdout;
      this.engine, this.trail := engine, trail;
    }

    /** pumpAgentToChild. `n` counts the frames handled to the end. */
    method PumpAgentToChild(w: World) returns (ending: Ending, ghost n: nat)
      requires Valid()
      modifies stdin`pos, stdout, childStdin, trail
      ensures Valid()
      ensures n <= |ParseAll(old(stdin.Remaining()), MAX_FRAME_BYTES).bodies|
      ensures ending.InputEnded? ==>
                var p, all := engine.current.value, ParseAll(old(stdin.Remaining()), MAX_FRAME_BYTES);
                && (ending.clean <==> all.error.IsEof())
                && childStdin.written == old(childStdin.written) + Stream(EffectsOf(w, p, all.bodies).toChild)
                && stdout.written == old(stdout.written) + Stream(EffectsOf(w, p, all.bodies).toAgent)
                && trail.events == old(trail.events) + EffectsOf(w, p, all.bodies).events
      ensures ending.WriteFailed? ==>
                var p, frames := engine.current.value, ParseAll(old(stdin.Remaining()), MAX_FRAME_BYTES).bodies;
                && n < |frames|
                && trail.events == old(trail.events) + EffectsOf(w, p, frames[..n + 1]).events
                && CutAtFrame(RouteOf(w, p, frames[n]), frames[n],
                              childStdin.written,
                              old(childStdin.written) + Stream(EffectsOf(w, p, frames[..n]).toChild),
                              stdout.written, old(stdout.written) + Stream(EffectsOf(w, p, frames[..n]).toAgent))
    {
      hide ReadSoFar, Parse, ParseAll, RouteOf, EventsOf, EffectsOf, Inspect, Policy.Decide, FrameBytes, Stream;
      ghost var s, p := stdin.Remaining(), engine.current.value;
      ghost var done: seq<bytes> := [];
      n := 0;
      EffectsNone(w, p);
      ReadNothing(s);
      while true
        invariant Valid() && engine.current.value == p
        invariant n == |done|
        invariant ReadSoFar(s, done, stdin.Remaining())
        invariant childStdin.written == old(childStdin.written) + Stream(EffectsOf(w, p, done).toChild)
        invariant stdout.written == old(stdout.written) + Stream(EffectsOf(w, p, done).toAgent)
        invariant trail.events == old(trail.events) + EffectsOf(w, p, done).events
        decreases |stdin.data| - stdin.pos
      {
        ghost var here := stdin.Remaining();
        var frame := stdin.ReadFrame();
        if frame.Err? {
          ReadSoFarEnds(s, done, here);
          return InputEnded(frame.error.IsEof()), n;
        }
        var raw := frame.value;
        ReadSoFarSnoc(s, done, here, raw, stdin.Remaining());
        EffectsSnoc(w, p, done, raw);
        StreamGrows(old(childStdin.written), EffectsOf(w, p, done).toChild, raw);

        var msg := w.decode(raw);
        var forward := true;
        RouteUnfold(w, p, raw);
        if IsToolsCall(msg) {
          var result := InterceptCall(w, msg.req, engine, trail);
          if result.Synthetic? {
            forward := false;
            StreamGrows(old(stdout.written), EffectsOf(w, p, done).toAgent, result.body);
            ghost var out := stdout.written;
            var ok := stdout.WriteFrame(result.body);
            if !ok {
              assert CutWrite(stdout.written, out, FrameBytes(result.body));
              return WriteFailed, n;
            }
          }
        }
        if forward {
          ghost var out := childStdin.written;
          var ok := childStdin.WriteFrame(raw);
          if !ok {
            assert CutWrite(childStdin.written, out, FrameBytes(raw));
            return WriteFailed, n;
          }
        }
        done, n := done + [raw], n + 1;
      }
    }

    /** pumpChildToAgent: every child frame is relayed, unchanged and in order. */
    method PumpChildToAgent() returns (ending: Ending, ghost n: nat)
      requires Valid()
      modifies childStdout`pos, stdout
      ensures Valid()
      ensures n <= |ParseAll(old(childStdout.Remaining()), MAX_FRAME_BYTES).bodies|
      ensures ending.InputEnded? ==>
                var all := ParseAll(old(childStdout.Remaining()), MAX_FRAME_BYTES);
                && (ending.clean <==> all.error.IsEof())
                && stdout.written == old(stdout.written) + Stream(all.bodies)
      ensures ending.WriteFailed? ==>
                var frames := ParseAll(old(childStdout.Remaining()), MAX_FRAME_BYTES).bodies;
                && n < |frames|
                && CutWrite(stdout.written, old(stdout.written) + Stream(frames[..n]), FrameBytes(frames[n]))
    {
      hide ReadSoFar, Parse, ParseAll, FrameBytes, Stream;
      ghost var s := childStdout.Remaining();
      ghost var done: seq<bytes> := [];
      n := 0;
      StreamNone();
      ReadNothing(s);
      while true
        invariant Valid()
        invariant n == |done|
        invariant ReadSoFar(s, done, childStdout.Remaining())
        invariant stdout.written == old(stdout.written) + Stream(done)
        decreases |childStdout.data| - childStdout.pos
      {
        ghost var here := childStdout.Remaining();
        var frame := childStdout.ReadFrame();
        if frame.Err? {
          ReadSoFarEnds(s, done, here);
          return InputEnded(frame.error.IsEof()), n;
        }
        var raw := frame.value;
        ReadSoFarSnoc(s, done, here, raw, childStdout.Remaining());
        StreamGrows(old(stdout.written), done, raw);
        ghost var out := stdout.written;
        var ok := stdout.WriteFrame(raw);
        if !ok {
          assert CutWrite(stdout.written, out, FrameBytes(raw));
          return WriteFailed, n;
        }
        done, n := done + [raw], n + 1;
      }
    }
  }

  lemma EffectsNone(w: World, p: Policy.CompiledPolicy)
    ensures EffectsOf(w, p, []) == Effects([], [], []) && Stream([]) == []
  {
  }

  lemma StreamNone()
    ensures Stream([]) == []
  {
  }

  lemma ReadNothing(s: bytes)
    ensures ReadSoFar(s, [], s)
  {
    hide ParseAll;
  }

  lemma RouteUnfold(w: World, p: Policy.CompiledPolicy, raw: bytes)
    ensures var m := w.decode(raw);
            if !IsToolsCall(m) then RouteOf(w, p, raw) == ToChild && EventsOf(w, p, raw) == []
            else if Inspect(w, m.req).Refuse? then
              && RouteOf(w, p, raw) == ToAgent(w.encode(Inspect(w, m.req).reply))
              && EventsOf(w, p, raw) == [Inspect(w, m.req).event]
            else
              var call := Inspect(w, m.req).call;
              var d := Policy.Decide(w.globs, p, call);
              && EventsOf(w, p, raw) == [Judged(d, call.tool, call.target)]
              && RouteOf(w, p, raw) ==
                 if d == Policy.Allow then ToChild else ToAgent(w.encode(Denial(m.req, call, d, p.version)))
  {
    hide Inspect, Policy.Decide;
  }

  /** Complete frames and then a frame cut short: the pump's effects are those of the complete frames, and
      it reports a clean end exactly when no body byte of the cut frame is there. */
  lemma PumpOnTruncatedInput(w: World, p: Policy.CompiledPolicy, frames: seq<bytes>, last: bytes, cut: bytes)
    requires AllWithin(frames + [last], MAX_FRAME_BYTES)
    requires cut < FrameBytes(last)
    ensures var all := ParseAll(Stream(frames) + cut, MAX_FRAME_BYTES);
            && EffectsOf(w, p, all.bodies) == EffectsOf(w, p, frames)
            && (all.error.IsEof() <==> |cut| <= |HeaderBytes(|last|)|)
  {
    TruncatedStream(frames, last, cut, MAX_FRAME_BYTES);
  }
}
