/**
 The proxy of internal/proxy/proxy.go as a concurrent machine: the two pumps, Run, and policy updates
 take steps in any order. A frame is written in two steps, header and body; writing to the agent is
 bracketed by the stdout mutex; every write may instead fail after any number of bytes.
 */
module ProxyRuns {
  import opened Basics
  import opened Framing
  import opened Intercept
  import opened Pumps
  import Policy

  datatype Side = Agent | Child

  /** What interceptCall has settled just before it emits its event. */
  datatype Pending =
    | Refusing(event: Event, reply: Reply)
    | Deciding(call: Policy.Call, decision: Policy.Decision, k: nat)

  /** Where pumpAgentToChild is. */
  datatype AgentPc =
    | AReading
    | AEvaluating(raw: bytes, req: Request, call: Policy.Call)
    | AEmitting(raw: bytes, req: Request, pending: Pending)
    | AReadingVersion(raw: bytes, req: Request, call: Policy.Call, decision: Policy.Decision, k: nat)
    | AChildHeader(raw: bytes)
    | AChildBody(raw: bytes)
    | ALocking(body: bytes)
    | AHeader(body: bytes)
    | ABody(body: bytes)
    | AUnlocking(ok: bool)
    | ASending(ending: Ending)
    | AStopped(ending: Ending)

  /** Where pumpChildToAgent is. */
  datatype ChildPc =
    | CReading
    | CLocking(body: bytes)
    | CHeader(body: bytes)
    | CBody(body: bytes)
    | CUnlocking(ok: bool)
    | CSending(ending: Ending)
    | CStopped(ending: Ending)

  /** The fate of one agent frame. `k` and `j` say which installed policy decided and which one's version was
      reported. */
  datatype Verdict =
    | Pass
    | Allowed(event: Event, k: nat)
    | Rejected(event: Event, answer: bytes)
    | Denied(event: Event, k: nat, j: nat, answer: bytes)

  /** `from` and `to` say which policy was current when the frame was read and when it was handled. */
  datatype Handled = Handled(raw: bytes, verdict: Verdict, from: nat, to: nat)
  datatype Delivery = Delivery(from: Side, body: bytes)

  /** The agent pump: its input still unread, what it has written to the child, and, as history, the frames
      judged so far, the bytes a broken child pipe did not take, and the policy that was current when the
      latest frame was read. */
  datatype AgentPump = AgentPump(
    pc: AgentPc, input: bytes, toChild: bytes, lost: bytes, handled: seq<Handled>, since: nat)

  datatype ChildPump = ChildPump(pc: ChildPc, input: bytes)

  /** The agent's stdout with its mutex; `delivered` lists the frames whose writing has begun. */
  datatype Stdout = Stdout(mutex: Option<Side>, written: bytes, delivered: seq<Delivery>, broken: bool)

  /** `finished` is the channel, `run` what Run took from it, `installed` every policy so far. */
  datatype State = State(
    agent: AgentPump, child: ChildPump, out: Stdout, finished: seq<Ending>, run: Option<Ending>,
    installed: seq<Policy.CompiledPolicy>, events: seq<Event>)

  datatype Action =
    | AgentStep | AgentFails(n: nat) | ChildStep | ChildFails(n: nat) | RunStep | Install(p: Policy.CompiledPolicy)

  function Initial(agentIn: bytes, childOut: bytes, p: Policy.CompiledPolicy): State {
    State(AgentPump(AReading, agentIn, [], [], [], 0), ChildPump(CReading, childOut), Stdout(None, [], [], false),
          [], None, [p], [Startup])
  }

  const CAPACITY := 2

  function EventOf(pending: Pending): Event {
    match pending
    case Refusing(event, _) => event
    case Deciding(call, d, _) => Judged(d, call.tool, call.target)
  }

  /** Reading and classifying one agent frame. A failed read leaves the pump only its report. */
  function AgentRead(w: World, g: AgentPump, now: nat): AgentPump {
    match Parse(g.input, MAX_FRAME_BYTES)
    case Fail(e, _) => g.(pc := ASending(InputEnded(e.IsEof())))
    case Frame(raw, rest) =>
      var m := w.decode(raw);
      var read := g.(input := rest, since := now);
      if !IsToolsCall(m) then read.(handled := g.handled + [Handled(raw, Pass, now, now)], pc := AChildHeader(raw))
      else
        match Inspect(w, m.req)
        case Refuse(event, reply) => read.(pc := AEmitting(raw, m.req, Refusing(event, reply)))
        case Ask(call) => read.(pc := AEvaluating(raw, m.req, call))
  }

  /** Evaluate: the policy is loaded once. */
  function AgentEvaluate(w: World, g: AgentPump, installed: seq<Policy.CompiledPolicy>): AgentPump
    requires g.pc.AEvaluating? && installed != []
  {
    var now := |installed| - 1;
    g.(pc := AEmitting(g.pc.raw, g.pc.req, Deciding(g.pc.call, Policy.Decide(w.globs, installed[now], g.pc.call), now)))
  }

  /** After the event is out: answer a refused call, forward an allowed one, or go on to build the denial. */
  function AgentEmitted(w: World, g: AgentPump, now: nat): AgentPump
    requires g.pc.AEmitting?
  {
    var AEmitting(raw, req, pending) := g.pc;
    if pending.Refusing? then
      var answer := w.encode(pending.reply);
      g.(handled := g.handled + [Handled(raw, Rejected(pending.event, answer), g.since, now)], pc := ALocking(answer))
    else if pending.decision == Policy.Allow then
      g.(handled := g.handled + [Handled(raw, Allowed(EventOf(pending), pending.k), g.since, now)],
         pc := AChildHeader(raw))
    else
      g.(pc := AReadingVersion(raw, req, pending.call, pending.decision, pending.k))
  }

  /** The denial carries the version of the policy current now. */
  function AgentDeny(w: World, g: AgentPump, installed: seq<Policy.CompiledPolicy>): AgentPump
    requires g.pc.AReadingVersion? && installed != []
  {
    var AReadingVersion(raw, req, call, d, k) := g.pc;
    var now := |installed| - 1;
    var answer := w.encode(Denial(req, call, d, installed[now].version));
    g.(handled := g.handled + [Handled(raw, Denied(Judged(d, call.tool, call.target), k, now, answer), g.since, now)],
       pc := ALocking(answer))
  }

  /** A pump takes the mutex for one frame. */
  function Locked(out: Stdout, side: Side, body: bytes): Stdout {
    out.(mutex := Some(side), delivered := out.delivered + [Delivery(side, body)])
  }

  /** One step of pumpAgentToChild; None when it is blocked or has returned. */
  function AgentNext(w: World, s: State): Option<State>
    requires s.installed != []
  {
    var g := s.agent;
    match g.pc
    case AReading => Some(s.(agent := AgentRead(w, g, |s.installed| - 1)))
    case AEvaluating(_, _, _) => Some(s.(agent := AgentEvaluate(w, g, s.installed)))
    case AEmitting(_, _, pending) =>
      Some(s.(agent := AgentEmitted(w, g, |s.installed| - 1), events := s.events + [EventOf(pending)]))
    case AReadingVersion(_, _, _, _, _) => Some(s.(agent := AgentDeny(w, g, s.installed)))
    case AChildHeader(raw) => Some(s.(agent := g.(toChild := g.toChild + HeaderBytes(|raw|), pc := AChildBody(raw))))
    case AChildBody(raw) => Some(s.(agent := g.(toChild := g.toChild + raw, pc := AReading)))
    case ALocking(body) =>
      if s.out.mutex.Some? then None
      else Some(s.(agent := g.(pc := AHeader(body)), out := Locked(s.out, Agent, body)))
    case AHeader(body) =>
      Some(s.(agent := g.(pc := ABody(body)), out := s.out.(written := s.out.written + HeaderBytes(|body|))))
    case ABody(body) =>
      Some(s.(agent := g.(pc := AUnlocking(true)), out := s.out.(written := s.out.written + body)))
    case AUnlocking(ok) =>
      Some(s.(agent := g.(pc := if ok then AReading else ASending(WriteFailed)), out := s.out.(mutex := None)))
    case ASending(ending) =>
      if |s.finished| >= CAPACITY then None
      else Some(s.(agent := g.(pc := AStopped(ending)), finished := s.finished + [ending]))
    case AStopped(_) => None
  }

  /** One step of pumpChildToAgent. */
  function ChildNext(s: State): (r: Option<State>)
    ensures r.Some? ==> r.value.agent == s.agent && r.value.installed == s.installed && r.value.events == s.events
  {
    var c := s.child;
    match c.pc
    case CReading =>
      (match Parse(c.input, MAX_FRAME_BYTES)
       case Fail(e, _) => Some(s.(child := c.(pc := CSending(InputEnded(e.IsEof())))))
       case Frame(raw, rest) => Some(s.(child := ChildPump(CLocking(raw), rest))))
    case CLocking(body) =>
      if s.out.mutex.Some? then None
      else Some(s.(child := c.(pc := CHeader(body)), out := Locked(s.out, Child, body)))
    case CHeader(body) =>
      Some(s.(child := c.(pc := CBody(body)), out := s.out.(written := s.out.written + HeaderBytes(|body|))))
    case CBody(body) =>
      Some(s.(child := c.(pc := CUnlocking(true)), out := s.out.(written := s.out.written + body)))
    case CUnlocking(ok) =>
      Some(s.(child := c.(pc := if ok then CReading else CSending(WriteFailed)), out := s.out.(mutex := None)))
    case CSending(ending) =>
      if |s.finished| >= CAPACITY then None
      else Some(s.(child := c.(pc := CStopped(ending)), finished := s.finished + [ending]))
    case CStopped(_) => None
  }

  /** The write of `chunk` to stdout fails after `n` bytes. */
  function CutStdout(out: Stdout, chunk: bytes, n: nat): Stdout
    requires n <= |chunk|
  {
    out.(written := out.written + chunk[..n], broken := true)
  }

  /** The write of a chunk to the child fails after `n` bytes; of the frame, `unwritten` is still to come. */
  function CutChild(g: AgentPump, unwritten: bytes, n: nat): AgentPump
    requires n <= |unwritten|
  {
    g.(toChild := g.toChild + unwritten[..n], lost := unwritten[n..], pc := ASending(WriteFailed))
  }

  /** A write of the agent pump fails after `n` bytes. */
  function AgentFailure(s: State, n: nat): Option<State> {
    var g := s.agent;
    match g.pc
    case AChildHeader(raw) =>
      if n > |HeaderBytes(|raw|)| then None else Some(s.(agent := CutChild(g, FrameBytes(raw), n)))
    case AChildBody(raw) =>
      if n > |raw| then None else Some(s.(agent := CutChild(g, raw, n)))
    case AHeader(body) =>
      if n > |HeaderBytes(|body|)| then None
      else Some(s.(agent := g.(pc := AUnlocking(false)), out := CutStdout(s.out, HeaderBytes(|body|), n)))
    case ABody(body) =>
      if n > |body| then None
      else Some(s.(agent := g.(pc := AUnlocking(false)), out := CutStdout(s.out, body, n)))
    case _ => None
  }

  /** A write of the child pump fails after `n` bytes. */
  function ChildFailure(s: State, n: nat): (r: Option<State>)
    ensures r.Some? ==> r.value.agent == s.agent && r.value.installed == s.installed && r.value.events == s.events
  {
    var c := s.child;
    match c.pc
    case CHeader(body) =>
      if n > |HeaderBytes(|body|)| then None
      else Some(s.(child := c.(pc := CUnlocking(false)), out := CutStdout(s.out, HeaderBytes(|body|), n)))
    case CBody(body) =>
      if n > |body| then None
      else Some(s.(child := c.(pc := CUnlocking(false)), out := CutStdout(s.out, body, n)))
    case _ => None
  }

  /** Run: it waits for the first report and emits the shutdown event. */
  function RunNext(s: State): Option<State> {
    if s.run.Some? || s.finished == [] then None
    else
      var first := s.finished[0];
      Some(s.(finished := s.finished[1..], run := Some(first),
              events := s.events + [Shutdown(first == InputEnded(true))]))
  }

  function Next(w: World, s: State, a: Action): (r: Option<State>)
    requires s.installed != []
    ensures r.Some? ==> s.installed <= r.value.installed
  {
    match a
    case AgentStep => AgentNext(w, s)
    case AgentFails(n) => AgentFailure(s, n)
    case ChildStep => ChildNext(s)
    case ChildFails(n) => ChildFailure(s, n)
    case RunStep => RunNext(s)
    case Install(p) => Some(s.(installed := s.installed + [p]))
  }

  /** The state a list of actions leads to; None if one of them is not possible. */
  function Steps(w: World, s: State, actions: seq<Action>): (r: Option<State>)
    requires s.installed != []
    ensures r.Some? ==> r.value.installed != []
    decreases |actions|
  {
    if actions == [] then Some(s)
    else
      var next := Next(w, s, actions[0]);
      if next.None? then None else Steps(w, next.value, actions[1..])
  }

  // ---------- views of the history ----------

  function Raw(h: Handled): seq<bytes> { [h.raw] }

  function Forwards(h: Handled): seq<bytes> {
    if h.verdict.Pass? || h.verdict.Allowed? then [h.raw] else []
  }

  function Answers(h: Handled): seq<bytes> {
    if h.verdict.Rejected? || h.verdict.Denied? then [h.verdict.answer] else []
  }

  function Records(h: Handled): seq<Event> {
    if h.verdict.Pass? then [] else [h.verdict.event]
  }

  function CallEvent(e: Event): seq<Event> {
    if e.Rejection? || e.Judged? then [e] else []
  }

  function Body(d: Delivery): seq<bytes> { [d.body] }

  function From(side: Side): Delivery -> seq<bytes> {
    (d: Delivery) => if d.from == side then [d.body] else []
  }

  /** The frame the agent pump has read but not judged yet. */
  function HeldByAgent(pc: AgentPc): seq<bytes> {
    if pc.AEvaluating? || pc.AEmitting? || pc.AReadingVersion? then [pc.raw] else []
  }

  function HeldByChild(pc: ChildPc): seq<bytes> {
    if pc.CLocking? then [pc.body] else []
  }

  /** The synthetic answer that still waits for the mutex. */
  function WaitingAnswer(pc: AgentPc): seq<bytes> {
    if pc.ALocking? then [pc.body] else []
  }

  /** The event emitted for a call whose answer is not built yet. */
  function EmittedEarly(pc: AgentPc): seq<Event> {
    if pc.AReadingVersion? then [Judged(pc.decision, pc.call.tool, pc.call.target)] else []
  }

  /** The rest of the frame being written to the child. */
  function OwedToChild(pc: AgentPc): bytes {
    if pc.AChildHeader? then FrameBytes(pc.raw) else if pc.AChildBody? then pc.raw else []
  }

  predicate AgentHolds(pc: AgentPc) { pc.AHeader? || pc.ABody? || pc.AUnlocking? }

  predicate ChildHolds(pc: ChildPc) { pc.CHeader? || pc.CBody? || pc.CUnlocking? }

  /** The rest of the frame being written to the agent, by whichever pump holds the mutex. */
  function OwedToAgent(a: AgentPc, c: ChildPc): bytes {
    if a.AHeader? then FrameBytes(a.body)
    else if a.ABody? then a.body
    else if c.CHeader? then FrameBytes(c.body)
    else if c.CBody? then c.body
    else []
  }
}
