/**
 The Slack channel of internal/approval/slack.go as a concurrent machine: any number of Request calls,
 each with its own capacity-1 channel, and the socket loop that dispatches clicks to them. Looking a
 channel up and sending on it are separate steps, so the loop may hold a channel that is closed meanwhile;
 sending on it then panics (`crashed`).
 */
module SlackRuns {
  import opened Basics
  import opened Approval

  datatype BlockAction = BlockAction(actionId: string, value: string)

  /** A slack.InteractionCallback, as far as it is looked at. */
  datatype Callback = Callback(blockActions: seq<BlockAction>, actionId: string)

  /** What receiving from a closed, drained channel gives. */
  const ZERO_CALLBACK := Callback([], "")
  const ACTION_APPROVE := "mcp-socd.approve"

  /** extractRequestIDFromBlocks. */
  function RequestIdOf(cb: Callback): string {
    if cb.blockActions == [] then "" else cb.blockActions[0].value
  }

  /** The action id handleInteraction resolves: the first block action's, or the top-level one. */
  function ActionOf(cb: Callback): string {
    if cb.blockActions != [] && cb.blockActions[0].actionId != "" then cb.blockActions[0].actionId else cb.actionId
  }

  /** handleInteraction. */
  function HandleInteraction(mac: Mac, secret: bytes, id: string, token: string, cb: Callback): Decision {
    if !TokenAccepted(mac, id, token, secret) then Deny
    else if ActionOf(cb) == ACTION_APPROVE then Approve
    else Deny
  }

  /** Where one Request call is: in its select, about to run its deferred deregistration, or done. */
  datatype Pc = Waiting | Leaving(decision: Decision) | Returned(decision: Decision)

  /** One Request call. `buffer` and `closed` are its channel; `accepted` and `got` are history: the
      callbacks sent on the channel, and the one received. */
  datatype Call = Call(id: string, token: string, pc: Pc, buffer: Option<Callback>, closed: bool,
                       accepted: seq<Callback>, got: Option<Callback>)

  datatype Loop = Idle | Sending(g: nat, cb: Callback)

  /** A callback the loop looked up: it was dispatched to call `g`, registered at that moment. */
  datatype Dispatch = Dispatch(cb: Callback, g: nat)

  /** `dispatched` and `replaced` are history: the dispatches made, and the calls whose entry in the pending
      map was overwritten by a later call with the same id. */
  datatype State = State(calls: map<nat, Call>, pending: map<string, nat>, loop: Loop, dispatched: seq<Dispatch>,
                         replaced: set<nat>, crashed: bool)

  datatype Action =
    | Register(g: nat, id: string, token: string)
    | Click(cb: Callback)
    | Send
    | Receive(g: nat)
    | Expire(g: nat)
    | Deregister(g: nat)

  const Initial := State(map[], map[], Idle, [], {}, false)

  /** The map and the loop refer to calls that exist. */
  predicate WellFormed(s: State) {
    && (forall id :: id in s.pending ==> s.pending[id] in s.calls)
    && (s.loop.Sending? ==> s.loop.g in s.calls)
  }

  /** A call enters its channel under its id, over whatever was there. */
  function Registering(s: State, g: nat, id: string, token: string): State {
    s.(calls := s.calls[g := Call(id, token, Waiting, None, false, [], None)], pending := s.pending[id := g],
       replaced := if id in s.pending then s.replaced + {s.pending[id]} else s.replaced)
  }

  /** A call returns; whatever channel is under its id is closed and taken out. */
  function Deregistering(s: State, g: nat): State
    requires WellFormed(s) && g in s.calls && s.calls[g].pc.Leaving?
  {
    var id := s.calls[g].id;
    var done := s.calls[g := s.calls[g].(pc := Returned(s.calls[g].pc.decision))];
    if id !in s.pending then s.(calls := done)
    else
      var owner := s.pending[id];
      s.(calls := done[owner := done[owner].(closed := true)], pending := s.pending - {id})
  }

  function Next(mac: Mac, secret: bytes, s: State, a: Action): (r: Option<State>)
    requires WellFormed(s)
    ensures r.Some? ==> WellFormed(r.value)
  {
    if s.crashed then None
    else
      match a
      case Register(g, id, token) => if g in s.calls then None else Some(Registering(s, g, id, token))
      case Click(cb) =>
        var id := RequestIdOf(cb);
        if !s.loop.Idle? then None
        else if id == "" || id !in s.pending then Some(s)
        else Some(s.(loop := Sending(s.pending[id], cb), dispatched := s.dispatched + [Dispatch(cb, s.pending[id])]))
      case Send =>
        if !s.loop.Sending? then None
        else
          var g, cb := s.loop.g, s.loop.cb;
          var c := s.calls[g];
          if c.closed then Some(s.(crashed := true))
          else if c.buffer.Some? then Some(s.(loop := Idle))
          else Some(s.(loop := Idle, calls := s.calls[g := c.(buffer := Some(cb), accepted := c.accepted + [cb])]))
      case Receive(g) =>
        if g !in s.calls || !s.calls[g].pc.Waiting? || (s.calls[g].buffer.None? && !s.calls[g].closed) then None
        else
          var c := s.calls[g];
          var cb := if c.buffer.Some? then c.buffer.value else ZERO_CALLBACK;
          Some(s.(calls := s.calls[g := c.(buffer := None, got := Some(cb),
                                           pc := Leaving(HandleInteraction(mac, secret, c.id, c.token, cb)))]))
      case Expire(g) =>
        if g !in s.calls || !s.calls[g].pc.Waiting? then None
        else Some(s.(calls := s.calls[g := s.calls[g].(pc := Leaving(Timeout))]))
      case Deregister(g) => if g !in s.calls || !s.calls[g].pc.Leaving? then None else Some(Deregistering(s, g))
  }

  /** The state a list of actions leads to; None when one of them is not possible. */
  function Run(mac: Mac, secret: bytes, s: State, actions: seq<Action>): Option<State>
    requires WellFormed(s)
    decreases |actions|
  {
    if actions == [] then Some(s)
    else
      var next := Next(mac, secret, s, actions[0]);
      if next.None? then None else Run(mac, secret, next.value, actions[1..])
  }

  ghost predicate Reachable(mac: Mac, secret: bytes, s: State) {
    exists actions :: Run(mac, secret, Initial, actions) == Some(s)
  }

  // ---------- what every run keeps ----------

  ghost predicate CallInv(mac: Mac, secret: bytes, dispatched: seq<Dispatch>, g: nat, c: Call) {
    && (forall i :: 0 <= i < |c.accepted| ==>
          Dispatch(c.accepted[i], g) in dispatched && RequestIdOf(c.accepted[i]) == c.id)
    && (c.pc.Waiting? ==> c.got.None? && c.accepted == if c.buffer.Some? then [c.buffer.value] else [])
    && (c.got.Some? ==>
          && !c.pc.Waiting? && c.pc.decision == HandleInteraction(mac, secret, c.id, c.token, c.got.value)
          && (if c.accepted != [] then c.got.value == c.accepted[0] else c.closed && c.got.value == ZERO_CALLBACK))
    && (c.got.None? && !c.pc.Waiting? ==> c.pc.decision == Timeout)
  }

  /** How the map, the loop and the calls hang together. */
  ghost predicate Linked(s: State) {
    && (forall id :: id in s.pending ==>
          && s.pending[id] in s.calls
          && s.calls[s.pending[id]].id == id && !s.calls[s.pending[id]].closed && !s.calls[s.pending[id]].pc.Returned?)
    && (s.loop.Sending? ==>
          && s.loop.g in s.calls && RequestIdOf(s.loop.cb) == s.calls[s.loop.g].id
          && Dispatch(s.loop.cb, s.loop.g) in s.dispatched)
    && (s.crashed ==> s.loop.Sending? && s.calls[s.loop.g].closed)
  }

  predicate Registered(s: State, g: nat)
    requires g in s.calls
  {
    s.calls[g].id in s.pending && s.pending[s.calls[g].id] == g
  }

  /** Every call is registered, replaced, or has a closed channel, and only one of these. */
  ghost predicate Accounted(s: State) {
    && (forall g :: g in s.replaced ==> g in s.calls && !Registered(s, g))
    && (forall g :: g in s.calls ==> (s.calls[g].closed <==> !Registered(s, g) && g !in s.replaced))
  }

  ghost predicate Inv(mac: Mac, secret: bytes, s: State) {
    && Linked(s)
    && Accounted(s)
    && (forall g :: g in s.calls ==> CallInv(mac, secret, s.dispatched, g, s.calls[g]))
  }

  lemma StepKeepsInv(mac: Mac, secret: bytes, s: State, a: Action, s': State)
    requires WellFormed(s) && Inv(mac, secret, s) && Next(mac, secret, s, a) == Some(s')
    ensures Inv(mac, secret, s')
  {
    hide HandleInteraction, RequestIdOf, CallInv;
    LinkedStep(mac, secret, s, a, s');
    AccountedStep(mac, secret, s, a, s');
    hide Linked, Accounted;
    forall g | g in s'.calls
      ensures CallInv(mac, secret, s'.dispatched, g, s'.calls[g])
    {
      CallStep(mac, secret, s, a, s', g);
    }
  }

  lemma LinkedStep(mac: Mac, secret: bytes, s: State, a: Action, s': State)
    requires WellFormed(s) && Linked(s) && Next(mac, secret, s, a) == Some(s')
    ensures Linked(s')
  {
    hide HandleInteraction, RequestIdOf;
  }

  /** Nothing about registration changes. */
  predicate SameRegistry(s: State, s': State) {
    && s'.pending == s.pending && s'.replaced == s.replaced && s'.calls.Keys == s.calls.Keys
    && forall g :: g in s.calls ==> s'.calls[g].id == s.calls[g].id && s'.calls[g].closed == s.calls[g].closed
  }

  lemma OtherSteps(mac: Mac, secret: bytes, s: State, a: Action, s': State)
    requires WellFormed(s) && Next(mac, secret, s, a) == Some(s')
    ensures match a
            case Register(g, id, token) => g !in s.calls && s' == Registering(s, g, id, token)
            case Deregister(g) => g in s.calls && s.calls[g].pc.Leaving? && s' == Deregistering(s, g)
            case _ => SameRegistry(s, s')
  {
    hide Registering, Deregistering, HandleInteraction, RequestIdOf;
  }

  lemma AccountedStep(mac: Mac, secret: bytes, s: State, a: Action, s': State)
    requires WellFormed(s) && Linked(s) && Accounted(s) && Next(mac, secret, s, a) == Some(s')
    ensures Accounted(s')
  {
    OtherSteps(mac, secret, s, a, s');
    hide Next;
    match a
    case Register(g, id, token) => RegisterKeepsAccount(s, g, id, token);
    case Deregister(g) => DeregisterKeepsAccount(s, g);
    case _ =>
  }

  lemma RegisterKeepsAccount(s: State, g: nat, id: string, token: string)
    requires Linked(s) && Accounted(s) && g !in s.calls
    ensures Accounted(Registering(s, g, id, token))
  {
    hide RequestIdOf;
  }

  /** What a deregistration does to call `h`. */
  lemma Deregistered(s: State, g: nat, h: nat)
    requires WellFormed(s) && g in s.calls && s.calls[g].pc.Leaving? && h in s.calls
    ensures var s', id := Deregistering(s, g), s.calls[g].id;
            && h in s'.calls && s'.dispatched == s.dispatched && s'.replaced == s.replaced
            && s'.calls[h] == s.calls[h].(pc := if h == g then Returned(s.calls[g].pc.decision) else s.calls[h].pc,
                                          closed := s.calls[h].closed || (id in s.pending && s.pending[id] == h))
            && s'.pending == s.pending - {id} && s'.calls.Keys == s.calls.Keys
  {
  }

  lemma DeregisterKeepsAccount(s: State, g: nat)
    requires WellFormed(s) && Linked(s) && Accounted(s) && g in s.calls && s.calls[g].pc.Leaving?
    ensures Accounted(Deregistering(s, g))
  {
    hide RequestIdOf, Deregistering;
    var s', id := Deregistering(s, g), s.calls[g].id;
    Deregistered(s, g, g);
    forall h | h in s.calls
      ensures s'.calls[h].closed <==> s.calls[h].closed || (Registered(s, h) && s.calls[h].id == id)
      ensures Registered(s', h) <==> Registered(s, h) && s.calls[h].id != id
    {
      Deregistered(s, g, h);
      assert id in s.pending ==> s.calls[s.pending[id]].id == id;
    }
    hide Registered, Linked;
  }

  lemma CallStep(mac: Mac, secret: bytes, s: State, a: Action, s': State, g: nat)
    requires WellFormed(s) && Linked(s) && Next(mac, secret, s, a) == Some(s') && g in s'.calls
    requires g in s.calls ==> CallInv(mac, secret, s.dispatched, g, s.calls[g])
    ensures CallInv(mac, secret, s'.dispatched, g, s'.calls[g])
  {
    hide HandleInteraction, RequestIdOf;
    if a.Deregister? {
      Deregistered(s, a.g, g);
      hide Deregistering, Linked;
    } else {
      hide Deregistering;
    }
  }

  lemma {:induction false} RunKeepsInv(mac: Mac, secret: bytes, s: State, actions: seq<Action>)
    requires WellFormed(s) && Inv(mac, secret, s) && Run(mac, secret, s, actions).Some?
    ensures Inv(mac, secret, Run(mac, secret, s, actions).value)
    decreases |actions|
  {
    hide Inv, Next;
    if actions != [] {
      var next := Next(mac, secret, s, actions[0]).value;
      StepKeepsInv(mac, secret, s, actions[0], next);
      RunKeepsInv(mac, secret, next, actions[1..]);
    }
  }

  lemma ReachableInv(mac: Mac, secret: bytes, s: State)
    requires Reachable(mac, secret, s)
    ensures Inv(mac, secret, s)
  {
    var actions :| Run(mac, secret, Initial, actions) == Some(s);
    hide Run;
    assert Inv(mac, secret, Initial);
    RunKeepsInv(mac, secret, Initial, actions);
  }

  /** A click for request `id`: its first block action carries the id. */
  predicate ClickFor(cb: Callback, id: string) {
    cb.blockActions != [] && cb.blockActions[0].value == id && id != ""
  }

  /** The button pressed is the approving one; the callback's own action id is looked at only when the block
      action has none. */
  predicate PressesApprove(cb: Callback) {
    || (cb.blockActions != [] && cb.blockActions[0].actionId == "mcp-socd.approve")
    || ((cb.blockActions == [] || cb.blockActions[0].actionId == "") && cb.actionId == "mcp-socd.approve")
  }

  /** The token is the MAC of the id under the secret, none of them missing. */
  predicate RightToken(mac: Mac, secret: bytes, id: string, token: string) {
    id != "" && secret != [] && token != "" && token == mac(secret, id)
  }

  lemma InteractionSpelled(mac: Mac, secret: bytes, id: string, token: string, cb: Callback)
    ensures HandleInteraction(mac, secret, id, token, cb) ==
            if PressesApprove(cb) && RightToken(mac, secret, id, token) then Approve else Deny
  {
  }

  /** In every run, a Request returns Approve only on a click that carried its own id on the approve button,
      that was dispatched to it while it was registered, and that was the first one sent to its channel; and
      its token must have been the right one. */
  lemma ApprovedByOwnClick(mac: Mac, secret: bytes, s: State, g: nat)
    requires Reachable(mac, secret, s) && g in s.calls && !s.calls[g].pc.Waiting?
    requires s.calls[g].pc.decision == Approve
    ensures var c := s.calls[g];
            && c.accepted != [] && c.got == Some(c.accepted[0])
            && Dispatch(c.accepted[0], g) in s.dispatched
            && ClickFor(c.accepted[0], c.id) && PressesApprove(c.accepted[0])
            && RightToken(mac, secret, c.id, c.token)
  {
    ReachableInv(mac, secret, s);
    var c := s.calls[g];
    assert CallInv(mac, secret, s.dispatched, g, c);
    InteractionSpelled(mac, secret, c.id, c.token, c.got.value);
    hide Inv, Linked, Reachable, HandleInteraction;
  }

  /** And it does, in every run: while the loop is idle, a click for a registered request that has received
      nothing yet is sent to it, and received there it decides: Approve exactly when the approve button was
      pressed and the token is right, Deny otherwise. No other request notices. */
  lemma ClickDecides(mac: Mac, secret: bytes, s: State, g: nat, cb: Callback)
    requires Reachable(mac, secret, s) && !s.crashed && s.loop.Idle?
    requires g in s.calls && Registered(s, g) && s.calls[g].pc.Waiting? && s.calls[g].buffer.None?
    requires ClickFor(cb, s.calls[g].id)
    ensures WellFormed(s)
    ensures var run := Run(mac, secret, s, [Click(cb), Send, Receive(g)]);
            && run.Some? && run.value.loop.Idle? && !run.value.crashed && g in run.value.calls
            && run.value.calls[g].got == Some(cb)
            && run.value.calls[g].pc == Leaving(
                 if PressesApprove(cb) && RightToken(mac, secret, s.calls[g].id, s.calls[g].token) then Approve
                 else Deny)
            && run.value.calls == s.calls[g := run.value.calls[g]] && run.value.pending == s.pending
  {
    ReachableInv(mac, secret, s);
    RegisteredIsOpen(mac, secret, s, g);
    hide Reachable, Inv, ClickFor, Registered, PressesApprove, RightToken, Next, WellFormed, Run;
    ClickIsDispatched(mac, secret, s, g, cb);
    var s1 := s.(loop := Sending(g, cb), dispatched := s.dispatched + [Dispatch(cb, g)]);
    DispatchIsSent(mac, secret, s1, g, cb);
    var c := s.calls[g].(buffer := Some(cb), accepted := s.calls[g].accepted + [cb]);
    var s2 := s1.(loop := Loop.Idle, calls := s.calls[g := c]);
    BufferedIsReceived(mac, secret, s2, g, cb);
    ThreeActions(mac, secret, s, Click(cb), s1, Send, s2, Receive(g));
  }

  lemma RegisteredIsOpen(mac: Mac, secret: bytes, s: State, g: nat)
    requires Inv(mac, secret, s) && g in s.calls && Registered(s, g)
    ensures WellFormed(s) && !s.calls[g].closed
  {
    hide CallInv;
  }

  lemma ThreeActions(mac: Mac, secret: bytes, s: State, a: Action, s1: State, b: Action, s2: State, c: Action)
    requires WellFormed(s) && Next(mac, secret, s, a) == Some(s1)
    requires WellFormed(s1) && Next(mac, secret, s1, b) == Some(s2)
    requires WellFormed(s2) && Next(mac, secret, s2, c).Some?
    ensures Run(mac, secret, s, [a, b, c]) == Next(mac, secret, s2, c)
  {
    hide Next;
    var s3 := Next(mac, secret, s2, c).value;
    assert Run(mac, secret, s2, [c]) == Run(mac, secret, s3, []) == Some(s3);
    assert Run(mac, secret, s1, [b, c]) == Run(mac, secret, s2, [c]);
  }

  lemma DispatchIsSent(mac: Mac, secret: bytes, s: State, g: nat, cb: Callback)
    requires WellFormed(s) && !s.crashed && s.loop == Sending(g, cb)
    requires g in s.calls && !s.calls[g].closed && s.calls[g].buffer.None?
    ensures var c := s.calls[g].(buffer := Some(cb), accepted := s.calls[g].accepted + [cb]);
            && Next(mac, secret, s, Send) == Some(s.(loop := Loop.Idle, calls := s.calls[g := c]))
            && WellFormed(s.(loop := Loop.Idle, calls := s.calls[g := c]))
  {
  }

  lemma ClickIsDispatched(mac: Mac, secret: bytes, s: State, g: nat, cb: Callback)
    requires WellFormed(s) && !s.crashed && s.loop.Idle? && g in s.calls && Registered(s, g)
    requires ClickFor(cb, s.calls[g].id)
    ensures var next := s.(loop := Sending(g, cb), dispatched := s.dispatched + [Dispatch(cb, g)]);
            Next(mac, secret, s, Click(cb)) == Some(next) && WellFormed(next)
  {
  }

  lemma BufferedIsReceived(mac: Mac, secret: bytes, s: State, g: nat, cb: Callback)
    requires WellFormed(s) && !s.crashed && g in s.calls && s.calls[g].pc.Waiting? && s.calls[g].buffer == Some(cb)
    ensures var next := Next(mac, secret, s, Receive(g));
            var c, d := s.calls[g], if PressesApprove(cb) && RightToken(mac, secret, s.calls[g].id, s.calls[g].token)
                                    then Approve else Deny;
            next == Some(s.(calls := s.calls[g := c.(buffer := None, got := Some(cb), pc := Leaving(d))]))
  {
    InteractionSpelled(mac, secret, s.calls[g].id, s.calls[g].token, cb);
    hide PressesApprove, RightToken, HandleInteraction;
  }

  /** A Request that received nothing timed out; one that received from a closed channel denies; in every
      other case the first callback sent to its channel decided. */
  lemma HowARequestEnds(mac: Mac, secret: bytes, s: State, g: nat)
    requires Reachable(mac, secret, s) && g in s.calls && !s.calls[g].pc.Waiting?
    ensures var c := s.calls[g];
            && (c.got.None? ==> c.pc.decision == Timeout)
            && (c.got.Some? && c.accepted == [] ==> c.closed && c.pc.decision == Deny)
            && (c.got.Some? && c.accepted != [] ==>
                  c.pc.decision == HandleInteraction(mac, secret, c.id, c.token, c.accepted[0]))
  {
    ReachableInv(mac, secret, s);
    assert CallInv(mac, secret, s.dispatched, g, s.calls[g]);
    hide Inv, Linked, Reachable, TokenAccepted;
  }

  /** The channel closed by a deregistration is open until then: no channel is closed twice. */
  lemma ClosedOnce(mac: Mac, secret: bytes, s: State, id: string)
    requires Reachable(mac, secret, s) && id in s.pending
    ensures s.pending[id] in s.calls && !s.calls[s.pending[id]].closed
  {
    ReachableInv(mac, secret, s);
    hide Reachable;
  }

  /** In every run, the loop panics exactly when the call it looked up is no longer registered, unless its
      entry was overwritten by a later call with the same id: then its channel is never closed. */
  lemma SendPanics(mac: Mac, secret: bytes, s: State)
    requires Reachable(mac, secret, s) && !s.crashed && s.loop.Sending?
    ensures WellFormed(s)
    ensures var s' := Next(mac, secret, s, Send);
            s'.Some? && (s'.value.crashed <==> !Registered(s, s.loop.g) && s.loop.g !in s.replaced)
  {
    ReachableInv(mac, secret, s);
    hide Reachable, HandleInteraction, RequestIdOf, CallInv;
  }

  // ---------- runs in which every request has its own id ----------

  ghost predicate DistinctIds(s: State) {
    forall g, h :: g in s.calls && h in s.calls && g != h ==> s.calls[g].id != s.calls[h].id
  }

  /** A call is registered until it returns, and what it receives was sent to it. */
  ghost predicate OwnChannels(s: State) {
    && s.replaced == {}
    && (forall g :: g in s.calls ==> (Registered(s, g) <==> !s.calls[g].pc.Returned?))
    && (forall g :: g in s.calls && s.calls[g].got.Some? ==> s.calls[g].accepted != [])
  }

  lemma DistinctBefore(mac: Mac, secret: bytes, s: State, a: Action, s': State)
    requires WellFormed(s) && Next(mac, secret, s, a) == Some(s') && DistinctIds(s')
    ensures DistinctIds(s)
  {
    OtherSteps(mac, secret, s, a, s');
    hide Next;
    assert forall g :: g in s.calls ==> g in s'.calls && s'.calls[g].id == s.calls[g].id;
  }

  lemma RegisterOwnChannel(s: State, g: nat, id: string, token: string)
    requires Linked(s) && Accounted(s) && OwnChannels(s) && g !in s.calls && DistinctIds(Registering(s, g, id, token))
    ensures OwnChannels(Registering(s, g, id, token))
  {
    hide RequestIdOf;
    var s' := Registering(s, g, id, token);
    forall h | h in s.calls
      ensures s'.calls[h] == s.calls[h] && s.calls[h].id != id
    {
      assert s'.calls[h].id != s'.calls[g].id;
    }
    assert id !in s.pending;
  }

  lemma DeregisterOwnChannel(s: State, g: nat)
    requires WellFormed(s) && OwnChannels(s) && g in s.calls && s.calls[g].pc.Leaving?
    ensures OwnChannels(Deregistering(s, g))
  {
    var s' := Deregistering(s, g);
    assert Registered(s, g);
    forall h | h in s.calls
      ensures s'.calls[h] ==
              if h == g then s.calls[g].(pc := Returned(s.calls[g].pc.decision), closed := true) else s.calls[h]
      ensures Registered(s', h) <==> Registered(s, h) && h != g
    {
    }
  }

  lemma OnlyReceiverGets(mac: Mac, secret: bytes, s: State, a: Action, s': State, h: nat)
    requires WellFormed(s) && Next(mac, secret, s, a) == Some(s') && !a.Register? && !a.Deregister? && h in s.calls
    ensures h in s'.calls && s'.calls[h].pc.Returned? == s.calls[h].pc.Returned?
    ensures a != Receive(h) ==> s'.calls[h].got == s.calls[h].got
    ensures |s.calls[h].accepted| <= |s'.calls[h].accepted|
    ensures a == Receive(h) ==> s.calls[h].pc.Waiting? && (s.calls[h].buffer.Some? || s.calls[h].closed)
  {
    hide HandleInteraction, RequestIdOf, Registering, Deregistering;
  }

  /** The other steps neither return a call nor register one, and whoever receives had something sent to it. */
  lemma OtherOwnChannels(mac: Mac, secret: bytes, s: State, a: Action, s': State)
    requires WellFormed(s) && Inv(mac, secret, s) && OwnChannels(s) && Next(mac, secret, s, a) == Some(s')
    requires !a.Register? && !a.Deregister?
    ensures OwnChannels(s')
  {
    OtherSteps(mac, secret, s, a, s');
    hide Next, Linked, HandleInteraction, RequestIdOf, Registering, Deregistering;
    forall h | h in s.calls
      ensures s'.calls[h].pc.Returned? == s.calls[h].pc.Returned?
      ensures s'.calls[h].got.Some? ==> s'.calls[h].accepted != []
    {
      OnlyReceiverGets(mac, secret, s, a, s', h);
      assert CallInv(mac, secret, s.dispatched, h, s.calls[h]);
    }
    hide CallInv, Accounted;
  }

  lemma OwnChannelsStep(mac: Mac, secret: bytes, s: State, a: Action, s': State)
    requires WellFormed(s) && Inv(mac, secret, s) && OwnChannels(s)
    requires Next(mac, secret, s, a) == Some(s') && DistinctIds(s')
    ensures OwnChannels(s')
  {
    hide Next, OwnChannels, DistinctIds, Linked, Accounted, CallInv, Registering, Deregistering;
    OtherSteps(mac, secret, s, a, s');
    if a.Register? {
      RegisterOwnChannel(s, a.g, a.id, a.token);
    } else if a.Deregister? {
      DeregisterOwnChannel(s, a.g);
    } else {
      OtherOwnChannels(mac, secret, s, a, s');
    }
  }

  lemma {:induction false} DistinctFromStart(mac: Mac, secret: bytes, s: State, actions: seq<Action>)
    requires WellFormed(s) && Run(mac, secret, s, actions).Some? && DistinctIds(Run(mac, secret, s, actions).value)
    ensures DistinctIds(s)
    decreases |actions|
  {
    hide Next, DistinctIds;
    if actions != [] {
      var next := Next(mac, secret, s, actions[0]).value;
      DistinctFromStart(mac, secret, next, actions[1..]);
      DistinctBefore(mac, secret, s, actions[0], next);
    }
  }

  lemma {:induction false} RunKeepsOwnChannels(mac: Mac, secret: bytes, s: State, actions: seq<Action>)
    requires WellFormed(s) && Inv(mac, secret, s) && OwnChannels(s)
    requires Run(mac, secret, s, actions).Some? && DistinctIds(Run(mac, secret, s, actions).value)
    ensures OwnChannels(Run(mac, secret, s, actions).value)
    decreases |actions|
  {
    hide Inv, OwnChannels, DistinctIds, Next;
    if actions != [] {
      var next := Next(mac, secret, s, actions[0]).value;
      DistinctFromStart(mac, secret, next, actions[1..]);
      OwnChannelsStep(mac, secret, s, actions[0], next);
      StepKeepsInv(mac, secret, s, actions[0], next);
      RunKeepsOwnChannels(mac, secret, next, actions[1..]);
    }
  }

  lemma ReachableOwnChannels(mac: Mac, secret: bytes, s: State)
    requires Reachable(mac, secret, s) && DistinctIds(s)
    ensures Inv(mac, secret, s) && OwnChannels(s)
  {
    var actions :| Run(mac, secret, Initial, actions) == Some(s);
    hide Run, DistinctIds;
    assert Inv(mac, secret, Initial) && OwnChannels(Initial);
    hide Inv, OwnChannels;
    RunKeepsInv(mac, secret, Initial, actions);
    RunKeepsOwnChannels(mac, secret, Initial, actions);
  }

  /** With distinct ids, the loop panics exactly when the id of the click it is sending is no longer in the
      pending map, which is exactly when the request it was for has returned. */
  lemma SendPanicsWhenGone(mac: Mac, secret: bytes, s: State)
    requires Reachable(mac, secret, s) && DistinctIds(s) && !s.crashed && s.loop.Sending?
    ensures WellFormed(s)
    ensures var s' := Next(mac, secret, s, Send);
            && s'.Some?
            && (s'.value.crashed <==> RequestIdOf(s.loop.cb) !in s.pending)
            && (s'.value.crashed <==> s.calls[s.loop.g].pc.Returned?)
  {
    ReachableOwnChannels(mac, secret, s);
    hide Reachable, HandleInteraction, CallInv, RequestIdOf;
    var id := s.calls[s.loop.g].id;
    assert id in s.pending ==> s.calls[s.pending[id]].id == id;
  }

  /** With distinct ids, no request receives the zero callback of a closed channel: one that received
      anything was decided by the first callback sent to its channel. */
  lemma NoZeroCallback(mac: Mac, secret: bytes, s: State, g: nat)
    requires Reachable(mac, secret, s) && DistinctIds(s) && g in s.calls && s.calls[g].got.Some?
    ensures var c := s.calls[g];
            && c.accepted != [] && c.got == Some(c.accepted[0]) && !c.pc.Waiting?
            && c.pc.decision == HandleInteraction(mac, secret, c.id, c.token, c.accepted[0])
  {
    ReachableOwnChannels(mac, secret, s);
    assert CallInv(mac, secret, s.dispatched, g, s.calls[g]);
    hide Reachable, HandleInteraction, Linked, Accounted;
  }

  /** Over all runs: a waiting request nobody has sent to receives exactly when its entry is gone from the map
      without having been overwritten, and what it receives is the zero callback, which denies it. */
  lemma ZeroCallbackWhen(mac: Mac, secret: bytes, s: State, g: nat)
    requires Reachable(mac, secret, s) && !s.crashed
    requires g in s.calls && s.calls[g].pc.Waiting? && s.calls[g].buffer.None?
    ensures WellFormed(s)
    ensures var next := Next(mac, secret, s, Receive(g));
            && (next.Some? <==> !Registered(s, g) && g !in s.replaced)
            && (next.Some? ==>
                  next.value.calls[g].got == Some(ZERO_CALLBACK) && next.value.calls[g].pc == Leaving(Deny))
  {
    ReachableInv(mac, secret, s);
    ZeroDenies(mac, secret, s.calls[g].id, s.calls[g].token);
    hide Reachable, HandleInteraction, RequestIdOf, CallInv;
  }

  /** With a shared id it does happen: the first of two requests expires, closes the channel of the second,
      and the second is denied by a callback nobody sent. */
  lemma SharedIdDenies(mac: Mac, secret: bytes, id: string, token: string)
    ensures var actions := [Register(0, id, token), Register(1, id, token), Expire(0), Deregister(0), Receive(1)];
            var run := Run(mac, secret, Initial, actions);
            && run.Some? && 1 in run.value.calls && !run.value.crashed
            && run.value.calls[1].pc == Leaving(Deny) && run.value.calls[1].got == Some(ZERO_CALLBACK)
            && run.value.calls[1].accepted == []
  {
    hide HandleInteraction;
    var s1 := Next(mac, secret, Initial, Register(0, id, token)).value;
    var s2 := Next(mac, secret, s1, Register(1, id, token)).value;
    var s3 := Next(mac, secret, s2, Expire(0)).value;
    var s4 := Next(mac, secret, s3, Deregister(0)).value;
    assert s4.calls[1] == Call(id, token, Waiting, None, true, [], None) && !s4.crashed;
    var s5 := Next(mac, secret, s4, Receive(1)).value;
    ZeroDenies(mac, secret, id, token);
    assert s5.calls[1] == Call(id, token, Leaving(Deny), None, true, [], Some(ZERO_CALLBACK));
    hide Next;
    assert Run(mac, secret, s4, [Receive(1)]) == Run(mac, secret, s5, []) == Some(s5);
    assert Run(mac, secret, s3, [Deregister(0), Receive(1)]) == Run(mac, secret, s4, [Receive(1)]);
    assert Run(mac, secret, s2, [Expire(0), Deregister(0), Receive(1)])
           == Run(mac, secret, s3, [Deregister(0), Receive(1)]);
  }

  lemma ZeroDenies(mac: Mac, secret: bytes, id: string, token: string)
    ensures HandleInteraction(mac, secret, id, token, ZERO_CALLBACK) == Deny
  {
  }

  /** Without a secret, which is how NewSlackChannel leaves the channel, no request is ever approved. */
  lemma NoSecretNoApproval(mac: Mac, s: State, g: nat)
    requires Reachable(mac, [], s) && g in s.calls && !s.calls[g].pc.Waiting?
    ensures s.calls[g].pc.decision != Approve
  {
    ReachableInv(mac, [], s);
    assert CallInv(mac, [], s.dispatched, g, s.calls[g]);
    hide Inv, Linked, Reachable;
  }

  /** It does happen: a click looked up just before its request expires is sent after the channel is closed. */
  lemma LateClickPanics(mac: Mac, secret: bytes, id: string, token: string, actionId: string)
    requires id != ""
    ensures var cb := Callback([BlockAction(actionId, id)], "");
            var run := Run(mac, secret, Initial, [Register(0, id, token), Click(cb), Expire(0), Deregister(0), Send]);
            run.Some? && run.value.crashed && 0 in run.value.calls && run.value.calls[0].pc == Returned(Timeout)
  {
    var cb := Callback([BlockAction(actionId, id)], "");
    var s1 := Next(mac, secret, Initial, Register(0, id, token)).value;
    var s2 := Next(mac, secret, s1, Click(cb)).value;
    var s3 := Next(mac, secret, s2, Expire(0)).value;
    var s4 := Next(mac, secret, s3, Deregister(0)).value;
    var s5 := Next(mac, secret, s4, Send).value;
    assert s5.crashed;
    hide Next;
    assert Run(mac, secret, s4, [Send]) == Run(mac, secret, s5, []) == Some(s5);
    assert Run(mac, secret, s3, [Deregister(0), Send]) == Run(mac, secret, s4, [Send]);
    assert Run(mac, secret, s2, [Expire(0), Deregister(0), Send]) == Run(mac, secret, s3, [Deregister(0), Send]);
  }

  /** The socket loop is never held up: idle, it takes any click, and one for no registered request changes
      nothing; with a click in hand it goes back to idle, or panics on a closed channel, dropping the click when
      the channel is full. */
  lemma LoopGoesOn(mac: Mac, secret: bytes, s: State, cb: Callback)
    requires WellFormed(s) && !s.crashed
    ensures s.loop.Idle? ==> Next(mac, secret, s, Click(cb)).Some?
    ensures s.loop.Idle? && (forall id :: id in s.pending ==> !ClickFor(cb, id)) ==>
              Next(mac, secret, s, Click(cb)) == Some(s)
    ensures s.loop.Sending? ==>
              var next, c := Next(mac, secret, s, Send), s.calls[s.loop.g];
              && next.Some? && (next.value.crashed <==> c.closed) && (!c.closed ==> next.value.loop.Idle?)
              && (!c.closed && c.buffer.Some? ==> next.value.calls == s.calls)
  {
    hide HandleInteraction;
  }

  /** No request is held up either: a new one can always be registered, a waiting one can always time out, and one
      that has its decision can always return it, which takes its entry out and closes the channel under it. */
  lemma RequestsGoOn(mac: Mac, secret: bytes, s: State, g: nat, id: string, token: string)
    requires WellFormed(s) && !s.crashed
    ensures g !in s.calls ==>
              var next := Next(mac, secret, s, Register(g, id, token));
              && next.Some? && g in next.value.calls && next.value.calls[g].pc.Waiting?
              && next.value.calls[g].id == id && next.value.calls[g].token == token && Registered(next.value, g)
    ensures g in s.calls && s.calls[g].pc.Waiting? ==>
              var next := Next(mac, secret, s, Expire(g));
              next.Some? && g in next.value.calls && next.value.calls[g].pc == Leaving(Timeout)
    ensures g in s.calls && s.calls[g].pc.Leaving? ==>
              var next := Next(mac, secret, s, Deregister(g));
              && next.Some? && g in next.value.calls && next.value.calls[g].pc == Returned(s.calls[g].pc.decision)
              && s.calls[g].id !in next.value.pending
              && (Registered(s, g) ==> next.value.calls[g].closed)
  {
    hide HandleInteraction;
  }
}
