/**
 interceptCall of internal/proxy/intercept.go: what happens to one tools/call, and what it depends on.
 JSON decoding and encoding and JSON-Schema validation are arbitrary functions (`World`).
 */
module Intercept {
  import opened Basics
  import opened Catalog
  import Policy
  import Engine
  import Verbs

  datatype Request = Request(id: bytes, methodName: string, params: bytes)

  /** DecodeMessage: not JSON, no method, or a request. */
  datatype Message = Undecodable | Response | Call(req: Request)

  /** json.Unmarshal of the params into name and arguments. */
  datatype Params = Malformed | Params(name: string, args: Args)

  const CODE_METHOD_NOT_FOUND := -32601
  const CODE_INVALID_PARAMS := -32602
  const CODE_POLICY_DENIED := -32000

  /** The synthetic error response; `detail` is absent on the validation paths. */
  datatype Detail = Detail(reason: string, tool: string, target: string, version: int)
  datatype Reply = Reply(id: bytes, code: int, detail: Option<Detail>)

  /** One audit event; the error text of the rejecting paths is left out. */
  datatype Event =
    | Rejection(reason: string, tool: string)
    | Judged(decision: Policy.Decision, tool: string, target: string)
    | Startup
    | Shutdown(clean: bool)

  datatype World = World(
    decode: bytes -> Message,
    decodeParams: bytes -> Params,
    accepts: (Schema, Args) -> bool,
    globs: Policy.Globs,
    encode: Reply -> bytes,
    actions: Actions)

  /** extractTarget: the declared primary argument, if it is a non-empty string. */
  function ExtractTarget(action: Action, args: Args): string {
    if action.primaryArg == "" || action.primaryArg !in args || !args[action.primaryArg].Str? then ""
    else args[action.primaryArg].s
  }

  /** What is settled about a tools/call before any policy is consulted. */
  datatype Inspection =
    | Refuse(event: Event, reply: Reply)
    | Ask(call: Policy.Call)

  function Inspect(w: World, req: Request): Inspection {
    var p := w.decodeParams(req.params);
    if req.params == [] || p.Malformed? || p.name == "" then
      Refuse(Rejection("params_decode_failed", ""), Reply(req.id, CODE_INVALID_PARAMS, None))
    else
      match Validated(w.accepts, w.actions, p.name, p.args)
      case Some(ActionNotFound) =>
        Refuse(Rejection("action_unknown", p.name), Reply(req.id, CODE_METHOD_NOT_FOUND, None))
      case Some(SchemaViolation) =>
        Refuse(Rejection("schema_violation", p.name), Reply(req.id, CODE_INVALID_PARAMS, None))
      case Some(NoSchema) =>
        Refuse(Rejection("validation_error", p.name), Reply(req.id, CODE_INVALID_PARAMS, None))
      case None => Ask(Policy.Call(p.name, ExtractTarget(w.actions[p.name], p.args)))
  }

  function DenialReason(d: Policy.Decision): string {
    match d
    case Deny => "policy_deny"
    case RequireApproval => "approval_pending"
    case Unset => "policy_unset"
    case Allow => ""
  }

  /** The answer to a call that policy did not allow; `version` is read after the decision was made. */
  function Denial(req: Request, call: Policy.Call, d: Policy.Decision, version: int): Reply {
    Reply(req.id, CODE_POLICY_DENIED, Some(Detail(DenialReason(d), call.tool, call.target, version)))
  }

  /** The reason a denial gives for each decision. */
  ghost predicate GivesReason(d: Policy.Decision, reason: string) {
    || (d == Policy.Deny && reason == "policy_deny")
    || (d == Policy.RequireApproval && reason == "approval_pending")
    || (d == Policy.Unset && reason == "policy_unset")
  }

  /** A denial answers the request, under its own id, with code -32000 and the call, the version and the reason. */
  lemma DenialSpelled(req: Request, call: Policy.Call, d: Policy.Decision, version: int, reason: string)
    requires GivesReason(d, reason)
    ensures Denial(req, call, d, version) ==
            Reply(req.id, -32000, Some(Detail(reason, call.tool, call.target, version)))
  {
  }

  /** The target of a call: what its arguments hold, as a string, under the declared primary argument. */
  ghost predicate IsTarget(action: Action, args: Args, target: string) {
    if action.primaryArg != "" && action.primaryArg in args && args[action.primaryArg].Str?
    then args[action.primaryArg] == Str(target)
    else target == ""
  }

  /** Inspection, case by case: unreadable parameters, an unknown action, an action without a schema,
      arguments the schema refuses, and a call to be judged. Refusals carry the request's own id. */
  lemma InspectSpelled(w: World, req: Request)
    ensures var ps := w.decodeParams(req.params);
            if req.params == [] || ps.Malformed? || ps.name == "" then
              Inspect(w, req) == Refuse(Rejection("params_decode_failed", ""), Reply(req.id, -32602, None))
            else if ps.name !in w.actions then
              Inspect(w, req) == Refuse(Rejection("action_unknown", ps.name), Reply(req.id, -32601, None))
            else if w.actions[ps.name].schema == None then
              Inspect(w, req) == Refuse(Rejection("validation_error", ps.name), Reply(req.id, -32602, None))
            else if !w.accepts(w.actions[ps.name].schema.value, ps.args) then
              Inspect(w, req) == Refuse(Rejection("schema_violation", ps.name), Reply(req.id, -32602, None))
            else
              exists target ::
                && Inspect(w, req) == Ask(Policy.Call(ps.name, target))
                && IsTarget(w.actions[ps.name], ps.args, target)
  {
    var ps := w.decodeParams(req.params);
    if Inspect(w, req).Ask? {
      assert IsTarget(w.actions[ps.name], ps.args, Inspect(w, req).call.target);
    }
  }

  datatype InterceptResult = Forward | Synthetic(body: bytes)

  /** The audit hook: it keeps what it is given, in order. */
  class Trail {
    var events: seq<Event>

    constructor ()
      ensures events == []
    {
      events := [];
    }

    method Emit(e: Event)
      modifies this
      ensures events == old(events) + [e]
    {
      events := events + [e];
    }
  }

  /** interceptCall. Exactly one event is emitted on every path; the call is forwarded exactly when it
      passes inspection and the policy allows it. */
  method InterceptCall(w: World, req: Request, engine: Engine.Engine, trail: Trail) returns (result: InterceptResult)
    requires engine.current.Some?
    modifies trail
    ensures match Inspect(w, req)
            case Refuse(event, reply) =>
              trail.events == old(trail.events) + [event] && result == Synthetic(w.encode(reply))
            case Ask(call) =>
              var d := Policy.Decide(w.globs, engine.current.value, call);
              && trail.events == old(trail.events) + [Judged(d, call.tool, call.target)]
              && result == if d == Policy.Allow then Forward
                           else Synthetic(w.encode(Denial(req, call, d, engine.current.value.version)))
    ensures Inspect(w, req).Ask? ==>
              var call, p := Inspect(w, req).call, engine.current.value;
              forall reason :: GivesReason(Policy.Decide(w.globs, p, call), reason) ==>
                                 result == Synthetic(w.encode(
                                   Reply(req.id, -32000, Some(Detail(reason, call.tool, call.target, p.version)))))
  {
    hide Policy.Decide, ExtractTarget;
    var p := w.decodeParams(req.params);
    if req.params == [] || p.Malformed? || p.name == "" {
      trail.Emit(Rejection("params_decode_failed", ""));
      return Synthetic(w.encode(Reply(req.id, CODE_INVALID_PARAMS, None)));
    }
    var verr := Validated(w.accepts, w.actions, p.name, p.args);
    if verr.Some? {
      var reason, code;
      match verr.value {
        case ActionNotFound => reason, code := "action_unknown", CODE_METHOD_NOT_FOUND;
        case SchemaViolation => reason, code := "schema_violation", CODE_INVALID_PARAMS;
        case NoSchema => reason, code := "validation_error", CODE_INVALID_PARAMS;
      }
      trail.Emit(Rejection(reason, p.name));
      return Synthetic(w.encode(Reply(req.id, code, None)));
    }
    var target := ExtractTarget(w.actions[p.name], p.args);
    var call := Policy.Call(p.name, target);
    var decision := engine.Evaluate(w.globs, call);
    trail.Emit(Judged(decision, p.name, target));
    if decision == Policy.Allow {
      return Forward;
    }
    result := Synthetic(w.encode(Denial(req, call, decision, engine.current.value.version)));
  }

  // ---------- what a verdict depends on ----------

  /** The request is let through under policy `p`. */
  predicate Forwarded(w: World, p: Policy.CompiledPolicy, req: Request) {
    Inspect(w, req).Ask? && Policy.Decide(w.globs, p, Inspect(w, req).call) == Policy.Allow
  }

  /** Only catalogued, schema-valid calls that the policy allows for their declared target are forwarded. */
  lemma ForwardedCalls(w: World, p: Policy.CompiledPolicy, req: Request)
    ensures Forwarded(w, p, req) <==>
            var ps := w.decodeParams(req.params);
            && req.params != [] && ps.Params? && ps.name != ""
            && ps.name in w.actions && w.actions[ps.name].schema.Some?
            && w.accepts(w.actions[ps.name].schema.value, ps.args)
            && var call := Policy.Call(ps.name, ExtractTarget(w.actions[ps.name], ps.args));
               Policy.Decide(w.globs, p, call) == Policy.Allow
  {
    hide Policy.Decide, ExtractTarget;
  }

  /** Two schema-valid calls of one tool with the same primary argument get the same verdict, whatever
      their other arguments. */
  lemma OnlyTargetMatters(w: World, p: Policy.CompiledPolicy, a: Request, b: Request)
    requires Inspect(w, a).Ask? && Inspect(w, b).Ask?
    requires var x, y := w.decodeParams(a.params), w.decodeParams(b.params);
             x.name == y.name && ExtractTarget(w.actions[x.name], x.args) == ExtractTarget(w.actions[y.name], y.args)
    ensures Inspect(w, a).call == Inspect(w, b).call
    ensures Forwarded(w, p, a) <==> Forwarded(w, p, b)
  {
    hide Policy.Decide, ExtractTarget;
  }

  /** A rule that names targets speaks about a call only through the declared primary argument: it must
      be present, a non-empty string, and match one of the targets. */
  lemma TargetedRuleNeedsPrimaryArg(w: World, rule: Policy.Rule, req: Request)
    requires Inspect(w, req).Ask? && rule.targets != []
    requires Policy.Applies(w.globs, rule, Inspect(w, req).call)
    ensures var ps := w.decodeParams(req.params);
            var key := w.actions[ps.name].primaryArg;
            && key != "" && key in ps.args && ps.args[key].Str? && ps.args[key].s != ""
            && exists i :: 0 <= i < |rule.targets| && w.globs.matches(rule.targets[i], ps.args[key].s)
  {
    hide Policy.IsGlob;
  }

  /** For a rule that names targets it is also enough, when the rule is about the tool: no other argument counts. */
  lemma TargetedRuleApplies(w: World, rule: Policy.Rule, req: Request)
    requires Inspect(w, req).Ask? && rule.targets != []
    ensures var ps := w.decodeParams(req.params);
            var key := w.actions[ps.name].primaryArg;
            && Inspect(w, req).call.tool == ps.name
            && (Policy.Applies(w.globs, rule, Inspect(w, req).call) <==>
                  && (if Engine.Patterned(rule.tool) then w.globs.matches(rule.tool, ps.name) else rule.tool == ps.name)
                  && key != "" && key in ps.args && ps.args[key].Str? && ps.args[key].s != ""
                  && exists i :: 0 <= i < |rule.targets| && w.globs.matches(rule.targets[i], ps.args[key].s))
  {
    Engine.RuleSpelled(w.globs, rule, Inspect(w, req).call);
    hide Policy.IsGlob, Policy.Applies, Engine.Patterned;
  }

  /** If every applicable allow rule names targets, and the default cannot let the call through, then a
      forwarded call carries a primary argument that a target of an allow rule matches. */
  lemma ForwardedTargetIsListed(w: World, c: Policy.Config, p: Policy.CompiledPolicy, req: Request)
    requires Policy.CompilesTo(c, p) && Forwarded(w, p, req)
    requires var call := Inspect(w, req).call;
             forall r :: r in c.rules && r.action == "allow" && Policy.Applies(w.globs, r, call) ==> r.targets != []
    requires c.defaultAction != "allow" || Verbs.IsDestructive(Inspect(w, req).call.tool)
    ensures var ps := w.decodeParams(req.params);
            var key := w.actions[ps.name].primaryArg;
            && key != "" && key in ps.args && ps.args[key].Str?
            && exists r, i :: r in c.rules && r.action == "allow" && 0 <= i < |r.targets|
                              && w.globs.matches(r.targets[i], ps.args[key].s)
  {
    hide Inspect, Policy.Applies, Policy.CompilesTo, Policy.Decide, Policy.Declared;
    var call := Inspect(w, req).call;
    Engine.CompiledMeansDeclared(w.globs, c, p, call);
    var rule := AllowingRule(w.globs, c, call);
    TargetedRuleNeedsPrimaryArg(w, rule, req);
  }

  lemma AllowingRule(globs: Policy.Globs, c: Policy.Config, call: Policy.Call) returns (r: Policy.Rule)
    requires Policy.Declared(globs, c, call) == Policy.Allow
    requires c.defaultAction != "allow" || Verbs.IsDestructive(call.tool)
    ensures r in c.rules && r.action == "allow" && Policy.Applies(globs, r, call)
  {
    hide Policy.IsGlob, Policy.Applies, Policy.ParseDecision, Verbs.IsDestructive, Policy.IsAsciiPrintable;
    Engine.FirstApplyingIsEarliest(globs, c.rules, false, call);
    Engine.FirstApplyingIsEarliest(globs, c.rules, true, call);
    var exact := Policy.FirstApplying(globs, c.rules, false, call);
    var glob := Policy.FirstApplying(globs, c.rules, true, call);
    r := if exact.Some? then exact.value else glob.value;
  }
}
