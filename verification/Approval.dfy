/**
 Approval tokens, the terminal channel and the workflow of internal/approval. The MAC is an arbitrary
 function; what a channel will answer is part of the channel's description, since it comes from outside.
 */
module Approval {
  import opened Basics
  import Verbs

  datatype Decision = Unset | Approve | Deny | Timeout | Error
  {
    predicate IsDefinitive() { Approve? || Deny? }
  }

  /** The encoded HMAC of a request id under a secret. */
  type Mac = (bytes, string) -> string

  datatype Request = Request(id: string, tool: string, target: string, token: string)

  // ---------- tokens ----------

  function SignToken(mac: Mac, id: string, secret: bytes): string {
    if id == "" || secret == [] then "" else mac(secret, id)
  }

  /** VerifyToken without its error values. */
  predicate TokenAccepted(mac: Mac, id: string, presented: string, secret: bytes) {
    var expected := SignToken(mac, id, secret);
    expected != "" && expected == presented
  }

  // ---------- the terminal channel ----------

  function WordEnd(s: string): (n: nat)
    ensures n <= |s|
    ensures forall i :: 0 <= i < n ==> !Verbs.IsSpace(s[i])
    ensures n < |s| ==> Verbs.IsSpace(s[n])
  {
    if s == "" || Verbs.IsSpace(s[0]) then 0 else 1 + WordEnd(s[1..])
  }

  /** strings.Fields. */
  function Fields(s: string): seq<string>
    decreases |s|
  {
    if s == "" then []
    else if Verbs.IsSpace(s[0]) then Fields(s[1..])
    else
      var n := WordEnd(s);
      assert n > 0;
      [s[..n]] + Fields(s[n..])
  }

  /** parseTerminalResponse. strings.ToLower is modelled on ASCII: no other character lowers to a letter of "yes". */
  function ParseTerminalResponse(mac: Mac, line: string, id: string, secret: bytes): Decision {
    var fields := Fields(line);
    if |fields| < 2 then Deny
    else
      var verb, presented := Verbs.Lower(fields[0]), fields[1];
      if !TokenAccepted(mac, id, presented, secret) then Deny
      else if verb == "y" || verb == "yes" then Approve
      else Deny
  }

  /** What happens at the terminal while a request is shown. */
  datatype Terminal = PromptFails | Line(text: string) | Canceled | TimedOut | ReadFails

  /** A channel's return values; `failed` is a non-nil error. */
  datatype Answer = Answer(decision: Decision, failed: bool)

  function TerminalRequest(mac: Mac, secret: bytes, req: Request, t: Terminal): Answer {
    match t
    case PromptFails => Answer(Error, true)
    case Line(text) => Answer(ParseTerminalResponse(mac, text, req.id, secret), false)
    case Canceled => Answer(Timeout, true)
    case TimedOut => Answer(Timeout, false)
    case ReadFails => Answer(Error, true)
  }

  /** A line approves a request exactly when its first word is y or yes in any case and its second word is
      the request's own non-empty token; further words are ignored. */
  lemma ApprovingLine(mac: Mac, line: string, id: string, secret: bytes)
    ensures ParseTerminalResponse(mac, line, id, secret) == Approve <==>
            var fields := Fields(line);
            && |fields| >= 2 && (Verbs.Lower(fields[0]) == "y" || Verbs.Lower(fields[0]) == "yes")
            && id != "" && secret != [] && mac(secret, id) != "" && fields[1] == mac(secret, id)
    ensures ParseTerminalResponse(mac, line, id, secret) != Approve ==>
              ParseTerminalResponse(mac, line, id, secret) == Deny
  {
    hide Fields, Verbs.Lower;
  }

  // ---------- the line, character by character ----------

  /** The white space of Unicode. */
  predicate Blank(c: char) {
    || '\t' <= c <= '\r' || c == ' ' || c == '\U{85}' || c == '\U{A0}' || c == '\U{1680}'
    || '\U{2000}' <= c <= '\U{200A}' || c == '\U{2028}' || c == '\U{2029}' || c == '\U{202F}' || c == '\U{205F}'
    || c == '\U{3000}'
  }

  ghost predicate Blanks(s: string) {
    forall i :: 0 <= i < |s| ==> Blank(s[i])
  }

  ghost predicate Word(s: string) {
    s != "" && forall i :: 0 <= i < |s| ==> !Blank(s[i])
  }

  /** `s` is blanks, the word `a`, and `rest`, which does not go on with the word. */
  ghost predicate FirstWord(s: string, a: string, rest: string) {
    exists p :: Blanks(p) && s == p + a + rest && Word(a) && (rest != "" ==> Blank(rest[0]))
  }

  lemma BlankIsSpace(c: char)
    ensures Verbs.IsSpace(c) <==> Blank(c)
  {
  }

  lemma {:induction false} FieldsSkip(p: string, s: string)
    requires Blanks(p)
    ensures Fields(p + s) == Fields(s)
  {
    if p == "" {
      assert p + s == s;
    } else {
      BlankIsSpace(p[0]);
      hide Blank, Verbs.IsSpace;
      assert (p + s)[1..] == p[1..] + s;
      FieldsSkip(p[1..], s);
    }
  }

  lemma {:induction false} WordEndIs(s: string, n: nat)
    requires n <= |s| && (forall i :: 0 <= i < n ==> !Verbs.IsSpace(s[i])) && (n < |s| ==> Verbs.IsSpace(s[n]))
    ensures WordEnd(s) == n
  {
    hide Verbs.IsSpace;
    if n > 0 {
      WordEndIs(s[1..], n - 1);
    }
  }

  lemma FieldsTake(a: string, rest: string)
    requires Word(a) && (rest != "" ==> Blank(rest[0]))
    ensures Fields(a + rest) == [a] + Fields(rest)
  {
    var s := a + rest;
    forall i | 0 <= i < |s|
      ensures Verbs.IsSpace(s[i]) <==> Blank(s[i])
    {
      BlankIsSpace(s[i]);
    }
    hide Blank, Verbs.IsSpace;
    assert forall i :: 0 <= i < |a| ==> s[i] == a[i];
    assert rest != "" ==> s[|a|] == rest[0];
    assert Verbs.IsSpace(s[0]) <==> Blank(a[0]);
    WordEndIs(s, |a|);
    assert s[..|a|] == a && s[|a|..] == rest;
  }

  lemma {:induction false} FieldsGive(s: string) returns (a: string, rest: string)
    requires Fields(s) != []
    ensures FirstWord(s, a, rest) && Fields(s) == [a] + Fields(rest)
    decreases |s|
  {
    BlankIsSpace(s[0]);
    if Blank(s[0]) {
      a, rest := FieldsGive(s[1..]);
      var p :| Blanks(p) && s[1..] == p + a + rest && Word(a) && (rest != "" ==> Blank(rest[0]));
      assert s == ([s[0]] + p) + a + rest && Blanks([s[0]] + p);
    } else {
      var n := WordEnd(s);
      a, rest := s[..n], s[n..];
      forall i | 0 <= i < |s|
        ensures Verbs.IsSpace(s[i]) <==> Blank(s[i])
      {
        BlankIsSpace(s[i]);
      }
      hide Blank, Verbs.IsSpace;
      assert s == "" + a + rest && Blanks("");
    }
  }

  lemma FirstWordGives(s: string, a: string, rest: string)
    requires FirstWord(s, a, rest)
    ensures Fields(s) == [a] + Fields(rest)
  {
    hide Blank, Blanks, Word, Fields;
    var p :| Blanks(p) && s == p + a + rest && Word(a) && (rest != "" ==> Blank(rest[0]));
    assert s == p + (a + rest);
    FieldsSkip(p, a + rest);
    FieldsTake(a, rest);
  }

  /** y or yes, each letter in either case. */
  predicate SaysYes(verb: string) {
    || verb in {"y", "Y"}
    || verb in {"yes", "Yes", "yEs", "yeS", "YEs", "YeS", "yES", "YES"}
  }

  lemma YesSpelled(verb: string)
    ensures Verbs.Lower(verb) == "y" || Verbs.Lower(verb) == "yes" <==> SaysYes(verb)
  {
    var low := Verbs.Lower(verb);
    if |verb| == 1 {
      assert verb == [verb[0]] && low == [low[0]];
    } else if |verb| == 3 {
      assert verb == [verb[0], verb[1], verb[2]] && low == [low[0], low[1], low[2]];
    }
  }

  /** A line approves a request exactly when its first word says yes and its second is the MAC of the request's
      id under the secret, neither of which is missing; further words do not matter. */
  lemma ApprovalSpelled(mac: Mac, line: string, id: string, secret: bytes)
    ensures ParseTerminalResponse(mac, line, id, secret) == Approve <==>
            && id != "" && secret != [] && mac(secret, id) != ""
            && exists verb, more, rest ::
                 FirstWord(line, verb, more) && FirstWord(more, mac(secret, id), rest) && SaysYes(verb)
  {
    ApprovingLine(mac, line, id, secret);
    hide ParseTerminalResponse, FirstWord, SaysYes, Verbs.Lower;
    var fields, token := Fields(line), mac(secret, id);
    if |fields| >= 2 {
      var verb, more := FieldsGive(line);
      assert Fields(more) == fields[1..];
      var second, rest := FieldsGive(more);
      YesSpelled(verb);
    }
    forall verb, more, rest | FirstWord(line, verb, more) && FirstWord(more, token, rest) && SaysYes(verb)
      ensures |fields| >= 2 && fields[0] == verb && fields[1] == token
      ensures Verbs.Lower(verb) == "y" || Verbs.Lower(verb) == "yes"
    {
      FirstWordGives(line, verb, more);
      FirstWordGives(more, token, rest);
      YesSpelled(verb);
    }
  }

  ghost predicate InjectiveUnder(mac: Mac, secret: bytes) {
    forall a, b :: mac(secret, a) == mac(secret, b) ==> a == b
  }

  /** A line that carries the token of request `a` never approves another request `b`. */
  lemma TokensDoNotTransfer(mac: Mac, line: string, a: string, b: string, secret: bytes)
    requires InjectiveUnder(mac, secret) && a != b
    requires |Fields(line)| >= 2 && Fields(line)[1] == SignToken(mac, a, secret)
    ensures ParseTerminalResponse(mac, line, b, secret) == Deny
  {
    ApprovingLine(mac, line, b, secret);
    hide Fields, Verbs.Lower;
  }

  // ---------- the workflow ----------

  /** A channel and, for each request, what it will answer. */
  datatype Channel =
    | TerminalChannel(secret: bytes, script: Request -> Terminal)
    | OtherChannel(title: string, reply: Request -> Answer)
  {
    function Name(): string { if TerminalChannel? then "terminal" else title }
  }

  function Ask(mac: Mac, ch: Channel, req: Request): Answer {
    match ch
    case TerminalChannel(secret, script) => TerminalRequest(mac, secret, req, script(req))
    case OtherChannel(_, reply) => reply(req)
  }

  /** A transport failure counts as Error, whatever decision came with it. */
  function Collapsed(a: Answer): Decision {
    if a.failed then Error else a.decision
  }

  datatype Hook = Hook(req: Request, decision: Decision, channel: string)

  /** The channel whose answer ended the request, if any did: the first with a definitive error-free answer. */
  function Winner(mac: Mac, channels: seq<Channel>, req: Request): (w: Option<nat>)
    ensures w.Some? ==> w.value < |channels|
  {
    if channels == [] then None
    else if Collapsed(Ask(mac, channels[0], req)).IsDefinitive() then Some(0)
    else
      var later := Winner(mac, channels[1..], req);
      if later.None? then None else Some(1 + later.value)
  }

  class Workflow {
    const mac: Mac
    const channels: seq<Channel>
    const secret: bytes
    const hooked: bool
    /** Calls made of the audit hook, and requests made of the channels (by index), in order. */
    var hooks: seq<Hook>
    var asked: seq<(nat, Request)>

    constructor (mac: Mac, channels: seq<Channel>, secret: bytes, hooked: bool)
      ensures this.mac == mac && this.channels == channels && this.secret == secret && this.hooked == hooked
      ensures hooks == [] && asked == []
    {
      this.mac, this.channels, this.secret, this.hooked := mac, channels, secret, hooked;
      hooks, asked := [], [];
    }

    method FireHook(req: Request, d: Decision, channel: string)
      modifies this`hooks
      ensures hooks == old(hooks) + Fired(hooked, req, d, channel)
      ensures Fired(hooked, req, d, channel) == if hooked then [Hook(req, d, channel)] else []
    {
      if hooked {
        hooks := hooks + [Hook(req, d, channel)];
      }
    }

    /** Approve. The hook fires once, with the decision returned; the channels asked are those up to the
        winner, in order, each once, all with the same token. */
    method Approve(req: Request) returns (d: Decision)
      modifies this
      ensures var token := SignToken(mac, req.id, secret);
              var signed := req.(token := token);
              var winner := Winner(mac, channels, signed);
              if channels == [] then
                d == Error && asked == old(asked) && hooks == old(hooks) + Fired(hooked, req, d, "")
              else if token == "" then
                d == Error && asked == old(asked) && hooks == old(hooks) + Fired(hooked, signed, d, "")
              else
                var n := if winner.Some? then winner.value + 1 else |channels|;
                && asked == old(asked) + Asks(n, signed)
                && d == (if winner.Some? then Collapsed(Ask(mac, channels[winner.value], signed)) else Timeout)
                && hooks == old(hooks) + Fired(hooked, signed, d, channels[n - 1].Name())
      ensures var signed := req.(token := SignToken(mac, req.id, secret));
              channels != [] && signed.token != "" ==>
                |asked| >= |old(asked)| && OutcomeIs(mac, channels, signed, d, |asked| - |old(asked)|)
    {
      hide OutcomeIs, Ask, Collapsed, Winner, SignToken, Fired, Asks;
      if channels == [] {
        FireHook(req, Error, "");
        return Error;
      }
      var signed := req.(token := SignToken(mac, req.id, secret));
      if signed.token == "" {
        FireHook(signed, Error, "");
        return Error;
      }
      OutcomeSpelled(mac, channels, signed);
      NoAsks(signed);
      var lastChannel := "";
      WinnerShift(mac, channels, signed, 0);
      for i := 0 to |channels|
        invariant asked == old(asked) + Asks(i, signed) && hooks == old(hooks)
        invariant i > 0 ==> lastChannel == channels[i - 1].Name()
        invariant Winner(mac, channels, signed) == Shift(i, Winner(mac, channels[i..], signed))
      {
        WinnerShift(mac, channels, signed, i);
        OneMoreAsk(i, signed);
        asked := asked + [(i, signed)];
        var answer := Ask(mac, channels[i], signed);
        d := Collapsed(answer);
        lastChannel := channels[i].Name();
        if d.IsDefinitive() {
          FireHook(signed, d, lastChannel);
          return;
        }
      }
      FireHook(signed, Timeout, lastChannel);
      d := Timeout;
    }
  }

  function Fired(hooked: bool, req: Request, d: Decision, channel: string): seq<Hook> {
    if hooked then [Hook(req, d, channel)] else []
  }

  function Asks(n: nat, req: Request): (asks: seq<(nat, Request)>)
    ensures |asks| == n
  {
    if n == 0 then [] else Asks(n - 1, req) + [(n - 1, req)]
  }

  lemma NoAsks(req: Request)
    ensures Asks(0, req) == []
  {
  }

  lemma OneMoreAsk(n: nat, req: Request)
    ensures Asks(n + 1, req) == Asks(n, req) + [(n, req)]
  {
  }

  function Shift(i: nat, w: Option<nat>): Option<nat> {
    if w.None? then None else Some(i + w.value)
  }

  lemma WinnerShift(mac: Mac, channels: seq<Channel>, req: Request, i: nat)
    requires i <= |channels|
    ensures i == 0 ==> channels[i..] == channels && Shift(0, Winner(mac, channels, req)) == Winner(mac, channels, req)
    ensures i < |channels| ==>
              channels[i..][1..] == channels[i + 1..]
              && Winner(mac, channels[i..], req) ==
                 if Collapsed(Ask(mac, channels[i], req)).IsDefinitive() then Some(0)
                 else Shift(1, Winner(mac, channels[i + 1..], req))
    ensures i == |channels| ==> Winner(mac, channels[i..], req) == None
  {
    hide Ask, Collapsed;
    if i < |channels| {
      assert channels[i..][1..] == channels[i + 1..];
    }
  }

  /** An answer that ends a request: an approval or a denial without an error. */
  predicate Final(a: Answer) {
    a == Answer(Approve, false) || a == Answer(Deny, false)
  }

  ghost predicate FirstFinal(mac: Mac, channels: seq<Channel>, req: Request, i: nat) {
    && i < |channels| && Final(Ask(mac, channels[i], req))
    && forall j :: 0 <= j < i ==> !Final(Ask(mac, channels[j], req))
  }

  /** The outcome is the first final answer, and the channels up to it have been asked; or, when no channel
      gives one, it is Timeout and all have been asked. */
  ghost predicate OutcomeIs(mac: Mac, channels: seq<Channel>, req: Request, d: Decision, asked: nat) {
    || (asked > 0 && FirstFinal(mac, channels, req, asked - 1)
        && Ask(mac, channels[asked - 1], req) == Answer(d, false))
    || (d == Timeout && asked == |channels| && forall i :: 0 <= i < |channels| ==> !Final(Ask(mac, channels[i], req)))
  }

  /** The winner is the first channel with an approval or a denial free of error; there is none exactly when no
      channel gives one. */
  lemma {:induction false} WinnerIsFirst(mac: Mac, channels: seq<Channel>, req: Request)
    ensures var w := Winner(mac, channels, req);
            if w.None? then forall i :: 0 <= i < |channels| ==> !Final(Ask(mac, channels[i], req))
            else FirstFinal(mac, channels, req, w.value)
  {
    hide Ask;
    if channels != [] {
      WinnerIsFirst(mac, channels[1..], req);
      var w := Winner(mac, channels, req);
      assert forall j :: 0 < j < |channels| ==> channels[j] == channels[1..][j - 1];
    }
  }

  lemma OutcomeSpelled(mac: Mac, channels: seq<Channel>, req: Request)
    ensures var w := Winner(mac, channels, req);
            if w.None? then OutcomeIs(mac, channels, req, Timeout, |channels|)
            else OutcomeIs(mac, channels, req, Collapsed(Ask(mac, channels[w.value], req)), w.value + 1)
  {
    WinnerIsFirst(mac, channels, req);
    hide Ask, Winner;
  }

  /** Deny is the outcome exactly when some channel denies and none before it approved or denied; the same for
      Approve; and Timeout exactly when no channel does either. */
  lemma OutcomeMeans(mac: Mac, channels: seq<Channel>, req: Request, d: Decision, asked: nat)
    requires OutcomeIs(mac, channels, req, d, asked)
    ensures d == Deny <==> exists i: nat ::
              FirstFinal(mac, channels, req, i) && Ask(mac, channels[i], req) == Answer(Deny, false)
    ensures d == Approve <==> exists i: nat ::
              FirstFinal(mac, channels, req, i) && Ask(mac, channels[i], req) == Answer(Approve, false)
    ensures d == Timeout <==> forall i :: 0 <= i < |channels| ==> !Final(Ask(mac, channels[i], req))
    ensures d == Deny || d == Approve || d == Timeout
  {
    hide Ask;
    forall i: nat | FirstFinal(mac, channels, req, i)
      ensures d != Timeout && i == asked - 1
    {
    }
    if d != Timeout {
      assert FirstFinal(mac, channels, req, asked - 1);
    }
  }

  /** What the terminal answers, case by case: only a line is an answer to the question. */
  lemma TerminalSpelled(mac: Mac, secret: bytes, script: Request -> Terminal, req: Request)
    ensures var a, ch := Ask(mac, TerminalChannel(secret, script), req), TerminalChannel(secret, script);
            && ch.Name() == "terminal"
            && match script(req)
               case PromptFails => a == Answer(Error, true)
               case Line(text) => a == Answer(ParseTerminalResponse(mac, text, req.id, secret), false)
               case Canceled => a == Answer(Timeout, true)
               case TimedOut => a == Answer(Timeout, false)
               case ReadFails => a == Answer(Error, true)
  {
    hide ParseTerminalResponse;
  }

  /** With terminal channels that share the workflow's secret, an approval means that some operator line
      carried this request's own token; with an injective MAC, a line for another request cannot do it. */
  lemma ApprovalNeedsOwnToken(mac: Mac, channels: seq<Channel>, secret: bytes, req: Request)
    requires forall i :: 0 <= i < |channels| ==> channels[i].TerminalChannel? && channels[i].secret == secret
    requires var w := Winner(mac, channels, req); w.Some? && Collapsed(Ask(mac, channels[w.value], req)) == Approve
    ensures var t := channels[Winner(mac, channels, req).value].script(req);
            && t.Line? && |Fields(t.text)| >= 2 && Fields(t.text)[1] == SignToken(mac, req.id, secret)
            && forall other :: InjectiveUnder(mac, secret) && other != req.id ==>
                                 Fields(t.text)[1] != SignToken(mac, other, secret)
  {
    WinnerIsFirst(mac, channels, req);
    hide Fields, Winner;
    var w :| 0 <= w < |channels| && Winner(mac, channels, req) == Some(w);
    var t := channels[w].script(req);
    if t.Line? {
      ApprovingLine(mac, t.text, req.id, secret);
    }
  }
}
