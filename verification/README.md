# mcp-socd: a verified model

mcp-socd stands between an AI agent and the MCP server the agent uses. It reads framed JSON-RPC from the
agent, judges every `tools/call` against a catalog and a policy, forwards it or answers it itself, and
relays the server's frames back. This project models that path, the approval workflow and the audit
emitter, and proves what they keep on every input and in every interleaving.

`dafny verify dfyconfig.toml` checks the whole project.

## How the files fit together

| files | subject |
|---|---|
| `Basics` | options, results, byte strings, subsequences |
| `Framing`, `FramingRoundTrip`, `FramingGrammar`, `FramingSpelling`, `FrameIO` | the frame codec: its meaning as functions on bytes, round trips and truncation, an independent grammar for what is accepted and what each refusal is, the same in characters, and the reader and writer as classes over a cursor and a pipe |
| `Verbs`, `Policy`, `Engine`, `EngineRuns` | the destructive-verb scan; configuration, compilation and the in-place sort; the engine and what its answers mean; evaluation under concurrent policy swaps |
| `Catalog`, `Intercept` | the action catalog and its loads; one `tools/call` from parameters to verdict |
| `Pumps`, `ProxyRuns`, `ProxySafety`, `ProxyTheorems`, `ProxyTrail`, `ProxyEndings`, `ProxyProgress` | each pump run by itself; both pumps, the stdout mutex, the `finished` channel, policy swaps and failing writes as one step machine; its invariants; the end-to-end results; the audit trail against the child's stream; how pumps and Run end; the end of every schedule |
| `Approval`, `SlackRuns` | tokens, the terminal channel and the workflow; the Slack channel's register, dispatch and deregister protocol |
| `Audit`, `AuditRuns`, `AuditPass` | the sinks, the fan-out and the emitter run by one goroutine; any number of emitters and closers with the heartbeat; what each single Emit among them does |
| `Environ` | the environment overlay for the upstream process |

Code that changes state is a class or a method with loops, proved against a function of its inputs; the
lemmas are about those functions. Code that runs concurrently is a step machine: a `Next` function says what
one atomic step does, a run is any list of steps, and a main result holds after every run from the start.

## What stands for the outside

- JSON decoding and encoding, JSON-Schema validation, glob compilation and matching, and the MAC are
  arbitrary functions (`World`, `Globs`, `Mac`). The MAC is taken to be injective only where a contract
  says so (`InjectiveUnder`); a JSON text is taken to contain no raw line feed (`NoLineFeed`).
- An input stream is a finite byte string that ends. A pipe accepts some number of bytes and then breaks.
  A sink write is complete, complete but not synced, or torn; closing a sink may fail.
- A channel's answers, an operator's line, and which callbacks arrive and when, are parameters or steps.
- Bytes are integers below 256, Go's `int` is taken to be 64 bits wide (`MAX_INT`), and tool names and
  patterns are strings of characters.

## Where the code differs from its comments

The model follows the code.

- `ErrFrameTooLarge` and `ErrBadHeader` are documented as leaving the frame unconsumed
  (internal/proxy/jsonrpc.go:45-53); the header lines are consumed. `OversizedGrammar` says where the
  cursor then stands.
- The comment on `interceptCall` describes the target as the first non-empty scalar argument in a fixed
  order (internal/proxy/intercept.go:114-116); the code takes the action's declared primary argument only.
- `Compile` reports that `default_action` must be `allow|deny` (internal/policy/engine.go:215); it accepts
  `require_approval` as well.
- `IsDestructiveTool` is documented as seeing through Cyrillic look-alikes
  (internal/policy/destructive.go:55-62); normalisation does not fold them. `Evaluate` rejects such names
  before the gate.
- A second `Close` of a file sink is documented as an error (internal/audit/sink.go:178-180); it returns nil.
- "Every decision fires the AuditHook exactly once" holds when a hook is installed.
- The repository's README describes approved calls as forwarded; the proxy answers them with an error
  (internal/proxy/intercept.go:245-259).

## Properties that fail, and exactly when

- Slack's dispatch can send on a closed channel: `SlackRuns.LateClickPanics` is a run. With distinct request
  ids it happens exactly when the id of the click being sent is no longer in the pending map, which is exactly
  when its request has returned (`SlackRuns.SendPanicsWhenGone`). Over all runs, `SlackRuns.SendPanics` adds
  the one exception: a request whose entry was overwritten by another with the same id, whose channel nobody
  closes.
- A request can be denied by a callback nobody sent, read from a closed channel: `SlackRuns.SharedIdDenies` is
  a run with two requests of one id. `SlackRuns.ZeroCallbackWhen` says exactly when; with distinct ids it cannot
  happen (`SlackRuns.NoZeroCallback`).
- A failing load is not undone: `Catalog.FailedLoadKeepsFirst` is an input, `Catalog.LoadOutcome` says what
  stays, and a load is all or nothing exactly when the list is empty, its first action is refused, or all of
  it can be loaded (`Catalog.LoadIsAtomic`).
- The version in a denial need not be that of the deciding policy, because it is read again:
  `ProxyTheorems.OtherVersionReported` is a run, and `ProxyTheorems.VersionIsCurrent` gives the condition: no
  policy was installed since the decision; with rising versions the version is right exactly then.
- `appendOrSetEnv` loses an override on a list with two entries for its variable, because it rewrites the
  first and the last one counts: `Environ.DoubledVariableIsKept` is such a list, and `Environ.OneOverride`
  says that it fails on no others. `spawnUpstream` does not pass it one on Unix, where Go's `os.Environ`
  returns no key twice; there `Environ.OrderIrrelevant` applies.
- A frame cut inside its body is an error, not a clean end: `FramingRoundTrip.CutFrame` says when.

## Model

| member | source | states |
|---|---|---|
| FrameIO.Reader.ReadContentLength | internal/proxy/jsonrpc.go:175-211 | the header loop ends with the length, or the error, that the function on the remaining bytes gives, and has consumed exactly the header lines it looked at |
| FrameIO.Reader.ReadFrame | internal/proxy/jsonrpc.go:153-169 | one frame is returned and the cursor is after it, or the error is returned and the cursor is where the failure left it, for every input |
| FrameIO.Writer.WriteFrame | internal/proxy/jsonrpc.go:219-231 | on an unbroken pipe the sink gains exactly one whole frame; on a pipe that breaks, exactly the part of the frame it had room for |
| Framing.ParseConsumes | internal/proxy/proxy.go:239-248 | every frame read shortens the remaining input, so both pumps terminate on a finite input |
| FramingRoundTrip.AtoiItoa | internal/proxy/jsonrpc.go:196-223 | the decimal text written for a length is read back as that length |
| FramingRoundTrip.WrittenHeader | internal/proxy/jsonrpc.go:175-223 | a written header is read back as its length, with the cursor on the first body byte |
| FramingRoundTrip.WriteThenRead | internal/proxy/jsonrpc.go:153-231 | reading a written frame gives the body back, whatever its bytes, and stops exactly after it |
| FramingRoundTrip.OversizedIsRefused | internal/proxy/jsonrpc.go:158-160 | a written frame above the cap is refused with the cursor on its first body byte |
| FramingRoundTrip.StreamRoundTrip | internal/proxy/jsonrpc.go:153-231 | any list of bodies within the cap, written one after another, is read back exactly, followed by end of input |
| FramingRoundTrip.StreamThen | internal/proxy/jsonrpc.go:153-231 | written frames in front of any other input are read first, and then the input is read as if alone |
| FramingRoundTrip.UniqueDecoding | internal/proxy/jsonrpc.go:219-231 | two lists of bodies that give the same bytes are the same list |
| FramingRoundTrip.PrefixFree | internal/proxy/jsonrpc.go:219-231 | no frame is a proper prefix of another |
| FramingRoundTrip.CutHeader | internal/proxy/jsonrpc.go:178-182 | a written header cut anywhere before its end reads as end of input |
| FramingRoundTrip.CutFrame | internal/proxy/jsonrpc.go:162-167 | a frame cut short never reads as a frame, and counts as end of input exactly when no body byte is there |
| FramingRoundTrip.TruncatedStream | internal/proxy/proxy.go:239-248 | complete frames and then a cut one: exactly the complete ones are read, and the end is clean exactly when no body byte of the cut one is there |
| FramingGrammar.HeaderGrammar | internal/proxy/jsonrpc.go:175-211 | the header loop ends with length n exactly on a well-formed header whose last Content-Length is n |
| FramingGrammar.InForceIsLast | internal/proxy/jsonrpc.go:195-205 | the running value of the loop is the last length announced, and there is one exactly when some line announces one |
| FramingGrammar.HeaderErrors | internal/proxy/jsonrpc.go:175-211 | a failing header fails for end of input or a malformed line, never as too large or as a short body |
| FramingGrammar.ReadGrammar | internal/proxy/jsonrpc.go:153-169 | a frame is read exactly when the input is a well-formed header announcing a length within the cap, followed by that many bytes |
| FramingGrammar.OversizedGrammar | internal/proxy/jsonrpc.go:158-160 | a frame is refused as too large exactly when the last length announced exceeds the cap, and the cursor is then on the first body byte |
| FramingGrammar.ExtraHeaderIgnored | internal/proxy/jsonrpc.go:189-206 | inserting any other colon-bearing line anywhere in the header changes neither body nor remainder |
| FramingGrammar.ReadExtends | internal/proxy/jsonrpc.go:153-169 | a frame that is complete reads the same whatever arrives after it |
| FramingGrammar.BadLineStops | internal/proxy/jsonrpc.go:189-206 | the first header line without a colon, or whose length is no number or negative, ends the read with its own error and the cursor behind it; that is never an end of input |
| FramingGrammar.NoLengthStops | internal/proxy/jsonrpc.go:183-210 | a header whose lines name no length is refused at its blank line, and that is no end of input |
| FramingGrammar.UnendedHeader | internal/proxy/jsonrpc.go:178-182 | a header that stops inside a line is an end of input |
| FramingGrammar.BodyFails | internal/proxy/jsonrpc.go:158-167 | a length above the cap is refused; too few body bytes are an end of input only when there are none |
| FramingSpelling.HeaderIsText | internal/proxy/jsonrpc.go:219-223 | the header written is the text "Content-Length: ", the decimal length and two line ends; the cap of the reader is 1048576 bytes |
| FramingSpelling.AnySpellingIsRead | internal/proxy/jsonrpc.go:195 | a frame is read whatever mix of upper and lower case its Content-Length is written in |
| FramingSpelling.OtherNamesPassedOver | internal/proxy/jsonrpc.go:189-206 | a colon-bearing line is passed over exactly when what is before its first colon, trimmed, is not Content-Length in some mix of cases |
| FramingSpelling.SpaceIsTrimmed | internal/proxy/jsonrpc.go:194-196 | trimming takes away any number of white space characters of Unicode, given as their bytes, at both ends, and stops at the first other one |
| FramingSpelling.NumbersSpelled | internal/proxy/jsonrpc.go:196-203 | a value reads as a number exactly when it is an optional sign, zeros and the decimal digits of a 64-bit integer |
| Verbs.ContainsWordRunes | internal/policy/destructive.go:105-133 | the nested scan finds a verb exactly when it stands somewhere between boundaries, and so exactly when it is a word of the name |
| Verbs.ScanIsTokenSearch | internal/policy/destructive.go:105-145 | scanning every window with boundary tests is the same as splitting at separators and comparing words |
| Verbs.FirstDestructiveVerb | internal/policy/destructive.go:81-99 | for any normalisation and lowercasing of names, the verb returned is the first of the list that is a word of the folded name; none is returned exactly when there is none |
| Verbs.IsDestructiveTool | internal/policy/destructive.go:63-66 | true exactly when some listed verb is a word of the folded name |
| Verbs.SpellingIrrelevant | internal/policy/destructive.go:30-99 | changing ASCII case or swapping one separator for another changes no verb found |
| Verbs.SeparatorsSpelled | internal/policy/destructive.go:136-145 | the boundaries are the five ASCII separators and, beyond ASCII, exactly the white space of Unicode |
| Verbs.GateSpelled | internal/policy/destructive.go:20-99 | a printable name is destructive exactly when one of the seven verbs is spelled in it, each letter in either case, between two of the five separators or the ends of the name |
| Policy.ParseDecision | internal/policy/types.go:71-82 | exactly the three words are decisions, each its own |
| Policy.CompileRule | internal/policy/engine.go:248-292 | a rule compiles exactly when its action is a decision and its patterns compile; otherwise the first fault in field order is reported |
| Policy.Compile | internal/policy/engine.go:209-242 | a configuration compiles exactly when its default and all its rules do; the result is its rules stably sorted, with version 0; otherwise the first faulty rule is reported |
| Policy.SortBySpecificity | internal/policy/engine.go:297-307 | the in-place sort leaves the list sorted, with the rules of each specificity the same and in the same order |
| Policy.SwapKeepsBuckets | internal/policy/engine.go:302-305 | exchanging two neighbours of different specificity loses and reorders nothing within a specificity |
| Engine.Engine.constructor | internal/policy/engine.go:15-40 | a new engine holds the policy given, or deny-by-default |
| Engine.Engine.Update | internal/policy/engine.go:51-61 | the pointer holds the new policy, or deny-by-default for nil; it is never nil |
| Engine.Engine.Evaluate | internal/policy/engine.go:85-128 | the answer is that of the first matching compiled rule of the loaded policy, then of the gate, then the default; without a policy, deny |
| Engine.CheckAsciiPrintable | internal/policy/engine.go:137-147 | true exactly on non-empty names of printable ASCII without spaces |
| Engine.CompiledOrder | internal/policy/engine.go:193-242 | compiled rules are the exact rules and then the glob rules, each in file order |
| Engine.CompiledMeansDeclared | internal/policy/engine.go:85-307 | compile, sort and evaluate together answer what the unsorted configuration declares, for every call |
| Engine.FirstApplyingIsEarliest | internal/policy/engine.go:107-112 | the deciding rule of a group applies, and no earlier one of that group does; there is none exactly when no rule of the group applies |
| Engine.OrderBetweenGroupsIrrelevant | internal/policy/engine.go:297-307 | reordering rules while keeping the order within the exact and within the glob rules compiles to the same policy, versions aside, and changes no decision |
| Engine.VersionsDoNotDecide | internal/policy/engine.go:228-241 | a compiled policy given a version is still the compiled form of its configuration and decides the same; so is deny-by-default |
| Engine.AppendedRule | internal/policy/engine.go:209-242 | an appended rule decides exactly the printable calls it applies to that no earlier-ranked rule matched; every other decision stays |
| Engine.DestructiveNeedsRule | internal/policy/engine.go:114-127 | whatever the default and the catch-all hold, a destructive name is allowed only by an explicit matching allow rule |
| Engine.CompiledNeverUnset | internal/policy/engine.go:209-242 | a compiled policy never answers Unset |
| Engine.StartupPosture | internal/policy/engine.go:21-40 | before configuration nothing is allowed, and approval is asked for exactly on destructive names; the policy then in force has version 0 and no rules |
| Engine.RuleSpelled | internal/policy/engine.go:158-185 | a rule, and its compiled form, matches exactly when its tool is the call's, or is a pattern with one of the four glob characters that matches it, and it lists no targets or some one of them matches a target that is given |
| Engine.DecisionSpelled | internal/policy/engine.go:85-242 | compiling, sorting and evaluating a configuration decide the action its first exact rule about the call says, else its first glob rule, else approval for a name with a verb spelled in it, else the default; a name that is not printable ASCII is denied |
| Engine.SomethingPrescribed | internal/policy/engine.go:85-128 | every configuration prescribes an action for every call |
| EngineRuns.AnswersAreSnapshots | internal/policy/engine.go:42-128 | in every run with concurrent swaps, every answer is the decision of one policy that was current at an instant within the call |
| EngineRuns.AnswersAreDeclared | internal/policy/engine.go:42-128 | in every run with compiled policies of any versions, every answer is what one configuration declares whose policy was current within the call |
| EngineRuns.DestructiveGateHolds | internal/policy/engine.go:42-128 | in every run, a destructive name is allowed only by an explicit allow rule of a policy current during the call |
| EngineRuns.RunKeepsInv | internal/policy/engine.go:85-112 | in every run the scan of each call stays within the snapshot it loaded |
| EngineRuns.AnswerIsRecent | internal/policy/engine.go:42-128 | in every run a call is answered by the policy current when it started or by one installed since, as the list of updates made says, and never by an older one |
| EngineRuns.CallsFinish | internal/policy/engine.go:85-128 | from every reachable state a new call can be made and answered by its own steps alone, with the decision of the policy current when it loads the pointer |
| Catalog.ValidateAction | internal/catalog/types.go:164-204 | an action is accepted exactly when it meets the catalog contract, including that a declared primary argument is one of its parameters |
| Catalog.Catalog.constructor | internal/catalog/loader.go:30-36 | a new catalog holds exactly the starter actions, each under its own name, the last one where a name repeats |
| Catalog.Catalog.AddValidated | internal/catalog/loader.go:262-271 | a taken name or an invalid action is refused and changes nothing; otherwise exactly that entry is added |
| Catalog.Catalog.Load | internal/catalog/loader.go:108-119 | the loop leaves the catalog and the error that adding the actions one by one gives, stopping at the first refusal |
| Catalog.Catalog.Remove | internal/catalog/loader.go:275-281 | exactly the named entry is removed, or an unknown name is reported |
| Catalog.LoadKeepsCatalog | internal/catalog/loader.go:87-119 | a load, complete or not, keeps every entry valid and under its own name, and alters no entry it found |
| Catalog.LoadOutcome | internal/catalog/loader.go:108-119 | a load adds exactly the longest prefix of the list that could be added, each action under its own name, and succeeds exactly when that is all of it |
| Catalog.LoadIsAtomic | internal/catalog/loader.go:108-119 | a load is all or nothing exactly when the list is empty, its first action is refused, or all of it can be loaded |
| Catalog.FailedLoadKeepsFirst | internal/catalog/loader.go:113-117 | loading a new action and then one that exists reports an error and keeps the new one |
| Intercept.InterceptCall | internal/proxy/intercept.go:131-273 | every call causes exactly one event, on every path, and is forwarded exactly when it passes inspection and policy allows it; otherwise it is answered under its own id, by a denial with code -32000, the reason, the tool, the target and the policy's version |
| Intercept.ForwardedCalls | internal/proxy/intercept.go:137-232 | a call is forwarded exactly when its parameters decode, its tool is catalogued with a schema that accepts the arguments, and policy allows it for its target |
| Intercept.OnlyTargetMatters | internal/proxy/intercept.go:216-232 | two schema-valid calls of one tool with the same extracted target get the same verdict, whatever their other arguments |
| Intercept.TargetedRuleNeedsPrimaryArg | internal/proxy/intercept.go:309-322 | a rule that names targets applies only when the declared primary argument is a non-empty string that one of them matches |
| Intercept.ForwardedTargetIsListed | internal/proxy/intercept.go:205-232 | when allow rules name targets and the default cannot allow, every forwarded call carries a primary argument that a target of an allow rule matches |
| Intercept.TargetedRuleApplies | internal/proxy/intercept.go:309-322 | a rule that names targets applies exactly when it is about the tool and the declared primary argument is a non-empty string that some one of its targets matches |
| Intercept.InspectSpelled | internal/proxy/intercept.go:137-216 | each reason to refuse a call before policy, with its event, its code and the request's own id; otherwise the call is judged with the string its arguments hold under the declared primary argument, or none |
| Intercept.DenialSpelled | internal/proxy/intercept.go:234-272 | a denial answers under the request's id with code -32000, the reason for the decision, the call's tool and target, and the version given |
| Pumps.Proxy.PumpAgentToChild | internal/proxy/proxy.go:237-288 | run to the end, the pump has sent to the child, sent to the agent and recorded exactly what the frames of its input call for, and ends cleanly exactly on end of input; on a write error, everything up to a proper prefix of the frame being written |
| Pumps.Proxy.PumpChildToAgent | internal/proxy/proxy.go:298-315 | every child frame is relayed unchanged and in order; on a write error, everything up to a proper prefix of one frame |
| Pumps.PumpOnTruncatedInput | internal/proxy/proxy.go:239-248 | complete frames and then a cut one call for the same effects as the complete ones alone, and read to a clean end exactly when no body byte of the cut one is there |
| ProxySafety.AgentStreamStep | internal/proxy/proxy.go:320-324 | every step keeps stdout at whole frames plus the written part of one, for as long as no write to it failed |
| ProxySafety.MutexStep | internal/proxy/proxy.go:320-324 | every step keeps the mutex with the one pump that is writing to stdout, whose frame is the last begun |
| ProxySafety.TimeStep | internal/proxy/intercept.go:218-241 | every step keeps frames handled one after the other, each judged by a policy current between its reading and its handling |
| ProxySafety.StepKeepsInv | internal/proxy/proxy.go:153-324 | every step of either pump, of Run, of a failing write and of a policy swap keeps the whole invariant |
| ProxySafety.RunKeepsInv | internal/proxy/proxy.go:153-324 | every run keeps it |
| ProxyTheorems.ChildSeesFilteredStream | internal/proxy/proxy.go:237-288 | in every reachable state, reading back the child's stdin gives, in order and byte for byte, the agent's frames that are not tools/call or were allowed by a policy current while the frame was in hand, at most the last one missing; none is missing once the agent's input has ended |
| ProxyTheorems.ForwardedMeansAllowed | internal/proxy/proxy.go:274-280 | in every run a forwarded tools/call passed inspection and was allowed by a policy that was current between the reading of its frame and its handling |
| ProxyTheorems.ForwardedMeansDeclared | internal/proxy/proxy.go:274-280 | when the installed policies are compiled, of any versions, a forwarded tools/call is declared allowed by a configuration whose policy was current while its frame was in hand |
| ProxyTheorems.NoOlderPolicy | internal/proxy/intercept.go:218-222 | in every run, of two frames judged by policy the later one was judged by the same policy or a newer one |
| ProxyTheorems.SwapTakesEffect | internal/policy/engine.go:42-61 | in every run, once a policy is current no frame read from then on is judged by an older one |
| ProxyTheorems.ChildCallsAreRecorded | internal/proxy/intercept.go:216-232 | in every reachable state, each tools/call the child can read passed inspection, has an allow event with its tool and target in the trail, and was allowed by an installed policy |
| ProxyTrail.ChildCallsMatchAllows | internal/proxy/intercept.go:216-232 | in every reachable state the tools/call frames the child can read are matched, in order and one to one, by the first allow events of the trail, each with the call's tool and target; at most one allow event has its frame still on the way |
| ProxyTrail.TrailAllows | internal/proxy/intercept.go:224-232 | in every reachable state the allow events of the trail are exactly those of the frames handled |
| ProxyTheorems.ChildCallsHitListedTargets | internal/proxy/intercept.go:205-232 | when every installed policy, of whatever version, is compiled from a configuration that names targets in all allow rules and does not allow by default, each tools/call the child can read carries a declared primary argument that a listed target matches |
| ProxyTheorems.TruncatedAgentInput | internal/proxy/proxy.go:239-248 | on complete frames and then a cut one, the agent pump that met the end has handled exactly the complete frames, forwarded no part of the cut one, and reports a clean end exactly when no body byte of it was there |
| ProxyTheorems.StdoutIsWholeFrames | internal/proxy/proxy.go:320-324 | in every reachable state without a failed stdout write, the bytes on stdout are exactly whole frames while the mutex is free, and otherwise lack only the end of the frame its holder is writing |
| ProxyTheorems.FramesNeverInterleave | internal/proxy/proxy.go:298-324 | reading that stream back gives whole frames plus at most one partial frame, owned by the pump that holds the mutex |
| ProxyTheorems.DeliveryIsMerge | internal/proxy/proxy.go:298-324 | the agent gets the child's frames in their order and the synthetic answers in theirs, at most one answer waiting, and nothing else; all child frames once the child's output has ended |
| ProxyTheorems.OneVerdictOneRecord | internal/proxy/intercept.go:131-273 | in every reachable state the trail has exactly one event for each tools/call handled, in order, and at most one more; each call is forwarded or answered as its event says |
| ProxyTheorems.RecordsComeFirst | internal/proxy/intercept.go:224-273 | in every reachable state the trail holds the records of all handled frames in order and at most one more; the bytes on the child's stdin and the answers begun on stdout are of handled frames only, so no byte of an effect precedes its record |
| ProxyTheorems.ReportedVersion | internal/proxy/intercept.go:234-259 | in every run a denial answers the call in its frame under that call's id, with code -32000, the reason for the decision, its tool and target, and the version of the policy current when it was built; it was decided by a policy current while the frame was in hand; with versions that never go down, that version is at least the deciding one |
| ProxyTheorems.VersionIsCurrent | internal/proxy/intercept.go:218-241 | a denial reports the policy that decided exactly when none was installed since; with rising versions, exactly then it reports the right version |
| ProxyTheorems.OtherVersionReported | internal/proxy/intercept.go:218-241 | a run in which the version reported is that of a policy that did not decide |
| ProxyTheorems.SamePolicySameEffects | internal/proxy/proxy.go:237-288 | in every reachable state without a policy swap in which the agent's input has ended, the child's stream, the answers delivered and the trail are what the pump run by itself gives for that input |
| ProxyTheorems.ReportsNeverBlock | internal/proxy/proxy.go:167-192 | the channel of capacity 2 has room whenever a pump reports its end |
| ProxyTheorems.PumpsCanProceed | internal/proxy/proxy.go:237-324 | no deadlock: while a pump runs, it or the holder of the mutex can take a step |
| ProxyEndings.FailureEndsThePump | internal/proxy/proxy.go:237-315 | in every run a pump leaves its loop, and reports an error, for a failed write exactly when a write of its own failed |
| ProxyEndings.AgentWrites | internal/proxy/proxy.go:262-324 | the agent pump's next write puts the whole chunk on its stream, or fails after any number of its bytes with exactly these on it |
| ProxyEndings.ChildWrites | internal/proxy/proxy.go:298-324 | the same for the child pump's next write to stdout |
| ProxyEndings.FirstReportCounts | internal/proxy/proxy.go:167-192 | in every run Run takes the report of the pump that returned first, and as soon as one has returned it can |
| ProxyEndings.TrailIsBracketed | internal/proxy/proxy.go:153-192 | in every run the trail begins with the one startup event, and has a shutdown event exactly when Run has a report, one, clean exactly when the report is |
| ProxyProgress.StepIsProgress | internal/proxy/proxy.go:153-324 | every step but a policy swap uses up one of the steps left |
| ProxyProgress.EveryScheduleEnds | internal/proxy/proxy.go:153-324 | whatever the order of steps and swaps, at most ten steps per input byte and five more are possible; when neither pump can step, both have returned |
| ProxyProgress.FrameBehindCutAnswer | internal/proxy/proxy.go:298-324 | a run in which a failed write of an answer is followed on stdout by a whole child frame |
| Approval.ApprovingLine | internal/approval/terminal.go:224-247 | a line approves exactly when its first word is y or yes in any case and its second word is the request's own non-empty token; every other line denies |
| Approval.ApprovalSpelled | internal/approval/terminal.go:224-247 | a line approves exactly when, after any white space, it begins with the word y or yes in any mix of cases, then white space and the MAC of the request's id under the secret as a word of its own; with an empty id, secret or MAC no line does |
| Approval.TerminalSpelled | internal/approval/terminal.go:135-154 | a line is an answer without error; a failed prompt or read is an error, a cancellation a timeout with an error, an expiry a timeout without |
| Approval.TokensDoNotTransfer | internal/approval/hmac.go:61-91 | with an injective MAC, a line that carries one request's token never approves another request |
| Approval.Workflow.Approve | internal/approval/workflow.go:188-255 | exactly the channels up to the first that approves or denies without error are asked, once each, in order and with the same token; that channel's decision is returned, or Timeout, after all were asked, when there is none; the hook fires once, with the decision returned |
| Approval.WinnerIsFirst | internal/approval/workflow.go:231-246 | the winner is the first channel that answers Approve or Deny without error; there is none exactly when no channel does |
| Approval.OutcomeMeans | internal/approval/workflow.go:231-254 | the outcome is Deny exactly when some channel denies without error and none before it approved or denied without error; the same for Approve; it is Timeout exactly when no channel does either; nothing else comes out |
| Approval.ApprovalNeedsOwnToken | internal/approval/terminal.go:224-247 | with terminal channels that share the secret, an approval means an operator line carried this request's own token, and, with an injective MAC, that of no other request |
| Approval.Workflow.FireHook | internal/approval/workflow.go:259-264 | an installed hook is called once with what it is given; otherwise nothing happens |
| SlackRuns.StepKeepsInv | internal/approval/slack.go:248-388 | every registration, click, send, receive, expiry and deregistration keeps the pending map, the socket loop and every request consistent |
| SlackRuns.ApprovedByOwnClick | internal/approval/slack.go:248-266 | in every run a request is approved only by a click whose first block carried its own id, on the approve button, that was dispatched to it while it was registered, and was the first sent to its channel; its token was the MAC of its id |
| SlackRuns.InteractionSpelled | internal/approval/slack.go:486-533 | a click approves exactly when the approve button was pressed and the request's token is the MAC of its id; the top-level action counts only when the block action names none |
| SlackRuns.ClickDecides | internal/approval/slack.go:248-388 | in every run, a click for a registered request that has received nothing, looked up while the loop is idle, sent and received, decides it: Approve exactly for the approve button and the right token, Deny otherwise; no other request changes |
| SlackRuns.LoopGoesOn | internal/approval/slack.go:316-379 | the socket loop never waits: a click for no registered request changes nothing, one for a full channel is dropped, and a send panics exactly on a closed channel |
| SlackRuns.RequestsGoOn | internal/approval/slack.go:248-388 | a request can always be registered, time out, and return its decision; returning takes its entry out of the map and closes the channel under it |
| SlackRuns.HowARequestEnds | internal/approval/slack.go:254-265 | in every run a request times out without a callback, denies on the zero callback of a closed channel, and otherwise is decided by the first callback sent to its channel |
| SlackRuns.NoZeroCallback | internal/approval/slack.go:248-258 | with distinct request ids no request receives the zero callback; one that received anything was decided by the first callback sent to it |
| SlackRuns.ZeroCallbackWhen | internal/approval/slack.go:254-388 | over all runs, a waiting request nobody has sent to receives exactly when its entry is gone without having been overwritten, and then it gets the zero callback and denies |
| SlackRuns.SharedIdDenies | internal/approval/slack.go:248-388 | a run with two requests of one id in which the second is denied by a callback nobody sent |
| SlackRuns.ClosedOnce | internal/approval/slack.go:381-388 | a channel about to be closed by a deregistration is open: no channel is closed twice |
| SlackRuns.SendPanics | internal/approval/slack.go:365-388 | in every run the dispatch panics exactly when the request it looked up is no longer registered and was not overwritten by another with its id |
| SlackRuns.SendPanicsWhenGone | internal/approval/slack.go:365-388 | with distinct request ids it panics exactly when the id is no longer in the pending map, which is exactly when the request has returned |
| SlackRuns.LateClickPanics | internal/approval/slack.go:365-388 | a run in which a click looked up just before its request expires is sent on the closed channel |
| SlackRuns.NoSecretNoApproval | internal/approval/slack.go:174-180 | without a secret, as the channel is constructed, no request is ever approved |
| Audit.Sink.Write | internal/audit/sink.go:163-176 | an open sink gains the record, or the part a torn write let through; success is reported exactly when it is written and, for a file, synced; a closed one refuses and changes nothing |
| Audit.Sink.Close | internal/audit/sink.go:181-191 | a file sink is closed by the first call even if that fails; later calls do nothing and report nothing; content stays |
| Audit.MultiSink.Write | internal/audit/sink.go:227-239 | exactly the sinks before the first that would fail acknowledge and have the record, that one has what its write let through, later ones are untouched; success exactly when none fails; a closed fan-out touches nothing |
| Audit.MultiSink.Close | internal/audit/sink.go:244-258 | every sink is closed even after a failure; an error is reported exactly when some open file sink failed to close |
| Audit.Emitter.Emit | internal/audit/emitter.go:126-151 | one line is fanned out to the sinks in order up to the first that would fail; success is reported exactly when the last one acknowledged it; the log chain is kept either way |
| Audit.Emitter.Close | internal/audit/emitter.go:198-217 | file sinks are closed and logs stay, with an error exactly when an open file sink failed to close; a second call does nothing |
| Audit.FanoutKeepsChain | internal/audit/sink.go:227-239 | a record acknowledged by the first n sinks keeps every log a subsequence of the log before it |
| Audit.SinkReadsBack | internal/audit/emitter.go:140-149 | a sink no write was torn on splits at line feeds into exactly its records in order, those it acknowledged among them in order |
| AuditRuns.StepKeepsInv | internal/audit/emitter.go:126-239 | every step of any emitter, closer or the heartbeat keeps locks, shutdown order and logs consistent |
| AuditRuns.NoWriteOnceClosed | internal/audit/emitter.go:198-217 | in every run, once Close has set its flag no sink is written to again, neither log nor bytes, and so none after the fan-out begins to close |
| AuditRuns.ShutdownOrder | internal/audit/emitter.go:198-239 | in every reachable state sinks are closed only after the heartbeat has exited, in order, at most once each, by one closer, all of them when it returns; the stop channel is closed at most once |
| AuditRuns.LogsFormAChain | internal/audit/sink.go:227-239 | in every reachable state the logs are those of a sequential emitter making the same passes, and each is a subsequence of the one before it |
| AuditRuns.SinksReadBack | internal/audit/emitter.go:126-151 | in every reachable state, with any number of goroutines emitting, a sink no write was torn on splits at line feeds into exactly its records in order, those it acknowledged among them in order |
| AuditRuns.EmitOutcome | internal/audit/emitter.go:126-151 | in every run a finished Emit reports success exactly when the last sink acknowledged its record, and then every sink has it |
| AuditPass.HolderIsAlone | internal/audit/emitter.go:126-151 | while a goroutine holds the emitter's mutex no other one touches logs, disks or the closed flag |
| AuditPass.EmitIsAtomic | internal/audit/emitter.go:126-151 | in every run, a call of Emit that returns has, from taking the mutex to giving it back, exactly the effect of one pass over the sinks as it found them with the text and one line feed, and reports it: nothing on a closed emitter or a failed marshal, otherwise each sink in order up to the first that does not acknowledge, success exactly when all do |
| AuditPass.EveryPassHappens | internal/audit/emitter.go:126-151 | whatever json.Marshal and the sinks will do, a goroutine that has the mutex can finish by its own moves; it succeeds exactly when the emitter is open, the event marshals and every write is acknowledged, and then the record is at the end of every log and every sink |
| AuditPass.EmitReturns | internal/audit/emitter.go:126-151 | from every reachable state a goroutine can call Emit, and moves already under way bring it back with the record of its text |
| AuditPass.CloseReturns | internal/audit/emitter.go:198-217 | from every reachable state a goroutine can call Close, and moves already under way bring it back with the emitter closed, and every sink when it was the effective closer |
| AuditRuns.MultiMutexIsFree | internal/audit/sink.go:227-248 | the fan-out's own mutex is never contended |
| AuditRuns.NeverStuck | internal/audit/emitter.go:198-239 | from every reachable state any goroutine in Emit or Close can be brought out by moves already under way; Close never waits for a heartbeat that waits for Close |
| Environ.PrefixIsKey | internal/proxy/transport.go:125-131 | for a key without '=', the prefix comparison finds exactly the entries that bind it |
| Environ.Command.AppendOrSetEnv | internal/proxy/transport.go:125-134 | the loop rewrites the first entry that begins with the key and '=', or appends one, and touches nothing else |
| Environ.Command.Overlay | internal/proxy/transport.go:51-54 | every override is applied exactly once, in some order |
| Environ.OneOverride | internal/proxy/transport.go:125-134 | an override takes effect exactly when its variable has at most one entry; no other variable changes |
| Environ.DoubledVariableIsKept | internal/proxy/transport.go:125-134 | a list with two entries for one variable on which an override is lost |
| Environ.SameDoubles | internal/proxy/transport.go:125-134 | an override gives no variable a second entry, and changes only an entry of its own key |
| Environ.OverlayIsUpdate | internal/proxy/transport.go:51-54 | in any order of overrides the variables are the inherited ones updated by the overrides that take effect |
| Environ.OverlayKeepsEntries | internal/proxy/transport.go:51-54 | in any order of overrides no variable gets a second entry, and entries of other keys stay as and where they are |
| Environ.OrderIrrelevant | internal/proxy/transport.go:51-54 | on an environment with distinct keys the overlay is the plain update, in any order of overrides, and keys stay distinct |

## Left out

- Processes, pipes, signals and the command line: spawning and stopping the upstream, and YAML and path handling, are operating-system work with no rule of their own.
- Slack's Web API, the socket connection, message texts and the approver cache: calls into a service.
- `internal/backend` and the Falcon client: wrappers around a service, not part of this model.
- The inside of glob matching, JSON, JSON Schema, Unicode normalisation and HMAC: not in the repository.
- `EventBuilder`, verdict texts, `Posture.Classify`, `Config.Validate`, the action registry and the error texts of events and answers: single-branch facts.
- Approval leading to forwarding: the proxy does not call the workflow, so the two are modelled apart.
- Read errors other than end of input: a stream here ends, it does not fail.
- The sum of Run's results: Run returning nil on a clean end, and the answers still due when the child is cancelled, depend on the child process.
- Deadlines and timers: a timeout, a tick and an expiry may happen at any step; that `Approve` accepts an answer after its deadline follows the code.
- `NewWorkflow` and secret loading: the workflow is built with the channels and the secret it ends up with.
- Catalog changes while the proxy runs: `World.actions` is fixed during a run; a custom action's `primary_arg` is not decoded by the program and so is empty.
- Sharing of the stderr and stdout sinks between emitters, and their use by the agent's stream under `--audit-stdout`.
- Engine.Engine.Evaluate: folds names by lowercasing ASCII letters, which is what normalising and lowercasing does to the printable ASCII names that reach the gate.
- Approval.ApprovingLine: lowercases ASCII only; no other character lowers to a letter of "yes".
- FramingGrammar.ReadGrammar: the announced length is compared with a cap that is a parameter, 1 MiB in the reader itself.
- ProxyTheorems.FramesNeverInterleave: reads the stream with a cap that covers every frame in it, because synthetic answers are not held to the 1 MiB cap.
- ProxyTheorems.StdoutIsWholeFrames: holds while no write to stdout has failed; `ProxyProgress.FrameBehindCutAnswer` is a run in which the other pump writes behind a partial frame.
- Pumps.PumpOnTruncatedInput: about the input and its effects; for the pump in every run it is `ProxyTheorems.TruncatedAgentInput`.
- AuditRuns.SinksReadBack: treats every sink as one that syncs; a stdio sink is one whose writes are never unsynced.
- Pumps.Proxy.PumpAgentToChild: runs alone, with one policy throughout; other policies and interleavings are the subject of the proxy machine.
- Environ.OverlayIsUpdate: override keys contain no '='; a key with one would name a different variable than its entry defines.
- Audit.Emitter.Close: has no heartbeat to wait for; the heartbeat is part of the concurrent machine.
- AuditRuns.NeverStuck: shows that a way out always exists, not that every scheduler takes it.
