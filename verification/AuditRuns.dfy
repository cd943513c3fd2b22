/**
 The audit emitter under concurrency: any number of goroutines emitting and closing, and the heartbeat.
 One step is one mutex operation, one check, one channel operation, one sink write or one sink close.
 */
module AuditRuns {
  import opened Basics
  import opened Audit

  datatype Thread = Heartbeat | Goroutine(id: nat)

  /** Where a goroutine stands: in Emit (and multiSink.Write under it), in Close (and multiSink.Close under
      it), or outside both. The heartbeat stands at its select when it is outside. */
  datatype Pc =
    | Idle
    | EmitLock(record: bytes)
    | EmitCheck(record: bytes)
    | FanLock(record: bytes)
    | Writing(record: bytes, i: nat)
    | EmitUnlock(record: bytes, ok: bool, attempt: Option<nat>)
    | Emitted(record: bytes, ok: bool, attempt: Option<nat>)
    | CloseLock
    | CloseCheck
    | CloseStop
    | CloseWait
    | MultiLock
    | MultiMark
    | Closing(i: nat)
    | CloseReturned
    | Exited

  predicate Outside(pc: Pc) {
    pc.Idle? || pc.Emitted? || pc.CloseReturned?
  }

  predicate InEmit(pc: Pc) {
    pc.EmitLock? || pc.EmitCheck? || pc.FanLock? || pc.Writing? || pc.EmitUnlock?
  }

  /** One pass over the sinks: how many acknowledged the record so far, and whether it goes on. */
  datatype Attempt = Attempt(record: bytes, acked: nat, running: bool)

  /** A destination: its bytes, and, as history, the records written completely and whether a write was torn. */
  datatype Disk = Disk(content: bytes, records: seq<bytes>, torn: bool)

  function Gains(d: Disk, r: bytes, fate: Fate): Disk {
    Disk(d.content + Landed(r, fate), if fate.Torn? then d.records else d.records + [r], d.torn || fate.Torn?)
  }

  /** The fields of the emitter and of its multi sink, and what the sinks write to. The last four are history:
      who set `closed`, what each sink acknowledged, which sinks were closed, and every pass in the order they
      began. */
  datatype Shared = Shared(
    sinks: nat,
    heartbeat: bool,
    mu: Option<Thread>,
    closed: bool,
    stopClosed: bool,
    doneClosed: bool,
    multiMu: Option<Thread>,
    multiClosed: bool,
    disks: seq<Disk>,
    winner: Option<Thread>,
    logs: seq<seq<bytes>>,
    closes: seq<nat>,
    attempts: seq<Attempt>)

  datatype State = State(pcs: map<Thread, Pc>, g: Shared)

  function PcOf(s: State, t: Thread): Pc {
    if t in s.pcs then s.pcs[t] else Idle
  }

  function Initial(sinks: nat, heartbeat: bool): State {
    State(if heartbeat then map[] else map[Heartbeat := Exited],
          Shared(sinks, heartbeat, None, false, false, false, None, false,
                 seq(sinks, _ => Disk([], [], false)), None, seq(sinks, _ => []), [], []))
  }

  /** `ok` is the outcome of json.Marshal, and `fate` that of the sink write, when the step performs one; a write
      that is not acknowledged counts as failed, whatever reached the sink. A text holds no line feed. */
  datatype Move =
    | CallEmit(text: bytes)
    | CallClose
    | SeeStop
    | Proceed(ok: bool, fate: Fate)

  type Outcome = Option<(Pc, Shared)>

  function EmitStep(g: Shared, t: Thread, pc: Pc, ok: bool, fate: Fate): Outcome {
    match pc
    case EmitLock(r) => if g.mu.None? then Some((EmitCheck(r), g.(mu := Some(t)))) else None
    case EmitCheck(r) => Some((if g.closed || !ok then EmitUnlock(r, false, None) else FanLock(r), g))
    case FanLock(r) =>
      if g.multiMu.Some? then None
      else if g.multiClosed then Some((EmitUnlock(r, false, None), g))
      else Some((Writing(r, 0), g.(multiMu := Some(t), attempts := g.attempts + [Attempt(r, 0, true)])))
    case Writing(r, i) =>
      if g.attempts == [] || |g.logs| <= i || |g.disks| <= i then None else Some(WriteStep(g, r, i, fate))
    case EmitUnlock(r, done, a) => Some((Emitted(r, done, a), g.(mu := None)))
    case _ => None
  }

  /** The write to sink `i`; after the last sink, or a failure, multiSink.Write returns. */
  function WriteStep(g: Shared, r: bytes, i: nat, fate: Fate): (Pc, Shared)
    requires g.attempts != [] && i < |g.logs| && i < |g.disks|
  {
    var n := |g.attempts| - 1;
    var ok := fate.Written?;
    var acked := if ok then i + 1 else i;
    var ends := !ok || i + 1 == g.sinks;
    (if ends then EmitUnlock(r, ok, Some(n)) else Writing(r, i + 1),
     g.(multiMu := if ends then None else g.multiMu,
        logs := if ok then g.logs[i := g.logs[i] + [r]] else g.logs,
        disks := g.disks[i := Gains(g.disks[i], r, fate)],
        attempts := g.attempts[n := Attempt(r, acked, !ends)]))
  }

  function CloseStep(g: Shared, t: Thread, pc: Pc): Outcome {
    match pc
    case CloseLock => if g.mu.None? then Some((CloseCheck, g.(mu := Some(t)))) else None
    case CloseCheck =>
      if g.closed then Some((CloseReturned, g.(mu := None)))
      else Some((if g.heartbeat then CloseStop else MultiLock, g.(mu := None, closed := true, winner := Some(t))))
    case CloseStop => Some((CloseWait, g.(stopClosed := true)))
    case CloseWait => if g.doneClosed then Some((MultiLock, g)) else None
    case MultiLock => if g.multiMu.None? then Some((MultiMark, g.(multiMu := Some(t)))) else None
    case MultiMark => Some((Closing(0), g.(multiMu := None, multiClosed := true)))
    case Closing(i) => Some((if i + 1 < g.sinks then Closing(i + 1) else CloseReturned, g.(closes := g.closes + [i])))
    case _ => None
  }

  function Advance(g: Shared, t: Thread, pc: Pc, m: Move): Outcome {
    match m
    case CallEmit(text) => if Outside(pc) && NoLineFeed(text) then Some((EmitLock(text + [LF]), g)) else None
    case CallClose => if Outside(pc) && t.Goroutine? then Some((CloseLock, g)) else None
    case SeeStop =>
      if t.Heartbeat? && Outside(pc) && g.stopClosed then Some((Exited, g.(doneClosed := true))) else None
    case Proceed(ok, fate) => if InEmit(pc) then EmitStep(g, t, pc, ok, fate) else CloseStep(g, t, pc)
  }

  function Next(s: State, t: Thread, m: Move): Option<State> {
    match Advance(s.g, t, PcOf(s, t), m)
    case Some((pc, g)) => Some(State(s.pcs[t := pc], g))
    case None => None
  }

  /** The state after a schedule; None when some move was not enabled. */
  function Run(s: State, run: seq<(Thread, Move)>): Option<State>
    decreases |run|
  {
    if run == [] then Some(s)
    else
      var next := Next(s, run[0].0, run[0].1);
      if next.None? then None else Run(next.value, run[1..])
  }

  // ---------- invariants ----------

  predicate HoldsMu(pc: Pc) {
    pc.EmitCheck? || pc.FanLock? || pc.Writing? || pc.EmitUnlock? || pc.CloseCheck?
  }

  predicate HoldsMulti(pc: Pc) {
    pc.Writing? || pc.MultiMark?
  }

  /** Past the check that makes one closer the effective one, and not yet returned. */
  predicate ShuttingDown(pc: Pc) {
    pc.CloseStop? || pc.CloseWait? || pc.MultiLock? || pc.MultiMark? || pc.Closing?
  }

  predicate HeartbeatGone(g: Shared) {
    g.doneClosed || !g.heartbeat
  }

  function FirstSinks(n: nat): seq<nat> {
    seq(n, i => i)
  }

  /** What has been shut down when the effective closer stands at `pc`. */
  predicate ShutdownAt(g: Shared, pc: Pc) {
    match pc
    case CloseStop => g.heartbeat && !g.stopClosed && !g.multiClosed && g.closes == []
    case CloseWait => g.heartbeat && g.stopClosed && !g.multiClosed && g.closes == []
    case MultiLock => HeartbeatGone(g) && !g.multiClosed && g.closes == []
    case MultiMark => HeartbeatGone(g) && !g.multiClosed && g.closes == []
    case Closing(i) => HeartbeatGone(g) && g.multiClosed && i < g.sinks && g.closes == FirstSinks(i)
    case _ => HeartbeatGone(g) && g.multiClosed && g.closes == FirstSinks(g.sinks)
  }

  /** A finished Emit reports success exactly when the last sink acknowledged its record. */
  predicate OutcomeAt(g: Shared, record: bytes, ok: bool, attempt: Option<nat>) {
    && (attempt.Some? ==> attempt.value < |g.attempts| && !g.attempts[attempt.value].running)
    && (attempt.Some? ==> g.attempts[attempt.value].record == record)
    && (ok <==> attempt.Some? && g.attempts[attempt.value].acked == g.sinks)
  }

  predicate WritingAt(g: Shared, record: bytes, i: nat) {
    i < g.sinks && g.attempts != [] && g.attempts[|g.attempts| - 1] == Attempt(record, i, true)
  }

  predicate LockLocal(g: Shared, t: Thread, pc: Pc) {
    && (HoldsMu(pc) <==> g.mu == Some(t))
    && (HoldsMulti(pc) <==> g.multiMu == Some(t))
    && (pc.FanLock? || pc.Writing? ==> !g.closed)
  }

  predicate CloseLocal(g: Shared, t: Thread, pc: Pc) {
    && (ShuttingDown(pc) ==> g.winner == Some(t))
    && (pc.CloseReturned? ==> g.closed)
    && (g.winner == Some(t) ==> ShutdownAt(g, pc))
    && (pc.Exited? <==> t.Heartbeat? && HeartbeatGone(g))
    && (t.Heartbeat? ==> pc.Idle? || pc.Emitted? || InEmit(pc) || pc.Exited?)
  }

  predicate LogLocal(g: Shared, t: Thread, pc: Pc) {
    && (pc.Writing? ==> WritingAt(g, pc.record, pc.i))
    && (pc.EmitUnlock? ==> OutcomeAt(g, pc.record, pc.ok, pc.attempt))
    && (pc.Emitted? ==> OutcomeAt(g, pc.record, pc.ok, pc.attempt))
  }

  predicate Local(g: Shared, t: Thread, pc: Pc) {
    LockLocal(g, t, pc) && CloseLocal(g, t, pc) && LogLocal(g, t, pc)
  }

  predicate CloseGlobal(g: Shared) {
    && g.sinks > 0
    && (g.closed <==> g.winner.Some?)
    && (g.doneClosed ==> g.stopClosed && g.heartbeat)
    && (g.winner.None? ==> !g.stopClosed && !g.multiClosed && g.closes == [])
    && g.winner != Some(Heartbeat)
  }

  /** The logs of a sequential emitter that makes the same passes, one after another. */
  ghost function Replay(sinks: nat, attempts: seq<Attempt>): (logs: seq<seq<bytes>>)
    ensures |logs| == sinks
  {
    if attempts == [] then seq(sinks, _ => [])
    else
      var last := attempts[|attempts| - 1];
      Fanout(Replay(sinks, attempts[..|attempts| - 1]), last.record, last.acked)
  }

  /** A pass over the sinks is under way, by a goroutine that holds both mutexes. */
  predicate PassRuns(g: Shared) {
    g.multiMu.Some? && g.mu == g.multiMu && !g.closed
  }

  ghost predicate LogGlobal(g: Shared) {
    && g.logs == Replay(g.sinks, g.attempts)
    && (forall k :: 0 <= k < |g.attempts| ==> g.attempts[k].acked <= g.sinks)
    && (forall k :: 0 <= k < |g.attempts| && g.attempts[k].running ==> k == |g.attempts| - 1 && PassRuns(g))
  }

  /** A sink no write was torn on holds its records, and it acknowledged only these. */
  ghost predicate DiskInv(d: Disk, log: seq<bytes>) {
    (d.torn || d.content == Flatten(d.records)) && AllRecords(d.records) && Subsequence(log, d.records)
  }

  ghost predicate DiskGlobal(g: Shared) {
    |g.disks| == |g.logs| == g.sinks && forall i :: 0 <= i < |g.disks| ==> DiskInv(g.disks[i], g.logs[i])
  }

  /** What is being emitted is one line. */
  predicate LineLocal(pc: Pc) {
    pc.EmitLock? || pc.EmitCheck? || pc.FanLock? || pc.Writing? ==> IsRecord(pc.record)
  }

  ghost predicate Inv(s: State) {
    && CloseGlobal(s.g) && LogGlobal(s.g) && DiskGlobal(s.g)
    && (forall t :: Local(s.g, t, PcOf(s, t)))
    && (forall t :: LineLocal(PcOf(s, t)))
  }

  lemma InitialInv(sinks: nat, heartbeat: bool)
    requires sinks > 0
    ensures Inv(Initial(sinks, heartbeat))
  {
  }

  // ---------- a move keeps what the moving goroutine needs ----------

  lemma MoverKeepsConfiguration(g: Shared, t: Thread, pc: Pc, m: Move)
    requires Advance(g, t, pc, m).Some?
    ensures Advance(g, t, pc, m).value.1.sinks == g.sinks && Advance(g, t, pc, m).value.1.heartbeat == g.heartbeat
  {
    hide Gains, NoLineFeed;
    if m.Proceed? && InEmit(pc) {
      hide CloseStep;
    } else {
      hide EmitStep;
    }
  }

  lemma MoverKeepsLocks(g: Shared, t: Thread, pc: Pc, m: Move)
    requires LockLocal(g, t, pc) && CloseLocal(g, t, pc) && CloseGlobal(g) && Advance(g, t, pc, m).Some?
    ensures LockLocal(Advance(g, t, pc, m).value.1, t, Advance(g, t, pc, m).value.0)
  {
    hide FirstSinks, Gains, NoLineFeed;
    if m.Proceed? && InEmit(pc) {
      hide CloseStep;
    } else {
      hide EmitStep;
    }
  }

  lemma CloserKeepsShutdown(g: Shared, t: Thread, pc: Pc)
    requires CloseLocal(g, t, pc) && CloseGlobal(g) && CloseStep(g, t, pc).Some?
    ensures CloseLocal(CloseStep(g, t, pc).value.1, t, CloseStep(g, t, pc).value.0)
  {
  }

  lemma MoverKeepsShutdown(g: Shared, t: Thread, pc: Pc, m: Move)
    requires LockLocal(g, t, pc) && CloseLocal(g, t, pc) && CloseGlobal(g) && Advance(g, t, pc, m).Some?
    ensures CloseLocal(Advance(g, t, pc, m).value.1, t, Advance(g, t, pc, m).value.0)
  {
    hide Gains, NoLineFeed;
    if m.Proceed? && InEmit(pc) {
      hide CloseStep;
    } else if m.Proceed? {
      hide EmitStep, CloseStep, CloseLocal, CloseGlobal;
      CloserKeepsShutdown(g, t, pc);
    } else {
      hide EmitStep, CloseStep;
    }
  }

  lemma MoverKeepsClosing(g: Shared, t: Thread, pc: Pc, m: Move)
    requires CloseLocal(g, t, pc) && CloseGlobal(g) && Advance(g, t, pc, m).Some?
    ensures CloseGlobal(Advance(g, t, pc, m).value.1)
  {
    hide Gains, NoLineFeed;
    if m.Proceed? && InEmit(pc) {
      hide CloseStep;
    } else {
      hide EmitStep;
    }
  }

  lemma MoverKeepsOutcome(g: Shared, t: Thread, pc: Pc, m: Move)
    requires LockLocal(g, t, pc) && LogLocal(g, t, pc) && CloseGlobal(g) && Advance(g, t, pc, m).Some?
    ensures LogLocal(Advance(g, t, pc, m).value.1, t, Advance(g, t, pc, m).value.0)
  {
    hide Gains, NoLineFeed;
    if m.Proceed? && InEmit(pc) {
      hide CloseStep;
    } else {
      hide EmitStep;
    }
  }

  lemma MoverKeepsLogs(g: Shared, t: Thread, pc: Pc, m: Move)
    requires Local(g, t, pc) && CloseGlobal(g) && LogGlobal(g) && Advance(g, t, pc, m).Some?
    ensures LogGlobal(Advance(g, t, pc, m).value.1)
  {
    hide Gains, NoLineFeed;
    hide Fanout, Replay;
    if !(m.Proceed? && InEmit(pc)) {
      hide EmitStep;
      return;
    }
    hide CloseStep;
    var g' := Advance(g, t, pc, m).value.1;
    if m.Proceed? && pc.FanLock? && !g.multiClosed {
      ReplayAppend(g.sinks, g.attempts, pc.record);
    } else if m.Proceed? && pc.Writing? && m.fate.Written? {
      ReplayOneMore(g.sinks, g.attempts, g'.attempts[|g.attempts| - 1]);
    } else if m.Proceed? && pc.Writing? {
      ReplayIgnoresRunning(g.sinks, g.attempts, g'.attempts[|g.attempts| - 1]);
    }
  }

  lemma ReplayAppend(n: nat, attempts: seq<Attempt>, r: bytes)
    ensures Replay(n, attempts + [Attempt(r, 0, true)]) == Replay(n, attempts)
  {
    var longer := attempts + [Attempt(r, 0, true)];
    assert longer[..|longer| - 1] == attempts;
    assert Fanout(Replay(n, attempts), r, 0) == Replay(n, attempts);
  }

  /** One more sink acknowledging is one more entry in that sink's log. */
  lemma FanoutOneMore(logs: seq<seq<bytes>>, p: bytes, k: nat)
    requires k < |logs|
    ensures Fanout(logs, p, k + 1) == Fanout(logs, p, k)[k := Fanout(logs, p, k)[k] + [p]]
  {
    hide Fanout;
    var now, next := Fanout(logs, p, k), Fanout(logs, p, k + 1);
    assert forall i :: 0 <= i < |logs| ==> next[i] == now[k := now[k] + [p]][i];
  }

  lemma ReplayUnfold(n: nat, attempts: seq<Attempt>)
    requires attempts != []
    ensures var last := attempts[|attempts| - 1];
            Replay(n, attempts) == Fanout(Replay(n, attempts[..|attempts| - 1]), last.record, last.acked)
  {
    hide Fanout;
  }

  /** One more acknowledgement of the latest record is one more entry in the next sink's log. */
  lemma ReplayOneMore(n: nat, attempts: seq<Attempt>, last: Attempt)
    requires attempts != []
    requires var now := attempts[|attempts| - 1]; now.record == last.record && last.acked == now.acked + 1 <= n
    ensures var now, logs := attempts[|attempts| - 1], Replay(n, attempts);
            Replay(n, attempts[|attempts| - 1 := last]) == logs[now.acked := logs[now.acked] + [last.record]]
  {
    hide Fanout, Replay;
    var k := |attempts| - 1;
    var next := attempts[k := last];
    assert next[..k] == attempts[..k];
    ReplayUnfold(n, attempts);
    ReplayUnfold(n, next);
    FanoutOneMore(Replay(n, attempts[..k]), last.record, attempts[k].acked);
  }

  lemma ReplayIgnoresRunning(n: nat, attempts: seq<Attempt>, last: Attempt)
    requires attempts != []
    requires var now := attempts[|attempts| - 1]; now.record == last.record && last.acked == now.acked
    ensures Replay(n, attempts[|attempts| - 1 := last]) == Replay(n, attempts)
  {
    hide Fanout, Replay;
    var k := |attempts| - 1;
    assert attempts[k := last][..k] == attempts[..k];
    ReplayUnfold(n, attempts);
    ReplayUnfold(n, attempts[k := last]);
  }

  lemma DiskGains(d: Disk, log: seq<bytes>, r: bytes, fate: Fate)
    requires DiskInv(d, log) && IsRecord(r)
    ensures DiskInv(Gains(d, r, fate), if fate.Written? then log + [r] else log)
  {
    hide IsRecord;
    FlattenSnoc(d.records, r);
    SubsequenceExtend(log, d.records, r);
    hide Subsequence, Flatten;
  }

  lemma WriteKeepsDisks(g: Shared, r: bytes, i: nat, fate: Fate)
    requires g.attempts != [] && i < g.sinks && DiskGlobal(g) && IsRecord(r)
    ensures DiskGlobal(WriteStep(g, r, i, fate).1)
  {
    hide DiskInv, Gains, IsRecord;
    DiskGains(g.disks[i], g.logs[i], r, fate);
  }

  lemma MoverKeepsDisks(g: Shared, t: Thread, pc: Pc, m: Move)
    requires DiskGlobal(g) && LineLocal(pc) && Advance(g, t, pc, m).Some?
    ensures DiskGlobal(Advance(g, t, pc, m).value.1) && LineLocal(Advance(g, t, pc, m).value.0)
  {
    hide DiskInv, WriteStep, IsRecord;
    if m.Proceed? && pc.Writing? {
      WriteKeepsDisks(g, pc.record, pc.i, m.fate);
      NextPc(g, pc.record, pc.i, m.fate);
      hide DiskGlobal;
    } else if m.CallEmit? {
      OneLine(m.text);
    } else if m.Proceed? && InEmit(pc) {
      hide CloseStep;
    } else {
      hide EmitStep;
    }
  }

  lemma NextPc(g: Shared, r: bytes, i: nat, fate: Fate)
    requires g.attempts != [] && i < |g.logs| && i < |g.disks|
    ensures var pc := WriteStep(g, r, i, fate).0;
            pc.EmitUnlock? || pc == Writing(r, i + 1)
  {
  }

  lemma OneLine(text: bytes)
    requires NoLineFeed(text)
    ensures IsRecord(text + [LF])
  {
    assert (text + [LF])[..|text|] == text;
  }

  // ---------- a move keeps what every other goroutine needs ----------

  lemma OthersKeepLocks(g: Shared, t: Thread, pc: Pc, m: Move, u: Thread, other: Pc)
    requires LockLocal(g, t, pc) && LockLocal(g, u, other) && u != t && Advance(g, t, pc, m).Some?
    ensures LockLocal(Advance(g, t, pc, m).value.1, u, other)
  {
    hide Gains, NoLineFeed;
    if m.Proceed? && InEmit(pc) {
      hide CloseStep;
    } else {
      hide EmitStep;
    }
  }

  lemma OthersKeepShutdown(g: Shared, t: Thread, pc: Pc, m: Move, u: Thread, other: Pc)
    requires CloseLocal(g, t, pc) && CloseLocal(g, u, other) && CloseGlobal(g) && u != t && Advance(g, t, pc, m).Some?
    ensures CloseLocal(Advance(g, t, pc, m).value.1, u, other)
  {
    hide FirstSinks, Gains, NoLineFeed;
    if m.Proceed? && InEmit(pc) {
      hide CloseStep;
    } else {
      hide EmitStep;
    }
  }

  lemma OthersKeepLogs(g: Shared, t: Thread, pc: Pc, m: Move, u: Thread, other: Pc)
    requires Local(g, t, pc) && Local(g, u, other) && LogGlobal(g) && u != t && Advance(g, t, pc, m).Some?
    ensures LogLocal(Advance(g, t, pc, m).value.1, u, other)
  {
    hide CloseLocal, Replay, Gains, NoLineFeed;
    if m.Proceed? && InEmit(pc) {
      hide CloseStep;
    } else {
      hide EmitStep;
    }
  }

  lemma StepKeepsInv(s: State, t: Thread, m: Move)
    requires Inv(s) && Next(s, t, m).Some?
    ensures Inv(Next(s, t, m).value)
    ensures Next(s, t, m).value.g.sinks == s.g.sinks && Next(s, t, m).value.g.heartbeat == s.g.heartbeat
  {
    hide LockLocal, CloseLocal, LogLocal, CloseGlobal, LogGlobal, DiskGlobal, LineLocal, Advance;
    var s', pc := Next(s, t, m).value, PcOf(s, t);
    assert Local(s.g, t, pc) && LineLocal(pc);
    MoverKeepsConfiguration(s.g, t, pc, m);
    MoverKeepsLocks(s.g, t, pc, m);
    MoverKeepsShutdown(s.g, t, pc, m);
    MoverKeepsClosing(s.g, t, pc, m);
    MoverKeepsOutcome(s.g, t, pc, m);
    MoverKeepsLogs(s.g, t, pc, m);
    MoverKeepsDisks(s.g, t, pc, m);
    forall u
      ensures Local(s'.g, u, PcOf(s', u)) && LineLocal(PcOf(s', u))
    {
      if u != t {
        assert LineLocal(PcOf(s, u));
        assert Local(s.g, u, PcOf(s, u));
        OthersKeepLocks(s.g, t, pc, m, u, PcOf(s, u));
        OthersKeepShutdown(s.g, t, pc, m, u, PcOf(s, u));
        OthersKeepLogs(s.g, t, pc, m, u, PcOf(s, u));
      }
    }
  }

  lemma {:induction false} RunKeepsInv(s: State, run: seq<(Thread, Move)>)
    requires Inv(s) && Run(s, run).Some?
    ensures Inv(Run(s, run).value)
    ensures Run(s, run).value.g.sinks == s.g.sinks && Run(s, run).value.g.heartbeat == s.g.heartbeat
    decreases |run|
  {
    hide Inv, Next;
    if run != [] {
      StepKeepsInv(s, run[0].0, run[0].1);
      RunKeepsInv(Next(s, run[0].0, run[0].1).value, run[1..]);
    }
  }

  // ---------- shutdown ----------

  lemma AdvanceAfterClose(g: Shared, t: Thread, pc: Pc, m: Move)
    requires LockLocal(g, t, pc) && g.closed && Advance(g, t, pc, m).Some?
    ensures var g' := Advance(g, t, pc, m).value.1;
            g'.closed && g'.logs == g.logs && g'.disks == g.disks && g'.attempts == g.attempts
  {
    hide WriteStep, NoLineFeed;
    if m.Proceed? && InEmit(pc) {
      hide CloseStep;
    } else {
      hide EmitStep;
    }
  }

  lemma StepAfterClose(s: State, t: Thread, m: Move)
    requires Inv(s) && s.g.closed && Next(s, t, m).Some?
    ensures var g := Next(s, t, m).value.g;
            g.closed && g.logs == s.g.logs && g.disks == s.g.disks && g.attempts == s.g.attempts
  {
    hide LockLocal, CloseLocal, LogLocal, CloseGlobal, LogGlobal, DiskGlobal, LineLocal, Advance;
    assert Local(s.g, t, PcOf(s, t));
    AdvanceAfterClose(s.g, t, PcOf(s, t), m);
  }

  lemma {:induction false} RunAfterClose(s: State, run: seq<(Thread, Move)>)
    requires Inv(s) && s.g.closed && Run(s, run).Some?
    ensures var g := Run(s, run).value.g;
            g.closed && g.logs == s.g.logs && g.disks == s.g.disks && g.attempts == s.g.attempts
    decreases |run|
  {
    hide Inv, Next;
    if run != [] {
      StepAfterClose(s, run[0].0, run[0].1);
      StepKeepsInv(s, run[0].0, run[0].1);
      RunAfterClose(Next(s, run[0].0, run[0].1).value, run[1..]);
    }
  }

  /** From the moment Close sets `closed`, and so well before the multi sink is closed, no sink is ever
      written to again, whatever emitters, closers and the heartbeat do. */
  lemma NoWriteOnceClosed(sinks: nat, heartbeat: bool, before: seq<(Thread, Move)>, after: seq<(Thread, Move)>)
    requires sinks > 0 && Run(Initial(sinks, heartbeat), before).Some?
    requires var s := Run(Initial(sinks, heartbeat), before).value; s.g.closed && Run(s, after).Some?
    ensures var s := Run(Initial(sinks, heartbeat), before).value;
            && Run(s, after).value.g.logs == s.g.logs && Run(s, after).value.g.disks == s.g.disks
            && Run(s, after).value.g.attempts == s.g.attempts
  {
    InitialInv(sinks, heartbeat);
    RunKeepsInv(Initial(sinks, heartbeat), before);
    RunAfterClose(Run(Initial(sinks, heartbeat), before).value, after);
  }

  /** In every reachable state: closing the sinks starts only after `closed` is set and the heartbeat is gone;
      sinks are closed in order and at most once each; at most one closer does it; stopCh is closed once. */
  lemma ShutdownOrder(sinks: nat, heartbeat: bool, run: seq<(Thread, Move)>, t: Thread, u: Thread)
    requires sinks > 0 && Run(Initial(sinks, heartbeat), run).Some?
    ensures var s := Run(Initial(sinks, heartbeat), run).value;
            && (s.g.multiClosed || s.g.closes != [] ==> s.g.closed && PcOf(s, Heartbeat).Exited?)
            && |s.g.closes| <= sinks && s.g.closes == FirstSinks(|s.g.closes|)
            && (ShuttingDown(PcOf(s, t)) && ShuttingDown(PcOf(s, u)) ==> t == u)
            && (PcOf(s, t).CloseStop? ==> !s.g.stopClosed)
            && (s.g.winner == Some(t) && !ShuttingDown(PcOf(s, t)) ==> s.g.closes == FirstSinks(sinks))
  {
    hide LockLocal, LogLocal, LogGlobal, Next;
    InitialInv(sinks, heartbeat);
    RunKeepsInv(Initial(sinks, heartbeat), run);
    var s := Run(Initial(sinks, heartbeat), run).value;
    assert Local(s.g, Heartbeat, PcOf(s, Heartbeat)) && Local(s.g, t, PcOf(s, t)) && Local(s.g, u, PcOf(s, u));
    if s.g.winner.Some? {
      assert Local(s.g, s.g.winner.value, PcOf(s, s.g.winner.value));
    }
  }

  // ---------- the logs ----------

  lemma {:induction false} ReplayChain(n: nat, attempts: seq<Attempt>)
    ensures Chain(Replay(n, attempts))
  {
    hide Chain, Fanout, Subsequence;
    if attempts == [] {
      EmptyChain(n);
    } else {
      var k := |attempts| - 1;
      ReplayChain(n, attempts[..k]);
      FanoutKeepsChain(Replay(n, attempts[..k]), attempts[k].record, attempts[k].acked);
    }
  }

  lemma EmptyChain(n: nat)
    ensures Chain(seq(n, _ => []))
  {
  }

  lemma {:induction false} ReplayHas(n: nat, attempts: seq<Attempt>, k: nat, i: nat)
    requires k < |attempts| && i < attempts[k].acked && i < n
    ensures attempts[k].record in Replay(n, attempts)[i]
  {
    var last := |attempts| - 1;
    if k < last {
      ReplayHas(n, attempts[..last], k, i);
    }
  }

  /** In every reachable state the logs are those of one sequential emitter, and each sink's log is a
      subsequence of the log before it. */
  lemma LogsFormAChain(sinks: nat, heartbeat: bool, run: seq<(Thread, Move)>)
    requires sinks > 0 && Run(Initial(sinks, heartbeat), run).Some?
    ensures var g := Run(Initial(sinks, heartbeat), run).value.g;
            g.logs == Replay(sinks, g.attempts) && Chain(g.logs)
  {
    hide Chain, Local, CloseGlobal, Next;
    InitialInv(sinks, heartbeat);
    RunKeepsInv(Initial(sinks, heartbeat), run);
    var g := Run(Initial(sinks, heartbeat), run).value.g;
    ReplayChain(g.sinks, g.attempts);
  }

  /** In every reachable state, with any number of goroutines emitting, a sink no write was torn on splits at
      line feeds into exactly its records, in order, those it acknowledged among them, in order. */
  lemma SinksReadBack(sinks: nat, heartbeat: bool, run: seq<(Thread, Move)>, i: nat)
    requires sinks > 0 && Run(Initial(sinks, heartbeat), run).Some? && i < sinks
    ensures var g := Run(Initial(sinks, heartbeat), run).value.g;
            && |g.disks| == |g.logs| == sinks
            && Subsequence(g.logs[i], g.disks[i].records)
            && (!g.disks[i].torn ==> SplitLines(g.disks[i].content) == Texts(g.disks[i].records))
  {
    hide Next, Local, LogGlobal, CloseGlobal;
    InitialInv(sinks, heartbeat);
    RunKeepsInv(Initial(sinks, heartbeat), run);
    var g := Run(Initial(sinks, heartbeat), run).value.g;
    hide Run;
    assert DiskInv(g.disks[i], g.logs[i]);
    RecordsSplit(g.disks[i].records);
  }

  /** A finished Emit reports success exactly when the last sink acknowledged its record, and then the record
      is in every sink's log. */
  lemma EmitOutcome(sinks: nat, heartbeat: bool, run: seq<(Thread, Move)>, t: Thread)
    requires sinks > 0 && Run(Initial(sinks, heartbeat), run).Some?
    requires PcOf(Run(Initial(sinks, heartbeat), run).value, t).Emitted?
    ensures var s := Run(Initial(sinks, heartbeat), run).value;
            var done := PcOf(s, t);
            && OutcomeAt(s.g, done.record, done.ok, done.attempt)
            && |s.g.logs| == sinks
            && (done.ok ==> forall i :: 0 <= i < sinks ==> done.record in s.g.logs[i])
  {
    hide LockLocal, CloseLocal, CloseGlobal, Next, Replay;
    InitialInv(sinks, heartbeat);
    RunKeepsInv(Initial(sinks, heartbeat), run);
    var s := Run(Initial(sinks, heartbeat), run).value;
    assert Local(s.g, t, PcOf(s, t));
    var done := PcOf(s, t);
    if done.ok {
      forall i | 0 <= i < sinks
        ensures done.record in s.g.logs[i]
      {
        ReplayHas(s.g.sinks, s.g.attempts, done.attempt.value, i);
      }
    }
  }

  // ---------- progress ----------

  /** How many moves a goroutine is from being outside, if nobody makes it wait. */
  function Rank(g: Shared, pc: Pc): int {
    match pc
    case EmitLock(_) => g.sinks + 4
    case EmitCheck(_) => g.sinks + 3
    case FanLock(_) => g.sinks + 2
    case Writing(_, i) => g.sinks + 1 - i
    case EmitUnlock(_, _, _) => 1
    case CloseLock => g.sinks + 6
    case CloseCheck => g.sinks + 5
    case CloseStop => g.sinks + 4
    case CloseWait => g.sinks + 3
    case MultiLock => g.sinks + 2
    case MultiMark => g.sinks + 1
    case Closing(i) => g.sinks - i
    case _ => 0
  }

  /** The heartbeat has one move more, to leave. */
  function HeartbeatRank(s: State): int {
    if PcOf(s, Heartbeat).Exited? then 0 else 1 + Rank(s.g, PcOf(s, Heartbeat))
  }

  function HolderRank(s: State): int {
    if s.g.mu.Some? then Rank(s.g, PcOf(s, s.g.mu.value)) else 0
  }

  /** A goroutine is blocked only on the emitter's mutex, or waiting for the heartbeat to leave. */
  predicate Blocked(s: State, t: Thread) {
    && (PcOf(s, t).EmitLock? || PcOf(s, t).CloseLock? ==> s.g.mu.Some?)
    && (PcOf(s, t).CloseWait? ==> !s.g.doneClosed)
    && (PcOf(s, t).EmitLock? || PcOf(s, t).CloseLock? || PcOf(s, t).CloseWait?)
  }

  /** The multi sink's own mutex is never contended: whoever wants it finds it free. */
  lemma MultiMutexIsFree(s: State, t: Thread)
    requires Inv(s) && (PcOf(s, t).FanLock? || PcOf(s, t).MultiLock?)
    ensures s.g.multiMu.None?
  {
    var owner := if s.g.multiMu.Some? then s.g.multiMu.value else t;
    assert Local(s.g, t, PcOf(s, t)) && Local(s.g, owner, PcOf(s, owner));
  }

  lemma UnblockedAdvances(g: Shared, t: Thread, pc: Pc)
    requires Local(g, t, pc) && CloseGlobal(g) && |g.logs| == |g.disks| == g.sinks && !Outside(pc) && !pc.Exited?
    requires pc.EmitLock? || pc.CloseLock? ==> g.mu.None?
    requires pc.FanLock? || pc.MultiLock? ==> g.multiMu.None?
    requires pc.CloseWait? ==> g.doneClosed
    ensures var next := Advance(g, t, pc, Proceed(true, Written));
            && next.Some? && 0 <= Rank(next.value.1, next.value.0) < Rank(g, pc)
            && next.value.1.sinks == g.sinks
            && (g.mu == Some(t) ==> next.value.1.mu == Some(t) || next.value.1.mu.None?)
  {
    hide Gains, NoLineFeed;
  }

  lemma UnblockedMoves(s: State, t: Thread)
    requires Inv(s) && !Outside(PcOf(s, t)) && !PcOf(s, t).Exited? && !Blocked(s, t)
    ensures var next := Next(s, t, Proceed(true, Written));
            && next.Some? && Inv(next.value) && 0 <= Rank(next.value.g, PcOf(next.value, t)) < Rank(s.g, PcOf(s, t))
            && next.value.g.sinks == s.g.sinks
            && (forall u :: u != t ==> PcOf(next.value, u) == PcOf(s, u))
            && (s.g.mu == Some(t) ==> next.value.g.mu == Some(t) || next.value.g.mu.None?)
  {
    hide Local, CloseGlobal, Advance, Rank;
    assert Local(s.g, t, PcOf(s, t));
    if PcOf(s, t).FanLock? || PcOf(s, t).MultiLock? {
      MultiMutexIsFree(s, t);
    }
    UnblockedAdvances(s.g, t, PcOf(s, t));
    StepKeepsInv(s, t, Proceed(true, Written));
  }

  /** The next move towards getting `t` out of Emit or Close: its own, or else that of the goroutine holding
      the mutex it waits for, or else that of the heartbeat it waits for. */
  function Helper(s: State, t: Thread): (Thread, Move) {
    if !Blocked(s, t) then (t, Proceed(true, Written))
    else if !PcOf(s, t).CloseWait? && s.g.mu.Some? then (s.g.mu.value, Proceed(true, Written))
    else if Outside(PcOf(s, Heartbeat)) then (Heartbeat, SeeStop)
    else if PcOf(s, Heartbeat).EmitLock? && s.g.mu.Some? then (s.g.mu.value, Proceed(true, Written))
    else (Heartbeat, Proceed(true, Written))
  }

  /** Whatever state is reached, no goroutine is stuck in Emit or Close: some schedule of moves already under
      way takes it out. In particular Close never waits for a heartbeat that waits for Close. */
  lemma NeverStuck(sinks: nat, heartbeat: bool, before: seq<(Thread, Move)>, id: nat)
      returns (after: seq<(Thread, Move)>)
    requires sinks > 0 && Run(Initial(sinks, heartbeat), before).Some?
    ensures forall k :: 0 <= k < |after| ==> after[k].1.Proceed? || after[k].1.SeeStop?
    ensures var s := Run(Initial(sinks, heartbeat), before).value;
            Run(s, after).Some? && Outside(PcOf(Run(s, after).value, Goroutine(id)))
  {
    InitialInv(sinks, heartbeat);
    RunKeepsInv(Initial(sinks, heartbeat), before);
    after := CanAlwaysFinish(Run(Initial(sinks, heartbeat), before).value, id);
  }

  lemma {:induction false} CanAlwaysFinish(s: State, id: nat) returns (run: seq<(Thread, Move)>)
    requires Inv(s)
    ensures Run(s, run).Some? && Outside(PcOf(Run(s, run).value, Goroutine(id)))
    ensures forall k :: 0 <= k < |run| ==> run[k].1.Proceed? || run[k].1.SeeStop?
    decreases Rank(s.g, PcOf(s, Goroutine(id))), HeartbeatRank(s), HolderRank(s)
  {
    hide Inv, Next, Rank, Helper;
    var t := Goroutine(id);
    if Outside(PcOf(s, t)) {
      return [];
    }
    var (u, m) := Helper(s, t);
    HelperMoves(s, t);
    RanksAreNatural(s, t);
    RanksAreNatural(s, Heartbeat);
    RanksAreNatural(s, if s.g.mu.Some? then s.g.mu.value else t);
    var rest := CanAlwaysFinish(Next(s, u, m).value, id);
    run := [(u, m)] + rest;
  }

  lemma RanksAreNatural(s: State, t: Thread)
    requires Inv(s)
    ensures 0 <= Rank(s.g, PcOf(s, t))
  {
    hide LogGlobal;
    assert Local(s.g, t, PcOf(s, t));
  }

  /** The goroutine holding the emitter's mutex is never blocked. */
  lemma HolderMoves(s: State, h: Thread, t: Thread)
    requires Inv(s) && s.g.mu == Some(h) && t != h
    ensures var next := Next(s, h, Proceed(true, Written));
            && next.Some? && Inv(next.value)
            && Rank(next.value.g, PcOf(next.value, t)) == Rank(s.g, PcOf(s, t))
            && HeartbeatRank(next.value) <= HeartbeatRank(s) && HolderRank(next.value) < HolderRank(s)
  {
    assert Local(s.g, h, PcOf(s, h));
    assert HoldsMu(PcOf(s, h));
    hide Inv, Local, Next;
    UnblockedMoves(s, h);
    var s' := Next(s, h, Proceed(true, Written)).value;
    assert PcOf(s', t) == PcOf(s, t);
    SameRank(s.g, s'.g, PcOf(s, t));
    if h != Heartbeat {
      assert PcOf(s', Heartbeat) == PcOf(s, Heartbeat);
      SameRank(s.g, s'.g, PcOf(s, Heartbeat));
    }
  }

  lemma SameRank(g: Shared, g': Shared, pc: Pc)
    requires g.sinks == g'.sinks
    ensures Rank(g, pc) == Rank(g', pc)
  {
  }

  /** While a closer waits for the heartbeat, the heartbeat can leave, or move on, or waits for the holder. */
  lemma HeartbeatMoves(s: State, t: Thread)
    requires Inv(s) && t.Goroutine? && PcOf(s, t).CloseWait? && !s.g.doneClosed
    requires PcOf(s, Heartbeat).EmitLock? ==> s.g.mu.None?
    ensures var m := if Outside(PcOf(s, Heartbeat)) then SeeStop else Proceed(true, Written);
            var next := Next(s, Heartbeat, m);
            && next.Some? && Inv(next.value)
            && Rank(next.value.g, PcOf(next.value, t)) == Rank(s.g, PcOf(s, t))
            && HeartbeatRank(next.value) < HeartbeatRank(s)
  {
    assert Local(s.g, t, PcOf(s, t)) && Local(s.g, Heartbeat, PcOf(s, Heartbeat));
    if Outside(PcOf(s, Heartbeat)) {
      StepKeepsInv(s, Heartbeat, SeeStop);
    } else {
      UnblockedMoves(s, Heartbeat);
    }
  }

  lemma HelperMoves(s: State, t: Thread)
    requires Inv(s) && t.Goroutine? && !Outside(PcOf(s, t))
    ensures var (u, m) := Helper(s, t);
            var next := Next(s, u, m);
            && next.Some? && Inv(next.value) && (m.Proceed? || m.SeeStop?)
            && Lower(next.value, s, t)
  {
    assert Local(s.g, t, PcOf(s, t));
    hide Inv, Local, Next, Rank;
    RanksAreNatural(s, t);
    if !Blocked(s, t) {
      UnblockedMoves(s, t);
    } else if !PcOf(s, t).CloseWait? {
      HolderMoves(s, s.g.mu.value, t);
    } else if PcOf(s, Heartbeat).EmitLock? && s.g.mu.Some? {
      HolderMoves(s, s.g.mu.value, t);
    } else {
      HeartbeatMoves(s, t);
    }
  }

  /** `s'` is closer than `s` to `t` being outside. */
  predicate Lower(s': State, s: State, t: Thread) {
    || Rank(s'.g, PcOf(s', t)) < Rank(s.g, PcOf(s, t))
    || (Rank(s'.g, PcOf(s', t)) == Rank(s.g, PcOf(s, t))
        && (HeartbeatRank(s') < HeartbeatRank(s)
            || (HeartbeatRank(s') == HeartbeatRank(s) && HolderRank(s') < HolderRank(s))))
  }
}
