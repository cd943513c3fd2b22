/**
 What one call of Emit does among any number of goroutines: from taking the emitter's mutex to giving it
 back it has the sinks to itself, and what it does to them and reports is fixed by the state it found, the
 outcome of json.Marshal and the fates of its writes.
 */
module AuditPass {
  import opened Basics
  import opened Audit
  import opened AuditRuns

  /** The moves of one goroutine. */
  function Own(run: seq<(Thread, Move)>, t: Thread): seq<Move> {
    if run == [] then []
    else if run[0].0 == t then [run[0].1] + Own(run[1..], t)
    else Own(run[1..], t)
  }

  ghost predicate AllProceed(moves: seq<Move>) {
    forall i :: 0 <= i < |moves| ==> moves[i].Proceed?
  }

  predicate SameData(g: Shared, g': Shared) {
    g'.closed == g.closed && g'.logs == g.logs && g'.disks == g.disks && g'.sinks == g.sinks
  }

  /** A disk after a write of `r`. A torn write leaves its first bytes. */
  predicate Written(d: Disk, d': Disk, r: bytes, fate: Fate) {
    && d'.torn == (d.torn || fate.Torn?)
    && d'.records == (if fate.Torn? then d.records else d.records + [r])
    && d'.content == d.content + match fate
                                 case Torn(n) => (if n < |r| then r[..n] else r)
                                 case _ => r
  }

  /** The fates of the writes among the moves of a pass: those after the check and the multi sink's mutex. */
  function Fates(own: seq<Move>): seq<Fate>
    requires AllProceed(own)
  {
    if |own| <= 2 then [] else seq(|own| - 2, i requires 0 <= i < |own| - 2 => own[i + 2].fate)
  }

  /** The first sinks were written `r`, with these fates, and those that acknowledged it have it in their log.
      The other sinks are as before. */
  ghost predicate Wrote(g: Shared, g': Shared, r: bytes, fates: seq<Fate>) {
    && g'.closed == g.closed && g'.sinks == g.sinks
    && |g.logs| == |g.disks| == |g'.logs| == |g'.disks| == g.sinks && |fates| <= g.sinks
    && (forall i :: 0 <= i < |fates| ==> Written(g.disks[i], g'.disks[i], r, fates[i]))
    && (forall i :: 0 <= i < |fates| ==> g'.logs[i] == g.logs[i] + if fates[i].Written? then [r] else [])
    && (forall i :: |fates| <= i < g.sinks ==> g'.disks[i] == g.disks[i] && g'.logs[i] == g.logs[i])
  }

  ghost predicate Acknowledged(fates: seq<Fate>) {
    forall i :: 0 <= i < |fates| ==> fates[i] == Fate.Written
  }

  /** The effect of a finished pass that reports `ok`. On a closed emitter, or when the event does not marshal,
      nothing is written. Otherwise the sinks are written in order, up to the first that does not acknowledge;
      the pass succeeds exactly when all of them did. */
  ghost predicate PassEffect(g: Shared, g': Shared, r: bytes, marshaled: bool, fates: seq<Fate>, ok: bool) {
    if g.closed || !marshaled then fates == [] && !ok && SameData(g, g')
    else
      && fates != [] && Wrote(g, g', r, fates) && Acknowledged(fates[..|fates| - 1])
      && (if fates[|fates| - 1] == Fate.Written then ok && |fates| == g.sinks else !ok)
  }

  /** Where a pass stands that found `g` when it took the mutex. */
  ghost predicate Stage(g: Shared, g': Shared, r: bytes, own: seq<Move>, pc: Pc) {
    && AllProceed(own)
    && match pc
       case EmitCheck(r') => r' == r && own == [] && SameData(g, g')
       case FanLock(r') => r' == r && |own| == 1 && !g.closed && own[0].ok && SameData(g, g')
       case Writing(r', i) =>
         && r' == r && |own| == i + 2 && !g.closed && own[0].ok && i < g.sinks
         && Wrote(g, g', r, Fates(own)) && Acknowledged(Fates(own))
       case EmitUnlock(r', ok, _) => r' == r && own != [] && PassEffect(g, g', r, own[0].ok, Fates(own), ok)
       case _ => false
  }

  /** While a goroutine holds the emitter's mutex, no move of another one touches the sinks or `closed`. */
  lemma HolderIsAlone(s: State, t: Thread, u: Thread, m: Move)
    requires Inv(s) && HoldsMu(PcOf(s, t)) && u != t && Next(s, u, m).Some?
    ensures SameData(s.g, Next(s, u, m).value.g) && PcOf(Next(s, u, m).value, t) == PcOf(s, t)
  {
    assert Local(s.g, t, PcOf(s, t)) && Local(s.g, u, PcOf(s, u));
    hide CloseLocal, LogLocal, CloseGlobal, LogGlobal, DiskGlobal, LineLocal, WriteStep, NoLineFeed;
  }

  lemma OneMoreFate(own: seq<Move>, m: Move)
    requires AllProceed(own) && m.Proceed?
    ensures Fates(own + [m]) == if |own| < 2 then [] else Fates(own) + [m.fate]
  {
  }

  lemma DiskIsWritten(d: Disk, r: bytes, fate: Fate)
    ensures Written(d, Gains(d, r, fate), r, fate)
  {
  }

  lemma WriteMove(g0: Shared, g: Shared, r: bytes, fates: seq<Fate>, fate: Fate)
    requires |fates| < g0.sinks && g.attempts != [] && Wrote(g0, g, r, fates) && Acknowledged(fates)
    ensures var (pc, g') := WriteStep(g, r, |fates|, fate);
            && Wrote(g0, g', r, fates + [fate])
            && if pc.Writing? then
                 pc == Writing(r, |fates| + 1) && |fates| + 1 < g0.sinks && Acknowledged(fates + [fate])
               else
                 && pc.EmitUnlock? && pc.record == r
                 && (if fate == Fate.Written then pc.ok && |fates| + 1 == g0.sinks else !pc.ok)
  {
    var g' := WriteStep(g, r, |fates|, fate).1;
    var all := fates + [fate];
    DiskIsWritten(g.disks[|fates|], r, fate);
    assert forall i :: 0 <= i < |fates| ==> all[i] == fates[i];
    assert forall i :: 0 <= i < |fates| ==> g'.disks[i] == g.disks[i] && g'.logs[i] == g.logs[i];
    hide Gains, Written;
  }

  lemma QuietMove(g0: Shared, g: Shared, t: Thread, pc: Pc, r: bytes, own: seq<Move>, ok: bool, fate: Fate)
    requires Stage(g0, g, r, own, pc) && (pc.EmitCheck? || (pc.FanLock? && !g.multiClosed))
    requires |g.logs| == |g.disks| == g.sinks > 0
    requires EmitStep(g, t, pc, ok, fate).Some?
    ensures var next := EmitStep(g, t, pc, ok, fate).value;
            Stage(g0, next.1, r, own + [Proceed(ok, fate)], next.0)
  {
    OneMoreFate(own, Proceed(ok, fate));
    hide WriteStep, Fates, Written;
  }

  lemma WritingMove(g0: Shared, g: Shared, t: Thread, pc: Pc, r: bytes, own: seq<Move>, ok: bool, fate: Fate)
    requires Stage(g0, g, r, own, pc) && pc.Writing?
    requires EmitStep(g, t, pc, ok, fate).Some?
    ensures var next := EmitStep(g, t, pc, ok, fate).value;
            Stage(g0, next.1, r, own + [Proceed(ok, fate)], next.0)
  {
    var own', before, i := own + [Proceed(ok, fate)], Fates(own), pc.i;
    assert pc == Writing(r, i) && |before| == i && i < g0.sinks;
    var (pc', g') := WriteStep(g, r, i, fate);
    assert EmitStep(g, t, pc, ok, fate) == Some((pc', g'));
    OneMoreFate(own, Proceed(ok, fate));
    assert AllProceed(own') && own'[0] == own[0] && |own'| == i + 3 && Fates(own') == before + [fate];
    assert (before + [fate])[..i] == before;
    WriteMove(g0, g, r, before, fate);
    assert !g0.closed && own[0].ok && Acknowledged(before);
    hide Wrote, Acknowledged, WriteStep, Fates, EmitStep, AllProceed;
    StageAfterWrite(g0, g', r, own', before, fate, pc');
  }

  lemma StageAfterWrite(g0: Shared, g: Shared, r: bytes, own: seq<Move>, before: seq<Fate>, fate: Fate, pc: Pc)
    requires AllProceed(own) && |own| == |before| + 3 && Fates(own) == before + [fate] && !g0.closed && own[0].ok
    requires Wrote(g0, g, r, before + [fate]) && Acknowledged(before)
    requires if pc.Writing? then
               pc == Writing(r, |before| + 1) && |before| + 1 < g0.sinks && Acknowledged(before + [fate])
             else
               && pc.EmitUnlock? && pc.record == r
               && (if fate == Fate.Written then pc.ok && |before| + 1 == g0.sinks else !pc.ok)
    ensures Stage(g0, g, r, own, pc)
  {
    assert (before + [fate])[..|before|] == before;
    assert g.sinks == g0.sinks && g.closed == g0.closed;
    hide Wrote, Acknowledged, Fates;
  }

  lemma OwnMove(g0: Shared, g: Shared, t: Thread, pc: Pc, r: bytes, own: seq<Move>, m: Move)
    requires Stage(g0, g, r, own, pc) && !pc.EmitUnlock? && m.Proceed?
    requires |g.logs| == |g.disks| == g.sinks > 0 && !(pc.FanLock? && g.multiClosed)
    requires Advance(g, t, pc, m).Some?
    ensures Stage(g0, Advance(g, t, pc, m).value.1, r, own + [m], Advance(g, t, pc, m).value.0)
  {
    assert pc.EmitCheck? || pc.FanLock? || pc.Writing?;
    assert Advance(g, t, pc, m) == EmitStep(g, t, pc, m.ok, m.fate);
    assert m == Proceed(m.ok, m.fate);
    hide Stage, EmitStep, Advance;
    if pc.Writing? {
      WritingMove(g0, g, t, pc, r, own, m.ok, m.fate);
    } else {
      QuietMove(g0, g, t, pc, r, own, m.ok, m.fate);
    }
  }

  lemma StageOfSame(g0: Shared, g: Shared, g': Shared, r: bytes, own: seq<Move>, pc: Pc)
    requires Stage(g0, g, r, own, pc) && SameData(g, g')
    ensures Stage(g0, g', r, own, pc)
  {
    hide Fates, Acknowledged, Written;
  }

  /** A goroutine that has returned from Emit does not proceed by itself. */
  lemma {:induction false} StaysEmitted(s: State, run: seq<(Thread, Move)>, t: Thread)
    requires PcOf(s, t).Emitted? && Run(s, run).Some? && AllProceed(Own(run, t))
    ensures PcOf(Run(s, run).value, t) == PcOf(s, t)
    decreases |run|
  {
    hide EmitStep;
    if run != [] {
      var (u, m) := run[0];
      assert u == t ==> m == Own(run, t)[0] && CloseStep(s.g, t, PcOf(s, t)).None?;
      assert u != t ==> Own(run[1..], t) == Own(run, t);
      StaysEmitted(Next(s, u, m).value, run[1..], t);
    }
  }

  lemma OwnOfRest(run: seq<(Thread, Move)>, t: Thread)
    requires run != [] && AllProceed(Own(run, t))
    ensures AllProceed(Own(run[1..], t)) && (run[0].0 == t ==> run[0].1.Proceed?)
    ensures Own(run, t) == (if run[0].0 == t then [run[0].1] else []) + Own(run[1..], t)
  {
    var rest := Own(run[1..], t);
    if run[0].0 == t {
      assert Own(run, t) == [run[0].1] + rest;
      hide Own;
      assert Own(run, t)[0] == run[0].1;
      assert forall i :: 0 <= i < |rest| ==> rest[i] == Own(run, t)[i + 1];
    }
  }

  lemma OwnOfPrefix(run: seq<(Thread, Move)>, t: Thread, k: nat)
    requires k < |run|
    ensures run[..k + 1] != [] && run[..k + 1][0] == run[0] && run[..k + 1][1..] == run[1..][..k]
    ensures Own(run[..k + 1], t) == (if run[0].0 == t then [run[0].1] else []) + Own(run[1..][..k], t)
  {
    assert run[..k + 1][1..] == run[1..][..k];
  }

  /** The moment, `k` moves into the run, at which the pass is over and its goroutine about to give the mutex back. */
  ghost predicate PassEndsAt(g0: Shared, s: State, run: seq<(Thread, Move)>, t: Thread, r: bytes, own: seq<Move>,
                             k: nat)
  {
    && k < |run| && Run(s, run[..k]).Some? && Run(s, run).Some?
    && var moves := own + Own(run[..k], t);
       var done := PcOf(Run(s, run).value, t);
       && AllProceed(moves) && moves != [] && done.Emitted? && done.record == r
       && PassEffect(g0, Run(s, run[..k]).value.g, r, moves[0].ok, Fates(moves), done.ok)
  }

  lemma {:induction false} PassEnds(g0: Shared, s: State, run: seq<(Thread, Move)>, t: Thread, r: bytes, own: seq<Move>)
      returns (k: nat)
    requires Inv(s) && Stage(g0, s.g, r, own, PcOf(s, t))
    requires Run(s, run).Some? && AllProceed(Own(run, t)) && PcOf(Run(s, run).value, t).Emitted?
    ensures PassEndsAt(g0, s, run, t, r, own, k)
    decreases |run|
  {
    hide Inv, Next, Stage, PassEffect, Fates;
    StageHoldsMu(g0, s.g, r, own, PcOf(s, t));
    OwnOfRest(run, t);
    var (u, m) := run[0];
    var next := Next(s, u, m).value;
    StepKeepsInv(s, u, m);
    if u != t {
      HolderIsAlone(s, t, u, m);
      StageOfSame(g0, s.g, next.g, r, own, PcOf(s, t));
      k := PassEnds(g0, next, run[1..], t, r, own);
      OwnOfPrefix(run, t, k);
      k := k + 1;
    } else if PcOf(s, t).EmitUnlock? {
      k := 0;
      UnlockStep(g0, s, t, r, own, m);
      StaysEmitted(next, run[1..], t);
      assert run[..0] == [] && own + [] == own;
    } else {
      OwnStep(g0, s, t, r, own, m);
      k := PassEnds(g0, next, run[1..], t, r, own + [m]);
      OwnOfPrefix(run, t, k);
      assert own + ([m] + Own(run[1..][..k], t)) == (own + [m]) + Own(run[1..][..k], t);
      k := k + 1;
    }
  }

  lemma StageHoldsMu(g0: Shared, g: Shared, r: bytes, own: seq<Move>, pc: Pc)
    requires Stage(g0, g, r, own, pc)
    ensures HoldsMu(pc) && InEmit(pc) && !pc.Emitted?
  {
  }

  lemma UnlockStep(g0: Shared, s: State, t: Thread, r: bytes, own: seq<Move>, m: Move)
    requires Stage(g0, s.g, r, own, PcOf(s, t)) && PcOf(s, t).EmitUnlock? && m.Proceed? && Next(s, t, m).Some?
    ensures var done := PcOf(Next(s, t, m).value, t);
            && AllProceed(own) && own != [] && done.Emitted? && done.record == r
            && PassEffect(g0, s.g, r, own[0].ok, Fates(own), done.ok)
  {
    hide PassEffect, Fates;
  }

  lemma OwnStep(g0: Shared, s: State, t: Thread, r: bytes, own: seq<Move>, m: Move)
    requires Inv(s) && Stage(g0, s.g, r, own, PcOf(s, t)) && !PcOf(s, t).EmitUnlock? && m.Proceed?
    requires Next(s, t, m).Some?
    ensures var next := Next(s, t, m).value;
            Stage(g0, next.g, r, own + [m], PcOf(next, t))
  {
    hide Stage, Advance;
    StageHoldsMu(g0, s.g, r, own, PcOf(s, t));
    assert Local(s.g, t, PcOf(s, t));
    OwnMove(g0, s.g, t, PcOf(s, t), r, own, m);
  }

  /** The pass that begins `j` moves into the run, with the mutex just taken, ends `k` moves later. */
  ghost predicate PassAt(s: State, run: seq<(Thread, Move)>, t: Thread, r: bytes, j: nat, k: nat) {
    && 0 < j <= |run| && run[j - 1].0 == t && Own(run[..j - 1], t) == []
    && Run(s, run[..j]).Some?
    && var began := Run(s, run[..j]).value;
       && PcOf(began, t) == EmitCheck(r) && began.g.mu == Some(t)
       && PassEndsAt(began.g, began, run[j..], t, r, [], k)
  }

  lemma {:induction false} WaitsThenPasses(s: State, run: seq<(Thread, Move)>, t: Thread) returns (j: nat, k: nat)
    requires Inv(s) && PcOf(s, t).EmitLock?
    requires Run(s, run).Some? && AllProceed(Own(run, t)) && PcOf(Run(s, run).value, t).Emitted?
    ensures PassAt(s, run, t, PcOf(s, t).record, j, k)
    decreases |run|
  {
    hide Inv, Stage, PassEndsAt;
    var r := PcOf(s, t).record;
    OwnOfRest(run, t);
    var (u, m) := run[0];
    var next := Next(s, u, m).value;
    StepKeepsInv(s, u, m);
    if u == t {
      LockStep(s, t, m);
      hide Next;
      k := PassEnds(next.g, next, run[1..], t, r, []);
      j := 1;
      assert run[..1] == [run[0]] && run[..1][1..] == [] && run[..0] == [];
      assert Run(s, run[..1]) == Some(next);
      assert PassEndsAt(next.g, next, run[1..], t, r, [], k);
    } else {
      assert PcOf(next, t) == PcOf(s, t);
      hide Next;
      j, k := WaitsThenPasses(next, run[1..], t);
      WaitShift(s, run, t, r, j, k);
      j := j + 1;
    }
  }

  lemma LockStep(s: State, t: Thread, m: Move)
    requires PcOf(s, t).EmitLock? && m.Proceed? && Next(s, t, m).Some?
    ensures var next := Next(s, t, m).value;
            PcOf(next, t) == EmitCheck(PcOf(s, t).record) && next.g.mu == Some(t)
            && Stage(next.g, next.g, PcOf(s, t).record, [], PcOf(next, t))
  {
    hide PassEffect, Fates, Wrote, Acknowledged;
  }

  lemma WaitShift(s: State, run: seq<(Thread, Move)>, t: Thread, r: bytes, j: nat, k: nat)
    requires run != [] && run[0].0 != t && Next(s, run[0].0, run[0].1).Some?
    requires PassAt(Next(s, run[0].0, run[0].1).value, run[1..], t, r, j, k)
    ensures PassAt(s, run, t, r, j + 1, k)
  {
    hide Next, PassEndsAt;
    assert run[..j + 1][0] == run[0] && run[..j + 1][1..] == run[1..][..j];
    assert run[..j][0] == run[0] && run[..j][1..] == run[1..][..j - 1];
    assert run[j + 1..] == run[1..][j..];
  }

  /** Every call of Emit, in every run: it adds one line feed to the text, waits for the mutex, and from there
      to its return has exactly the effect of one pass over the sinks as it found them, and reports it, however
      the moves of other emitters, closers and the heartbeat fall in between. */
  lemma EmitIsAtomic(sinks: nat, heartbeat: bool, before: seq<(Thread, Move)>, t: Thread, text: bytes,
                     run: seq<(Thread, Move)>)
      returns (j: nat, k: nat)
    requires sinks > 0 && Run(Initial(sinks, heartbeat), before).Some?
    requires var s := Run(Initial(sinks, heartbeat), before).value;
             && Next(s, t, CallEmit(text)).Some? && Run(Next(s, t, CallEmit(text)).value, run).Some?
             && AllProceed(Own(run, t)) && PcOf(Run(Next(s, t, CallEmit(text)).value, run).value, t).Emitted?
    ensures var s := Run(Initial(sinks, heartbeat), before).value;
            PassAt(Next(s, t, CallEmit(text)).value, run, t, text + [10], j, k)
  {
    var s := Run(Initial(sinks, heartbeat), before).value;
    InitialInv(sinks, heartbeat);
    RunKeepsInv(Initial(sinks, heartbeat), before);
    StepKeepsInv(s, t, CallEmit(text));
    var called := Next(s, t, CallEmit(text)).value;
    assert PcOf(called, t) == EmitLock(text + [10]);
    hide Inv, Next, Run, PassAt;
    j, k := WaitsThenPasses(called, run, t);
  }

  /** The move that lets the pass go on as it should: json.Marshal with this outcome, writes with these fates. */
  function Scripted(pc: Pc, marshaled: bool, fates: seq<Fate>): Move {
    Proceed(marshaled, if pc.Writing? && pc.i < |fates| then fates[pc.i] else Fate.Written)
  }

  lemma HolderCanMove(s: State, t: Thread, m: Move)
    requires Inv(s) && InEmit(PcOf(s, t)) && HoldsMu(PcOf(s, t)) && m.Proceed?
    ensures var next := Next(s, t, m);
            && next.Some? && Inv(next.value) && next.value.g.sinks == s.g.sinks
            && 0 <= Rank(next.value.g, PcOf(next.value, t)) < Rank(s.g, PcOf(s, t))
  {
    hide LogGlobal, CloseLocal, CloseStep, Gains;
    assert Local(s.g, t, PcOf(s, t));
    if PcOf(s, t).FanLock? {
      MultiMutexIsFree(s, t);
    }
    StepKeepsInv(s, t, m);
  }

  lemma {:induction false} CanPass(g0: Shared, s: State, t: Thread, r: bytes, own: seq<Move>, marshaled: bool,
                                   fates: seq<Fate>) returns (run: seq<(Thread, Move)>, n: nat)
    requires Inv(s) && Stage(g0, s.g, r, own, PcOf(s, t)) && |fates| == g0.sinks
    requires AllProceed(own) && (own != [] ==> own[0].ok == marshaled) && Fates(own) <= fates
    ensures forall i :: 0 <= i < |run| ==> run[i].0 == t
    ensures Run(s, run).Some? && n <= |fates|
    ensures var end := Run(s, run).value;
            var done := PcOf(end, t);
            && done.Emitted? && done.record == r && PassEffect(g0, end.g, r, marshaled, fates[..n], done.ok)
    decreases Rank(s.g, PcOf(s, t))
  {
    hide Inv, Stage, PassEffect, Fates, Next, Rank;
    var m := Scripted(PcOf(s, t), marshaled, fates);
    StageHoldsMu(g0, s.g, r, own, PcOf(s, t));
    HolderCanMove(s, t, m);
    var next := Next(s, t, m).value;
    if PcOf(s, t).EmitUnlock? {
      UnlockStep(g0, s, t, r, own, m);
      PassEffectOfSame(g0, s, t, m, r, marshaled, Fates(own));
      run, n := [(t, m)], |Fates(own)|;
      assert fates[..n] == Fates(own);
      assert Run(next, run[1..]) == Some(next);
    } else {
      OwnStep(g0, s, t, r, own, m);
      StageLength(g0, s.g, r, own, PcOf(s, t));
      ScriptedFate(own, PcOf(s, t), marshaled, fates);
      var rest;
      rest, n := CanPass(g0, next, t, r, own + [m], marshaled, fates);
      run := [(t, m)] + rest;
      assert run[1..] == rest;
    }
  }

  lemma StageLength(g0: Shared, g: Shared, r: bytes, own: seq<Move>, pc: Pc)
    requires Stage(g0, g, r, own, pc) && !pc.EmitUnlock?
    ensures AllProceed(own) && if pc.Writing? then |own| == pc.i + 2 && pc.i < g0.sinks else |own| < 2
  {
    hide Wrote, Acknowledged, SameData;
  }

  lemma {:induction false} ScriptedFate(own: seq<Move>, pc: Pc, marshaled: bool, fates: seq<Fate>)
    requires AllProceed(own) && if pc.Writing? then |own| == pc.i + 2 && pc.i < |fates| else |own| < 2
    requires (own != [] ==> own[0].ok == marshaled) && Fates(own) <= fates
    ensures var own' := own + [Scripted(pc, marshaled, fates)];
            && AllProceed(own') && own'[0].ok == marshaled && Fates(own') <= fates
  {
    OneMoreFate(own, Scripted(pc, marshaled, fates));
    var before := Fates(own);
    assert pc.Writing? ==> |before| == pc.i;
    hide Fates;
    if pc.Writing? {
      assert before + [fates[pc.i]] == fates[..pc.i + 1];
    }
  }

  lemma PassEffectOfSame(g0: Shared, s: State, t: Thread, m: Move, r: bytes, marshaled: bool, fates: seq<Fate>)
    requires PcOf(s, t).EmitUnlock? && m.Proceed? && Next(s, t, m).Some?
    requires PassEffect(g0, s.g, r, marshaled, fates, PcOf(Next(s, t, m).value, t).ok)
    ensures PassEffect(g0, Next(s, t, m).value.g, r, marshaled, fates, PcOf(Next(s, t, m).value, t).ok)
  {
    hide Acknowledged, Written, CloseStep;
  }

  /** Whatever json.Marshal and the sinks will do, a goroutine that has the mutex can finish its Emit by its own
      moves. The outcome is success exactly when the emitter is open, the event marshals and every sink
      acknowledges, and then the record is at the end of every sink and of every log. */
  lemma EveryPassHappens(sinks: nat, heartbeat: bool, before: seq<(Thread, Move)>, t: Thread, marshaled: bool,
                         fates: seq<Fate>) returns (run: seq<(Thread, Move)>, n: nat)
    requires sinks > 0 && Run(Initial(sinks, heartbeat), before).Some? && |fates| == sinks
    requires PcOf(Run(Initial(sinks, heartbeat), before).value, t).EmitCheck?
    ensures forall i :: 0 <= i < |run| ==> run[i].0 == t
    ensures var s := Run(Initial(sinks, heartbeat), before).value;
            && Run(s, run).Some? && n <= sinks
            && var g, g', r, done := s.g, Run(s, run).value.g, PcOf(s, t).record, PcOf(Run(s, run).value, t);
               && done.Emitted? && done.record == r && PassEffect(g, g', r, marshaled, fates[..n], done.ok)
               && (done.ok <==> !g.closed && marshaled && Acknowledged(fates))
               && (done.ok ==> && |g.logs| == |g.disks| == |g'.logs| == |g'.disks| == sinks
                               && forall i :: 0 <= i < sinks ==>
                                    && g'.logs[i] == g.logs[i] + [r] && g'.disks[i].records == g.disks[i].records + [r]
                                    && g'.disks[i].content == g.disks[i].content + r)
  {
    var s := Run(Initial(sinks, heartbeat), before).value;
    InitialInv(sinks, heartbeat);
    RunKeepsInv(Initial(sinks, heartbeat), before);
    var r := PcOf(s, t).record;
    assert s.g.sinks == sinks;
    FirstStage(s, t);
    hide Inv, Run, Stage;
    run, n := CanPass(s.g, s, t, r, [], marshaled, fates);
    EffectSpelled(s.g, Run(s, run).value.g, r, marshaled, fates, n, PcOf(Run(s, run).value, t).ok);
    hide PassEffect;
  }

  lemma FirstStage(s: State, t: Thread)
    requires PcOf(s, t).EmitCheck?
    ensures Stage(s.g, s.g, PcOf(s, t).record, [], PcOf(s, t)) && AllProceed([]) && Fates([]) == []
  {
    hide PassEffect, Wrote, Acknowledged;
  }

  lemma EffectSpelled(g: Shared, g': Shared, r: bytes, marshaled: bool, fates: seq<Fate>, n: nat, ok: bool)
    requires n <= |fates| == g.sinks && PassEffect(g, g', r, marshaled, fates[..n], ok)
    ensures ok <==> !g.closed && marshaled && Acknowledged(fates)
    ensures ok ==> && |g.logs| == |g.disks| == |g'.logs| == |g'.disks| == g.sinks
                   && forall i :: 0 <= i < g.sinks ==>
                        && g'.logs[i] == g.logs[i] + [r] && g'.disks[i].records == g.disks[i].records + [r]
                        && g'.disks[i].content == g.disks[i].content + r
  {
    if n > 0 {
      assert fates[..n][n - 1] == fates[n - 1];
      assert forall i :: 0 <= i < n - 1 ==> fates[..n][..n - 1][i] == fates[i];
    }
    if ok {
      assert fates[..n] == fates;
    }
  }

  // ---------- calls return ----------

  /** Inside the Emit of `r`, or just returned from it. */
  predicate Emitting(pc: Pc, r: bytes) {
    (InEmit(pc) || pc.Emitted?) && pc.record == r
  }

  /** Inside Close, or just returned from it. */
  predicate InClose(pc: Pc) {
    pc.CloseLock? || pc.CloseCheck? || ShuttingDown(pc) || pc.CloseReturned?
  }

  lemma StaysInCall(g: Shared, t: Thread, pc: Pc, m: Move, r: bytes)
    requires (m.Proceed? || m.SeeStop?) && t.Goroutine? && Advance(g, t, pc, m).Some?
    ensures Emitting(pc, r) ==> Emitting(Advance(g, t, pc, m).value.0, r)
    ensures InClose(pc) ==> InClose(Advance(g, t, pc, m).value.0)
  {
    hide Gains;
    if InEmit(pc) {
      hide CloseStep;
    } else {
      hide EmitStep;
    }
  }

  lemma {:induction false} RunStaysInCall(s: State, run: seq<(Thread, Move)>, id: nat, r: bytes)
    requires Run(s, run).Some? && forall k :: 0 <= k < |run| ==> run[k].1.Proceed? || run[k].1.SeeStop?
    ensures Emitting(PcOf(s, Goroutine(id)), r) ==> Emitting(PcOf(Run(s, run).value, Goroutine(id)), r)
    ensures InClose(PcOf(s, Goroutine(id))) ==> InClose(PcOf(Run(s, run).value, Goroutine(id)))
    decreases |run|
  {
    hide Advance, Emitting, InClose;
    if run != [] {
      var (u, m) := run[0];
      assert m.Proceed? || m.SeeStop?;
      if u == Goroutine(id) {
        StaysInCall(s.g, u, PcOf(s, u), m, r);
      }
      RunStaysInCall(Next(s, u, m).value, run[1..], id, r);
    }
  }

  /** In every reachable state a goroutine outside can call Emit, and moves already under way bring it back with
      that record. */
  lemma EmitReturns(sinks: nat, heartbeat: bool, before: seq<(Thread, Move)>, id: nat, text: bytes)
      returns (run: seq<(Thread, Move)>)
    requires sinks > 0 && Run(Initial(sinks, heartbeat), before).Some? && NoLineFeed(text)
    requires Outside(PcOf(Run(Initial(sinks, heartbeat), before).value, Goroutine(id)))
    ensures forall k :: 0 <= k < |run| ==> run[k].1.Proceed? || run[k].1.SeeStop?
    ensures var s, t := Run(Initial(sinks, heartbeat), before).value, Goroutine(id);
            && Next(s, t, CallEmit(text)).Some? && Run(Next(s, t, CallEmit(text)).value, run).Some?
            && var done := PcOf(Run(Next(s, t, CallEmit(text)).value, run).value, t);
               done.Emitted? && done.record == text + [10]
  {
    var s, t := Run(Initial(sinks, heartbeat), before).value, Goroutine(id);
    InitialInv(sinks, heartbeat);
    RunKeepsInv(Initial(sinks, heartbeat), before);
    var called := Next(s, t, CallEmit(text)).value;
    StepKeepsInv(s, t, CallEmit(text));
    assert Emitting(PcOf(called, t), text + [10]);
    hide Inv, Next, Run;
    run := CanAlwaysFinish(called, id);
    RunStaysInCall(called, run, id, text + [10]);
  }

  /** The same for Close: it returns with the emitter closed and, when this closer was the effective one, with every
      sink closed. */
  lemma CloseReturns(sinks: nat, heartbeat: bool, before: seq<(Thread, Move)>, id: nat)
      returns (run: seq<(Thread, Move)>)
    requires sinks > 0 && Run(Initial(sinks, heartbeat), before).Some?
    requires Outside(PcOf(Run(Initial(sinks, heartbeat), before).value, Goroutine(id)))
    ensures forall k :: 0 <= k < |run| ==> run[k].1.Proceed? || run[k].1.SeeStop?
    ensures var s, t := Run(Initial(sinks, heartbeat), before).value, Goroutine(id);
            && Next(s, t, CallClose).Some? && Run(Next(s, t, CallClose).value, run).Some?
            && var end := Run(Next(s, t, CallClose).value, run).value;
               && PcOf(end, t) == CloseReturned && end.g.closed
               && (end.g.winner == Some(t) ==> end.g.multiClosed && end.g.closes == FirstSinks(sinks))
  {
    var s, t := Run(Initial(sinks, heartbeat), before).value, Goroutine(id);
    InitialInv(sinks, heartbeat);
    RunKeepsInv(Initial(sinks, heartbeat), before);
    var called := Next(s, t, CallClose).value;
    StepKeepsInv(s, t, CallClose);
    assert InClose(PcOf(called, t)) && called.g.sinks == sinks;
    hide Next, Run, LockLocal, LogLocal, LogGlobal, DiskGlobal, LineLocal, FirstSinks;
    run := CanAlwaysFinish(called, id);
    RunStaysInCall(called, run, id, []);
    RunKeepsInv(called, run);
    var end := Run(called, run).value;
    assert Local(end.g, t, PcOf(end, t));
  }
}
