/**
 The sinks and the emitter of internal/audit, run by one goroutine at a time. What the operating system
 does with each write is an input (`Fate`). Shutdown and interleaving are the subject of AuditRuns.
 */
module Audit {
  import opened Basics

  const LF: byte := 10

  /** The outcome of one write: complete, complete but not synced to disk, or cut after `n` bytes. */
  datatype Fate = Written | Unsynced | Torn(n: nat)

  /** What of `p` reaches the destination. */
  function Landed(p: bytes, fate: Fate): (landed: bytes)
    ensures landed == if fate.Torn? && fate.n < |p| then p[..fate.n] else p
  {
    if fate.Torn? && fate.n < |p| then p[..fate.n] else p
  }

  datatype SinkError = SinkClosed | WriteFailed | SyncFailed | MarshalFailed | CloseFailed

  /** A destination. Only file sinks sync, and only they can be closed. `records` lists what has been
      written completely and `acked` what Write reported as written; both are history. */
  class Sink {
    const isFile: bool
    var open: bool
    var content: bytes
    ghost var records: seq<bytes>
    ghost var acked: seq<bytes>
    ghost var torn: bool

    ghost predicate Valid()
      reads this
    {
      && (!torn ==> content == Flatten(records))
      && Subsequence(acked, records)
    }

    constructor (isFile: bool)
      ensures Valid() && open && content == [] && records == [] && acked == [] && !torn && this.isFile == isFile
    {
      this.isFile, open, content := isFile, true, [];
      records, acked, torn := [], [], false;
    }

    /** A write with this fate would be acknowledged. */
    predicate Takes(fate: Fate)
      reads this
    {
      open && (fate.Written? || (fate.Unsynced? && !isFile))
    }

    method Write(p: bytes, fate: Fate) returns (err: Option<SinkError>)
      requires Valid()
      modifies this
      ensures Valid() && open == old(open)
      ensures err.None? <==> old(Takes(fate))
      ensures !old(open) ==> err == Some(SinkClosed)
      ensures old(open) && fate.Torn? ==> err == Some(WriteFailed)
      ensures if err.None? then Took(this, p) else Refused(this, p, fate)
      ensures torn == (old(torn) || (old(open) && fate.Torn?))
    {
      if !open {
        return Some(SinkClosed);
      }
      content := content + Landed(p, fate);
      if fate.Torn? {
        torn := true;
        return Some(WriteFailed);
      }
      FlattenSnoc(records, p);
      SubsequenceExtend(acked, records, p);
      records := records + [p];
      if isFile && fate.Unsynced? {
        return Some(SyncFailed);
      }
      acked := acked + [p];
      err := None;
    }

    /** The handle is dropped by the first call even when closing it `fails`; later calls do nothing. */
    method Close(fails: bool) returns (err: Option<SinkError>)
      requires Valid()
      modifies this
      ensures Valid() && open == (old(open) && !isFile)
      ensures content == old(content) && acked == old(acked) && records == old(records) && torn == old(torn)
      ensures err == if isFile && old(open) && fails then Some(CloseFailed) else None
    {
      if !isFile || !open {
        return None;
      }
      open := false;
      err := if fails then Some(CloseFailed) else None;
    }
  }

  ghost predicate Distinct(sinks: seq<Sink>) {
    forall i, j :: 0 <= i < j < |sinks| ==> sinks[i] != sinks[j]
  }

  /** What each sink has acknowledged. */
  ghost function Logs(sinks: seq<Sink>): (logs: seq<seq<bytes>>)
    reads sinks
    ensures |logs| == |sinks| && forall i :: 0 <= i < |sinks| ==> logs[i] == sinks[i].acked
  {
    if sinks == [] then [] else [sinks[0].acked] + Logs(sinks[1..])
  }

  /** The logs after the first `n` sinks acknowledge `p`. */
  ghost function Fanout(logs: seq<seq<bytes>>, p: bytes, n: nat): (r: seq<seq<bytes>>)
    ensures |r| == |logs|
    ensures forall i :: 0 <= i < |logs| ==> r[i] == if i < n then logs[i] + [p] else logs[i]
  {
    if logs == [] then []
    else if n == 0 then logs
    else [logs[0] + [p]] + Fanout(logs[1..], p, n - 1)
  }

  /** Each sink has acknowledged a subsequence of what the sink before it has. */
  ghost predicate Chain(logs: seq<seq<bytes>>) {
    forall i :: 0 <= i < |logs| - 1 ==> Subsequence(logs[i + 1], logs[i])
  }

  lemma {:induction false} FanoutKeepsChain(logs: seq<seq<bytes>>, p: bytes, n: nat)
    requires Chain(logs)
    ensures Chain(Fanout(logs, p, n))
  {
    hide Subsequence, Fanout;
    var r := Fanout(logs, p, n);
    forall i | 0 <= i < |r| - 1
      ensures Subsequence(r[i + 1], r[i])
    {
      assert Subsequence(logs[i + 1], logs[i]);
      SubsequenceExtend(logs[i + 1], logs[i], p);
    }
  }

  /** The sink acknowledged `p` and has all of it. */
  twostate predicate Took(s: Sink, p: bytes)
    reads s
  {
    && s.acked == old(s.acked) + [p] && s.records == old(s.records) + [p]
    && s.content == old(s.content) + p && s.open == old(s.open)
  }

  /** The sink reported an error and has what the fate of the write let through. */
  twostate predicate Refused(s: Sink, p: bytes, fate: Fate)
    reads s
  {
    && s.acked == old(s.acked) && s.open == old(s.open)
    && s.records == old(s.records) + (if old(s.open) && !fate.Torn? then [p] else [])
    && s.content == old(s.content) + (if old(s.open) then Landed(p, fate) else [])
  }

  /** A fan-out of `p` that `n` sinks acknowledged: they would take it and did, the next one would not, and
      those after it are as before. */
  twostate predicate FannedOut(sinks: seq<Sink>, p: bytes, fates: seq<Fate>, n: nat)
    requires |fates| == |sinks| && n <= |sinks|
    reads sinks
  {
    && (forall i :: 0 <= i < n ==> old(sinks[i].Takes(fates[i])) && Took(sinks[i], p))
    && (n < |sinks| ==> !old(sinks[n].Takes(fates[n])) && Refused(sinks[n], p, fates[n]))
    && (forall i :: n < i < |sinks| ==> unchanged(sinks[i]))
  }

  lemma FanoutLogs(sinks: seq<Sink>, before: seq<seq<bytes>>, p: bytes, n: nat)
    requires |before| == |sinks|
    requires forall k :: 0 <= k < |sinks| ==> sinks[k].acked == if k < n then before[k] + [p] else before[k]
    ensures Logs(sinks) == Fanout(before, p, n)
  {
    hide Logs, Fanout;
    assert forall k :: 0 <= k < |sinks| ==> Logs(sinks)[k] == Fanout(before, p, n)[k];
  }

  class MultiSink {
    const sinks: seq<Sink>
    var closed: bool

    ghost predicate Valid()
      reads this, sinks
    {
      Distinct(sinks) && sinks != [] && forall i :: 0 <= i < |sinks| ==> sinks[i].Valid()
    }

    constructor (sinks: seq<Sink>)
      requires Distinct(sinks) && sinks != [] && forall i :: 0 <= i < |sinks| ==> sinks[i].Valid()
      ensures Valid() && !closed && this.sinks == sinks
    {
      this.sinks, closed := sinks, false;
    }

    /** The fan-out stops at the first sink that fails: `n` sinks acknowledge, the next one does not, and
        those after it are not touched. */
    method Write(p: bytes, fates: seq<Fate>) returns (err: Option<SinkError>, ghost n: nat)
      requires Valid() && |fates| == |sinks|
      modifies sinks
      ensures Valid() && n <= |sinks|
      ensures closed ==> err == Some(SinkClosed) && n == 0 && forall i :: 0 <= i < |sinks| ==> unchanged(sinks[i])
      ensures !closed ==> (err.None? <==> n == |sinks|)
      ensures !closed ==> FannedOut(sinks, p, fates, n)
    {
      n, err := 0, None;
      if closed {
        return Some(SinkClosed), 0;
      }
      hide Subsequence, Flatten, Landed, Took, Refused;
      for i := 0 to |sinks|
        invariant Valid() && !closed && n == i && err.None?
        invariant forall k :: 0 <= k < i ==> old(sinks[k].Takes(fates[k])) && Took(sinks[k], p)
        invariant forall k :: i <= k < |sinks| ==> unchanged(sinks[k])
      {
        err := sinks[i].Write(p, fates[i]);
        if err.Some? {
          return;
        }
        n := n + 1;
      }
    }

    /** Every sink is closed, in order, even after one of them failed to close; nothing written is
        touched. An error is reported exactly when some open file sink failed to close. */
    method Close(faults: seq<bool>) returns (err: Option<SinkError>)
      requires Valid() && |faults| == |sinks|
      modifies this, sinks
      ensures Valid() && closed
      ensures forall i :: 0 <= i < |sinks| ==> sinks[i].open == (old(sinks[i].open) && !sinks[i].isFile)
      ensures forall i :: 0 <= i < |sinks| ==> sinks[i].content == old(sinks[i].content)
      ensures forall i :: 0 <= i < |sinks| ==> sinks[i].acked == old(sinks[i].acked)
      ensures forall i :: 0 <= i < |sinks| ==> sinks[i].records == old(sinks[i].records)
      ensures err.Some? <==> exists i :: 0 <= i < |sinks| && sinks[i].isFile && old(sinks[i].open) && faults[i]
    {
      hide Subsequence, Flatten;
      closed := true;
      err := None;
      for i := 0 to |sinks|
        invariant Valid() && closed
        invariant forall k :: 0 <= k < i ==> sinks[k].open == (old(sinks[k].open) && !sinks[k].isFile)
        invariant forall k :: 0 <= k < i ==> sinks[k].content == old(sinks[k].content)
        invariant forall k :: 0 <= k < i ==> sinks[k].acked == old(sinks[k].acked)
        invariant forall k :: 0 <= k < i ==> sinks[k].records == old(sinks[k].records)
        invariant forall k :: i <= k < |sinks| ==> unchanged(sinks[k])
        invariant err.Some? <==> exists k :: 0 <= k < i && sinks[k].isFile && old(sinks[k].open) && faults[k]
      {
        var e := sinks[i].Close(faults[i]);
        err := if err.Some? then err else e;
      }
    }
  }

  /** json.Marshal of an event: a text without line feeds, or a failure. */
  datatype Marshaled = Json(text: bytes) | Unencodable

  predicate NoLineFeed(s: bytes) {
    forall i :: 0 <= i < |s| ==> s[i] != LF
  }

  /** A line of the audit log: a text without line feeds, and one line feed. */
  predicate IsRecord(r: bytes) {
    r != [] && r[|r| - 1] == LF && NoLineFeed(r[..|r| - 1])
  }

  ghost predicate AllRecords(records: seq<bytes>) {
    forall i :: 0 <= i < |records| ==> IsRecord(records[i])
  }

  lemma OneMoreRecord(records: seq<bytes>, text: bytes)
    requires AllRecords(records) && NoLineFeed(text)
    ensures AllRecords(records + [text + [LF]])
  {
    assert (text + [LF])[..|text|] == text;
  }

  class Emitter {
    const sink: MultiSink
    var closed: bool

    ghost predicate Valid()
      reads this, sink, sink.sinks
    {
      && sink.Valid() && sink.closed == closed && Chain(Logs(sink.sinks))
      && forall i :: 0 <= i < |sink.sinks| ==> AllRecords(sink.sinks[i].records)
    }

    constructor (sinks: seq<Sink>)
      requires Distinct(sinks) && sinks != []
      requires forall i :: 0 <= i < |sinks| ==> sinks[i].Valid() && sinks[i].acked == [] && sinks[i].records == []
      ensures Valid() && !closed && sink.sinks == sinks
    {
      sink := new MultiSink(sinks);
      closed := false;
    }

    /** Emit: one record, newline added, to the sinks in order. It reports success exactly when the last
        sink acknowledged the record; the log chain is kept either way. */
    method Emit(event: Marshaled, fates: seq<Fate>) returns (err: Option<SinkError>, ghost n: nat)
      requires Valid() && |fates| == |sink.sinks|
      requires event.Json? ==> NoLineFeed(event.text)
      modifies sink.sinks
      ensures Valid() && n <= |sink.sinks|
      ensures closed ==> err == Some(SinkClosed) && n == 0
      ensures !closed && event.Unencodable? ==> err == Some(MarshalFailed) && n == 0
      ensures event.Json? ==> Logs(sink.sinks) == Fanout(old(Logs(sink.sinks)), event.text + [LF], n)
      ensures closed || event.Unencodable? ==> forall i :: 0 <= i < |sink.sinks| ==> unchanged(sink.sinks[i])
      ensures err.None? <==> event.Json? && n == |sink.sinks|
      ensures !closed && event.Json? ==> FannedOut(sink.sinks, event.text + [LF], fates, n)
    {
      hide Chain, Subsequence, Flatten, Logs, Fanout, AllRecords, Landed;
      n := 0;
      if closed {
        assert event.Json? ==> Fanout(Logs(sink.sinks), event.text + [LF], 0) == Logs(sink.sinks);
        return Some(SinkClosed), 0;
      }
      if event.Unencodable? {
        return Some(MarshalFailed), 0;
      }
      ghost var before := Logs(sink.sinks);
      ghost var line := event.text + [LF];
      forall i | 0 <= i < |sink.sinks|
        ensures AllRecords(old(sink.sinks[i].records) + [line])
      {
        OneMoreRecord(sink.sinks[i].records, event.text);
      }
      err, n := sink.Write(event.text + [LF], fates);
      assert forall i :: 0 <= i < |sink.sinks| ==>
                           || sink.sinks[i].records == old(sink.sinks[i].records)
                           || sink.sinks[i].records == old(sink.sinks[i].records) + [line];
      FanoutLogs(sink.sinks, before, line, n);
      FanoutKeepsChain(before, line, n);
    }

    /** Close without a heartbeat; a second call does nothing. */
    method Close(faults: seq<bool>) returns (err: Option<SinkError>)
      requires Valid() && |faults| == |sink.sinks|
      modifies this, sink, sink.sinks
      ensures Valid() && closed
      ensures Logs(sink.sinks) == old(Logs(sink.sinks))
      ensures old(closed) ==> err.None? && forall i :: 0 <= i < |sink.sinks| ==> unchanged(sink.sinks[i])
      ensures !old(closed) ==> forall i :: 0 <= i < |sink.sinks| ==> !(sink.sinks[i].isFile && sink.sinks[i].open)
      ensures !old(closed) ==>
                (err.Some? <==>
                   exists i :: 0 <= i < |sink.sinks| && sink.sinks[i].isFile && old(sink.sinks[i].open) && faults[i])
    {
      hide Subsequence, Flatten, Logs, Chain, AllRecords;
      if closed {
        return None;
      }
      closed := true;
      err := sink.Close(faults);
      assert Logs(sink.sinks) == old(Logs(sink.sinks));
    }
  }

  // ---------- reading a sink back ----------

  /** The texts before each line feed. */
  function SplitLines(s: bytes): seq<bytes>
    decreases |s|
  {
    var i := IndexOf(s, LF);
    if i == |s| then [] else [s[..i]] + SplitLines(s[i + 1..])
  }

  /** The records without their line feeds. */
  function Texts(records: seq<bytes>): seq<bytes> {
    if records == [] then [] else [Text(records[0])] + Texts(records[1..])
  }

  function Text(record: bytes): bytes {
    if record == [] then [] else record[..|record| - 1]
  }

  /** Whatever was emitted, a sink no write was torn on splits at line feeds into exactly its records, in
      order, and those it acknowledged are among them, in order. */
  lemma SinkReadsBack(e: Emitter, i: nat)
    requires e.Valid() && i < |e.sink.sinks| && !e.sink.sinks[i].torn
    ensures SplitLines(e.sink.sinks[i].content) == Texts(e.sink.sinks[i].records)
    ensures Subsequence(e.sink.sinks[i].acked, e.sink.sinks[i].records)
  {
    RecordsSplit(e.sink.sinks[i].records);
  }

  lemma {:induction false} RecordsSplit(records: seq<bytes>)
    requires AllRecords(records)
    ensures SplitLines(Flatten(records)) == Texts(records)
  {
    hide IsRecord;
    if records != [] {
      assert IsRecord(records[0]);
      SplitOne(records[0], Flatten(records[1..]));
      RecordsSplit(records[1..]);
    }
  }

  lemma SplitOne(r: bytes, rest: bytes)
    requires IsRecord(r)
    ensures SplitLines(r + rest) == [Text(r)] + SplitLines(rest)
  {
    var s, n := r + rest, |r| - 1;
    assert forall k :: 0 <= k < n ==> s[k] == r[..n][k];
    assert s[n] == LF;
    assert IndexOf(s, LF) == n;
    assert s[..n] == r[..n] && s[n + 1..] == rest;
  }
}
