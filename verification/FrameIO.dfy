/** ReadFrame and WriteFrame of internal/proxy/jsonrpc.go over a buffered reader and a byte sink. */
module FrameIO {
  import opened Basics
  import opened Framing
  import opened FramingRoundTrip

  /** A bufio.Reader over a stream that delivers `data` and then ends. */
  class Reader {
    const data: bytes
    var pos: nat

    ghost predicate Valid()
      reads this
    {
      pos <= |data|
    }

    ghost function Remaining(): bytes
      reads this
      requires Valid()
    {
      data[pos..]
    }

    constructor (data: bytes)
      ensures Valid() && Remaining() == data
    {
      this.data := data;
      pos := 0;
    }

    /** ReadString('\n'): the bytes up to and including the next LF; at end of input, whatever is left. */
    method ReadString() returns (line: bytes, eof: bool)
      requires Valid()
      modifies this`pos
      ensures Valid()
      ensures var s, i := old(Remaining()), IndexOf(old(Remaining()), LF);
              if i == |s| then eof && line == s && Remaining() == []
              else !eof && line == s[..i + 1] && Remaining() == s[i + 1..]
    {
      var start := pos;
      ghost var s := Remaining();
      while pos < |data| && data[pos] != LF
        invariant start <= pos <= |data|
        invariant forall j :: start <= j < pos ==> data[j] != LF
      {
        pos := pos + 1;
      }
      eof := pos == |data|;
      if !eof {
        IndexOfFirst(s, LF, pos - start);
        pos := pos + 1;
      }
      line := data[start..pos];
    }

    /** io.ReadFull: fills `buf`, or consumes what is left. */
    method ReadFull(buf: array<byte>) returns (n: nat)
      requires Valid()
      modifies this`pos, buf
      ensures Valid()
      ensures var s := old(Remaining());
              if buf.Length <= |s| then n == buf.Length && buf[..] == s[..n] && Remaining() == s[n..]
              else n == |s| && Remaining() == []
    {
      n := 0;
      ghost var s := Remaining();
      while n < buf.Length && pos < |data|
        invariant Valid() && n <= buf.Length && pos == old(pos) + n
        invariant forall k :: 0 <= k < n ==> buf[k] == s[k]
      {
        buf[n] := data[pos];
        n, pos := n + 1, pos + 1;
      }
    }

    method ReadContentLength() returns (r: Result<nat, ReadError>)
      requires Valid()
      modifies this`pos
      ensures Valid()
      ensures match ParseHeader(old(Remaining()), None)
              case Announced(n, rest) => r == Ok(n) && Remaining() == rest
              case HeaderFail(e, rest) => r == Err(e) && Remaining() == rest
    {
      hide ParseField, ParseHeader, NextStep, IndexOf, TrimEol, LineStep;
      var contentLength, found := 0, false;
      ghost var s := Remaining();
      while true
        invariant Valid()
        invariant ParseHeader(s, None) == ParseHeader(Remaining(), if found then Some(contentLength) else None)
        decreases |data| - pos
      {
        HeaderUnfold(Remaining(), if found then Some(contentLength) else None);
        var line, eof := ReadString();
        if eof {
          return Err(HeaderEof);
        }
        line := TrimEol(line);
        LineCases(line, Remaining());
        if line == [] {
          break;
        }
        match ParseField(line)
        case NoColon => return Err(MissingColon);
        case BadLength => return Err(BadNumber);
        case NegativeLength => return Err(Negative);
        case Length(n) => contentLength, found := n, true;
        case Other =>
      }
      r := if found then Ok(contentLength) else Err(MissingLength);
    }

    method ReadFrame() returns (r: Result<bytes, ReadError>)
      requires Valid()
      modifies this`pos
      ensures Valid()
      ensures match Parse(old(Remaining()), MAX_FRAME_BYTES)
              case Frame(body, rest) => r == Ok(body) && Remaining() == rest
              case Fail(e, rest) => r == Err(e) && Remaining() == rest
    {
      hide ParseHeader;
      var length := ReadContentLength();
      if length.Err? {
        return Err(length.error);
      }
      if length.value > MAX_FRAME_BYTES {
        return Err(TooLarge);
      }
      var buf := new byte[length.value];
      var n := ReadFull(buf);
      if n < buf.Length {
        return Err(if n == 0 then BodyEof else BodyShort);
      }
      r := Ok(buf[..]);
    }
  }

  /** A pipe that accepts `room` more bytes and then breaks, possibly in the middle of a write. */
  class Writer {
    var written: bytes
    var room: nat

    constructor (room: nat)
      ensures written == [] && this.room == room
    {
      written := [];
      this.room := room;
    }

    method Write(p: bytes) returns (ok: bool)
      modifies this
      ensures ok <==> |p| <= old(room)
      ensures ok ==> written == old(written) + p && room == old(room) - |p|
      ensures !ok ==> written == old(written) + p[..old(room)] && room == 0
    {
      ok := |p| <= room;
      var n := if ok then |p| else room;
      written, room := written + p[..n], room - n;
    }

    /** WriteFrame: two writes, the header and then the body. Unless the pipe breaks, the sink gains one
        whole frame; if it breaks, a proper prefix of the frame and nothing after it. */
    method WriteFrame(body: bytes) returns (ok: bool)
      modifies this
      ensures ok <==> |FrameBytes(body)| <= old(room)
      ensures ok ==> written == old(written) + FrameBytes(body) && room == old(room) - |FrameBytes(body)|
      ensures !ok ==> written == old(written) + FrameBytes(body)[..old(room)] && room == 0
    {
      hide HeaderBytes;
      var header := LENGTH_NAME + [COLON, SPACE] + Itoa(|body|) + CRLF + CRLF;
      assert header == HeaderBytes(|body|) by { WrittenText(|body|); }
      var was := written;
      ok := Write(header);
      if !ok {
        assert FrameBytes(body)[..old(room)] == header[..old(room)];
        return;
      }
      ok := Write(body);
      assert was + header + body == was + FrameBytes(body);
      if !ok {
        assert FrameBytes(body)[..old(room)] == header + body[..old(room) - |header|];
      }
    }
  }

  lemma WrittenText(n: nat)
    ensures HeaderBytes(n) == LENGTH_NAME + [COLON, SPACE] + Itoa(n) + CRLF + CRLF
  {
  }

  lemma LineCases(text: bytes, rest: bytes)
    ensures text == [] ==> LineStep(text, rest) == Blank(rest)
    ensures text != [] && ParseField(text).NoColon? ==> LineStep(text, rest) == Stop(MissingColon, rest)
    ensures text != [] && ParseField(text).BadLength? ==> LineStep(text, rest) == Stop(BadNumber, rest)
    ensures text != [] && ParseField(text).NegativeLength? ==> LineStep(text, rest) == Stop(Negative, rest)
    ensures text != [] && ParseField(text).Length? ==> LineStep(text, rest) == Line(Some(ParseField(text).n), rest)
    ensures text != [] && ParseField(text).Other? ==> LineStep(text, rest) == Line(None, rest)
  {
    hide ParseField;
  }

  /** One turn of the header loop. */
  lemma HeaderUnfold(s: bytes, last: Option<nat>)
    ensures IndexOf(s, LF) == |s| ==> ParseHeader(s, last) == HeaderFail(HeaderEof, [])
    ensures IndexOf(s, LF) < |s| ==>
              var step := LineStep(TrimEol(s[..IndexOf(s, LF) + 1]), s[IndexOf(s, LF) + 1..]);
              && (step.Stop? ==> ParseHeader(s, last) == HeaderFail(step.error, step.rest))
              && (step.Blank? && last.None? ==> ParseHeader(s, last) == HeaderFail(MissingLength, step.rest))
              && (step.Blank? && last.Some? ==> ParseHeader(s, last) == Announced(last.value, step.rest))
              && (step.Line? ==> ParseHeader(s, last) == ParseHeader(step.rest, Latest(step.announced, last)))
  {
    hide LineStep;
  }
}
