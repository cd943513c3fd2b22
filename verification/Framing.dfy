/**
 The wire format of internal/proxy/jsonrpc.go as functions on byte strings: header lines ended by LF,
 a Content-Length field, a blank line, then that many body bytes. `ReadFrame` and `WriteFrame` are methods
 in module FrameIO, proved against `Parse` and `FrameBytes` here.
 */
module Framing {
  import opened Basics

  const LF: byte := 10
  const CR: byte := 13
  const SPACE: byte := 32
  const PLUS: byte := 43
  const MINUS: byte := 45
  const COLON: byte := 58
  const CRLF: bytes := [CR, LF]
  /** "Content-Length" */
  const LENGTH_NAME: bytes := [67, 111, 110, 116, 101, 110, 116, 45, 76, 101, 110, 103, 116, 104]
  const MAX_FRAME_BYTES: nat := 0x10_0000
  const MAX_INT: int := 0x7fff_ffff_ffff_ffff

  // ---------- trimming ----------

  /** strings.TrimRight(line, "\r\n"). */
  function TrimEol(s: bytes): (r: bytes)
    ensures r <= s
    ensures r == [] || (r[|r| - 1] != CR && r[|r| - 1] != LF)
    ensures forall i :: |r| <= i < |s| ==> s[i] == CR || s[i] == LF
  {
    if s == [] then s
    else if s[|s| - 1] == CR || s[|s| - 1] == LF then TrimEol(s[..|s| - 1])
    else s
  }

  predicate AsciiSpace(b: byte) {
    9 <= b <= 13 || b == SPACE
  }

  /** The three-byte UTF-8 encodings of Unicode white space. */
  predicate WideSpace(a: byte, b: byte, c: byte) {
    || (a == 0xE1 && b == 0x9A && c == 0x80)
    || (a == 0xE2 && b == 0x80 && (0x80 <= c <= 0x8A || c == 0xA8 || c == 0xA9 || c == 0xAF))
    || (a == 0xE2 && b == 0x81 && c == 0x9F)
    || (a == 0xE3 && b == 0x80 && c == 0x80)
  }

  /** How many bytes the white space character at the front of `s` takes; 0 when there is none. */
  function SpaceFront(s: bytes): (n: nat)
    ensures n <= |s|
  {
    if |s| >= 1 && AsciiSpace(s[0]) then 1
    else if |s| >= 2 && s[0] == 0xC2 && (s[1] == 0x85 || s[1] == 0xA0) then 2
    else if |s| >= 3 && WideSpace(s[0], s[1], s[2]) then 3
    else 0
  }

  function SpaceBack(s: bytes): (n: nat)
    ensures n <= |s|
  {
    if |s| >= 1 && AsciiSpace(s[|s| - 1]) then 1
    else if |s| >= 2 && s[|s| - 2] == 0xC2 && (s[|s| - 1] == 0x85 || s[|s| - 1] == 0xA0) then 2
    else if |s| >= 3 && WideSpace(s[|s| - 3], s[|s| - 2], s[|s| - 1]) then 3
    else 0
  }

  function TrimFront(s: bytes): bytes
    decreases |s|
  {
    if SpaceFront(s) == 0 then s else TrimFront(s[SpaceFront(s)..])
  }

  function TrimBack(s: bytes): bytes
    decreases |s|
  {
    if SpaceBack(s) == 0 then s else TrimBack(s[..|s| - SpaceBack(s)])
  }

  /** strings.TrimSpace: Unicode white space is removed at both ends. */
  function TrimSpace(s: bytes): bytes {
    TrimBack(TrimFront(s))
  }

  // ---------- numbers ----------

  predicate IsDigit(b: byte) {
    48 <= b <= 57
  }

  predicate AllDigits(s: bytes) {
    forall i :: 0 <= i < |s| ==> IsDigit(s[i])
  }

  function Decimal(s: bytes): nat
    requires AllDigits(s)
  {
    if s == [] then 0 else 10 * Decimal(s[..|s| - 1]) + (s[|s| - 1] - 48)
  }

  /** strconv.Itoa on a length. */
  function Itoa(n: nat): bytes {
    (if n < 10 then [] else Itoa(n / 10)) + [48 + n % 10]
  }

  /** strconv.Atoi with a 64-bit int: an optional sign, then one or more digits, in range. */
  function Atoi(s: bytes): Option<int> {
    var digits := if s != [] && (s[0] == PLUS || s[0] == MINUS) then s[1..] else s;
    if digits == [] || !AllDigits(digits) then None
    else
      var d: int := Decimal(digits);
      var n: int := if s[0] == MINUS then -d else d;
      if -MAX_INT - 1 <= n <= MAX_INT then Some(n) else None
  }

  // ---------- header fields ----------

  function Lower(b: byte): byte {
    if 65 <= b <= 90 then b + 32 else b
  }

  /** strings.EqualFold against "Content-Length". The only characters outside ASCII that fold to an
      ASCII letter are the Kelvin sign and the long s, and the name has neither k nor s. */
  predicate IsLengthName(name: bytes) {
    |name| == |LENGTH_NAME| && forall i :: 0 <= i < |name| ==> Lower(name[i]) == Lower(LENGTH_NAME[i])
  }

  /** What one header line (already without its line end) says. */
  datatype Field = NoColon | BadLength | NegativeLength | Length(n: nat) | Other

  function ParseField(line: bytes): Field {
    var colon := IndexOf(line, COLON);
    if colon == |line| then NoColon
    else if !IsLengthName(TrimSpace(line[..colon])) then Other
    else
      match Atoi(TrimSpace(line[colon + 1..]))
      case None => BadLength
      case Some(n) => if n < 0 then NegativeLength else Length(n)
  }

  // ---------- reading ----------

  datatype ReadError =
    | HeaderEof | MissingColon | BadNumber | Negative | MissingLength
    | TooLarge | BodyEof | BodyShort
  {
    /** errors.Is(err, io.EOF): the end of input inside the header, or before the first body byte. */
    predicate IsEof() { HeaderEof? || BodyEof? }
  }

  /** What one line of the header makes the loop do; `rest` is the input after that line. */
  datatype Step =
    | Stop(error: ReadError, rest: bytes)
    | Blank(rest: bytes)
    | Line(announced: Option<nat>, rest: bytes)

  /** The effect of a line whose text, without its line end, is `text`. */
  function LineStep(text: bytes, rest: bytes): (step: Step)
    ensures step.rest == rest
    ensures step.Blank? <==> text == []
  {
    if text == [] then Blank(rest)
    else
      match ParseField(text)
      case NoColon => Stop(MissingColon, rest)
      case BadLength => Stop(BadNumber, rest)
      case NegativeLength => Stop(Negative, rest)
      case Length(n) => Line(Some(n), rest)
      case Other => Line(None, rest)
  }

  function NextStep(s: bytes): (step: Step)
    ensures |step.rest| <= |s|
    ensures !step.Stop? ==> |step.rest| < |s|
  {
    var i := IndexOf(s, LF);
    if i == |s| then Stop(HeaderEof, []) else LineStep(TrimEol(s[..i + 1]), s[i + 1..])
  }

  datatype HeaderResult = Announced(n: nat, rest: bytes) | HeaderFail(error: ReadError, rest: bytes)

  function Latest(announced: Option<nat>, last: Option<nat>): Option<nat> {
    if announced.Some? then announced else last
  }

  /** The header loop: `last` is the most recent Content-Length so far. */
  function ParseHeader(s: bytes, last: Option<nat>): HeaderResult
    decreases |s|
  {
    match NextStep(s)
    case Stop(e, rest) => HeaderFail(e, rest)
    case Blank(rest) => if last.None? then HeaderFail(MissingLength, rest) else Announced(last.value, rest)
    case Line(announced, rest) => ParseHeader(rest, Latest(announced, last))
  }

  datatype ReadResult = Frame(body: bytes, rest: bytes) | Fail(error: ReadError, rest: bytes)

  /** One frame read from `s`; `rest` is what the reader has not consumed, also after a failure. */
  function Parse(s: bytes, cap: nat): ReadResult {
    match ParseHeader(s, None)
    case HeaderFail(e, rest) => Fail(e, rest)
    case Announced(n, rest) =>
      if n > cap then Fail(TooLarge, rest)
      else if n <= |rest| then Frame(rest[..n], rest[n..])
      else if rest == [] then Fail(BodyEof, [])
      else Fail(BodyShort, [])
  }

  /** Everything repeated reads yield: the bodies, then the error that ends the stream. */
  datatype StreamResult = StreamResult(bodies: seq<bytes>, error: ReadError)

  function ParseAll(s: bytes, cap: nat): StreamResult
    decreases |s|
  {
    match Parse(s, cap)
    case Fail(e, _) => StreamResult([], e)
    case Frame(body, rest) =>
      ParseConsumes(s, cap);
      var tail := ParseAll(rest, cap);
      StreamResult([body] + tail.bodies, tail.error)
  }

  // ---------- writing ----------

  function HeaderBytes(n: nat): bytes {
    LENGTH_NAME + [COLON, SPACE] + Itoa(n) + CRLF + CRLF
  }

  function FrameBytes(body: bytes): bytes {
    HeaderBytes(|body|) + body
  }

  /** The stream that writing `bodies` one after another produces. */
  function Stream(bodies: seq<bytes>): bytes {
    if bodies == [] then [] else FrameBytes(bodies[0]) + Stream(bodies[1..])
  }

  // ---------- progress ----------

  lemma {:induction false} HeaderConsumes(s: bytes, last: Option<nat>)
    ensures |ParseHeader(s, last).rest| <= |s|
    ensures ParseHeader(s, last).Announced? ==> |ParseHeader(s, last).rest| < |s|
    decreases |s|
  {
    match NextStep(s)
    case Stop(_, _) =>
    case Blank(_) =>
    case Line(announced, rest) => HeaderConsumes(rest, Latest(announced, last));
  }

  /** Every frame read uses up input, whatever its length: the measure of both pumps. */
  lemma ParseConsumes(s: bytes, cap: nat)
    ensures Parse(s, cap).Frame? ==> |Parse(s, cap).rest| < |s|
  {
    HeaderConsumes(s, None);
  }
}
