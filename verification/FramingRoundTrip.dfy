/** What a reader gets back from written frames: round trip, unique decodability, truncation. */
module FramingRoundTrip {
  import opened Basics
  import opened Framing

  // ---------- numbers ----------

  lemma {:induction false} ItoaDecimal(n: nat)
    ensures Itoa(n) != [] && AllDigits(Itoa(n)) && Decimal(Itoa(n)) == n
  {
    var d := Itoa(n);
    if n >= 10 {
      ItoaDecimal(n / 10);
      assert d[..|d| - 1] == Itoa(n / 10);
    } else {
      assert d == [48 + n];
      assert d[..0] == [];
    }
  }

  lemma TrimPaddedDigits(d: bytes)
    requires d != [] && AllDigits(d)
    ensures TrimSpace([SPACE] + d) == d
  {
    var s := [SPACE] + d;
    assert s[1..] == d;
    assert IsDigit(d[0]) && IsDigit(d[|d| - 1]);
    assert TrimFront(d) == d;
    assert SpaceFront(s) == 1;
    assert TrimBack(d) == d;
  }

  // ---------- single lines ----------

  lemma IndexOfFirst(s: bytes, b: byte, k: nat)
    requires k < |s| && s[k] == b
    requires forall j :: 0 <= j < k ==> s[j] != b
    ensures IndexOf(s, b) == k
  {
  }

  lemma TrimEolOfLine(x: bytes)
    requires x != [] && x[|x| - 1] != CR && x[|x| - 1] != LF
    ensures TrimEol(x + CRLF) == x
  {
    var s := x + CRLF;
    assert s[..|s| - 1] == x + [CR];
    assert (x + [CR])[..|x|] == x;
  }

  /** The text of a written Content-Length line, without its line end. */
  function LengthLine(n: nat): bytes {
    LENGTH_NAME + [COLON, SPACE] + Itoa(n)
  }

  lemma LengthNameFacts()
    ensures |LENGTH_NAME| == 14
    ensures forall i :: 0 <= i < 14 ==> LENGTH_NAME[i] != COLON && LENGTH_NAME[i] != LF
    ensures TrimSpace(LENGTH_NAME) == LENGTH_NAME && IsLengthName(LENGTH_NAME)
  {
    assert SpaceFront(LENGTH_NAME) == 0 && SpaceBack(LENGTH_NAME) == 0;
  }

  lemma AtoiItoa(n: nat)
    requires n <= MAX_INT
    ensures Atoi(Itoa(n)) == Some(n)
  {
    ItoaDecimal(n);
    assert IsDigit(Itoa(n)[0]);
  }

  lemma FieldOf(name: bytes, value: bytes, n: nat)
    requires (forall i :: 0 <= i < |name| ==> name[i] != COLON) && IsLengthName(TrimSpace(name))
    requires Atoi(TrimSpace(value)) == Some(n)
    ensures ParseField(name + [COLON] + value) == Length(n)
  {
    var line := name + [COLON] + value;
    assert line[..|name|] == name;
    IndexOfFirst(line, COLON, |name|);
    assert line[|name| + 1..] == value;
  }

  lemma LengthLineField(n: nat)
    requires n <= MAX_INT
    ensures ParseField(LengthLine(n)) == Length(n)
  {
    hide Itoa, Atoi, TrimSpace, IsLengthName, ParseField;
    LengthNameFacts();
    ItoaDecimal(n);
    TrimPaddedDigits(Itoa(n));
    AtoiItoa(n);
    FieldOf(LENGTH_NAME, [SPACE] + Itoa(n), n);
    assert LengthLine(n) == LENGTH_NAME + [COLON] + ([SPACE] + Itoa(n));
  }

  lemma CrlfLine(line: bytes, t: bytes)
    requires line != [] && (forall i :: 0 <= i < |line| ==> line[i] != LF) && line[|line| - 1] != CR
    ensures NextStep(line + CRLF + t) == LineStep(line, t)
  {
    hide LineStep;
    var s, k := line + CRLF + t, |line| + 1;
    assert s[..k] == line + [CR];
    IndexOfFirst(s, LF, k);
    assert s[..k + 1] == line + CRLF;
    assert s[k + 1..] == t;
    TrimEolOfLine(line);
  }

  lemma LengthLineText(n: nat)
    ensures LengthLine(n) != [] && forall i :: 0 <= i < |LengthLine(n)| ==> LengthLine(n)[i] != LF
    ensures LengthLine(n)[|LengthLine(n)| - 1] != CR
  {
    LengthNameFacts();
    ItoaDecimal(n);
    var line, d := LengthLine(n), Itoa(n);
    assert AllDigits(d);
    assert line[|line| - 1] == d[|d| - 1];
    assert IsDigit(d[|d| - 1]);
  }

  lemma {:induction false} LengthLineStep(n: nat, t: bytes)
    requires n <= MAX_INT
    ensures NextStep(LengthLine(n) + CRLF + t) == Line(Some(n), t)
  {
    hide ParseField, NextStep, TrimEol, LengthLine, Itoa;
    LengthLineText(n);
    LengthLineField(n);
    CrlfLine(LengthLine(n), t);
  }

  lemma BlankStep(t: bytes)
    ensures NextStep(CRLF + t) == Blank(t)
  {
    var s := CRLF + t;
    IndexOfFirst(s, LF, 1);
    assert s[..2] == CRLF && s[2..] == t;
    assert CRLF[..1] == [CR] && [CR][..0] == [];
    assert TrimEol([CR]) == [];
  }

  lemma HeaderText(n: nat, t: bytes)
    ensures HeaderBytes(n) + t == LengthLine(n) + CRLF + (CRLF + t)
  {
    hide Itoa;
  }

  lemma LengthThenMore(s: bytes, n: nat, rest: bytes, last: Option<nat>)
    requires NextStep(s) == Line(Some(n), rest)
    ensures ParseHeader(s, last) == ParseHeader(rest, Some(n))
  {
    hide NextStep;
  }

  lemma BlankEnds(s: bytes, n: nat, rest: bytes)
    requires NextStep(s) == Blank(rest)
    ensures ParseHeader(s, Some(n)) == Announced(n, rest)
  {
    hide NextStep;
  }

  lemma {:induction false} WrittenHeader(n: nat, t: bytes, last: Option<nat>)
    requires n <= MAX_INT
    ensures ParseHeader(HeaderBytes(n) + t, last) == Announced(n, t)
  {
    hide ParseHeader, NextStep, HeaderBytes, LengthLine, Itoa;
    HeaderText(n, t);
    LengthLineStep(n, CRLF + t);
    LengthThenMore(HeaderBytes(n) + t, n, CRLF + t, last);
    BlankStep(t);
    BlankEnds(CRLF + t, n, t);
  }

  // ---------- round trip ----------

  /** Reading what WriteFrame wrote gives the body back, whatever its bytes, and stops exactly after it. */
  lemma {:induction false} WriteThenRead(body: bytes, t: bytes, cap: nat)
    requires |body| <= cap && |body| <= MAX_INT
    ensures Parse(FrameBytes(body) + t, cap) == Frame(body, t)
  {
    hide ParseHeader, HeaderBytes;
    assert FrameBytes(body) + t == HeaderBytes(|body|) + (body + t);
    WrittenHeader(|body|, body + t, None);
    assert (body + t)[..|body|] == body && (body + t)[|body|..] == t;
  }

  /** A frame above the cap is refused with the cursor on its first body byte. */
  lemma OversizedIsRefused(body: bytes, t: bytes, cap: nat)
    requires cap < |body| <= MAX_INT
    ensures Parse(FrameBytes(body) + t, cap) == Fail(TooLarge, body + t)
  {
    hide ParseHeader, HeaderBytes;
    assert FrameBytes(body) + t == HeaderBytes(|body|) + (body + t);
    WrittenHeader(|body|, body + t, None);
  }

  ghost predicate AllWithin(bodies: seq<bytes>, cap: nat) {
    forall i :: 0 <= i < |bodies| ==> |bodies[i]| <= cap && |bodies[i]| <= MAX_INT
  }

  lemma ReadOne(s: bytes, bodies: seq<bytes>, rest: bytes, t: bytes, cap: nat)
    requires bodies != []
    ensures Parse(s, cap) == Frame(bodies[0], rest)
            && ParseAll(rest, cap) == StreamResult(bodies[1..] + ParseAll(t, cap).bodies, ParseAll(t, cap).error) ==>
              ParseAll(s, cap) == StreamResult(bodies + ParseAll(t, cap).bodies, ParseAll(t, cap).error)
  {
    hide Parse;
    var last := ParseAll(t, cap).bodies;
    assert [bodies[0]] + (bodies[1..] + last) == bodies + last;
  }

  lemma StreamUnfold(bodies: seq<bytes>, t: bytes)
    requires bodies != []
    ensures Stream(bodies) + t == FrameBytes(bodies[0]) + (Stream(bodies[1..]) + t)
  {
  }

  lemma {:induction false} StreamThen(bodies: seq<bytes>, t: bytes, cap: nat)
    requires AllWithin(bodies, cap)
    ensures ParseAll(Stream(bodies) + t, cap) ==
            StreamResult(bodies + ParseAll(t, cap).bodies, ParseAll(t, cap).error)
  {
    hide Parse, FrameBytes;
    var s := Stream(bodies) + t;
    if bodies == [] {
      assert s == t;
    } else {
      var rest := Stream(bodies[1..]) + t;
      assert Parse(s, cap) == Frame(bodies[0], rest) by {
        StreamUnfold(bodies, t);
        WriteThenRead(bodies[0], rest, cap);
      }
      StreamThen(bodies[1..], t, cap);
      ReadOne(s, bodies, rest, t, cap);
    }
  }

  lemma NothingToRead(cap: nat)
    ensures ParseAll([], cap) == StreamResult([], HeaderEof)
  {
  }

  /** Any list of bodies within the cap is read back exactly, and then the stream ends at EOF. */
  lemma StreamRoundTrip(bodies: seq<bytes>, cap: nat)
    requires AllWithin(bodies, cap)
    ensures ParseAll(Stream(bodies), cap) == StreamResult(bodies, HeaderEof)
  {
    StreamThen(bodies, [], cap);
    NothingToRead(cap);
    hide Stream, ParseAll;
    assert Stream(bodies) + [] == Stream(bodies) && bodies + [] == bodies;
  }

  /** Two lists of bodies with the same bytes on the wire are the same list. */
  lemma UniqueDecoding(xs: seq<bytes>, ys: seq<bytes>)
    requires AllWithin(xs, MAX_INT) && AllWithin(ys, MAX_INT)
    requires Stream(xs) == Stream(ys)
    ensures xs == ys
  {
    hide Stream, ParseAll;
    StreamRoundTrip(xs, MAX_INT);
    StreamRoundTrip(ys, MAX_INT);
  }

  /** No frame is a proper prefix of another. */
  lemma PrefixFree(a: bytes, b: bytes)
    requires |a| <= MAX_INT && |b| <= MAX_INT
    requires FrameBytes(a) <= FrameBytes(b)
    ensures a == b
  {
    hide FrameBytes, Parse;
    var t := FrameBytes(b)[|FrameBytes(a)|..];
    assert FrameBytes(b) == FrameBytes(a) + t;
    WriteThenRead(a, t, MAX_INT);
    WriteThenRead(b, [], MAX_INT);
    assert FrameBytes(b) + [] == FrameBytes(b);
  }

  // ---------- streams built up frame by frame ----------

  lemma {:induction false} StreamAppend(xs: seq<bytes>, ys: seq<bytes>)
    ensures Stream(xs + ys) == Stream(xs) + Stream(ys)
  {
    if xs == [] {
      assert xs + ys == ys;
    } else {
      assert (xs + ys)[1..] == xs[1..] + ys;
      StreamAppend(xs[1..], ys);
    }
  }

  lemma StreamSnoc(xs: seq<bytes>, x: bytes)
    ensures Stream(xs + [x]) == Stream(xs) + FrameBytes(x)
  {
    StreamAppend(xs, [x]);
    assert Stream([x]) == FrameBytes(x) + Stream([]) == FrameBytes(x);
  }

  // ---------- truncation ----------

  lemma NoLineYet(p: bytes)
    requires forall i :: 0 <= i < |p| ==> p[i] != LF
    ensures NextStep(p) == Stop(HeaderEof, [])
  {
  }

  /** The header of a written frame, cut anywhere before its last byte. */
  lemma CutHeader(n: nat, p: bytes)
    requires n <= MAX_INT
    requires p < HeaderBytes(n)
    ensures ParseHeader(p, None) == HeaderFail(HeaderEof, [])
  {
    var h, line := HeaderBytes(n), LengthLine(n);
    assert h == line + CRLF + CRLF;
    LengthLineText(n);
    var k := |line| + 2;
    if |p| < k {
      assert p == (line + [CR])[..|p|];
      NoLineYet(p);
    } else {
      var q := p[k..];
      assert p[..k] == h[..k] == line + CRLF;
      assert p == line + CRLF + q;
      LengthLineStep(n, q);
      assert q == [CR][..|q|];
      NoLineYet(q);
    }
  }

  /** A frame cut short never reads as a frame; the failure counts as end of input exactly when no
      body byte had arrived. */
  lemma CutFrame(body: bytes, p: bytes, cap: nat)
    requires |body| <= cap && |body| <= MAX_INT
    requires p < FrameBytes(body)
    ensures Parse(p, cap).Fail?
    ensures Parse(p, cap).error.IsEof() <==> |p| <= |HeaderBytes(|body|)|
  {
    hide ParseHeader, HeaderBytes;
    var h := HeaderBytes(|body|);
    if |p| < |h| {
      assert p == h[..|p|];
      CutHeader(|body|, p);
    } else {
      var t := p[|h|..];
      assert p == h + t;
      WrittenHeader(|body|, t, None);
    }
  }

  /** Complete frames followed by a cut frame: exactly the complete ones are read. */
  lemma TruncatedStream(bodies: seq<bytes>, last: bytes, p: bytes, cap: nat)
    requires AllWithin(bodies + [last], cap)
    requires p < FrameBytes(last)
    ensures ParseAll(Stream(bodies) + p, cap).bodies == bodies
    ensures ParseAll(Stream(bodies) + p, cap).error.IsEof() <==> |p| <= |HeaderBytes(|last|)|
  {
    hide Stream, FrameBytes, HeaderBytes, Parse;
    var all := bodies + [last];
    assert all[|bodies|] == last;
    assert AllWithin(bodies, cap) by {
      assert forall i :: 0 <= i < |bodies| ==> bodies[i] == all[i];
    }
    StreamThen(bodies, p, cap);
    CutFrame(last, p, cap);
  }
}
