/**
 What the frame reader and writer do, spelled out in characters: the header as text, the spellings of its
 name, the space and the numbers it allows, and the error for every input that is not a frame.
 */
module FramingSpelling {
  import opened Basics
  import opened Framing
  import opened FramingRoundTrip
  import opened FramingGrammar

  // ---------- text ----------

  function Ascii(s: string): (b: bytes)
    requires forall i :: 0 <= i < |s| ==> s[i] <= '\U{7F}'
    ensures |b| == |s| && forall i :: 0 <= i < |s| ==> b[i] == s[i] as int
  {
    seq(|s|, i requires 0 <= i < |s| => s[i] as int)
  }

  /** The written header, character by character, and the size limit. */
  lemma HeaderIsText(n: nat)
    ensures HeaderBytes(n) == Ascii("Content-Length: ") + Itoa(n) + Ascii("\r\n\r\n")
    ensures MAX_FRAME_BYTES == 1048576
  {
    hide Itoa;
    assert LENGTH_NAME + [COLON, SPACE] == Ascii("Content-Length: ");
    assert CRLF + CRLF == Ascii("\r\n\r\n");
    assert HeaderBytes(n) == (LENGTH_NAME + [COLON, SPACE]) + Itoa(n) + (CRLF + CRLF);
  }

  // ---------- the name ----------

  /** The letters of the name, each in either case, and its hyphen. */
  ghost predicate SpellsLength(name: bytes) {
    && |name| == |"Content-Length"|
    && forall i :: 0 <= i < |name| ==> SameLetter(name[i], "Content-Length"[i])
  }

  predicate SameLetter(b: byte, c: char) {
    || b == c as int
    || ('A' <= c <= 'Z' && b == c as int + 32)
    || ('a' <= c <= 'z' && b + 32 == c as int)
  }

  lemma LengthNameIsText()
    ensures LENGTH_NAME == Ascii("Content-Length")
  {
  }

  lemma NameSpelled(name: bytes)
    ensures IsLengthName(name) <==> SpellsLength(name)
  {
    LengthNameIsText();
    if |name| == 14 {
      forall i | 0 <= i < 14
        ensures Lower(name[i]) == Lower(LENGTH_NAME[i]) <==> SameLetter(name[i], "Content-Length"[i])
      {
        assert LENGTH_NAME[i] == "Content-Length"[i] as int;
        OneLetter(name[i], "Content-Length"[i], i);
      }
    }
  }

  lemma OneLetter(b: byte, c: char, i: nat)
    requires i < 14 && c == "Content-Length"[i]
    ensures Lower(b) == Lower(c as int) <==> SameLetter(b, c)
  {
  }

  lemma NoMarks(name: bytes)
    requires SpellsLength(name)
    ensures TrimSpace(name) == name
    ensures forall i :: 0 <= i < |name| ==> name[i] != COLON && name[i] != LF && name[i] != CR
  {
    forall i | 0 <= i < |name|
      ensures 45 <= name[i] <= 122 && name[i] != COLON
    {
      assert SameLetter(name[i], "Content-Length"[i]);
    }
    assert SpaceFront(name) == 0 && SpaceBack(name) == 0;
  }

  lemma SpelledLine(name: bytes, n: nat, t: bytes)
    requires SpellsLength(name) && n <= MAX_INT
    ensures NextStep(name + [COLON, SPACE] + Itoa(n) + CRLF + t) == Line(Some(n), t)
  {
    hide IsLengthName, ParseField, NextStep, TrimSpace, Atoi, Itoa, SpellsLength;
    NoMarks(name);
    NameSpelled(name);
    ItoaDecimal(n);
    TrimPaddedDigits(Itoa(n));
    AtoiItoa(n);
    FieldOf(name, [SPACE] + Itoa(n), n);
    var line, d := name + [COLON, SPACE] + Itoa(n), Itoa(n);
    assert line == name + [COLON] + ([SPACE] + d);
    assert line[|line| - 1] == d[|d| - 1];
    assert forall i :: 0 <= i < |d| ==> IsDigit(d[i]);
    CrlfLine(line, t);
  }

  lemma ReadAfterLine(s: bytes, body: bytes, t: bytes, cap: nat)
    requires |body| <= cap && NextStep(s) == Line(Some(|body|), CRLF + (body + t))
    ensures Parse(s, cap) == Frame(body, t)
  {
    var n, rest := |body|, body + t;
    hide NextStep, ParseHeader;
    LengthThenMore(s, n, CRLF + rest, None);
    BlankStep(rest);
    BlankEnds(CRLF + rest, n, rest);
    assert rest[..n] == body && rest[n..] == t;
  }

  lemma SpelledFrame(name: bytes, d: bytes, body: bytes, t: bytes)
    ensures name + Ascii(": ") + d + Ascii("\r\n\r\n") + body + t ==
            name + [COLON, SPACE] + d + CRLF + (CRLF + (body + t))
  {
    assert Ascii(": ") == [COLON, SPACE] && Ascii("\r\n\r\n") == CRLF + CRLF;
  }

  /** The header name is recognised in any mix of upper and lower case: the frame is read. */
  lemma AnySpellingIsRead(name: bytes, body: bytes, t: bytes, cap: nat)
    requires |body| <= cap && |body| <= MAX_INT && SpellsLength(name)
    ensures Parse(name + Ascii(": ") + Itoa(|body|) + Ascii("\r\n\r\n") + body + t, cap) == Frame(body, t)
  {
    hide Itoa, NextStep, Parse, SpellsLength, Ascii;
    SpelledFrame(name, Itoa(|body|), body, t);
    SpelledLine(name, |body|, CRLF + (body + t));
    ReadAfterLine(name + [COLON, SPACE] + Itoa(|body|) + CRLF + (CRLF + (body + t)), body, t, cap);
  }

  lemma ColonLine(name: bytes, value: bytes, t: bytes)
    requires forall i :: 0 <= i < |name| ==> name[i] != LF
    requires forall i :: 0 <= i < |value| ==> value[i] != LF
    ensures var l := name + [COLON] + value + [LF];
            && IsLine(l) && TrimEol(l) != [] && |name| < |TrimEol(l)|
            && TrimEol(l)[|name|] == COLON && TrimEol(l)[..|name|] == name
  {
    var l := name + [COLON] + value + [LF];
    assert l[|l| - 1] == LF && forall i :: 0 <= i < |l| - 1 ==> l[i] != LF;
    var text, k := TrimEol(l), |name|;
    assert l[k] == COLON && k < |text|;
    assert text[..k] == l[..k] == name;
  }

  lemma NamedField(text: bytes, k: nat)
    requires k < |text| && text[k] == COLON && forall i :: 0 <= i < k ==> text[i] != COLON
    ensures ParseField(text) == Other <==> !IsLengthName(TrimSpace(text[..k]))
  {
    hide TrimSpace, Atoi, IsLengthName;
    IndexOfFirst(text, COLON, k);
  }

  lemma PassedOver(text: bytes, t: bytes)
    requires text != []
    ensures LineStep(text, t) == Line(None, t) <==> ParseField(text) == Other
  {
    hide ParseField;
  }

  /** A line with a colon announces a length, or stops the reader, exactly when what is before its first colon
      spells the name, but for space around it; any other such line is passed over. */
  lemma OtherNamesPassedOver(name: bytes, value: bytes, t: bytes)
    requires forall i :: 0 <= i < |name| ==> name[i] != COLON && name[i] != LF
    requires forall i :: 0 <= i < |value| ==> value[i] != LF
    ensures NextStep(name + Ascii(":") + value + Ascii("\n") + t) == Line(None, t) <==> !SpellsLength(TrimSpace(name))
  {
    assert Ascii(":") == [COLON] && Ascii("\n") == [LF];
    var l := name + [COLON] + value + [LF];
    assert name + [COLON] + value + [LF] + t == l + t;
    hide TrimSpace, TrimEol, SpellsLength, IsLengthName, IsLine, NextStep, LineStep, ParseField, Ascii;
    ColonLine(name, value, t);
    var text := TrimEol(l);
    assert forall i :: 0 <= i < |name| ==> text[i] == text[..|name|][i];
    LineFirst(l, t);
    NamedField(text, |name|);
    PassedOver(text, t);
    NameSpelled(TrimSpace(name));
  }

  // ---------- space ----------

  /** The white space characters, each as its bytes. */
  predicate IsBlank(u: bytes) {
    || u == Ascii("\t") || u == Ascii("\n") || u == [11] || u == [12] || u == Ascii("\r") || u == Ascii(" ")
    || u == [0xC2, 0x85] || u == [0xC2, 0xA0] || u == [0xE1, 0x9A, 0x80]
    || (|u| == 3 && u[0] == 0xE2 && u[1] == 0x80 && 0x80 <= u[2] <= 0x8A)
    || u == [0xE2, 0x80, 0xA8] || u == [0xE2, 0x80, 0xA9] || u == [0xE2, 0x80, 0xAF]
    || u == [0xE2, 0x81, 0x9F] || u == [0xE3, 0x80, 0x80]
  }

  ghost predicate AllBlank(us: seq<bytes>) {
    forall i :: 0 <= i < |us| ==> IsBlank(us[i])
  }

  ghost predicate StartsBlank(s: bytes) {
    exists u :: u <= s && IsBlank(u)
  }

  ghost predicate EndsBlank(s: bytes) {
    exists k :: 0 <= k <= |s| && IsBlank(s[k..])
  }

  lemma BlankInFront(u: bytes, s: bytes)
    requires IsBlank(u)
    ensures SpaceFront(u + s) == |u| && (u + s)[|u|..] == s
  {
  }

  lemma BlankAtBack(s: bytes, u: bytes)
    requires IsBlank(u)
    ensures SpaceBack(s + u) == |u| && (s + u)[..|s|] == s
  {
    var t := s + u;
    assert t[|t| - 1] == u[|u| - 1];
    assert |u| >= 2 ==> t[|t| - 2] == u[|u| - 2];
    assert |u| >= 3 ==> t[|t| - 3] == u[|u| - 3];
  }

  lemma FrontIsBlank(s: bytes)
    ensures SpaceFront(s) > 0 ==> IsBlank(s[..SpaceFront(s)])
  {
  }

  lemma BackIsBlank(s: bytes)
    ensures SpaceBack(s) > 0 ==> IsBlank(s[|s| - SpaceBack(s)..])
  {
  }

  lemma {:induction false} FrontTrimmed(us: seq<bytes>, s: bytes)
    requires AllBlank(us) && !StartsBlank(s)
    ensures TrimFront(Flatten(us) + s) == s
  {
    hide IsBlank, SpaceFront;
    if us == [] {
      assert Flatten(us) + s == s;
      FrontIsBlank(s);
    } else {
      assert Flatten(us) + s == us[0] + (Flatten(us[1..]) + s);
      BlankInFront(us[0], Flatten(us[1..]) + s);
      BlankHasBytes(us[0]);
      FrontTrimmed(us[1..], s);
    }
  }

  lemma BlankHasBytes(u: bytes)
    requires IsBlank(u)
    ensures u != []
  {
  }

  lemma {:induction false} BackTrimmed(s: bytes, us: seq<bytes>)
    requires AllBlank(us) && !EndsBlank(s)
    ensures TrimBack(s + Flatten(us)) == s
  {
    hide IsBlank, SpaceBack;
    if us == [] {
      assert s + Flatten(us) == s;
      BackIsBlank(s);
    } else {
      var init, u := us[..|us| - 1], us[|us| - 1];
      assert us == init + [u];
      FlattenSnoc(init, u);
      assert s + Flatten(us) == (s + Flatten(init)) + u;
      BlankAtBack(s + Flatten(init), u);
      BlankHasBytes(u);
      BackTrimmed(s, init);
    }
  }

  /** Trimming takes away white space characters, any number on either side, and stops at the first that is
      none; a text of nothing else becomes empty. */
  lemma SpaceIsTrimmed(before: seq<bytes>, core: bytes, after: seq<bytes>)
    requires AllBlank(before) && AllBlank(after) && core != []
    requires !StartsBlank(core + Flatten(after)) && !EndsBlank(core)
    ensures TrimSpace(Flatten(before) + core + Flatten(after)) == core
    ensures TrimSpace(Flatten(before)) == []
  {
    hide IsBlank, TrimFront, TrimBack;
    assert Flatten(before) + core + Flatten(after) == Flatten(before) + (core + Flatten(after));
    FrontTrimmed(before, core + Flatten(after));
    BackTrimmed(core, after);
    NoneLeft();
    FrontTrimmed(before, []);
    assert Flatten(before) + [] == Flatten(before);
  }

  lemma NoneLeft()
    ensures !StartsBlank([]) && TrimBack([]) == []
  {
    forall u | u <= []
      ensures !IsBlank(u)
    {
    }
  }

  // ---------- numbers ----------

  /** The decimal text of a number, digit by digit. */
  lemma DigitByDigit(n: nat, d: nat)
    requires d < 10
    ensures Itoa(d) == [48 + d]
    ensures n > 0 ==> Itoa(10 * n + d) == Itoa(n) + [48 + d]
  {
    assert (10 * n + d) / 10 == n && (10 * n + d) % 10 == d;
  }

  function Zeros(k: nat): bytes {
    seq(k, _ => 48)
  }

  lemma {:induction false} ZerosInFront(k: nat, s: bytes)
    requires AllDigits(s)
    ensures AllDigits(Zeros(k) + s) && Decimal(Zeros(k) + s) == Decimal(s)
    decreases |s|, k
  {
    var t := Zeros(k) + s;
    if s != [] {
      ZerosInFront(k, s[..|s| - 1]);
      assert t[..|t| - 1] == Zeros(k) + s[..|s| - 1];
    } else if k > 0 {
      ZerosInFront(k - 1, s);
      assert t == Zeros(k) && t[..k - 1] == Zeros(k - 1) == Zeros(k - 1) + s;
    }
  }

  lemma {:induction false} DigitsAreNumber(s: bytes) returns (k: nat)
    requires s != [] && AllDigits(s)
    ensures s == Zeros(k) + Itoa(Decimal(s))
  {
    var init, d := s[..|s| - 1], s[|s| - 1] - 48;
    assert s == init + [48 + d] && AllDigits(init) && 0 <= d < 10;
    assert Decimal(s) == 10 * Decimal(init) + d;
    if init == [] {
      assert Decimal(init) == 0;
      hide Decimal, Itoa, AllDigits;
      DigitByDigit(0, d);
      k := 0;
      assert Zeros(0) + Itoa(d) == Itoa(d);
    } else {
      hide Decimal, Itoa, AllDigits, Zeros;
      var j := DigitsAreNumber(init);
      k := OneDigitMore(j, Decimal(init), d);
    }
  }

  lemma OneDigitMore(k: nat, n: nat, d: nat) returns (more: nat)
    requires d < 10
    ensures Zeros(k) + Itoa(n) + [48 + d] == Zeros(more) + Itoa(10 * n + d)
  {
    DigitByDigit(n, d);
    DigitByDigit(0, n % 10);
    hide Itoa;
    if n == 0 {
      more := k + 1;
      assert Itoa(0) == [48] && Zeros(k) + [48] == Zeros(k + 1);
    } else {
      more := k;
      assert Zeros(k) + Itoa(n) + [48 + d] == Zeros(k) + (Itoa(n) + [48 + d]);
    }
  }

  /** What is accepted as a number: an optional sign, zeros, and the digits of a 64-bit integer. */
  ghost predicate Writes(s: bytes, v: int) {
    && -9223372036854775808 <= v <= 9223372036854775807
    && exists k ::
         || (v >= 0 && s == Zeros(k) + Itoa(v))
         || (v >= 0 && s == Ascii("+") + Zeros(k) + Itoa(v))
         || (v <= 0 && s == Ascii("-") + Zeros(k) + Itoa(-v))
  }

  lemma Unsigned(s: bytes, k: nat, n: nat)
    requires s == Zeros(k) + Itoa(n)
    ensures s != [] && AllDigits(s) && Decimal(s) == n && IsDigit(s[0])
  {
    ItoaDecimal(n);
    ZerosInFront(k, Itoa(n));
  }

  lemma SignedReads(s: bytes, k: nat, n: nat)
    ensures s == Zeros(k) + Itoa(n) && n <= MAX_INT ==> Atoi(s) == Some(n)
    ensures s == [PLUS] + Zeros(k) + Itoa(n) && n <= MAX_INT ==> Atoi(s) == Some(n)
    ensures s == [MINUS] + Zeros(k) + Itoa(n) && n <= MAX_INT + 1 ==> Atoi(s).Some? && Atoi(s).value + n == 0
  {
    hide Itoa, Decimal;
    var d := Zeros(k) + Itoa(n);
    Unsigned(d, k, n);
    assert [PLUS] + Zeros(k) + Itoa(n) == [PLUS] + d && ([PLUS] + d)[1..] == d;
    assert [MINUS] + Zeros(k) + Itoa(n) == [MINUS] + d && ([MINUS] + d)[1..] == d;
    hide Zeros;
  }

  lemma ReadsAreSigned(s: bytes) returns (k: nat, n: nat)
    requires Atoi(s).Some?
    ensures || (s == Zeros(k) + Itoa(n) && Atoi(s) == Some(n))
            || (s == [PLUS] + Zeros(k) + Itoa(n) && Atoi(s) == Some(n))
            || (s == [MINUS] + Zeros(k) + Itoa(n) && Atoi(s).value + n == 0)
  {
    hide Itoa, Decimal;
    var digits := if s[0] == PLUS || s[0] == MINUS then s[1..] else s;
    k := DigitsAreNumber(digits);
    n := Decimal(digits);
    hide Zeros;
    if digits != s {
      assert s == [s[0]] + digits;
      assert [s[0]] + digits == [s[0]] + Zeros(k) + Itoa(n);
    }
  }

  lemma ReadsWrites(s: bytes, v: int)
    requires Atoi(s) == Some(v)
    ensures Writes(s, v)
  {
    assert Ascii("+") == [PLUS] && Ascii("-") == [MINUS];
    assert -MAX_INT - 1 <= v <= MAX_INT;
    hide Itoa, Zeros, Ascii, Atoi;
    var k, n := ReadsAreSigned(s);
  }

  lemma WritesReads(s: bytes, v: int)
    requires Writes(s, v)
    ensures Atoi(s) == Some(v)
  {
    assert Ascii("+") == [PLUS] && Ascii("-") == [MINUS];
    hide Itoa, Zeros, Ascii, Atoi;
    var k :| (v >= 0 && s == Zeros(k) + Itoa(v)) || (v >= 0 && s == [PLUS] + Zeros(k) + Itoa(v))
             || (v <= 0 && s == [MINUS] + Zeros(k) + Itoa(-v));
    SignedReads(s, k, if v >= 0 then v else -v);
  }

  /** A text reads as the number `v` exactly when it writes `v`. */
  lemma NumbersSpelled(s: bytes, v: int)
    ensures Atoi(s) == Some(v) <==> Writes(s, v)
  {
    hide Atoi, Writes;
    if Atoi(s) == Some(v) {
      ReadsWrites(s, v);
    }
    if Writes(s, v) {
      WritesReads(s, v);
    }
  }
}
