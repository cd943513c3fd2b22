/**
 A grammar for the input of the frame reader, stated without the reader, and the proof that the reader
 accepts exactly that grammar.
 */
module FramingGrammar {
  import opened Basics
  import opened Framing
  import opened FramingRoundTrip

  /** Bytes up to and including their first LF. */
  ghost predicate IsLine(l: bytes) {
    l != [] && l[|l| - 1] == LF && forall i :: 0 <= i < |l| - 1 ==> l[i] != LF
  }

  ghost predicate BlankLine(l: bytes) {
    IsLine(l) && TrimEol(l) == []
  }

  ghost predicate HeaderLine(l: bytes) {
    IsLine(l) && TrimEol(l) != []
  }

  ghost predicate HasColon(l: bytes) {
    exists i :: 0 <= i < |TrimEol(l)| && TrimEol(l)[i] == COLON
  }

  ghost function Name(l: bytes): bytes {
    TrimSpace(TrimEol(l)[..IndexOf(TrimEol(l), COLON)])
  }

  ghost function Value(l: bytes): bytes
    requires HasColon(l)
  {
    TrimSpace(TrimEol(l)[IndexOf(TrimEol(l), COLON) + 1..])
  }

  ghost predicate NamesLength(l: bytes) {
    IsLengthName(Name(l))
  }

  /** A header line the reader accepts: it has a colon, and if it names the length, its value is one. */
  ghost predicate GoodLine(l: bytes) {
    && HeaderLine(l)
    && HasColon(l)
    && (NamesLength(l) ==> Atoi(Value(l)).Some? && Atoi(Value(l)).value >= 0)
  }

  ghost predicate GoodLines(lines: seq<bytes>) {
    forall i :: 0 <= i < |lines| ==> GoodLine(lines[i])
  }

  /** The last line that names the length says `n`. */
  ghost predicate LastLength(lines: seq<bytes>, n: nat)
    requires GoodLines(lines)
  {
    exists k :: 0 <= k < |lines| && NamesLength(lines[k]) && Atoi(Value(lines[k])) == Some(n)
                && forall j :: k < j < |lines| ==> !NamesLength(lines[j])
  }

  /** `s` is header lines announcing `n`, a blank line, and `t`. */
  ghost predicate Header(s: bytes, lines: seq<bytes>, blank: bytes, n: nat, t: bytes) {
    && GoodLines(lines)
    && LastLength(lines, n)
    && BlankLine(blank)
    && s == Flatten(lines) + blank + t
  }

  // ---------- one line ----------

  lemma LineFirst(l: bytes, t: bytes)
    requires IsLine(l)
    ensures NextStep(l + t) == LineStep(TrimEol(l), t)
  {
    hide LineStep;
    var s := l + t;
    IndexOfFirst(s, LF, |l| - 1);
    assert s[..|l|] == l && s[|l|..] == t;
  }

  lemma GoodLineStep(l: bytes, t: bytes)
    requires HeaderLine(l)
    ensures GoodLine(l) <==> LineStep(TrimEol(l), t).Line?
    ensures GoodLine(l) ==>
              LineStep(TrimEol(l), t) == Line(if NamesLength(l) then Some(Atoi(Value(l)).value) else None, t)
  {
    hide Atoi, TrimSpace, IsLengthName;
    var text := TrimEol(l);
    assert HasColon(l) <==> IndexOf(text, COLON) < |text|;
  }

  /** Splits off the line the reader looks at next. */
  lemma FirstLine(s: bytes) returns (l: bytes, t: bytes)
    requires !NextStep(s).Stop?
    ensures IsLine(l) && s == l + t && NextStep(s) == LineStep(TrimEol(l), t)
  {
    hide LineStep;
    var i := IndexOf(s, LF);
    l, t := s[..i + 1], s[i + 1..];
  }

  // ---------- all lines ----------

  /** The length in force after `lines`, when it was `last` before them. */
  ghost function InForce(lines: seq<bytes>, last: Option<nat>): Option<nat>
    requires GoodLines(lines)
  {
    if lines == [] then last
    else
      InForce(lines[1..], if NamesLength(lines[0]) then Some(Atoi(Value(lines[0])).value) else last)
  }

  lemma {:induction false} InForceUnnamed(lines: seq<bytes>, last: Option<nat>)
    requires GoodLines(lines)
    requires forall i :: 0 <= i < |lines| ==> !NamesLength(lines[i])
    ensures InForce(lines, last) == last
  {
    hide GoodLine, NamesLength;
    if lines != [] {
      InForceUnnamed(lines[1..], last);
    }
  }

  lemma {:induction false} InForceNamed(lines: seq<bytes>, last: Option<nat>, k: nat)
    requires GoodLines(lines)
    requires k < |lines| && NamesLength(lines[k])
    requires forall j :: k < j < |lines| ==> !NamesLength(lines[j])
    ensures InForce(lines, last) == Some(Atoi(Value(lines[k])).value)
  {
    hide Atoi, NamesLength, Value, HeaderLine;
    assert GoodLine(lines[0]);
    var here := if NamesLength(lines[0]) then Some(Atoi(Value(lines[0])).value) else last;
    if k == 0 {
      InForceUnnamed(lines[1..], here);
    } else {
      InForceNamed(lines[1..], here, k - 1);
    }
  }

  /** The running value of the header loop is the last length announced. */
  lemma {:induction false} InForceIsLast(lines: seq<bytes>, n: nat)
    requires GoodLines(lines)
    ensures InForce(lines, None) == Some(n) <==> LastLength(lines, n)
  {
    hide Atoi, NamesLength, Value;
    if k :| 0 <= k < |lines| && NamesLength(lines[k]) {
      var m := LastNaming(lines, k);
      InForceNamed(lines, None, m);
      forall k | 0 <= k < |lines| && NamesLength(lines[k]) && (forall j :: k < j < |lines| ==> !NamesLength(lines[j]))
        ensures k == m
      {
      }
    } else {
      InForceUnnamed(lines, None);
    }
  }

  lemma LastNaming(lines: seq<bytes>, k: nat) returns (m: nat)
    requires k < |lines| && NamesLength(lines[k])
    ensures m < |lines| && NamesLength(lines[m])
    ensures forall j :: m < j < |lines| ==> !NamesLength(lines[j])
  {
    hide NamesLength;
    m := |lines| - 1;
    while !NamesLength(lines[m])
      invariant k <= m < |lines|
      invariant forall j :: m < j < |lines| ==> !NamesLength(lines[j])
      decreases m
    {
      m := m - 1;
    }
  }

  lemma {:induction false} HeaderJoins(lines: seq<bytes>, blank: bytes, t: bytes, last: Option<nat>)
    requires GoodLines(lines) && BlankLine(blank)
    ensures ParseHeader(Flatten(lines) + blank + t, last) ==
            var n := InForce(lines, last);
            if n.None? then HeaderFail(MissingLength, t) else Announced(n.value, t)
  {
    hide NextStep, Atoi, NamesLength, Value, ParseField;
    var s := Flatten(lines) + blank + t;
    if lines == [] {
      assert s == blank + t;
      LineFirst(blank, t);
    } else {
      var l, rest := lines[0], Flatten(lines[1..]) + blank + t;
      assert s == l + rest;
      LineFirst(l, rest);
      GoodLineStep(l, rest);
      HeaderJoins(lines[1..], blank, t, if NamesLength(l) then Some(Atoi(Value(l)).value) else last);
    }
  }

  lemma {:induction false} HeaderSplits(s: bytes, last: Option<nat>) returns (lines: seq<bytes>, blank: bytes)
    requires ParseHeader(s, last).Announced?
    ensures GoodLines(lines) && BlankLine(blank)
    ensures s == Flatten(lines) + blank + ParseHeader(s, last).rest
    ensures InForce(lines, last) == Some(ParseHeader(s, last).n)
    decreases |s|
  {
    hide NextStep, Atoi, NamesLength, Value, ParseField;
    var l, t := FirstLine(s);
    if NextStep(s).Blank? {
      lines, blank := [], l;
      assert Flatten(lines) + blank + t == l + t;
    } else {
      GoodLineStep(l, t);
      var here := Latest(NextStep(s).announced, last);
      var more;
      more, blank := HeaderSplits(t, here);
      lines := [l] + more;
      assert lines[1..] == more;
      assert forall i :: 0 < i < |lines| ==> lines[i] == more[i - 1];
      assert Flatten(lines) + blank + ParseHeader(t, here).rest
             == l + (Flatten(more) + blank + ParseHeader(t, here).rest);
    }
  }

  /** The header loop ends with length `n` exactly on a well-formed header announcing `n`. */
  lemma {:induction false} HeaderGrammar(s: bytes, n: nat, t: bytes)
    ensures ParseHeader(s, None) == Announced(n, t) <==> exists lines, blank :: Header(s, lines, blank, n, t)
  {
    hide Atoi, NamesLength, Value, ParseField, NextStep, LastLength, GoodLine, BlankLine;
    if ParseHeader(s, None) == Announced(n, t) {
      var lines, blank := HeaderSplits(s, None);
      InForceIsLast(lines, n);
      assert Header(s, lines, blank, n, t);
    }
    forall lines, blank | Header(s, lines, blank, n, t)
      ensures ParseHeader(s, None) == Announced(n, t)
    {
      HeaderJoins(lines, blank, t, None);
      InForceIsLast(lines, n);
    }
  }

  // ---------- main results ----------

  /** A frame is read exactly when the input is a well-formed header whose last length is within the
      cap, followed by that many bytes. */
  lemma ReadGrammar(s: bytes, cap: nat, body: bytes, rest: bytes)
    ensures Parse(s, cap) == Frame(body, rest) <==>
            |body| <= cap && exists lines, blank :: Header(s, lines, blank, |body|, body + rest)
  {
    hide ParseHeader, Header;
    HeaderGrammar(s, |body|, body + rest);
    var t := body + rest;
    assert t[..|body|] == body && t[|body|..] == rest;
    if Parse(s, cap) == Frame(body, rest) {
      assert ParseHeader(s, None).rest == t;
    }
  }

  /** A frame is refused as too large exactly when the last length announced exceeds the cap, and then
      the reader stands on the first body byte. */
  lemma {:induction false} OversizedGrammar(s: bytes, cap: nat, rest: bytes)
    ensures Parse(s, cap) == Fail(TooLarge, rest) <==>
            exists n: nat, lines, blank :: n > cap && Header(s, lines, blank, n, rest)
  {
    hide ParseHeader, Header;
    HeaderErrors(s, None);
    var h := ParseHeader(s, None);
    if h.Announced? {
      HeaderGrammar(s, h.n, rest);
    }
    forall n: nat, lines, blank | Header(s, lines, blank, n, rest)
      ensures h == Announced(n, rest)
    {
      HeaderGrammar(s, n, rest);
    }
  }

  lemma {:induction false} HeaderErrors(s: bytes, last: Option<nat>)
    ensures ParseHeader(s, last).HeaderFail? ==>
              var e := ParseHeader(s, last).error;
              e.HeaderEof? || e.MissingColon? || e.BadNumber? || e.Negative? || e.MissingLength?
    decreases |s|
  {
    hide ParseField;
    if NextStep(s).Line? {
      HeaderErrors(NextStep(s).rest, Latest(NextStep(s).announced, last));
    }
  }

  // ---------- every other input ----------

  lemma {:induction false} GoodLinesPass(lines: seq<bytes>, rest: bytes, last: Option<nat>)
    requires GoodLines(lines)
    ensures ParseHeader(Flatten(lines) + rest, last) == ParseHeader(rest, InForce(lines, last))
  {
    hide NextStep, Atoi, NamesLength, Value, ParseField;
    if lines == [] {
      assert Flatten(lines) + rest == rest;
    } else {
      var l, more := lines[0], Flatten(lines[1..]) + rest;
      assert Flatten(lines) + rest == l + more;
      LineFirst(l, more);
      GoodLineStep(l, more);
      GoodLinesPass(lines[1..], rest, if NamesLength(l) then Some(Atoi(Value(l)).value) else last);
    }
  }

  /** What is wrong with a header line that is not a good one. */
  ghost function LineFault(l: bytes): ReadError {
    if !HasColon(l) then MissingColon else if Atoi(Value(l)).None? then BadNumber else Negative
  }

  lemma BadLineStep(l: bytes, t: bytes)
    requires HeaderLine(l) && !GoodLine(l)
    ensures NextStep(l + t) == Stop(LineFault(l), t)
  {
    hide Atoi, TrimSpace, IsLengthName;
    LineFirst(l, t);
    assert HasColon(l) <==> IndexOf(TrimEol(l), COLON) < |TrimEol(l)|;
  }

  /** The first header line that is no good ends the read, whatever follows; the failure is no end of input. */
  lemma BadLineStops(lines: seq<bytes>, l: bytes, t: bytes, cap: nat)
    requires GoodLines(lines) && HeaderLine(l) && !GoodLine(l)
    ensures Parse(Flatten(lines) + l + t, cap) == Fail(LineFault(l), t) && !LineFault(l).IsEof()
  {
    assert Flatten(lines) + l + t == Flatten(lines) + (l + t);
    GoodLinesPass(lines, l + t, None);
    BadLineStep(l, t);
    hide NextStep, GoodLine, HeaderLine, InForce;
  }

  /** A header that names no length, or has no end, is refused; only the latter is an end of input. */
  lemma NoLengthStops(lines: seq<bytes>, blank: bytes, t: bytes, cap: nat)
    requires GoodLines(lines) && BlankLine(blank) && forall i :: 0 <= i < |lines| ==> !NamesLength(lines[i])
    ensures Parse(Flatten(lines) + blank + t, cap) == Fail(MissingLength, t) && !MissingLength.IsEof()
  {
    HeaderJoins(lines, blank, t, None);
    InForceUnnamed(lines, None);
    hide ParseHeader, GoodLine, NamesLength, BlankLine;
  }

  lemma UnendedHeader(lines: seq<bytes>, cut: bytes, cap: nat)
    requires GoodLines(lines) && forall i :: 0 <= i < |cut| ==> cut[i] != LF
    ensures Parse(Flatten(lines) + cut, cap) == Fail(HeaderEof, []) && HeaderEof.IsEof()
  {
    GoodLinesPass(lines, cut, None);
    NoLineYet(cut);
    hide NextStep, GoodLine, InForce;
  }

  /** A length above the cap is refused, and too few body bytes are; of these only none at all is an end of input. */
  lemma BodyFails(s: bytes, lines: seq<bytes>, blank: bytes, n: nat, part: bytes, cap: nat)
    requires Header(s, lines, blank, n, part)
    ensures n > cap ==> Parse(s, cap) == Fail(TooLarge, part) && !TooLarge.IsEof()
    ensures |part| < n <= cap ==> Parse(s, cap) == Fail(if part == [] then BodyEof else BodyShort, [])
    ensures BodyEof.IsEof() && !BodyShort.IsEof()
  {
    HeaderGrammar(s, n, part);
    hide ParseHeader, Header;
  }

  // ---------- ignored header lines ----------

  /** An extra header: any line with a colon whose name is not Content-Length. */
  ghost predicate ExtraLine(l: bytes) {
    HeaderLine(l) && HasColon(l) && !NamesLength(l)
  }

  lemma {:induction false} ExtraHeader(pre: seq<bytes>, l: bytes, t: bytes, last: Option<nat>)
    requires forall i :: 0 <= i < |pre| ==> HeaderLine(pre[i])
    requires ExtraLine(l)
    ensures var with, without := ParseHeader(Flatten(pre) + (l + t), last), ParseHeader(Flatten(pre) + t, last);
            with == without || (with.HeaderFail? && without.HeaderFail? && with.error == without.error)
  {
    hide NextStep, Atoi, NamesLength, Value, ParseField, HasColon;
    if pre == [] {
      assert Flatten(pre) + (l + t) == l + t && Flatten(pre) + t == t;
      LineFirst(l, t);
      GoodLineStep(l, t);
    } else {
      var h, p := pre[0], pre[1..];
      assert Flatten(pre) + (l + t) == h + (Flatten(p) + (l + t));
      assert Flatten(pre) + t == h + (Flatten(p) + t);
      LineFirst(h, Flatten(p) + (l + t));
      LineFirst(h, Flatten(p) + t);
      assert HeaderLine(h);
      ExtraHeaderStep(TrimEol(h), Flatten(p) + (l + t), Flatten(p) + t);
      ExtraHeader(p, l, t, last);
      var step := NextStep(h + (Flatten(p) + t));
      if step.Line? {
        ExtraHeader(p, l, t, Latest(step.announced, last));
      }
    }
  }

  lemma ExtraHeaderStep(text: bytes, a: bytes, b: bytes)
    requires text != []
    ensures var x, y := LineStep(text, a), LineStep(text, b);
            || (x.Line? && y.Line? && x.announced == y.announced)
            || (x.Stop? && y.Stop? && x.error == y.error)
  {
    hide ParseField;
  }

  /** Putting an extra header line anywhere before the blank line changes neither body nor remainder. */
  lemma {:induction false} ExtraHeaderIgnored(pre: seq<bytes>, l: bytes, t: bytes, cap: nat)
    requires forall i :: 0 <= i < |pre| ==> HeaderLine(pre[i])
    requires ExtraLine(l)
    requires Parse(Flatten(pre) + (l + t), cap).Frame? || Parse(Flatten(pre) + t, cap).Frame?
    ensures Parse(Flatten(pre) + (l + t), cap) == Parse(Flatten(pre) + t, cap)
  {
    hide ParseHeader, ExtraLine, HeaderLine, Flatten;
    ExtraHeader(pre, l, t, None);
  }

  // ---------- later input ----------

  ghost function ExtendStep(step: Step, more: bytes): Step {
    match step
    case Stop(e, rest) => Stop(e, rest + more)
    case Blank(rest) => Blank(rest + more)
    case Line(n, rest) => Line(n, rest + more)
  }

  lemma CutLater(s: bytes, more: bytes, i: nat)
    requires i < |s|
    ensures (s + more)[..i + 1] == s[..i + 1] && (s + more)[i + 1..] == s[i + 1..] + more
  {
  }

  lemma LineExtends(text: bytes, rest: bytes, more: bytes)
    ensures LineStep(text, rest + more) == ExtendStep(LineStep(text, rest), more)
  {
    hide ParseField;
  }

  lemma {:induction false} StepExtends(s: bytes, more: bytes)
    requires NextStep(s) != Stop(HeaderEof, [])
    ensures NextStep(s + more) == ExtendStep(NextStep(s), more)
  {
    hide LineStep, IndexOf, TrimEol, ExtendStep;
    var i := IndexOf(s, LF);
    assert i < |s|;
    IndexOfFirst(s + more, LF, i);
    CutLater(s, more, i);
    LineExtends(TrimEol(s[..i + 1]), s[i + 1..], more);
  }

  lemma {:induction false} HeaderExtends(s: bytes, more: bytes, last: Option<nat>)
    requires ParseHeader(s, last).Announced?
    ensures ParseHeader(s + more, last) == Announced(ParseHeader(s, last).n, ParseHeader(s, last).rest + more)
    decreases |s|
  {
    hide NextStep;
    StepExtends(s, more);
    if NextStep(s).Line? {
      HeaderExtends(NextStep(s).rest, more, Latest(NextStep(s).announced, last));
    }
  }

  /** A frame already complete reads the same whatever arrives after it. */
  lemma ReadExtends(s: bytes, more: bytes, cap: nat)
    requires Parse(s, cap).Frame?
    ensures Parse(s + more, cap) == Frame(Parse(s, cap).body, Parse(s, cap).rest + more)
  {
    hide ParseHeader;
    HeaderExtends(s, more, None);
    var n, t := ParseHeader(s, None).n, ParseHeader(s, None).rest;
    assert (t + more)[..n] == t[..n] && (t + more)[n..] == t[n..] + more;
  }
}
