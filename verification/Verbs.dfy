/**
 The destructive-verb gate of internal/policy/destructive.go. The scan is modelled on arbitrary rune
 sequences and folding a name is an arbitrary function; the gate itself only meets printable ASCII names.
 */
module Verbs {
  import opened Basics

  type rune = char

  const DESTRUCTIVE_VERBS: seq<string> := ["delete", "drop", "truncate", "revoke", "disable", "wipe", "purge"]

  /** unicode.IsSpace. */
  predicate IsSpace(r: rune) {
    || '\t' <= r <= '\r' || r == ' ' || r == '\U{85}' || r == '\U{A0}' || r == '\U{1680}'
    || '\U{2000}' <= r <= '\U{200A}' || r == '\U{2028}' || r == '\U{2029}' || r == '\U{202F}'
    || r == '\U{205F}' || r == '\U{3000}'
  }

  predicate IsSeparator(r: rune) {
    if r <= '~' then r == '_' || r == '-' || r == '.' || r == ' ' || r == '\t' else IsSpace(r)
  }

  /** The words of a name: what is left between separators, empty pieces included. */
  function Tokens(s: seq<rune>): (ts: seq<seq<rune>>)
    ensures ts != []
  {
    if s == [] then [[]]
    else
      var ts := Tokens(s[1..]);
      if IsSeparator(s[0]) then [[]] + ts else [[s[0]] + ts[0]] + ts[1..]
  }

  predicate IsWord(needle: seq<rune>) {
    forall i :: 0 <= i < |needle| ==> !IsSeparator(needle[i])
  }

  /** `needle` occurs in `s` at position `i` with a boundary on both sides. */
  predicate WordAt(s: seq<rune>, needle: seq<rune>, i: nat) {
    && i + |needle| <= |s|
    && s[i..i + |needle|] == needle
    && (i == 0 || IsSeparator(s[i - 1]))
    && (i + |needle| == |s| || IsSeparator(s[i + |needle|]))
  }

  // ---------- the scan finds exactly the tokens ----------

  lemma {:induction false} FirstToken(s: seq<rune>, needle: seq<rune>)
    requires IsWord(needle)
    ensures Tokens(s)[0] == needle <==> WordAt(s, needle, 0)
  {
    hide IsSeparator;
    if s != [] {
      if IsSeparator(s[0]) {
        assert needle != [] && |needle| <= |s| ==> s[..|needle|][0] == s[0];
      } else if needle != [] {
        FirstToken(s[1..], needle[1..]);
        if |needle| <= |s| {
          assert s[0..|needle|] == [s[0]] + s[1..][0..|needle| - 1];
          assert needle == [needle[0]] + needle[1..];
        }
      }
    }
  }

  lemma {:induction false} LaterTokens(s: seq<rune>, needle: seq<rune>)
    requires IsWord(needle)
    ensures needle in Tokens(s)[1..] <==> exists i: nat :: i > 0 && WordAt(s, needle, i)
  {
    hide IsSeparator;
    if s != [] {
      var tail := s[1..];
      FirstToken(tail, needle);
      LaterTokens(tail, needle);
      assert Tokens(tail) == [Tokens(tail)[0]] + Tokens(tail)[1..];
      if i: nat :| i > 0 && WordAt(tail, needle, i) {
        WordShifts(s, needle, i + 1);
      }
      if i: nat :| i > 0 && WordAt(s, needle, i) {
        WordShifts(s, needle, i);
      }
      WordShifts(s, needle, 1);
      hide WordAt;
    }
  }

  /** An occurrence after the first rune is one in the tail; at the front of the tail it needs a separator before it. */
  lemma WordShifts(s: seq<rune>, needle: seq<rune>, i: nat)
    requires s != [] && i > 0
    ensures WordAt(s, needle, i) <==> WordAt(s[1..], needle, i - 1) && (i == 1 ==> IsSeparator(s[0]))
  {
    hide IsSeparator;
    var tail, n := s[1..], |needle|;
    if i + n <= |s| {
      var a, b := s[i..i + n], tail[i - 1..i - 1 + n];
      assert forall k :: 0 <= k < n ==> a[k] == s[i + k] && b[k] == tail[i - 1 + k] && s[i + k] == tail[i - 1 + k];
      assert a == b;
    }
  }

  /** Scanning every window with boundary tests is the same as splitting at separators and comparing words. */
  lemma ScanIsTokenSearch(s: seq<rune>, needle: seq<rune>)
    requires IsWord(needle)
    ensures (exists i: nat :: WordAt(s, needle, i)) <==> needle in Tokens(s)
  {
    hide WordAt;
    FirstToken(s, needle);
    LaterTokens(s, needle);
    assert Tokens(s) == [Tokens(s)[0]] + Tokens(s)[1..];
  }

  /** containsWordRunes: the nested loops with the `match` flag. */
  method ContainsWordRunes(runes: seq<rune>, needle: seq<rune>) returns (found: bool)
    ensures found <==> needle != [] && exists i: nat :: WordAt(runes, needle, i)
    ensures IsWord(needle) && needle != [] ==> (found <==> needle in Tokens(runes))
  {
    if IsWord(needle) {
      ScanIsTokenSearch(runes, needle);
    }
    hide IsSeparator, Tokens;
    var n := |needle|;
    if n == 0 || n > |runes| {
      return false;
    }
    var i := 0;
    while i + n <= |runes|
      invariant i <= |runes| - n + 1
      invariant forall j: nat :: j < i ==> !WordAt(runes, needle, j)
    {
      var matched, k := true, 0;
      while k < n
        invariant k <= n && matched
        invariant runes[i..i + k] == needle[..k]
      {
        if runes[i + k] != needle[k] {
          assert runes[i..i + n][k] != needle[k];
          matched := false;
          break;
        }
        assert runes[i..i + (k + 1)] == runes[i..i + k] + [runes[i + k]];
        k := k + 1;
      }
      if matched {
        assert runes[i..i + n] == needle;
        var leftOk := i == 0 || IsSeparator(runes[i - 1]);
        var rightOk := i + n == |runes| || IsSeparator(runes[i + n]);
        if leftOk && rightOk {
          assert WordAt(runes, needle, i);
          return true;
        }
      }
      i := i + 1;
    }
    found := false;
  }

  // ---------- the gate ----------

  function LowerRune(r: rune): rune {
    if 'A' <= r <= 'Z' then r - 'A' + 'a' else r
  }

  function Lower(s: string): (t: string)
    ensures |t| == |s|
    ensures forall i :: 0 <= i < |s| ==> t[i] == LowerRune(s[i])
  {
    if s == [] then [] else [LowerRune(s[0])] + Lower(s[1..])
  }

  predicate Mentions(tool: string, verb: string) {
    verb in Tokens(Lower(tool))
  }

  predicate Destructive(words: seq<string>) {
    exists k :: 0 <= k < |DESTRUCTIVE_VERBS| && DESTRUCTIVE_VERBS[k] in words
  }

  /** The gate on the names that reach it, printable ASCII, where folding is lowercasing of ASCII letters. */
  predicate IsDestructive(tool: string) {
    Destructive(Tokens(Lower(tool)))
  }

  lemma VerbsAreWords(k: nat)
    requires k < |DESTRUCTIVE_VERBS|
    ensures IsWord(DESTRUCTIVE_VERBS[k]) && DESTRUCTIVE_VERBS[k] != []
  {
  }

  /** firstDestructiveVerb: the first verb of the list that is a word of the folded name, or "". `fold` is
      NFKC normalisation followed by lowercasing, whatever that does to a name. */
  method FirstDestructiveVerb(fold: string -> string, tool: string) returns (verb: string)
    ensures verb == "" <==> tool == "" || !Destructive(Tokens(fold(tool)))
    ensures verb != "" ==>
              exists k :: 0 <= k < |DESTRUCTIVE_VERBS| && verb == DESTRUCTIVE_VERBS[k] && verb in Tokens(fold(tool))
                          && forall j :: 0 <= j < k ==> DESTRUCTIVE_VERBS[j] !in Tokens(fold(tool))
  {
    hide DESTRUCTIVE_VERBS, IsWord, WordAt, Tokens;
    if tool == "" {
      return "";
    }
    var runes := fold(tool);
    for k := 0 to |DESTRUCTIVE_VERBS|
      invariant forall j :: 0 <= j < k ==> DESTRUCTIVE_VERBS[j] !in Tokens(runes)
    {
      VerbsAreWords(k);
      var found := ContainsWordRunes(runes, DESTRUCTIVE_VERBS[k]);
      if found {
        return DESTRUCTIVE_VERBS[k];
      }
    }
    verb := "";
  }

  method IsDestructiveTool(fold: string -> string, tool: string) returns (destructive: bool)
    ensures destructive <==> tool != "" && Destructive(Tokens(fold(tool)))
  {
    var verb := FirstDestructiveVerb(fold, tool);
    destructive := verb != "";
  }

  // ---------- spelling does not defeat the gate ----------

  /** The two names differ only in ASCII case and in which separator stands where. */
  predicate SameSpelling(a: string, b: string) {
    && |a| == |b|
    && forall i :: 0 <= i < |a| ==>
                     LowerRune(a[i]) == LowerRune(b[i]) || (IsSeparator(a[i]) && IsSeparator(b[i]))
  }

  lemma {:induction false} SeparatorsInterchange(a: seq<rune>, b: seq<rune>)
    requires |a| == |b|
    requires forall i :: 0 <= i < |a| ==> a[i] == b[i] || (IsSeparator(a[i]) && IsSeparator(b[i]))
    ensures Tokens(a) == Tokens(b)
  {
    hide IsSeparator;
    if a != [] {
      SeparatorsInterchange(a[1..], b[1..]);
    }
  }

  /** Changing case or swapping separators changes no verb found, so also not the first one. */
  lemma SpellingIrrelevant(a: string, b: string, verb: string)
    requires SameSpelling(a, b)
    ensures Mentions(a, verb) <==> Mentions(b, verb)
    ensures IsDestructive(a) <==> IsDestructive(b)
  {
    var x, y := Lower(a), Lower(b);
    forall i | 0 <= i < |x|
      ensures x[i] == y[i] || (IsSeparator(x[i]) && IsSeparator(y[i]))
    {
      assert IsSeparator(a[i]) ==> x[i] == a[i];
      assert IsSeparator(b[i]) ==> y[i] == b[i];
    }
    SeparatorsInterchange(x, y);
    hide DESTRUCTIVE_VERBS;
  }

  // ---------- the gate in characters ----------

  /** The boundaries: five ASCII characters, and beyond ASCII the white space of Unicode. */
  lemma SeparatorsSpelled(r: rune)
    ensures IsSeparator(r) <==>
            || Boundary(r)
            || r in {'\U{85}', '\U{A0}', '\U{1680}', '\U{2028}', '\U{2029}', '\U{202F}', '\U{205F}', '\U{3000}'}
            || '\U{2000}' <= r <= '\U{200A}'
  {
  }

  predicate Boundary(c: rune) {
    c == '_' || c == '-' || c == '.' || c == ' ' || c == '\t'
  }

  /** The character of a name stands for the letter of a verb: itself or its capital. */
  predicate Stands(c: rune, letter: rune) {
    c == letter || ('A' <= c <= 'Z' && c as int + 32 == letter as int)
  }

  ghost predicate LettersAt(name: string, verb: string, i: nat) {
    i + |verb| <= |name| && forall k :: 0 <= k < |verb| ==> Stands(name[i + k], verb[k])
  }

  /** `verb` is spelled in `name` at `i`, between separators or the ends of the name. */
  ghost predicate SpelledAt(name: string, verb: string, i: nat) {
    && LettersAt(name, verb, i)
    && (i > 0 ==> Boundary(name[i - 1]))
    && (i + |verb| < |name| ==> Boundary(name[i + |verb|]))
  }

  predicate LowerCase(verb: string) {
    verb != "" && forall k :: 0 <= k < |verb| ==> 'a' <= verb[k] <= 'z'
  }

  lemma FoldedRune(c: rune, letter: rune)
    requires c <= '~'
    ensures IsSeparator(LowerRune(c)) <==> Boundary(c)
    ensures 'a' <= letter <= 'z' ==> (LowerRune(c) == letter <==> Stands(c, letter))
  {
  }

  lemma {:induction false} LetterSpelled(name: string, verb: string, i: nat, k: nat)
    requires LowerCase(verb) && i + |verb| <= |name| && k < |verb| && name[i + k] <= '~'
    ensures Lower(name)[i..i + |verb|][k] == verb[k] <==> Stands(name[i + k], verb[k])
  {
    assert Lower(name)[i..i + |verb|][k] == LowerRune(name[i + k]);
    assert 'a' <= verb[k] <= 'z';
    FoldedRune(name[i + k], verb[k]);
    hide Stands, LowerRune, Lower;
  }

  lemma {:induction false} WindowSpelled(name: string, verb: string, i: nat)
    requires LowerCase(verb) && i + |verb| <= |name| && forall k :: 0 <= k < |name| ==> name[k] <= '~'
    ensures Lower(name)[i..i + |verb|] == verb <==> LettersAt(name, verb, i)
  {
    hide Stands, LowerRune, Lower, LowerCase;
    var window := Lower(name)[i..i + |verb|];
    forall k | 0 <= k < |verb|
      ensures window[k] == verb[k] <==> Stands(name[i + k], verb[k])
    {
      LetterSpelled(name, verb, i, k);
    }
    assert window == verb <==> forall k :: 0 <= k < |verb| ==> window[k] == verb[k];
  }

  lemma {:induction false} WordSpelled(name: string, verb: string, i: nat)
    requires LowerCase(verb) && forall k :: 0 <= k < |name| ==> name[k] <= '~'
    ensures WordAt(Lower(name), verb, i) <==> SpelledAt(name, verb, i)
  {
    hide IsSeparator, LettersAt, Boundary, Lower, LowerCase;
    if i + |verb| <= |name| {
      WindowSpelled(name, verb, i);
      BoundarySpelled(name, i - 1);
      BoundarySpelled(name, i + |verb|);
    } else {
      TooLong(name, verb, i);
    }
  }

  lemma TooLong(name: string, verb: string, i: nat)
    requires i + |verb| > |name|
    ensures !LettersAt(name, verb, i)
  {
  }

  lemma BoundarySpelled(name: string, k: int)
    requires forall j :: 0 <= j < |name| ==> name[j] <= '~'
    ensures 0 <= k < |name| ==> (IsSeparator(Lower(name)[k]) <==> Boundary(name[k]))
  {
    hide IsSeparator, Boundary;
    if 0 <= k < |name| {
      FoldedRune(name[k], 'a');
    }
  }

  lemma MentionsSpelled(name: string, verb: string)
    requires LowerCase(verb) && forall k :: 0 <= k < |name| ==> name[k] <= '~'
    ensures Mentions(name, verb) <==> exists i: nat :: SpelledAt(name, verb, i)
  {
    assert IsWord(verb);
    ScanIsTokenSearch(Lower(name), verb);
    forall i: nat
      ensures WordAt(Lower(name), verb, i) <==> SpelledAt(name, verb, i)
    {
      WordSpelled(name, verb, i);
    }
    hide Tokens, Lower, SpelledAt, WordAt;
  }

  /** The verbs, in the order in which the first one found is named. */
  lemma VerbsSpelled()
    ensures DESTRUCTIVE_VERBS == ["delete", "drop", "truncate", "revoke", "disable", "wipe", "purge"]
    ensures forall v :: v in DESTRUCTIVE_VERBS ==> LowerCase(v)
  {
  }

  /** A printable ASCII name is destructive exactly when one of the seven verbs is spelled in it, in any case,
      between separators or the ends of the name. */
  lemma GateSpelled(name: string)
    requires forall k :: 0 <= k < |name| ==> '!' <= name[k] <= '~'
    ensures IsDestructive(name) <==>
            exists v, i: nat ::
              v in ["delete", "drop", "truncate", "revoke", "disable", "wipe", "purge"] && SpelledAt(name, v, i)
  {
    VerbsSpelled();
    hide DESTRUCTIVE_VERBS, Tokens, Lower, SpelledAt, LowerCase;
    forall v | v in DESTRUCTIVE_VERBS
      ensures Mentions(name, v) <==> exists i: nat :: SpelledAt(name, v, i)
    {
      MentionsSpelled(name, v);
    }
    if v :| v in DESTRUCTIVE_VERBS && Mentions(name, v) {
      var k :| 0 <= k < |DESTRUCTIVE_VERBS| && DESTRUCTIVE_VERBS[k] == v;
      assert DESTRUCTIVE_VERBS[k] in Tokens(Lower(name));
    }
    if IsDestructive(name) {
      var k :| 0 <= k < |DESTRUCTIVE_VERBS| && DESTRUCTIVE_VERBS[k] in Tokens(Lower(name));
      assert Mentions(name, DESTRUCTIVE_VERBS[k]);
    }
    hide IsDestructive, Mentions;
  }
}
