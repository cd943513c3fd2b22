/** Small shared vocabulary: options, results, bytes, and a few facts about sequences. */
module Basics {

  datatype Option<+T> = None | Some(value: T)

  datatype Result<+T, +E> = Ok(value: T) | Err(error: E)

  type byte = b: int | 0 <= b < 256
  type bytes = seq<byte>

  /** The concatenation of a list of byte strings. */
  function Flatten(parts: seq<bytes>): bytes {
    if parts == [] then [] else parts[0] + Flatten(parts[1..])
  }

  lemma {:induction false} FlattenAppend(xs: seq<bytes>, ys: seq<bytes>)
    ensures Flatten(xs + ys) == Flatten(xs) + Flatten(ys)
  {
    if xs == [] {
      assert xs + ys == ys;
    } else {
      assert (xs + ys)[1..] == xs[1..] + ys;
      FlattenAppend(xs[1..], ys);
    }
  }

  lemma FlattenSnoc(xs: seq<bytes>, x: bytes)
    ensures Flatten(xs + [x]) == Flatten(xs) + x
  {
    FlattenAppend(xs, [x]);
    assert Flatten([x]) == x + Flatten([]) == x;
  }

  /** `xs` is obtained from `ys` by deleting elements. */
  ghost predicate Subsequence<T>(xs: seq<T>, ys: seq<T>) {
    if xs == [] then true
    else if ys == [] then false
    else if xs[0] == ys[0] && Subsequence(xs[1..], ys[1..]) then true
    else Subsequence(xs, ys[1..])
  }

  lemma {:induction false} SubsequenceExtend<T>(xs: seq<T>, ys: seq<T>, z: T)
    requires Subsequence(xs, ys)
    ensures Subsequence(xs, ys + [z]) && Subsequence(xs + [z], ys + [z])
  {
    if ys == [] {
      assert xs == [] && [z][1..] == [];
      assert xs + [z] == [z] == ys + [z];
    } else {
      assert (ys + [z])[1..] == ys[1..] + [z];
      if xs == [] {
        SubsequenceExtend([], ys[1..], z);
        assert xs + [z] == [z] && [z][1..] == [];
      } else {
        assert (xs + [z])[1..] == xs[1..] + [z];
        if xs[0] == ys[0] && Subsequence(xs[1..], ys[1..]) {
          SubsequenceExtend(xs[1..], ys[1..], z);
        } else {
          SubsequenceExtend(xs, ys[1..], z);
        }
      }
    }
  }

  /** The position of the first `b` in `s`, or `|s|` when there is none. */
  function IndexOf(s: bytes, b: byte): (i: nat)
    ensures i <= |s|
    ensures forall j :: 0 <= j < i ==> s[j] != b
    ensures i < |s| ==> s[i] == b
  {
    if s == [] || s[0] == b then 0 else 1 + IndexOf(s[1..], b)
  }

  /** The lists `f` gives for the elements of `xs`, one after another. */
  function Collect<S, T>(xs: seq<S>, f: S -> seq<T>): seq<T> {
    if xs == [] then [] else Collect(xs[..|xs| - 1], f) + f(xs[|xs| - 1])
  }

  lemma CollectSnoc<S, T>(xs: seq<S>, x: S, f: S -> seq<T>)
    ensures Collect(xs + [x], f) == Collect(xs, f) + f(x)
  {
    assert (xs + [x])[..|xs|] == xs;
  }

  lemma {:induction false} CollectSource<S, T>(xs: seq<S>, f: S -> seq<T>, y: T) returns (i: nat)
    requires y in Collect(xs, f)
    ensures i < |xs| && y in f(xs[i])
  {
    i := |xs| - 1;
    if y !in f(xs[i]) {
      i := CollectSource(xs[..i], f, y);
    }
  }

  lemma {:induction false} CollectHas<S, T>(xs: seq<S>, f: S -> seq<T>, i: nat, y: T)
    requires i < |xs| && y in f(xs[i])
    ensures y in Collect(xs, f)
  {
    if i < |xs| - 1 {
      CollectHas(xs[..|xs| - 1], f, i, y);
    }
  }
}
