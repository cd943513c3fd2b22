/** The environment handed to the upstream server: the inherited one overlaid with the configured overrides. */
module Environ {
  import opened Basics

  /** The position of the first '=' in `entry`, or its length. */
  function EqualsAt(entry: string): (i: nat)
    ensures i <= |entry| && '=' !in entry[..i]
    ensures i < |entry| ==> entry[i] == '='
  {
    if entry == "" || entry[0] == '=' then 0 else 1 + EqualsAt(entry[1..])
  }

  function KeyOf(entry: string): Option<string> {
    var i := EqualsAt(entry);
    if i < |entry| then Some(entry[..i]) else None
  }

  /** What the program compares: the entry begins with the key and an '='. */
  predicate HasPrefix(entry: string, key: string) {
    |entry| >= |key| + 1 && entry[..|key| + 1] == key + "="
  }

  /** For a key without '=', the prefix comparison finds exactly the entries that bind it. */
  lemma PrefixIsKey(entry: string, key: string)
    requires '=' !in key
    ensures HasPrefix(entry, key) <==> KeyOf(entry) == Some(key)
  {
    var i, n := EqualsAt(entry), |key|;
    if n < |entry| {
      assert entry[..n + 1] == entry[..n] + [entry[n]];
      assert key + "=" == key + ['='];
    }
    assert forall k :: 0 <= k < i ==> entry[k] in entry[..i];
    assert forall k :: 0 <= k < n ==> key[k] in key;
    if HasPrefix(entry, key) {
      assert entry[n] == entry[..n + 1][n] == '=';
      assert forall k :: 0 <= k < n ==> entry[k] == entry[..n + 1][k] == key[k];
      assert entry[..i] == key;
    }
  }

  lemma EntryBinds(key: string, value: string)
    requires '=' !in key
    ensures KeyOf(key + "=" + value) == Some(key) && ValueOf(key + "=" + value) == value
  {
    var entry := key + "=" + value;
    assert entry[..|key| + 1] == key + "=";
    PrefixIsKey(entry, key);
    assert entry[|key| + 1..] == value;
  }

  function ValueOf(entry: string): string
    requires KeyOf(entry).Some?
  {
    entry[EqualsAt(entry) + 1..]
  }

  /** The variables an environment defines; entries without '=' define none, and the last entry for a key
      counts, as it does when a process is started. */
  function Bindings(env: seq<string>): map<string, string> {
    if env == [] then map[]
    else
      var entry, others := env[|env| - 1], Bindings(env[..|env| - 1]);
      if KeyOf(entry).Some? then others[KeyOf(entry).value := ValueOf(entry)] else others
  }

  /** Some entry after the first one for `key` binds it again. */
  ghost predicate Doubled(env: seq<string>, key: string) {
    exists i, j :: 0 <= i < j < |env| && KeyOf(env[i]) == Some(key) && KeyOf(env[j]) == Some(key)
  }

  ghost predicate DistinctKeys(env: seq<string>) {
    forall key :: !Doubled(env, key)
  }

  /** The position of the first entry that begins with `key` and '=', if there is one. */
  function FirstEntry(env: seq<string>, key: string): (r: Option<nat>)
    ensures r.Some? ==> r.value < |env| && HasPrefix(env[r.value], key)
    ensures r.Some? ==> forall i :: 0 <= i < r.value ==> !HasPrefix(env[i], key)
    ensures r.None? ==> forall i :: 0 <= i < |env| ==> !HasPrefix(env[i], key)
  {
    if env == [] then None
    else if HasPrefix(env[0], key) then Some(0)
    else
      var later := FirstEntry(env[1..], key);
      if later.None? then None else Some(1 + later.value)
  }

  /** appendOrSetEnv as a function. */
  function SetEntry(env: seq<string>, key: string, value: string): seq<string> {
    var first := FirstEntry(env, key);
    if first.Some? then env[first.value := key + "=" + value] else env + [key + "=" + value]
  }

  /** The overlay of `overrides`, taken in the given order of keys. */
  function Overlaid(env: seq<string>, order: seq<string>, overrides: map<string, string>): seq<string>
    requires forall i :: 0 <= i < |order| ==> order[i] in overrides
  {
    if order == [] then env
    else
      var last := order[|order| - 1];
      SetEntry(Overlaid(env, order[..|order| - 1], overrides), last, overrides[last])
  }

  /** The part of exec.Cmd the overlay touches. */
  class Command {
    var env: seq<string>

    constructor (inherited: seq<string>)
      ensures env == inherited
    {
      env := inherited;
    }

    method AppendOrSetEnv(key: string, value: string)
      modifies this
      ensures env == SetEntry(old(env), key, value)
    {
      for i := 0 to |env|
        invariant env == old(env)
        invariant forall k :: 0 <= k < i ==> !HasPrefix(env[k], key)
      {
        if HasPrefix(env[i], key) {
          env := env[i := key + "=" + value];
          return;
        }
      }
      env := env + [key + "=" + value];
    }

    /** The overlay loop: every override is applied once, in whatever order the map yields them. */
    method Overlay(overrides: map<string, string>) returns (ghost order: seq<string>)
      modifies this
      ensures forall i :: 0 <= i < |order| ==> order[i] in overrides
      ensures forall i, j :: 0 <= i < j < |order| ==> order[i] != order[j]
      ensures forall key :: key in overrides ==> key in order
      ensures env == Overlaid(old(env), order, overrides)
    {
      hide SetEntry;
      var left := overrides.Keys;
      order := [];
      while left != {}
        invariant left <= overrides.Keys
        invariant forall i :: 0 <= i < |order| ==> order[i] in overrides && order[i] !in left
        invariant forall i, j :: 0 <= i < j < |order| ==> order[i] != order[j]
        invariant forall key :: key in overrides ==> key in left || key in order
        invariant env == Overlaid(old(env), order, overrides)
        decreases |left|
      {
        var key :| key in left;
        AppendOrSetEnv(key, overrides[key]);
        left := left - {key};
        assert (order + [key])[..|order|] == order;
        order := order + [key];
      }
    }
  }

  // ---------- what one override does ----------

  lemma {:induction false} ReplacedEntry(env: seq<string>, i: nat, key: string, value: string)
    requires '=' !in key && i < |env| && KeyOf(env[i]) == Some(key)
    requires forall j :: 0 <= j < i ==> KeyOf(env[j]) != Some(key)
    ensures Bindings(env[i := key + "=" + value]) ==
            if exists j :: i < j < |env| && KeyOf(env[j]) == Some(key) then Bindings(env)
            else Bindings(env)[key := value]
  {
    hide KeyOf, ValueOf, EqualsAt;
    EntryBinds(key, value);
    var entry, last := key + "=" + value, |env| - 1;
    if i == last {
      assert env[i := entry][..last] == env[..last];
    } else {
      ReplacedEntry(env[..last], i, key, value);
      assert env[i := entry][..last] == env[..last][i := entry];
      assert forall j :: i < j < last ==> env[..last][j] == env[j];
    }
  }

  /** An override takes effect exactly when the variable is not doubled; a doubled one keeps the value of
      its last entry. No other variable changes either way. */
  lemma OneOverride(env: seq<string>, key: string, value: string)
    requires '=' !in key
    ensures Bindings(SetEntry(env, key, value)) ==
            if Doubled(env, key) then Bindings(env) else Bindings(env)[key := value]
  {
    PrefixesAreKeys(env, key);
    EntryBinds(key, value);
    hide KeyOf, HasPrefix, ValueOf, EqualsAt;
    var first, entry := FirstEntry(env, key), key + "=" + value;
    if first.Some? {
      var i := first.value;
      ReplacedEntry(env, i, key, value);
      assert Doubled(env, key) <==> exists j :: i < j < |env| && KeyOf(env[j]) == Some(key);
    } else {
      assert (env + [entry])[..|env|] == env;
    }
  }

  /** On a list with two entries for one variable, an override is lost. */
  lemma DoubledVariableIsKept()
    ensures SetEntry(["A=1", "A=2"], "A", "3") == ["A=3", "A=2"]
    ensures Bindings(SetEntry(["A=1", "A=2"], "A", "3")) == Bindings(["A=1", "A=2"]) == map["A" := "2"]
  {
    assert "A=1" == "A" + "=" + "1" && "A=2" == "A" + "=" + "2" && "A=3" == "A" + "=" + "3";
    EntryBinds("A", "1");
    EntryBinds("A", "2");
    EntryBinds("A", "3");
    assert "A=1"[..2] == "A" + "=";
    assert SetEntry(["A=1", "A=2"], "A", "3") == ["A=1", "A=2"][0 := "A=3"] == ["A=3", "A=2"];
    TwoBindings("A=1", "A=2", "A");
    TwoBindings("A=3", "A=2", "A");
    hide Bindings;
  }

  lemma TwoBindings(first: string, second: string, key: string)
    requires KeyOf(first) == KeyOf(second) == Some(key)
    ensures Bindings([first, second]) == map[key := ValueOf(second)]
  {
    hide KeyOf, ValueOf;
    assert [first, second][..1] == [first] && [first][..0] == [];
    assert Bindings([first]) == Bindings([])[key := ValueOf(first)];
    assert Bindings([first, second]) == Bindings([first])[key := ValueOf(second)];
  }

  lemma PrefixesAreKeys(env: seq<string>, key: string)
    requires '=' !in key
    ensures forall i :: 0 <= i < |env| ==> (HasPrefix(env[i], key) <==> KeyOf(env[i]) == Some(key))
  {
    forall i | 0 <= i < |env|
      ensures HasPrefix(env[i], key) <==> KeyOf(env[i]) == Some(key)
    {
      PrefixIsKey(env[i], key);
    }
  }

  /** An override doubles no variable, repairs none, and moves no entry. */
  lemma SameDoubles(env: seq<string>, key: string, value: string)
    requires '=' !in key
    ensures forall k :: Doubled(SetEntry(env, key, value), k) <==> Doubled(env, k)
    ensures |env| <= |SetEntry(env, key, value)|
    ensures forall i :: 0 <= i < |env| ==>
              || SetEntry(env, key, value)[i] == env[i]
              || KeyOf(SetEntry(env, key, value)[i]) == Some(key) == KeyOf(env[i])
  {
    PrefixesAreKeys(env, key);
    EntryBinds(key, value);
    hide KeyOf, HasPrefix, ValueOf, EqualsAt, Doubled;
    var next := SetEntry(env, key, value);
    assert forall i :: 0 <= i < |env| ==> KeyOf(next[i]) == KeyOf(env[i]);
    assert |next| > |env| ==> forall i :: 0 <= i < |env| ==> KeyOf(env[i]) != KeyOf(next[|env|]);
    forall k
      ensures Doubled(next, k) <==> Doubled(env, k)
    {
      DoublesDependOnKeys(env, next, k);
    }
  }

  lemma DoublesDependOnKeys(env: seq<string>, next: seq<string>, key: string)
    requires |env| <= |next| <= |env| + 1
    requires forall i :: 0 <= i < |env| ==> KeyOf(next[i]) == KeyOf(env[i])
    requires |next| > |env| ==> forall i :: 0 <= i < |env| ==> KeyOf(env[i]) != KeyOf(next[|env|])
    ensures Doubled(next, key) <==> Doubled(env, key)
  {
    hide KeyOf;
    if i, j :| 0 <= i < j < |env| && KeyOf(env[i]) == Some(key) && KeyOf(env[j]) == Some(key) {
      assert KeyOf(next[i]) == Some(key) && KeyOf(next[j]) == Some(key);
    }
  }

  // ---------- the overlay ----------

  /** The overrides that take effect. */
  ghost function Effective(env: seq<string>, keys: set<string>, overrides: map<string, string>): map<string, string>
    requires keys <= overrides.Keys
  {
    map key | key in keys && !Doubled(env, key) :: overrides[key]
  }

  function KeysOf(order: seq<string>): (keys: set<string>)
    ensures forall key :: key in keys <==> key in order
  {
    set key | key in order
  }

  /** No override in any order doubles a variable, repairs one, or alters an entry of another key. */
  lemma {:induction false} OverlayKeepsEntries(env: seq<string>, order: seq<string>, overrides: map<string, string>)
    requires forall i :: 0 <= i < |order| ==> order[i] in overrides && '=' !in order[i]
    ensures forall key :: Doubled(Overlaid(env, order, overrides), key) <==> Doubled(env, key)
    ensures |env| <= |Overlaid(env, order, overrides)|
    ensures forall i :: 0 <= i < |env| ==>
              Overlaid(env, order, overrides)[i] == env[i]
              || exists key :: key in order && KeyOf(Overlaid(env, order, overrides)[i]) == Some(key) == KeyOf(env[i])
  {
    hide SetEntry, KeyOf, Doubled;
    if order != [] {
      var init, last := order[..|order| - 1], order[|order| - 1];
      OverlayKeepsEntries(env, init, overrides);
      SameDoubles(Overlaid(env, init, overrides), last, overrides[last]);
      assert forall key :: key in order <==> key in init || key == last;
    }
  }

  lemma EffectiveSnoc(env: seq<string>, order: seq<string>, overrides: map<string, string>)
    requires order != [] && forall i :: 0 <= i < |order| ==> order[i] in overrides
    ensures var last, init := order[|order| - 1], Effective(env, KeysOf(order[..|order| - 1]), overrides);
            Effective(env, KeysOf(order), overrides) ==
            if Doubled(env, last) then init else init[last := overrides[last]]
  {
    hide Doubled;
    var init, last := order[..|order| - 1], order[|order| - 1];
    assert order == init + [last];
    assert forall key :: key in order <==> key in init || key == last;
  }

  /** Whatever the order: the variables are the inherited ones updated by the overrides of variables that
      are not doubled. */
  lemma {:induction false} OverlayIsUpdate(env: seq<string>, order: seq<string>, overrides: map<string, string>)
    requires forall i :: 0 <= i < |order| ==> order[i] in overrides && '=' !in order[i]
    ensures Bindings(Overlaid(env, order, overrides)) == Bindings(env) + Effective(env, KeysOf(order), overrides)
  {
    hide Bindings, SetEntry, KeyOf, Doubled;
    if order == [] {
      assert Effective(env, KeysOf(order), overrides) == map[];
    } else {
      var init, last := order[..|order| - 1], order[|order| - 1];
      OverlayIsUpdate(env, init, overrides);
      OverlayKeepsEntries(env, init, overrides);
      OneOverride(Overlaid(env, init, overrides), last, overrides[last]);
      EffectiveSnoc(env, order, overrides);
      hide Effective, KeysOf;
    }
  }

  /** On an environment without doubled variables the overlay is the plain update, in any order of the
      overrides, and the result has no doubled variable. */
  lemma {:induction false} OrderIrrelevant(env: seq<string>, order: seq<string>, overrides: map<string, string>)
    requires forall i :: 0 <= i < |order| ==> order[i] in overrides
    requires forall key :: key in overrides ==> key in order && '=' !in key
    requires DistinctKeys(env)
    ensures Bindings(Overlaid(env, order, overrides)) == Bindings(env) + overrides
    ensures DistinctKeys(Overlaid(env, order, overrides))
  {
    OverlayIsUpdate(env, order, overrides);
    OverlayKeepsEntries(env, order, overrides);
    AllEffective(env, order, overrides);
    hide Bindings, Overlaid, Doubled, Effective, KeysOf;
  }

  lemma AllEffective(env: seq<string>, order: seq<string>, overrides: map<string, string>)
    requires forall i :: 0 <= i < |order| ==> order[i] in overrides
    requires forall key :: key in overrides ==> key in order
    requires DistinctKeys(env)
    ensures Effective(env, KeysOf(order), overrides) == overrides
  {
    hide Doubled;
  }
}
