/** The action catalog of internal/catalog. YAML decoding is not modelled: a load gets parsed actions. */
module Catalog {
  import opened Basics

  /** A JSON value of the arguments object; only strings matter to the proxy. */
  datatype Value = Str(s: string) | Other(id: int)

  type Args = map<string, Value>

  /** A compiled JSON Schema; what it accepts is an arbitrary function (`accepts` below). */
  type Schema = int

  datatype Action = Action(
    name: string, params: seq<string>, blastRadius: int, schema: Option<Schema>,
    title: string, severity: int, types: seq<string>, primaryArg: string)

  predicate ValidSeverity(id: int) {
    0 <= id <= 6 || id == 99
  }

  /** The contract every catalogued action meets. */
  predicate ActionOk(a: Action) {
    && a.name != ""
    && 1 <= a.blastRadius <= 5
    && a.schema.Some?
    && a.title != ""
    && a.severity in {0, 1, 2, 3, 4, 5, 6, 99}
    && a.types != []
    && (a.primaryArg != "" ==> a.primaryArg in a.params)
  }

  /** Action.Validate, with the scan for the declared primary argument. */
  method ValidateAction(a: Action) returns (ok: bool)
    ensures ok <==> ActionOk(a)
  {
    if a.name == "" || a.blastRadius < 1 || a.blastRadius > 5 || a.schema.None? || a.title == ""
       || !ValidSeverity(a.severity) || a.types == [] {
      return false;
    }
    if a.primaryArg != "" {
      var found := false;
      for i := 0 to |a.params|
        invariant !found && a.primaryArg !in a.params[..i]
      {
        if a.params[i] == a.primaryArg {
          found := true;
          break;
        }
      }
      if !found {
        return false;
      }
    }
    ok := true;
  }

  datatype LoadError = ActionExists(name: string) | Invalid(name: string)
  datatype LookupError = ActionNotFound | NoSchema | SchemaViolation

  type Actions = map<string, Action>

  /** Every entry is stored under its own name and is valid. */
  ghost predicate WellFormed(actions: Actions) {
    forall n :: n in actions ==> actions[n].name == n && ActionOk(actions[n])
  }

  /** What loading a list leaves in the catalog, and how the load ended. */
  function Loaded(actions: Actions, list: seq<Action>): (Actions, Option<LoadError>)
    decreases |list|
  {
    if list == [] then (actions, None)
    else if list[0].name in actions then (actions, Some(ActionExists(list[0].name)))
    else if !ActionOk(list[0]) then (actions, Some(Invalid(list[0].name)))
    else Loaded(actions[list[0].name := list[0]], list[1..])
  }

  class Catalog {
    var actions: Actions

    /** New: the starter actions, which the package checks at start-up. */
    constructor (starter: seq<Action>)
      requires forall i :: 0 <= i < |starter| ==> ActionOk(starter[i])
      ensures WellFormed(actions)
      ensures actions.Keys == set i | 0 <= i < |starter| :: starter[i].name
      ensures forall i ::
                0 <= i < |starter| && (forall j :: i < j < |starter| ==> starter[j].name != starter[i].name) ==>
                            actions[starter[i].name] == starter[i]
    {
      var m: Actions := map[];
      for i := 0 to |starter|
        invariant WellFormed(m)
        invariant m.Keys == set k | 0 <= k < i :: starter[k].name
        invariant forall k :: 0 <= k < i && (forall j :: k < j < i ==> starter[j].name != starter[k].name) ==>
                                m[starter[k].name] == starter[k]
      {
        m := m[starter[i].name := starter[i]];
      }
      actions := m;
    }

    method AddValidated(a: Action) returns (err: Option<LoadError>)
      modifies this
      ensures a.name in old(actions) ==> err == Some(ActionExists(a.name)) && actions == old(actions)
      ensures a.name !in old(actions) && !ActionOk(a) ==> err == Some(Invalid(a.name)) && actions == old(actions)
      ensures a.name !in old(actions) && ActionOk(a) ==> err == None && actions == old(actions)[a.name := a]
    {
      if a.name in actions {
        return Some(ActionExists(a.name));
      }
      var ok := ValidateAction(a);
      if !ok {
        return Some(Invalid(a.name));
      }
      actions := actions[a.name := a];
      err := None;
    }

    /** The loop of LoadCustomFile and LoadCustomBytes: it stops at the first action refused. */
    method Load(list: seq<Action>) returns (err: Option<LoadError>)
      modifies this
      ensures (actions, err) == Loaded(old(actions), list)
    {
      hide ActionOk;
      for i := 0 to |list|
        invariant Loaded(actions, list[i..]) == Loaded(old(actions), list)
      {
        err := AddValidated(list[i]);
        if err.Some? {
          return;
        }
      }
      err := None;
    }

    method Remove(name: string) returns (err: Option<LookupError>)
      modifies this
      ensures name in old(actions) ==> err == None && actions == old(actions) - {name}
      ensures name !in old(actions) ==> err == Some(ActionNotFound) && actions == old(actions)
    {
      if name !in actions {
        return Some(ActionNotFound);
      }
      actions := actions - {name};
      err := None;
    }
  }

  /** Catalog.Validate: the action must exist, carry a schema, and the schema accept the arguments. */
  function Validated(accepts: (Schema, Args) -> bool, actions: Actions, name: string, args: Args): Option<LookupError> {
    if name !in actions then Some(ActionNotFound)
    else if actions[name].schema.None? then Some(NoSchema)
    else if !accepts(actions[name].schema.value, args) then Some(SchemaViolation)
    else None
  }

  /** The names in a list are pairwise different and new to the catalog, and every action is valid. */
  ghost predicate Loadable(actions: Actions, list: seq<Action>) {
    && (forall i :: 0 <= i < |list| ==> list[i].name !in actions && ActionOk(list[i]))
    && (forall i, j :: 0 <= i < j < |list| ==> list[i].name != list[j].name)
  }

  /** A load, complete or cut short by an error, keeps the catalog well-formed and every entry it had. */
  lemma {:induction false} LoadKeepsCatalog(actions: Actions, list: seq<Action>)
    requires WellFormed(actions)
    ensures WellFormed(Loaded(actions, list).0)
    ensures forall n :: n in actions ==> n in Loaded(actions, list).0 && Loaded(actions, list).0[n] == actions[n]
    decreases |list|
  {
    hide ActionOk;
    if list != [] && list[0].name !in actions && ActionOk(list[0]) {
      LoadKeepsCatalog(actions[list[0].name := list[0]], list[1..]);
    }
  }

  /** A load adds exactly the first `k` actions of the list, where `k` is as large as it can be: the list
      up to there is loadable and, unless all of it was, not one action further. It succeeds exactly when
      `k` is the whole list. */
  lemma {:induction false} LoadOutcome(actions: Actions, list: seq<Action>) returns (k: nat)
    ensures k <= |list| && Loadable(actions, list[..k])
    ensures k < |list| ==> !Loadable(actions, list[..k + 1])
    ensures Loaded(actions, list).0.Keys == actions.Keys + set i | 0 <= i < k :: list[i].name
    ensures forall i :: 0 <= i < k ==> list[i].name in Loaded(actions, list).0
    ensures forall i :: 0 <= i < k ==> Loaded(actions, list).0[list[i].name] == list[i]
    ensures Loaded(actions, list).1.None? <==> k == |list|
    decreases |list|
  {
    hide ActionOk, Loadable;
    if list == [] || list[0].name in actions || !ActionOk(list[0]) {
      k := 0;
      Unloadable(actions, list);
    } else {
      var more, tail := actions[list[0].name := list[0]], list[1..];
      var n := LoadOutcome(more, tail);
      k := n + 1;
      assert list[..k][1..] == tail[..n];
      LoadableCons(actions, list[..k]);
      if n < |tail| {
        assert list[..k + 1][1..] == tail[..k];
        LoadableCons(actions, list[..k + 1]);
      }
      NamesCons(list, n);
      AddedStays(more, tail, list[0].name);
      assert forall i :: 0 < i < k ==> list[i] == tail[i - 1];
      hide Loaded;
    }
  }

  lemma {:induction false} AddedStays(actions: Actions, list: seq<Action>, name: string)
    requires name in actions
    ensures name in Loaded(actions, list).0 && Loaded(actions, list).0[name] == actions[name]
    decreases |list|
  {
    hide ActionOk;
    if list != [] && list[0].name !in actions && ActionOk(list[0]) {
      AddedStays(actions[list[0].name := list[0]], list[1..], name);
    }
  }

  /** A load is all or nothing exactly when the list is empty, its first action is refused, or the whole
      list can be loaded. */
  lemma LoadIsAtomic(actions: Actions, list: seq<Action>)
    ensures Loaded(actions, list).1.None? || Loaded(actions, list).0 == actions <==>
            list == [] || list[0].name in actions || !ActionOk(list[0]) || Loadable(actions, list)
  {
    hide ActionOk, Loadable;
    if list != [] && list[0].name !in actions && ActionOk(list[0]) {
      AddedStays(actions[list[0].name := list[0]], list[1..], list[0].name);
      LoadSucceeds(actions, list);
    }
  }

  lemma LoadSucceeds(actions: Actions, list: seq<Action>)
    ensures Loaded(actions, list).1.None? <==> Loadable(actions, list)
  {
    hide Loaded, Loadable;
    var k := LoadOutcome(actions, list);
    assert list[..|list|] == list;
    if k < |list| {
      PrefixLoadable(actions, list, k + 1);
    }
  }

  lemma PrefixLoadable(actions: Actions, list: seq<Action>, n: nat)
    requires n <= |list| && !Loadable(actions, list[..n])
    ensures !Loadable(actions, list)
  {
    hide ActionOk;
    assert forall i :: 0 <= i < n ==> list[..n][i] == list[i];
  }

  /** It does fail: loading a new action and then one that exists reports an error and keeps the new one. */
  lemma FailedLoadKeepsFirst(actions: Actions, a: Action, taken: Action)
    requires ActionOk(a) && a.name !in actions && taken.name in actions
    ensures Loaded(actions, [a, taken]) == (actions[a.name := a], Some(ActionExists(taken.name)))
    ensures Loaded(actions, [a, taken]).0 != actions
  {
    hide ActionOk;
    assert [a, taken][1..] == [taken];
    assert a.name in actions[a.name := a];
  }

  lemma Unloadable(actions: Actions, list: seq<Action>)
    ensures Loadable(actions, list[..0])
    ensures list != [] && (list[0].name in actions || !ActionOk(list[0])) ==> !Loadable(actions, list[..1])
  {
    hide ActionOk;
    assert list != [] ==> list[..1][0] == list[0];
  }

  lemma NamesCons(list: seq<Action>, k: nat)
    requires k < |list|
    ensures (set i | 0 <= i < k + 1 :: list[i].name) == {list[0].name} + set i | 0 <= i < k :: list[1..][i].name
  {
    forall i | 0 <= i < k + 1
      ensures list[i].name in {list[0].name} + set i | 0 <= i < k :: list[1..][i].name
    {
      assert i > 0 ==> list[i] == list[1..][i - 1];
    }
  }

  lemma LoadableCons(actions: Actions, list: seq<Action>)
    requires list != [] && list[0].name !in actions && ActionOk(list[0])
    ensures Loadable(actions, list) <==> Loadable(actions[list[0].name := list[0]], list[1..])
  {
    hide ActionOk;
    var a, tail := list[0], list[1..];
    if Loadable(actions[a.name := a], tail) {
      forall i | 0 <= i < |list|
        ensures list[i].name !in actions && ActionOk(list[i])
      {
        assert i > 0 ==> list[i] == tail[i - 1];
      }
      forall i, j | 0 <= i < j < |list|
        ensures list[i].name != list[j].name
      {
        assert list[j] == tail[j - 1];
        assert i > 0 ==> list[i] == tail[i - 1];
      }
    }
  }
}
