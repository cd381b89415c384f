/**
 * The change-notification store of lib/reduxlib.ts: the state is a fixed object of
 * `ReduxState` sections that are updated in place; each section records whether it changed
 * since its dependents were last told, and the store tells them after every dispatch.
 */
module Redux {
  import opened Wrappers
  import opened Js
  import opened Util
  import opened Strings

  /** The last value `e` assigns to `k`, if any. */
  function Latest(e: Entries<Value>, k: string): Option<Value>
  {
    if e == [] then None
    else
      var rest := Latest(e[1..], k);
      if rest.Some? then rest else if e[0].0 == k then Some(e[0].1) else None
  }

  /** `fields` after the assignments `this[k] = v` for each entry in order. */
  function Assigned(fields: map<string, Value>, e: Entries<Value>): map<string, Value>
    decreases |e|
  {
    if e == [] then fields else Assigned(fields[e[0].0 := e[0].1], e[1..])
  }

  /** The assignments change exactly the assigned keys, each to the last value given for it. */
  lemma {:induction false} AssignedLatest(fields: map<string, Value>, e: Entries<Value>, k: string)
    ensures Latest(e, k).Some? ==> k in Assigned(fields, e) && Assigned(fields, e)[k] == Latest(e, k).value
    ensures Latest(e, k).None? ==> (k in Assigned(fields, e) <==> k in fields)
    ensures Latest(e, k).None? && k in fields ==> Assigned(fields, e)[k] == fields[k]
    decreases |e|
  {
    if e != [] {
      AssignedLatest(fields[e[0].0 := e[0].1], e[1..], k);
    }
  }

  /** `InternalData`: the changed flag and the dependents to call. */
  class InternalData {
    var hasChanged: bool
    /** The `dependents` set, in insertion order. */
    var dependents: seq<nat>

    constructor(dependents: seq<nat>)
      requires forall i, j :: 0 <= i < j < |dependents| ==> dependents[i] != dependents[j]
      ensures !hasChanged && this.dependents == dependents
    {
      hasChanged := false;
      this.dependents := dependents;
    }

    /**
     * `notify_dependents`: nothing when nothing changed; otherwise the flag is cleared first
     * and every dependent is called once, in order. Returns the calls made.
     */
    method NotifyDependents() returns (called: seq<nat>)
      modifies this`hasChanged
      ensures !hasChanged
      ensures called == if old(hasChanged) then dependents else []
    {
      if !hasChanged {
        return [];
      }
      hasChanged := false;
      called := [];
      var i := 0;
      while i < |dependents|
        invariant 0 <= i <= |dependents|
        invariant called == dependents[..i]
      {
        called := called + [dependents[i]];
        i := i + 1;
      }
    }
  }

  /** One section of the state: its own fields and its `[INTERNAL]` record. */
  class ReduxState {
    var fields: map<string, Value>
    const internal: InternalData

    constructor(fields: map<string, Value>, dependents: seq<nat>)
      requires forall i, j :: 0 <= i < j < |dependents| ==> dependents[i] != dependents[j]
      ensures this.fields == fields && fresh(internal)
      ensures !internal.hasChanged && internal.dependents == dependents
    {
      this.fields := fields;
      internal := new InternalData(dependents);
    }

    /**
     * `[UPDATE](updates)`: when every value is `undefined` nothing changes, the flag included;
     * otherwise the flag is set and exactly the defined fields are assigned.
     */
    method Update(updates: Entries<Value>)
      modifies this`fields, internal`hasChanged
      ensures Filter(updates, IsDefined) == [] ==>
        fields == old(fields) && internal.hasChanged == old(internal.hasChanged)
      ensures Filter(updates, IsDefined) != [] ==>
        internal.hasChanged && fields == Assigned(old(fields), Filter(updates, IsDefined))
    {
      var newFields := ObjectEntries(updates, Some(IsDefined));
      if |newFields| == 0 {
        return;
      }
      internal.hasChanged := true;
      var i := 0;
      while i < |newFields|
        invariant 0 <= i <= |newFields|
        invariant internal.hasChanged
        invariant fields == Assigned(old(fields), newFields[..i])
      {
        AssignedSnoc(old(fields), newFields[..i], newFields[i]);
        assert newFields[..i + 1] == newFields[..i] + [newFields[i]];
        fields := fields[newFields[i].0 := newFields[i].1];
        i := i + 1;
      }
      assert newFields[..i] == newFields;
    }
  }

  lemma {:induction false} AssignedSnoc(fields: map<string, Value>, e: Entries<Value>, x: (string, Value))
    ensures Assigned(fields, e + [x]) == Assigned(fields, e)[x.0 := x.1]
    decreases |e|
  {
    if e == [] {
      assert e + [x] == [x];
    } else {
      assert (e + [x])[1..] == e[1..] + [x];
      AssignedSnoc(fields[e[0].0 := e[0].1], e[1..], x);
    }
  }

  /** One section's part of an `UPDATE` action: a partial object, or `undefined`. */
  datatype Patch = Skip | Patch(updates: Entries<Value>)

  predicate PatchDefined(p: Patch)
  {
    p.Patch?
  }

  /** A section's fields and flag as values. */
  datatype SectionState = SectionState(fields: map<string, Value>, hasChanged: bool)

  /** What `[UPDATE](updates)` does to a section. */
  function UpdateStep(s: SectionState, updates: Entries<Value>): (r: SectionState)
    ensures Filter(updates, IsDefined) == [] ==> r == s
    ensures Filter(updates, IsDefined) != [] ==>
      r == SectionState(Assigned(s.fields, Filter(updates, IsDefined)), true)
  {
    var newFields := Filter(updates, IsDefined);
    if newFields == [] then s else SectionState(Assigned(s.fields, newFields), true)
  }

  /** The updates an `UPDATE` action's (defined) entries address to section `key`, in order. */
  function PatchesFor(data: Entries<Patch>, key: string): seq<Entries<Value>>
  {
    if data == [] then []
    else (if data[0].0 == key && data[0].1.Patch? then [data[0].1.updates] else []) + PatchesFor(data[1..], key)
  }

  lemma {:induction false} PatchesForSnoc(data: Entries<Patch>, x: (string, Patch), key: string)
    ensures PatchesFor(data + [x], key) ==
      PatchesFor(data, key) + (if x.0 == key && x.1.Patch? then [x.1.updates] else [])
  {
    if data == [] {
      assert data + [x] == [x];
    } else {
      assert (data + [x])[1..] == data[1..] + [x];
      PatchesForSnoc(data[1..], x, key);
    }
  }

  /** Dropping the undefined sections does not change what any section receives. */
  lemma {:induction false} PatchesForDefined(data: Entries<Patch>, key: string)
    ensures PatchesFor(Filter(data, PatchDefined), key) == PatchesFor(data, key)
  {
    if data != [] {
      PatchesForDefined(data[1..], key);
      if PatchDefined(data[0].1) {
        assert Filter(data, PatchDefined) == [data[0]] + Filter(data[1..], PatchDefined);
      } else {
        assert Filter(data, PatchDefined) == Filter(data[1..], PatchDefined);
      }
    }
  }

  /** A section receives nothing from an action that does not name it. */
  lemma {:induction false} PatchesForAbsent(data: Entries<Patch>, key: string)
    requires key !in Keys(data)
    ensures PatchesFor(data, key) == []
  {
    if data != [] {
      assert Keys(data) == [data[0].0] + Keys(data[1..]);
      PatchesForAbsent(data[1..], key);
    }
  }

  /** With unique keys, a section named once with a defined patch receives exactly that patch. */
  lemma {:induction false} PatchesForOnce(data: Entries<Patch>, i: nat)
    requires DistinctKeys(data) && i < |data|
    ensures PatchesFor(data, data[i].0) == if data[i].1.Patch? then [data[i].1.updates] else []
  {
    if i == 0 {
      assert data[0].0 !in Keys(data[1..]) by {
        forall j | 0 <= j < |data[1..]| ensures Keys(data[1..])[j] != data[0].0 {
          assert data[1..][j] == data[j + 1];
        }
      }
      PatchesForAbsent(data[1..], data[0].0);
    } else {
      assert data[1..][i - 1] == data[i];
      assert DistinctKeys(data[1..]) by {
        forall a, b | 0 <= a < b < |data[1..]| ensures data[1..][a].0 != data[1..][b].0 {
          assert data[1..][a] == data[a + 1] && data[1..][b] == data[b + 1];
        }
      }
      PatchesForOnce(data[1..], i - 1);
    }
  }

  /** A section after receiving several updates in turn. */
  function Fold(s: SectionState, patches: seq<Entries<Value>>): SectionState
    decreases |patches|
  {
    if patches == [] then s else Fold(UpdateStep(s, patches[0]), patches[1..])
  }

  lemma {:induction false} FoldSnoc(s: SectionState, patches: seq<Entries<Value>>, p: Entries<Value>)
    ensures Fold(s, patches + [p]) == UpdateStep(Fold(s, patches), p)
    decreases |patches|
  {
    if patches == [] {
      assert patches + [p] == [p];
    } else {
      assert (patches + [p])[1..] == patches[1..] + [p];
      FoldSnoc(UpdateStep(s, patches[0]), patches[1..], p);
    }
  }

  /** The position of `key` in `keys`. */
  function IndexIn(keys: seq<string>, key: string): (i: nat)
    requires key in keys
    ensures i < |keys| && keys[i] == key
  {
    if keys[0] == key then 0 else 1 + IndexIn(keys[1..], key)
  }

  const Unrecognized := "got unrecognized redux action:"

  /** What `console.warn` receives for an action the reducer does not know. */
  function ReducerWarnings(actionType: string): (w: seq<string>)
    requires actionType != "UPDATE"
    ensures w == [] <==> Contains(actionType, "INIT")
  {
    if Contains(actionType, "INIT") then [] else [Unrecognized + " " + actionType]
  }

  /**
   * What a callback given to `Act` does, step by step: dispatch an update, call another
   * `Act`-wrapped callback, or throw.
   */
  datatype Step = Dispatch(data: Entries<Patch>) | Call(inner: seq<Step>) | Throw

  /** Every update the steps dispatch, nested ones included, names only sections in `keys`. */
  predicate Addressed(steps: seq<Step>, keys: seq<string>)
    decreases steps
  {
    forall n :: 0 <= n < |steps| ==>
      match steps[n]
      case Dispatch(data) => forall x :: x in data ==> x.0 in keys
      case Call(inner) => Addressed(inner, keys)
      case Throw => true
  }

  /**
   * Running the steps: how many updates are dispatched before the run ends, and whether
   * it ends by throwing (a throw in a nested callback propagates).
   */
  function Run(steps: seq<Step>): (r: (nat, bool))
    decreases steps
  {
    if steps == [] then (0, false)
    else match steps[0]
      case Dispatch(_) => var rest := Run(steps[1..]); (1 + rest.0, rest.1)
      case Throw => (0, true)
      case Call(inner) =>
        var first := Run(inner);
        if first.1 then first
        else var rest := Run(steps[1..]); (first.0 + rest.0, rest.1)
  }

  /** The fields of section `key` after one dispatched `UPDATE` with `data`. */
  function DispatchFields(fields: map<string, Value>, key: string, data: Entries<Patch>): map<string, Value>
  {
    Fold(SectionState(fields, false), PatchesFor(data, key)).fields
  }

  /**
   * The fields of section `key` after a callback runs `steps`: every update dispatched before
   * the first throw, nested callbacks included, applies its patches for that section in turn.
   */
  function Dispatched(fields: map<string, Value>, key: string, steps: seq<Step>): map<string, Value>
    decreases steps
  {
    if steps == [] then fields
    else match steps[0]
      case Dispatch(data) => Dispatched(DispatchFields(fields, key, data), key, steps[1..])
      case Throw => fields
      case Call(inner) =>
        var mid := Dispatched(fields, key, inner);
        if Run(inner).1 then mid else Dispatched(mid, key, steps[1..])
  }

  /**
   * A callback that returns normally and is followed by more steps: its dispatches come
   * first, then theirs, and it throws only if the later steps do.
   */
  lemma {:induction false} DispatchedAppend(fields: map<string, Value>, key: string, a: seq<Step>, b: seq<Step>)
    requires !Run(a).1
    ensures Dispatched(fields, key, a + b) == Dispatched(Dispatched(fields, key, a), key, b)
    ensures Run(a + b) == (Run(a).0 + Run(b).0, Run(b).1)
    decreases a
  {
    if a == [] {
      assert a + b == b;
    } else {
      assert (a + b)[0] == a[0] && (a + b)[1..] == a[1..] + b;
      match a[0]
      case Dispatch(data) =>
        DispatchedAppend(DispatchFields(fields, key, data), key, a[1..], b);
      case Call(inner) =>
        DispatchedAppend(Dispatched(fields, key, inner), key, a[1..], b);
      case Throw =>
        assert false;
    }
  }

  /** The fields a run of updates leaves do not depend on whether a change was already pending. */
  lemma {:induction false} FoldFields(fields: map<string, Value>, b: bool, c: bool, patches: seq<Entries<Value>>)
    ensures Fold(SectionState(fields, b), patches).fields == Fold(SectionState(fields, c), patches).fields
    decreases |patches|
  {
    if patches != [] {
      var s1 := UpdateStep(SectionState(fields, b), patches[0]);
      var s2 := UpdateStep(SectionState(fields, c), patches[0]);
      assert s1.fields == s2.fields;
      assert s1 == SectionState(s1.fields, s1.hasChanged) && s2 == SectionState(s1.fields, s2.hasChanged);
      FoldFields(s1.fields, s1.hasChanged, s2.hasChanged, patches[1..]);
    }
  }

  /** One more entry of an action's data takes each section one `[UPDATE]` step further, or leaves it. */
  lemma FoldPatch(s0: SectionState, before: SectionState, after: SectionState,
                  prefix: Entries<Patch>, x: (string, Patch), key: string)
    requires x.1.Patch?
    requires before == Fold(s0, PatchesFor(prefix, key))
    requires key == x.0 ==> after == UpdateStep(before, x.1.updates)
    requires key != x.0 ==> after == before
    ensures after == Fold(s0, PatchesFor(prefix + [x], key))
  {
    PatchesForSnoc(prefix, x, key);
    if key == x.0 {
      FoldSnoc(s0, PatchesFor(prefix, key), x.1.updates);
    } else {
      assert PatchesFor(prefix, key) + [] == PatchesFor(prefix, key);
    }
  }

  /** The action `makeAction(k, f)` dispatches, seen from section `key`. */
  lemma SinglePatch(s: SectionState, k: string, key: string, f: string, newVal: Value)
    ensures Fold(s, PatchesFor([(k, Patch([(f, newVal)]))], key)) ==
      if key == k && newVal != Undefined then SectionState(s.fields[f := newVal], true) else s
  {
    var data := [(k, Patch([(f, newVal)]))];
    assert data[1..] == [];
    assert Filter([(f, newVal)], IsDefined) == if newVal != Undefined then [(f, newVal)] else [];
    assert Fold(s, [[(f, newVal)]]) == UpdateStep(s, [(f, newVal)]);
    assert Assigned(s.fields, [(f, newVal)]) == s.fields[f := newVal];
  }

  /**
   * The calls one `notify` makes, given each section's changed flag and dependents in section
   * order: the dependents of every changed section, section by section.
   */
  function Notified(pending: seq<(bool, seq<nat>)>): seq<nat>
  {
    if pending == [] then []
    else (if pending[0].0 then pending[0].1 else []) + Notified(pending[1..])
  }

  lemma {:induction false} NotifiedSnoc(pending: seq<(bool, seq<nat>)>, x: (bool, seq<nat>))
    ensures Notified(pending + [x]) == Notified(pending) + if x.0 then x.1 else []
  {
    if pending != [] {
      assert (pending + [x])[1..] == pending[1..] + [x];
      NotifiedSnoc(pending[1..], x);
    }
  }

  /** Each section's changed flag after an `UPDATE` with `data`, beside its dependents. */
  function AfterUpdate(sections: seq<SectionState>, pending: seq<(bool, seq<nat>)>, keys: seq<string>,
                       data: Entries<Patch>): (r: seq<(bool, seq<nat>)>)
    requires |sections| == |pending| == |keys|
    ensures |r| == |sections|
    ensures forall i :: 0 <= i < |r| ==>
      r[i] == (Fold(sections[i], PatchesFor(data, keys[i])).hasChanged, pending[i].1)
  {
    seq(|sections|, i requires 0 <= i < |sections| =>
      (Fold(sections[i], PatchesFor(data, keys[i])).hasChanged, pending[i].1))
  }

  /** When section `j` alone has changed, `notify` calls exactly its dependents. */
  lemma {:induction false} NotifiedOnly(pending: seq<(bool, seq<nat>)>, j: nat)
    requires j < |pending| && pending[j].0
    requires forall i :: 0 <= i < |pending| && i != j ==> !pending[i].0
    ensures Notified(pending) == pending[j].1
  {
    if j == 0 {
      NotifiedNone(pending[1..]);
    } else {
      NotifiedOnly(pending[1..], j - 1);
    }
  }

  /** With no section changed, `notify` calls nobody. */
  lemma {:induction false} NotifiedNone(pending: seq<(bool, seq<nat>)>)
    requires forall i :: 0 <= i < |pending| ==> !pending[i].0
    ensures Notified(pending) == []
  {
    if pending != [] {
      NotifiedNone(pending[1..]);
    }
  }

  /** `StoreHelpers` around a store built from the fixed state object `state`. */
  class StoreHelpers {
    /** The state object: the reducer always returns this same object. */
    const state: seq<(string, ReduxState)>
    var midUpdate: bool
    /** Every dependent callback called, in order. */
    var notifications: seq<nat>
    /** Calls of `notify`. */
    var notifyCalls: nat
    var warnings: seq<string>

    /** The sections and their internal records. */
    ghost const Repr: set<object>

    ghost predicate Valid()
      reads this, Repr
    {
      DistinctKeys(state) && this !in Repr &&
      (forall i :: 0 <= i < |state| ==> state[i].1 in Repr && state[i].1.internal in Repr) &&
      forall i, j :: 0 <= i < j < |state| ==>
        state[i].1 != state[j].1 && state[i].1.internal != state[j].1.internal
    }

    ghost function Section(i: nat): SectionState
      requires i < |state|
      reads this, state[i].1, state[i].1.internal
    {
      SectionState(state[i].1.fields, state[i].1.internal.hasChanged)
    }

    /** No section has changes its dependents have not been told about. */
    ghost predicate Quiet()
      requires Valid()
      reads this, Repr
    {
      forall i :: 0 <= i < |state| ==> !state[i].1.internal.hasChanged
    }

    /** Creating the store dispatches redux's own init action, which the reducer accepts silently. */
    constructor(state: seq<(string, ReduxState)>)
      requires DistinctKeys(state)
      requires forall i, j :: 0 <= i < j < |state| ==>
        state[i].1 != state[j].1 && state[i].1.internal != state[j].1.internal
      ensures Valid() && this.state == state
      ensures !midUpdate && notifications == [] && notifyCalls == 0 && warnings == []
    {
      this.state := state;
      Repr := (set i | 0 <= i < |state| :: state[i].1) + (set i | 0 <= i < |state| :: state[i].1.internal);
      midUpdate := false;
      notifications := [];
      notifyCalls := 0;
      warnings := [];
    }

    /** The index of section `key`, which the action's type guarantees exists. */
    function IndexOf(key: string): (i: nat)
      requires key in Keys(state)
      ensures i < |state| && state[i].0 == key
    {
      IndexIn(Keys(state), key)
    }

    /**
     * The reducer: for `UPDATE`, each section whose patch is defined gets `[UPDATE](patch)`,
     * in the order of the action's keys, and every other section is untouched; any other
     * action changes nothing and warns unless its type contains "INIT".
     */
    method Reduce(actionType: string, data: Entries<Patch>)
      requires Valid()
      requires forall x :: x in data ==> x.0 in Keys(state)
      modifies this`warnings, Repr
      ensures actionType != "UPDATE" ==>
        (warnings == old(warnings) + ReducerWarnings(actionType) &&
         forall i :: 0 <= i < |state| ==> Section(i) == old(Section(i)))
      ensures actionType == "UPDATE" ==>
        (warnings == old(warnings) &&
         forall i :: 0 <= i < |state| ==> Section(i) == Fold(old(Section(i)), PatchesFor(data, state[i].0)))
      ensures forall i :: 0 <= i < |state| ==> state[i].1.internal.dependents == old(state[i].1.internal.dependents)
    {
      if actionType != "UPDATE" {
        warnings := warnings + ReducerWarnings(actionType);
        return;
      }
      ApplyAll(data);
    }

    /** Every section's state, in order. */
    ghost function Snapshot(): (r: seq<SectionState>)
      requires Valid()
      reads this, Repr
      ensures |r| == |state| && forall i :: 0 <= i < |state| ==> r[i] == Section(i)
    {
      seq(|state|, i requires 0 <= i < |state| && Valid() reads this, Repr => Section(i))
    }

    /** The `UPDATE` branch of the reducer: each defined entry of the data, in order. */
    method ApplyAll(data: Entries<Patch>)
      requires Valid()
      requires forall x :: x in data ==> x.0 in Keys(state)
      modifies Repr
      ensures forall i :: 0 <= i < |state| ==> Section(i) == Fold(old(Section(i)), PatchesFor(data, state[i].0))
      ensures forall i :: 0 <= i < |state| ==> state[i].1.internal.dependents == old(state[i].1.internal.dependents)
    {
      var defined := ObjectEntries(data, Some(PatchDefined));
      forall x | x in defined ensures x.0 in Keys(state) && x.1.Patch? {
        assert x in data && PatchDefined(x.1);
      }
      ghost var start := Snapshot();
      var n := 0;
      assert defined[..n] == [];
      while n < |defined|
        invariant 0 <= n <= |defined| && Valid()
        invariant forall i :: 0 <= i < |state| ==> Section(i) == Fold(start[i], PatchesFor(defined[..n], state[i].0))
        invariant forall i :: 0 <= i < |state| ==> state[i].1.internal.dependents == old(state[i].1.internal.dependents)
      {
        ApplyEntry(start, defined, n);
        n := n + 1;
      }
      assert defined[..n] == defined;
      forall i | 0 <= i < |state| ensures PatchesFor(defined, state[i].0) == PatchesFor(data, state[i].0) {
        PatchesForDefined(data, state[i].0);
      }
    }

    /** The reducer's step for the defined entry `entries[n]` of the action's data, after the entries before it. */
    method ApplyEntry(ghost start: seq<SectionState>, entries: Entries<Patch>, n: nat)
      requires Valid() && n < |entries| && |start| == |state|
      requires forall x :: x in entries ==> x.0 in Keys(state) && x.1.Patch?
      requires forall i :: 0 <= i < |state| ==> Section(i) == Fold(start[i], PatchesFor(entries[..n], state[i].0))
      modifies Repr
      ensures Valid()
      ensures forall i :: 0 <= i < |state| ==> Section(i) == Fold(start[i], PatchesFor(entries[..n + 1], state[i].0))
      ensures forall i :: 0 <= i < |state| ==> state[i].1.internal.dependents == old(state[i].1.internal.dependents)
    {
      var x := entries[n];
      assert x in entries && entries[..n + 1] == entries[..n] + [x];
      var j := IndexOf(x.0);
      UpdateSection(j, x.1.updates);
      forall i | 0 <= i < |state|
        ensures Section(i) == Fold(start[i], PatchesFor(entries[..n + 1], state[i].0))
      {
        assert i != j ==> Keys(state)[i] != Keys(state)[j];
        FoldPatch(start[i], old(Section(i)), Section(i), entries[..n], x, state[i].0);
      }
    }

    /** `[UPDATE](updates)` on section `j` alone. */
    method UpdateSection(j: nat, updates: Entries<Value>)
      requires Valid() && j < |state|
      modifies Repr
      ensures Section(j) == UpdateStep(old(Section(j)), updates)
      ensures forall i :: 0 <= i < |state| && i != j ==> Section(i) == old(Section(i))
      ensures forall i :: 0 <= i < |state| ==> state[i].1.internal.dependents == old(state[i].1.internal.dependents)
    {
      var section := state[j].1;
      section.Update(updates);
      forall i | 0 <= i < |state| && i != j ensures Section(i) == old(Section(i)) {
        assert state[i].1 != section && state[i].1.internal != section.internal;
      }
    }

    /** `notify`: every section tells its dependents, in section order; afterwards nothing is pending. */
    method Notify()
      requires Valid()
      modifies this`notifications, this`notifyCalls, Repr
      ensures Quiet()
      ensures notifyCalls == old(notifyCalls) + 1
      ensures forall i :: 0 <= i < |state| ==> state[i].1.fields == old(state[i].1.fields)
      ensures forall i :: 0 <= i < |state| ==> state[i].1.internal.dependents == old(state[i].1.internal.dependents)
      ensures notifications == old(notifications) + Notified(old(Pending()))
      ensures old(Quiet()) ==> notifications == old(notifications)
    {
      ghost var pending := Pending();
      ghost var fields := Fields();
      if Quiet() {
        NotifiedNone(pending);
      }
      notifyCalls := notifyCalls + 1;
      var n := 0;
      while n < |state|
        invariant 0 <= n <= |state| && Valid()
        invariant notifyCalls == old(notifyCalls) + 1
        invariant forall i :: 0 <= i < n ==> !state[i].1.internal.hasChanged
        invariant forall i :: n <= i < |state| ==> state[i].1.internal.hasChanged == pending[i].0
        invariant forall i :: 0 <= i < |state| ==> state[i].1.fields == fields[i]
        invariant forall i :: 0 <= i < |state| ==> state[i].1.internal.dependents == pending[i].1
        invariant notifications == old(notifications) + Notified(pending[..n])
      {
        NotifySection(pending, fields, old(notifications), n);
        n := n + 1;
      }
      assert pending[..n] == pending;
    }

    /** The step of `notify` for section `n`: its dependents are told, if it changed. */
    method NotifySection(ghost pending: seq<(bool, seq<nat>)>, ghost fields: seq<map<string, Value>>,
                         ghost before: seq<nat>, n: nat)
      requires Valid() && n < |state| && |pending| == |state| && |fields| == |state|
      requires forall i :: 0 <= i < n ==> !state[i].1.internal.hasChanged
      requires forall i :: n <= i < |state| ==> state[i].1.internal.hasChanged == pending[i].0
      requires forall i :: 0 <= i < |state| ==> state[i].1.fields == fields[i]
      requires forall i :: 0 <= i < |state| ==> state[i].1.internal.dependents == pending[i].1
      requires notifications == before + Notified(pending[..n])
      modifies this`notifications, state[n].1.internal`hasChanged
      ensures forall i :: 0 <= i < n + 1 ==> !state[i].1.internal.hasChanged
      ensures forall i :: n + 1 <= i < |state| ==> state[i].1.internal.hasChanged == pending[i].0
      ensures forall i :: 0 <= i < |state| ==> state[i].1.fields == fields[i]
      ensures forall i :: 0 <= i < |state| ==> state[i].1.internal.dependents == pending[i].1
      ensures notifications == before + Notified(pending[..n + 1])
    {
      var called := state[n].1.internal.NotifyDependents();
      notifications := notifications + called;
      assert pending[..n + 1] == pending[..n] + [pending[n]];
      NotifiedSnoc(pending[..n], pending[n]);
      forall i | 0 <= i < |state| && i != n
        ensures state[i].1.internal.hasChanged == old(state[i].1.internal.hasChanged)
      {
        assert state[i].1.internal != state[n].1.internal;
      }
    }

    /** Each section's fields, in section order. */
    ghost function Fields(): (r: seq<map<string, Value>>)
      requires Valid()
      reads this, Repr
      ensures |r| == |state|
      ensures forall i :: 0 <= i < |state| ==> r[i] == state[i].1.fields
    {
      seq(|state|, i requires 0 <= i < |state| && Valid() reads this, Repr => state[i].1.fields)
    }

    /** Each section's changed flag and dependents, in section order. */
    ghost function Pending(): (r: seq<(bool, seq<nat>)>)
      requires Valid()
      reads this, Repr
      ensures |r| == |state|
      ensures forall i :: 0 <= i < |state| ==> r[i] == (state[i].1.internal.hasChanged, state[i].1.internal.dependents)
    {
      seq(|state|, i requires 0 <= i < |state| && Valid() reads this, Repr =>
        (state[i].1.internal.hasChanged, state[i].1.internal.dependents))
    }

    /** `update(s)`: dispatches an `UPDATE` action; the store's subscription then calls `notify`. */
    method Update(data: Entries<Patch>)
      requires Valid()
      requires forall x :: x in data ==> x.0 in Keys(state)
      modifies this`warnings, this`notifications, this`notifyCalls, Repr
      ensures Quiet() && warnings == old(warnings) && notifyCalls == old(notifyCalls) + 1
      ensures forall i :: 0 <= i < |state| ==>
        state[i].1.fields == Fold(old(Section(i)), PatchesFor(data, state[i].0)).fields
      ensures forall i :: 0 <= i < |state| ==> state[i].1.fields == DispatchFields(old(state[i].1.fields), state[i].0, data)
      ensures forall i :: 0 <= i < |state| ==> state[i].1.internal.dependents == old(state[i].1.internal.dependents)
      ensures notifications == old(notifications) + Notified(AfterUpdate(old(Snapshot()), old(Pending()), Keys(state), data))
    {
      ghost var sections := Snapshot();
      ghost var pending := Pending();
      forall i | 0 <= i < |state|
        ensures Fold(sections[i], PatchesFor(data, state[i].0)).fields == DispatchFields(sections[i].fields, state[i].0, data)
      {
        FoldFields(sections[i].fields, sections[i].hasChanged, false, PatchesFor(data, state[i].0));
      }
      Reduce("UPDATE", data);
      assert Pending() == AfterUpdate(sections, pending, Keys(state), data);
      Notify();
    }

    /**
     * `makeAction(k, f)(newVal)`: an update whose only entry sets field `f` of section `k`;
     * `undefined` changes no field and, when nothing was pending, calls no dependent.
     */
    method ActionCall(k: string, f: string, newVal: Value)
      requires Valid() && k in Keys(state)
      modifies this`warnings, this`notifications, this`notifyCalls, Repr
      ensures Quiet() && warnings == old(warnings) && notifyCalls == old(notifyCalls) + 1
      ensures forall i :: 0 <= i < |state| && state[i].0 != k ==> state[i].1.fields == old(state[i].1.fields)
      ensures newVal != Undefined ==>
        state[IndexOf(k)].1.fields == old(state[IndexOf(k)].1.fields)[f := newVal]
      ensures newVal == Undefined ==> forall i :: 0 <= i < |state| ==> state[i].1.fields == old(state[i].1.fields)
      ensures forall i :: 0 <= i < |state| ==> state[i].1.internal.dependents == old(state[i].1.internal.dependents)
      ensures notifications ==
        old(notifications) + Notified(AfterUpdate(old(Snapshot()), old(Pending()), Keys(state), [(k, Patch([(f, newVal)]))]))
      ensures old(Quiet()) && newVal == Undefined ==> notifications == old(notifications)
      ensures old(Quiet()) && newVal != Undefined ==>
        notifications == old(notifications) + old(state[IndexOf(k)].1.internal.dependents)
    {
      var data := [(k, Patch([(f, newVal)]))];
      ghost var after := AfterUpdate(Snapshot(), Pending(), Keys(state), data);
      ghost var j := IndexOf(k);
      forall i | 0 <= i < |state|
        ensures Fold(Section(i), PatchesFor(data, state[i].0)) ==
          if state[i].0 == k && newVal != Undefined then SectionState(Section(i).fields[f := newVal], true)
          else Section(i)
      {
        SinglePatch(Section(i), k, state[i].0, f, newVal);
      }
      forall i | 0 <= i < |state| ensures DispatchFields(state[i].1.fields, state[i].0, data) ==
        if state[i].0 == k && newVal != Undefined then state[i].1.fields[f := newVal] else state[i].1.fields
      {
        SinglePatch(SectionState(state[i].1.fields, false), k, state[i].0, f, newVal);
      }
      if Quiet() {
        if newVal == Undefined {
          NotifiedNone(after);
        } else {
          forall i | 0 <= i < |state| && i != j ensures !after[i].0 {
            assert Keys(state)[i] != Keys(state)[j];
          }
          NotifiedOnly(after, j);
        }
      }
      Update(data);
    }

    /**
     * `Act(callback)(...args)`: `midUpdate` is set while the callback runs and restored to its
     * prior value whether or not it throws; afterwards only the outermost call notifies, and
     * only when nothing was thrown. Every dispatch inside still notifies through the store's
     * subscription. Returns whether the callback threw.
     */
    method Act(steps: seq<Step>) returns (threw: bool)
      requires Valid() && Addressed(steps, Keys(state))
      modifies this`midUpdate, this`warnings, this`notifications, this`notifyCalls, Repr
      decreases steps, 2
      ensures midUpdate == old(midUpdate) && warnings == old(warnings)
      ensures threw == Run(steps).1
      ensures notifyCalls == old(notifyCalls) + Run(steps).0 + (if !old(midUpdate) && !threw then 1 else 0)
      ensures !old(midUpdate) && !threw ==> Quiet()
      ensures forall i :: 0 <= i < |state| ==> state[i].1.fields == Dispatched(old(state[i].1.fields), state[i].0, steps)
      ensures forall i :: 0 <= i < |state| ==> state[i].1.internal.dependents == old(state[i].1.internal.dependents)
    {
      var alreadyUpdating := midUpdate;
      midUpdate := true;
      threw := false;
      var n := 0;
      while n < |steps| && !threw
        invariant 0 <= n <= |steps| && Valid()
        invariant midUpdate && warnings == old(warnings) && notifyCalls >= old(notifyCalls)
        invariant !threw ==>
          Run(steps).0 == notifyCalls - old(notifyCalls) + Run(steps[n..]).0 &&
          Run(steps).1 == Run(steps[n..]).1
        invariant threw ==> Run(steps) == (notifyCalls - old(notifyCalls), true)
        invariant !threw ==> forall i :: 0 <= i < |state| ==>
          Dispatched(old(state[i].1.fields), state[i].0, steps) == Dispatched(state[i].1.fields, state[i].0, steps[n..])
        invariant threw ==> forall i :: 0 <= i < |state| ==>
          Dispatched(old(state[i].1.fields), state[i].0, steps) == state[i].1.fields
        invariant forall i :: 0 <= i < |state| ==> state[i].1.internal.dependents == old(state[i].1.internal.dependents)
      {
        threw := RunStep(steps, n);
        n := n + 1;
      }
      midUpdate := alreadyUpdating;
      if !alreadyUpdating && !threw {
        Notify();
      }
    }

    /** Step `n` of a callback running inside `Act`: a dispatch, a nested `Act` call or a throw. */
    method RunStep(steps: seq<Step>, n: nat) returns (threw: bool)
      requires Valid() && midUpdate && n < |steps| && Addressed(steps, Keys(state))
      modifies this`midUpdate, this`warnings, this`notifications, this`notifyCalls, Repr
      decreases steps, 1
      ensures midUpdate && warnings == old(warnings) && notifyCalls >= old(notifyCalls)
      ensures !threw ==> Run(steps[n..]) == (notifyCalls - old(notifyCalls) + Run(steps[n + 1..]).0, Run(steps[n + 1..]).1)
      ensures threw ==> Run(steps[n..]) == (notifyCalls - old(notifyCalls), true)
      ensures !threw ==> forall i :: 0 <= i < |state| ==>
        Dispatched(old(state[i].1.fields), state[i].0, steps[n..]) == Dispatched(state[i].1.fields, state[i].0, steps[n + 1..])
      ensures threw ==> forall i :: 0 <= i < |state| ==>
        Dispatched(old(state[i].1.fields), state[i].0, steps[n..]) == state[i].1.fields
      ensures forall i :: 0 <= i < |state| ==> state[i].1.internal.dependents == old(state[i].1.internal.dependents)
    {
      assert steps[n..][0] == steps[n] && steps[n..][1..] == steps[n + 1..];
      match steps[n] {
        case Dispatch(_) =>
          DispatchStep(steps, n);
          threw := false;
        case Call(_) =>
          threw := CallStep(steps, n);
        case Throw =>
          threw := true;
      }
    }

    /** A dispatch inside `Act`: the update is applied and the subscription notifies. */
    method DispatchStep(steps: seq<Step>, n: nat)
      requires Valid() && midUpdate && n < |steps| && steps[n].Dispatch? && Addressed(steps, Keys(state))
      modifies this`warnings, this`notifications, this`notifyCalls, Repr
      ensures midUpdate && warnings == old(warnings) && notifyCalls == old(notifyCalls) + 1
      ensures Run(steps[n..]) == (1 + Run(steps[n + 1..]).0, Run(steps[n + 1..]).1)
      ensures forall i :: 0 <= i < |state| ==>
        Dispatched(old(state[i].1.fields), state[i].0, steps[n..]) == Dispatched(state[i].1.fields, state[i].0, steps[n + 1..])
      ensures forall i :: 0 <= i < |state| ==> state[i].1.internal.dependents == old(state[i].1.internal.dependents)
    {
      assert steps[n..][0] == steps[n] && steps[n..][1..] == steps[n + 1..];
      Update(steps[n].data);
    }

    /** A nested `Act` call inside `Act`: it runs its own steps and may throw. */
    method CallStep(steps: seq<Step>, n: nat) returns (threw: bool)
      requires Valid() && midUpdate && n < |steps| && steps[n].Call? && Addressed(steps, Keys(state))
      modifies this`midUpdate, this`warnings, this`notifications, this`notifyCalls, Repr
      decreases steps, 0
      ensures midUpdate && warnings == old(warnings) && notifyCalls >= old(notifyCalls)
      ensures !threw ==> Run(steps[n..]) == (notifyCalls - old(notifyCalls) + Run(steps[n + 1..]).0, Run(steps[n + 1..]).1)
      ensures threw ==> Run(steps[n..]) == (notifyCalls - old(notifyCalls), true)
      ensures !threw ==> forall i :: 0 <= i < |state| ==>
        Dispatched(old(state[i].1.fields), state[i].0, steps[n..]) == Dispatched(state[i].1.fields, state[i].0, steps[n + 1..])
      ensures threw ==> forall i :: 0 <= i < |state| ==>
        Dispatched(old(state[i].1.fields), state[i].0, steps[n..]) == state[i].1.fields
      ensures forall i :: 0 <= i < |state| ==> state[i].1.internal.dependents == old(state[i].1.internal.dependents)
    {
      assert steps[n..][0] == steps[n] && steps[n..][1..] == steps[n + 1..];
      threw := Act(steps[n].inner);
    }
  }
}
