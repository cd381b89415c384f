/**
 * The class-to-function-component bridge of src/lib/hookcls.tsx: instances whose
 * render-affecting fields request a re-render through a proxy, the mount that keeps one
 * instance per rendered element, and the `WithReducers` state helper.
 */
module HookCls {
  import opened Wrappers
  import opened Js
  import opened FieldRegistry

  /**
   * The proxy's `set` trap on `target`: the new target, and whether `_force_update` must be
   * called — exactly when the field is registered and the value differs from the one it
   * replaces.
   */
  function ProxySet(fields: seq<string>, target: map<string, Value>, field: string, v: Value)
    : (r: (map<string, Value>, bool))
    ensures r.0.Keys == target.Keys + {field}
    ensures Prop(r.0, field) == v && forall g :: g != field ==> Prop(r.0, g) == Prop(target, g)
    ensures r.1 <==> field in fields && v != Prop(target, field)
  {
    var doUpdate := field in fields && v != Prop(target, field);
    (target[field := v], doUpdate)
  }

  /** Writing the value a field already holds, or writing an unregistered field, never requests an update. */
  lemma ProxySetQuiet(fields: seq<string>, target: map<string, Value>, field: string, v: Value)
    requires field !in fields || Prop(target, field) == v
    ensures !ProxySet(fields, target, field, v).1
  {
  }

  /** One object created by `new Cls()` for a `HookCls` subclass. */
  class Instance {
    const reg: Registry
    const cls: nat
    /** The prototype whose handler the constructor wrapped the instance in, if any. */
    const handle: Option<nat>
    /** The instance's own properties, as the proxy's target holds them. */
    var fields: map<string, Value>
    /** Whether `[HOC_RENDER]` has replaced the no-op `_force_update` with React's dispatcher. */
    var rendered: bool
    /** Calls of React's dispatcher through `_force_update`. */
    var forceUpdates: nat

    ghost predicate Valid()
      reads this, reg
    {
      reg.Valid() &&
      (handle.Some? ==> handle.value < |reg.protos| && reg.protos[handle.value].ownHandle)
    }

    /** The constructor returns a proxy exactly when the class registered a render-affecting field. */
    constructor(reg: Registry, cls: nat)
      requires reg.Valid() && cls < |reg.protos|
      ensures Valid()
      ensures this.reg == reg && this.cls == cls
      ensures handle == HandleOwner(reg.protos, cls)
      ensures handle.Some? <==> FieldsOf(reg.protos, cls) != []
      ensures fields == map[] && !rendered && forceUpdates == 0
    {
      this.reg := reg;
      this.cls := cls;
      handle := HandleOwner(reg.protos, cls);
      fields := map[];
      rendered := false;
      forceUpdates := 0;
    }

    /** The fields the handler checks: the list its owning prototype keeps. */
    function Registered(): seq<string>
      requires Valid()
      reads this, reg
    {
      if handle.Some? then reg.protos[handle.value].ownFields.value else []
    }

    /**
     * `inst[field] = v` through the proxy: the write always happens; `_force_update` is called
     * when the field is registered and changes, and before the first render that call does nothing.
     */
    method Set(field: string, v: Value)
      requires Valid()
      modifies this`fields, this`forceUpdates
      ensures fields == old(fields)[field := v]
      ensures forceUpdates == old(forceUpdates) +
        (if rendered && field in Registered() && v != Prop(old(fields), field) then 1 else 0)
    {
      if handle.Some? {
        var (target, doUpdate) := ProxySet(reg.protos[handle.value].ownFields.value, fields, field, v);
        fields := target;
        if doUpdate && rendered {
          forceUpdates := forceUpdates + 1;
        }
      } else {
        fields := fields[field := v];
      }
    }

    /** `[HOC_RENDER]`: installs React's dispatcher as `_force_update`. */
    method HocRender()
      modifies this`rendered
      ensures rendered
    {
      rendered := true;
    }
  }

  /** One element rendered from the component `createComponent` returned. */
  class Mount {
    const reg: Registry
    const cls: nat
    /** `instRef.current`. */
    var instRef: Option<Instance>
    /** What the forwarded ref currently exposes. */
    var exposed: Option<Instance>

    ghost predicate Valid()
      reads this
    {
      instRef.Some? ==> instRef.value.reg == reg && instRef.value.cls == cls
    }

    constructor(reg: Registry, cls: nat)
      ensures Valid() && this.reg == reg && this.cls == cls
      ensures instRef == None && exposed == None
    {
      this.reg := reg;
      this.cls := cls;
      instRef := None;
      exposed := None;
    }

    /**
     * One render: the instance is constructed only while the ref is empty, so every render of
     * the mount uses the same instance, which is also what the ref exposes.
     */
    method Render() returns (inst: Instance)
      requires Valid() && reg.Valid() && cls < |reg.protos|
      modifies this, if instRef.Some? then {instRef.value} else {}
      ensures Valid()
      ensures old(instRef).Some? ==> inst == old(instRef).value
      ensures old(instRef).None? ==> fresh(inst) && inst.handle == HandleOwner(reg.protos, cls)
      ensures inst.fields == (if old(instRef).Some? then old(instRef.value.fields) else map[])
      ensures inst.forceUpdates == (if old(instRef).Some? then old(instRef.value.forceUpdates) else 0)
      ensures instRef == Some(inst) && exposed == Some(inst)
      ensures inst.rendered
    {
      if instRef.None? {
        inst := new Instance(reg, cls);
        instRef := Some(inst);
      } else {
        inst := instRef.value;
      }
      exposed := Some(inst);
      inst.HocRender();
    }
  }

  /** An updater of a reduced field: its name and `(value, ...args) => newValue`. */
  datatype Updater = Updater(name: string, reduce: (Value, seq<Value>) -> Value)

  /** One entry `field: {initial, updaters}` of the map given to `WithReducers`. */
  datatype ReducerSpec = ReducerSpec(field: string, initial: Value, updaters: seq<Updater>)

  /** A call of the `updater`-th updater of the `field`-th spec that React has queued. */
  datatype Dispatch = Dispatch(field: nat, updater: nat, args: seq<Value>)

  /** Object keys are unique, so no two specs name the same field. */
  ghost predicate DistinctFields(spec: seq<ReducerSpec>)
  {
    forall i, j :: 0 <= i < j < |spec| ==> spec[i].field != spec[j].field
  }

  ghost predicate ValidQueue(spec: seq<ReducerSpec>, queue: seq<Dispatch>)
  {
    forall d :: d in queue ==> d.field < |spec| && d.updater < |spec[d.field].updaters|
  }

  /** The state React computes for field `i` from `v` by running its queued updates in order. */
  function Reduced(spec: seq<ReducerSpec>, i: nat, v: Value, queue: seq<Dispatch>): Value
    requires ValidQueue(spec, queue)
    decreases |queue|
  {
    if queue == [] then v
    else
      var d := queue[0];
      Reduced(spec, i, if d.field == i then spec[i].updaters[d.updater].reduce(v, d.args) else v, queue[1..])
  }

  /** Updates queued for other fields do not affect field `i`. */
  lemma {:induction false} ReducedOthers(spec: seq<ReducerSpec>, i: nat, v: Value, queue: seq<Dispatch>)
    requires ValidQueue(spec, queue)
    requires forall d :: d in queue ==> d.field != i
    ensures Reduced(spec, i, v, queue) == v
    decreases |queue|
  {
    if queue != [] {
      assert queue[0] in queue;
      ReducedOthers(spec, i, v, queue[1..]);
    }
  }

  /** Running queued updates in two batches is running them in one. */
  lemma {:induction false} ReducedConcat(spec: seq<ReducerSpec>, i: nat, v: Value, a: seq<Dispatch>, b: seq<Dispatch>)
    requires ValidQueue(spec, a) && ValidQueue(spec, b)
    ensures ValidQueue(spec, a + b)
    ensures Reduced(spec, i, v, a + b) == Reduced(spec, i, Reduced(spec, i, v, a), b)
    decreases |a|
  {
    if a == [] {
      assert a + b == b;
    } else {
      assert (a + b)[0] == a[0] && (a + b)[1..] == a[1..] + b;
      var d := a[0];
      assert d in a;
      var v' := if d.field == i then spec[i].updaters[d.updater].reduce(v, d.args) else v;
      assert ValidQueue(spec, a[1..]) by {
        forall e | e in a[1..] ensures e in a { }
      }
      ReducedConcat(spec, i, v', a[1..], b);
      assert Reduced(spec, i, v, a) == Reduced(spec, i, v', a[1..]);
    }
  }

  /** An instance of a class made by `HookCls.WithReducers(spec)`. */
  class ReducerInstance {
    const spec: seq<ReducerSpec>
    /** `_reducer_store`; the reduced fields are read-only getters over it. */
    var store: map<string, Value>
    /** Whether the first render has filled `_reducer_updaters`. */
    var rendered: bool
    /** Updates React holds for the next render. */
    var queue: seq<Dispatch>
    /** Re-renders React has scheduled because of dispatched updates. */
    var renderRequests: nat

    ghost predicate Valid()
      reads this
    {
      DistinctFields(spec) && ValidQueue(spec, queue) &&
      (forall i :: 0 <= i < |spec| ==> spec[i].field in store) &&
      (!rendered ==> queue == [])
    }

    /** The constructor stores every spec's `initial` under its field. */
    constructor(spec: seq<ReducerSpec>)
      requires DistinctFields(spec)
      ensures Valid() && this.spec == spec
      ensures forall i :: 0 <= i < |spec| ==> store[spec[i].field] == spec[i].initial
      ensures store.Keys == set i | 0 <= i < |spec| :: spec[i].field
      ensures !rendered && queue == [] && renderRequests == 0
    {
      this.spec := spec;
      store := map[];
      rendered := false;
      queue := [];
      renderRequests := 0;
      new;
      var n := 0;
      while n < |spec|
        invariant 0 <= n <= |spec|
        invariant this.spec == spec && !rendered && queue == [] && renderRequests == 0
        invariant forall i :: 0 <= i < n ==> spec[i].field in store
        invariant forall i :: 0 <= i < n ==> store[spec[i].field] == spec[i].initial
        invariant store.Keys == set i | 0 <= i < n :: spec[i].field
      {
        store := store[spec[n].field := spec[n].initial];
        n := n + 1;
      }
    }

    /** The getter of the `i`-th reduced field. */
    function Get(i: nat): Value
      requires Valid() && i < |spec|
      reads this
    {
      store[spec[i].field]
    }

    /**
     * Calling the `j`-th updater of the `i`-th field: before the first render it throws and
     * nothing changes; afterwards the update is queued and React schedules a render.
     */
    method CallUpdater(i: nat, j: nat, args: seq<Value>) returns (r: Outcome<string>)
      requires Valid() && i < |spec| && j < |spec[i].updaters|
      modifies this`queue, this`renderRequests
      ensures Valid()
      ensures !rendered ==> (r == Fail("dispatched action before first render.") &&
                             queue == old(queue) && renderRequests == old(renderRequests))
      ensures rendered ==> (r == Pass &&
                            queue == old(queue) + [Dispatch(i, j, args)] &&
                            renderRequests == old(renderRequests) + 1)
    {
      if rendered {
        queue := queue + [Dispatch(i, j, args)];
        renderRequests := renderRequests + 1;
        r := Pass;
      } else {
        r := Fail("dispatched action before first render.");
      }
    }

    /** `[HOC_RENDER]`: each reduced field takes the state React computed from its queued updates. */
    method Render()
      requires Valid()
      modifies this`store, this`queue, this`rendered
      ensures Valid() && rendered && queue == []
      ensures forall i :: 0 <= i < |spec| ==>
        store[spec[i].field] == Reduced(spec, i, old(store)[spec[i].field], old(queue))
      ensures store.Keys == old(store).Keys
    {
      var n := 0;
      while n < |spec|
        invariant 0 <= n <= |spec|
        invariant queue == old(queue) && Valid()
        invariant store.Keys == old(store).Keys
        invariant forall i :: 0 <= i < n ==>
          store[spec[i].field] == Reduced(spec, i, old(store)[spec[i].field], queue)
        invariant forall i :: n <= i < |spec| ==> store[spec[i].field] == old(store)[spec[i].field]
      {
        store := store[spec[n].field := Reduced(spec, n, store[spec[n].field], queue)];
        n := n + 1;
      }
      queue := [];
      rendered := true;
    }
  }

  /** Before the first render an updater call leaves the reduced fields at their initial values. */
  method UpdaterBeforeRender(spec: seq<ReducerSpec>, i: nat, j: nat, args: seq<Value>) returns (r: Outcome<string>)
    requires DistinctFields(spec) && i < |spec| && j < |spec[i].updaters|
    ensures r == Fail("dispatched action before first render.")
  {
    var inst := new ReducerInstance(spec);
    r := inst.CallUpdater(i, j, args);
  }
}
