/**
 * `HookedComponent` of src/lib/hooklib.tsx: render-affecting fields are accessors over a
 * per-instance store; a changing write asks React for an update through `_request_update`,
 * which the component created by `finalize` reassigns on every render.
 */
module HookLib {
  import opened Wrappers
  import opened Js
  import opened InitRegistry

  /** The error of calling the missing `_request_update`, or a `null` initializer. */
  const NotAFunction := "TypeError: not a function"

  /**
   * `_render_affecting_internal_store`: every table entry's initializer is called in table
   * order; a `null` initializer makes construction throw.
   */
  method InitialStore(table: Entries<InitEntry>) returns (r: Result<Entries<Value>, string>)
    requires DistinctKeys(table)
    ensures r.Err? <==> exists i :: 0 <= i < |table| && table[i].1 == NullInit
    ensures r.Err? ==> r.error == NotAFunction
    ensures r.Ok? ==> (Keys(r.value) == Keys(table) &&
                       forall i :: 0 <= i < |table| ==> r.value[i].1 == table[i].1.value)
  {
    var store: Entries<Value> := [];
    var n := 0;
    while n < |table|
      invariant 0 <= n <= |table|
      invariant |store| == n
      invariant forall i :: 0 <= i < n ==> store[i].0 == table[i].0 && table[i].1.Init? && store[i].1 == table[i].1.value
    {
      if table[n].1 == NullInit {
        return Err(NotAFunction);
      }
      // a fresh key of an object built in key order: the write appends it
      store := store + [(table[n].0, table[n].1.value)];
      n := n + 1;
    }
    r := Ok(store);
  }

  class HookedInstance {
    /** Fields with accessors on the instance's class chain. */
    const accessors: set<string>
    /** `_render_affecting_internal_store`. */
    var store: Entries<Value>
    /** Every other own property of the instance. */
    var plain: map<string, Value>
    /** Whether a render has assigned `_request_update`. */
    var hasUpdater: bool
    /** How many renders have assigned `_request_update`. */
    var updaterAssignments: nat
    /** Calls of `_request_update`, each asking React to re-render. */
    var renderRequests: nat

    constructor(accessors: set<string>, store: Entries<Value>)
      ensures this.accessors == accessors && this.store == store && plain == map[]
      ensures !hasUpdater && updaterAssignments == 0 && renderRequests == 0
    {
      this.accessors := accessors;
      this.store := store;
      plain := map[];
      hasUpdater := false;
      updaterAssignments := 0;
      renderRequests := 0;
    }

    /** `inst[f]`: through the getter for an accessor field, otherwise an own property. */
    function Read(f: string): Value
      reads this
    {
      ReadField(accessors, store, plain, f)
    }

    /**
     * `inst[f] = v`: through the setter, a change first requests an update (which throws
     * before the first render, leaving the store as it was), then the value is stored.
     */
    method Write(f: string, v: Value) returns (r: Outcome<string>)
      modifies this`store, this`plain, this`renderRequests
      ensures f !in accessors ==> (r == Pass && plain == old(plain)[f := v] &&
                                   store == old(store) && renderRequests == old(renderRequests))
      ensures f in accessors ==> plain == old(plain)
      ensures f in accessors && Get(old(store), f) == v ==>
        (r == Pass && store == Put(old(store), f, v) && renderRequests == old(renderRequests))
      ensures f in accessors && Get(old(store), f) != v && !hasUpdater ==>
        (r == Fail(NotAFunction) && store == old(store) && renderRequests == old(renderRequests))
      ensures f in accessors && Get(old(store), f) != v && hasUpdater ==>
        (r == Pass && store == Put(old(store), f, v) && renderRequests == old(renderRequests) + 1)
      ensures r == Pass ==> Read(f) == v && forall g :: g != f ==> Read(g) == old(Read(g))
      ensures r.Fail? ==> forall g :: Read(g) == old(Read(g))
    {
      forall g {
        ReadAfterWrite(accessors, store, plain, f, v, g);
      }
      if f !in accessors {
        plain := plain[f := v];
        return Pass;
      }
      if Get(store, f) != v {
        if !hasUpdater {
          return Fail(NotAFunction);
        }
        renderRequests := renderRequests + 1;
      }
      store := Put(store, f, v);
      r := Pass;
    }

    /** The part of each render that assigns `_request_update`. */
    method AssignUpdater()
      modifies this`hasUpdater, this`updaterAssignments
      ensures hasUpdater && updaterAssignments == old(updaterAssignments) + 1
    {
      hasUpdater := true;
      updaterAssignments := updaterAssignments + 1;
    }
  }

  /** One element rendered from the component `HookedComponent.finalize(Cls)` returned. */
  class Mount {
    const reg: Registry
    const cls: nat
    var instRef: Option<HookedInstance>
    var exposed: Option<HookedInstance>

    constructor(reg: Registry, cls: nat)
      ensures this.reg == reg && this.cls == cls && instRef == None && exposed == None
    {
      this.reg := reg;
      this.cls := cls;
      instRef := None;
      exposed := None;
    }

    /**
     * One render: the instance is constructed only while the ref is empty (and construction
     * may throw); `_request_update` is assigned on every render.
     */
    method Render() returns (r: Result<HookedInstance, string>)
      requires reg.Valid() && cls < |reg.protos|
      modifies this, if instRef.Some? then {instRef.value} else {}
      ensures old(instRef).Some? ==>
        (r == Ok(old(instRef).value) && r.value.updaterAssignments == old(r.value.updaterAssignments) + 1 &&
         r.value.store == old(r.value.store) && r.value.plain == old(r.value.plain) &&
         r.value.renderRequests == old(r.value.renderRequests))
      ensures old(instRef).None? && r.Ok? ==>
        (fresh(r.value) && r.value.accessors == Accessors(reg.protos, cls) &&
         Keys(r.value.store) == Keys(Inits(reg.protos, cls)) &&
         (forall i :: 0 <= i < |r.value.store| ==> Inits(reg.protos, cls)[i].1 == Init(r.value.store[i].1)) &&
         r.value.plain == map[] && r.value.renderRequests == 0 && r.value.updaterAssignments == 1)
      ensures old(instRef).None? ==>
        (r.Err? <==> exists i :: 0 <= i < |Inits(reg.protos, cls)| && Inits(reg.protos, cls)[i].1 == NullInit)
      ensures r.Ok? ==> instRef == Some(r.value) && exposed == Some(r.value) && r.value.hasUpdater
      ensures r.Err? ==> instRef == old(instRef) && exposed == old(exposed)
    {
      var inst: HookedInstance;
      if instRef.None? {
        var store := InitialStore(Inits(reg.protos, cls));
        if store.Err? {
          return Err(store.error);
        }
        inst := new HookedInstance(Accessors(reg.protos, cls), store.value);
        instRef := Some(inst);
      } else {
        inst := instRef.value;
      }
      inst.AssignUpdater();
      exposed := Some(inst);
      r := Ok(inst);
    }
  }
}
