/**
 * `HookComp` of src/lib/oldHookCls/hooklib2.tsx: the same initializer tables and accessors as
 * `HookLib`, but updates are debounced through one pending `setTimeout` handle, the
 * update function is installed by the first render only, and writes before that render are
 * stored silently.
 */
module HookLib2 {
  import opened Wrappers
  import opened Js
  import opened InitRegistry

  /**
   * The initial store: each table entry's initializer is called (`inits[field]?.()`), and a
   * `null` initializer leaves the field `undefined`.
   */
  method InitialStore(table: Entries<InitEntry>) returns (store: Entries<Value>)
    requires DistinctKeys(table)
    ensures Keys(store) == Keys(table)
    ensures forall i :: 0 <= i < |table| ==>
      store[i].1 == (if table[i].1.Init? then table[i].1.value else Undefined)
  {
    store := [];
    var n := 0;
    while n < |table|
      invariant 0 <= n <= |table|
      invariant |store| == n
      invariant forall i :: 0 <= i < n ==> store[i].0 == table[i].0
      invariant forall i :: 0 <= i < n ==>
        store[i].1 == (if table[i].1.Init? then table[i].1.value else Undefined)
    {
      var v := if table[n].1.Init? then table[n].1.value else Undefined;
      // a fresh key of an object built in key order: the write appends it
      store := store + [(table[n].0, v)];
      n := n + 1;
    }
  }

  class HookCompInstance {
    const accessors: set<string>
    var store: Entries<Value>
    var plain: map<string, Value>
    /** Whether the first render has installed `_request_update`. */
    var hasUpdater: bool
    /** `_req_upd_canId`: the handle of the pending timeout, if any. */
    var timer: Option<nat>
    /** Timeouts scheduled and neither fired nor cleared. */
    var live: set<nat>
    /** The next handle `setTimeout` returns; handles start at 1, so every handle is truthy. */
    var nextHandle: nat
    /** Updates dispatched by fired timeouts. */
    var renderRequests: nat

    /** At most one timeout is outstanding, and it is the one `_req_upd_canId` holds. */
    ghost predicate Valid()
      reads this
    {
      nextHandle >= 1 &&
      (timer.None? ==> live == {}) &&
      (timer.Some? ==> live <= {timer.value} && 1 <= timer.value < nextHandle)
    }

    constructor(accessors: set<string>, store: Entries<Value>)
      ensures Valid()
      ensures this.accessors == accessors && this.store == store && plain == map[]
      ensures !hasUpdater && timer == None && live == {} && renderRequests == 0
    {
      this.accessors := accessors;
      this.store := store;
      plain := map[];
      hasUpdater := false;
      timer := None;
      live := {};
      nextHandle := 1;
      renderRequests := 0;
    }

    /** `inst[f]`: through the getter for an accessor field, otherwise an own property. */
    function Read(f: string): Value
      reads this
    {
      ReadField(accessors, store, plain, f)
    }

    /** However requests, timeouts and renders interleave, at most one timeout is outstanding. */
    lemma AtMostOneTimeout()
      requires Valid()
      ensures |live| <= 1
      ensures live != {} ==> timer.Some? && live == {timer.value}
    {
      if timer.Some? && timer.value in live {
        assert live == {timer.value};
      } else {
        assert live == {};
      }
    }

    /** `_request_update`: schedules an update unless one is already pending. */
    method RequestUpdate()
      requires Valid()
      modifies this`timer, this`live, this`nextHandle
      ensures Valid()
      ensures old(timer).Some? ==> timer == old(timer) && live == old(live) && nextHandle == old(nextHandle)
      ensures old(timer).None? ==>
        (timer == Some(old(nextHandle)) && live == {old(nextHandle)} && nextHandle == old(nextHandle) + 1)
      ensures |live| <= 1
    {
      if timer.None? {
        timer := Some(nextHandle);
        live := live + {nextHandle};
        nextHandle := nextHandle + 1;
      }
      AtMostOneTimeout();
    }

    /** A pending timeout fires and dispatches the update; the handle itself is not cleared. */
    method TimerFires(handle: nat)
      requires Valid() && handle in live
      modifies this`live, this`renderRequests
      ensures Valid()
      ensures live == old(live) - {handle} && renderRequests == old(renderRequests) + 1
    {
      live := live - {handle};
      renderRequests := renderRequests + 1;
    }

    /**
     * `render`: any pending timeout is cleared and the handle reset; `_request_update` is
     * installed only if it is not there yet.
     */
    method Render()
      requires Valid()
      modifies this`timer, this`live, this`hasUpdater
      ensures Valid()
      ensures timer == None && live == {} && hasUpdater
    {
      if timer.Some? {
        live := live - {timer.value};
        timer := None;
      }
      if !hasUpdater {
        hasUpdater := true;
      }
    }

    /**
     * `inst[f] = v`: through the setter the value is stored first, then an update is requested
     * only if it changed and `_request_update` exists.
     */
    method Write(f: string, v: Value)
      requires Valid()
      modifies this`store, this`plain, this`timer, this`live, this`nextHandle
      ensures Valid()
      ensures f !in accessors ==>
        (plain == old(plain)[f := v] && store == old(store) && timer == old(timer) && live == old(live))
      ensures f in accessors ==> plain == old(plain) && store == Put(old(store), f, v)
      ensures f in accessors && Get(old(store), f) != v && hasUpdater && old(timer).None? ==>
        timer == Some(old(nextHandle)) && live == {old(nextHandle)}
      ensures !(f in accessors && Get(old(store), f) != v && hasUpdater && old(timer).None?) ==>
        timer == old(timer) && live == old(live) && nextHandle == old(nextHandle)
      ensures Read(f) == v && forall g :: g != f ==> Read(g) == old(Read(g))
    {
      forall g {
        ReadAfterWrite(accessors, store, plain, f, v, g);
      }
      if f !in accessors {
        plain := plain[f := v];
        return;
      }
      var changed := Get(store, f) != v;
      store := Put(store, f, v);
      if changed && hasUpdater {
        RequestUpdate();
      }
    }
  }

  /** A sequence of requests between two renders schedules at most one timeout. */
  method Debounce(inst: HookCompInstance, n: nat)
    requires inst.Valid()
    modifies inst`timer, inst`live, inst`nextHandle
    ensures inst.Valid()
    ensures old(inst.timer).None? && n > 0 ==> inst.nextHandle == old(inst.nextHandle) + 1
    ensures old(inst.timer).Some? || n == 0 ==> inst.nextHandle == old(inst.nextHandle)
  {
    var k := 0;
    while k < n
      invariant 0 <= k <= n
      invariant inst.Valid()
      invariant old(inst.timer).None? && k > 0 ==> inst.timer == Some(old(inst.nextHandle)) && inst.nextHandle == old(inst.nextHandle) + 1
      invariant old(inst.timer).Some? || k == 0 ==> inst.timer == old(inst.timer) && inst.nextHandle == old(inst.nextHandle)
    {
      inst.RequestUpdate();
      k := k + 1;
    }
  }

  /** One element rendered from the component `HookComp.finalize(Cls)` returned. */
  class Mount {
    const reg: Registry
    const cls: nat
    var instRef: Option<HookCompInstance>

    constructor(reg: Registry, cls: nat)
      ensures this.reg == reg && this.cls == cls && instRef == None
    {
      this.reg := reg;
      this.cls := cls;
      instRef := None;
    }

    /** The instance for this render: constructed only while the ref is empty. */
    method Instance() returns (inst: HookCompInstance)
      requires reg.Valid() && cls < |reg.protos|
      modifies this
      ensures old(instRef).Some? ==> inst == old(instRef).value
      ensures old(instRef).None? ==>
        (fresh(inst) && inst.Valid() && inst.accessors == Accessors(reg.protos, cls) &&
         Keys(inst.store) == Keys(Inits(reg.protos, cls)) &&
         (forall i :: 0 <= i < |inst.store| ==>
            inst.store[i].1 == (if Inits(reg.protos, cls)[i].1.Init? then Inits(reg.protos, cls)[i].1.value else Undefined)) &&
         inst.plain == map[] && !inst.hasUpdater && inst.timer == None && inst.live == {} &&
         inst.renderRequests == 0)
      ensures instRef == Some(inst)
    {
      if instRef.None? {
        var store := InitialStore(Inits(reg.protos, cls));
        inst := new HookCompInstance(Accessors(reg.protos, cls), store);
        instRef := Some(inst);
      } else {
        inst := instRef.value;
      }
    }
  }
}
