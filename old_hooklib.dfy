/**
 * The first `HookCls` of src/lib/oldHookCls/hooklib.tsx. It keeps the same prototype registry
 * as `HookCls`, but its decorator looks for its own list under a misspelled name, so every
 * decoration installs a fresh copy, and its proxy requests an update on every write to a
 * registered field, changed or not.
 */
module OldHookLib {
  import opened Wrappers
  import opened Js
  import opened FieldRegistry

  const DiffNotImplemented := "diff feature not implemented"

  /** The own property names the decorator can find on a prototype. */
  function OwnProperties(p: Proto): (names: set<string>)
    ensures "renderAffectingFields" !in names
  {
    (if p.ownFields.Some? then {"_renderAffectingFields"} else {}) +
    (if p.ownHandle then {"_proxyHandle"} else {})
  }

  /** The class hierarchy, decorated by this library's `RenderAffecting`. */
  class OldRegistry {
    var protos: seq<Proto>

    ghost predicate Valid()
      reads this
    {
      WellFormed(protos)
    }

    constructor()
      ensures Valid() && protos == [Base]
    {
      protos := [Base];
    }

    method DefineClass(parent: nat) returns (k: nat)
      requires Valid() && parent < |protos|
      modifies this
      ensures Valid()
      ensures protos == old(protos) + [Proto(parent, None, false)] && k == |old(protos)|
    {
      k := |protos|;
      protos := protos + [Proto(parent, None, false)];
    }

    /**
     * `RenderAffecting(diff)(proto, field)`: a diff function throws; otherwise the own-list
     * check never matches, so the list is always replaced by a copy (of the own list, or of
     * the inherited one) with a new handler, and the field is pushed. The end result is the
     * same hierarchy `HookCls`'s decorator produces.
     */
    method RenderAffecting(hasDiff: bool, k: nat, field: string) returns (r: Outcome<string>)
      requires Valid() && 0 < k < |protos|
      modifies this
      ensures Valid()
      ensures hasDiff ==> r == Fail(DiffNotImplemented) && protos == old(protos)
      ensures !hasDiff ==> r == Pass && protos == Decorated(old(protos), k, field)
    {
      if hasDiff {
        return Fail(DiffNotImplemented);
      }
      if "renderAffectingFields" !in OwnProperties(protos[k]) {
        var copy := FieldsOf(protos, k);
        protos := protos[k := Proto(protos[k].parent, Some(copy), true)];
      }
      protos := protos[k := protos[k].(ownFields := Some(protos[k].ownFields.value + [field]))];
      r := Pass;
    }
  }

  /**
   * The proxy's `set` trap: the write happens first; then a registered field requests an
   * update whatever the old value was.
   */
  function ProxySet(fields: seq<string>, target: map<string, Value>, field: string, v: Value)
    : (r: (map<string, Value>, bool))
    ensures r.0.Keys == target.Keys + {field}
    ensures Prop(r.0, field) == v && forall g :: g != field ==> Prop(r.0, g) == Prop(target, g)
    ensures r.1 <==> field in fields
  {
    (target[field := v], field in fields)
  }

  /** Rewriting a registered field with the value it already holds still requests an update. */
  lemma SameValueStillUpdates(fields: seq<string>, target: map<string, Value>, field: string)
    requires field in fields && field in target
    ensures ProxySet(fields, target, field, target[field]).0 == target
    ensures ProxySet(fields, target, field, target[field]).1
  {
  }

  class OldInstance {
    const reg: OldRegistry
    const handle: Option<nat>
    var fields: map<string, Value>
    /** Whether `[INTERNAL_COMP]` has replaced the no-op `_force_update`. */
    var rendered: bool
    var forceUpdates: nat

    ghost predicate Valid()
      reads this, reg
    {
      reg.Valid() &&
      (handle.Some? ==> handle.value < |reg.protos| && reg.protos[handle.value].ownHandle)
    }

    constructor(reg: OldRegistry, cls: nat)
      requires reg.Valid() && cls < |reg.protos|
      ensures Valid() && this.reg == reg
      ensures handle == HandleOwner(reg.protos, cls)
      ensures handle.Some? <==> FieldsOf(reg.protos, cls) != []
      ensures fields == map[] && !rendered && forceUpdates == 0
    {
      this.reg := reg;
      handle := HandleOwner(reg.protos, cls);
      fields := map[];
      rendered := false;
      forceUpdates := 0;
    }

    function Registered(): seq<string>
      requires Valid()
      reads this, reg
    {
      if handle.Some? then reg.protos[handle.value].ownFields.value else []
    }

    /** `inst[field] = v`: the write, then `_force_update` for any registered field (a no-op before the first render). */
    method Set(field: string, v: Value)
      requires Valid()
      modifies this`fields, this`forceUpdates
      ensures fields == old(fields)[field := v]
      ensures forceUpdates == old(forceUpdates) + (if rendered && field in Registered() then 1 else 0)
    {
      if handle.Some? {
        var (target, doUpdate) := ProxySet(reg.protos[handle.value].ownFields.value, fields, field, v);
        fields := target;
        if doUpdate && rendered {
          forceUpdates := forceUpdates + 1;
        }
      } else {
        fields := fields[field := v];
      }
    }

    /** `[INTERNAL_COMP]`: installs React's dispatcher as `_force_update`. */
    method InternalComp()
      modifies this`rendered
      ensures rendered
    {
      rendered := true;
    }
  }

  /** One element rendered from the component `HookCls.reactify` returned. */
  class Mount {
    const reg: OldRegistry
    const cls: nat
    var instRef: Option<OldInstance>
    var exposed: Option<OldInstance>

    constructor(reg: OldRegistry, cls: nat)
      ensures this.reg == reg && this.cls == cls && instRef == None && exposed == None
    {
      this.reg := reg;
      this.cls := cls;
      instRef := None;
      exposed := None;
    }

    /** One render: the instance is constructed only while the ref is empty. */
    method Render() returns (inst: OldInstance)
      requires reg.Valid() && cls < |reg.protos|
      modifies this, if instRef.Some? then {instRef.value} else {}
      ensures old(instRef).Some? ==> inst == old(instRef).value
      ensures old(instRef).None? ==> fresh(inst) && inst.handle == HandleOwner(reg.protos, cls)
      ensures inst.fields == (if old(instRef).Some? then old(instRef.value.fields) else map[])
      ensures inst.forceUpdates == (if old(instRef).Some? then old(instRef.value.forceUpdates) else 0)
      ensures instRef == Some(inst) && exposed == Some(inst) && inst.rendered
    {
      if instRef.None? {
        inst := new OldInstance(reg, cls);
        instRef := Some(inst);
      } else {
        inst := instRef.value;
      }
      exposed := Some(inst);
      inst.InternalComp();
    }
  }
}
