/**
 * The per-class `_renderAffectingFields` lists and `_proxyHandle` handlers that the
 * `RenderAffecting` decorator installs on class prototypes (src/lib/hookcls.tsx and
 * src/lib/oldHookCls/hooklib.tsx keep the same registry).
 *
 * A class hierarchy is a sequence of prototypes; index 0 is `HookCls.prototype` and every
 * other prototype names an earlier one as its parent. A property lookup walks the parent
 * chain to the nearest prototype that owns the property.
 */
module FieldRegistry {
  import opened Wrappers

  /** A prototype: its parent, its own field list if it has one, and whether it owns a proxy handler. */
  datatype Proto = Proto(parent: nat, ownFields: Option<seq<string>>, ownHandle: bool)

  /** `HookCls.prototype`: an empty field list and no handler. */
  const Base := Proto(0, Some([]), false)

  /**
   * Prototype chains are acyclic, the base list stays empty, and exactly the subclass
   * prototypes that own a (non-empty) field list own a handler, because both are created by
   * the first decoration of that class.
   */
  ghost predicate WellFormed(protos: seq<Proto>)
  {
    |protos| > 0 && protos[0] == Base &&
    forall k :: 0 < k < |protos| ==>
      protos[k].parent < k &&
      (protos[k].ownFields.Some? <==> protos[k].ownHandle) &&
      (protos[k].ownFields.Some? ==> protos[k].ownFields.value != [])
  }

  /** `proto._renderAffectingFields`: the nearest list on the chain. */
  function FieldsOf(protos: seq<Proto>, k: nat): seq<string>
    requires WellFormed(protos) && k < |protos|
    decreases k
  {
    if protos[k].ownFields.Some? then protos[k].ownFields.value
    else FieldsOf(protos, protos[k].parent)
  }

  /**
   * `proto._proxyHandle`: the prototype owning the nearest handler. It exists exactly when
   * the class has at least one render-affecting field, and its list is the class's list.
   */
  function HandleOwner(protos: seq<Proto>, k: nat): (h: Option<nat>)
    requires WellFormed(protos) && k < |protos|
    ensures h.Some? ==> 0 < h.value <= k && protos[h.value].ownHandle
    ensures h.Some? <==> FieldsOf(protos, k) != []
    ensures h.Some? ==> FieldsOf(protos, k) == protos[h.value].ownFields.value
    decreases k
  {
    if k == 0 then None
    else if protos[k].ownHandle then Some(k)
    else HandleOwner(protos, protos[k].parent)
  }

  /**
   * The hierarchy after decorating one more field of class `k`: `k` owns a list holding the
   * list it saw before plus `field`, and owns a handler; no other prototype changes.
   */
  function Decorated(protos: seq<Proto>, k: nat, field: string): (r: seq<Proto>)
    requires WellFormed(protos) && 0 < k < |protos|
    ensures WellFormed(r) && |r| == |protos|
    ensures FieldsOf(r, k) == FieldsOf(protos, k) + [field]
    ensures forall j :: 0 <= j < |protos| && j != k ==> r[j] == protos[j]
  {
    protos[k := Proto(protos[k].parent, Some(FieldsOf(protos, k) + [field]), true)]
  }

  /** Decorating a subclass never changes what any other class in the hierarchy sees. */
  lemma {:induction false} DecorateIsolated(protos: seq<Proto>, k: nat, field: string, j: nat)
    requires WellFormed(protos) && 0 < k < |protos| && j < |protos|
    requires !Inherits(protos, j, k)
    ensures FieldsOf(Decorated(protos, k, field), j) == FieldsOf(protos, j)
    ensures HandleOwner(Decorated(protos, k, field), j) == HandleOwner(protos, j)
    decreases j
  {
    var r := Decorated(protos, k, field);
    if j != 0 && protos[j].ownFields.None? {
      DecorateIsolated(protos, k, field, protos[j].parent);
    }
  }

  /** Whether class `j` is `k` or a subclass of it. */
  predicate Inherits(protos: seq<Proto>, j: nat, k: nat)
    requires WellFormed(protos) && j < |protos|
    decreases j
  {
    j == k || (j != 0 && Inherits(protos, protos[j].parent, k))
  }

  /** Defining a new class leaves every lookup on the existing classes as it was. */
  lemma {:induction false} DefineIsolated(protos: seq<Proto>, parent: nat, j: nat)
    requires WellFormed(protos) && parent < |protos| && j < |protos|
    ensures WellFormed(protos + [Proto(parent, None, false)])
    ensures FieldsOf(protos + [Proto(parent, None, false)], j) == FieldsOf(protos, j)
    ensures HandleOwner(protos + [Proto(parent, None, false)], j) == HandleOwner(protos, j)
    decreases j
  {
    var r := protos + [Proto(parent, None, false)];
    assert r[j] == protos[j];
    if j != 0 && protos[j].ownFields.None? {
      DefineIsolated(protos, parent, protos[j].parent);
    }
  }

  /** The class hierarchy of `HookCls` and its subclasses, with the copy-on-first-write decorator. */
  class Registry {
    var protos: seq<Proto>

    ghost predicate Valid()
      reads this
    {
      WellFormed(protos)
    }

    /** Only `HookCls` itself, whose prototype gets an empty list. */
    constructor()
      ensures Valid() && protos == [Base]
    {
      protos := [Base];
    }

    /** `class C extends P`: a prototype with no own list and no own handler. */
    method DefineClass(parent: nat) returns (k: nat)
      requires Valid() && parent < |protos|
      modifies this
      ensures Valid()
      ensures protos == old(protos) + [Proto(parent, None, false)] && k == |old(protos)|
      ensures forall j :: 0 <= j < |old(protos)| ==>
        FieldsOf(protos, j) == FieldsOf(old(protos), j) && HandleOwner(protos, j) == HandleOwner(old(protos), j)
    {
      forall j | 0 <= j < |protos| {
        DefineIsolated(protos, parent, j);
      }
      k := |protos|;
      protos := protos + [Proto(parent, None, false)];
    }

    /**
     * `HookCls.RenderAffecting` on a field of class `k`: a class without its own list first
     * gets a copy of the inherited list and a handler over that copy; then the field is pushed.
     */
    method RenderAffecting(k: nat, field: string)
      requires Valid() && 0 < k < |protos|
      modifies this
      ensures Valid()
      ensures protos == Decorated(old(protos), k, field)
    {
      if protos[k].ownFields.None? {
        var renFields := FieldsOf(protos, k);
        protos := protos[k := Proto(protos[k].parent, Some(renFields), true)];
      }
      protos := protos[k := protos[k].(ownFields := Some(protos[k].ownFields.value + [field]))];
    }
  }
}
