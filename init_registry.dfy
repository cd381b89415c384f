/**
 * The `_render_affecting_inits` tables that the `RenderAffecting` decorator of
 * src/lib/hooklib.tsx and src/lib/oldHookCls/hooklib2.tsx keeps on class prototypes, and the
 * accessors it installs. Index 0 is the library's base prototype; every other prototype names
 * an earlier one as its parent.
 */
module InitRegistry {
  import opened Wrappers
  import opened Js

  /** The decorator's third argument: missing, or an `initializer` that is `null` or yields a value. */
  datatype Initializer = NoInitializer | NullInitializer | Initializer(value: Value)

  /** An entry of an initializer table. */
  datatype InitEntry = NullInit | Init(value: Value)

  /** A prototype: its parent, its own table if it has one, and the fields it has accessors for. */
  datatype InitProto = InitProto(parent: nat, inits: Option<Entries<InitEntry>>, accessors: set<string>)

  const MissingInitializer := "renderAffecting decorator relies on the 3rd argument having an initializer."

  ghost predicate WellFormed(protos: seq<InitProto>)
  {
    |protos| > 0 &&
    (forall k :: 0 < k < |protos| ==> protos[k].parent < k) &&
    (forall k :: 0 <= k < |protos| && protos[k].inits.Some? ==> DistinctKeys(protos[k].inits.value))
  }

  /** The entry stored under `k`, if any. */
  function Find<V>(e: Entries<V>, k: string): (r: Option<V>)
    ensures r.Some? <==> k in Keys(e)
  {
    if e == [] then None
    else
      assert Keys(e) == [e[0].0] + Keys(e[1..]);
      if e[0].0 == k then Some(e[0].1) else Find(e[1..], k)
  }

  lemma {:induction false} FindPut<V>(e: Entries<V>, k: string, v: V, j: string)
    ensures Find(Put(e, k, v), j) == if j == k then Some(v) else Find(e, j)
  {
    if e != [] && e[0].0 != k {
      FindPut(e[1..], k, v, j);
    }
  }

  /** The prototype whose table `proto._render_affecting_inits` finds, walking up from `k`. */
  function VisibleTable(protos: seq<InitProto>, k: nat): (t: Option<nat>)
    requires WellFormed(protos) && k < |protos|
    ensures t.Some? ==> t.value <= k && protos[t.value].inits.Some?
    ensures protos[k].inits.Some? ==> t == Some(k)
    decreases k
  {
    if protos[k].inits.Some? then Some(k)
    else if k == 0 then None
    else VisibleTable(protos, protos[k].parent)
  }

  /** `Object.keys(inits ?? {})` with the entries: the table an instance of class `k` is built from. */
  function Inits(protos: seq<InitProto>, k: nat): (t: Entries<InitEntry>)
    requires WellFormed(protos) && k < |protos|
    ensures DistinctKeys(t)
  {
    var owner := VisibleTable(protos, k);
    if owner.Some? then protos[owner.value].inits.value else []
  }

  /** The fields with accessors on class `k` or any of its ancestors. */
  function Accessors(protos: seq<InitProto>, k: nat): set<string>
    requires WellFormed(protos) && k < |protos|
    decreases k
  {
    protos[k].accessors + if k == 0 then {} else Accessors(protos, protos[k].parent)
  }

  /**
   * `inst[f]` on an instance: a field with an accessor returns its entry of the store,
   * any other name the instance's own property.
   */
  function ReadField(accessors: set<string>, store: Entries<Value>, plain: map<string, Value>, f: string): Value
  {
    if f in accessors then Get(store, f) else Prop(plain, f)
  }

  /**
   * `inst[f] = v` followed by `inst[g]`: the setter of an accessor field writes the store and any
   * other name becomes an own property, so `f` reads back `v` and every other name as before.
   */
  lemma ReadAfterWrite(accessors: set<string>, store: Entries<Value>, plain: map<string, Value>, f: string, v: Value, g: string)
    ensures ReadField(accessors, if f in accessors then Put(store, f, v) else store,
                      if f in accessors then plain else plain[f := v], g)
            == if g == f then v else ReadField(accessors, store, plain, g)
  {
    GetPut(store, f, v, g);
  }

  function EntryFor(d: Initializer): InitEntry
    requires !d.NoInitializer?
  {
    if d.NullInitializer? then NullInit else Init(d.value)
  }

  /**
   * The decorator on `field` of class `k`: without an initializer the assertion throws;
   * otherwise the initializer goes into the visible table (creating one on `k` only when no
   * prototype on the chain has one) and `k` gets the field's accessors.
   */
  function Decorated(protos: seq<InitProto>, k: nat, field: string, d: Initializer)
    : (r: Result<seq<InitProto>, string>)
    requires WellFormed(protos) && k < |protos|
    ensures r.Err? <==> d.NoInitializer?
    ensures r.Err? ==> r.error == MissingInitializer
    ensures r.Ok? ==> WellFormed(r.value) && |r.value| == |protos|
  {
    if d.NoInitializer? then Err(MissingInitializer)
    else
      var visible := VisibleTable(protos, k);
      var owner := if visible.Some? then visible.value else k;
      var table := if visible.Some? then protos[owner].inits.value else [];
      PutDistinct(table, field, EntryFor(d));
      var withInit := protos[owner := protos[owner].(inits := Some(Put(table, field, EntryFor(d))))];
      Ok(withInit[k := withInit[k].(accessors := withInit[k].accessors + {field})])
  }

  /**
   * After a successful decoration, class `k` sees the new initializer under `field` and every
   * other entry it saw before; if `k` inherited its table, the ancestor that owns it now holds
   * the entry too, and `k` still has no table of its own.
   */
  lemma DecoratedSees(protos: seq<InitProto>, k: nat, field: string, d: Initializer, other: string)
    requires WellFormed(protos) && k < |protos| && !d.NoInitializer?
    requires other != field
    ensures var r := Decorated(protos, k, field, d).value;
      Find(Inits(r, k), field) == Some(EntryFor(d)) &&
      Find(Inits(r, k), other) == Find(Inits(protos, k), other) &&
      field in Accessors(r, k) &&
      (VisibleTable(protos, k).Some? ==>
        VisibleTable(r, k) == VisibleTable(protos, k) &&
        Find(r[VisibleTable(protos, k).value].inits.value, field) == Some(EntryFor(d))) &&
      (VisibleTable(protos, k).None? ==> VisibleTable(r, k) == Some(k))
  {
    var r := Decorated(protos, k, field, d).value;
    var visible := VisibleTable(protos, k);
    var owner := if visible.Some? then visible.value else k;
    var table := if visible.Some? then protos[owner].inits.value else [];
    assert r[owner].inits == Some(Put(table, field, EntryFor(d)));
    assert forall j :: 0 <= j < |protos| ==> r[j].parent == protos[j].parent;
    assert forall j :: 0 <= j < |protos| && j != owner ==> r[j].inits == protos[j].inits;
    VisibleUnchanged(protos, r, k, owner);
    assert Inits(r, k) == Put(table, field, EntryFor(d));
    assert Inits(protos, k) == table;
    FindPut(table, field, EntryFor(d), field);
    FindPut(table, field, EntryFor(d), other);
    assert field in r[k].accessors;
  }

  /** A lookup from `k` finds the same prototype when only table contents and accessors changed. */
  lemma {:induction false} VisibleUnchanged(protos: seq<InitProto>, r: seq<InitProto>, k: nat, owner: nat)
    requires WellFormed(protos) && WellFormed(r) && |r| == |protos| && k < |protos| && owner < |protos|
    requires forall j :: 0 <= j < |protos| ==> r[j].parent == protos[j].parent
    requires forall j :: 0 <= j < |protos| && j != owner ==> r[j].inits == protos[j].inits
    requires r[owner].inits.Some?
    requires VisibleTable(protos, k).Some? ==> VisibleTable(protos, k) == Some(owner)
    requires VisibleTable(protos, k).None? ==> owner == k
    ensures VisibleTable(r, k) == Some(owner)
    decreases k
  {
    if k != owner && protos[k].inits.None? && k != 0 {
      VisibleUnchanged(protos, r, protos[k].parent, owner);
    }
  }

  /** The class hierarchy with its initializer tables. */
  class Registry {
    var protos: seq<InitProto>

    ghost predicate Valid()
      reads this
    {
      WellFormed(protos)
    }

    /** Only the base class, whose prototype has no table and no accessors. */
    constructor()
      ensures Valid() && protos == [InitProto(0, None, {})]
    {
      protos := [InitProto(0, None, {})];
    }

    method DefineClass(parent: nat) returns (k: nat)
      requires Valid() && parent < |protos|
      modifies this
      ensures Valid()
      ensures protos == old(protos) + [InitProto(parent, None, {})] && k == |old(protos)|
    {
      k := |protos|;
      protos := protos + [InitProto(parent, None, {})];
    }

    /** `RenderAffecting(proto, field, d)`, changing the prototypes in place. */
    method RenderAffecting(k: nat, field: string, d: Initializer) returns (r: Outcome<string>)
      requires Valid() && k < |protos|
      modifies this
      ensures Valid()
      ensures Decorated(old(protos), k, field, d).Err? ==>
        r == Fail(MissingInitializer) && protos == old(protos)
      ensures Decorated(old(protos), k, field, d).Ok? ==>
        r == Pass && protos == Decorated(old(protos), k, field, d).value
    {
      if d.NoInitializer? {
        return Fail(MissingInitializer);
      }
      var visible := VisibleTable(protos, k);
      var owner := k;
      if visible.None? {
        protos := protos[k := protos[k].(inits := Some([]))];
      } else {
        owner := visible.value;
      }
      var inits := protos[owner].inits.value;
      PutDistinct(inits, field, EntryFor(d));
      protos := protos[owner := protos[owner].(inits := Some(Put(inits, field, EntryFor(d))))];
      protos := protos[k := protos[k].(accessors := protos[k].accessors + {field})];
      r := Pass;
    }
  }
}
