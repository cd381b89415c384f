/**
 * JavaScript values as the components see them. Objects are references: two
 * references are `===` exactly when they carry the same id, so JavaScript's strict
 * equality is Dafny's `==` on `Value`.
 */
module Js {

  /** What kind of object a reference points to. */
  datatype RefKind = PlainObject | ArrayObject | ArgumentsObject | FunctionObject

  datatype Value =
    | Undefined
    | Null
    | Bool(b: bool)
    | Num(n: int)
    | Str(s: string)
    | Ref(kind: RefKind, id: nat)

  /** JavaScript truthiness: `undefined`, `null`, `false`, `0` and `""` are falsy. */
  predicate Truthy(v: Value)
  {
    match v
    case Undefined => false
    case Null => false
    case Bool(b) => b
    case Num(n) => n != 0
    case Str(s) => s != ""
    case Ref(_, _) => true
  }

  /** An object's own enumerable string-keyed properties, in insertion order. */
  type Entries<V> = seq<(string, V)>

  function Keys<V>(e: Entries<V>): (ks: seq<string>)
    ensures |ks| == |e|
    ensures forall i :: 0 <= i < |e| ==> ks[i] == e[i].0
  {
    if e == [] then [] else [e[0].0] + Keys(e[1..])
  }

  /** Property names of an object are unique. */
  predicate DistinctKeys<V>(e: Entries<V>)
  {
    forall i, j :: 0 <= i < j < |e| ==> e[i].0 != e[j].0
  }

  /** The value stored under `k`, or `undefined` when the object has no such property. */
  function Get(e: Entries<Value>, k: string): Value
  {
    if e == [] then Undefined else if e[0].0 == k then e[0].1 else Get(e[1..], k)
  }

  /** `o[k] = v`: overwrites an existing property in place, otherwise appends a new one. */
  function Put<V>(e: Entries<V>, k: string, v: V): (r: Entries<V>)
    ensures k in Keys(e) ==> |r| == |e|
    ensures k !in Keys(e) ==> r == e + [(k, v)]
  {
    if e == [] then [(k, v)]
    else if e[0].0 == k then [(k, v)] + e[1..]
    else
      assert Keys(e) == [e[0].0] + Keys(e[1..]);
      [e[0]] + Put(e[1..], k, v)
  }

  /** Reading a property after writing it gives the written value; every other property reads as before. */
  lemma {:induction false} GetPut(e: Entries<Value>, k: string, v: Value, j: string)
    ensures Get(Put(e, k, v), j) == if j == k then v else Get(e, j)
  {
    if e == [] {
    } else if e[0].0 == k {
      assert Put(e, k, v)[1..] == e[1..];
    } else {
      assert Put(e, k, v)[1..] == Put(e[1..], k, v);
      GetPut(e[1..], k, v, j);
    }
  }

  /** `obj[k]` on an object whose property order does not matter: `undefined` when absent. */
  function Prop(obj: map<string, Value>, k: string): Value
  {
    if k in obj then obj[k] else Undefined
  }

  /** Writing a property keeps the key order and adds a new key at the end. */
  lemma {:induction false} PutKeys<V>(e: Entries<V>, k: string, v: V)
    ensures Keys(Put(e, k, v)) == if k in Keys(e) then Keys(e) else Keys(e) + [k]
  {
    if e != [] {
      assert Keys(e) == [e[0].0] + Keys(e[1..]);
      if e[0].0 != k {
        PutKeys(e[1..], k, v);
        assert Keys(Put(e, k, v)) == [e[0].0] + Keys(Put(e[1..], k, v));
      } else {
        assert Keys(Put(e, k, v)) == [k] + Keys(e[1..]);
      }
    }
  }

  /** Writing a property keeps property names unique. */
  lemma PutDistinct<V>(e: Entries<V>, k: string, v: V)
    requires DistinctKeys(e)
    ensures DistinctKeys(Put(e, k, v))
  {
    PutKeys(e, k, v);
    var r := Put(e, k, v);
    forall i, j | 0 <= i < j < |r| ensures r[i].0 != r[j].0 {
      assert r[i].0 == Keys(r)[i] && r[j].0 == Keys(r)[j];
      if j == |e| {
        assert Keys(r)[i] == Keys(e)[i];
      } else {
        assert Keys(r)[i] == Keys(e)[i] && Keys(r)[j] == Keys(e)[j];
      }
    }
  }
}
