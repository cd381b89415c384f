/** Small helpers of src/lib/util.ts: assertions, filtered object entries and object mapping. */
module Util {
  import opened Js
  import opened Wrappers

  /** `assert(cond, mes)`: throws an `Error` carrying `mes` when `cond` is falsy, returns otherwise. */
  function Assert(cond: Value, mes: string): (r: Outcome<string>)
    ensures r.Pass? <==> Truthy(cond)
    ensures r.Fail? ==> r.error == mes
  {
    if !Truthy(cond) then Fail(mes) else Pass
  }

  /**
   * `ensure(cond, mes)`: never throws; a falsy `cond` only issues the warning `mes`.
   * The result is the list of warnings written to the console.
   */
  function Ensure(cond: Value, mes: string): (warnings: seq<string>)
    ensures |warnings| <= 1
    ensures warnings != [] <==> !Truthy(cond)
    ensures forall w :: w in warnings ==> w == mes
  {
    if !Truthy(cond) then [mes] else []
  }

  /** `isDefined(x)`: `x !== undefined`. */
  predicate IsDefined(v: Value)
  {
    v != Undefined
  }

  /** The entries whose value satisfies `p`, in their original order. */
  function Filter<V>(e: Entries<V>, p: V -> bool): Entries<V>
  {
    if e == [] then [] else (if p(e[0].1) then [e[0]] else []) + Filter(e[1..], p)
  }

  /** `ObjectEntries(obj, predicate?)`: all entries, or only those whose value satisfies the predicate. */
  function ObjectEntries<V(!new)>(obj: Entries<V>, pred: Option<V -> bool>): (r: Entries<V>)
    ensures |r| <= |obj|
    ensures pred.None? ==> r == obj
    ensures pred.Some? ==> forall x :: x in r <==> x in obj && pred.value(x.1)
  {
    if pred.None? then obj
    else
      FilterMembers(obj, pred.value);
      Filter(obj, pred.value)
  }

  /** An entry survives filtering exactly when it was there and its value satisfies `p`. */
  lemma {:induction false} FilterMembers<V(!new)>(e: Entries<V>, p: V -> bool)
    ensures |Filter(e, p)| <= |e|
    ensures forall x :: x in Filter(e, p) <==> x in e && p(x.1)
  {
    if e != [] {
      FilterMembers(e[1..], p);
      assert e == [e[0]] + e[1..];
    }
  }

  /** Filtering preserves order: filtering a concatenation concatenates the filtered parts. */
  lemma {:induction false} FilterConcat<V>(a: Entries<V>, b: Entries<V>, p: V -> bool)
    ensures Filter(a + b, p) == Filter(a, p) + Filter(b, p)
  {
    if a == [] {
      assert a + b == b;
    } else {
      FilterConcat(a[1..], b, p);
      assert (a + b)[1..] == a[1..] + b;
    }
  }

  /** Entries that all satisfy `p` are kept as they are. */
  lemma {:induction false} FilterAll<V>(e: Entries<V>, p: V -> bool)
    requires forall i :: 0 <= i < |e| ==> p(e[i].1)
    ensures Filter(e, p) == e
  {
    if e != [] {
      FilterAll(e[1..], p);
    }
  }

  /** `ObjectEntries(o, isDefined)` drops exactly the entries whose value is `undefined`, keeping the order. */
  lemma DefinedEntries(o: Entries<Value>, extra: Entries<Value>)
    ensures forall x :: x in ObjectEntries(o, Some(IsDefined)) <==> x in o && x.1 != Undefined
    ensures ObjectEntries(o + extra, Some(IsDefined))
         == ObjectEntries(o, Some(IsDefined)) + ObjectEntries(extra, Some(IsDefined))
  {
    FilterConcat(o, extra, IsDefined);
  }

  /** `objectMap(obj, fn)`: the same keys in the same order, each value replaced by `fn(val, key)`. */
  method ObjectMap<V, W>(obj: Entries<V>, fn: (V, string) -> W) returns (newObj: Entries<W>)
    requires DistinctKeys(obj)
    ensures Keys(newObj) == Keys(obj)
    ensures |newObj| == |obj|
    ensures forall i :: 0 <= i < |obj| ==> newObj[i].1 == fn(obj[i].1, obj[i].0)
  {
    newObj := [];
    var i := 0;
    while i < |obj|
      invariant 0 <= i <= |obj|
      invariant |newObj| == i
      invariant forall j :: 0 <= j < i ==> newObj[j] == (obj[j].0, fn(obj[j].1, obj[j].0))
    {
      var (key, val) := obj[i];
      assert forall j :: 0 <= j < |newObj| ==> Keys(newObj)[j] != key;
      newObj := Put(newObj, key, fn(val, key));
      i := i + 1;
    }
  }
}
