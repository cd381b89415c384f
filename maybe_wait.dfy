/**
 * src/lib/MAYBEWAIT.ts: a `map` generator that yields `func(elem)` for each element and
 * collects what is sent back, and the driver `wrapGenForMaybeAsyncFunc` that runs a
 * generator synchronously, sending every plain yielded value straight back, until it is
 * done or yields a Promise.
 */
module MaybeWait {
  import opened Wrappers

  /** A value `func` returns: a plain value, or a Promise (identified by a number). */
  datatype Yield<V> = Sync(value: V) | Pending(promise: nat)

  /** Where a generator stands between `next()` calls. */
  datatype GenState = NotStarted | Suspended(at: nat) | Finished

  /**
   * What `gen.next(val)` returns: `{value, done: false}` or `{value, done: true}`; a finished
   * generator returns `undefined` (`None`).
   */
  datatype IterResult<V> = Yielded(value: Yield<V>) | Returned(result: Option<seq<V>>)

  /** What the driver returns: the generator's return value, or `promise.then(next)`. */
  datatype Driven<V> = Done(value: Option<seq<V>>) | Awaiting(promise: nat)

  /** The first position whose `func` value is a Promise, or `|arr|` when there is none. */
  function FirstPending<A, V>(arr: seq<A>, func: A -> Yield<V>): (k: nat)
    ensures k <= |arr|
    ensures forall i :: 0 <= i < k ==> func(arr[i]).Sync?
    ensures k < |arr| ==> func(arr[k]).Pending?
    decreases |arr|
  {
    if arr == [] || func(arr[0]).Pending? then 0 else 1 + FirstPending(arr[1..], func)
  }

  /** The plain values of the first `k` elements. */
  function Resolved<A, V>(arr: seq<A>, func: A -> Yield<V>, k: nat): (r: seq<V>)
    requires k <= |arr| && forall i :: 0 <= i < k ==> func(arr[i]).Sync?
    ensures |r| == k && forall i :: 0 <= i < k ==> Sync(r[i]) == func(arr[i])
  {
    seq(k, i requires 0 <= i < k => func(arr[i]).value)
  }

  /** The generator object `map(arr, func)` returns. */
  class MapGen<A, V> {
    const arr: seq<A>
    const func: A -> Yield<V>
    var state: GenState
    /** `newarr`: the values sent back so far. */
    var newarr: seq<V>
    /** The argument of every `next` call so far; `None` is `undefined`. */
    var received: seq<Option<V>>

    ghost predicate Valid()
      reads this
    {
      match state
      case NotStarted => newarr == [] && received == []
      case Suspended(i) => i < |arr| && |newarr| == i && |received| == i + 1
      case Finished => |newarr| == |arr| && |received| >= |arr| + 1
    }

    /** How many more `next` calls the generator answers before it is finished. */
    ghost function Remaining(): nat
      reads this
    {
      match state
      case NotStarted => |arr| + 1
      case Suspended(i) => if i < |arr| then |arr| - i else 0
      case Finished => 0
    }

    constructor(arr: seq<A>, func: A -> Yield<V>)
      ensures Valid() && state == NotStarted && this.arr == arr && this.func == func
    {
      this.arr := arr;
      this.func := func;
      state := NotStarted;
      newarr := [];
      received := [];
    }

    /**
     * `gen.next(val)`: the first call ignores `val` and starts the loop; each later call
     * pushes `val` (the value the pending `yield` evaluates to) and moves to the next
     * element. The generator yields `func(elem)` while elements remain and then returns
     * `newarr`.
     */
    method Next(val: Option<V>) returns (r: IterResult<V>)
      requires Valid()
      requires state.Suspended? ==> val.Some?
      modifies this`state, this`newarr, this`received
      ensures Valid() && received == old(received) + [val]
      ensures old(state).Finished? ==> r == Returned(None) && state == Finished && newarr == old(newarr)
      ensures old(state).NotStarted? ==> newarr == []
      ensures old(state).Suspended? ==> newarr == old(newarr) + [val.value]
      ensures !old(state).Finished? ==>
        (var i := if old(state).NotStarted? then 0 else old(state).at + 1;
         (i < |arr| ==> r == Yielded(func(arr[i])) && state == Suspended(i)) &&
         (i >= |arr| ==> r == Returned(Some(newarr)) && state == Finished))
      ensures Remaining() < old(Remaining()) || old(state).Finished?
    {
      received := received + [val];
      var i;
      match state {
        case Finished =>
          return Returned(None);
        case NotStarted =>
          i := 0;
        case Suspended(at) =>
          newarr := newarr + [val.value];
          i := at + 1;
      }
      if i < |arr| {
        state := Suspended(i);
        r := Yielded(func(arr[i]));
      } else {
        state := Finished;
        r := Returned(Some(newarr));
      }
    }
  }

  /**
   * `wrapGenForMaybeAsyncFunc(map)` driving a fresh generator: it resumes first with
   * `undefined`, then sends each plain yielded value straight back; it returns the
   * generator's return value when it is done, or hands over to the first Promise yielded.
   */
  method Drive<A, V>(gen: MapGen<A, V>) returns (r: Driven<V>)
    requires gen.Valid() && gen.state == NotStarted
    modifies gen
    ensures gen.Valid()
    ensures var k := FirstPending(gen.arr, gen.func);
      (k == |gen.arr| ==> r == Done(Some(Resolved(gen.arr, gen.func, k))) && gen.state == Finished) &&
      (k < |gen.arr| ==> r == Awaiting(gen.func(gen.arr[k]).promise) && gen.state == Suspended(k)) &&
      gen.newarr == Resolved(gen.arr, gen.func, k) &&
      |gen.received| == k + 1
    ensures gen.received[0] == None
    ensures forall j :: 1 <= j < |gen.received| ==> gen.received[j] == Some(gen.func(gen.arr[j - 1]).value)
  {
    ghost var k := FirstPending(gen.arr, gen.func);
    var val: Option<V> := None;
    while true
      invariant gen.Valid()
      invariant gen.state.NotStarted? ==> val == None
      invariant gen.state.Suspended? ==>
        gen.state.at <= k && gen.state.at < |gen.arr| &&
        gen.func(gen.arr[gen.state.at]).Sync? &&
        val == Some(gen.func(gen.arr[gen.state.at]).value) &&
        gen.newarr == Resolved(gen.arr, gen.func, gen.state.at)
      invariant !gen.state.Finished?
      invariant |gen.received| == (if gen.state.NotStarted? then 0 else gen.state.at + 1)
      invariant |gen.received| > 0 ==> gen.received[0] == None
      invariant forall j :: 1 <= j < |gen.received| ==> gen.received[j] == Some(gen.func(gen.arr[j - 1]).value)
      decreases gen.Remaining()
    {
      ghost var before := gen.state;
      var res := gen.Next(val);
      match res {
        case Returned(v) =>
          if before.Suspended? {
            assert gen.newarr == Resolved(gen.arr, gen.func, before.at) + [val.value];
          }
          assert gen.newarr == Resolved(gen.arr, gen.func, |gen.arr|);
          return Done(v);
        case Yielded(y) =>
          match y {
            case Pending(p) =>
              return Awaiting(p);
            case Sync(x) =>
              val := Some(x);
          }
      }
    }
  }

  /**
   * `wrapGenForMaybeAsyncFunc(map)(arr, func)`: when `func` never returns a Promise the
   * result is `arr` mapped by `func`; otherwise the driver stops at the first Promise.
   */
  method MapMaybe<A, V>(arr: seq<A>, func: A -> Yield<V>) returns (r: Driven<V>)
    ensures (forall i :: 0 <= i < |arr| ==> func(arr[i]).Sync?) ==>
      r.Done? && r.value.Some? && |r.value.value| == |arr| &&
      forall i :: 0 <= i < |arr| ==> func(arr[i]) == Sync(r.value.value[i])
    ensures (exists i :: 0 <= i < |arr| && func(arr[i]).Pending?) ==>
      r == Awaiting(func(arr[FirstPending(arr, func)]).promise)
  {
    var gen := new MapGen(arr, func);
    r := Drive(gen);
  }
}
