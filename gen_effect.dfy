/**
 * `useGenEffect` of src/lib/hooklib.tsx: an effect written as a generator that yields its
 * dependency list, then does its setup, then either returns a cleanup function or yields a
 * second time and does its cleanup when resumed. The generators the repository writes this
 * way (`EventListenerEffect`, and `withClassName` of src/lib/reactUtil.tsx) are modelled
 * with the browser state they touch.
 */
module GenEffect {
  import opened Wrappers
  import opened Js
  import opened Strings

  /** What `next()` returns. */
  datatype IterResult = IterResult(value: Value, done: bool)

  /** `isValidDependencies`: an array or an `arguments` object. */
  predicate IsValidDependencies(v: Value)
  {
    v.Ref? && (v.kind == ArrayObject || v.kind == ArgumentsObject)
  }

  /** What the setup phase hands React as the effect's cleanup. */
  datatype Cleanup =
    | Returned(value: Value)  // the generator's return value, used as React's cleanup
    | ResumeGenerator         // the arrow function that resumes the generator once more

  const NoDependencies := "gen effect did not yield dependencies"
  const BadDependencies := "gen effect must yield arguments or a list of dependencies."
  const DataOnSecondYield := "second yield cannot produce data."
  const NotExited := "gen effect did not exit after cleanup."
  const ReturnedWithTwoYields := "gen effect returned value with 2 yield form which is not allowed."

  /** During render: the first step must be a yield of a dependency list. */
  function DepsPhase(first: IterResult): (r: Result<Value, string>)
    ensures r.Ok? <==> !first.done && IsValidDependencies(first.value)
    ensures r.Ok? ==> r.value == first.value
    ensures first.done ==> r == Err(NoDependencies)
    ensures !first.done && !IsValidDependencies(first.value) ==> r == Err(BadDependencies)
  {
    if first.done then Err(NoDependencies)
    else if !IsValidDependencies(first.value) then Err(BadDependencies)
    else Ok(first.value)
  }

  /** In the effect: finishing hands back the return value; a second yield must carry `undefined`. */
  function SetupPhase(second: IterResult): (r: Result<Cleanup, string>)
    ensures second.done ==> r == Ok(Returned(second.value))
    ensures !second.done ==> (r.Ok? <==> second.value == Undefined)
    ensures r == Ok(ResumeGenerator) <==> !second.done && second.value == Undefined
    ensures r.Err? ==> r.error == DataOnSecondYield
  {
    if second.done then Ok(Returned(second.value))
    else if second.value != Undefined then Err(DataOnSecondYield)
    else Ok(ResumeGenerator)
  }

  /** In the cleanup: the generator must now finish, returning `undefined`. */
  function CleanupPhase(third: IterResult): (r: Outcome<string>)
    ensures r.Pass? <==> third.done && third.value == Undefined
    ensures !third.done ==> r == Fail(NotExited)
    ensures third.done && third.value != Undefined ==> r == Fail(ReturnedWithTwoYields)
  {
    if !third.done then Fail(NotExited)
    else if third.value != Undefined then Fail(ReturnedWithTwoYields)
    else Pass
  }

  /** A window event listener registration: type, callback identity and capture flag. */
  datatype Listener = Listener(eventType: string, callback: nat, capture: bool)

  /** The browser state the generators touch: window listeners and each element's class list. */
  datatype DomState = DomState(listeners: set<Listener>, classes: map<nat, set<string>>)

  function ClassesOf(s: DomState, elem: nat): set<string>
  {
    if elem in s.classes then s.classes[elem] else {}
  }

  /** The distinct tokens of `classname.split(" ")`. */
  function Tokens(classname: string): set<string>
  {
    set t | t in Split(classname, ' ')
  }

  /** A generator object, by the function that created it. */
  datatype Body =
    | Scripted(yielded: seq<Value>, ret: Value)
    | EventListenerEffect(argumentsId: nat, listener: Listener)
    | WithClassName(argumentsId: nat, elem: Option<nat>, classname: string)

  /** The result of the `k`-th `next()` call (counting from 0). */
  function Output(body: Body, k: nat): (r: IterResult)
    ensures k >= 3 && !body.Scripted? ==> r == IterResult(Undefined, true)
  {
    match body
    case Scripted(yielded, ret) =>
      if k < |yielded| then IterResult(yielded[k], false)
      else if k == |yielded| then IterResult(ret, true)
      else IterResult(Undefined, true)
    case EventListenerEffect(argumentsId, _) =>
      if k == 0 then IterResult(Ref(ArgumentsObject, argumentsId), false)
      else if k == 1 then IterResult(Undefined, false)
      else IterResult(Undefined, true)
    case WithClassName(argumentsId, elem, _) =>
      if k == 0 then IterResult(Ref(ArgumentsObject, argumentsId), false)
      else if k == 1 && elem.Some? then IterResult(Undefined, false)
      else IterResult(Undefined, true)
  }

  /** What the `k`-th `next()` call does to the browser state before it yields or returns. */
  function Effect(body: Body, k: nat, s: DomState): (r: DomState)
    ensures body.Scripted? || k == 0 || k >= 3 ==> r == s
  {
    match body
    case Scripted(_, _) => s
    case EventListenerEffect(_, l) =>
      if k == 1 then s.(listeners := s.listeners + {l})
      else if k == 2 then s.(listeners := s.listeners - {l})
      else s
    case WithClassName(_, elem, classname) =>
      if elem.None? then s
      else if k == 1 then s.(classes := s.classes[elem.value := ClassesOf(s, elem.value) + Tokens(classname)])
      else if k == 2 then s.(classes := s.classes[elem.value := ClassesOf(s, elem.value) - Tokens(classname)])
      else s
  }

  /** The browser, shared by every generator. */
  class Dom {
    var state: DomState

    constructor(s: DomState)
      ensures state == s
    {
      state := s;
    }
  }

  /** A running generator object. */
  class Generator {
    const body: Body
    const dom: Dom
    /** `next()` calls so far. */
    var calls: nat

    constructor(body: Body, dom: Dom)
      ensures this.body == body && this.dom == dom && calls == 0
    {
      this.body := body;
      this.dom := dom;
      calls := 0;
    }

    method Next() returns (r: IterResult)
      modifies this`calls, dom`state
      ensures calls == old(calls) + 1
      ensures r == Output(body, old(calls))
      ensures dom.state == Effect(body, old(calls), old(dom.state))
    {
      dom.state := Effect(body, calls, dom.state);
      r := Output(body, calls);
      calls := calls + 1;
    }
  }

  /** The part of `useGenEffect` that runs during render: the dependency list for `useEffect`. */
  method UseGenEffect(gen: Generator) returns (r: Result<Value, string>)
    modifies gen`calls, gen.dom`state
    ensures gen.calls == old(gen.calls) + 1
    ensures r == DepsPhase(Output(gen.body, old(gen.calls)))
    ensures gen.dom.state == Effect(gen.body, old(gen.calls), old(gen.dom.state))
  {
    var first := gen.Next();
    r := DepsPhase(first);
  }

  /** The effect React runs after commit. */
  method RunEffect(gen: Generator) returns (r: Result<Cleanup, string>)
    modifies gen`calls, gen.dom`state
    ensures gen.calls == old(gen.calls) + 1
    ensures r == SetupPhase(Output(gen.body, old(gen.calls)))
    ensures gen.dom.state == Effect(gen.body, old(gen.calls), old(gen.dom.state))
  {
    var second := gen.Next();
    r := SetupPhase(second);
  }

  /**
   * The cleanup React runs: resuming the generator once more, or (for a returned cleanup)
   * calling a function outside this model, which leaves the generator alone.
   */
  method RunCleanup(gen: Generator, c: Cleanup) returns (r: Outcome<string>)
    modifies gen`calls, gen.dom`state
    ensures c.Returned? ==> r == Pass && gen.calls == old(gen.calls) && gen.dom.state == old(gen.dom.state)
    ensures c.ResumeGenerator? ==>
      gen.calls == old(gen.calls) + 1 &&
      r == CleanupPhase(Output(gen.body, old(gen.calls))) &&
      gen.dom.state == Effect(gen.body, old(gen.calls), old(gen.dom.state))
  {
    if c.ResumeGenerator? {
      var third := gen.Next();
      r := CleanupPhase(third);
    } else {
      r := Pass;
    }
  }

  /**
   * A mount, commit and unmount of one effect: at most three `next()` calls, and each
   * phase runs only when the previous one succeeded.
   */
  method Lifecycle(gen: Generator) returns (r: Outcome<string>)
    modifies gen`calls, gen.dom`state
    ensures gen.calls <= old(gen.calls) + 3
    ensures DepsPhase(Output(gen.body, old(gen.calls))).Err? ==>
      r == Fail(DepsPhase(Output(gen.body, old(gen.calls))).error) && gen.calls == old(gen.calls) + 1
  {
    var deps := UseGenEffect(gen);
    if deps.Err? {
      return Fail(deps.error);
    }
    var setup := RunEffect(gen);
    if setup.Err? {
      return Fail(setup.error);
    }
    r := RunCleanup(gen, setup.value);
  }

  /** `EventListenerEffect` passes all three phases. */
  lemma ListenerPhases(argumentsId: nat, l: Listener)
    ensures DepsPhase(Output(EventListenerEffect(argumentsId, l), 0)) == Ok(Ref(ArgumentsObject, argumentsId))
    ensures SetupPhase(Output(EventListenerEffect(argumentsId, l), 1)) == Ok(ResumeGenerator)
    ensures CleanupPhase(Output(EventListenerEffect(argumentsId, l), 2)) == Pass
  {
  }

  /**
   * `EventListenerEffect`: after setup the listener is registered; after cleanup exactly
   * that type, callback and capture flag has been removed again.
   */
  lemma ListenerAddedThenRemoved(argumentsId: nat, l: Listener, s: DomState)
    ensures var during := Effect(EventListenerEffect(argumentsId, l), 1, Effect(EventListenerEffect(argumentsId, l), 0, s));
      during.listeners == s.listeners + {l} &&
      Effect(EventListenerEffect(argumentsId, l), 2, during).listeners == s.listeners - {l} &&
      (l !in s.listeners ==> Effect(EventListenerEffect(argumentsId, l), 2, during) == s)
  {
    var body := EventListenerEffect(argumentsId, l);
    var during := Effect(body, 1, Effect(body, 0, s));
    if l !in s.listeners {
      assert (s.listeners + {l}) - {l} == s.listeners;
    }
  }

  /** `withClassName(null, c)` does no setup and hands React no cleanup to resume. */
  lemma ClassNameOnNull(argumentsId: nat, classname: string, s: DomState)
    ensures SetupPhase(Output(WithClassName(argumentsId, None, classname), 1)) == Ok(Returned(Undefined))
    ensures Effect(WithClassName(argumentsId, None, classname), 1, s) == s
  {
  }

  /**
   * `withClassName` on an element: setup adds every space-separated class of `classname`,
   * cleanup removes exactly those classes and touches no other element.
   */
  lemma ClassNameAddedThenRemoved(argumentsId: nat, elem: nat, classname: string, s: DomState, other: nat)
    requires other != elem
    ensures var body := WithClassName(argumentsId, Some(elem), classname);
      var during := Effect(body, 1, Effect(body, 0, s));
      var after := Effect(body, 2, during);
      SetupPhase(Output(body, 1)) == Ok(ResumeGenerator) &&
      ClassesOf(during, elem) == ClassesOf(s, elem) + Tokens(classname) &&
      ClassesOf(after, elem) == ClassesOf(s, elem) - Tokens(classname) &&
      ClassesOf(after, other) == ClassesOf(s, other) &&
      after.listeners == s.listeners
  {
  }
}
