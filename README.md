# reactSandbox core in Dafny

A Dafny model of the logic of the `reactSandbox` repository: the libraries that turn classes
into function components for React, the change-notification store around redux, and the
small helpers and game components built on them. Each source file becomes one module. Code
that updates objects in place becomes classes whose methods state the new state; code that
only computes becomes functions and lemmas.

- `Wrappers`, `Js`, `Strings`: option and result types, JavaScript values compared with
  `===`, objects as ordered entry lists (keys in insertion order), and the string operations
  the sources use (`split`, `join`, `endsWith`, integer printing and `Number`).
- `Util` (src/lib/util.ts): `assert`, `ensure`, `ObjectEntries`, `isDefined`, `objectMap`.
- `FieldRegistry`, `HookCls`, `OldHookLib` (src/lib/hookcls.tsx,
  src/lib/oldHookCls/hooklib.tsx): per-class lists of render-affecting fields kept on
  prototypes, the proxy that requests a re-render when such a field is written, one instance
  per mounted element, and the `WithReducers` state helper.
- `InitRegistry`, `HookLib`, `HookLib2` (src/lib/hooklib.tsx,
  src/lib/oldHookCls/hooklib2.tsx): per-class initializer tables, accessor fields over a
  per-instance store, the update request made on a changing write (immediate in `HookLib`,
  debounced through one pending timeout in `HookLib2`).
- `GenEffect` (src/lib/hooklib.tsx, src/lib/reactUtil.tsx): `useGenEffect`, the three-step
  protocol of an effect written as a generator, with `EventListenerEffect` and
  `withClassName` run against a browser state of listeners and class lists.
- `Redux` (lib/reduxlib.ts): sections updated in place, their `hasChanged` flags and
  dependents, the reducer, `update`, `notify`, `makeAction` and `Act`.
- `MaybeWait` (src/lib/MAYBEWAIT.ts): the `map` generator and the synchronous driver.
- `GameHelpers` (src/lib/gameHelpers.ts): `possibleCollisions`, its bins and `adjacency`.
- `ReactUtil` (src/lib/reactUtil.tsx): `camelToDash`, `parseOneStyle`, the `Stylesheet`
  text and `Main`'s stylesheet.
- `Nav` (src/index.tsx): the back-link path.
- `MatchGame`, `Match3Tile`, `Match3TileLive` (src/components/Match3/MatchGame.tsx,
  src/components/Match3/Tile.tsx, src/Match3/Tile.tsx): the match-3 grid and the two tile
  "falling" state machines.
- `Asteroids` (src/Asteroids/Game.tsx): the countdown re-arm loop of `makeTimeoutCallback`.
- `HookCompExamples` (src/lib/HookCompExamples.tsx): WASD movement and the two example
  components' handlers.
- `SongPage` (src/GLEEEEE/SongPage.tsx): choosing the lyrics and audio files of a listing.

React itself is a parameter of the model: a render is a method call, a request to re-render
is a counter, and a timeout is a handle in a set of live handles.

## Model

| member | source | states |
|---|---|---|
| Util.Assert | src/lib/util.ts:6-12 | `assert` passes exactly when the condition is truthy and otherwise throws an error carrying the message |
| Util.Ensure | src/lib/util.ts:19-27 | `ensure` never throws; it warns once, with the message, exactly when the condition is falsy |
| Util.ObjectEntries | src/lib/util.ts:112-121 | without a predicate all entries come back unchanged; with one, exactly the entries whose value satisfies it |
| Util.FilterMembers | src/lib/util.ts:116-119 | filtering keeps exactly the entries whose value satisfies the predicate and never adds any |
| Util.FilterConcat | src/lib/util.ts:118 | filtering keeps the entries' order: a filtered concatenation is the concatenation of the filtered parts |
| Util.FilterAll | src/lib/util.ts:118 | when every value satisfies the predicate, filtering returns the entries as they were |
| Util.IsDefined | src/lib/util.ts:129-131 | `isDefined` holds of every value but `undefined`; `Util.DefinedEntries` states what filtering with it keeps |
| Util.DefinedEntries | src/lib/util.ts:112-131 | `ObjectEntries(o, isDefined)` drops exactly the entries whose value is `undefined`, in order |
| Util.ObjectMap | src/lib/util.ts:137-146 | `objectMap` keeps the keys and their order and maps each value to `fn(val, key)` |
| Nav.BackPath | src/index.tsx:12-14 | the "back" link target: the path without its last segment, or its last two after a trailing "/"; `Nav.SliceEndNonNegative`, `Nav.BackPathIsPrefix`, `Nav.BackPathIgnoresTrailingSlash` and `Nav.RootBackPath` state its contract |
| Nav.SliceTo | src/index.tsx:14 | `slice(0, end)` with a non-negative end keeps the first `end` pieces, or all of them when there are fewer |
| Nav.SliceEndNonNegative | src/index.tsx:12-14 | the slice end is never negative, so the back path is the "/"-split pieces minus the last one, or minus the last two after a trailing "/", re-joined with "/" |
| Nav.BackPathIsPrefix | src/index.tsx:12-14 | the back path is always a prefix of the current path |
| Nav.BackPathIgnoresTrailingSlash | src/index.tsx:12-14 | adding a trailing "/" to a path without one does not change its back path |
| Nav.RootBackPath | src/index.tsx:12-14 | the back path of "/" is the empty string |
| Strings.IntToStringRoundTrip | src/lib/gameHelpers.ts:69 | `Number` of an integer written by a template literal gives that integer back |
| Strings.JoinSplit | src/index.tsx:12-14 | joining the "/"-split pieces of a path with "/" gives the path back |
| Js.Keys | src/lib/util.ts:112-121 | an object's keys are its entries' keys, in order |
| Js.Put | src/lib/gameHelpers.ts:79 | assigning a property keeps the entry count for an existing key and appends a new key at the end |
| Js.PutKeys | src/lib/gameHelpers.ts:79 | assigning a property adds its key at the end when new and otherwise keeps the keys as they were |
| Js.PutDistinct | src/lib/gameHelpers.ts:79 | assigning a property never duplicates a key |
| Js.GetPut | src/lib/hooklib.tsx:248-255 | after `store[field] = v`, `store[field]` reads `v` and every other property reads as before |
| Strings.Split | src/index.tsx:12 | `split` always returns at least one piece |
| Strings.SplitPiecesFree | src/index.tsx:12 | no piece of a split holds the separator |
| Strings.SplitJoin | src/lib/reactUtil.tsx:32-34 | splitting a join of separator-free pieces gives the pieces back |
| Strings.JoinPrefix | src/index.tsx:14 | joining the first pieces gives a prefix of joining them all |
| Strings.ParseNatToString | src/lib/gameHelpers.ts:69-70 | the digits a template literal writes for a natural number parse back to it |
| Strings.IntToString | src/lib/gameHelpers.ts:70-78 | a template literal writes an integer with digits and a minus sign only |
| FieldRegistry.HandleOwner | src/lib/hookcls.tsx:125-139 | an instance gets a proxy handler exactly when its class inherits a non-empty field list, and that handler belongs to a subclass prototype that owns exactly the inherited list |
| FieldRegistry.Decorated | src/lib/hookcls.tsx:122-141 | decorating a field of a class appends it to the list that class sees and leaves every other prototype as it was |
| FieldRegistry.DecorateIsolated | src/lib/hookcls.tsx:125-128 | decorating a class never changes the fields or the handler of a class that does not inherit from it, because the first decoration copies the parent's list |
| FieldRegistry.DefineIsolated | src/lib/hookcls.tsx:156-211 | declaring a new subclass changes the fields and handler of no existing class |
| FieldRegistry.Registry.constructor | src/lib/hookcls.tsx:211 | the registry starts with `HookCls.prototype` alone, holding an empty field list |
| FieldRegistry.Registry.DefineClass | src/lib/hookcls.tsx:156 | a new subclass prototype is appended and no existing class sees different fields or handler |
| FieldRegistry.Registry.RenderAffecting | src/lib/hookcls.tsx:122-141 | the decorator performs exactly the `Decorated` update and keeps the registry well formed |
| HookCls.ProxySet | src/lib/hookcls.tsx:130-137 | the `set` trap always stores the value: the field reads back as written, every other field reads as before, and only the field may be added; it requests an update exactly when the field is registered and the value differs from the old one |
| HookCls.ProxySetQuiet | src/lib/hookcls.tsx:131 | writing an unregistered field, or the value it already holds, requests no update |
| HookCls.Instance.constructor | src/lib/hookcls.tsx:55-64 | a new instance is wrapped in the handler its class inherits, and in a proxy exactly when that class has render-affecting fields |
| HookCls.Instance.Set | src/lib/hookcls.tsx:96-137 | a field write always lands and calls React's dispatcher exactly when rendered, registered and changed |
| HookCls.Instance.HocRender | src/lib/hookcls.tsx:87-91 | rendering installs React's dispatcher as `_force_update` |
| HookCls.Mount.constructor | src/lib/hookcls.tsx:105 | a new element holds no instance and exposes none |
| HookCls.Mount.Render | src/lib/hookcls.tsx:104-109 | the first render creates one instance with no own fields and no forced update, later renders reuse it with its fields and update count untouched; the ref exposes it and it is rendered |
| HookCls.ReducedOthers | src/lib/hookcls.tsx:174-193 | updates queued for other fields leave a reduced field's value alone |
| HookCls.ReducedConcat | src/lib/hookcls.tsx:177-193 | reducing two batches of queued updates in turn equals reducing them together |
| HookCls.ReducerInstance.constructor | src/lib/hookcls.tsx:165-187 | the store holds exactly the spec's fields, each at its initial value, with nothing queued |
| HookCls.ReducerInstance.CallUpdater | src/lib/hookcls.tsx:174-184 | before the first render an updater throws "dispatched action before first render." and changes nothing; afterwards it queues its update and a render |
| HookCls.ReducerInstance.Render | src/lib/hookcls.tsx:188-196 | each reduced field takes the value its queued updates reduce to, the queue empties and no field is added or lost |
| HookCls.ReducerInstance.Get | src/lib/hookcls.tsx:200-204 | the getter of a reduced field reads its entry of the store; `HookCls.ReducerInstance.constructor`, `CallUpdater` and `Render` state what that entry holds |
| HookCls.UpdaterBeforeRender | src/lib/hookcls.tsx:178-183 | an updater called from the constructor always throws |
| OldHookLib.OwnProperties | src/lib/oldHookCls/hooklib.tsx:121-137 | no prototype ever owns a property named `renderAffectingFields`, so the decorator's own-list test never finds one |
| OldHookLib.OldRegistry.constructor | src/lib/oldHookCls/hooklib.tsx:160 | the registry starts with `HookCls.prototype` alone, holding an empty field list |
| OldHookLib.OldRegistry.DefineClass | src/lib/oldHookCls/hooklib.tsx:53 | a new subclass prototype is appended and owns nothing |
| OldHookLib.OldRegistry.RenderAffecting | src/lib/oldHookCls/hooklib.tsx:132-150 | a `diff` argument throws "diff feature not implemented" and changes nothing; otherwise the class's list is copied with the field appended and a new handler installed |
| OldHookLib.ProxySet | src/lib/oldHookCls/hooklib.tsx:140-146 | the `set` trap always stores the value: the field reads back as written and every other field reads as before; it requests an update exactly when the field is registered, whatever the old value |
| OldHookLib.SameValueStillUpdates | src/lib/oldHookCls/hooklib.tsx:141-144 | writing a registered field's current value leaves the target as it was yet still requests an update |
| OldHookLib.OldInstance.constructor | src/lib/oldHookCls/hooklib.tsx:53-63 | a new instance is wrapped in the handler its class inherits, and in a proxy exactly when that class has render-affecting fields |
| OldHookLib.OldInstance.Set | src/lib/oldHookCls/hooklib.tsx:140-146 | a field write always lands and calls React's dispatcher exactly when rendered and the field is registered |
| OldHookLib.OldInstance.InternalComp | src/lib/oldHookCls/hooklib.tsx:80-85 | rendering installs React's dispatcher as `_force_update` |
| OldHookLib.Mount.constructor | src/lib/oldHookCls/hooklib.tsx:97 | a new element holds no instance and exposes none |
| OldHookLib.Mount.Render | src/lib/oldHookCls/hooklib.tsx:96-101 | the first render creates one instance with no own fields and no forced update, later renders reuse it with its fields and update count untouched; the ref exposes it and it is rendered |
| InitRegistry.Find | src/lib/hooklib.tsx:229-231 | a key is found in an initializer table exactly when the table holds it |
| InitRegistry.FindPut | src/lib/hooklib.tsx:245 | after storing an initializer under a field, that field finds it and every other field finds what it found before |
| InitRegistry.VisibleTable | src/lib/hooklib.tsx:228-241 | the table a class sees belongs to itself or an ancestor, and is its own whenever it has one |
| InitRegistry.Inits | src/lib/hooklib.tsx:228-229 | the initializer table a class sees names each field once |
| InitRegistry.Decorated | src/lib/hooklib.tsx:239-245 | decorating without an initializer fails with the decorator's message; otherwise the hierarchy stays well formed |
| InitRegistry.DecoratedSees | src/lib/hooklib.tsx:241-258 | after a decoration the class finds the new initializer and every other entry it found before, has an accessor for the field, and writes into an inherited table rather than creating its own |
| InitRegistry.VisibleUnchanged | src/lib/hooklib.tsx:228-241 | changing table contents never changes which prototype's table a class sees |
| InitRegistry.ReadField | src/lib/hooklib.tsx:247-249 | a read through the getter of an accessor field, or of an own property otherwise; `InitRegistry.ReadAfterWrite` states its round trip |
| InitRegistry.ReadAfterWrite | src/lib/hooklib.tsx:246-256 | a write through the accessors then a read gives the written value for that field and the old value for every other |
| InitRegistry.Registry.constructor | src/lib/hooklib.tsx:154 | the registry starts with the base class alone, without a table |
| InitRegistry.Registry.DefineClass | src/lib/hooklib.tsx:154 | a new subclass is appended without a table or accessors |
| InitRegistry.Registry.RenderAffecting | src/lib/hooklib.tsx:239-258 | a decoration without initializer throws and changes nothing; otherwise it performs exactly the `Decorated` update |
| HookLib.InitialStore | src/lib/hooklib.tsx:224-234 | the store holds exactly the initialized fields in table order with their initial values, and construction throws exactly when some initializer is `null` |
| HookLib.HookedInstance.constructor | src/lib/hooklib.tsx:163-224 | a new instance holds the given store, no other properties and no update function |
| HookLib.HookedInstance.Write | src/lib/hooklib.tsx:250-256 | an accessor write of a new value calls `_request_update` before storing, so before the first render it throws and every field reads as before; an unchanged value is stored without a request; a plain field is just assigned; a write that succeeds reads back as written and leaves every other field's read alone |
| HookLib.HookedInstance.AssignUpdater | src/lib/hooklib.tsx:197-199 | every render installs a fresh `_request_update` |
| HookLib.Mount.constructor | src/lib/hooklib.tsx:195 | a new element holds no instance |
| HookLib.Mount.Render | src/lib/hooklib.tsx:192-201 | the first render constructs the instance with each field at its initializer's value in table order, no own properties and no request (throwing exactly on a `null` initializer, in which case no instance is kept and nothing is exposed); later renders reuse it with store, properties and requests untouched; every render that does not throw installs the update function and exposes the instance |
| HookLib2.InitialStore | src/lib/oldHookCls/hooklib2.tsx:78-89 | the store holds exactly the table's fields in order, with the initial value where there is an initializer and `undefined` where it is `null` |
| HookLib2.HookCompInstance.constructor | src/lib/oldHookCls/hooklib2.tsx:70-78 | a new instance holds the given store, no update function and no pending timeout |
| HookLib2.HookCompInstance.RequestUpdate | src/lib/oldHookCls/hooklib2.tsx:56-61 | a request while a timeout is pending does nothing; otherwise it schedules the only live timeout and remembers its handle |
| HookLib2.HookCompInstance.TimerFires | src/lib/oldHookCls/hooklib2.tsx:60 | a fired timeout dispatches one update and is no longer live |
| HookLib2.HookCompInstance.Render | src/lib/oldHookCls/hooklib2.tsx:48-63 | rendering clears any pending timeout and leaves an update function installed |
| HookLib2.HookCompInstance.Write | src/lib/oldHookCls/hooklib2.tsx:123-130 | an accessor write always stores the value and requests an update only when the value changed and a render has installed the update function, otherwise no timeout and no handle is taken; a plain field is just assigned; the field reads back as written and every other field reads as before |
| HookLib2.HookCompInstance.AtMostOneTimeout | src/lib/oldHookCls/hooklib2.tsx:57-60 | an instance in any reachable state has at most one outstanding timeout, and it is the one whose handle `_req_upd_canId` holds |
| HookLib2.Debounce | src/lib/oldHookCls/hooklib2.tsx:56-61 | any number of requests between two renders schedules at most one timeout |
| HookLib2.Mount.constructor | src/lib/oldHookCls/hooklib2.tsx:40 | a new element holds no instance |
| HookLib2.Mount.Instance | src/lib/oldHookCls/hooklib2.tsx:39-43 | the first render constructs the instance with each field at its initializer's value (`undefined` for a `null` initializer) in table order, no own properties, no updater and no timeout; later renders reuse it |
| GenEffect.DepsPhase | src/lib/hooklib.tsx:10-40 | the render-time step passes exactly when the generator yields an array or an `arguments` object, which become the dependencies; otherwise it fails with the matching message |
| GenEffect.IsValidDependencies | src/lib/hooklib.tsx:10-13 | an array or an `arguments` object; `GenEffect.DepsPhase` states that exactly these pass the render-time step |
| GenEffect.SetupPhase | src/lib/hooklib.tsx:41-53 | a finished generator hands React its return value as cleanup; a second yield must carry no data and then the cleanup resumes the generator |
| GenEffect.CleanupPhase | src/lib/hooklib.tsx:49-53 | the cleanup passes exactly when the generator then finishes with no return value, and otherwise fails with the matching message |
| GenEffect.Output | src/lib/hooklib.tsx:64-69 | after its three steps an `EventListenerEffect` or `withClassName` generator only reports done |
| GenEffect.Effect | src/lib/hooklib.tsx:64-69 | the first step and any step after the third touch nothing in the browser |
| GenEffect.Generator.Next | src/lib/hooklib.tsx:38-50 | each `next()` advances the generator by one step, returns that step's output and applies its browser effect |
| GenEffect.UseGenEffect | src/lib/hooklib.tsx:37-40 | `useGenEffect` takes exactly one step at render time and checks its dependencies |
| GenEffect.RunEffect | src/lib/hooklib.tsx:41-48 | the effect takes exactly one step and decides the cleanup |
| GenEffect.RunCleanup | src/lib/hooklib.tsx:43-53 | a returned cleanup leaves the generator alone; the resuming cleanup takes exactly one more step and checks it |
| GenEffect.Lifecycle | src/lib/hooklib.tsx:37-55 | render, effect and cleanup take at most three steps; a bad first step fails at render after one step |
| GenEffect.ListenerPhases | src/lib/hooklib.tsx:64-69 | `EventListenerEffect` yields its `arguments`, then a bare yield, then finishes, so every phase passes |
| GenEffect.ListenerAddedThenRemoved | src/lib/hooklib.tsx:64-69 | setup adds the listener and cleanup removes it, restoring the listeners when it was not there before |
| GenEffect.ClassNameOnNull | src/lib/reactUtil.tsx:6-11 | `withClassName(null, c)` does no setup and leaves React no cleanup to run |
| GenEffect.ClassNameAddedThenRemoved | src/lib/reactUtil.tsx:6-15 | setup adds every space-separated class to the element and cleanup removes exactly those classes, touching no other element and no listener |
| GenEffect.Generator.constructor | src/lib/hooklib.tsx:37 | a new generator object has taken no step |
| Redux.AssignedLatest | lib/reduxlib.ts:47-49 | after assigning a list of entries in order, each field holds the last value assigned to it, and a field not assigned keeps its old value or stays absent |
| Redux.InternalData.constructor | lib/reduxlib.ts:12-16 | a new record has no pending change and the given dependents, which, being a `Set`, hold no callback twice |
| Redux.InternalData.NotifyDependents | lib/reduxlib.ts:18-25 | with a pending change every dependent is called once in insertion order and the flag clears; without one nobody is called |
| Redux.ReduxState.constructor | lib/reduxlib.ts:33-35 | a new section holds its fields and a fresh record with no pending change |
| Redux.ReduxState.Update | lib/reduxlib.ts:40-50 | entries set to `undefined` are ignored; with none left nothing changes, otherwise the remaining entries are assigned in order and the section is marked changed |
| Redux.AssignedSnoc | lib/reduxlib.ts:47-49 | assigning one more entry updates exactly that field |
| Redux.UpdateStep | lib/reduxlib.ts:40-50 | the value form of `[UPDATE]`: no defined entry leaves the section alone, otherwise it assigns them and marks the section changed |
| Redux.PatchesForSnoc | lib/reduxlib.ts:77-79 | one more entry of an action's data adds its patch to the section it names and to no other |
| Redux.PatchesForDefined | lib/reduxlib.ts:77 | dropping the `undefined` entries of an action's data changes no section's patches |
| Redux.PatchesForAbsent | lib/reduxlib.ts:77-79 | a section the data does not name receives no patch |
| Redux.PatchesForOnce | lib/reduxlib.ts:77-79 | since object keys are unique, each named section receives exactly its own patch, if defined |
| Redux.FoldSnoc | lib/reduxlib.ts:77-79 | applying one more patch is one more `[UPDATE]` step |
| Redux.FoldPatch | lib/reduxlib.ts:77-79 | applying one more entry of the data changes the section it names by one `[UPDATE]` step and leaves every other section as it was |
| Redux.SinglePatch | lib/reduxlib.ts:166-170 | the one-entry data of an action sets exactly that field of that section and marks it changed, unless the value is `undefined` |
| Redux.IndexIn | lib/reduxlib.ts:78 | a section named in the keys is found at an index holding that name |
| Redux.ReducerWarnings | lib/reduxlib.ts:70-75 | an action other than "UPDATE" warns exactly when its type does not contain "INIT" |
| Redux.StoreHelpers.constructor | lib/reduxlib.ts:88-91 | the store starts outside any `Act`, with no notification, no warning and the given sections |
| Redux.StoreHelpers.IndexOf | lib/reduxlib.ts:168 | a section key is found at an index holding that key |
| Redux.StoreHelpers.Reduce | lib/reduxlib.ts:68-82 | an unknown action only warns as `ReducerWarnings` says; "UPDATE" applies to every section exactly the patches its key receives, and no dependents change |
| Redux.StoreHelpers.ApplyAll | lib/reduxlib.ts:77-79 | the loop over the defined entries leaves each section exactly as its own patches, applied in order, make it, and changes no dependents |
| Redux.StoreHelpers.ApplyEntry | lib/reduxlib.ts:78 | one entry of the loop extends every section's applied patches by that entry's patch, if it names that section |
| Redux.StoreHelpers.UpdateSection | lib/reduxlib.ts:78 | updating one section is one `UpdateStep` on it and leaves every other section alone |
| Redux.StoreHelpers.Notify | lib/reduxlib.ts:123-130 | the dependents of every section that had a pending change are called, section by section and each in insertion order, and nobody else; afterwards no section has a pending change and no field changes |
| Redux.StoreHelpers.NotifySection | lib/reduxlib.ts:127-128 | one section of the loop tells its dependents if it changed, clears its flag and touches no other section |
| Redux.NotifiedSnoc | lib/reduxlib.ts:126-129 | one more section adds its dependents to the calls exactly when it changed |
| Redux.NotifiedNone | lib/reduxlib.ts:123-130 | with no section changed, `notify` calls nobody |
| Redux.StoreHelpers.Update | lib/reduxlib.ts:90-121 | a dispatched update sets each section's fields to `DispatchFields` of its key, warns of nothing, keeps every dependent, and ends with one notification that calls, in section order, the dependents of each section that had a pending change or was changed by the update (`AfterUpdate`), leaving nothing pending |
| Redux.StoreHelpers.ActionCall | lib/reduxlib.ts:166-170 | the action sets exactly one field of one section, keeps the warnings and every dependent, and notifies once; from a quiet store an `undefined` value calls nobody and a defined one calls exactly that section's dependents |
| Redux.Run | lib/reduxlib.ts:99-115 | the dispatches a callback script makes before it ends and whether it ends by throwing; `Redux.StoreHelpers.Act` states what the store does around it |
| Redux.StoreHelpers.Act | lib/reduxlib.ts:99-115 | the `midUpdate` flag is restored even when the callback throws; each section's fields end as `Dispatched` says (the dispatches up to the first throw, nested calls included), no dependent changes, each dispatch inside notifies, and the outermost call that returns normally notifies once more and leaves nothing pending |
| Redux.StoreHelpers.RunStep | lib/reduxlib.ts:106 | one step of the callback advances `Run` and `Dispatched` by exactly that step, or stops both at a throw, and keeps every dependent |
| Redux.StoreHelpers.DispatchStep | lib/reduxlib.ts:106 | a dispatch step inside the callback notifies once and advances `Run` and `Dispatched` by that dispatch |
| Redux.StoreHelpers.CallStep | lib/reduxlib.ts:106 | a nested `Act` call inside the callback advances `Run` and `Dispatched` by the whole nested script, or stops at its throw |
| Redux.DispatchFields | lib/reduxlib.ts:119-121 | the fields a section with the given key holds after one dispatched update: its own patches of the data applied in order |
| Redux.Dispatched | lib/reduxlib.ts:99-121 | the fields a section holds after a callback script: each dispatch applied in turn, nested calls included, stopping at the first throw |
| Redux.DispatchedAppend | lib/reduxlib.ts:99-121 | running one script that does not throw and then another has the same effect on fields and notifications as running them joined |
| Redux.FoldFields | lib/reduxlib.ts:40-50 | the fields an update leaves do not depend on whether the section already had a pending change |
| Redux.AfterUpdate | lib/reduxlib.ts:40-50 | the pending flags and dependents `notify` sees after an update: each section's flag is the one its own patches leave, applied in order from its state before, and its dependents are its dependents before |
| Redux.NotifiedOnly | lib/reduxlib.ts:123-130 | when exactly one section has a pending change, `notify` calls exactly its dependents |
| MaybeWait.FirstPending | src/lib/MAYBEWAIT.ts:27-36 | the driver stops at the first element whose value is a Promise: every earlier value is plain and the one at the stop, if any, is a Promise |
| MaybeWait.Resolved | src/lib/MAYBEWAIT.ts:8-35 | the values sent back for a plain prefix are exactly those plain values, one per element |
| MaybeWait.MapGen.constructor | src/lib/MAYBEWAIT.ts:4-8 | a new generator has not started and holds the array and function |
| MaybeWait.MapGen.Next | src/lib/MAYBEWAIT.ts:8-14 | each `next(val)` records `val` as the previous element's result (the first one is dropped), then yields the next element's value or returns the collected array; a finished generator returns `undefined`; every call moves towards the end |
| MaybeWait.Drive | src/lib/MAYBEWAIT.ts:23-37 | the driver starts with `undefined`, sends each plain value straight back, and returns the generator's result when no value is a Promise, or waits on the first Promise with the generator suspended there |
| MaybeWait.MapMaybe | src/lib/MAYBEWAIT.ts:4-37 | wrapping `map`: when every value is plain the result is that array of values, in order and of the same length; otherwise it is the wait on the first Promise |
| GameHelpers.MaxR | src/lib/gameHelpers.ts:60-62 | without `maxr`, the cell size is the largest radius: no radius exceeds it and some object has it |
| GameHelpers.FloorBounds | src/lib/gameHelpers.ts:78 | `Math.floor(v / s)` is the cell whose span `[s*c, s*c + s)` holds `v` |
| GameHelpers.BinKeyParses | src/lib/gameHelpers.ts:69-78 | the key `"x,y"` of a cell splits at the comma and parses back to the cell, and holds no space |
| GameHelpers.BinKeyDistinct | src/lib/gameHelpers.ts:78 | different cells have different keys |
| GameHelpers.Adjacency | src/lib/gameHelpers.ts:63-74 | `adjacency` yields four keys |
| GameHelpers.AdjacencyOfBinKey | src/lib/gameHelpers.ts:69-73 | the four keys name the cells to the right, below-left, below and below-right, joined with the separator the code writes |
| GameHelpers.KeysOf | src/lib/gameHelpers.ts:77-78 | each object's key is that of the cell its centre falls in |
| GameHelpers.IndicesInMembers | src/lib/gameHelpers.ts:77-80 | a bin holds exactly the objects whose key is the bin's key |
| GameHelpers.IndicesInIncreasing | src/lib/gameHelpers.ts:79 | a bin holds its objects in list order |
| GameHelpers.BinsOfLookup | src/lib/gameHelpers.ts:76-80 | looking a key up in the filled bins gives the objects with that key |
| GameHelpers.BinsOfDistinct | src/lib/gameHelpers.ts:79 | no key is binned twice |
| GameHelpers.BinsOfKeySet | src/lib/gameHelpers.ts:79 | the bins are exactly the keys some object has |
| GameHelpers.BinsOfSnoc | src/lib/gameHelpers.ts:79 | binning one more object appends it to its key's bin, creating the bin if missing |
| GameHelpers.FillBins | src/lib/gameHelpers.ts:76-80 | the bin-filling loop builds exactly the bins of the objects' keys, in first-seen key order |
| GameHelpers.ConcatMember | src/lib/gameHelpers.ts:81-98 | a pair is yielded exactly when some step of the iteration yields it |
| GameHelpers.WithinLoop | src/lib/gameHelpers.ts:83-87 | the nested loop yields each pair of a bin's objects in order, earlier object first |
| GameHelpers.ProductLoop | src/lib/gameHelpers.ts:92-96 | the nested loop yields every object of this bin paired with every object of the neighbouring bin |
| GameHelpers.CrossLoop | src/lib/gameHelpers.ts:89-97 | the neighbour loop yields the products with the neighbouring bins that exist, skipping missing ones |
| GameHelpers.Collisions | src/lib/gameHelpers.ts:76-98 | the generator yields exactly the within-bin and neighbour-bin pairs of the filled bins, bin by bin |
| GameHelpers.WithinMember | src/lib/gameHelpers.ts:83-87 | a bin yields exactly the pairs of two of its objects, earlier first |
| GameHelpers.WithinCount | src/lib/gameHelpers.ts:83-87 | a bin of n objects yields n(n-1)/2 pairs |
| GameHelpers.WithinBin | src/lib/gameHelpers.ts:77-87 | the pairs a key's bin yields are exactly the ordered pairs of distinct objects with that key |
| GameHelpers.ProductMember | src/lib/gameHelpers.ts:92-96 | a product yields exactly the pairs of an object of each bin |
| GameHelpers.CandidatesMember | src/lib/gameHelpers.ts:81 | a pair is yielded exactly when some bin yields it |
| GameHelpers.NoCrossAsWritten | src/lib/gameHelpers.ts:70-91 | with the `", "` keys `adjacency` builds, no neighbour lookup finds a bin, so a bin yields only its own pairs |
| GameHelpers.AsWrittenCandidates | src/lib/gameHelpers.ts:70-98 | as written, the pairs yielded are exactly the pairs of distinct objects in the same cell |
| GameHelpers.Candidates | src/lib/gameHelpers.ts:81-97 | the pairs the bin loop yields; `GameHelpers.CandidatesMember`, `AsWrittenCandidates`, `CandidatesSound` and `IntendedCandidates` state which |
| GameHelpers.CandidatesSound | src/lib/gameHelpers.ts:81-98 | every yielded pair is two objects in the same cell, earlier first, or in a cell and one of its four named neighbours |
| GameHelpers.WithinIncluded | src/lib/gameHelpers.ts:83-87 | every pair of objects in the same cell is yielded |
| GameHelpers.CrossIncluded | src/lib/gameHelpers.ts:89-96 | every pair of objects in a cell and one of its named neighbours is yielded |
| GameHelpers.FloorNear | src/lib/gameHelpers.ts:78 | two coordinates at most one cell size apart fall in the same or adjacent cells |
| GameHelpers.NeighboursCompared | src/lib/gameHelpers.ts:63-98 | with comma-joined neighbour keys, two objects at most one cell size apart on each axis are paired in one order or the other |
| GameHelpers.NotOwnNeighbour | src/lib/gameHelpers.ts:67-73 | no cell is its own neighbour |
| GameHelpers.CandidatesDistinct | src/lib/gameHelpers.ts:81-98 | with comma-joined neighbour keys, no object is paired with itself |
| GameHelpers.PossibleCollisions | src/lib/gameHelpers.ts:59-98 | as written, `possibleCollisions` yields exactly the pairs of distinct objects whose centres share a cell of side `maxr` |
| GameHelpers.PossibleCollisionsIntended | src/lib/gameHelpers.ts:28-98 | with comma-joined neighbour keys and cells twice the largest radius, every two touching objects are paired, and every pair names two distinct objects |
| GameHelpers.AllRadiiBelow | src/lib/gameHelpers.ts:57-62 | the cell size, given or computed, bounds every radius |
| GameHelpers.TouchNear | src/lib/gameHelpers.ts:30-33 | two touching objects whose radii are at most s have centres at most 2s apart on each axis |
| GameHelpers.IntendedCandidates | src/lib/gameHelpers.ts:32-41 | with cells of side 2s and comma-joined keys, every touching pair is yielded and no object is paired with itself |
| GameHelpers.AsWrittenMissesNeighbour | src/lib/gameHelpers.ts:70-78 | two touching unit circles centred at (0,0) and (1,0) land in neighbouring cells and are never paired |
| GameHelpers.AsWrittenCellTooSmall | src/lib/gameHelpers.ts:32-78 | two touching circles of radius 2 centred at (1,0) and (4,0) land two cells apart even with comma-joined keys, and are never paired |
| GameHelpers.CellsCompared | src/lib/gameHelpers.ts:63-96 | with comma-joined neighbour keys, two objects in the same or adjacent cells are paired in one order or the other |
| GameHelpers.TouchingCompared | src/lib/gameHelpers.ts:30-96 | with cells of side 2s and comma-joined keys, two touching objects of radius at most s are paired in one order or the other |
| ReactUtil.SkipNonWord | src/lib/reactUtil.tsx:39 | a run of non-word characters matched by `\W+` is consumed up to the next word character |
| ReactUtil.DashRuns | src/lib/reactUtil.tsx:39 | `replace(/\W+/g, "-")` empties only the empty string and keeps a leading word character or turns the leading run into one dash |
| ReactUtil.SplitCamel | src/lib/reactUtil.tsx:39 | `replace(/([a-z\d])([A-Z])/g, "$1-$2")` keeps the first character |
| ReactUtil.KeepAppend | src/lib/reactUtil.tsx:39 | the word characters of a concatenation are those of each part |
| ReactUtil.SkipNonWordKeeps | src/lib/reactUtil.tsx:39 | consuming a non-word run loses no word character |
| ReactUtil.DashRunsDashed | src/lib/reactUtil.tsx:39 | after the first replacement only word characters and single dashes remain |
| ReactUtil.DashRunsKeeps | src/lib/reactUtil.tsx:39 | the first replacement keeps every word character in order |
| ReactUtil.DashRunsFixed | src/lib/reactUtil.tsx:39 | the first replacement leaves a string of word characters and single dashes unchanged |
| ReactUtil.SplitCamelShape | src/lib/reactUtil.tsx:39 | after the second replacement no lower-case letter or digit is followed by a capital, and only dashes were added |
| ReactUtil.SplitCamelFixed | src/lib/reactUtil.tsx:39 | the second replacement changes a string exactly when it has a lower-or-digit-then-capital boundary |
| ReactUtil.SplitCamelDashed | src/lib/reactUtil.tsx:39 | the second replacement keeps a string of word characters and single dashes so |
| ReactUtil.CamelToDash | src/lib/reactUtil.tsx:38-40 | `camelToDash` as its two regular-expression replacements; `ReactUtil.CamelToDashShape`, `CamelToDashIdempotent` and the two example lemmas state its contract |
| ReactUtil.CamelToDashShape | src/lib/reactUtil.tsx:38-40 | `camelToDash` yields word characters and single dashes, splits every camel boundary and keeps every word character in order |
| ReactUtil.CamelToDashIdempotent | src/lib/reactUtil.tsx:38-40 | applying `camelToDash` twice gives what applying it once gives |
| ReactUtil.NameWithout | src/lib/reactUtil.tsx:26-40 | a property name from `camelToDash` holds no non-word character but the dash, so never `:`, `;` or a newline |
| ReactUtil.DeclarationsSnoc | src/lib/reactUtil.tsx:25-27 | one more entry appends its `name:value;` declaration |
| ReactUtil.ParseOneStyle | src/lib/reactUtil.tsx:23-29 | the loop builds the rule `selector {declarations}` with one declaration per entry in order |
| ReactUtil.Rule | src/lib/reactUtil.tsx:23-29 | the rule `selector {declarations}`; `ReactUtil.ParseOneStyle` is proved against it and `ReactUtil.DeclarationsSplit` recovers the declarations from it |
| ReactUtil.DeclarationBodies | src/lib/reactUtil.tsx:25-26 | there is one declaration per style entry |
| ReactUtil.DeclarationsWithout | src/lib/reactUtil.tsx:25-27 | a character that is in no value and that `camelToDash` never emits is absent from the declarations |
| ReactUtil.DeclarationsSplit | src/lib/reactUtil.tsx:25-27 | when no value holds `;`, splitting the declarations at `;` gives back each `name:value` in order, then an empty tail |
| ReactUtil.DeclarationBodySplit | src/lib/reactUtil.tsx:26 | when the value holds no `:`, a declaration splits at `:` into the dashed name and the value |
| ReactUtil.Rules | src/lib/reactUtil.tsx:32-33 | there is one rule per selector |
| ReactUtil.Stylesheet | src/lib/reactUtil.tsx:31-36 | the rules joined by newlines; `ReactUtil.StylesheetLines` states that they split back |
| ReactUtil.StylesheetLines | src/lib/reactUtil.tsx:31-36 | when no selector or value holds a newline, the stylesheet splits at newlines into exactly its rules in order |
| ReactUtil.MainStylesheet | src/lib/reactUtil.tsx:51-52 | `Main` renders a stylesheet exactly when given a style, and it is the single rule for `body>main` |
| ReactUtil.CamelToDashKeepsCase | src/lib/reactUtil.tsx:38-40 | `camelToDash("zIndex")` is "z-Index": the capital stays |
| ReactUtil.CamelToDashJoinsRuns | src/lib/reactUtil.tsx:38-40 | `camelToDash("a  b")` is "a-b": a run of spaces becomes one dash |
| MatchGame.MatchGame.constructor | src/components/Match3/MatchGame.tsx:20-42 | 8 columns of 8 tiles, ids 0 to 63 given column by column, each content one character of the 62-character alphabet; `nextId` ends at 64 |
| MatchGame.MatchGame.NewTile | src/components/Match3/MatchGame.tsx:46-50 | the new tile gets the old `nextId` and the picked character; `nextId` goes up by one |
| MatchGame.MatchGame.DeleteTile | src/components/Match3/MatchGame.tsx:51-55 | column x loses tile y, later tiles move down and a new tile is appended; other columns, the column length and distinct ids are kept; one forced update |
| MatchGame.MatchGame.RenderTiles | src/components/Match3/MatchGame.tsx:56-67 | 64 tiles, row 7 down to row 0 and within a row column 0 to 7, each keyed by its id and placed at its x and y |
| MatchGame.RowColumn | src/components/Match3/MatchGame.tsx:57-58 | position k of the render order is column k mod 8 of row k div 8 |
| MatchGame.DeletePreservesIds | src/components/Match3/MatchGame.tsx:49-53 | a delete with a fresh id keeps the grid 8 by 8 with pairwise distinct ids, all below the next id |
| Match3Tile.RenderStep | src/components/Match3/Tile.tsx:23-26 | a render at a row other than `prev_y` starts the fall and records the row; a render at the same row changes nothing |
| Match3Tile.EndStep | src/components/Match3/Tile.tsx:32-34 | the end of the animation stops the fall and keeps `prev_y` |
| Match3Tile.StyleOf | src/components/Match3/Tile.tsx:41-47 | the `drop1` animation for 1s exactly while falling, otherwise no style |
| Match3Tile.PrevYIsLastRender | src/components/Match3/Tile.tsx:23-34 | after any sequence of events, `prev_y` is the row of the last render |
| Match3Tile.SameRowStaysStill | src/components/Match3/Tile.tsx:23-26 | a tile at rest rendered again and again at its row never starts falling |
| Match3Tile.Tile.constructor | src/components/Match3/Tile.tsx:19-21 | `falling` starts false and `prev_y` starts at -1 |
| Match3Tile.Tile.SetFalling | src/components/Match3/Tile.tsx:19-20 | writing the render-affecting `falling` requests an update exactly when the value changes after the first render |
| Match3Tile.Tile.Render | src/components/Match3/Tile.tsx:22-40 | `useRender` applies the render step, requests an update only when it starts a fall, and returns the style of the new state |
| Match3Tile.Tile.OnAnimationEnd | src/components/Match3/Tile.tsx:32-34 | the animation end stops the fall and requests an update when the tile was falling |
| Match3Tile.Tile.OnClick | src/components/Match3/Tile.tsx:29-31 | a click calls `del(x, y)` with the tile's props |
| Match3TileLive.LiveRenderStep | src/Match3/Tile.tsx:113-115 | a render at a row other than `prev_y` starts the fall; `prev_y` is never written |
| Match3TileLive.PrevYNeverChanges | src/Match3/Tile.tsx:111-123 | from the initial state, `prev_y` stays -1 whatever happens |
| Match3TileLive.PrevYKept | src/Match3/Tile.tsx:113-123 | no event changes `prev_y` |
| Match3TileLive.RenderOffRowFalls | src/Match3/Tile.tsx:111-115 | every render at a row other than -1 leaves the tile falling, whatever came before |
| Match3TileLive.RenderOnRowKeeps | src/Match3/Tile.tsx:111-115 | a render at row -1 changes nothing |
| Match3TileLive.LiveRunSnoc | src/Match3/Tile.tsx:112-123 | the events are applied one at a time in order |
| Match3TileLive.LiveTile.constructor | src/Match3/Tile.tsx:109-111 | `falling` starts false and `prev_y` starts at -1 |
| Match3TileLive.LiveTile.Render | src/Match3/Tile.tsx:112-129 | `useRender` applies the live render step, requests an update when it starts a fall, and returns the style of the new state |
| Match3TileLive.LiveTile.OnAnimationEnd | src/Match3/Tile.tsx:121-123 | the animation end stops the fall and requests an update when the tile was falling |
| Match3TileLive.LiveTile.OnClick | src/Match3/Tile.tsx:118-120 | a click calls `del(x, y)` with the tile's props |
| Asteroids.TimeoutCallback.constructor | src/Asteroids/Game.tsx:13-14 | the counter starts at the initial wait and the callback has not been called |
| Asteroids.TimeoutCallback.Updater | src/Asteroids/Game.tsx:15-20 | the counter drops by the elapsed time and gains each callback result until it is non-negative; no call when it stays non-negative, and before the last call it was still negative |
| HookCompExamples.UpdatePos | src/lib/HookCompExamples.tsx:18-38 | "w", "a", "s" and "d" move one step up, left, down and right into a new object; any other key returns the same object |
| HookCompExamples.UpdatePosChange | src/lib/HookCompExamples.tsx:18-38 | the result differs from the input exactly for the four movement keys, and then it is one unit step away |
| HookCompExamples.InstVarsComponent.constructor | src/lib/HookCompExamples.tsx:102-103 | the position starts at (0, 0) |
| HookCompExamples.InstVarsComponent.HandleKey | src/lib/HookCompExamples.tsx:105-107 | a key press replaces `loc` with `updatePos(loc, key)` |
| HookCompExamples.Counter.constructor | src/lib/HookCompExamples.tsx:148 | the message starts as "hello " |
| HookCompExamples.Counter.Handle | src/lib/HookCompExamples.tsx:152-155 | each key appends a space and then the key to the message |
| SongPage.FirstPdf | src/GLEEEEE/SongPage.tsx:23 | `files.find(endsWith(".pdf"))` is undefined exactly when no file is a PDF, and otherwise the first PDF in listing order |
| SongPage.IsValidAudio | src/GLEEEEE/SongPage.tsx:6-8 | a name ending in ".mp3", ".m4a" or ".wav"; `SongPage.PdfIsNotAudio` states that a PDF never is |
| SongPage.AudioFiles | src/GLEEEEE/SongPage.tsx:25 | `files.filter(isValidAudio)`; `SongPage.AudioFilesMembers` and `AudioFilesConcat` state its members and order |
| SongPage.AudioFilesMembers | src/GLEEEEE/SongPage.tsx:6-25 | the audio files are exactly the listed files ending in ".mp3", ".m4a" or ".wav" |
| SongPage.AudioFilesConcat | src/GLEEEEE/SongPage.tsx:25 | filtering keeps the listing order |
| SongPage.PdfIsNotAudio | src/GLEEEEE/SongPage.tsx:6-23 | a PDF is never taken for an audio file |
| SongPage.SongPage.constructor | src/GLEEEEE/SongPage.tsx:10-19 | the root folder is `/gleemusic/<songname>/`; no audio files and no lyrics until the listing arrives |
| SongPage.SongPage.FetchFiles | src/GLEEEEE/SongPage.tsx:21-26 | with the listing given, the lyrics file is the first PDF and the audio files are the valid audio files; the lyrics file is never among them |
| SongPage.SongPage.AudioSources | src/GLEEEEE/SongPage.tsx:32-35 | one `<audio>` source per audio file, in order, each `rootFolder + file` |
| SongPage.SongPage.GetLyrics | src/GLEEEEE/SongPage.tsx:45-57 | "Cannot find lyrics" exactly when there is no lyrics file, otherwise a PDF embed of `rootFolder + lyricsFile` |

## Left out

- The renderer: `useRef`, `useReducer`, `useState`, `useEffect`, `forwardRef`, `useImperativeHandle`, `defaultProps` merging and display names. A render is a method call, a re-render request a counter, the ref an optional field.
- `Proxy`, `Reflect`, property descriptors and decorators: each becomes an explicit method over a map of fields or a sequence of prototypes.
- lib/oldHookCls/hooklib3.tsx is not part of this model: it is reflection plumbing around forward refs.
- `useState` of lib/reduxlib.ts (a revocable proxy that records dependents) and `ReactDOM.unstable_batchedUpdates` are foreign calls; dependents are callback numbers and a call is recorded, not run, so a dependent that dispatches again is not modelled.
- Redux.StoreHelpers.Act: the callback is a script of dispatches, nested `Act` calls and a throw (`Step`), not arbitrary code.
- Redux.StoreHelpers.Act: states how many notifications happen and the fields and dependents afterwards, but not which dependents each notification calls; `Redux.StoreHelpers.Update` states that for a single dispatch.
- Redux.StoreHelpers.Reduce: requires every section named in an action to exist, as the TypeScript types demand of callers; the `TypeError` on a missing section is not modelled.
- The Promise branch of the driver in src/lib/MAYBEWAIT.ts (`result.value.then(next)`) is modelled only as the promise waited on; what happens after it resolves is not.
- `wait`, `waitUntilIdle` and `useIntermittentUpdate`, Popout and the network and file calls (`fetchFolderContent`) are timing or I/O; the song listing is a parameter of `SongPage.SongPage.FetchFiles`.
- `setTimeout`/`clearTimeout` in src/lib/oldHookCls/hooklib2.tsx are a handle counter and a set of live handles; the delay is not modelled.
- JavaScript `===` is equality of modelled values; `NaN` and `-0` are not modelled.
- Initializers are modelled as the value they produce; a fresh object per instance is not distinguished from a shared one.
- `DOMTokenList.add` and `remove` are set insertion and removal; the error an empty class token raises is not modelled.
- Floating point: coordinates and radii in src/lib/gameHelpers.ts are integers, and `Number` parses decimal integers only; asteroid motion in src/Asteroids/Game.tsx is not modelled.
- GameHelpers.PossibleCollisions: requires a positive cell size when there are objects (`Usable`); a `maxr` of zero or below makes JavaScript divide by zero and key the bins with `Infinity` or `NaN`.
- GameHelpers.PossibleCollisions: pairs are pairs of indices into the list, not the objects themselves, and the whole sequence is computed rather than yielded lazily.
- CSS values are strings already formatted by the caller; the numeric-key ordering of `Object.entries` is not modelled (keys stay in insertion order).
- `Math.random` in `newTile` is a parameter: the index of the picked character.
- MatchGame.MatchGame.DeleteTile: requires `x` and `y` inside the grid, as its only caller (a tile's click handler) guarantees; an out-of-range `y` would grow the column.
- Asteroids.TimeoutCallback.Updater: requires every later callback result to be positive; otherwise the source's loop need not end.
- HookCompExamples.UpdatePos: requires the identity given to the new object to differ from the input's, since JavaScript allocates a fresh object.
- Strings.Split: splits at a single character, the only kind of separator the sources use.

## Findings

| source | as written | input that shows it | evidently intended | confidence | as-written member | corrected member |
|---|---|---|---|---|---|---|
| src/lib/gameHelpers.ts:70-73, 78, 90 | `adjacency` builds neighbour keys as `` `${x}, ${y}` `` while bins are keyed `` `${x},${y}` ``, so no neighbouring bin is ever found | two touching unit circles at (0,0) and (1,0), cell size 1: bins "0,0" and "1,0", neighbour key "1, 0"; the pair is never yielded | neighbour keys written with the same `","` separator as bin keys | not executed | GameHelpers.AsWrittenMissesNeighbour | GameHelpers.PossibleCollisionsIntended |
| src/lib/gameHelpers.ts:32, 61, 78 | the cell side is `maxr`, the largest radius, while the design asks for at least twice it; touching objects can then sit two cells apart | circles of radius 2 at (1,0) and (4,0), touching: bins "0,0" and "2,0", never compared even with comma keys | cells of side `2 * maxr` | not executed | GameHelpers.AsWrittenCellTooSmall | GameHelpers.PossibleCollisionsIntended |
