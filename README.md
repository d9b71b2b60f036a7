# NielsenNzme instance registry, in Dafny

`NielsenNzme` is the Android side of a React Native bridge to the Nielsen
App SDK. Almost every method passes the call straight to an SDK handle. The
module's own logic is small:

- a registry `mAppSdkInstances` maps generated identifiers (`Instance_0`,
  `Instance_1`, ...) to SDK handles. `createInstance` adds to it;
  `removeInstance` and `free` close a handle and delete its entry;
  `getInstance` looks one up.
- one guard, `null != id && getInstance(id) != null`, protects every
  forwarding and query method.
- `readableMapToJSONObject` copies a JavaScript object, key by key, into
  the `JSONObject` the SDK expects.

This project models those parts and proves what they do. The layout is:

- `java_lang.dfy` (module `JavaLang`): null references, and the text Java
  gives a non-negative `int` and a `boolean` in string concatenation.
- `marshalling.dfy` (module `Marshalling`): `readableMapToJSONObject` as a
  `while` loop. The function `CopyFrom` specifies it, and lemmas about that
  function state what the conversion yields.
- `instance_ids.dfy` (module `InstanceIds`): the size-derived naming rule
  `"Instance_" + size`. It covers what the rule guarantees while entries are
  only added, how it breaks after a removal, and a corrected rule.
- `nielsen_nzme.dfy` (module `Bridge`): `AppSdk` handles are objects. The
  class `NielsenNzme` holds the registry `instances`, a log `calls` of every
  call made into the SDK (the construction of a handle and its `isValid()`
  check, every forwarded call and query, `close()`, and the two static
  calls), and a log `events` of every event emitted to JavaScript as (event
  name, payload key, payload value). Its invariant `Valid()` says four
  things about every registered handle: it reported itself valid, it sits
  under one identifier only, it has not been closed, and its identifier
  was announced by an `EVENT_INIT`.

The SDK is a black box, so anything it returns is a parameter of the model:

- `accepted` is what `isValid()` reports for a newly built handle.
- `url`, `optedOut`, `nielsenId`, `demographicId`, `disabled` and `version`
  are the query answers.

Two points where the code says more than its comments:

- The Javadoc of `readableMapToJSONObject`
  (NielsenNzme.java:137-143) promises the mapped object "if successful,
  empty otherwise". The code does neither in its two failure cases. A
  `JSONException` from `put` is caught after the loop (:152-155), and the
  object is returned with the keys copied before the failure, not empty.
  A value that cannot be read as a string makes `asString()` (:150) throw
  an exception that is not a `JSONException`. It escapes the conversion and
  reaches the caller's `catch (Exception)`, so the whole `createInstance`,
  `play`, `loadMetadata` or `updateOTT` call is abandoned and no object is
  returned at all. The model follows the code, and
  `Marshalling.ConvertedStopsAtFirstFailure` states both cases.
- The registry is a `HashMap` (:33), so nothing depends on the order of its
  entries. The model uses an unordered `map`.

## Model

| member | source | states |
|---|---|---|
| `JavaLang.Decimal` | android/src/main/java/com/nzme/nielsen/NielsenNzme.java:94 | the text of `size()` in `"Instance_" + size` is a non-empty run of decimal digits with no leading zero, whose last digit is `n % 10`; one character exactly when `n < 10` |
| `JavaLang.DecimalInjective` | android/src/main/java/com/nzme/nielsen/NielsenNzme.java:94 | two different sizes never render as the same text |
| `JavaLang.BoolText` | android/src/main/java/com/nzme/nielsen/NielsenNzme.java:318 | `"" + b` is `"true"` exactly when `b` holds, and `"false"` otherwise |
| `Marshalling.ReadableMapToJsonObject` | android/src/main/java/com/nzme/nielsen/NielsenNzme.java:144-156 | the key-by-key copy loop ends exactly as the specification `Converted` says: it returns the object filled so far, or the exception escapes |
| `Marshalling.CopyAllText` | android/src/main/java/com/nzme/nielsen/NielsenNzme.java:147-151 | from any partly filled object, copying string values with distinct keys returns an object whose keys are the old keys plus the copied ones; each copied key is bound to its own value, and each untouched old key keeps its value |
| `Marshalling.ConvertedAllText` | android/src/main/java/com/nzme/nielsen/NielsenNzme.java:145-155 | a map of strings converts to an object with exactly the input's keys, each bound to its string value; an empty map gives an empty object |
| `Marshalling.ConvertedOrderIrrelevant` | android/src/main/java/com/nzme/nielsen/NielsenNzme.java:147-151 | any two iteration orders of the same string entries give the same object |
| `Marshalling.CopyStopsAtFirstFailure` | android/src/main/java/com/nzme/nielsen/NielsenNzme.java:146-155 | from any partly filled object, the first entry that is not a string decides the outcome: a non-string value makes the conversion throw; a rejected `put` returns what the entries before it gave |
| `Marshalling.ConvertedStopsAtFirstFailure` | android/src/main/java/com/nzme/nielsen/NielsenNzme.java:146-155 | a non-string value is not skipped: the conversion throws. A `JSONException` from `put` ends the loop, and the keys copied before it are returned |
| `Marshalling.CopyAllTextReturns` | android/src/main/java/com/nzme/nielsen/NielsenNzme.java:147-151 | with only string values the loop always returns normally, even when keys repeat |
| `InstanceIds.InstanceId` | android/src/main/java/com/nzme/nielsen/NielsenNzme.java:32 | every generated identifier begins with the prefix `Instance_` and has something after it |
| `InstanceIds.InstanceIdInjective` | android/src/main/java/com/nzme/nielsen/NielsenNzme.java:94 | different counts give different identifiers |
| `InstanceIds.IdsBelowNext` | android/src/main/java/com/nzme/nielsen/NielsenNzme.java:94 | the identifiers for counts below `n + 1` are those below `n` plus `Instance_n`, which is not among them |
| `InstanceIds.InsertKeepsDenseIds` | android/src/main/java/com/nzme/nielsen/NielsenNzme.java:94-95 | while the registry holds exactly `Instance_0` up to `Instance_(size-1)`, the next identifier is unused, `put` grows the map by one, and the identifiers stay contiguous |
| `InstanceIds.InsertFreshKey` | android/src/main/java/com/nzme/nielsen/NielsenNzme.java:95 | `put` under an unused key adds exactly that key and grows the map by one |
| `InstanceIds.InsertOverLiveId` | android/src/main/java/com/nzme/nielsen/NielsenNzme.java:94-95 | when the size-derived identifier is already live, `put` replaces that entry: same keys, same size, new handle under that identifier |
| `InstanceIds.IdReuseAfterRemoval` | android/src/main/java/com/nzme/nielsen/NielsenNzme.java:94-95 | two creations give `Instance_0` and `Instance_1`, and removing `Instance_0` leaves only `Instance_1`. The next creation is again named `Instance_1`: it replaces the second handle, and the map stays at size 1 |
| `InstanceIds.FreshIndex` | android/src/main/java/com/nzme/nielsen/NielsenNzme.java:94 | the search from `n` returns the least index at least `n` whose identifier is not in the used set: every index it skips is in use |
| `InstanceIds.FreshInstanceId` | android/src/main/java/com/nzme/nielsen/NielsenNzme.java:94 | corrected rule: the identifier is neither live nor ever announced before, it equals the source's `"Instance_" + size` whenever that qualifies, and it keeps the `Instance_` form |
| `Bridge.AppSdk.constructor` | android/src/main/java/com/nzme/nielsen/NielsenNzme.java:89 | a new handle records its configuration and what `isValid()` reports |
| `Bridge.NielsenNzme.constructor` | android/src/main/java/com/nzme/nielsen/NielsenNzme.java:33 | the module starts with an empty registry, no SDK calls and no events |
| `Bridge.NielsenNzme.GetInstance` | android/src/main/java/com/nzme/nielsen/NielsenNzme.java:163-175 | returns non-null exactly when `id` is non-null and registered, and then it returns the handle under `id`; as a function it cannot change the registry |
| `Bridge.NielsenNzme.CreateInstance` | android/src/main/java/com/nzme/nielsen/NielsenNzme.java:86-103 | when the conversion throws, nothing is built and nothing changes. Otherwise a fresh handle is built from the converted configuration, and its construction and `isValid()` check are logged. A valid handle is stored under `"Instance_" + old size` (replacing any entry there), and exactly one `EVENT_INIT` with `{"id": id}` is appended. An invalid handle is dropped: it is not registered, it is never closed, and registry and events are unchanged. The invariant is kept |
| `Bridge.NielsenNzme.BuildHandle` | android/src/main/java/com/nzme/nielsen/NielsenNzme.java:89-90 | a fresh handle with the given configuration and validity; its construction and `isValid()` are logged, in that order; it is in no entry and has never been closed |
| `Bridge.NielsenNzme.Register` | android/src/main/java/com/nzme/nielsen/NielsenNzme.java:94-98 | `put(id, h)` followed by one `EVENT_INIT` carrying `id`; no SDK call; the invariant is kept for a valid, unregistered, unclosed handle |
| `Bridge.NielsenNzme.CreateInstanceWithFreshId` | android/src/main/java/com/nzme/nielsen/NielsenNzme.java:86-103 | createInstance under the corrected naming rule: the same logged calls and the same failure cases; on success the identifier is neither live nor announced by any earlier `EVENT_INIT`, the registry grows by exactly one, and no handle is displaced |
| `Bridge.NielsenNzme.RemoveInstance` | android/src/main/java/com/nzme/nielsen/NielsenNzme.java:110-123 | for a non-null registered id, the map becomes `old - {id}` and exactly one `close` on the old handle is appended, after which that handle has been closed exactly once. For a null or absent id, the registry and call log are unchanged. A later lookup reports absence, and events never change |
| `Bridge.NielsenNzme.Free` | android/src/main/java/com/nzme/nielsen/NielsenNzme.java:439-449 | the same effect on registry, call log and events as `RemoveInstance`, for present and for absent ids |
| `Bridge.NielsenNzme.CloseAndForget` | android/src/main/java/com/nzme/nielsen/NielsenNzme.java:113-115 | closes the handle under a registered key once (never closed before) and deletes the entry |
| `Bridge.NielsenNzme.ForwardToInstance` | android/src/main/java/com/nzme/nielsen/NielsenNzme.java:186-188 | the common guard: one call on the handle when `id` resolves, none otherwise. The registry and events are unchanged |
| `Bridge.NielsenNzme.QueryInstance` | android/src/main/java/com/nzme/nielsen/NielsenNzme.java:300-303 | the common query guard: when `id` resolves, one call on the handle and one event carrying the answer; otherwise neither. The registry is unchanged |
| `Bridge.NielsenNzme.Play` | android/src/main/java/com/nzme/nielsen/NielsenNzme.java:183-193 | `play` with the converted object is called iff `id` resolves and the conversion returns; the registry and events are unchanged |
| `Bridge.NielsenNzme.LoadMetadata` | android/src/main/java/com/nzme/nielsen/NielsenNzme.java:201-211 | `loadMetadata` with the converted object is called iff `id` resolves and the conversion returns; the registry and events are unchanged |
| `Bridge.NielsenNzme.SendId3` | android/src/main/java/com/nzme/nielsen/NielsenNzme.java:219-228 | `sendID3(payload)` is called iff `id` resolves; the registry and events are unchanged |
| `Bridge.NielsenNzme.AppDisableApi` | android/src/main/java/com/nzme/nielsen/NielsenNzme.java:236-245 | `appDisableApi(disabled)` is called iff `id` resolves; the registry and events are unchanged |
| `Bridge.NielsenNzme.SetPlayheadPosition` | android/src/main/java/com/nzme/nielsen/NielsenNzme.java:253-262 | `setPlayheadPosition(position)` is called iff `id` resolves; the registry and events are unchanged |
| `Bridge.NielsenNzme.Stop` | android/src/main/java/com/nzme/nielsen/NielsenNzme.java:267-276 | `stop` is called iff `id` resolves; the registry and events are unchanged |
| `Bridge.NielsenNzme.End` | android/src/main/java/com/nzme/nielsen/NielsenNzme.java:281-290 | `end` is called iff `id` resolves; the registry and events are unchanged |
| `Bridge.NielsenNzme.UserOptOutUrlString` | android/src/main/java/com/nzme/nielsen/NielsenNzme.java:296-307 | iff `id` resolves: one `userOptOutURLString` call and one `EVENT_OPTOUT_URL` with `{"optouturl": url}`. The registry is unchanged |
| `Bridge.NielsenNzme.GetOptOutStatus` | android/src/main/java/com/nzme/nielsen/NielsenNzme.java:313-324 | iff `id` resolves: one `getOptOutStatus` call and one `EVENT_OPTOUT_STATUS` with `{"user_optout": "true"/"false"}`. The registry is unchanged |
| `Bridge.NielsenNzme.GetNielsenId` | android/src/main/java/com/nzme/nielsen/NielsenNzme.java:330-341 | iff `id` resolves: one `getNielsenId` call and one `EVENT_NIELSEN_ID` with `{"nielsen_id": ...}`. The registry is unchanged |
| `Bridge.NielsenNzme.GetDemographicId` | android/src/main/java/com/nzme/nielsen/NielsenNzme.java:347-358 | iff `id` resolves: one `getDemographicId` call and one `EVENT_DEMOGRAPHIC_ID` with `{"demographic_id": ...}`. The registry is unchanged |
| `Bridge.NielsenNzme.GetMeterVersion` | android/src/main/java/com/nzme/nielsen/NielsenNzme.java:360-370 | whatever `id` is, one static meter-version call and one `EVENT_METER_VERSION` with `{"meter_version": version}`. The registry is unchanged |
| `Bridge.NielsenNzme.GetAppDisable` | android/src/main/java/com/nzme/nielsen/NielsenNzme.java:372-383 | iff `id` resolves: one `getAppDisable` call and one `EVENT_APP_DISABLE` with `{"app_disable": "true"/"false"}`. The registry is unchanged |
| `Bridge.NielsenNzme.SetDebug` | android/src/main/java/com/nzme/nielsen/NielsenNzme.java:385-392 | one static `setDebug(level)` call; the registry and events are unchanged |
| `Bridge.NielsenNzme.Suspend` | android/src/main/java/com/nzme/nielsen/NielsenNzme.java:394-403 | `suspend` is called iff `id` resolves; the registry and events are unchanged |
| `Bridge.NielsenNzme.AppInBackground` | android/src/main/java/com/nzme/nielsen/NielsenNzme.java:405-414 | `appInBackground` is called iff `id` resolves; the registry and events are unchanged |
| `Bridge.NielsenNzme.AppInForeground` | android/src/main/java/com/nzme/nielsen/NielsenNzme.java:416-425 | `appInForeground` is called iff `id` resolves; the registry and events are unchanged |
| `Bridge.NielsenNzme.UpdateOtt` | android/src/main/java/com/nzme/nielsen/NielsenNzme.java:427-437 | `updateOTT` with the converted object is called iff `id` resolves and the conversion returns; the registry and events are unchanged |
| `Bridge.TwoCreations` | android/src/main/java/com/nzme/nielsen/NielsenNzme.java:86-103 | two creations on a new module register two distinct handles as `Instance_0` and `Instance_1`, announce both, and log their constructions and checks |
| `Bridge.RemoveFirst` | android/src/main/java/com/nzme/nielsen/NielsenNzme.java:110-123 | removing `Instance_0` from that registry closes the first handle and leaves `{"Instance_1": second}` |
| `Bridge.CreateOverSecond` | android/src/main/java/com/nzme/nielsen/NielsenNzme.java:94-95 | the next creation on `{"Instance_1": second}` builds a new handle, stores it under `Instance_1` again, and announces `Instance_1` a second time |
| `Bridge.IdReuseScenario` | android/src/main/java/com/nzme/nielsen/NielsenNzme.java:94-95 | run through the module's own methods: create, create, remove `Instance_0`, create. Three distinct handles are built. The registry ends as `{"Instance_1": third}`. JavaScript has received `EVENT_INIT` for `Instance_0`, `Instance_1` and `Instance_1` again. The only `close` is on the first handle, so the second handle left the registry without ever being closed |

## Findings

| source | as written | input that shows it | evidently intended | confidence | as-written member | corrected member |
|---|---|---|---|---|---|---|
| android/src/main/java/com/nzme/nielsen/NielsenNzme.java:94-95 | the new id is `"Instance_" + mAppSdkInstances.size()`, stored with `put` | `createInstance`, `createInstance`, `removeInstance("Instance_0")`, `createInstance`: the third handle gets `Instance_1` and replaces the live second handle, which is never closed | every successful `createInstance` adds an entry under an identifier that no live entry has and that was never announced before, so that one identifier never stands for two handles | high (not executed) | `InstanceIds.IdReuseAfterRemoval` | `InstanceIds.FreshInstanceId` |

`Bridge.NielsenNzme.CreateInstance` keeps the code's rule, since it models
the module as written. `Bridge.NielsenNzme.CreateInstanceWithFreshId` is the
same operation under the corrected rule.

## Left out

- The Nielsen App SDK is not part of this model. That covers what the
  `AppSdk` constructor, `isValid`, every forwarded operation, `close`, the
  getters, and the static `getMeterVersion` and `setDebug` do inside the
  SDK. A handle is an object that records its configuration and validity.
  Calls into the SDK are entries of `calls`, and the SDK's answers are
  parameters.
- `Bridge.NielsenNzme.UserOptOutUrlString`, `Bridge.NielsenNzme.GetNielsenId`,
  `Bridge.NielsenNzme.GetDemographicId` and `Bridge.NielsenNzme.GetMeterVersion`:
  the SDK's string answers (:301, :335, :352, :365) are taken to be
  non-null. A null answer, which `putString` would pass on as a JSON null,
  is not modelled.
- React Native plumbing is left out: the `RCTDeviceEventEmitter` lookup in
  `emitEvent`, `Arguments.createMap`, `getName`, `onAppSdkEvent`, and the
  empty `addListener` and `removeListeners`. An emitted event is one entry
  of `events`. The `null != params` check in `emitEvent` always passes,
  because every caller builds `params` with `createMap`.
- Logging is left out, and so are exceptions thrown inside the SDK and
  swallowed by the blanket `catch (Exception)`. Every SDK call is taken to
  return normally. The one exception the model does follow is the one from
  reading a non-string map value.
- `Marshalling.Dynamic`: the model does not decide which entries make React
  Native's `asString()` or org.json's `put` throw. Each entry carries that
  outcome. JavaScript `null` values and a null `ReadableMap` are not
  modelled.
- `Bridge.NielsenNzme.SetPlayheadPosition`: the `Double` to `long`
  conversion is floating point, so the model takes the already converted
  position. A null `Double` is not modelled.
- `Bridge.NielsenNzme.SendId3`: a null payload string is not modelled. The
  payload is passed through as given.
- `Bridge.NielsenNzme.GetOptOutStatus` and
  `Bridge.NielsenNzme.GetAppDisable`: the SDK getters are taken to return
  a `boolean`, rendered as `"true"` or `"false"`. The SDK's signatures are
  not part of this model.
- `JavaLang.Decimal`: `size()` is a Java `int`. The model uses an unbounded
  count, since a registry of 2^31 entries is out of reach.
- The relative order of SDK calls and events is not recorded. They are two
  separate logs.
- Concurrent use of the unsynchronised `HashMap` is left out, since bridge
  calls arrive one at a time.
- `NielsenPackage.java` (module registration), `example/src/App.tsx` (a
  demo screen) and `src/index.tsx` (a type re-export) are not part of this
  model.
