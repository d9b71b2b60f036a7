/**
  The React Native bridge module NielsenNzme: a registry of Nielsen App SDK
  handles keyed by generated identifiers, the guard every forwarding call
  goes through, and the events the module emits back to JavaScript.

  The App SDK itself is a black box. A handle is an object that remembers
  the configuration it was built from and what `isValid()` reported; every
  call the module makes into the SDK is appended to `calls`, and every
  event it emits is appended to `events` as (event name, payload key,
  payload value), since each payload carries exactly one field.
 */
module Bridge {
  import opened JavaLang
  import opened Marshalling
  import opened InstanceIds

  // Event names emitted to JavaScript.
  const EventInit := "EVENT_INIT"
  const EventOptOutUrl := "EVENT_OPTOUT_URL"
  const EventMeterVersion := "EVENT_METER_VERSION"
  const EventAppDisable := "EVENT_APP_DISABLE"
  const EventOptOutStatus := "EVENT_OPTOUT_STATUS"
  const EventDeviceId := "EVENT_DEMOGRAPHIC_ID"
  const EventNielsenId := "EVENT_NIELSEN_ID"

  // The one key of each event's payload.
  const IdKey := "id"
  const OptOutUrlKey := "optouturl"
  const MeterVersionKey := "meter_version"
  const AppDisableKey := "app_disable"
  const OptOutStatusKey := "user_optout"
  const DeviceIdKey := "demographic_id"
  const NielsenIdKey := "nielsen_id"

  /** An App SDK handle, as returned by `new AppSdk(context, config, notifier)`. */
  class AppSdk {
    const config: JsonObject
    /** What the handle's `isValid()` reports. */
    const valid: bool

    constructor (config: JsonObject, valid: bool)
      ensures this.config == config && this.valid == valid
    {
      this.config := config;
      this.valid := valid;
    }
  }

  /** A call the module makes on an App SDK handle. */
  datatype SdkOp =
    | Construct      // `new AppSdk(context, config, notifier)` built this handle
    | IsValid
    | Play(channel: JsonObject)
    | LoadMetadata(metadata: JsonObject)
    | SendId3(payload: string)
    | AppDisableApi(disabled: bool)
    | SetPlayheadPosition(position: int)
    | Stop
    | End
    | UserOptOutUrlString
    | GetOptOutStatus
    | GetNielsenId
    | GetDemographicId
    | GetAppDisable
    | Suspend
    | AppInBackground
    | AppInForeground
    | UpdateOtt(ottData: JsonObject)
    | Close

  /** A call into the App SDK: on one handle, or one of the two static calls. */
  datatype SdkCall =
    | OnInstance(target: AppSdk, op: SdkOp)
    | StaticGetMeterVersion
    | StaticSetDebug(level: char)

  /** An event emitted to JavaScript with its one-field payload. */
  datatype Event = Event(name: string, key: string, value: string)

  /** The identifiers announced so far: the payload of every EVENT_INIT in `events`. */
  function InitIds(events: seq<Event>): set<string> {
    if events == [] then {}
    else
      var e := events[|events| - 1];
      InitIds(events[..|events| - 1]) + (if e.name == EventInit then {e.value} else {})
  }

  lemma InitIdsAppend(events: seq<Event>, e: Event)
    ensures InitIds(events + [e]) == InitIds(events) + (if e.name == EventInit then {e.value} else {})
  {
    assert (events + [e])[..|events|] == events;
  }

  /**
    Every registered handle reported itself valid, belongs to one entry
    only, and has not been closed; every registered identifier was
    announced by an EVENT_INIT.
   */
  ghost predicate Consistent(instances: map<string, AppSdk>, calls: seq<SdkCall>, events: seq<Event>) {
    && instances.Keys <= InitIds(events)
    && (forall id :: id in instances ==> instances[id].valid)
    && (forall a, b :: a in instances && b in instances && a != b ==> instances[a] != instances[b])
    && (forall id :: id in instances ==> OnInstance(instances[id], Close) !in calls)
  }

  /** Registering a valid, unclosed handle that no entry holds yet, and announcing it, keeps the registry consistent. */
  lemma RegisterKeepsConsistent(instances: map<string, AppSdk>, calls: seq<SdkCall>, events: seq<Event>, id: string, h: AppSdk)
    requires Consistent(instances, calls, events)
    requires h.valid && h !in instances.Values && OnInstance(h, Close) !in calls
    ensures Consistent(instances[id := h], calls, events + [Event(EventInit, IdKey, id)])
  {
    InitIdsAppend(events, Event(EventInit, IdKey, id));
  }

  /** Logging calls that close nothing keeps the registry consistent. */
  lemma LogKeepsConsistent(instances: map<string, AppSdk>, calls: seq<SdkCall>, events: seq<Event>, more: seq<SdkCall>)
    requires Consistent(instances, calls, events)
    requires forall c :: c in more ==> !(c.OnInstance? && c.op.Close?)
    ensures Consistent(instances, calls + more, events)
  {
  }

  class NielsenNzme {
    /** mAppSdkInstances */
    var instances: map<string, AppSdk>
    /** Every call made into the App SDK, oldest first, the construction of each handle included. */
    var calls: seq<SdkCall>
    /** Every event emitted, oldest first. */
    var events: seq<Event>

    ghost predicate Valid()
      reads this
    {
      Consistent(instances, calls, events)
    }

    /** How often `h` has been closed. */
    function CloseCount(h: AppSdk): nat
      reads this
    {
      multiset(calls)[OnInstance(h, Close)]
    }

    constructor ()
      ensures Valid()
      ensures instances == map[] && calls == [] && events == []
    {
      instances := map[];
      calls := [];
      events := [];
    }

    /** getInstance: the handle registered under `id`, or null when `id` is null or unknown. */
    function GetInstance(id: Nullable<string>): (r: AppSdk?)
      reads this
      ensures r != null <==> id.NonNull? && id.value in instances
      ensures r != null ==> r == instances[id.value]
    {
      if id.NonNull? && id.value in instances then instances[id.value] else null
    }

    /**
      createInstance: convert the configuration, build a handle (`accepted`
      is what its `isValid()` reports) and, when it is valid, register it as
      `"Instance_" + size` and emit EVENT_INIT with that identifier. A
      conversion that throws builds nothing; an invalid handle is dropped
      without being registered or closed. An entry already under that
      identifier is replaced.
     */
    method CreateInstance(obj: ReadableMap, accepted: bool)
      requires Valid()
      modifies this
      ensures Valid()
      ensures Converted(obj).Threw? ==>
                instances == old(instances) && calls == old(calls) && events == old(events)
      ensures Converted(obj).Returned? ==>
                && |calls| == |old(calls)| + 2
                && calls[|old(calls)|].OnInstance?
                && var h := calls[|old(calls)|].target;
                   && fresh(h)
                   && h.config == Converted(obj).value && h.valid == accepted
                   && calls == old(calls) + [OnInstance(h, Construct), OnInstance(h, IsValid)]
                   && if accepted then
                        && instances == old(instances)[NextId(old(instances)) := h]
                        && events == old(events) + [Event(EventInit, IdKey, NextId(old(instances)))]
                      else
                        && instances == old(instances) && events == old(events)
                        && h !in instances.Values && CloseCount(h) == 0
    {
      var appSdkConfig := ReadableMapToJsonObject(obj);
      if appSdkConfig.Threw? {
        return;
      }
      var appSdk := BuildHandle(appSdkConfig.value, accepted);
      assert calls[|old(calls)|] == OnInstance(appSdk, Construct);
      if !appSdk.valid {
        return;
      }
      var id := InstancePrefix + Decimal(|instances|);
      Register(id, appSdk);
    }

    /**
      `new AppSdk(context, config, this)` followed by `isValid()`: a fresh
      handle, both calls logged, registry and events untouched.
     */
    method BuildHandle(config: JsonObject, accepted: bool) returns (h: AppSdk)
      requires Valid()
      modifies this
      ensures Valid()
      ensures fresh(h) && h.config == config && h.valid == accepted
      ensures calls == old(calls) + [OnInstance(h, Construct), OnInstance(h, IsValid)]
      ensures instances == old(instances) && events == old(events)
      ensures h !in instances.Values && CloseCount(h) == 0
    {
      h := new AppSdk(config, accepted);
      LogKeepsConsistent(instances, calls, events, [OnInstance(h, Construct), OnInstance(h, IsValid)]);
      calls := calls + [OnInstance(h, Construct), OnInstance(h, IsValid)];
      assert multiset(calls)[OnInstance(h, Close)] == 0;
    }

    /** `mAppSdkInstances.put(id, h)` followed by EVENT_INIT carrying `id`. */
    method Register(id: string, h: AppSdk)
      requires Valid() && h.valid && h !in instances.Values && CloseCount(h) == 0
      modifies this
      ensures Valid()
      ensures instances == old(instances)[id := h] && calls == old(calls)
      ensures events == old(events) + [Event(EventInit, IdKey, id)]
    {
      assert OnInstance(h, Close) !in calls;
      RegisterKeepsConsistent(instances, calls, events, id, h);
      instances := instances[id := h];
      events := events + [Event(EventInit, IdKey, id)];
    }

    /**
      createInstance with the corrected naming rule: the new handle gets an
      identifier that no live entry has and that no earlier EVENT_INIT
      announced, so no handle is ever displaced, the registry grows by one,
      and JavaScript never receives one identifier for two handles.
     */
    method CreateInstanceWithFreshId(obj: ReadableMap, accepted: bool)
      requires Valid()
      modifies this
      ensures Valid()
      ensures Converted(obj).Threw? ==>
                instances == old(instances) && calls == old(calls) && events == old(events)
      ensures Converted(obj).Returned? ==>
                && |calls| == |old(calls)| + 2
                && calls[|old(calls)|].OnInstance?
                && var h := calls[|old(calls)|].target;
                   var id := FreshInstanceId(old(instances), InitIds(old(events)));
                   && fresh(h)
                   && h.config == Converted(obj).value && h.valid == accepted
                   && calls == old(calls) + [OnInstance(h, Construct), OnInstance(h, IsValid)]
                   && if accepted then
                        && id !in old(instances) && id !in InitIds(old(events))
                        && instances == old(instances)[id := h]
                        && |instances| == |old(instances)| + 1
                        && events == old(events) + [Event(EventInit, IdKey, id)]
                      else
                        && instances == old(instances) && events == old(events)
                        && h !in instances.Values && CloseCount(h) == 0
    {
      var appSdkConfig := ReadableMapToJsonObject(obj);
      if appSdkConfig.Threw? {
        return;
      }
      var appSdk := BuildHandle(appSdkConfig.value, accepted);
      assert calls[|old(calls)|] == OnInstance(appSdk, Construct);
      if !appSdk.valid {
        return;
      }
      var id := FreshInstanceId(instances, InitIds(events));
      InsertFreshKey(instances, id, appSdk);
      Register(id, appSdk);
    }

    /**
      removeInstance: when `id` is registered, close its handle once and
      delete the entry; otherwise change nothing.
     */
    method RemoveInstance(id: Nullable<string>)
      requires Valid()
      modifies this
      ensures Valid()
      ensures events == old(events)
      ensures if id.NonNull? && id.value in old(instances) then
                && instances == old(instances) - {id.value}
                && calls == old(calls) + [OnInstance(old(instances)[id.value], Close)]
                && CloseCount(old(instances)[id.value]) == 1
              else
                instances == old(instances) && calls == old(calls)
      ensures GetInstance(id) == null
    {
      if id.NonNull? && id.value in instances {
        CloseAndForget(id.value);
      }
    }

    /**
      free: the same as removeInstance, with the guard written through
      getInstance.
     */
    method Free(id: Nullable<string>)
      requires Valid()
      modifies this
      ensures Valid()
      ensures events == old(events)
      ensures if id.NonNull? && id.value in old(instances) then
                && instances == old(instances) - {id.value}
                && calls == old(calls) + [OnInstance(old(instances)[id.value], Close)]
                && CloseCount(old(instances)[id.value]) == 1
              else
                instances == old(instances) && calls == old(calls)
      ensures GetInstance(id) == null
    {
      if id.NonNull? && GetInstance(id) != null {
        CloseAndForget(id.value);
      }
    }

    /** Close the handle under a registered identifier and delete the entry. */
    method CloseAndForget(key: string)
      requires Valid() && key in instances
      modifies this
      ensures Valid()
      ensures events == old(events)
      ensures instances == old(instances) - {key}
      ensures calls == old(calls) + [OnInstance(old(instances)[key], Close)]
      ensures CloseCount(old(instances)[key]) == 1
    {
      var h := instances[key];
      assert multiset(calls)[OnInstance(h, Close)] == 0;
      calls := calls + [OnInstance(h, Close)];
      instances := instances - {key};
    }

    /**
      The guard of every forwarding method: when `id` resolves to a handle,
      make the call on it; otherwise make no call. Registry and events stay
      as they were.
     */
    method ForwardToInstance(id: Nullable<string>, op: SdkOp)
      requires Valid() && !op.Close?
      modifies this
      ensures Valid()
      ensures instances == old(instances) && events == old(events)
      ensures var h := GetInstance(id);
              calls == if h != null then old(calls) + [OnInstance(h, op)] else old(calls)
    {
      var h := GetInstance(id);
      if id.NonNull? && h != null {
        calls := calls + [OnInstance(h, op)];
      }
    }

    /**
      The guard of every query method: when `id` resolves to a handle, ask
      it (the library answers `answer`) and emit `name` with the answer
      under `key`; otherwise neither call nor emit. The registry stays as it was.
     */
    method QueryInstance(id: Nullable<string>, op: SdkOp, name: string, key: string, answer: string)
      requires Valid() && !op.Close? && name != EventInit
      modifies this
      ensures Valid()
      ensures instances == old(instances)
      ensures var h := GetInstance(id);
              if h != null then
                calls == old(calls) + [OnInstance(h, op)] && events == old(events) + [Event(name, key, answer)]
              else
                calls == old(calls) && events == old(events)
    {
      var h := GetInstance(id);
      if id.NonNull? && h != null {
        InitIdsAppend(events, Event(name, key, answer));
        calls := calls + [OnInstance(h, op)];
        events := events + [Event(name, key, answer)];
      }
    }

    /** play: forward the converted channel info to the handle under `id`. */
    method Play(id: Nullable<string>, obj: ReadableMap)
      requires Valid()
      modifies this
      ensures Valid()
      ensures instances == old(instances) && events == old(events)
      ensures var h := GetInstance(id);
              calls == if h != null && Converted(obj).Returned?
                       then old(calls) + [OnInstance(h, SdkOp.Play(Converted(obj).value))]
                       else old(calls)
    {
      if id.NonNull? && GetInstance(id) != null {
        var playObject := ReadableMapToJsonObject(obj);
        if playObject.Returned? {
          calls := calls + [OnInstance(GetInstance(id), SdkOp.Play(playObject.value))];
        }
      }
    }

    /** loadMetadata: forward the converted content metadata to the handle under `id`. */
    method LoadMetadata(id: Nullable<string>, obj: ReadableMap)
      requires Valid()
      modifies this
      ensures Valid()
      ensures instances == old(instances) && events == old(events)
      ensures var h := GetInstance(id);
              calls == if h != null && Converted(obj).Returned?
                       then old(calls) + [OnInstance(h, SdkOp.LoadMetadata(Converted(obj).value))]
                       else old(calls)
    {
      if id.NonNull? && GetInstance(id) != null {
        var contentMetadata := ReadableMapToJsonObject(obj);
        if contentMetadata.Returned? {
          calls := calls + [OnInstance(GetInstance(id), SdkOp.LoadMetadata(contentMetadata.value))];
        }
      }
    }

    /** updateOTT: forward the converted OTT data to the handle under `id`. */
    method UpdateOtt(id: Nullable<string>, obj: ReadableMap)
      requires Valid()
      modifies this
      ensures Valid()
      ensures instances == old(instances) && events == old(events)
      ensures var h := GetInstance(id);
              calls == if h != null && Converted(obj).Returned?
                       then old(calls) + [OnInstance(h, SdkOp.UpdateOtt(Converted(obj).value))]
                       else old(calls)
    {
      if id.NonNull? && GetInstance(id) != null {
        var ottData := ReadableMapToJsonObject(obj);
        if ottData.Returned? {
          calls := calls + [OnInstance(GetInstance(id), SdkOp.UpdateOtt(ottData.value))];
        }
      }
    }

    /** sendID3 */
    method SendId3(id: Nullable<string>, payload: string)
      requires Valid()
      modifies this
      ensures Valid()
      ensures instances == old(instances) && events == old(events)
      ensures var h := GetInstance(id);
              calls == if h != null then old(calls) + [OnInstance(h, SdkOp.SendId3(payload))] else old(calls)
    {
      ForwardToInstance(id, SdkOp.SendId3(payload));
    }

    /** appDisableApi */
    method AppDisableApi(id: Nullable<string>, disabled: bool)
      requires Valid()
      modifies this
      ensures Valid()
      ensures instances == old(instances) && events == old(events)
      ensures var h := GetInstance(id);
              calls == if h != null then old(calls) + [OnInstance(h, SdkOp.AppDisableApi(disabled))] else old(calls)
    {
      ForwardToInstance(id, SdkOp.AppDisableApi(disabled));
    }

    /** setPlayheadPosition, with the position already converted to a long. */
    method SetPlayheadPosition(id: Nullable<string>, position: int)
      requires Valid()
      modifies this
      ensures Valid()
      ensures instances == old(instances) && events == old(events)
      ensures var h := GetInstance(id);
              calls == if h != null then old(calls) + [OnInstance(h, SdkOp.SetPlayheadPosition(position))] else old(calls)
    {
      ForwardToInstance(id, SdkOp.SetPlayheadPosition(position));
    }

    /** stop */
    method Stop(id: Nullable<string>)
      requires Valid()
      modifies this
      ensures Valid()
      ensures instances == old(instances) && events == old(events)
      ensures var h := GetInstance(id);
              calls == if h != null then old(calls) + [OnInstance(h, SdkOp.Stop)] else old(calls)
    {
      ForwardToInstance(id, SdkOp.Stop);
    }

    /** end */
    method End(id: Nullable<string>)
      requires Valid()
      modifies this
      ensures Valid()
      ensures instances == old(instances) && events == old(events)
      ensures var h := GetInstance(id);
              calls == if h != null then old(calls) + [OnInstance(h, SdkOp.End)] else old(calls)
    {
      ForwardToInstance(id, SdkOp.End);
    }

    /** suspend */
    method Suspend(id: Nullable<string>)
      requires Valid()
      modifies this
      ensures Valid()
      ensures instances == old(instances) && events == old(events)
      ensures var h := GetInstance(id);
              calls == if h != null then old(calls) + [OnInstance(h, SdkOp.Suspend)] else old(calls)
    {
      ForwardToInstance(id, SdkOp.Suspend);
    }

    /** appInBackground */
    method AppInBackground(id: Nullable<string>)
      requires Valid()
      modifies this
      ensures Valid()
      ensures instances == old(instances) && events == old(events)
      ensures var h := GetInstance(id);
              calls == if h != null then old(calls) + [OnInstance(h, SdkOp.AppInBackground)] else old(calls)
    {
      ForwardToInstance(id, SdkOp.AppInBackground);
    }

    /** appInForeground */
    method AppInForeground(id: Nullable<string>)
      requires Valid()
      modifies this
      ensures Valid()
      ensures instances == old(instances) && events == old(events)
      ensures var h := GetInstance(id);
              calls == if h != null then old(calls) + [OnInstance(h, SdkOp.AppInForeground)] else old(calls)
    {
      ForwardToInstance(id, SdkOp.AppInForeground);
    }

    /** userOptOutURLString: emit EVENT_OPTOUT_URL with the URL the handle gives (`url`). */
    method UserOptOutUrlString(id: Nullable<string>, url: string)
      requires Valid()
      modifies this
      ensures Valid()
      ensures instances == old(instances)
      ensures var h := GetInstance(id);
              if h != null then
                calls == old(calls) + [OnInstance(h, SdkOp.UserOptOutUrlString)]
                && events == old(events) + [Event(EventOptOutUrl, OptOutUrlKey, url)]
              else
                calls == old(calls) && events == old(events)
    {
      QueryInstance(id, SdkOp.UserOptOutUrlString, EventOptOutUrl, OptOutUrlKey, url);
    }

    /** getOptOutStatus: emit EVENT_OPTOUT_STATUS with the handle's status (`optedOut`) as "true"/"false". */
    method GetOptOutStatus(id: Nullable<string>, optedOut: bool)
      requires Valid()
      modifies this
      ensures Valid()
      ensures instances == old(instances)
      ensures var h := GetInstance(id);
              if h != null then
                calls == old(calls) + [OnInstance(h, SdkOp.GetOptOutStatus)]
                && events == old(events) + [Event(EventOptOutStatus, OptOutStatusKey, BoolText(optedOut))]
              else
                calls == old(calls) && events == old(events)
    {
      QueryInstance(id, SdkOp.GetOptOutStatus, EventOptOutStatus, OptOutStatusKey, BoolText(optedOut));
    }

    /** getNielsenId: emit EVENT_NIELSEN_ID with the handle's identifier (`nielsenId`). */
    method GetNielsenId(id: Nullable<string>, nielsenId: string)
      requires Valid()
      modifies this
      ensures Valid()
      ensures instances == old(instances)
      ensures var h := GetInstance(id);
              if h != null then
                calls == old(calls) + [OnInstance(h, SdkOp.GetNielsenId)]
                && events == old(events) + [Event(EventNielsenId, NielsenIdKey, nielsenId)]
              else
                calls == old(calls) && events == old(events)
    {
      QueryInstance(id, SdkOp.GetNielsenId, EventNielsenId, NielsenIdKey, nielsenId);
    }

    /** getDemographicId: emit EVENT_DEMOGRAPHIC_ID with the handle's demographic id (`demographicId`). */
    method GetDemographicId(id: Nullable<string>, demographicId: string)
      requires Valid()
      modifies this
      ensures Valid()
      ensures instances == old(instances)
      ensures var h := GetInstance(id);
              if h != null then
                calls == old(calls) + [OnInstance(h, SdkOp.GetDemographicId)]
                && events == old(events) + [Event(EventDeviceId, DeviceIdKey, demographicId)]
              else
                calls == old(calls) && events == old(events)
    {
      QueryInstance(id, SdkOp.GetDemographicId, EventDeviceId, DeviceIdKey, demographicId);
    }

    /** getAppDisable: emit EVENT_APP_DISABLE with the handle's flag (`disabled`) as "true"/"false". */
    method GetAppDisable(id: Nullable<string>, disabled: bool)
      requires Valid()
      modifies this
      ensures Valid()
      ensures instances == old(instances)
      ensures var h := GetInstance(id);
              if h != null then
                calls == old(calls) + [OnInstance(h, SdkOp.GetAppDisable)]
                && events == old(events) + [Event(EventAppDisable, AppDisableKey, BoolText(disabled))]
              else
                calls == old(calls) && events == old(events)
    {
      QueryInstance(id, SdkOp.GetAppDisable, EventAppDisable, AppDisableKey, BoolText(disabled));
    }

    /**
      getMeterVersion: ask the library's static meter version (`version`)
      and emit EVENT_METER_VERSION, whatever `id` is.
     */
    method GetMeterVersion(id: Nullable<string>, version: string)
      requires Valid()
      modifies this
      ensures Valid()
      ensures instances == old(instances)
      ensures calls == old(calls) + [StaticGetMeterVersion]
      ensures events == old(events) + [Event(EventMeterVersion, MeterVersionKey, version)]
    {
      InitIdsAppend(events, Event(EventMeterVersion, MeterVersionKey, version));
      calls := calls + [StaticGetMeterVersion];
      events := events + [Event(EventMeterVersion, MeterVersionKey, version)];
    }

    /** setDebug: the library's static debug switch; no handle is involved. */
    method SetDebug(level: char)
      requires Valid()
      modifies this
      ensures Valid()
      ensures instances == old(instances) && events == old(events)
      ensures calls == old(calls) + [StaticSetDebug(level)]
    {
      calls := calls + [StaticSetDebug(level)];
    }
  }

  /** The first two creations on a new module: `Instance_0` and `Instance_1`. */
  method TwoCreations() returns (bridge: NielsenNzme, first: AppSdk, second: AppSdk)
    ensures fresh(bridge) && bridge.Valid()
    ensures first != second
    ensures bridge.instances == map["Instance_0" := first, "Instance_1" := second]
    ensures bridge.events == [Event(EventInit, IdKey, "Instance_0"), Event(EventInit, IdKey, "Instance_1")]
    ensures bridge.calls == [OnInstance(first, Construct), OnInstance(first, IsValid),
                             OnInstance(second, Construct), OnInstance(second, IsValid)]
  {
    FirstIds();
    assert Converted([]) == Returned(map[]);
    bridge := new NielsenNzme();
    bridge.CreateInstance([], true);
    first := bridge.calls[0].target;
    assert bridge.calls == [OnInstance(first, Construct), OnInstance(first, IsValid)];
    assert bridge.instances == map["Instance_0" := first];
    bridge.CreateInstance([], true);
    second := bridge.calls[2].target;
    assert bridge.calls[..2] == [OnInstance(first, Construct), OnInstance(first, IsValid)];
    assert bridge.calls == bridge.calls[..2] + bridge.calls[2..];
  }

  /** Removing `Instance_0` after `TwoCreations`: its handle is closed and `Instance_1` stays. */
  method RemoveFirst(bridge: NielsenNzme, first: AppSdk, second: AppSdk)
    requires bridge.Valid() && first != second
    requires bridge.instances == map["Instance_0" := first, "Instance_1" := second]
    modifies bridge
    ensures bridge.Valid()
    ensures bridge.instances == map["Instance_1" := second]
    ensures bridge.events == old(bridge.events)
    ensures bridge.calls == old(bridge.calls) + [OnInstance(first, Close)]
  {
    bridge.RemoveInstance(NonNull("Instance_0"));
    assert bridge.instances.Keys == {"Instance_1"};
  }

  /** The creation after `RemoveFirst`: one entry left, so the new handle is named `Instance_1` again. */
  method CreateOverSecond(bridge: NielsenNzme, second: AppSdk) returns (third: AppSdk)
    requires bridge.Valid()
    requires bridge.instances == map["Instance_1" := second]
    modifies bridge
    ensures bridge.Valid()
    ensures third != second && fresh(third)
    ensures bridge.instances == map["Instance_1" := third]
    ensures bridge.events == old(bridge.events) + [Event(EventInit, IdKey, "Instance_1")]
    ensures bridge.calls == old(bridge.calls) + [OnInstance(third, Construct), OnInstance(third, IsValid)]
  {
    FirstIds();
    assert Converted([]) == Returned(map[]);
    assert NextId(bridge.instances) == "Instance_1";
    var n := |bridge.calls|;
    bridge.CreateInstance([], true);
    third := bridge.calls[n].target;
  }

  /**
    Two creations, a removal of `Instance_0` and a third creation: the third
    handle takes the identifier `Instance_1` from the second, which drops out
    of the registry without ever being closed, and JavaScript is told
    `Instance_1` twice for two different handles.
   */
  method IdReuseScenario() returns (bridge: NielsenNzme, first: AppSdk, second: AppSdk, third: AppSdk)
    ensures bridge.Valid()
    ensures first != second && second != third && first != third
    ensures bridge.instances == map["Instance_1" := third]
    ensures bridge.events == [Event(EventInit, IdKey, "Instance_0"),
                              Event(EventInit, IdKey, "Instance_1"),
                              Event(EventInit, IdKey, "Instance_1")]
    ensures bridge.calls == [OnInstance(first, Construct), OnInstance(first, IsValid),
                             OnInstance(second, Construct), OnInstance(second, IsValid),
                             OnInstance(first, Close),
                             OnInstance(third, Construct), OnInstance(third, IsValid)]
    ensures bridge.CloseCount(second) == 0
  {
    bridge, first, second := TwoCreations();
    RemoveFirst(bridge, first, second);
    third := CreateOverSecond(bridge, second);
    assert OnInstance(second, Close) !in bridge.calls;
  }
}
