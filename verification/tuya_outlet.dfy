/** A Tuya power outlet or strip: a controller that wraps one driver, keeps the
    last known state of each outlet, and addresses outlets by 0-based logical
    index through the native `dps` keys the device reported at connect time.

    Each operation is a pure step: it takes the driver's replies as inputs and
    returns the new controller, how the operation's promise settles, and the
    driver calls it made, in order. */
module TuyaOutlets {
  import opened Js
  import opened TuyaDriver
  import opened OrderedMaps
  import Decimal

  datatype TuyaOutlet = TuyaOutlet(
    device: Driver,
    states: Option<seq<JsValue>>,          // undefined until connected
    indexDpsMap: Option<seq<string>>)      // logical index -> native key

  datatype Step = Step(outlet: TuyaOutlet, outcome: Result<()>, calls: seq<DriverCall>)

  /** `new TuyaOutlet(device)`. The constructor also installs an `error`
      listener that discards every event; it has no effect on the model. */
  function New(device: Driver): (o: TuyaOutlet)
    ensures o.device == device
    ensures GetStates(o).None? && o.indexDpsMap.None?
  {
    TuyaOutlet(device, None, None)
  }

  function GetStates(o: TuyaOutlet): Option<seq<JsValue>> {
    o.states
  }

  /** `index_dps_map.map(k => dps[k])`: the state of each logical field, read
      from the payload's own entries. */
  function Project(indexDpsMap: seq<string>, dps: Dps): (states: seq<JsValue>)
    ensures |states| == |indexDpsMap|
    ensures forall i :: 0 <= i < |indexDpsMap| ==> states[i] == Lookup(dps, indexDpsMap[i])
  {
    if |indexDpsMap| == 0 then []
    else [Lookup(dps, indexDpsMap[0])] + Project(indexDpsMap[1..], dps)
  }

  /** What `catch (e) { return Promise.reject(e.message) }` rejects with:
      the message, or the TypeError reading it raises. */
  function CaughtMessage(e: JsValue): JsValue {
    match MessageOf(e)
    case Success(m) => m
    case Failure(t) => t
  }

  /** `connect()`: driver `connect()`, then `get({schema: true})`; on success
      the native keys, in payload order, become the field map and the states
      are the payload projected through it. */
  function Connect(o: TuyaOutlet, connectReply: Result<()>, getReply: Result<Dps>): (r: Step)
    ensures connectReply.Failure? ==> r.calls == [ConnectCall]
    ensures connectReply.Success? ==> r.calls == [ConnectCall, GetCall(true)]
    ensures r.outlet.device == o.device
    ensures connectReply.Failure? ==>
      r.outlet == o && r.outcome == Failure(CaughtMessage(connectReply.error))
    ensures connectReply.Success? && getReply.Failure? ==>
      r.outlet == o && r.outcome == Failure(CaughtMessage(getReply.error))
    ensures connectReply.Success? && getReply.Success? ==>
      var dps := getReply.value;
      && r.outcome == Success(())
      && r.outlet.indexDpsMap == Some(Keys(dps))
      && r.outlet.states.Some? && |r.outlet.states.value| == |dps|
      && forall i :: 0 <= i < |dps| ==> r.outlet.states.value[i] == Lookup(dps, dps[i].0)
  {
    match connectReply
    case Failure(e) => Step(o, Failure(CaughtMessage(e)), [ConnectCall])
    case Success(_) =>
      match getReply
      case Failure(e) => Step(o, Failure(CaughtMessage(e)), [ConnectCall, GetCall(true)])
      case Success(dps) =>
        var keys := Keys(dps);
        Step(o.(indexDpsMap := Some(keys), states := Some(Project(keys, dps))),
             Success(()), [ConnectCall, GetCall(true)])
  }

  /** `disconnect()`: asks the driver to disconnect without waiting for it and
      forgets the states. The only way it rejects is a driver `disconnect`
      that throws synchronously, which stops it before the states are cleared. */
  function Disconnect(o: TuyaOutlet, driverReply: Result<()>): (r: Step)
    ensures r.calls == [DisconnectCall]
    ensures r.outlet.device == o.device && r.outlet.indexDpsMap == o.indexDpsMap
    ensures driverReply.Success? ==> GetStates(r.outlet).None? && r.outcome.Success?
    ensures driverReply.Failure? ==> r.outlet == o && r.outcome == driverReply
  {
    match driverReply
    case Success(_) => Step(o.(states := None), Success(()), [DisconnectCall])
    case Failure(e) => Step(o, Failure(e), [DisconnectCall])
  }

  /** `index_dps_map[index]`: the native key, or undefined past the end. */
  function NativeKey(indexDpsMap: seq<string>, index: nat): JsValue {
    if index < |indexDpsMap| then Str(indexDpsMap[index]) else Undefined
  }

  /** `setState(index, state)`: one driver write of `state` to the native key of
      logical field `index`; the states become the write's response projected
      through the (unchanged) field map; a driver error is passed on as is.
      Before any connect there is no field map, and reading it throws. */
  function SetState(o: TuyaOutlet, index: nat, state: JsValue, writeReply: Result<Dps>): (r: Step)
    ensures r.outlet.device == o.device && r.outlet.indexDpsMap == o.indexDpsMap
    ensures o.indexDpsMap.None? ==>
      r.outlet == o && r.calls == []
      && r.outcome == Failure(ReadOfNothing(Undefined, Decimal.FromNat(index)))
    ensures o.indexDpsMap.Some? ==> r.calls == [SetCall(NativeKey(o.indexDpsMap.value, index), state)]
    ensures o.indexDpsMap.Some? && writeReply.Failure? ==>
      r.outlet == o && r.outcome == Failure(writeReply.error)
    ensures o.indexDpsMap.Some? && writeReply.Success? ==>
      var m := o.indexDpsMap.value;
      && r.outcome == Success(())
      && r.outlet.states.Some? && |r.outlet.states.value| == |m|
      && forall i :: 0 <= i < |m| ==> r.outlet.states.value[i] == Lookup(writeReply.value, m[i])
  {
    match o.indexDpsMap
    case None => Step(o, Failure(ReadOfNothing(Undefined, Decimal.FromNat(index))), [])
    case Some(m) =>
      var call := SetCall(NativeKey(m, index), state);
      match writeReply
      case Failure(e) => Step(o, Failure(e), [call])
      case Success(dps) => Step(o.(states := Some(Project(m, dps))), Success(()), [call])
  }

  /** After a successful connect, the states are the payload's values in key
      order, as many as there are keys. */
  lemma {:induction false} ConnectedStatesAreValues(o: TuyaOutlet, dps: Dps)
    requires DistinctKeys(dps)
    ensures Connect(o, Success(()), Success(dps)).outlet.states == Some(Values(dps))
  {
    var states := Connect(o, Success(()), Success(dps)).outlet.states.value;
    forall i | 0 <= i < |dps|
      ensures states[i] == Values(dps)[i]
    {
      LookupOfKey(dps, i);
    }
    assert states == Values(dps);
  }

  /** When the driver answers a write with the previous payload updated at the
      written key, exactly the written field changes. */
  lemma {:induction false} SetStateChangesOnlyThatField(o: TuyaOutlet, dps: Dps, index: nat, state: JsValue)
    requires DistinctKeys(dps) && index < |dps|
    ensures
      var connected := Connect(o, Success(()), Success(dps)).outlet;
      var response := Write(dps, dps[index].0, state);
      var r := SetState(connected, index, state, Success(response));
      && r.calls == [SetCall(Str(dps[index].0), state)]
      && r.outlet.states == Some(Values(dps)[index := state])
  {
    var keys := Keys(dps);
    var connected := Connect(o, Success(()), Success(dps)).outlet;
    assert connected.indexDpsMap == Some(keys);
    var response := Write(dps, dps[index].0, state);
    var r := SetState(connected, index, state, Success(response));
    var states := r.outlet.states.value;
    assert |states| == |dps|;
    forall i | 0 <= i < |dps|
      ensures states[i] == Values(dps)[index := state][i]
    {
      assert states[i] == Lookup(response, keys[i]);
      LookupAfterWrite(dps, dps[index].0, state, dps[i].0);
      LookupOfKey(dps, i);
      assert i != index ==> dps[i].0 != dps[index].0;
    }
    assert states == Values(dps)[index := state];
  }

  /** A disconnect forgets the states but keeps the field map, so a later
      write still goes to the same native key, succeeds or fails as it would
      have before, and brings the states back without a reconnect. */
  lemma {:induction false} DisconnectKeepsFieldMap(o: TuyaOutlet, index: nat, state: JsValue, writeReply: Result<Dps>)
    requires o.indexDpsMap.Some?
    ensures
      var gone := Disconnect(o, Success(())).outlet;
      var before := SetState(o, index, state, writeReply);
      var after := SetState(gone, index, state, writeReply);
      && GetStates(gone).None?
      && after.calls == before.calls && after.outcome == before.outcome
      && (writeReply.Success? ==> GetStates(after.outlet) == GetStates(before.outlet))
  {
    var gone := Disconnect(o, Success(())).outlet;
    assert gone.indexDpsMap == o.indexDpsMap;
  }

  /** The states through a connection's life: none before the first connect,
      the payload's values after it, none again after a disconnect. */
  lemma {:induction false} StatesLifecycle(device: Driver, dps: Dps)
    requires DistinctKeys(dps)
    ensures
      var idle := New(device);
      var connected := Connect(idle, Success(()), Success(dps)).outlet;
      && GetStates(idle) == None
      && GetStates(connected) == Some(Values(dps))
      && GetStates(Disconnect(connected, Success(())).outlet) == None
  {
    ConnectedStatesAreValues(New(device), dps);
  }
}
