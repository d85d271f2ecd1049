/** The vendor driver (a `TuyaDevice` of the `tuyapi` package), seen from the
    outside: a handle built from configuration options, the calls the
    controllers make on it, and the `dps` state payload it answers with.
    What the driver answers is not computed here: every reply is an input. */
module TuyaDriver {
  import opened Js
  import opened OrderedMaps

  /** What a `TuyaDevice` was constructed from: a configuration object or,
      when a registry wraps one device class in another, a device. */
  datatype DriverOptions = FromConfig(config: JsValue) | FromDevice(device: Driver)

  datatype Driver = TuyaDevice(options: DriverOptions)

  /** One call on the driver: `connect()`, `get({schema})`,
      `set({dps, set: value})` and `disconnect()`. */
  datatype DriverCall =
    | ConnectCall
    | GetCall(schema: bool)
    | SetCall(dps: JsValue, value: JsValue)
    | DisconnectCall

  /** The `dps` object of a driver status: native field identifiers with their
      values, in the order `Object.keys` lists them, so that `Object.keys(dps)`
      is `Keys(dps)`. An object never holds the same key twice (`DistinctKeys`). */
  type Dps = OrderedMap<string, JsValue>

  /** The values of the payload, in key order. */
  function Values(dps: Dps): (values: seq<JsValue>)
    ensures |values| == |dps|
    ensures forall i :: 0 <= i < |dps| ==> values[i] == dps[i].1
  {
    if |dps| == 0 then [] else [dps[0].1] + Values(dps[1..])
  }

  /** `dps[key]` on the payload's own entries: the value under `key`, or
      undefined when the payload has no own entry with that key. */
  function Lookup(dps: Dps, key: string): JsValue {
    Property(dps, key)
  }

  /** In an object, looking up the i-th key gives the i-th value. */
  lemma {:induction false} LookupOfKey(dps: Dps, i: nat)
    requires DistinctKeys(dps) && i < |dps|
    ensures Lookup(dps, dps[i].0) == dps[i].1
  {
    if i > 0 {
      assert dps[0].0 != dps[i].0;
      assert dps[1..][i - 1] == dps[i];
      LookupOfKey(dps[1..], i - 1);
    }
  }

  /** `dps[key] = value`: replaces the value of a present key, appends a new one. */
  function Write(dps: Dps, key: string, value: JsValue): (r: Dps)
    ensures Keys(r) == Keys(dps) || Keys(r) == Keys(dps) + [key]
  {
    if |dps| == 0 then [(key, value)]
    else if dps[0].0 == key then [(key, value)] + dps[1..]
    else [dps[0]] + Write(dps[1..], key, value)
  }

  /** After a write, the written key reads back the written value and every
      other key reads what it read before. */
  lemma {:induction false} LookupAfterWrite(dps: Dps, key: string, value: JsValue, other: string)
    ensures Lookup(Write(dps, key, value), other) == if other == key then value else Lookup(dps, other)
  {
    if |dps| > 0 && dps[0].0 != key {
      LookupAfterWrite(dps[1..], key, value, other);
    }
  }
}
