/** The device director: owns one controller and one form per configured
    device, keyed `form-1` .. `form-n` in configuration order, routes field
    writes by field UID to the right controller, and folds the outcome of each
    device's connect or disconnect into that device's form alone. */
module DeviceDirector {
  import opened Js
  import TuyaDriver
  import opened OrderedMaps
  import TuyaOutlets
  import BooleanForms
  import FormFactory
  import ControllerFactory
  import Registry
  import Decimal

  type TuyaOutlet = TuyaOutlets.TuyaOutlet
  type BooleanForm = BooleanForms.BooleanForm

  /** One entry of the device list of the configuration file. */
  datatype DeviceConfig = DeviceConfig(
    make: string, model: string, config: JsValue, title: string, fields: seq<string>)

  /** Where a field UID leads: logical field `index` of the controller at
      position `device` of `controllers` (the source stores a reference to
      that controller object). */
  datatype FieldTarget = FieldTarget(index: nat, device: nat)

  datatype Director = Director(
    controllers: OrderedMap<string, TuyaOutlet>,
    forms: OrderedMap<string, BooleanForm>,
    fieldUidMap: map<string, FieldTarget>)

  /** The UID of the n-th device (1-based): `form-<n>`. */
  function DeviceUid(n: nat): string {
    "form-" + Decimal.FromNat(n)
  }

  function DeviceUids(n: nat): (uids: seq<string>)
    ensures |uids| == n
    ensures forall k :: 0 <= k < n ==> uids[k] == DeviceUid(k + 1)
  {
    seq(n, k requires 0 <= k < n => DeviceUid(k + 1))
  }

  lemma {:induction false} DeviceUidInjective(a: nat, b: nat)
    ensures DeviceUid(a) == DeviceUid(b) ==> a == b
  {
    assert DeviceUid(a)[5..] == Decimal.FromNat(a);
    assert DeviceUid(b)[5..] == Decimal.FromNat(b);
    Decimal.FromNatInjective(a, b);
  }

  /** Field UIDs of different devices never collide, so no registration
      overwrites another. */
  lemma {:induction false} FieldUidsDiffer(a: nat, i: nat, b: nat, j: nat)
    ensures BooleanForms.FieldUid(DeviceUid(a), i) == BooleanForms.FieldUid(DeviceUid(b), j) ==> a == b && i == j
  {
    if BooleanForms.FieldUid(DeviceUid(a), i) == BooleanForms.FieldUid(DeviceUid(b), j) {
      var x, y := Decimal.FromNat(a), "field-" + Decimal.FromNat(i);
      var x', y' := Decimal.FromNat(b), "field-" + Decimal.FromNat(j);
      assert BooleanForms.FieldUid(DeviceUid(a), i) == "form-" + (x + "-" + y);
      assert BooleanForms.FieldUid(DeviceUid(b), j) == "form-" + (x' + "-" + y');
      assert x + "-" + y == BooleanForms.FieldUid(DeviceUid(a), i)[5..] == x' + "-" + y';
      Decimal.SplitAtDash(x, y, x', y');
      Decimal.FromNatInjective(a, b);
      assert y[6..] == Decimal.FromNat(i) && y'[6..] == Decimal.FromNat(j);
      Decimal.FromNatInjective(i, j);
    }
  }

  /** A form as the director registers it under `uid`. */
  predicate WellFormedForm(f: BooleanForm, uid: string) {
    && f.uid == uid
    && BooleanForms.Valid(f)
    && forall i :: 0 <= i < |f.fields| ==> f.fields[i].uid == BooleanForms.FieldUid(uid, i)
  }

  /** The target of `u` is a field of a registered form, and that field carries `u`. */
  predicate Routes(d: Director, u: string)
    requires u in d.fieldUidMap
  {
    var t := d.fieldUidMap[u];
    t.device < |d.forms| && t.index < |d.forms[t.device].1.fields|
    && d.forms[t.device].1.fields[t.index].uid == u
  }

  /** Parallel key sequences `form-1 .. form-n`. */
  predicate Keyed(d: Director) {
    && |d.controllers| == |d.forms|
    && (forall k :: 0 <= k < |d.controllers| ==> d.controllers[k].0 == DeviceUid(k + 1))
    && (forall k :: 0 <= k < |d.forms| ==> d.forms[k].0 == DeviceUid(k + 1))
  }

  /** Every form is well formed under its own key. */
  predicate FormsWellFormed(d: Director) {
    forall k :: 0 <= k < |d.forms| ==> WellFormedForm(d.forms[k].1, DeviceUid(k + 1))
  }

  /** Every UID in the field UID map leads to a field carrying it. */
  predicate MapRoutes(d: Director) {
    forall u :: u in d.fieldUidMap ==> Routes(d, u)
  }

  /** The UID of field i of device k is in the map and leads to (i, k). */
  predicate FieldsMapped(d: Director) {
    forall k, i :: 0 <= k < |d.forms| && 0 <= i < |d.forms[k].1.fields| ==>
      d.forms[k].1.fields[i].uid in d.fieldUidMap
      && d.fieldUidMap[d.forms[k].1.fields[i].uid] == FieldTarget(i, k)
  }

  /** What construction establishes and every operation keeps: parallel key
      sequences `form-1 .. form-n`, and a field UID map that sends the UID of
      field i of device k to (i, k) and knows no other UID. */
  predicate Valid(d: Director) {
    Keyed(d) && FormsWellFormed(d) && MapRoutes(d) && FieldsMapped(d)
  }

  // ---------------------------------------------------------------- construction

  /** The UIDs carried by the fields. */
  function UidsOf(fields: seq<BooleanForms.Field>): set<string> {
    set i | 0 <= i < |fields| :: fields[i].uid
  }

  /** `form.fields.forEach((field, index) => field_uid_map.set(field.uid, {index, controller}))`. */
  function AddFieldUids(m: map<string, FieldTarget>, fields: seq<BooleanForms.Field>, device: nat)
    : (r: map<string, FieldTarget>)
    ensures r.Keys == m.Keys + UidsOf(fields)
    ensures forall u :: u in m && u !in UidsOf(fields) ==> r[u] == m[u]
    ensures forall u :: u in UidsOf(fields) ==>
      r[u].device == device && r[u].index < |fields| && fields[r[u].index].uid == u
  {
    if |fields| == 0 then m
    else
      var n := |fields| - 1;
      assert UidsOf(fields) == UidsOf(fields[..n]) + {fields[n].uid};
      AddFieldUids(m, fields[..n], device)[fields[n].uid := FieldTarget(n, device)]
  }

  /** `controllers.set(uid, controller); forms.set(uid, form)` and the form's field UIDs. */
  function Register(d: Director, uid: string, o: TuyaOutlet, f: BooleanForm): Director {
    Director(Put(d.controllers, uid, o), Put(d.forms, uid, f),
             AddFieldUids(d.fieldUidMap, f.fields, |d.controllers|))
  }

  /** The next device's UID is fresh, so registering appends to both maps. */
  lemma {:induction false} RegisterAppends(d: Director, o: TuyaOutlet, f: BooleanForm)
    requires Keyed(d)
    ensures
      var uid := DeviceUid(|d.controllers| + 1);
      var d' := Register(d, uid, o, f);
      && d'.controllers == d.controllers + [(uid, o)]
      && d'.forms == d.forms + [(uid, f)]
  {
    var n := |d.controllers|;
    var uid := DeviceUid(n + 1);
    forall k | 0 <= k < n
      ensures d.controllers[k].0 != uid && d.forms[k].0 != uid
    {
      DeviceUidInjective(k + 1, n + 1);
    }
    assert uid !in Keys(d.controllers) && uid !in Keys(d.forms);
  }

  /** No field UID of the next device is already in the map. */
  lemma {:induction false} NewFieldUidsAreFresh(d: Director, f: BooleanForm)
    requires Valid(d)
    requires WellFormedForm(f, DeviceUid(|d.controllers| + 1))
    ensures forall u :: u in d.fieldUidMap ==> u !in UidsOf(f.fields)
  {
    var n := |d.controllers|;
    forall u | u in d.fieldUidMap
      ensures u !in UidsOf(f.fields)
    {
      var t := d.fieldUidMap[u];
      assert Routes(d, u);
      assert u == BooleanForms.FieldUid(DeviceUid(t.device + 1), t.index);
      forall i | 0 <= i < |f.fields|
        ensures f.fields[i].uid != u
      {
        FieldUidsDiffer(t.device + 1, t.index, n + 1, i);
      }
    }
  }

  /** Registering the next device: `form-<n+1>` with its outlet and form. */
  function RegisterNext(d: Director, o: TuyaOutlet, f: BooleanForm): Director {
    Register(d, DeviceUid(|d.controllers| + 1), o, f)
  }

  lemma {:induction false} RegisterNextKeyed(d: Director, o: TuyaOutlet, f: BooleanForm)
    requires Keyed(d)
    ensures Keyed(RegisterNext(d, o, f))
    ensures RegisterNext(d, o, f).controllers == d.controllers + [(DeviceUid(|d.controllers| + 1), o)]
    ensures RegisterNext(d, o, f).forms == d.forms + [(DeviceUid(|d.controllers| + 1), f)]
  {
    var n := |d.controllers|;
    var uid := DeviceUid(n + 1);
    var d' := RegisterNext(d, o, f);
    RegisterAppends(d, o, f);
    assert d'.controllers == d.controllers + [(uid, o)];
    assert d'.forms == d.forms + [(uid, f)];
    forall k | 0 <= k < n + 1
      ensures d'.controllers[k].0 == DeviceUid(k + 1) && d'.forms[k].0 == DeviceUid(k + 1)
    {
      if k < n {
        assert d'.controllers[k] == d.controllers[k] && d'.forms[k] == d.forms[k];
      }
    }
  }

  lemma {:induction false} RegisterNextForms(d: Director, o: TuyaOutlet, f: BooleanForm)
    requires Valid(d)
    requires WellFormedForm(f, DeviceUid(|d.controllers| + 1))
    ensures FormsWellFormed(RegisterNext(d, o, f))
  {
    var n := |d.controllers|;
    var uid := DeviceUid(n + 1);
    var d' := RegisterNext(d, o, f);
    RegisterAppends(d, o, f);
    assert d'.forms == d.forms + [(uid, f)];
    forall k | 0 <= k < |d'.forms|
      ensures WellFormedForm(d'.forms[k].1, DeviceUid(k + 1))
    {
      if k < n {
        assert d'.forms[k] == d.forms[k];
        assert WellFormedForm(d.forms[k].1, DeviceUid(k + 1));
      } else {
        assert d'.forms[k] == (uid, f);
      }
    }
  }

  lemma {:induction false} RegisterNextRoutes(d: Director, o: TuyaOutlet, f: BooleanForm)
    requires Valid(d)
    requires WellFormedForm(f, DeviceUid(|d.controllers| + 1))
    ensures MapRoutes(RegisterNext(d, o, f))
  {
    var n := |d.controllers|;
    var uid := DeviceUid(n + 1);
    var d' := RegisterNext(d, o, f);
    RegisterAppends(d, o, f);
    assert d'.forms == d.forms + [(uid, f)];
    NewFieldUidsAreFresh(d, f);
    var m, m' := d.fieldUidMap, d'.fieldUidMap;
    forall u | u in m'
      ensures Routes(d', u)
    {
      if u in UidsOf(f.fields) {
        assert d'.forms[n].1 == f;
      } else {
        assert Routes(d, u);
        assert d'.forms[m[u].device] == d.forms[m[u].device];
      }
    }
  }

  lemma {:induction false} RegisterNextIndexes(d: Director, o: TuyaOutlet, f: BooleanForm)
    requires Valid(d)
    requires WellFormedForm(f, DeviceUid(|d.controllers| + 1))
    ensures FieldsMapped(RegisterNext(d, o, f))
  {
    var n := |d.controllers|;
    var uid := DeviceUid(n + 1);
    var d' := RegisterNext(d, o, f);
    RegisterAppends(d, o, f);
    assert d'.forms == d.forms + [(uid, f)];
    NewFieldUidsAreFresh(d, f);
    var m, m' := d.fieldUidMap, d'.fieldUidMap;
    forall k, i | 0 <= k < |d'.forms| && 0 <= i < |d'.forms[k].1.fields|
      ensures d'.forms[k].1.fields[i].uid in m'
      ensures m'[d'.forms[k].1.fields[i].uid] == FieldTarget(i, k)
    {
      if k < n {
        assert d'.forms[k] == d.forms[k];
        assert d.forms[k].1.fields[i].uid in m;
      } else {
        assert d'.forms[k] == (uid, f);
        var u := f.fields[i].uid;
        assert u in UidsOf(f.fields);
        var j := m'[u].index;
        assert f.fieldIndices[f.fields[j].uid] == j;
        assert f.fieldIndices[f.fields[i].uid] == i;
      }
    }
  }

  /** Registering the next device keeps the director valid. */
  lemma {:induction false} RegisterKeepsValid(d: Director, o: TuyaOutlet, f: BooleanForm)
    requires Valid(d)
    requires WellFormedForm(f, DeviceUid(|d.controllers| + 1))
    ensures
      var uid := DeviceUid(|d.controllers| + 1);
      var d' := RegisterNext(d, o, f);
      && d'.controllers == d.controllers + [(uid, o)]
      && d'.forms == d.forms + [(uid, f)]
      && Valid(d')
  {
    var n := |d.controllers|;
    var uid := DeviceUid(n + 1);
    var d' := RegisterNext(d, o, f);
    RegisterAppends(d, o, f);
    RegisterNextKeyed(d, o, f);
    RegisterNextForms(d, o, f);
    RegisterNextRoutes(d, o, f);
    RegisterNextIndexes(d, o, f);
  }

  /** Devices are supported by both factories only as Tuya outlets. */
  predicate Supported(c: DeviceConfig) {
    c.make == "tuya" && c.model == "outlet"
  }

  /** What construction throws for an unsupported device: the maker error, or
      else the model error (from the controller factory, or for the `device`
      model, which only the controller registry lists, from the form factory). */
  function ConfigError(c: DeviceConfig): JsValue {
    if c.make != "tuya" then Registry.UnknownMaker(c.make) else Registry.UnknownModel(c.model, c.make)
  }

  /** One pass of the constructor's loop before registration: the controller
      factory, then the form factory, for the device with UID `uid`. */
  function MakeDevice(c: DeviceConfig, uid: string): (r: Result<(TuyaOutlet, BooleanForm)>)
    ensures r.Success? <==> Supported(c)
    ensures r.Failure? ==> r.error == ConfigError(c)
    ensures r.Success? ==>
      && ControllerFactory.Make(c.make, c.model, c.config) == Success(ControllerFactory.Outlet(r.value.0))
      && FormFactory.Make(c.make, c.model, c.title, uid, c.fields) == Success(r.value.1)
      && WellFormedForm(r.value.1, uid)
  {
    var controller :- ControllerFactory.Make(c.make, c.model, c.config);
    var form :- FormFactory.Make(c.make, c.model, c.title, uid, c.fields);
    match controller
    case Device(_) => assert false; Failure(Undefined)
    case Outlet(o) => Success((o, form))
  }

  /** The error construction stops with, read off the configurations alone:
      that of the first unsupported device from position `from` on, if any. */
  function FirstConfigError(configs: seq<DeviceConfig>, from: nat): Option<JsValue>
    requires from <= |configs|
    decreases |configs| - from
  {
    if from == |configs| then None
    else if !Supported(configs[from]) then Some(ConfigError(configs[from]))
    else FirstConfigError(configs, from + 1)
  }

  /** The constructor's loop from the device at position `i` (UID
      `form-<i+1>`) on: make its controller and form, register them, go on. */
  function BuildFrom(configs: seq<DeviceConfig>, i: nat, acc: Director): Result<Director>
    requires i <= |configs|
    decreases |configs| - i
  {
    if i == |configs| then Success(acc)
    else
      var device := MakeDevice(configs[i], DeviceUid(i + 1));
      if device.Failure? then Failure(device.error)
      else BuildFrom(configs, i + 1, Register(acc, DeviceUid(i + 1), device.value.0, device.value.1))
  }

  /** One turn of the loop: a supported device is registered under `form-<i+1>`. */
  lemma {:induction false} BuildFromStep(configs: seq<DeviceConfig>, i: nat, acc: Director)
    requires i < |configs| && MakeDevice(configs[i], DeviceUid(i + 1)).Success?
    ensures
      var device := MakeDevice(configs[i], DeviceUid(i + 1)).value;
      BuildFrom(configs, i, acc) == BuildFrom(configs, i + 1, Register(acc, DeviceUid(i + 1), device.0, device.1))
  {
  }

  /** The loop fails exactly when a device from position `i` on is
      unsupported, with the error of the first such device. */
  lemma {:induction false} BuildFromError(configs: seq<DeviceConfig>, i: nat, acc: Director)
    requires i <= |configs|
    decreases |configs| - i
    ensures var r := BuildFrom(configs, i, acc);
      FirstConfigError(configs, i) == if r.Success? then None else Some(r.error)
  {
    if i < |configs| {
      var device := MakeDevice(configs[i], DeviceUid(i + 1));
      if device.Success? {
        var o, f := device.value.0, device.value.1;
        BuildFromError(configs, i + 1, Register(acc, DeviceUid(i + 1), o, f));
      }
    }
  }

  /** The director after the loop's turn at position `|acc.controllers|`,
      which registers that device under `form-<n+1>`. */
  function Advance(configs: seq<DeviceConfig>, acc: Director): Director
    requires |acc.controllers| < |configs| && Supported(configs[|acc.controllers|])
  {
    var n := |acc.controllers|;
    var device := MakeDevice(configs[n], DeviceUid(n + 1)).value;
    RegisterNext(acc, device.0, device.1)
  }

  lemma {:induction false} AdvanceStep(configs: seq<DeviceConfig>, acc: Director)
    requires |acc.controllers| < |configs| && Supported(configs[|acc.controllers|])
    ensures BuildFrom(configs, |acc.controllers|, acc)
         == BuildFrom(configs, |acc.controllers| + 1, Advance(configs, acc))
  {
    BuildFromStep(configs, |acc.controllers|, acc);
  }

  /** The turn appends the device the two factories make to both maps. */
  lemma {:induction false} AdvanceKeyed(configs: seq<DeviceConfig>, acc: Director)
    requires Keyed(acc) && |acc.controllers| < |configs| && Supported(configs[|acc.controllers|])
    ensures var n, next := |acc.controllers|, Advance(configs, acc);
      var device := MakeDevice(configs[n], DeviceUid(n + 1)).value;
      && Keyed(next)
      && next.controllers == acc.controllers + [(DeviceUid(n + 1), device.0)]
      && next.forms == acc.forms + [(DeviceUid(n + 1), device.1)]
  {
    var n := |acc.controllers|;
    var device := MakeDevice(configs[n], DeviceUid(n + 1)).value;
    RegisterNextKeyed(acc, device.0, device.1);
  }

  /** The turn keeps the keys and adds one device. */
  lemma {:induction false} AdvanceGrows(configs: seq<DeviceConfig>, acc: Director)
    requires Keyed(acc) && |acc.controllers| < |configs| && Supported(configs[|acc.controllers|])
    ensures Keyed(Advance(configs, acc)) && |Advance(configs, acc).controllers| == |acc.controllers| + 1
  {
    AdvanceKeyed(configs, acc);
  }

  lemma {:induction false} BuildFromDone(configs: seq<DeviceConfig>, acc: Director)
    requires |acc.controllers| == |configs|
    ensures BuildFrom(configs, |acc.controllers|, acc) == Success(acc)
  {
  }

  lemma {:induction false} BuildFromStops(configs: seq<DeviceConfig>, acc: Director)
    requires |acc.controllers| < |configs| && !Supported(configs[|acc.controllers|])
    ensures BuildFrom(configs, |acc.controllers|, acc).Failure?
  {
  }

  /** A successful `r` holds `total` devices under the keys `form-1 .. form-n`,
      and its first devices are those of `acc`, where they were. */
  predicate KeepsPrefix(r: Result<Director>, acc: Director, total: nat) {
    r.Success? ==>
      && Keyed(r.value) && |r.value.controllers| == total
      && |acc.forms| == |acc.controllers| <= total
      && (forall k :: 0 <= k < |acc.controllers| ==>
            r.value.controllers[k] == acc.controllers[k] && r.value.forms[k] == acc.forms[k])
  }

  /** Started on a director holding the first `i` devices under their keys,
      the loop keeps those devices where they are and ends with one device
      per configuration under the keys `form-1 .. form-n`. */
  lemma {:induction false} BuildFromKeepsPrefix(configs: seq<DeviceConfig>, acc: Director)
    requires Keyed(acc) && |acc.controllers| <= |configs|
    decreases |configs| - |acc.controllers|
    ensures KeepsPrefix(BuildFrom(configs, |acc.controllers|, acc), acc, |configs|)
  {
    var n := |acc.controllers|;
    if n == |configs| {
      BuildFromDone(configs, acc);
      assert KeepsPrefix(Success(acc), acc, |configs|);
    } else if !Supported(configs[n]) {
      BuildFromStops(configs, acc);
    } else {
      AdvanceGrows(configs, acc);
      BuildFromKeepsPrefix(configs, Advance(configs, acc));
      AdvanceStep(configs, acc);
      KeepsPrefixStep(configs, acc, BuildFrom(configs, n, acc));
    }
  }

  /** The step of `BuildFromKeepsPrefix`: a result that keeps the devices of
      the advanced director keeps those of `acc`. */
  lemma {:induction false} KeepsPrefixStep(configs: seq<DeviceConfig>, acc: Director, r: Result<Director>)
    requires Keyed(acc) && |acc.controllers| < |configs| && Supported(configs[|acc.controllers|])
    requires KeepsPrefix(r, Advance(configs, acc), |configs|)
    ensures KeepsPrefix(r, acc, |configs|)
  {
    var n := |acc.controllers|;
    var device := MakeDevice(configs[n], DeviceUid(n + 1)).value;
    AdvanceKeyed(configs, acc);
    KeepsPrefixThroughNext(acc, Advance(configs, acc), (DeviceUid(n + 1), device.0),
                           (DeviceUid(n + 1), device.1), r, |configs|);
  }

  /** A result that keeps the devices of `next`, which is `acc` with one more
      device, keeps those of `acc`. */
  lemma {:induction false} KeepsPrefixThroughNext(acc: Director, next: Director,
                                                  c: (string, TuyaOutlet), g: (string, BooleanForm),
                                                  r: Result<Director>, total: nat)
    requires next.controllers == acc.controllers + [c] && next.forms == acc.forms + [g]
    requires KeepsPrefix(r, next, total)
    ensures KeepsPrefix(r, acc, total)
  {
    if r.Success? {
      forall k | 0 <= k < |acc.controllers|
        ensures r.value.controllers[k] == acc.controllers[k] && r.value.forms[k] == acc.forms[k]
      {
        assert next.controllers[k] == acc.controllers[k];
        assert next.forms[k] == acc.forms[k];
      }
    }
  }

  /** Devices `from` on of `d` are what the two factories make from their
      configurations and UIDs. */
  predicate MadeFrom(configs: seq<DeviceConfig>, d: Director, from: nat) {
    && |d.controllers| == |d.forms| == |configs|
    && forall k :: from <= k < |configs| ==>
         MakeDevice(configs[k], DeviceUid(k + 1)) == Success((d.controllers[k].1, d.forms[k].1))
  }

  lemma {:induction false} MadeFromStep(configs: seq<DeviceConfig>, d: Director, n: nat)
    requires n < |configs| && MadeFrom(configs, d, n + 1)
    requires MakeDevice(configs[n], DeviceUid(n + 1)) == Success((d.controllers[n].1, d.forms[n].1))
    ensures MadeFrom(configs, d, n)
  {
  }

  /** Each device the loop appends from position `i` on is what the two
      factories make from its configuration and its UID `form-<k+1>`. */
  lemma {:induction false} BuildFromUsesFactories(configs: seq<DeviceConfig>, acc: Director)
    requires Keyed(acc) && |acc.controllers| <= |configs|
    decreases |configs| - |acc.controllers|
    ensures var r := BuildFrom(configs, |acc.controllers|, acc);
      r.Success? ==> MadeFrom(configs, r.value, |acc.controllers|)
  {
    var n := |acc.controllers|;
    if n == |configs| {
      BuildFromDone(configs, acc);
    } else if !Supported(configs[n]) {
      BuildFromStops(configs, acc);
    } else {
      AdvanceGrows(configs, acc);
      BuildFromUsesFactories(configs, Advance(configs, acc));
      BuildFromKeepsPrefix(configs, Advance(configs, acc));
      AdvanceStep(configs, acc);
      UsesFactoriesStep(configs, acc, BuildFrom(configs, n, acc));
    }
  }

  /** The step of `BuildFromUsesFactories`: in a result that keeps the devices
      of the advanced director, the device registered at position `n` is still
      there. */
  lemma {:induction false} UsesFactoriesStep(configs: seq<DeviceConfig>, acc: Director, r: Result<Director>)
    requires Keyed(acc) && |acc.controllers| < |configs| && Supported(configs[|acc.controllers|])
    requires KeepsPrefix(r, Advance(configs, acc), |configs|)
    requires r.Success? ==> MadeFrom(configs, r.value, |acc.controllers| + 1)
    ensures r.Success? ==> MadeFrom(configs, r.value, |acc.controllers|)
  {
    var n := |acc.controllers|;
    var next := Advance(configs, acc);
    AdvanceKeyed(configs, acc);
    if r.Success? {
      assert r.value.controllers[n] == next.controllers[n] && r.value.forms[n] == next.forms[n];
      MadeFromStep(configs, r.value, n);
    }
  }

  /** The turn keeps the director valid. */
  lemma {:induction false} AdvanceValid(configs: seq<DeviceConfig>, acc: Director)
    requires Valid(acc) && |acc.controllers| < |configs| && Supported(configs[|acc.controllers|])
    ensures Valid(Advance(configs, acc)) && |Advance(configs, acc).controllers| == |acc.controllers| + 1
  {
    var n := |acc.controllers|;
    var device := MakeDevice(configs[n], DeviceUid(n + 1)).value;
    RegisterKeepsValid(acc, device.0, device.1);
    AdvanceKeyed(configs, acc);
  }

  /** Started on a valid director, the loop ends on a valid one. */
  lemma {:induction false} BuildFromValid(configs: seq<DeviceConfig>, acc: Director)
    requires Valid(acc) && |acc.controllers| <= |configs|
    decreases |configs| - |acc.controllers|
    ensures var r := BuildFrom(configs, |acc.controllers|, acc);
      r.Success? ==> Valid(r.value)
  {
    var n := |acc.controllers|;
    if n == |configs| {
      BuildFromDone(configs, acc);
    } else if !Supported(configs[n]) {
      BuildFromStops(configs, acc);
    } else {
      AdvanceValid(configs, acc);
      BuildFromValid(configs, Advance(configs, acc));
      AdvanceStep(configs, acc);
    }
  }

  /** The reference error is that of the first unsupported device. */
  lemma {:induction false} FirstConfigErrorIsFirst(configs: seq<DeviceConfig>, from: nat)
    requires from <= |configs|
    decreases |configs| - from
    ensures FirstConfigError(configs, from).None? <==> forall k :: from <= k < |configs| ==> Supported(configs[k])
    ensures FirstConfigError(configs, from).Some? ==>
      exists k :: from <= k < |configs| && !Supported(configs[k])
        && (forall j :: from <= j < k ==> Supported(configs[j]))
        && FirstConfigError(configs, from).value == ConfigError(configs[k])
  {
    if from < |configs| && Supported(configs[from]) {
      FirstConfigErrorIsFirst(configs, from + 1);
      if FirstConfigError(configs, from).Some? {
        var k :| from + 1 <= k < |configs| && !Supported(configs[k])
          && (forall j :: from + 1 <= j < k ==> Supported(configs[j]))
          && FirstConfigError(configs, from + 1).value == ConfigError(configs[k]);
        assert forall j :: from <= j < k ==> Supported(configs[j]);
      }
    }
  }

  /** `new DeviceDirector(device_configs)`; a factory error aborts construction. */
  function Build(configs: seq<DeviceConfig>): (r: Result<Director>)
    ensures r.Success? ==> Valid(r.value) && |r.value.controllers| == |configs|
  {
    BuildFromValid(configs, Director([], [], map[]));
    BuildFromKeepsPrefix(configs, Director([], [], map[]));
    BuildFrom(configs, 0, Director([], [], map[]))
  }

  /** Construction succeeds exactly when every device is a Tuya outlet, and
      otherwise throws the error of the first device that is not. */
  lemma {:induction false} BuildError(configs: seq<DeviceConfig>)
    ensures Build(configs).Success? <==> forall k :: 0 <= k < |configs| ==> Supported(configs[k])
    ensures Build(configs).Failure? ==>
      exists k :: 0 <= k < |configs| && !Supported(configs[k])
        && (forall j :: 0 <= j < k ==> Supported(configs[j]))
        && Build(configs).error == ConfigError(configs[k])
  {
    BuildFromError(configs, 0, Director([], [], map[]));
    FirstConfigErrorIsFirst(configs, 0);
  }

  /** After construction, `controllers` and `forms` both hold the keys
      `form-1 .. form-n` in configuration order. */
  lemma {:induction false} BuildKeys(configs: seq<DeviceConfig>)
    ensures var r := Build(configs);
      r.Success? ==> Keys(r.value.controllers) == Keys(r.value.forms) == DeviceUids(|configs|)
  {
    var r := Build(configs);
    if r.Success? {
      assert Keys(r.value.controllers) == DeviceUids(|configs|);
      assert Keys(r.value.forms) == DeviceUids(|configs|);
    }
  }

  /** Device k's controller and form are what the two factories make from its
      configuration, the form under the UID `form-<k+1>`. */
  lemma {:induction false} BuildUsesFactories(configs: seq<DeviceConfig>, k: nat)
    requires k < |configs| && forall j :: 0 <= j < |configs| ==> Supported(configs[j])
    ensures Build(configs).Success?
    ensures var d := Build(configs).value;
      && ControllerFactory.Make(configs[k].make, configs[k].model, configs[k].config)
         == Success(ControllerFactory.Outlet(d.controllers[k].1))
      && FormFactory.Make(configs[k].make, configs[k].model, configs[k].title,
                          DeviceUid(k + 1), configs[k].fields)
         == Success(d.forms[k].1)
  {
    BuildError(configs);
    BuildFromUsesFactories(configs, Director([], [], map[]));
  }

  /** `controllers.get('form-<k>')` and `forms.get('form-<k>')` find device k. */
  lemma {:induction false} GetByDeviceUid(d: Director, k: nat)
    requires Valid(d) && 0 < k <= |d.controllers|
    ensures Get(d.controllers, DeviceUid(k)) == Some(d.controllers[k - 1].1)
    ensures Get(d.forms, DeviceUid(k)) == Some(d.forms[k - 1].1)
  {
    forall i, j | 0 <= i < j < |d.controllers|
      ensures d.controllers[i].0 != d.controllers[j].0 && d.forms[i].0 != d.forms[j].0
    {
      DeviceUidInjective(i + 1, j + 1);
    }
  }

  /** The UID of field i of device k (0-based positions) leads to (i, k); a
      UID that no field carries is not in the map. */
  lemma {:induction false} FieldUidResolution(d: Director, uid: string)
    requires Valid(d)
    ensures forall k, i :: 0 <= k < |d.forms| && 0 <= i < |d.forms[k].1.fields| ==>
      d.forms[k].1.fields[i].uid == BooleanForms.FieldUid(DeviceUid(k + 1), i)
      && d.fieldUidMap[BooleanForms.FieldUid(DeviceUid(k + 1), i)] == FieldTarget(i, k)
    ensures uid in d.fieldUidMap <==>
      exists k, i :: 0 <= k < |d.forms| && 0 <= i < |d.forms[k].1.fields| && d.forms[k].1.fields[i].uid == uid
  {
    if uid in d.fieldUidMap {
      var t := d.fieldUidMap[uid];
      assert d.forms[t.device].1.fields[t.index].uid == uid;
    }
  }

  // ---------------------------------------------------------------- routing

  /** The result of a director operation that may reach one controller. */
  datatype Reply = Reply(director: Director, outcome: Result<()>, calls: seq<TuyaDriver.DriverCall>)

  function UnknownFieldMessage(uid: string): string {
    "Unable to set state of unknown form field \"" + uid + "\""
  }

  /** `setFieldState(field_uid, state)`: an unknown UID is rejected before any
      controller is touched; a known one becomes exactly one `setState(index,
      state)` on its controller, whose outcome is passed on. */
  function SetFieldState(d: Director, uid: string, state: JsValue, writeReply: Result<TuyaDriver.Dps>): (r: Reply)
    requires Valid(d)
    ensures Valid(r.director)
    ensures uid !in d.fieldUidMap ==> r == Reply(d, Failure(Str(UnknownFieldMessage(uid))), [])
  {
    if uid !in d.fieldUidMap then
      Reply(d, Failure(Str(UnknownFieldMessage(uid))), [])
    else
      var t := d.fieldUidMap[uid];
      assert Routes(d, uid) && t.device < |d.controllers|;
      var (key, controller) := d.controllers[t.device];
      var step := TuyaOutlets.SetState(controller, t.index, state, writeReply);
      var controllers := d.controllers[t.device := (key, step.outlet)];
      SameKeysKeepsValid(d, controllers);
      Reply(Director(controllers, d.forms, d.fieldUidMap), step.outcome, step.calls)
  }

  /** Replacing controllers without changing their keys keeps the director valid. */
  lemma {:induction false} SameKeysKeepsValid(d: Director, controllers: OrderedMap<string, TuyaOutlet>)
    requires Valid(d)
    requires |controllers| == |d.controllers|
    requires forall k :: 0 <= k < |controllers| ==> controllers[k].0 == d.controllers[k].0
    ensures Valid(Director(controllers, d.forms, d.fieldUidMap))
  {
    var d' := Director(controllers, d.forms, d.fieldUidMap);
    assert Keyed(d');
    assert FormsWellFormed(d') by { assert d'.forms == d.forms; }
    assert MapRoutes(d') by {
      forall u | u in d'.fieldUidMap
        ensures Routes(d', u)
      {
        assert Routes(d, u);
      }
    }
    assert FieldsMapped(d') by { assert d'.forms == d.forms && d'.fieldUidMap == d.fieldUidMap; }
  }

  /** Writing field i of device k (by its UID) writes logical index i of
      controller k and touches no other controller. */
  lemma {:induction false} SetFieldStateRoutes(d: Director, k: nat, i: nat, state: JsValue, writeReply: Result<TuyaDriver.Dps>)
    requires Valid(d) && k < |d.forms| && i < |d.forms[k].1.fields|
    ensures
      var r := SetFieldState(d, BooleanForms.FieldUid(DeviceUid(k + 1), i), state, writeReply);
      var step := TuyaOutlets.SetState(d.controllers[k].1, i, state, writeReply);
      && r.outcome == step.outcome && r.calls == step.calls
      && r.director == Director(d.controllers[k := (DeviceUid(k + 1), step.outlet)], d.forms, d.fieldUidMap)
  {
    var uid := BooleanForms.FieldUid(DeviceUid(k + 1), i);
    assert d.forms[k].1.fields[i].uid == uid;
    assert uid in d.fieldUidMap && d.fieldUidMap[uid] == FieldTarget(i, k);
    assert d.controllers[k].0 == DeviceUid(k + 1);
  }

  // ---------------------------------------------------------------- bulk operations

  /** `controllers.forEach((controller, uid) => ...)`: apply one device's step,
      with that device's reply, to each controller and the form under the
      same UID (which, the keys being parallel, is at the same position). */
  function EachDevice<R>(d: Director, replies: seq<R>,
                         step: (TuyaOutlet, BooleanForm, R) -> (TuyaOutlet, BooleanForm), k: nat)
    : (r: Director)
    requires |replies| == |d.controllers| == |d.forms| && k <= |d.controllers|
    decreases |d.controllers| - k
    ensures |r.controllers| == |d.controllers| && |r.forms| == |d.forms|
    ensures r.fieldUidMap == d.fieldUidMap
    ensures forall j :: 0 <= j < k ==> r.controllers[j] == d.controllers[j] && r.forms[j] == d.forms[j]
    ensures forall j :: k <= j < |d.controllers| ==>
      && r.controllers[j] == (d.controllers[j].0, step(d.controllers[j].1, d.forms[j].1, replies[j]).0)
      && r.forms[j] == (d.forms[j].0, step(d.controllers[j].1, d.forms[j].1, replies[j]).1)
  {
    if k == |d.controllers| then d
    else
      var (o, f) := step(d.controllers[k].1, d.forms[k].1, replies[k]);
      EachDevice(d.(controllers := d.controllers[k := (d.controllers[k].0, o)],
                    forms := d.forms[k := (d.forms[k].0, f)]),
                 replies, step, k + 1)
  }

  /** A bulk operation that keeps every key and every form's layout keeps the director valid. */
  lemma {:induction false} SameLayoutKeepsValid(d: Director, d': Director)
    requires Valid(d)
    requires |d'.controllers| == |d.controllers| && |d'.forms| == |d.forms|
    requires d'.fieldUidMap == d.fieldUidMap
    requires forall k :: 0 <= k < |d.controllers| ==>
      d'.controllers[k].0 == d.controllers[k].0 && d'.forms[k].0 == d.forms[k].0
      && BooleanForms.SameLayout(d.forms[k].1, d'.forms[k].1)
    ensures Valid(d')
  {
    forall k | 0 <= k < |d.forms|
      ensures WellFormedForm(d'.forms[k].1, DeviceUid(k + 1))
    {
      BooleanForms.SameLayoutKeepsValid(d.forms[k].1, d'.forms[k].1);
    }
    forall u | u in d'.fieldUidMap
      ensures Routes(d', u)
    {
      assert Routes(d, u);
    }
    forall k, i | 0 <= k < |d'.forms| && 0 <= i < |d'.forms[k].1.fields|
      ensures d'.forms[k].1.fields[i].uid == d.forms[k].1.fields[i].uid
    {
    }
  }

  /** `states[i]` for field i: undefined past the end of the states. */
  function StateAt(states: seq<JsValue>, i: nat): JsValue {
    if i < |states| then states[i] else Undefined
  }

  /** `form.fields.forEach((field, index) => field.state = states[index])`, from field `i` on. */
  function CopyStates(f: BooleanForm, states: seq<JsValue>, i: nat): (r: BooleanForm)
    requires i <= |f.fields|
    decreases |f.fields| - i
    ensures BooleanForms.SameLayout(f, r)
    ensures r.hasErrorFlag == f.hasErrorFlag && r.errorMessage == f.errorMessage
    ensures forall j :: 0 <= j < i ==> r.fields[j] == f.fields[j]
    ensures forall j :: i <= j < |f.fields| ==> r.fields[j].state == StateAt(states, j)
  {
    if i == |f.fields| then f
    else CopyStates(BooleanForms.SetFieldState(f, i, StateAt(states, i)), states, i + 1)
  }

  /** The driver's answers to one device's `connect()`. */
  datatype ConnectReply = ConnectReply(connect: Result<()>, get: Result<TuyaDriver.Dps>)

  /** One device's part of `connectAll()`: connect, then copy the states into
      the form's fields, or record the rejection on the form. */
  function ConnectDevice(o: TuyaOutlet, f: BooleanForm, reply: ConnectReply): (r: (TuyaOutlet, BooleanForm))
    ensures r.0 == TuyaOutlets.Connect(o, reply.connect, reply.get).outlet
    ensures BooleanForms.SameLayout(f, r.1)
    ensures
      var step := TuyaOutlets.Connect(o, reply.connect, reply.get);
      && (step.outcome.Success? ==>
            && TuyaOutlets.GetStates(step.outlet).Some?
            && r.1.hasErrorFlag == f.hasErrorFlag && r.1.errorMessage == f.errorMessage
            && forall i :: 0 <= i < |f.fields| ==>
                 r.1.fields[i].state == StateAt(TuyaOutlets.GetStates(step.outlet).value, i))
      && (step.outcome.Failure? ==> r.1 == BooleanForms.SetErrorMessage(f, step.outcome.error))
  {
    var step := TuyaOutlets.Connect(o, reply.connect, reply.get);
    match step.outcome
    case Success(_) => (step.outlet, CopyStates(f, TuyaOutlets.GetStates(step.outlet).value, 0))
    case Failure(e) => (step.outlet, BooleanForms.SetErrorMessage(f, e))
  }

  /** `connectAll()`: every device connects on its own; each device's outcome
      lands on its own form only. */
  function ConnectAll(d: Director, replies: seq<ConnectReply>): (r: Director)
    requires Valid(d) && |replies| == |d.controllers|
    ensures Valid(r)
    ensures Keys(r.controllers) == Keys(d.controllers) && Keys(r.forms) == Keys(d.forms)
    ensures r.fieldUidMap == d.fieldUidMap
    ensures forall k :: 0 <= k < |d.controllers| ==>
      && r.controllers[k].1 == ConnectDevice(d.controllers[k].1, d.forms[k].1, replies[k]).0
      && r.forms[k].1 == ConnectDevice(d.controllers[k].1, d.forms[k].1, replies[k]).1
  {
    var r := EachDevice(d, replies, ConnectDevice, 0);
    SameLayoutKeepsValid(d, r);
    r
  }

  /** One device's part of `disconnectAll()`: disconnect, and record a
      rejection on the form. */
  function DisconnectDevice(o: TuyaOutlet, f: BooleanForm, driverReply: Result<()>): (r: (TuyaOutlet, BooleanForm))
    ensures r.0 == TuyaOutlets.Disconnect(o, driverReply).outlet
    ensures driverReply.Success? ==> r.1 == f && TuyaOutlets.GetStates(r.0).None?
    ensures driverReply.Failure? ==> r.1 == BooleanForms.SetErrorMessage(f, driverReply.error) && r.0 == o
  {
    var step := TuyaOutlets.Disconnect(o, driverReply);
    match step.outcome
    case Success(_) => (step.outlet, f)
    case Failure(e) => (step.outlet, BooleanForms.SetErrorMessage(f, e))
  }

  /** `disconnectAll()`: every device disconnects; a failure is recorded on
      that device's form only. */
  function DisconnectAll(d: Director, driverReplies: seq<Result<()>>): (r: Director)
    requires Valid(d) && |driverReplies| == |d.controllers|
    ensures Valid(r)
    ensures Keys(r.controllers) == Keys(d.controllers) && Keys(r.forms) == Keys(d.forms)
    ensures r.fieldUidMap == d.fieldUidMap
    ensures forall k :: 0 <= k < |d.controllers| ==>
      && r.controllers[k].1 == DisconnectDevice(d.controllers[k].1, d.forms[k].1, driverReplies[k]).0
      && r.forms[k].1 == DisconnectDevice(d.controllers[k].1, d.forms[k].1, driverReplies[k]).1
  {
    var r := EachDevice(d, driverReplies, DisconnectDevice, 0);
    SameLayoutKeepsValid(d, r);
    r
  }
}
