# light-bubble device layer, in Dafny

light-bubble is a small web application that switches Tuya power outlets and
strips on and off from a browser. This project models its device layer and
proves properties about the model:

- **the outlet controller** (`TuyaOutlets`, modelling `controllers/tuya_outlet.js`).
  It wraps one vendor driver. On `connect` it learns the device's native `dps`
  keys and keeps one state per key. It addresses the outlets by 0-based logical
  index. `setState` writes through the driver and `disconnect` forgets the states;
- **the boolean form** (`BooleanForms`, modelling `forms/boolean_form.js`).
  A form shows one device as a list of on/off fields. Each field has the UID
  `<form uid>-field-<i>`, and the form keeps an index from UID to position, an
  error flag and an error message;
- **the two factories** (`FormFactory` and `ControllerFactory`, over the shared
  maker → model lookup in `Registry`). They build the form and the controller
  for a device from its maker and model, and throw the same two messages for
  an unknown maker or model;
- **the device director** (`DeviceDirector`, modelling `device_director.js`).
  It builds one controller and one form per configured device, keyed
  `form-1 .. form-n` in configuration order. It keeps a map from field UID to
  (field index, controller). It routes `setFieldState` through that map, and
  folds each device's `connect`/`disconnect` outcome into that device's form
  alone;
- **the configuration loader** (`ConfigLoader`, modelling `config_loader.js`).
  It runs from the parsed JSON on: it checks the required fields in order,
  parses the port as `parseInt(port, 10)`, passes host and devices through, and
  picks a theme from a whitelist, case-insensitively, with a default.

Supporting modules:

- `Js` holds JavaScript values, thrown values, `String(v)` (including the TypeError it throws for an object with its own `toString` key) and `e.message`;
- `Decimal` holds decimal numerals and `parseInt`, with its rounding to the nearest double;
- `OrderedMaps` models JavaScript `Map` with insertion order;
- `TuyaDriver` models the vendor driver seen from outside.

Every operation is a pure function. The vendor driver is not modelled: each
reply of a built driver (to `connect`, `get`, `set` and `disconnect`) is a
parameter, as `Success(value)` or `Failure(thrown value)`, and building a
driver is assumed to succeed (see "Left out"). Each outlet operation returns the
new controller, how its promise settles, and the driver calls it made, in order.
The director's bulk operations take one reply per device.

Points where the code and its documentation or tests disagree. The model
follows the code in each case:

- `setState(index, state)` is documented as "starting at 1"
  (`light-bubble/controllers/tuya_outlet.js:65`). The code indexes
  `index_dps_map` from 0, and the tests and the director's field indices do too.
  The model is 0-based.
- The director's `setFieldState` changes the controller's states only. It does
  not write the new state into the form's field.
- A failed `connect` leaves the controller's previous states and field map as
  they were, and records the rejection on the form. A successful one rebuilds
  the field map from the new payload.
- A test of the theme (`light-bubble/test/config_loader.test.js:83-91`) expects
  a non-listed theme to be accepted when a `static/theme-<name>` directory
  exists. The code checks no directory: any theme that is not listed becomes
  `default`.
- A test constructs an outlet from `{}` (`light-bubble/controllers/test/tuya_outlet.test.js:4`).
  The constructor calls `device.on(...)`, which such an object lacks. The model
  assumes every driver accepts the listener.

## Model

| member | source | states |
|---|---|---|
| `Decimal.FromNat` | light-bubble/device_director.js:37 | The numeral JavaScript writes for a non-negative integer is non-empty, all digits, with no leading zero except for 0 itself |
| `Decimal.DigitsValueOfFromNat` | light-bubble/device_director.js:37 | Reading the written numeral back as digits gives the number: the UID counter is recoverable from its text |
| `Decimal.FromNatInjective` | light-bubble/forms/boolean_form.js:31 | Distinct numbers have distinct numerals, so distinct positions get distinct UIDs |
| `Decimal.TrimStart` | light-bubble/config_loader.js:26 | `parseInt` skips exactly the leading JavaScript white space: the result is a suffix of the input, everything removed is white space, and what is left does not start with white space |
| `Decimal.RoundToDoubleIsNearest` | light-bubble/config_loader.js:26 | `parseInt` returns a double: the rounded value is within half a unit of the exact one, and is a multiple of the spacing of doubles at that size |
| `Decimal.ToNumberExact` | light-bubble/config_loader.js:26 | Every integer up to 2^53 - 1 in magnitude is a double, so the value is kept exactly, sign included |
| `Decimal.RoundsPastSafeIntegers` | light-bubble/config_loader.js:26 | Past 2^53 the value does round: 2^53 + 1 reads as 2^53 |
| `Decimal.ParseInt` | light-bubble/config_loader.js:26 | `parseInt(s, 10)` is NaN exactly when, after the leading white space, the text does not start with a digit or a sign followed by a digit |
| `Decimal.ParseSignedOfDigits` | light-bubble/config_loader.js:26 | After trimming, a run of digits is read whole in base 10 and rounded to the nearest double |
| `Decimal.ParseIntOfDigits` | light-bubble/config_loader.js:26 | `parseInt(s, 10)` of a string of digits is the double nearest the base-10 value of all of them, leading zeros included; up to 2^53 - 1 it is that value exactly |
| `Decimal.ParseSignedOfNegative` | light-bubble/config_loader.js:26 | A minus sign followed by a numeral reads back as the double nearest the negative number |
| `Decimal.ParseIntOfFromInt` | light-bubble/config_loader.js:26 | `parseInt` of the decimal numeral written out for `n` is the double nearest `n` (this is `parseInt(String(n), 10)` below 1e21, where `String` writes the full numeral), and is `n` itself for every integer within 2^53 - 1: writing and parsing are inverse on safe integers |
| `Decimal.ParseIntSkipsWhiteSpace` | light-bubble/config_loader.js:26 | A leading white-space character does not change the result |
| `Decimal.ParseIntStopsAtNonDigit` | light-bubble/config_loader.js:26 | Reading stops at the first character that is not a digit: whatever follows is ignored |
| `Js.ToJsString` | light-bubble/config_loader.js:26 | `String(v)`, as `parseInt` applies it, throws exactly for an object with its own `toString` key, or an array holding one at any depth, and then with the TypeError "Cannot convert object to primitive value" |
| `Js.ArrayToJsString` | light-bubble/config_loader.js:26 | `String` of an array joins its elements with commas, writing undefined and null as empty: `[]` is `""`, `[x]` is `String(x)` and `[x, y]` is `String(x),String(y)`; when `String(x)` throws, so does `String([x, y])`, with the same error |
| `Js.MessageOf` | light-bubble/controllers/tuya_outlet.js:35 | `e.message` throws exactly for undefined and null, and gives an Error's message |
| `OrderedMaps.Keys` | light-bubble/device_director.js:45-46 | The keys of a `Map` in insertion order, one per entry (also `Object.keys` of a driver payload) |
| `OrderedMaps.IndexOf` | light-bubble/device_director.js:68 | The position found holds the key and no earlier entry does; past the end means absent |
| `OrderedMaps.Get` | light-bubble/device_director.js:68 | `map.get(k)` is undefined exactly when no entry has key `k`; with distinct keys it is that entry's value |
| `OrderedMaps.Put` | light-bubble/device_director.js:45-46 | `map.set(k, v)` appends a new key and keeps a present key in place (same keys, same order); afterwards `get(k)` is `v` and `get` of every other key is what it was |
| `TuyaDriver.Values` | light-bubble/controllers/tuya_outlet.js:33 | The payload's values, one per entry, in entry order |
| `TuyaDriver.LookupOfKey` | light-bubble/controllers/tuya_outlet.js:33 | In an object, `dps[key]` for its i-th key is its i-th value |
| `TuyaDriver.Write` | light-bubble/controllers/tuya_outlet.js:73 | A driver that writes one key either keeps the key list or appends that key |
| `TuyaDriver.LookupAfterWrite` | light-bubble/controllers/tuya_outlet.js:73 | After a write, the written key reads the written value and every other key reads what it read before |
| `Registry.MessagesDiffer` | light-bubble/controller_factory.js:22-33 | The unknown-maker and unknown-model messages are never equal, so a caller can tell them apart |
| `TuyaOutlets.New` | light-bubble/controllers/tuya_outlet.js:12-17 | A new outlet wraps the given driver and has undefined states and no field map |
| `TuyaOutlets.Project` | light-bubble/controllers/tuya_outlet.js:33 | The states are `dps[k]`, read on the payload's own entries, for each mapped native key `k`, one per logical field, in map order |
| `TuyaOutlets.Connect` | light-bubble/controllers/tuya_outlet.js:27-37 | The driver is asked to connect and then, only if that succeeded, for its status with schema. Either failure rejects with the error's message and changes nothing. Success maps logical field i to the i-th native key and sets state i to that key's value |
| `TuyaOutlets.Disconnect` | light-bubble/controllers/tuya_outlet.js:47-50 | One driver disconnect call, then the states become undefined and the field map is kept; a driver that throws synchronously leaves the outlet as it was and rejects with the thrown value |
| `TuyaOutlets.SetState` | light-bubble/controllers/tuya_outlet.js:71-75 | Exactly one driver write, of the state, to the native key of the logical index (undefined past the end). On success the states are the response read through the unchanged field map; a driver error is passed on as is and changes nothing. Before any connect it throws, reading an index of undefined, with no driver call |
| `TuyaOutlets.ConnectedStatesAreValues` | light-bubble/controllers/tuya_outlet.js:31-33 | After a successful connect, the states are exactly the payload's values in key order |
| `TuyaOutlets.SetStateChangesOnlyThatField` | light-bubble/controllers/tuya_outlet.js:71-75 | When the driver answers a write with the payload updated at the written key, exactly that logical field changes to the new state |
| `TuyaOutlets.DisconnectKeepsFieldMap` | light-bubble/controllers/tuya_outlet.js:47-50 | A disconnect forgets the states but not the field map: a later `setState` writes the same native key with the same outcome as before the disconnect, and a successful one brings the states back without a reconnect |
| `TuyaOutlets.StatesLifecycle` | light-bubble/controllers/tuya_outlet.js:59-61 | `getStates()` is undefined on a new outlet, the payload's values after a successful connect, and undefined again after a disconnect |
| `BooleanForms.FieldUidInjective` | light-bubble/forms/boolean_form.js:31 | Two fields of one form never share a UID |
| `BooleanForms.IndexesAppend` | light-bubble/forms/boolean_form.js:36-37 | Indexing a field with a new UID at its position, as it is pushed, keeps the UID index and the field list in exact agreement |
| `BooleanForms.Populate` | light-bubble/forms/boolean_form.js:27-38 | Field i has the i-th definition's name and state, the UID `<uid>-field-<i>` and type boolean; the UID index maps each field's UID to its position and knows no other UID |
| `BooleanForms.New` | light-bubble/forms/boolean_form.js:19-39 | The constructor keeps uid and title and builds one field per definition, in order. The index is consistent, there is no error flag, the message is empty and `hasError()` is false |
| `BooleanForms.GetFieldByUid` | light-bubble/forms/boolean_form.js:49-57 | A field is returned only if the form holds it, and on a consistent form it carries the requested UID; otherwise the thrown message names the form and the UID |
| `BooleanForms.GetFieldByUidRoundTrip` | light-bubble/forms/boolean_form.js:49-57 | Looking up a field's own UID returns that field |
| `BooleanForms.GetFieldByUidFailsOnlyForStrangers` | light-bubble/forms/boolean_form.js:49-57 | The lookup throws exactly for UIDs that no field carries |
| `BooleanForms.SameLayoutKeepsValid` | light-bubble/forms/boolean_form.js:36-37 | Changing states and error data, never UIDs, keeps the UID index consistent |
| `BooleanForms.SetErrorMessage` | light-bubble/forms/boolean_form.js:79-82 | The flag is raised and the message stored. `hasError()` is true exactly when the message is not the empty string. The fields are untouched |
| `BooleanForms.ErrorMessageReadsBack` | light-bubble/forms/boolean_form.js:93-95 | `getErrorMessage()` returns the last message set, whatever was set before; `hasError()` follows that last message |
| `BooleanForms.HasErrorIgnoresFlag` | light-bubble/forms/boolean_form.js:68-70 | `hasError()` reads the message, not the flag: setting the empty message raises the flag while `hasError()` stays false |
| `BooleanForms.SetFieldState` | light-bubble/device_director.js:69 | Setting field i's state changes that state only; every other field and the error data stay |
| `FormFactory.Definitions` | light-bubble/form_factory.js:36-41 | One definition per field name, in order, each with an undefined state |
| `FormFactory.Make` | light-bubble/form_factory.js:23-44 | Only (tuya, outlet) builds a form, with the maker and model errors otherwise. The form has the given title and UID, and field i has name i, an undefined state and UID `<uid>-field-<i>` |
| `ControllerFactory.Make` | light-bubble/controller_factory.js:21-37 | Only (tuya, device) and (tuya, outlet) succeed, with the maker and model errors otherwise. An outlet wraps a driver built from exactly the device config and starts with undefined states |
| `DeviceDirector.DeviceUidInjective` | light-bubble/device_director.js:37 | Distinct counters give distinct device UIDs |
| `DeviceDirector.FieldUidsDiffer` | light-bubble/device_director.js:49-51 | A field UID determines its device and its position, so no device's fields overwrite another's entries in the field UID map |
| `DeviceDirector.AddFieldUids` | light-bubble/device_director.js:49-51 | Adds exactly the form's field UIDs, each leading to this device and to a field carrying that UID; other entries are kept |
| `DeviceDirector.RegisterAppends` | light-bubble/device_director.js:45-46 | Registering under the next UID appends one entry to both the controllers and the forms |
| `DeviceDirector.NewFieldUidsAreFresh` | light-bubble/device_director.js:49-51 | None of the next device's field UIDs is already in the map |
| `DeviceDirector.RegisterNextKeyed` | light-bubble/device_director.js:45-46 | Registering under the next UID `form-<n+1>` appends the outlet and the form to the end of both maps, and both key sequences are still `form-1 .. form-n` |
| `DeviceDirector.RegisterNextForms` | light-bubble/device_director.js:42-46 | Every registered form stays well formed under its own key |
| `DeviceDirector.RegisterNextRoutes` | light-bubble/device_director.js:49-51 | Every UID in the map still leads to a registered field that carries it |
| `DeviceDirector.RegisterNextIndexes` | light-bubble/device_director.js:49-51 | The UID of field i of device k leads to (i, k), for the new device too |
| `DeviceDirector.RegisterKeepsValid` | light-bubble/device_director.js:36-53 | One pass of the constructor's loop appends the device and keeps every invariant of the director |
| `DeviceDirector.MakeDevice` | light-bubble/device_director.js:39-43 | A device is built exactly when it is a Tuya outlet. The controller and form are what the two factories return for its configuration and UID; otherwise the error is the maker error or the model error |
| `DeviceDirector.BuildFromError` | light-bubble/device_director.js:36-54 | The loop throws exactly when some remaining device is unsupported, and then with that first device's error |
| `DeviceDirector.BuildFromStep` | light-bubble/device_director.js:36-54 | One turn of the loop registers a supported device under `form-<i+1>` and goes on with the next |
| `DeviceDirector.AdvanceKeyed` | light-bubble/device_director.js:36-46 | One turn of the loop on a supported device appends, under `form-<n+1>`, the controller and the form the two factories make from its configuration, and keeps the keys `form-1 .. form-n` |
| `DeviceDirector.BuildFromKeepsPrefix` | light-bubble/device_director.js:36-54 | The loop keeps the devices already registered where they are and ends with one device per configuration, keyed `form-1 .. form-n` |
| `DeviceDirector.BuildFromUsesFactories` | light-bubble/device_director.js:36-54 | Each device the loop appends is what the two factories make from its configuration and its UID |
| `DeviceDirector.BuildFromValid` | light-bubble/device_director.js:36-54 | The loop keeps the director's invariants |
| `DeviceDirector.FirstConfigErrorIsFirst` | light-bubble/device_director.js:36-54 | The reference error is absent exactly when every device is supported; otherwise it is the error of the first unsupported device |
| `DeviceDirector.Build` | light-bubble/device_director.js:29-55 | A constructed director satisfies every invariant and has one controller per configured device |
| `DeviceDirector.BuildError` | light-bubble/device_director.js:29-55 | Construction succeeds exactly when every device is a Tuya outlet, and otherwise throws the error of the first device that is not |
| `DeviceDirector.BuildKeys` | light-bubble/device_director.js:29-55 | After construction, `controllers` and `forms` both have the keys `form-1 .. form-n`, in configuration order: the k-th device (0-based position k) has the UID `form-<k+1>` |
| `DeviceDirector.BuildUsesFactories` | light-bubble/device_director.js:39-43 | Device k's controller and form are what the two factories make from its configuration, the form under UID `form-<k+1>` |
| `DeviceDirector.GetByDeviceUid` | light-bubble/device_director.js:68 | `controllers.get('form-k')` and `forms.get('form-k')` find the k-th device |
| `DeviceDirector.FieldUidResolution` | light-bubble/device_director.js:49-51 | The UID of field i of device k is `form-<k+1>-field-<i>` and leads to (i, k); a UID is in the map exactly when some field carries it |
| `DeviceDirector.SetFieldState` | light-bubble/device_director.js:102-110 | An unknown UID throws the unknown-field message with no controller touched and no driver call; every outcome keeps the director's invariants |
| `DeviceDirector.SameKeysKeepsValid` | light-bubble/device_director.js:109 | Replacing controllers without changing their keys keeps the invariants |
| `DeviceDirector.SetFieldStateRoutes` | light-bubble/device_director.js:102-110 | Writing field i of device k calls `setState(i, state)` on controller k only. Its outcome and driver calls are passed on, and the forms and the map are unchanged |
| `DeviceDirector.EachDevice` | light-bubble/device_director.js:64 | `controllers.forEach`: each device's step sees its own controller, its own form and its own reply, and changes nothing at other positions |
| `DeviceDirector.SameLayoutKeepsValid` | light-bubble/device_director.js:63-91 | A bulk operation that keeps every key and every form's layout keeps the director's invariants |
| `DeviceDirector.CopyStates` | light-bubble/device_director.js:68-70 | Field i of the form gets `states[i]` (undefined past the end); layout and error data are untouched |
| `DeviceDirector.ConnectDevice` | light-bubble/device_director.js:65-74 | After a connect that resolved, every field shows the controller's state at its index; after one that rejected, the form records the rejection as its error |
| `DeviceDirector.ConnectAll` | light-bubble/device_director.js:63-76 | Every device connects with its own reply and its outcome lands on its own form; keys, the field map and the invariants are kept |
| `DeviceDirector.DisconnectDevice` | light-bubble/device_director.js:86-90 | A disconnect clears the states and leaves the form; a rejection is recorded on the form and leaves the controller |
| `DeviceDirector.DisconnectAll` | light-bubble/device_director.js:85-91 | Every device disconnects with its own reply, and a rejection lands on that device's form only; keys, the field map and the invariants are kept |
| `ConfigLoader.OwnProperties` | light-bubble/config_loader.js:22 | `hasOwnProperty.call` throws a TypeError exactly for undefined and null; an object offers its own properties |
| `ConfigLoader.Lower` | light-bubble/config_loader.js:49 | Lowering keeps the length, leaves no letter A-Z, and changes no other character |
| `ConfigLoader.LowerMatches` | light-bubble/config_loader.js:49 | Lowering a string gives a lower-case word exactly when the string spells that word in any mix of cases |
| `ConfigLoader.ThemeOf` | light-bubble/config_loader.js:46-55 | Without a theme field the theme is `default`. The theme is always a listed one. Reading it throws exactly when a theme field is present and is not a string |
| `ConfigLoader.ThemeOfString` | light-bubble/config_loader.js:46-55 | A theme string that spells a listed theme in any case selects that theme; any other string selects `default` |
| `ConfigLoader.ThemeStable` | light-bubble/config_loader.js:46-55 | Configuring the chosen theme again chooses it again |
| `ConfigLoader.Load` | light-bubble/config_loader.js:17-56 | Loading succeeds exactly for an object with port, host and devices whose port converts to a string and whose theme, if present, is a string. Undefined and null throw a TypeError, and other values miss the port. A port that throws on conversion throws before host and devices are checked. On success host and devices are passed through unchanged, the port is `parseInt(String(port), 10)` and the theme is the one the theme rule picks |
| `ConfigLoader.FirstMissingRequired` | light-bubble/config_loader.js:22-40 | The first missing required field, in the order port, host, devices |
| `ConfigLoader.LoadReportsFirstMissing` | light-bubble/config_loader.js:22-40 | A missing field throws the message of the first one missing, in check order, unless a present port throws on conversion first; with all three present, loading fails only on the port's conversion or the theme |
| `ConfigLoader.MissingMessagesDiffer` | light-bubble/config_loader.js:23-39 | The three missing-field messages are distinct |
| `ConfigLoader.PortOfNumber` | light-bubble/config_loader.js:26 | A numeric port within JavaScript's exact integer range is loaded unchanged |
| `ConfigLoader.PortOfDigits` | light-bubble/config_loader.js:26 | A port given as a string of digits is read in base 10, leading zeros included, as the nearest double; up to 2^53 - 1 it is read exactly |
| `ConfigLoader.PortOfNonNumeric` | light-bubble/config_loader.js:26 | A port given as a boolean, null or an object loads as NaN, except an object with its own `toString` key, on which loading throws the conversion TypeError |
| `ConfigLoader.OwnToStringPortThrows` | light-bubble/config_loader.js:26 | `{"port": {"toString": 0}, "host": "h", "devices": []}` throws the conversion TypeError, and so does the port `[{"toString": 0}]` |
| `ConfigLoader.ZeroPaddedPort` | light-bubble/config_loader.js:26 | `parseInt("0123", 10)` is 123 |

## Left out

- Reading the configuration file and `JSON.parse` are not modelled. The loader starts from the parsed value. Objects are taken with distinct keys, as `JSON.parse` produces them; for a repeated key the model reads the first entry, where JavaScript keeps the last.
- The vendor driver (`tuyapi`) and the network are not modelled. Every reply of a built driver is a parameter.
- `ControllerFactory.Make`: the driver constructor `new Device(device_config)` (`light-bubble/controller_factory.js:35`) is assumed not to throw, whatever the device config; for the `device` model, so is the second construction that wraps that driver. The `tuyapi` library is not part of this model. `DeviceDirector.MakeDevice` and `DeviceDirector.BuildError` rest on this assumption: a driver that threw would abort construction with its own error.
- `DeviceDirector.DeviceConfig`: a device entry of the configuration is taken as already shaped, with string `make`, `model` and `title` and a list of string field names. Raw JSON entries that do not have this shape are not represented: a missing `fields` makes the form factory throw a TypeError after the controller has been built (`light-bubble/form_factory.js:38`); a string `fields` gives one field per character; non-string names are compared and interpolated as JavaScript would.
- Promises and their interleaving are not modelled. Each device's `connect`, `disconnect` and `setState` is one atomic step, and `connectAll`/`disconnectAll` apply the devices in key order. The source starts them all at once without awaiting, and the model's per-device result does not depend on that order.
- `TuyaOutlets.Disconnect`: the driver's `disconnect()` promise is not awaited by the source, so its later rejection is never seen by the outlet or the director (Node reports it as an unhandled rejection, which the model does not represent). The model's only rejection is a driver call that throws at once.
- `TuyaOutlets.New`: the `error` listener installed on the driver discards every event and has no effect on the model.
- `TuyaOutlets.Connect`: the `dps` payload is taken in the order `Object.keys` lists it. JavaScript's ordering (integer-like keys ascending first, then insertion order) is not computed.
- `TuyaOutlets.SetState`: `device_status.dps[key]` (`light-bubble/controllers/tuya_outlet.js:74`) is read on the reply's own entries only (`TuyaDriver.Lookup`). In JavaScript a key missing from the reply is looked up on `Object.prototype`, so a mapped key named `constructor`, `toString`, `valueOf`, `hasOwnProperty` or `__proto__` reads an inherited function or object where the model reads undefined. Tuya `dps` keys are numeric strings, which name no inherited property. `TuyaOutlets.Connect` is unaffected: its keys come from `Object.keys` of the same payload, so every lookup finds an own entry.
- `Js.ToJsString`: integers are written out in full. JavaScript switches to exponent notation at 1e21 and a number held in a configuration is already a double, so the port round trip is stated only up to 2^53 - 1. Fractional numbers, -0, NaN and Infinity are not represented as configuration values: a `Num` holds an integer.
- `Decimal.ParseInt`: `parseInt("-0", 10)` (and any other negative numeral that rounds to zero) is -0 in JavaScript; the model's `Int(0)` does not tell -0 from 0. Rounding to a double is modelled for the integer part only, which is all `parseInt` produces.
- `ConfigLoader.ThemeOf`: `toLowerCase` is modelled on A-Z only. This does not change the outcome. The listed themes are plain lower-case ASCII words. The only non-ASCII character that lowers to exactly one ASCII letter is the Kelvin sign (to `k`), which no listed theme contains; `İ` lowers to `i` followed by a combining dot, which stays non-ASCII. Any other non-ASCII character still makes the theme unlisted after lowering.
- `ConfigLoader.OwnProperties`: arrays and primitives are treated as objects with no own properties, because their own properties (indices and `length`) never include `port`, `host`, `devices` or `theme`.
- The `device` model of the controller factory (a bare driver) is modelled in `ControllerFactory.Make`, but the director never holds one: the form factory rejects that model, so construction fails first.
- The routing layer, the application entry point, the static client and the legacy top-level `tuya_outlet.js`/`tuya_switch.js` are not part of this model.
- Driver payloads that are not objects (a `get` or `set` answer without `dps`) are not modelled. The driver's reply is always a `dps` payload or a thrown value.
