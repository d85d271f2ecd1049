/** JavaScript values as the device layer handles them: values in a driver's
    state payload, values of the parsed configuration, and the values code
    throws or rejects a promise with. */
module Js {
  import Decimal

  datatype Option<+T> = None | Some(value: T)

  /** How a call settles: with its value, or with the value it threw or
      rejected with (JavaScript can throw any value). */
  datatype Result<+T> = Success(value: T) | Failure(error: JsValue) {
    predicate IsFailure() {
      Failure?
    }

    function PropagateFailure<U>(): Result<U>
      requires Failure?
    {
      Failure(error)
    }

    function Extract(): T
      requires Success?
    {
      value
    }
  }

  datatype JsValue =
    | Undefined
    | Null
    | Bool(b: bool)
    | Num(n: int)
    | Str(s: string)
    | Arr(items: seq<JsValue>)
    | Obj(props: seq<(string, JsValue)>)
    | ErrorObject(name: string, message: string)

  function TypeError(message: string): JsValue {
    ErrorObject("TypeError", message)
  }

  /** The TypeError V8 raises when property `prop` is read from undefined or null. */
  function ReadOfNothing(holder: JsValue, prop: string): JsValue
    requires holder.Undefined? || holder.Null?
  {
    var what := if holder.Undefined? then "undefined" else "null";
    TypeError("Cannot read properties of " + what + " (reading '" + prop + "')")
  }

  /** `obj[key]` on an object's own properties: the first entry with that key, or undefined. */
  function Property(props: seq<(string, JsValue)>, key: string): JsValue {
    if |props| == 0 then Undefined
    else if props[0].0 == key then props[0].1
    else Property(props[1..], key)
  }

  /** `e.message`: a TypeError is thrown for undefined and null; values with no
      such property give undefined. */
  function MessageOf(e: JsValue): (r: Result<JsValue>)
    ensures r.Failure? <==> e.Undefined? || e.Null?
    ensures e.ErrorObject? ==> r == Success(Str(e.message))
  {
    match e
    case Undefined => Failure(ReadOfNothing(e, "message"))
    case Null => Failure(ReadOfNothing(e, "message"))
    case ErrorObject(_, m) => Success(Str(m))
    case Obj(props) => Success(Property(props, "message"))
    case _ => Success(Undefined)
  }

  /** `Object.prototype.hasOwnProperty`: some own property has that key. */
  predicate HasOwn(props: seq<(string, JsValue)>, key: string) {
    exists i :: 0 <= i < |props| && props[i].0 == key
  }

  /** A key the object does not have reads as undefined. */
  lemma {:induction false} PropertyOfAbsent(props: seq<(string, JsValue)>, key: string)
    requires !HasOwn(props, key)
    ensures Property(props, key) == Undefined
  {
    if |props| > 0 {
      assert props[0].0 != key;
      assert !HasOwn(props[1..], key) by {
        forall i | 0 <= i < |props[1..]|
          ensures props[1..][i].0 != key
        {
          assert props[1..][i] == props[i + 1];
        }
      }
      PropertyOfAbsent(props[1..], key);
    }
  }

  /** What `String(v)` throws when neither `toString` nor `valueOf` gives a primitive. */
  function NoPrimitive(): JsValue {
    TypeError("Cannot convert object to primitive value")
  }

  /** The values `String(v)` throws on. A parsed object inherits a `toString`
      that gives `"[object Object]"`, unless it has an own `toString` key: no
      parsed value is callable, so that key is skipped, `valueOf` gives back
      the object itself, and the conversion throws. An array converts its
      elements, so it throws when any of them does. */
  predicate Unconvertible(v: JsValue)
    decreases v
  {
    match v
    case Obj(props) => HasOwn(props, "toString")
    case Arr(items) => exists i :: 0 <= i < |items| && Unconvertible(items[i])
    case _ => false
  }

  /** `String(v)`, the conversion `parseInt` applies to its argument. */
  function ToJsString(v: JsValue): (r: Result<string>)
    decreases v
    ensures r.Failure? <==> Unconvertible(v)
    ensures r.Failure? ==> r.error == NoPrimitive()
  {
    match v
    case Undefined => Success("undefined")
    case Null => Success("null")
    case Bool(b) => Success(if b then "true" else "false")
    case Num(n) => Success(Decimal.FromInt(n))
    case Str(s) => Success(s)
    case Arr(items) =>
      var parts := seq(|items|, i requires 0 <= i < |items| =>
        if items[i].Undefined? || items[i].Null? then Success("") else ToJsString(items[i]));
      assert forall i :: 0 <= i < |items| ==> (parts[i].Failure? <==> Unconvertible(items[i]));
      JoinResults(parts)
    case Obj(props) =>
      if HasOwn(props, "toString") then Failure(NoPrimitive()) else Success("[object Object]")
    case ErrorObject(name, message) => Success(if message == "" then name else name + ": " + message)
  }

  /** An array converts as its elements joined with commas, `undefined` and
      `null` elements as empty strings: `[]` is `""`, `[x]` is `x` itself and
      `[x, y]` is `x,y`. The first element that throws decides the error. */
  lemma {:induction false} ArrayToJsString(x: JsValue, y: JsValue)
    ensures ToJsString(Arr([])) == Success("")
    ensures ToJsString(Arr([x])) == (if x.Undefined? || x.Null? then Success("") else ToJsString(x))
    ensures
      && !x.Undefined? && !x.Null? && !y.Undefined? && !y.Null?
      && ToJsString(x).Success? && ToJsString(y).Success?
      ==> ToJsString(Arr([x, y])) == Success(ToJsString(x).value + "," + ToJsString(y).value)
    ensures ToJsString(x).Failure? ==> ToJsString(Arr([x, y])) == ToJsString(x)
  {
    var items := [x, y];
    var parts := seq(|items|, i requires 0 <= i < |items| =>
      if items[i].Undefined? || items[i].Null? then Success("") else ToJsString(items[i]));
    assert ToJsString(Arr(items)) == JoinResults(parts);
    assert parts[1..] == [parts[1]];
    assert parts[0] == if x.Undefined? || x.Null? then Success("") else ToJsString(x);
    assert parts[1] == if y.Undefined? || y.Null? then Success("") else ToJsString(y);
    assert JoinResults(parts[1..]) == parts[1];
  }

  /** The elements' strings joined with commas, as `Array.prototype.join`
      does, or the error of the first element that threw. */
  function JoinResults(parts: seq<Result<string>>): (r: Result<string>)
    ensures r.Failure? <==> exists i :: 0 <= i < |parts| && parts[i].Failure?
    ensures r.Failure? ==>
      exists i :: 0 <= i < |parts| && parts[i] == r && forall j :: 0 <= j < i ==> parts[j].Success?
  {
    if |parts| == 0 then Success("")
    else if parts[0].Failure? || |parts| == 1 then parts[0]
    else
      var rest := JoinResults(parts[1..]);
      if rest.Failure? then rest else Success(parts[0].value + "," + rest.value)
  }
}
