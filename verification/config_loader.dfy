/** `config_loader`: checks the parsed configuration file and turns it into the
    values the application uses (port, host, device list, theme). The input is
    the value `JSON.parse` produced; reading and parsing the file are not part
    of this model. */
module ConfigLoader {
  import opened Js
  import Decimal

  /** The themes the application ships, all lower case. */
  const ValidThemes: seq<string> := ["default", "catseye"]

  const DefaultTheme := "default"

  /** The three fields a configuration must have, in the order they are checked. */
  const RequiredFields: seq<string> := ["port", "host", "devices"]

  datatype Config = Config(port: Decimal.Number, host: JsValue, devices: JsValue, theme: string)

  /** The string thrown when a required field is missing. */
  function MissingMessage(field: string): string {
    if field == "devices" then "Field \"devices\" missing from config file, use [] for 0 devices"
    else "Field \"" + field + "\" missing from config file"
  }

  /** The own properties `hasOwnProperty` consults. Arrays and primitives have
      none of the four names the loader asks about (their own properties are
      indices and `length`), so they count as having no properties at all;
      undefined and null cannot be converted to an object. */
  function OwnProperties(config: JsValue): (r: Result<seq<(string, JsValue)>>)
    ensures r.Failure? <==> config.Undefined? || config.Null?
    ensures r.Failure? ==> r.error == TypeError("Cannot convert undefined or null to object")
    ensures config.Obj? ==> r == Success(config.props)
  {
    match config
    case Undefined => Failure(TypeError("Cannot convert undefined or null to object"))
    case Null => Failure(TypeError("Cannot convert undefined or null to object"))
    case Obj(props) => Success(props)
    case _ => Success([])
  }

  /** `toLowerCase` on the letters A-Z. */
  function LowerChar(c: char): char {
    if 'A' <= c <= 'Z' then (c as int + 32) as char else c
  }

  function Lower(s: string): (t: string)
    ensures |t| == |s|
    ensures forall i :: 0 <= i < |s| ==> !('A' <= t[i] <= 'Z')
    ensures forall i :: 0 <= i < |s| && !('A' <= s[i] <= 'Z') ==> t[i] == s[i]
  {
    seq(|s|, i requires 0 <= i < |s| => LowerChar(s[i]))
  }

  /** The upper-case form of a lower-case letter. */
  function UpperChar(c: char): char {
    if 'a' <= c <= 'z' then (c as int - 32) as char else c
  }

  predicate IsLowerWord(v: string) {
    forall i :: 0 <= i < |v| ==> 'a' <= v[i] <= 'z'
  }

  /** `s` spells the lower-case word `v`, each letter in either case. */
  predicate MatchesIgnoringCase(s: string, v: string) {
    |s| == |v| && forall i :: 0 <= i < |s| ==> s[i] == v[i] || s[i] == UpperChar(v[i])
  }

  /** Lowering a string gives a lower-case word exactly when the string spells
      that word in any mix of cases. */
  lemma {:induction false} LowerMatches(s: string, v: string)
    requires IsLowerWord(v)
    ensures Lower(s) == v <==> MatchesIgnoringCase(s, v)
  {
    if Lower(s) == v {
      forall i | 0 <= i < |s|
        ensures s[i] == v[i] || s[i] == UpperChar(v[i])
      {
        assert LowerChar(s[i]) == v[i];
      }
    }
    if MatchesIgnoringCase(s, v) {
      forall i | 0 <= i < |s|
        ensures Lower(s)[i] == v[i]
      {
        assert 'a' <= v[i] <= 'z';
      }
    }
  }

  /** Lines 46-55: the theme is `default` unless the field is present and
      lowers to a name on the list; `toLowerCase` throws for a non-string. */
  function ThemeOf(props: seq<(string, JsValue)>): (r: Result<string>)
    ensures !HasOwn(props, "theme") ==> r == Success(DefaultTheme)
    ensures r.Success? ==> r.value in ValidThemes
    ensures r.Failure? <==> HasOwn(props, "theme") && !Property(props, "theme").Str?
  {
    if !HasOwn(props, "theme") then Success(DefaultTheme)
    else
      var value := Property(props, "theme");
      match value
      case Str(s) => var t := Lower(s); Success(if t in ValidThemes then t else DefaultTheme)
      case Undefined => Failure(ReadOfNothing(value, "toLowerCase"))
      case Null => Failure(ReadOfNothing(value, "toLowerCase"))
      case _ => Failure(TypeError("config.theme.toLowerCase is not a function"))
  }

  /** The theme is the listed name the configured string spells in any case,
      and `default` when it spells none of them. */
  lemma {:induction false} ThemeOfString(props: seq<(string, JsValue)>, s: string)
    requires HasOwn(props, "theme") && Property(props, "theme") == Str(s)
    ensures forall v :: v in ValidThemes && MatchesIgnoringCase(s, v) ==> ThemeOf(props) == Success(v)
    ensures (forall v :: v in ValidThemes ==> !MatchesIgnoringCase(s, v)) ==>
      ThemeOf(props) == Success(DefaultTheme)
  {
    forall v | v in ValidThemes
      ensures Lower(s) == v <==> MatchesIgnoringCase(s, v)
    {
      LowerMatches(s, v);
    }
  }

  /** The constructor, from the parsed configuration on. */
  function Load(config: JsValue): (r: Result<Config>)
    ensures config.Undefined? || config.Null? ==>
      r == Failure(TypeError("Cannot convert undefined or null to object"))
    ensures !config.Obj? && !config.Undefined? && !config.Null? ==>
      r == Failure(Str(MissingMessage("port")))
    ensures config.Obj? && HasOwn(config.props, "port") && Unconvertible(Property(config.props, "port")) ==>
      r == Failure(NoPrimitive())
    ensures r.Success? <==>
      && config.Obj?
      && HasOwn(config.props, "port") && HasOwn(config.props, "host") && HasOwn(config.props, "devices")
      && !Unconvertible(Property(config.props, "port"))
      && (HasOwn(config.props, "theme") ==> Property(config.props, "theme").Str?)
    ensures r.Success? ==>
      && r.value.host == Property(config.props, "host")
      && r.value.devices == Property(config.props, "devices")
      && r.value.port == Decimal.ParseInt(ToJsString(Property(config.props, "port")).value)
      && r.value.theme in ValidThemes
      && Success(r.value.theme) == ThemeOf(config.props)
  {
    var props :- OwnProperties(config);
    if !HasOwn(props, "port") then Failure(Str(MissingMessage("port")))
    else
      var text := ToJsString(Property(props, "port"));
      if text.Failure? then Failure(text.error)
      else
      var port := Decimal.ParseInt(text.value);
      if !HasOwn(props, "host") then Failure(Str(MissingMessage("host")))
      else if !HasOwn(props, "devices") then Failure(Str(MissingMessage("devices")))
      else
        var theme := ThemeOf(props);
        if theme.Failure? then Failure(theme.error)
        else Success(Config(port, Property(props, "host"), Property(props, "devices"), theme.value))
  }

  /** The first of `fields` the properties lack. */
  function FirstMissing(props: seq<(string, JsValue)>, fields: seq<string>): Option<string> {
    if |fields| == 0 then None
    else if !HasOwn(props, fields[0]) then Some(fields[0])
    else FirstMissing(props, fields[1..])
  }

  /** The first required field missing, field by field. */
  lemma {:induction false} FirstMissingRequired(props: seq<(string, JsValue)>)
    ensures FirstMissing(props, RequiredFields) ==
      if !HasOwn(props, "port") then Some("port")
      else if !HasOwn(props, "host") then Some("host")
      else if !HasOwn(props, "devices") then Some("devices")
      else None
  {
    var rest := RequiredFields[1..];
    assert rest == ["host", "devices"] && rest[1..] == ["devices"] && rest[1..][1..] == [];
    assert FirstMissing(props, rest[1..]) == if !HasOwn(props, "devices") then Some("devices") else None;
  }

  /** The fields are checked in order, so the message names the first one
      missing, unless a port that is present throws on conversion first. */
  lemma {:induction false} LoadReportsFirstMissing(props: seq<(string, JsValue)>)
    ensures FirstMissing(props, RequiredFields).Some? ==>
      Load(Obj(props)) ==
        if FirstMissing(props, RequiredFields) != Some("port") && Unconvertible(Property(props, "port"))
        then Failure(NoPrimitive())
        else Failure(Str(MissingMessage(FirstMissing(props, RequiredFields).value)))
    ensures FirstMissing(props, RequiredFields).None? ==>
      (Load(Obj(props)).Success? <==> !Unconvertible(Property(props, "port")) && ThemeOf(props).Success?)
  {
    FirstMissingRequired(props);
  }

  /** The three messages differ, so the message tells which field is missing. */
  lemma {:induction false} MissingMessagesDiffer(f: string, g: string)
    requires f in RequiredFields && g in RequiredFields && f != g
    ensures MissingMessage(f) != MissingMessage(g)
  {
    var a, b := MissingMessage(f), MissingMessage(g);
    if f != "devices" && g != "devices" {
      assert a[7] != b[7];
    } else {
      assert |a| != |b|;
    }
  }

  /** A port written as a number reads back as that number, for every number
      JavaScript writes out digit for digit. */
  lemma {:induction false} PortOfNumber(props: seq<(string, JsValue)>, n: int)
    requires Property(props, "port") == Num(n)
    requires -Decimal.MaxSafeInteger <= n <= Decimal.MaxSafeInteger
    ensures Load(Obj(props)).Success? ==> Load(Obj(props)).value.port == Decimal.Int(n)
  {
    Decimal.ParseIntOfFromInt(n);
  }

  /** A port written as a string of digits is read in base 10, leading zeros
      included (`"0123"` is 123), and rounded to a double past 2^53 - 1. */
  lemma {:induction false} PortOfDigits(props: seq<(string, JsValue)>, s: string)
    requires Property(props, "port") == Str(s)
    requires 0 < |s| && Decimal.AllDigits(s)
    ensures Load(Obj(props)).Success? ==>
      Load(Obj(props)).value.port == Decimal.ToNumber(Decimal.DigitsValue(s), false)
    ensures Load(Obj(props)).Success? && Decimal.DigitsValue(s) <= Decimal.MaxSafeInteger ==>
      Load(Obj(props)).value.port == Decimal.Int(Decimal.DigitsValue(s))
  {
    Decimal.ParseIntOfDigits(s);
  }

  /** A port written as a boolean, null or an object is loaded as NaN,
      except an object with its own `toString` key, which throws. */
  lemma {:induction false} PortOfNonNumeric(props: seq<(string, JsValue)>, v: JsValue)
    requires Property(props, "port") == v && (v.Bool? || v.Null? || v.Obj?)
    ensures v.Obj? && HasOwn(v.props, "toString") ==> Load(Obj(props)) == Failure(NoPrimitive())
    ensures Load(Obj(props)).Success? ==> Load(Obj(props)).value.port == Decimal.NaN
  {
    if !HasOwn(props, "port") {
      PropertyOfAbsent(props, "port");
    } else if !Unconvertible(v) {
      var s := ToJsString(v).value;
      assert s[0] in "tfn[";
      assert !Decimal.IsJsWhiteSpace(s[0]);
      assert Decimal.TrimStart(s) == s;
      assert !Decimal.StartsNumeral(s);
    }
  }

  /** `{"port": {"toString": 0}, "host": "h", "devices": []}` throws, and so
      does the same port wrapped in an array. */
  lemma {:induction false} OwnToStringPortThrows()
    ensures Load(Obj([("port", Obj([("toString", Num(0))])), ("host", Str("h")), ("devices", Arr([]))]))
      == Failure(NoPrimitive())
    ensures Load(Obj([("port", Arr([Obj([("toString", Num(0))])])), ("host", Str("h")), ("devices", Arr([]))]))
      == Failure(NoPrimitive())
  {
    var port := Obj([("toString", Num(0))]);
    assert port.props[0].0 == "toString";
    assert Unconvertible(Arr([port])) by { assert Arr([port]).items[0] == port; }
    var props := [("port", port), ("host", Str("h")), ("devices", Arr([]))];
    var props' := [("port", Arr([port])), ("host", Str("h")), ("devices", Arr([]))];
    assert props[0].0 == "port" && props'[0].0 == "port";
  }

  lemma {:induction false} ZeroPaddedPort()
    ensures Decimal.ParseInt("0123") == Decimal.Int(123)
  {
    var s := "0123";
    assert Decimal.AllDigits(s);
    assert Decimal.DigitsValue(s[..1]) == 0 by { assert s[..1][..0] == []; }
    assert Decimal.DigitsValue(s[..2]) == 1 by { assert s[..2][..1] == s[..1]; }
    assert Decimal.DigitsValue(s[..3]) == 12 by { assert s[..3][..2] == s[..2]; }
    assert Decimal.DigitsValue(s) == 123 by { assert s[..3] == s[..|s| - 1]; }
    Decimal.ParseIntOfDigits(s);
  }

  /** Feeding the chosen theme back in chooses it again. */
  lemma {:induction false} ThemeStable(props: seq<(string, JsValue)>, t: string)
    requires ThemeOf(props) == Success(t)
    ensures ThemeOf([("theme", Str(t))]) == Success(t)
  {
    var props' := [("theme", Str(t))];
    assert props'[0].0 == "theme";
    assert t == "default" || t == "catseye";
    assert Lower(t) == t;
  }
}
