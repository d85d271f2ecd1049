/** Decimal numerals: the digits JavaScript writes for an integer (`String(n)`,
    template literals) and the digits `parseInt(s, 10)` reads back. */
module Decimal {

  predicate IsDigit(c: char) {
    '0' <= c <= '9'
  }

  predicate AllDigits(s: string) {
    forall i :: 0 <= i < |s| ==> IsDigit(s[i])
  }

  function DigitChar(d: nat): (c: char)
    requires d < 10
    ensures IsDigit(c)
  {
    (('0' as int) + d) as char
  }

  function DigitValue(c: char): nat
    requires IsDigit(c)
  {
    (c as int) - ('0' as int)
  }

  /** The numeral of a non-negative integer: digits only, no leading zero. */
  function FromNat(n: nat): (s: string)
    ensures 0 < |s| && AllDigits(s)
    ensures s[0] == '0' ==> n == 0
  {
    if n < 10 then [DigitChar(n)] else FromNat(n / 10) + [DigitChar(n % 10)]
  }

  /** The numeral of an integer, with a leading minus sign when negative. */
  function FromInt(n: int): string {
    if n < 0 then "-" + FromNat(-n) else FromNat(n)
  }

  /** The value of a string of decimal digits (0 for the empty string). */
  function DigitsValue(s: string): nat
    requires AllDigits(s)
  {
    if |s| == 0 then 0 else 10 * DigitsValue(s[..|s| - 1]) + DigitValue(s[|s| - 1])
  }

  /** Reading a numeral back gives the number it was written from. */
  lemma {:induction false} DigitsValueOfFromNat(n: nat)
    ensures DigitsValue(FromNat(n)) == n
  {
    if n >= 10 {
      var s := FromNat(n);
      assert s[..|s| - 1] == FromNat(n / 10);
      DigitsValueOfFromNat(n / 10);
    }
  }

  /** Distinct numbers have distinct numerals. */
  lemma {:induction false} FromNatInjective(a: nat, b: nat)
    ensures FromNat(a) == FromNat(b) ==> a == b
  {
    DigitsValueOfFromNat(a);
    DigitsValueOfFromNat(b);
  }

  /** The number `parseInt` produces: an integer-valued number, NaN, or an
      infinity (a numeral too large for a double). */
  datatype Number = Int(n: int) | NaN | Infinity(negative: bool)

  /** 2^53: from here on, not every integer is a JavaScript number. */
  const TwoTo53: nat := 9007199254740992

  /** The largest integer up to which every integer is a JavaScript number. */
  const MaxSafeInteger := 9007199254740991

  /** 2^1024: a rounded magnitude that reaches it is infinite. */
  const TwoTo1024: nat := 179769313486231590772930519078902473361797697894230657273430081157732675805500963132708477322407536021120113879871393357658789768814416622492847430639474124377767893424865485276302219601246094119453082952085005768838150682342462881473913110540827237163350510684586298239947245938479716304835356329624224137216

  function Pow2(e: nat): (p: nat)
    ensures p >= 1
  {
    if e == 0 then 1 else 2 * Pow2(e - 1)
  }

  /** How many low bits of `m` a 53-bit significand cannot hold. */
  function Excess(m: nat): nat {
    if m < TwoTo53 then 0 else 1 + Excess(m / 2)
  }

  /** `m` rounded to a 53-bit significand, to nearest with ties to even
      (the rounding of IEEE 754 binary64), before any overflow. */
  function RoundToDouble(m: nat): int {
    var e := Excess(m);
    if e == 0 then m
    else
      var unit: int := Pow2(e);
      var q: int := m / unit;
      var r: int := m % unit;
      (if r > unit / 2 || (r == unit / 2 && q % 2 == 1) then q + 1 else q) * unit
  }

  /** Rounding moves a magnitude by at most half a unit of its last place,
      and lands on a multiple of that unit. */
  lemma {:induction false} RoundToDoubleIsNearest(m: nat)
    ensures var half := Pow2(Excess(m)) / 2;
      m - half <= RoundToDouble(m) <= m + half
    ensures RoundToDouble(m) % Pow2(Excess(m)) == 0
  {
    var e := Excess(m);
    if e > 0 {
      var unit: int := Pow2(e);
      var q: int := m / unit;
      var r: int := m % unit;
      assert unit == 2 * Pow2(e - 1);
      var low := q * unit;
      assert m == low + r && 0 <= r < unit;
      var q': int := if r > unit / 2 || (r == unit / 2 && q % 2 == 1) then q + 1 else q;
      assert RoundToDouble(m) == q' * unit;
      if q' == q + 1 {
        assert q' * unit == low + unit;
      }
      MultipleMod(q', unit);
    }
  }

  lemma {:induction false} MultipleMod(a: int, b: int)
    requires b > 0
    ensures (a * b) % b == 0
  {
    var p := a * b;
    assert p == a * b + 0;
    DivModUnique(p, b, a, 0);
  }

  /** Euclidean division has one quotient and one remainder. */
  lemma {:induction false} DivModUnique(p: int, b: int, q: int, r: int)
    requires b > 0 && 0 <= r < b && p == q * b + r
    ensures p % b == r
  {
    var q0, r0 := p / b, p % b;
    assert p == q0 * b + r0 && 0 <= r0 < b;
    if q > q0 {
      assert (q - q0) * b == q * b - q0 * b;
      AtLeastOnce(q - q0, b);
    } else if q < q0 {
      assert (q0 - q) * b == q0 * b - q * b;
      AtLeastOnce(q0 - q, b);
    }
  }

  lemma {:induction false} AtLeastOnce(x: int, b: int)
    requires x >= 1 && b > 0
    ensures x * b >= b
    decreases x
  {
    if x > 1 {
      AtLeastOnce(x - 1, b);
      assert x * b == (x - 1) * b + b;
    }
  }

  /** The JavaScript number nearest to `m` (negated when `negative`). */
  function ToNumber(m: nat, negative: bool): Number {
    var v := RoundToDouble(m);
    if v >= TwoTo1024 then Infinity(negative)
    else if negative then Int(-v) else Int(v)
  }

  /** Up to 2^53 - 1 every magnitude is exact. */
  lemma {:induction false} ToNumberExact(m: nat, negative: bool)
    requires m <= MaxSafeInteger
    ensures ToNumber(m, negative) == if negative then Int(-(m as int)) else Int(m)
  {
    assert Excess(m) == 0;
  }

  /** Past it a numeral is rounded: 2^53 + 1 lies halfway between 2^53 and
      2^53 + 2 and goes to the even significand, 2^53. */
  lemma {:induction false} RoundsPastSafeIntegers()
    ensures ToNumber(TwoTo53 + 1, false) == Int(TwoTo53)
  {
    assert Excess((TwoTo53 + 1) / 2) == 0;
    assert Excess(TwoTo53 + 1) == 1;
    assert Pow2(1) == 2;
  }

  /** The length of the longest prefix of `s` made of decimal digits. */
  function DigitRun(s: string): (k: nat)
    ensures k <= |s| && AllDigits(s[..k])
    ensures k < |s| ==> !IsDigit(s[k])
  {
    if |s| == 0 || !IsDigit(s[0]) then 0 else 1 + DigitRun(s[1..])
  }

  /** The white space and line terminators `parseInt` skips before the number
      (StrWhiteSpaceChar of the ECMAScript grammar: TAB, VT, FF, SP, NBSP,
      ZWNBSP, the other space separators, LF, CR, LS and PS). */
  predicate IsJsWhiteSpace(c: char) {
    || c == '\t' || c == '\n' || c == '\U{000B}' || c == '\U{000C}' || c == '\r'
    || c == ' ' || c == '\U{00A0}' || c == '\U{1680}' || '\U{2000}' <= c <= '\U{200A}'
    || c == '\U{2028}' || c == '\U{2029}' || c == '\U{202F}' || c == '\U{205F}'
    || c == '\U{3000}' || c == '\U{FEFF}'
  }

  /** `s` without its leading white space. */
  function TrimStart(s: string): (t: string)
    ensures |t| <= |s| && t == s[|s| - |t|..]
    ensures forall i :: 0 <= i < |s| - |t| ==> IsJsWhiteSpace(s[i])
    ensures |t| > 0 ==> !IsJsWhiteSpace(t[0])
  {
    if |s| > 0 && IsJsWhiteSpace(s[0]) then TrimStart(s[1..]) else s
  }

  /** Digits and signs are not white space, so a numeral is not trimmed. */
  lemma {:induction false} TrimStartOfNumeral(s: string)
    requires 0 < |s| && (IsDigit(s[0]) || s[0] == '-' || s[0] == '+')
    ensures TrimStart(s) == s
  {
    assert !IsJsWhiteSpace(s[0]);
  }

  /** `t` starts with a digit, or with a sign followed by a digit. */
  predicate StartsNumeral(t: string) {
    || (|t| > 0 && IsDigit(t[0]))
    || (|t| > 1 && (t[0] == '-' || t[0] == '+') && IsDigit(t[1]))
  }

  /** `parseInt(s, 10)`: leading white space skipped, then the signed run of
      digits that follows, as the nearest JavaScript number. */
  function ParseInt(s: string): (r: Number)
    ensures r.NaN? <==> !StartsNumeral(TrimStart(s))
  {
    ParseSigned(TrimStart(s))
  }

  /** An optional sign, then the longest run of decimal digits; NaN when that
      run is empty. */
  function ParseSigned(t: string): Number {
    var negative := |t| > 0 && t[0] == '-';
    var body := if |t| > 0 && (t[0] == '-' || t[0] == '+') then t[1..] else t;
    var k := DigitRun(body);
    if k == 0 then NaN else ToNumber(DigitsValue(body[..k]), negative)
  }

  lemma {:induction false} ParseSignedOfDigits(s: string)
    requires 0 < |s| && AllDigits(s)
    ensures ParseSigned(s) == ToNumber(DigitsValue(s), false)
  {
    var k := DigitRun(s);
    assert k == |s|;
    assert s[..k] == s;
  }

  /** A string made only of digits is read whole, leading zeros included, and
      exactly as long as its value is at most 2^53 - 1. */
  lemma {:induction false} ParseIntOfDigits(s: string)
    requires 0 < |s| && AllDigits(s)
    ensures ParseInt(s) == ToNumber(DigitsValue(s), false)
    ensures DigitsValue(s) <= MaxSafeInteger ==> ParseInt(s) == Int(DigitsValue(s))
  {
    TrimStartOfNumeral(s);
    ParseSignedOfDigits(s);
    if DigitsValue(s) <= MaxSafeInteger {
      ToNumberExact(DigitsValue(s), false);
    }
  }

  /** The numeral of a negative number reads back as the nearest number. */
  lemma {:induction false} ParseSignedOfNegative(n: nat)
    requires n > 0
    ensures ParseSigned("-" + FromNat(n)) == ToNumber(n, true)
  {
    var s := "-" + FromNat(n);
    assert s[1..] == FromNat(n);
    ParseSignedOfDigits(FromNat(n));
    DigitsValueOfFromNat(n);
  }

  /** `parseInt(String(n), 10)` is the number nearest to `n`, which is `n`
      itself for every safe integer. */
  lemma {:induction false} ParseIntOfFromInt(n: int)
    ensures ParseInt(FromInt(n)) == ToNumber(if n < 0 then -n else n, n < 0)
    ensures -MaxSafeInteger <= n <= MaxSafeInteger ==> ParseInt(FromInt(n)) == Int(n)
  {
    var m: nat := if n < 0 then -n else n;
    ParseIntOfFromIntRounds(n);
    assert ParseInt(FromInt(n)) == ToNumber(m, n < 0);
    if -MaxSafeInteger <= n <= MaxSafeInteger {
      ToNumberExact(m, n < 0);
    }
  }

  lemma {:induction false} ParseIntOfFromIntRounds(n: int)
    ensures ParseInt(FromInt(n)) == ToNumber(if n < 0 then -n else n, n < 0)
  {
    if n < 0 {
      TrimStartOfNumeral(FromInt(n));
      ParseSignedOfNegative(-n);
    } else {
      ParseIntOfDigits(FromNat(n));
      DigitsValueOfFromNat(n);
    }
  }

  /** White space before the number is skipped. */
  lemma {:induction false} ParseIntSkipsWhiteSpace(c: char, s: string)
    requires IsJsWhiteSpace(c)
    ensures ParseInt([c] + s) == ParseInt(s)
  {
    assert ([c] + s)[1..] == s;
  }

  /** Reading stops at the first character that is not a digit: `"80.5"` and
      `"80abc"` both read as `"80"`. */
  lemma {:induction false} ParseIntStopsAtNonDigit(s: string, rest: string)
    requires 0 < |s| && AllDigits(s)
    requires |rest| > 0 && !IsDigit(rest[0])
    ensures ParseInt(s + rest) == ParseInt(s)
  {
    var t := s + rest;
    TrimStartOfNumeral(t);
    TrimStartOfNumeral(s);
    DigitRunOfPrefix(s, rest);
    assert t[..|s|] == s;
    ParseSignedOfDigits(s);
  }

  lemma {:induction false} DigitRunOfPrefix(s: string, rest: string)
    requires AllDigits(s)
    requires |rest| > 0 && !IsDigit(rest[0])
    ensures DigitRun(s + rest) == |s|
  {
    if |s| > 0 {
      assert (s + rest)[1..] == s[1..] + rest;
      DigitRunOfPrefix(s[1..], rest);
    } else {
      assert s + rest == rest;
    }
  }

  /** A string that is a run of digits, then a dash, then anything, splits
      back into the same run and the same rest. */
  lemma {:induction false} SplitAtDash(x: string, y: string, x': string, y': string)
    requires AllDigits(x) && AllDigits(x')
    requires x + "-" + y == x' + "-" + y'
    ensures x == x' && y == y'
  {
    var s := x + "-" + y;
    assert s == x' + "-" + y';
    assert s[|x|] == '-' && s[|x'|] == '-';
    assert forall i :: 0 <= i < |x| ==> s[i] == x[i];
    assert forall i :: 0 <= i < |x'| ==> s[i] == x'[i];
    assert |x| == |x'|;
    assert x == s[..|x|] == x';
    assert y == s[|x| + 1..] == y';
  }
}
