/**
 JavaScript values as the functions of this repository see them: JSON request
 bodies, the fields of the email service, statuses and log messages. Numbers are
 modelled as integers and plain objects as a map from property name to value.
 The module also holds the three implicit conversions the code relies on:
 truthiness (`if (x)`), `String(x)` (string conversion, also used by template
 literals) and the numeric conversion applied by `x - 200`.
 */
module JsValues {

  datatype Option<+T> = None | Some(value: T)

  datatype Value =
    | Undef
    | Null
    | Bool(b: bool)
    | Num(n: int)
    | Str(s: string)
    | Arr(items: seq<Value>)
    | Obj(props: map<string, Value>)

  /** How an operation ends: with a value, or by throwing one. */
  datatype Completion<+T> = Normal(value: T) | Threw(exception: Value)

  /** `undefined`, `null`, `false`, `0` and `""` are falsy; every array and object is truthy. */
  predicate Truthy(v: Value)
  {
    match v
    case Undef => false
    case Null => false
    case Bool(b) => b
    case Num(n) => n != 0
    case Str(s) => s != ""
    case Arr(_) => true
    case Obj(_) => true
  }

  /** Property read `v.key` on a value that is neither `null` nor `undefined`.
      Only the data properties of plain objects are modelled: the keys this
      code reads (`to`, `message`, `log_level`, `status`, ...) are not
      properties of strings, numbers, booleans or arrays. */
  function Prop(v: Value, key: string): Value
    requires !v.Undef? && !v.Null?
  {
    if v.Obj? && key in v.props then v.props[key] else Undef
  }

  /** The object literal `{message: msg}`. */
  function MessageObject(msg: string): Value
  {
    Obj(map["message" := Str(msg)])
  }

  /** The TypeError a property read on `null` or `undefined` throws. */
  const TypeError: Value := Obj(map["name" := Str("TypeError")])

  // ---------------------------------------------------------------------------
  // Characters

  /** The characters `\s` matches, which are also the ones `Number()` trims:
      WhiteSpace and LineTerminator of the ECMAScript grammar. */
  predicate IsJsWhitespace(c: char)
  {
    var k := c as int;
    k == 0x09 || k == 0x0A || k == 0x0B || k == 0x0C || k == 0x0D || k == 0x20 ||
    k == 0xA0 || k == 0x1680 || (0x2000 <= k <= 0x200A) || k == 0x2028 || k == 0x2029 ||
    k == 0x202F || k == 0x205F || k == 0x3000 || k == 0xFEFF
  }

  /** The characters `.` does not match in a regular expression. */
  predicate IsLineTerminator(c: char)
  {
    var k := c as int;
    k == 0x0A || k == 0x0D || k == 0x2028 || k == 0x2029
  }

  predicate IsDigit(c: char)
  {
    '0' <= c <= '9'
  }

  predicate AllDigits(s: string)
  {
    forall i :: 0 <= i < |s| ==> IsDigit(s[i])
  }

  function DigitChar(d: nat): char
    requires d < 10
  {
    "0123456789"[d]
  }

  function DigitValue(c: char): nat
    requires IsDigit(c)
  {
    c as int - '0' as int
  }

  // ---------------------------------------------------------------------------
  // String(v)

  /** Decimal form of a natural number, most significant digit first. */
  function NatToString(n: nat): string
    decreases n
  {
    if n < 10 then [DigitChar(n)] else NatToString(n / 10) + [DigitChar(n % 10)]
  }

  function IntToString(n: int): string
  {
    if n < 0 then "-" + NatToString(-n) else NatToString(n)
  }

  /** `String(v)`. An array converts to its elements' strings joined by `,`,
      with `null` and `undefined` elements contributing the empty string. */
  function ToJsString(v: Value): string
    decreases v
  {
    match v
    case Undef => "undefined"
    case Null => "null"
    case Bool(b) => if b then "true" else "false"
    case Num(n) => IntToString(n)
    case Str(s) => s
    case Arr(items) => JoinElements(items)
    case Obj(_) => "[object Object]"
  }

  function JoinElements(items: seq<Value>): string
    decreases items
  {
    if |items| == 0 then ""
    else
      var first := if items[0].Undef? || items[0].Null? then "" else ToJsString(items[0]);
      if |items| == 1 then first else first + "," + JoinElements(items[1..])
  }

  // ---------------------------------------------------------------------------
  // Number(v)

  /** Value of a string of decimal digits. */
  function DigitsValue(s: string): nat
    requires AllDigits(s)
    decreases |s|
  {
    if |s| == 0 then 0 else DigitsValue(s[..|s| - 1]) * 10 + DigitValue(s[|s| - 1])
  }

  function TrimStart(s: string): string
    decreases |s|
  {
    if |s| > 0 && IsJsWhitespace(s[0]) then TrimStart(s[1..]) else s
  }

  function TrimEnd(s: string): string
    decreases |s|
  {
    if |s| > 0 && IsJsWhitespace(s[|s| - 1]) then TrimEnd(s[..|s| - 1]) else s
  }

  /** `Number(s)` for the integer forms: surrounding whitespace is ignored, the
      empty string is 0, and an optionally signed run of decimal digits is its
      value. `None` stands for NaN. */
  function StringToNumber(s: string): Option<int>
  {
    var t := TrimEnd(TrimStart(s));
    if |t| == 0 then Some(0)
    else if t[0] == '-' && |t| > 1 && AllDigits(t[1..]) then Some(-(DigitsValue(t[1..]) as int))
    else if t[0] == '+' && |t| > 1 && AllDigits(t[1..]) then Some(DigitsValue(t[1..]))
    else if AllDigits(t) then Some(DigitsValue(t))
    else None
  }

  /** The numeric conversion `v - 200` applies to `v`; `None` stands for NaN.
      Arrays and objects convert through their string form. */
  function ToNumber(v: Value): Option<int>
  {
    match v
    case Undef => None
    case Null => Some(0)
    case Bool(b) => Some(if b then 1 else 0)
    case Num(n) => Some(n)
    case Str(s) => StringToNumber(s)
    case Arr(_) => StringToNumber(ToJsString(v))
    case Obj(_) => StringToNumber(ToJsString(v))
  }

  // ---------------------------------------------------------------------------
  // Properties of the conversions

  lemma DigitCharValue(d: nat)
    requires d < 10
    ensures IsDigit(DigitChar(d)) && DigitValue(DigitChar(d)) == d
  {
  }

  lemma {:induction false} NatToStringDigits(n: nat)
    ensures |NatToString(n)| > 0
    ensures AllDigits(NatToString(n))
    ensures DigitsValue(NatToString(n)) == n
    decreases n
  {
    DigitCharValue(n % 10);
    if n >= 10 {
      NatToStringDigits(n / 10);
      var prefix := NatToString(n / 10);
      var s := NatToString(n);
      assert s == prefix + [DigitChar(n % 10)];
      assert s[..|s| - 1] == prefix;
      assert AllDigits(s);
      assert DigitsValue(s) == (n / 10) * 10 + n % 10;
    }
  }

  /** `Number(String(n)) === n` for every integer: converting a number to its
      string form and back loses nothing. */
  lemma {:induction false} NumberStringRoundTrip(n: int)
    ensures ToNumber(Str(ToJsString(Num(n)))) == Some(n)
  {
    var m: nat := if n < 0 then -n else n;
    var digits := NatToString(m);
    NatToStringDigits(m);
    var s := IntToString(n);
    assert !IsJsWhitespace(s[0]) && !IsJsWhitespace(s[|s| - 1]) by {
      assert IsDigit(s[|s| - 1]);
      if n >= 0 {
        assert IsDigit(s[0]);
      }
    }
    assert TrimStart(s) == s;
    assert TrimEnd(s) == s;
    if n < 0 {
      assert s == "-" + digits;
      assert s[1..] == digits;
      assert StringToNumber(s) == Some(-(DigitsValue(digits) as int));
    } else {
      assert s == digits;
      assert IsDigit(s[0]);
      assert StringToNumber(s) == Some(DigitsValue(digits));
    }
  }
}
