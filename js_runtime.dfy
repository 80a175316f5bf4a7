/**
 * The part of JavaScript's runtime semantics that the NC-News handlers lean on:
 * the values a query string or a JSON body can hold, truthiness, `typeof`,
 * property reads, `String(v)`, `parseInt` without a radix, `===` on numbers,
 * and upper-casing as far as the sort-order check can observe it.
 */
module JsRuntime {

  datatype Option<+T> = None | Some(value: T)

  /**
   * A JavaScript value as it reaches a handler. Query-string values are
   * undefined, strings, arrays or objects; JSON bodies can hold all of these.
   * Numbers are integers here (no fractional parts).
   */
  datatype JsValue =
    | Undefined
    | Null
    | Bool(b: bool)
    | Num(n: int)
    | Str(s: string)
    | Arr(items: seq<JsValue>)
    | Obj(fields: map<string, JsValue>)

  /**
   * An Error object as the handlers use it: its message, and the `status`
   * property the code attaches to it (absent on errors raised by pg or by the
   * engine itself).
   */
  datatype JsError = JsError(status: Option<int>, message: string)

  /** ToBoolean: `!!v`. */
  predicate Truthy(v: JsValue)
  {
    match v
    case Undefined => false
    case Null => false
    case Bool(b) => b
    case Num(n) => n != 0
    case Str(s) => s != ""
    case Arr(_) => true
    case Obj(_) => true
  }

  /** `typeof v === "object"`, which holds of null as well. */
  predicate TypeofObject(v: JsValue)
  {
    v.Null? || v.Arr? || v.Obj?
  }

  /** Reading a property of undefined or null throws a TypeError. */
  predicate Nullish(v: JsValue)
  {
    v.Undefined? || v.Null?
  }

  /**
   * `v.key` for a value whose property read does not throw. Only the own
   * data fields of plain objects are modelled: the handlers read `inc_votes`,
   * `body` and `username`, which no array, string, number or prototype has.
   */
  function Field(v: JsValue, key: string): JsValue
    requires !Nullish(v)
  {
    if v.Obj? && key in v.fields then v.fields[key] else Undefined
  }

  /** The TypeError a property read of undefined or null throws (V8's wording). */
  function ReadTypeError(v: JsValue, key: string): JsError
    requires Nullish(v)
  {
    JsError(None, "Cannot read properties of " + (if v.Undefined? then "undefined" else "null")
                  + " (reading '" + key + "')")
  }

  // ---------------------------------------------------------------------------
  // Numbers and String()
  // ---------------------------------------------------------------------------

  /** The result of parseInt: NaN or an integer (unbounded: no rounding above 2^53). */
  datatype JsNumber = NaN | Finite(value: int)

  /** `a === b` on numbers: NaN equals nothing, itself included. */
  predicate StrictEquals(a: JsNumber, b: JsNumber)
  {
    a.Finite? && b.Finite? && a.value == b.value
  }

  /** Whatever `x` is, `x === NaN` is false. */
  lemma NothingStrictlyEqualsNaN(x: JsNumber)
    ensures !StrictEquals(x, NaN)
  {
  }

  function DigitChar(d: nat): char
    requires d < 10
  {
    "0123456789"[d]
  }

  /** The decimal numeral of a natural number, most significant digit first. */
  function NaturalString(n: nat): string
    decreases n
  {
    if n < 10 then [DigitChar(n)] else NaturalString(n / 10) + [DigitChar(n % 10)]
  }

  /** `String(n)` for an integer. */
  function DecimalString(n: int): string
  {
    if n < 0 then "-" + NaturalString(-n) else NaturalString(n)
  }

  /** Array.prototype.join with ",". */
  function JoinWithCommas(parts: seq<string>): string
  {
    if parts == [] then ""
    else if |parts| == 1 then parts[0]
    else parts[0] + "," + JoinWithCommas(parts[1..])
  }

  /** The TypeError V8 throws when no conversion method of an object returns a primitive. */
  const CannotConvertToPrimitive: string := "Cannot convert object to primitive value"

  /**
   * Whether `String(v)` returns rather than throws. An object with an own
   * `toString` key hides Object.prototype.toString behind a value that is not
   * callable; `valueOf` then returns the object itself, so the conversion
   * throws. An array converts by converting its elements.
   */
  predicate ConvertsToString(v: JsValue)
  {
    match v
    case Obj(fields) => "toString" !in fields
    case Arr(items) => forall i :: 0 <= i < |items| ==> ConvertsToString(items[i])
    case _ => true
  }

  /** `String(v)`: arrays join their elements, undefined and null elements as "". */
  function ToString(v: JsValue): string
    requires ConvertsToString(v)
  {
    match v
    case Undefined => "undefined"
    case Null => "null"
    case Bool(b) => if b then "true" else "false"
    case Num(n) => DecimalString(n)
    case Str(s) => s
    case Arr(items) =>
      JoinWithCommas(seq(|items|, i requires 0 <= i < |items| =>
        if items[i].Undefined? || items[i].Null? then "" else ToString(items[i])))
    case Obj(_) => "[object Object]"
  }

  // ---------------------------------------------------------------------------
  // parseInt(s) with the radix left out
  // ---------------------------------------------------------------------------

  /** StrWhiteSpaceChar: the white space and line terminators parseInt skips. */
  predicate IsWhiteSpace(c: char)
  {
    || c == '\t' || c == '\n' || c == '\U{000B}' || c == '\U{000C}' || c == '\r'
    || c == ' ' || c == '\U{00A0}' || c == '\U{1680}'
    || ('\U{2000}' <= c <= '\U{200A}')
    || c == '\U{2028}' || c == '\U{2029}' || c == '\U{202F}' || c == '\U{205F}'
    || c == '\U{3000}' || c == '\U{FEFF}'
  }

  /** The string with its leading white space removed. */
  function TrimStart(s: string): string
  {
    if s != [] && IsWhiteSpace(s[0]) then TrimStart(s[1..]) else s
  }

  /** TrimStart removes a prefix of white space, and all of it. */
  lemma {:induction false} TrimStartSkipsWhiteSpace(s: string)
    ensures var t := TrimStart(s);
      && |t| <= |s| && t == s[|s| - |t|..]
      && (forall i :: 0 <= i < |s| - |t| ==> IsWhiteSpace(s[i]))
      && (t == [] || !IsWhiteSpace(t[0]))
  {
    if s != [] && IsWhiteSpace(s[0]) {
      var r := s[1..];
      TrimStartSkipsWhiteSpace(r);
      var t := TrimStart(r);
      assert TrimStart(s) == t;
      assert r[|r| - |t|..] == s[|s| - |t|..];
      forall i | 0 <= i < |s| - |t|
        ensures IsWhiteSpace(s[i])
      {
        if i > 0 {
          assert s[i] == r[i - 1];
        }
      }
    }
  }

  /** The value of `c` as a digit of radix 36, or 36 when it is not a letter or digit. */
  function DigitValue(c: char): nat
  {
    if '0' <= c <= '9' then c as int - '0' as int
    else if 'a' <= c <= 'z' then c as int - 'a' as int + 10
    else if 'A' <= c <= 'Z' then c as int - 'A' as int + 10
    else 36
  }

  predicate IsDigit(c: char, radix: nat)
  {
    DigitValue(c) < radix
  }

  /** The length of the longest prefix of `s` made of digits of the radix. */
  function DigitRun(s: string, radix: nat): (n: nat)
    ensures n <= |s|
  {
    if s != [] && IsDigit(s[0], radix) then 1 + DigitRun(s[1..], radix) else 0
  }

  /** The number a string of digits denotes in the radix. */
  function DigitsValue(ds: string, radix: nat): nat
  {
    if ds == [] then 0 else DigitsValue(ds[..|ds| - 1], radix) * radix + DigitValue(ds[|ds| - 1])
  }

  predicate HasHexPrefix(u: string)
  {
    |u| >= 2 && u[0] == '0' && (u[1] == 'x' || u[1] == 'X')
  }

  function StripSign(t: string): string
  {
    if t != [] && (t[0] == '-' || t[0] == '+') then t[1..] else t
  }

  /**
   * The digits at the start of an unsigned numeral: radix 16 after a "0x" or
   * "0X" prefix, radix 10 otherwise; the longest run of digits is converted
   * and whatever follows it is ignored. None when that run is empty.
   */
  function UnsignedPrefix(u: string): Option<nat>
  {
    var radix := if HasHexPrefix(u) then 16 else 10;
    var ds := if HasHexPrefix(u) then u[2..] else u;
    var n := DigitRun(ds, radix);
    if n == 0 then None else Some(DigitsValue(ds[..n], radix))
  }

  /** `parseInt(s)`: skip leading white space, take one optional sign, read the digits. */
  function ParseInt(s: string): JsNumber
  {
    var t := TrimStart(s);
    match UnsignedPrefix(StripSign(t))
    case None => NaN
    case Some(v) => if t != [] && t[0] == '-' then Finite(-(v as int)) else Finite(v)
  }

  /**
   * Starts with a decimal digit, and when it starts with a "0x"/"0X" prefix a
   * hexadecimal digit follows that prefix.
   */
  predicate StartsWithDigits(v: string)
  {
    v != [] && IsDigit(v[0], 10) && (HasHexPrefix(v) ==> |v| > 2 && IsDigit(v[2], 16))
  }

  /** After an optional sign the text starts with digits. */
  predicate StartsNumeric(u: string)
  {
    StartsWithDigits(StripSign(u))
  }

  /** Signs and digits are not white space. */
  lemma LeadNotWhiteSpace(c: char)
    requires c == '-' || c == '+' || IsDigit(c, 10)
    ensures !IsWhiteSpace(c)
  {
  }

  lemma UnsignedPrefixFound(v: string)
    ensures UnsignedPrefix(v).Some? <==> StartsWithDigits(v)
  {
    if HasHexPrefix(v) {
      assert |v[2..]| > 0 ==> v[2..][0] == v[2];
    }
  }

  /**
   * parseInt is not NaN exactly when, after some white space, the text starts
   * numerically; what follows the digits is never looked at.
   */
  lemma {:induction false} ParseIntNaNIff(s: string)
    ensures !ParseInt(s).NaN? <==>
      exists i :: 0 <= i <= |s| && (forall j :: 0 <= j < i ==> IsWhiteSpace(s[j])) && StartsNumeric(s[i..])
  {
    var t := TrimStart(s);
    TrimStartSkipsWhiteSpace(s);
    var k := |s| - |t|;
    UnsignedPrefixFound(StripSign(t));
    assert !ParseInt(s).NaN? <==> StartsNumeric(t);
    if exists i :: 0 <= i <= |s| && (forall j :: 0 <= j < i ==> IsWhiteSpace(s[j])) && StartsNumeric(s[i..]) {
      var i :| 0 <= i <= |s| && (forall j :: 0 <= j < i ==> IsWhiteSpace(s[j])) && StartsNumeric(s[i..]);
      assert s[i..] != [] && s[i..][0] == s[i];
      LeadNotWhiteSpace(s[i]);
      assert i == k;
    }
  }

  lemma {:induction false} NaturalStringDigits(n: nat)
    ensures |NaturalString(n)| >= 1
    ensures forall i :: 0 <= i < |NaturalString(n)| ==> IsDigit(NaturalString(n)[i], 10)
    ensures NaturalString(n)[0] == '0' ==> n == 0
    decreases n
  {
    if n >= 10 {
      NaturalStringDigits(n / 10);
    }
  }

  lemma {:induction false} NaturalStringValue(n: nat)
    ensures DigitsValue(NaturalString(n), 10) == n
    decreases n
  {
    if n >= 10 {
      var p := NaturalString(n / 10);
      var s := NaturalString(n);
      assert s[..|s| - 1] == p;
      NaturalStringValue(n / 10);
    }
  }

  /** The digit run of digits followed by a non-digit is exactly those digits. */
  lemma {:induction false} DigitRunOfDigits(p: string, rest: string, radix: nat)
    requires forall i :: 0 <= i < |p| ==> IsDigit(p[i], radix)
    requires rest == [] || !IsDigit(rest[0], radix)
    ensures DigitRun(p + rest, radix) == |p|
  {
    if p != [] {
      assert (p + rest)[1..] == p[1..] + rest;
      DigitRunOfDigits(p[1..], rest, radix);
    } else {
      assert p + rest == rest;
    }
  }

  /** The digits of a numeral followed by text that does not continue it denote the number. */
  lemma {:induction false} UnsignedPrefixOfNumeral(m: nat, rest: string)
    requires rest == [] || !IsDigit(rest[0], 10)
    requires m == 0 ==> rest == [] || (rest[0] != 'x' && rest[0] != 'X')
    ensures UnsignedPrefix(NaturalString(m) + rest) == Some(m)
  {
    var p := NaturalString(m);
    NaturalStringDigits(m);
    NaturalStringValue(m);
    var u := p + rest;
    assert u[0] == p[0];
    if m == 0 {
      assert p == ['0'];
      if rest != [] {
        assert u[1] == rest[0];
      }
    }
    assert !HasHexPrefix(u);
    DigitRunOfDigits(p, rest, 10);
    assert u[..|p|] == p;
  }

  /** An unsigned numeral. */
  lemma ParseIntOfUnsigned(u: string, m: nat)
    requires u != [] && IsDigit(u[0], 10)
    requires UnsignedPrefix(u) == Some(m)
    ensures ParseInt(u) == Finite(m)
  {
    LeadNotWhiteSpace(u[0]);
    assert TrimStart(u) == u;
    assert StripSign(u) == u;
  }

  /** An unsigned numeral after a minus sign. */
  lemma ParseIntOfNegated(u: string, m: nat)
    requires UnsignedPrefix(u) == Some(m)
    ensures ParseInt("-" + u) == Finite(-(m as int))
  {
    var s := "-" + u;
    LeadNotWhiteSpace(s[0]);
    assert TrimStart(s) == s;
    assert StripSign(s) == u;
  }

  /**
   * parseInt reads back the numeral String(n) produces, and ignores any
   * trailing text that does not continue the numeral: parseInt("12abc") is 12.
   */
  lemma {:induction false} ParseIntOfNumeralPrefix(n: int, rest: string)
    requires rest == [] || !IsDigit(rest[0], 10)
    requires n == 0 ==> rest == [] || (rest[0] != 'x' && rest[0] != 'X')
    ensures ParseInt(DecimalString(n) + rest) == Finite(n)
  {
    var m: nat := if n < 0 then -n else n;
    var u := NaturalString(m) + rest;
    UnsignedPrefixOfNumeral(m, rest);
    if n < 0 {
      assert DecimalString(n) + rest == "-" + u;
      ParseIntOfNegated(u, m);
    } else {
      NaturalStringDigits(m);
      assert u[0] == NaturalString(m)[0];
      assert DecimalString(n) + rest == u;
      ParseIntOfUnsigned(u, m);
    }
  }

  /** parseInt(String(n)) == n for every integer n. */
  lemma ParseIntRoundTrip(n: int)
    ensures ParseInt(DecimalString(n)) == Finite(n)
  {
    ParseIntOfNumeralPrefix(n, "");
    assert DecimalString(n) + "" == DecimalString(n);
  }

  // ---------------------------------------------------------------------------
  // String.prototype.toUpperCase, as the sort-order check observes it
  // ---------------------------------------------------------------------------

  /** LATIN SMALL LETTER LONG S, whose upper-case form is 'S'. */
  const LongS: char := '\U{017F}'

  /**
   * Upper-cases a-z and the long s and keeps every other character. No other
   * Unicode case mapping produces A, C, D, E or S (the expansions such as
   * "ß" -> "SS" and "ﬆ" -> "ST" produce letter pairs that "ASC" and "DESC" do
   * not contain), so this agrees with toUpperCase on whether the result is
   * "ASC" or "DESC", which is the only use made of it.
   */
  function UpperChar(c: char): char
  {
    if 'a' <= c <= 'z' then (c as int - 'a' as int + 'A' as int) as char
    else if c == LongS then 'S'
    else c
  }

  function ToUpperCase(s: string): string
  {
    seq(|s|, i requires 0 <= i < |s| => UpperChar(s[i]))
  }
}
