/**
 * The part of the JavaScript runtime the story player leans on: the values a
 * decoded JSON document can hold, property access, the ToString conversion
 * and the global `parseInt` (section 19.2.5 of ECMA-262) for radix 10 and 16.
 */
module JsRuntime {

  datatype Option<+T> = None | Some(value: T)

  datatype Result<+T, +E> = Ok(value: T) | Err(error: E)

  /** A JavaScript value as produced by decoding JSON, plus `undefined` (what
      reading a missing property gives). Numbers are integers only. */
  datatype JsValue =
    | Undefined
    | Null
    | Bool(b: bool)
    | Num(n: int)
    | Str(s: string)
    | Arr(elems: seq<JsValue>)
    | Obj(fields: map<string, JsValue>)

  /** The result of `parseInt`: an integer or NaN. */
  datatype IntOrNaN = NaN | Int(value: int)

  type Radix = r: int | r == 10 || r == 16 witness 10

  /** `null` and `undefined`: reading a property of them throws a TypeError. */
  predicate IsNullish(v: JsValue) {
    v.Null? || v.Undefined?
  }

  /** The values `if (v)` treats as false (NaN aside, which the model
      has no number for). */
  predicate IsFalsy(v: JsValue) {
    v.Undefined? || v.Null? || v == Bool(false) || v == Num(0) || v == Str("")
  }

  /** `v[key]` for a value that is not nullish. Only keys that no built-in
      prototype defines are read through this (sceneId, choices, text,
      nextSceneId), so a non-object gives `undefined`. */
  function Property(v: JsValue, key: string): (r: JsValue)
    requires !IsNullish(v)
    ensures !v.Obj? ==> r == Undefined
    ensures v.Obj? ==> r == (if key in v.fields then v.fields[key] else Undefined)
  {
    if v.Obj? && key in v.fields then v.fields[key] else Undefined
  }

  /** WhiteSpace and LineTerminator code points: what `trim` removes and
      what `parseInt` skips before the number. */
  predicate IsJsWhitespace(c: char) {
    var n := c as int;
    n == 0x09 || n == 0x0A || n == 0x0B || n == 0x0C || n == 0x0D || n == 0x20
    || n == 0xA0 || n == 0x1680 || (0x2000 <= n <= 0x200A) || n == 0x2028
    || n == 0x2029 || n == 0x202F || n == 0x205F || n == 0x3000 || n == 0xFEFF
  }

  function TrimStart(s: string): string {
    if |s| > 0 && IsJsWhitespace(s[0]) then TrimStart(s[1..]) else s
  }

  function TrimEnd(s: string): string {
    if |s| > 0 && IsJsWhitespace(s[|s| - 1]) then TrimEnd(s[..|s| - 1]) else s
  }

  /** `String.prototype.trim`. */
  function Trim(s: string): string {
    TrimEnd(TrimStart(s))
  }

  predicate IsBlank(s: string) {
    forall i :: 0 <= i < |s| ==> IsJsWhitespace(s[i])
  }

  lemma {:induction false} TrimStartNoop(s: string)
    requires s == [] || !IsJsWhitespace(s[0])
    ensures TrimStart(s) == s
  {
  }

  lemma {:induction false} TrimEndNoop(s: string)
    requires s == [] || !IsJsWhitespace(s[|s| - 1])
    ensures TrimEnd(s) == s
  {
  }

  /** `trim` leaves a string alone when neither end is white space. */
  lemma TrimNoop(s: string)
    requires s == [] || (!IsJsWhitespace(s[0]) && !IsJsWhitespace(s[|s| - 1]))
    ensures Trim(s) == s
  {
    TrimStartNoop(s);
    TrimEndNoop(s);
  }

  lemma {:induction false} TrimStartEmptyIffBlank(s: string)
    ensures TrimStart(s) == [] <==> IsBlank(s)
  {
    if s != [] && IsJsWhitespace(s[0]) {
      TrimStartEmptyIffBlank(s[1..]);
      assert IsBlank(s) <==> IsBlank(s[1..]);
    }
  }

  lemma {:induction false} TrimEndEmptyIffBlank(s: string)
    ensures TrimEnd(s) == [] <==> IsBlank(s)
  {
    if s != [] && IsJsWhitespace(s[|s| - 1]) {
      TrimEndEmptyIffBlank(s[..|s| - 1]);
      assert IsBlank(s) <==> IsBlank(s[..|s| - 1]);
    }
  }

  lemma {:induction false} TrimStartFirst(s: string)
    ensures TrimStart(s) == [] || !IsJsWhitespace(TrimStart(s)[0])
  {
    if s != [] && IsJsWhitespace(s[0]) {
      TrimStartFirst(s[1..]);
    }
  }

  /** `s.trim() === ''` holds exactly for strings made of white space. */
  lemma TrimEmptyIffBlank(s: string)
    ensures Trim(s) == [] <==> IsBlank(s)
  {
    var t := TrimStart(s);
    TrimStartEmptyIffBlank(s);
    TrimEndEmptyIffBlank(t);
    if t != [] {
      TrimStartFirst(s);
      assert !IsBlank(t) by { assert !IsJsWhitespace(t[0]); }
    }
  }

  // ---------------------------------------------------------------------
  // Number to string and ToString

  function DigitChar(d: nat): (c: char)
    requires d < 10
    ensures '0' <= c <= '9' && c as int - '0' as int == d
  {
    (d + '0' as int) as char
  }

  /** Decimal digits of a natural number, most significant first. */
  function NatDigits(m: nat): (s: string)
    ensures |s| > 0 && '0' <= s[0] <= '9'
  {
    if m < 10 then [DigitChar(m)] else NatDigits(m / 10) + [DigitChar(m % 10)]
  }

  /** The way JavaScript prints an integral Number below 10^21 in magnitude. */
  function DecimalString(n: int): (s: string)
    ensures |s| > 0 && !IsJsWhitespace(s[0])
  {
    if n < 0 then "-" + NatDigits(-n) else NatDigits(n)
  }

  /** The abstract operation ToString, as `String(v)`, `parseInt(v)` and
      `Array.prototype.join` apply it; None when it throws. An object with
      an own `toString` key throws: a decoded value is never callable, so
      ToPrimitive falls through to `valueOf`, which returns an object. */
  function ToStr(v: JsValue): (r: Option<string>)
    decreases v, 1, 0
    ensures v.Str? ==> r == Some(v.s)
    ensures v.Num? ==> r == Some(DecimalString(v.n))
    ensures v.Obj? ==> (r.None? <==> "toString" in v.fields)
  {
    match v
    case Undefined => Some("undefined")
    case Null => Some("null")
    case Bool(b) => Some(if b then "true" else "false")
    case Num(n) => Some(DecimalString(n))
    case Str(s) => Some(s)
    case Arr(es) => Join(es, v)
    case Obj(f) => if "toString" in f then None else Some("[object Object]")
  }

  /** `es.join(",")`: nullish elements become the empty string. */
  function Join(es: seq<JsValue>, ghost parent: JsValue): (r: Option<string>)
    requires forall i :: 0 <= i < |es| ==> es[i] < parent
    decreases parent, 0, |es|
  {
    if es == [] then Some("")
    else
      var head := if IsNullish(es[0]) then Some("") else ToStr(es[0]);
      if head.None? then None
      else if |es| == 1 then head
      else
        var tail := Join(es[1..], parent);
        if tail.None? then None else Some(head.value + "," + tail.value)
  }

  // ---------------------------------------------------------------------
  // parseInt

  /** The value of a letter or digit as a digit of radix up to 36; 36 for
      every other character. */
  function DigitValue(c: char): (d: nat)
    ensures d <= 36
  {
    if '0' <= c <= '9' then c as int - '0' as int
    else if 'a' <= c <= 'z' then c as int - 'a' as int + 10
    else if 'A' <= c <= 'Z' then c as int - 'A' as int + 10
    else 36
  }

  predicate IsDigit(c: char, radix: Radix) {
    DigitValue(c) < radix
  }

  predicate AllDigits(s: string, radix: Radix) {
    forall i :: 0 <= i < |s| ==> IsDigit(s[i], radix)
  }

  /** The longest prefix of `s` made of radix digits. */
  function DigitPrefix(s: string, radix: Radix): string {
    if s == [] || !IsDigit(s[0], radix) then [] else [s[0]] + DigitPrefix(s[1..], radix)
  }

  /** The number a string of digits denotes, most significant digit first. */
  function DigitsValue(d: string, radix: Radix): nat {
    if d == [] then 0 else DigitsValue(d[..|d| - 1], radix) * radix + DigitValue(d[|d| - 1])
  }

  predicate HasHexPrefix(s: string) {
    |s| >= 2 && s[0] == '0' && (s[1] == 'x' || s[1] == 'X')
  }

  /** `parseInt(input, radix)` for an input already converted to a string:
      skip leading white space, take one optional sign, drop a `0x`/`0X`
      prefix when the radix is 16, then read the longest digit prefix; NaN
      when that prefix is empty. Trailing characters are ignored. */
  function ParseInt(input: string, radix: Radix): (r: IntOrNaN)
  {
    ParseTrimmed(TrimStart(input), radix)
  }

  /** `parseInt` once the leading white space is gone. */
  function ParseTrimmed(s: string, radix: Radix): (r: IntOrNaN)
  {
    var negative := |s| > 0 && s[0] == '-';
    var unsigned := if |s| > 0 && (s[0] == '-' || s[0] == '+') then s[1..] else s;
    var body := if radix == 16 && HasHexPrefix(unsigned) then unsigned[2..] else unsigned;
    var digits := DigitPrefix(body, radix);
    if digits == [] then NaN
    else if negative then Int(-(DigitsValue(digits, radix) as int))
    else Int(DigitsValue(digits, radix))
  }

  /** `parseInt(v, 10)` on an arbitrary value: ToString first, which may throw. */
  function ParseIntValue(v: JsValue): (r: Option<IntOrNaN>)
    ensures r.None? <==> ToStr(v).None?
  {
    match ToStr(v)
    case None => None
    case Some(s) => Some(ParseInt(s, 10))
  }

  lemma {:induction false} DigitPrefixOfDigits(s: string, radix: Radix)
    requires AllDigits(s, radix)
    ensures DigitPrefix(s, radix) == s
  {
    if s != [] {
      DigitPrefixOfDigits(s[1..], radix);
    }
  }

  lemma {:induction false} NatDigitsValue(m: nat)
    ensures AllDigits(NatDigits(m), 10)
    ensures DigitsValue(NatDigits(m), 10) == m
  {
    if m >= 10 {
      NatDigitsValue(m / 10);
      var p := NatDigits(m / 10);
      var s := p + [DigitChar(m % 10)];
      assert s[..|s| - 1] == p;
    }
  }

  /** A printed integer reads back as itself: `parseInt(String(n), 10) == n`. */
  lemma {:induction false} ParseIntDecimalRoundTrip(n: int)
    ensures ParseInt(DecimalString(n), 10) == Int(n)
  {
    var m: nat := if n < 0 then -n else n;
    var digits := NatDigits(m);
    NatDigitsValue(m);
    DigitPrefixOfDigits(digits, 10);
    var s := DecimalString(n);
    assert TrimStart(s) == s;
    if n < 0 {
      assert s == "-" + digits && s[1..] == digits;
    } else {
      assert s[0] != '-' && s[0] != '+';
    }
  }

  /** `parseInt(v, 10)` gives back the integer of a Number value. */
  lemma ParseIntValueOfNum(n: int)
    ensures ParseIntValue(Num(n)) == Some(Int(n))
  {
    ParseIntDecimalRoundTrip(n);
  }

  lemma {:induction false} TrimStartSkipsWhitespace(ws: string, s: string)
    requires IsBlank(ws)
    ensures TrimStart(ws + s) == TrimStart(s)
  {
    if ws != [] {
      var w := ws + s;
      assert w[0] == ws[0] && IsJsWhitespace(w[0]);
      assert TrimStart(w) == TrimStart(w[1..]);
      assert w[1..] == ws[1..] + s;
      assert IsBlank(ws[1..]);
      TrimStartSkipsWhitespace(ws[1..], s);
    } else {
      assert ws + s == s;
    }
  }

  /** Leading white space never changes what `parseInt` reads. */
  lemma ParseIntSkipsWhitespace(ws: string, s: string, radix: Radix)
    requires IsBlank(ws)
    ensures ParseInt(ws + s, radix) == ParseInt(s, radix)
  {
    TrimStartSkipsWhitespace(ws, s);
  }

  lemma {:induction false} DigitPrefixStops(d: string, rest: string, radix: Radix)
    requires AllDigits(d, radix)
    requires rest == [] || !IsDigit(rest[0], radix)
    ensures DigitPrefix(d + rest, radix) == d
  {
    if d == [] {
    } else {
      assert (d + rest)[1..] == d[1..] + rest;
      DigitPrefixStops(d[1..], rest, radix);
    }
  }

  /** Decimal `parseInt` reads a digit run and ignores whatever follows it. */
  lemma ParseIntIgnoresTrailing(d: string, rest: string)
    requires d != [] && AllDigits(d, 10)
    requires rest == [] || !IsDigit(rest[0], 10)
    ensures ParseInt(d + rest, 10) == Int(DigitsValue(d, 10))
  {
    DigitPrefixStops(d, rest, 10);
    var s := d + rest;
    assert s[0] == d[0];
    assert TrimStart(s) == s;
  }

  /** Two hexadecimal digits read with radix 16 give a byte. */
  lemma ParseIntHexPair(hi: char, lo: char)
    requires IsDigit(hi, 16) && IsDigit(lo, 16)
    ensures ParseInt([hi, lo], 16) == Int(16 * DigitValue(hi) + DigitValue(lo))
    ensures 0 <= 16 * DigitValue(hi) + DigitValue(lo) <= 255
  {
    var s := [hi, lo];
    assert TrimStart(s) == s;
    assert !HasHexPrefix(s);
    DigitPrefixOfDigits(s, 16);
    assert s[..1] == [hi] && [hi][..0] == [];
    assert DigitsValue([hi], 16) == DigitValue(hi);
    assert DigitsValue(s, 16) == DigitsValue([hi], 16) * 16 + DigitValue(lo);
  }

  /** NaN exactly when no digit follows the white space, the sign and (for
      radix 16) the `0x` prefix. */
  lemma ParseIntNaNWithoutDigits(input: string, radix: Radix)
    ensures ParseInt(input, radix) == NaN <==>
      var s := TrimStart(input);
      var unsigned := if |s| > 0 && (s[0] == '-' || s[0] == '+') then s[1..] else s;
      var body := if radix == 16 && HasHexPrefix(unsigned) then unsigned[2..] else unsigned;
      body == [] || !IsDigit(body[0], radix)
  {
  }
}
