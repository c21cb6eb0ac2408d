/**
 * The few JavaScript value semantics the dashboard depends on: truthiness
 * (`if (data)`, `!token`), conversion to string (`localStorage.setItem`)
 * and `parseInt` without a radix.  Numbers are modelled as integers.
 */
module JsValues {
  import opened Wrappers
  import opened Text

  /** A JSON-like JavaScript value as `response.json()` may produce it. */
  datatype JsValue =
    | Undefined
    | Null
    | Bool(b: bool)
    | Num(n: int)
    | NaN
    | Str(s: string)
    | Object
    | Array(elems: seq<JsValue>)

  /** JavaScript's `Boolean(v)`: the falsy values are undefined, null, false, 0, NaN and "". */
  predicate Truthy(v: JsValue)
  {
    match v
    case Undefined => false
    case Null => false
    case Bool(b) => b
    case Num(n) => n != 0
    case NaN => false
    case Str(s) => s != ""
    case Object => true
    case Array(_) => true
  }

  /** A stored string read back through `localStorage.getItem`, `null` when absent. */
  predicate TruthyItem(item: Option<string>)
  {
    item.Some? && item.value != ""
  }

  function DigitChar(d: nat): (c: char)
    requires d < 10
    ensures IsDigitAscii(c) && c as int - '0' as int == d
  {
    ('0' as int + d) as char
  }

  /** The decimal numeral of `n`, without leading zeros. */
  function DecimalString(n: nat): (s: string)
    ensures |s| >= 1
    ensures forall i :: 0 <= i < |s| ==> IsDigitAscii(s[i])
    ensures |s| > 1 ==> s[0] != '0'
  {
    if n < 10 then [DigitChar(n)] else DecimalString(n / 10) + [DigitChar(n % 10)]
  }

  /** `String(v)`, as `localStorage.setItem` stores a value. */
  function ToJsString(v: JsValue): string
  {
    match v
    case Undefined => "undefined"
    case Null => "null"
    case Bool(b) => if b then "true" else "false"
    case Num(n) => if n < 0 then "-" + DecimalString(-n) else DecimalString(n)
    case NaN => "NaN"
    case Str(s) => s
    case Object => "[object Object]"
    case Array(elems) => JoinElements(elems)
  }

  /** `Array.prototype.join(",")`: null and undefined elements give empty strings. */
  function JoinElements(elems: seq<JsValue>): string
    decreases elems
  {
    if elems == [] then ""
    else
      var first := if elems[0].Null? || elems[0].Undefined? then "" else ToJsString(elems[0]);
      if |elems| == 1 then first else first + "," + JoinElements(elems[1..])
  }

  /** The falsy values are exactly undefined, null, false, 0, NaN and the empty string. */
  lemma FalsyValues(v: JsValue)
    ensures !Truthy(v) <==> v in [Undefined, Null, Bool(false), Num(0), NaN, Str("")]
  {
  }

  /**
   * A string read back from the store is truthy exactly when the same
   * string is truthy as a value; a missing item (null) is falsy.
   */
  lemma StoredStringTruthiness(s: string)
    ensures TruthyItem(Some(s)) == Truthy(Str(s))
    ensures !TruthyItem(None) && !Truthy(Null)
  {
  }

  /** Storing a string stores it unchanged. */
  lemma ToJsStringOfString(s: string)
    ensures ToJsString(Str(s)) == s
  {
  }

  /** The white space `parseInt` skips before the numeral. */
  predicate IsJsWhitespace(c: char)
  {
    || c == '\t' || c == '\n' || c == '\U{000B}' || c == '\U{000C}' || c == '\r' || c == ' '
    || c == '\U{00A0}' || c == '\U{1680}' || ('\U{2000}' <= c <= '\U{200A}')
    || c == '\U{2028}' || c == '\U{2029}' || c == '\U{202F}' || c == '\U{205F}'
    || c == '\U{3000}' || c == '\U{FEFF}'
  }

  function TrimStart(s: string): (r: string)
    ensures |r| <= |s| && r == s[|s| - |r|..]
    ensures r != [] ==> !IsJsWhitespace(r[0])
    ensures (s == [] || !IsJsWhitespace(s[0])) ==> r == s
  {
    if s != [] && IsJsWhitespace(s[0]) then TrimStart(s[1..]) else s
  }

  /** The value of `c` as a digit in base `radix` (10 or 16), if it is one. */
  function DigitValue(c: char, radix: nat): (d: Option<nat>)
    requires radix == 10 || radix == 16
    ensures d.Some? ==> d.value < radix
  {
    if '0' <= c <= '9' then Some(c as int - '0' as int)
    else if radix == 16 && 'a' <= c <= 'f' then Some(c as int - 'a' as int + 10)
    else if radix == 16 && 'A' <= c <= 'F' then Some(c as int - 'A' as int + 10)
    else None
  }

  /** The longest prefix of `s` made of digits in base `radix`. */
  function LeadingDigits(s: string, radix: nat): (d: string)
    requires radix == 10 || radix == 16
    ensures |d| <= |s| && d == s[..|d|]
    ensures forall i :: 0 <= i < |d| ==> DigitValue(d[i], radix).Some?
    ensures |d| < |s| ==> DigitValue(s[|d|], radix).None?
  {
    if s != [] && DigitValue(s[0], radix).Some? then [s[0]] + LeadingDigits(s[1..], radix) else []
  }

  /** The value of a numeral whose characters are all digits in base `radix`. */
  function DigitsValue(d: string, radix: nat): nat
    requires radix == 10 || radix == 16
    requires forall i :: 0 <= i < |d| ==> DigitValue(d[i], radix).Some?
  {
    if d == [] then 0
    else DigitsValue(d[..|d| - 1], radix) * radix + DigitValue(d[|d| - 1], radix).value
  }

  /**
   * `parseInt(s)` with no radix: skip leading white space, read an optional
   * sign, switch to base 16 after a `0x`/`0X` prefix, then read as many
   * digits as possible.  `None` stands for `NaN` (no digit at all).
   */
  function ParseInt(s: string): Option<int>
  {
    var (negative, unsigned) := SignAndRest(TrimStart(s));
    var (radix, body) := RadixAndRest(unsigned);
    var digits := LeadingDigits(body, radix);
    if digits == [] then None
    else
      var magnitude: int := DigitsValue(digits, radix);
      Some(if negative then -magnitude else magnitude)
  }

  /** Whether the text starts with `-`, and the text after a leading `+` or `-`. */
  function SignAndRest(t: string): (bool, string)
  {
    if t != [] && (t[0] == '-' || t[0] == '+') then (t[0] == '-', t[1..]) else (false, t)
  }

  /** Base 16 and the rest after a `0x`/`0X` prefix; otherwise base 10 and the whole text. */
  function RadixAndRest(u: string): (r: (nat, string))
    ensures r.0 == 10 || r.0 == 16
  {
    if |u| >= 2 && u[0] == '0' && (u[1] == 'x' || u[1] == 'X') then (16, u[2..]) else (10, u)
  }

  /** The decimal numeral of a number reads back as that number. */
  lemma {:induction false} DecimalStringValue(n: nat)
    ensures DigitsValue(DecimalString(n), 10) == n
  {
    var s := DecimalString(n);
    if n >= 10 {
      DecimalStringValue(n / 10);
      assert s[..|s| - 1] == DecimalString(n / 10);
    }
  }

  /** A string made only of digits is its own longest digit prefix. */
  lemma {:induction false} AllDigitsAreLeading(s: string, radix: nat)
    requires radix == 10 || radix == 16
    requires forall i :: 0 <= i < |s| ==> DigitValue(s[i], radix).Some?
    ensures LeadingDigits(s, radix) == s
  {
    if s != [] {
      AllDigitsAreLeading(s[1..], radix);
    }
  }

  /** A text starting with a digit has no white space or sign in front. */
  lemma NoSignBeforeDigit(u: string)
    requires |u| >= 1 && IsDigitAscii(u[0])
    ensures SignAndRest(TrimStart(u)) == (false, u)
  {
    assert !IsJsWhitespace(u[0]);
    assert TrimStart(u) == u;
  }

  /** A text that does not start with `0x` or `0X` is read in base 10. */
  lemma NoHexPrefix(u: string)
    requires |u| >= 2 ==> u[0] != '0' || (u[1] != 'x' && u[1] != 'X')
    ensures RadixAndRest(u) == (10, u)
  {
  }

  /** A decimal numeral has no white space, sign or hexadecimal prefix in front. */
  lemma NumeralHasNoPrefix(s: string)
    requires |s| >= 1 && IsDigitAscii(s[0])
    requires |s| > 1 ==> s[0] != '0'
    ensures SignAndRest(TrimStart(s)) == (false, s)
    ensures RadixAndRest(s) == (10, s)
  {
    NoSignBeforeDigit(s);
    NoHexPrefix(s);
  }

  /** Decimal digits are digits in base 10. */
  lemma DecimalDigitsHaveValues(s: string)
    requires forall i :: 0 <= i < |s| ==> IsDigitAscii(s[i])
    ensures forall i :: 0 <= i < |s| ==> DigitValue(s[i], 10).Some?
  {
  }

  /** `parseInt(String(n))` gives `n` back for every natural number. */
  lemma ParseDecimalString(n: nat)
    ensures ParseInt(DecimalString(n)) == Some(n)
  {
    var s := DecimalString(n);
    NumeralHasNoPrefix(s);
    DecimalDigitsHaveValues(s);
    AllDigitsAreLeading(s, 10);
    DecimalStringValue(n);
  }

  /** `parseInt("")` is NaN. */
  lemma ParseEmptyIsNaN()
    ensures ParseInt("") == None
  {
  }

  /** `parseInt` once its white space, sign and base are known and it reads a decimal numeral. */
  lemma ParseDecimalParts(s: string, negative: bool, u: string, d: string)
    requires SignAndRest(TrimStart(s)) == (negative, u)
    requires RadixAndRest(u) == (10, u)
    requires forall i :: 0 <= i < |d| ==> DigitValue(d[i], 10).Some?
    requires LeadingDigits(u, 10) == d && d != []
    ensures ParseInt(s) == Some(if negative then -(DigitsValue(d, 10) as int) else DigitsValue(d, 10) as int)
  {
  }

  /** A minus sign in front of a numeral is read as the sign. */
  lemma MinusPrefix(s: string)
    requires |s| >= 1 && IsDigitAscii(s[0])
    ensures SignAndRest(TrimStart("-" + s)) == (true, s)
  {
    var t := "-" + s;
    assert t[0] == '-' && t[1..] == s;
  }

  /** `parseInt(String(n))` gives `n` back for every integer, negative ones included. */
  lemma ParseSignedDecimalString(n: int)
    ensures ParseInt(ToJsString(Num(n))) == Some(n)
  {
    if n >= 0 {
      ParseDecimalString(n);
    } else {
      var s := DecimalString(-n);
      assert ToJsString(Num(n)) == "-" + s;
      MinusPrefix(s);
      NumeralHasNoPrefix(s);
      DecimalDigitsHaveValues(s);
      AllDigitsAreLeading(s, 10);
      DecimalStringValue(-n);
      ParseDecimalParts("-" + s, true, s, s);
    }
  }

  /** The longest digit prefix of a numeral followed by a non-digit is that numeral. */
  lemma {:induction false} LeadingDigitsStopAtNonDigit(s: string, tail: string, radix: nat)
    requires radix == 10 || radix == 16
    requires forall i :: 0 <= i < |s| ==> DigitValue(s[i], radix).Some?
    requires tail == [] || DigitValue(tail[0], radix).None?
    ensures LeadingDigits(s + tail, radix) == s
  {
    if s != [] {
      assert (s + tail)[0] == s[0];
      assert (s + tail)[1..] == s[1..] + tail;
      LeadingDigitsStopAtNonDigit(s[1..], tail, radix);
    } else {
      assert s + tail == tail;
    }
  }

  /** A decimal numeral followed by a text that does not start a hexadecimal prefix has no prefix. */
  lemma NumeralWithTailHasNoPrefix(s: string, tail: string)
    requires |s| >= 1 && IsDigitAscii(s[0])
    requires |s| > 1 ==> s[0] != '0'
    requires tail == [] || (s != "0" || (tail[0] != 'x' && tail[0] != 'X'))
    ensures SignAndRest(TrimStart(s + tail)) == (false, s + tail)
    ensures RadixAndRest(s + tail) == (10, s + tail)
  {
    var u := s + tail;
    assert u[0] == s[0];
    NoSignBeforeDigit(u);
    if |u| >= 2 {
      if |s| == 1 {
        assert u[1] == tail[0];
        assert s == [s[0]];
      } else {
        assert u[1] == s[1];
      }
    }
    NoHexPrefix(u);
  }

  /**
   * `parseInt` reads the numeral and ignores what follows the first
   * non-digit, except that "0" followed by `x` or `X` starts a
   * hexadecimal numeral.
   */
  lemma ParseStopsAtNonDigit(n: nat, tail: string)
    requires tail == [] || (!IsDigitAscii(tail[0]) && (n != 0 || (tail[0] != 'x' && tail[0] != 'X')))
    ensures ParseInt(DecimalString(n) + tail) == Some(n)
  {
    var s := DecimalString(n);
    assert n == 0 ==> s == "0";
    NumeralWithTailHasNoPrefix(s, tail);
    DecimalDigitsHaveValues(s);
    LeadingDigitsStopAtNonDigit(s, tail, 10);
    DecimalStringValue(n);
    ParseDecimalParts(s + tail, false, s + tail, s);
  }

  /** `parseInt` of a text starting with a letter is NaN. */
  lemma ParseLetterIsNaN(s: string)
    requires s != [] && (IsLowerAscii(s[0]) || IsUpperAscii(s[0]))
    ensures ParseInt(s) == None
  {
    assert TrimStart(s) == s;
    assert SignAndRest(s) == (false, s);
    assert RadixAndRest(s) == (10, s);
  }
}
