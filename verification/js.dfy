/**
  The slice of JavaScript value semantics that the server and the client rely
  on: truthiness (`!x`, `x || y`), `String(x)`, `parseInt`, `Number(s)`, the
  `<` comparison with an integer, `length`, `toLowerCase`, `split(' ')`, and
  the JSON library as an opaque codec.
*/
module Js {
  import opened Base

  /** A JavaScript number. Integers are exact. A finite value that is not an
      integer is `numerator / 10^scale`, reduced so that the numerator is not
      a multiple of ten: every such value that `Number` reads from a decimal
      numeral has this form. */
  datatype Num = Finite(n: int) | NaN | Infinite(negative: bool) | Fractional(numerator: int, scale: nat)

  /** A JavaScript value as it reaches the code: from a JSON request body,
      a query string, a database driver, or a literal in the source. */
  datatype JsValue =
    | Undefined
    | Null
    | Bool(b: bool)
    | Number(num: Num)
    | Str(s: string)
    | Arr(items: seq<JsValue>)
    | Obj(fields: map<string, JsValue>)

  /** ToBoolean: `undefined`, `null`, `false`, `0`, `NaN` and `""` are falsy;
      every array and object is truthy. */
  predicate Truthy(v: JsValue)
  {
    match v
    case Undefined => false
    case Null => false
    case Bool(b) => b
    case Number(x) => !x.NaN? && (x.Finite? ==> x.n != 0)
    case Str(s) => s != ""
    case Arr(_) => true
    case Obj(_) => true
  }

  /** `a || b`. */
  function Or(a: JsValue, b: JsValue): JsValue
  {
    if Truthy(a) then a else b
  }

  /** Property read `o[key]` on a plain object: `undefined` when absent. */
  function Get(o: map<string, JsValue>, key: string): JsValue
  {
    if key in o then o[key] else Undefined
  }

  /** `typeof v === 'string'` projected to an option. */
  function AsString(v: JsValue): Option<string>
  {
    if v.Str? then Some(v.s) else None
  }

  // ---------------------------------------------------------------------
  // Decimal digits

  predicate IsDigit(c: char)
  {
    '0' <= c <= '9'
  }

  predicate AllDigits(s: string)
  {
    forall i :: 0 <= i < |s| ==> IsDigit(s[i])
  }

  /** The value of `c` as a digit in radix up to 36, or 36 when `c` is not
      a digit in any radix. */
  function DigitValue(c: char): nat
  {
    if '0' <= c <= '9' then c as int - '0' as int
    else if 'a' <= c <= 'z' then c as int - 'a' as int + 10
    else if 'A' <= c <= 'Z' then c as int - 'A' as int + 10
    else 36
  }

  function DecimalDigit(d: nat): (c: char)
    requires d < 10
    ensures IsDigit(c) && DigitValue(c) == d
  {
    ('0' as int + d) as char
  }

  /** The decimal numeral of `n`, without leading zeros. */
  function NatToDecimal(n: nat): (s: string)
    ensures |s| > 0 && AllDigits(s)
  {
    if n < 10 then [DecimalDigit(n)]
    else NatToDecimal(n / 10) + [DecimalDigit(n % 10)]
  }

  /** `Number.prototype.toString()` on an integral number. */
  function IntToDecimal(i: int): (s: string)
    ensures |s| > 0
    ensures i >= 0 ==> AllDigits(s)
    ensures i < 0 ==> s[0] == '-' && AllDigits(s[1..])
  {
    if i < 0 then "-" + NatToDecimal(-i) else NatToDecimal(i)
  }

  /** The number whose digits in `radix` are `s`, most significant first. */
  function DigitsValue(s: string, radix: nat): nat
  {
    if s == [] then 0
    else DigitsValue(s[..|s| - 1], radix) * radix + DigitValue(s[|s| - 1])
  }

  /** Length of the longest prefix of `s` made of digits of `radix`. */
  function DigitPrefix(s: string, radix: nat): (k: nat)
    ensures k <= |s|
    ensures forall i :: 0 <= i < k ==> DigitValue(s[i]) < radix
    ensures k < |s| ==> DigitValue(s[k]) >= radix
  {
    if s == [] || DigitValue(s[0]) >= radix then 0
    else 1 + DigitPrefix(s[1..], radix)
  }

  lemma {:induction false} DecimalValue(n: nat)
    ensures DigitsValue(NatToDecimal(n), 10) == n
    decreases n
  {
    if n >= 10 {
      var s := NatToDecimal(n);
      assert s[..|s| - 1] == NatToDecimal(n / 10);
      DecimalValue(n / 10);
    }
  }

  lemma AllDigitsPrefix(s: string)
    requires AllDigits(s)
    ensures DigitPrefix(s, 10) == |s|
  {
  }

  // ---------------------------------------------------------------------
  // String(v)

  /** `String(v)`, also what a template literal `${v}` produces. An array
      joins its elements' strings with commas, `null` and `undefined`
      elements becoming empty. */
  function ToJsString(v: JsValue): string
  {
    match v
    case Undefined => "undefined"
    case Null => "null"
    case Bool(b) => if b then "true" else "false"
    case Number(x) => NumberText(x)
    case Str(s) => s
    case Arr(items) =>
      Join(seq(|items|, i requires 0 <= i < |items| =>
                 if items[i].Undefined? || items[i].Null? then "" else ToJsString(items[i])), ",")
    case Obj(_) => "[object Object]"
  }

  /** `String(x)` for a number. A fraction is written in positional
      notation, which is what JavaScript does for magnitudes between
      10^-6 and 10^21. */
  function NumberText(x: Num): string
  {
    match x
    case Finite(n) => IntToDecimal(n)
    case NaN => "NaN"
    case Infinite(negative) => if negative then "-Infinity" else "Infinity"
    case Fractional(numerator, scale) => FractionText(numerator, scale)
  }

  function Pow10(k: nat): (p: nat)
    ensures p >= 1
  {
    if k == 0 then 1 else 10 * Pow10(k - 1)
  }

  function Quotient(a: nat, p: nat): nat
    requires p > 0
  {
    a / p
  }

  /** `d` preceded by enough zeros to be `width` digits long. */
  function PadDigits(d: string, width: nat): string
  {
    seq(if width > |d| then width - |d| else 0, _ => '0') + d
  }

  /** `numerator / 10^scale` in positional notation: sign, integer part,
      point, and `scale` fraction digits. */
  function FractionText(numerator: int, scale: nat): string
  {
    var a: nat := if numerator < 0 then -numerator else numerator;
    var p := Pow10(scale);
    (if numerator < 0 then "-" else "") + NatToDecimal(Quotient(a, p)) + "."
      + PadDigits(NatToDecimal(a % p), scale)
  }

  /** `parts.join(sep)`. */
  function Join(parts: seq<string>, sep: string): string
  {
    if parts == [] then ""
    else if |parts| == 1 then parts[0]
    else parts[0] + sep + Join(parts[1..], sep)
  }

  // ---------------------------------------------------------------------
  // Whitespace, parseInt and Number

  /** The ECMAScript white space and line terminator characters: tab,
      vertical tab, form feed, the byte order mark, line feed, carriage
      return, the line and paragraph separators, and every Unicode "space
      separator" (U+0020, U+00A0, U+1680, U+2000 to U+200A, U+202F, U+205F,
      U+3000). */
  predicate IsWhitespace(c: char)
  {
    c == ' ' || c == '\t' || c == '\n' || c == '\r' || c == '\U{B}' || c == '\U{C}'
    || c == '\U{A0}' || c == '\U{FEFF}' || c == '\U{2028}' || c == '\U{2029}'
    || c == '\U{1680}' || ('\U{2000}' <= c <= '\U{200A}') || c == '\U{202F}' || c == '\U{205F}'
    || c == '\U{3000}'
  }

  function TrimStart(s: string): (r: string)
    ensures |r| <= |s| && r == s[|s| - |r|..]
    ensures r != [] ==> !IsWhitespace(r[0])
  {
    if s != [] && IsWhitespace(s[0]) then TrimStart(s[1..]) else s
  }

  function TrimEnd(s: string): (r: string)
    ensures |r| <= |s| && r == s[..|r|]
    ensures r != [] ==> !IsWhitespace(r[|r| - 1])
  {
    if s != [] && IsWhitespace(s[|s| - 1]) then TrimEnd(s[..|s| - 1]) else s
  }

  predicate HasHexPrefix(s: string)
  {
    |s| >= 2 && s[0] == '0' && (s[1] == 'x' || s[1] == 'X')
  }

  /** `parseInt(s)` with no radix: leading white space is skipped, one sign
      is read, and the magnitude follows; no digit at all gives NaN. */
  function ParseInt(s: string): (r: Num)
    ensures r.Finite? || r.NaN?
  {
    ParseSigned(TrimStart(s))
  }

  function ParseSigned(t: string): (r: Num)
    ensures r.Finite? || r.NaN?
  {
    var negative := t != [] && t[0] == '-';
    var u := if t != [] && (t[0] == '-' || t[0] == '+') then t[1..] else t;
    match ParseMagnitude(u)
    case None => NaN
    case Some(m) =>
      var v: int := m;
      Finite(if negative then -v else v)
  }

  /** The unsigned part of `parseInt`: a `0x`/`0X` prefix selects radix 16,
      and the longest run of digits that follows is the value. */
  function ParseMagnitude(u: string): Option<nat>
  {
    var radix := if HasHexPrefix(u) then 16 else 10;
    var body := if HasHexPrefix(u) then u[2..] else u;
    var k := DigitPrefix(body, radix);
    if k == 0 then None else Some(DigitsValue(body[..k], radix))
  }

  /** A decimal numeral reads back as its value. */
  lemma MagnitudeDecimal(m: nat)
    ensures ParseMagnitude(NatToDecimal(m)) == Some(m)
  {
    var u := NatToDecimal(m);
    assert !HasHexPrefix(u) by {
      assert |u| >= 2 ==> IsDigit(u[1]);
    }
    AllDigitsPrefix(u);
    assert u[..|u|] == u;
    DecimalValue(m);
  }

  /** `parseInt` reads back every integer's own decimal numeral. */
  lemma ParseIntDecimal(n: int)
    ensures ParseInt(IntToDecimal(n)) == Finite(n)
  {
    DecimalUntrimmed(n);
    SignedText(n);
  }

  lemma SignedText(n: int)
    ensures ParseSigned(IntToDecimal(n)) == Finite(n)
  {
    if n < 0 {
      SignedNegative(-n);
    } else {
      SignedNatural(n);
    }
  }

  lemma SignedNegative(m: nat)
    ensures ParseSigned("-" + NatToDecimal(m)) == Finite(-(m as int))
  {
    var t := "-" + NatToDecimal(m);
    assert t[1..] == NatToDecimal(m);
    MagnitudeDecimal(m);
  }

  lemma SignedNatural(m: nat)
    ensures ParseSigned(NatToDecimal(m)) == Finite(m)
  {
    var t := NatToDecimal(m);
    assert IsDigit(t[0]);
    MagnitudeDecimal(m);
  }

  /** `Number(s)` for a string: surrounding white space is ignored and the
      empty string is 0; an unsigned `0x`, `0o` or `0b` numeral is read in
      its radix; otherwise an optionally signed `Infinity` or decimal
      literal (digits, fraction, exponent) is read; anything else is NaN. */
  function ToNumber(s: string): Num
  {
    TrimmedToNumber(TrimEnd(TrimStart(s)))
  }

  /** The radix a `0x`, `0o` or `0b` prefix selects, or 0 without one. */
  function PrefixRadix(t: string): nat
  {
    if |t| < 2 || t[0] != '0' then 0
    else if t[1] == 'x' || t[1] == 'X' then 16
    else if t[1] == 'o' || t[1] == 'O' then 8
    else if t[1] == 'b' || t[1] == 'B' then 2
    else 0
  }

  function TrimmedToNumber(t: string): Num
  {
    if t == [] then Finite(0)
    else if PrefixRadix(t) != 0 then
      var body := t[2..];
      if body != [] && DigitPrefix(body, PrefixRadix(t)) == |body| then Finite(DigitsValue(body, PrefixRadix(t)))
      else NaN
    else SignedDecimal(t)
  }

  /** An optional sign followed by `Infinity` or a decimal literal. */
  function SignedDecimal(t: string): Num
    requires t != []
  {
    var negative := t[0] == '-';
    var body := if t[0] == '-' || t[0] == '+' then t[1..] else t;
    if body == "Infinity" then Infinite(negative) else SignedLiteral(negative, DecimalLiteral(body))
  }

  /** The value of a decimal literal, if there is one, with its sign. */
  function SignedLiteral(negative: bool, literal: Option<(nat, int)>): Num
  {
    match literal
    case None => NaN
    case Some((m, e)) =>
      var v: int := m;
      Scaled(if negative then -v else v, e)
  }

  /** An unsigned decimal literal: digits, optionally a point and more
      digits (at least one digit in all), optionally an exponent. Its value
      is `m * 10^e` for the returned `(m, e)`. */
  function DecimalLiteral(u: string): Option<(nat, int)>
  {
    var k := DigitPrefix(u, 10);
    var rest := u[k..];
    var point := rest != [] && rest[0] == '.';
    var after := if point then rest[1..] else rest;
    var f := if point then DigitPrefix(after, 10) else 0;
    if k + f == 0 then None
    else
      match Exponent(after[f..])
      case None => None
      case Some(e) => Some((DigitsValue(u[..k] + after[..f], 10), e - f))
  }

  /** What follows the digits: nothing, or `e`/`E`, a sign and digits. */
  function Exponent(x: string): Option<int>
  {
    if x == [] then Some(0)
    else if x[0] != 'e' && x[0] != 'E' then None
    else
      var y := x[1..];
      var negative := y != [] && y[0] == '-';
      var d := if y != [] && (y[0] == '-' || y[0] == '+') then y[1..] else y;
      if d != [] && AllDigits(d) then
        var v: int := DigitsValue(d, 10);
        Some(if negative then -v else v)
      else None
  }

  /** The number `v * 10^e`. */
  function Scaled(v: int, e: int): Num
  {
    if e >= 0 then Finite(v * Pow10(e)) else Reduced(v, -e)
  }

  /** The number `v / 10^scale`: an integer when it is one, otherwise a
      fraction with the common factors of ten removed. */
  function Reduced(v: int, scale: nat): Num
    decreases scale
  {
    if scale == 0 then Finite(v)
    else if v % 10 == 0 then Reduced(v / 10, scale - 1)
    else Fractional(v, scale)
  }

  /** A run of digits followed by a non-digit (or nothing) is read up to
      its end. */
  lemma DigitsThen(a: string, rest: string)
    requires AllDigits(a)
    requires rest != [] ==> DigitValue(rest[0]) >= 10
    ensures DigitPrefix(a + rest, 10) == |a|
  {
    var s := a + rest;
    assert forall i :: 0 <= i < |a| ==> s[i] == a[i];
    if rest != [] {
      assert s[|a|] == rest[0];
    }
  }

  lemma DecimalLiteralPlain(a: string)
    requires a != [] && AllDigits(a)
    ensures DecimalLiteral(a) == Some((DigitsValue(a, 10), 0))
  {
    DigitsThen(a, []);
    assert a + [] == a;
    assert a[..|a|] + [] == a;
  }

  lemma DecimalLiteralPointZero(a: string)
    requires a != [] && AllDigits(a)
    ensures DecimalLiteral(a + ".0").Some?
    ensures DecimalLiteral(a + ".0").value.0 == DigitsValue(a, 10) * 10
    ensures DecimalLiteral(a + ".0").value.1 == -1
  {
    var u := a + ".0";
    DigitsThen(a, ".0");
    assert u[|a|..] == ".0";
    var after := "0";
    assert DigitPrefix(after, 10) == 1 by {
      DigitsThen(after, []);
      assert after + [] == after;
    }
    assert after[1..] == [] && Exponent([]) == Some(0);
    assert u[..|a|] + after[..1] == a + "0";
    assert DigitsValue(a + "0", 10) == DigitsValue(a, 10) * 10 by {
      assert (a + "0")[..|a|] == a;
    }
  }

  /** The digits of an integer's numeral, past its sign. */
  lemma DecimalBody(n: int)
    ensures n < 0 ==> IntToDecimal(n)[1..] == NatToDecimal(-n) && DigitsValue(NatToDecimal(-n), 10) == -n
    ensures n >= 0 ==> IntToDecimal(n) == NatToDecimal(n) && DigitsValue(NatToDecimal(n), 10) == n
  {
    if n < 0 {
      assert IntToDecimal(n)[1..] == NatToDecimal(-n);
      DecimalValue(-n);
    } else {
      DecimalValue(n);
    }
  }

  /** A numeral that starts with a sign or a digit, and whose second
      character is not a letter, has no radix prefix. */
  lemma NoPrefix(t: string)
    requires |t| >= 2 ==> t[0] == '-' || IsDigit(t[1]) || t[1] == '.'
    ensures PrefixRadix(t) == 0
  {
  }

  /** `Number` reads back every integer's own decimal numeral. */
  lemma ToNumberDecimal(n: int)
    ensures ToNumber(IntToDecimal(n)) == Finite(n)
  {
    var s := IntToDecimal(n);
    DecimalUntrimmed(n);
    NoPrefix(s);
    SignedDecimalOf(n);
  }

  lemma DecimalUntrimmed(n: int)
    ensures TrimStart(IntToDecimal(n)) == IntToDecimal(n)
    ensures TrimEnd(IntToDecimal(n)) == IntToDecimal(n)
  {
    var s := IntToDecimal(n);
    assert !IsWhitespace(s[0]);
    assert IsDigit(s[|s| - 1]);
  }

  lemma SignedDecimalOf(n: int)
    ensures SignedDecimal(IntToDecimal(n)) == Finite(n)
  {
    var s := IntToDecimal(n);
    DecimalBody(n);
    var a := if n < 0 then NatToDecimal(-n) else NatToDecimal(n);
    assert a[0] != 'I';
    DecimalLiteralPlain(a);
  }

  /** How `SignedDecimal` reads a numeral whose unsigned part is a decimal
      literal of value `m * 10^e`. */
  lemma SignedDecimalLiteral(t: string, body: string, m: nat, e: int)
    requires t != [] && body == (if t[0] == '-' || t[0] == '+' then t[1..] else t)
    requires body != "Infinity" && DecimalLiteral(body) == Some((m, e))
    ensures SignedDecimal(t) == Scaled(if t[0] == '-' then -(m as int) else m, e)
  {
    assert SignedDecimal(t) == SignedLiteral(t[0] == '-', Some((m, e)));
  }

  /** `Number` also reads an integer written with a zero fraction:
      `Number("7.0")` is 7. */
  lemma ToNumberPointZero(n: int)
    ensures ToNumber(IntToDecimal(n) + ".0") == Finite(n)
  {
    PointZeroUntrimmed(n);
    SignedPointZero(n);
  }

  lemma PointZeroUntrimmed(n: int)
    ensures var s := IntToDecimal(n) + ".0";
      TrimStart(s) == s && TrimEnd(s) == s && PrefixRadix(s) == 0
  {
    var d := IntToDecimal(n);
    var s := d + ".0";
    assert s[0] == d[0] && s[|s| - 1] == '0';
    Untrimmed(s);
    assert |s| >= 2 ==> s[0] == '-' || IsDigit(s[1]) || s[1] == '.' by {
      if |d| >= 2 {
        assert s[1] == d[1];
      } else {
        assert s[1] == '.';
      }
    }
    NoPrefix(s);
  }

  /** Text that starts and ends with something other than white space is
      left as it is by trimming. */
  /** A leading white space character, such as U+3000 IDEOGRAPHIC SPACE,
      changes neither `Number` nor `parseInt`. */
  lemma LeadingSpaceIgnored(c: char, s: string)
    requires IsWhitespace(c)
    ensures ToNumber([c] + s) == ToNumber(s)
    ensures ParseInt([c] + s) == ParseInt(s)
  {
    assert ([c] + s)[1..] == s;
  }

  /** `Number("\u3000" + n)` and `parseInt` of it read the integer `n`. */
  lemma IdeographicSpaceDecimal(n: int)
    ensures ToNumber("\U{3000}" + IntToDecimal(n)) == Finite(n)
    ensures ParseInt("\U{3000}" + IntToDecimal(n)) == Finite(n)
  {
    LeadingSpaceIgnored('\U{3000}', IntToDecimal(n));
    ToNumberDecimal(n);
    ParseIntDecimal(n);
  }

  lemma Untrimmed(s: string)
    requires s != [] && !IsWhitespace(s[0]) && !IsWhitespace(s[|s| - 1])
    ensures TrimStart(s) == s && TrimEnd(s) == s
  {
  }

  lemma {:induction false} SignedPointZero(n: int)
    ensures SignedDecimal(IntToDecimal(n) + ".0") == Finite(n)
  {
    var s := IntToDecimal(n) + ".0";
    var m: nat := if n < 0 then -n else n;
    var a := NatToDecimal(m);
    var body := PointZeroBody(n);
    DecimalValue(m);
    SignedPointZeroOf(s, body, a, n);
  }

  /** A signed numeral whose unsigned part is digits of `|n|` and ".0"
      reads as `n`. */
  lemma SignedPointZeroOf(s: string, body: string, a: string, n: int)
    requires s != [] && (s[0] == '-' <==> n < 0) && s[0] != '+'
    requires body == (if s[0] == '-' || s[0] == '+' then s[1..] else s)
    requires body == a + ".0" && body != "Infinity"
    requires a != [] && AllDigits(a) && DigitsValue(a, 10) == (if n < 0 then -n else n)
    ensures SignedDecimal(s) == Finite(n)
  {
    var m: nat := if n < 0 then -n else n;
    PointZeroLiteral(a, m);
    SignedDecimalLiteral(s, body, m * 10, -1);
    SignedTens(s[0] == '-', n, m);
    TenthOfTens(n);
  }

  lemma PointZeroLiteral(a: string, m: nat)
    requires a != [] && AllDigits(a) && DigitsValue(a, 10) == m
    ensures DecimalLiteral(a + ".0") == Some(((m * 10) as nat, -1))
  {
    DecimalLiteralPointZero(a);
  }

  lemma SignedTens(negative: bool, n: int, m: nat)
    requires (negative <==> n < 0) && m == (if n < 0 then -n else n)
    ensures (if negative then -(m * 10) else m * 10) == n * 10
  {
  }

  /** The unsigned part of `n + ".0"`: the magnitude's digits and ".0". */
  lemma PointZeroBody(n: int) returns (body: string)
    ensures var s := IntToDecimal(n) + ".0";
      && s != [] && (s[0] == '-' <==> n < 0) && s[0] != '+'
      && body == (if s[0] == '-' || s[0] == '+' then s[1..] else s)
      && body == NatToDecimal(if n < 0 then -n else n) + ".0"
      && body != "Infinity"
  {
    var s := IntToDecimal(n) + ".0";
    DecimalBody(n);
    body := if n < 0 then s[1..] else s;
    if n < 0 {
      assert s[1..] == IntToDecimal(n)[1..] + ".0";
    } else {
      assert s[0] == NatToDecimal(n)[0];
    }
    assert body[0] != 'I';
  }

  lemma TenthOfTens(n: int)
    ensures Scaled(n * 10, -1) == Finite(n)
  {
    var v := n * 10;
    assert v % 10 == 0 && v / 10 == n;
    assert Scaled(v, -1) == Reduced(v, 1);
    assert Reduced(v, 1) == Reduced(n, 0);
  }

  /** `ToNumber(v)` for any value, which `<` applies to a value compared
      with a number: an array or object goes through its string. */
  function ToNumeric(v: JsValue): Num
  {
    match v
    case Undefined => NaN
    case Null => Finite(0)
    case Bool(b) => Finite(if b then 1 else 0)
    case Number(x) => x
    case Str(s) => ToNumber(s)
    case _ => ToNumber(ToJsString(v))
  }

  /** `x < k` for an integer `k`; every comparison with NaN is false. */
  predicate LessThan(x: Num, k: int)
  {
    match x
    case Finite(n) => n < k
    case NaN => false
    case Infinite(negative) => negative
    case Fractional(numerator, scale) => numerator < k * Pow10(scale)
  }

  /** `s.length`: UTF-16 code units, two for each character outside the
      Basic Multilingual Plane. */
  function Utf16Length(s: string): (n: nat)
    ensures |s| <= n <= 2 * |s|
    ensures (forall i :: 0 <= i < |s| ==> s[i] as int < 0x10000) ==> n == |s|
    ensures (forall i :: 0 <= i < |s| ==> s[i] as int >= 0x10000) ==> n == 2 * |s|
  {
    if s == [] then 0
    else Utf16Length(s[..|s| - 1]) + (if s[|s| - 1] as int >= 0x10000 then 2 else 1)
  }

  /** The UTF-16 code units of a string, which `charAt` and `substring`
      index: a character outside the Basic Multilingual Plane becomes a
      surrogate pair. */
  function Utf16(s: string): (u: seq<int>)
    ensures |u| == Utf16Length(s)
    ensures forall i :: 0 <= i < |u| ==> 0 <= u[i] < 0x10000
  {
    if s == [] then []
    else
      var v := s[|s| - 1] as int;
      Utf16(s[..|s| - 1]) + (if v >= 0x10000 then [0xD800 + (v - 0x10000) / 1024, 0xDC00 + (v - 0x10000) % 1024] else [v])
  }

  /** Text of the Basic Multilingual Plane is its own code units. */
  lemma {:induction false} Utf16Bmp(s: string)
    requires forall i :: 0 <= i < |s| ==> s[i] as int < 0x10000
    ensures |Utf16(s)| == |s|
    ensures forall i :: 0 <= i < |s| ==> Utf16(s)[i] == s[i] as int
  {
    if s != [] {
      Utf16Bmp(s[..|s| - 1]);
    }
  }

  // ---------------------------------------------------------------------
  // Case and substrings

  function LowerChar(c: char): char
  {
    if 'A' <= c <= 'Z' then (c as int + 32) as char else c
  }

  /** `toLowerCase()` on the ASCII letters. */
  function ToLower(s: string): (r: string)
    ensures |r| == |s|
    ensures forall i :: 0 <= i < |s| ==> r[i] == LowerChar(s[i])
  {
    seq(|s|, i requires 0 <= i < |s| => LowerChar(s[i]))
  }

  /** A string is lower-case when no ASCII capital occurs in it. */
  predicate IsLower(s: string)
  {
    forall i :: 0 <= i < |s| ==> !('A' <= s[i] <= 'Z')
  }

  /** Lower-casing yields a lower-case string, and does nothing more to one. */
  lemma ToLowerLowers(s: string)
    ensures IsLower(ToLower(s))
    ensures IsLower(s) ==> ToLower(s) == s
    ensures ToLower(ToLower(s)) == ToLower(s)
  {
  }

  /** `needle` occurs in `hay` as a contiguous substring. */
  predicate Contains(hay: string, needle: string)
  {
    exists i :: 0 <= i <= |hay| && needle <= hay[i..]
  }

  // ---------------------------------------------------------------------
  // split(' ')

  /** `s.split(sep)` for a one-character separator: the fields between
      separators, including empty ones; a string without the separator is
      one field. */
  function Split(s: string, sep: char): (r: seq<string>)
    ensures |r| >= 1
  {
    if s == [] then [""]
    else
      var rest := Split(s[1..], sep);
      if s[0] == sep then [""] + rest else [[s[0]] + rest[0]] + rest[1..]
  }

  /** Splitting loses nothing: the fields joined by the separator give back
      the string, and no field contains the separator. */
  lemma {:induction false} SplitJoin(s: string, sep: char)
    ensures Join(Split(s, sep), [sep]) == s
    ensures forall i :: 0 <= i < |Split(s, sep)| ==> sep !in Split(s, sep)[i]
  {
    if s != [] {
      var rest := Split(s[1..], sep);
      SplitJoin(s[1..], sep);
      if s[0] == sep {
        assert Split(s, sep) == [""] + rest;
        assert Join([""] + rest, [sep]) == "" + [sep] + Join(rest, [sep]);
      } else {
        var r := [[s[0]] + rest[0]] + rest[1..];
        assert Split(s, sep) == r;
        if |rest| == 1 {
          assert Join(r, [sep]) == [s[0]] + rest[0];
        } else {
          assert r[1..] == rest[1..];
          assert Join(rest, [sep]) == rest[0] + [sep] + Join(rest[1..], [sep]);
          assert Join(r, [sep]) == [s[0]] + rest[0] + [sep] + Join(rest[1..], [sep]);
        }
      }
    }
  }

  /** A string without the separator is one field. */
  lemma {:induction false} SplitNone(s: string, sep: char)
    requires sep !in s
    ensures Split(s, sep) == [s]
  {
    if s != [] {
      SplitNone(s[1..], sep);
      assert s[0] != sep;
      assert [s[0]] + s[1..] == s;
    }
  }

  /** The fields of `a sep b`, when `a` has no separator, are `a` and then
      the fields of `b`. */
  lemma {:induction false} SplitAt(a: string, b: string, sep: char)
    requires sep !in a
    ensures Split(a + [sep] + b, sep) == [a] + Split(b, sep)
  {
    var s := a + [sep] + b;
    if a == [] {
      assert s[1..] == b;
    } else {
      assert s[1..] == a[1..] + [sep] + b;
      SplitAt(a[1..], b, sep);
      assert [a[0]] + a[1..] == a;
    }
  }

  // ---------------------------------------------------------------------
  // JSON

  /** A value JSON can represent: no `undefined` and no NaN anywhere. */
  predicate IsJson(v: JsValue)
  {
    match v
    case Undefined => false
    case Null => true
    case Bool(_) => true
    case Number(x) => x.Finite?
    case Str(_) => true
    case Arr(items) => forall i :: 0 <= i < |items| ==> IsJson(items[i])
    case Obj(fields) => forall k :: k in fields ==> IsJson(fields[k])
  }

  /** `JSON.parse` (None: it throws) and `JSON.stringify` (None: it returns
      `undefined`), left uninterpreted. */
  datatype JsonCodec = JsonCodec(parse: string -> Option<JsValue>, stringify: JsValue -> Option<string>)

  /** What the model assumes of the JSON library: the empty text is not
      JSON, `[]` and `{}` parse to the empty array and object, `undefined`
      stringifies to nothing, and every JSON value stringifies to a text
      that parses back to it. */
  ghost predicate Lawful(c: JsonCodec)
  {
    && c.parse("") == None
    && c.parse("[]") == Some(Arr([]))
    && c.parse("{}") == Some(Obj(map[]))
    && c.stringify(Undefined) == None
    && (forall v :: IsJson(v) ==> c.stringify(v).Some? && c.parse(c.stringify(v).value) == Some(v))
  }
}
