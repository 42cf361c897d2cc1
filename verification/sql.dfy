/**
  How a statement's parameters reach Postgres. The driver sends every
  parameter as text (`null`/`undefined` as SQL NULL, numbers and booleans
  through `String`, objects as JSON) and Postgres parses the text with the
  input function of the column's type. Only the errors the modelled
  statements can raise are named.
*/
module Sql {
  import opened Base
  import opened Js

  /** Postgres errors, each with its SQLSTATE code. */
  datatype SqlError =
    | InvalidTextRepresentation
    | NumericValueOutOfRange
    | NotNullViolation
    | ForeignKeyViolation
    | UniqueViolation
    | CheckViolation
    | ConnectionFailure

  /** The SQLSTATE the driver puts in `error.code`. */
  function Code(e: SqlError): string
  {
    match e
    case InvalidTextRepresentation => "22P02"
    case NumericValueOutOfRange => "22003"
    case NotNullViolation => "23502"
    case ForeignKeyViolation => "23503"
    case UniqueViolation => "23505"
    case CheckViolation => "23514"
    case ConnectionFailure => "08006"
  }

  /** Only a unique violation carries the code "23505". */
  lemma UniqueViolationCode(e: SqlError)
    ensures Code(e) == "23505" <==> e == UniqueViolation
  {
  }

  /** Bounds of the `INTEGER` (`int4`) column type. */
  const Int4Min: int := -2147483648
  const Int4Max: int := 2147483647

  predicate InInt4(n: int)
  {
    Int4Min <= n <= Int4Max
  }

  predicate IsPgSpace(c: char)
  {
    c == ' ' || c == '\t' || c == '\n' || c == '\r' || c == '\U{B}' || c == '\U{C}'
  }

  function PgTrimStart(s: string): (r: string)
    ensures r != [] ==> !IsPgSpace(r[0])
  {
    if s != [] && IsPgSpace(s[0]) then PgTrimStart(s[1..]) else s
  }

  function PgTrimEnd(s: string): (r: string)
    ensures r != [] ==> !IsPgSpace(r[|r| - 1])
  {
    if s != [] && IsPgSpace(s[|s| - 1]) then PgTrimEnd(s[..|s| - 1]) else s
  }

  /** The `int4` input function of PostgreSQL before version 16: optional
      surrounding white space, one optional sign and at least one decimal
      digit; a value outside the 32-bit range is an overflow error. */
  function Int4(text: string): (r: Result<int, SqlError>)
    ensures r.Ok? ==> InInt4(r.value)
    ensures r.Err? ==> r.error in {InvalidTextRepresentation, NumericValueOutOfRange}
  {
    var t := PgTrimEnd(PgTrimStart(text));
    var negative := t != [] && t[0] == '-';
    var body := if t != [] && (t[0] == '-' || t[0] == '+') then t[1..] else t;
    if body == [] || !AllDigits(body) then Err(InvalidTextRepresentation)
    else
      var m: int := DigitsValue(body, 10);
      var n := if negative then -m else m;
      if InInt4(n) then Ok(n) else Err(NumericValueOutOfRange)
  }

  /** The text of an integer is accepted exactly when it fits in 32 bits. */
  lemma Int4Decimal(n: int)
    ensures Int4(IntToDecimal(n)) == (if InInt4(n) then Ok(n) else Err(NumericValueOutOfRange))
  {
    var s := IntToDecimal(n);
    assert PgTrimStart(s) == s by {
      assert !IsPgSpace(s[0]);
    }
    assert PgTrimEnd(s) == s by {
      assert IsDigit(s[|s| - 1]);
    }
    DecimalBody(n);
  }

  /** The text of NaN, of an infinity or of a fraction is not an integer. */
  lemma Int4NonInteger(x: Num)
    requires !x.Finite?
    ensures Int4(NumberText(x)) == Err(InvalidTextRepresentation)
  {
    match x
    case NaN =>
      Int4NotDigits("NaN", "NaN", 0);
    case Infinite(negative) =>
      var s := NumberText(x);
      Int4NotDigits(s, "Infinity", 0);
    case Fractional(numerator, scale) =>
      Int4Fraction(numerator, scale);
  }

  lemma Int4Fraction(numerator: int, scale: nat)
    ensures Int4(FractionText(numerator, scale)) == Err(InvalidTextRepresentation)
  {
    var s := FractionText(numerator, scale);
    var a: nat := if numerator < 0 then -numerator else numerator;
    var whole := NatToDecimal(Quotient(a, Pow10(scale)));
    var frac := PadDigits(NatToDecimal(a % Pow10(scale)), scale);
    var sign := if numerator < 0 then "-" else "";
    assert s == sign + whole + "." + frac;
    assert s[0] == (if numerator < 0 then '-' else whole[0]);
    assert s[|s| - 1] == frac[|frac| - 1];
    var body := whole + "." + frac;
    assert body == if numerator < 0 then s[1..] else s;
    Int4NotDigits(s, body, |whole|);
  }

  /** An integer written with a zero fraction, such as `7.0`, is not
      `int4` text. */
  lemma Int4PointZero(n: int)
    ensures Int4(IntToDecimal(n) + ".0") == Err(InvalidTextRepresentation)
  {
    var d := IntToDecimal(n);
    var s := d + ".0";
    assert s[0] == d[0];
    assert s[|s| - 1] == '0';
    var body := if d[0] == '-' then d[1..] + ".0" else s;
    assert body == if s[0] == '-' || s[0] == '+' then s[1..] else s;
    assert body[|body| - 2] == '.';
    Int4NotDigits(s, body, |body| - 2);
  }

  /** Text whose unsigned part holds a non-digit is not an integer. */
  lemma Int4NotDigits(s: string, body: string, i: nat)
    requires s != [] && !IsPgSpace(s[0]) && !IsPgSpace(s[|s| - 1])
    requires body == (if s[0] == '-' || s[0] == '+' then s[1..] else s)
    requires i < |body| && !IsDigit(body[i])
    ensures Int4(s) == Err(InvalidTextRepresentation)
  {
    assert PgTrimStart(s) == s;
    assert PgTrimEnd(s) == s;
  }

  /** The driver's text for a scalar parameter; `None` is SQL NULL. */
  function ScalarText(v: JsValue): Option<string>
    requires !v.Arr? && !v.Obj?
  {
    match v
    case Undefined => None
    case Null => None
    case _ => Some(ToJsString(v))
  }

  /** The driver's text for any parameter: arrays and objects go as JSON. */
  function TextParam(json: JsonCodec, v: JsValue): Option<string>
  {
    if v.Arr? || v.Obj? then json.stringify(v) else ScalarText(v)
  }

  /** A parameter bound to an `INTEGER` column or compared with one. No
      JSON text is an integer, so arrays and objects are always rejected. */
  function IntegerParam(v: JsValue): (r: Result<Option<int>, SqlError>)
    ensures v.Undefined? || v.Null? ==> r == Ok(None)
    ensures v.Number? && v.num.Finite? ==>
              r == (if InInt4(v.num.n) then Ok(Some(v.num.n)) else Err(NumericValueOutOfRange))
    ensures v.Number? && !v.num.Finite? ==> r == Err(InvalidTextRepresentation)
    ensures r.Ok? && r.value.Some? ==> InInt4(r.value.value)
    ensures r.Ok? && r.value.None? ==> v.Undefined? || v.Null?
  {
    if v.Arr? || v.Obj? then Err(InvalidTextRepresentation)
    else
      match ScalarText(v)
      case None => Ok(None)
      case Some(t) =>
        if v.Number? && v.num.Finite? then Int4Decimal(v.num.n); IntegerOf(Int4(t))
        else if v.Number? then Int4NonInteger(v.num); IntegerOf(Int4(t))
        else IntegerOf(Int4(t))
  }

  function IntegerOf(r: Result<int, SqlError>): Result<Option<int>, SqlError>
  {
    match r
    case Ok(n) => Ok(Some(n))
    case Err(e) => Err(e)
  }

  /** A value for a `NOT NULL` column. */
  function Required<T>(o: Option<T>): (r: Result<T, SqlError>)
    ensures r.Ok? <==> o.Some?
    ensures r.Err? ==> r.error == NotNullViolation
  {
    match o
    case None => Err(NotNullViolation)
    case Some(x) => Ok(x)
  }

  /** A parameter bound to a `NOT NULL` text column. */
  function RequiredText(json: JsonCodec, v: JsValue): (r: Result<string, SqlError>)
    ensures v.Str? ==> r == Ok(v.s)
    ensures v.Undefined? || v.Null? ==> r == Err(NotNullViolation)
  {
    match TextParam(json, v)
    case None => Err(NotNullViolation)
    case Some(t) => Ok(t)
  }

  /** A parameter bound to a `NOT NULL` integer column. */
  function RequiredInteger(v: JsValue): (r: Result<int, SqlError>)
    ensures r.Ok? ==> IntegerParam(v) == Ok(Some(r.value))
    ensures IntegerParam(v) == Ok(None) ==> r == Err(NotNullViolation)
  {
    match IntegerParam(v)
    case Err(e) => Err(e)
    case Ok(None) => Err(NotNullViolation)
    case Ok(Some(n)) => Ok(n)
  }

  /** A JavaScript integer (an id taken from a verified token) bound to a
      `NOT NULL` integer column: it fits or the statement fails. */
  function NumberParam(n: int): (r: Result<int, SqlError>)
    ensures r.Ok? <==> InInt4(n)
    ensures r.Ok? ==> r.value == n
    ensures r.Err? ==> r.error == NumericValueOutOfRange
  {
    RequiredInteger(Number(Finite(n)))
  }

  /** A parameter bound to a `JSONB` column, read back as the driver
      returns it (parsed): NULL stays `null`, a text that is not JSON is
      rejected. */
  function JsonbParam(json: JsonCodec, v: JsValue): Result<JsValue, SqlError>
  {
    match TextParam(json, v)
    case None => Ok(Null)
    case Some(t) =>
      match json.parse(t)
      case None => Err(InvalidTextRepresentation)
      case Some(x) => Ok(x)
  }
}
