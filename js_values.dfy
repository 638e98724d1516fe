/**
 * Cell values of a loaded data set and the JavaScript conversions the filter
 * engine applies to them: `String(v)`, `parseFloat(v)` and `!isNaN(v)`.
 */
module JsValues {
  import opened Wrappers
  import opened JsText

  /** A cell as the CSV, Excel and JSON loaders produce it. `Undefined` is what
      `row[col]` reads for a column the row does not have. */
  datatype Value = Str(s: string) | Num(n: real) | Bool(b: bool) | Null | Undefined

  /** A row object: column name to cell value. */
  type Row = map<string, Value>

  /** `row[col]`. */
  function Lookup(row: Row, col: string): Value {
    if col in row then row[col] else Undefined
  }

  /** The most fractional digits `NumberToString` writes out. */
  const MAX_FRACTION_DIGITS: nat := 20

  /** The decimal digits of a fraction `0 <= f < 1`, at most `fuel` of them. */
  function FractionDigits(f: real, fuel: nat): (r: string)
    requires 0.0 <= f < 1.0
    ensures AllDigits(r) && |r| <= fuel
    decreases fuel
  {
    if f == 0.0 || fuel == 0 then []
    else
      var t := f * 10.0;
      var d := t.Floor;
      [DigitChar(d)] + FractionDigits(t - d as real, fuel - 1)
  }

  /** `String(x)` for a number `x >= 0`: integer digits, then a point and the
      fraction digits when there is a fraction. */
  function NonNegativeToString(x: real): string
    requires x >= 0.0
  {
    var whole := x.Floor;
    var fraction := FractionDigits(x - whole as real, MAX_FRACTION_DIGITS);
    NatToString(whole) + (if fraction == [] then [] else ['.'] + fraction)
  }

  /** `String(x)` for a number. */
  function NumberToString(x: real): string {
    if x < 0.0 then "-" + NonNegativeToString(-x) else NonNegativeToString(x)
  }

  /** `String(v)`. */
  function ToStr(v: Value): string {
    match v
    case Str(s) => s
    case Num(n) => NumberToString(n)
    case Bool(b) => if b then "true" else "false"
    case Null => "null"
    case Undefined => "undefined"
  }

  /** The longest prefix of `s` made of decimal digits. */
  function DigitPrefix(s: string): (r: string)
    ensures |r| <= |s| && r == s[..|r|] && AllDigits(r)
    ensures |r| == |s| || !IsDigit(s[|r|])
  {
    if s != [] && IsDigit(s[0]) then [s[0]] + DigitPrefix(s[1..]) else []
  }

  /** The value of the digits after a decimal point: "25" is 0.25. */
  function FractionValue(digits: string): real
    requires AllDigits(digits)
  {
    if digits == [] then 0.0 else (DigitValue(digits[0]) as real + FractionValue(digits[1..])) / 10.0
  }

  /** `s` without one leading sign character. */
  function Unsigned(s: string): string {
    if |s| > 0 && (s[0] == '-' || s[0] == '+') then s[1..] else s
  }

  /** The number at the start of unsigned text: integer digits and an optional
      fraction; whatever follows is ignored. `None` when there is no digit. */
  function ParseUnsigned(u: string): Option<real> {
    var whole := DigitPrefix(u);
    var rest := u[|whole|..];
    var fraction := if |rest| > 0 && rest[0] == '.' then DigitPrefix(rest[1..]) else [];
    if whole == [] && fraction == [] then None
    else Some(DigitsValue(whole) as real + FractionValue(fraction))
  }

  /** The number at the start of text that begins with an optional sign. */
  function ParseSigned(t: string): Option<real> {
    match ParseUnsigned(Unsigned(t))
    case None => None
    case Some(x) => Some(if |t| > 0 && t[0] == '-' then -x else x)
  }

  /** `parseFloat(s)`: skip leading whitespace, then read an optional sign and
      the number that follows. `None` is `NaN`. */
  function ParseFloatText(s: string): Option<real> {
    ParseSigned(TrimStart(s))
  }

  /** `parseFloat(v)`: a number is itself; booleans, `null` and `undefined`
      stringify to text with no digits, so they are `NaN`. */
  function ParseNum(v: Value): Option<real> {
    match v
    case Str(s) => ParseFloatText(s)
    case Num(n) => Some(n)
    case _ => None
  }

  /** The whole of `t` is a decimal literal: optional sign, digits, optional
      point and fraction digits, with at least one digit. */
  predicate IsDecimalLiteral(t: string) {
    var u := Unsigned(t);
    var whole := DigitPrefix(u);
    var rest := u[|whole|..];
    || (rest == [] && whole != [])
    || (rest != [] && rest[0] == '.' && AllDigits(rest[1..]) && (whole != [] || |rest| > 1))
  }

  /** `!isNaN(v)`: `Number(v)` is a number. Blank text converts to 0, `true`,
      `false` and `null` to 1, 0 and 0; `undefined` to `NaN`. */
  predicate IsNumberLike(v: Value) {
    match v
    case Str(s) => Trim(s) == [] || IsDecimalLiteral(Trim(s))
    case Num(_) => true
    case Bool(_) => true
    case Null => true
    case Undefined => false
  }

  /** A string of digits is its own digit prefix. */
  lemma DigitPrefixOfDigits(s: string)
    requires AllDigits(s)
    ensures DigitPrefix(s) == s
  {
  }

  /** A run of digits reads as its value. */
  lemma ParseUnsignedDigits(digits: string)
    requires |digits| >= 1 && AllDigits(digits)
    ensures ParseUnsigned(digits) == Some(DigitsValue(digits) as real)
  {
    DigitPrefixOfDigits(digits);
    assert digits[|digits|..] == [];
  }

  /** `parseFloat` reads a minus sign followed by a run of digits as the negated
      value of the digits. */
  lemma ParseMinusDigits(s: string)
    requires |s| >= 2 && s[0] == '-' && AllDigits(s[1..])
    ensures ParseFloatText(s) == Some(-(DigitsValue(s[1..]) as real))
  {
    ParseUnsignedDigits(s[1..]);
    NoLeadingWhitespace(s);
    ParseNegative(s, DigitsValue(s[1..]) as real);
  }

  /** `parseFloat` reads a run of digits as its value. */
  lemma ParseDigits(digits: string)
    requires |digits| >= 1 && AllDigits(digits)
    ensures ParseFloatText(digits) == Some(DigitsValue(digits) as real)
  {
    ParseUnsignedText(digits);
    ParseUnsignedDigits(digits);
  }

  /** Text that starts with a digit is read by `parseFloat` with no sign. */
  lemma ParseUnsignedText(s: string)
    requires |s| >= 1 && IsDigit(s[0])
    ensures ParseFloatText(s) == ParseUnsigned(s)
  {
    NoLeadingWhitespace(s);
    assert Unsigned(s) == s;
  }

  /** Text that starts with a sign or a digit has no leading whitespace. */
  lemma NoLeadingWhitespace(s: string)
    requires |s| > 0 && (s[0] == '-' || IsDigit(s[0]))
    ensures TrimStart(s) == s
  {
  }

  /** Text that begins with a minus sign and has no leading whitespace parses
      as the negation of what follows the sign. */
  lemma ParseNegative(s: string, v: real)
    requires |s| > 0 && s[0] == '-' && TrimStart(s) == s
    requires ParseUnsigned(Unsigned(s)) == Some(v)
    ensures ParseFloatText(s) == Some(-v)
  {
  }

  /** `parseFloat` reads back the decimal text of a natural number. */
  lemma ParseNatText(n: nat)
    ensures ParseFloatText(NatToString(n)) == Some(n as real)
  {
    ParseDigits(NatToString(n));
  }

  /** `String(m)` of a whole number has no fraction part. */
  lemma WholeToString(m: nat)
    ensures NonNegativeToString(m as real) == NatToString(m)
  {
    assert (m as real).Floor == m;
    assert FractionDigits(0.0, MAX_FRACTION_DIGITS) == [];
  }

  /** `String(k)` of an integer: a minus sign for a negative one, then the digits
      of its magnitude. */
  lemma IntegerToString(k: int)
    ensures ToStr(Num(k as real)) == (if k < 0 then "-" + NatToString(-k) else NatToString(k))
  {
    var x := k as real;
    assert ToStr(Num(x)) == NumberToString(x);
    if k < 0 {
      assert -x == (-k) as real;
      WholeToString(-k);
      assert NumberToString(x) == "-" + NonNegativeToString((-k) as real);
    } else {
      WholeToString(k);
      assert NumberToString(x) == NonNegativeToString(k as real);
    }
  }

  /** `parseFloat(String(k))` is `k` for every integer `k`: the text a categorical
      filter compares and the number a range filter compares agree. */
  lemma ParseIntegerRoundTrip(k: int)
    ensures ParseNum(Str(ToStr(Num(k as real)))) == Some(k as real)
  {
    IntegerToString(k);
    if k < 0 {
      var text := "-" + NatToString(-k);
      assert text[1..] == NatToString(-k);
      ParseMinusDigits(text);
    } else {
      ParseNatText(k);
    }
  }
}
