/** The dynamically typed values the services receive (JSON request fields,
    pandas cells) and Python's `int()` and `float()` on them. */
module Values {
  import opened Wrappers
  import opened Text

  /** A JSON value or a pandas cell; `Null` is `None`, and also a missing
      (`NaN`/`NA`) cell. */
  datatype Value = Null | Bool(b: bool) | Int(i: int) | Float(x: real) | Str(s: string)

  /** What a failed Python conversion raises. */
  datatype PyError = TypeError | ValueError

  /** A signed integer part: `int(x)` of a float truncates toward zero. */
  function Trunc(x: real): (i: int)
    ensures 0.0 <= x ==> i as real <= x < i as real + 1.0
    ensures x < 0.0 ==> i as real - 1.0 < x <= i as real
  {
    if 0.0 <= x then x.Floor else -((-x).Floor)
  }

  predicate AllDigits(d: string) {
    forall i :: 0 <= i < |d| ==> IsDigit(d[i])
  }

  /** The sign and the rest of a stripped numeric literal. */
  function SplitSign(t: string): (r: (int, string))
    ensures r.0 == 1 || r.0 == -1
    ensures |r.1| <= |t|
  {
    if |t| > 0 && t[0] == '-' then (-1, t[1..])
    else if |t| > 0 && t[0] == '+' then (1, t[1..])
    else (1, t)
  }

  /** `int(s)` on a string: surrounding white space, an optional sign and
      one or more ASCII digits. */
  function ParseInt(s: string): (r: Option<int>)
  {
    var (sign, d) := SplitSign(Strip(s));
    if |d| > 0 && AllDigits(d) then Some(sign * DigitsValue(d)) else None
  }

  function Pow10(n: nat): (p: nat)
    ensures p >= 1
  {
    if n == 0 then 1 else 10 * Pow10(n - 1)
  }

  /** The value of `int.frac` written with ASCII digits. */
  function DecimalValue(intPart: string, fracPart: string): (x: real)
    requires AllDigits(intPart) && AllDigits(fracPart)
    ensures x >= 0.0
  {
    DigitsValue(intPart) as real + DigitsValue(fracPart) as real / Pow10(|fracPart|) as real
  }

  /** Index of the first `.` in `t`, or `|t|`. */
  function DotIndex(t: string): (k: nat)
    ensures k <= |t|
    ensures forall i :: 0 <= i < k ==> t[i] != '.'
    ensures k < |t| ==> t[k] == '.'
  {
    if t == [] then 0 else if t[0] == '.' then 0 else 1 + DotIndex(t[1..])
  }

  /** `float(s)` on a string written in positional decimal notation:
      surrounding white space, an optional sign, digits with at most one `.`,
      and at least one digit. */
  function ParseFloat(s: string): (r: Option<real>)
  {
    var (sign, m) := SplitSign(Strip(s));
    var k := DotIndex(m);
    var intPart := m[..k];
    var fracPart := if k < |m| then m[k + 1..] else "";
    if |intPart| + |fracPart| > 0 && AllDigits(intPart) && AllDigits(fracPart)
    then Some(sign as real * DecimalValue(intPart, fracPart))
    else None
  }

  /** Python's `int(v)`. */
  function PyInt(v: Value): (r: Result<int, PyError>)
    ensures v.Int? ==> r == Success(v.i)
    ensures v.Null? ==> r == Failure(TypeError)
  {
    match v
    case Null => Failure(TypeError)
    case Bool(b) => Success(if b then 1 else 0)
    case Int(i) => Success(i)
    case Float(x) => Success(Trunc(x))
    case Str(s) => if ParseInt(s).Some? then Success(ParseInt(s).value) else Failure(ValueError)
  }

  /** Python's `float(v)`. */
  function PyFloat(v: Value): (r: Result<real, PyError>)
    ensures v.Float? ==> r == Success(v.x)
    ensures v.Null? ==> r == Failure(TypeError)
  {
    match v
    case Null => Failure(TypeError)
    case Bool(b) => Success(if b then 1.0 else 0.0)
    case Int(i) => Success(i as real)
    case Float(x) => Success(x)
    case Str(s) => if ParseFloat(s).Some? then Success(ParseFloat(s).value) else Failure(ValueError)
  }

  /** pydantic's lax `int`: a boolean, an integer, a float with no fractional
      part, or a string holding an integer literal. */
  function LaxInt(v: Value): (r: Option<int>)
    ensures v.Int? ==> r == Some(v.i)
  {
    match v
    case Null => None
    case Bool(b) => Some(if b then 1 else 0)
    case Int(i) => Some(i)
    case Float(x) => if x.Floor as real == x then Some(x.Floor) else None
    case Str(s) => ParseInt(s)
  }

  /** pydantic's lax `float`: any number, or a string holding a decimal literal. */
  function LaxFloat(v: Value): (r: Option<real>)
    ensures v.Float? ==> r == Some(v.x)
    ensures v.Int? ==> r == Some(v.i as real)
  {
    match v
    case Null => None
    case Str(s) => ParseFloat(s)
    case _ => NumberOf(v)
  }

  /** `str(v)` of a value or cell; the text of a float is the parameter `floatRepr`. */
  function StrOf(v: Value, floatRepr: real -> string): string {
    match v
    case Null => "None"
    case Bool(b) => if b then "True" else "False"
    case Int(i) => IntToDecimal(i)
    case Float(x) => floatRepr(x)
    case Str(s) => s
  }

  /** The number a value denotes, if any: the booleans count as 0 and 1. */
  function NumberOf(v: Value): Option<real> {
    match v
    case Bool(b) => Some(if b then 1.0 else 0.0)
    case Int(i) => Some(i as real)
    case Float(x) => Some(x)
    case _ => None
  }

  /** `pd.to_numeric(v, errors="coerce")`: `None` stands for `NaN`. */
  function ToNumeric(v: Value): (r: Option<real>)
    ensures v.Null? ==> r.None?
    ensures NumberOf(v).Some? ==> r == NumberOf(v)
  {
    if v.Str? then ParseFloat(v.s) else NumberOf(v)
  }

  /** Python `==` between two cells, as pandas compares a column with a
      scalar: a missing cell equals nothing, numbers compare by value
      whatever their type, strings by their text. */
  predicate CellEq(a: Value, b: Value) {
    if a.Str? || b.Str? then a.Str? && b.Str? && a.s == b.s
    else NumberOf(a).Some? && NumberOf(a) == NumberOf(b)
  }

  /** `str(v).strip() == ""` for a value that is not `None`: only a string
      can print as blank. */
  predicate Blank(v: Value) {
    v.Str? && Strip(v.s) == ""
  }

  lemma DecimalHasNoSpace(n: nat)
    ensures Strip(NatToDecimal(n)) == NatToDecimal(n)
  {
    var d := NatToDecimal(n);
    assert !IsSpace(d[0]) && !IsSpace(d[|d| - 1]);
    StripUnchanged(d);
  }

  /** `int(str(i)) == i`: the decimal text of an integer parses back to it. */
  lemma ParseIntOfDecimal(i: int)
    ensures ParseInt(IntToDecimal(i)) == Some(i)
  {
    var n: nat := if i < 0 then -i else i;
    var d := NatToDecimal(n);
    if i < 0 {
      var t := "-" + d;
      assert IntToDecimal(i) == t;
      assert t[|t| - 1] == d[|d| - 1];
      assert IsDigit(t[|t| - 1]);
      StripUnchanged(t);
      assert t[1..] == d;
      assert SplitSign(Strip(t)) == (-1, d);
    } else {
      DecimalHasNoSpace(n);
      assert IntToDecimal(i) == d;
      assert SplitSign(Strip(d)) == (1, d);
    }
  }
}
