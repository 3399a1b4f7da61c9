/** The slice of JavaScript value semantics the application relies on: numbers with NaN,
    dynamically typed property values, plain objects as string-keyed maps (so that the
    spread `{...a, ...b}` is the map union `a + b`, right operand winning), strict equality,
    truthiness, the ToNumber and parseFloat conversions for decimal literals, and thrown
    exceptions as an explicit outcome. */
module Js {
  import opened Text

  datatype Option<+T> = None | Some(value: T)

  /** A computation that either returns a value or throws an Error with a message. */
  datatype Outcome<+T> = Ok(value: T) | Throws(message: string)

  /** A JavaScript number: finite, or NaN. Infinities are not modelled. */
  datatype Number = Fin(r: real) | NaN

  function Add(a: Number, b: Number): Number {
    if a.Fin? && b.Fin? then Fin(a.r + b.r) else NaN
  }

  function Div(a: Number, k: real): Number
    requires k != 0.0
  {
    if a.Fin? then Fin(a.r / k) else NaN
  }

  function Mul(a: Number, k: real): Number {
    if a.Fin? then Fin(a.r * k) else NaN
  }

  /** Relational operators: every comparison involving NaN is false. */
  predicate Ge(a: Number, b: Number) { a.Fin? && b.Fin? && a.r >= b.r }
  predicate Le(a: Number, b: Number) { a.Fin? && b.Fin? && a.r <= b.r }
  predicate Lt(a: Number, b: Number) { a.Fin? && b.Fin? && a.r < b.r }
  predicate Gt(a: Number, b: Number) { a.Fin? && b.Fin? && a.r > b.r }

  /** Math.min of two numbers: NaN if either is NaN. */
  function Min(a: Number, b: Number): Number {
    if a.Fin? && b.Fin? then (if a.r <= b.r then a else b) else NaN
  }

  predicate NumberTruthy(n: Number) { n.Fin? && n.r != 0.0 }

  /** `n || 0`: a falsy number (0 or NaN) becomes 0. */
  function OrZero(n: Number): Number {
    if NumberTruthy(n) then n else Fin(0.0)
  }

  lemma AddCommutes(a: Number, b: Number)
    ensures Add(a, b) == Add(b, a)
  {}

  lemma AddAssociates(a: Number, b: Number, c: Number)
    ensures Add(Add(a, b), c) == Add(a, Add(b, c))
  {}

  /** Math.floor(a / b) for a positive divisor. */
  function FloorDiv(a: int, b: int): int
    requires b > 0
  {
    a / b
  }

  /** Math.ceil(a / b) for a positive divisor. */
  function CeilDiv(a: int, b: int): (q: int)
    requires b > 0
    ensures (q - 1) * b < a <= q * b
  {
    -((-a) / b)
  }

  /** A property value. Nested objects and arrays are not needed by the modelled code. */
  datatype Value = Str(s: string) | Num(n: Number) | Bool(b: bool) | Null

  /** A plain object: property name to value. A missing key reads as `undefined`. */
  type Record = map<string, Value>

  /** `r[key]`, with `None` standing for `undefined`. */
  function Get(r: Record, key: string): Option<Value> {
    if key in r then Some(r[key]) else None
  }

  /** The `===` operator; NaN is not equal to itself. */
  predicate StrictEq(a: Option<Value>, b: Option<Value>) {
    match (a, b)
    case (Some(Num(x)), Some(Num(y))) => x.Fin? && y.Fin? && x.r == y.r
    case _ => a == b
  }

  /** `v === s` for a string literal s. */
  predicate IsText(v: Option<Value>, s: string) {
    v == Some(Str(s))
  }

  predicate Truthy(v: Option<Value>) {
    match v
    case None => false
    case Some(Null) => false
    case Some(Bool(b)) => b
    case Some(Num(n)) => NumberTruthy(n)
    case Some(Str(s)) => s != ""
  }

  /** Ten to the power e. */
  function Pow10(e: nat): (p: nat)
    ensures p >= 1
  {
    if e == 0 then 1 else 10 * Pow10(e - 1)
  }

  /** The number of leading decimal digits. */
  function CountDigits(s: string): (n: nat)
    ensures n <= |s|
    ensures forall i :: 0 <= i < n ==> IsDigit(s[i])
    ensures n == |s| || !IsDigit(s[n])
  {
    if |s| > 0 && IsDigit(s[0]) then 1 + CountDigits(s[1..]) else 0
  }

  /** Scans the longest prefix of the form `digits [. digits]` that holds at least one digit,
      returning its length and value. */
  function ScanUnsigned(s: string): Option<(nat, real)> {
    var i := CountDigits(s);
    var whole := DigitsValue(s[..i]) as real;
    if i < |s| && s[i] == '.' then
      var j := CountDigits(s[i + 1..]);
      if i == 0 && j == 0 then None
      else Some((i + 1 + j, whole + (DigitsValue(s[i + 1..][..j]) as real) / (Pow10(j) as real)))
    else if i == 0 then None
    else Some((i, whole))
  }

  /** As ScanUnsigned, with an optional leading sign. */
  function ScanDecimal(s: string): Option<(nat, real)> {
    if |s| > 0 && (s[0] == '-' || s[0] == '+') then
      match ScanUnsigned(s[1..])
      case None => None
      case Some((n, v)) => Some((n + 1, if s[0] == '-' then -v else v))
    else ScanUnsigned(s)
  }

  /** parseFloat on a string: leading whitespace skipped, then the longest decimal prefix. */
  function ParseFloatText(s: string): Number {
    match ScanDecimal(TrimStart(s))
    case None => NaN
    case Some((_, v)) => Fin(v)
  }

  /** Number(s): the whole trimmed string must be a decimal literal; blank reads as 0. */
  function StringToNumber(s: string): Number {
    var t := Trim(s);
    if t == "" then Fin(0.0)
    else match ScanDecimal(t)
      case Some((n, v)) => if n == |t| then Fin(v) else NaN
      case None => NaN
  }

  /** parseFloat(v): the argument is first converted to a string. */
  function ParseFloat(v: Option<Value>): Number {
    match v
    case Some(Str(s)) => ParseFloatText(s)
    case Some(Num(n)) => n
    case _ => NaN
  }

  /** The ToNumber conversion applied by relational operators and unary plus. */
  function ToNumber(v: Option<Value>): Number {
    match v
    case None => NaN
    case Some(Null) => Fin(0.0)
    case Some(Bool(b)) => Fin(if b then 1.0 else 0.0)
    case Some(Num(n)) => n
    case Some(Str(s)) => StringToNumber(s)
  }

  function IntToString(i: int): string {
    if i < 0 then "-" + NatToString(-i) else NatToString(i)
  }

  /** String(v), as a template literal converts a value. Fractional numbers are rendered by
      their integer part followed by a marker, since shortest round-trip formatting is not modelled. */
  function ToText(v: Option<Value>): string {
    match v
    case None => "undefined"
    case Some(Null) => "null"
    case Some(Bool(b)) => if b then "true" else "false"
    case Some(Str(s)) => s
    case Some(Num(NaN)) => "NaN"
    case Some(Num(Fin(r))) => if r == r.Floor as real then IntToString(r.Floor) else IntToString(r.Floor) + ".~"
  }

  /** A rendered number is read back as that number by both parseFloat and Number(). */
  lemma DigitStringParses(n: nat)
    ensures ParseFloat(Some(Str(NatToString(n)))) == Fin(n as real)
    ensures StringToNumber(NatToString(n)) == Fin(n as real)
  {
    NatToStringRoundTrip(n);
    DigitsParse(NatToString(n));
  }

  lemma DigitsParse(s: string)
    requires |s| > 0
    requires forall i :: 0 <= i < |s| ==> IsDigit(s[i])
    ensures ParseFloatText(s) == Fin(DigitsValue(s) as real)
    ensures StringToNumber(s) == Fin(DigitsValue(s) as real)
  {
    ScanAllDigits(s);
    DigitsNotTrimmed(s);
  }

  lemma DigitsNotTrimmed(s: string)
    requires |s| > 0
    requires forall i :: 0 <= i < |s| ==> IsDigit(s[i])
    ensures TrimStart(s) == s && Trim(s) == s
  {
    assert IsDigit(s[0]) && IsDigit(s[|s| - 1]);
    assert !IsJsWhitespace(s[0]);
    assert !IsJsWhitespace(s[|s| - 1]);
  }

  lemma ScanAllDigits(s: string)
    requires |s| > 0
    requires forall i :: 0 <= i < |s| ==> IsDigit(s[i])
    ensures ScanDecimal(s) == Some((|s|, DigitsValue(s) as real))
  {
    CountDigitsAll(s);
    assert s[..|s|] == s;
  }

  lemma {:induction false} CountDigitsAll(s: string)
    requires forall i :: 0 <= i < |s| ==> IsDigit(s[i])
    ensures CountDigits(s) == |s|
  {
    if |s| > 0 {
      CountDigitsAll(s[1..]);
    }
  }
}
