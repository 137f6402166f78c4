/** Values shared by every component: PHP's `mixed`, nullable results,
    opaque callables, and the string inflector the source borrows from its
    framework. */
module Values {

  datatype Option<+T> = None | Some(value: T) {
    /** PHP's `$x ?? $default` on a nullable value. */
    function GetOr(default: T): T {
      match this
      case Some(v) => v
      case None => default
    }
  }

  /** A PHP callable, compared by identity (`===`). Its body is never modelled:
      the operations that call one take its effect as a function parameter. */
  datatype Callback = Callback(handle: nat)

  /** PHP's `mixed`: the values that configuration arrays, hook arguments
      and form data carry. PHP arrays with string keys are `Dict`; the order
      of their keys is not kept here (see OrderedMaps where it is observed). */
  datatype Value =
    | Null
    | Bool(b: bool)
    | Int(i: int)
    | Str(s: string)
    | List(items: seq<Value>)
    | Dict(entries: map<string, Value>)
    | Fn(callback: Callback)

  /** PHP's conversion to bool, as `if ($x)` applies it. */
  predicate Truthy(v: Value) {
    match v
    case Null => false
    case Bool(b) => b
    case Int(i) => i != 0
    case Str(s) => s != "" && s != "0"
    case List(items) => |items| > 0
    case Dict(entries) => |entries| > 0
    case Fn(_) => true
  }

  /** `$s ? … : …` for a nullable string property. */
  predicate TruthyText(s: Option<string>) {
    s.Some? && Truthy(Str(s.value))
  }

  function DigitChar(d: nat): char
    requires d < 10
  {
    "0123456789"[d]
  }

  /** Decimal spelling of an integer, as PHP's string conversion gives it. */
  function NatToString(n: nat): (r: string)
    ensures |r| > 0
    ensures forall i :: 0 <= i < |r| ==> '0' <= r[i] <= '9'
    decreases n
  {
    if n < 10 then [DigitChar(n)] else NatToString(n / 10) + [DigitChar(n % 10)]
  }

  function IntToString(i: int): (r: string)
    ensures |r| > 0
  {
    if i < 0 then "-" + NatToString(-i) else NatToString(i)
  }

  predicate IsDigits(s: string) {
    |s| > 0 && forall i :: 0 <= i < |s| ==> '0' <= s[i] <= '9'
  }

  /** The number a string of decimal digits spells (leading zeros allowed). */
  function DigitsValue(s: string): nat
    requires forall i :: 0 <= i < |s| ==> '0' <= s[i] <= '9'
    decreases |s|
  {
    if s == [] then 0 else DigitsValue(s[..|s| - 1]) * 10 + (s[|s| - 1] as int - '0' as int)
  }

  /** An integer numeric string: decimal digits after an optional sign. */
  predicate IntegerText(s: string) {
    IsDigits(s) || (|s| > 1 && (s[0] == '-' || s[0] == '+') && IsDigits(s[1..]))
  }

  /** The integer PHP reads from an integer numeric string. */
  function ParseInt(s: string): int
    requires IntegerText(s)
  {
    if IsDigits(s) then DigitsValue(s) as int
    else if s[0] == '-' then 0 - DigitsValue(s[1..]) as int
    else DigitsValue(s[1..])
  }

  lemma {:induction false} DigitsValueOf(n: nat)
    ensures DigitsValue(NatToString(n)) == n
    decreases n
  {
    var d := n % 10;
    assert DigitChar(d) as int - '0' as int == d by {
      assert "0123456789"[0] == '0' && "0123456789"[1] == '1' && "0123456789"[2] == '2';
      assert "0123456789"[3] == '3' && "0123456789"[4] == '4' && "0123456789"[5] == '5';
      assert "0123456789"[6] == '6' && "0123456789"[7] == '7' && "0123456789"[8] == '8';
      assert "0123456789"[9] == '9';
    }
    var r := NatToString(n);
    if n >= 10 {
      DigitsValueOf(n / 10);
      assert r[..|r| - 1] == NatToString(n / 10);
    }
  }

  /** Reading back the decimal spelling of an integer gives the integer. */
  lemma ParseIntToString(i: int)
    ensures IntegerText(IntToString(i))
    ensures ParseInt(IntToString(i)) == i
  {
    if i < 0 {
      ParseNegative(-i);
    } else {
      ParseNatural(i);
    }
  }

  lemma ParseNatural(n: nat)
    ensures IsDigits(NatToString(n))
    ensures ParseInt(NatToString(n)) == n
  {
    DigitsValueOf(n);
  }

  lemma ParseNegative(n: nat)
    requires n > 0
    ensures IntegerText("-" + NatToString(n))
    ensures ParseInt("-" + NatToString(n)) == 0 - n
  {
    var digits := NatToString(n);
    var r := "-" + digits;
    assert r[0] == '-' && r[1..] == digits;
    assert IsDigits(digits);
    assert !IsDigits(r);
    DigitsValueOf(n);
  }

  /** PHP's string conversion of a scalar (what `sprintf('%s')` and
      `htmlspecialchars` receive). Arrays and closures make PHP raise an
      error there; they are spelled "" here. */
  function ToText(v: Value): string {
    match v
    case Null => ""
    case Bool(b) => if b then "1" else ""
    case Int(i) => IntToString(i)
    case Str(s) => s
    case _ => ""
  }

  /** The framework's string inflection (Str::title, plural, singular,
      headline). These are library code outside the model; every operation
      that needs one receives it through this record. */
  datatype Inflector = Inflector(
    title: string -> string,
    plural: string -> string,
    singular: string -> string,
    headline: string -> string)
  /** The array key a value stands for when it indexes a PHP array: strings
      as they are, integers in decimal, booleans as 1 and 0, null as the
      empty string. Arrays and closures are not keys (PHP raises an error). */
  function KeyOf(v: Value): Option<string> {
    match v
    case Null => Some("")
    case Bool(b) => Some(if b then "1" else "0")
    case Int(i) => Some(IntToString(i))
    case Str(s) => Some(s)
    case _ => None
  }
}
