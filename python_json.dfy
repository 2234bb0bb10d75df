// The Python values the option dictionaries hold, the text json.dumps gives
// them with its default settings (", " and ": " separators, ASCII output),
// and Python's == on them.
module PyJson {

  /**
   * A Python value from a to_dict result. A float is held as its shortest
   * decimal form digits / 10^scale, the digits Python's repr prints (see
   * ShortestFloat), so two floats are equal exactly when their decimals have
   * the same value.
   */
  datatype Value =
    | Null
    | Bool(b: bool)
    | Int(i: int)
    | Float(digits: int, scale: nat)
    | Str(s: string)
    | List(items: seq<Value>)
    | Dict(entries: seq<(string, Value)>)

  function Pow10(n: nat): (r: nat)
    ensures r >= 1
  {
    if n == 0 then 1 else 10 * Pow10(n - 1)
  }

  function Digit(d: nat): (c: char)
    requires d < 10
    ensures '0' <= c <= '9' && c as int - '0' as int == d
  {
    ('0' as int + d) as char
  }

  /** Decimal digits of n, no leading zero. */
  function NatText(n: nat): (r: string)
    ensures |r| >= 1
    ensures forall i :: 0 <= i < |r| ==> '0' <= r[i] <= '9'
    ensures |r| > 1 ==> r[0] != '0'
  {
    if n < 10 then [Digit(n)] else NatText(n / 10) + [Digit(n % 10)]
  }

  /** The number a string of decimal digits denotes. */
  function ParseNat(s: string): nat
    requires forall i :: 0 <= i < |s| ==> '0' <= s[i] <= '9'
  {
    if s == [] then 0 else 10 * ParseNat(s[..|s| - 1]) + (s[|s| - 1] as int - '0' as int)
  }

  /** Reading the digits back gives the number: NatText loses nothing. */
  lemma {:induction false} NatTextRoundTrip(n: nat)
    ensures ParseNat(NatText(n)) == n
  {
    if n >= 10 {
      var t := NatText(n);
      assert t[..|t| - 1] == NatText(n / 10);
      NatTextRoundTrip(n / 10);
    }
  }

  /** Python str(int): a minus sign for negative numbers, then the digits. */
  function IntText(i: int): (r: string)
    ensures |r| >= 1
    ensures r[0] == '-' <==> i < 0
    ensures i >= 0 ==> r == NatText(i)
    ensures i < 0 ==> r == "-" + NatText(-i)
  {
    if i < 0 then "-" + NatText(-i) else NatText(i)
  }

  /** s with zeros in front up to width characters. */
  function PadZeros(s: string, width: nat): (r: string)
    ensures |r| == if |s| < width then width else |s|
    decreases width - |s|
  {
    if |s| >= width then s else PadZeros("0" + s, width)
  }

  /** A magnitude digits / 10^scale in fixed notation: whole part, point, fraction ("0" when scale is 0). */
  function FixedText(magnitude: nat, scale: nat): (r: string)
    ensures |r| >= 3 && '0' <= r[0] <= '9'
  {
    var unit := Pow10(scale);
    DivNat(magnitude, unit);
    var whole := NatText(magnitude / unit);
    var fraction := FractionText(magnitude % unit, scale);
    assert (whole + "." + fraction)[0] == whole[0];
    whole + "." + fraction
  }

  /** With a positive divisor the quotient of a natural number is one. */
  lemma DivNat(a: nat, b: nat)
    requires b > 0
    ensures a / b >= 0
  {
  }

  /** The digits after the point: "0" when scale is 0, else the fraction padded to scale digits. */
  function FractionText(fraction: nat, scale: nat): (r: string)
    ensures |r| >= 1
    ensures scale > 0 ==> |r| >= scale
  {
    if scale == 0 then "0" else PadZeros(NatText(fraction), scale)
  }

  /** Python repr of the float digits / 10^scale in fixed notation. */
  function FloatText(digits: int, scale: nat): (r: string)
    ensures |r| >= 3
    ensures r[0] == '-' <==> digits < 0
  {
    if digits < 0 then "-" + FixedText(-digits, scale) else FixedText(digits, scale)
  }

  /**
   * The pairs Float(digits, scale) that are repr's shortest form: a whole
   * number with scale 0, or a fraction whose last digit is not 0. The other
   * pairs, such as Float(50, 2), print trailing zeros repr never writes.
   */
  predicate ShortestFloat(digits: int, scale: nat)
  {
    scale == 0 || digits % 10 != 0
  }

  /** A fraction in shortest form prints without a trailing zero, as repr does. */
  lemma ShortestFloatText(digits: int, scale: nat)
    requires ShortestFloat(digits, scale) && scale > 0
    ensures FloatText(digits, scale)[|FloatText(digits, scale)| - 1] != '0'
  {
    var magnitude: nat := if digits < 0 then -digits else digits;
    NegMod(digits);
    var unit := Pow10(scale);
    var fraction := magnitude % unit;
    TenDivides(scale);
    FractionLastDigit(magnitude, unit);
    NatTextLast(fraction);
    PadZerosLast(NatText(fraction), scale);
    var f := FractionText(fraction, scale);
    var r := FixedText(magnitude, scale);
    assert r == NatText(magnitude / unit) + "." + f;
    assert r[|r| - 1] == f[|f| - 1];
  }

  lemma NegMod(d: int)
    ensures d % 10 != 0 ==> (if d < 0 then -d else d) % 10 != 0
  {
    if d < 0 && d % 10 != 0 {
      var q := d / 10;
      assert d == 10 * q + d % 10;
      assert -d == 10 * (-q - 1) + (10 - d % 10);
    }
  }

  lemma FractionLastDigit(m: nat, unit: nat)
    requires unit > 0 && unit % 10 == 0
    ensures (m % unit) % 10 == m % 10
  {
    var q := m / unit;
    var k := unit / 10;
    assert unit == 10 * k;
    assert m == unit * q + m % unit;
    assert unit * q == 10 * (k * q);
    assert m == 10 * (k * q) + m % unit;
  }

  lemma TenDivides(n: nat)
    requires n > 0
    ensures Pow10(n) % 10 == 0
  {
  }

  lemma NatTextLast(n: nat)
    ensures NatText(n)[|NatText(n)| - 1] == Digit(n % 10)
  {
  }

  lemma {:induction false} PadZerosLast(s: string, width: nat)
    requires |s| >= 1
    ensures PadZeros(s, width)[|PadZeros(s, width)| - 1] == s[|s| - 1]
    decreases width - |s|
  {
    if |s| < width {
      PadZerosLast("0" + s, width);
    }
  }

  /** For a whole number the text is the integer's followed by ".0". */
  lemma FloatTextWhole(digits: int)
    ensures FloatText(digits, 0) == IntText(digits) + ".0"
  {
    var magnitude: nat := if digits < 0 then -digits else digits;
    assert magnitude / Pow10(0) == magnitude;
  }

  function HexDigit(d: nat): (c: char)
    requires d < 16
  {
    if d < 10 then Digit(d) else ('a' as int + d - 10) as char
  }

  /** Four lower-case hexadecimal digits, as in json's "\\u%04x". */
  function Hex4(n: nat): (r: string)
    requires n < 0x1_0000
    ensures |r| == 4
  {
    [HexDigit(n / 0x1000), HexDigit(n / 0x100 % 16), HexDigit(n / 0x10 % 16), HexDigit(n % 16)]
  }

  /** A printable ASCII character json.dumps writes as it is. */
  predicate Plain(c: char)
  {
    ' ' <= c <= '~' && c != '"' && c != '\\'
  }

  /**
   * How json.dumps (ensure_ascii) writes one character of a string: the
   * two-character escapes, printable ASCII as it is, anything else as
   * \\u escapes, a surrogate pair beyond the basic plane.
   */
  function EscapeChar(c: char): (r: string)
    ensures |r| >= 1
    ensures Plain(c) <==> r == [c]
  {
    if c == '"' then "\\\""
    else if c == '\\' then "\\\\"
    else if c == '\n' then "\\n"
    else if c == '\r' then "\\r"
    else if c == '\t' then "\\t"
    else if c as int == 8 then "\\b"
    else if c as int == 12 then "\\f"
    else if ' ' <= c <= '~' then [c]
    else if c as int < 0x1_0000 then "\\u" + Hex4(c as int)
    else
      var n := c as int - 0x1_0000;
      "\\u" + Hex4(0xd800 + n / 0x400) + "\\u" + Hex4(0xdc00 + n % 0x400)
  }

  function Escape(s: string): string
  {
    if s == [] then "" else EscapeChar(s[0]) + Escape(s[1..])
  }

  /** A string of plain characters is written unchanged. */
  lemma {:induction false} EscapePlain(s: string)
    requires forall i :: 0 <= i < |s| ==> Plain(s[i])
    ensures Escape(s) == s
  {
    if s != [] {
      EscapePlain(s[1..]);
    }
  }

  /**
   * json.dumps(v): only a string is written with a double quote first,
   * and a string is written between double quotes.
   */
  function Dumps(v: Value): (r: string)
    ensures |r| >= 1
    ensures r[0] == '"' <==> v.Str?
    ensures v.Str? ==> r == "\"" + Escape(v.s) + "\""
    decreases v, 1
  {
    match v
    case Null => "null"
    case Bool(b) => if b then "true" else "false"
    case Int(i) => IntText(i)
    case Float(digits, scale) => FloatText(digits, scale)
    case Str(s) => "\"" + Escape(s) + "\""
    case List(items) => "[" + DumpsItems(items) + "]"
    case Dict(entries) => "{" + DumpsEntries(v, 0) + "}"
  }

  /** The items of a list, ", " between them. */
  function DumpsItems(items: seq<Value>): string
    decreases items
  {
    if items == [] then ""
    else if |items| == 1 then Dumps(items[0])
    else Dumps(items[0]) + ", " + DumpsItems(items[1..])
  }

  /** The entries of a dict from the i-th on, each as key ": " value. */
  function DumpsEntries(d: Value, i: nat): string
    requires d.Dict? && i <= |d.entries|
    decreases d, 0, |d.entries| - i
  {
    if i == |d.entries| then ""
    else
      var e := d.entries[i];
      assert e in d.entries;
      var text := "\"" + Escape(e.0) + "\": " + Dumps(e.1);
      if i + 1 == |d.entries| then text else text + ", " + DumpsEntries(d, i + 1)
  }

  /** bool, int and float compare as numbers in Python. */
  predicate Numeric(v: Value)
  {
    v.Bool? || v.Int? || v.Float?
  }

  function NumValue(v: Value): real
    requires Numeric(v)
  {
    match v
    case Bool(b) => if b then 1.0 else 0.0
    case Int(i) => i as real
    case Float(digits, scale) => digits as real / Pow10(scale) as real
  }

  /**
   * Python's a == b: numbers by value across bool, int and float, strings
   * and None by identity of content, lists item by item; values of
   * different kinds are unequal.
   */
  predicate PyEq(a: Value, b: Value)
    decreases a
  {
    if Numeric(a) && Numeric(b) then NumValue(a) == NumValue(b)
    else
      match a
      case Null => b.Null?
      case Str(s) => b.Str? && b.s == s
      case List(items) =>
        b.List? && |b.items| == |items| && forall i :: 0 <= i < |items| ==> PyEq(items[i], b.items[i])
      case Dict(_) => a == b
      case _ => false
  }

  /** == holds between a value and itself. */
  lemma {:induction false} PyEqReflexive(a: Value)
    ensures PyEq(a, a)
    decreases a
  {
    if a.List? {
      forall i | 0 <= i < |a.items|
        ensures PyEq(a.items[i], a.items[i])
      {
        PyEqReflexive(a.items[i]);
      }
    }
  }

  /** == is symmetric. */
  lemma {:induction false} PyEqSymmetric(a: Value, b: Value)
    requires PyEq(a, b)
    ensures PyEq(b, a)
    decreases a
  {
    if a.List? && !Numeric(b) {
      forall i | 0 <= i < |a.items|
        ensures PyEq(b.items[i], a.items[i])
      {
        PyEqSymmetric(a.items[i], b.items[i]);
      }
    }
  }

  /** Python's == agrees with equality of the model's values for everything but numbers of different kinds. */
  lemma {:induction false} PyEqSameKind(a: Value, b: Value)
    requires !(Numeric(a) && Numeric(b))
    ensures a == b ==> PyEq(a, b)
    ensures PyEq(a, b) && !a.List? ==> a == b
  {
    if a == b {
      PyEqReflexive(a);
    }
  }
}
