/** JavaScript numbers and the operations the node applies to them: arithmetic,
    relational comparison, `Math.ceil`, and the string-to-number conversion behind `Number(s)`.
    Finite numbers are exact reals: double rounding, overflow to Infinity and the sign
    of zero are not modelled. */
module JsNumbers {
  import opened Wrappers
  import opened JsStrings

  datatype Num = NaN | Fin(r: real) | PosInf | NegInf

  /** `a < b` (the abstract relational comparison; anything compared with NaN is false). */
  predicate Less(a: Num, b: Num) {
    match (a, b)
    case (Fin(x), Fin(y)) => x < y
    case (NegInf, Fin(_)) => true
    case (NegInf, PosInf) => true
    case (Fin(_), PosInf) => true
    case _ => false
  }

  /** `a >= b`: false whenever either side is NaN. */
  predicate GreaterEq(a: Num, b: Num) {
    a != NaN && b != NaN && !Less(a, b)
  }

  /** `>=` against a fixed bound is monotone in the left operand. */
  lemma {:induction false} GreaterEqMonotone(x: real, y: real, b: Num)
    requires x <= y && GreaterEq(Fin(x), b)
    ensures GreaterEq(Fin(y), b)
  {
    match b
    case Fin(z) =>
    case NegInf =>
    case _ => assert false;
  }

  function Neg(a: Num): Num {
    match a
    case NaN => NaN
    case Fin(x) => Fin(-x)
    case PosInf => NegInf
    case NegInf => PosInf
  }

  /** `a + b`. */
  function Add(a: Num, b: Num): (c: Num)
    ensures a.Fin? && b.Fin? ==> c == Fin(a.r + b.r)
    ensures (a == NaN || b == NaN) ==> c == NaN
  {
    match (a, b)
    case (Fin(x), Fin(y)) => Fin(x + y)
    case (PosInf, NegInf) => NaN
    case (NegInf, PosInf) => NaN
    case (NaN, _) => NaN
    case (_, NaN) => NaN
    case (PosInf, _) => PosInf
    case (NegInf, _) => NegInf
    case (_, _) => b
  }

  /** `a - b`. */
  function Sub(a: Num, b: Num): Num {
    Add(a, Neg(b))
  }

  /** The infinity whose sign is that of a product or quotient of the given signs. */
  function SignedInf(positive: bool): Num {
    if positive then PosInf else NegInf
  }

  /** `a * b`. */
  function Mul(a: Num, b: Num): (c: Num)
    ensures a.Fin? && b.Fin? ==> c == Fin(a.r * b.r)
    ensures (a == NaN || b == NaN) ==> c == NaN
  {
    if a == NaN || b == NaN then NaN
    else if a.Fin? && b.Fin? then Fin(a.r * b.r)
    else if a.Fin? then (if a.r == 0.0 then NaN else SignedInf((a.r > 0.0) == (b == PosInf)))
    else if b.Fin? then (if b.r == 0.0 then NaN else SignedInf((b.r > 0.0) == (a == PosInf)))
    else SignedInf(a == b)
  }

  /** `a / b`, with IEEE division by zero (a zero divisor counts as +0). */
  function Div(a: Num, b: Num): (c: Num)
    ensures a.Fin? && b.Fin? && b.r != 0.0 ==> c == Fin(a.r / b.r)
    ensures (a == NaN || b == NaN) ==> c == NaN
  {
    match (a, b)
    case (NaN, _) => NaN
    case (_, NaN) => NaN
    case (Fin(x), Fin(y)) =>
      if y != 0.0 then Fin(x / y)
      else if x == 0.0 then NaN
      else SignedInf(x > 0.0)
    case (Fin(_), _) => Fin(0.0)
    case (_, Fin(y)) => SignedInf((y >= 0.0) == (a == PosInf))
    case (_, _) => NaN
  }

  /** The least integer not below `x`. */
  function CeilReal(x: real): (n: int)
    ensures x <= n as real < x + 1.0
  {
    -((-x).Floor)
  }

  /** `Math.ceil(a)`. */
  function Ceil(a: Num): Num {
    if a.Fin? then Fin(CeilReal(a.r) as real) else a
  }

  // ---------------------------------------------------------------------------
  // Digits and numerals

  function DigitOf(c: char): nat {
    if '0' <= c <= '9' then (c - '0') as nat
    else if 'a' <= c <= 'z' then (c - 'a') as nat + 10
    else if 'A' <= c <= 'Z' then (c - 'A') as nat + 10
    else 36
  }

  predicate IsDigitIn(c: char, base: nat) {
    DigitOf(c) < base
  }

  predicate AllDigits(s: string, base: nat) {
    forall i :: 0 <= i < |s| ==> IsDigitIn(s[i], base)
  }

  /** The value of a digit string in the given base, most significant digit first. */
  function DigitsValue(s: string, base: nat): nat {
    if |s| == 0 then 0
    else DigitsValue(s[..|s| - 1], base) * base + DigitOf(s[|s| - 1])
  }

  function Pow(b: nat, e: nat): (p: nat)
    ensures b > 0 ==> p > 0
  {
    if e == 0 then 1 else b * Pow(b, e - 1)
  }

  /** `10^e` for an integer exponent. */
  function Pow10(e: int): (p: real)
    ensures p > 0.0
  {
    if e >= 0 then Pow(10, e) as real else 1.0 / Pow(10, -e) as real
  }

  function DigitChar(d: nat): (c: char)
    requires d < 10
    ensures IsDigitIn(c, 10) && DigitOf(c) == d
  {
    '0' + d as char
  }

  /** The decimal numeral of a natural number, as `String(n)` writes it. */
  function Numeral(n: nat): (s: string)
    ensures |s| >= 1 && AllDigits(s, 10)
  {
    if n < 10 then [DigitChar(n)] else Numeral(n / 10) + [DigitChar(n % 10)]
  }

  /** Reading a numeral back gives the number it was written from. */
  lemma {:induction false} NumeralValue(n: nat)
    ensures DigitsValue(Numeral(n), 10) == n
  {
    var s := Numeral(n);
    if n < 10 {
      assert s[..0] == [];
    } else {
      NumeralValue(n / 10);
      assert s[..|s| - 1] == Numeral(n / 10);
    }
  }

  // ---------------------------------------------------------------------------
  // StringToNumber

  /** `Number(s)` for a string: surrounding white space is ignored, the empty string is 0,
      `Infinity` may carry a sign, `0x`/`0o`/`0b` prefixes select a base, and otherwise the
      text must be a signed decimal literal with an optional fraction and exponent. */
  function StringToNumber(s: string): Num {
    var t := Trim(s);
    if t == "" then Fin(0.0)
    else if t == "Infinity" || t == "+Infinity" then PosInf
    else if t == "-Infinity" then NegInf
    else if |t| > 2 && t[0] == '0' && (t[1] == 'x' || t[1] == 'X') then NonDecimal(t[2..], 16)
    else if |t| > 2 && t[0] == '0' && (t[1] == 'o' || t[1] == 'O') then NonDecimal(t[2..], 8)
    else if |t| > 2 && t[0] == '0' && (t[1] == 'b' || t[1] == 'B') then NonDecimal(t[2..], 2)
    else SignedDecimal(t)
  }

  function NonDecimal(ds: string, base: nat): Num {
    if AllDigits(ds, base) then Fin(DigitsValue(ds, base) as real) else NaN
  }

  function SignedDecimal(t: string): Num
    requires |t| > 0
  {
    var negative := t[0] == '-';
    var u := if t[0] == '-' || t[0] == '+' then t[1..] else t;
    match UnsignedDecimal(u)
    case Some(x) => Fin(if negative then -x else x)
    case None => NaN
  }

  /** The first position of an exponent marker `e` or `E`, or `|s|`. */
  function ExponentIndex(s: string): (i: nat)
    ensures i <= |s|
    ensures i < |s| ==> s[i] == 'e' || s[i] == 'E'
    ensures forall j :: 0 <= j < i ==> s[j] != 'e' && s[j] != 'E'
  {
    if |s| == 0 then 0
    else if s[0] == 'e' || s[0] == 'E' then 0
    else 1 + ExponentIndex(s[1..])
  }

  function UnsignedDecimal(u: string): Option<real> {
    var ei := ExponentIndex(u);
    var mantissa := Mantissa(u[..ei]);
    var exponent := if ei == |u| then Some(0) else Exponent(u[ei + 1..]);
    if mantissa.Some? && exponent.Some? then Some(mantissa.value * Pow10(exponent.value)) else None
  }

  /** Digits, an optional point and more digits; at least one digit in all. */
  function Mantissa(m: string): Option<real> {
    var di := IndexOf(m, '.');
    var whole := m[..di];
    var fraction := if di < |m| then m[di + 1..] else "";
    if AllDigits(whole, 10) && AllDigits(fraction, 10) && |whole| + |fraction| > 0
    then Some(DigitsValue(whole, 10) as real + DigitsValue(fraction, 10) as real / Pow10(|fraction|))
    else None
  }

  /** A signed, non-empty run of decimal digits. */
  function Exponent(e: string): Option<int> {
    var negative := |e| > 0 && e[0] == '-';
    var ds := if |e| > 0 && (e[0] == '-' || e[0] == '+') then e[1..] else e;
    if |ds| > 0 && AllDigits(ds, 10) then
      Some(if negative then -(DigitsValue(ds, 10) as int) else DigitsValue(ds, 10) as int)
    else None
  }

  /** A numeral has no sign, no point, no exponent marker and no surrounding space. */
  lemma {:induction false} DigitsArePlain(s: string)
    requires |s| >= 1 && AllDigits(s, 10)
    ensures Trim(s) == s
    ensures ExponentIndex(s) == |s| && IndexOf(s, '.') == |s|
    ensures s[0] != '-' && s[0] != '+' && s[0] != 'I'
    ensures |s| > 1 ==> s[1] != 'x' && s[1] != 'X' && s[1] != 'o' && s[1] != 'O' && s[1] != 'b' && s[1] != 'B'
  {
    assert IsDigitIn(s[0], 10) && IsDigitIn(s[|s| - 1], 10);
    TrimUnpadded(s);
    if |s| > 1 {
      assert IsDigitIn(s[1], 10);
    }
    forall j | 0 <= j < |s| ensures s[j] != 'e' && s[j] != 'E' && s[j] != '.' {
      assert IsDigitIn(s[j], 10);
    }
  }

  /** A plain run of decimal digits reads as its digit value. */
  lemma {:induction false} DigitsDecimal(s: string)
    requires |s| >= 1 && AllDigits(s, 10)
    ensures StringToNumber(s) == Fin(DigitsValue(s, 10) as real)
  {
    DigitsArePlain(s);
    UnsignedDigits(s);
    assert StringToNumber(s) == SignedDecimal(s) by {
      assert s != "Infinity" && s != "+Infinity" && s != "-Infinity" by {
        assert s[0] != "Infinity"[0] && s[0] != "+Infinity"[0] && s[0] != "-Infinity"[0];
      }
    }
  }

  /** Without a point or an exponent, a decimal literal is read digit by digit. */
  lemma {:induction false} UnsignedDigits(s: string)
    requires |s| >= 1 && AllDigits(s, 10)
    requires ExponentIndex(s) == |s| && IndexOf(s, '.') == |s|
    ensures UnsignedDecimal(s) == Some(DigitsValue(s, 10) as real)
  {
    assert s[..|s|] == s;
    assert DigitsValue("", 10) == 0;
  }

  /** `Number(String(n))` gives back `n` for every natural number. */
  lemma {:induction false} NumeralToNumber(n: nat)
    ensures StringToNumber(Numeral(n)) == Fin(n as real)
  {
    DigitsDecimal(Numeral(n));
    NumeralValue(n);
  }
}
