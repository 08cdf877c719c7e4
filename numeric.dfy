/**
 * Machine integers and the number texts the toy-lang lexer hands to Rust's
 * standard parsers: `str::parse::<i64>` and `str::parse::<f64>`.
 *
 * Floating-point values are never computed; an `F64` is a symbolic record of
 * where the value came from (the text it was parsed from, an integer converted
 * with `as f64`, or the sum of two such values).
 */
module Numeric {

  const I64_MIN: int := -0x8000_0000_0000_0000
  const I64_MAX: int := 0x7FFF_FFFF_FFFF_FFFF
  const U64_MAX: int := 0xFFFF_FFFF_FFFF_FFFF

  type i64 = x: int | -0x8000_0000_0000_0000 <= x <= 0x7FFF_FFFF_FFFF_FFFF
  type u64 = x: int | 0 <= x <= 0xFFFF_FFFF_FFFF_FFFF

  datatype Option<T> = None | Some(value: T)

  datatype Result<T, E> = Ok(value: T) | Err(error: E)

  /** A symbolic IEEE-754 double: only its provenance is kept. */
  datatype F64 =
    | Parsed(text: string)          // `text.parse::<f64>()`
    | FromInt(n: int)               // `n as f64`
    | Sum(left: F64, right: F64)    // `left + right` in f64 arithmetic

  predicate InI64(x: int) { I64_MIN <= x <= I64_MAX }

  predicate InU64(x: int) { 0 <= x <= U64_MAX }

  // ---------------------------------------------------------------------
  // Decimal digits

  predicate IsDigit(c: char) { '0' <= c <= '9' }

  predicate AllDigits(s: string) { forall i :: 0 <= i < |s| ==> IsDigit(s[i]) }

  function DigitValue(c: char): (d: nat)
    requires IsDigit(c)
    ensures d < 10
  {
    (c as int) - ('0' as int)
  }

  function DigitChar(d: nat): (c: char)
    requires d < 10
    ensures IsDigit(c) && DigitValue(c) == d
  {
    (('0' as int) + d) as char
  }

  /** The value of a run of decimal digits, most significant first. */
  function DecimalValue(s: string): nat
    requires AllDigits(s)
  {
    if s == [] then 0 else DecimalValue(s[..|s| - 1]) * 10 + DigitValue(s[|s| - 1])
  }

  /** The shortest decimal text of `n` (no sign, no leading zero). */
  function FormatNat(n: nat): (s: string)
    ensures |s| > 0 && AllDigits(s)
    ensures |s| > 1 ==> s[0] != '0'
  {
    if n < 10 then [DigitChar(n)] else FormatNat(n / 10) + [DigitChar(n % 10)]
  }

  lemma {:induction false} FormatNatValue(n: nat)
    ensures DecimalValue(FormatNat(n)) == n
  {
    if n >= 10 {
      var s := FormatNat(n);
      assert s[..|s| - 1] == FormatNat(n / 10);
      FormatNatValue(n / 10);
    }
  }

  // ---------------------------------------------------------------------
  // `str::parse::<i64>`: an optional `+` or `-`, then one or more ASCII
  // digits, whose value must lie in the i64 range.

  /** The value of a non-empty run of digits, or `None` when `s` is empty or has a non-digit. */
  function DigitsValue(s: string): (r: Option<nat>)
    ensures r.Some? ==> |s| > 0
  {
    if |s| == 0 || !IsDigit(s[|s| - 1]) then None
    else if |s| == 1 then Some(DigitValue(s[0]))
    else match DigitsValue(s[..|s| - 1])
      case None => None
      case Some(v) => Some(v * 10 + DigitValue(s[|s| - 1]))
  }

  lemma {:induction false} DigitsValueIsDecimal(s: string)
    ensures DigitsValue(s).Some? <==> |s| > 0 && AllDigits(s)
    ensures DigitsValue(s).Some? ==> DigitsValue(s).value == DecimalValue(s)
  {
    if |s| > 1 {
      DigitsValueIsDecimal(s[..|s| - 1]);
      if AllDigits(s) {
        assert AllDigits(s[..|s| - 1]);
      }
    } else if |s| == 1 {
      assert s[..0] == [];
    }
  }

  /**
   * `str::parse::<i64>`. An accepted text starts with a digit, or with a sign
   * followed by a digit.
   */
  function ParseI64(s: string): (r: Option<i64>)
    ensures r.Some? ==> |s| > 0
    ensures r.Some? ==> IsDigit(s[0]) || ((s[0] == '-' || s[0] == '+') && |s| >= 2 && IsDigit(s[1]))
  {
    if |s| == 0 then None
    else
      var negative := s[0] == '-';
      var digits := if s[0] == '-' || s[0] == '+' then s[1..] else s;
      DigitsValueIsDecimal(digits);
      match DigitsValue(digits)
      case None => None
      case Some(m) =>
        var v: int := if negative then 0 - m else m;
        if InI64(v) then Some(v) else None
  }

  /** `i64::to_string`: the canonical decimal text of an i64. */
  function FormatI64(n: i64): (s: string)
    ensures |s| > 0
  {
    if n < 0 then "-" + FormatNat(-(n as int)) else FormatNat(n)
  }

  /** Every i64 is recognised from its own decimal text. */
  lemma ParseFormatI64(n: i64)
    ensures ParseI64(FormatI64(n)) == Some(n)
  {
    var s := FormatI64(n);
    if n < 0 {
      assert s[1..] == FormatNat(-(n as int));
      FormatNatValue(-(n as int));
      DigitsValueIsDecimal(s[1..]);
    } else {
      FormatNatValue(n);
      DigitsValueIsDecimal(s);
    }
  }

  /** A run of digits too large for i64 is rejected rather than wrapped. */
  lemma ParseI64Rejects(s: string)
    requires |s| > 0 && AllDigits(s) && DecimalValue(s) > I64_MAX
    ensures ParseI64(s) == None
  {
    DigitsValueIsDecimal(s);
  }

  // ---------------------------------------------------------------------
  // `str::parse::<f64>`, following the grammar Rust documents for it:
  //   Float    ::= Sign? ( 'inf' | 'infinity' | 'nan' | Number )
  //   Number   ::= ( Digit+ | Digit+ '.' Digit* | Digit* '.' Digit+ ) Exp?
  //   Exp      ::= 'e' Sign? Digit+
  // with `inf`, `infinity`, `nan` and `e` matched without regard to case.
  // `Number` is recognised by the automaton below.

  datatype FloatState =
    | Start       // nothing read yet
    | Signed      // a sign
    | Whole       // Sign? Digit+                        (accepting)
    | Point       // Sign? '.'
    | Fraction    // Sign? Digit+ '.' Digit* or Sign? Digit* '.' Digit+   (accepting)
    | Exponent    // ... 'e'
    | ExpSigned   // ... 'e' Sign
    | ExpDigits   // ... 'e' Sign? Digit+                (accepting)

  function FloatNext(state: FloatState, c: char): Option<FloatState>
  {
    var sign := c == '+' || c == '-';
    var e := c == 'e' || c == 'E';
    match state
    case Start => if sign then Some(Signed) else if IsDigit(c) then Some(Whole) else if c == '.' then Some(Point) else None
    case Signed => if IsDigit(c) then Some(Whole) else if c == '.' then Some(Point) else None
    case Whole => if IsDigit(c) then Some(Whole) else if c == '.' then Some(Fraction) else if e then Some(Exponent) else None
    case Point => if IsDigit(c) then Some(Fraction) else None
    case Fraction => if IsDigit(c) then Some(Fraction) else if e then Some(Exponent) else None
    case Exponent => if sign then Some(ExpSigned) else if IsDigit(c) then Some(ExpDigits) else None
    case ExpSigned => if IsDigit(c) then Some(ExpDigits) else None
    case ExpDigits => if IsDigit(c) then Some(ExpDigits) else None
  }

  predicate AcceptsNumber(s: string, state: FloatState)
  {
    if s == [] then state == Whole || state == Fraction || state == ExpDigits
    else
      match FloatNext(state, s[0])
      case None => false
      case Some(next) => AcceptsNumber(s[1..], next)
  }

  function ToLowerAscii(c: char): char
  {
    if 'A' <= c <= 'Z' then ((c as int) + 32) as char else c
  }

  /** `s` equals the lower-case word `lower` up to ASCII case. */
  predicate EqualsIgnoringCase(s: string, lower: string)
  {
    |s| == |lower| && (s == [] || (ToLowerAscii(s[0]) == lower[0] && EqualsIgnoringCase(s[1..], lower[1..])))
  }

  /**
   * `str::parse::<f64>` accepts `s`. An accepted text is not empty and starts
   * with a sign, a digit, a point, or the first letter of `inf` or `nan`.
   */
  predicate IsF64Text(s: string)
    ensures IsF64Text(s) ==> |s| > 0 && (s[0] in "+-." || IsDigit(s[0]) || ToLowerAscii(s[0]) in "in")
  {
    var body := if |s| > 0 && (s[0] == '+' || s[0] == '-') then s[1..] else s;
    EqualsIgnoringCase(body, "inf") || EqualsIgnoringCase(body, "infinity")
      || EqualsIgnoringCase(body, "nan") || AcceptsNumber(s, Start)
  }

  lemma {:induction false} DigitsAccepted(s: string)
    requires AllDigits(s)
    ensures AcceptsNumber(s, Whole)
  {
    if s != [] {
      DigitsAccepted(s[1..]);
    }
  }

  /** Every text `parse::<i64>` accepts, `parse::<f64>` accepts too. */
  lemma I64TextIsF64Text(s: string)
    requires ParseI64(s).Some?
    ensures IsF64Text(s)
  {
    var digits := if s[0] == '+' || s[0] == '-' then s[1..] else s;
    DigitsValueIsDecimal(digits);
    DigitsAccepted(digits[1..]);
    if s[0] == '+' || s[0] == '-' {
      assert s[1..][1..] == digits[1..];
    }
  }
}
