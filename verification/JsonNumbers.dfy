/** JSON numbers: section 6 of RFC 8259, and what the Java number classes print. */
module JsonNumbers {
  import opened Numerals
  import opened Results

  type Int64 = n: int | -0x8000_0000_0000_0000 <= n < 0x8000_0000_0000_0000

  /** What a Java `Number` is, apart from its class: an integer of at most 64 bits, any other finite number by the text
      that `toString` gives for it, or one of the three values of `Float` and `Double` that are not finite. */
  datatype Number = Long(n: Int64) | Decimal(text: string) | NaN | NegativeInfinity | PositiveInfinity {
    predicate IsFinite() {
      Long? || Decimal?
    }
  }

  // ----- the grammar

  /** The length of the longest prefix made of decimal digits. */
  function DigitRun(t: string): (n: nat)
    ensures n <= |t|
    ensures forall i :: 0 <= i < n ==> '0' <= t[i] <= '9'
    ensures n < |t| ==> !('0' <= t[n] <= '9')
  {
    if t != "" && '0' <= t[0] <= '9' then 1 + DigitRun(t[1..]) else 0
  }

  function Unsigned(text: string): string {
    if text != "" && (text[0] == '-' || text[0] == '+') then text[1..] else text
  }

  /** Section 6: an optional minus, an integer part without needless leading zeros, a fraction and an exponent if any. */
  predicate IsNumber(text: string) {
    IsUnsignedNumber(Magnitude(text))
  }

  function Magnitude(text: string): string {
    if text != "" && text[0] == '-' then text[1..] else text
  }

  predicate IsUnsignedNumber(u: string) {
    var whole := DigitRun(u);
    && 0 < whole && (whole == 1 || u[0] != '0')
    && (u[whole..] == "" || IsExponent(u[whole..]) || (u[whole] == '.' && IsFraction(u[whole + 1..])))
  }

  predicate IsFraction(f: string) {
    var places := DigitRun(f);
    0 < places && (f[places..] == "" || IsExponent(f[places..]))
  }

  predicate IsExponent(e: string) {
    e != "" && (e[0] == 'e' || e[0] == 'E') && 0 < |Unsigned(e[1..])| == DigitRun(Unsigned(e[1..]))
  }

  // ----- numbers and their texts

  /** `Long.valueOf(text, radix)`, if it does not throw. */
  function LongOf(text: string, radix: nat): Option<Int64> {
    var digits := Unsigned(text);
    if digits == "" || !AllDigits(digits, radix) then None
    else
      var magnitude: int := Value(digits, radix);
      var n := if text[0] == '-' then -magnitude else magnitude;
      if -0x8000_0000_0000_0000 <= n < 0x8000_0000_0000_0000 then Some(n) else None
  }

  /** The number that a text of section 6 denotes. */
  function NumberOf(text: string): Option<Number> {
    if !IsNumber(text) then None
    else if LongOf(text, 10).Some? then Some(Long(LongOf(text, 10).value))
    else Some(Decimal(text))
  }

  /** A number as the number classes give it: integers of 64 bits are not kept as text, and every text is of section 6. */
  predicate Proper(n: Number) {
    n.Decimal? ==> NumberOf(n.text) == Some(n)
  }

  /** `toString` of a finite number. */
  function NumeralText(n: Number): string
    requires n.IsFinite()
  {
    match n
    case Long(n) => LongText(n)
    case Decimal(text) => text
  }

  function LongText(n: int): string {
    if n < 0 then "-" + Numeral(-n, 10) else Numeral(n, 10)
  }

  lemma DigitsOnly(digits: string)
    requires AllDigits(digits, 10)
    ensures forall i :: 0 <= i < |digits| ==> '0' <= digits[i] <= '9'
    ensures DigitRun(digits) == |digits|
  {
    assert forall i :: 0 <= i < |digits| ==> IsDigit(digits[i], 10);
  }

  lemma DigitsAreNumber(digits: string)
    requires digits != "" && AllDigits(digits, 10) && (digits[0] == '0' ==> |digits| == 1)
    ensures IsUnsignedNumber(digits)
  {
    DigitsOnly(digits);
  }

  lemma Signed(sign: string, u: string)
    requires sign == "" || sign == "-"
    requires u != "" && '0' <= u[0] <= '9'
    ensures Magnitude(sign + u) == u && Unsigned(sign + u) == u
  {
    var text := sign + u;
    if sign == "" {
      assert text == u && text[0] != '-' && text[0] != '+';
    } else {
      assert text[0] == '-' && text[1..] == u;
    }
  }

  lemma SignedValue(sign: string, digits: string, n: Int64)
    requires sign == if n < 0 then "-" else ""
    requires digits != "" && AllDigits(digits, 10) && Value(digits, 10) == if n < 0 then -(n as int) else n
    ensures LongOf(sign + digits, 10) == Some(n)
  {
    DigitsOnly(digits);
    hide Value, AllDigits;
    Signed(sign, digits);
    assert (sign + digits)[0] == if n < 0 then '-' else digits[0];
  }

  /** A 64-bit integer is written as the text of section 6 that denotes it. */
  lemma LongDenotes(n: Int64)
    ensures NumberOf(LongText(n)) == Some(Long(n))
    ensures LongOf(LongText(n), 10) == Some(n)
  {
    var magnitude: nat := if n < 0 then -(n as int) else n;
    var digits := Numeral(magnitude, 10);
    var sign := if n < 0 then "-" else "";
    NumeralDenotes(magnitude, 10);
    NumeralHead(magnitude, 10);
    DigitsOnly(digits);
    DigitsAreNumber(digits);
    hide Numeral, IsUnsignedNumber, AllDigits, LongOf, Value, Magnitude, Unsigned, DigitRun;
    Signed(sign, digits);
    SignedValue(sign, digits, n);
    assert LongText(n) == sign + digits;
  }

  /** Every finite number is written as a text of section 6, and as the one that denotes it. */
  lemma TextDenotes(n: Number)
    requires n.IsFinite() && Proper(n)
    ensures NumberOf(NumeralText(n)) == Some(n)
  {
    if n.Long? {
      LongDenotes(n.n);
    }
  }
}
