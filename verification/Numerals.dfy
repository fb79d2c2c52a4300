/** Digits and positional numerals, as `Long.toString`, `Integer.toHexString` and `Long.valueOf` use them. */
module Numerals {

  function DigitValue(c: char): (v: int)
    ensures -1 <= v < 16
  {
    if '0' <= c <= '9' then c as int - '0' as int
    else if 'a' <= c <= 'f' then c as int - 'a' as int + 10
    else if 'A' <= c <= 'F' then c as int - 'A' as int + 10
    else -1
  }

  predicate IsDigit(c: char, radix: nat) {
    0 <= DigitValue(c) < radix
  }

  function Digit(n: nat): char
    requires n < 16
  {
    if n < 10 then (n + '0' as int) as char else (n - 10 + 'a' as int) as char
  }

  predicate AllDigits(s: string, radix: nat) {
    forall i :: 0 <= i < |s| ==> IsDigit(s[i], radix)
  }

  function Value(s: string, radix: nat): nat
    requires AllDigits(s, radix)
  {
    if s == "" then 0 else Value(s[..|s| - 1], radix) * radix + DigitValue(s[|s| - 1])
  }

  function Numeral(n: nat, radix: nat): (s: string)
    requires 2 <= radix <= 16
    ensures s != ""
    decreases n
  {
    if n < radix then [Digit(n)] else Numeral(n / radix, radix) + [Digit(n % radix)]
  }

  lemma ValueOfAppended(s: string, c: char, radix: nat)
    requires AllDigits(s, radix) && IsDigit(c, radix)
    ensures AllDigits(s + [c], radix)
    ensures Value(s + [c], radix) == Value(s, radix) * radix + DigitValue(c)
  {
    assert (s + [c])[..|s|] == s;
  }

  /** A numeral is made of digits and denotes the number it was made from. */
  lemma {:induction false} NumeralDenotes(n: nat, radix: nat)
    requires 2 <= radix <= 16
    ensures AllDigits(Numeral(n, radix), radix)
    ensures Value(Numeral(n, radix), radix) == n
    decreases n
  {
    if n < radix {
      DigitDenotes(n);
      ValueOfAppended("", Digit(n), radix);
      assert "" + [Digit(n)] == Numeral(n, radix);
    } else {
      var q, r := n / radix, n % radix;
      DivMod(n, radix);
      DigitDenotes(r);
      NumeralDenotes(q, radix);
      ValueOfAppended(Numeral(q, radix), Digit(r), radix);
    }
  }

  /** A numeral has no needless leading zero. */
  lemma {:induction false} NumeralHead(n: nat, radix: nat)
    requires 2 <= radix <= 16
    ensures Numeral(n, radix)[0] == '0' <==> n == 0
    ensures n == 0 ==> |Numeral(n, radix)| == 1
    decreases n
  {
    if n >= radix {
      DivMod(n, radix);
      NumeralHead(n / radix, radix);
    }
  }

  lemma DigitDenotes(n: nat)
    requires n < 16
    ensures DigitValue(Digit(n)) == n
  {
  }

  lemma DivMod(n: nat, d: nat)
    requires 0 < d
    ensures (n / d) * d + n % d == n && 0 <= n % d < d
    ensures n / d == 0 <==> n < d
    ensures 2 <= d && 0 < n ==> n / d < n
  {
  }

  /** The numeral of `n` is no longer than the least power of the radix above `n` allows. */
  lemma {:induction false} NumeralLength(n: nat, radix: nat, places: nat)
    requires 2 <= radix <= 16
    requires 0 < places && n < Power(radix, places)
    ensures |Numeral(n, radix)| <= places
    decreases places
  {
    hide Power, Numeral;
    PowerStep(radix, places);
    NumeralStep(n, radix);
    if n >= radix {
      assert places > 1;
      QuotientBound(n, radix, Power(radix, places - 1));
      NumeralLength(n / radix, radix, places - 1);
    }
  }

  lemma PowerStep(b: nat, e: nat)
    requires e > 0
    ensures Power(b, e) == b * Power(b, e - 1) && (e == 1 ==> Power(b, e) == b)
  {
  }

  lemma NumeralStep(n: nat, radix: nat)
    requires 2 <= radix <= 16
    ensures |Numeral(n, radix)| == if n < radix then 1 else |Numeral(n / radix, radix)| + 1
  {
  }

  function Power(b: nat, e: nat): nat {
    if e == 0 then 1 else b * Power(b, e - 1)
  }

  lemma QuotientBound(n: nat, d: nat, bound: nat)
    requires 0 < d && n < d * bound
    ensures n / d < bound
  {
    DivMod(n, d);
    if bound <= n / d {
      TimesMonotone(d, bound, n / d);
    }
  }

  lemma TimesMonotone(d: nat, a: nat, b: nat)
    requires a <= b
    ensures d * a <= d * b
  {
  }

  function Zeros(n: nat): (s: string)
    ensures |s| == n
    ensures forall i :: 0 <= i < n ==> s[i] == '0'
  {
    seq(n, _ => '0')
  }

  /** Padding with zeros on the left keeps the value. */
  lemma {:induction false} ZerosKeepValue(n: nat, s: string, radix: nat)
    requires 2 <= radix && AllDigits(s, radix)
    ensures AllDigits(Zeros(n) + s, radix)
    ensures Value(Zeros(n) + s, radix) == Value(s, radix)
    decreases n + |s|
  {
    var padded := Zeros(n) + s;
    if s != "" {
      ZerosKeepValue(n, s[..|s| - 1], radix);
      assert padded[..|padded| - 1] == Zeros(n) + s[..|s| - 1];
    } else if n > 0 {
      ZerosKeepValue(n - 1, s, radix);
      assert padded[..|padded| - 1] == Zeros(n - 1) + s;
    }
  }

  /** The sixteen digits in their order, letters in either case. */
  lemma DigitsAre(c: char, k: nat)
    requires k < 16
    ensures DigitValue(c) == k <==> c == "0123456789abcdef"[k] || c == "0123456789ABCDEF"[k]
    ensures Digit(k) == "0123456789abcdef"[k]
  {
  }

  /** What positions mean: every digit further on multiplies by the radix what is before it. */
  lemma OneDigitMore(s: string, k: nat, radix: nat)
    requires k < radix <= 16 && AllDigits(s, radix)
    ensures AllDigits(s + ["0123456789abcdef"[k]], radix)
    ensures Value(s + ["0123456789abcdef"[k]], radix) == Value(s, radix) * radix + k
    ensures Value("", radix) == 0
  {
    DigitsAre("0123456789abcdef"[k], k);
    ValueOfAppended(s, "0123456789abcdef"[k], radix);
  }
}
