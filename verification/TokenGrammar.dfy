/** The tokens that the tokenizer takes, told by their characters: it takes no others. */
module TokenGrammar {
  import opened JsonNumbers
  import opened JsonTokenizer
  import opened JsonValues
  import opened Numerals
  import opened Results
  import opened TokenRoundTrip
  import opened TokenizerLaws

  // ----- before tokens

  /** The characters that are skipped: those of Unicode that `Character.isWhitespace` names, the no-break spaces U+00A0,
      U+2007 and U+202F not among them. */
  lemma SkippedCharacters(c: char)
    ensures IsWhitespace(c) <==>
            c as int in {0x09, 0x0A, 0x0B, 0x0C, 0x0D, 0x1C, 0x1D, 0x1E, 0x1F, 0x20, 0x1680, 0x2000, 0x2001, 0x2002, 0x2003,
                         0x2004, 0x2005, 0x2006, 0x2008, 0x2009, 0x200A, 0x2028, 0x2029, 0x205F, 0x3000}
  {
  }

  lemma {:induction false} BodyErrors(s: string, delim: char, read: Units)
    ensures StringBody(s, delim, read).Err? ==> StringBody(s, delim, read).error in {UnterminatedString, BadEscape}
    decreases |s|
  {
    hide Escape, UnitsOf;
    if s != "" && s[0] != delim {
      if s[0] != '\\' {
        BodyErrors(s[1..], delim, read + UnitsOf(s[0]));
      } else {
        EscapesTaken(s[1..]);
        if Escape(s[1..]).Ok? {
          var escape := Escape(s[1..]).value;
          BodyErrors(escape.rest, delim, read + [escape.value]);
        }
      }
    }
  }

  /** The only characters that a token can start with. */
  lemma FirstCharacters(t: string)
    requires t != ""
    ensures TokenAt(t) == Err(UnexpectedCharacter) <==>
            t[0] !in {'{', '}', '[', ']', ':', ',', '\"', '\'', '-', '.', '0', '1', '2', '3', '4', '5', '6', '7', '8', '9', 'n', 't',
                      'f', 'u'}
  {
    hide StringBody, Span, LongOf, DecimalLiteral;
    BodyErrors(t[1..], t[0], []);
  }

  /** The four words, which no letter may follow. */
  lemma WordsTaken(word: string, rest: string)
    requires word != "" && StartsIdentifier(word[0]) && (rest != "" ==> !IsLetter(rest[0]))
    requires forall i :: 0 <= i < |word| ==> 'a' <= word[i] <= 'z' || 'A' <= word[i] <= 'Z'
    ensures TokenAt(word + rest) ==
            if word == "true" then Ok(Lexed(True, rest))
            else if word == "false" then Ok(Lexed(False, rest))
            else if word == "null" || word == "undefined" then Ok(Lexed(Nil, rest))
            else Err(UnexpectedIdentifier)
  {
    hide TokenAt, Span;
    SpanOfPrefix(word, rest, IsLetter);
    assert (word + rest)[0] == word[0];
    Dispatch(word + rest);
  }

  // ----- strings

  predicate Hex(c: char) {
    '0' <= c <= '9' || 'a' <= c <= 'f' || 'A' <= c <= 'F'
  }

  predicate Octal(c: char) {
    '0' <= c <= '7'
  }

  /** A string without its closing quote is refused. */
  lemma {:induction false} OpenStringsRefused(s: string, delim: char, read: Units)
    requires Bare(s, delim)
    ensures StringBody(s, delim, read) == Err(UnterminatedString)
    decreases |s|
  {
    hide StringBody, UnitsOf;
    BodyEnd(s, delim, read);
    if s != "" {
      BodyStep(s, delim, read);
      OpenStringsRefused(s[1..], delim, read + UnitsOf(s[0]));
    }
  }

  /** What may follow a backslash, and nothing else. */
  lemma EscapesTaken(s: string)
    ensures Escape(s).Ok? <==>
            && s != ""
            && (|| s[0] in {'b', 'f', 'n', 'r', 't', '\'', '\"', '\\', '/'}
                || Octal(s[0])
                || (s[0] == 'x' && |s| > 2 && Hex(s[1]) && Hex(s[2]))
                || (s[0] == 'u' && |s| > 4 && Hex(s[1]) && Hex(s[2]) && Hex(s[3]) && Hex(s[4])))
    ensures Escape(s).Err? ==> Escape(s).error == BadEscape
  {
    hide Value, Span;
    if s != "" {
      HexTaken(s[1..]);
      OctalTaken(s);
    }
  }

  lemma HexTaken(t: string)
    ensures HexEscape(t, 2).Ok? <==> |t| > 1 && Hex(t[0]) && Hex(t[1])
    ensures HexEscape(t, 4).Ok? <==> |t| > 3 && Hex(t[0]) && Hex(t[1]) && Hex(t[2]) && Hex(t[3])
  {
    hide Value;
    if |t| > 1 {
      assert t[..2] == [t[0], t[1]];
    }
    if |t| > 3 {
      assert t[..4] == [t[0], t[1], t[2], t[3]];
    }
  }

  lemma OctalTaken(s: string)
    requires s != ""
    ensures OctalEscape(s).Ok? <==> Octal(s[0])
  {
    hide Value;
    assert Span(s, (c: char) => IsDigit(c, 8)) == 0 <==> !IsDigit(s[0], 8);
  }

  function OctalDigit(c: char): nat
    requires Octal(c)
  {
    c as int - '0' as int
  }

  /** One to three octal digits, whichever the first; when there are three, the last is also read again as a character. */
  lemma OctalEscapesRead(a: char, b: char, c: char, t: string)
    requires Octal(a) && Octal(b) && Octal(c)
    ensures (t != "" ==> !Octal(t[0])) ==> Escape([a] + t) == Ok(Lexed(OctalDigit(a), t))
    ensures (t != "" ==> !Octal(t[0])) ==> Escape([a, b] + t) == Ok(Lexed(8 * OctalDigit(a) + OctalDigit(b), t))
    ensures Escape([a, b, c] + t) == Ok(Lexed(64 * OctalDigit(a) + 8 * OctalDigit(b) + OctalDigit(c), [c] + t))
  {
    hide Value, Escape;
    OctalValues(a, b, c);
    if t != "" ==> !Octal(t[0]) {
      OctalRead([a], t);
      OctalRead([a, b], t);
    }
    OctalRead([a, b, c], t);
    assert "" + t == t && [a, b, c][2] == c;
  }

  lemma OctalRead(digits: string, t: string)
    requires 1 <= |digits| <= 3 && AllDigits(digits, 8) && Octal(digits[0]) && Value(digits, 8) < 0x1_0000
    requires |digits| < 3 && t != "" ==> !Octal(t[0])
    ensures Escape(digits + t) == Ok(Lexed(Value(digits, 8), (if |digits| == 3 then [digits[2]] else "") + t))
  {
    hide OctalRun, Value, Escape;
    EscapeIsOctal(digits + t);
    OctalRunIs(digits, t);
    var n := |digits|;
    assert (digits + t)[..n] == digits;
    if n == 3 {
      assert (digits + t)[2..] == [digits[2]] + t;
    } else {
      assert (digits + t)[n..] == t && "" + t == t;
    }
  }

  lemma EscapeIsOctal(s: string)
    requires s != "" && Octal(s[0])
    ensures Escape(s) == OctalEscape(s)
  {
    hide OctalEscape;
  }

  lemma OctalValues(a: char, b: char, c: char)
    requires Octal(a) && Octal(b) && Octal(c)
    ensures AllDigits([a], 8) && Value([a], 8) == OctalDigit(a)
    ensures AllDigits([a, b], 8) && Value([a, b], 8) == 8 * OctalDigit(a) + OctalDigit(b)
    ensures AllDigits([a, b, c], 8) && Value([a, b, c], 8) == 64 * OctalDigit(a) + 8 * OctalDigit(b) + OctalDigit(c)
  {
    assert [a][..0] == "" && [a, b][..1] == [a] && [a, b, c][..2] == [a, b];
  }

  // ----- numbers

  /** An integer of 64 bits as it may be written: a sign, if any, and digits. */
  predicate IsInteger(text: string, sign: string, digits: string, radix: nat, n: int) {
    && text == sign + digits && sign in {"", "+", "-"} && digits != "" && AllDigits(digits, radix)
    && n == SignedBy(sign == "-", Value(digits, radix)) && Fits(n)
  }

  lemma IntegersTaken(text: string, radix: nat, n: Int64)
    requires radix <= 16
    ensures LongOf(text, radix) == Some(n) <==> exists sign, digits :: IsInteger(text, sign, digits, radix, n)
  {
    hide Value;
    if LongOf(text, radix) == Some(n) {
      var sign, digits := text[..|text| - |Unsigned(text)|], Unsigned(text);
      assert sign == "" || sign == [text[0]];
      assert text == sign + digits;
      assert IsInteger(text, sign, digits, radix, n);
    }
    forall sign, digits | IsInteger(text, sign, digits, radix, n)
      ensures LongOf(text, radix) == Some(n)
    {
      assert IsDigit(digits[0], radix);
      assert sign == "" ==> text == digits;
      assert sign != "" ==> text[0] == sign[0] && text[1..] == digits;
    }
  }

  /** A decimal numeral in its parts; `mark` is the letter of the exponent. */
  datatype Literal = Literal(sign: string, whole: string, point: string, fraction: string, mark: string, plus: string, power: string)

  predicate Decimals(s: string) {
    forall i :: 0 <= i < |s| ==> '0' <= s[i] <= '9'
  }

  predicate IsSign(s: string) {
    s == "" || s == "+" || s == "-"
  }

  function ExponentText(l: Literal): string {
    l.mark + l.plus + l.power
  }

  function LiteralText(l: Literal): string {
    l.sign + (l.whole + (l.point + l.fraction + ExponentText(l)))
  }

  predicate ExponentFormed(l: Literal) {
    if l.mark == "" then l.plus == "" && l.power == ""
    else (l.mark == "e" || l.mark == "E") && IsSign(l.plus) && l.power != "" && Decimals(l.power)
  }

  /** Digits before the point or behind it, or both; without a point there is no fraction. */
  predicate Formed(l: Literal) {
    && IsSign(l.sign) && Decimals(l.whole) && Decimals(l.fraction) && (l.whole != "" || l.fraction != "")
    && (if l.point == "" then l.fraction == "" else l.point == ".")
    && ExponentFormed(l)
  }

  lemma RunIs(digits: string, rest: string)
    requires Decimals(digits) && (rest != "" ==> !('0' <= rest[0] <= '9'))
    ensures DigitRun(digits + rest) == |digits|
    ensures (digits + rest)[..|digits|] == digits && (digits + rest)[|digits|..] == rest
  {
    var s := digits + rest;
    assert forall i :: 0 <= i < |digits| ==> s[i] == digits[i];
    assert rest != "" ==> s[|digits|] == rest[0];
  }

  lemma ExponentTaken(l: Literal)
    requires ExponentFormed(l)
    ensures ExponentLiteral(ExponentText(l))
    ensures ExponentText(l) == "" || ExponentText(l)[0] == 'e' || ExponentText(l)[0] == 'E'
  {
    hide DigitRun;
    if l.mark != "" {
      var e := ExponentText(l);
      assert e[1..] == l.plus + l.power;
      assert Unsigned(e[1..]) == l.power by {
        if l.plus == "" {
          assert l.plus + l.power == l.power;
        } else {
          assert (l.plus + l.power)[1..] == l.power;
        }
      }
      RunIs(l.power, "");
      assert l.power + "" == l.power;
    }
  }

  lemma SignedTaken(sign: string, u: string)
    requires IsSign(sign) && u != "" && u[0] != '+' && u[0] != '-'
    ensures Unsigned(sign + u) == u
  {
    if sign == "" {
      assert sign + u == u;
    } else {
      assert (sign + u)[0] == sign[0] && (sign + u)[1..] == u;
    }
  }

  lemma WholeTaken(whole: string, e: string)
    requires Decimals(whole) && whole != "" && ExponentLiteral(e) && (e != "" ==> e[0] == 'e' || e[0] == 'E')
    ensures UnsignedLiteral(whole + e)
  {
    hide DigitRun, ExponentLiteral;
    RunIs(whole, e);
    assert |whole| < |whole + e| ==> (whole + e)[|whole|] == e[0];
  }

  lemma PointTaken(whole: string, fraction: string, e: string)
    requires Decimals(whole) && Decimals(fraction) && (whole != "" || fraction != "")
    requires ExponentLiteral(e) && (e != "" ==> e[0] == 'e' || e[0] == 'E')
    ensures UnsignedLiteral(whole + ("." + fraction + e))
  {
    hide DigitRun, ExponentLiteral;
    var tail := "." + fraction + e;
    var u := whole + tail;
    assert tail[0] == '.' && tail[1..] == fraction + e;
    RunIs(whole, tail);
    RunIs(fraction, e);
    assert u[|whole|] == '.';
    assert u[|whole| + 1..] == u[|whole|..][1..];
  }

  lemma FormedIsTaken(l: Literal)
    requires Formed(l)
    ensures DecimalLiteral(LiteralText(l))
  {
    hide ExponentLiteral, ExponentText, ExponentFormed, UnsignedLiteral;
    var e := ExponentText(l);
    var u := l.whole + (l.point + l.fraction + e);
    ExponentTaken(l);
    if l.point == "" {
      assert "" + "" + e == e;
      WholeTaken(l.whole, e);
    } else {
      PointTaken(l.whole, l.fraction, e);
    }
    assert u[0] == if l.whole != "" then l.whole[0] else '.';
    SignedTaken(l.sign, u);
  }

  lemma SignOf(text: string)
    ensures var sign := text[..|text| - |Unsigned(text)|]; IsSign(sign) && text == sign + Unsigned(text)
  {
  }

  lemma ExponentOf(e: string) returns (l: Literal)
    requires ExponentLiteral(e)
    ensures ExponentFormed(l) && ExponentText(l) == e
  {
    hide ExponentLiteral, Unsigned, IsSign, Decimals;
    if e == "" {
      l := Literal("", "", "", "", "", "", "");
    } else {
      hide ExponentFormed, ExponentText;
      var power := Unsigned(e[1..]);
      SignOf(e[1..]);
      PowerDigits(e);
      l := ExponentOfParts(e[0], e[1..][..|e[1..]| - |power|], power);
      assert e == [e[0]] + e[1..];
    }
  }

  lemma ExponentOfParts(mark: char, plus: string, power: string) returns (l: Literal)
    requires (mark == 'e' || mark == 'E') && IsSign(plus) && power != "" && Decimals(power)
    ensures ExponentFormed(l) && ExponentText(l) == [mark] + (plus + power)
  {
    hide IsSign, Decimals;
    l := Literal("", "", "", "", [mark], plus, power);
    assert [mark] == "e" || [mark] == "E";
    assert [mark] + plus + power == [mark] + (plus + power);
  }

  lemma PowerDigits(e: string)
    requires ExponentLiteral(e) && e != ""
    ensures (e[0] == 'e' || e[0] == 'E') && Unsigned(e[1..]) != "" && Decimals(Unsigned(e[1..]))
  {
  }

  /** What is left of an unsigned literal behind its whole part. */
  lemma Tail(u: string) returns (point: string, fraction: string, e: string)
    requires UnsignedLiteral(u)
    ensures u == u[..DigitRun(u)] + (point + fraction + e) && ExponentLiteral(e) && Decimals(fraction) && Decimals(u[..DigitRun(u)])
    ensures if point == "" then fraction == "" && DigitRun(u) > 0 else point == "." && (DigitRun(u) > 0 || fraction != "")
  {
    hide ExponentLiteral, DigitRun, Decimals;
    var whole := DigitRun(u);
    assert u == u[..whole] + u[whole..];
    RunDigits(u);
    if whole < |u| && u[whole] == '.' {
      var f := u[whole + 1..];
      RunDigits(f);
      point, fraction, e := ".", f[..DigitRun(f)], f[DigitRun(f)..];
      PointAnd(u, whole, DigitRun(f));
    } else {
      point, fraction, e := "", "", u[whole..];
      assert "" + "" + e == e;
    }
  }

  lemma RunDigits(u: string)
    ensures Decimals(u[..DigitRun(u)]) && Decimals("")
  {
  }

  lemma PointAnd(u: string, whole: nat, places: nat)
    requires whole < |u| && u[whole] == '.' && places <= |u[whole + 1..]|
    ensures u[whole..] == "." + u[whole + 1..][..places] + u[whole + 1..][places..]
  {
    assert u[whole..] == "." + u[whole + 1..];
  }

  lemma TakenIsFormed(text: string) returns (l: Literal)
    requires DecimalLiteral(text)
    ensures Formed(l) && LiteralText(l) == text
  {
    hide DigitRun, ExponentLiteral, ExponentFormed, ExponentText, UnsignedLiteral, Unsigned;
    var u := Unsigned(text);
    SignOf(text);
    var point, fraction, e := Tail(u);
    var exponent := ExponentOf(e);
    l := Literal(text[..|text| - |u|], u[..DigitRun(u)], point, fraction, exponent.mark, exponent.plus, exponent.power);
    SameExponent(exponent, l);
  }

  lemma SameExponent(k: Literal, l: Literal)
    requires k.mark == l.mark && k.plus == l.plus && k.power == l.power
    ensures ExponentFormed(k) == ExponentFormed(l) && ExponentText(k) == ExponentText(l)
  {
  }

  /** The decimal numerals that are taken are exactly these. */
  lemma DecimalsTaken(text: string)
    ensures DecimalLiteral(text) <==> exists l :: Formed(l) && text == LiteralText(l)
  {
    hide DecimalLiteral, Formed, LiteralText;
    if DecimalLiteral(text) {
      var l := TakenIsFormed(text);
    }
    forall l | Formed(l) && text == LiteralText(l)
      ensures DecimalLiteral(text)
    {
      FormedIsTaken(l);
    }
  }
}
