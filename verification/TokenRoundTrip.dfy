/** How the tokenizer reads each kind of token the serializer writes. */
module TokenRoundTrip {
  import opened JsonNumbers
  import opened JsonPrinter
  import opened JsonTokenizer
  import opened JsonValues
  import opened Numerals
  import opened Results
  import opened Sequences
  import opened StringRoundTrip

  /** A token may end before this text: it is empty or starts with neither a letter nor a number character. */
  ghost predicate EndsToken(rest: string) {
    rest != "" ==> !IsNumberChar(rest[0]) && !IsLetter(rest[0])
  }

  lemma {:induction false} SkipBlank(ws: string, t: string)
    requires AllBlank(ws) && t != "" && !IsWhitespace(t[0])
    ensures NextToken(ws + t) == TokenAt(t)
  {
    var s := ws + t;
    assert forall i :: 0 <= i < |ws| ==> s[i] == ws[i] && IsWhitespace(s[i]);
    assert s[|ws|] == t[0];
    SpanIs(s, IsWhitespace, |ws|);
    assert s[|ws|..] == t;
  }

  lemma KeywordRead(word: string, token: Token, rest: string)
    requires (word, token) in {("null", Nil), ("true", True), ("false", False)}
    requires EndsToken(rest)
    ensures TokenAt(word + rest) == Ok(Lexed(token, rest)) && !IsWhitespace((word + rest)[0])
  {
    SpanOfPrefix(word, rest, IsLetter);
    assert (word + rest)[0] == word[0];
    hide TokenAt, Span, IsWhitespace;
    Dispatch(word + rest);
  }

  /** Which branch of the tokenizer's switch a first character leads to. */
  lemma Dispatch(t: string)
    requires t != ""
    ensures StartsNumber(t[0]) ==> TokenAt(t) == NumberAt(t) && !IsWhitespace(t[0])
    ensures t[0] == '\"' ==> TokenAt(t) == StringAt(t) && !IsWhitespace(t[0])
    ensures StartsIdentifier(t[0]) ==> TokenAt(t) == IdentifierAt(t) && !IsWhitespace(t[0])
    ensures Punctuation(t[0]) != EOF ==> TokenAt(t) == Ok(Lexed(Punctuation(t[0]), t[1..])) && !IsWhitespace(t[0])
  {
  }

  lemma QuotedRead(u: Units, rest: string)
    ensures TokenAt(Quoted(u) + rest) == Ok(Lexed(StringToken(ReadBack(u)), rest)) && !IsWhitespace((Quoted(u) + rest)[0])
  {
    var t := Quoted(u) + rest;
    StringRead(u, rest, []);
    hide StringBody, Escaped, TokenAt, ReadBack;
    Dispatch(t);
    assert t[0] == '\"' && t[1..] == Escaped(u) + "\"" + rest;
    assert [] + ReadBack(u) == ReadBack(u);
  }

  // ----- numbers

  ghost predicate NumberChars(s: string) {
    forall i :: 0 <= i < |s| ==> IsNumberChar(s[i])
  }

  lemma JoinedNumberChars(a: string, b: string)
    requires NumberChars(a) && NumberChars(b)
    ensures NumberChars(a + b)
  {
  }

  lemma DigitsAreNumberChars(s: string)
    requires forall i :: 0 <= i < |s| ==> '0' <= s[i] <= '9'
    ensures NumberChars(s)
  {
  }

  lemma PointIsNumberChar()
    ensures NumberChars(".")
  {
  }

  lemma ExponentIsLiteral(e: string)
    requires e == "" || IsExponent(e)
    ensures ExponentLiteral(e) && NumberChars(e)
  {
    if e != "" {
      var u := Unsigned(e[1..]);
      DigitsAreNumberChars(u);
      if u == e[1..] {
        assert e == [e[0]] + u;
      } else {
        assert e == [e[0], e[1]] + u;
      }
    }
  }

  lemma FractionIsLiteral(f: string)
    requires IsFraction(f)
    ensures 0 < DigitRun(f) && ExponentLiteral(f[DigitRun(f)..]) && NumberChars(f)
  {
    hide DigitRun, IsExponent, ExponentLiteral, IsNumberChar;
    var places := DigitRun(f);
    ExponentIsLiteral(f[places..]);
    DigitsAreNumberChars(f[..places]);
    hide NumberChars;
    JoinedNumberChars(f[..places], f[places..]);
    assert f == f[..places] + f[places..];
  }

  /** The standard grammar is part of what `Double.valueOf` takes. */
  lemma NumberIsLiteral(u: string)
    requires IsUnsignedNumber(u)
    ensures u != "" && UnsignedLiteral(u) && NumberChars(u) && '0' <= u[0] <= '9'
  {
    hide IsFraction, ExponentLiteral, IsExponent, DigitRun, NumberChars;
    PointIsNumberChar();
    var whole := DigitRun(u);
    var more := u[whole..];
    DigitsAreNumberChars(u[..whole]);
    assert u == u[..whole] + more;
    if more != "" && u[whole] == '.' {
      PointIsNoExponent(more);
      var f := u[whole + 1..];
      FractionIsLiteral(f);
      JoinedNumberChars(".", f);
      assert more == "." + f;
    } else {
      ExponentIsLiteral(more);
    }
    JoinedNumberChars(u[..whole], more);
  }

  lemma PointIsNoExponent(e: string)
    requires e != "" && e[0] == '.'
    ensures !IsExponent(e)
  {
  }

  /** A number whose text the tokenizer can convert: a 64-bit integer, or a text with a point, or one with an exponent
      and no leading zero. Numbers that are not finite are written as a word. */
  predicate Tokenizable(n: Number) {
    match n
    case Decimal(text) => '.' in text || (('e' in text || 'E' in text) && Magnitude(text) != "" && Magnitude(text)[0] != '0')
    case _ => true
  }

  /** The text of a number without its sign, when there is no point in it. */
  lemma NoPoint(u: string)
    requires IsUnsignedNumber(u) && '.' !in u
    ensures AllDigits(u, 10) || ('e' in u || 'E' in u)
    ensures u[0] == '0' && |u| > 1 ==> u[1] == 'e' || u[1] == 'E'
    ensures 'e' !in u && 'E' !in u ==> AllDigits(u, 10)
  {
    var whole := DigitRun(u);
    assert whole < |u| ==> u[whole] in u && u[whole..][0] == u[whole];
    forall i | 0 <= i < whole
      ensures IsDigit(u[i], 10)
    {
    }
  }

  lemma ExponentIsNotOctal(e: string)
    requires e != "" && (e[0] == 'e' || e[0] == 'E')
    ensures ToLong("-" + e, 8).Err? && ToLong(e, 8).Err?
  {
    assert ("-" + e)[1..] == e;
    assert !IsDigit(e[0], 8);
  }

  /** The branches of the conversion, told for a sign and the text after it. */
  lemma Conversion(sign: string, u: string)
    requires (sign == "" || sign == "-") && u != "" && '0' <= u[0] <= '9'
    ensures ToNumber(sign + u) ==
            if '.' in u then ToDouble(sign + u)
            else if |u| >= 2 && u[0] == '0' && (u[1] == 'x' || u[1] == 'X') then ToLong(sign + u[2..], 16)
            else if u == "0" then Ok(Long(0))
            else if u[0] == '0' then ToLong(sign + u[1..], 8)
            else if 'e' in u || 'E' in u then ToDouble(sign + u)
            else ToLong(sign + u, 10)
  {
    hide ToLong, ToDouble;
    InSigned(sign, u, '.');
    if sign == "" {
      assert sign + u == u;
    } else {
      assert (sign + u)[0] == '-' && (sign + u)[1..] == u;
    }
  }

  lemma InSigned(sign: string, u: string, c: char)
    requires (sign == "" || sign == "-") && c != '-'
    ensures c in sign + u <==> c in u
  {
  }

  lemma SignAndMagnitude(text: string)
    requires Magnitude(text) != ""
    ensures text != "" && text == (if text[0] == '-' then "-" else "") + Magnitude(text)
  {
  }

  /** A number that is no 64-bit integer is converted exactly when it is tokenizable. */
  lemma DecimalRead(text: string)
    requires NumberOf(text) == Some(Decimal(text))
    ensures ToNumber(text) == if Tokenizable(Decimal(text)) then Ok(Decimal(text)) else Err(BadNumber)
  {
    hide UnsignedLiteral, IsUnsignedNumber, DigitRun, LongOf, ToNumber, Magnitude, Unsigned, AllDigits;
    var u := Magnitude(text);
    NumberIsLiteral(u);
    SignAndMagnitude(text);
    var sign := if text[0] == '-' then "-" else "";
    Signed(sign, u);
    Conversion(sign, u);
    InSigned(sign, u, '.');
    InSigned(sign, u, 'e');
    InSigned(sign, u, 'E');
    if '.' !in u {
      NoPoint(u);
      if u == "0" {
        ZeroIsLong(sign);
      } else if u[0] == '0' {
        assert |u| > 1;
        ExponentIsNotOctal(u[1..]);
        assert "" + u[1..] == u[1..];
      }
    }
  }

  lemma ZeroIsLong(sign: string)
    requires sign == "" || sign == "-"
    ensures LongOf(sign + "0", 10) == Some(0)
  {
    Signed(sign, "0");
    assert "0"[..0] == "";
    assert IsDigit('0', 10);
  }

  /** A text of section 6 is converted to the number it denotes, exactly if that is tokenizable. */
  lemma Converted(text: string, n: Number)
    requires NumberOf(text) == Some(n)
    ensures ToNumber(text) == if Tokenizable(n) then Ok(n) else Err(BadNumber)
  {
    match n {
      case Long(k) => LongRead(text, k);
      case Decimal(_) => DecimalRead(text);
    }
  }

  lemma NumberTextRead(n: Number)
    requires n.IsFinite() && Proper(n)
    ensures ToNumber(NumberText(n)) == if Tokenizable(n) then Ok(n) else Err(BadNumber)
    ensures NumberChars(NumberText(n)) && NumberText(n) != "" && StartsNumber(NumberText(n)[0])
  {
    TextDenotes(n);
    NumberStart(NumberText(n));
    Converted(NumberText(n), n);
  }

  lemma NumberStart(text: string)
    requires IsNumber(text)
    ensures NumberChars(text) && text != "" && StartsNumber(text[0])
  {
    hide IsUnsignedNumber, UnsignedLiteral;
    NumberIsLiteral(Magnitude(text));
    SignAndMagnitude(text);
    assert NumberChars("-");
    JoinedNumberChars("-", Magnitude(text));
  }

  lemma LongRead(text: string, n: Int64)
    requires NumberOf(text) == Some(Long(n))
    ensures ToNumber(text) == Ok(Long(n))
  {
    hide LongOf, IsUnsignedNumber, ToNumber, UnsignedLiteral, Magnitude, Unsigned;
    var u := Magnitude(text);
    NumberIsLiteral(u);
    SignAndMagnitude(text);
    var sign := if text[0] == '-' then "-" else "";
    Signed(sign, u);
    LongIsDigits(text);
    Conversion(sign, u);
    if u == "0" {
      ZeroIsLong(sign);
    } else {
      NoLeadingZero(u);
    }
  }

  lemma LongIsDigits(text: string)
    requires LongOf(text, 10).Some?
    ensures var u := Unsigned(text); AllDigits(u, 10) && '.' !in u && 'e' !in u && 'E' !in u && 'x' !in u && 'X' !in u
  {
    DigitsOnly(Unsigned(text));
  }

  lemma NoLeadingZero(u: string)
    requires IsUnsignedNumber(u) && AllDigits(u, 10) && u != "0"
    ensures u[0] != '0'
  {
    DigitsOnly(u);
    if |u| == 1 {
      assert u == [u[0]];
    }
  }

  /** What the tokenizer makes of a written number, whatever comes after it. */
  lemma NumberRead(n: Number, rest: string)
    requires Proper(n) && EndsToken(rest)
    ensures TokenAt(NumberText(n) + rest) ==
            if !n.IsFinite() then Ok(Lexed(Nil, rest))
            else if Tokenizable(n) then Ok(Lexed(NumberToken(n), rest))
            else Err(BadNumber)
    ensures NumberText(n) != "" && !IsWhitespace((NumberText(n) + rest)[0])
  {
    if n.IsFinite() {
      FiniteRead(n, rest);
    } else {
      KeywordRead("null", Nil, rest);
    }
  }

  lemma FiniteRead(n: Number, rest: string)
    requires n.IsFinite() && Proper(n) && EndsToken(rest)
    ensures TokenAt(NumberText(n) + rest) == if Tokenizable(n) then Ok(Lexed(NumberToken(n), rest)) else Err(BadNumber)
    ensures NumberText(n) != "" && !IsWhitespace((NumberText(n) + rest)[0])
  {
    NumberTextRead(n);
    hide NumberText, Proper, Tokenizable, ToNumber, Span, TokenAt, IsWhitespace;
    var text := NumberText(n);
    SpanOfPrefix(text, rest, IsNumberChar);
    assert (text + rest)[0] == text[0];
    Dispatch(text + rest);
  }

  lemma PunctuationRead(ws: string, c: char, rest: string)
    requires AllBlank(ws) && Punctuation(c) != EOF
    ensures NextToken(ws + [c] + rest) == Ok(Lexed(Punctuation(c), rest))
  {
    var t := [c] + rest;
    Dispatch(t);
    SkipBlank(ws, t);
    Regroup(ws, [c], rest);
    assert t[1..] == rest;
  }
}
