/** What the tokenizer reads beyond what the serializer writes: characters as they are, and what RFC 8259 does not allow. */
module TokenizerLaws {
  import opened JsonNumbers
  import opened JsonParser
  import opened JsonRoundTrip
  import opened JsonTokenizer
  import opened JsonValues
  import opened Numerals
  import opened Results
  import opened Sequences
  import opened TokenRoundTrip

  // ----- characters as they are

  /** The character of a surrogate pair. */
  function Joined(high: int, low: int): int {
    0x1_0000 + (high - 0xD800) * 0x400 + (low - 0xDC00)
  }

  /** The text that UTF-16 code units stand for: a unit that is no surrogate stands for itself, a high surrogate and a low
      one after it for a character from 0x10000 on, and any other unit for none. */
  function Decoded(units: Units): Option<string> {
    if units == [] then Some("")
    else if !(0xD800 <= units[0] <= 0xDFFF) then
      var rest :- Decoded(units[1..]);
      Some([units[0] as char] + rest)
    else if units[0] <= 0xDBFF && |units| > 1 && 0xDC00 <= units[1] <= 0xDFFF then
      var rest :- Decoded(units[2..]);
      Some([Joined(units[0], units[1]) as char] + rest)
    else None
  }

  function AllUnits(s: string): Units {
    if s == "" then [] else UnitsOf(s[0]) + AllUnits(s[1..])
  }

  lemma {:induction false} AllUnitsDecoded(s: string)
    ensures Decoded(AllUnits(s)) == Some(s)
  {
    hide UnitsOf, Decoded;
    if s == "" {
      NothingDecoded();
    } else {
      AllUnitsDecoded(s[1..]);
      OneDecoded(s[0], AllUnits(s[1..]));
      assert [s[0]] + s[1..] == s;
    }
  }

  lemma NothingDecoded()
    ensures Decoded([]) == Some("")
  {
  }

  lemma OneDecoded(c: char, rest: Units)
    requires Decoded(rest).Some?
    ensures Decoded(UnitsOf(c) + rest) == Some([c] + Decoded(rest).value)
  {
    hide Decoded;
    if c as int < 0x1_0000 {
      SingleUnit(c as int, rest);
    } else {
      var above := c as int - 0x1_0000;
      DivMod(above, 0x400);
      var high: Utf16, low: Utf16 := 0xD800 + above / 0x400, 0xDC00 + above % 0x400;
      SurrogatePair(high, low, rest);
      Rejoined(c as int, high, low);
      assert [high] + [low] == [high, low];
    }
  }

  lemma SingleUnit(u: Utf16, rest: Units)
    requires !(0xD800 <= u <= 0xDFFF) && Decoded(rest).Some?
    ensures Decoded([u] + rest) == Some([u as char] + Decoded(rest).value)
  {
    assert ([u] + rest)[1..] == rest;
  }

  lemma Rejoined(u: int, high: int, low: int)
    requires u >= 0x1_0000
    requires high == 0xD800 + (u - 0x1_0000) / 0x400 && low == 0xDC00 + (u - 0x1_0000) % 0x400
    ensures Joined(high, low) == u
  {
  }

  lemma SurrogatePair(high: Utf16, low: Utf16, rest: Units)
    requires 0xD800 <= high <= 0xDBFF && 0xDC00 <= low <= 0xDFFF && Decoded(rest).Some?
    ensures Decoded([high, low] + rest) == Some([Joined(high, low) as char] + Decoded(rest).value)
  {
    assert ([high, low] + rest)[2..] == rest;
  }

  /** Nothing in the text ends a string or starts an escape. */
  predicate Bare(s: string, delim: char) {
    delim !in s && '\\' !in s
  }

  lemma {:induction false} BareIsRead(s: string, delim: char, rest: string, read: Units)
    requires Bare(s, delim) && delim != '\\'
    ensures StringBody(s + [delim] + rest, delim, read) == Ok(Lexed(read + AllUnits(s), rest))
    decreases |s|
  {
    hide StringBody, UnitsOf;
    var text := s + [delim] + rest;
    if s == "" {
      BodyEnd(text, delim, read);
      assert text[0] == delim && text[1..] == rest && read + [] == read;
    } else {
      BodyStep(text, delim, read);
      assert text[0] == s[0] && text[1..] == s[1..] + [delim] + rest;
      BareIsRead(s[1..], delim, rest, read + UnitsOf(s[0]));
      Regroup(read, UnitsOf(s[0]), AllUnits(s[1..]));
    }
  }

  /** A string literal in either kind of quotes, whatever characters it holds, is read as the code units that stand for
      exactly these characters, and nothing after it is touched. */
  lemma CharactersAreKept(s: string, delim: char, rest: string)
    requires (delim == '\"' || delim == '\'') && delim !in s && '\\' !in s
    ensures TokenAt([delim] + s + [delim] + rest).Ok?
    ensures var token := TokenAt([delim] + s + [delim] + rest).value;
            token.rest == rest && token.value.StringToken? && Decoded(token.value.s) == Some(s)
  {
    hide StringBody, Decoded, AllUnits, NumberAt, IdentifierAt;
    var text := [delim] + s + [delim] + rest;
    BareIsRead(s, delim, rest, []);
    AllUnitsDecoded(s);
    assert text[0] == delim && text[1..] == s + [delim] + rest;
    assert [] + AllUnits(s) == AllUnits(s);
    assert TokenAt(text) == StringAt(text);
  }

  // ----- escapes

  /** The two numeric escapes, of two and of four hex digits in either case. */
  lemma HexEscapesRead(digits: string, t: string)
    requires AllDigits(digits, 16)
    ensures |digits| == 2 ==> Escape("x" + digits + t) == Ok(Lexed(Value(digits, 16) % 0x1_0000, t))
    ensures |digits| == 4 ==> Escape("u" + digits + t) == Ok(Lexed(Value(digits, 16) % 0x1_0000, t))
  {
    hide Value, HexEscape;
    HexSucceeds(digits, t);
    assert ("x" + digits + t)[1..] == digits + t && ("u" + digits + t)[1..] == digits + t;
  }

  /** The escapes of one letter, the apostrophe among them. */
  lemma LetterEscapesRead(t: string)
    ensures Escape("\"" + t) == Ok(Lexed(0x22, t)) && Escape("'" + t) == Ok(Lexed(0x27, t))
    ensures Escape("\\" + t) == Ok(Lexed(0x5C, t)) && Escape("/" + t) == Ok(Lexed(0x2F, t))
    ensures Escape("b" + t) == Ok(Lexed(0x08, t)) && Escape("f" + t) == Ok(Lexed(0x0C, t))
    ensures Escape("n" + t) == Ok(Lexed(0x0A, t)) && Escape("r" + t) == Ok(Lexed(0x0D, t))
    ensures Escape("t" + t) == Ok(Lexed(0x09, t))
  {
    forall c: char
      ensures ([c] + t)[0] == c && ([c] + t)[1..] == t
    {
    }
    assert "\"" + t == ['\"'] + t && "'" + t == ['\''] + t && "\\" + t == ['\\'] + t && "/" + t == ['/'] + t;
    assert "b" + t == ['b'] + t && "f" + t == ['f'] + t && "n" + t == ['n'] + t && "r" + t == ['r'] + t && "t" + t == ['t'] + t;
  }

  // ----- numerals

  function SignedBy(negative: bool, n: nat): int {
    if negative then -(n as int) else n
  }

  predicate Fits(n: int) {
    -0x8000_0000_0000_0000 <= n < 0x8000_0000_0000_0000
  }

  /** Numerals in hexadecimal, with a small or a capital x, and in octal: what fits in 64 bits is read as what the numeral
      stands for, and anything larger is refused. */
  lemma OtherRadixesRead(digits: string, radix: nat, negative: bool)
    requires digits != "" && AllDigits(digits, radix) && (radix == 8 || radix == 16)
    ensures var sign, n := if negative then "-" else "", SignedBy(negative, Value(digits, radix));
            var read := if Fits(n) then Ok(Long(n)) else Err(BadNumber);
            && (radix == 16 ==> ToNumber(sign + ("0x" + digits)) == read && ToNumber(sign + ("0X" + digits)) == read)
            && (radix == 8 ==> ToNumber(sign + ("0" + digits)) == read)
  {
    hide ToNumber, Value;
    var sign := if negative then "-" else "";
    SignedRadix(sign, digits, radix);
    NoPointInDigits(digits, radix);
    if radix == 16 {
      Conversion(sign, "0x" + digits);
      Conversion(sign, "0X" + digits);
      assert ("0x" + digits)[2..] == digits && ("0X" + digits)[2..] == digits;
    } else {
      Conversion(sign, "0" + digits);
      assert ("0" + digits)[1..] == digits && ("0" + digits)[1] == digits[0];
      assert IsDigit(digits[0], 8);
      assert "0" + digits != "0";
    }
  }

  lemma NoPointInDigits(digits: string, radix: nat)
    requires AllDigits(digits, radix)
    ensures '.' !in digits
  {
    assert !IsDigit('.', radix);
  }

  lemma SignedRadix(sign: string, digits: string, radix: nat)
    requires sign == "" || sign == "-"
    requires digits != "" && AllDigits(digits, radix) && radix <= 16
    ensures var n := SignedBy(sign == "-", Value(digits, radix));
            ToLong(sign + digits, radix) == if Fits(n) then Ok(Long(n)) else Err(BadNumber)
  {
    hide Value;
    assert IsDigit(digits[0], radix);
    if sign == "" {
      assert sign + digits == digits && digits[0] != '-' && digits[0] != '+';
    } else {
      assert (sign + digits)[0] == '-' && (sign + digits)[1..] == digits;
    }
  }

  // ----- words and commas

  /** `undefined` is read as null. */
  lemma UndefinedIsNull(rest: string)
    requires rest != "" ==> !IsLetter(rest[0])
    ensures TokenAt("undefined" + rest) == Ok(Lexed(Nil, rest))
  {
    SpanOfPrefix("undefined", rest, IsLetter);
    assert ("undefined" + rest)[0] == 'u';
    hide TokenAt, Span;
    Dispatch("undefined" + rest);
  }

  /** A comma may stand after the last element and after the last entry. */
  lemma TrailingCommas(t: string, v: Json, after: string, rest: string, es: seq<Json>, ms: seq<Member>)
    requires NextToken(after) == Ok(Lexed(Comma, rest)) && NextToken(rest).Ok?
    requires ReadsAs(t, true, v, after) && NextToken(t) == TokenAt(t)
    ensures NextToken(rest).value.value == BrackR ==>
              HeldElements(t, es) == Finish(Arr(es + [v]), NextToken(rest).value.rest)
    ensures NextToken(rest).value.value == BraceR ==>
              HeldMembers(rest, ms) == Finish(Obj(ms), NextToken(rest).value.rest)
  {
    hide NextToken, TokenAt, HeldElements, HeldMembers, ReadsAs;
    if NextToken(rest).value.value == BrackR {
      ElementStep(t, t, true, v, after, es);
      ElementsEnd(rest, NextToken(rest).value.rest, es + [v]);
    }
    if NextToken(rest).value.value == BraceR {
      MembersEnd(rest, NextToken(rest).value.rest, ms);
    }
  }
}
