/** The JSON tokenizer: the tokens a text starts with, and the class that reads them one character at a time. */
module JsonTokenizer {
  import opened JsonNumbers
  import opened JsonValues
  import opened Numerals
  import opened Results

  datatype ReadError =
    | UnexpectedCharacter
    | UnexpectedIdentifier
    | BadEscape
    | UnterminatedString
    | BadNumber
    | BadObject
    | BadArray
    | BadValue

  datatype Token =
    | EOF | BraceL | BraceR | BrackL | BrackR | Colon | Comma | True | False | Nil
    | StringToken(s: Units)
    | NumberToken(n: Number)

  /** A value read off the front of a text, and the text after it. */
  datatype Lexed<+T> = Lexed(value: T, rest: string)

  type Reading<+T> = Result<Lexed<T>, ReadError>

  /** `Character.isWhitespace`. */
  predicate IsWhitespace(c: char) {
    var u := c as int;
    || 9 <= u <= 13 || 28 <= u <= 32 || u == 0x1680
    || (0x2000 <= u <= 0x200A && u != 0x2007)
    || u == 0x2028 || u == 0x2029 || u == 0x205F || u == 0x3000
  }

  /** `Character.isLetter` for the letters of ASCII. */
  predicate IsLetter(c: char) {
    'a' <= c <= 'z' || 'A' <= c <= 'Z'
  }

  predicate IsNumberChar(c: char) {
    || '0' <= c <= '9' || c == '.' || c == 'e' || c == 'E' || c == 'x' || c == 'X' || c == '+' || c == '-'
  }

  /** The length of the longest prefix whose characters satisfy `p`. */
  function Span(s: string, p: char -> bool): (n: nat)
    ensures n <= |s|
    ensures forall i :: 0 <= i < n ==> p(s[i])
    ensures n < |s| ==> !p(s[n])
  {
    if s != "" && p(s[0]) then 1 + Span(s[1..], p) else 0
  }

  lemma SpanIs(s: string, p: char -> bool, n: nat)
    requires n <= |s|
    requires forall i :: 0 <= i < n ==> p(s[i])
    requires n < |s| ==> !p(s[n])
    ensures Span(s, p) == n
  {
  }

  /** The code units of one character of the text. */
  function UnitsOf(c: char): Units {
    var u := c as int;
    if u < 0x1_0000 then [u] else [0xD800 + (u - 0x1_0000) / 0x400, 0xDC00 + (u - 0x1_0000) % 0x400]
  }

  /** The next token of a text. */
  function NextToken(s: string): (r: Reading<Token>)
    ensures r.Ok? ==> Cost(r.value.value, r.value.rest) <= |s|
  {
    var t := s[Span(s, IsWhitespace)..];
    if t == "" then Ok(Lexed(EOF, "")) else TokenAt(t)
  }

  /** The token that starts with the first character of a text. */
  function TokenAt(t: string): (r: Reading<Token>)
    requires t != ""
    ensures r.Ok? ==> r.value.value != EOF && |r.value.rest| < |t|
  {
    var c := t[0];
    if Punctuation(c) != EOF then Ok(Lexed(Punctuation(c), t[1..]))
    else if c == '\"' || c == '\'' then StringAt(t)
    else if StartsNumber(c) then NumberAt(t)
    else if StartsIdentifier(c) then IdentifierAt(t)
    else Err(UnexpectedCharacter)
  }

  function StringAt(t: string): (r: Reading<Token>)
    requires t != ""
    ensures r.Ok? ==> r.value.value != EOF && |r.value.rest| < |t|
  {
    var body :- StringBody(t[1..], t[0], []);
    Ok(Lexed(StringToken(body.value), body.rest))
  }

  function NumberAt(t: string): (r: Reading<Token>)
    requires t != "" && StartsNumber(t[0])
    ensures r.Ok? ==> r.value.value != EOF && |r.value.rest| < |t|
  {
    var n := Span(t, IsNumberChar);
    var number :- ToNumber(t[..n]);
    Ok(Lexed(NumberToken(number), t[n..]))
  }

  function IdentifierAt(t: string): (r: Reading<Token>)
    requires t != "" && StartsIdentifier(t[0])
    ensures r.Ok? ==> r.value.value != EOF && |r.value.rest| < |t|
  {
    var n := Span(t, IsLetter);
    var token :- Identifier(t[..n]);
    Ok(Lexed(token, t[n..]))
  }

  predicate StartsIdentifier(c: char) {
    c == 'n' || c == 't' || c == 'f' || c == 'u'
  }

  function Punctuation(c: char): Token {
    if c == '{' then BraceL
    else if c == '}' then BraceR
    else if c == '[' then BrackL
    else if c == ']' then BrackR
    else if c == ':' then Colon
    else if c == ',' then Comma
    else EOF
  }

  predicate StartsNumber(c: char) {
    c == '-' || c == '.' || '0' <= c <= '9'
  }

  /** The text left to read, counting a held token that is not the end as one more character. */
  function Cost(token: Token, rest: string): nat {
    |rest| + if token.EOF? then 0 else 1
  }

  function Identifier(ident: string): (r: Result<Token, ReadError>)
    ensures r.Ok? ==> r.value != EOF
  {
    if ident == "null" then Ok(Nil)
    else if ident == "true" then Ok(True)
    else if ident == "false" then Ok(False)
    else if ident == "undefined" then Ok(Nil)
    else Err(UnexpectedIdentifier)
  }

  /** The rest of a string literal, after its opening delimiter and the characters already in `read`. */
  function StringBody(s: string, delim: char, read: Units): (r: Reading<Units>)
    ensures r.Ok? ==> |r.value.rest| < |s|
    decreases |s|
  {
    if s == "" then Err(UnterminatedString)
    else if s[0] == delim then Ok(Lexed(read, s[1..]))
    else if s[0] != '\\' then StringBody(s[1..], delim, read + UnitsOf(s[0]))
    else
      var escape :- Escape(s[1..]);
      StringBody(escape.rest, delim, read + [escape.value])
  }

  /** The escape sequence after a backslash. */
  function Escape(s: string): (r: Reading<Utf16>)
    ensures r.Ok? ==> |r.value.rest| <= |s|
  {
    if s == "" then Err(BadEscape)
    else if LetterEscape(s[0]) != 0 then Ok(Lexed(LetterEscape(s[0]), s[1..]))
    else if s[0] == 'x' then HexEscape(s[1..], 2)
    else if s[0] == 'u' then HexEscape(s[1..], 4)
    else OctalEscape(s)
  }

  /** The unit that a one-character escape stands for, 0 if there is none. */
  function LetterEscape(c: char): Utf16 {
    if c == 'b' then 8
    else if c == 'f' then 12
    else if c == 'n' then 10
    else if c == 'r' then 13
    else if c == 't' then 9
    else if c == '\'' || c == '\"' || c == '\\' || c == '/' then c as int
    else 0
  }

  function HexEscape(s: string, digits: nat): (r: Reading<Utf16>)
    ensures r.Ok? ==> |r.value.rest| <= |s|
  {
    if digits <= |s| && AllDigits(s[..digits], 16)
    then Ok(Lexed(Value(s[..digits], 16) % 0x1_0000, s[digits..]))
    else Err(BadEscape)
  }

  /** One to three octal digits. When there are three, the code leaves the third as the character to read next,
      so it is read a second time as an ordinary character. */
  function OctalEscape(s: string): (r: Reading<Utf16>)
    ensures r.Ok? ==> |r.value.rest| <= |s|
  {
    var n := OctalRun(s);
    if n == 0 then Err(BadEscape)
    else Ok(Lexed(Value(s[..n], 8) % 0x1_0000, s[if n == 3 then 2 else n..]))
  }

  function OctalRun(s: string): (n: nat)
    ensures n <= 3 && n <= |s| && AllDigits(s[..n], 8)
  {
    var n := Span(s, (c: char) => IsDigit(c, 8));
    if n > 3 then 3 else n
  }

  /** The conversion of a scanned number. */
  function ToNumber(text: string): Result<Number, ReadError> {
    if '.' in text then ToDouble(text)
    else
      var negative := text != "" && text[0] == '-';
      var digits := if negative then text[1..] else text;
      var sign := if negative then "-" else "";
      if |digits| >= 2 && digits[0] == '0' && (digits[1] == 'x' || digits[1] == 'X') then ToLong(sign + digits[2..], 16)
      else if digits == "0" then Ok(Long(0))
      else if digits != "" && digits[0] == '0' && |digits| > 1 then ToLong(sign + digits[1..], 8)
      else if 'e' in digits || 'E' in digits then ToDouble(sign + digits)
      else ToLong(sign + digits, 10)
  }

  function ToLong(text: string, radix: nat): Result<Number, ReadError> {
    match LongOf(text, radix)
    case Some(n) => Ok(Long(n))
    case None => Err(BadNumber)
  }

  /** `Double.valueOf(text)` on a text of digits, points, signs, `e`, `E`, `x` and `X`. */
  function ToDouble(text: string): Result<Number, ReadError> {
    if DecimalLiteral(text) then Ok(Decimal(text)) else Err(BadNumber)
  }

  predicate DecimalLiteral(text: string) {
    UnsignedLiteral(Unsigned(text))
  }

  predicate UnsignedLiteral(u: string) {
    var whole := DigitRun(u);
    if whole < |u| && u[whole] == '.' then
      var f := u[whole + 1..];
      0 < whole + DigitRun(f) && ExponentLiteral(f[DigitRun(f)..])
    else 0 < whole && ExponentLiteral(u[whole..])
  }

  predicate ExponentLiteral(e: string) {
    || e == ""
    || ((e[0] == 'e' || e[0] == 'E') && 0 < |Unsigned(e[1..])| == DigitRun(Unsigned(e[1..])))
  }

  class Tokenizer {
    const input: string
    /** How many characters the reader has delivered. */
    var position: nat
    /** The last character read, -1 at the end of the text. */
    var lastChar: int

    ghost predicate Valid()
      reads this
    {
      && position <= |input|
      && (lastChar == -1 ==> position == |input|)
      && (lastChar != -1 ==> position > 0 && lastChar == input[position - 1] as int)
    }

    /** The text from the last character on. */
    ghost function Rest(): (rest: string)
      requires Valid()
      reads this
      ensures rest == "" <==> lastChar == -1
    {
      if lastChar == -1 then "" else input[position - 1..]
    }

    constructor (text: string)
      ensures Valid() && Rest() == text
    {
      input := text;
      position := 0;
      lastChar := 0;
      new;
      Advance();
    }

    method Advance()
      requires position <= |input|
      modifies this
      ensures Valid() && Rest() == input[old(position)..]
    {
      if position == |input| {
        lastChar := -1;
      } else {
        lastChar := input[position] as int;
        position := position + 1;
      }
    }

    method ReadChar()
      requires Valid()
      modifies this
      ensures Valid()
      ensures Rest() == if old(Rest()) == "" then "" else old(Rest())[1..]
    {
      Advance();
    }

    predicate At(c: char)
      requires Valid()
      reads this
      ensures At(c) <==> Rest() != "" && Rest()[0] == c
    {
      lastChar == c as int
    }

    function Current(): (c: char)
      requires Valid() && Rest() != ""
      reads this
      ensures c == Rest()[0]
    {
      input[position - 1]
    }

    /** The outcome `r` and the text left are those of a reading. */
    ghost predicate Follows<T>(r: Result<T, ReadError>, reading: Reading<T>)
      requires Valid()
      reads this
    {
      match r
      case Ok(value) => reading == Ok(Lexed(value, Rest()))
      case Err(error) => reading == Err(error)
    }

    method SkipWhitespace()
      requires Valid()
      modifies this
      ensures Valid() && Rest() == old(Rest())[Span(old(Rest()), IsWhitespace)..]
    {
      ghost var start := Rest();
      ghost var skipped := 0;
      while lastChar != -1 && IsWhitespace(Current())
        invariant Valid()
        invariant skipped <= |start| && Rest() == start[skipped..]
        invariant forall i :: 0 <= i < skipped ==> IsWhitespace(start[i])
        decreases |Rest()|
      {
        ReadChar();
        skipped := skipped + 1;
      }
      SpanIs(start, IsWhitespace, skipped);
    }

    method Next() returns (r: Result<Token, ReadError>)
      requires Valid()
      modifies this
      ensures Valid() && Follows(r, NextToken(old(Rest())))
    {
      SkipWhitespace();
      if lastChar == -1 {
        ReadChar();
        return Ok(EOF);
      }
      r := ReadToken();
    }

    /** The switch over the character a token starts with. */
    method ReadToken() returns (r: Result<Token, ReadError>)
      requires Valid() && Rest() != ""
      modifies this
      ensures Valid() && Follows(r, TokenAt(old(Rest())))
    {
      var c := Current();
      if Punctuation(c) != EOF {
        ReadChar();
        return Ok(Punctuation(c));
      }
      if c == '\"' || c == '\'' {
        var units :- ReadString();
        return Ok(StringToken(units));
      }
      if StartsNumber(c) {
        var number :- ReadNumber();
        return Ok(NumberToken(number));
      }
      if StartsIdentifier(c) {
        r := ReadIdentifier();
        return;
      }
      return Err(UnexpectedCharacter);
    }

    method ReadNumber() returns (r: Result<Number, ReadError>)
      requires Valid() && Rest() != "" && StartsNumber(Rest()[0])
      modifies this
      ensures Valid()
      ensures r.Ok? ==> NumberAt(old(Rest())) == Ok(Lexed(NumberToken(r.value), Rest()))
      ensures r.Err? ==> NumberAt(old(Rest())) == Err(r.error)
    {
      var text := ReadWhile(IsNumberChar);
      return ToNumber(text);
    }

    method ReadIdentifier() returns (r: Result<Token, ReadError>)
      requires Valid() && Rest() != "" && StartsIdentifier(Rest()[0])
      modifies this
      ensures Valid() && Follows(r, IdentifierAt(old(Rest())))
    {
      var ident := ReadWhile(IsLetter);
      return Identifier(ident);
    }

    /** The loops of `readNumber` and `readIdentifier`. */
    method ReadWhile(p: char -> bool) returns (text: string)
      requires Valid()
      modifies this
      ensures Valid()
      ensures var n := Span(old(Rest()), p); text == old(Rest())[..n] && Rest() == old(Rest())[n..]
    {
      hide Span, Rest, Current;
      ghost var start := Rest();
      text := "";
      assert start == text + Rest();
      while lastChar != -1 && p(Current())
        invariant Valid() && start == text + Rest()
        invariant forall i :: 0 <= i < |text| ==> p(text[i])
        decreases |Rest()|
      {
        Shifted(text, Rest());
        text := text + [Current()];
        ReadChar();
      }
      SpanOfPrefix(text, Rest(), p);
    }

    method ReadString() returns (r: Result<Units, ReadError>)
      requires Valid() && Rest() != ""
      modifies this
      ensures Valid()
      ensures Follows(r, StringBody(old(Rest())[1..], old(Rest())[0], []))
    {
      hide StringBody, Escape, Rest, Current;
      var delim := Current();
      ghost var start := Rest()[1..];
      var read: Units := [];
      ReadChar();
      while lastChar != -1 && !At(delim)
        invariant Valid() && |Rest()| <= |start|
        invariant StringBody(start, delim, []) == StringBody(Rest(), delim, read)
        decreases |Rest()|
      {
        BodyStep(Rest(), delim, read);
        if !At('\\') {
          read := read + UnitsOf(Current());
          ReadChar();
        } else {
          ghost var before := Rest();
          ReadChar();
          assert Rest() == before[1..];
          var escape := ReadEscape();
          match escape
          case Err(error) => return Err(error);
          case Ok(unit) => read := read + [unit];
        }
      }
      BodyEnd(Rest(), delim, read);
      if lastChar == -1 {
        return Err(UnterminatedString);
      }
      ReadChar();
      return Ok(read);
    }

    method ReadEscape() returns (r: Result<Utf16, ReadError>)
      requires Valid()
      modifies this
      ensures Valid() && Follows(r, Escape(old(Rest())))
    {
      if lastChar == -1 { return Err(BadEscape); }
      var c := Current();
      if LetterEscape(c) != 0 {
        ReadChar();
        return Ok(LetterEscape(c));
      }
      if c == 'x' || c == 'u' {
        r := ReadHex(if c == 'u' then 4 else 2);
        return;
      }
      r := ReadOctal();
    }

    method ReadHex(toRead: nat) returns (r: Result<Utf16, ReadError>)
      requires Valid() && Rest() != ""
      modifies this
      ensures Valid() && Follows(r, HexEscape(old(Rest())[1..], toRead))
    {
      hide HexEscape, Value, DigitValue, IsDigit, Rest, Current;
      ghost var tail := Rest()[1..];
      var digits := "";
      assert tail == digits + Rest()[1..];
      while |digits| < toRead
        invariant Valid() && Rest() != "" && tail == digits + Rest()[1..]
        invariant |digits| <= toRead && AllDigits(digits, 16)
      {
        ReadChar();
        if lastChar == -1 || !IsDigit(Current(), 16) {
          HexFails(digits, Rest(), toRead);
          return Err(BadEscape);
        }
        Shifted(digits, Rest());
        digits := digits + [Current()];
      }
      ReadChar();
      HexSucceeds(digits, Rest());
      return Ok(Value(digits, 16) % 0x1_0000);
    }

    /** The last of the digits is still held when the loop starts over and when it ends. */
    method ReadOctal() returns (r: Result<Utf16, ReadError>)
      requires Valid() && Rest() != ""
      modifies this
      ensures Valid() && Follows(r, OctalEscape(old(Rest())))
    {
      hide OctalEscape, Value, DigitValue, IsDigit, Rest, Current;
      ghost var start := Rest();
      if !IsDigit(Current(), 8) {
        NoOctal(start);
        return Err(BadEscape);
      }
      ghost var before := "";
      assert start == before + Rest();
      var digits := [Current()];
      assert digits == before + [Current()];
      var i := 0;
      while i < 2
        invariant Valid() && Rest() != "" && start == before + Rest()
        invariant i <= 2 && |before| == i && digits == before + [Current()]
        invariant AllDigits(digits, 8)
      {
        Shifted(before, Rest());
        ReadChar();
        if lastChar == -1 || !IsDigit(Current(), 8) {
          break;
        }
        before := digits;
        digits := digits + [Current()];
        i := i + 1;
      }
      if i < 2 {
        OctalEnds(digits, Rest());
      } else {
        ThirdOctalStays(before, Rest());
      }
      return Ok(Value(digits, 8) % 0x1_0000);
    }
  }

  lemma Shifted(a: string, s: string)
    requires s != ""
    ensures a + s == a + [s[0]] + s[1..]
  {
  }

  lemma SpanOfPrefix(text: string, rest: string, p: char -> bool)
    requires forall i :: 0 <= i < |text| ==> p(text[i])
    requires rest != "" ==> !p(rest[0])
    ensures Span(text + rest, p) == |text|
    ensures (text + rest)[..|text|] == text && (text + rest)[|text|..] == rest
  {
    var s := text + rest;
    assert forall i :: 0 <= i < |text| ==> s[i] == text[i];
    assert rest != "" ==> s[|text|] == rest[0];
    SpanIs(s, p, |text|);
  }

  lemma BodyEnd(s: string, delim: char, read: Units)
    ensures s == "" ==> StringBody(s, delim, read) == Err(UnterminatedString)
    ensures s != "" && s[0] == delim ==> StringBody(s, delim, read) == Ok(Lexed(read, s[1..]))
  {
  }

  lemma BodyStep(s: string, delim: char, read: Units)
    requires s != "" && s[0] != delim
    ensures s[0] != '\\' ==> StringBody(s, delim, read) == StringBody(s[1..], delim, read + UnitsOf(s[0]))
    ensures s[0] == '\\' && Escape(s[1..]).Err? ==> StringBody(s, delim, read) == Err(Escape(s[1..]).error)
    ensures s[0] == '\\' && Escape(s[1..]).Ok? ==>
              var escape := Escape(s[1..]).value;
              StringBody(s, delim, read) == StringBody(escape.rest, delim, read + [escape.value])
  {
    hide Escape;
  }

  lemma HexFails(digits: string, rest: string, toRead: nat)
    requires |digits| < toRead
    requires rest != "" ==> !IsDigit(rest[0], 16)
    ensures HexEscape(digits + rest, toRead) == Err(BadEscape)
  {
    var s := digits + rest;
    assert toRead <= |s| ==> s[..toRead][|digits|] == rest[0];
  }

  lemma HexSucceeds(digits: string, rest: string)
    requires AllDigits(digits, 16)
    ensures HexEscape(digits + rest, |digits|) == Ok(Lexed(Value(digits, 16) % 0x1_0000, rest))
  {
    assert (digits + rest)[..|digits|] == digits && (digits + rest)[|digits|..] == rest;
  }

  lemma NoOctal(s: string)
    requires s != "" && !IsDigit(s[0], 8)
    ensures OctalEscape(s) == Err(BadEscape)
  {
  }

  lemma OctalRunIs(digits: string, rest: string)
    requires 0 < |digits| <= 3 && AllDigits(digits, 8)
    requires |digits| < 3 && rest != "" ==> !IsDigit(rest[0], 8)
    ensures OctalRun(digits + rest) == |digits| && (digits + rest)[..|digits|] == digits
  {
    var s := digits + rest;
    var isOctal := (c: char) => IsDigit(c, 8);
    assert forall i :: 0 <= i < |digits| ==> s[i] == digits[i] && isOctal(s[i]);
    if |digits| < 3 {
      SpanOfPrefix(digits, rest, isOctal);
    } else {
      assert Span(s, isOctal) >= 3;
    }
  }

  lemma OctalEscapeIs(s: string, n: nat)
    requires OctalRun(s) == n > 0
    ensures OctalEscape(s) == Ok(Lexed(Value(s[..n], 8) % 0x1_0000, s[if n == 3 then 2 else n..]))
  {
    hide Value, OctalRun;
  }

  lemma OctalEnds(digits: string, rest: string)
    requires 0 < |digits| < 3 && AllDigits(digits, 8)
    requires rest != "" ==> !IsDigit(rest[0], 8)
    ensures OctalEscape(digits + rest) == Ok(Lexed(Value(digits, 8) % 0x1_0000, rest))
  {
    hide Value, OctalRun, IsDigit, OctalEscape;
    OctalRunIs(digits, rest);
    OctalEscapeIs(digits + rest, |digits|);
    assert (digits + rest)[|digits|..] == rest;
  }

  lemma ThirdOctalStays(two: string, rest: string)
    requires |two| == 2 && rest != "" && AllDigits(two + [rest[0]], 8)
    ensures OctalEscape(two + rest) == Ok(Lexed(Value(two + [rest[0]], 8) % 0x1_0000, rest))
  {
    hide Value, OctalRun, IsDigit, OctalEscape;
    Shifted(two, rest);
    OctalRunIs(two + [rest[0]], rest[1..]);
    OctalEscapeIs(two + rest, 3);
    assert (two + rest)[2..] == rest;
  }
}
