/** What the tokenizer reads for the strings the serializer writes. */
module StringRoundTrip {
  import opened JsonPrinter
  import opened JsonTokenizer
  import opened JsonValues
  import opened Numerals
  import opened Results
  import opened Sequences

  predicate IsOctalUnit(u: Utf16) {
    '0' as int <= u <= '7' as int
  }

  /** What the tokenizer reads for a written string. U+0000 is written as backslash zero, which starts an octal
      escape: a following octal digit is taken into it, and a second one is taken in and then read again. */
  function ReadBack(u: Units): Units {
    if u == [] then []
    else if u[0] == 0 && |u| > 1 && IsOctalUnit(u[1]) then
      [if |u| > 2 && IsOctalUnit(u[2]) then 8 * (u[1] - 48) + (u[2] - 48) else u[1] - 48] + ReadBack(u[2..])
    else [u[0]] + ReadBack(u[1..])
  }

  /** No U+0000 stands right before an octal digit. */
  ghost predicate Readable(u: Units) {
    forall i :: 0 < i < |u| && u[i - 1] == 0 ==> !IsOctalUnit(u[i])
  }

  /** Only an octal digit is written as text that starts with an octal digit. */
  lemma EscapedStart(u: Utf16)
    ensures IsDigit(EscapedUnit(u)[0], 8) <==> IsOctalUnit(u)
    ensures IsOctalUnit(u) ==> EscapedUnit(u) == [u as char] && DigitValue(u as char) == u - 48
    ensures EscapedUnit(u)[0] != '\"'
  {
  }

  lemma HexDigits(u: Utf16)
    ensures var digits := RightAlignedZero(Numeral(u, 16), 4);
            |digits| == 4 && AllDigits(digits, 16) && Value(digits, 16) == u
  {
    assert Power(16, 4) == 0x1_0000 by {
      assert Power(16, 1) == 16 && Power(16, 2) == 256 && Power(16, 3) == 4096;
    }
    NumeralDenotes(u, 16);
    NumeralLength(u, 16, 4);
    ZerosKeepValue(4 - |Numeral(u, 16)|, Numeral(u, 16), 16);
  }

  lemma EscapeStep(s: string, unit: Utf16, t: string, read: Units)
    requires Escape(s) == Ok(Lexed(unit, t))
    ensures StringBody("\\" + s, '\"', read) == StringBody(t, '\"', read + [unit])
  {
    assert ("\\" + s)[1..] == s;
  }

  lemma HexEscapeRead(u: Utf16, t: string)
    ensures Escape("u" + RightAlignedZero(Numeral(u, 16), 4) + t) == Ok(Lexed(u, t))
  {
    hide Numeral, RightAlignedZero, Value;
    var digits := RightAlignedZero(Numeral(u, 16), 4);
    HexDigits(u);
    var s := "u" + digits + t;
    assert s[0] == 'u' && s[1..] == digits + t;
    assert (digits + t)[..4] == digits && (digits + t)[4..] == t;
  }

  lemma LetterEscapeRead(u: Utf16, t: string)
    requires u != 0 && |EscapedUnit(u)| == 2
    ensures Escape([EscapedUnit(u)[1]] + t) == Ok(Lexed(u, t))
  {
    var s := [EscapedUnit(u)[1]] + t;
    assert s[0] == EscapedUnit(u)[1] && s[1..] == t;
  }

  /** The three forms in which a unit is written. */
  lemma EscapedForms(u: Utf16)
    ensures |EscapedUnit(u)| == 1 ==> u <= 126 && EscapedUnit(u) == [u as char] && u != '\"' as int && u != '\\' as int
    ensures |EscapedUnit(u)| == 2 ==> EscapedUnit(u) == "\\" + [EscapedUnit(u)[1]]
    ensures |EscapedUnit(u)| == 1 || |EscapedUnit(u)| == 2
            || EscapedUnit(u) == "\\" + ("u" + RightAlignedZero(Numeral(u, 16), 4))
  {
    hide Numeral, Value, AllDigits, RightAlignedZero;
    HexDigits(u);
  }

  lemma PlainStep(c: char, t: string, read: Units)
    requires c != '\"' && c != '\\'
    ensures StringBody([c] + t, '\"', read) == StringBody(t, '\"', read + UnitsOf(c))
  {
    assert ([c] + t)[1..] == t;
  }

  lemma EscapeRead(escape: string, unit: Utf16, t: string, read: Units)
    requires Escape(escape + t) == Ok(Lexed(unit, t))
    ensures StringBody("\\" + escape + t, '\"', read) == StringBody(t, '\"', read + [unit])
  {
    hide Escape, StringBody;
    EscapeStep(escape + t, unit, t, read);
    Regroup("\\", escape, t);
  }

  /** Any unit but U+0000 is read back as itself, whatever follows. */
  lemma UnitRead(u: Utf16, t: string, read: Units)
    requires u != 0
    ensures StringBody(EscapedUnit(u) + t, '\"', read) == StringBody(t, '\"', read + [u])
  {
    EscapedForms(u);
    hide EscapedUnit, StringBody, Escape, RightAlignedZero;
    if |EscapedUnit(u)| == 1 {
      PlainStep(u as char, t, read);
    } else if |EscapedUnit(u)| == 2 {
      LetterEscapeRead(u, t);
      EscapeRead([EscapedUnit(u)[1]], u, t, read);
    } else {
      HexEscapeRead(u, t);
      EscapeRead("u" + RightAlignedZero(Numeral(u, 16), 4), u, t, read);
    }
  }

  /** What is left to read after an octal escape: a third digit is not consumed. */
  function Requeued(octal: string, t: string): string {
    if |octal| == 3 then [octal[2]] + t else t
  }

  lemma OctalEscapeRead(octal: string, t: string)
    requires 0 < |octal| <= 3 && AllDigits(octal, 8)
    requires |octal| < 3 && t != "" ==> !IsDigit(t[0], 8)
    ensures OctalEscape(octal + t)
         == Ok(Lexed(Value(octal, 8) % 0x1_0000, Requeued(octal, t)))
  {
    hide Value, IsDigit, OctalEscape;
    if |octal| == 3 {
      var two, rest := octal[..2], [octal[2]] + t;
      assert octal == two + [rest[0]] && octal + t == two + rest;
      ThirdOctalStays(two, rest);
    } else {
      OctalEnds(octal, t);
    }
  }

  /** What the tokenizer makes of a backslash and the octal digits after it. */
  lemma OctalRead(octal: string, t: string, read: Units)
    requires 0 < |octal| <= 3 && AllDigits(octal, 8)
    requires |octal| < 3 && t != "" ==> !IsDigit(t[0], 8)
    ensures StringBody("\\" + octal + t, '\"', read)
         == StringBody(Requeued(octal, t), '\"', read + [Value(octal, 8) % 0x1_0000])
  {
    OctalEscapeRead(octal, t);
    assert IsDigit((octal + t)[0], 8);
    assert Escape(octal + t) == OctalEscape(octal + t);
    EscapeStep(octal + t, Value(octal, 8) % 0x1_0000, Requeued(octal, t), read);
    Regroup("\\", octal, t);
  }

  lemma OctalValue(octal: string)
    requires 0 < |octal| <= 3 && AllDigits(octal, 8) && octal[0] == '0'
    ensures |octal| == 1 ==> Value(octal, 8) == 0
    ensures |octal| == 2 ==> Value(octal, 8) == DigitValue(octal[1])
    ensures |octal| == 3 ==> Value(octal, 8) == 8 * DigitValue(octal[1]) + DigitValue(octal[2])
  {
    assert Value(octal[..1], 8) == 0 by {
      assert octal[..1] == "" + ['0'];
      ValueOfAppended("", '0', 8);
    }
    if |octal| > 1 {
      assert octal[..2] == octal[..1] + [octal[1]];
      ValueOfAppended(octal[..1], octal[1], 8);
    }
    if |octal| > 2 {
      assert octal == octal[..2] + [octal[2]];
      ValueOfAppended(octal[..2], octal[2], 8);
    } else {
      assert octal == octal[..|octal|];
    }
  }

  lemma EscapedSplit(u: Units, rest: string)
    requires u != []
    ensures Escaped(u) + "\"" + rest == EscapedUnit(u[0]) + (Escaped(u[1..]) + "\"" + rest)
  {
    hide EscapedUnit;
    Regroup(EscapedUnit(u[0]), Escaped(u[1..]), "\"");
    Regroup(EscapedUnit(u[0]), Escaped(u[1..]) + "\"", rest);
  }

  /** Every written string is read as `ReadBack` says, and nothing after its closing quote is touched. */
  lemma {:induction false} StringRead(u: Units, rest: string, read: Units)
    ensures StringBody(Escaped(u) + "\"" + rest, '\"', read) == Ok(Lexed(read + ReadBack(u), rest))
    decreases |u|
  {
    var text := Escaped(u) + "\"" + rest;
    if u == [] {
      assert text[0] == '\"' && text[1..] == rest && read + [] == read;
    } else if u[0] != 0 {
      var t := Escaped(u[1..]) + "\"" + rest;
      EscapedSplit(u, rest);
      assert ReadBack(u) == [u[0]] + ReadBack(u[1..]);
      hide StringBody, Escaped, EscapedUnit, ReadBack;
      UnitRead(u[0], t, read);
      StringRead(u[1..], rest, read + [u[0]]);
      assert read + [u[0]] + ReadBack(u[1..]) == read + ReadBack(u);
    } else {
      NulStringRead(u, rest, read);
    }
  }

  /** The octal digits written for a leading U+0000 and the digits after it, at most three in all. */
  function Taken(u: Units): (octal: string)
    requires u != [] && u[0] == 0
    ensures 0 < |octal| <= 3 && |octal| <= |u| && AllDigits(octal, 8) && octal[0] == '0'
    ensures forall i :: 0 < i < |octal| ==> IsOctalUnit(u[i]) && octal[i] == u[i] as char
    ensures |octal| < 3 && |octal| < |u| ==> !IsOctalUnit(u[|octal|])
  {
    if |u| > 1 && IsOctalUnit(u[1]) then
      if |u| > 2 && IsOctalUnit(u[2]) then ['0', u[1] as char, u[2] as char] else ['0', u[1] as char]
    else "0"
  }

  lemma OctalDigitText(u: Units, i: nat)
    requires i < |u| && IsOctalUnit(u[i])
    ensures Escaped(u[i..]) == [u[i] as char] + Escaped(u[i + 1..])
  {
    EscapedStart(u[i]);
    assert u[i..][1..] == u[i + 1..];
  }

  lemma TakenText(u: Units)
    requires u != [] && u[0] == 0
    ensures Escaped(u) == "\\" + Taken(u) + Escaped(u[|Taken(u)|..])
  {
    var octal := Taken(u);
    assert Escaped(u) == "\\0" + Escaped(u[1..]);
    hide Escaped, Taken;
    if |octal| > 1 {
      OctalDigitText(u, 1);
      Regroup("\\0", [octal[1]], Escaped(u[2..]));
    }
    if |octal| > 2 {
      OctalDigitText(u, 2);
      Regroup("\\0" + [octal[1]], [octal[2]], Escaped(u[3..]));
      assert "\\" + octal == "\\0" + [octal[1]] + [octal[2]];
    } else if |octal| > 1 {
      assert "\\" + octal == "\\0" + [octal[1]];
    } else {
      assert "\\" + octal == "\\0";
    }
  }

  /** The unit that the digits taken stand for. */
  lemma TakenValue(u: Units)
    requires u != [] && u[0] == 0
    ensures var octal := Taken(u);
            Value(octal, 8) == if |octal| == 1 then 0 else if |octal| == 2 then u[1] - 48 else 8 * (u[1] - 48) + (u[2] - 48)
  {
    hide Taken, Value, EscapedUnit, DigitValue, AllDigits;
    var octal := Taken(u);
    OctalValue(octal);
    if |octal| > 1 {
      EscapedStart(u[1]);
    }
    if |octal| > 2 {
      EscapedStart(u[2]);
    }
  }

  lemma ReadBackAfterNul(u: Units)
    requires u != [] && u[0] == 0
    ensures ReadBack(u) == [Value(Taken(u), 8) % 0x1_0000] + ReadBack(u[if |Taken(u)| == 1 then 1 else 2..])
  {
    hide Taken, Value, ReadBack;
    TakenValue(u);
    ReadBackTaken(u);
  }

  lemma ReadBackTaken(u: Units)
    requires u != [] && u[0] == 0
    ensures var n := |Taken(u)|;
            ReadBack(u) == [if n == 1 then 0 else if n == 2 then u[1] - 48 else 8 * (u[1] - 48) + (u[2] - 48)]
                           + ReadBack(u[if n == 1 then 1 else 2..])
  {
  }

  /** What the tokenizer goes on with after the escape. */
  lemma AfterTaken(u: Units, rest: string)
    requires u != [] && u[0] == 0
    ensures var octal := Taken(u);
            var t := Escaped(u[|octal|..]) + "\"" + rest;
            && Escaped(u) + "\"" + rest == "\\" + octal + t
            && (|octal| < 3 ==> !IsDigit(t[0], 8))
            && Requeued(octal, t)
               == Escaped(u[if |octal| == 1 then 1 else 2..]) + "\"" + rest
  {
    hide Taken, Escaped, EscapedUnit;
    var octal := Taken(u);
    var after := Escaped(u[|octal|..]);
    TakenText(u);
    Regroup("\\" + octal, after, "\"");
    Regroup("\\" + octal, after + "\"", rest);
    if |octal| == 3 {
      OctalDigitText(u, 2);
      Regroup([octal[2]], after, "\"");
      Regroup([octal[2]], after + "\"", rest);
    } else {
      TextStart(u[|octal|..]);
    }
  }

  /** The text of a string and its closing quote start with an octal digit only if the string does. */
  lemma TextStart(u: Units)
    ensures (Escaped(u) + "\"")[0] == if u == [] then '\"' else EscapedUnit(u[0])[0]
    ensures u == [] || !IsOctalUnit(u[0]) ==> !IsDigit((Escaped(u) + "\"")[0], 8)
  {
    if u != [] {
      EscapedStart(u[0]);
    }
  }

  lemma {:induction false} NulStringRead(u: Units, rest: string, read: Units)
    requires u != [] && u[0] == 0
    ensures StringBody(Escaped(u) + "\"" + rest, '\"', read) == Ok(Lexed(read + ReadBack(u), rest))
    decreases |u|, 0
  {
    var octal := Taken(u);
    AfterTaken(u, rest);
    ReadBackAfterNul(u);
    OctalRead(octal, Escaped(u[|octal|..]) + "\"" + rest, read);
    var next := u[if |octal| == 1 then 1 else 2..];
    var unit := Value(octal, 8) % 0x1_0000;
    hide StringBody, ReadBack, Escaped, Taken, Value;
    StringRead(next, rest, read + [unit]);
    Regroup(read, [unit], ReadBack(next));
  }

  // ----- the shape of what is written

  /** Text with no bare quote, in which every backslash starts an escape: one more character, or u and four hex digits. */
  predicate OnlyEscapes(s: string) {
    if s == "" then true
    else if s[0] != '\\' then s[0] != '\"' && OnlyEscapes(s[1..])
    else if |s| == 1 then false
    else if s[1] != 'u' then OnlyEscapes(s[2..])
    else |s| >= 6 && AllDigits(s[2..6], 16) && OnlyEscapes(s[6..])
  }

  predicate Printable(s: string) {
    forall i :: 0 <= i < |s| ==> ' ' <= s[i] <= '~'
  }

  lemma HexFormPrintable(u: Utf16)
    ensures Printable("\\u" + RightAlignedZero(Numeral(u, 16), 4))
  {
    var digits := RightAlignedZero(Numeral(u, 16), 4);
    HexDigits(u);
    forall i | 0 <= i < |digits|
      ensures ' ' <= digits[i] <= '~'
    {
      assert IsDigit(digits[i], 16);
    }
  }

  /** Any string is written in the characters 32 to 126; its only quotes that are not escaped are the two around it. */
  lemma {:induction false} WrittenStringsAreEscaped(u: Units)
    ensures Printable(Quoted(u)) && OnlyEscapes(Escaped(u))
  {
    hide EscapedUnit;
    if u != [] {
      WrittenStringsAreEscaped(u[1..]);
      UnitIsEscaped(u[0], Escaped(u[1..]));
      assert Escaped(u[1..]) == Quoted(u[1..])[1..|Quoted(u[1..])| - 1];
    }
  }

  lemma UnitIsEscaped(u: Utf16, t: string)
    requires OnlyEscapes(t)
    ensures Printable(EscapedUnit(u)) && OnlyEscapes(EscapedUnit(u) + t)
  {
    EscapedForms(u);
    ShortForms(u);
    hide EscapedUnit, RightAlignedZero;
    if |EscapedUnit(u)| == 1 {
      PlainIsEscaped(u as char, t);
    } else if |EscapedUnit(u)| == 2 {
      LetterIsEscaped(EscapedUnit(u)[1], t);
    } else {
      HexDigits(u);
      HexFormPrintable(u);
      HexIsEscaped(RightAlignedZero(Numeral(u, 16), 4), t);
    }
  }

  lemma ShortForms(u: Utf16)
    ensures |EscapedUnit(u)| <= 2 ==> Printable(EscapedUnit(u))
    ensures |EscapedUnit(u)| == 2 ==> EscapedUnit(u)[1] != 'u'
  {
  }

  lemma PlainIsEscaped(c: char, t: string)
    requires c != '\"' && c != '\\' && OnlyEscapes(t)
    ensures OnlyEscapes([c] + t)
  {
    assert ([c] + t)[1..] == t;
  }

  lemma LetterIsEscaped(c: char, t: string)
    requires c != 'u' && OnlyEscapes(t)
    ensures OnlyEscapes("\\" + [c] + t)
  {
    assert ("\\" + [c] + t)[2..] == t;
  }

  lemma HexIsEscaped(digits: string, t: string)
    requires |digits| == 4 && AllDigits(digits, 16) && OnlyEscapes(t)
    ensures OnlyEscapes("\\" + ("u" + digits) + t)
  {
    var s := "\\" + ("u" + digits) + t;
    assert s[2..6] == digits && s[6..] == t;
  }
}
