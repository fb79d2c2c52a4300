/** The repository's parser beside the reader for RFC 8259: on every standard text they agree, but for numbers that the
    tokenizer cannot convert and for keys that occur more than once. */
module ParserAgreement {
  import opened InsertionOrder
  import opened JsonNumbers
  import opened JsonParser
  import opened JsonPrinter
  import opened JsonRoundTrip
  import opened JsonTokenizer
  import opened JsonValues
  import opened Results
  import opened Rfc8259
  import opened TokenRoundTrip

  /** The tree with the entries of every object put one by one, so that a later value of a key replaces the earlier. */
  function AsPut(v: Json): Json
    decreases v, 1
  {
    match v
    case Arr(es) => Arr(ElementsAsPut(es))
    case Obj(ms) => Obj(MembersAsPut([], ms))
    case _ => v
  }

  function ElementsAsPut(es: seq<Json>): seq<Json>
    decreases es, 0
  {
    if es == [] then [] else [AsPut(es[0])] + ElementsAsPut(es[1..])
  }

  function MembersAsPut(read: seq<Member>, ms: seq<Member>): seq<Member>
    decreases ms, 0
  {
    if ms == [] then read else MembersAsPut(Put(read, ms[0].key, AsPut(ms[0].value)), ms[1..])
  }

  // ----- tokens

  /** A letter cannot follow: what a token that ends in a letter needs. */
  predicate NoLetter(rest: string) {
    rest != "" ==> !IsLetter(rest[0])
  }

  lemma {:induction false} StringAgrees(s: string, read: Units, units: Units, rest: string)
    requires ReadString(s, false, read) == Some(Lexed(units, rest))
    ensures StringBody(s, '\"', read) == Ok(Lexed(units, rest))
    decreases |s|
  {
    if s[0] == '\"' {
    } else if s[0] != '\\' {
      StringAgrees(s[1..], read + UnitsOf(s[0]), units, rest);
    } else {
      EscapeAgrees(s[1..]);
      var escape := Rfc8259.ReadEscape(s[1..], false).value;
      StringAgrees(escape.rest, read + [escape.value], units, rest);
    }
  }

  lemma EscapeAgrees(s: string)
    requires Rfc8259.ReadEscape(s, false).Some?
    ensures Escape(s) == Ok(Rfc8259.ReadEscape(s, false).value)
  {
    if s[0] == 'u' {
      assert s[1..][..4] == s[1..5] && s[1..][4..] == s[5..];
    }
  }

  lemma NumberAgrees(s: string, n: Number, rest: string)
    requires s != "" && (s[0] == '-' || '0' <= s[0] <= '9')
    requires ReadNumber(s) == Some(Lexed(Num(n), rest))
    ensures TokenAt(s) == if Tokenizable(n) then Ok(Lexed(NumberToken(n), rest)) else Err(BadNumber)
    ensures !IsWhitespace(s[0])
  {
    Dispatch(s);
    hide NumberOf, ToNumber, TokenAt, Tokenizable;
    Converted(s[..Span(s, IsNumberChar)], n);
  }

  lemma WordAgrees(word: string, token: Token, s: string)
    requires (word, token) in {("null", Nil), ("true", True), ("false", False)}
    requires word <= s && NoLetter(s[|word|..])
    ensures TokenAt(s) == Ok(Lexed(token, s[|word|..])) && !IsWhitespace(s[0])
  {
    hide TokenAt;
    var rest := s[|word|..];
    assert s == word + rest;
    SpanOfPrefix(word, rest, IsLetter);
    Dispatch(s);
  }

  /** Blanks of the standard are skipped by both. */
  lemma BlanksAgree(s: string)
    requires var t := SkipBlanks(s); t != "" && !IsWhitespace(t[0])
    ensures NextToken(s) == TokenAt(SkipBlanks(s))
  {
    var n := Span(s, IsBlank);
    assert s == s[..n] + s[n..];
    SkipBlank(s[..n], s[n..]);
  }

  lemma PunctuationAgrees(s: string)
    requires var t := SkipBlanks(s); t != "" && Punctuation(t[0]) != EOF
    ensures var t := SkipBlanks(s); NextToken(s) == Ok(Lexed(Punctuation(t[0]), t[1..]))
    ensures NoLetter(s)
  {
    var t := SkipBlanks(s);
    Dispatch(t);
    BlanksAgree(s);
    assert s[0] == t[0] || IsBlank(s[0]);
  }

  // ----- trees

  lemma LeafAgrees(s: string, v: Json, rest: string)
    requires s != "" && s[0] != '[' && s[0] != '{'
    requires ReadValue(s, false) == Some(Lexed(v, rest)) && NoLetter(rest)
    ensures ReadsAs(s, Legible(v), AsPut(v), rest)
  {
    hide ReadString, ReadNumber, NextToken, Tokenizable, StringBody, TokenAt, IsWhitespace, ReadsAs;
    if s[0] == '\"' {
      StringLeaf(s, v.s, rest);
    } else if s[0] == '-' || '0' <= s[0] <= '9' {
      NumberIsNum(s);
      NumberAgrees(s, v.num, rest);
      NumberLeaf(s, v.num, rest);
    } else {
      var (word, token) := if "null" <= s then ("null", Nil) else if "true" <= s then ("true", True) else ("false", False);
      WordAgrees(word, token, s);
      WordLeaf(s, v, token, rest);
    }
  }

  lemma StringLeaf(s: string, units: Units, rest: string)
    requires s != "" && s[0] == '\"' && ReadString(s[1..], false, []) == Some(Lexed(units, rest))
    ensures ReadsAs(s, Legible(Str(units)), AsPut(Str(units)), rest)
  {
    hide ReadString, NextToken, StringBody;
    StringAgrees(s[1..], [], units, rest);
    Dispatch(s);
  }

  lemma NumberLeaf(s: string, n: Number, rest: string)
    requires s != "" && !IsWhitespace(s[0])
    requires TokenAt(s) == if Tokenizable(n) then Ok(Lexed(NumberToken(n), rest)) else Err(BadNumber)
    ensures ReadsAs(s, Legible(Num(n)), AsPut(Num(n)), rest)
  {
    hide NextToken, TokenAt, Tokenizable;
  }

  lemma WordLeaf(s: string, v: Json, token: Token, rest: string)
    requires s != "" && !IsWhitespace(s[0]) && TokenAt(s) == Ok(Lexed(token, rest))
    requires (v, token) in {(Null, Nil), (Bool(true), True), (Bool(false), False)}
    ensures ReadsAs(s, Legible(v), AsPut(v), rest)
  {
    hide NextToken, TokenAt;
  }

  lemma NumberIsNum(s: string)
    requires s != "" && (s[0] == '-' || '0' <= s[0] <= '9') && ReadNumber(s).Some?
    ensures ReadNumber(s).value.value.Num?
  {
  }

  lemma {:induction false} ValueAgrees(s: string, v: Json, rest: string)
    requires ReadValue(s, false) == Some(Lexed(v, rest)) && NoLetter(rest)
    ensures s != "" && ReadsAs(s, Legible(v), AsPut(v), rest)
    decreases |s|, 2
  {
    if s[0] == '[' {
      ArrayAgrees(s, v, rest);
    } else if s[0] == '{' {
      ObjectAgrees(s, v, rest);
    } else {
      LeafAgrees(s, v, rest);
    }
  }

  lemma {:induction false} ArrayAgrees(s: string, v: Json, rest: string)
    requires s != "" && s[0] == '[' && ReadArray(s, false) == Some(Lexed(v, rest))
    ensures ReadsAs(s, Legible(v), AsPut(v), rest)
    decreases |s|, 1
  {
    hide ReadElements, HeldElements, AsPut, Legible, Outcome, SkipBlanks, ReadsAs;
    var t := SkipBlanks(s[1..]);
    assert s == ['['] + s[1..];
    if t != "" && t[0] == ']' {
      PunctuationAgrees(s[1..]);
      ElementsEnd(s[1..], rest, []);
      ArrayAsPut([]);
      ContainerRead('[', s[1..], true, Arr([]), rest);
    } else {
      ElementsAgree(t, [], v, rest, [], s[1..]);
      var es := v.elements;
      assert es[0..] == es && [] + ElementsAsPut(es) == ElementsAsPut(es);
      ArrayAsPut(es);
      ContainerRead('[', s[1..], AllLegible(es), Arr(ElementsAsPut(es)), rest);
    }
  }

  lemma ArrayAsPut(es: seq<Json>)
    ensures AsPut(Arr(es)) == Arr(ElementsAsPut(es)) && (Legible(Arr(es)) <==> AllLegible(es))
  {
  }

  lemma ObjectAsPut(ms: seq<Member>)
    ensures AsPut(Obj(ms)) == Obj(MembersAsPut([], ms)) && (Legible(Obj(ms)) <==> MembersLegible(ms))
  {
  }

  /** What both readers make of the elements from some point on; `s` is the text with any blanks in front. */
  lemma {:induction false} ElementsAgree(t: string, read: seq<Json>, v: Json, rest: string, put: seq<Json>, s: string)
    requires ReadElements(t, false, read) == Some(Lexed(v, rest)) && SkipBlanks(s) == t
    ensures v.Arr? && read <= v.elements
    ensures HeldElements(s, put) ==
            Outcome(AllLegible(v.elements[|read|..]), Arr(put + ElementsAsPut(v.elements[|read|..])), rest)
    decreases |t|, 3
  {
    hide ReadValue, ReadElements, HeldElements, AsPut, Legible, AllLegible, Outcome, SkipBlanks, ReadsAs, NextToken, GoesOn, PastComma;
    StandardElement(t, read);
    var element := ReadValue(t, false).value;
    var after := SkipBlanks(element.rest);
    PunctuationAgrees(element.rest);
    ValueAgrees(t, element.value, element.rest);
    FirstOfValue(t, Legible(element.value), AsPut(element.value), element.rest);
    BlanksAgree(s);
    CommaOrClose(element.rest, BrackR);
    ElementStep(t, s, Legible(element.value), AsPut(element.value), element.rest, put);
    var more := put + [AsPut(element.value)];
    if after[0] == ',' {
      ElementsAgree(SkipBlanks(after[1..]), read + [element.value], v, rest, more, after[1..]);
      var es := v.elements[|read|..];
      OneElement(read, element.value, v.elements);
      LegibleElements(es);
      assert more + ElementsAsPut(es[1..]) == put + ElementsAsPut(es);
      Stopped(Legible(es[0]), AllLegible(es[1..]), Arr(put + ElementsAsPut(es)), rest);
    } else {
      ElementsEnd(element.rest, rest, more);
      OneElement(read, element.value, v.elements);
      var es := v.elements[|read|..];
      assert es[1..] == [];
      LegibleElements(es);
      LegibleElements(es[1..]);
      assert more == put + ElementsAsPut(es);
      Stopped(Legible(es[0]), true, Arr(put + ElementsAsPut(es)), rest);
    }
  }

  lemma OneElement(read: seq<Json>, e: Json, es: seq<Json>)
    requires read + [e] <= es
    ensures es[|read|..] != [] && es[|read|..][0] == e && es[|read|..][1..] == es[|read + [e]|..]
    ensures ElementsAsPut(es[|read|..]) == [AsPut(e)] + ElementsAsPut(es[|read|..][1..])
  {
  }

  /** What the standard reader does with one element. */
  lemma StandardElement(t: string, read: seq<Json>)
    requires ReadElements(t, false, read).Some?
    ensures ReadValue(t, false).Some?
    ensures var element := ReadValue(t, false).value;
            var after := SkipBlanks(element.rest);
            && |element.rest| < |t| && |after| <= |element.rest| && after != "" && (after[0] == ',' || after[0] == ']')
            && (after[0] == ',' ==>
                  ReadElements(t, false, read) == ReadElements(SkipBlanks(after[1..]), false, read + [element.value]))
            && (after[0] == ']' ==> ReadElements(t, false, read) == Some(Lexed(Arr(read + [element.value]), after[1..])))
  {
    hide ReadValue, SkipBlanks;
  }

  lemma CommaOrClose(after: string, close: Token)
    requires var t := SkipBlanks(after);
             t != "" && (t[0] == ',' || Punctuation(t[0]) == close) && close != Comma && close != EOF
             && NextToken(after) == Ok(Lexed(Punctuation(t[0]), t[1..]))
    ensures GoesOn(after, close)
    ensures PastComma(after) == if SkipBlanks(after)[0] == ',' then SkipBlanks(after)[1..] else after
  {
    hide NextToken, SkipBlanks;
  }

  lemma FirstOfValue(t: string, legible: bool, v: Json, rest: string)
    requires ReadsAs(t, legible, v, rest)
    ensures t != "" && !IsWhitespace(t[0])
  {
  }

  lemma {:induction false} ObjectAgrees(s: string, v: Json, rest: string)
    requires s != "" && s[0] == '{' && ReadObject(s, false) == Some(Lexed(v, rest))
    ensures ReadsAs(s, Legible(v), AsPut(v), rest)
    decreases |s|, 1
  {
    hide ReadMembers, HeldMembers, AsPut, Legible, Outcome, SkipBlanks, ReadsAs;
    var t := SkipBlanks(s[1..]);
    assert s == ['{'] + s[1..];
    if t != "" && t[0] == '}' {
      PunctuationAgrees(s[1..]);
      MembersEnd(s[1..], rest, []);
      ObjectAsPut([]);
      ContainerRead('{', s[1..], true, Obj([]), rest);
    } else {
      MembersAgree(t, [], v, rest, [], s[1..]);
      var ms := v.members;
      assert ms[0..] == ms;
      ObjectAsPut(ms);
      ContainerRead('{', s[1..], MembersLegible(ms), Obj(MembersAsPut([], ms)), rest);
    }
  }

  lemma {:induction false} MembersAgree(t: string, read: seq<Member>, v: Json, rest: string, put: seq<Member>, s: string)
    requires ReadMembers(t, false, read) == Some(Lexed(v, rest)) && SkipBlanks(s) == t
    ensures v.Obj? && read <= v.members
    ensures HeldMembers(s, put) ==
            Outcome(MembersLegible(v.members[|read|..]), Obj(MembersAsPut(put, v.members[|read|..])), rest)
    decreases |t|, 4
  {
    hide ReadMember, ReadMembers, HeldMembers, AsPut, Legible, MembersLegible, Outcome, SkipBlanks, ReadsAs, NextToken, GoesOn,
      PastComma, Put;
    StandardMember(t, read);
    var member := ReadMember(t, false).value;
    var after := SkipBlanks(member.rest);
    PunctuationAgrees(member.rest);
    CommaOrClose(member.rest, BraceR);
    MemberAgrees(t, member.value, member.rest, put, s);
    var more := Put(put, member.value.key, AsPut(member.value.value));
    if after[0] == ',' {
      MembersAgree(SkipBlanks(after[1..]), read + [member.value], v, rest, more, after[1..]);
      var ms := v.members[|read|..];
      OneMember(read, member.value, v.members, put);
      LegibleMembers(ms);
      Stopped(Legible(ms[0].value), MembersLegible(ms[1..]), Obj(MembersAsPut(put, ms)), rest);
    } else {
      MembersEnd(member.rest, rest, more);
      OneMember(read, member.value, v.members, put);
      var ms := v.members[|read|..];
      assert ms[1..] == [];
      LegibleMembers(ms);
      LegibleMembers(ms[1..]);
      Stopped(Legible(ms[0].value), true, Obj(MembersAsPut(put, ms)), rest);
    }
  }

  /** One entry: key, colon and value. */
  lemma {:induction false} MemberAgrees(t: string, m: Member, after: string, put: seq<Member>, s: string)
    requires ReadMember(t, false) == Some(Lexed(m, after)) && SkipBlanks(s) == t
    requires NoLetter(after) && GoesOn(after, BraceR)
    ensures HeldMembers(s, put) ==
            if Legible(m.value) then HeldMembers(PastComma(after), Put(put, m.key, AsPut(m.value))) else Err(BadNumber)
    decreases |t|, 3
  {
    hide ReadValue, ReadString, HeldMembers, AsPut, Legible, SkipBlanks, ReadsAs, NextToken, GoesOn, PastComma, Put, StringBody;
    var key := ReadString(t[1..], false, []).value;
    StringAgrees(t[1..], [], key.value, key.rest);
    Dispatch(t);
    BlanksAgree(s);
    PunctuationAgrees(key.rest);
    var colon := SkipBlanks(key.rest);
    var value := SkipBlanks(colon[1..]);
    ShorterBlanks(key.rest);
    ShorterBlanks(colon[1..]);
    ValueAgrees(value, m.value, after);
    FirstOfValue(value, Legible(m.value), AsPut(m.value), after);
    BlanksAgree(colon[1..]);
    MemberStep(m.key, key.rest, colon[1..], value, s, Legible(m.value), AsPut(m.value), after, put);
  }

  lemma ShorterBlanks(s: string)
    ensures |SkipBlanks(s)| <= |s|
  {
  }

  lemma OneMember(read: seq<Member>, m: Member, ms: seq<Member>, put: seq<Member>)
    requires read + [m] <= ms
    ensures ms[|read|..] != [] && ms[|read|..][0] == m && ms[|read|..][1..] == ms[|read + [m]|..]
    ensures MembersAsPut(put, ms[|read|..]) == MembersAsPut(Put(put, m.key, AsPut(m.value)), ms[|read|..][1..])
  {
  }

  lemma StandardMember(t: string, read: seq<Member>)
    requires ReadMembers(t, false, read).Some?
    ensures ReadMember(t, false).Some?
    ensures var member := ReadMember(t, false).value;
            var after := SkipBlanks(member.rest);
            && |member.rest| < |t| && |after| <= |member.rest| && after != "" && (after[0] == ',' || after[0] == '}')
            && (after[0] == ',' ==>
                  ReadMembers(t, false, read) == ReadMembers(SkipBlanks(after[1..]), false, read + [member.value]))
            && (after[0] == '}' ==> ReadMembers(t, false, read) == Some(Lexed(Obj(read + [member.value]), after[1..])))
  {
    hide ReadMember, SkipBlanks;
  }

  // ----- the theorem

  /** On every text that starts with a standard object: the parser gives that object with repeated keys put one over the
      other, or fails at a number, exactly when one has an exponent behind a leading zero and no point, or is an integer
      beyond 64 bits. Of the rest it reads one token. */
  lemma ParserAgrees(text: string, ms: seq<Member>, rest: string)
    requires ReadValue(SkipBlanks(text), false) == Some(Lexed(Obj(ms), rest))
    ensures ParseText(text) ==
            if !Legible(Obj(ms)) then Err(BadNumber)
            else if NextToken(rest).Ok? then Ok(AsPut(Obj(ms)))
            else Err(NextToken(rest).error)
  {
    hide ReadObject, ReadArray, ReadString, ReadNumber, AsPut, Legible, SkipBlanks, NextToken;
    var s := SkipBlanks(text);
    OnlyObject(s, ms, rest);
    ObjectAgrees(s, Obj(ms), rest);
    Dispatch(s);
    BlanksAgree(text);
  }

  lemma OnlyObject(s: string, ms: seq<Member>, rest: string)
    requires ReadValue(s, false) == Some(Lexed(Obj(ms), rest))
    ensures s != "" && s[0] == '{'
  {
    hide ReadObject, ReadString;
    if s[0] == '[' {
      ArrayOnly(s);
    } else if s[0] == '-' || '0' <= s[0] <= '9' {
      NumberIsNum(s);
    }
  }

  lemma ArrayOnly(s: string)
    requires s != "" && ReadArray(s, false).Some?
    ensures ReadArray(s, false).value.value.Arr?
  {
    var t := SkipBlanks(s[1..]);
    if !(t != "" && t[0] == ']') {
      ElementsOnly(t, []);
    }
  }

  lemma {:induction false} ElementsOnly(t: string, read: seq<Json>)
    requires ReadElements(t, false, read).Some?
    ensures ReadElements(t, false, read).value.value.Arr?
    decreases |t|
  {
    hide ReadValue, ReadElements, SkipBlanks;
    StandardElement(t, read);
    var element := ReadValue(t, false).value;
    var after := SkipBlanks(element.rest);
    if after[0] == ',' {
      ShorterBlanks(after[1..]);
      ElementsOnly(SkipBlanks(after[1..]), read + [element.value]);
    }
  }
}
