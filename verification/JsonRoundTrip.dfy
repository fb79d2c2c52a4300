/** What the parser makes of the serializer's output, for every tree and every blank layout. */
module JsonRoundTrip {
  import opened InsertionOrder
  import opened JsonNumbers
  import opened JsonParser
  import opened JsonPrinter
  import opened JsonTokenizer
  import opened JsonValues
  import opened Results
  import opened Sequences
  import opened StringRoundTrip
  import opened TokenRoundTrip

  /** What the parser makes of a written value: strings as read back, non-finite numbers as null, and objects
      rebuilt by putting their entries one by one. */
  function AsRead(v: Json): Json
    decreases v, 1
  {
    match v
    case Num(n) => if n.IsFinite() then v else Null
    case Str(s) => Str(ReadBack(s))
    case Arr(es) => Arr(ElementsAsRead(es))
    case Obj(ms) => Obj(MembersAsRead([], ms))
    case _ => v
  }

  function ElementsAsRead(es: seq<Json>): seq<Json>
    decreases es, 0
  {
    if es == [] then [] else [AsRead(es[0])] + ElementsAsRead(es[1..])
  }

  function MembersAsRead(read: seq<Member>, ms: seq<Member>): seq<Member>
    decreases ms, 0
  {
    if ms == [] then read
    else MembersAsRead(Put(read, ReadBack(ms[0].key), AsRead(ms[0].value)), ms[1..])
  }

  // ----- trees

  /** Every number of the tree is written as a text that the tokenizer can convert. */
  ghost predicate Legible(v: Json)
    decreases v
  {
    match v
    case Num(n) => Tokenizable(n)
    case Arr(es) => forall i :: 0 <= i < |es| ==> Legible(es[i])
    case Obj(ms) => forall i :: 0 <= i < |ms| ==> Legible(ms[i].value)
    case _ => true
  }

  ghost predicate AllLegible(es: seq<Json>) {
    forall i :: 0 <= i < |es| ==> Legible(es[i])
  }

  ghost predicate MembersLegible(ms: seq<Member>) {
    forall i :: 0 <= i < |ms| ==> Legible(ms[i].value)
  }

  /** The parser goes on after the value, or a number stopped the tokenizer. */
  ghost function Outcome(legible: bool, v: Json, rest: string): Parse<Json> {
    if legible then Finish(v, rest) else Err(BadNumber)
  }

  /** The parser holds the first token of a text and reads a value from there. */
  function HeldValue(t: string): Parse<Json>
    requires t != ""
  {
    var first :- TokenAt(t);
    ValueFrom(first.value, first.rest)
  }

  function HeldElements(s: string, read: seq<Json>): Parse<Json> {
    var first :- NextToken(s);
    ElementsFrom(first.value, first.rest, read)
  }

  function HeldMembers(s: string, read: seq<Member>): Parse<Json> {
    var first :- NextToken(s);
    MembersFrom(first.value, first.rest, read)
  }

  /** What the parser does with the text of a value, held from its first token on. */
  ghost predicate ReadsAs(t: string, legible: bool, v: Json, rest: string) {
    && t != "" && !IsWhitespace(t[0])
    && (TokenAt(t).Ok? ==> TokenAt(t).value.value != BrackR)
    && HeldValue(t) == Outcome(legible, v, rest)
  }

  ghost predicate Plain(style: Style) {
    BlankHooks(style) && !style.sanitizing
  }

  /** The compact serializer writes nothing between tokens, the verbose one nothing but blanks. */
  lemma StylesArePlain()
    ensures Plain(COMPACT) && Plain(VERBOSE)
    ensures COMPACT.space == "" && forall depth: nat :: LineBreak(COMPACT, depth) == ""
  {
  }

  lemma LeafRead(v: Json, style: Style, depth: nat, rest: string)
    requires !v.Container() && Canonical(v) && EndsToken(rest)
    ensures ReadsAs(Text(v, style, depth) + rest, Legible(v), AsRead(v), rest)
  {
    hide TokenAt, NumberText, Quoted, Finish, IsWhitespace, Proper, Tokenizable;
    match v {
      case Null =>
        KeywordRead("null", Nil, rest);
      case Bool(b) =>
        KeywordRead(if b then "true" else "false", if b then True else False, rest);
      case Num(n) =>
        NumberRead(n, rest);
        NotFiniteIsLegible(n);
      case Str(s) =>
        QuotedRead(s, rest);
    }
  }

  lemma NotFiniteIsLegible(n: Number)
    ensures !n.IsFinite() ==> Tokenizable(n)
  {
  }

  /** A container reads as its opening token and then as what comes between the brackets. */
  lemma ContainerRead(open: char, inner: string, legible: bool, v: Json, rest: string)
    requires open == '[' || open == '{'
    requires (if open == '[' then HeldElements(inner, []) else HeldMembers(inner, [])) == Outcome(legible, v, rest)
    ensures ReadsAs([open] + inner, legible, v, rest)
  {
    var t := [open] + inner;
    Dispatch(t);
    assert t[1..] == inner;
    hide TokenAt, NextToken, ElementsFrom, MembersFrom, Finish;
  }

  /** For every tree, blank layout, depth and rest: the parser reads the tree as read back, or stops at a number. */
  lemma {:induction false} ValueRead(v: Json, style: Style, depth: nat, rest: string)
    requires Plain(style) && Canonical(v) && EndsToken(rest)
    ensures ReadsAs(Text(v, style, depth) + rest, Legible(v), AsRead(v), rest)
    decreases v, 1
  {
    match v {
      case Arr(es) => ArrayRead(es, style, depth, rest);
      case Obj(ms) => ObjectRead(ms, style, depth, rest);
      case _ => LeafRead(v, style, depth, rest);
    }
  }

  lemma {:induction false} ArrayRead(es: seq<Json>, style: Style, depth: nat, rest: string)
    requires Plain(style) && (forall i :: 0 <= i < |es| ==> Canonical(es[i])) && EndsToken(rest)
    ensures ReadsAs(Text(Arr(es), style, depth) + rest, Legible(Arr(es)), AsRead(Arr(es)), rest)
    decreases es, 1
  {
    hide ElementsText, LineBreak, ReadsAs, AllBlank, NextToken, Finish, HeldElements, EndsToken;
    var body, gap := ElementsText(es, style, depth + 1), LineBreak(style, depth);
    var tail := gap + "]" + rest;
    BlankBreak(style, depth);
    CloseRead(gap, ']', rest);
    ElementsRead(es, style, depth + 1, tail, rest, []);
    assert [] + ElementsAsRead(es) == ElementsAsRead(es);
    Bracketed("[", body, gap, "]", rest);
    ContainerRead('[', body + tail, AllLegible(es), Arr(ElementsAsRead(es)), rest);
  }

  lemma {:induction false} ObjectRead(ms: seq<Member>, style: Style, depth: nat, rest: string)
    requires Plain(style) && (forall i :: 0 <= i < |ms| ==> Canonical(ms[i].value)) && EndsToken(rest)
    ensures ReadsAs(Text(Obj(ms), style, depth) + rest, Legible(Obj(ms)), AsRead(Obj(ms)), rest)
    decreases ms, 1
  {
    hide MembersText, LineBreak, ReadsAs, MembersAsRead, AllBlank, NextToken, Finish, HeldMembers, EndsToken;
    var body, gap := MembersText(ms, style, depth + 1), LineBreak(style, depth);
    var tail := gap + "}" + rest;
    BlankBreak(style, depth);
    CloseRead(gap, '}', rest);
    MembersRead(ms, style, depth + 1, tail, rest, []);
    Bracketed("{", body, gap, "}", rest);
    ContainerRead('{', body + tail, MembersLegible(ms), Obj(MembersAsRead([], ms)), rest);
  }

  lemma BlankBreak(style: Style, depth: nat)
    requires Plain(style)
    ensures AllBlank(LineBreak(style, depth))
  {
  }

  lemma Bracketed(open: string, body: string, gap: string, close: string, rest: string)
    ensures open + body + gap + close + rest == open + (body + (gap + close + rest))
  {
  }

  lemma CloseRead(gap: string, close: char, rest: string)
    requires AllBlank(gap) && (close == ']' || close == '}')
    ensures EndsToken(gap + [close] + rest)
    ensures NextToken(gap + [close] + rest) == Ok(Lexed(Punctuation(close), rest))
  {
    PunctuationRead(gap, close, rest);
    var tail := gap + [close] + rest;
    assert tail[0] == if gap == "" then close else gap[0];
  }

  lemma {:induction false} ElementsRead(es: seq<Json>, style: Style, depth: nat, tail: string, rest: string, read: seq<Json>)
    requires Plain(style) && forall i :: 0 <= i < |es| ==> Canonical(es[i])
    requires EndsToken(tail) && NextToken(tail) == Ok(Lexed(BrackR, rest))
    ensures HeldElements(ElementsText(es, style, depth) + tail, read)
         == Outcome(AllLegible(es), Arr(read + ElementsAsRead(es)), rest)
    decreases es, 0
  {
    hide AsRead, Text, ElementsText, NextToken, TokenAt, IsWhitespace, HeldElements, Finish, IsNumberChar, IsLetter, Legible,
      AllLegible, Outcome, PastComma, GoesOn, LineBreak, AllBlank, Plain, ReadsAs,
      Canonical;
    LegibleElements(es);
    if es == [] {
      NoElementsText(es, style, depth, tail);
      ElementsEnd(tail, rest, read);
      assert read + ElementsAsRead(es) == read;
    } else {
      BlankBreak(style, depth);
      var more, first := |es| > 1, AsRead(es[0]);
      var later := ElementsText(es[1..], style, depth) + tail;
      if !more {
        assert later == tail by { NoElementsText(es[1..], style, depth, tail); }
      }
      var t := Text(es[0], style, depth) + (Separator(more) + later);
      AfterItem(more, later, tail, rest, BrackR);
      ValueRead(es[0], style, depth, Separator(more) + later);
      ElementsRead(es[1..], style, depth, tail, rest, read + [first]);
      ElementsSplit(es, style, depth, tail);
      SkipBlank(LineBreak(style, depth), t);
      ElementStep(t, LineBreak(style, depth) + t, Legible(es[0]), first, Separator(more) + later, read);
      assert read + [first] + ElementsAsRead(es[1..]) == read + ElementsAsRead(es);
      Stopped(Legible(es[0]), AllLegible(es[1..]), Arr(read + ElementsAsRead(es)), rest);
    }
  }

  lemma LegibleElements(es: seq<Json>)
    ensures AllLegible(es) <==> es == [] || (Legible(es[0]) && AllLegible(es[1..]))
  {
    hide Legible;
    assert forall i :: 0 < i < |es| ==> es[i] == es[1..][i - 1];
  }

  lemma LegibleMembers(ms: seq<Member>)
    ensures MembersLegible(ms) <==> ms == [] || (Legible(ms[0].value) && MembersLegible(ms[1..]))
  {
    hide Legible;
    assert forall i :: 0 < i < |ms| ==> ms[i] == ms[1..][i - 1];
  }

  lemma Stopped(first: bool, others: bool, v: Json, rest: string)
    ensures Outcome(first && others, v, rest) == if first then Outcome(others, v, rest) else Err(BadNumber)
  {
  }

  lemma ElementsEnd(tail: string, rest: string, read: seq<Json>)
    requires NextToken(tail) == Ok(Lexed(BrackR, rest))
    ensures HeldElements(tail, read) == Outcome(true, Arr(read), rest)
  {
    hide NextToken;
  }

  lemma MembersEnd(tail: string, rest: string, read: seq<Member>)
    requires NextToken(tail) == Ok(Lexed(BraceR, rest))
    ensures HeldMembers(tail, read) == Outcome(true, Obj(read), rest)
  {
    hide NextToken;
  }

  lemma NoElementsText(es: seq<Json>, style: Style, depth: nat, tail: string)
    requires es == []
    ensures ElementsText(es, style, depth) + tail == tail
  {
  }

  lemma ElementsSplit(es: seq<Json>, style: Style, depth: nat, tail: string)
    requires es != []
    ensures ElementsText(es, style, depth) + tail
         == LineBreak(style, depth)
            + (Text(es[0], style, depth) + (Separator(|es| > 1) + (ElementsText(es[1..], style, depth) + tail)))
  {
    Regrouped4(LineBreak(style, depth), Text(es[0], style, depth), Separator(|es| > 1), ElementsText(es[1..], style, depth), tail);
  }

  lemma Regrouped4(a: string, b: string, c: string, d: string, e: string)
    ensures a + b + c + d + e == a + (b + (c + (d + e)))
  {
  }

  /** The text that the parser goes on with after an element or entry. */
  function PastComma(after: string): string {
    var next := NextToken(after);
    if next.Ok? && next.value.value == Comma then next.value.rest else after
  }

  /** After an element or entry comes a comma or the closing token. */
  predicate GoesOn(after: string, close: Token) {
    var next := NextToken(after);
    next.Ok? && (next.value.value == Comma || next.value.value == close)
  }

  /** The end of a round of either loop: whether or not a comma follows, the parser goes on to hold what comes after. */
  lemma SeparatedRead<T>(value: T, after: string, close: Token, error: ReadError)
    requires close != Comma && GoesOn(after, close)
    ensures Finish(value, after).Ok?
    ensures Separated(Finish(value, after).value, close, error) == Finish(value, PastComma(after))
  {
    hide NextToken;
  }

  /** One round of the array loop. */
  lemma ElementStep(t: string, s: string, legible: bool, v: Json, after: string, read: seq<Json>)
    requires ReadsAs(t, legible, v, after) && NextToken(s) == TokenAt(t) && GoesOn(after, BrackR)
    ensures HeldElements(s, read) == if legible then HeldElements(PastComma(after), read + [v]) else Err(BadNumber)
  {
    hide TokenAt, NextToken, ValueFrom, Separated, IsWhitespace, PastComma, GoesOn;
    SeparatedRead(v, after, BrackR, BadArray);
  }

  lemma AfterItem(more: bool, later: string, tail: string, rest: string, close: Token)
    requires EndsToken(tail) && (!more ==> later == tail) && NextToken(tail) == Ok(Lexed(close, rest)) && close != Comma
    ensures EndsToken(Separator(more) + later)
    ensures GoesOn(Separator(more) + later, close) && PastComma(Separator(more) + later) == later
  {
    hide NextToken, TokenAt, IsWhitespace;
    if more {
      PunctuationRead("", ',', later);
      assert "" + [','] + later == Separator(more) + later;
      assert (Separator(more) + later)[0] == ',';
    } else {
      assert Separator(more) + later == tail;
    }
  }

  lemma {:induction false} MembersRead(ms: seq<Member>, style: Style, depth: nat, tail: string, rest: string, read: seq<Member>)
    requires Plain(style) && forall i :: 0 <= i < |ms| ==> Canonical(ms[i].value)
    requires EndsToken(tail) && NextToken(tail) == Ok(Lexed(BraceR, rest))
    ensures HeldMembers(MembersText(ms, style, depth) + tail, read)
         == Outcome(MembersLegible(ms), Obj(MembersAsRead(read, ms)), rest)
    decreases ms, 0
  {
    hide AsRead, Text, MembersText, NextToken, TokenAt, HeldMembers, Finish, IsNumberChar, IsLetter, Legible, IsWhitespace,
      MembersLegible, Outcome, ReadBack, Put, ReadsAs, LineBreak, Quoted, Canonical, PastComma, GoesOn, AllBlank, BlankHooks;
    LegibleMembers(ms);
    if ms == [] {
      NoMembersText(ms, style, depth, tail);
      MembersEnd(tail, rest, read);
    } else {
      var more := |ms| > 1;
      var m := ms[0];
      BlankBreak(style, depth);
      var later := MembersText(ms[1..], style, depth) + tail;
      if !more {
        NoMembersText(ms[1..], style, depth, tail);
      }
      var after := Separator(more) + later;
      AfterItem(more, later, tail, rest, BraceR);
      ValueRead(m.value, style, depth, after);
      var key, v := ReadBack(m.key), AsRead(m.value);
      MembersRead(ms[1..], style, depth, tail, rest, Put(read, key, v));
      MembersSplit(ms, style, depth, tail);
      var value := Text(m.value, style, depth) + after;
      var colon := ":" + (style.space + value);
      KeyRead(m.key, LineBreak(style, depth), colon);
      ColonRead(style.space + value);
      BlankSpace(style);
      SkipBlank(style.space, value);
      MemberStep(key, colon, style.space + value, value, LineBreak(style, depth) + (Quoted(m.key) + colon), Legible(m.value), v,
                 after, read);
      Stopped(Legible(m.value), MembersLegible(ms[1..]), Obj(MembersAsRead(read, ms)), rest);
    }
  }

  lemma NoMembersText(ms: seq<Member>, style: Style, depth: nat, tail: string)
    requires ms == []
    ensures MembersText(ms, style, depth) + tail == tail
  {
  }

  lemma KeyRead(key: Units, gap: string, rest: string)
    requires AllBlank(gap)
    ensures NextToken(gap + (Quoted(key) + rest)) == Ok(Lexed(StringToken(ReadBack(key)), rest))
  {
    QuotedRead(key, rest);
    SkipBlank(gap, Quoted(key) + rest);
  }

  lemma MembersSplit(ms: seq<Member>, style: Style, depth: nat, tail: string)
    requires ms != [] && !style.sanitizing
    ensures MembersText(ms, style, depth) + tail
         == LineBreak(style, depth) + (Quoted(ms[0].key) + (":" + (style.space
            + (Text(ms[0].value, style, depth) + (Separator(|ms| > 1) + (MembersText(ms[1..], style, depth) + tail))))))
  {
    var a, b, c := LineBreak(style, depth), Quoted(ms[0].key), style.space;
    var d, e, f := Text(ms[0].value, style, depth), Separator(|ms| > 1), MembersText(ms[1..], style, depth);
    assert MembersText(ms, style, depth) == a + b + ":" + c + d + e + f;
    hide *;
    Regrouped4(a + b + ":", c, d, e, f);
    Regrouped4(a + b + ":", c, d, e, f + tail);
    Regroup(a + b + ":" + c + d + e, f, tail);
    Regrouped4("", a, b, ":", c + (d + (e + (f + tail))));
    assert "" + a == a;
    assert "" + (a + (b + (":" + (c + (d + (e + (f + tail))))))) == a + (b + (":" + (c + (d + (e + (f + tail))))));
  }

  lemma ColonRead(rest: string)
    ensures NextToken(":" + rest) == Ok(Lexed(Colon, rest))
  {
    PunctuationRead("", ':', rest);
    assert "" + [':'] + rest == ":" + rest;
  }

  lemma BlankSpace(style: Style)
    requires Plain(style)
    ensures AllBlank(style.space)
  {
  }

  ghost function MemberOutcome(legible: bool, key: Units, v: Json, after: string): Parse<Member> {
    if legible then Finish(Member(key, v), after) else Err(BadNumber)
  }

  lemma MemberRead(key: Units, rest: string, s: string, value: string, legible: bool, v: Json, after: string)
    requires NextToken(rest) == Ok(Lexed(Colon, s))
    requires ReadsAs(value, legible, v, after) && NextToken(s) == TokenAt(value) && NextToken(after).Ok?
    ensures MemberFrom(StringToken(key), rest) == MemberOutcome(legible, key, v, after)
  {
    hide TokenAt, NextToken, ValueFrom, IsWhitespace;
  }

  /** One round of the object loop: `t` starts with the key, `rest` with the colon and `value` with the value. */
  lemma MemberStep(key: Units, rest: string, s: string, value: string, t: string, legible: bool, v: Json, after: string,
                   read: seq<Member>)
    requires NextToken(t) == Ok(Lexed(StringToken(key), rest)) && NextToken(rest) == Ok(Lexed(Colon, s))
    requires ReadsAs(value, legible, v, after) && NextToken(s) == TokenAt(value) && GoesOn(after, BraceR)
    ensures HeldMembers(t, read) == if legible then HeldMembers(PastComma(after), Put(read, key, v)) else Err(BadNumber)
  {
    hide TokenAt, NextToken, Put, MemberFrom, ReadsAs, Separated, PastComma;
    MemberRead(key, rest, s, value, legible, v, after);
    SeparatedRead(Member(key, v), after, BraceR, BadObject);
  }
}
