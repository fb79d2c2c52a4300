/** The serializer's output under a strict RFC 8259 reader: when it is standard JSON, and why the printer is injective. */
module StandardJson {
  import opened JsonNumbers
  import opened JsonPrinter
  import opened JsonRoundTrip
  import opened JsonTokenizer
  import opened JsonValues
  import opened Numerals
  import opened Results
  import opened Rfc8259
  import opened StringRoundTrip
  import opened TokenRoundTrip

  /** No string of the tree, keys included, contains U+0000. */
  ghost predicate NulFree(v: Json)
    decreases v
  {
    match v
    case Str(s) => 0 !in s
    case Arr(es) => forall i :: 0 <= i < |es| ==> NulFree(es[i])
    case Obj(ms) => forall i :: 0 <= i < |ms| ==> 0 !in ms[i].key && NulFree(ms[i].value)
    case _ => true
  }

  ghost predicate MemberNulFree(m: Member) {
    0 !in m.key && NulFree(m.value)
  }

  /** A reading that succeeds exactly when `accepted`. */
  ghost function If<T>(accepted: bool, value: T, rest: string): Read<T> {
    if accepted then Some(Lexed(value, rest)) else None
  }

  // ----- strings and numbers

  lemma StandardEscape(escape: string, unit: Utf16, t: string, nul: bool, read: Units)
    requires Rfc8259.ReadEscape(escape + t, nul) == Some(Lexed(unit, t))
    ensures ReadString("\\" + escape + t, nul, read) == ReadString(t, nul, read + [unit])
  {
    var s := "\\" + escape + t;
    assert s[1..] == escape + t;
  }

  lemma StandardHex(u: Utf16, t: string, nul: bool)
    ensures Rfc8259.ReadEscape("u" + RightAlignedZero(Numeral(u, 16), 4) + t, nul) == Some(Lexed(u, t))
  {
    hide RightAlignedZero, Numeral, Value;
    var digits := RightAlignedZero(Numeral(u, 16), 4);
    HexDigits(u);
    var s := "u" + digits + t;
    assert s[1..5] == digits && s[5..] == t;
  }

  lemma StandardLetter(u: Utf16, t: string, nul: bool)
    requires u != 0 && |EscapedUnit(u)| == 2
    ensures Rfc8259.ReadEscape([EscapedUnit(u)[1]] + t, nul) == Some(Lexed(u, t))
  {
    var c := EscapedUnit(u)[1];
    assert Rfc8259.OneLetter(c) == Some(u);
    assert ([c] + t)[1..] == t;
  }

  lemma StandardUnit(u: Utf16, t: string, nul: bool, read: Units)
    ensures u != 0 || nul ==> ReadString(EscapedUnit(u) + t, nul, read) == ReadString(t, nul, read + [u])
    ensures u == 0 && !nul ==> ReadString(EscapedUnit(u) + t, nul, read) == None
  {
    EscapedForms(u);
    if u == 0 {
      assert ("0" + t)[1..] == t;
      assert EscapedUnit(u) + t == "\\" + "0" + t;
      if nul {
        StandardEscape("0", u, t, nul, read);
      } else {
        assert (EscapedUnit(u) + t)[1..] == "0" + t;
      }
    } else if |EscapedUnit(u)| == 1 {
      assert ([u as char] + t)[1..] == t;
    } else if |EscapedUnit(u)| == 2 {
      hide EscapedUnit, ReadString, ReadEscape;
      StandardLetter(u, t, nul);
      StandardEscape([EscapedUnit(u)[1]], u, t, nul, read);
    } else {
      hide EscapedUnit, ReadString, ReadEscape, RightAlignedZero;
      StandardHex(u, t, nul);
      StandardEscape("u" + RightAlignedZero(Numeral(u, 16), 4), u, t, nul, read);
    }
  }

  lemma NothingEscaped(u: Units, rest: string)
    requires u == []
    ensures Escaped(u) + "\"" + rest == "\"" + rest
  {
  }

  lemma StandardStringEnd(rest: string, nul: bool, read: Units)
    ensures ReadString("\"" + rest, nul, read) == Some(Lexed(read, rest))
  {
    assert ("\"" + rest)[1..] == rest;
  }

  lemma {:induction false} StandardString(u: Units, rest: string, nul: bool, read: Units)
    ensures ReadString(Escaped(u) + "\"" + rest, nul, read) == If(nul || 0 !in u, read + u, rest)
    decreases |u|
  {
    hide ReadString, Escaped, EscapedUnit;
    if u == [] {
      StandardStringEnd(rest, nul, read);
      NothingEscaped(u, rest);
      assert read + u == read;
    } else {
      var t := Escaped(u[1..]) + "\"" + rest;
      EscapedSplit(u, rest);
      StandardUnit(u[0], t, nul, read);
      StandardString(u[1..], rest, nul, read + [u[0]]);
      assert read + [u[0]] + u[1..] == read + u;
      assert 0 in u <==> u[0] == 0 || 0 in u[1..];
    }
  }

  lemma StandardNumber(n: Number, rest: string)
    requires n.IsFinite() && Proper(n) && EndsToken(rest)
    ensures var t := NumberText(n) + rest;
            t != "" && (t[0] == '-' || '0' <= t[0] <= '9') && ReadNumber(t) == Some(Lexed(Num(n), rest))
  {
    var text := NumberText(n);
    TextDenotes(n);
    NumberStart(text);
    NoLeadingPoint(text);
    hide NumberText, NumberOf, IsNumber, Span, Proper;
    SpanOfPrefix(text, rest, IsNumberChar);
    assert (text + rest)[0] == text[0];
  }

  lemma NoLeadingPoint(text: string)
    requires IsNumber(text)
    ensures text != "" && (text[0] == '-' || '0' <= text[0] <= '9')
  {
  }

  // ----- trees

  lemma {:induction false} SkipBlanksRead(ws: string, t: string)
    requires AllBlank(ws) && t != "" && !IsBlank(t[0])
    ensures SkipBlanks(ws + t) == t
  {
    var s := ws + t;
    assert forall i :: 0 <= i < |ws| ==> s[i] == ws[i];
    assert s[|ws|] == t[0];
    SpanIs(s, IsBlank, |ws|);
  }

  /** The strict reader reads `v` off the front of `t` if `accepted`, and otherwise refuses. */
  ghost predicate Reads(t: string, accepted: bool, v: Json, rest: string, nul: bool) {
    && t != "" && !IsBlank(t[0]) && t[0] != ']' && t[0] != '}'
    && ReadValue(t, nul) == If(accepted, v, rest)
  }

  lemma StandardQuoted(u: Units, rest: string, nul: bool)
    ensures var t := Quoted(u) + rest;
            t != "" && t[0] == '\"' && ReadString(t[1..], nul, []) == If(nul || 0 !in u, u, rest)
  {
    hide ReadString, Escaped;
    StandardString(u, rest, nul, []);
    assert [] + u == u;
    assert (Quoted(u) + rest)[1..] == Escaped(u) + "\"" + rest;
  }

  lemma StandardKeyword(word: string, v: Json, rest: string, nul: bool)
    requires (word, v) in {("null", Null), ("true", Bool(true)), ("false", Bool(false))}
    ensures Reads(word + rest, true, v, rest, nul)
  {
    assert (word + rest)[|word|..] == rest && (word + rest)[0] == word[0];
    assert word <= word + rest;
  }

  lemma StandardStr(u: Units, rest: string, nul: bool)
    ensures Reads(Quoted(u) + rest, nul || 0 !in u, Str(u), rest, nul)
  {
    hide ReadString, Quoted;
    StandardQuoted(u, rest, nul);
  }

  lemma StandardNum(n: Number, rest: string, nul: bool)
    requires n.IsFinite() && Proper(n) && EndsToken(rest)
    ensures Reads(NumberText(n) + rest, true, Num(n), rest, nul)
  {
    hide NumberText, ReadNumber, Proper;
    StandardNumber(n, rest);
  }

  lemma StandardLeaf(v: Json, style: Style, depth: nat, rest: string, nul: bool)
    requires !v.Container() && Canonical(v) && Finite(v) && EndsToken(rest)
    ensures Reads(Text(v, style, depth) + rest, nul || NulFree(v), v, rest, nul)
  {
    hide Reads, Quoted, NumberText, Proper;
    match v {
      case Null => StandardKeyword("null", v, rest, nul);
      case Bool(b) => StandardKeyword(if b then "true" else "false", v, rest, nul);
      case Num(n) => StandardNum(n, rest, nul);
      case Str(s) => StandardStr(s, rest, nul);
    }
  }

  lemma {:induction false} StandardValue(v: Json, style: Style, depth: nat, rest: string, nul: bool)
    requires Plain(style) && Canonical(v) && Finite(v) && EndsToken(rest)
    ensures Reads(Text(v, style, depth) + rest, nul || NulFree(v), v, rest, nul)
    decreases v, 1
  {
    match v {
      case Arr(es) => StandardArray(es, style, depth, rest, nul);
      case Obj(ms) => StandardObject(ms, style, depth, rest, nul);
      case _ => StandardLeaf(v, style, depth, rest, nul);
    }
  }

  ghost predicate AllNulFree(es: seq<Json>) {
    forall i :: 0 <= i < |es| ==> NulFree(es[i])
  }

  lemma AllNulFreeSplit(es: seq<Json>)
    requires es != []
    ensures AllNulFree(es) <==> NulFree(es[0]) && AllNulFree(es[1..])
  {
    hide NulFree;
    assert forall i :: 0 < i < |es| ==> es[i] == es[1..][i - 1];
  }

  ghost predicate MembersNulFree(ms: seq<Member>) {
    forall i :: 0 <= i < |ms| ==> MemberNulFree(ms[i])
  }

  lemma MembersNulFreeSplit(ms: seq<Member>)
    requires ms != []
    ensures MembersNulFree(ms) <==> MemberNulFree(ms[0]) && MembersNulFree(ms[1..])
  {
    hide MemberNulFree;
    assert forall i :: 0 < i < |ms| ==> ms[i] == ms[1..][i - 1];
  }

  /** A container is read by what comes after its opening bracket and any blanks. */
  lemma StandardArrayOpen(inner: string, accepted: bool, es: seq<Json>, rest: string, nul: bool)
    requires var w := SkipBlanks(inner);
             && w != ""
             && if w[0] == ']' then accepted && es == [] && w[1..] == rest
                else ReadElements(w, nul, []) == If(accepted, Arr(es), rest)
    ensures Reads("[" + inner, accepted, Arr(es), rest, nul)
  {
    var t := "[" + inner;
    assert t[0] == '[' && t[1..] == inner;
    assert ReadValue(t, nul) == ReadArray(t, nul);
    hide SkipBlanks, ReadElements;
    assert ReadArray(t, nul) == If(accepted, Arr(es), rest);
  }

  lemma StandardObjectOpen(inner: string, accepted: bool, ms: seq<Member>, rest: string, nul: bool)
    requires var w := SkipBlanks(inner);
             && w != ""
             && if w[0] == '}' then accepted && ms == [] && w[1..] == rest
                else ReadMembers(w, nul, []) == If(accepted, Obj(ms), rest)
    ensures Reads("{" + inner, accepted, Obj(ms), rest, nul)
  {
    var t := "{" + inner;
    assert t[0] == '{' && t[1..] == inner;
    assert ReadValue(t, nul) == ReadObject(t, nul);
    hide SkipBlanks, ReadMembers;
    assert ReadObject(t, nul) == If(accepted, Obj(ms), rest);
  }

  lemma ArrayShape(es: seq<Json>, style: Style, depth: nat)
    ensures Text(Arr(es), style, depth) == "[" + ElementsText(es, style, depth + 1) + LineBreak(style, depth) + "]"
    ensures NulFree(Arr(es)) <==> AllNulFree(es)
  {
  }

  lemma ObjectShape(ms: seq<Member>, style: Style, depth: nat)
    ensures Text(Obj(ms), style, depth) == "{" + MembersText(ms, style, depth + 1) + LineBreak(style, depth) + "}"
    ensures NulFree(Obj(ms)) <==> MembersNulFree(ms)
  {
  }

  lemma {:induction false} StandardArray(es: seq<Json>, style: Style, depth: nat, rest: string, nul: bool)
    requires Plain(style) && EndsToken(rest)
    requires forall i :: 0 <= i < |es| ==> Canonical(es[i]) && Finite(es[i])
    ensures Reads(Text(Arr(es), style, depth) + rest, nul || NulFree(Arr(es)), Arr(es), rest, nul)
    decreases es, 1
  {
    hide Text, ElementsText, LineBreak, ReadElements, NulFree, AllNulFree, Canonical, Finite, Reads, AllBlank, SkipBlanks, EndsToken;
    var body, gap := ElementsText(es, style, depth + 1), LineBreak(style, depth);
    var tail := gap + "]" + rest;
    ArrayShape(es, style, depth);
    BlankBreak(style, depth);
    Bracketed("[", body, gap, "]", rest);
    if es == [] {
      NoElementsText(es, style, depth + 1, tail);
      StandardAfter(gap, ']', rest, false, tail);
      assert Separator(false) + tail == tail;
      NoElements(es);
    } else {
      StandardElements(es, style, depth + 1, gap, rest, nul, []);
      assert [] + es == es;
    }
    StandardArrayOpen(body + tail, nul || AllNulFree(es), es, rest, nul);
  }

  lemma {:induction false} StandardElements(es: seq<Json>, style: Style, depth: nat, gap: string, rest: string, nul: bool,
                                            read: seq<Json>)
    requires es != [] && Plain(style) && AllBlank(gap)
    requires forall i :: 0 <= i < |es| ==> Canonical(es[i]) && Finite(es[i])
    ensures var s := SkipBlanks(ElementsText(es, style, depth) + (gap + "]" + rest));
            && s != "" && s[0] != ']'
            && ReadElements(s, nul, read) == If(nul || AllNulFree(es), Arr(read + es), rest)
    decreases es, 0
  {
    hide Text, ElementsText, ReadElements, NulFree, AllNulFree, Canonical, Finite, IsNumberChar, IsLetter, SkipBlanks, AllBlank;
    var tail := gap + "]" + rest;
    var more := |es| > 1;
    var later := ElementsText(es[1..], style, depth) + tail;
    var after := Separator(more) + later;
    var t := Text(es[0], style, depth) + after;
    BlankBreak(style, depth);
    hide LineBreak;
    if !more {
      NoElementsText(es[1..], style, depth, tail);
    }
    StandardAfter(gap, ']', rest, more, later);
    ElementsSplit(es, style, depth, tail);
    StandardValue(es[0], style, depth, after, nul);
    SkipBlanksRead(LineBreak(style, depth), t);
    AllNulFreeSplit(es);
    ElementRound(t, nul || NulFree(es[0]), es[0], after, nul, read);
    if more {
      StandardElements(es[1..], style, depth, gap, rest, nul, read + [es[0]]);
      assert read + [es[0]] + es[1..] == read + es;
    } else {
      assert AllNulFree(es[1..]) by { NoElements(es[1..]); }
      assert read + [es[0]] == read + es;
    }
  }

  lemma NoElements(es: seq<Json>)
    requires es == []
    ensures AllNulFree(es)
  {
  }

  lemma PlainStyle(style: Style, depth: nat)
    requires Plain(style)
    ensures AllBlank(style.space) && AllBlank(LineBreak(style, depth)) && !style.sanitizing
  {
  }

  lemma QuoteFirst(key: Units, rest: string)
    ensures Quoted(key) + rest != "" && (Quoted(key) + rest)[0] == '\"'
  {
  }

  lemma BothNulFree(m: Member, nul: bool)
    ensures (nul || 0 !in m.key) && (nul || NulFree(m.value)) <==> nul || MemberNulFree(m)
  {
  }

  /** One round of `ReadElements`. */
  lemma ElementRound(t: string, accepted: bool, v: Json, after: string, nul: bool, read: seq<Json>)
    requires Reads(t, accepted, v, after, nul)
    ensures ReadElements(t, nul, read) ==
            if !accepted then None
            else
              var w := SkipBlanks(after);
              if w != "" && w[0] == ',' then ReadElements(SkipBlanks(w[1..]), nul, read + [v])
              else if w != "" && w[0] == ']' then Some(Lexed(Arr(read + [v]), w[1..]))
              else None
  {
    hide ReadValue, SkipBlanks;
  }

  lemma CommaFirst(later: string)
    ensures EndsToken(Separator(true) + later)
    ensures SkipBlanks(Separator(true) + later) == [','] + later && ([','] + later)[1..] == later
  {
    var s := [','] + later;
    assert Separator(true) + later == s && (Separator(true) + later)[0] == ',';
    assert !IsNumberChar(',') && !IsLetter(',');
    SkipBlanksRead("", s);
    assert "" + s == s;
  }

  /** What comes after an element or entry, blanks skipped: a comma and the rest, or the closing bracket. */
  lemma StandardAfter(gap: string, close: char, rest: string, more: bool, later: string)
    requires AllBlank(gap) && (close == ']' || close == '}')
    requires !more ==> later == gap + [close] + rest
    ensures EndsToken(Separator(more) + later)
    ensures var w := SkipBlanks(Separator(more) + later);
            w != "" && w[0] == (if more then ',' else close) && w[1..] == if more then later else rest
  {
    if more {
      CommaFirst(later);
    } else {
      SkipBlanksRead(gap, [close] + rest);
      assert Separator(more) + later == gap + ([close] + rest);
      assert later[0] == if gap == "" then close else gap[0];
    }
  }

  lemma {:induction false} StandardObject(ms: seq<Member>, style: Style, depth: nat, rest: string, nul: bool)
    requires Plain(style) && EndsToken(rest)
    requires forall i :: 0 <= i < |ms| ==> Canonical(ms[i].value) && Finite(ms[i].value)
    ensures Reads(Text(Obj(ms), style, depth) + rest, nul || NulFree(Obj(ms)), Obj(ms), rest, nul)
    decreases ms, 1
  {
    hide Text, MembersText, LineBreak, ReadMembers, NulFree, MembersNulFree, Canonical, Finite, Reads, AllBlank, SkipBlanks, EndsToken;
    var body, gap := MembersText(ms, style, depth + 1), LineBreak(style, depth);
    var tail := gap + "}" + rest;
    ObjectShape(ms, style, depth);
    BlankBreak(style, depth);
    Bracketed("{", body, gap, "}", rest);
    if ms == [] {
      NoMembersText(ms, style, depth + 1, tail);
      StandardAfter(gap, '}', rest, false, tail);
      assert Separator(false) + tail == tail;
      NoMembers(ms);
    } else {
      StandardMembers(ms, style, depth + 1, gap, rest, nul, []);
      assert [] + ms == ms;
    }
    StandardObjectOpen(body + tail, nul || MembersNulFree(ms), ms, rest, nul);
  }

  lemma {:induction false} StandardMembers(ms: seq<Member>, style: Style, depth: nat, gap: string, rest: string, nul: bool,
                                           read: seq<Member>)
    requires ms != [] && Plain(style) && AllBlank(gap)
    requires forall i :: 0 <= i < |ms| ==> Canonical(ms[i].value) && Finite(ms[i].value)
    ensures var s := SkipBlanks(MembersText(ms, style, depth) + (gap + "}" + rest));
            && s != "" && s[0] != '}'
            && ReadMembers(s, nul, read) == If(nul || MembersNulFree(ms), Obj(read + ms), rest)
    decreases ms, 0
  {
    hide Text, MembersText, ReadMembers, NulFree, MembersNulFree, MemberNulFree, Canonical, Finite, SkipBlanks, AllBlank,
      LineBreak, Quoted, Plain, EndsToken, Reads, ReadMember;
    var tail := gap + "}" + rest;
    var more := |ms| > 1;
    var m := ms[0];
    var later := MembersText(ms[1..], style, depth) + tail;
    var after := Separator(more) + later;
    var value := Text(m.value, style, depth) + after;
    var t := Quoted(m.key) + (":" + (style.space + value));
    PlainStyle(style, depth);
    QuoteFirst(m.key, ":" + (style.space + value));
    if !more {
      NoMembersText(ms[1..], style, depth, tail);
    }
    StandardAfter(gap, '}', rest, more, later);
    MembersSplit(ms, style, depth, tail);
    StandardValue(m.value, style, depth, after, nul);
    SkipBlanksRead(LineBreak(style, depth), t);
    StandardMember(m, style.space, value, nul || NulFree(m.value), after, nul);
    MembersNulFreeSplit(ms);
    BothNulFree(m, nul);
    MemberRound(t, nul || MemberNulFree(m), m, after, nul, read);
    if more {
      StandardMembers(ms[1..], style, depth, gap, rest, nul, read + [m]);
      assert read + [m] + ms[1..] == read + ms;
    } else {
      assert MembersNulFree(ms[1..]) by { NoMembers(ms[1..]); }
      assert read + [m] == read + ms;
    }
  }

  lemma NoMembers(ms: seq<Member>)
    requires ms == []
    ensures MembersNulFree(ms)
  {
  }

  lemma NoMembersText(ms: seq<Member>, style: Style, depth: nat, tail: string)
    requires ms == []
    ensures MembersText(ms, style, depth) + tail == tail
  {
  }

  lemma StandardMember(m: Member, space: string, value: string, accepted: bool, after: string, nul: bool)
    requires AllBlank(space) && Reads(value, accepted, m.value, after, nul)
    ensures ReadMember(Quoted(m.key) + (":" + (space + value)), nul) == If((nul || 0 !in m.key) && accepted, m, after)
  {
    hide ReadString, ReadValue, SkipBlanks, Quoted, AllBlank;
    var colon := ":" + (space + value);
    StandardQuoted(m.key, colon, nul);
    ColonSkipped(space + value);
    SkipBlanksRead(space, value);
  }

  lemma ColonSkipped(rest: string)
    ensures SkipBlanks(":" + rest) == ":" + rest && (":" + rest)[1..] == rest
  {
    SkipBlanksRead("", ":" + rest);
    assert "" + (":" + rest) == ":" + rest;
  }

  /** One round of `ReadMembers`. */
  lemma MemberRound(t: string, accepted: bool, m: Member, after: string, nul: bool, read: seq<Member>)
    requires ReadMember(t, nul) == If(accepted, m, after)
    ensures ReadMembers(t, nul, read) ==
            if !accepted then None
            else
              var w := SkipBlanks(after);
              if w != "" && w[0] == ',' then ReadMembers(SkipBlanks(w[1..]), nul, read + [m])
              else if w != "" && w[0] == '}' then Some(Lexed(Obj(read + [m]), w[1..]))
              else None
  {
    hide ReadMember, SkipBlanks;
  }

  // ----- numbers that are not finite

  /** The tree with null for every number that is not finite. */
  function Nulled(v: Json): Json
    decreases v, 1
  {
    match v
    case Num(n) => if n.IsFinite() then v else Null
    case Arr(es) => Arr(NulledElements(es))
    case Obj(ms) => Obj(NulledMembers(ms))
    case _ => v
  }

  function NulledElements(es: seq<Json>): (rs: seq<Json>)
    ensures |rs| == |es| && forall i :: 0 <= i < |es| ==> rs[i] == Nulled(es[i])
    decreases es, 0
  {
    if es == [] then [] else [Nulled(es[0])] + NulledElements(es[1..])
  }

  function NulledMembers(ms: seq<Member>): (rs: seq<Member>)
    ensures |rs| == |ms| && forall i :: 0 <= i < |ms| ==> rs[i] == Member(ms[i].key, Nulled(ms[i].value))
    decreases ms, 0
  {
    if ms == [] then [] else [Member(ms[0].key, Nulled(ms[0].value))] + NulledMembers(ms[1..])
  }

  lemma {:induction false} NulledPrintsAlike(v: Json, style: Style, depth: nat)
    requires !style.sanitizing
    ensures Text(Nulled(v), style, depth) == Text(v, style, depth)
    decreases v, 1
  {
    match v {
      case Arr(es) => NulledElementsPrintAlike(es, style, depth + 1);
      case Obj(ms) => NulledMembersPrintAlike(ms, style, depth + 1);
      case _ =>
    }
  }

  lemma {:induction false} NulledElementsPrintAlike(es: seq<Json>, style: Style, depth: nat)
    requires !style.sanitizing
    ensures ElementsText(NulledElements(es), style, depth) == ElementsText(es, style, depth)
    decreases es, 0
  {
    hide Text, Nulled, LineBreak;
    if es != [] {
      NulledPrintsAlike(es[0], style, depth);
      NulledElementsPrintAlike(es[1..], style, depth);
      assert NulledElements(es)[1..] == NulledElements(es[1..]);
    }
  }

  lemma {:induction false} NulledMembersPrintAlike(ms: seq<Member>, style: Style, depth: nat)
    requires !style.sanitizing
    ensures MembersText(NulledMembers(ms), style, depth) == MembersText(ms, style, depth)
    decreases ms, 0
  {
    hide Text, Nulled, LineBreak, Quoted;
    if ms != [] {
      NulledPrintsAlike(ms[0].value, style, depth);
      NulledMembersPrintAlike(ms[1..], style, depth);
      assert NulledMembers(ms)[1..] == NulledMembers(ms[1..]);
    }
  }

  lemma {:induction false} NulledIsFinite(v: Json)
    ensures Finite(Nulled(v)) && (Canonical(v) ==> Canonical(Nulled(v))) && (NulFree(Nulled(v)) <==> NulFree(v))
    ensures Finite(v) <==> Nulled(v) == v
    decreases v
  {
    hide Proper;
    match v {
      case Arr(es) =>
        forall i | 0 <= i < |es|
          ensures var w := NulledElements(es)[i];
                  && Finite(w) && (Canonical(es[i]) ==> Canonical(w)) && (NulFree(w) <==> NulFree(es[i]))
                  && (Finite(es[i]) <==> w == es[i])
        {
          NulledIsFinite(es[i]);
        }
      case Obj(ms) =>
        forall i | 0 <= i < |ms|
          ensures var w := NulledMembers(ms)[i].value;
                  && Finite(w) && (Canonical(ms[i].value) ==> Canonical(w)) && (NulFree(w) <==> NulFree(ms[i].value))
                  && (Finite(ms[i].value) <==> NulledMembers(ms)[i] == ms[i])
        {
          NulledIsFinite(ms[i].value);
        }
      case _ =>
    }
  }

  // ----- the theorems

  /** For every tree, in every blank layout, followed by any text that ends a token: the strict reader returns exactly
      the tree, with null for numbers that are not finite, and exactly that text, if and only if no string contains
      U+0000; and always if it also takes backslash zero. */
  lemma StandardReading(v: Json, style: Style, depth: nat, rest: string)
    requires Plain(style) && Canonical(v) && EndsToken(rest)
    ensures ReadValue(Text(v, style, depth) + rest, true) == Some(Lexed(Nulled(v), rest))
    ensures ReadValue(Text(v, style, depth) + rest, false) == if NulFree(v) then Some(Lexed(Nulled(v), rest)) else None
  {
    NulledIsFinite(v);
    NulledPrintsAlike(v, style, depth);
    StandardValue(Nulled(v), style, depth, rest, true);
    StandardValue(Nulled(v), style, depth, rest, false);
  }

  /** Texts are equal only for the same tree and the same text after it, even in different layouts; the one thing that
      does not show is which of the numbers that are not finite stood where null is. */
  lemma PrinterIsInjective(v: Json, w: Json, style: Style, other: Style, rest: string, rest': string)
    requires Plain(style) && Plain(other)
    requires Canonical(v) && Canonical(w)
    requires EndsToken(rest) && EndsToken(rest')
    requires Text(v, style, 0) + rest == Text(w, other, 0) + rest'
    ensures Nulled(v) == Nulled(w) && rest == rest'
    ensures Finite(v) && Finite(w) ==> v == w
  {
    hide Text, ReadValue, Nulled, Canonical, Finite, Plain, EndsToken;
    StandardReading(v, style, 0, rest);
    StandardReading(w, other, 0, rest');
    NulledIsFinite(v);
    NulledIsFinite(w);
  }

  /** In one layout, two trees are written alike if and only if they are the same but for numbers that are not finite. */
  lemma SameText(v: Json, w: Json, style: Style, depth: nat)
    requires Plain(style) && Canonical(v) && Canonical(w)
    ensures Text(v, style, depth) == Text(w, style, depth) <==> Nulled(v) == Nulled(w)
  {
    hide Text, ReadValue, Nulled, Canonical, BlankHooks;
    StandardReading(v, style, depth, "");
    StandardReading(w, style, depth, "");
    NulledPrintsAlike(v, style, depth);
    NulledPrintsAlike(w, style, depth);
  }
}
