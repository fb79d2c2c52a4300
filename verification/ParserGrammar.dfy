/** The texts that the parser takes: a grammar for its tokens, told without the parser, which takes these and no others. */
module ParserGrammar {
  import opened InsertionOrder
  import opened JsonParser
  import opened JsonRoundTrip
  import opened JsonTokenizer
  import opened JsonValues
  import opened Results

  /** What is written: a value of one token; a list; or an object, whose keys may repeat. A comma may stand behind the last
      item. */
  datatype Tree =
    | Leaf(token: Token)
    | List(items: seq<Tree>, comma: bool)
    | Record(entries: seq<Entry>, comma: bool)

  datatype Entry = Entry(key: Units, value: Tree)

  /** Only values are leaves, and no comma stands alone. */
  predicate Proper(t: Tree)
    decreases t, 1
  {
    match t
    case Leaf(token) => token.NumberToken? || token.StringToken? || token.True? || token.False? || token.Nil?
    case List(items, comma) => (comma ==> items != []) && AllProper(items)
    case Record(entries, comma) => (comma ==> entries != []) && EntriesProper(entries)
  }

  predicate AllProper(items: seq<Tree>)
    decreases items, 0
  {
    items == [] || (Proper(items[0]) && AllProper(items[1..]))
  }

  predicate EntriesProper(entries: seq<Entry>)
    decreases entries, 0
  {
    entries == [] || (Proper(entries[0].value) && EntriesProper(entries[1..]))
  }

  // ----- how it is written

  function Spelling(t: Tree): (ts: seq<Token>)
    ensures ts != []
    decreases t, 1
  {
    match t
    case Leaf(token) => [token]
    case List(items, comma) => [BrackL] + ItemsSpelling(items, comma) + [BrackR]
    case Record(entries, comma) => [BraceL] + EntriesSpelling(entries, comma) + [BraceR]
  }

  /** A comma between two items, and behind the last one if `comma` says so. */
  function CommaIf(b: bool): seq<Token> {
    if b then [Comma] else []
  }

  function ItemsSpelling(items: seq<Tree>, comma: bool): seq<Token>
    decreases items, 0
  {
    if items == [] then []
    else Spelling(items[0]) + CommaIf(|items| > 1 || comma) + ItemsSpelling(items[1..], comma)
  }

  function EntriesSpelling(entries: seq<Entry>, comma: bool): seq<Token>
    decreases entries, 0
  {
    if entries == [] then []
    else
      [StringToken(entries[0].key), Colon] + Spelling(entries[0].value) + CommaIf(|entries| > 1 || comma)
      + EntriesSpelling(entries[1..], comma)
  }

  // ----- what it means

  function Meaning(t: Tree): Json
    requires Proper(t)
    decreases t, 1
  {
    match t
    case Leaf(NumberToken(n)) => Num(n)
    case Leaf(StringToken(s)) => Str(s)
    case Leaf(token) => if token.Nil? then Null else Bool(token.True?)
    case List(items, _) => Arr(ItemsMeaning(items))
    case Record(entries, _) => Obj(EntriesMeaning([], entries))
  }

  function ItemsMeaning(items: seq<Tree>): seq<Json>
    requires AllProper(items)
    decreases items, 0
  {
    if items == [] then [] else [Meaning(items[0])] + ItemsMeaning(items[1..])
  }

  /** The entries put one by one. */
  function EntriesMeaning(read: seq<Member>, entries: seq<Entry>): seq<Member>
    requires EntriesProper(entries)
    decreases entries, 0
  {
    if entries == [] then read
    else EntriesMeaning(Put(read, entries[0].key, Meaning(entries[0].value)), entries[1..])
  }

  // ----- texts and tokens

  /** The text starts with these tokens, and `after` is what follows them. */
  ghost predicate Lexes(s: string, ts: seq<Token>, after: string)
    decreases |ts|
  {
    if ts == [] then s == after
    else NextToken(s).Ok? && NextToken(s).value.value == ts[0] && Lexes(NextToken(s).value.rest, ts[1..], after)
  }

  /** The same with the first token held already. */
  ghost predicate Held(token: Token, rest: string, ts: seq<Token>, after: string) {
    ts != [] && ts[0] == token && Lexes(rest, ts[1..], after)
  }

  lemma {:induction false} LexesConcat(s: string, a: seq<Token>, middle: string, b: seq<Token>, after: string)
    requires Lexes(s, a, middle) && Lexes(middle, b, after)
    ensures Lexes(s, a + b, after)
    decreases |a|
  {
    hide NextToken;
    if a == [] {
      assert a + b == b;
    } else {
      LexesConcat(NextToken(s).value.rest, a[1..], middle, b, after);
      assert (a + b)[1..] == a[1..] + b;
    }
  }

  lemma {:induction false} LexesSplit(s: string, a: seq<Token>, b: seq<Token>, after: string) returns (middle: string)
    requires Lexes(s, a + b, after)
    ensures Lexes(s, a, middle) && Lexes(middle, b, after)
    decreases |a|
  {
    hide NextToken;
    if a == [] {
      assert a + b == b;
      middle := s;
    } else {
      assert (a + b)[1..] == a[1..] + b;
      middle := LexesSplit(NextToken(s).value.rest, a[1..], b, after);
    }
  }

  lemma OneLexed(s: string, token: Token, after: string)
    ensures Lexes(s, [token], after) <==> NextToken(s) == Ok(Lexed(token, after))
  {
    hide NextToken;
    assert [token][1..] == [];
    if NextToken(s).Ok? && NextToken(s).value.value == token {
      assert Lexes(NextToken(s).value.rest, [], after) <==> NextToken(s).value.rest == after;
    }
  }

  // ----- what is written by the grammar is taken

  /** What the parser makes of the value a text starts with. */
  function Taken(s: string): Parse<Json> {
    var first :- NextToken(s);
    ValueFrom(first.value, first.rest)
  }

  lemma {:induction false} TreeIsTaken(t: Tree, s: string, after: string)
    requires Proper(t) && Lexes(s, Spelling(t), after) && NextToken(after).Ok?
    ensures Taken(s) == Finish(Meaning(t), after)
    decreases t, 1
  {
    hide NextToken, ItemsSpelling, EntriesSpelling, ItemsMeaning, EntriesMeaning, ElementsFrom, MembersFrom;
    var rest := NextToken(s).value.rest;
    match t {
      case Leaf(token) =>
        OneLexed(s, token, after);
      case List(items, comma) =>
        var inner := ItemsSpelling(items, comma) + [BrackR];
        Opened(BrackL, ItemsSpelling(items, comma), BrackR);
        ItemsAreTaken(items, comma, rest, [], after);
        assert [] + ItemsMeaning(items) == ItemsMeaning(items);
      case Record(entries, comma) =>
        Opened(BraceL, EntriesSpelling(entries, comma), BraceR);
        EntriesAreTaken(entries, comma, rest, [], after);
    }
  }

  lemma Opened(open: Token, inner: seq<Token>, close: Token)
    ensures ([open] + inner + [close])[0] == open && ([open] + inner + [close])[1..] == inner + [close]
  {
  }

  /** A value does not start with a closing bracket or a comma, nor at the end of the text. */
  lemma FirstToken(t: Tree, more: seq<Token>)
    requires Proper(t)
    ensures (Spelling(t) + more)[0] == Spelling(t)[0]
    ensures Spelling(t)[0] != EOF && Spelling(t)[0] != BrackR
  {
  }

  /** A token follows an item, as a comma or a closing token does. */
  lemma NextIs(s: string, ts: seq<Token>, after: string)
    requires ts != [] && Lexes(s, ts, after)
    ensures NextToken(s).Ok? && NextToken(s).value.value == ts[0] && Lexes(NextToken(s).value.rest, ts[1..], after)
  {
  }

  /** The tokens from an item on: its own, and those behind it. */
  lemma ItemsSpelt(items: seq<Tree>, comma: bool)
    requires items != []
    ensures ItemsSpelling(items, comma) + [BrackR]
         == Spelling(items[0]) + (CommaIf(|items| > 1 || comma) + (ItemsSpelling(items[1..], comma) + [BrackR]))
  {
    hide Spelling;
  }

  lemma {:induction false} ItemsAreTaken(items: seq<Tree>, comma: bool, s: string, read: seq<Json>, after: string)
    requires AllProper(items) && Lexes(s, ItemsSpelling(items, comma) + [BrackR], after) && NextToken(after).Ok?
    ensures HeldElements(s, read) == Finish(Arr(read + ItemsMeaning(items)), after)
    decreases items, 0
  {
    hide NextToken, Spelling, Meaning, Proper, Lexes, ElementsFrom, ValueFrom, ItemsSpelling;
    if items == [] {
      assert ItemsSpelling([], comma) + [BrackR] == [BrackR] by { NoneSpelt(comma); }
      OneLexed(s, BrackR, after);
      ElementsRound(BrackR, after, read);
      assert read + [] == read;
    } else {
      var more := |items| > 1 || comma;
      var later := ItemsSpelling(items[1..], comma) + [BrackR];
      ItemsSpelt(items, comma);
      var middle := LexesSplit(s, Spelling(items[0]), CommaIf(more) + later, after);
      NextIs(middle, CommaIf(more) + later, after);
      TreeIsTaken(items[0], s, middle);
      FirstToken(items[0], []);
      NextIs(s, Spelling(items[0]), middle);
      var next := if more then NextToken(middle).value.rest else middle;
      assert Lexes(next, later, after) by {
        if more { assert ([Comma] + later)[1..] == later; } else { assert [] + later == later; }
      }
      NextIs(next, later, after);
      if !more {
        NoneSpelt(comma);
        assert items[1..] == [] && later == [BrackR];
      }
      ElementsRound(NextToken(s).value.value, NextToken(s).value.rest, read);
      ItemsAreTaken(items[1..], comma, next, read + [Meaning(items[0])], after);
      assert read + [Meaning(items[0])] + ItemsMeaning(items[1..]) == read + ItemsMeaning(items);
    }
  }

  lemma NoneSpelt(comma: bool)
    ensures ItemsSpelling([], comma) == [] && EntriesSpelling([], comma) == []
    ensures ItemsSpelling([], comma) + [BrackR] == [BrackR] && EntriesSpelling([], comma) + [BraceR] == [BraceR]
  {
  }

  lemma EntriesSpelt(entries: seq<Entry>, comma: bool)
    requires entries != []
    ensures EntriesSpelling(entries, comma) + [BraceR]
         == [StringToken(entries[0].key), Colon]
            + (Spelling(entries[0].value) + (CommaIf(|entries| > 1 || comma) + (EntriesSpelling(entries[1..], comma) + [BraceR])))
  {
    hide Spelling;
  }

  lemma {:induction false} EntriesAreTaken(entries: seq<Entry>, comma: bool, s: string, read: seq<Member>, after: string)
    requires EntriesProper(entries) && Lexes(s, EntriesSpelling(entries, comma) + [BraceR], after) && NextToken(after).Ok?
    ensures HeldMembers(s, read) == Finish(Obj(EntriesMeaning(read, entries)), after)
    decreases entries, 0
  {
    hide NextToken, Spelling, Meaning, Proper, Lexes, MembersFrom, ValueFrom, EntriesSpelling, Put;
    if entries == [] {
      NoneSpelt(comma);
      OneLexed(s, BraceR, after);
      MembersRound(BraceR, after, read);
    } else {
      var key, value := entries[0].key, entries[0].value;
      var more := |entries| > 1 || comma;
      var later := EntriesSpelling(entries[1..], comma) + [BraceR];
      EntriesSpelt(entries, comma);
      var start := LexesSplit(s, [StringToken(key), Colon], Spelling(value) + (CommaIf(more) + later), after);
      var middle := LexesSplit(start, Spelling(value), CommaIf(more) + later, after);
      NextIs(middle, CommaIf(more) + later, after);
      TreeIsTaken(value, start, middle);
      KeyTaken(key, value, s, start, middle);
      var next := if more then NextToken(middle).value.rest else middle;
      assert Lexes(next, later, after) by {
        if more { assert ([Comma] + later)[1..] == later; } else { assert [] + later == later; }
      }
      NextIs(next, later, after);
      if !more {
        NoneSpelt(comma);
        assert entries[1..] == [] && later == [BraceR];
      }
      MembersRound(NextToken(s).value.value, NextToken(s).value.rest, read);
      EntriesAreTaken(entries[1..], comma, next, Put(read, key, Meaning(value)), after);
    }
  }

  lemma KeyTaken(key: Units, value: Tree, s: string, start: string, middle: string)
    requires Lexes(s, [StringToken(key), Colon], start) && Proper(value)
    requires NextToken(middle).Ok? && Taken(start) == Finish(Meaning(value), middle)
    ensures NextToken(s).Ok? && NextToken(s).value.value == StringToken(key)
    ensures MemberFrom(StringToken(key), NextToken(s).value.rest)
         == Ok(Parsed(Member(key, Meaning(value)), NextToken(middle).value.value, NextToken(middle).value.rest))
  {
    hide NextToken, ValueFrom, Meaning, Proper;
    var colon := NextToken(s).value.rest;
    assert [StringToken(key), Colon][1..] == [Colon];
    OneLexed(colon, Colon, start);
  }

  // ----- what is taken is written by the grammar

  /** The parser, having read something, holds the token that follows `after`. */
  ghost predicate Stands<T>(parse: Parse<T>, after: string) {
    parse.Ok? && NextToken(after) == Ok(Lexed(parse.value.token, parse.value.rest))
  }

  /** What is left once the first token is held. */
  function HeldCost(s: string): nat {
    var first := NextToken(s);
    if first.Ok? then Cost(first.value.value, first.value.rest) else 0
  }

  lemma {:induction false} TakenIsTree(s: string) returns (t: Tree, after: string)
    requires Taken(s).Ok?
    ensures Proper(t) && Lexes(s, Spelling(t), after) && Stands(Taken(s), after)
    ensures NextToken(s).value.value == BraceL ==> t.Record?
    decreases HeldCost(s), 1
  {
    hide NextToken, ItemsSpelling, EntriesSpelling, ElementsFrom, MembersFrom;
    var token, rest := NextToken(s).value.value, NextToken(s).value.rest;
    if token == BrackL {
      var items, comma;
      items, comma, after := TakenIsItems(rest, []);
      Opened(BrackL, ItemsSpelling(items, comma), BrackR);
      t := List(items, comma);
    } else if token == BraceL {
      var entries, comma;
      entries, comma, after := TakenIsEntries(rest, []);
      Opened(BraceL, EntriesSpelling(entries, comma), BraceR);
      t := Record(entries, comma);
    } else {
      t, after := Leaf(token), rest;
      OneLexed(s, token, rest);
    }
  }

  /** A comma was passed over, or none. */
  lemma CommaPassed<T>(parsed: Parsed<T>, after: string, close: Token, error: ReadError) returns (more: bool, next: string)
    requires NextToken(after) == Ok(Lexed(parsed.token, parsed.rest)) && Separated(parsed, close, error).Ok?
    ensures Lexes(after, CommaIf(more), next) && Stands(Separated(parsed, close, error), next)
    ensures !more ==> Separated(parsed, close, error).value.token == close
  {
    hide NextToken;
    more := parsed.token == Comma;
    next := if more then parsed.rest else after;
    OneLexed(after, Comma, parsed.rest);
  }

  lemma {:induction false} TakenIsItems(s: string, read: seq<Json>) returns (items: seq<Tree>, comma: bool, after: string)
    requires HeldElements(s, read).Ok?
    ensures AllProper(items) && (comma ==> items != []) && (NextToken(s).value.value == BrackR ==> items == [])
    ensures Lexes(s, ItemsSpelling(items, comma) + [BrackR], after) && Stands(HeldElements(s, read), after)
    decreases HeldCost(s), 2
  {
    hide NextToken, ItemsSpelling, Spelling, ValueFrom, ElementsFrom, Separated, Lexes, Proper;
    var token, rest := NextToken(s).value.value, NextToken(s).value.rest;
    ElementsRound(token, rest, read);
    if token == BrackR {
      items, comma, after := [], false, rest;
      NoneSpelt(false);
      OneLexed(s, BrackR, rest);
    } else {
      var value := ValueFrom(token, rest).value;
      var t, middle := TakenIsTree(s);
      var more, next := CommaPassed(value, middle, BrackR, BadArray);
      var others, last;
      others, last, after := TakenIsItems(next, read + [value.value]);
      items, comma := [t] + others, if others == [] then more else last;
      assert items[1..] == others;
      NoneSpelt(last);
      NoneSpelt(more);
      ItemsSpelt(items, comma);
      var later := ItemsSpelling(others, comma) + [BrackR];
      LexesConcat(middle, CommaIf(more), next, later, after);
      LexesConcat(s, Spelling(t), middle, CommaIf(more) + later, after);
    }
  }

  lemma {:induction false} TakenIsEntries(s: string, read: seq<Member>) returns (entries: seq<Entry>, comma: bool, after: string)
    requires HeldMembers(s, read).Ok?
    ensures EntriesProper(entries) && (comma ==> entries != []) && (NextToken(s).value.value == BraceR ==> entries == [])
    ensures Lexes(s, EntriesSpelling(entries, comma) + [BraceR], after) && Stands(HeldMembers(s, read), after)
    decreases HeldCost(s), 2
  {
    hide NextToken, EntriesSpelling, Spelling, ValueFrom, MembersFrom, Separated, Lexes, Proper, Put;
    var token, rest := NextToken(s).value.value, NextToken(s).value.rest;
    MembersRound(token, rest, read);
    if token == BraceR {
      entries, comma, after := [], false, rest;
      NoneSpelt(false);
      OneLexed(s, BraceR, rest);
    } else {
      var member := MemberFrom(token, rest).value;
      var start := KeyPassed(s);
      var t, middle := TakenIsTree(start);
      var more, next := CommaPassed(member, middle, BraceR, BadObject);
      var others, last;
      others, last, after := TakenIsEntries(next, Put(read, member.value.key, member.value.value));
      entries, comma := [Entry(token.s, t)] + others, if others == [] then more else last;
      assert entries[1..] == others;
      NoneSpelt(last);
      NoneSpelt(more);
      EntriesSpelt(entries, comma);
      var later := EntriesSpelling(others, comma) + [BraceR];
      LexesConcat(middle, CommaIf(more), next, later, after);
      LexesConcat(start, Spelling(t), middle, CommaIf(more) + later, after);
      LexesConcat(s, [StringToken(token.s), Colon], start, Spelling(t) + (CommaIf(more) + later), after);
    }
  }

  lemma KeyPassed(s: string) returns (start: string)
    requires NextToken(s).Ok? && MemberFrom(NextToken(s).value.value, NextToken(s).value.rest).Ok?
    ensures var key, rest := NextToken(s).value.value, NextToken(s).value.rest;
            && key.StringToken? && Lexes(s, [key, Colon], start)
            && Taken(start).Ok? && HeldCost(start) < HeldCost(s)
            && MemberFrom(key, rest) == Ok(Parsed(Member(key.s, Taken(start).value.value), Taken(start).value.token, Taken(start).value.rest))
  {
    hide NextToken, ValueFrom;
    var key, rest := NextToken(s).value.value, NextToken(s).value.rest;
    start := NextToken(rest).value.rest;
    OneLexed(rest, Colon, start);
    assert [key, Colon][1..] == [Colon];
  }

  /** The parser takes a text if and only if it starts with an object written by the grammar, and something that can be
      read as a token, or nothing, follows; what it makes of the text is what the object means. */
  lemma ParserTakes(s: string)
    ensures ParseText(s).Ok? <==>
            exists t: Tree, after: string :: t.Record? && Proper(t) && Lexes(s, Spelling(t), after) && NextToken(after).Ok?
    ensures forall t: Tree, after: string :: t.Record? && Proper(t) && Lexes(s, Spelling(t), after) && NextToken(after).Ok? ==>
              ParseText(s) == Ok(Meaning(t))
  {
    hide NextToken, ValueFrom, Meaning, Proper, Lexes;
    if ParseText(s).Ok? {
      var t, after := TakenIsTree(s);
      assert t.Record? && Proper(t) && Lexes(s, Spelling(t), after) && NextToken(after).Ok?;
    }
    forall t: Tree, after: string | t.Record? && Proper(t) && Lexes(s, Spelling(t), after) && NextToken(after).Ok?
      ensures ParseText(s) == Ok(Meaning(t))
    {
      TreeIsTaken(t, s, after);
      NextIs(s, Spelling(t), after);
    }
  }
}
