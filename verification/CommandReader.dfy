/** Reading a generated type-2 command back into what its object held. */
module CommandReader {
  import opened CommandMeaning
  import opened CommandReading
  import opened CommandText
  import opened CommandTokens
  import opened CommandWords
  import opened Results
  import opened Type2Command

  // ----- the reader

  /** What stands between the commas of a clause: a word, or a name with a value in brackets. */
  datatype Item = Alone(word: string) | Pair(name: string, value: string)

  datatype ClauseRead = ClauseRead(name: string, items: seq<Item>)

  datatype CommandRead = CommandRead(verb: string, resource: string, clauses: seq<ClauseRead>, routes: seq<Item>)

  datatype Rest<+T> = Rest(value: T, tokens: seq<Token>)

  function ReadItem(ts: seq<Token>): (r: Option<Rest<Item>>)
    ensures r.Some? ==> |r.value.tokens| < |ts|
  {
    if ts == [] || !ts[0].Word? then None
    else if |ts| > 3 && ts[1] == Open && ts[2].Word? && ts[3] == Close then Some(Rest(Pair(ts[0].text, ts[2].text), ts[4..]))
    else Some(Rest(Alone(ts[0].text), ts[1..]))
  }

  /** The items up to the closing bracket. */
  function ReadItems(ts: seq<Token>): (r: Option<Rest<seq<Item>>>)
    ensures r.Some? ==> |r.value.tokens| < |ts|
    decreases |ts|
  {
    var first :- ReadItem(ts);
    if first.tokens == [] then None
    else if first.tokens[0] == Close then Some(Rest([first.value], first.tokens[1..]))
    else if first.tokens[0] != Comma then None
    else
      var others :- ReadItems(first.tokens[1..]);
      Some(Rest([first.value] + others.value, others.tokens))
  }

  /** A word and the items in the brackets after it, which may be empty. */
  function ReadClause(ts: seq<Token>): (r: Option<Rest<ClauseRead>>)
    ensures r.Some? ==> |r.value.tokens| < |ts|
  {
    if |ts| < 3 || !ts[0].Word? || ts[1] != Open then None
    else if ts[2] == Close then Some(Rest(ClauseRead(ts[0].text, []), ts[3..]))
    else
      var items :- ReadItems(ts[2..]);
      Some(Rest(ClauseRead(ts[0].text, items.value), items.tokens))
  }

  /** The clauses up to the closing bracket. */
  function ReadClauses(ts: seq<Token>): Option<Rest<seq<ClauseRead>>>
    decreases |ts|
  {
    if ts == [] then None
    else if ts[0] == Close then Some(Rest([], ts[1..]))
    else
      var first :- ReadClause(ts);
      var others :- ReadClauses(first.tokens);
      Some(Rest([first.value] + others.value, others.tokens))
  }

  function ReadCommand(text: string): Option<CommandRead> {
    var ts := Tokens(text);
    if |ts| < 4 || ts[0] != Word("CMD") || ts[1] != Open || !ts[2].Word? || !ts[3].Word? then None
    else
      var clauses :- ReadClauses(ts[4..]);
      if clauses.tokens == [] then Some(CommandRead(ts[2].text, ts[3].text, clauses.value, []))
      else
        var routes :- ReadClause(clauses.tokens);
        if routes.value.name != "ROUTE" || routes.tokens != [] then None
        else Some(CommandRead(ts[2].text, ts[3].text, clauses.value, routes.value.items))
  }

  // ----- what a command holds

  /** A name without its digits. */
  function Letters(s: string): string {
    if s == "" then "" else Letters(s[..|s| - 1]) + if '0' <= s[|s| - 1] <= '9' then "" else [s[|s| - 1]]
  }

  /** The same letters, small or capital; `capitals` are capitals. */
  predicate SpeltLike(s: string, capitals: string) {
    |s| == |capitals| && forall i :: 0 <= i < |s| ==> s[i] == capitals[i] || s[i] as int == capitals[i] as int + 32
  }

  /** Dashes instead of underscores. */
  function Dashes(s: string): string {
    seq(|s|, i requires 0 <= i < |s| => if s[i] == '_' then '-' else s[i])
  }

  function Pairs(attributes: seq<Attribute>): seq<Item> {
    if attributes == [] then []
    else
      (if attributes[0].value.Some? then [Pair(Dashes(attributes[0].name), Dashes(attributes[0].value.value))] else [])
      + Pairs(attributes[1..])
  }

  function ValuesAlone(attributes: seq<Attribute>): seq<Item> {
    if attributes == [] then []
    else
      (if attributes[0].value.Some? then [Alone(Dashes(attributes[0].value.value))] else []) + ValuesAlone(attributes[1..])
  }

  function AllAlone(words: seq<string>): (items: seq<Item>)
    ensures |items| == |words|
  {
    seq(|words|, i requires 0 <= i < |words| => Alone(words[i]))
  }

  /** What a field says: nothing if it is null or an empty list; the attributes of a SET and of a transaction's LIKE as
      pairs, those of a QCNT by their values; and otherwise its value or its list. */
  function ToldField(field: Field, resource: string): seq<ClauseRead> {
    var name := Letters(field.name);
    match field
    case Single(_, Some(held)) =>
      if SpeltLike(name, "SET") && (resource == "DB" || resource == "TRAN" || resource == "RTC" || resource == "PGM")
      then [ClauseRead("SET", Pairs(held.attributes))]
      else if SpeltLike(name, "LIKE") && resource == "TRAN" then [ClauseRead("LIKE", Pairs(held.attributes))]
      else if SpeltLike(name, "QCNT") && resource == "TRAN" then [ClauseRead("QCNT", ValuesAlone(held.attributes))]
      else [ClauseRead(Dashes(name), [Alone(Dashes(held.text))])]
    case Many(_, Some(items)) =>
      if items == [] then []
      else [ClauseRead(Dashes(name), seq(|items|, i requires 0 <= i < |items| => Alone(Dashes(items[i]))))]
    case _ => []
  }

  function ToldFields(fields: seq<Field>, resource: string): seq<ClauseRead> {
    if fields == [] then [] else ToldField(fields[0], resource) + ToldFields(fields[1..], resource)
  }

  function ToldParts(parts: seq<Option<seq<Field>>>, resource: string): seq<ClauseRead> {
    if parts == [] then []
    else (if parts[0].Some? then ToldFields(parts[0].value, resource) else []) + ToldParts(parts[1..], resource)
  }

  function Told(c: Command): CommandRead {
    CommandRead(c.verb, c.resource, ToldParts(c.parts, c.resource), if c.routes.Some? then AllAlone(c.routes.value) else [])
  }

  // ----- the reader on the tokens of what is told

  function ItemTokens(item: Item): seq<Token> {
    match item
    case Alone(word) => [Word(word)]
    case Pair(name, value) => [Word(name), Open, Word(value), Close]
  }

  function ItemsTokens(items: seq<Item>): (tokens: seq<seq<Token>>)
    ensures |tokens| == |items|
  {
    seq(|items|, i requires 0 <= i < |items| => ItemTokens(items[i]))
  }

  function ClauseTokens(c: ClauseRead): seq<Token> {
    [Word(c.name), Open] + Listed(ItemsTokens(c.items)) + [Close]
  }

  function ClausesTokens(cs: seq<ClauseRead>): seq<Token> {
    if cs == [] then [] else ClauseTokens(cs[0]) + ClausesTokens(cs[1..])
  }

  function RouteTokens(routes: seq<Item>): seq<Token> {
    if routes == [] then [] else ClauseTokens(ClauseRead("ROUTE", routes))
  }

  function ToldTokens(c: CommandRead): seq<Token> {
    [Word("CMD"), Open, Word(c.verb), Word(c.resource)] + ClausesTokens(c.clauses) + [Close] + RouteTokens(c.routes)
  }

  lemma ItemIsRead(item: Item, rest: seq<Token>)
    requires rest != [] && rest[0] != Open
    ensures ReadItem(ItemTokens(item) + rest) == Some(Rest(item, rest))
  {
    var ts := ItemTokens(item) + rest;
    assert ts[|ItemTokens(item)|..] == rest;
    if item.Alone? {
      assert ts[1] == rest[0];
    }
  }

  lemma {:induction false} ItemsAreRead(items: seq<Item>, rest: seq<Token>)
    requires items != []
    ensures ReadItems(Listed(ItemsTokens(items)) + [Close] + rest) == Some(Rest(items, rest))
    decreases |items|
  {
    hide ReadItem, ItemTokens;
    var ts := Listed(ItemsTokens(items)) + [Close] + rest;
    if |items| == 1 {
      var next := [Close] + rest;
      assert ts == ItemTokens(items[0]) + next;
      ItemIsRead(items[0], next);
      assert next[1..] == rest && [items[0]] == items;
    } else {
      var others := Listed(ItemsTokens(items[1..])) + [Close] + rest;
      var next := [Comma] + others;
      assert ItemsTokens(items)[1..] == ItemsTokens(items[1..]);
      assert ts == ItemTokens(items[0]) + next;
      ItemIsRead(items[0], next);
      ItemsAreRead(items[1..], rest);
      assert next[1..] == others && [items[0]] + items[1..] == items;
    }
  }

  lemma ClauseIsRead(c: ClauseRead, rest: seq<Token>)
    ensures ReadClause(ClauseTokens(c) + rest) == Some(Rest(c, rest))
  {
    hide ReadItems, ItemTokens;
    var items := Listed(ItemsTokens(c.items));
    var ts := ClauseTokens(c) + rest;
    assert ts == [Word(c.name), Open] + (items + [Close] + rest);
    assert ts[2..] == items + [Close] + rest;
    if c.items == [] {
      assert items == [] && ts[3..] == rest;
    } else {
      ItemsAreRead(c.items, rest);
      FirstToken(c.items);
      assert ts[2] == items[0];
    }
  }

  lemma FirstToken(items: seq<Item>)
    requires items != []
    ensures Listed(ItemsTokens(items)) != [] && Listed(ItemsTokens(items))[0].Word?
  {
    assert ItemsTokens(items)[0] == ItemTokens(items[0]);
  }

  lemma {:induction false} ClausesAreRead(cs: seq<ClauseRead>, rest: seq<Token>)
    ensures ReadClauses(ClausesTokens(cs) + [Close] + rest) == Some(Rest(cs, rest))
    decreases |cs|
  {
    hide ReadClause, Listed;
    var ts := ClausesTokens(cs) + [Close] + rest;
    if cs == [] {
      assert ts == [Close] + rest && ts[1..] == rest;
    } else {
      var others := ClausesTokens(cs[1..]) + [Close] + rest;
      assert ts == ClauseTokens(cs[0]) + others;
      ClauseIsRead(cs[0], others);
      ClausesAreRead(cs[1..], rest);
      assert ts[0] == Word(cs[0].name);
      assert [cs[0]] + cs[1..] == cs;
    }
  }

  // ----- the tokens of the generated text

  lemma {:induction false} LettersAre(s: string)
    ensures WithoutDigits(s) == Letters(s)
  {
    if s != "" {
      LettersAre(s[..|s| - 1]);
      WithoutDigitsAppended(s[..|s| - 1], s[|s| - 1]);
      assert s == s[..|s| - 1] + [s[|s| - 1]];
    }
  }

  lemma {:induction false} WithoutDigitsAppended(s: string, c: char)
    ensures WithoutDigits(s + [c]) == WithoutDigits(s) + if '0' <= c <= '9' then "" else [c]
  {
    if s == "" {
      assert "" + [c] == [c] && [c][1..] == "";
    } else {
      WithoutDigitsAppended(s[1..], c);
      assert (s + [c])[1..] == s[1..] + [c];
    }
  }

  lemma SpeltLikeIs(s: string, capitals: string)
    requires forall i :: 0 <= i < |capitals| ==> 'A' <= capitals[i] <= 'Z'
    ensures UpperCase(s) == capitals <==> SpeltLike(s, capitals)
  {
    if SpeltLike(s, capitals) {
      assert forall i :: 0 <= i < |s| ==> UpperCase(s)[i] == capitals[i];
    }
    if UpperCase(s) == capitals {
      assert forall i :: 0 <= i < |s| ==> UpperCase(s)[i] == capitals[i];
    }
  }

  /** The items of a clause, as they are written, are words and pairs of words. */
  ghost predicate Writes(texts: seq<string>, items: seq<Item>) {
    |texts| == |items| && forall i :: 0 <= i < |items| ==> Tokens(texts[i]) == ItemTokens(items[i])
  }

  lemma DashedWord(s: string)
    requires CleanName(s)
    ensures Dashed(s) == Dashes(s) && Tokens(Dashed(s)) == [Word(Dashes(s))]
  {
    WordIsClean(s);
    TokensOfWord(Dashed(s));
  }

  lemma DashedEntry(name: string, value: string)
    requires CleanName(name) && CleanName(value)
    ensures Tokens(Dashed(name + "(" + value + ")")) == ItemTokens(Pair(Dashes(name), Dashes(value)))
  {
    hide Tokens, CleanName;
    DashedConcat(name + "(" + value, ")");
    DashedConcat(name + "(", value);
    DashedConcat(name, "(");
    DashedFixed("(");
    DashedFixed(")");
    DashedWord(name);
    DashedWord(value);
    TokensOfBracket(Dashed(name), Dashed(value));
  }

  lemma OneMoreWritten(text: string, item: Item, texts: seq<string>, items: seq<Item>)
    requires Writes(texts, items) && Tokens(text) == ItemTokens(item)
    ensures Writes([text] + texts, [item] + items)
  {
    hide Tokens, ItemTokens;
  }

  lemma DashedMore(text: string, texts: seq<string>)
    ensures DashedItems([text] + texts) == [Dashed(text)] + DashedItems(texts)
  {
    hide Dashed;
  }

  lemma {:induction false} PairsAreWritten(attributes: seq<Attribute>)
    requires forall i :: 0 <= i < |attributes| ==> PlainAttribute(attributes[i])
    ensures Writes(DashedItems(Entries(attributes)), Pairs(attributes))
    ensures Writes(DashedItems(Values(attributes)), ValuesAlone(attributes))
  {
    hide Tokens, CleanName, Dashed, Dashes;
    if attributes != [] {
      hide Writes, DashedItems;
      var a, others := attributes[0], attributes[1..];
      PairsAreWritten(others);
      assert PlainAttribute(a);
      if a.value.Some? {
        var entry, value := a.name + "(" + a.value.value + ")", a.value.value;
        DashedEntry(a.name, value);
        DashedWord(value);
        DashedMore(entry, Entries(others));
        DashedMore(value, Values(others));
        OneMoreWritten(Dashed(entry), Pair(Dashes(a.name), Dashes(value)), DashedItems(Entries(others)), Pairs(others));
        OneMoreWritten(Dashed(value), Alone(Dashes(value)), DashedItems(Values(others)), ValuesAlone(others));
      } else {
        assert [] + Pairs(others) == Pairs(others) && [] + ValuesAlone(others) == ValuesAlone(others);
      }
    }
  }

  lemma {:induction false} WordsAreWritten(words: seq<string>)
    requires AllWords(words)
    ensures Writes(DashedItems(words), seq(|words|, i requires 0 <= i < |words| => Alone(Dashes(words[i]))))
  {
    hide Tokens, CleanName, Dashed, Dashes;
    if words != [] {
      WordsAreWritten(words[1..]);
      DashedWord(words[0]);
      assert forall i :: 0 < i < |words| ==> words[i] == words[1..][i - 1];
    }
  }

  /** The clause as written has these tokens. */
  ghost predicate Says(clause: Clause, told: ClauseRead) {
    && CleanName(clause.name) && clause.name == told.name
    && (clause.separator == "," || clause.separator == ", ")
    && Writes(clause.items, told.items)
  }

  lemma ReservedNames()
    ensures CleanName("SET") && CleanName("LIKE") && CleanName("QCNT")
    ensures Dashed("SET") == "SET" && Dashed("LIKE") == "LIKE" && Dashed("QCNT") == "QCNT"
  {
    DashedFixed("SET");
    DashedFixed("LIKE");
    DashedFixed("QCNT");
  }

  lemma KindIs(name: string, resource: string)
    ensures KindOf(name, resource) ==
            if SpeltLike(name, "SET") && (resource == "DB" || resource == "TRAN" || resource == "RTC" || resource == "PGM") then Set
            else if SpeltLike(name, "LIKE") && resource == "TRAN" then Like
            else if SpeltLike(name, "QCNT") && resource == "TRAN" then Qcnt
            else Plain
  {
    hide UpperCase, SpeltLike;
    SpeltLikeIs(name, "SET");
    SpeltLikeIs(name, "LIKE");
    SpeltLikeIs(name, "QCNT");
  }

  /** A field's clause, with dashes, is the one clause it tells, if any. */
  lemma FieldSays(field: Field, resource: string)
    requires PlainField(field, resource)
    ensures var told := ToldField(field, resource);
            match ClauseOf(field, resource)
            case None => told == []
            case Some(c) => |told| == 1 && Says(Clause(Dashed(c.name), c.separator, DashedItems(c.items)), told[0])
  {
    hide CleanName, Dashed, Dashes, Entries, Values, Pairs, ValuesAlone, Letters, WithoutDigits, SpeltLike, KindOf, Tokens;
    LettersAre(field.name);
    KindIs(Letters(field.name), resource);
    ReservedNames();
    match field {
      case Single(name, Some(held)) =>
        if KindOf(WithoutDigits(name), resource) == Plain {
          DashedWord(WithoutDigits(name));
          WordIsClean(WithoutDigits(name));
          DashedWord(held.text);
        } else {
          PairsAreWritten(held.attributes);
        }
      case Many(name, Some(items)) =>
        DashedWord(WithoutDigits(name));
        WordIsClean(WithoutDigits(name));
        WordsAreWritten(items);
      case _ =>
    }
  }

  ghost predicate AllSay(clauses: seq<Clause>, told: seq<ClauseRead>) {
    |clauses| == |told| && forall i :: 0 <= i < |told| ==> Says(clauses[i], told[i])
  }

  lemma {:induction false} FieldsSay(fields: seq<Field>, resource: string)
    requires PlainFields(fields, resource)
    ensures AllSay(Clauses(fields, resource), ToldFields(fields, resource))
  {
    hide Says, ClauseOf, ToldField, PlainField, Dashed;
    if fields != [] {
      FieldsSay(fields[1..], resource);
      FieldSays(fields[0], resource);
    }
  }

  lemma {:induction false} PartsSay(parts: seq<Option<seq<Field>>>, resource: string)
    requires forall i :: 0 <= i < |parts| && parts[i].Some? ==> PlainFields(parts[i].value, resource)
    ensures AllSay(AllClauses(parts, resource), ToldParts(parts, resource))
  {
    hide Says, Clauses, ToldFields, PlainFields;
    if parts != [] {
      PartsSay(parts[1..], resource);
      if parts[0].Some? {
        FieldsSay(parts[0].value, resource);
      }
    }
  }

  lemma TokensOfClause(clause: Clause, told: ClauseRead)
    requires Says(clause, told)
    ensures Tokens(ClauseText(clause)) == ClauseTokens(told)
  {
    hide Tokens, Join, Listed, CleanName;
    TokensOfWord(clause.name);
    TokensOfJoin(clause.separator, clause.items, ItemsTokens(told.items));
    TokensOfBracket(clause.name, Join(clause.separator, clause.items));
  }

  lemma {:induction false} TokensOfClauses(clauses: seq<Clause>, told: seq<ClauseRead>, gap: bool)
    requires AllSay(clauses, told)
    ensures Tokens(Leading(clauses, gap)) == ClausesTokens(told)
    decreases |clauses|
  {
    hide Tokens, ClauseText, Says, ClauseTokens;
    TokensOfMarks();
    if clauses != [] {
      var text, others := ClauseText(clauses[0]), Leading(clauses[1..], clauses[0].items != []);
      TokensOfClause(clauses[0], told[0]);
      TokensOfClauses(clauses[1..], told[1..], clauses[0].items != []);
      ClosingBracket(clauses[0]);
      TokensConcat(text, others);
      TokensConcat(Gap(gap), text + others);
    }
  }

  lemma ClosingBracket(c: Clause)
    ensures ClauseText(c) != "" && ClauseText(c)[|ClauseText(c)| - 1] == ')'
  {
  }

  lemma TokensOfRoutes(routes: Option<seq<string>>)
    requires routes.Some? ==> AllWords(routes.value)
    ensures Tokens(RouteText(routes)) == RouteTokens(if routes.Some? then AllAlone(routes.value) else [])
  {
    hide Tokens, Listed, Join, CleanName, ItemsTokens;
    TokensOfMarks();
    if routes.Some? && routes.value != [] {
      var words := routes.value;
      forall i | 0 <= i < |words|
        ensures Tokens(words[i]) == ItemsTokens(AllAlone(words))[i]
      {
        WordAlone(words, i);
      }
      TokensOfJoin(",", words, ItemsTokens(AllAlone(words)));
      RouteAround(Join(",", words));
    }
  }

  lemma WordAlone(words: seq<string>, i: nat)
    requires i < |words| && CleanName(words[i])
    ensures Tokens(words[i]) == ItemsTokens(AllAlone(words))[i]
  {
    hide Tokens, CleanName;
    TokensOfWord(words[i]);
  }

  lemma RouteAround(inner: string)
    ensures Tokens("ROUTE(" + inner + ") ") == [Word("ROUTE"), Open] + Tokens(inner) + [Close]
  {
    hide Tokens, CleanName;
    TokensOfMarks();
    RouteIsClean();
    TokensOfWord("ROUTE");
    TokensOfBracket("ROUTE", inner);
    TokensConcat("ROUTE" + "(" + inner + ")", " ");
    assert "ROUTE" + "(" == "ROUTE(";
    assert "ROUTE(" + inner + ") " == "ROUTE" + "(" + inner + ")" + " ";
  }

  lemma RouteIsClean()
    ensures CleanName("ROUTE") && CleanName("CMD")
  {
  }

  /** The tokens of a generated command are those of what the command holds. */
  lemma TokensOfCommand(c: Command)
    requires PlainWords(c)
    ensures Tokens(Generated(c)) == ToldTokens(Told(c))
  {
    hide Tokens, Leading, ClausesTokens, AllClauses, ToldParts, RouteText, RouteTokens, CleanName, CleanClauses, Body;
    PlainWordsAreClean(c);
    CleanResource(c);
    PartsSay(c.parts, c.resource);
    var clauses := Leading(AllClauses(c.parts, c.resource), true);
    TokensOfClauses(AllClauses(c.parts, c.resource), ToldParts(c.parts, c.resource), true);
    TokensOfRoutes(c.routes);
    TokensOfMarks();
    RouteIsClean();
    TokensOfWord("CMD");
    TokensOfWord(c.verb);
    TokensOfWord(c.resource);
    LeadingMark(AllClauses(c.parts, c.resource));
    TokensConcat(c.verb, " ");
    TokensConcat(c.verb + " ", c.resource);
    TokensConcat(c.verb + " " + c.resource, clauses);
    TokensOfBracket("CMD", Body(c));
    TokensConcat("CMD" + "(" + Body(c) + ")", RouteText(c.routes));
    assert "CMD" + "(" == "CMD(";
  }

  lemma LeadingMark(cs: seq<Clause>)
    ensures Leading(cs, true) == "" || IsMark(Leading(cs, true)[0])
  {
    hide ClauseText;
  }

  /** Reading the text of a command made of words gives exactly what the command holds: verb, resource, the clauses that
      are not empty in declaration order, with their names, values and pairs of name and value, and the routes. */
  lemma CommandIsReadBack(c: Command)
    requires PlainWords(c)
    ensures ReadCommand(Generated(c)) == Some(Told(c))
  {
    hide Tokens, ToldParts, ReadClauses, ReadClause, ClausesTokens, ClauseTokens, Generated;
    TokensOfCommand(c);
    var told := Told(c);
    var routes := RouteTokens(told.routes);
    var ts := Tokens(Generated(c));
    assert ts[4..] == ClausesTokens(told.clauses) + [Close] + routes;
    ClausesAreRead(told.clauses, routes);
    if told.routes != [] {
      ClauseIsRead(ClauseRead("ROUTE", told.routes), []);
      assert routes + [] == routes;
      SomeTokens(ClauseRead("ROUTE", told.routes));
    }
  }

  lemma SomeTokens(c: ClauseRead)
    ensures ClauseTokens(c) != []
  {
  }

  // ----- separators

  predicate NoDigit(s: string) {
    forall i :: 0 <= i < |s| ==> !('0' <= s[i] <= '9')
  }

  lemma {:induction false} NoDigits(s: string)
    requires NoDigit(s)
    ensures WithoutDigits(s) == s
  {
    if s != "" {
      NoDigits(s[1..]);
      assert [s[0]] + s[1..] == s;
    }
  }

  /** A list is written with a comma and a space between its items, and a space after it. */
  lemma ListField(name: string, a: string, b: string, resource: string)
    requires NoDigit(name)
    ensures FieldText(Many(name, Some([a, b])), resource) == name + "(" + (a + ", " + b) + ") "
  {
    hide Join, WithoutDigits;
    NoDigits(name);
    TwoJoined(", ", a, b);
  }

  /** So is a single value, whatever it holds, unless the field has one of the three names. */
  lemma SingleField(name: string, held: JavaObject, resource: string)
    requires NoDigit(name) && !SpeltLike(name, "SET") && !SpeltLike(name, "LIKE") && !SpeltLike(name, "QCNT")
    ensures FieldText(Single(name, Some(held)), resource) == name + "(" + held.text + ") "
  {
    hide KindOf, WithoutDigits, SpeltLike;
    NoDigits(name);
    KindIs(name, resource);
  }

  lemma TwoEntries(a: Attribute, b: Attribute, c: Attribute)
    requires a.value.Some? && b.value.None? && c.value.Some?
    ensures Entries([a, b, c]) == [a.name + "(" + a.value.value + ")", c.name + "(" + c.value.value + ")"]
  {
    var all := [a, b, c];
    assert all[1..] == [b, c] && [b, c][1..] == [c] && [c][1..] == [];
    assert Entries([c]) == [c.name + "(" + c.value.value + ")"];
    assert Entries([b, c]) == Entries([c]);
  }

  lemma TwoJoined(separator: string, a: string, b: string)
    ensures Join(separator, [a, b]) == a + separator + b
  {
    assert [a, b][1..] == [b];
  }

  /** So are the populated attributes of a SET, each as its name and its value in brackets; a digit of the name is left
      out. */
  lemma SetField(a: Attribute, b: Attribute, c: Attribute)
    requires a.value.Some? && b.value.None? && c.value.Some?
    ensures FieldText(Single("SET1", Some(JavaObject("", [a, b, c]))), "TRAN")
         == "SET(" + (a.name + "(" + a.value.value + ")" + ", " + (c.name + "(" + c.value.value + ")")) + ") "
  {
    hide Entries, Join, WithoutDigits, KindOf;
    NoDigits("SET");
    WithoutDigitsAppended("SET", '1');
    assert "SET1" == "SET" + ['1'];
    assert "SET" + "" == "SET";
    assert KindOf("SET", "TRAN") == Set by {
      KindIs("SET", "TRAN");
    }
    TwoEntries(a, b, c);
    TwoJoined(", ", a.name + "(" + a.value.value + ")", c.name + "(" + c.value.value + ")");
  }

  /** The values of a QCNT have a bare comma between them. */
  lemma QcntField(a: Attribute, b: Attribute)
    requires a.value.Some? && b.value.Some?
    ensures FieldText(Single("QCNT", Some(JavaObject("", [a, b]))), "TRAN")
         == "QCNT(" + (a.value.value + "," + b.value.value) + ") "
  {
    hide Values, Join, WithoutDigits, UpperCase;
    NoDigits("QCNT");
    TwoValues(a, b);
    TwoJoined(",", a.value.value, b.value.value);
    SpeltLikeIs("QCNT", "QCNT");
    SpeltLikeIs("QCNT", "SET");
    SpeltLikeIs("QCNT", "LIKE");
  }

  lemma TwoValues(a: Attribute, b: Attribute)
    requires a.value.Some? && b.value.Some?
    ensures Values([a, b]) == [a.value.value, b.value.value]
  {
    assert [a, b][1..] == [b] && [b][1..] == [];
    assert Values([b]) == [b.value.value];
  }

  /** So have routes. */
  lemma TwoRoutes(a: string, b: string)
    ensures RouteText(Some([a, b])) == "ROUTE(" + (a + "," + b) + ") "
  {
    assert [a, b][1..] == [b];
    assert Join(",", [a, b]) == a + "," + b;
  }
}
