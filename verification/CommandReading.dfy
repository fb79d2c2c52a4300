/** Reading a generated type-2 command: its brackets, what the extractor makes of it, and why it can be read in only
    one way. */
module CommandReading {
  import opened Brackets
  import opened CommandMeaning
  import opened CommandText
  import opened EssentialCommand
  import opened Results
  import opened Sequences
  import opened Type2Command

  // ----- what is said

  /** A clause as a reader sees it: its name and its items. */
  datatype Said = Said(name: string, items: seq<string>)

  datatype Meaning = Meaning(verb: string, resource: string, clauses: seq<Said>, routes: seq<string>)

  function SaidBy(cs: seq<Clause>): seq<Said> {
    if cs == [] then [] else [Said(cs[0].name, cs[0].items)] + SaidBy(cs[1..])
  }

  function MeaningOf(c: Command): Meaning {
    Meaning(c.verb, c.resource, SaidBy(AllClauses(c.parts, c.resource)), Routes(c))
  }

  // ----- words

  /** A verb, a resource or a name: not empty, without brackets, commas and spaces. */
  predicate CleanName(s: string) {
    s != "" && Flat(s) && ',' !in s && ' ' !in s
  }

  /** A value or an attribute entry: not empty, with balanced brackets if any, without commas, not starting with a space. */
  ghost predicate CleanItem(s: string) {
    s != "" && s[0] != ' ' && ',' !in s && Balanced(s)
  }

  ghost predicate CleanItems(items: seq<string>) {
    forall i :: 0 <= i < |items| ==> CleanItem(items[i])
  }

  ghost predicate CleanClauses(cs: seq<Clause>) {
    forall i :: 0 <= i < |cs| ==>
      CleanName(cs[i].name) && CleanItems(cs[i].items) && (cs[i].separator == ", " || cs[i].separator == ",")
  }

  ghost predicate CleanCommand(c: Command) {
    && CleanName(c.verb) && CleanName(c.resource)
    && CleanClauses(AllClauses(c.parts, c.resource)) && CleanItems(Routes(c))
  }

  lemma CleanResource(c: Command)
    requires CleanCommand(c)
    ensures c.resource != "" && Formatted(c.resource) == c.resource
    ensures Body(c) == c.verb + " " + c.resource + Leading(AllClauses(c.parts, c.resource), true)
  {
    assert c.resource[|c.resource| - 1] in c.resource;
    BodyIs(c);
  }

  // ----- balance

  lemma {:induction false} JoinIsBalanced(separator: string, items: seq<string>)
    requires Flat(separator) && CleanItems(items)
    ensures Balanced(Join(separator, items))
  {
    hide Balanced;
    FlatIsBalanced("");
    FlatIsBalanced(separator);
    if |items| > 1 {
      JoinIsBalanced(separator, items[1..]);
      BalancedConcat(items[0], separator);
      BalancedConcat(items[0] + separator, Join(separator, items[1..]));
    }
  }

  lemma ClauseIsBalanced(c: Clause)
    requires CleanName(c.name) && CleanItems(c.items) && (c.separator == ", " || c.separator == ",")
    ensures Balanced(ClauseText(c))
  {
    hide Balanced, Join;
    JoinIsBalanced(c.separator, c.items);
    FlatIsBalanced(c.name);
    var items := Join(c.separator, c.items);
    BalancedNesting(items);
    BalancedConcat(c.name, "(" + items + ")");
    assert ClauseText(c) == c.name + ("(" + items + ")");
  }

  lemma {:induction false} LeadingIsBalanced(cs: seq<Clause>, gap: bool)
    requires CleanClauses(cs)
    ensures Balanced(Leading(cs, gap))
  {
    hide Balanced, ClauseText;
    FlatIsBalanced("");
    FlatIsBalanced(Gap(gap));
    if cs != [] {
      LeadingIsBalanced(cs[1..], cs[0].items != []);
      ClauseIsBalanced(cs[0]);
      BalancedConcat(ClauseText(cs[0]), Leading(cs[1..], cs[0].items != []));
      BalancedConcat(Gap(gap), ClauseText(cs[0]) + Leading(cs[1..], cs[0].items != []));
    }
  }

  lemma BodyIsBalanced(c: Command)
    requires CleanCommand(c)
    ensures Balanced(Body(c))
  {
    hide Balanced, Leading, AllClauses, Body;
    CleanResource(c);
    var cs := AllClauses(c.parts, c.resource);
    FlatIsBalanced(c.verb + " " + c.resource);
    LeadingIsBalanced(cs, true);
    BalancedConcat(c.verb + " " + c.resource, Leading(cs, true));
  }

  /** The whole generated text is balanced, its ROUTE suffix included, and the first bracket closes right after the
      body: the extractor returns the body. */
  lemma CommandIsBalanced(c: Command)
    requires CleanCommand(c)
    ensures Balanced(Generated(c))
    ensures Extracted(Generated(c)) == Trim(Body(c))
  {
    hide Balanced, Body, Join, AllClauses, Trim;
    BodyIsBalanced(c);
    ExtractsExactlyBalanced(Body(c), RouteText(c.routes));
    FlatIsBalanced("CMD");
    BalancedNesting(Body(c));
    BalancedConcat("CMD", "(" + Body(c) + ")");
    RouteIsBalanced(c);
    assert "CMD(" + Body(c) + ")" == "CMD" + ("(" + Body(c) + ")");
    BalancedConcat("CMD(" + Body(c) + ")", RouteText(c.routes));
  }

  lemma RouteIsBalanced(c: Command)
    requires CleanItems(Routes(c))
    ensures Balanced(RouteText(c.routes))
  {
    hide Balanced, Join;
    FlatIsBalanced("");
    if c.routes.Some? && c.routes.value != [] {
      var items := Join(",", c.routes.value);
      JoinIsBalanced(",", c.routes.value);
      FlatIsBalanced("ROUTE");
      FlatIsBalanced(" ");
      BalancedNesting(items);
      BalancedConcat("ROUTE", "(" + items + ")");
      BalancedConcat("ROUTE" + ("(" + items + ")"), " ");
      assert RouteText(c.routes) == "ROUTE" + ("(" + items + ")") + " ";
    }
  }

  // ----- the extractor gives the command back

  function Texts(cs: seq<Clause>): seq<string> {
    if cs == [] then [] else [ClauseText(cs[0])] + Texts(cs[1..])
  }

  /** Every clause has an item, the last one perhaps not. */
  predicate PopulatedButLast(cs: seq<Clause>) {
    forall i :: 0 <= i < |cs| - 1 ==> cs[i].items != []
  }

  lemma {:induction false} PopulatedIsJoined(prefix: string, cs: seq<Clause>)
    requires PopulatedButLast(cs)
    ensures prefix + Leading(cs, true) == Join(" ", [prefix] + Texts(cs))
    decreases cs
  {
    hide ClauseText;
    if cs == [] {
      assert prefix + "" == prefix && [prefix] + [] == [prefix];
    } else {
      var text := ClauseText(cs[0]);
      PopulatedIsJoined(text, cs[1..]);
      TextsJoined(prefix, cs);
      Regroup(prefix, " ", text + Leading(cs[1..], true));
      if |cs| == 1 {
        NoLeading(cs[1..]);
      }
    }
  }

  lemma NoLeading(cs: seq<Clause>)
    requires cs == []
    ensures Leading(cs, true) == Leading(cs, false)
  {
  }

  lemma TextsJoined(prefix: string, cs: seq<Clause>)
    requires cs != []
    ensures Join(" ", [prefix] + Texts(cs)) == prefix + " " + Join(" ", [ClauseText(cs[0])] + Texts(cs[1..]))
  {
    hide ClauseText;
    assert ([prefix] + Texts(cs))[1..] == [ClauseText(cs[0])] + Texts(cs[1..]);
  }

  /** A clause without items that is not the last leaves out a space. */
  lemma {:induction false} GapsAreLeftOut(prefix: string, cs: seq<Clause>, gap: bool)
    requires cs != []
    ensures var written := |prefix + Leading(cs, gap)| + if gap then 0 else 1;
            var joined := |Join(" ", [prefix] + Texts(cs))|;
            written <= joined && (written == joined ==> PopulatedButLast(cs))
    decreases cs
  {
    hide ClauseText, Join;
    var text := ClauseText(cs[0]);
    TextsJoined(prefix, cs);
    if |cs| == 1 {
      OneJoined(text, Texts(cs[1..]));
      NoLeading(cs[1..]);
    } else {
      GapsAreLeftOut(text, cs[1..], cs[0].items != []);
      assert forall i :: 0 < i < |cs| ==> cs[i] == cs[1..][i - 1];
    }
  }

  lemma OneJoined(text: string, texts: seq<string>)
    requires texts == []
    ensures Join(" ", [text] + texts) == text
  {
  }

  /** The extractor returns verb, resource and clauses separated by single spaces, with or without a ROUTE suffix, if
      and only if no clause but the last is written without items. */
  lemma ExtractsWords(c: Command)
    requires CleanCommand(c) && c.verb[0] > ' ' && c.resource[|c.resource| - 1] > ' '
    ensures Extracted(Generated(c)) == Join(" ", [c.verb, c.resource] + Texts(AllClauses(c.parts, c.resource)))
            <==> PopulatedButLast(AllClauses(c.parts, c.resource))
  {
    var cs := AllClauses(c.parts, c.resource);
    hide Balanced, AllClauses, Trim, Body, Generated, Extracted, Texts, Leading, Join, PopulatedButLast;
    CommandIsBalanced(c);
    CleanResource(c);
    var prefix := c.verb + " " + c.resource;
    JoinFirstTwo(c.verb, c.resource, Texts(cs));
    LeadingEnds(prefix, cs);
    assert Body(c)[0] == c.verb[0];
    TrimUnneeded(Body(c));
    if PopulatedButLast(cs) {
      PopulatedIsJoined(prefix, cs);
    } else {
      SomeClause(cs);
      GapsAreLeftOut(prefix, cs, true);
    }
  }

  lemma SomeClause(cs: seq<Clause>)
    ensures cs == [] ==> PopulatedButLast(cs)
  {
  }

  /** A SET, say, without items is followed by the next clause without a space. */
  lemma EmptyClauseJoins(a: Clause, b: Clause)
    requires a.items == []
    ensures Leading([a, b], true) == " " + (ClauseText(a) + ClauseText(b)) && !PopulatedButLast([a, b])
  {
    hide ClauseText;
    var cs := [a, b];
    assert cs[1..] == [b] && [b][1..] == [];
    assert cs[0].items == [];
    assert Leading([b], false) == "" + (ClauseText(b) + "") == ClauseText(b);
    assert Leading(cs, true) == " " + (ClauseText(a) + Leading(cs[1..], false));
  }

  lemma JoinFirstTwo(a: string, b: string, rest: seq<string>)
    ensures Join(" ", [a + " " + b] + rest) == Join(" ", [a, b] + rest)
  {
    assert ([a, b] + rest)[1..] == [b] + rest;
    assert ([a + " " + b] + rest)[1..] == rest == ([b] + rest)[1..];
    if rest != [] {
      Regroup(a + " ", b, " " + Join(" ", rest));
      Regroup(a + " " + b, " ", Join(" ", rest));
      Regroup(b, " ", Join(" ", rest));
    }
  }

  lemma {:induction false} LeadingEnds(prefix: string, cs: seq<Clause>)
    requires prefix != "" && prefix[|prefix| - 1] > ' '
    ensures var s := prefix + Leading(cs, true); s[|s| - 1] > ' '
  {
    if cs == [] {
      assert prefix + "" == prefix;
    } else {
      LeadingLast(cs, true);
    }
  }

  lemma {:induction false} LeadingLast(cs: seq<Clause>, gap: bool)
    requires cs != []
    ensures var s := Leading(cs, gap); s != "" && s[|s| - 1] == ')'
  {
    if |cs| > 1 {
      LeadingLast(cs[1..], cs[0].items != []);
    } else {
      assert Leading(cs[1..], cs[0].items != []) == "";
    }
  }

  // ----- reading in only one way

  /** Two ways of cutting one text at a delimiter: either the same, or one piece runs over the other's delimiter. */
  lemma Overlap(a: string, d: char, x: string, b: string, e: char, y: string)
    requires a + [d] + x == b + [e] + y
    ensures |a| < |b| ==> d in b && a + [d] <= b
    ensures |b| < |a| ==> e in a && b + [e] <= a
    ensures |a| == |b| ==> a == b && d == e && x == y
  {
    var s, t := a + [d] + x, b + [e] + y;
    assert s[|a|] == d && t[|b|] == e;
    assert a == s[..|a|] && b == t[..|b|];
    assert x == s[|a| + 1..] && y == t[|b| + 1..];
    if |a| < |b| {
      assert b[|a|] == d;
    } else if |b| < |a| {
      assert a[|b|] == e;
    }
  }

  /** A name ends at the first of the stops. */
  lemma CancelName(a: string, d: char, x: string, b: string, e: char, y: string, stops: set<char>)
    requires a + [d] + x == b + [e] + y
    requires d in stops && e in stops
    requires forall c :: c in a || c in b ==> c !in stops
    ensures a == b && d == e && x == y
  {
    Overlap(a, d, x, b, e, y);
  }

  lemma PrefixDepth(a: string, d: char, b: string)
    ensures a + [d] <= b ==> d in b
    ensures a + [d] <= b && NeverDips(b) ==> Depth(a) + Delta(d) >= 0
  {
    DepthOfConcat(a, [d]);
    DepthOfOne(d);
    if a + [d] <= b {
      assert b[|a|] == d && b[..|a| + 1] == a + [d];
    }
  }

  /** A clean item cannot go on past a comma or past a bracket that it did not open. */
  lemma ItemStops(a: string, d: char, b: string)
    requires CleanItem(a) && CleanItem(b) && (d == ',' || d == ')')
    ensures !(a + [d] <= b)
  {
    PrefixDepth(a, d, b);
  }

  lemma CancelItem(a: string, d: char, x: string, b: string, e: char, y: string)
    requires a + [d] + x == b + [e] + y
    requires CleanItem(a) && CleanItem(b) && (d == ',' || d == ')') && (e == ',' || e == ')')
    ensures a == b && d == e && x == y
  {
    hide CleanItem;
    ItemStops(a, d, b);
    ItemStops(b, e, a);
    Overlap(a, d, x, b, e, y);
  }

  lemma FirstNotClosing(a: string)
    requires a != ""
    ensures NeverDips(a) ==> a[0] != ')'
  {
    DepthOfOne(a[0]);
    assert a[..1] == [a[0]];
  }

  /** What follows the first of some joined items, up to and past the closing bracket. */
  function AfterFirst(separator: string, items: seq<string>, x: string): string
    requires items != [] && (separator == "," || separator == ", ")
  {
    if |items| == 1 then x else separator[1..] + (Join(separator, items[1..]) + ")" + x)
  }

  lemma FirstItem(separator: string, items: seq<string>, x: string)
    requires items != [] && (separator == "," || separator == ", ")
    ensures Join(separator, items) + ")" + x
         == items[0] + [if |items| == 1 then ')' else ','] + AfterFirst(separator, items, x)
  {
    if |items| > 1 {
      assert separator == "," + separator[1..];
      Pieces(items[0], separator[1..], Join(separator, items[1..]), x);
    }
  }

  lemma Pieces(item: string, tail: string, later: string, x: string)
    ensures item + ("," + tail) + later + ")" + x == item + [','] + (tail + (later + ")" + x))
  {
  }

  /** A list of clean items can be read in only one way, whichever separator was used. */
  lemma {:induction false} CancelItems(separator: string, items: seq<string>, x: string,
                                       other: string, others: seq<string>, y: string)
    requires Join(separator, items) + ")" + x == Join(other, others) + ")" + y
    requires CleanItems(items) && CleanItems(others)
    requires (separator == "," || separator == ", ") && (other == "," || other == ", ")
    ensures items == others && x == y
  {
    hide CleanItem, Balanced;
    if items == [] || others == [] {
      CancelEmpty(separator, items, x, other, others, y);
    } else {
      FirstItem(separator, items, x);
      FirstItem(other, others, y);
      CancelItem(items[0], if |items| == 1 then ')' else ',', AfterFirst(separator, items, x),
                 others[0], if |others| == 1 then ')' else ',', AfterFirst(other, others, y));
      if |items| > 1 {
        SameSeparator(separator, items[1..], x, other, others[1..], y);
        CancelItems(separator, items[1..], x, other, others[1..], y);
      }
      assert items == [items[0]] + items[1..] && others == [others[0]] + others[1..];
    }
  }

  lemma JoinStart(separator: string, items: seq<string>, x: string)
    requires items != [] && CleanItems(items) && (separator == "," || separator == ", ")
    ensures var s := Join(separator, items) + ")" + x; s[0] == items[0][0] && s[0] != ' ' && s[0] != ')'
  {
    hide Join;
    FirstItem(separator, items, x);
    var a := items[0];
    assert CleanItem(a);
    FirstNotClosing(a);
  }

  lemma CancelEmpty(separator: string, items: seq<string>, x: string, other: string, others: seq<string>, y: string)
    requires Join(separator, items) + ")" + x == Join(other, others) + ")" + y
    requires CleanItems(items) && CleanItems(others) && (items == [] || others == [])
    requires (separator == "," || separator == ", ") && (other == "," || other == ", ")
    ensures items == others && x == y
  {
    hide CleanItem;
    assert (")" + x)[0] == ')' && (")" + y)[0] == ')' && (")" + x)[1..] == x && (")" + y)[1..] == y;
    assert "" + ")" + x == ")" + x && "" + ")" + y == ")" + y;
    if items != [] {
      JoinStart(separator, items, x);
    } else if others != [] {
      JoinStart(other, others, y);
    }
  }

  lemma SameSeparator(separator: string, items: seq<string>, x: string, other: string, others: seq<string>, y: string)
    requires items != [] && others != [] && CleanItems(items) && CleanItems(others)
    requires (separator == "," || separator == ", ") && (other == "," || other == ", ")
    requires separator[1..] + (Join(separator, items) + ")" + x) == other[1..] + (Join(other, others) + ")" + y)
    ensures separator == other && Join(separator, items) + ")" + x == Join(other, others) + ")" + y
  {
    hide Join, CleanItem;
    JoinStart(separator, items, x);
    JoinStart(other, others, y);
    var s, t := Join(separator, items) + ")" + x, Join(other, others) + ")" + y;
    assert ","[1..] == "" && ", "[1..] == " " && "" + s == s && "" + t == t;
    assert (" " + s)[0] == ' ' && (" " + t)[0] == ' ' && (" " + s)[1..] == s && (" " + t)[1..] == t;
  }

  /** What follows the name of a clause. */
  lemma ClauseSplit(c: Clause, later: string, x: string)
    ensures ClauseText(c) + later + ")" + x
         == c.name + ['('] + (Join(c.separator, c.items) + ")" + (later + ")" + x))
  {
    hide Join;
    var items := Join(c.separator, c.items);
    assert c.name + "(" + items + ")" + later + ")" + x == c.name + "(" + (items + ")" + (later + ")" + x));
  }

  lemma {:induction false} CancelClauses(cs: seq<Clause>, x: string, ds: seq<Clause>, y: string, gap: bool)
    requires Leading(cs, gap) + ")" + x == Leading(ds, gap) + ")" + y
    requires CleanClauses(cs) && CleanClauses(ds)
    ensures SaidBy(cs) == SaidBy(ds) && x == y
  {
    if cs == [] || ds == [] {
      CancelNoClauses(cs, x, ds, y, gap);
    } else {
      hide ClauseText, Join, CleanItems, CleanName;
      var c, d := cs[0], ds[0];
      var later, later' := Leading(cs[1..], c.items != []), Leading(ds[1..], d.items != []);
      WithoutGap(gap, ClauseText(c) + later, x, ClauseText(d) + later', y);
      ClauseSplit(c, later, x);
      ClauseSplit(d, later', y);
      NamesHaveNoBracket(c.name);
      NamesHaveNoBracket(d.name);
      CancelName(c.name, '(', Join(c.separator, c.items) + ")" + (later + ")" + x),
                 d.name, '(', Join(d.separator, d.items) + ")" + (later' + ")" + y), {'('});
      CancelItems(c.separator, c.items, later + ")" + x, d.separator, d.items, later' + ")" + y);
      CancelClauses(cs[1..], x, ds[1..], y, c.items != []);
    }
  }

  lemma NamesHaveNoBracket(name: string)
    requires CleanName(name)
    ensures forall c :: c in name ==> c !in {'('}
    ensures forall c :: c in name ==> c !in {' ', ')'}
  {
  }

  lemma WithoutGap(gap: bool, s: string, x: string, t: string, y: string)
    requires Gap(gap) + s + ")" + x == Gap(gap) + t + ")" + y
    ensures s + ")" + x == t + ")" + y
  {
    var g := |Gap(gap)|;
    assert (Gap(gap) + s + ")" + x)[g..] == s + ")" + x;
    assert (Gap(gap) + t + ")" + y)[g..] == t + ")" + y;
  }

  lemma LeadingStart(cs: seq<Clause>, gap: bool, x: string)
    requires cs != [] && CleanClauses(cs)
    ensures (Leading(cs, gap) + ")" + x)[0] != ')'
  {
    hide Join;
    var name := cs[0].name;
    assert CleanName(name);
    assert (Leading(cs, gap) + ")" + x)[0] == if gap then ' ' else name[0];
  }

  lemma CancelNoClauses(cs: seq<Clause>, x: string, ds: seq<Clause>, y: string, gap: bool)
    requires Leading(cs, gap) + ")" + x == Leading(ds, gap) + ")" + y
    requires CleanClauses(cs) && CleanClauses(ds) && (cs == [] || ds == [])
    ensures SaidBy(cs) == SaidBy(ds) && x == y
  {
    assert (")" + x)[0] == ')' && (")" + y)[0] == ')' && (")" + x)[1..] == x && (")" + y)[1..] == y;
    assert "" + ")" + x == ")" + x && "" + ")" + y == ")" + y;
    if cs != [] {
      LeadingStart(cs, gap, x);
    } else if ds != [] {
      LeadingStart(ds, gap, y);
    }
  }

  lemma CancelRoutes(routes: Option<seq<string>>, others: Option<seq<string>>)
    requires RouteText(routes) == RouteText(others)
    requires CleanItems(if routes.Some? then routes.value else []) && CleanItems(if others.Some? then others.value else [])
    ensures (if routes.Some? then routes.value else []) == if others.Some? then others.value else []
  {
    if routes.Some? && routes.value != [] && others.Some? && others.value != [] {
      var s, t := Join(",", routes.value), Join(",", others.value);
      assert RouteText(routes)[6..] == s + ")" + " " && RouteText(others)[6..] == t + ")" + " ";
      CancelItems(",", routes.value, " ", ",", others.value, " ");
    }
  }

  /** A clean command can be read in only one way: equal texts come from commands that say the same verb, resource,
      clauses in order with their items, and routes. */
  lemma UniqueReadability(c: Command, d: Command)
    requires CleanCommand(c) && CleanCommand(d)
    requires Generated(c) == Generated(d)
    ensures MeaningOf(c) == MeaningOf(d)
  {
    hide AllClauses, Body, RouteText, Leading, SaidBy, CleanItems, CleanClauses, CleanName;
    var cs, ds := AllClauses(c.parts, c.resource), AllClauses(d.parts, d.resource);
    var x, y := RouteText(c.routes), RouteText(d.routes);
    var l, m := Leading(cs, true), Leading(ds, true);
    CleanResource(c);
    CleanResource(d);
    Unwrapped(c.verb, c.resource, l, x, d.verb, d.resource, m, y);
    NamesHaveNoBracket(c.verb);
    NamesHaveNoBracket(d.verb);
    NamesHaveNoBracket(c.resource);
    NamesHaveNoBracket(d.resource);
    CancelName(c.verb, ' ', c.resource + (l + ")" + x), d.verb, ' ', d.resource + (m + ")" + y), {' ', ')'});
    ResourceEnds(cs, x);
    ResourceEnds(ds, y);
    var p, q := l + ")" + x, m + ")" + y;
    assert c.resource + p == c.resource + [p[0]] + p[1..];
    assert d.resource + q == d.resource + [q[0]] + q[1..];
    CancelName(c.resource, p[0], p[1..], d.resource, q[0], q[1..], {' ', ')'});
    assert p == [p[0]] + p[1..] && q == [q[0]] + q[1..];
    CancelClauses(cs, x, ds, y, true);
    CancelRoutes(c.routes, d.routes);
  }

  lemma Unwrapped(verb: string, resource: string, l: string, x: string,
                  verb': string, resource': string, m: string, y: string)
    requires "CMD(" + (verb + " " + resource + l) + ")" + x == "CMD(" + (verb' + " " + resource' + m) + ")" + y
    ensures verb + [' '] + (resource + (l + ")" + x)) == verb' + [' '] + (resource' + (m + ")" + y))
  {
    assert ("CMD(" + (verb + " " + resource + l) + ")" + x)[4..] == verb + [' '] + (resource + (l + ")" + x));
    assert ("CMD(" + (verb' + " " + resource' + m) + ")" + y)[4..] == verb' + [' '] + (resource' + (m + ")" + y));
  }

  lemma ResourceEnds(cs: seq<Clause>, x: string)
    ensures var p := Leading(cs, true) + ")" + x; p != "" && p[0] in {' ', ')'}
  {
    hide ClauseText;
  }
}
