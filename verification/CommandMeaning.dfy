/** What a type-2 command says, apart from how its object holds it. */
module CommandMeaning {
  import opened CommandText
  import opened Results
  import opened Sequences
  import opened Type2Command

  /** A clause that is written: a single value is a clause with one item. */
  datatype Clause = Clause(name: string, separator: string, items: seq<string>)

  /** The clause a field stands for, if it writes anything. */
  function ClauseOf(field: Field, commandType: string): Option<Clause> {
    var prefix := WithoutDigits(field.name);
    match field
    case Single(_, None) => None
    case Single(_, Some(held)) =>
      (match KindOf(prefix, commandType)
       case Set => Some(Clause("SET", ", ", Entries(held.attributes)))
       case Like => Some(Clause("LIKE", ", ", Entries(held.attributes)))
       case Qcnt => Some(Clause("QCNT", ",", Values(held.attributes)))
       case Plain => Some(Clause(prefix, ", ", [held.text])))
    case Many(_, None) => None
    case Many(_, Some(items)) => if items == [] then None else Some(Clause(prefix, ", ", items))
  }

  function DashedItems(items: seq<string>): seq<string> {
    if items == [] then [] else [Dashed(items[0])] + DashedItems(items[1..])
  }

  /** The clauses of a sub-command, underscores turned into dashes. */
  function Clauses(fields: seq<Field>, commandType: string): seq<Clause> {
    if fields == [] then []
    else
      match ClauseOf(fields[0], commandType)
      case None => Clauses(fields[1..], commandType)
      case Some(c) => [Clause(Dashed(c.name), c.separator, DashedItems(c.items))] + Clauses(fields[1..], commandType)
  }

  function AllClauses(parts: seq<Option<seq<Field>>>, commandType: string): seq<Clause> {
    if parts == [] then []
    else (if parts[0].Some? then Clauses(parts[0].value, commandType) else []) + AllClauses(parts[1..], commandType)
  }

  function Routes(c: Command): seq<string> {
    if c.routes.Some? then c.routes.value else []
  }

  function ClauseText(c: Clause): string {
    c.name + "(" + Join(c.separator, c.items) + ")"
  }

  /** Each clause with a space after it, except one without items. */
  function Trailing(cs: seq<Clause>): string {
    if cs == [] then "" else ClauseText(cs[0]) + Gap(cs[0].items != []) + Trailing(cs[1..])
  }

  /** The same clauses with the spaces in front: `gap` says whether there is one before the first. */
  function Leading(cs: seq<Clause>, gap: bool): string {
    if cs == [] then "" else Gap(gap) + (ClauseText(cs[0]) + Leading(cs[1..], cs[0].items != []))
  }

  function Gap(gap: bool): string {
    if gap then " " else ""
  }

  // ----- dashes

  lemma DashedConcat(s: string, t: string)
    ensures Dashed(s + t) == Dashed(s) + Dashed(t)
  {
  }

  lemma DashedFixed(s: string)
    requires '_' !in s
    ensures Dashed(s) == s
  {
  }

  lemma {:induction false} DashedJoin(separator: string, items: seq<string>)
    requires '_' !in separator
    ensures Dashed(Join(separator, items)) == Join(separator, DashedItems(items))
    ensures |DashedItems(items)| == |items|
  {
    DashedFixed(separator);
    if items != [] {
      DashedJoin(separator, items[1..]);
      assert DashedItems(items)[1..] == DashedItems(items[1..]);
      if |items| > 1 {
        DashedConcat(items[0] + separator, Join(separator, items[1..]));
        DashedConcat(items[0], separator);
      }
    } else {
      assert Dashed("") == "";
    }
  }

  lemma DashedClause(c: Clause)
    requires c.separator == ", " || c.separator == ","
    ensures Dashed(ClauseText(c)) == ClauseText(Clause(Dashed(c.name), c.separator, DashedItems(c.items)))
  {
    hide Join;
    DashedJoin(c.separator, c.items);
    DashedConcat(c.name + "(" + Join(c.separator, c.items), ")");
    DashedConcat(c.name + "(", Join(c.separator, c.items));
    DashedConcat(c.name, "(");
    DashedFixed("(");
    DashedFixed(")");
  }

  // ----- the text a command's clauses make

  lemma FieldWritesClause(field: Field, commandType: string)
    ensures match ClauseOf(field, commandType)
            case None => FieldText(field, commandType) == ""
            case Some(c) =>
              && FieldText(field, commandType) == ClauseText(c) + Gap(c.items != [])
              && (c.separator == ", " || c.separator == ",")
  {
    hide Join, KindOf, Entries, Values;
    var prefix := WithoutDigits(field.name);
    match ClauseOf(field, commandType) {
      case None =>
      case Some(c) =>
        Spaced(c);
        if field.Single? && KindOf(prefix, commandType).Plain? {
          OneItem(prefix, field.held.value.text);
        }
    }
  }

  lemma Spaced(c: Clause)
    ensures c.items != [] ==> c.name + "(" + Join(c.separator, c.items) + ") " == ClauseText(c) + Gap(true)
    ensures c.items == [] ==> c.name + "()" == ClauseText(c) + Gap(false)
  {
  }

  lemma OneItem(name: string, item: string)
    ensures Join(", ", [item]) == item
  {
  }

  lemma {:induction false} FieldsWriteClauses(fields: seq<Field>, commandType: string)
    ensures Dashed(FieldsText(fields, commandType)) == Trailing(Clauses(fields, commandType))
  {
    if fields == [] {
      assert Dashed("") == "";
    } else {
      hide FieldText, ClauseOf, ClauseText;
      var first, later := FieldText(fields[0], commandType), FieldsText(fields[1..], commandType);
      FieldsWriteClauses(fields[1..], commandType);
      FieldWritesClause(fields[0], commandType);
      DashedConcat(first, later);
      match ClauseOf(fields[0], commandType) {
        case None =>
          assert Dashed("") == "";
        case Some(c) =>
          DashedClause(c);
          DashedConcat(ClauseText(c), Gap(c.items != []));
          DashedFixed(Gap(c.items != []));
          DashedJoin(c.separator, c.items);
          var d := Clause(Dashed(c.name), c.separator, DashedItems(c.items));
          assert ([d] + Clauses(fields[1..], commandType))[1..] == Clauses(fields[1..], commandType);
      }
    }
  }

  lemma {:induction false} TrailingConcat(cs: seq<Clause>, ds: seq<Clause>)
    ensures Trailing(cs + ds) == Trailing(cs) + Trailing(ds)
  {
    if cs == [] {
      assert cs + ds == ds;
    } else {
      hide ClauseText;
      TrailingConcat(cs[1..], ds);
      assert (cs + ds)[1..] == cs[1..] + ds;
      Regroup(ClauseText(cs[0]) + Gap(cs[0].items != []), Trailing(cs[1..]), Trailing(ds));
    }
  }

  lemma {:induction false} PartsWriteClauses(parts: seq<Option<seq<Field>>>, commandType: string)
    ensures PartsText(parts, commandType) == Trailing(AllClauses(parts, commandType))
  {
    if parts != [] {
      hide FieldsText, Clauses, Trailing, Dashed;
      PartsWriteClauses(parts[1..], commandType);
      if parts[0].Some? {
        FieldsWriteClauses(parts[0].value, commandType);
        TrailingConcat(Clauses(parts[0].value, commandType), AllClauses(parts[1..], commandType));
      } else {
        assert "" + PartsText(parts[1..], commandType) == PartsText(parts[1..], commandType);
        assert [] + AllClauses(parts[1..], commandType) == AllClauses(parts[1..], commandType);
      }
    } else {
      assert Trailing([]) == "";
    }
  }

  /** Dropping a last space moves every gap from behind its clause to the front of the next. */
  lemma {:induction false} GapsMove(cs: seq<Clause>, gap: bool)
    requires cs != []
    ensures Gap(gap) + Trailing(cs) != "" && Formatted(Gap(gap) + Trailing(cs)) == Leading(cs, gap)
  {
    hide ClauseText;
    var c, later := cs[0], cs[1..];
    var text := Gap(gap) + ClauseText(c);
    Regroup(Gap(gap), ClauseText(c), Gap(c.items != []));
    Regroup(Gap(gap), ClauseText(c) + Gap(c.items != []), Trailing(later));
    Regroup(text, Gap(c.items != []), Trailing(later));
    assert Gap(gap) + Trailing(cs) == text + (Gap(c.items != []) + Trailing(later));
    if later != [] {
      GapsMove(later, c.items != []);
      FormattedSuffix(text, Gap(c.items != []) + Trailing(later));
      Regroup(Gap(gap), ClauseText(c), Leading(later, c.items != []));
    } else {
      ClauseEnds(c);
      assert Gap(c.items != []) + "" == Gap(c.items != []);
      if c.items != [] {
        FormattedSuffix(text, " ");
        assert " "[..0] == "" && text + "" == text;
      } else {
        FormattedSuffix(Gap(gap), ClauseText(c));
        assert text + "" == text;
      }
      assert ClauseText(c) + "" == ClauseText(c);
    }
  }

  lemma ClauseEnds(c: Clause)
    ensures ClauseText(c) != "" && Formatted(ClauseText(c)) == ClauseText(c)
  {
  }

  /** What stands between the outer brackets of a generated command: the verb, the resource and the clauses, with a
      single space between them except after a clause without items. */
  lemma BodyIs(c: Command)
    requires c.resource != "" && Formatted(c.resource) == c.resource
    ensures Body(c) == c.verb + " " + c.resource + Leading(AllClauses(c.parts, c.resource), true)
  {
    var cs, prefix := AllClauses(c.parts, c.resource), c.verb + " " + c.resource;
    hide PartsText, AllClauses, Trailing, Leading;
    PartsWriteClauses(c.parts, c.resource);
    Regroup(prefix, " ", Trailing(cs));
    if cs == [] {
      NoClauses(cs);
      FormattedSuffix(prefix, " ");
      assert prefix + " " + "" == prefix + " ";
      assert " "[..0] == "" && prefix + "" == prefix;
    } else {
      GapsMove(cs, true);
      FormattedSuffix(prefix, Gap(true) + Trailing(cs));
    }
  }

  lemma NoClauses(cs: seq<Clause>)
    requires cs == []
    ensures Trailing(cs) == "" && Leading(cs, true) == ""
  {
  }
}
