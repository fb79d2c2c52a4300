/** Commands whose words have no brackets, commas or spaces in them: a condition on what a caller puts into a command,
    under which everything said about clean commands holds. */
module CommandWords {
  import opened Brackets
  import opened CommandMeaning
  import opened CommandReading
  import opened Results
  import opened Type2Command

  predicate PlainAttribute(a: Attribute) {
    a.value.Some? ==> CleanName(a.name) && CleanName(a.value.value)
  }

  predicate PlainField(field: Field, commandType: string) {
    match field
    case Single(_, None) => true
    case Single(name, Some(held)) =>
      if KindOf(WithoutDigits(name), commandType) == Plain then CleanName(WithoutDigits(name)) && CleanName(held.text)
      else forall i :: 0 <= i < |held.attributes| ==> PlainAttribute(held.attributes[i])
    case Many(_, None) => true
    case Many(name, Some(items)) => CleanName(WithoutDigits(name)) && AllWords(items)
  }

  predicate AllWords(items: seq<string>) {
    forall i :: 0 <= i < |items| ==> CleanName(items[i])
  }

  predicate PlainFields(fields: seq<Field>, commandType: string) {
    forall i :: 0 <= i < |fields| ==> PlainField(fields[i], commandType)
  }

  /** The verb, the resource, the values and the names of what is populated are words. */
  predicate PlainWords(c: Command) {
    && CleanName(c.verb) && CleanName(c.resource)
    && (forall i :: 0 <= i < |c.parts| && c.parts[i].Some? ==> PlainFields(c.parts[i].value, c.resource))
    && (c.routes.Some? ==> AllWords(c.routes.value))
  }

  // ----- from words to clean clauses

  lemma WordIsClean(s: string)
    requires CleanName(s)
    ensures CleanItem(s) && CleanName(Dashed(s)) && CleanItem(Dashed(s))
  {
    hide Balanced;
    FlatIsBalanced(s);
    assert Dashed(s)[0] == if s[0] == '_' then '-' else s[0];
    assert Flat(Dashed(s));
    FlatIsBalanced(Dashed(s));
  }

  lemma EntryIsClean(name: string, value: string)
    requires CleanName(name) && CleanName(value)
    ensures CleanItem(Dashed(name + "(" + value + ")"))
  {
    hide Balanced, CleanName, Flat;
    WordIsClean(name);
    WordIsClean(value);
    DashedConcat(name + "(" + value, ")");
    DashedConcat(name + "(", value);
    DashedConcat(name, "(");
    DashedFixed("(");
    DashedFixed(")");
    BalancedNesting(Dashed(value));
    BalancedConcat(Dashed(name), "(" + Dashed(value) + ")");
    assert Dashed(name + "(" + value + ")") == Dashed(name) + ("(" + Dashed(value) + ")");
  }

  lemma {:induction false} WordsAreClean(items: seq<string>)
    requires AllWords(items)
    ensures CleanItems(DashedItems(items)) && CleanItems(items)
  {
    hide CleanItem, CleanName, Dashed;
    if items != [] {
      WordsAreClean(items[1..]);
      WordIsClean(items[0]);
      assert forall i :: 0 < i < |items| ==> items[i] == items[1..][i - 1];
    }
  }

  lemma {:induction false} EntriesAreClean(attributes: seq<Attribute>)
    requires forall i :: 0 <= i < |attributes| ==> PlainAttribute(attributes[i])
    ensures CleanItems(DashedItems(Entries(attributes))) && CleanItems(DashedItems(Values(attributes)))
  {
    hide CleanItem, CleanName, Dashed;
    if attributes != [] {
      EntriesAreClean(attributes[1..]);
      assert PlainAttribute(attributes[0]);
      if attributes[0].value.Some? {
        EntryIsClean(attributes[0].name, attributes[0].value.value);
        WordIsClean(attributes[0].value.value);
        assert Entries(attributes)[1..] == Entries(attributes[1..]);
        assert Values(attributes)[1..] == Values(attributes[1..]);
      }
    }
  }

  lemma ReservedNamesAreClean()
    ensures CleanName(Dashed("SET")) && CleanName(Dashed("LIKE")) && CleanName(Dashed("QCNT"))
  {
    DashedFixed("SET");
    DashedFixed("LIKE");
    DashedFixed("QCNT");
  }

  lemma ClauseIsClean(field: Field, commandType: string)
    requires PlainField(field, commandType)
    ensures match ClauseOf(field, commandType)
            case None => true
            case Some(c) => CleanName(Dashed(c.name)) && CleanItems(DashedItems(c.items)) && (c.separator == ", " || c.separator == ",")
  {
    hide CleanName, CleanItem, Dashed, Entries, Values;
    ReservedNamesAreClean();
    match field {
      case Single(name, Some(held)) =>
        if KindOf(WithoutDigits(name), commandType) == Plain {
          WordIsClean(WithoutDigits(name));
          WordsAreClean([held.text]);
        } else {
          EntriesAreClean(held.attributes);
        }
      case Many(name, Some(items)) =>
        WordIsClean(WithoutDigits(name));
        WordsAreClean(items);
      case _ =>
    }
  }

  lemma {:induction false} ClausesAreClean(fields: seq<Field>, commandType: string)
    requires PlainFields(fields, commandType)
    ensures CleanClauses(Clauses(fields, commandType))
  {
    hide CleanName, CleanItems, Dashed, ClauseOf, PlainField;
    if fields != [] {
      ClausesAreClean(fields[1..], commandType);
      ClauseIsClean(fields[0], commandType);
    }
  }

  lemma {:induction false} AllClausesAreClean(parts: seq<Option<seq<Field>>>, commandType: string)
    requires forall i :: 0 <= i < |parts| && parts[i].Some? ==> PlainFields(parts[i].value, commandType)
    ensures CleanClauses(AllClauses(parts, commandType))
  {
    hide CleanName, CleanItems, Clauses, PlainFields;
    if parts != [] {
      AllClausesAreClean(parts[1..], commandType);
      if parts[0].Some? {
        ClausesAreClean(parts[0].value, commandType);
      }
    }
  }

  /** Words alone make a command clean. */
  lemma PlainWordsAreClean(c: Command)
    requires PlainWords(c)
    ensures CleanCommand(c)
  {
    hide CleanClauses, CleanName, CleanItems;
    AllClausesAreClean(c.parts, c.resource);
    WordsAreClean(Routes(c));
  }

  /** Two commands made of words with the same text say the same. */
  lemma WordsDetermineMeaning(c: Command, d: Command)
    requires PlainWords(c) && PlainWords(d) && Generated(c) == Generated(d)
    ensures MeaningOf(c) == MeaningOf(d)
  {
    hide *;
    PlainWordsAreClean(c);
    PlainWordsAreClean(d);
    UniqueReadability(c, d);
  }
}
