/** Turning a type-2 command object into the text of an IMS command. */
module Type2Command {
  import opened CommandText
  import opened Results
  import opened Sequences

  /** An annotated field of a SET, LIKE or QCNT object, and the text of its value if it is not null. */
  datatype Attribute = Attribute(name: string, value: Option<string>)

  /** An object held by a field: what `toString` gives for it, and its own annotated fields. */
  datatype JavaObject = JavaObject(text: string, attributes: seq<Attribute>)

  /** An annotated field of a sub-command, in declaration order. */
  datatype Field =
    | Single(name: string, held: Option<JavaObject>)
    | Many(name: string, items: Option<seq<string>>)

  /** A command: its annotated fields hold the sub-commands, of which those that are not null are written. */
  datatype Command = Command(verb: string, resource: string, parts: seq<Option<seq<Field>>>, routes: Option<seq<string>>)

  // ----- the text of a command

  function Entries(attributes: seq<Attribute>): seq<string> {
    if attributes == [] then []
    else
      match attributes[0].value
      case Some(value) => [attributes[0].name + "(" + value + ")"] + Entries(attributes[1..])
      case None => Entries(attributes[1..])
  }

  function Values(attributes: seq<Attribute>): seq<string> {
    if attributes == [] then []
    else
      match attributes[0].value
      case Some(value) => [value] + Values(attributes[1..])
      case None => Values(attributes[1..])
  }

  /** A SET, LIKE or QCNT clause: without a populated attribute it has no space after it. */
  function NestedText(name: string, separator: string, items: seq<string>): string {
    if items == [] then name + "()" else name + "(" + Join(separator, items) + ") "
  }

  function ListText(name: string, items: seq<string>): string {
    if items == [] then "" else name + "(" + Join(", ", items) + ") "
  }

  datatype Kind = Plain | Set | Like | Qcnt

  /** Which fields are written as nested objects, by their name and by the resource of the command. */
  function KindOf(prefix: string, commandType: string): Kind {
    var name := UpperCase(prefix);
    if name == "SET" && commandType in {"DB", "TRAN", "RTC", "PGM"} then Set
    else if name == "LIKE" && commandType == "TRAN" then Like
    else if name == "QCNT" && commandType == "TRAN" then Qcnt
    else Plain
  }

  function UpperCase(s: string): string {
    seq(|s|, i requires 0 <= i < |s| => if 'a' <= s[i] <= 'z' then (s[i] as int - 32) as char else s[i])
  }

  /** `replaceAll("\\d", "")`. */
  function WithoutDigits(s: string): string {
    if s == "" then "" else (if '0' <= s[0] <= '9' then "" else [s[0]]) + WithoutDigits(s[1..])
  }

  function FieldText(field: Field, commandType: string): string {
    var prefix := WithoutDigits(field.name);
    match field
    case Single(_, None) => ""
    case Single(_, Some(held)) => ObjectText(prefix, held, commandType)
    case Many(_, None) => ""
    case Many(_, Some(items)) => ListText(prefix, items)
  }

  function ObjectText(prefix: string, held: JavaObject, commandType: string): string {
    match KindOf(prefix, commandType)
    case Set => NestedText("SET", ", ", Entries(held.attributes))
    case Like => NestedText("LIKE", ", ", Entries(held.attributes))
    case Qcnt => NestedText("QCNT", ",", Values(held.attributes))
    case Plain => prefix + "(" + held.text + ") "
  }

  function FieldsText(fields: seq<Field>, commandType: string): string {
    if fields == [] then "" else FieldText(fields[0], commandType) + FieldsText(fields[1..], commandType)
  }

  /** `replace('_', '-')`. */
  function Dashed(s: string): (r: string)
    ensures |r| == |s|
    ensures forall i :: 0 <= i < |s| ==> r[i] == if s[i] == '_' then '-' else s[i]
  {
    seq(|s|, i requires 0 <= i < |s| => if s[i] == '_' then '-' else s[i])
  }

  function PartsText(parts: seq<Option<seq<Field>>>, commandType: string): string {
    if parts == [] then ""
    else (if parts[0].Some? then Dashed(FieldsText(parts[0].value, commandType)) else "") + PartsText(parts[1..], commandType)
  }

  /** What stands between the outer brackets. */
  function Body(c: Command): string {
    Formatted(c.verb + " " + c.resource + " " + PartsText(c.parts, c.resource))
  }

  function RouteText(routes: Option<seq<string>>): string {
    if routes.Some? && routes.value != [] then "ROUTE(" + Join(",", routes.value) + ") " else ""
  }

  function Generated(c: Command): string {
    "CMD(" + Body(c) + ")" + RouteText(c.routes)
  }

  // ----- the code that builds it

  class Type2CommandSerializable {
    var commandType: string

    constructor ()
    {
      commandType := "";
    }

    method FromType2CommandObject(c: Command) returns (r: string)
      modifies this
      ensures r == Generated(c)
      ensures commandType == c.resource || (commandType == old(commandType) && forall part :: part in c.parts ==> part.None?)
    {
      hide PartsText, Formatted, Join, FieldsText, Dashed;
      var cmd := new StringBuilder("");
      cmd.Append("CMD");
      cmd.Append("(");
      cmd.Append(c.verb);
      cmd.Append(" ");
      cmd.Append(c.resource);
      cmd.Append(" ");
      ghost var prefix := c.verb + " " + c.resource + " ";
      assert cmd.text == "CMD(" + prefix;
      AppendParts(c, cmd);
      Regroup("CMD(", prefix, PartsText(c.parts, c.resource));
      FormattedSuffix("CMD(", prefix + PartsText(c.parts, c.resource));
      cmd.Format();
      cmd.Append(")");
      ghost var wrapped := "CMD(" + Body(c) + ")";
      assert cmd.text == wrapped;
      assert wrapped + "" == wrapped;
      if c.routes.Some? && |c.routes.value| > 0 {
        RetrieveRouteCommand("ROUTE", c.routes.value, cmd);
        assert "ROUTE" + "(" == "ROUTE(";
      }
      r := cmd.text;
    }

    /** The loop over the sub-commands. */
    method AppendParts(c: Command, cmd: StringBuilder)
      modifies this, cmd
      ensures cmd.text == old(cmd.text) + PartsText(c.parts, c.resource)
      ensures commandType == c.resource || (commandType == old(commandType) && forall part :: part in c.parts ==> part.None?)
    {
      hide FieldsText, Dashed;
      var i := 0;
      assert c.parts[0..] == c.parts;
      while i < |c.parts|
        invariant i <= |c.parts|
        invariant cmd.text + PartsText(c.parts[i..], c.resource) == old(cmd.text) + PartsText(c.parts, c.resource)
        invariant commandType == c.resource
                  || (commandType == old(commandType) && forall part :: part in c.parts[..i] ==> part.None?)
      {
        assert c.parts[i..][0] == c.parts[i] && c.parts[i..][1..] == c.parts[i + 1..];
        if c.parts[i].Some? {
          commandType := c.resource;
          var text := Parse(c.parts[i].value);
          Regroup(cmd.text, text, PartsText(c.parts[i + 1..], c.resource));
          cmd.Append(text);
        } else {
          assert "" + PartsText(c.parts[i + 1..], c.resource) == PartsText(c.parts[i + 1..], c.resource);
        }
        i := i + 1;
      }
      assert c.parts[i..] == [] && c.parts[..i] == c.parts;
    }

    method Parse(fields: seq<Field>) returns (r: string)
      ensures r == Dashed(FieldsText(fields, commandType))
    {
      hide FieldText;
      var cmd := new StringBuilder("");
      var i := 0;
      assert fields[0..] == fields;
      while i < |fields|
        invariant i <= |fields| && fresh(cmd)
        invariant cmd.text + FieldsText(fields[i..], commandType) == FieldsText(fields, commandType)
      {
        assert fields[i..][0] == fields[i] && fields[i..][1..] == fields[i + 1..];
        Regroup(cmd.text, FieldText(fields[i], commandType), FieldsText(fields[i + 1..], commandType));
        ParseField(fields[i], cmd);
        i := i + 1;
      }
      assert fields[i..] == [];
      return Dashed(cmd.text);
    }

    method ParseField(field: Field, cmd: StringBuilder)
      modifies cmd
      ensures cmd.text == old(cmd.text) + FieldText(field, commandType)
    {
      hide ObjectText, ListText;
      assert cmd.text + "" == cmd.text;
      var prefix := WithoutDigits(field.name);
      match field {
        case Single(_, None) =>
        case Single(_, Some(held)) => RetrieveCommand(prefix, held, cmd);
        case Many(_, None) =>
        case Many(_, Some(list)) => RetrieveListCommand(prefix, list, cmd);
      }
    }

    method RetrieveCommand(prefix: string, held: JavaObject, cmd: StringBuilder)
      modifies cmd
      ensures cmd.text == old(cmd.text) + ObjectText(prefix, held, commandType)
    {
      match KindOf(prefix, commandType)
      case Set =>
        var text := RetrieveSetSingle(held);
        cmd.Append(text);
      case Like =>
        var text := RetrieveLikeSingle(held);
        cmd.Append(text);
      case Qcnt =>
        var text := RetrieveQCNT(held);
        cmd.Append(text);
      case Plain =>
        cmd.Append(prefix);
        cmd.Append("(");
        cmd.Append(held.text);
        cmd.Append(")");
        cmd.Append(" ");
        assert cmd.text == old(cmd.text) + (prefix + "(" + held.text + ") ");
    }

    method RetrieveListCommand(prefix: string, list: seq<string>, cmd: StringBuilder)
      modifies cmd
      ensures cmd.text == old(cmd.text) + ListText(prefix, list)
    {
      if |list| > 0 {
        cmd.Append(prefix);
        cmd.Append("(");
        cmd.AppendJoined(", ", list);
        cmd.Append(")");
        cmd.Append(" ");
        assert cmd.text == old(cmd.text) + (prefix + "(" + Join(", ", list) + ") ");
      }
    }

    method RetrieveRouteCommand(prefix: string, list: seq<string>, cmd: StringBuilder)
      modifies cmd
      ensures cmd.text == old(cmd.text) + if list == [] then "" else prefix + "(" + Join(",", list) + ") "
    {
      if |list| > 0 {
        cmd.Append(prefix);
        cmd.Append("(");
        cmd.AppendJoined(",", list);
        cmd.Append(")");
        cmd.Append(" ");
        assert cmd.text == old(cmd.text) + (prefix + "(" + Join(",", list) + ") ");
      }
    }

    method RetrieveSetSingle(set_: JavaObject) returns (r: string)
      ensures r == NestedText("SET", ", ", Entries(set_.attributes))
    {
      hide Join, Terminated, NestedText, Formatted, Entries;
      ghost var open, items := "SET" + "(", Entries(set_.attributes);
      var cmd := new StringBuilder("");
      cmd.Append("SET");
      cmd.Append("(");
      assert cmd.text == open;
      NestedParts("SET", ", ", items);
      var populated := AppendEntries(set_.attributes, cmd);
      if !populated {
        NothingTerminated(open, ", ", items);
        cmd.Append(")");
        return cmd.text;
      }
      StripsToJoin(open, ", ", items);
      cmd.Format();
      cmd.Format();
      cmd.Append(")");
      cmd.Append(" ");
      return cmd.text;
    }

    method RetrieveLikeSingle(like: JavaObject) returns (r: string)
      ensures r == NestedText("LIKE", ", ", Entries(like.attributes))
    {
      hide Join, Terminated, NestedText, Formatted, Entries;
      ghost var open, items := "LIKE" + "(", Entries(like.attributes);
      var cmd := new StringBuilder("");
      cmd.Append("LIKE");
      cmd.Append("(");
      assert cmd.text == open;
      NestedParts("LIKE", ", ", items);
      var populated := AppendEntries(like.attributes, cmd);
      if !populated {
        NothingTerminated(open, ", ", items);
        cmd.Append(")");
        return cmd.text;
      }
      StripsToJoin(open, ", ", items);
      cmd.Format();
      cmd.Format();
      ThirdFormatDoesNothing(open, like.attributes);
      cmd.Format();
      cmd.Append(")");
      cmd.Append(" ");
      return cmd.text;
    }

    method RetrieveQCNT(qcnt: JavaObject) returns (r: string)
      ensures r == NestedText("QCNT", ",", Values(qcnt.attributes))
    {
      hide Join, NestedText, Formatted, Terminated;
      ghost var open, items := "QCNT" + "(", Values(qcnt.attributes);
      var cmd := new StringBuilder("");
      cmd.Append("QCNT");
      cmd.Append("(");
      assert cmd.text == open;
      NestedParts("QCNT", ",", items);
      var populated := AppendValues(qcnt.attributes, cmd);
      if !populated {
        NothingTerminated(open, ",", items);
        cmd.Append(")");
        return cmd.text;
      }
      StripsToJoin(open, ",", items);
      cmd.Format();
      cmd.Append(")");
      cmd.Append(" ");
      return cmd.text;
    }

    /** The QCNT loop: every populated attribute's value with a comma after it. */
    method AppendValues(attributes: seq<Attribute>, cmd: StringBuilder) returns (populated: bool)
      modifies cmd
      ensures cmd.text == old(cmd.text) + Terminated(",", Values(attributes))
      ensures populated <==> Values(attributes) != []
    {
      populated := false;
      var i := 0;
      assert attributes[0..] == attributes;
      while i < |attributes|
        invariant i <= |attributes|
        invariant cmd.text + Terminated(",", Values(attributes[i..])) == old(cmd.text) + Terminated(",", Values(attributes))
        invariant populated || Values(attributes[i..]) != [] <==> Values(attributes) != []
      {
        var attribute := attributes[i];
        assert attributes[i..][0] == attribute && attributes[i..][1..] == attributes[i + 1..];
        if attribute.value.Some? {
          populated := true;
          TerminatedStep(cmd.text, ",", attribute.value.value, Values(attributes[i + 1..]));
          cmd.Append(attribute.value.value);
          cmd.Append(",");
        }
        i := i + 1;
      }
      assert attributes[i..] == [];
    }

    /** The loop shared by SET and LIKE: every populated attribute as NAME(value) with a comma and a space after it. */
    method AppendEntries(attributes: seq<Attribute>, cmd: StringBuilder) returns (populated: bool)
      modifies cmd
      ensures cmd.text == old(cmd.text) + Terminated(", ", Entries(attributes))
      ensures populated <==> Entries(attributes) != []
    {
      populated := false;
      var i := 0;
      assert attributes[0..] == attributes;
      while i < |attributes|
        invariant i <= |attributes|
        invariant cmd.text + Terminated(", ", Entries(attributes[i..])) == old(cmd.text) + Terminated(", ", Entries(attributes))
        invariant populated || Entries(attributes[i..]) != [] <==> Entries(attributes) != []
      {
        var attribute := attributes[i];
        assert attributes[i..][0] == attribute && attributes[i..][1..] == attributes[i + 1..];
        if attribute.value.Some? {
          populated := true;
          var value := attribute.value.value;
          ghost var before := cmd.text;
          TerminatedStep(before, ", ", attribute.name + "(" + value + ")", Entries(attributes[i + 1..]));
          cmd.Append(attribute.name);
          cmd.Append("(");
          cmd.Append(value);
          cmd.Append(")");
          cmd.Append(", ");
          assert cmd.text == before + (attribute.name + "(" + value + ")") + ", ";
        }
        i := i + 1;
      }
      assert attributes[i..] == [];
    }
  }

  lemma TerminatedStep(before: string, separator: string, item: string, later: seq<string>)
    ensures before + Terminated(separator, [item] + later) == before + item + separator + Terminated(separator, later)
  {
    assert ([item] + later)[1..] == later;
    Regroup(before, item, separator);
    Regroup(before, item + separator, Terminated(separator, later));
  }

  /** Dropping the last separator, one character a call, leaves the items joined, whatever they are. */
  lemma StripsToJoin(open: string, separator: string, items: seq<string>)
    requires items != [] && open != "" && (separator == "," || separator == ", ")
    ensures var text := open + Terminated(separator, items);
            && Formatted(text) == open + Join(separator, items) + separator[..|separator| - 1]
            && (separator == ", " ==> Formatted(Formatted(text)) == open + Join(separator, items))
            && (separator == "," ==> Formatted(text) == open + Join(separator, items))
  {
    TerminatedIsJoin(separator, items);
    var joined := open + Join(separator, items);
    Regroup(open, Join(separator, items), separator);
    FormattedSuffix(joined, separator);
    assert joined + "" == joined;
    if separator == ", " {
      assert separator[..1] == ",";
      FormattedSuffix(joined, ",");
      assert ","[..0] == "";
    }
  }

  lemma NothingTerminated(open: string, separator: string, items: seq<string>)
    requires items == []
    ensures open + Terminated(separator, items) == open
  {
  }

  lemma NestedParts(name: string, separator: string, items: seq<string>)
    ensures items == [] ==> name + "(" + ")" == NestedText(name, separator, items)
    ensures items != [] ==> name + "(" + Join(separator, items) + ")" + " " == NestedText(name, separator, items)
  {
    hide Join;
  }

  /** An entry ends with a closing bracket, so there is nothing left for a third `format` to drop. */
  lemma ThirdFormatDoesNothing(open: string, attributes: seq<Attribute>)
    requires Entries(attributes) != [] && open != ""
    ensures Formatted(open + Join(", ", Entries(attributes))) == open + Join(", ", Entries(attributes))
  {
    JoinEndsWithBracket(attributes);
    FormattedSuffix(open, Join(", ", Entries(attributes)));
  }

  lemma {:induction false} JoinEndsWithBracket(attributes: seq<Attribute>)
    requires Entries(attributes) != []
    ensures var text := Join(", ", Entries(attributes)); text != "" && text[|text| - 1] == ')'
  {
    var items := Entries(attributes);
    if attributes[0].value.None? {
      JoinEndsWithBracket(attributes[1..]);
    } else if Entries(attributes[1..]) != [] {
      JoinEndsWithBracket(attributes[1..]);
      assert items[1..] == Entries(attributes[1..]);
    }
  }
}
