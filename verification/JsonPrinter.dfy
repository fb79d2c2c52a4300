/** The JSON serializers: what they write, and the class that writes it. */
module JsonPrinter {
  import opened JsonNumbers
  import opened JsonValues
  import opened Numerals
  import opened Results
  import opened Sequences
  import Sanitizer

  /** What distinguishes the four serializer classes: the pretty-printing hooks, and whether `writeObject` is
      the overriding one that cleanses values. */
  datatype Style = Style(space: string, newLine: string, indent: nat -> string, sanitizing: bool)

  /** `Serializer` and `SerializerVerbose`. */
  const COMPACT := Style("", "", (depth: nat) => "", false)
  const VERBOSE := Style(" ", "\n", (depth: nat) => seq(3 * depth, _ => ' '), false)

  /** Section 2 of RFC 8259: space, horizontal tab, line feed, carriage return. */
  predicate IsBlank(c: char) {
    c == ' ' || c == '\t' || c == '\n' || c == '\r'
  }

  predicate AllBlank(s: string) {
    forall i :: 0 <= i < |s| ==> IsBlank(s[i])
  }

  /** The hooks write nothing but JSON whitespace. */
  ghost predicate BlankHooks(style: Style) {
    && AllBlank(style.space)
    && AllBlank(style.newLine)
    && forall depth: nat :: AllBlank(style.indent(depth))
  }

  /** What is written for one code unit of a string. */
  function EscapedUnit(u: Utf16): (s: string)
    ensures s != ""
  {
    if u == '\"' as int then "\\\""
    else if u == '\\' as int then "\\\\"
    else if u == 0 then "\\0"
    else if u == 8 then "\\b"
    else if u == 9 then "\\t"
    else if u == 10 then "\\n"
    else if u == 12 then "\\f"
    else if u == 13 then "\\r"
    else if u == '/' as int then "\\/"
    else if 32 <= u <= 126 then [u as char]
    else "\\u" + RightAlignedZero(Numeral(u, 16), 4)
  }

  function RightAlignedZero(s: string, len: nat): string {
    Zeros(if |s| < len then len - |s| else 0) + s
  }

  function Escaped(u: Units): string {
    if u == [] then "" else EscapedUnit(u[0]) + Escaped(u[1..])
  }

  function Quoted(u: Units): string {
    "\"" + Escaped(u) + "\""
  }

  function NumberText(n: Number): string {
    if n.IsFinite() then NumeralText(n) else "null"
  }

  function LineBreak(style: Style, depth: nat): string {
    style.newLine + style.indent(depth)
  }

  /** The text written for a value at an indent depth. */
  function Text(v: Json, style: Style, depth: nat): string
    decreases v.Container(), v, 1
  {
    match v
    case Null => "null"
    case Bool(b) => if b then "true" else "false"
    case Num(n) => NumberText(n)
    case Str(s) => Quoted(s)
    case Arr(es) => "[" + ElementsText(es, style, depth + 1) + LineBreak(style, depth) + "]"
    case Obj(ms) => "{" + MembersText(ms, style, depth + 1) + LineBreak(style, depth) + "}"
  }

  function ElementsText(es: seq<Json>, style: Style, depth: nat): string
    decreases true, es, 0
  {
    if es == [] then ""
    else ElementText(es[0], |es| > 1, style, depth) + ElementsText(es[1..], style, depth)
  }

  /** One array element on its own line, with a comma if more elements follow. */
  function ElementText(e: Json, more: bool, style: Style, depth: nat): string
    decreases true, e, 2
  {
    LineBreak(style, depth) + Text(e, style, depth) + Separator(more)
  }

  function MembersText(ms: seq<Member>, style: Style, depth: nat): string
    decreases true, ms, 0
  {
    if ms == [] then ""
    else MemberText(ms[0], |ms| > 1, style, depth) + MembersText(ms[1..], style, depth)
  }

  /** One entry on its own line, with a comma if more entries follow. */
  function MemberText(m: Member, more: bool, style: Style, depth: nat): string
    decreases true, m, 2
  {
    LineBreak(style, depth) + Quoted(m.key) + ":" + style.space
    + Text(Cleansed(m.key, m.value, style), style, depth) + Separator(more)
  }

  function Separator(more: bool): string {
    if more then "," else ""
  }

  /** The value handed to `write` for an entry: the sanitising classes cleanse it first. */
  function Cleansed(key: Units, value: Json, style: Style): (r: Json)
    ensures r == value || r == Str(Sanitizer.MASK)
  {
    if style.sanitizing then Sanitizer.Sanitize(key, value) else value
  }

  ghost function Appended(before: string, done: string, piece: string): (r: string)
    ensures r == done + piece
    ensures before + r == before + done + piece
  {
    Regroup(before, done, piece);
    done + piece
  }

  class Serializer {
    /** What has been written so far. */
    var written: string
    /** The indent depth of the verbose serializer. */
    var depth: nat
    const style: Style

    constructor (style: Style)
      ensures written == "" && depth == 0 && this.style == style
    {
      written := "";
      depth := 0;
      this.style := style;
    }

    method WriteRawString(s: string)
      modifies this`written
      ensures written == old(written) + s
    {
      written := written + s;
    }

    method Space()
      modifies this`written
      ensures written == old(written) + style.space
    {
      WriteRawString(style.space);
    }

    method NewLine()
      modifies this`written
      ensures written == old(written) + style.newLine
    {
      WriteRawString(style.newLine);
    }

    method Indent()
      modifies this`written
      ensures written == old(written) + style.indent(depth)
    {
      WriteRawString(style.indent(depth));
    }

    method IndentPush()
      modifies this`depth
      ensures depth == old(depth) + 1
    {
      depth := depth + 1;
    }

    /** The verbose serializer throws an IllegalStateException at depth 0; no write ever gets there. */
    method IndentPop()
      requires depth > 0
      modifies this`depth
      ensures depth == old(depth) - 1
    {
      depth := depth - 1;
    }

    method WriteNull()
      modifies this`written
      ensures written == old(written) + "null"
    {
      WriteRawString("null");
    }

    /** NaN and the infinities, which `Float` and `Double` both have, are written as null, any other number as the text
        of section 6 of RFC 8259 that denotes it. */
    method WriteNumber(n: Number)
      modifies this`written
      ensures written == old(written) + NumberText(n)
      ensures if n.IsFinite() then Proper(n) ==> NumberOf(NumberText(n)) == Some(n) else NumberText(n) == "null"
    {
      if n.NaN? {
        WriteNull();
        return;
      }
      if n.NegativeInfinity? {
        WriteNull();
        return;
      }
      if n.PositiveInfinity? {
        WriteNull();
        return;
      }
      WriteRawString(NumeralText(n));
      if Proper(n) {
        TextDenotes(n);
      }
    }

    /** The padding loop that inserts zeros at the front of a buffer. */
    static method PadWithZeros(s: string, len: nat) returns (r: string)
      ensures r == RightAlignedZero(s, len)
    {
      r := s;
      while |r| < len
        invariant |s| <= |r|
        invariant |s| < |r| ==> |r| <= len
        invariant r == Zeros(|r| - |s|) + s
      {
        r := ['0'] + r;
        assert ['0'] + Zeros(|r| - 1 - |s|) == Zeros(|r| - |s|);
      }
    }

    method WriteString(value: Units)
      modifies this`written
      ensures written == old(written) + Quoted(value)
    {
      WriteRawString("\"");
      var i := 0;
      assert value[0..] == value;
      while i < |value|
        invariant i <= |value|
        invariant written + Escaped(value[i..]) == old(written) + "\"" + Escaped(value)
      {
        assert value[i..][1..] == value[i + 1..];
        Regroup(written, EscapedUnit(value[i]), Escaped(value[i + 1..]));
        WriteUnit(value[i]);
        i := i + 1;
      }
      assert written == old(written) + "\"" + Escaped(value);
      Regroup(old(written), "\"", Escaped(value));
      WriteRawString("\"");
      Regroup(old(written), "\"" + Escaped(value), "\"");
    }

    /** The switch over one character. */
    method WriteUnit(u: Utf16)
      modifies this`written
      ensures written == old(written) + EscapedUnit(u)
    {
      if u == '\"' as int { WriteRawString("\\\""); }
      else if u == '\\' as int { WriteRawString("\\\\"); }
      else if u == 0 { WriteRawString("\\0"); }
      else if u == 8 { WriteRawString("\\b"); }
      else if u == 9 { WriteRawString("\\t"); }
      else if u == 10 { WriteRawString("\\n"); }
      else if u == 12 { WriteRawString("\\f"); }
      else if u == 13 { WriteRawString("\\r"); }
      else if u == '/' as int { WriteRawString("\\/"); }
      else if 32 <= u <= 126 { WriteRawString([u as char]); }
      else {
        WriteRawString("\\u");
        var digits := PadWithZeros(Numeral(u, 16), 4);
        WriteRawString(digits);
        Regroup(old(written), "\\u", digits);
      }
    }

    /** Writes any value, and leaves the depth as it found it. */
    method Write(v: Json)
      modifies this`written, this`depth
      ensures written == old(written) + Text(v, style, old(depth))
      ensures depth == old(depth)
      decreases v.Container(), v, 1
    {
      match v
      case Null => WriteNull();
      case Bool(b) => WriteRawString(if b then "true" else "false");
      case Num(n) => WriteNumber(n);
      case Str(s) => WriteString(s);
      case Arr(es) => WriteArray(es);
      case Obj(ms) => WriteObject(ms);
    }

    method WriteElement(e: Json, more: bool)
      modifies this`written, this`depth
      ensures written == old(written) + ElementText(e, more, style, depth)
      ensures depth == old(depth)
      decreases true, e, 2
    {
      ghost var before := written;
      NewLine();
      Indent();
      Regroup(before, style.newLine, style.indent(depth));
      Write(e);
      Regroup(before, LineBreak(style, depth), Text(e, style, depth));
      if more {
        WriteRawString(",");
      }
      Regroup(before, LineBreak(style, depth) + Text(e, style, depth), Separator(more));
    }

    method WriteMember(m: Member, more: bool)
      modifies this`written, this`depth
      ensures written == old(written) + MemberText(m, more, style, depth)
      ensures depth == old(depth)
      decreases true, m, 2
    {
      ghost var before := written;
      NewLine();
      Indent();
      ghost var done := LineBreak(style, depth);
      Regroup(before, style.newLine, style.indent(depth));
      WriteString(m.key);
      done := Appended(before, done, Quoted(m.key));
      WriteRawString(":");
      done := Appended(before, done, ":");
      Space();
      done := Appended(before, done, style.space);
      var value := Cleansed(m.key, m.value, style);
      Write(value);
      done := Appended(before, done, Text(value, style, depth));
      if more {
        WriteRawString(",");
      }
      done := Appended(before, done, Separator(more));
    }

    method WriteArray(es: seq<Json>)
      modifies this`written, this`depth
      ensures written == old(written) + Text(Arr(es), style, old(depth))
      ensures depth == old(depth)
      decreases true, es, 0
    {
      hide Text, ElementsText, ElementText;
      ghost var elements := ElementsText(es, style, depth + 1);
      WriteRawString("[");
      IndentPush();
      ghost var start := written;
      var i := 0;
      assert es[0..] == es;
      while i < |es|
        invariant i <= |es| && depth == old(depth) + 1
        invariant written + ElementsText(es[i..], style, depth) == start + elements
      {
        ElementsStep(es, style, depth, i);
        Regroup(written, ElementText(es[i], i + 1 < |es|, style, depth), ElementsText(es[i + 1..], style, depth));
        WriteElement(es[i], i + 1 < |es|);
        i := i + 1;
      }
      ElementsStep(es, style, depth, i);
      assert written + "" == start + elements;
      IndentPop();
      NewLine();
      Indent();
      WriteRawString("]");
      ArrayText(es, style, depth);
      Framed(old(written), "[", elements, style.newLine, style.indent(depth), "]");
    }

    method WriteObject(ms: seq<Member>)
      modifies this`written, this`depth
      ensures written == old(written) + Text(Obj(ms), style, old(depth))
      ensures depth == old(depth)
      decreases true, ms, 0
    {
      hide Text, MembersText, MemberText;
      ghost var members := MembersText(ms, style, depth + 1);
      WriteRawString("{");
      IndentPush();
      ghost var start := written;
      var i := 0;
      assert ms[0..] == ms;
      while i < |ms|
        invariant i <= |ms| && depth == old(depth) + 1
        invariant written + MembersText(ms[i..], style, depth) == start + members
      {
        MembersStep(ms, style, depth, i);
        Regroup(written, MemberText(ms[i], i + 1 < |ms|, style, depth), MembersText(ms[i + 1..], style, depth));
        WriteMember(ms[i], i + 1 < |ms|);
        i := i + 1;
      }
      MembersStep(ms, style, depth, i);
      assert written + "" == start + members;
      IndentPop();
      NewLine();
      Indent();
      WriteRawString("}");
      ObjectText(ms, style, depth);
      Framed(old(written), "{", members, style.newLine, style.indent(depth), "}");
    }
  }

  lemma ElementsStep(es: seq<Json>, style: Style, depth: nat, i: nat)
    requires i <= |es|
    ensures i == |es| ==> ElementsText(es[i..], style, depth) == ""
    ensures i < |es| ==>
              ElementsText(es[i..], style, depth) == ElementText(es[i], i + 1 < |es|, style, depth) + ElementsText(es[i + 1..], style, depth)
  {
    hide ElementText;
    if i < |es| {
      assert es[i..][1..] == es[i + 1..];
    }
  }

  lemma MembersStep(ms: seq<Member>, style: Style, depth: nat, i: nat)
    requires i <= |ms|
    ensures i == |ms| ==> MembersText(ms[i..], style, depth) == ""
    ensures i < |ms| ==>
              MembersText(ms[i..], style, depth) == MemberText(ms[i], i + 1 < |ms|, style, depth) + MembersText(ms[i + 1..], style, depth)
  {
    hide MemberText;
    if i < |ms| {
      assert ms[i..][1..] == ms[i + 1..];
    }
  }

  lemma ArrayText(es: seq<Json>, style: Style, depth: nat)
    ensures Text(Arr(es), style, depth) == "[" + ElementsText(es, style, depth + 1) + (style.newLine + style.indent(depth)) + "]"
  {
  }

  lemma ObjectText(ms: seq<Member>, style: Style, depth: nat)
    ensures Text(Obj(ms), style, depth) == "{" + MembersText(ms, style, depth + 1) + (style.newLine + style.indent(depth)) + "}"
  {
  }

  lemma Framed(before: string, open: string, inner: string, newLine: string, indent: string, close: string)
    ensures before + open + inner + newLine + indent + close == before + (open + inner + (newLine + indent) + close)
  {
    Regroup(before, open, inner);
    Regroup(before + (open + inner), newLine, indent);
    Regroup(before, open + inner, newLine + indent);
    Regroup(before, open + inner + (newLine + indent), close);
  }
}
