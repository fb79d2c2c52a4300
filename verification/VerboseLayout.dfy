/** The verbose serializer's text, line by line. */
module VerboseLayout {
  import opened JsonPrinter
  import opened JsonValues
  import opened Sequences

  /** A line of text and how many brackets are open around it. */
  datatype Line = Line(depth: nat, text: string)

  /** The lines of a value that has `before` in front of it on its first line and `after` behind it on its last. */
  function LinesOf(v: Json, depth: nat, before: string, after: string): seq<Line>
    decreases v, 1
  {
    match v
    case Arr(es) => [Line(depth, before + "[")] + ElementLines(es, depth + 1) + [Line(depth, "]" + after)]
    case Obj(ms) => [Line(depth, before + "{")] + MemberLines(ms, depth + 1) + [Line(depth, "}" + after)]
    case Null => [Line(depth, before + "null" + after)]
    case Bool(b) => [Line(depth, before + (if b then "true" else "false") + after)]
    case Num(n) => [Line(depth, before + NumberText(n) + after)]
    case Str(s) => [Line(depth, before + Quoted(s) + after)]
  }

  function ElementLines(es: seq<Json>, depth: nat): seq<Line>
    decreases es, 0
  {
    if es == [] then [] else LinesOf(es[0], depth, "", if |es| == 1 then "" else ",") + ElementLines(es[1..], depth)
  }

  function MemberLines(ms: seq<Member>, depth: nat): seq<Line>
    decreases ms, 0
  {
    if ms == [] then []
    else LinesOf(ms[0].value, depth, Quoted(ms[0].key) + ": ", if |ms| == 1 then "" else ",") + MemberLines(ms[1..], depth)
  }

  /** Every line on its own, three blanks for each open bracket. */
  function Printed(lines: seq<Line>): string {
    if lines == [] then ""
    else "\n" + seq(3 * lines[0].depth, _ => ' ') + lines[0].text + Printed(lines[1..])
  }

  lemma {:induction false} PrintedConcat(a: seq<Line>, b: seq<Line>)
    ensures Printed(a + b) == Printed(a) + Printed(b)
  {
    if a == [] {
      assert a + b == b;
    } else {
      PrintedConcat(a[1..], b);
      assert (a + b)[1..] == a[1..] + b;
      Regroup("\n" + seq(3 * a[0].depth, _ => ' ') + a[0].text, Printed(a[1..]), Printed(b));
    }
  }

  function Start(depth: nat): string {
    "\n" + seq(3 * depth, _ => ' ')
  }

  lemma PrintedOne(line: Line)
    ensures Printed([line]) == Start(line.depth) + line.text
  {
    assert [line][1..] == [];
    assert Start(line.depth) + line.text + "" == Start(line.depth) + line.text;
  }

  lemma BreakIsStart(depth: nat)
    ensures LineBreak(VERBOSE, depth) == Start(depth)
  {
  }

  /** A container between its two bracket lines. */
  lemma Framed3(depth: nat, before: string, open: string, inner: seq<Line>, close: string, after: string)
    ensures Printed([Line(depth, before + open)] + inner + [Line(depth, close + after)])
         == Start(depth) + (before + (open + Printed(inner) + Start(depth) + close) + after)
  {
    hide Printed, Start;
    var first, last := Line(depth, before + open), Line(depth, close + after);
    PrintedConcat([first] + inner, [last]);
    PrintedConcat([first], inner);
    PrintedOne(first);
    PrintedOne(last);
    var s, p := Start(depth), Printed(inner);
    assert s + (before + open) + p + (s + (close + after)) == s + (before + (open + p + s + close) + after);
  }

  /** The verbose text of any value is its lines, one below the other. */
  lemma {:induction false} VerboseLines(v: Json, depth: nat, before: string, after: string)
    ensures Printed(LinesOf(v, depth, before, after)) == Start(depth) + (before + Text(v, VERBOSE, depth) + after)
    decreases v, 1
  {
    hide Printed, Start;
    BreakIsStart(depth);
    match v {
      case Arr(es) =>
        ElementsPrinted(es, depth + 1);
        Framed3(depth, before, "[", ElementLines(es, depth + 1), "]", after);
      case Obj(ms) =>
        MembersPrinted(ms, depth + 1);
        Framed3(depth, before, "{", MemberLines(ms, depth + 1), "}", after);
      case Null => PrintedOne(Line(depth, before + "null" + after));
      case Bool(b) => PrintedOne(Line(depth, before + (if b then "true" else "false") + after));
      case Num(n) => PrintedOne(Line(depth, before + NumberText(n) + after));
      case Str(s) => PrintedOne(Line(depth, before + Quoted(s) + after));
    }
  }

  lemma {:induction false} ElementsPrinted(es: seq<Json>, depth: nat)
    ensures Printed(ElementLines(es, depth)) == ElementsText(es, VERBOSE, depth)
    decreases es, 0
  {
    hide Start, Text, LinesOf;
    if es != [] {
      var after := if |es| == 1 then "" else ",";
      VerboseLines(es[0], depth, "", after);
      ElementsPrinted(es[1..], depth);
      PrintedConcat(LinesOf(es[0], depth, "", after), ElementLines(es[1..], depth));
      BreakIsStart(depth);
      Regroup(Start(depth), Text(es[0], VERBOSE, depth), after);
      assert "" + Text(es[0], VERBOSE, depth) == Text(es[0], VERBOSE, depth);
    }
  }

  lemma {:induction false} MembersPrinted(ms: seq<Member>, depth: nat)
    ensures Printed(MemberLines(ms, depth)) == MembersText(ms, VERBOSE, depth)
    decreases ms, 0
  {
    hide Start, Text, LinesOf, Quoted, MemberText;
    if ms != [] {
      var key, after := Quoted(ms[0].key), if |ms| == 1 then "" else ",";
      VerboseLines(ms[0].value, depth, key + ": ", after);
      MembersPrinted(ms[1..], depth);
      PrintedConcat(LinesOf(ms[0].value, depth, key + ": ", after), MemberLines(ms[1..], depth));
      MemberLine(ms[0], |ms| > 1, depth);
    }
  }

  lemma MemberLine(m: Member, more: bool, depth: nat)
    ensures MemberText(m, more, VERBOSE, depth)
         == Start(depth) + (Quoted(m.key) + ": " + Text(m.value, VERBOSE, depth) + if more then "," else "")
  {
    hide Text, Quoted, Start;
    BreakIsStart(depth);
    hide LineBreak;
    var s, k, t, c := Start(depth), Quoted(m.key), Text(m.value, VERBOSE, depth), if more then "," else "";
    assert MemberText(m, more, VERBOSE, depth) == s + k + ":" + " " + t + c;
    assert s + k + ":" + " " + t + c == s + (k + ": " + t + c);
  }
}
