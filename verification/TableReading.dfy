/** Reading a printed table back: cutting it into lines at line breaks and into pieces at tabs. */
module TableReading {
  import opened Brackets
  import opened FidColumns
  import opened PropertyTables
  import opened ResultTable
  import opened Sequences

  // ----- the reader

  /** The pieces of a text between the characters `c`. */
  function Cut(s: string, c: char): (pieces: seq<string>)
    ensures pieces != []
  {
    if s == "" then [""]
    else if s[0] == c then [""] + Cut(s[1..], c)
    else
      var rest := Cut(s[1..], c);
      [[s[0]] + rest[0]] + rest[1..]
  }

  /** The trimmed pieces of a line that has a tab behind each. */
  function Fields(line: string): seq<string> {
    var pieces := Cut(line, '\t');
    Trimmed(pieces[..|pieces| - 1])
  }

  function FieldsOf(lines: seq<string>): (fields: seq<seq<string>>)
    ensures |fields| == |lines|
  {
    seq(|lines|, i requires 0 <= i < |lines| => Fields(lines[i]))
  }

  function ReadTable(text: string): seq<seq<string>> {
    FieldsOf(Cut(text, '\n'))
  }

  // ----- what should be in the table

  /** Something that can be seen stands under the name. */
  predicate SeenIn(row: Entries, name: string) {
    name in row && exists k :: 0 <= k < |row[name]| && row[name][k] > ' '
  }

  predicate SeenSomewhere(rows: Rows, name: string) {
    exists i :: 0 <= i < |rows| && SeenIn(rows[i], name)
  }

  /** The names under which some row has something to see, in header order. */
  function NamesSeen(headers: seq<Header>, rows: Rows): seq<string> {
    if headers == [] then []
    else (if SeenSomewhere(rows, headers[0].name) then [headers[0].name] else []) + NamesSeen(headers[1..], rows)
  }

  /** A row's values under these names, trimmed; nothing where the row has none. */
  function ValuesSeen(row: Entries, names: seq<string>): (values: seq<string>)
    ensures |values| == |names|
  {
    seq(|names|, k requires 0 <= k < |names| => if names[k] in row then Trim(row[names[k]]) else "")
  }

  // ----- cutting

  lemma {:induction false} NothingToCut(s: string, c: char)
    requires c !in s
    ensures Cut(s, c) == [s]
  {
    if s != "" {
      assert s == [s[0]] + s[1..];
      NothingToCut(s[1..], c);
    }
  }

  lemma {:induction false} CutConcat(a: string, c: char, b: string)
    ensures Cut(a + [c] + b, c) == Cut(a, c) + Cut(b, c)
  {
    hide Cut;
    var s := a + [c] + b;
    CutStep(s, c);
    if a == "" {
      NothingToCut(a, c);
      assert s[0] == c && s[1..] == b;
    } else {
      CutConcat(a[1..], c, b);
      assert s[0] == a[0] && s[1..] == a[1..] + [c] + b;
      CutStep(a, c);
      FirstGroups(if a[0] == c then [""] else [], a[0], Cut(a[1..], c), Cut(b, c));
    }
  }

  lemma FirstGroups(front: seq<string>, c: char, a: seq<string>, b: seq<string>)
    requires a != []
    ensures front + (a + b) == front + a + b
    ensures [[c] + (a + b)[0]] + (a + b)[1..] == [[c] + a[0]] + a[1..] + b
  {
  }

  lemma CutStep(s: string, c: char)
    requires s != ""
    ensures Cut(s, c) ==
            if s[0] == c then [""] + Cut(s[1..], c) else [[s[0]] + Cut(s[1..], c)[0]] + Cut(s[1..], c)[1..]
  {
  }

  /** Text without the character makes the last piece longer. */
  lemma {:induction false} CutTail(a: string, t: string, c: char)
    requires c !in t
    ensures Cut(a + t, c) == Longer(Cut(a, c), t)
  {
    hide Cut, Longer;
    if a == "" {
      NothingToCut(t, c);
      NothingToCut("", c);
      assert a + t == t && "" + t == t;
      OneLonger("", t);
    } else {
      var s := a + t;
      CutTail(a[1..], t, c);
      assert s[0] == a[0] && s[1..] == a[1..] + t;
      CutStep(s, c);
      CutStep(a, c);
      LongerFront(Cut(a[1..], c), t, a[0]);
    }
  }

  /** The same pieces, the last with `t` behind it. */
  function Longer(pieces: seq<string>, t: string): seq<string>
    requires pieces != []
  {
    pieces[..|pieces| - 1] + [pieces[|pieces| - 1] + t]
  }

  lemma OneLonger(piece: string, t: string)
    ensures Longer([piece], t) == [piece + t]
  {
  }

  lemma LongerFront(pieces: seq<string>, t: string, c: char)
    requires pieces != []
    ensures Longer([""] + pieces, t) == [""] + Longer(pieces, t)
    ensures Longer(pieces, t) != []
    ensures Longer([[c] + pieces[0]] + pieces[1..], t) == [[c] + Longer(pieces, t)[0]] + Longer(pieces, t)[1..]
  {
    if |pieces| == 1 {
      Regroup([c], pieces[0], t);
    }
  }

  /** Cells with a tab behind each. */
  function Tabbed(cells: seq<string>): string {
    if cells == [] then "" else cells[0] + "\t" + Tabbed(cells[1..])
  }

  ghost predicate NoneHas(cells: seq<string>, c: char) {
    forall k :: 0 <= k < |cells| ==> c !in cells[k]
  }

  lemma {:induction false} TabbedIsCut(cells: seq<string>)
    requires NoneHas(cells, '\t')
    ensures Cut(Tabbed(cells), '\t') == cells + [""]
    decreases |cells|
  {
    hide Cut;
    if cells == [] {
      NothingToCut("", '\t');
    } else {
      TabbedIsCut(cells[1..]);
      CutConcat(cells[0], '\t', Tabbed(cells[1..]));
      NothingToCut(cells[0], '\t');
      assert "\t" == ['\t'];
      assert [cells[0]] + (cells[1..] + [""]) == cells + [""];
    }
  }

  lemma FieldsOfTabbed(cells: seq<string>)
    requires NoneHas(cells, '\t')
    ensures Fields(Tabbed(cells)) == Trimmed(cells)
  {
    hide Cut, Trim;
    TabbedIsCut(cells);
    assert (cells + [""])[..|cells|] == cells;
  }

  lemma {:induction false} TabbedHasNo(cells: seq<string>, c: char)
    requires NoneHas(cells, c) && c != '\t'
    ensures c !in Tabbed(cells)
    decreases |cells|
  {
    if cells != [] {
      TabbedHasNo(cells[1..], c);
    }
  }

  predicate IsLineBreak(newLine: string) {
    newLine == "\n" || newLine == "\r\n"
  }

  /** What stands behind the last tab of a line does not matter. */
  lemma FieldsOfTail(line: string, t: string)
    requires '\t' !in t
    ensures Fields(line + t) == Fields(line)
  {
    hide Cut, Trim;
    CutTail(line, t, '\t');
    var pieces := Cut(line, '\t');
    assert (pieces[..|pieces| - 1] + [pieces[|pieces| - 1] + t])[..|pieces| - 1] == pieces[..|pieces| - 1];
  }

  lemma LineAdded(text: string, newLine: string, line: string)
    requires IsLineBreak(newLine) && '\n' !in line
    ensures ReadTable(text + newLine + line) == ReadTable(text) + [Fields(line)]
  {
    hide Cut, Fields;
    var cr := if newLine == "\n" then "" else "\r";
    assert text + newLine + line == text + cr + ['\n'] + line;
    CutConcat(text + cr, '\n', line);
    NothingToCut(line, '\n');
    CutTail(text, cr, '\n');
    var lines := Cut(text, '\n');
    FieldsOfTail(lines[|lines| - 1], cr);
    assert FieldsOf(Cut(text + cr, '\n')) == FieldsOf(lines);
  }

  // ----- the printed columns

  function Visible(columns: seq<Column>): seq<Column> {
    if columns == [] then [] else (if columns[0].empty then [] else [columns[0]]) + Visible(columns[1..])
  }

  function Displays(columns: seq<Column>): (ds: seq<string>)
    ensures |ds| == |columns|
  {
    seq(|columns|, k requires 0 <= k < |columns| => columns[k].display)
  }

  function CellsAt(columns: seq<Column>, n: nat, count: nat): (cs: seq<string>)
    requires Tabular(columns, n) && count < n
    ensures |cs| == |columns|
  {
    seq(|columns|, k requires 0 <= k < |columns| => columns[k].cells[count])
  }

  lemma TabbedMore(cell: string, cells: seq<string>)
    ensures Tabbed([cell] + cells) == cell + "\t" + Tabbed(cells)
  {
    assert ([cell] + cells)[1..] == cells;
  }

  lemma {:induction false} HeadIs(columns: seq<Column>)
    ensures HeadLine(columns) == Tabbed(Displays(Visible(columns)))
  {
    hide Tabbed;
    if columns == [] {
      NoneTabbed(Displays(Visible(columns)));
    } else {
      var column, others := columns[0], Visible(columns[1..]);
      HeadIs(columns[1..]);
      if column.empty {
        assert Visible(columns) == others;
        assert "" + HeadLine(columns[1..]) == HeadLine(columns[1..]);
      } else {
        TabbedMore(column.display, Displays(others));
        assert Displays([column] + others) == [column.display] + Displays(others);
      }
    }
  }

  lemma NoneTabbed(cells: seq<string>)
    requires cells == []
    ensures Tabbed(cells) == ""
  {
  }

  lemma {:induction false} VisibleIsTabular(columns: seq<Column>, n: nat)
    requires Tabular(columns, n)
    ensures Tabular(Visible(columns), n)
  {
    if columns != [] {
      VisibleIsTabular(columns[1..], n);
    }
  }

  lemma {:induction false} RowIs(columns: seq<Column>, n: nat, count: nat)
    requires Tabular(columns, n) && count < n
    ensures Tabular(Visible(columns), n)
    ensures RowLine(columns, n, count) == Tabbed(CellsAt(Visible(columns), n, count))
  {
    hide Tabbed;
    VisibleIsTabular(columns, n);
    if columns == [] {
      NoneTabbed(CellsAt(Visible(columns), n, count));
    } else {
      var column, others := columns[0], Visible(columns[1..]);
      RowIs(columns[1..], n, count);
      if column.empty {
        assert Visible(columns) == others;
        assert "" + RowLine(columns[1..], n, count) == RowLine(columns[1..], n, count);
      } else {
        TabbedMore(column.cells[count], CellsAt(others, n, count));
        assert CellsAt([column] + others, n, count) == [column.cells[count]] + CellsAt(others, n, count);
      }
    }
  }

  // ----- cells

  lemma {:induction false} TrimLeftPart(s: string, c: char)
    ensures c in TrimLeft(s) ==> c in s
  {
    if s != "" && s[0] <= ' ' {
      TrimLeftPart(s[1..], c);
    }
  }

  lemma TrimPart(s: string, c: char)
    ensures c in Trim(s) ==> c in s
  {
    TrimLeftPart(s, c);
    TrimRightEnds(TrimLeft(s));
  }

  lemma PaddedTrimmed(s: string, width: int)
    ensures Trim(Padded(s, width)) == Trim(s)
  {
    hide Trim;
    var tail := Padded(s, width)[|s|..];
    assert Padded(s, width) == s + tail;
    TrimTail(s, tail);
  }

  lemma PaddedHasNo(s: string, width: int, c: char)
    requires c != ' ' && c !in s
    ensures c !in Padded(s, width)
  {
    var r := Padded(s, width);
    forall i | 0 <= i < |r|
      ensures r[i] != c
    {
      if i < |s| {
        assert r[i] == s[i];
      }
    }
  }

  lemma SeenIsText(row: Entries, name: string)
    ensures HasText(row, name) <==> SeenIn(row, name)
  {
    if name in row {
      TrimHidden(row[name]);
    }
  }

  /** A cell holds the trimmed value, or nothing, and no character that is not in the value but blanks. */
  lemma CellHolds(row: Entries, name: string, width: int)
    ensures Trim(Cell(row, name, width)) == if name in row then Trim(row[name]) else ""
    ensures forall c: char :: c != ' ' && c in Cell(row, name, width) ==> name in row && c in row[name]
  {
    hide TrimLeft, TrimRight;
    var value := if HasText(row, name) then Trim(row[name]) else "";
    PaddedTrimmed(value, width);
    if name in row {
      TrimTwice(row[name]);
    }
    EmptyTrimmed();
    forall c: char | c != ' ' && c in Cell(row, name, width)
      ensures name in row && c in row[name]
    {
      if c !in value {
        PaddedHasNo(value, width, c);
      }
      TrimPart(row[name], c);
    }
  }

  lemma EmptyTrimmed()
    ensures Trim("") == ""
  {
  }

  // ----- tables

  /** No tab and no line break in the names and values. */
  predicate Plain(headers: seq<Header>, rows: Rows) {
    && (forall h :: 0 <= h < |headers| ==> '\t' !in headers[h].name && '\n' !in headers[h].name)
    && forall i, k :: 0 <= i < |rows| && k in rows[i] ==> '\t' !in rows[i][k] && '\n' !in rows[i][k]
  }

  /** A visible column for every name that is seen. */
  ghost predicate Shows(columns: seq<Column>, names: seq<string>, rows: Rows) {
    && |columns| == |names|
    && forall k :: 0 <= k < |columns| ==> exists header: Header, width: int ::
         columns[k] == Filled(header, width, rows) && header.name == names[k]
  }

  lemma SeenIsShown(header: Header, width: int, rows: Rows)
    ensures Filled(header, width, rows).empty <==> !SeenSomewhere(rows, header.name)
  {
    hide HasText, SeenIn, Cell;
    forall i | 0 <= i < |rows|
      ensures HasText(rows[i], header.name) <==> SeenIn(rows[i], header.name)
    {
      SeenIsText(rows[i], header.name);
    }
  }

  lemma {:induction false} ColumnsShow(columns: seq<Column>, headers: seq<Header>, widths: seq<int>, rows: Rows)
    requires |columns| == |headers| == |widths|
    requires forall h :: 0 <= h < |headers| ==> columns[h] == Filled(headers[h], widths[h], rows)
    ensures Shows(Visible(columns), NamesSeen(headers, rows), rows)
    decreases |columns|
  {
    hide Filled, SeenSomewhere;
    if columns != [] {
      ColumnsShow(columns[1..], headers[1..], widths[1..], rows);
      SeenIsShown(headers[0], widths[0], rows);
    }
  }

  lemma NameIn(headers: seq<Header>, rows: Rows, k: nat)
    requires k < |NamesSeen(headers, rows)|
    ensures exists h :: 0 <= h < |headers| && headers[h].name == NamesSeen(headers, rows)[k]
  {
    hide SeenSomewhere;
    if SeenSomewhere(rows, headers[0].name) && k == 0 {
      assert headers[0].name == NamesSeen(headers, rows)[k];
    } else {
      var before := if SeenSomewhere(rows, headers[0].name) then 1 else 0;
      NameIn(headers[1..], rows, k - before);
      var h :| 0 <= h < |headers[1..]| && headers[1..][h].name == NamesSeen(headers[1..], rows)[k - before];
      assert headers[h + 1].name == NamesSeen(headers, rows)[k];
    }
  }

  /** A visible column's heading and cells. */
  lemma ShownColumn(column: Column, name: string, headers: seq<Header>, rows: Rows)
    requires exists header: Header, width: int :: column == Filled(header, width, rows) && header.name == name
    requires Plain(headers, rows) && exists h :: 0 <= h < |headers| && headers[h].name == name
    ensures Trim(column.display) == Trim(name) && '\t' !in column.display && '\n' !in column.display
    ensures |column.cells| == |rows|
    ensures forall i :: 0 <= i < |rows| ==>
              && Trim(column.cells[i]) == (if name in rows[i] then Trim(rows[i][name]) else "")
              && '\t' !in column.cells[i] && '\n' !in column.cells[i]
  {
    hide Trim, Cell, HasText, Padded;
    var header: Header, width: int :| column == Filled(header, width, rows) && header.name == name;
    PaddedTrimmed(name, width);
    PaddedHasNo(name, width, '\t');
    PaddedHasNo(name, width, '\n');
    forall i | 0 <= i < |rows|
      ensures Trim(column.cells[i]) == (if name in rows[i] then Trim(rows[i][name]) else "")
      ensures '\t' !in column.cells[i] && '\n' !in column.cells[i]
    {
      CellHolds(rows[i], name, width);
    }
  }

  /** The heading line gives the names, and the line of a row its values. */
  lemma LinesRead(columns: seq<Column>, headers: seq<Header>, rows: Rows)
    requires Plain(headers, rows) && Shows(columns, NamesSeen(headers, rows), rows)
    ensures Fields(Tabbed(Displays(columns))) == Trimmed(NamesSeen(headers, rows)) && '\n' !in Tabbed(Displays(columns))
    ensures forall i :: 0 <= i < |rows| && Tabular(columns, |rows|) ==>
              && Fields(Tabbed(CellsAt(columns, |rows|, i))) == ValuesSeen(rows[i], NamesSeen(headers, rows))
              && '\n' !in Tabbed(CellsAt(columns, |rows|, i))
  {
    hide Trim, Filled, Plain, Fields, Tabbed, SeenSomewhere;
    var names := NamesSeen(headers, rows);
    forall k | 0 <= k < |columns|
      ensures Trim(columns[k].display) == Trim(names[k]) && '\t' !in columns[k].display && '\n' !in columns[k].display
      ensures |columns[k].cells| == |rows|
      ensures forall i :: 0 <= i < |rows| ==>
                && Trim(columns[k].cells[i]) == (if names[k] in rows[i] then Trim(rows[i][names[k]]) else "")
                && '\t' !in columns[k].cells[i] && '\n' !in columns[k].cells[i]
    {
      NameIn(headers, rows, k);
      ShownColumn(columns[k], names[k], headers, rows);
    }
    FieldsOfTabbed(Displays(columns));
    TabbedHasNo(Displays(columns), '\n');
    forall i | 0 <= i < |rows| && Tabular(columns, |rows|)
      ensures Fields(Tabbed(CellsAt(columns, |rows|, i))) == ValuesSeen(rows[i], names)
      ensures '\n' !in Tabbed(CellsAt(columns, |rows|, i))
    {
      FieldsOfTabbed(CellsAt(columns, |rows|, i));
      TabbedHasNo(CellsAt(columns, |rows|, i), '\n');
    }
  }

  /** The first lines of what is read. */
  function LinesSeen(headers: seq<Header>, rows: Rows, count: nat): seq<seq<string>>
    requires count <= |rows|
  {
    if count == 0 then [Trimmed(NamesSeen(headers, rows))]
    else LinesSeen(headers, rows, count - 1) + [ValuesSeen(rows[count - 1], NamesSeen(headers, rows))]
  }

  lemma {:induction false} BodyIsRead(columns: seq<Column>, headers: seq<Header>, rows: Rows, newLine: string, count: nat)
    requires Tabular(columns, |rows|) && count <= |rows| && IsLineBreak(newLine)
    requires Plain(headers, rows) && Shows(Visible(columns), NamesSeen(headers, rows), rows)
    ensures ReadTable(HeadLine(columns) + Body(columns, |rows|, newLine, count)) == LinesSeen(headers, rows, count)
  {
    hide Tabular, Visible, HeadLine, RowLine, Fields, Tabbed, Shows, Plain, NamesSeen, Cut, Displays, CellsAt, ReadTable,
      ValuesSeen, IsLineBreak;
    LinesRead(Visible(columns), headers, rows);
    if count == 0 {
      HeadIs(columns);
      OneLine(HeadLine(columns));
      assert HeadLine(columns) + "" == HeadLine(columns);
    } else {
      BodyIsRead(columns, headers, rows, newLine, count - 1);
      RowIs(columns, |rows|, count - 1);
      var body, row := Body(columns, |rows|, newLine, count - 1), RowLine(columns, |rows|, count - 1);
      LineAdded(HeadLine(columns) + body, newLine, row);
      Regroup(HeadLine(columns), body, newLine);
      Regroup(HeadLine(columns), body + newLine, row);
    }
  }

  lemma OneLine(line: string)
    requires '\n' !in line
    ensures ReadTable(line) == [Fields(line)]
  {
    hide Fields;
    NothingToCut(line, '\n');
  }

  /** Reading the printed table gives the names under which there is something to see, in header order, and then for each
      row, in row order, its trimmed values under these names. */
  lemma TableIsReadBack(headers: seq<Header>, rows: Rows, newLine: string)
    requires WidthsKnown(headers, rows) && Plain(headers, rows) && IsLineBreak(newLine)
    ensures var lines := ReadTable(Table(Columns(headers, rows, |rows|), |rows|, newLine));
            && |lines| == |rows| + 1
            && lines[0] == Trimmed(NamesSeen(headers, rows))
            && forall i :: 0 <= i < |rows| ==> lines[i + 1] == ValuesSeen(rows[i], NamesSeen(headers, rows))
  {
    hide ReadTable, NamesSeen, ValuesSeen, Filled, Width, Plain, HeadLine, Body, IsLineBreak, Visible, Shows;
    var columns := Columns(headers, rows, |rows|);
    assert rows[..|rows|] == rows;
    var widths := seq(|headers|, h requires 0 <= h < |headers| => Width(headers[h], rows).value);
    ColumnsShow(columns, headers, widths, rows);
    BodyIsRead(columns, headers, rows, newLine, |rows|);
    LinesSeenAre(headers, rows, |rows|);
  }

  lemma {:induction false} LinesSeenAre(headers: seq<Header>, rows: Rows, count: nat)
    requires count <= |rows|
    ensures var lines := LinesSeen(headers, rows, count);
            && |lines| == count + 1
            && lines[0] == Trimmed(NamesSeen(headers, rows))
            && forall i :: 0 <= i < count ==> lines[i + 1] == ValuesSeen(rows[i], NamesSeen(headers, rows))
  {
    hide ValuesSeen, NamesSeen;
    if count > 0 {
      LinesSeenAre(headers, rows, count - 1);
    }
  }
}
