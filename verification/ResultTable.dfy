/** The rows of a type-2 response printed as a table. */
module ResultTable {
  import opened Brackets
  import opened CommandText
  import opened FidColumns
  import opened Numerals
  import opened PropertyTables
  import opened Results
  import opened Sequences

  datatype Failure = NumberFormat

  // ----- key normalising

  function Lower(s: string): (r: string)
    ensures |r| == |s|
  {
    seq(|s|, i requires 0 <= i < |s| => if 'A' <= s[i] <= 'Z' then s[i] - 'A' + 'a' else s[i])
  }

  function Normal(key: string): string {
    Lower(Trim(key))
  }

  lemma NormalTwice(key: string)
    ensures Normal(Normal(key)) == Normal(key)
  {
    hide TrimLeft, TrimRight;
    TrimmedEnds(key);
    if Trim(key) != "" {
      TrimUnneeded(Lower(Trim(key)));
      assert Lower(Lower(Trim(key))) == Lower(Trim(key));
    }
  }

  /** A normal key is what can be seen of the key, capitals made small and nothing else changed. */
  lemma NormalMeans(key: string)
    ensures var t, n := Trim(key), Normal(key);
            && |n| == |t|
            && forall i :: 0 <= i < |t| ==> n[i] as int == if 'A' <= t[i] <= 'Z' then t[i] as int + 32 else t[i] as int
    ensures exists front, back :: CutsOff(key, front, back)
    ensures Normal(key) != "" ==> Normal(key)[0] > ' ' && Normal(key)[|Normal(key)| - 1] > ' '
    ensures forall i :: 0 <= i < |Normal(key)| ==> !('A' <= Normal(key)[i] <= 'Z')
  {
    hide Trim;
    TrimMeans(key);
  }

  /** `after` has the normal forms of the keys of `before`, each with the value of a key it is the normal form of. */
  ghost predicate Normalised(before: Entries, after: Entries) {
    && (forall k :: k in before ==> Normal(k) in after)
    && (forall n :: n in after ==> exists k :: k in before && Normal(k) == n && before[k] == after[n])
  }

  /** Whatever the order in which keys with one normal form overwrite each other, normalising again changes nothing. */
  lemma NormalisedTwice(before: Entries, once: Entries, twice: Entries)
    requires Normalised(before, once) && Normalised(once, twice)
    ensures twice == once
  {
    hide Normal;
    forall n | n in once
      ensures Normal(n) == n
    {
      var k :| k in before && Normal(k) == n && before[k] == once[n];
      NormalTwice(k);
    }
    assert once.Keys == twice.Keys;
  }

  /** `modifyKeys`: every slot gets a new table; keys are taken in whatever order the table has them. */
  method ModifyKeys(properties: array<Properties>)
    modifies properties
    ensures forall i :: 0 <= i < properties.Length ==>
              fresh(properties[i]) && Normalised(old(properties[i].entries), properties[i].entries)
  {
    for i := 0 to properties.Length
      invariant forall j :: 0 <= j < i ==>
                  fresh(properties[j]) && Normalised(old(properties[j].entries), properties[j].entries)
      invariant forall j :: i <= j < properties.Length ==> properties[j] == old(properties[j])
    {
      var normalised := WithNormalKeys(properties[i]);
      properties[i] := normalised;
    }
  }

  method WithNormalKeys(properties: Properties) returns (normalised: Properties)
    ensures fresh(normalised) && Normalised(properties.entries, normalised.entries)
  {
    hide Normal;
    normalised := new Properties();
    var keySet := properties.entries.Keys;
    while keySet != {}
      invariant keySet <= properties.entries.Keys
      invariant properties.entries == old(properties.entries)
      invariant forall k :: k in properties.entries && k !in keySet ==> Normal(k) in normalised.entries
      invariant forall n :: n in normalised.entries ==>
                  exists k :: k in properties.entries && Normal(k) == n && properties.entries[k] == normalised.entries[n]
      decreases |keySet|
    {
      var key :| key in keySet;
      normalised.Put(Normal(key), properties.entries[key]);
      keySet := keySet - {key};
    }
  }

  // ----- column widths

  const MAX_INT := 0x7fff_ffff

  /** `Integer.valueOf`. */
  function ParseInt(s: string): Option<int> {
    var negative := s != "" && s[0] == '-';
    var digits := if s != "" && (s[0] == '-' || s[0] == '+') then s[1..] else s;
    if digits == "" || !AllDigits(digits, 10) then None
    else
      var value: int := Value(digits, 10);
      if negative && value <= MAX_INT + 1 then Some(-value)
      else if !negative && value <= MAX_INT then Some(value)
      else None
  }

  lemma ParseOfNumeral(n: nat)
    requires n <= MAX_INT
    ensures ParseInt(Numeral(n, 10)) == Some(n)
  {
    hide Numeral, Value;
    NumeralDenotes(n, 10);
    assert IsDigit(Numeral(n, 10)[0], 10);
  }

  type Rows = seq<Entries>

  /** What a column header says: the key of its column and the width, a number or an asterisk. */
  datatype Header = Header(name: string, len: string)

  function LengthIn(row: Entries, name: string): nat {
    if name in row then |row[name]| else 0
  }

  function Longest(rows: Rows, name: string): nat {
    if rows == [] then 0
    else
      var before, last := Longest(rows[..|rows| - 1], name), LengthIn(rows[|rows| - 1], name);
      if last > before then last else before
  }

  /** The longest value is no shorter than any, and some row has it. */
  lemma {:induction false} LongestIsLongest(rows: Rows, name: string)
    ensures forall i :: 0 <= i < |rows| ==> LengthIn(rows[i], name) <= Longest(rows, name)
    ensures rows != [] ==> exists i :: 0 <= i < |rows| && LengthIn(rows[i], name) == Longest(rows, name)
  {
    if rows != [] {
      var before := rows[..|rows| - 1];
      LongestIsLongest(before, name);
      assert forall i :: 0 <= i < |before| ==> rows[i] == before[i];
      if LengthIn(rows[|rows| - 1], name) <= Longest(before, name) && before != [] {
        var i :| 0 <= i < |before| && LengthIn(before[i], name) == Longest(before, name);
        assert LengthIn(rows[i], name) == Longest(rows, name);
      } else {
        assert LengthIn(rows[|rows| - 1], name) == Longest(rows, name);
      }
    }
  }

  function StarWidth(rows: Rows, name: string): nat {
    if Longest(rows, name) != 0 then Longest(rows, name) else 4
  }

  /** The width as text: without rows an asterisk stays an asterisk. */
  function WidthText(header: Header, rows: Rows): string {
    if header.len == "*" && rows != [] then Numeral(StarWidth(rows, header.name), 10) else header.len
  }

  /** No value is longer than a Java string can be. */
  predicate JavaSized(rows: Rows) {
    forall i, k :: 0 <= i < |rows| && k in rows[i] ==> |rows[i][k]| <= MAX_INT
  }

  function Width(header: Header, rows: Rows): Option<int> {
    ParseInt(WidthText(header, rows))
  }

  /** Which columns can be laid out: those with a number, and the ones with an asterisk if there are any rows. */
  lemma StarWidthIsParsed(header: Header, rows: Rows)
    requires header.len == "*" && JavaSized(rows)
    ensures Width(header, rows) == if rows == [] then None else Some(StarWidth(rows, header.name))
  {
    hide Longest;
    LongestIsLongest(rows, header.name);
    if rows != [] {
      var i :| 0 <= i < |rows| && LengthIn(rows[i], header.name) == Longest(rows, header.name);
      ParseOfNumeral(StarWidth(rows, header.name));
    } else {
      assert !IsDigit('*', 10);
      assert "*"[0] == '*';
    }
  }

  // ----- cells

  predicate HasText(row: Entries, name: string) {
    name in row && Trim(row[name]) != ""
  }

  function Cell(row: Entries, name: string, width: int): string {
    Padded(if HasText(row, name) then Trim(row[name]) else "", width)
  }

  /** A column when the first `count` rows are in it. */
  datatype Column = Column(name: string, display: string, width: int, empty: bool, cells: seq<string>)

  function Filled(header: Header, width: int, rows: Rows): Column {
    Column(header.name, Padded(header.name, width), width,
           forall i :: 0 <= i < |rows| ==> !HasText(rows[i], header.name),
           seq(|rows|, i requires 0 <= i < |rows| => Cell(rows[i], header.name, width)))
  }

  /** As long as the longest value that is not empty, and 4 if there is none. */
  ghost predicate StarLength(rows: Rows, name: string, width: nat) {
    && (forall i :: 0 <= i < |rows| && name in rows[i] ==> |rows[i][name]| <= width)
    && if forall i :: 0 <= i < |rows| && name in rows[i] ==> rows[i][name] == "" then width == 4
       else exists i :: 0 <= i < |rows| && name in rows[i] && |rows[i][name]| == width
  }

  /** In a column with an asterisk every cell has exactly the length of the longest value, and the heading above it too
      unless the key alone is longer. */
  lemma StarColumnsAlign(header: Header, rows: Rows, width: nat)
    requires header.len == "*" && rows != [] && JavaSized(rows) && StarLength(rows, header.name, width)
    ensures Width(header, rows) == Some(width)
    ensures var column := Filled(header, width, rows);
            && (forall i :: 0 <= i < |rows| ==> |column.cells[i]| == width)
            && |column.display| == if |header.name| > width then |header.name| else width
  {
    hide Longest, Trim, Width, ParseInt;
    StarWidthIsParsed(header, rows);
    StarWidthIs(rows, header.name, width);
    forall i | 0 <= i < |rows|
      ensures |Cell(rows[i], header.name, width)| == width
    {
      if HasText(rows[i], header.name) {
        TrimIsShorter(rows[i][header.name]);
      }
    }
  }

  lemma StarWidthIs(rows: Rows, name: string, width: nat)
    requires rows != [] && StarLength(rows, name, width)
    ensures StarWidth(rows, name) == width
  {
    hide Longest;
    LongestIsLongest(rows, name);
    var i :| 0 <= i < |rows| && LengthIn(rows[i], name) == Longest(rows, name);
    assert Longest(rows, name) == 0 ==> forall j :: 0 <= j < |rows| && name in rows[j] ==> LengthIn(rows[j], name) == 0;
    assert forall j :: 0 <= j < |rows| && name in rows[j] ==> |rows[j][name]| == LengthIn(rows[j], name);
  }

  /** Any other width is a number of 32 bits: a sign, if any, and digits. */
  predicate IsWidth(text: string, sign: string, digits: string, n: int) {
    && text == sign + digits && sign in {"", "+", "-"} && digits != "" && AllDigits(digits, 10)
    && n == (if sign == "-" then -(Value(digits, 10) as int) else Value(digits, 10) as int)
    && -0x8000_0000 <= n <= 0x7fff_ffff
  }

  lemma OtherWidthsAreNumbers(header: Header, rows: Rows, n: int)
    requires header.len != "*"
    ensures Width(header, rows) == Some(n) <==> exists sign, digits :: IsWidth(header.len, sign, digits, n)
  {
    hide ParseInt, IsWidth;
    if ParseInt(header.len) == Some(n) {
      var sign, digits := ParsedIsWidth(header.len, n);
    }
    forall sign, digits | IsWidth(header.len, sign, digits, n)
      ensures ParseInt(header.len) == Some(n)
    {
      WidthIsParsed(header.len, sign, digits, n);
    }
  }

  lemma ParsedIsWidth(text: string, n: int) returns (sign: string, digits: string)
    requires ParseInt(text) == Some(n)
    ensures IsWidth(text, sign, digits, n)
  {
    hide Value;
    if text[0] == '-' || text[0] == '+' {
      sign, digits := [text[0]], text[1..];
      assert sign == "-" <==> text[0] == '-';
    } else {
      sign, digits := "", text;
    }
  }

  lemma WidthIsParsed(text: string, sign: string, digits: string, n: int)
    requires IsWidth(text, sign, digits, n)
    ensures ParseInt(text) == Some(n)
  {
    hide Value;
    assert IsDigit(digits[0], 10);
    if sign == "" {
      assert text == digits;
    } else {
      assert text[0] == sign[0] && text[1..] == digits;
    }
  }

  /** In a column with a number every cell is as wide as the number says, or as its value if that is longer. */
  lemma NumberColumnsAlign(header: Header, n: nat, rows: Rows)
    requires header.len == Numeral(n, 10) && n <= MAX_INT
    ensures Width(header, rows) == Some(n)
    ensures forall i :: 0 <= i < |rows| ==>
              var value := if header.name in rows[i] then Trim(rows[i][header.name]) else "";
              |Filled(header, n, rows).cells[i]| == if |value| > n then |value| else n
    ensures |Filled(header, n, rows).display| == if |header.name| > n then |header.name| else n
  {
    hide Trim, ParseInt, Numeral;
    ParseOfNumeral(n);
    NumeralDenotes(n, 10);
    assert IsDigit(header.len[0], 10) && !IsDigit('*', 10);
  }

  lemma TrimIsShorter(s: string)
    ensures |Trim(s)| <= |s|
  {
  }

  /** After key normalising, a label that is not in lower case and trimmed names an empty column. */
  lemma UnmatchedLabel(header: Header, width: int, responses: seq<Entries>, rows: Rows)
    requires |responses| == |rows| && forall i :: 0 <= i < |rows| ==> Normalised(responses[i], rows[i])
    requires Normal(header.name) != header.name
    ensures Filled(header, width, rows).empty
  {
    hide Normal;
    forall i | 0 <= i < |rows|
      ensures header.name !in rows[i]
    {
      if header.name in rows[i] {
        var k :| k in responses[i] && Normal(k) == header.name;
        NormalTwice(k);
        assert false;
      }
    }
  }

  // ----- the printed text

  function HeadLine(columns: seq<Column>): string {
    if columns == [] then ""
    else (if columns[0].empty then "" else columns[0].display + "\t") + HeadLine(columns[1..])
  }

  /** All columns have `n` cells, and a column that is not empty has at least one. */
  predicate Tabular(columns: seq<Column>, n: nat) {
    forall c :: 0 <= c < |columns| ==> |columns[c].cells| == n && (columns[c].empty || n > 0)
  }

  predicate AllEmpty(columns: seq<Column>) {
    forall c :: 0 <= c < |columns| ==> columns[c].empty
  }

  function RowLine(columns: seq<Column>, n: nat, count: nat): string
    requires Tabular(columns, n) && count < n
  {
    if columns == [] then ""
    else (if columns[0].empty then "" else columns[0].cells[count] + "\t") + RowLine(columns[1..], n, count)
  }

  /** The first `count` rows, each on a new line. */
  function Body(columns: seq<Column>, n: nat, newLine: string, count: nat): string
    requires Tabular(columns, n) && count <= n
  {
    if count == 0 then "" else Body(columns, n, newLine, count - 1) + newLine + RowLine(columns, n, count - 1)
  }

  function Table(columns: seq<Column>, n: nat, newLine: string): string
    requires Tabular(columns, n)
  {
    HeadLine(columns) + Body(columns, n, newLine, n)
  }

  // ----- the print loop, round by round

  /** The loop between two rounds; `OutOfRange` when a round read past the end of a column. */
  datatype Printing = Printing(text: string, count: nat, hasMore: bool) | OutOfRange

  /** The inner loop over the columns. */
  function AcrossColumns(columns: seq<Column>, p: Printing): Printing {
    if columns == [] || p.OutOfRange? then p
    else if columns[0].empty then AcrossColumns(columns[1..], p)
    else if p.count >= |columns[0].cells| then OutOfRange
    else
      AcrossColumns(columns[1..],
                    p.(text := p.text + columns[0].cells[p.count] + "\t",
                       hasMore := p.hasMore && |columns[0].cells| != p.count + 1))
  }

  function Round(columns: seq<Column>, newLine: string, p: Printing): Printing {
    if p.OutOfRange? || !p.hasMore then p
    else
      var across := AcrossColumns(columns, p.(text := p.text + newLine));
      if across.OutOfRange? then across else across.(count := across.count + 1)
  }

  function Rounds(columns: seq<Column>, newLine: string, k: nat): Printing {
    if k == 0 then Printing(HeadLine(columns), 0, true) else Round(columns, newLine, Rounds(columns, newLine, k - 1))
  }

  lemma {:induction false} AcrossTable(columns: seq<Column>, n: nat, p: Printing)
    requires Tabular(columns, n) && p.Printing?
    requires AllEmpty(columns) || p.count < n
    ensures AcrossColumns(columns, p) ==
            if AllEmpty(columns) then p
            else Printing(p.text + RowLine(columns, n, p.count), p.count, p.hasMore && n != p.count + 1)
  {
    if columns != [] {
      var rest := columns[1..];
      assert forall c :: 0 < c < |columns| ==> columns[c] == rest[c - 1];
      if columns[0].empty {
        AcrossTable(rest, n, p);
        assert AllEmpty(columns) == AllEmpty(rest);
        if !AllEmpty(columns) {
          assert RowLine(columns, n, p.count) == RowLine(rest, n, p.count);
        }
      } else {
        var cell := columns[0].cells[p.count] + "\t";
        var q := p.(text := p.text + columns[0].cells[p.count] + "\t", hasMore := p.hasMore && n != p.count + 1);
        AcrossTable(rest, n, q);
        assert q.text == p.text + cell;
        RowsOfEmpty(rest, n, p.count);
        assert p.text + cell + RowLine(rest, n, p.count) == p.text + RowLine(columns, n, p.count);
      }
    }
  }

  lemma {:induction false} RowsOfEmpty(columns: seq<Column>, n: nat, count: nat)
    requires Tabular(columns, n) && count < n
    ensures AllEmpty(columns) ==> RowLine(columns, n, count) == ""
  {
    if columns != [] {
      RowsOfEmpty(columns[1..], n, count);
      assert forall c :: 0 < c < |columns| ==> columns[c] == columns[1..][c - 1];
    }
  }

  lemma {:induction false} RoundsOfTable(columns: seq<Column>, n: nat, newLine: string, k: nat)
    requires Tabular(columns, n) && !AllEmpty(columns) && k <= n
    ensures Rounds(columns, newLine, k) == Printing(HeadLine(columns) + Body(columns, n, newLine, k), k, k < n)
  {
    hide HeadLine, RowLine, AcrossColumns, AllEmpty;
    SomeRow(columns, n);
    if k == 0 {
      assert HeadLine(columns) + "" == HeadLine(columns);
    } else {
      RoundsOfTable(columns, n, newLine, k - 1);
      var before := Rounds(columns, newLine, k - 1);
      AcrossTable(columns, n, before.(text := before.text + newLine));
      var body, row := Body(columns, n, newLine, k - 1), RowLine(columns, n, k - 1);
      Regroup(HeadLine(columns), body, newLine);
      Regroup(HeadLine(columns), body + newLine, row);
    }
  }

  lemma SomeRow(columns: seq<Column>, n: nat)
    requires Tabular(columns, n) && !AllEmpty(columns)
    ensures n > 0
  {
  }

  lemma {:induction false} RoundsOfEmpty(columns: seq<Column>, n: nat, newLine: string, k: nat)
    requires Tabular(columns, n) && AllEmpty(columns)
    ensures Rounds(columns, newLine, k).Printing? && Rounds(columns, newLine, k).hasMore
  {
    if k > 0 {
      RoundsOfEmpty(columns, n, newLine, k - 1);
      var before := Rounds(columns, newLine, k - 1);
      AcrossTable(columns, n, before.(text := before.text + newLine));
    }
  }

  /** The loop stops exactly when some column has text in it; then it runs one round a row and leaves the table. */
  lemma StopsUnlessAllEmpty(columns: seq<Column>, n: nat, newLine: string)
    requires Tabular(columns, n)
    ensures (exists k: nat :: Rounds(columns, newLine, k).Printing? && !Rounds(columns, newLine, k).hasMore)
            <==> !AllEmpty(columns)
    ensures !AllEmpty(columns) ==>
              && Rounds(columns, newLine, n) == Printing(Table(columns, n, newLine), n, false)
              && forall k: nat :: k < n ==> Rounds(columns, newLine, k).Printing? && Rounds(columns, newLine, k).hasMore
  {
    hide Rounds, Tabular, AllEmpty, HeadLine, Body;
    if AllEmpty(columns) {
      forall k: nat
        ensures Rounds(columns, newLine, k).Printing? && Rounds(columns, newLine, k).hasMore
      {
        RoundsOfEmpty(columns, n, newLine, k);
      }
    } else {
      forall k: nat | k <= n
        ensures Rounds(columns, newLine, k) == Printing(HeadLine(columns) + Body(columns, n, newLine, k), k, k < n)
      {
        RoundsOfTable(columns, n, newLine, k);
      }
      assert !Rounds(columns, newLine, n).hasMore;
    }
  }

  // ----- `toStringAsTable`

  /** A column while it is being laid out: its formatting and the cells listed under it. */
  class Formatter {
    var columnName: string
    var columnDisplayName: string
    var columnWidth: string
    var isColumnEmpty: bool
    var values: seq<string>

    constructor (columnName: string, columnWidth: string)
      ensures this.columnName == columnName && columnDisplayName == columnName && this.columnWidth == columnWidth
      ensures isColumnEmpty && values == []
    {
      this.columnName := columnName;
      columnDisplayName := columnName;
      this.columnWidth := columnWidth;
      isColumnEmpty := true;
      values := [];
    }

    /** The formatter stands for this column. */
    ghost predicate Shows(column: Column)
      reads this
    {
      && columnName == column.name && columnDisplayName == column.display
      && ParseInt(columnWidth) == Some(column.width)
      && isColumnEmpty == column.empty && values == column.cells
    }

    /** The width of a column with an asterisk, worked out anew at every row. */
    method MeasureColumn(header: Header, rows: Rows)
      requires columnName == header.name && columnWidth == header.len
      modifies this`columnWidth
      ensures columnWidth == WidthText(header, rows)
    {
      if columnWidth == "*" {
        var currSize := 0;
        for i := 0 to |rows|
          invariant currSize == Longest(rows[..i], columnName)
          invariant columnWidth == WidthText(header, rows[..i])
        {
          assert rows[..i + 1][..i] == rows[..i];
          if columnName in rows[i] {
            var valueLength := |rows[i][columnName]|;
            if valueLength > currSize {
              currSize := valueLength;
            }
          }
          if currSize != 0 {
            columnWidth := Numeral(currSize, 10);
          } else {
            columnWidth := Numeral(4, 10);
          }
        }
        assert rows[..|rows|] == rows;
      }
    }

    /** One more row: its trimmed value, or nothing, is padded and listed. */
    method AddRow(row: Entries, ghost header: Header, ghost width: int, ghost rows: Rows)
      requires Shows(Filled(header, width, rows))
      modifies this
      ensures Shows(Filled(header, width, rows + [row]))
    {
      hide Trim, ParseInt;
      var value := "";
      if columnName in row && Trim(row[columnName]) != "" {
        value := Trim(row[columnName]);
        isColumnEmpty := false;
      }
      value := PadLoop(value, ParseInt(columnWidth).value);
      values := values + [value];
      FilledOne(header, width, rows, row);
    }
  }

  lemma FilledOne(header: Header, width: int, rows: Rows, row: Entries)
    ensures Filled(header, width, rows + [row]).empty == (Filled(header, width, rows).empty && !HasText(row, header.name))
    ensures Filled(header, width, rows + [row]).cells == Filled(header, width, rows).cells + [Cell(row, header.name, width)]
  {
    var more := rows + [row];
    assert forall i :: 0 <= i < |rows| ==> more[i] == rows[i];
    assert more[|rows|] == row;
  }

  method PadLoop(s: string, width: int) returns (r: string)
    ensures r == Padded(s, width)
  {
    r := s;
    var length := |s|;
    while length < width
      invariant |s| <= length == |r| && (length <= width || r == s)
      invariant s <= r && forall i :: |s| <= i < length ==> r[i] == ' '
    {
      r := r + " ";
      length := length + 1;
    }
  }

  predicate WidthsKnown(headers: seq<Header>, rows: Rows) {
    forall h :: 0 <= h < |headers| ==> Width(headers[h], rows).Some?
  }

  /** The columns that the headers ask for, when the first `count` rows are in them. */
  function Columns(headers: seq<Header>, rows: Rows, count: nat): (columns: seq<Column>)
    requires count <= |rows| && WidthsKnown(headers, rows)
    ensures |columns| == |headers| && Tabular(columns, count)
  {
    hide Trim, Width;
    seq(|headers|, h requires 0 <= h < |headers| => Filled(headers[h], Width(headers[h], rows).value, rows[..count]))
  }

  /** The formatters are different objects that show the columns. */
  ghost predicate ShowAll(formatters: seq<Formatter>, columns: seq<Column>)
    reads formatters
  {
    && |formatters| == |columns|
    && (forall g, h :: 0 <= g < h < |formatters| ==> formatters[g] != formatters[h])
    && (forall h :: 0 <= h < |formatters| ==> formatters[h].Shows(columns[h]))
  }

  /** The first loop: one formatter a header. */
  method LayOut(headers: seq<Header>, rows: Rows) returns (formatters: Result<seq<Formatter>, Failure>)
    ensures !WidthsKnown(headers, rows) ==> formatters == Err(NumberFormat)
    ensures WidthsKnown(headers, rows) ==>
              && formatters.Ok? && |formatters.value| == |headers|
              && (forall h :: 0 <= h < |headers| ==> fresh(formatters.value[h]))
              && ShowAll(formatters.value, Columns(headers, rows, 0))
  {
    hide Width, Filled, Formatter.Shows;
    var list: seq<Formatter> := [];
    for h := 0 to |headers|
      invariant |list| == h
      invariant forall i :: 0 <= i < h ==> fresh(list[i])
      invariant forall i, j :: 0 <= i < j < h ==> list[i] != list[j]
      invariant forall i :: 0 <= i < h ==>
                  Width(headers[i], rows).Some? && list[i].Shows(Filled(headers[i], Width(headers[i], rows).value, []))
    {
      var formatter :- LayOutColumn(headers[h], rows);
      list := list + [formatter];
    }
    return Ok(list);
  }

  method LayOutColumn(header: Header, rows: Rows) returns (formatter: Result<Formatter, Failure>)
    ensures Width(header, rows).None? ==> formatter == Err(NumberFormat)
    ensures Width(header, rows).Some? ==>
              && formatter.Ok? && fresh(formatter.value)
              && formatter.value.Shows(Filled(header, Width(header, rows).value, []))
  {
    hide ParseInt, WidthText, Padded, HasText, Cell;
    var column := new Formatter(header.name, header.len);
    column.MeasureColumn(header, rows);
    var width := ParseInt(column.columnWidth);
    if width.None? {
      return Err(NumberFormat);
    }
    column.columnDisplayName := PadLoop(column.columnName, width.value);
    return Ok(column);
  }

  /** The second loop: every row goes into every column. */
  method FillIn(formatters: seq<Formatter>, headers: seq<Header>, rows: Rows)
    requires WidthsKnown(headers, rows)
    requires ShowAll(formatters, Columns(headers, rows, 0))
    modifies formatters
    ensures ShowAll(formatters, Columns(headers, rows, |rows|))
  {
    hide Trim, Width, ParseInt, Filled, Formatter.Shows;
    for i := 0 to |rows|
      invariant ShowAll(formatters, Columns(headers, rows, i))
    {
      assert rows[..i + 1] == rows[..i] + [rows[i]];
      for h := 0 to |formatters|
        invariant forall g :: 0 <= g < h ==> formatters[g].Shows(Columns(headers, rows, i + 1)[g])
        invariant forall g :: h <= g < |formatters| ==> formatters[g].Shows(Columns(headers, rows, i)[g])
      {
        formatters[h].AddRow(rows[i], headers[h], Width(headers[h], rows).value, rows[..i]);
      }
    }
  }

  method PrintHeadings(formatters: seq<Formatter>, ghost columns: seq<Column>, result: StringBuilder)
    requires ShowAll(formatters, columns)
    modifies result
    ensures result.text == old(result.text) + HeadLine(columns)
  {
    hide ParseInt;
    assert columns[0..] == columns;
    for h := 0 to |formatters|
      invariant result.text + HeadLine(columns[h..]) == old(result.text) + HeadLine(columns)
    {
      assert columns[h..][1..] == columns[h + 1..];
      if !formatters[h].isColumnEmpty {
        Regroup(result.text, columns[h].display + "\t", HeadLine(columns[h + 1..]));
        result.Append(formatters[h].columnDisplayName + "\t");
      }
    }
  }

  /** One round over the columns. */
  method PrintRow(formatters: seq<Formatter>, ghost columns: seq<Column>, ghost n: nat, count: nat, result: StringBuilder)
    returns (hasMore: bool)
    requires ShowAll(formatters, columns) && Tabular(columns, n) && !AllEmpty(columns)
    requires count < n
    modifies result
    ensures result.text == old(result.text) + RowLine(columns, n, count)
    ensures hasMore <==> count + 1 < n
  {
    hide ParseInt, RowLine;
    hasMore := true;
    assert columns[0..] == columns;
    for h := 0 to |formatters|
      invariant Tabular(columns[h..], n)
      invariant result.text + RowLine(columns[h..], n, count) == old(result.text) + RowLine(columns, n, count)
      invariant hasMore <==> (forall c :: 0 <= c < h ==> columns[c].empty) || count + 1 < n
    {
      RowLineStep(columns, n, count, h, result.text);
      if !formatters[h].isColumnEmpty {
        result.Append(formatters[h].values[count] + "\t");
        if |formatters[h].values| == count + 1 {
          hasMore := false;
        }
      }
    }
    RowLineEnd(columns[|columns|..], n, count);
  }

  lemma RowLineStep(columns: seq<Column>, n: nat, count: nat, h: nat, text: string)
    requires h < |columns| && Tabular(columns[h..], n) && count < n
    ensures Tabular(columns[h + 1..], n)
    ensures text + RowLine(columns[h..], n, count) ==
            (if columns[h].empty then text else text + (columns[h].cells[count] + "\t")) + RowLine(columns[h + 1..], n, count)
  {
    assert columns[h..][0] == columns[h] && columns[h..][1..] == columns[h + 1..];
    Regroup(text, columns[h].cells[count] + "\t", RowLine(columns[h + 1..], n, count));
    assert "" + RowLine(columns[h + 1..], n, count) == RowLine(columns[h + 1..], n, count);
  }

  lemma RowLineEnd(columns: seq<Column>, n: nat, count: nat)
    requires columns == [] && count < n
    ensures RowLine(columns, n, count) == ""
  {
  }

  /** The print loop: it counts rounds, and a column that has no cell after this round's ends it. */
  method Print(formatters: seq<Formatter>, ghost columns: seq<Column>, ghost n: nat, newLine: string, result: StringBuilder)
    requires ShowAll(formatters, columns) && Tabular(columns, n)
    requires !AllEmpty(columns)
    modifies result
    ensures result.text == old(result.text) + Table(columns, n, newLine)
  {
    hide HeadLine, RowLine, Formatter.Shows;
    PrintHeadings(formatters, columns, result);
    ghost var start := old(result.text);
    var hasMore, count := true, 0;
    while hasMore
      invariant count <= n && (hasMore <==> count < n)
      invariant result.text == start + (HeadLine(columns) + Body(columns, n, newLine, count))
      decreases n - count
    {
      result.Append(newLine);
      hasMore := PrintRow(formatters, columns, n, count, result);
      count := count + 1;
    }
  }

  /** Some value in the rows has text under one of the headers. */
  predicate SomeText(headers: seq<Header>, rows: Rows) {
    exists h, i :: 0 <= h < |headers| && 0 <= i < |rows| && HasText(rows[i], headers[h].name)
  }

  lemma TextFillsAColumn(headers: seq<Header>, rows: Rows)
    requires WidthsKnown(headers, rows)
    ensures AllEmpty(Columns(headers, rows, |rows|)) <==> !SomeText(headers, rows)
  {
    hide HasText, Width, Cell;
    var columns := Columns(headers, rows, |rows|);
    assert rows[..|rows|] == rows;
    if SomeText(headers, rows) {
      var h, i :| 0 <= h < |headers| && 0 <= i < |rows| && HasText(rows[i], headers[h].name);
      assert !columns[h].empty;
    } else {
      forall h | 0 <= h < |columns|
        ensures columns[h].empty
      {
      }
    }
  }

  /** `toStringAsTable` for a type-2 response. It fails when a width is no number, and otherwise ends when there is
      some text to print. */
  method ToStringAsTable(headers: seq<Header>, rows: Rows, newLine: string) returns (table: Result<string, Failure>)
    requires WidthsKnown(headers, rows) ==> SomeText(headers, rows)
    ensures !WidthsKnown(headers, rows) ==> table == Err(NumberFormat)
    ensures WidthsKnown(headers, rows) ==> table == Ok(Table(Columns(headers, rows, |rows|), |rows|, newLine))
  {
    hide Width, HasText, Filled, Table, ShowAll;
    var result := new StringBuilder("");
    var formatters :- LayOut(headers, rows);
    FillIn(formatters, headers, rows);
    TextFillsAColumn(headers, rows);
    Print(formatters, Columns(headers, rows, |rows|), |rows|, newLine, result);
    assert result.text == Table(Columns(headers, rows, |rows|), |rows|, newLine);
    return Ok(result.text);
  }

  /** Without text under any header the loop that `ToStringAsTable` runs never ends; with some it ends after exactly one
      round a row. */
  lemma TablePrintingStops(headers: seq<Header>, rows: Rows, newLine: string)
    requires WidthsKnown(headers, rows)
    ensures var columns := Columns(headers, rows, |rows|);
            && ((exists k: nat :: Rounds(columns, newLine, k).Printing? && !Rounds(columns, newLine, k).hasMore)
                <==> SomeText(headers, rows))
            && (SomeText(headers, rows) ==>
                  && Rounds(columns, newLine, |rows|) == Printing(Table(columns, |rows|, newLine), |rows|, false)
                  && forall k: nat :: k < |rows| ==> Rounds(columns, newLine, k).Printing? && Rounds(columns, newLine, k).hasMore)
  {
    hide Width, HasText, Filled, Table, Rounds, AllEmpty;
    TextFillsAColumn(headers, rows);
    StopsUnlessAllEmpty(Columns(headers, rows, |rows|), |rows|, newLine);
  }

  /** One row with a blank under the only header: the loop is still running after any number of rounds. */
  lemma BlankTableNeverEnds(newLine: string, k: nat)
    ensures var headers, rows := [Header("a", "4")], [map["a" := " "]];
            && WidthsKnown(headers, rows)
            && Rounds(Columns(headers, rows, 1), newLine, k).Printing?
            && Rounds(Columns(headers, rows, 1), newLine, k).hasMore
  {
    var headers, rows := [Header("a", "4")], [map["a" := " "]];
    FourIsAWidth(headers[0], rows);
    assert !SomeText(headers, rows) by { BlankIsNoText(); }
    hide Width, HasText, Filled, Rounds;
    TextFillsAColumn(headers, rows);
    RoundsOfEmpty(Columns(headers, rows, 1), 1, newLine, k);
  }

  lemma FourIsAWidth(header: Header, rows: Rows)
    requires header.len == "4"
    ensures Width(header, rows) == Some(4)
  {
    ParseOfNumeral(4);
    assert Numeral(4, 10) == ['4'] == "4";
  }

  lemma BlankIsNoText()
    ensures Trim(" ") == ""
  {
    assert " "[1..] == "";
  }
}
