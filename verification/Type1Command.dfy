/** The type-1 commands that the region and program services build from their query parameters. */
module Type1Command {
  import opened Brackets
  import opened CommandText
  import opened EssentialCommand
  import opened Results
  import opened Sequences

  // ----- split

  /** The `\s` of a regular expression. */
  predicate IsSpace(c: char) {
    c == ' ' || 9 as char <= c <= 13 as char
  }

  function StripLeft(s: string): (r: string)
    ensures |r| <= |s|
  {
    if s != "" && IsSpace(s[0]) then StripLeft(s[1..]) else s
  }

  function StripRight(s: string): string {
    if s != "" && IsSpace(s[|s| - 1]) then StripRight(s[..|s| - 1]) else s
  }

  function IndexOfComma(s: string): (k: nat)
    ensures k <= |s|
    ensures k < |s| ==> s[k] == ','
    ensures ',' !in s[..k]
  {
    if s == "" || s[0] == ',' then 0 else 1 + IndexOfComma(s[1..])
  }

  /** The pieces between the commas, without the blanks around the commas. */
  function Pieces(s: string): (ps: seq<string>)
    ensures ps != []
    decreases |s|
  {
    var k := IndexOfComma(s);
    if k == |s| then [s] else [StripRight(s[..k])] + Pieces(StripLeft(s[k + 1..]))
  }

  function WithoutTrailingEmpty(ps: seq<string>): seq<string> {
    if ps != [] && ps[|ps| - 1] == "" then WithoutTrailingEmpty(ps[..|ps| - 1]) else ps
  }

  /** `split("\\s*,\\s*")`: trailing empty pieces are dropped, unless there was nothing to split. */
  function Split(s: string): seq<string> {
    if ',' in s then WithoutTrailingEmpty(Pieces(s)) else [s]
  }

  predicate CommasAndBlanks(s: string) {
    forall i :: 0 <= i < |s| ==> s[i] == ',' || IsSpace(s[i])
  }

  predicate OnlyCommasAndBlanks(s: string) {
    ',' in s && CommasAndBlanks(s)
  }

  lemma {:induction false} StripLeftEmpty(s: string)
    ensures StripLeft(s) == "" <==> forall i :: 0 <= i < |s| ==> IsSpace(s[i])
    ensures StripLeft(s) == s[|s| - |StripLeft(s)|..]
    ensures forall i :: 0 <= i < |s| - |StripLeft(s)| ==> IsSpace(s[i])
  {
    if s != "" && IsSpace(s[0]) {
      StripLeftEmpty(s[1..]);
      assert forall i :: 0 < i < |s| ==> s[i] == s[1..][i - 1];
    }
  }

  lemma {:induction false} StripRightEmpty(s: string)
    ensures StripRight(s) == "" <==> forall i :: 0 <= i < |s| ==> IsSpace(s[i])
    decreases |s|
  {
    if s != "" && IsSpace(s[|s| - 1]) {
      StripRightEmpty(s[..|s| - 1]);
    } else if s != "" {
      assert !IsSpace(s[|s| - 1]);
    }
  }

  ghost predicate AllEmpty(ps: seq<string>) {
    forall i :: 0 <= i < |ps| ==> ps[i] == ""
  }

  lemma {:induction false} NothingLeft(ps: seq<string>)
    ensures WithoutTrailingEmpty(ps) == [] <==> AllEmpty(ps)
    decreases |ps|
  {
    if ps != [] && ps[|ps| - 1] == "" {
      NothingLeft(ps[..|ps| - 1]);
    }
  }

  lemma CommasAndBlanksConcat(s: string, t: string)
    ensures CommasAndBlanks(s + t) <==> CommasAndBlanks(s) && CommasAndBlanks(t)
  {
    assert forall i :: 0 <= i < |s| ==> (s + t)[i] == s[i];
    assert forall i :: 0 <= i < |t| ==> (s + t)[|s| + i] == t[i];
  }

  lemma HeadIsBlank(head: string)
    requires ',' !in head
    ensures CommasAndBlanks(head) <==> StripRight(head) == ""
  {
    StripRightEmpty(head);
    assert forall i :: 0 <= i < |head| ==> head[i] in head;
  }

  lemma TailIsBlank(tail: string)
    ensures CommasAndBlanks(StripLeft(tail)) <==> CommasAndBlanks(tail)
    ensures StripLeft(tail) != "" ==> !IsSpace(StripLeft(tail)[0])
  {
    StripLeftEmpty(tail);
    var n := |tail| - |StripLeft(tail)|;
    assert tail == tail[..n] + StripLeft(tail);
    CommasAndBlanksConcat(tail[..n], StripLeft(tail));
  }

  /** A text with a comma, or without a leading blank, has only empty pieces if it is made of commas and blanks. */
  lemma {:induction false} EmptyPieces(s: string)
    ensures ',' in s || s == "" || !IsSpace(s[0]) ==> (AllEmpty(Pieces(s)) <==> CommasAndBlanks(s))
    decreases |s|
  {
    hide StripRight, StripLeft, AllEmpty, CommasAndBlanks, IndexOfComma;
    var k := IndexOfComma(s);
    if k == |s| {
      assert s[..k] == s;
      if s == "" || !IsSpace(s[0]) {
        OnePiece(s);
      }
    } else {
      var head, tail := s[..k], s[k + 1..];
      var next := StripLeft(tail);
      assert s == head + ([','] + tail);
      HeadIsBlank(head);
      TailIsBlank(tail);
      EmptyPieces(next);
      FirstPiece(StripRight(head), Pieces(next));
      CommasAndBlanksConcat(head, [','] + tail);
      CommasAndBlanksConcat([','], tail);
      CommaAlone();
    }
  }

  lemma CommaAlone()
    ensures CommasAndBlanks([','])
  {
  }

  lemma OnePiece(s: string)
    requires ',' !in s && (s == "" || !IsSpace(s[0]))
    ensures AllEmpty([s]) <==> CommasAndBlanks(s)
  {
    assert s != "" ==> s[0] in s;
    assert AllEmpty([s]) <==> [s][0] == "";
  }

  lemma FirstPiece(p: string, ps: seq<string>)
    ensures AllEmpty([p] + ps) <==> p == "" && AllEmpty(ps)
  {
    var all := [p] + ps;
    assert all[0] == p && forall i :: 0 <= i < |ps| ==> all[i + 1] == ps[i];
    if p == "" && AllEmpty(ps) {
      assert forall i :: 0 < i < |all| ==> all[i] == ps[i - 1];
    }
  }

  /** Splitting gives no pieces at all exactly for a text of commas and blanks. */
  lemma SplitIsEmpty(s: string)
    ensures Split(s) == [] <==> OnlyCommasAndBlanks(s)
  {
    EmptyPieces(s);
    NothingLeft(Pieces(s));
  }

  // ----- the texts

  /** The loop that adds a comma after every route, and the deletion of the last character. */
  function RouteSuffix(open: string, routes: seq<string>): string
    requires open != ""
  {
    if routes == [] then open[..|open| - 1] + ")" else open + Join(",", routes) + ")"
  }

  function RoutePart(open: string, imsmbr: Option<string>): string
    requires open != ""
  {
    if imsmbr.Some? then RouteSuffix(open, Split(imsmbr.value)) else ""
  }

  /** A type-1 command: its own text in brackets, the option, and the routes. */
  function Type1Text(words: string, open: string, imsmbr: Option<string>): string
    requires open != ""
  {
    "CMD(" + ("(" + words + ")" + " OPTION=AOPOUTPUT") + ")" + RoutePart(open, imsmbr)
  }

  function Labelled(keyword: string, value: Option<string>): string {
    if value.Some? then keyword + value.value + " " else ""
  }

  function StopTail(abdump: Option<string>, transaction: Option<string>, cancel: bool): string {
    Labelled("ABDUMP ", abdump) + Labelled("TRANSACTION ", transaction) + if cancel then "CANCEL" else ""
  }

  function RegionNumbers(regNumber: string): string {
    var pieces := Split(regNumber);
    if |pieces| > 1 then pieces[0] + "-" + pieces[1] + " " else regNumber + " "
  }

  function StopWords(regNumber: Option<string>, jobName: Option<string>, abdump: Option<string>, transaction: Option<string>,
                     cancel: bool): string
  {
    "STOP REGION "
    + (if regNumber.Some? then RegionNumbers(regNumber.value) + StopTail(abdump, transaction, cancel) else "")
    + (if jobName.Some? then Labelled("JOBNAME ", jobName) + StopTail(abdump, transaction, cancel) else "")
  }

  function StartWords(memName: Option<string>, jobName: Option<string>, local: bool): string {
    "START REGION "
    + (if memName.Some? then memName.value + " " + Labelled("JOBNAME ", jobName) else "")
    + if local then "LOCAL" else ""
  }

  function StartPgmWords(names: Option<string>): string {
    "STA PGM" + if names.Some? then " " + names.value else " ALL"
  }

  // ----- the code that builds them

  method AppendRoutes(open: string, imsmbr: Option<string>, sb: StringBuilder)
    requires open != ""
    modifies sb
    ensures sb.text == old(sb.text) + RoutePart(open, imsmbr)
  {
    if imsmbr.None? {
      return;
    }
    var routes := Split(imsmbr.value);
    var before := sb.text;
    sb.Append(open);
    var i := 0;
    assert routes[0..] == routes;
    while i < |routes|
      invariant i <= |routes|
      invariant sb.text + Terminated(",", routes[i..]) == before + open + Terminated(",", routes)
    {
      assert routes[i..][0] == routes[i] && routes[i..][1..] == routes[i + 1..];
      Regroup(sb.text, routes[i] + ",", Terminated(",", routes[i + 1..]));
      sb.Append(routes[i] + ",");
      i := i + 1;
    }
    assert routes[i..] == [];
    Stripped(before, open, routes);
    sb.DeleteLastChar();
    sb.Append(")");
    RouteRegroup(before, open, routes);
  }

  lemma Stripped(before: string, open: string, routes: seq<string>)
    requires open != ""
    ensures var s := before + open + Terminated(",", routes);
            s != "" && s[..|s| - 1] == before + if routes == [] then open[..|open| - 1] else open + Join(",", routes)
  {
    if routes != [] {
      TerminatedIsJoin(",", routes);
    }
  }

  lemma RouteRegroup(before: string, open: string, routes: seq<string>)
    requires open != ""
    ensures before + (if routes == [] then open[..|open| - 1] else open + Join(",", routes)) + ")"
         == before + RouteSuffix(open, routes)
  {
    hide Join;
  }

  method AppendOption(sb: StringBuilder, ghost words: string)
    requires sb.text == "CMD((" + words
    modifies sb
    ensures sb.text == "CMD(" + ("(" + words + ")" + " OPTION=AOPOUTPUT") + ")"
  {
    sb.Append(")");
    sb.Append(" OPTION=AOPOUTPUT");
    sb.Append(")");
  }

  method AppendStopTail(abdump: Option<string>, transaction: Option<string>, cancel: bool, sb: StringBuilder)
    modifies sb
    ensures sb.text == old(sb.text) + StopTail(abdump, transaction, cancel)
  {
    if abdump.Some? {
      sb.Append("ABDUMP " + abdump.value + " ");
    }
    assert sb.text == old(sb.text) + Labelled("ABDUMP ", abdump);
    Regroup(old(sb.text), Labelled("ABDUMP ", abdump), Labelled("TRANSACTION ", transaction));
    if transaction.Some? {
      sb.Append("TRANSACTION " + transaction.value + " ");
    }
    assert sb.text == old(sb.text) + (Labelled("ABDUMP ", abdump) + Labelled("TRANSACTION ", transaction));
    if cancel {
      sb.Append("CANCEL");
    }
  }

  method Stop(regNumber: Option<string>, jobName: Option<string>, abdump: Option<string>, transaction: Option<string>,
              cancel: bool, imsmbr: Option<string>) returns (r: string)
    ensures r == Type1Text(StopWords(regNumber, jobName, abdump, transaction, cancel), " ROUTE(", imsmbr)
  {
    hide StopTail, Split, RoutePart;
    var sb := new StringBuilder("CMD((STOP REGION ");
    ghost var words := "STOP REGION ";
    assert sb.text == "CMD((" + words;
    if regNumber.Some? {
      var regNumbers := Split(regNumber.value);
      if |regNumbers| > 1 {
        sb.Append(regNumbers[0] + "-" + regNumbers[1] + " ");
      } else {
        sb.Append(regNumber.value + " ");
      }
      ghost var numbers := RegionNumbers(regNumber.value);
      Regroup("CMD((", words, numbers);
      AppendStopTail(abdump, transaction, cancel, sb);
      Regroup("CMD((" + words, numbers, StopTail(abdump, transaction, cancel));
      Regroup("CMD((", words, numbers + StopTail(abdump, transaction, cancel));
      words := words + (numbers + StopTail(abdump, transaction, cancel));
    }
    if jobName.Some? {
      sb.Append("JOBNAME " + jobName.value + " ");
      ghost var job := Labelled("JOBNAME ", jobName);
      AppendStopTail(abdump, transaction, cancel, sb);
      Regroup("CMD((" + words, job, StopTail(abdump, transaction, cancel));
      Regroup("CMD((", words, job + StopTail(abdump, transaction, cancel));
      words := words + (job + StopTail(abdump, transaction, cancel));
    }
    assert words == StopWords(regNumber, jobName, abdump, transaction, cancel);
    AppendOption(sb, words);
    AppendRoutes(" ROUTE(", imsmbr, sb);
    return sb.text;
  }

  method AppendStartJob(jobName: Option<string>, sb: StringBuilder)
    modifies sb
    ensures sb.text == old(sb.text) + Labelled("JOBNAME ", jobName)
  {
    if jobName.Some? {
      sb.Append("JOBNAME ");
      sb.Append(jobName.value + " ");
    }
  }

  method Start(memName: Option<string>, jobName: Option<string>, local: bool, imsmbr: Option<string>) returns (r: string)
    ensures r == Type1Text(StartWords(memName, jobName, local), " ROUTE(", imsmbr)
  {
    hide Split, RoutePart, Labelled;
    var sb := new StringBuilder("CMD((START REGION ");
    ghost var words := "START REGION ";
    assert sb.text == "CMD((" + words;
    if memName.Some? {
      sb.Append(memName.value + " ");
      ghost var mem := memName.value + " ";
      AppendStartJob(jobName, sb);
      assert sb.text == "CMD((" + words + mem + Labelled("JOBNAME ", jobName);
      Regroup("CMD((" + words, mem, Labelled("JOBNAME ", jobName));
      Regroup("CMD((", words, mem + Labelled("JOBNAME ", jobName));
      words := words + (mem + Labelled("JOBNAME ", jobName));
    }
    if local {
      sb.Append("LOCAL");
      Regroup("CMD((", words, "LOCAL");
    }
    words := StartWords(memName, jobName, local);
    assert sb.text == "CMD((" + words;
    AppendOption(sb, words);
    AppendRoutes(" ROUTE(", imsmbr, sb);
    return sb.text;
  }

  method Display(imsmbr: Option<string>) returns (r: string)
    ensures r == Type1Text("DIS ACT REGION", " ROUTE(", imsmbr)
  {
    hide Split, RoutePart;
    var sb := new StringBuilder("CMD((DIS ACT REGION");
    assert sb.text == "CMD((" + "DIS ACT REGION";
    AppendOption(sb, "DIS ACT REGION");
    AppendRoutes(" ROUTE(", imsmbr, sb);
    return sb.text;
  }

  method StartPgm(names: Option<string>, imsmbr: Option<string>) returns (r: string)
    ensures r == Type1Text(StartPgmWords(names), "ROUTE(", imsmbr)
  {
    hide Split, RoutePart;
    var sb := new StringBuilder("CMD((STA PGM");
    if names.Some? {
      sb.Append(" " + names.value);
    } else {
      sb.Append(" ALL");
    }
    ghost var words := StartPgmWords(names);
    assert sb.text == "CMD((" + words;
    AppendOption(sb, words);
    AppendRoutes("ROUTE(", imsmbr, sb);
    return sb.text;
  }

  // ----- balance and extraction

  lemma Type1BodyIsBalanced(words: string)
    requires Balanced(words)
    ensures Balanced("(" + words + ")" + " OPTION=AOPOUTPUT")
  {
    hide Balanced;
    BalancedNesting(words);
    FlatIsBalanced(" OPTION=AOPOUTPUT");
    BalancedConcat("(" + words + ")", " OPTION=AOPOUTPUT");
  }

  /** Whatever the routes are, the extractor returns the command and its option. */
  lemma Type1IsExtracted(words: string, open: string, imsmbr: Option<string>)
    requires Balanced(words) && open != ""
    ensures Extracted(Type1Text(words, open, imsmbr)) == "(" + words + ")" + " OPTION=AOPOUTPUT"
  {
    var body := "(" + words + ")" + " OPTION=AOPOUTPUT";
    Type1BodyIsBalanced(words);
    ExtractsExactlyBalanced(body, RoutePart(open, imsmbr));
    TrimUnneeded(body);
  }

  lemma {:induction false} FlatJoin(separator: string, items: seq<string>)
    requires Flat(separator) && forall i :: 0 <= i < |items| ==> Flat(items[i])
    ensures Flat(Join(separator, items))
  {
    if |items| > 1 {
      FlatJoin(separator, items[1..]);
    }
  }

  lemma RouteSuffixBalance(blank: string, routes: seq<string>)
    requires Flat(blank) && forall i :: 0 <= i < |routes| ==> Flat(routes[i])
    ensures Balanced(RouteSuffix(blank + "ROUTE(", routes)) <==> routes != []
  {
    var open := blank + "ROUTE(";
    if routes == [] {
      assert open[..|open| - 1] == blank + "ROUTE";
      FlatDepth(blank + "ROUTE");
      DepthOfConcat(blank + "ROUTE", ")");
      DepthOfOne(')');
      assert [')'] == ")";
    } else {
      var items := Join(",", routes);
      FlatJoin(",", routes);
      hide Balanced, Join;
      FlatIsBalanced(blank + "ROUTE");
      FlatIsBalanced(items);
      BalancedNesting(items);
      BalancedConcat(blank + "ROUTE", "(" + items + ")");
      assert RouteSuffix(open, routes) == blank + "ROUTE" + ("(" + items + ")");
    }
  }

  lemma {:induction false} PiecesAreFlat(s: string)
    requires Flat(s)
    ensures forall i :: 0 <= i < |Pieces(s)| ==> Flat(Pieces(s)[i])
    decreases |s|
  {
    var k := IndexOfComma(s);
    if k < |s| {
      FlatStripRight(s[..k]);
      StripLeftEmpty(s[k + 1..]);
      PiecesAreFlat(StripLeft(s[k + 1..]));
    }
  }

  lemma {:induction false} FlatStripRight(s: string)
    requires Flat(s)
    ensures Flat(StripRight(s))
    decreases |s|
  {
    if s != "" && IsSpace(s[|s| - 1]) {
      FlatStripRight(s[..|s| - 1]);
    }
  }

  lemma {:induction false} FlatWithoutTrailing(ps: seq<string>)
    requires forall i :: 0 <= i < |ps| ==> Flat(ps[i])
    ensures forall i :: 0 <= i < |WithoutTrailingEmpty(ps)| ==> Flat(WithoutTrailingEmpty(ps)[i])
    decreases |ps|
  {
    if ps != [] && ps[|ps| - 1] == "" {
      FlatWithoutTrailing(ps[..|ps| - 1]);
    }
  }

  /** A type-1 command is balanced as a whole unless the route parameter is made of nothing but commas and blanks: then
      the deletion of the last comma takes the opening bracket of ROUTE instead. */
  lemma Type1Balance(words: string, blank: string, imsmbr: Option<string>)
    requires Balanced(words) && Flat(blank) && (imsmbr.Some? ==> Flat(imsmbr.value))
    ensures Balanced(Type1Text(words, blank + "ROUTE(", imsmbr))
            <==> !(imsmbr.Some? && OnlyCommasAndBlanks(imsmbr.value))
  {
    var open := blank + "ROUTE(";
    var body := "(" + words + ")" + " OPTION=AOPOUTPUT";
    var wrapped := "CMD(" + body + ")";
    Type1BodyIsBalanced(words);
    BalancedNesting(body);
    FlatIsBalanced("CMD");
    BalancedConcat("CMD", "(" + body + ")");
    assert wrapped == "CMD" + ("(" + body + ")");
    if imsmbr.Some? {
      var routes := Split(imsmbr.value);
      SplitIsEmpty(imsmbr.value);
      PiecesAreFlat(imsmbr.value);
      FlatWithoutTrailing(Pieces(imsmbr.value));
      RouteSuffixBalance(blank, routes);
      SuffixDecides(wrapped, RouteSuffix(open, routes));
    } else {
      assert wrapped + "" == wrapped;
    }
  }

  lemma SuffixDecides(s: string, t: string)
    requires Balanced(s)
    ensures Balanced(s + t) <==> Balanced(t)
  {
    DepthOfConcat(s, t);
    if Balanced(t) {
      BalancedConcat(s, t);
    }
    forall k | 0 <= k <= |t|
      ensures Depth(t[..k]) == Depth((s + t)[..|s| + k])
    {
      assert (s + t)[..|s| + k] == s + t[..k];
      DepthOfConcat(s, t[..k]);
    }
  }

  /** A route parameter that is one comma. */
  lemma CommaIsNoRoute()
    ensures Split(",") == []
    ensures !Balanced(Type1Text("DIS ACT REGION", " ROUTE(", Some(",")))
  {
    hide Balanced, Type1Text, Split;
    assert OnlyCommasAndBlanks(",");
    SplitIsEmpty(",");
    FlatIsBalanced("DIS ACT REGION");
    Type1Balance("DIS ACT REGION", " ", Some(","));
    assert " " + "ROUTE(" == " ROUTE(";
  }
}
