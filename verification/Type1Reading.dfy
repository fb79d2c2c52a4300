/** Reading the type-1 commands back: the words that the services' parameters become, and the routes. */
module Type1Reading {
  import opened CommandReading
  import opened CommandText
  import opened CommandTokens
  import opened Results
  import opened Sequences
  import opened Type1Command

  // ----- lists with commas

  /** Neither empty nor with a comma in it nor a blank at an end. */
  predicate Piece(s: string) {
    s != "" && ',' !in s && !IsSpace(s[0]) && !IsSpace(s[|s| - 1])
  }

  predicate AllSpaces(s: string) {
    forall i :: 0 <= i < |s| ==> IsSpace(s[i])
  }

  /** A comma with any blanks on its two sides. */
  datatype Gap = Gap(left: string, right: string)

  /** The pieces with a gap between each two. */
  function Spread(pieces: seq<string>, gaps: seq<Gap>): string
    requires |pieces| == |gaps| + 1
  {
    if gaps == [] then pieces[0]
    else pieces[0] + gaps[0].left + "," + gaps[0].right + Spread(pieces[1..], gaps[1..])
  }

  predicate Spaced(gaps: seq<Gap>) {
    forall i :: 0 <= i < |gaps| ==> AllSpaces(gaps[i].left) && AllSpaces(gaps[i].right)
  }

  lemma {:induction false} StripRightSpaces(s: string, spaces: string)
    requires s != "" && !IsSpace(s[|s| - 1]) && AllSpaces(spaces)
    ensures StripRight(s + spaces) == s
    decreases |spaces|
  {
    if spaces == "" {
      assert s + spaces == s;
    } else {
      StripRightSpaces(s, spaces[..|spaces| - 1]);
      assert (s + spaces)[..|s + spaces| - 1] == s + spaces[..|spaces| - 1];
    }
  }

  lemma {:induction false} StripLeftSpaces(spaces: string, s: string)
    requires s != "" && !IsSpace(s[0]) && AllSpaces(spaces)
    ensures StripLeft(spaces + s) == s
  {
    if spaces == "" {
      assert spaces + s == s;
    } else {
      StripLeftSpaces(spaces[1..], s);
      assert (spaces + s)[1..] == spaces[1..] + s;
    }
  }

  lemma {:induction false} CommaAt(front: string, back: string)
    requires ',' !in front
    ensures IndexOfComma(front + "," + back) == |front|
  {
    var s := front + "," + back;
    if front == "" {
      assert s[0] == ',';
    } else {
      CommaAt(front[1..], back);
      assert s[1..] == front[1..] + "," + back;
    }
  }

  lemma NoCommas(spaces: string)
    requires AllSpaces(spaces)
    ensures ',' !in spaces
  {
  }

  lemma SpreadStarts(pieces: seq<string>, gaps: seq<Gap>)
    requires |pieces| == |gaps| + 1 && Piece(pieces[0])
    ensures Spread(pieces, gaps) != "" && Spread(pieces, gaps)[0] == pieces[0][0]
  {
  }

  lemma {:induction false} NoComma(s: string)
    requires ',' !in s
    ensures IndexOfComma(s) == |s|
  {
    if s != "" {
      assert s == [s[0]] + s[1..];
      NoComma(s[1..]);
    }
  }

  lemma {:induction false} PiecesOfSpread(pieces: seq<string>, gaps: seq<Gap>)
    requires |pieces| == |gaps| + 1 && (forall i :: 0 <= i < |pieces| ==> Piece(pieces[i])) && Spaced(gaps)
    ensures Type1Command.Pieces(Spread(pieces, gaps)) == pieces
    decreases |pieces|
  {
    hide IndexOfComma, StripRight, StripLeft, IsSpace;
    var s := Spread(pieces, gaps);
    if gaps == [] {
      NoComma(s);
      assert [pieces[0]] == pieces;
    } else {
      var front, back := pieces[0] + gaps[0].left, gaps[0].right + Spread(pieces[1..], gaps[1..]);
      NoCommas(gaps[0].left);
      assert s == front + "," + back;
      CommaAt(front, back);
      assert s[..|front|] == front && s[|front| + 1..] == back;
      StripRightSpaces(pieces[0], gaps[0].left);
      SpreadStarts(pieces[1..], gaps[1..]);
      StripLeftSpaces(gaps[0].right, Spread(pieces[1..], gaps[1..]));
      PiecesOfSpread(pieces[1..], gaps[1..]);
      assert [pieces[0]] + pieces[1..] == pieces;
    }
  }

  /** Splitting gives back the pieces of a list, whatever blanks are around its commas. */
  lemma SplitOfSpread(pieces: seq<string>, gaps: seq<Gap>)
    requires |pieces| == |gaps| + 1 && (forall i :: 0 <= i < |pieces| ==> Piece(pieces[i])) && Spaced(gaps)
    ensures Split(Spread(pieces, gaps)) == pieces
  {
    hide Type1Command.Pieces, StripLeft, StripRight, IndexOfComma;
    PiecesOfSpread(pieces, gaps);
    if gaps == [] {
      assert [pieces[0]] == pieces;
    } else {
      assert "," <= ("," + gaps[0].right + Spread(pieces[1..], gaps[1..]));
      var front := pieces[0] + gaps[0].left;
      assert Spread(pieces, gaps)[|front|] == ',';
      assert pieces[|pieces| - 1] != "";
    }
  }

  // ----- the tokens of the commands

  function WordsOf(words: seq<string>): (tokens: seq<seq<Token>>)
    ensures |tokens| == |words|
  {
    seq(|words|, i requires 0 <= i < |words| => [Word(words[i])])
  }

  /** A word after its keyword, if it is given. */
  function Given(keyword: string, value: Option<string>): seq<Token> {
    if value.Some? then [Word(keyword), Word(value.value)] else []
  }

  predicate CleanOption(value: Option<string>) {
    value.Some? ==> CleanName(value.value)
  }

  lemma Keyword(s: string)
    requires s != "" && forall i :: 0 <= i < |s| ==> 'A' <= s[i] <= 'Z'
    ensures CleanName(s)
  {
  }

  /** A word with a blank behind it, and what follows. */
  lemma WordThen(word: string, s: string)
    requires CleanName(word)
    ensures Tokens(word + " ") == [Word(word)]
    ensures Tokens(word + " " + s) == [Word(word)] + Tokens(s)
  {
    hide Tokens, CleanName;
    TokensOfMarks();
    TokensOfWord(word);
    TokensConcat(word, " ");
    TokensConcat(word + " ", s);
  }

  lemma OptionIsClean(option: string)
    requires option == "OPTION" + "=" + "AOPOUTPUT"
    ensures CleanName(option)
  {
  }

  lemma TokensOfWrapping(words: string)
    ensures Tokens("CMD(" + ("(" + words + ")" + " OPTION=AOPOUTPUT") + ")")
         == [Word("CMD"), Open, Open] + Tokens(words) + [Close, Word("OPTION=AOPOUTPUT"), Close]
  {
    hide Tokens, CleanName;
    TokensOfMarks();
    var option := "OPTION=AOPOUTPUT";
    OptionIsClean(option);
    TokensOfWord(option);
    TokensOfBracket("", words);
    var bracketed := "" + "(" + words + ")";
    assert bracketed == "(" + words + ")";
    TokensConcat(bracketed + " ", option);
    TokensConcat(bracketed, " ");
    var inner := bracketed + " " + option;
    assert inner == "(" + words + ")" + " OPTION=AOPOUTPUT";
    Keyword("CMD");
    TokensOfWord("CMD");
    TokensOfBracket("CMD", inner);
    assert "CMD" + "(" == "CMD(";
  }

  /** The command in its two brackets, its option, and the routes, if any are given. */
  lemma TokensOfType1(words: string, blank: string, imsmbr: Option<string>, routes: seq<string>)
    requires blank == "" || blank == " "
    requires imsmbr.Some? ==> Split(imsmbr.value) == routes && routes != []
    requires forall i :: 0 <= i < |routes| ==> CleanName(routes[i])
    ensures Tokens(Type1Text(words, blank + "ROUTE(", imsmbr)) ==
            [Word("CMD"), Open, Open] + Tokens(words) + [Close, Word("OPTION=AOPOUTPUT"), Close]
            + if imsmbr.Some? then [Word("ROUTE"), Open] + Listed(WordsOf(routes)) + [Close] else []
  {
    hide Tokens, CleanName, Split, RoutePart, Listed;
    TokensOfWrapping(words);
    RouteTokens(blank, imsmbr, routes);
    var wrapped := "CMD(" + ("(" + words + ")" + " OPTION=AOPOUTPUT") + ")";
    assert wrapped[|wrapped| - 1] == ')';
    TokensConcat(wrapped, RoutePart(blank + "ROUTE(", imsmbr));
  }

  lemma RouteTokens(blank: string, imsmbr: Option<string>, routes: seq<string>)
    requires blank == "" || blank == " "
    requires imsmbr.Some? ==> Split(imsmbr.value) == routes && routes != []
    requires forall i :: 0 <= i < |routes| ==> CleanName(routes[i])
    ensures Tokens(RoutePart(blank + "ROUTE(", imsmbr)) ==
            if imsmbr.Some? then [Word("ROUTE"), Open] + Listed(WordsOf(routes)) + [Close] else []
  {
    hide Tokens, CleanName, Split, Join, Listed;
    TokensOfMarks();
    Keyword("ROUTE");
    if imsmbr.Some? {
      forall i | 0 <= i < |routes|
        ensures Tokens(routes[i]) == WordsOf(routes)[i]
      {
        TokensOfWord(routes[i]);
      }
      TokensOfJoin(",", routes, WordsOf(routes));
      TokensConcat(blank, "ROUTE");
      TokensOfWord("ROUTE");
      TokensOfBracket(blank + "ROUTE", Join(",", routes));
      assert blank + "ROUTE" + "(" == blank + "ROUTE(";
    }
  }

  lemma LabelledTokens(keyword: string, value: Option<string>, s: string)
    requires CleanName(keyword) && CleanOption(value)
    ensures Tokens(Labelled(keyword + " ", value) + s) == Given(keyword, value) + Tokens(s)
  {
    hide Tokens, CleanName;
    if value.Some? {
      WordThen(value.value, s);
      WordThen(keyword, value.value + " " + s);
      assert Labelled(keyword + " ", value) + s == keyword + " " + (value.value + " " + s);
    } else {
      assert "" + s == s;
    }
  }

  function StopTailTokens(abdump: Option<string>, transaction: Option<string>, cancel: bool): seq<Token> {
    Given("ABDUMP", abdump) + Given("TRANSACTION", transaction) + if cancel then [Word("CANCEL")] else []
  }

  lemma StopTailTold(abdump: Option<string>, transaction: Option<string>, last: string)
    requires CleanOption(abdump) && CleanOption(transaction)
    ensures Tokens(Labelled("ABDUMP ", abdump) + (Labelled("TRANSACTION ", transaction) + last))
         == Given("ABDUMP", abdump) + Given("TRANSACTION", transaction) + Tokens(last)
  {
    hide Tokens, CleanName, Labelled;
    Keyword("ABDUMP");
    Keyword("TRANSACTION");
    LabelledTokens("TRANSACTION", transaction, last);
    LabelledTokens("ABDUMP", abdump, Labelled("TRANSACTION ", transaction) + last);
    assert "TRANSACTION" + " " == "TRANSACTION " && "ABDUMP" + " " == "ABDUMP ";
  }

  /** One region number, or the first and the last of a range with a dash in between. */
  lemma RegionsTold(regNumber: string, numbers: seq<string>, s: string)
    requires Split(regNumber) == numbers && numbers != [] && (|numbers| == 1 ==> regNumber == numbers[0])
    requires forall i :: 0 <= i < |numbers| ==> CleanName(numbers[i])
    ensures Tokens(RegionNumbers(regNumber) + s) ==
            [Word(if |numbers| > 1 then numbers[0] + "-" + numbers[1] else numbers[0])] + Tokens(s)
  {
    hide Tokens, Split;
    if |numbers| > 1 {
      assert CleanName(numbers[0]) && CleanName(numbers[1]);
      DashIsClean(numbers[0], numbers[1]);
      WordThen(numbers[0] + "-" + numbers[1], s);
    } else {
      WordThen(numbers[0], s);
    }
  }

  lemma DashIsClean(a: string, b: string)
    requires CleanName(a) && CleanName(b)
    ensures CleanName(a + "-" + b)
  {
  }

  /** What should be said: the regions, the job, and behind each of them what to dump, which transaction, and whether to
      cancel. */
  function StopTokens(numbers: seq<string>, jobName: Option<string>, abdump: Option<string>, transaction: Option<string>,
                      cancel: bool): seq<Token>
  {
    [Word("STOP"), Word("REGION")]
    + (if numbers != [] then [Word(RegionWord(numbers))] + StopTailTokens(abdump, transaction, cancel) else [])
    + if jobName.Some? then [Word("JOBNAME"), Word(jobName.value)] + StopTailTokens(abdump, transaction, cancel) else []
  }

  function RegionWord(numbers: seq<string>): string
    requires numbers != []
  {
    if |numbers| > 1 then numbers[0] + "-" + numbers[1] else numbers[0]
  }

  /** The parameter lists these regions; without the parameter there are none. */
  predicate Lists(regNumber: Option<string>, numbers: seq<string>) {
    && (forall i :: 0 <= i < |numbers| ==> CleanName(numbers[i]))
    && if regNumber.None? then numbers == []
       else Split(regNumber.value) == numbers && numbers != [] && (|numbers| == 1 ==> regNumber.value == numbers[0])
  }

  /** What follows the tail of the regions: without a blank in between, CANCEL and the keyword of the job are one word. */
  function JobTokens(jobName: Option<string>, abdump: Option<string>, transaction: Option<string>, cancel: bool,
                     glued: bool): seq<Token>
  {
    if jobName.None? then if glued then [Word("CANCEL")] else []
    else
      [Word(if glued then "CANCELJOBNAME" else "JOBNAME"), Word(jobName.value)] + StopTailTokens(abdump, transaction, cancel)
  }

  lemma CancelTokens(cancel: bool)
    ensures Tokens(if cancel then "CANCEL" else "") == if cancel then [Word("CANCEL")] else []
  {
    hide Tokens;
    TokensOfMarks();
    Keyword("CANCEL");
    TokensOfWord("CANCEL");
  }

  lemma TailTokens(abdump: Option<string>, transaction: Option<string>, cancel: bool)
    requires CleanOption(abdump) && CleanOption(transaction)
    ensures Tokens(StopTail(abdump, transaction, cancel)) == StopTailTokens(abdump, transaction, cancel)
  {
    hide Tokens, CleanName, Labelled;
    CancelTokens(cancel);
    var last := if cancel then "CANCEL" else "";
    StopTailTold(abdump, transaction, last);
    Regroup(Labelled("ABDUMP ", abdump), Labelled("TRANSACTION ", transaction), last);
  }

  lemma JobTold(jobName: Option<string>, abdump: Option<string>, transaction: Option<string>, cancel: bool, glued: bool)
    requires CleanOption(jobName) && CleanOption(abdump) && CleanOption(transaction)
    ensures var job := if jobName.Some? then Labelled("JOBNAME ", jobName) + StopTail(abdump, transaction, cancel) else "";
            Tokens((if glued then "CANCEL" else "") + job) == JobTokens(jobName, abdump, transaction, cancel, glued)
  {
    hide Tokens, StopTail, StopTailTokens, Labelled;
    CancelTokens(glued);
    if jobName.Some? {
      TailTokens(abdump, transaction, cancel);
      JobSaid(if glued then "CANCEL" else "", jobName.value, StopTail(abdump, transaction, cancel));
      assert "" + "JOBNAME" == "JOBNAME" && "CANCEL" + "JOBNAME" == "CANCELJOBNAME";
    } else {
      assert (if glued then "CANCEL" else "") + "" == if glued then "CANCEL" else "";
    }
  }

  lemma JobSaid(front: string, name: string, tail: string)
    requires (front == "" || front == "CANCEL") && CleanName(name)
    ensures Tokens(front + (Labelled("JOBNAME ", Some(name)) + tail)) == [Word(front + "JOBNAME"), Word(name)] + Tokens(tail)
  {
    hide Tokens, Labelled, CleanName;
    var keyword := front + "JOBNAME";
    Keyword(keyword);
    WordThen(name, tail);
    WordThen(keyword, name + " " + tail);
    KeywordGlued(front, keyword, name, tail);
  }

  lemma KeywordGlued(front: string, keyword: string, name: string, tail: string)
    requires keyword == front + "JOBNAME"
    ensures front + (Labelled("JOBNAME ", Some(name)) + tail) == keyword + " " + (name + " " + tail)
  {
    assert "JOBNAME " == "JOBNAME" + " ";
    Regroup("JOBNAME" + " ", name, " ");
    Regroup("JOBNAME" + " ", name + " ", tail);
    Regroup(front, "JOBNAME" + " ", name + " " + tail);
    Regroup(front, "JOBNAME", " ");
  }

  lemma StopSplit(regNumber: string, jobName: Option<string>, abdump: Option<string>, transaction: Option<string>, cancel: bool)
    ensures var job := if jobName.Some? then Labelled("JOBNAME ", jobName) + StopTail(abdump, transaction, cancel) else "";
            StopWords(Some(regNumber), jobName, abdump, transaction, cancel)
            == "STOP" + " " + ("REGION" + " " + (RegionNumbers(regNumber)
               + (Labelled("ABDUMP ", abdump) + (Labelled("TRANSACTION ", transaction) + ((if cancel then "CANCEL" else "") + job)))))
  {
    hide RegionNumbers, Labelled;
    var job := if jobName.Some? then Labelled("JOBNAME ", jobName) + StopTail(abdump, transaction, cancel) else "";
    var r, a, t, c := RegionNumbers(regNumber), Labelled("ABDUMP ", abdump), Labelled("TRANSACTION ", transaction), if cancel then "CANCEL" else "";
    assert "STOP REGION " + (r + (a + t + c)) + job == "STOP" + " " + ("REGION" + " " + (r + (a + (t + (c + job)))));
  }

  /** What a STOP REGION command does say: CANCEL is followed by no blank, so that behind the regions it runs into the
      keyword of the job. */
  lemma StopTold(regNumber: Option<string>, numbers: seq<string>, jobName: Option<string>, abdump: Option<string>,
                 transaction: Option<string>, cancel: bool)
    requires Lists(regNumber, numbers) && CleanOption(jobName) && CleanOption(abdump) && CleanOption(transaction)
    ensures Tokens(StopWords(regNumber, jobName, abdump, transaction, cancel)) ==
            [Word("STOP"), Word("REGION")]
            + (if numbers != [] then [Word(RegionWord(numbers))] + Given("ABDUMP", abdump) + Given("TRANSACTION", transaction) else [])
            + JobTokens(jobName, abdump, transaction, cancel, cancel && numbers != [])
  {
    hide Tokens, Split, StopTail, JobTokens, Labelled, StopWords;
    var glued := cancel && numbers != [];
    var job := if jobName.Some? then Labelled("JOBNAME ", jobName) + StopTail(abdump, transaction, cancel) else "";
    JobTold(jobName, abdump, transaction, cancel, glued);
    if regNumber.Some? {
      StopSplit(regNumber.value, jobName, abdump, transaction, cancel);
      StopFront(regNumber.value, numbers, abdump, transaction, (if cancel then "CANCEL" else "") + job);
    } else {
      WithoutRegions(jobName, abdump, transaction, cancel);
      StopRegion("" + job);
    }
  }

  lemma StopRegion(s: string)
    ensures Tokens("STOP" + " " + ("REGION" + " " + s)) == [Word("STOP"), Word("REGION")] + Tokens(s)
  {
    hide Tokens, CleanName;
    Keyword("STOP");
    Keyword("REGION");
    WordThen("STOP", "REGION" + " " + s);
    WordThen("REGION", s);
  }

  lemma StopFront(regNumber: string, numbers: seq<string>, abdump: Option<string>, transaction: Option<string>, last: string)
    requires Lists(Some(regNumber), numbers) && CleanOption(abdump) && CleanOption(transaction)
    ensures Tokens("STOP" + " " + ("REGION" + " " + (RegionNumbers(regNumber)
              + (Labelled("ABDUMP ", abdump) + (Labelled("TRANSACTION ", transaction) + last)))))
         == [Word("STOP"), Word("REGION")]
            + ([Word(RegionWord(numbers))] + Given("ABDUMP", abdump) + Given("TRANSACTION", transaction)) + Tokens(last)
  {
    hide Tokens, CleanName, Split, RegionNumbers, Labelled, Given;
    var rest := Labelled("ABDUMP ", abdump) + (Labelled("TRANSACTION ", transaction) + last);
    StopTailTold(abdump, transaction, last);
    RegionsTold(regNumber, numbers, rest);
    StopRegion(RegionNumbers(regNumber) + rest);
  }

  lemma WithoutRegions(jobName: Option<string>, abdump: Option<string>, transaction: Option<string>, cancel: bool)
    ensures var job := if jobName.Some? then Labelled("JOBNAME ", jobName) + StopTail(abdump, transaction, cancel) else "";
            StopWords(None, jobName, abdump, transaction, cancel) == "STOP" + " " + ("REGION" + " " + ("" + job))
  {
    hide Labelled, StopTail;
  }

  /** It says what it should if and only if it does not name both regions and a job and cancel them. */
  lemma StopSaysWhatItShould(regNumber: Option<string>, numbers: seq<string>, jobName: Option<string>, abdump: Option<string>,
                             transaction: Option<string>, cancel: bool)
    requires Lists(regNumber, numbers) && CleanOption(jobName) && CleanOption(abdump) && CleanOption(transaction)
    ensures Tokens(StopWords(regNumber, jobName, abdump, transaction, cancel))
            == StopTokens(numbers, jobName, abdump, transaction, cancel)
            <==> !(regNumber.Some? && jobName.Some? && cancel)
  {
    hide Tokens, CleanName, Split, StopWords, RegionWord, Given;
    StopTold(regNumber, numbers, jobName, abdump, transaction, cancel);
    var a, t := Given("ABDUMP", abdump), Given("TRANSACTION", transaction);
    var said := Tokens(StopWords(regNumber, jobName, abdump, transaction, cancel));
    var wanted := StopTokens(numbers, jobName, abdump, transaction, cancel);
    if regNumber.None? {
      assert said == wanted;
    } else {
      var front := [Word("STOP"), Word("REGION")] + ([Word(RegionWord(numbers))] + a + t);
      StopLengths(front, jobName, abdump, transaction, cancel);
      var last := if cancel then [Word("CANCEL")] else [];
      var job := JobTokens(jobName, abdump, transaction, cancel, false);
      FrontGroups([Word("STOP"), Word("REGION")], [Word(RegionWord(numbers))], a, t, last, job);
      assert said == front + JobTokens(jobName, abdump, transaction, cancel, cancel);
      assert wanted == front + last + job;
    }
  }

  lemma FrontGroups(front: seq<Token>, region: seq<Token>, a: seq<Token>, t: seq<Token>, last: seq<Token>, job: seq<Token>)
    ensures front + (region + (a + t + last)) + job == front + (region + a + t) + last + job
  {
    Regroup(region, a, t);
    Regroup(region, a + t, last);
    Regroup(front, region + (a + t), last);
  }

  lemma StopLengths(front: seq<Token>, jobName: Option<string>, abdump: Option<string>,
                    transaction: Option<string>, cancel: bool)
    ensures front + JobTokens(jobName, abdump, transaction, cancel, cancel)
            == front + (if cancel then [Word("CANCEL")] else []) + JobTokens(jobName, abdump, transaction, cancel, false)
            <==> !(jobName.Some? && cancel)
  {
    hide StopTailTokens;
    if !(jobName.Some? && cancel) {
      assert front + [Word("CANCEL")] + [] == front + [Word("CANCEL")] && front + [] == front;
      assert forall job: seq<Token> :: front + [] + job == front + job;
    } else {
      assert |front + JobTokens(jobName, abdump, transaction, cancel, true)|
             < |front + [Word("CANCEL")] + JobTokens(jobName, abdump, transaction, cancel, false)|;
    }
  }

  lemma StartSplit(mem: string, job: string, last: string)
    ensures "START REGION " + (mem + job) + last == "START" + " " + ("REGION" + " " + (mem + (job + last)))
  {
    Regroup("START REGION ", mem + job, last);
    Regroup(mem, job, last);
    assert "START REGION " == "START" + " " + "REGION" + " ";
    Regroup("START" + " ", "REGION" + " ", mem + (job + last));
  }

  /** What a START REGION command says. */
  lemma StartTold(memName: Option<string>, jobName: Option<string>, local: bool)
    requires CleanOption(memName) && CleanOption(jobName)
    ensures Tokens(StartWords(memName, jobName, local)) ==
            [Word("START"), Word("REGION")]
            + (if memName.Some? then [Word(memName.value)] + Given("JOBNAME", jobName) else [])
            + if local then [Word("LOCAL")] else []
  {
    hide Tokens, CleanName, Labelled;
    TokensOfMarks();
    Keyword("START");
    Keyword("REGION");
    Keyword("LOCAL");
    Keyword("JOBNAME");
    TokensOfWord("LOCAL");
    var last := if local then "LOCAL" else "";
    LabelledTokens("JOBNAME", jobName, last);
    assert "JOBNAME" + " " == "JOBNAME ";
    var job := Labelled("JOBNAME ", jobName);
    if memName.Some? {
      WordThen(memName.value, job + last);
      StartSplit(memName.value + " ", job, last);
      WordThen("START", "REGION" + " " + (memName.value + " " + (job + last)));
      WordThen("REGION", memName.value + " " + (job + last));
    } else {
      StartSplit("", "", last);
      assert "" + ("" + last) == last && "" + "" == "";
      WordThen("START", "REGION" + " " + last);
      WordThen("REGION", last);
    }
  }

  /** What the commands to start programs and to display regions say; program names stand as they are given. */
  lemma StartPgmTold(names: Option<string>)
    ensures Tokens(StartPgmWords(names)) ==
            [Word("STA"), Word("PGM")] + if names.Some? then Tokens(names.value) else [Word("ALL")]
    ensures Tokens("DIS ACT REGION") == [Word("DIS"), Word("ACT"), Word("REGION")]
  {
    hide Tokens, CleanName;
    Keyword("STA");
    Keyword("PGM");
    Keyword("ALL");
    Keyword("DIS");
    Keyword("ACT");
    Keyword("REGION");
    TokensOfWord("ALL");
    TokensOfWord("REGION");
    var last := if names.Some? then names.value else "ALL";
    assert StartPgmWords(names) == "STA" + " " + ("PGM" + " " + last);
    WordThen("STA", "PGM" + " " + last);
    WordThen("PGM", last);
    assert "DIS ACT REGION" == "DIS" + " " + ("ACT" + " " + "REGION");
    WordThen("DIS", "ACT" + " " + "REGION");
    WordThen("ACT", "REGION");
  }
}
