/** The whole reading of a display, from its laid-out lines to its records, which an OTMA display has merged. */
module FidDisplay {
  import opened Brackets
  import opened FidColumns
  import opened FidContinuation
  import opened FidLookups
  import opened FidReading
  import opened FidTags
  import opened PropertyTables
  import opened Results
  import opened Sequences

  /** What a line tells: each key with the value of its column, the last one where a key occurs again, keys beyond the
      columns with nothing, and the member. */
  function Told(keys: seq<string>, values: seq<string>, mbr: string): Entries {
    (map key | key in keys :: KeyTold(keys, values, key))["MBR" := mbr]
  }

  function KeyTold(keys: seq<string>, values: seq<string>, key: string): string
    requires key in keys
  {
    var k := LastIndex(keys, key);
    if k < |values| then values[k] else ""
  }

  function LastIndex(keys: seq<string>, key: string): (k: nat)
    requires key in keys
    ensures k < |keys| && keys[k] == key && key !in keys[k + 1..]
  {
    if keys[|keys| - 1] == key then |keys| - 1
    else
      assert keys == keys[..|keys| - 1] + [keys[|keys| - 1]];
      var k := LastIndex(keys[..|keys| - 1], key);
      assert keys[k + 1..] == keys[..|keys| - 1][k + 1..] + [keys[|keys| - 1]];
      k
  }

  lemma ToldIsAssigned(keys: seq<string>, values: seq<string>, mbr: string)
    ensures Assigned(keys, OneEach(values, |keys|))["MBR" := mbr] == Told(keys, values, mbr)
  {
    hide Assigned, LastIndex;
    var told, each := Assigned(keys, OneEach(values, |keys|)), map key | key in keys :: KeyTold(keys, values, key);
    AssignedKeys(keys, OneEach(values, |keys|));
    forall key | key in keys
      ensures told[key] == each[key]
    {
      KeyIsAssigned(keys, values, key);
    }
    assert told == each;
  }

  lemma KeyIsAssigned(keys: seq<string>, values: seq<string>, key: string)
    requires key in keys
    ensures var told := Assigned(keys, OneEach(values, |keys|)); key in told && told[key] == KeyTold(keys, values, key)
  {
    hide Assigned;
    AssignedValues(keys, OneEach(values, |keys|), LastIndex(keys, key));
  }

  /** The keys that the tag of a value line leads to. */
  function KeysFor(line: string, links: map<string, string>, keyIndexes: KeyIndexes): seq<string> {
    if |line| >= 4 && line[..4] in links && links[line[..4]] in keyIndexes then keyIndexes[links[line[..4]]] else []
  }

  /** The line holds the values in its columns. */
  ghost predicate LaidOut(line: string, values: seq<string>, fidMap: Widths) {
    && |line| >= 4 && Trim(line[..4]) in fidMap
    && var widths := fidMap[Trim(line[..4])];
       |values| == |widths| && Fit(values, widths) && Alike(line[4..], Layout(values, widths))
  }

  lemma RecordIsTold(line: string, values: seq<string>, mbr: string, fidMap: Widths, links: map<string, string>,
                     keyIndexes: KeyIndexes)
    requires LineFound(line, fidMap, links, keyIndexes)
    requires LaidOut(line, values, fidMap)
    ensures Record(line, mbr, fidMap, links, keyIndexes) == Ok(Told(KeysFor(line, links, keyIndexes), values, mbr))
  {
    hide Trim, ValuesFor, Alike, Layout, Fit, Assigned, Told;
    var keys, widths := KeysFor(line, links, keyIndexes), fidMap[Trim(line[..4])];
    FittingValuesOneEach(line[4..], values, widths, |keys|);
    ToldIsAssigned(keys, values, mbr);
    if keys == [] {
      AssignedNothing();
      assert OneEach(values, 0) == [];
      assert map[]["MBR" := mbr] == map["MBR" := mbr];
    }
  }

  /** What the value lines of a display tell, line by line. */
  function AllTold(lines: seq<string>, values: seq<seq<string>>, mbr: string, links: map<string, string>,
                   keyIndexes: KeyIndexes): seq<Entries>
    requires |values| <= |lines|
  {
    seq(|values|, i requires 0 <= i < |values| => Told(KeysFor(lines[i], links, keyIndexes), values[i], mbr))
  }

  /** A tagged response with readable header lines whose value lines hold these values. */
  ghost predicate Displays(results: seq<string>, tags: seq<string>, command: string, fidMap: Widths,
                           links: map<string, string>, values: seq<seq<string>>) {
    && |results| > 1 && Tagged(results, tags, command, fidMap)
    && var n := HeaderCount(tags, command);
       && HeadersReadable(results[..n], fidMap)
       && AllHeaderKeys(results[..n], FirstTag(results), fidMap, map[]).Ok?
       && |values| == BeforeStar(results[n..])
       && forall i :: 0 <= i < |values| ==> LaidOut(results[n..][i], values[i], fidMap)
  }

  /** What such a response tells. */
  ghost function Telling(results: seq<string>, tags: seq<string>, mbr: string, command: string, fidMap: Widths,
                         links: map<string, string>, values: seq<seq<string>>): seq<Entries>
    requires Displays(results, tags, command, fidMap, links, values)
  {
    var n, linked := HeaderCount(tags, command), Linked(links, tags, command);
    AllTold(results[n..], values, mbr, linked, AllHeaderKeys(results[..n], FirstTag(results), fidMap, map[]).value)
  }

  lemma UnmergedIsTelling(results: seq<string>, tags: seq<string>, mbr: string, command: string, fidMap: Widths,
                          links: map<string, string>, values: seq<seq<string>>)
    requires Displays(results, tags, command, fidMap, links, values)
    ensures Unmerged(results, tags, mbr, command, fidMap, links) == Ok(Telling(results, tags, mbr, command, fidMap, links, values))
  {
    hide HeaderCount, Linked, AllHeaderKeys, FirstTag, Records, Record, Trim, HeadersReadable, Contains, KeysFor, Told,
      Fit, Alike, Unmerged, Tags, BeforeStar;
    var n, linked := HeaderCount(tags, command), Linked(links, tags, command);
    var headers := AllHeaderKeys(results[..n], FirstTag(results), fidMap, map[]).value;
    LookupsNeverMiss(results, tags, mbr, command, fidMap, links);
    var records := Unmerged(results, tags, mbr, command, fidMap, links).value;
    forall i | 0 <= i < |values|
      ensures records[i] == Told(KeysFor(results[n..][i], linked, headers), values[i], mbr)
    {
      RecordIsTold(results[n..][i], values[i], mbr, fidMap, linked, headers);
    }
    assert records == Telling(results, tags, mbr, command, fidMap, links, values);
  }

  // ----- which commands

  /** The word stands somewhere in the command. */
  predicate Mentions(command: string, word: string) {
    exists i | 0 <= i <= |command| - |word| :: StandsAt(command, word, i)
  }

  predicate StandsAt(command: string, word: string, i: int)
    requires 0 <= i <= |command| - |word|
  {
    forall j :: 0 <= j < |word| ==> command[i + j] == word[j]
  }

  lemma MentionsIs(command: string, word: string)
    ensures Contains(command, word) <==> Mentions(command, word)
  {
    if Contains(command, word) {
      var i :| 0 <= i <= |command| && word <= command[i..];
      assert StandsAt(command, word, i);
    }
    if Mentions(command, word) {
      var i :| 0 <= i <= |command| - |word| && StandsAt(command, word, i);
      assert command[i..][..|word|] == word;
    }
  }

  /** Half of the tags are of header lines for a command that mentions OTMA, one for any other; lines are merged for one
      that mentions DIS as well. */
  lemma CommandDecides(tags: seq<string>, command: string)
    ensures IsOtma(command) <==> Mentions(command, "OTMA")
    ensures HeaderCount(tags, command) == if Mentions(command, "OTMA") then |tags| / 2 else 1
    ensures HasContinuations(command) <==> Mentions(command, "DIS") && Mentions(command, "OTMA")
  {
    hide Contains, Mentions;
    MentionsIs(command, "OTMA");
    MentionsIs(command, "DIS");
  }

  // ----- whole responses

  /** Any display but an OTMA one is read as one record a value line, in line order, telling what the line tells. */
  lemma DisplayIsTold(results: seq<string>, tags: seq<string>, mbr: string, command: string, fidMap: Widths,
                      links: map<string, string>, values: seq<seq<string>>)
    requires !Mentions(command, "DIS") || !Mentions(command, "OTMA")
    requires Displays(results, tags, command, fidMap, links, values)
    ensures Parsed(results, mbr, command, fidMap, links)
         == Ok(Telling(results, tags, mbr, command, fidMap, links, values))
  {
    hide Telling, Unmerged, Contains, Mentions, HeadersReadable, Tags, AllHeaderKeys, KeysFor, LaidOut, BeforeStar;
    CommandDecides(tags, command);
    UnmergedIsTelling(results, tags, mbr, command, fidMap, links, values);
  }

  /** An OTMA display of group lines and of members with continuation lines is read as one record a continuation line,
      telling what the lines of the member and the group above them tell, if and only if no two consecutive members have
      one name. */
  lemma DisplayIsMerged(results: seq<string>, tags: seq<string>, mbr: string, command: string, fidMap: Widths,
                        links: map<string, string>, values: seq<seq<string>>, items: seq<Item>)
    requires Mentions(command, "DIS") && Mentions(command, "OTMA")
    requires Displays(results, tags, command, fidMap, links, values)
    requires AllSound(items) && Lines(items) == Telling(results, tags, mbr, command, fidMap, links, values)
    ensures Parsed(results, mbr, command, fidMap, links) == Ok(Merged(items, "")) <==> Alternating(items, "")
  {
    hide Telling, Unmerged, Contains, Mentions, HeadersReadable, Tags, AllHeaderKeys, KeysFor, LaidOut, BeforeStar, Coalesce,
      Merged, Alternating;
    CommandDecides(tags, command);
    UnmergedIsTelling(results, tags, mbr, command, fidMap, links, values);
    MergesMembers(items);
  }

  /** A response of one line is an error message: one record that holds the line under the member. */
  lemma OneLineIsAnError(line: string, mbr: string, command: string, fidMap: Widths, links: map<string, string>)
    ensures Parsed([line], mbr, command, fidMap, links) == Ok([map[mbr := line]])
  {
  }

  /** What is refused before any header is looked at: no line at all; a line without an asterisk that is shorter than a tag;
      and, but for an OTMA command, nothing but lines with an asterisk. */
  lemma NothingToRead(results: seq<string>, mbr: string, command: string, fidMap: Widths, links: map<string, string>)
    requires |results| != 1
    requires || results == []
             || (exists i :: 0 <= i < |results| && '*' !in results[i] && |results[i]| < 4)
             || (!Mentions(command, "OTMA") && forall i :: 0 <= i < |results| ==> '*' in results[i])
    ensures Parsed(results, mbr, command, fidMap, links) == Err(OutOfRange)
  {
    hide Contains, Mentions, Unmerged, TagsFrom;
    CommandDecides([], command);
    TagsFromMeans(results, []);
    if Tags(results).Ok? {
      TagsMean(results);
      var tags := Tags(results).value;
      assert tags != [] ==> tags[0] in tags;
    } else {
      OneTagError(results, []);
    }
  }

  lemma {:induction false} OneTagError(lines: seq<string>, seen: seq<string>)
    requires TagsFrom(lines, seen).Err?
    ensures TagsFrom(lines, seen) == Err(OutOfRange)
    decreases |lines|
  {
    if HasStar(lines[0]) {
      OneTagError(lines[1..], seen);
    } else if |lines[0]| >= 4 {
      OneTagError(lines[1..], if lines[0][..4] in seen then seen else seen + [lines[0][..4]]);
    }
  }

  /** The links that a response leaves behind, for the next one to start from: those of its tags, and what was there
      before; nothing changes if a line is too short to have a tag, or no line has one. */
  lemma LinksAreLeft(results: seq<string>, tags: seq<string>, command: string, links: map<string, string>)
    ensures Tags(results).Err? ==> LinksAfter(results, command, links) == links
    ensures Tags(results) == Ok([]) ==> LinksAfter(results, command, links) == links
    ensures Tags(results) == Ok(tags) ==>
              var n := if Mentions(command, "OTMA") then |tags| / 2 else 1;
              && (n <= |tags| ==> LinksAfter(results, command, links).Keys == links.Keys + (set t | t in tags[n..]))
              && (forall j :: n <= j < |tags| ==>
                    LinksAfter(results, command, links)[tags[j]] == if Mentions(command, "OTMA") then tags[j - n] else tags[0])
              && (forall t :: t in links && (n <= |tags| ==> t !in tags[n..]) ==>
                    LinksAfter(results, command, links)[t] == links[t])
  {
    hide Contains, Mentions, Linked, TagsFrom;
    CommandDecides(tags, command);
    if Tags(results).Ok? {
      TagsMean(results);
      var all := Tags(results).value;
      if IsOtma(command) {
        LinksPairValuesWithHeaders(links, all, command, |all| / 2);
        if all == [] {
          NothingLinked(links, command);
        }
      } else if all != [] {
        LinksLeadToTheHeader(links, all, command);
      }
    }
  }

  lemma NothingLinked(links: map<string, string>, command: string)
    requires IsOtma(command)
    ensures Linked(links, [], command) == links
  {
    hide Contains;
  }
}
