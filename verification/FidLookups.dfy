/** When reading a response finds the header and the keys of every value line, and what the records then hold. */
module FidLookups {
  import opened Brackets
  import opened FidColumns
  import opened FidReading
  import opened FidTags
  import opened Results
  import opened Sequences

  // ----- header lines

  /** Some header line after the first one borrows the first key. */
  predicate Borrows(lines: seq<string>) {
    exists i :: 0 <= i < |lines| && |lines[i]| >= 9 && lines[i][8] == ' '
  }

  predicate LongEnough(lines: seq<string>) {
    forall i :: 0 <= i < |lines| ==> |lines[i]| >= 9
  }

  ghost function TagSet(lines: seq<string>): set<string>
    requires forall i :: 0 <= i < |lines| ==> |lines[i]| >= 4
  {
    set i | 0 <= i < |lines| :: lines[i][..4]
  }

  /** Header lines after the first: all are read if and only if they are long enough and a key that is borrowed exists. */
  lemma {:induction false} LaterHeaders(lines: seq<string>, first: string, fidMap: Widths, keyIndexes: KeyIndexes)
    requires first in keyIndexes
    requires forall i :: 0 <= i < |lines| ==> |lines[i]| >= 4 && lines[i][..4] != first && Trim(lines[i][..4]) in fidMap
    ensures var keys := AllHeaderKeys(lines, first, fidMap, keyIndexes);
            && (keys.Ok? <==> LongEnough(lines) && (Borrows(lines) ==> keyIndexes[first] != []))
            && (keys.Ok? ==> keys.value.Keys == keyIndexes.Keys + TagSet(lines))
  {
    hide Trim, KeysOf, Slices;
    if lines != [] {
      var line, rest := lines[0], lines[1..];
      assert forall i :: 0 <= i < |rest| ==> rest[i] == lines[i + 1];
      assert forall i :: 0 < i < |lines| ==> lines[i] == rest[i - 1];
      assert LongEnough(lines) <==> |line| >= 9 && LongEnough(rest);
      assert Borrows(lines) <==> (|line| >= 9 && line[8] == ' ') || Borrows(rest);
      AllHeaderKeysStep(lines, first, fidMap, keyIndexes);
      var keys := HeaderKeys(line, first, fidMap, keyIndexes);
      if keys.Ok? {
        LaterHeaders(rest, first, fidMap, keyIndexes[line[..4] := keys.value]);
        assert TagSet(lines) == TagSet(rest) + {line[..4]};
      }
    }
  }

  /** A header line has a key of its own if and only if its tag has widths and it shows something after its tag. */
  lemma OwnKeys(text: string, widths: seq<nat>)
    ensures KeysOf(Slices(Trim(text), widths)) != [] <==> widths != [] && !TrimsToNothing(text)
  {
    hide TrimLeft, TrimRight, KeysOf, Slices;
    if widths == [] {
      NoSlices(Trim(text));
    } else if TrimsToNothing(text) {
      BlankSlices(widths);
    } else {
      TrimmedEnds(text);
      VisibleTextHasKey(Trim(text), widths, 0);
    }
  }

  lemma NoSlices(text: string)
    ensures KeysOf(Slices(text, [])) == []
  {
  }

  lemma {:induction false} BlankSlices(widths: seq<nat>)
    ensures KeysOf(Slices("", widths)) == []
  {
    if |widths| > 1 {
      BlankSlices(widths[1..]);
    }
  }

  // ----- value lines

  /** How many lines there are before the first one with an asterisk. */
  function BeforeStar(lines: seq<string>): (n: nat)
    ensures n <= |lines|
    ensures forall i :: 0 <= i < n ==> '*' !in lines[i]
    ensures n < |lines| ==> '*' in lines[n]
  {
    if lines == [] || '*' in lines[0] then 0 else 1 + BeforeStar(lines[1..])
  }

  predicate LineFound(line: string, fidMap: Widths, links: map<string, string>, keyIndexes: KeyIndexes) {
    && |line| >= 4
    && line[..4] in links
    && links[line[..4]] in keyIndexes
    && Trim(line[..4]) in fidMap
  }

  lemma {:induction false} RecordsFound(lines: seq<string>, mbr: string, fidMap: Widths, links: map<string, string>,
                                        keyIndexes: KeyIndexes)
    requires forall i :: 0 <= i < BeforeStar(lines) ==> LineFound(lines[i], fidMap, links, keyIndexes)
    ensures var records := Records(lines, mbr, fidMap, links, keyIndexes);
            records.Ok? && |records.value| == BeforeStar(lines) &&
            forall i :: 0 <= i < BeforeStar(lines) ==>
              Record(lines[i], mbr, fidMap, links, keyIndexes) == Ok(records.value[i])
  {
    hide Record;
    if lines != [] {
      RecordsStep(lines, mbr, fidMap, links, keyIndexes);
      if !HasStar(lines[0]) {
        var rest := lines[1..];
        assert forall i :: 0 <= i < |rest| ==> rest[i] == lines[i + 1];
        RecordsFound(rest, mbr, fidMap, links, keyIndexes);
        RecordFound(lines[0], mbr, fidMap, links, keyIndexes);
        var records := Records(lines, mbr, fidMap, links, keyIndexes).value;
        forall i | 0 <= i < BeforeStar(lines)
          ensures Record(lines[i], mbr, fidMap, links, keyIndexes) == Ok(records[i])
        {
          if i > 0 {
            assert lines[i] == rest[i - 1];
          }
        }
      }
    }
  }

  lemma {:induction false} AssignedKeys(keys: seq<string>, values: seq<string>)
    requires |keys| == |values|
    ensures Assigned(keys, values).Keys == set k | k in keys
  {
    if keys != [] {
      AssignedKeys(keys[..|keys| - 1], values[..|keys| - 1]);
      assert keys == keys[..|keys| - 1] + [keys[|keys| - 1]];
    }
  }

  /** Where a key occurs more than once, the last of its values counts. */
  lemma {:induction false} AssignedValues(keys: seq<string>, values: seq<string>, k: nat)
    requires |keys| == |values| && k < |keys| && keys[k] !in keys[k + 1..]
    ensures keys[k] in Assigned(keys, values) && Assigned(keys, values)[keys[k]] == values[k]
  {
    if k < |keys| - 1 {
      var front := keys[..|keys| - 1];
      assert keys[k + 1..][|keys| - k - 2] == keys[|keys| - 1];
      assert forall i :: k < i < |front| ==> front[i] == keys[k + 1..][i - k - 1];
      AssignedValues(front, values[..|keys| - 1], k);
    }
  }

  /** A value line that is found has a record with its header's keys and the member. */
  lemma RecordFound(line: string, mbr: string, fidMap: Widths, links: map<string, string>, keyIndexes: KeyIndexes)
    requires LineFound(line, fidMap, links, keyIndexes)
    ensures var record := Record(line, mbr, fidMap, links, keyIndexes);
            && record.Ok?
            && record.value.Keys == (set k | k in keyIndexes[links[line[..4]]]) + {"MBR"}
            && record.value["MBR"] == mbr
  {
    hide Trim, ValuesFor, Assigned;
    var keys := keyIndexes[links[line[..4]]];
    if keys != [] {
      AssignedKeys(keys, ValuesFor(line[4..], fidMap[Trim(line[..4])], |keys|));
    }
  }

  /** A value line that was laid out in its columns with values that fit them gives every key its value, of two equal keys
      the last; keys beyond the columns are empty, and columns beyond the keys are not read. */
  lemma RecordHoldsTheValues(line: string, values: seq<string>, mbr: string, fidMap: Widths, links: map<string, string>,
                             keyIndexes: KeyIndexes, k: nat)
    requires LineFound(line, fidMap, links, keyIndexes)
    requires var keys, widths := keyIndexes[links[line[..4]]], fidMap[Trim(line[..4])];
             && k < |keys| && keys[k] !in keys[k + 1..] && keys[k] != "MBR"
             && |values| == |widths| && Fit(values, widths) && Alike(line[4..], Layout(values, widths))
    ensures var record := Record(line, mbr, fidMap, links, keyIndexes);
            var key := keyIndexes[links[line[..4]]][k];
            record.Ok? && key in record.value && record.value[key] == if k < |values| then values[k] else ""
  {
    hide Trim, ValuesFor, Assigned, Alike, Layout, Fit;
    var keys, widths := keyIndexes[links[line[..4]]], fidMap[Trim(line[..4])];
    FittingValuesOneEach(line[4..], values, widths, |keys|);
    AssignedValues(keys, ValuesFor(line[4..], widths, |keys|), k);
  }

  // ----- whole responses

  /** The header tags come first, each on a line of its own, value lines do not use them again, and every tag has
      widths. */
  ghost predicate Tagged(results: seq<string>, tags: seq<string>, command: string, fidMap: Widths) {
    var n := HeaderCount(tags, command);
    && Tags(results) == Ok(tags)
    && 1 <= n <= |results| && n <= |tags| && (IsOtma(command) ==> |tags| == 2 * n)
    && (forall i :: 0 <= i < n ==> |results[i]| >= 4 && results[i][..4] == tags[i])
    && (forall j :: n <= j < |results| && !HasStar(results[j]) ==> |results[j]| >= 4 && results[j][..4] !in tags[..n])
    && (forall t :: t in tags ==> Trim(t) in fidMap)
  }

  /** Every header line has a ninth place, which is not blank in the first one; and if it is blank in a later one, then
      the first one has a key. */
  predicate HeadersReadable(headers: seq<string>, fidMap: Widths)
    requires headers != []
  {
    && LongEnough(headers)
    && headers[0][8] != ' '
    && (Borrows(headers[1..]) ==>
          var tag := Trim(headers[0][..4]);
          tag in fidMap && fidMap[tag] != [] && !TrimsToNothing(headers[0][4..]))
  }

  lemma FirstHeader(line: string, fidMap: Widths)
    requires |line| >= 4 && Trim(line[..4]) in fidMap
    ensures HeaderKeys(line, line[..4], fidMap, map[]).Ok? <==> |line| >= 9 && line[8] != ' '
    ensures |line| >= 9 && line[8] != ' ' ==>
              HeaderKeys(line, line[..4], fidMap, map[]).value == KeysOf(Slices(Trim(line[4..]), fidMap[Trim(line[..4])]))
  {
    hide Trim, KeysOf, Slices;
    assert [] + KeysOf(Slices(Trim(line[4..]), fidMap[Trim(line[..4])])) == KeysOf(Slices(Trim(line[4..]), fidMap[Trim(line[..4])]));
  }

  /** The header lines are read if and only if they are readable; the key lists are then those of the header tags. */
  lemma HeaderLinesFound(results: seq<string>, tags: seq<string>, command: string, fidMap: Widths)
    requires Tagged(results, tags, command, fidMap)
    ensures var headers := results[..HeaderCount(tags, command)];
            var keys := AllHeaderKeys(headers, FirstTag(results), fidMap, map[]);
            && (keys.Ok? <==> HeadersReadable(headers, fidMap))
            && (keys.Ok? ==> keys.value.Keys == set t | t in tags[..HeaderCount(tags, command)])
  {
    hide Trim, HeaderKeys, Contains, AllHeaderKeys, KeysOf, Slices, TrimsToNothing;
    var n := HeaderCount(tags, command);
    var headers := results[..n];
    var first := FirstTag(results);
    TagsMean(results);
    assert headers[0] == results[0] && first == tags[0];
    var rest := headers[1..];
    assert forall i :: 0 <= i < |rest| ==> rest[i] == results[i + 1];
    assert forall i :: 0 < i < n ==> results[i] == rest[i - 1];
    assert LongEnough(headers) <==> |results[0]| >= 9 && LongEnough(rest);
    FirstHeader(results[0], fidMap);
    AllHeaderKeysStep(headers, first, fidMap, map[]);
    var keys := HeaderKeys(results[0], first, fidMap, map[]);
    if keys.Ok? {
      LaterHeaders(rest, first, fidMap, map[first := keys.value]);
      OwnKeys(results[0][4..], fidMap[Trim(first)]);
      HeaderTags(results, tags, n);
    }
  }

  lemma HeaderTags(results: seq<string>, tags: seq<string>, n: nat)
    requires 1 <= n <= |results| && n <= |tags|
    requires forall i :: 0 <= i < n ==> |results[i]| >= 4 && results[i][..4] == tags[i]
    requires forall i :: 0 <= i < n - 1 ==> |results[..n][1..][i]| >= 4
    ensures {tags[0]} + TagSet(results[..n][1..]) == set t | t in tags[..n]
  {
    var rest := results[..n][1..];
    assert forall i :: 0 <= i < |rest| ==> rest[i][..4] == tags[i + 1];
    forall t | t in tags[..n]
      ensures t in {tags[0]} + TagSet(rest)
    {
      var i :| 0 <= i < n && tags[i] == t;
      if i > 0 {
        assert rest[i - 1][..4] == t;
      }
    }
    forall t | t in TagSet(rest)
      ensures t in tags[..n]
    {
      var i :| 0 <= i < |rest| && rest[i][..4] == t;
      assert tags[..n][i + 1] == t;
    }
  }

  lemma ValueLineFound(results: seq<string>, tags: seq<string>, command: string, fidMap: Widths, links: map<string, string>,
                       keyIndexes: KeyIndexes, j: nat)
    requires Tagged(results, tags, command, fidMap)
    requires keyIndexes.Keys == set t | t in tags[..HeaderCount(tags, command)]
    requires HeaderCount(tags, command) <= j < |results| && !HasStar(results[j])
    ensures LineFound(results[j], fidMap, Linked(links, tags, command), keyIndexes)
  {
    hide Trim, Contains;
    var n := HeaderCount(tags, command);
    var tag := results[j][..4];
    TagsMean(results);
    assert tag in tags;
    assert tags == tags[..n] + tags[n..];
    assert tag in tags[n..];
    var header := Linked(links, tags, command)[tag];
    if IsOtma(command) {
      assert header == tags[..n][IndexOf(tags[n..], tag)];
    } else {
      assert header == tags[..n][0];
    }
  }

  /** Every value line before the first asterisk has found its header and gives one record, in line order, with that
      header's keys and the member. */
  ghost predicate EveryLineFound(lines: seq<string>, records: seq<map<string, string>>, headers: seq<string>, mbr: string,
                                 fidMap: Widths, links: map<string, string>, keyIndexes: KeyIndexes) {
    && |records| == BeforeStar(lines)
    && forall i :: 0 <= i < |records| ==>
         && LineFound(lines[i], fidMap, links, keyIndexes)
         && links[lines[i][..4]] in headers
         && Record(lines[i], mbr, fidMap, links, keyIndexes) == Ok(records[i])
         && records[i].Keys == (set k | k in keyIndexes[links[lines[i][..4]]]) + {"MBR"}
         && records[i]["MBR"] == mbr
  }

  /** A tagged response is read if and only if its header lines are readable, and then no lookup misses. */
  lemma LookupsNeverMiss(results: seq<string>, tags: seq<string>, mbr: string, command: string, fidMap: Widths,
                         links: map<string, string>)
    requires Tagged(results, tags, command, fidMap)
    ensures var n, linked := HeaderCount(tags, command), Linked(links, tags, command);
            var headers := AllHeaderKeys(results[..n], FirstTag(results), fidMap, map[]);
            var records := Unmerged(results, tags, mbr, command, fidMap, links);
            && (records.Ok? <==> HeadersReadable(results[..n], fidMap))
            && (records.Ok? ==>
                  && headers.Ok?
                  && EveryLineFound(results[n..], records.value, tags[..n], mbr, fidMap, linked, headers.value))
  {
    hide HeaderCount, Linked, AllHeaderKeys, FirstTag, Records, Record, Trim, HeadersReadable;
    var n, linked := HeaderCount(tags, command), Linked(links, tags, command);
    HeaderLinesFound(results, tags, command, fidMap);
    var keys := AllHeaderKeys(results[..n], FirstTag(results), fidMap, map[]);
    if keys.Ok? {
      var headers, lines := keys.value, results[n..];
      forall i | 0 <= i < BeforeStar(lines)
        ensures LineFound(lines[i], fidMap, linked, headers)
      {
        assert lines[i] == results[n + i];
        ValueLineFound(results, tags, command, fidMap, links, headers, n + i);
      }
      RecordsFound(lines, mbr, fidMap, linked, headers);
      forall i | 0 <= i < BeforeStar(lines) {
        RecordFound(lines[i], mbr, fidMap, linked, headers);
      }
    }
  }

  /** A header line whose names are laid out in their columns has their keys, in order, behind the first header's first key
      if there is a blank in its ninth place. */
  lemma HeaderKeysAre(line: string, first: string, fidMap: Widths, keyIndexes: KeyIndexes, names: seq<string>)
    requires |line| >= 9 && Trim(line[..4]) in fidMap
    requires line[8] == ' ' ==> first in keyIndexes && keyIndexes[first] != []
    requires var widths := fidMap[Trim(line[..4])];
             |names| == |widths| && Fit(names, widths) && Alike(Trim(line[4..]), Layout(names, widths))
    ensures var keys := HeaderKeys(line, first, fidMap, keyIndexes);
            && keys.Ok?
            && (line[8] != ' ' ==> keys.value == NamedKeys(names))
            && (line[8] == ' ' ==> |keys.value| > 0 && keys.value[0] == keyIndexes[first][0] && keys.value[1..] == NamedKeys(names))
  {
    hide Trim, Alike, Layout, Fit, KeysOf, NamedKeys, Slices;
    KeysOfLayout(Trim(line[4..]), names, fidMap[Trim(line[..4])]);
  }

  lemma SameFirst(line: string, first: string, fidMap: Widths, a: KeyIndexes, b: KeyIndexes)
    requires first in a && first in b && a[first] == b[first]
    ensures HeaderKeys(line, first, fidMap, a) == HeaderKeys(line, first, fidMap, b)
  {
    hide Trim, KeysOf, Slices;
  }

  predicate OtherTags(lines: seq<string>, tag: string) {
    forall i :: 0 <= i < |lines| ==> |lines[i]| >= 4 && lines[i][..4] != tag
  }

  /** Later header lines leave a key list as it is. */
  lemma {:induction false} KeptByOthers(lines: seq<string>, first: string, fidMap: Widths, keyIndexes: KeyIndexes, tag: string)
    requires AllHeaderKeys(lines, first, fidMap, keyIndexes).Ok? && tag in keyIndexes && OtherTags(lines, tag)
    ensures var keys := AllHeaderKeys(lines, first, fidMap, keyIndexes).value;
            tag in keys && keys[tag] == keyIndexes[tag]
  {
    hide HeaderKeys, AllHeaderKeys;
    if lines == [] {
      AllHeaderKeysEnd(lines, first, fidMap, keyIndexes);
    } else {
      assert forall i :: 0 <= i < |lines[1..]| ==> lines[1..][i] == lines[i + 1];
      AllHeaderKeysStep(lines, first, fidMap, keyIndexes);
      var keys := HeaderKeys(lines[0], first, fidMap, keyIndexes).value;
      KeptByOthers(lines[1..], first, fidMap, keyIndexes[lines[0][..4] := keys], tag);
    }
  }

  /** A header line behind the first one is read with the keys of the first one at hand, whatever stands in between. */
  lemma {:induction false} LaterHeaderRead(lines: seq<string>, first: string, fidMap: Widths, keyIndexes: KeyIndexes, i: nat)
    requires AllHeaderKeys(lines, first, fidMap, keyIndexes).Ok? && first in keyIndexes && OtherTags(lines, first)
    requires i < |lines| && OtherTags(lines[i + 1..], lines[i][..4])
    ensures var keys := AllHeaderKeys(lines, first, fidMap, keyIndexes).value;
            && lines[i][..4] in keys && first in keys && keys[first] == keyIndexes[first]
            && HeaderKeys(lines[i], first, fidMap, keyIndexes) == Ok(keys[lines[i][..4]])
  {
    hide HeaderKeys, AllHeaderKeys;
    AllHeaderKeysStep(lines, first, fidMap, keyIndexes);
    KeptByOthers(lines, first, fidMap, keyIndexes, first);
    var rest, tag := lines[1..], lines[0][..4];
    var next := keyIndexes[tag := HeaderKeys(lines[0], first, fidMap, keyIndexes).value];
    assert forall k :: 0 <= k < |rest| ==> rest[k] == lines[k + 1];
    if i == 0 {
      KeptByOthers(rest, first, fidMap, next, tag);
    } else {
      assert rest[i - 1] == lines[i] && rest[i..] == lines[i + 1..];
      LaterHeaderRead(rest, first, fidMap, next, i - 1);
      SameFirst(lines[i], first, fidMap, keyIndexes, next);
    }
  }

  /** The keys of each header tag of a response whose header lines hold these names. */
  lemma HeadersHold(results: seq<string>, tags: seq<string>, command: string, fidMap: Widths, i: nat, names: seq<string>)
    requires Tagged(results, tags, command, fidMap) && i < HeaderCount(tags, command)
    requires AllHeaderKeys(results[..HeaderCount(tags, command)], FirstTag(results), fidMap, map[]).Ok?
    requires var widths := fidMap[Trim(results[i][..4])];
             |names| == |widths| && Fit(names, widths) && Alike(Trim(results[i][4..]), Layout(names, widths))
    ensures var headers := AllHeaderKeys(results[..HeaderCount(tags, command)], FirstTag(results), fidMap, map[]).value;
            && tags[0] in headers && tags[i] in headers && |results[i]| >= 9
            && (results[i][8] != ' ' ==> headers[tags[i]] == NamedKeys(names))
            && (results[i][8] == ' ' ==> i > 0 && headers[tags[0]] != [] && headers[tags[i]] == [headers[tags[0]][0]] + NamedKeys(names))
  {
    hide Trim, Contains, HeaderKeys, AllHeaderKeys, Alike, Layout, Fit, NamedKeys;
    var n := HeaderCount(tags, command);
    var lines, first := results[..n], FirstTag(results);
    TagsMean(results);
    assert lines[0] == results[0] && first == tags[0];
    var rest := lines[1..];
    assert forall k :: 0 <= k < |rest| ==> rest[k] == results[k + 1];
    AllHeaderKeysStep(lines, first, fidMap, map[]);
    var own := HeaderKeys(results[0], first, fidMap, map[]).value;
    var keys := map[first := own];
    KeptByOthers(rest, first, fidMap, keys, first);
    if i == 0 {
      HeaderReadAs(results[0], first, fidMap, map[], names);
    } else {
      assert rest[i - 1] == results[i];
      LaterHeaderRead(rest, first, fidMap, keys, i - 1);
      HeaderReadAs(results[i], first, fidMap, keys, names);
    }
  }

  lemma HeaderReadAs(line: string, first: string, fidMap: Widths, keyIndexes: KeyIndexes, names: seq<string>)
    requires HeaderKeys(line, first, fidMap, keyIndexes).Ok?
    requires var widths := fidMap[Trim(line[..4])];
             |names| == |widths| && Fit(names, widths) && Alike(Trim(line[4..]), Layout(names, widths))
    ensures |line| >= 9 && (line[8] == ' ' ==> first in keyIndexes && keyIndexes[first] != [])
    ensures HeaderKeys(line, first, fidMap, keyIndexes).value
         == (if line[8] == ' ' then [keyIndexes[first][0]] else []) + NamedKeys(names)
  {
    hide Trim, Alike, Layout, Fit, NamedKeys, KeysOf, Slices;
    HeaderKeysAre(line, first, fidMap, keyIndexes, names);
    var keys := HeaderKeys(line, first, fidMap, keyIndexes).value;
    assert line[8] != ' ' ==> [] + NamedKeys(names) == NamedKeys(names);
    assert line[8] == ' ' ==> keys == [keys[0]] + keys[1..];
  }

  // ----- responses that are not read

  /** A header line that ends before its ninth place, or is blank there, when there is only one. */
  lemma HeaderRefused(header: string, line: string, mbr: string, fidMap: Widths, links: map<string, string>)
    requires !HasStar(header) && !HasStar(line) && |header| >= 4 && |line| >= 4 && header[..4] != line[..4]
    requires |header| < 9 || header[8] == ' '
    ensures Parsed([header, line], mbr, "DIS", fidMap, links) == Err(if |header| < 9 then OutOfRange else NullPointer)
  {
    hide Trim, Contains, Linked, Records;
    var results, tags := [header, line], [header[..4], line[..4]];
    NotOtma();
    TwoTags(header, line);
    assert results[..1] == [header];
    AllHeaderKeysStep([header], header[..4], fidMap, map[]);
  }

  lemma BlankNinthPlace(mbr: string, fidMap: Widths, links: map<string, string>)
    ensures Parsed(["T96      DRUEXIT", "X96 A"], mbr, "DIS", fidMap, links) == Err(NullPointer)
    ensures Parsed(["T96 TYPE", "X96 A"], mbr, "DIS", fidMap, links) == Err(OutOfRange)
  {
    hide Parsed;
    assert "T96      DRUEXIT"[0] != "X96 A"[0] && "T96 TYPE"[0] != "X96 A"[0];
    assert "T96      DRUEXIT"[..4][0] == 'T' && "T96 TYPE"[..4][0] == 'T' && "X96 A"[..4][0] == 'X';
    HeaderRefused("T96      DRUEXIT", "X96 A", mbr, fidMap, links);
    HeaderRefused("T96 TYPE", "X96 A", mbr, fidMap, links);
  }

  lemma NotOtma()
    ensures !IsOtma("DIS")
  {
    forall i | 0 <= i <= |"DIS"|
      ensures !("OTMA" <= "DIS"[i..])
    {
      assert |"DIS"[i..]| < |"OTMA"|;
    }
  }

  lemma TwoTags(header: string, line: string)
    requires !HasStar(header) && !HasStar(line) && |header| >= 4 && |line| >= 4 && header[..4] != line[..4]
    ensures Tags([header, line]) == Ok([header[..4], line[..4]])
  {
    var results := [header, line];
    var none: seq<string> := [];
    assert results[1..] == [line] && [line][1..] == none;
    assert none + [header[..4]] == [header[..4]];
    assert TagsFrom(results, []) == TagsFrom([line], [header[..4]]);
    assert [header[..4]] + [line[..4]] == [header[..4], line[..4]];
    assert TagsFrom([line], [header[..4]]) == TagsFrom([], [header[..4], line[..4]]);
  }
}
