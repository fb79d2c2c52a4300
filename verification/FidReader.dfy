/** Reading the response of a type-1 display command: the state of the reader and the whole of `parseResults`. */
module FidReading {
  import opened Brackets
  import opened FidColumns
  import opened FidContinuation
  import opened FidTags
  import opened PropertyTables
  import opened Results
  import opened Sequences

  type Widths = map<string, seq<nat>>
  type KeyIndexes = map<string, seq<string>>

  // ----- what reading a response gives

  /** The keys of one header line; a blank in the ninth place means that the first key is the first header's. */
  function HeaderKeys(line: string, first: string, fidMap: Widths, keyIndexes: KeyIndexes): Result<seq<string>, Failure> {
    if |line| < 9 then Err(OutOfRange)
    else if line[8] == ' ' && first !in keyIndexes then Err(NullPointer)
    else if line[8] == ' ' && keyIndexes[first] == [] then Err(OutOfRange)
    else if Trim(line[..4]) !in fidMap then Err(NullPointer)
    else
      Ok((if line[8] == ' ' then [keyIndexes[first][0]] else [])
         + KeysOf(Slices(Trim(line[4..]), fidMap[Trim(line[..4])])))
  }

  function AllHeaderKeys(lines: seq<string>, first: string, fidMap: Widths, keyIndexes: KeyIndexes): Result<KeyIndexes, Failure> {
    if lines == [] then Ok(keyIndexes)
    else
      var keys :- HeaderKeys(lines[0], first, fidMap, keyIndexes);
      AllHeaderKeys(lines[1..], first, fidMap, keyIndexes[lines[0][..4] := keys])
  }

  /** Values put under their keys one after the other. */
  function Assigned(keys: seq<string>, values: seq<string>): Entries
    requires |keys| == |values|
  {
    if keys == [] then map[]
    else Assigned(keys[..|keys| - 1], values[..|keys| - 1])[keys[|keys| - 1] := values[|keys| - 1]]
  }

  /** The record of one value line. */
  function Record(line: string, mbr: string, fidMap: Widths, links: map<string, string>, keyIndexes: KeyIndexes)
    : Result<Entries, Failure>
  {
    if |line| < 4 then Err(OutOfRange)
    else if line[..4] !in links || links[line[..4]] !in keyIndexes then Err(NullPointer)
    else
      var keys := keyIndexes[links[line[..4]]];
      if keys == [] then Ok(map["MBR" := mbr])
      else if Trim(line[..4]) !in fidMap then Err(NullPointer)
      else Ok(Assigned(keys, ValuesFor(line[4..], fidMap[Trim(line[..4])], |keys|))["MBR" := mbr])
  }

  /** The records of the value lines before the first line with an asterisk. */
  function Records(lines: seq<string>, mbr: string, fidMap: Widths, links: map<string, string>, keyIndexes: KeyIndexes)
    : Result<seq<Entries>, Failure>
  {
    if lines == [] || HasStar(lines[0]) then Ok([])
    else
      var record :- Record(lines[0], mbr, fidMap, links, keyIndexes);
      Prepended([record], Records(lines[1..], mbr, fidMap, links, keyIndexes))
  }

  /** The links after the tags of a response were processed; nothing changes when that fails. */
  function LinksAfter(results: seq<string>, command: string, links: map<string, string>): map<string, string> {
    var tags := Tags(results);
    if tags.Err? || (tags.value == [] && !IsOtma(command)) then links else Linked(links, tags.value, command)
  }

  function FirstTag(results: seq<string>): string {
    if results != [] && |results[0]| >= 4 then results[0][..4] else ""
  }

  /** The records before continuation lines are merged, given the distinct tags. */
  function Unmerged(results: seq<string>, tags: seq<string>, mbr: string, command: string, fidMap: Widths,
                    links: map<string, string>): Result<seq<Entries>, Failure>
    requires IsOtma(command) || tags != []
    requires HeaderCount(tags, command) <= |results|
  {
    var n := HeaderCount(tags, command);
    var keyIndexes :- AllHeaderKeys(results[..n], FirstTag(results), fidMap, map[]);
    Records(results[n..], mbr, fidMap, Linked(links, tags, command), keyIndexes)
  }

  predicate HasContinuations(command: string) {
    Contains(command, "DIS") && Contains(command, "OTMA")
  }

  function Parsed(results: seq<string>, mbr: string, command: string, fidMap: Widths, links: map<string, string>)
    : Result<seq<Entries>, Failure>
  {
    if results == [] then Err(OutOfRange)
    else if |results| == 1 then Ok([map[mbr := results[0]]])
    else
      var tags :- Tags(results);
      if tags == [] && !IsOtma(command) then Err(OutOfRange)
      else
        NoMoreTagsThanLines(results, []);
        var records :- Unmerged(results, tags, mbr, command, fidMap, links);
        if HasContinuations(command) then Coalesced(records) else Ok(records)
  }

  // ----- the reader

  class FidReader {
    var fidMap: Widths
    var fidToFid: map<string, string>

    constructor (fidMap: Widths)
      ensures this.fidMap == fidMap && fidToFid == map[]
    {
      this.fidMap := fidMap;
      fidToFid := map[];
    }

    /** `processFids`: counts the header lines and links every value tag to its header tag. */
    method ProcessFids(results: seq<string>, command: string) returns (headers: Result<nat, Failure>)
      modifies this`fidToFid
      ensures match Tags(results)
              case Err(e) => headers == Err(e)
              case Ok(tags) =>
                headers == if tags == [] && !IsOtma(command) then Err(OutOfRange) else Ok(HeaderCount(tags, command))
      ensures fidToFid == LinksAfter(results, command, old(fidToFid))
    {
      hide Contains, Tags, TagsFrom, Unique, HeaderCount, Linked, HasStar;
      var unique :- UniqueTags(results);
      TagsMean(results);
      if IsOtma(command) {
        PairInHalves(unique, command);
        HeaderCounts(unique, command);
        return Ok(|unique| / 2);
      } else {
        if unique == [] {
          return Err(OutOfRange);
        }
        PairWithFirst(unique, command);
        HeaderCounts(unique, command);
        return Ok(1);
      }
    }

    method PairWithFirst(unique: seq<string>, ghost command: string)
      requires !IsOtma(command) && unique != []
      modifies this`fidToFid
      ensures fidToFid == Linked(old(fidToFid), unique, command)
    {
      hide Contains;
      var headerTag := unique[0];
      for p := 1 to |unique|
        invariant fidToFid == old(fidToFid) + map t | t in unique[1..p] :: headerTag
      {
        fidToFid := fidToFid[unique[p] := headerTag];
        assert unique[1..p + 1] == unique[1..p] + [unique[p]];
      }
      assert unique[1..|unique|] == unique[1..];
    }

    /** The OTMA branch: reverses the tags in place, puts placeholders and links by counting. */
    method PairInHalves(unique: seq<string>, ghost command: string)
      requires IsOtma(command) && Unique(unique)
      modifies this`fidToFid
      ensures fidToFid == Linked(old(fidToFid), unique, command)
    {
      hide Contains, IsOtma, IndexOf, Linked, Unique, Grown, PairedBy;
      var fidArray := new string[|unique|];
      for j := 0 to |unique|
        invariant fidArray[..j] == unique[..j] && fidToFid == old(fidToFid)
      {
        fidArray[j] := unique[j];
      }
      assert fidArray[..] == unique;
      ReverseInPlace(fidArray);
      ReversedHalves(unique);
      LinkByCounting(fidArray, Reversed(unique), unique[|unique| / 2..]);
      PairedIsLinked(old(fidToFid), fidToFid, unique, command);
    }

    method LinkByCounting(fidArray: array<string>, ghost reversed: seq<string>, ghost values: seq<string>)
      requires Unique(reversed) && fidArray[..] == reversed
      requires Covered(reversed, values)
      modifies this`fidToFid
      ensures Grown(old(fidToFid), fidToFid, values)
      ensures PairedBy(fidToFid, reversed, |reversed| - |reversed| / 2)
    {
      var limit := fidArray.Length / 2;
      var i := 0;
      while i < limit - 1
        invariant 0 <= i
        invariant Grown(old(fidToFid), fidToFid, values)
      {
        fidToFid := fidToFid[fidArray[i] := ""];
        i := i + 1;
      }
      var processedFids: seq<string> := [];
      var count := 0;
      for k := limit to fidArray.Length
        invariant processedFids == fidArray[limit..k]
        invariant count == k - limit
        invariant Grown(old(fidToFid), fidToFid, values)
        invariant PairedBy(fidToFid, reversed, count)
      {
        NotAmongEarlier(reversed, limit, k);
        if fidArray[k] !in processedFids {
          fidToFid := fidToFid[fidArray[count] := fidArray[k]];
          processedFids := processedFids + [fidArray[k]];
          count := count + 1;
        }
      }
    }

    /** The key loop of one header line. */
    method ReadHeader(line: string, firstFid: string, keyIndexes: KeyIndexes) returns (keys: Result<seq<string>, Failure>)
      requires |line| >= 4
      ensures keys == HeaderKeys(line, firstFid, fidMap, keyIndexes)
    {
      hide Trim, TrimsToNothing, KeyOf, KeysOf, Slices;
      var keyIndex: seq<string> := [];
      if |line| < 9 {
        return Err(OutOfRange);
      }
      if line[4..][4] == ' ' {
        if firstFid !in keyIndexes {
          return Err(NullPointer);
        }
        if keyIndexes[firstFid] == [] {
          return Err(OutOfRange);
        }
        keyIndex := [keyIndexes[firstFid][0]];
      }
      if Trim(line[..4]) !in fidMap {
        return Err(NullPointer);
      }
      var read := CutKeys(Trim(line[4..]), fidMap[Trim(line[..4])]);
      return Ok(keyIndex + read);
    }

    method CutKeys(text: string, mapping: seq<nat>) returns (keyIndex: seq<string>)
      ensures keyIndex == KeysOf(Slices(text, mapping))
    {
      hide KeysOf, KeyOf, TrimsToNothing;
      var remain := text;
      keyIndex := [];
      ghost var cut: seq<string> := [];
      assert mapping[0..] == mapping;
      KeysOfNothing();
      for i := 0 to |mapping|
        invariant cut + Slices(remain, mapping[i..]) == Slices(text, mapping)
        invariant keyIndex == KeysOf(cut)
      {
        var numSpaces := mapping[i];
        var key := "";
        assert mapping[i..][1..] == mapping[i + 1..];
        if i == |mapping| - 1 {
          key := remain;
        } else if |remain| < numSpaces {
          key := remain;
          remain := "";
        } else {
          key := remain[..numSpaces];
          remain := remain[numSpaces..];
        }
        KeysOfAppended(cut, key);
        cut := cut + [key];
        var normal := NormalKey(key);
        if normal.Some? {
          keyIndex := keyIndex + [normal.value];
        }
      }
      assert cut + [] == cut;
    }

    /** The branches that turn a cut of the header text into a key, when it is not blank. */
    method NormalKey(slice: string) returns (key: Option<string>)
      ensures key == if TrimsToNothing(slice) then None else Some(KeyOf(slice))
    {
      hide Trim;
      var text := slice;
      if Trim(text) == "" {
        return None;
      }
      if '-' in text {
        text := Replaced(text, '-', '_');
      } else if Trim(text) == "STRUCTURE NAME" {
        text := "STRUCTURE_NAME";
      } else if Trim(text) == "GROUP/MEMBER" {
        text := "MEMBER";
      } else if '/' in text {
        text := Without(text, '/');
      }
      return Some(Trim(text));
    }

    /** The body of the value loop: one line with values becomes one record. */
    method ReadValues(line: string, mbr: string, keyIndexes: KeyIndexes) returns (record: Result<Properties, Failure>)
      ensures match Record(line, mbr, fidMap, fidToFid, keyIndexes)
              case Err(e) => record == Err(e)
              case Ok(entries) => record.Ok? && fresh(record.value) && record.value.entries == entries
    {
      hide Trim, ValuesFor, Assigned;
      var propObj := new Properties();
      if |line| < 4 {
        return Err(OutOfRange);
      }
      var valueFid, valueRemain := line[..4], line[4..];
      if valueFid !in fidToFid || fidToFid[valueFid] !in keyIndexes {
        return Err(NullPointer);
      }
      var keys := keyIndexes[fidToFid[valueFid]];
      if keys != [] {
        if Trim(valueFid) !in fidMap {
          return Err(NullPointer);
        }
        PutValues(propObj, keys, valueRemain, fidMap[Trim(valueFid)]);
      }
      propObj.Put("MBR", mbr);
      return Ok(propObj);
    }

    method PutValues(propObj: Properties, keys: seq<string>, text: string, valueMappings: seq<nat>)
      requires propObj.entries == map[]
      modifies propObj
      ensures propObj.entries == Assigned(keys, ValuesFor(text, valueMappings, |keys|))
    {
      hide Trim, ValuesFor, Assigned;
      var valueRemain := text;
      ghost var values: seq<string> := [];
      AssignedNothing();
      for k := 0 to |keys|
        invariant |values| == k
        invariant values + ValuesFor(valueRemain, Later(valueMappings, k), |keys| - k) == ValuesFor(text, valueMappings, |keys|)
        invariant propObj.entries == Assigned(keys[..k], values)
      {
        NextValue(valueRemain, valueMappings, k, |keys| - k);
        assert keys[..k + 1] == keys[..k] + [keys[k]];
        var value := "";
        if |valueMappings| - 1 < k {
          propObj.Put(keys[k], "");
        } else {
          var numSpaces := valueMappings[k];
          if k == |valueMappings| - 1 || |valueRemain| <= numSpaces {
            value := Trim(valueRemain);
            TrimTwice(valueRemain);
            propObj.Put(keys[k], Trim(value));
            valueRemain := "";
          } else {
            value := valueRemain[..numSpaces];
            valueRemain := valueRemain[numSpaces..];
          }
          value := Trim(value);
          propObj.Put(keys[k], value);
        }
        AssignedNext(keys[..k], values, keys[k], value);
        values := values + [value];
      }
      NoKeysLeft(valueRemain, Later(valueMappings, |keys|));
      assert values + [] == values;
      assert keys[..|keys|] == keys;
    }

    /** The header loop. */
    method ReadHeaders(results: seq<string>, numOfHeaders: nat) returns (keyIndexes: Result<KeyIndexes, Failure>)
      requires numOfHeaders <= |results|
      ensures keyIndexes == AllHeaderKeys(results[..numOfHeaders], FirstTag(results), fidMap, map[])
    {
      hide HeaderKeys, AllHeaderKeys;
      var indexes: KeyIndexes := map[];
      var firstFid := "";
      ghost var headers := results[..numOfHeaders];
      assert headers[0..] == headers;
      for a := 0 to numOfHeaders
        invariant a == 0 ==> firstFid == ""
        invariant a > 0 ==> firstFid == FirstTag(results) != ""
        invariant AllHeaderKeys(headers[a..], FirstTag(results), fidMap, indexes)
                  == AllHeaderKeys(headers, FirstTag(results), fidMap, map[])
      {
        AllHeaderKeysStep(headers[a..], FirstTag(results), fidMap, indexes);
        assert headers[a..][1..] == headers[a + 1..];
        if |results[a]| < 4 {
          ShortHeader(results[a], FirstTag(results), fidMap, indexes);
          return Err(OutOfRange);
        }
        var fid := results[a][..4];
        if firstFid == "" {
          firstFid := fid;
        }
        var keyIndex :- ReadHeader(results[a], firstFid, indexes);
        indexes := indexes[fid := keyIndex];
      }
      AllHeaderKeysEnd(headers[numOfHeaders..], FirstTag(results), fidMap, indexes);
      return Ok(indexes);
    }

    /** The value loop, which ends at the first line with an asterisk. */
    method ReadLines(results: seq<string>, numOfHeaders: nat, mbr: string, keyIndexes: KeyIndexes)
      returns (records: Result<seq<Properties>, Failure>)
      requires numOfHeaders <= |results|
      ensures match Records(results[numOfHeaders..], mbr, fidMap, fidToFid, keyIndexes)
              case Err(e) => records == Err(e)
              case Ok(entries) => records.Ok? && Contents(records.value) == entries
    {
      hide Record, Records, Contents;
      var responseProps: seq<Properties> := [];
      ghost var all := Records(results[numOfHeaders..], mbr, fidMap, fidToFid, keyIndexes);
      assert Contents(responseProps) == [];
      PrependedNothing(all);
      assert results[|results|..] == [];
      RecordsEnd(mbr, fidMap, fidToFid, keyIndexes);
      for j := numOfHeaders to |results|
        invariant all == Prepended(Contents(responseProps), Records(results[j..], mbr, fidMap, fidToFid, keyIndexes))
      {
        RecordsStep(results[j..], mbr, fidMap, fidToFid, keyIndexes);
        assert results[j..][1..] == results[j + 1..];
        if HasStar(results[j]) {
          assert all == Prepended(Contents(responseProps), Ok([]));
          break;
        }
        var propObj :- ReadValues(results[j], mbr, keyIndexes);
        PrependedTwice(Contents(responseProps), [propObj.entries], Records(results[j + 1..], mbr, fidMap, fidToFid, keyIndexes));
        assert Contents(responseProps + [propObj]) == Contents(responseProps) + [propObj.entries];
        responseProps := responseProps + [propObj];
      }
      assert all == Prepended(Contents(responseProps), Ok([]));
      assert Contents(responseProps) + [] == Contents(responseProps);
      return Ok(responseProps);
    }

    /** `parseResults`. */
    method ParseResults(results: seq<string>, mbr: string, command: string) returns (records: Result<seq<Properties>, Failure>)
      modifies this`fidToFid
      ensures match Parsed(results, mbr, command, fidMap, old(fidToFid))
              case Err(e) => records == Err(e)
              case Ok(entries) => records.Ok? && Contents(records.value) == entries
      ensures fidToFid == if |results| < 2 then old(fidToFid) else LinksAfter(results, command, old(fidToFid))
    {
      hide Contains, Tags, AllHeaderKeys, Records, Linked, HeaderCount, FirstTag, Coalesced, Contents;
      if |results| < 2 {
        if results == [] {
          return Err(OutOfRange);
        }
        var error := new Properties();
        error.Put(mbr, results[0]);
        assert Contents([error]) == [map[mbr := results[0]]];
        return Ok([error]);
      }
      var numOfHeaders :- ProcessFids(results, command);
      TagsFitLines(results, command);
      var keyIndexes :- ReadHeaders(results, numOfHeaders);
      var responseProps :- ReadLines(results, numOfHeaders, mbr, keyIndexes);
      if Contains(command, "DIS") && Contains(command, "OTMA") {
        records := CoalesceContinuationLine(responseProps);
      } else {
        records := Ok(responseProps);
      }
    }
  }

  lemma TagsFitLines(results: seq<string>, command: string)
    requires Tags(results).Ok? && results != []
    ensures HeaderCount(Tags(results).value, command) <= |results|
  {
    NoMoreTagsThanLines(results, []);
  }

  lemma ShortHeader(line: string, first: string, fidMap: Widths, keyIndexes: KeyIndexes)
    requires |line| < 9
    ensures HeaderKeys(line, first, fidMap, keyIndexes) == Err(OutOfRange)
  {
  }

  lemma AllHeaderKeysStep(lines: seq<string>, first: string, fidMap: Widths, keyIndexes: KeyIndexes)
    requires lines != []
    ensures match HeaderKeys(lines[0], first, fidMap, keyIndexes)
            case Err(e) => AllHeaderKeys(lines, first, fidMap, keyIndexes) == Err(e)
            case Ok(keys) =>
              AllHeaderKeys(lines, first, fidMap, keyIndexes) ==
              AllHeaderKeys(lines[1..], first, fidMap, keyIndexes[lines[0][..4] := keys])
  {
  }

  lemma AllHeaderKeysEnd(lines: seq<string>, first: string, fidMap: Widths, keyIndexes: KeyIndexes)
    requires lines == []
    ensures AllHeaderKeys(lines, first, fidMap, keyIndexes) == Ok(keyIndexes)
  {
  }

  lemma RecordsEnd(mbr: string, fidMap: Widths, links: map<string, string>, keyIndexes: KeyIndexes)
    ensures Records([], mbr, fidMap, links, keyIndexes) == Ok([])
  {
  }

  lemma RecordsStep(lines: seq<string>, mbr: string, fidMap: Widths, links: map<string, string>, keyIndexes: KeyIndexes)
    requires lines != []
    ensures HasStar(lines[0]) ==> Records(lines, mbr, fidMap, links, keyIndexes) == Ok([])
    ensures !HasStar(lines[0]) ==>
              match Record(lines[0], mbr, fidMap, links, keyIndexes)
              case Err(e) => Records(lines, mbr, fidMap, links, keyIndexes) == Err(e)
              case Ok(record) => Records(lines, mbr, fidMap, links, keyIndexes) ==
                                 Prepended([record], Records(lines[1..], mbr, fidMap, links, keyIndexes))
  {
    hide Record;
  }

  function Later(widths: seq<nat>, k: nat): seq<nat> {
    if k <= |widths| then widths[k..] else []
  }

  lemma NextValue(remain: string, widths: seq<nat>, k: nat, n: nat)
    requires n > 0
    ensures k >= |widths| ==>
              ValuesFor(remain, Later(widths, k), n) == [""] + ValuesFor(remain, Later(widths, k + 1), n - 1)
    ensures k < |widths| && (k == |widths| - 1 || |remain| <= widths[k]) ==>
              ValuesFor(remain, Later(widths, k), n) == [Trim(remain)] + ValuesFor("", Later(widths, k + 1), n - 1)
    ensures k < |widths| - 1 && |remain| > widths[k] ==>
              ValuesFor(remain, Later(widths, k), n) ==
              [Trim(remain[..widths[k]])] + ValuesFor(remain[widths[k]..], Later(widths, k + 1), n - 1)
  {
    hide Trim;
    if k < |widths| {
      assert widths[k..][1..] == widths[k + 1..];
    }
  }

  lemma NoKeysLeft(remain: string, widths: seq<nat>)
    ensures ValuesFor(remain, widths, 0) == []
  {
  }

  lemma KeysOfNothing()
    ensures KeysOf([]) == []
  {
  }

  lemma AssignedNothing()
    ensures Assigned([], []) == map[]
  {
  }

  lemma AssignedNext(keys: seq<string>, values: seq<string>, key: string, value: string)
    requires |keys| == |values|
    ensures Assigned(keys + [key], values + [value]) == Assigned(keys, values)[key := value]
  {
    assert (keys + [key])[..|keys|] == keys;
    assert (values + [value])[..|values|] == values;
  }
}
