/** Merging the continuation lines of an OTMA display. */
module FidContinuation {
  import opened Results
  import opened FidTags
  import opened PropertyTables

  // ----- what merging gives, for any list of lines

  function Copies(entries: Entries, n: nat): (copies: seq<Entries>)
    ensures |copies| == n
    ensures forall i :: 0 <= i < n ==> copies[i] == entries
  {
    seq(n, i => entries)
  }

  function Prepended(done: seq<Entries>, rest: Result<seq<Entries>, Failure>): Result<seq<Entries>, Failure> {
    if rest.Err? then rest else Ok(done + rest.value)
  }

  /** The merged records of the lines still to come, where `current` is the record being filled and already stands
      `copies` times at the end of the list. All its copies are one object: they change together. */
  function Coalesce(lines: seq<Entries>, group: string, member: string, current: Entries, copies: nat)
    : Result<seq<Entries>, Failure>
  {
    if lines == [] then Ok(Copies(current, copies))
    else if "MEMBER" !in lines[0] then Err(NullPointer)
    else
      var value := lines[0]["MEMBER"];
      if '-' !in value then Coalesce(lines[1..], value, member, current, copies)
      else if member == value then Coalesce(lines[1..], group, member, current + lines[0], copies + 1)
      else Prepended(Copies(current, copies), Coalesce(lines[1..], group, value, lines[0]["GROUP" := group], 0))
  }

  function Coalesced(lines: seq<Entries>): Result<seq<Entries>, Failure> {
    Coalesce(lines, "", "", map[], 0)
  }

  lemma PrependedNothing(rest: Result<seq<Entries>, Failure>)
    ensures Prepended([], rest) == rest
  {
    if rest.Ok? {
      assert [] + rest.value == rest.value;
    }
  }

  lemma PrependedTwice(first: seq<Entries>, second: seq<Entries>, rest: Result<seq<Entries>, Failure>)
    ensures Prepended(first, Prepended(second, rest)) == Prepended(first + second, rest)
  {
    if rest.Ok? {
      assert first + (second + rest.value) == first + second + rest.value;
    }
  }

  lemma PrependedFailure(first: seq<Entries>, e: Failure)
    ensures Prepended(first, Err(e)) == Err(e)
  {
  }

  lemma CoalesceEnd(closed: seq<Entries>, group: string, member: string, current: Entries, copies: nat)
    ensures Coalesce([], group, member, current, copies) == Ok(Copies(current, copies))
    ensures Prepended(closed, Ok(Copies(current, copies))) == Ok(closed + Copies(current, copies))
  {
  }

  // ----- `coalesceContinuationLine`

  method CoalesceContinuationLine(otmaList: seq<Properties>) returns (combined: Result<seq<Properties>, Failure>)
    ensures match Coalesced(Contents(otmaList))
            case Err(e) => combined == Err(e)
            case Ok(records) => combined.Ok? && Contents(combined.value) == records
  {
    hide Coalesce, Contents, Copies, Prepended;
    ghost var lines := Contents(otmaList);
    var combinedOtmaList: seq<Properties> := [];
    var newOtma := new Properties();
    var group, member := "", "";
    ghost var closed: seq<Entries> := [];
    assert lines[0..] == lines;
    PrependedNothing(Coalesced(lines));
    for i := 0 to |otmaList|
      invariant fresh(newOtma) && newOtma !in otmaList && Contents(otmaList) == lines
      invariant |closed| <= |combinedOtmaList|
      invariant forall k :: 0 <= k < |closed| ==> combinedOtmaList[k] != newOtma && combinedOtmaList[k].entries == closed[k]
      invariant forall k :: |closed| <= k < |combinedOtmaList| ==> combinedOtmaList[k] == newOtma
      invariant Coalesced(lines) ==
                Prepended(closed, Coalesce(lines[i..], group, member, newOtma.entries, |combinedOtmaList| - |closed|))
    {
      ghost var copies := |combinedOtmaList| - |closed|;
      CoalesceStep(lines[i..], group, member, newOtma.entries, copies);
      assert lines[i..][1..] == lines[i + 1..];
      if "MEMBER" !in otmaList[i].entries {
        PrependedFailure(closed, NullPointer);
        return Err(NullPointer);
      }
      var value := otmaList[i].entries["MEMBER"];
      if '-' !in value {
        group := value;
      } else if member == value {
        newOtma.PutAll(otmaList[i]);
        combinedOtmaList := combinedOtmaList + [newOtma];
      } else {
        member := value;
        PrependedTwice(closed, Copies(newOtma.entries, copies),
                       Coalesce(lines[i + 1..], group, value, lines[i]["GROUP" := group], 0));
        closed := closed + Copies(newOtma.entries, copies);
        newOtma := new Properties();
        newOtma.PutAll(otmaList[i]);
        newOtma.Put("GROUP", group);
        assert newOtma.entries == lines[i]["GROUP" := group];
      }
    }
    assert lines[|otmaList|..] == [];
    CoalesceEnd(closed, group, member, newOtma.entries, |combinedOtmaList| - |closed|);
    assert Contents(combinedOtmaList) == closed + Copies(newOtma.entries, |combinedOtmaList| - |closed|);
    return Ok(combinedOtmaList);
  }

  lemma CoalesceStep(lines: seq<Entries>, group: string, member: string, current: Entries, copies: nat)
    requires lines != []
    ensures "MEMBER" !in lines[0] ==> Coalesce(lines, group, member, current, copies) == Err(NullPointer)
    ensures "MEMBER" in lines[0] ==>
              var value := lines[0]["MEMBER"];
              Coalesce(lines, group, member, current, copies) ==
              if '-' !in value then Coalesce(lines[1..], value, member, current, copies)
              else if member == value then Coalesce(lines[1..], group, member, current + lines[0], copies + 1)
              else Prepended(Copies(current, copies), Coalesce(lines[1..], group, value, lines[0]["GROUP" := group], 0))
  {
  }

  // ----- group lines and members

  /** A display: group lines, and members each on a first line with any number of continuation lines. */
  datatype Item = Group(line: Entries) | Member(first: Entries, more: seq<Entries>)

  function LinesOf(item: Item): seq<Entries> {
    if item.Group? then [item.line] else [item.first] + item.more
  }

  function Lines(items: seq<Item>): seq<Entries> {
    if items == [] then [] else LinesOf(items[0]) + Lines(items[1..])
  }

  predicate Sound(item: Item) {
    match item
    case Group(line) => "MEMBER" in line && '-' !in line["MEMBER"]
    case Member(first, more) => "MEMBER" in first && '-' in first["MEMBER"] && AllNamed(more, first["MEMBER"])
  }

  predicate AllNamed(lines: seq<Entries>, name: string) {
    forall i :: 0 <= i < |lines| ==> "MEMBER" in lines[i] && lines[i]["MEMBER"] == name
  }

  predicate AllSound(items: seq<Item>) {
    forall i :: 0 <= i < |items| ==> Sound(items[i])
  }

  /** A record with what further lines say put over it. */
  function Overlaid(base: Entries, more: seq<Entries>): Entries
    decreases |more|
  {
    if more == [] then base else Overlaid(base + more[0], more[1..])
  }

  /** One record a continuation line, all those of a member alike: the first line, the last group seen, then what the
      continuation lines say. A member without continuation lines has none. */
  function Merged(items: seq<Item>, group: string): seq<Entries>
    requires AllSound(items)
  {
    if items == [] then []
    else
      assert Sound(items[0]);
      match items[0]
      case Group(line) => Merged(items[1..], line["MEMBER"])
      case Member(first, more) => Copies(Overlaid(first["GROUP" := group], more), |more|) + Merged(items[1..], group)
  }

  /** No member has the name of the member before it, whether or not there are group lines in between. */
  predicate Alternating(items: seq<Item>, member: string)
    requires AllSound(items)
  {
    if items == [] then true
    else
      assert Sound(items[0]);
      match items[0]
      case Group(_) => Alternating(items[1..], member)
      case Member(first, _) => first["MEMBER"] != member && Alternating(items[1..], first["MEMBER"])
  }

  /** The continuation lines of the member at hand. */
  lemma {:induction false} ContinuationLines(more: seq<Entries>, rest: seq<Entries>, group: string, member: string,
                                             current: Entries, copies: nat)
    requires AllNamed(more, member) && '-' in member
    ensures Coalesce(more + rest, group, member, current, copies)
         == Coalesce(rest, group, member, Overlaid(current, more), copies + |more|)
    decreases |more|
  {
    hide Coalesce;
    if more == [] {
      assert more + rest == rest;
    } else {
      CoalesceStep(more + rest, group, member, current, copies);
      assert (more + rest)[1..] == more[1..] + rest;
      ContinuationLines(more[1..], rest, group, member, current + more[0], copies + 1);
    }
  }

  lemma {:induction false} AlternatingIsMerged(items: seq<Item>, group: string, member: string, current: Entries,
                                               copies: nat)
    requires AllSound(items) && Alternating(items, member)
    ensures Coalesce(Lines(items), group, member, current, copies) == Ok(Copies(current, copies) + Merged(items, group))
  {
    hide Coalesce, Overlaid;
    if items == [] {
      CoalesceEnd([], group, member, current, copies);
      assert Copies(current, copies) + [] == Copies(current, copies);
    } else {
      assert Sound(items[0]);
      ItemStep(items, group, member, current, copies);
      match items[0] {
        case Group(line) =>
          AlternatingIsMerged(items[1..], line["MEMBER"], member, current, copies);
        case Member(first, more) =>
          AlternatingIsMerged(items[1..], group, first["MEMBER"], Overlaid(first["GROUP" := group], more), |more|);
      }
    }
  }

  /** Merging one item. */
  lemma ItemStep(items: seq<Item>, group: string, member: string, current: Entries, copies: nat)
    requires items != [] && AllSound(items)
    ensures Sound(items[0])
    ensures Coalesce(Lines(items), group, member, current, copies) ==
            match items[0]
            case Group(line) => Coalesce(Lines(items[1..]), line["MEMBER"], member, current, copies)
            case Member(first, more) =>
              if first["MEMBER"] == member
              then Coalesce(Lines(items[1..]), group, member, Overlaid(current + first, more), copies + 1 + |more|)
              else Prepended(Copies(current, copies),
                             Coalesce(Lines(items[1..]), group, first["MEMBER"], Overlaid(first["GROUP" := group], more), |more|))
  {
    hide Coalesce, Copies, Overlaid, Lines, Prepended;
    assert Sound(items[0]);
    var lines, rest := Lines(items), Lines(items[1..]);
    LinesStep(items);
    CoalesceStep(lines, group, member, current, copies);
    if items[0].Member? {
      var first, more := items[0].first, items[0].more;
      if first["MEMBER"] == member {
        ContinuationLines(more, rest, group, member, current + first, copies + 1);
      } else {
        ContinuationLines(more, rest, group, first["MEMBER"], first["GROUP" := group], 0);
      }
    }
  }

  lemma LinesStep(items: seq<Item>)
    requires items != []
    ensures Lines(items) != []
    ensures match items[0]
            case Group(line) => Lines(items)[0] == line && Lines(items)[1..] == Lines(items[1..])
            case Member(first, more) => Lines(items)[0] == first && Lines(items)[1..] == more + Lines(items[1..])
  {
    var rest := Lines(items[1..]);
    assert Lines(items) == LinesOf(items[0]) + rest;
    if items[0].Group? {
      FirstOfLines(items[0].line, [], rest);
      assert [items[0].line] + [] == [items[0].line] && [] + rest == rest;
    } else {
      FirstOfLines(items[0].first, items[0].more, rest);
    }
  }

  lemma FirstOfLines(first: Entries, more: seq<Entries>, rest: seq<Entries>)
    ensures [first] + more + rest != []
    ensures ([first] + more + rest)[0] == first && ([first] + more + rest)[1..] == more + rest
  {
  }

  /** A member named like the member before it adds a record for its first line too. */
  lemma {:induction false} RepeatedNamesAddRecords(items: seq<Item>, group: string, member: string, current: Entries,
                                                   copies: nat)
    requires AllSound(items)
    ensures Coalesce(Lines(items), group, member, current, copies).Ok?
    ensures var records := Coalesce(Lines(items), group, member, current, copies).value;
            |records| >= copies + |Merged(items, group)| &&
            (!Alternating(items, member) ==> |records| > copies + |Merged(items, group)|)
  {
    hide Coalesce, Overlaid;
    if items == [] {
      CoalesceEnd([], group, member, current, copies);
    } else {
      ItemStep(items, group, member, current, copies);
      match items[0] {
        case Group(line) =>
          RepeatedNamesAddRecords(items[1..], line["MEMBER"], member, current, copies);
        case Member(first, more) =>
          if first["MEMBER"] == member {
            RepeatedNamesAddRecords(items[1..], group, member, Overlaid(current + first, more), copies + 1 + |more|);
          } else {
            RepeatedNamesAddRecords(items[1..], group, first["MEMBER"], Overlaid(first["GROUP" := group], more), |more|);
          }
      }
    }
  }

  /** Merging gives the records of the members, in order, exactly when consecutive members have different names. */
  lemma MergesMembers(items: seq<Item>)
    requires AllSound(items)
    ensures Coalesced(Lines(items)) == Ok(Merged(items, "")) <==> Alternating(items, "")
  {
    hide Coalesce, Merged, Alternating;
    RepeatedNamesAddRecords(items, "", "", map[], 0);
    if Alternating(items, "") {
      AlternatingIsMerged(items, "", "", map[], 0);
      assert Copies(map[], 0) + Merged(items, "") == Merged(items, "");
    }
  }

  /** Merging fails exactly when some line has no MEMBER. */
  lemma {:induction false} MergingFails(lines: seq<Entries>, group: string, member: string, current: Entries, copies: nat)
    ensures Coalesce(lines, group, member, current, copies) == Err(NullPointer)
            <==> exists i :: 0 <= i < |lines| && "MEMBER" !in lines[i]
    ensures Coalesce(lines, group, member, current, copies).Err? ==>
              Coalesce(lines, group, member, current, copies) == Err(NullPointer)
  {
    if lines != [] {
      hide Coalesce;
      CoalesceStep(lines, group, member, current, copies);
      assert forall i :: 0 < i < |lines| ==> lines[i] == lines[1..][i - 1];
      assert forall i :: 0 <= i < |lines[1..]| ==> lines[1..][i] == lines[i + 1];
      if "MEMBER" in lines[0] {
        var value := lines[0]["MEMBER"];
        if '-' !in value {
          MergingFails(lines[1..], value, member, current, copies);
        } else if member == value {
          MergingFails(lines[1..], group, member, current + lines[0], copies + 1);
        } else {
          MergingFails(lines[1..], group, value, lines[0]["GROUP" := group], 0);
        }
      }
    }
  }

  /** Two adjacent members of one name, with one continuation line each, give three records, all alike. */
  lemma TwoMembersOfOneName(line: Entries)
    requires Sound(Member(line, [line]))
    ensures Coalesced(Lines([Member(line, [line]), Member(line, [line])])) == Ok(Copies(line["GROUP" := ""] + line, 3))
  {
    hide Coalesce, Copies;
    var items := [Member(line, [line]), Member(line, [line])];
    assert items[1..] == [items[1]] && items[1..][1..] == [];
    assert line["MEMBER"] != "";
    var merged := line["GROUP" := ""] + line;
    assert [line][1..] == [];
    assert Overlaid(line["GROUP" := ""], [line]) == merged;
    ItemStep(items, "", "", map[], 0);
    ItemStep(items[1..], "", line["MEMBER"], merged, 1);
    assert Overlaid(merged + line, [line]) == merged + line + line == merged;
    CoalesceEnd([], "", line["MEMBER"], merged, 3);
    NoCopies(map[], Ok(Copies(merged, 3)));
  }

  /** A member on a single line, such as the only line of a display, gives no record at all. */
  lemma SingleLineIsDropped(line: Entries)
    requires Sound(Member(line, []))
    ensures Coalesced([line]) == Ok([])
  {
    var items := [Member(line, [])];
    assert items[1..] == [];
    assert Lines(items) == [line];
    assert line["MEMBER"] != "";
    MergesMembers(items);
    assert Merged(items, "") == [];
  }

  lemma NoCopies(entries: Entries, rest: Result<seq<Entries>, Failure>)
    ensures Prepended(Copies(entries, 0), rest) == rest
  {
    PrependedNothing(rest);
    assert Copies(entries, 0) == [];
  }
}
