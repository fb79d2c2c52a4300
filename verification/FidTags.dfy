/** The record tags of a response and how value tags are linked to header tags. */
module FidTags {
  import opened Results
  import opened Sequences

  datatype Failure = OutOfRange | NullPointer

  predicate HasStar(line: string) {
    '*' in line
  }

  /** The distinct tags of the lines without an asterisk, in the order in which they are first seen, after those in
      `seen`. A tag is the first four characters of its line. */
  function TagsFrom(lines: seq<string>, seen: seq<string>): Result<seq<string>, Failure> {
    if lines == [] then Ok(seen)
    else if HasStar(lines[0]) then TagsFrom(lines[1..], seen)
    else if |lines[0]| < 4 then Err(OutOfRange)
    else TagsFrom(lines[1..], if lines[0][..4] in seen then seen else seen + [lines[0][..4]])
  }

  function Tags(lines: seq<string>): Result<seq<string>, Failure> {
    TagsFrom(lines, [])
  }

  ghost predicate Unique(tags: seq<string>) {
    forall i, j :: 0 <= i < j < |tags| ==> tags[i] != tags[j]
  }

  /** The position at which a tag is first seen. */
  ghost predicate FirstSeenAt(lines: seq<string>, tag: string, i: nat) {
    && i < |lines| && '*' !in lines[i] && |lines[i]| >= 4 && lines[i][..4] == tag
    && forall k :: 0 <= k < i && '*' !in lines[k] && |lines[k]| >= 4 ==> lines[k][..4] != tag
  }

  lemma InPrefix(t: string, part: seq<string>, whole: seq<string>)
    requires t in part && part <= whole
    ensures t in whole
  {
    var k :| 0 <= k < |part| && part[k] == t;
    assert whole[k] == t;
  }

  lemma {:induction false} TagsFromMeans(lines: seq<string>, seen: seq<string>)
    requires Unique(seen)
    ensures TagsFrom(lines, seen).Err? <==> exists i :: 0 <= i < |lines| && !HasStar(lines[i]) && |lines[i]| < 4
    ensures TagsFrom(lines, seen).Ok? ==>
              var tags := TagsFrom(lines, seen).value;
              && Unique(tags) && seen <= tags
              && (forall i :: 0 <= i < |lines| && !HasStar(lines[i]) ==> |lines[i]| >= 4 && lines[i][..4] in tags)
              && (forall t :: t in tags ==> t in seen || exists i :: 0 <= i < |lines| && FirstSeenAt(lines, t, i))
  {
    if lines != [] {
      var line, rest := lines[0], lines[1..];
      assert forall i :: 0 < i < |lines| ==> lines[i] == rest[i - 1];
      assert forall i :: 0 <= i < |rest| ==> rest[i] == lines[i + 1];
      if !HasStar(line) && |line| < 4 {
        assert lines[0] == line;
      } else {
        var next := if HasStar(line) || line[..4] in seen then seen else seen + [line[..4]];
        TagsFromMeans(rest, next);
        if TagsFrom(lines, seen).Ok? {
          var tags := TagsFrom(lines, seen).value;
          forall i | 0 <= i < |lines| && !HasStar(lines[i])
            ensures |lines[i]| >= 4 && lines[i][..4] in tags
          {
            if i > 0 {
              assert lines[i] == rest[i - 1];
            } else {
              InPrefix(line[..4], next, tags);
            }
          }
          forall t | t in tags && t !in seen
            ensures exists i :: 0 <= i < |lines| && FirstSeenAt(lines, t, i)
          {
            if t in next {
              assert FirstSeenAt(lines, t, 0);
            } else {
              var i :| 0 <= i < |rest| && FirstSeenAt(rest, t, i);
              assert FirstSeenAt(lines, t, i + 1);
            }
          }
        }
      }
    }
  }

  lemma TagsMean(lines: seq<string>)
    requires Tags(lines).Ok?
    ensures Unique(Tags(lines).value)
    ensures forall i :: 0 <= i < |lines| && '*' !in lines[i] ==> |lines[i]| >= 4 && lines[i][..4] in Tags(lines).value
    ensures forall t :: t in Tags(lines).value ==> exists i :: 0 <= i < |lines| && FirstSeenAt(lines, t, i)
  {
    TagsFromMeans(lines, []);
  }

  lemma {:induction false} TagsAppended(lines: seq<string>, line: string, seen: seq<string>)
    requires TagsFrom(lines + [line], seen).Ok?
    ensures TagsFrom(lines, seen).Ok?
    ensures var tags := TagsFrom(lines, seen).value;
            TagsFrom(lines + [line], seen).value
            == if HasStar(line) || |line| < 4 || line[..4] in tags then tags else tags + [line[..4]]
  {
    if lines == [] {
      assert ([] + [line])[1..] == [] && [] + [line] == [line];
    } else {
      assert (lines + [line])[1..] == lines[1..] + [line];
      var first := lines[0];
      TagsAppended(lines[1..], line,
                   if HasStar(first) || first[..4] in seen then seen else seen + [first[..4]]);
    }
  }

  /** The tags stand in the order in which they are first seen. */
  lemma {:induction false} TagsInOrder(lines: seq<string>, p: nat, q: nat, i: nat, j: nat)
    requires Tags(lines).Ok? && p < q < |Tags(lines).value|
    requires FirstSeenAt(lines, Tags(lines).value[p], i) && FirstSeenAt(lines, Tags(lines).value[q], j)
    ensures i < j
    decreases |lines|
  {
    hide TagsFrom, HasStar;
    NoLines();
    var front, line := lines[..|lines| - 1], lines[|lines| - 1];
    assert lines == front + [line];
    TagsAppended(front, line, []);
    TagsMean(lines);
    TagsMean(front);
    var tags, before := Tags(lines).value, Tags(front).value;
    assert forall k :: 0 <= k < |front| ==> front[k] == lines[k];
    var last := |lines| - 1;
    if q < |before| {
      assert before[p] == tags[p] && before[q] == tags[q];
      SeenInFront(lines, tags[p], i, before);
      SeenInFront(lines, tags[q], j, before);
      TagsInOrder(front, p, q, i, j);
    } else {
      assert tags == before + [line[..4]] && tags[q] == line[..4] && tags[p] == before[p];
      SeenInFront(lines, tags[p], i, before);
      assert tags[q] !in before;
    }
  }

  lemma NoLines()
    ensures Tags([]) == Ok([])
  {
  }

  lemma SeenInFront(lines: seq<string>, tag: string, i: nat, before: seq<string>)
    requires lines != [] && Tags(lines[..|lines| - 1]) == Ok(before) && tag in before
    requires FirstSeenAt(lines, tag, i)
    ensures i < |lines| - 1 && FirstSeenAt(lines[..|lines| - 1], tag, i)
  {
    hide TagsFrom, HasStar;
    var front := lines[..|lines| - 1];
    TagsMean(front);
    var k :| 0 <= k < |front| && FirstSeenAt(front, tag, k);
    assert lines[k] == front[k];
  }

  // ----- links

  predicate IsOtma(command: string) {
    Contains(command, "OTMA")
  }

  /** How many header lines there are. */
  function HeaderCount(tags: seq<string>, command: string): nat {
    if IsOtma(command) then |tags| / 2 else 1
  }

  function IndexOf(tags: seq<string>, tag: string): (i: nat)
    requires tag in tags
    ensures i < |tags| && tags[i] == tag
    ensures Unique(tags) ==> forall j :: 0 <= j < |tags| && tags[j] == tag ==> i == j
  {
    if tags[0] == tag then 0 else 1 + IndexOf(tags[1..], tag)
  }

  /** The links after a response: in an OTMA response every tag of the second half leads to the tag as far into the
      first half, in any other response every tag but the first leads to the first. Other links stay. */
  function Linked(links: map<string, string>, tags: seq<string>, command: string): map<string, string>
    requires IsOtma(command) || tags != []
  {
    var n := HeaderCount(tags, command);
    links + map t | t in tags[n..] :: if IsOtma(command) then tags[IndexOf(tags[n..], t)] else tags[0]
  }

  /** In an OTMA response links lead from each tag behind the header tags to the tag as many places before it as there are
      header lines, none of them is a placeholder, and what else was linked stays as it was. With 2n tags the i-th value
      tag leads to the i-th header tag. */
  lemma LinksPairValuesWithHeaders(links: map<string, string>, tags: seq<string>, command: string, n: nat)
    requires IsOtma(command) && Unique(tags) && (|tags| == 2 * n || |tags| == 2 * n + 1)
    ensures HeaderCount(tags, command) == n
    ensures Linked(links, tags, command).Keys == links.Keys + (set t | t in tags[n..])
    ensures forall j :: n <= j < |tags| ==> Linked(links, tags, command)[tags[j]] == tags[j - n]
    ensures forall t :: t in links && t !in tags[n..] ==> Linked(links, tags, command)[t] == links[t]
  {
    hide IsOtma, Linked, IndexOf, Unique;
    LinkedMeans(links, tags, command);
    forall j | n <= j < |tags|
      ensures tags[j] in tags[n..] && IndexOf(tags[n..], tags[j]) == j - n
    {
      LaterIndex(tags, n, j);
    }
  }

  lemma LinkedMeans(links: map<string, string>, tags: seq<string>, command: string)
    requires IsOtma(command)
    ensures var n, linked := HeaderCount(tags, command), Linked(links, tags, command);
            && linked.Keys == links.Keys + (set t | t in tags[n..])
            && (forall t :: t in tags[n..] ==> linked[t] == tags[IndexOf(tags[n..], t)])
            && (forall t :: t in links && t !in tags[n..] ==> linked[t] == links[t])
  {
    hide Contains, IsOtma;
  }

  /** In any other response every tag behind the first leads to the first. */
  lemma LinksLeadToTheHeader(links: map<string, string>, tags: seq<string>, command: string)
    requires !IsOtma(command) && Unique(tags) && tags != []
    ensures HeaderCount(tags, command) == 1
    ensures Linked(links, tags, command).Keys == links.Keys + (set t | t in tags[1..])
    ensures forall j :: 1 <= j < |tags| ==> Linked(links, tags, command)[tags[j]] == tags[0]
    ensures forall t :: t in links && t !in tags[1..] ==> Linked(links, tags, command)[t] == links[t]
  {
    hide Contains;
    forall j | 1 <= j < |tags|
      ensures tags[j] in tags[1..]
    {
      LaterIndex(tags, 1, j);
    }
  }

  lemma LaterIndex(tags: seq<string>, n: nat, j: nat)
    requires Unique(tags) && n <= j < |tags|
    ensures tags[j] in tags[n..] && IndexOf(tags[n..], tags[j]) == j - n
  {
    var values := tags[n..];
    assert values[j - n] == tags[j];
    assert forall i :: 0 <= i < |values| ==> values[i] == tags[n + i];
  }

  // ----- the tables being built

  function Reversed(s: seq<string>): (r: seq<string>)
    ensures |r| == |s|
    ensures forall i :: 0 <= i < |s| ==> r[i] == s[|s| - 1 - i]
  {
    seq(|s|, i requires 0 <= i < |s| => s[|s| - 1 - i])
  }

  method ReverseInPlace(a: array<string>)
    modifies a
    ensures a[..] == Reversed(old(a[..]))
  {
    var n := a.Length;
    for j := 0 to n / 2
      invariant forall k :: 0 <= k < j || n - j <= k < n ==> a[k] == old(a[n - 1 - k])
      invariant forall k :: j <= k < n - j ==> a[k] == old(a[k])
    {
      var tmp := a[j];
      a[j] := a[n - 1 - j];
      a[n - 1 - j] := tmp;
    }
  }

  lemma HeaderCounts(tags: seq<string>, command: string)
    ensures HeaderCount(tags, command) == if IsOtma(command) then |tags| / 2 else 1
  {
  }

  /** The distinct tags in the order in which they are first seen. */
  method UniqueTags(results: seq<string>) returns (tags: Result<seq<string>, Failure>)
    ensures tags == Tags(results)
  {
    var unique: seq<string> := [];
    for i := 0 to |results|
      invariant TagsFrom(results[i..], unique) == Tags(results)
    {
      assert results[i..][1..] == results[i + 1..];
      if !HasStar(results[i]) {
        if |results[i]| < 4 {
          return Err(OutOfRange);
        }
        var valueTag := results[i][..4];
        if valueTag !in unique {
          unique := unique + [valueTag];
        }
      }
    }
    return Ok(unique);
  }

  lemma {:induction false} NoMoreTagsThanLines(lines: seq<string>, seen: seq<string>)
    requires TagsFrom(lines, seen).Ok?
    ensures |TagsFrom(lines, seen).value| <= |lines| + |seen|
  {
    if lines != [] {
      var line := lines[0];
      NoMoreTagsThanLines(lines[1..], if HasStar(line) || line[..4] in seen then seen else seen + [line[..4]]);
    }
  }

  lemma NotAmongEarlier(tags: seq<string>, from: nat, k: nat)
    requires Unique(tags) && from <= k < |tags|
    ensures tags[k] !in tags[from..k]
  {
  }

  /** Nothing was linked but some of the given tags. */
  ghost predicate Grown(before: map<string, string>, after: map<string, string>, tags: seq<string>) {
    && before.Keys <= after.Keys
    && (forall t :: t in after && t !in tags ==> t in before && after[t] == before[t])
  }

  /** The later half of the tags holds all that can be linked. */
  ghost predicate Covered(reversed: seq<string>, values: seq<string>) {
    forall i :: 0 <= i < |reversed| - |reversed| / 2 ==> reversed[i] in values
  }

  /** The first `count` of the reversed tags are linked to the tags half the length further on. */
  ghost predicate PairedBy(links: map<string, string>, reversed: seq<string>, count: int)
    requires count <= |reversed| - |reversed| / 2
  {
    forall c :: 0 <= c < count ==> reversed[c] in links && links[reversed[c]] == reversed[|reversed| / 2 + c]
  }

  lemma ReversedHalves(unique: seq<string>)
    requires Unique(unique)
    ensures Unique(Reversed(unique))
    ensures Covered(Reversed(unique), unique[|unique| / 2..])
  {
    var half := |unique| / 2;
    forall i | 0 <= i < |unique| - half
      ensures Reversed(unique)[i] in unique[half..]
    {
      assert unique[half..][|unique| - 1 - i - half] == Reversed(unique)[i];
    }
  }

  lemma PairedIsLinked(before: map<string, string>, after: map<string, string>, unique: seq<string>, command: string)
    requires IsOtma(command) && Unique(unique)
    requires Grown(before, after, unique[|unique| / 2..])
    requires PairedBy(after, Reversed(unique), |unique| - |unique| / 2)
    ensures after == Linked(before, unique, command)
  {
    hide Contains, IsOtma, Unique, PairedBy;
    var values := unique[|unique| / 2..];
    forall t | t in values
      ensures t in after && after[t] == unique[IndexOf(values, t)]
    {
      MirrorIndex(after, unique, IndexOf(values, t));
    }
    HeaderCounts(unique, command);
  }

  lemma MirrorIndex(after: map<string, string>, unique: seq<string>, p: nat)
    requires PairedBy(after, Reversed(unique), |unique| - |unique| / 2)
    requires p < |unique| - |unique| / 2
    ensures var t := unique[|unique| / 2..][p]; t in after && after[t] == unique[p]
  {
    var half := |unique| / 2;
    var c := |unique| - half - 1 - p;
    assert unique[half..][p] == unique[half + p] == Reversed(unique)[c];
    assert Reversed(unique)[half + c] == unique[p];
  }
}
