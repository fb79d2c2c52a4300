/** Cutting response lines into columns of given widths: header lines into keys, value lines into values. */
module FidColumns {
  import opened Brackets
  import opened Sequences

  // ----- header lines

  /** The raw cuts of a header text: one a width, and the last takes what is left. */
  function Slices(remain: string, widths: seq<nat>): (slices: seq<string>)
    ensures |slices| == |widths|
    decreases |widths|
  {
    if widths == [] then []
    else if |widths| == 1 then [remain]
    else if |remain| < widths[0] then [remain] + Slices("", widths[1..])
    else [remain[..widths[0]]] + Slices(remain[widths[0]..], widths[1..])
  }

  function Concat(parts: seq<string>): string {
    if parts == [] then "" else parts[0] + Concat(parts[1..])
  }

  /** The cuts keep all of the text. */
  lemma {:induction false} SlicesKeepTheText(remain: string, widths: seq<nat>)
    requires widths != []
    ensures Concat(Slices(remain, widths)) == remain
    decreases |widths|
  {
    hide Slices, Concat;
    CutOff(remain, widths);
    if |widths| > 1 {
      var short := |remain| < widths[0];
      var first, rest := if short then remain else remain[..widths[0]], if short then "" else remain[widths[0]..];
      SlicesKeepTheText(rest, widths[1..]);
      ConcatStep(first, Slices(rest, widths[1..]));
      assert first + rest == remain;
    } else {
      ConcatStep(remain, []);
      assert [remain] + [] == [remain];
    }
  }

  lemma CutOff(remain: string, widths: seq<nat>)
    requires widths != []
    ensures |widths| == 1 ==> Slices(remain, widths) == [remain]
    ensures |widths| > 1 ==>
              Slices(remain, widths) ==
              if |remain| < widths[0] then [remain] + Slices("", widths[1..])
              else [remain[..widths[0]]] + Slices(remain[widths[0]..], widths[1..])
  {
  }

  lemma ConcatStep(first: string, others: seq<string>)
    ensures Concat([first] + others) == first + Concat(others)
    ensures Concat([]) == ""
  {
    assert ([first] + others)[1..] == others;
  }

  /** A cut is as wide as its column, unless it is the last or there is no more text after it. */
  lemma {:induction false} SlicesAreAsWide(remain: string, widths: seq<nat>, k: nat)
    requires k < |widths| - 1
    ensures |Slices(remain, widths)[k]| <= widths[k]
    ensures |Slices(remain, widths)[k]| < widths[k] ==>
              forall l :: k < l < |widths| ==> Slices(remain, widths)[l] == ""
    decreases k
  {
    if |remain| < widths[0] {
      NothingCut(widths[1..]);
      assert forall l :: 0 < l < |widths| ==> Slices(remain, widths)[l] == Slices("", widths[1..])[l - 1];
    } else if k > 0 {
      var rest := remain[widths[0]..];
      SlicesAreAsWide(rest, widths[1..], k - 1);
      assert forall l :: 0 < l < |widths| ==> Slices(remain, widths)[l] == Slices(rest, widths[1..])[l - 1];
    }
  }

  lemma {:induction false} NothingCut(widths: seq<nat>)
    ensures forall k :: 0 <= k < |widths| ==> Slices("", widths)[k] == ""
  {
    if |widths| > 1 {
      NothingCut(widths[1..]);
    }
  }

  predicate TrimsToNothing(s: string) {
    Trim(s) == ""
  }

  function Replaced(s: string, from: char, to: char): (r: string)
    ensures |r| == |s|
  {
    seq(|s|, i requires 0 <= i < |s| => if s[i] == from then to else s[i])
  }

  function Without(s: string, c: char): string {
    if s == "" then "" else (if s[0] == c then "" else [s[0]]) + Without(s[1..], c)
  }

  /** The key that a cut of the header text stands for. */
  function KeyOf(slice: string): string {
    Trim(
      if '-' in slice then Replaced(slice, '-', '_')
      else if Trim(slice) == "STRUCTURE NAME" then "STRUCTURE_NAME"
      else if Trim(slice) == "GROUP/MEMBER" then "MEMBER"
      else if '/' in slice then Without(slice, '/')
      else slice)
  }

  /** The keys of the cuts that are not blank. */
  function KeysOf(slices: seq<string>): seq<string> {
    if slices == [] then []
    else (if TrimsToNothing(slices[0]) then [] else [KeyOf(slices[0])]) + KeysOf(slices[1..])
  }

  lemma {:induction false} KeysOfAppended(slices: seq<string>, slice: string)
    ensures KeysOf(slices + [slice]) == KeysOf(slices) + if TrimsToNothing(slice) then [] else [KeyOf(slice)]
  {
    hide TrimsToNothing, KeyOf;
    if slices == [] {
      assert [slice][1..] == [];
      assert slices + [slice] == [slice];
    } else {
      KeysOfAppended(slices[1..], slice);
      assert (slices + [slice])[1..] == slices[1..] + [slice];
    }
  }

  /** A header text with something to see in it has a key. */
  lemma VisibleTextHasKey(remain: string, widths: seq<nat>, i: nat)
    requires widths != [] && i < |remain| && remain[i] > ' '
    ensures KeysOf(Slices(remain, widths)) != []
  {
    SlicesKeepTheText(remain, widths);
    if KeysOf(Slices(remain, widths)) == [] {
      NoKeysAllBlank(Slices(remain, widths), i);
    }
  }

  lemma {:induction false} NoKeysAllBlank(slices: seq<string>, i: nat)
    requires KeysOf(slices) == [] && i < |Concat(slices)|
    ensures Concat(slices)[i] <= ' '
  {
    if slices != [] {
      if i < |slices[0]| {
        BlankThroughout(slices[0], i);
      } else {
        NoKeysAllBlank(slices[1..], i - |slices[0]|);
      }
    }
  }

  lemma BlankThroughout(s: string, i: nat)
    requires TrimsToNothing(s) && i < |s|
    ensures s[i] <= ' '
  {
    if s[i] > ' ' {
      assert s[..i] + [s[i]] + s[i + 1..] == s;
      TrimGrows(s[..i], s[i], s[i + 1..]);
    }
  }

  lemma {:induction false} TrimLeftKeeps(s: string, c: char)
    requires c > ' '
    ensures c in TrimLeft(s) <==> c in s
  {
    if s != "" && s[0] <= ' ' {
      TrimLeftKeeps(s[1..], c);
      assert s == [s[0]] + s[1..];
    }
  }

  lemma {:induction false} TrimRightKeeps(s: string, c: char)
    requires c > ' '
    ensures c in TrimRight(s) <==> c in s
  {
    if s != "" && s[|s| - 1] <= ' ' {
      TrimRightKeeps(s[..|s| - 1], c);
      assert s == s[..|s| - 1] + [s[|s| - 1]];
    }
  }

  lemma TrimKeeps(s: string, c: char)
    requires c > ' '
    ensures c in Trim(s) <==> c in s
  {
    TrimLeftKeeps(s, c);
    TrimRightKeeps(TrimLeft(s), c);
  }

  lemma {:induction false} WithoutDrops(s: string, c: char, d: char)
    ensures d in Without(s, c) <==> d in s && d != c
  {
    if s != "" {
      WithoutDrops(s[1..], c, d);
      assert s == [s[0]] + s[1..];
    }
  }

  lemma ReplacedKeeps(s: string, from: char, to: char, c: char)
    requires c != to && from != to
    ensures c in Replaced(s, from, to) <==> c in s && c != from
  {
    if c in s && c != from {
      var i :| 0 <= i < |s| && s[i] == c;
      assert Replaced(s, from, to)[i] == c;
    }
  }

  /** Keys are to be names of enum constants: none has a dash, but one with a dash and a slash keeps its slash. */
  lemma KeysHaveNoDash(slice: string)
    ensures '-' !in KeyOf(slice)
    ensures '/' in KeyOf(slice) <==> '/' in slice && '-' in slice
  {
    hide Trim, Without, Replaced;
    TrimKeeps(slice, '-');
    TrimKeeps(slice, '/');
    if '-' in slice {
      TrimKeeps(Replaced(slice, '-', '_'), '-');
      TrimKeeps(Replaced(slice, '-', '_'), '/');
      ReplacedKeeps(slice, '-', '_', '-');
      ReplacedKeeps(slice, '-', '_', '/');
    } else if Trim(slice) == "STRUCTURE NAME" {
      TrimKeeps("STRUCTURE_NAME", '-');
      TrimKeeps("STRUCTURE_NAME", '/');
    } else if Trim(slice) == "GROUP/MEMBER" {
      TrimKeeps("MEMBER", '-');
      TrimKeeps("MEMBER", '/');
    } else if '/' in slice {
      TrimKeeps(Without(slice, '/'), '-');
      TrimKeeps(Without(slice, '/'), '/');
      WithoutDrops(slice, '/', '-');
      WithoutDrops(slice, '/', '/');
    }
  }

  // ----- value lines

  /** The values for `n` keys: one a width, trimmed, the last takes what is left, and keys beyond the widths get
      the empty value. */
  function ValuesFor(remain: string, widths: seq<nat>, n: nat): (values: seq<string>)
    ensures |values| == n
    decreases n
  {
    if n == 0 then []
    else if widths == [] then [""] + ValuesFor(remain, [], n - 1)
    else if |widths| == 1 || |remain| <= widths[0] then [Trim(remain)] + ValuesFor("", widths[1..], n - 1)
    else [Trim(remain[..widths[0]])] + ValuesFor(remain[widths[0]..], widths[1..], n - 1)
  }

  function Blanks(n: nat): (s: string)
    ensures |s| == n
    ensures forall i :: 0 <= i < n ==> s[i] == ' '
  {
    seq(n, i => ' ')
  }

  function Padded(s: string, width: int): (r: string)
    ensures s <= r && |r| == if |s| < width then width else |s|
    ensures forall i :: |s| <= i < |r| ==> r[i] == ' '
  {
    if |s| < width then s + Blanks(width - |s|) else s
  }

  /** The values one after the other, all but the last padded to its width. */
  function Layout(values: seq<string>, widths: seq<nat>): string
    requires |values| == |widths|
  {
    if values == [] then ""
    else if |values| == 1 then values[0]
    else Padded(values[0], widths[0]) + Layout(values[1..], widths[1..])
  }

  function CharAt(s: string, i: nat): char {
    if i < |s| then s[i] else ' '
  }

  /** The same text but for blanks kept or cut at the end. */
  ghost predicate Alike(s: string, t: string) {
    forall i: nat :: CharAt(s, i) == CharAt(t, i)
  }

  /** Values that are trimmed and, but for the last, no longer than their columns are wide. */
  ghost predicate Fit(values: seq<string>, widths: seq<nat>)
    requires |values| == |widths|
  {
    forall k :: 0 <= k < |values| ==> Trim(values[k]) == values[k] && (k < |widths| - 1 ==> |values[k]| <= widths[k])
  }

  lemma {:induction false} TrimLeftStarts(s: string)
    ensures TrimLeft(s) == "" || TrimLeft(s)[0] > ' '
  {
    if s != "" && s[0] <= ' ' {
      TrimLeftStarts(s[1..]);
    }
  }

  lemma {:induction false} TrimRightEnds(s: string)
    ensures TrimRight(s) <= s
    ensures TrimRight(s) == "" || TrimRight(s)[|TrimRight(s)| - 1] > ' '
  {
    if s != "" && s[|s| - 1] <= ' ' {
      TrimRightEnds(s[..|s| - 1]);
    }
  }

  lemma TrimmedEnds(s: string)
    ensures Trim(s) == "" || (Trim(s)[0] > ' ' && Trim(s)[|Trim(s)| - 1] > ' ')
  {
    TrimLeftStarts(s);
    TrimRightEnds(TrimLeft(s));
  }

  lemma TrimTwice(s: string)
    ensures Trim(Trim(s)) == Trim(s)
  {
    TrimmedEnds(s);
    if Trim(s) != "" {
      TrimUnneeded(Trim(s));
    }
  }

  lemma {:induction false} TrimRightBlanks(s: string)
    requires forall i :: 0 <= i < |s| ==> s[i] == ' '
    ensures TrimRight(s) == ""
  {
    if s != "" {
      TrimRightBlanks(s[..|s| - 1]);
    }
  }

  lemma TrimAlike(s: string, value: string)
    requires Alike(s, value) && Trim(value) == value
    ensures Trim(s) == value
  {
    hide TrimLeft, TrimRight, Trim;
    forall i | 0 <= i < |s|
      ensures s[i] == CharAt(value, i)
    {
      assert CharAt(s, i) == CharAt(value, i);
    }
    forall i | 0 <= i < |value|
      ensures CharAt(s, i) == value[i]
    {
      assert CharAt(s, i) == CharAt(value, i);
    }
    TrimmedEnds(value);
    if value == "" {
      TrimOfBlanks(s);
    } else {
      var n := |value| - 1;
      assert |s| > n by {
        assert CharAt(s, n) == value[n];
      }
      assert s == value[..n] + [value[n]] + s[n + 1..];
      TrimPastEnd(value, s[n + 1..]);
    }
  }

  lemma TrimOfBlanks(s: string)
    requires forall i :: 0 <= i < |s| ==> s[i] == ' '
    ensures Trim(s) == ""
  {
    TrimLeftBlanks(s);
  }

  lemma {:induction false} TrimLeftBlanks(s: string)
    requires forall i :: 0 <= i < |s| ==> s[i] == ' '
    ensures TrimLeft(s) == ""
  {
    if s != "" {
      TrimLeftBlanks(s[1..]);
    }
  }

  lemma TrimPastEnd(value: string, blanks: string)
    requires value != "" && value[0] > ' ' && value[|value| - 1] > ' '
    requires forall i :: 0 <= i < |blanks| ==> blanks[i] == ' '
    ensures Trim(value[..|value| - 1] + [value[|value| - 1]] + blanks) == value
  {
    var n := |value| - 1;
    var s := value[..n] + [value[n]] + blanks;
    assert s[0] == value[0];
    TrimRightStops(value[..n], value[n], blanks);
    TrimRightBlanks(blanks);
    assert value[..n] + [value[n]] + "" == value;
  }

  lemma CharsOfFirstColumn(s: string, values: seq<string>, widths: seq<nat>, i: nat)
    requires |values| == |widths| > 1 && |values[0]| <= widths[0]
    requires Alike(s, Layout(values, widths))
    ensures i < widths[0] ==> CharAt(s, i) == CharAt(values[0], i)
    ensures CharAt(s, widths[0] + i) == CharAt(Layout(values[1..], widths[1..]), i)
  {
    assert Layout(values, widths) == Padded(values[0], widths[0]) + Layout(values[1..], widths[1..]);
    assert CharAt(s, i) == CharAt(Layout(values, widths), i);
    assert CharAt(s, widths[0] + i) == CharAt(Layout(values, widths), widths[0] + i);
  }

  /** The first column of a laid out line holds the first value, the rest of the line the other values. */
  lemma FirstColumn(s: string, values: seq<string>, widths: seq<nat>)
    requires |values| == |widths| > 1 && |values[0]| <= widths[0]
    requires Alike(s, Layout(values, widths))
    ensures |s| <= widths[0] ==> Alike(s, values[0]) && Alike("", Layout(values[1..], widths[1..]))
    ensures |s| > widths[0] ==> Alike(s[..widths[0]], values[0]) && Alike(s[widths[0]..], Layout(values[1..], widths[1..]))
  {
    hide Layout, Padded;
    var w := widths[0];
    forall i: nat
      ensures i < w ==> CharAt(s, i) == CharAt(values[0], i)
      ensures CharAt(s, w + i) == CharAt(Layout(values[1..], widths[1..]), i)
    {
      CharsOfFirstColumn(s, values, widths, i);
    }
    forall i: nat
      ensures CharAt(if |s| <= w then "" else s[w..], i) == CharAt(Layout(values[1..], widths[1..]), i)
    {
      assert CharAt(s, w + i) == CharAt(Layout(values[1..], widths[1..]), i);
    }
  }

  lemma {:induction false} FittingValuesAreRead(s: string, values: seq<string>, widths: seq<nat>, n: nat)
    requires |values| == |widths| <= n
    requires Alike(s, Layout(values, widths)) && Fit(values, widths)
    ensures ValuesFor(s, widths, n) == values + seq(n - |values|, i => "")
    decreases n
  {
    hide Trim, Alike, Layout, ValuesFor, Fit;
    if widths == [] {
      NoColumnsLeft(s, n);
    } else {
      FitColumns(values, widths);
      var rest := values[1..] + seq(n - |values|, i => "");
      assert values + seq(n - |values|, i => "") == [values[0]] + rest;
      if |widths| == 1 {
        LastColumn(s, values, widths);
        TrimAlike(s, values[0]);
        NoColumnsLeft("", n - 1);
        FirstValue(s, widths, n);
        assert values[1..] == [] && widths[1..] == [];
      } else {
        FirstColumn(s, values, widths);
        FirstValue(s, widths, n);
        if |s| <= widths[0] {
          TrimAlike(s, values[0]);
          FittingValuesAreRead("", values[1..], widths[1..], n - 1);
        } else {
          TrimAlike(s[..widths[0]], values[0]);
          FittingValuesAreRead(s[widths[0]..], values[1..], widths[1..], n - 1);
        }
      }
    }
  }

  lemma FirstValue(s: string, widths: seq<nat>, n: nat)
    requires widths != [] && n > 0
    ensures |widths| == 1 || |s| <= widths[0] ==> ValuesFor(s, widths, n) == [Trim(s)] + ValuesFor("", widths[1..], n - 1)
    ensures |widths| > 1 && |s| > widths[0] ==>
              ValuesFor(s, widths, n) == [Trim(s[..widths[0]])] + ValuesFor(s[widths[0]..], widths[1..], n - 1)
  {
  }

  lemma FitColumns(values: seq<string>, widths: seq<nat>)
    requires |values| == |widths| > 0 && Fit(values, widths)
    ensures Trim(values[0]) == values[0] && (|widths| > 1 ==> |values[0]| <= widths[0])
    ensures Fit(values[1..], widths[1..])
  {
  }

  lemma LastColumn(s: string, values: seq<string>, widths: seq<nat>)
    requires |values| == |widths| == 1 && Alike(s, Layout(values, widths))
    ensures Alike(s, values[0])
  {
  }

  lemma {:induction false} NoColumnsLeft(s: string, n: nat)
    ensures ValuesFor(s, [], n) == seq(n, i => "")
  {
    if n > 0 {
      NoColumnsLeft(s, n - 1);
    }
  }

  lemma {:induction false} ReadValuesFit(s: string, widths: seq<nat>, n: nat, k: nat)
    requires k < |widths| <= n
    ensures var v := ValuesFor(s, widths, n)[k]; Trim(v) == v && (k < |widths| - 1 ==> |v| <= widths[k])
    decreases k
  {
    hide TrimLeft, TrimRight;
    if k == 0 {
      TrimTwice(s);
      if |s| > widths[0] {
        TrimTwice(s[..widths[0]]);
      }
    } else if |widths| == 1 || |s| <= widths[0] {
      ReadValuesFit("", widths[1..], n - 1, k - 1);
    } else {
      ReadValuesFit(s[widths[0]..], widths[1..], n - 1, k - 1);
    }
  }

  /** Reading a line that was laid out in the columns, blanks at its end kept or cut, gives the values back exactly
      when they are trimmed and fit their columns; keys beyond the columns get the empty value. */
  lemma SlicingInvertsLayout(s: string, values: seq<string>, widths: seq<nat>, n: nat)
    requires |values| == |widths| <= n && Alike(s, Layout(values, widths))
    ensures ValuesFor(s, widths, n) == values + seq(n - |values|, i => "") <==> Fit(values, widths)
  {
    hide Trim, ValuesFor, Alike, Layout;
    if Fit(values, widths) {
      FittingValuesAreRead(s, values, widths, n);
    }
    if ValuesFor(s, widths, n) == values + seq(n - |values|, i => "") {
      forall k | 0 <= k < |values|
        ensures Trim(values[k]) == values[k] && (k < |widths| - 1 ==> |values[k]| <= widths[k])
      {
        ReadValuesFit(s, widths, n, k);
      }
    }
  }

  /** The first values do not depend on how many keys there are. */
  lemma {:induction false} ValuesPrefix(remain: string, widths: seq<nat>, n: nat, m: nat)
    requires n <= m
    ensures ValuesFor(remain, widths, n) == ValuesFor(remain, widths, m)[..n]
    decreases n
  {
    hide ValuesFor, Trim;
    ValuesStep(remain, widths, n);
    ValuesStep(remain, widths, m);
    if n > 0 {
      if widths == [] {
        ValuesPrefix(remain, [], n - 1, m - 1);
      } else if |widths| == 1 || |remain| <= widths[0] {
        ValuesPrefix("", widths[1..], n - 1, m - 1);
      } else {
        ValuesPrefix(remain[widths[0]..], widths[1..], n - 1, m - 1);
      }
    }
  }

  lemma ValuesStep(remain: string, widths: seq<nat>, n: nat)
    ensures n == 0 ==> ValuesFor(remain, widths, n) == []
    ensures n > 0 ==>
              ValuesFor(remain, widths, n) ==
              if widths == [] then [""] + ValuesFor(remain, [], n - 1)
              else if |widths| == 1 || |remain| <= widths[0] then [Trim(remain)] + ValuesFor("", widths[1..], n - 1)
              else [Trim(remain[..widths[0]])] + ValuesFor(remain[widths[0]..], widths[1..], n - 1)
  {
    hide Trim;
  }

  /** One value a key: values beyond the keys are left out, and keys beyond the values have nothing. */
  function OneEach(values: seq<string>, n: nat): (r: seq<string>)
    ensures |r| == n
  {
    seq(n, k requires 0 <= k < n => if k < |values| then values[k] else "")
  }

  /** Whatever the number of keys, values that were laid out in the columns are read one a key. */
  lemma FittingValuesOneEach(s: string, values: seq<string>, widths: seq<nat>, n: nat)
    requires |values| == |widths| && Alike(s, Layout(values, widths)) && Fit(values, widths)
    ensures ValuesFor(s, widths, n) == OneEach(values, n)
  {
    hide ValuesFor, Alike, Layout, Fit;
    var m := if n < |values| then |values| else n;
    FittingValuesAreRead(s, values, widths, m);
    ValuesPrefix(s, widths, n, m);
  }

  // ----- header lines that were laid out

  function Trimmed(slices: seq<string>): (r: seq<string>)
    ensures |r| == |slices|
  {
    seq(|slices|, i requires 0 <= i < |slices| => Trim(slices[i]))
  }

  /** Header lines are cut like value lines. */
  lemma {:induction false} SlicesAreValues(remain: string, widths: seq<nat>)
    ensures Trimmed(Slices(remain, widths)) == ValuesFor(remain, widths, |widths|)
    decreases |widths|
  {
    hide Trim, ValuesFor, Slices, Trimmed;
    if widths == [] {
      NoColumnsLeft(remain, 0);
      TrimmedNothing(Slices(remain, widths));
    } else {
      var last := |widths| == 1 || |remain| <= widths[0];
      var first := if last then remain else remain[..widths[0]];
      var rest := if last then "" else remain[widths[0]..];
      FirstSlice(remain, widths);
      FirstValue(remain, widths, |widths|);
      TrimmedStep(first, Slices(rest, widths[1..]));
      SlicesAreValues(rest, widths[1..]);
    }
  }

  lemma TrimmedNothing(slices: seq<string>)
    requires slices == []
    ensures Trimmed(slices) == []
  {
  }

  lemma TrimmedStep(slice: string, slices: seq<string>)
    ensures Trimmed([slice] + slices) == [Trim(slice)] + Trimmed(slices)
  {
  }

  lemma FirstSlice(remain: string, widths: seq<nat>)
    requires widths != []
    ensures var last := |widths| == 1 || |remain| <= widths[0];
            Slices(remain, widths) ==
            if last then [remain] + Slices("", widths[1..]) else [remain[..widths[0]]] + Slices(remain[widths[0]..], widths[1..])
  {
    if |widths| == 1 {
      assert widths[1..] == [] && [remain] + [] == [remain];
    } else if |remain| == widths[0] {
      assert remain[..widths[0]] == remain && remain[widths[0]..] == "";
    }
  }

  /** No blank column stands before the first name, unless it has no width or there is no name at all. */
  predicate Leads(names: seq<string>, widths: seq<nat>)
    requires |names| == |widths|
  {
    || (forall i :: 0 <= i < |names| ==> names[i] == "")
    || names[0] != ""
    || (widths[0] == 0 && Leads(names[1..], widths[1..]))
  }

  predicate AllHidden(s: string) {
    forall i :: 0 <= i < |s| ==> s[i] <= ' '
  }

  lemma {:induction false} TrimRightTail(s: string, tail: string)
    requires AllHidden(tail)
    ensures TrimRight(s + tail) == TrimRight(s)
    decreases |tail|
  {
    hide TrimRight;
    if tail == "" {
      assert s + tail == s;
    } else {
      var front, c := tail[..|tail| - 1], tail[|tail| - 1];
      TrimRightTail(s, front);
      TrimRightStep(s + front, c);
      assert s + tail == s + front + [c];
    }
  }

  lemma TrimRightStep(s: string, c: char)
    requires c <= ' '
    ensures TrimRight(s + [c]) == TrimRight(s)
  {
    assert (s + [c])[..|s|] == s;
  }

  lemma {:induction false} TrimLeftHidden(s: string)
    requires AllHidden(s)
    ensures TrimLeft(s) == ""
  {
    if s != "" {
      TrimLeftHidden(s[1..]);
    }
  }

  lemma {:induction false} TrimTail(s: string, tail: string)
    requires AllHidden(tail)
    ensures Trim(s + tail) == Trim(s)
  {
    hide TrimRight;
    if s == "" {
      TrimLeftHidden(tail);
      assert s + tail == tail;
    } else if s[0] <= ' ' {
      TrimTail(s[1..], tail);
      assert (s + tail)[1..] == s[1..] + tail;
    } else {
      assert (s + tail)[0] == s[0];
      TrimRightTail(s, tail);
    }
  }

  lemma {:induction false} RightOfTrim(s: string)
    ensures exists tail :: AllHidden(tail) && TrimRight(s) + tail == s
  {
    if s != "" && s[|s| - 1] <= ' ' {
      RightOfTrim(s[..|s| - 1]);
      var tail :| AllHidden(tail) && TrimRight(s[..|s| - 1]) + tail == s[..|s| - 1];
      assert TrimRight(s) + (tail + [s[|s| - 1]]) == s;
      assert AllHidden(tail + [s[|s| - 1]]);
    } else {
      assert AllHidden("") && s + "" == s;
    }
  }

  /** What is cut off the end of a line makes no difference to its values. */
  lemma {:induction false} ValuesOfTail(s: string, tail: string, widths: seq<nat>, n: nat)
    requires AllHidden(tail)
    ensures ValuesFor(s + tail, widths, n) == ValuesFor(s, widths, n)
    decreases n
  {
    hide Trim, ValuesFor;
    if n == 0 {
      NoValues(s, widths);
      NoValues(s + tail, widths);
    } else if widths == [] {
      NoColumnsLeft(s, n);
      NoColumnsLeft(s + tail, n);
    } else {
      FirstValue(s, widths, n);
      FirstValue(s + tail, widths, n);
      TrimTail(s, tail);
      if |widths| > 1 && |s + tail| > widths[0] {
        var w := widths[0];
        if |s| > w {
          assert (s + tail)[..w] == s[..w] && (s + tail)[w..] == s[w..] + tail;
          ValuesOfTail(s[w..], tail, widths[1..], n - 1);
        } else {
          var cut := w - |s|;
          assert (s + tail)[..w] == s + tail[..cut] && (s + tail)[w..] == "" + tail[cut..];
          TrimTail(s, tail[..cut]);
          ValuesOfTail("", tail[cut..], widths[1..], n - 1);
        }
      }
    }
  }

  lemma NoValues(s: string, widths: seq<nat>)
    ensures ValuesFor(s, widths, 0) == []
  {
  }

  lemma {:induction false} ValuesOfNothing(widths: seq<nat>, n: nat)
    ensures ValuesFor("", widths, n) == seq(n, i => "")
  {
    if n > 0 && widths != [] {
      ValuesOfNothing(widths[1..], n - 1);
    } else if n > 0 {
      ValuesOfNothing([], n - 1);
    }
  }

  lemma TrimHidden(s: string)
    ensures Trim(s) == "" <==> AllHidden(s)
  {
    if Trim(s) == "" {
      forall i | 0 <= i < |s|
        ensures s[i] <= ' '
      {
        BlankThroughout(s, i);
      }
    } else if AllHidden(s) {
      TrimLeftHidden(s);
    }
  }

  /** A line that starts with a visible character has the values that it has when trimmed. */
  lemma ValuesOfTrimmed(s: string, widths: seq<nat>, n: nat)
    requires s != "" && s[0] > ' '
    ensures ValuesFor(Trim(s), widths, n) == ValuesFor(s, widths, n)
  {
    RightOfTrim(s);
    var tail :| AllHidden(tail) && TrimRight(s) + tail == s;
    ValuesOfTail(TrimRight(s), tail, widths, n);
  }

  /** Text that starts with a visible character has a first value. */
  lemma VisibleFirst(s: string, widths: seq<nat>, n: nat)
    requires s != "" && s[0] > ' ' && widths != [] && widths[0] > 0 && n > 0
    ensures ValuesFor(s, widths, n)[0] != ""
  {
    hide Trim;
    FirstValue(s, widths, n);
    if Trim(s) == "" {
      BlankThroughout(s, 0);
    }
    if |s| > widths[0] && Trim(s[..widths[0]]) == "" {
      BlankThroughout(s[..widths[0]], 0);
    }
  }

  lemma FirstChar(s: string, names: seq<string>, widths: seq<nat>)
    requires |names| == |widths| > 0 && names[0] != "" && names[0][0] > ' ' && Alike(s, Layout(names, widths))
    ensures s != "" && s[0] > ' '
  {
    assert CharAt(s, 0) == CharAt(Layout(names, widths), 0);
  }

  lemma NoWidth(s: string, names: seq<string>, widths: seq<nat>)
    requires |names| == |widths| > 1 && names[0] == "" && widths[0] == 0
    ensures Layout(names, widths) == Layout(names[1..], widths[1..])
    ensures ValuesFor(s, widths, |widths|) == [""] + ValuesFor(s, widths[1..], |widths| - 1)
  {
    hide Layout;
    FirstValue(s, widths, |widths|);
    LayoutStep(names, widths);
    assert s[0..] == s && s[..0] == "";
    assert Trim("") == "";
  }

  lemma LayoutStep(names: seq<string>, widths: seq<nat>)
    requires |names| == |widths| > 1
    ensures Layout(names, widths) == Padded(names[0], widths[0]) + Layout(names[1..], widths[1..])
  {
  }

  /** Header names that were laid out in their columns are cut out again, if and only if no column stands blank before
      the first name: the text is trimmed before it is cut, which shifts all the columns. */
  lemma {:induction false} CutsRecoverNames(s: string, names: seq<string>, widths: seq<nat>)
    requires |names| == |widths| && Fit(names, widths) && Alike(s, Layout(names, widths))
    ensures Trimmed(Slices(Trim(s), widths)) == names <==> Leads(names, widths)
    decreases |names|
  {
    hide Trim, ValuesFor, Alike, Layout, Slices;
    var n := |widths|;
    SlicesAreValues(Trim(s), widths);
    FittingValuesAreRead(s, names, widths, n);
    assert names + seq(0, i => "") == names;
    TrimHidden(s);
    if Trim(s) == "" {
      ValuesOfTail("", s, widths, n);
      assert "" + s == s;
      ValuesOfNothing(widths, n);
    } else if names != [] && names[0] != "" {
      TrimmedEnds(names[0]);
      FirstChar(s, names, widths);
      ValuesOfTrimmed(s, widths, n);
    } else if names != [] {
      TrimmedEnds(s);
      SomeName(s, names, widths);
      if widths[0] > 0 {
        VisibleFirst(Trim(s), widths, n);
      } else {
        NoWidth(Trim(s), names, widths);
        CutsRecoverNames(s, names[1..], widths[1..]);
        SlicesAreValues(Trim(s), widths[1..]);
      }
    }
  }

  /** A line with something visible in it has a name. */
  lemma SomeName(s: string, names: seq<string>, widths: seq<nat>)
    requires |names| == |widths| && Alike(s, Layout(names, widths)) && !AllHidden(s)
    ensures exists i :: 0 <= i < |names| && names[i] != ""
  {
    if forall i :: 0 <= i < |names| ==> names[i] == "" {
      forall i | 0 <= i < |s|
        ensures s[i] <= ' '
      {
        NoNames(names, widths, i);
        assert CharAt(s, i) == CharAt(Layout(names, widths), i);
      }
    }
  }

  lemma {:induction false} NoNames(names: seq<string>, widths: seq<nat>, i: nat)
    requires |names| == |widths| && forall k :: 0 <= k < |names| ==> names[k] == ""
    ensures CharAt(Layout(names, widths), i) == ' '
    decreases names
  {
    if |names| > 1 {
      if i >= widths[0] {
        NoNames(names[1..], widths[1..], i - widths[0]);
      }
      LayoutStep(names, widths);
    }
  }

  // ----- what trimming and keys mean

  lemma {:induction false} TrimLeftSkips(front: string, s: string)
    requires AllHidden(front)
    ensures TrimLeft(front + s) == TrimLeft(s)
  {
    if front == "" {
      assert front + s == s;
    } else {
      TrimLeftSkips(front[1..], s);
      assert (front + s)[1..] == front[1..] + s;
    }
  }

  /** What cannot be seen around a text makes no difference to it when it is trimmed. */
  lemma TrimAround(front: string, s: string, back: string)
    requires AllHidden(front) && AllHidden(back)
    ensures Trim(front + s + back) == Trim(s)
  {
    TrimTail(front + s, back);
    TrimLeftSkips(front, s);
  }

  lemma {:induction false} LeftOfTrim(s: string)
    ensures exists front :: AllHidden(front) && front + TrimLeft(s) == s
  {
    if s != "" && s[0] <= ' ' {
      LeftOfTrim(s[1..]);
      var front :| AllHidden(front) && front + TrimLeft(s[1..]) == s[1..];
      HiddenBefore(s, front);
    } else {
      assert AllHidden("") && "" + s == s;
    }
  }

  lemma HiddenBefore(s: string, front: string)
    requires s != "" && s[0] <= ' ' && AllHidden(front) && front + TrimLeft(s[1..]) == s[1..]
    ensures AllHidden([s[0]] + front) && [s[0]] + front + TrimLeft(s) == s
  {
    var left := TrimLeft(s);
    assert left == TrimLeft(s[1..]);
    hide TrimLeft;
    assert [s[0]] + front + left == [s[0]] + (front + left);
    assert s == [s[0]] + s[1..];
  }

  /** `front` and `back` are what trimming cuts off. */
  ghost predicate CutsOff(s: string, front: string, back: string) {
    AllHidden(front) && AllHidden(back) && s == front + Trim(s) + back
  }

  /** Trimming cuts off what cannot be seen at the two ends, and all of it: what is left, if anything, begins and ends
      with characters that can be seen. */
  lemma TrimMeans(s: string)
    ensures exists front, back :: CutsOff(s, front, back)
    ensures Trim(s) != "" ==> Trim(s)[0] > ' ' && Trim(s)[|Trim(s)| - 1] > ' '
  {
    LeftOfTrim(s);
    var front :| AllHidden(front) && front + TrimLeft(s) == s;
    RightOfTrim(TrimLeft(s));
    var back :| AllHidden(back) && TrimRight(TrimLeft(s)) + back == TrimLeft(s);
    assert front + Trim(s) + back == s;
    assert CutsOff(s, front, back);
    TrimmedEnds(s);
  }

  lemma VisibleUntrimmed(s: string)
    requires s != "" ==> s[0] > ' ' && s[|s| - 1] > ' '
    ensures Trim(s) == s
  {
    if s != "" {
      TrimUnneeded(s);
    }
  }

  lemma WithoutStep(s: string, c: char)
    requires s != ""
    ensures Without(s, c) == (if s[0] == c then "" else [s[0]]) + Without(s[1..], c)
  {
  }

  lemma {:induction false} WithoutConcat(a: string, b: string, c: char)
    ensures Without(a + b, c) == Without(a, c) + Without(b, c)
  {
    if a == "" {
      assert a + b == b;
    } else {
      hide Without;
      WithoutConcat(a[1..], b, c);
      WithoutStep(a, c);
      WithoutStep(a + b, c);
      assert (a + b)[1..] == a[1..] + b;
      Regroup(if a[0] == c then "" else [a[0]], Without(a[1..], c), Without(b, c));
    }
  }

  lemma {:induction false} WithoutAbsent(s: string, c: char)
    requires c !in s
    ensures Without(s, c) == s
  {
    if s != "" {
      assert s == [s[0]] + s[1..];
      WithoutAbsent(s[1..], c);
    }
  }

  lemma HiddenHas(s: string, c: char)
    requires AllHidden(s) && c > ' '
    ensures c !in s
  {
  }

  /** A cut has the key of what can be seen of it. */
  lemma KeyOfTrimmed(slice: string)
    ensures KeyOf(slice) == KeyOf(Trim(slice))
  {
    hide Trim, Without, Replaced;
    TrimMeans(slice);
    var t := Trim(slice);
    var front, back :| CutsOff(slice, front, back);
    TrimTwice(slice);
    TrimKeeps(slice, '-');
    TrimKeeps(slice, '/');
    if '-' in slice {
      HiddenHas(front, '-');
      HiddenHas(back, '-');
      ReplacedAround(front, t, back);
      TrimAround(front, Replaced(t, '-', '_'), back);
    } else if '/' in slice {
      HiddenHas(front, '/');
      HiddenHas(back, '/');
      WithoutConcat(front + t, back, '/');
      WithoutConcat(front, t, '/');
      WithoutAbsent(front, '/');
      WithoutAbsent(back, '/');
      TrimAround(front, Without(t, '/'), back);
    }
  }

  lemma ReplacedAround(front: string, s: string, back: string)
    requires '-' !in front && '-' !in back
    ensures Replaced(front + s + back, '-', '_') == front + Replaced(s, '-', '_') + back
  {
    var all := front + s + back;
    forall i | 0 <= i < |all|
      ensures Replaced(all, '-', '_')[i] == (front + Replaced(s, '-', '_') + back)[i]
    {
      if i < |front| {
        assert front[i] in front;
      } else if i >= |front| + |s| {
        assert back[i - |front| - |s|] in back;
      }
    }
  }

  /** A text with the slashes left out, told from its end. */
  function NoSlashes(s: string): string {
    if s == "" then "" else NoSlashes(s[..|s| - 1]) + if s[|s| - 1] == '/' then "" else [s[|s| - 1]]
  }

  lemma {:induction false} WithoutIs(s: string)
    ensures Without(s, '/') == NoSlashes(s)
  {
    if s != "" {
      WithoutIs(s[..|s| - 1]);
      WithoutConcat(s[..|s| - 1], [s[|s| - 1]], '/');
      assert s == s[..|s| - 1] + [s[|s| - 1]];
      assert [s[|s| - 1]][1..] == "";
    }
  }

  /** The key of what can be seen of a cut: with dashes, the same text with underscores in their place; the two names that
      have a key of their own; with slashes, the text without them; and else the text itself. */
  lemma KeyMeans(slice: string)
    ensures var t, key := Trim(slice), KeyOf(slice);
            if '-' in t then |key| == |t| && forall i :: 0 <= i < |t| ==> key[i] == if t[i] == '-' then '_' else t[i]
            else if t == "STRUCTURE NAME" then key == "STRUCTURE_NAME"
            else if t == "GROUP/MEMBER" then key == "MEMBER"
            else if '/' in t then key == Trim(NoSlashes(t))
            else key == t
  {
    hide Trim, Without;
    KeyOfTrimmed(slice);
    TrimTwice(slice);
    var t := Trim(slice);
    TrimmedEnds(slice);
    if '-' in t {
      VisibleUntrimmed(Replaced(t, '-', '_'));
    } else if t == "STRUCTURE NAME" {
      VisibleUntrimmed("STRUCTURE_NAME");
    } else if t == "GROUP/MEMBER" {
      VisibleUntrimmed("MEMBER");
    } else {
      WithoutIs(t);
    }
  }

  /** The keys of the names that are not empty. */
  function NamedKeys(names: seq<string>): seq<string> {
    if names == [] then [] else (if names[0] == "" then [] else [KeyOf(names[0])]) + NamedKeys(names[1..])
  }

  lemma {:induction false} KeysOfNames(slices: seq<string>)
    ensures KeysOf(slices) == NamedKeys(Trimmed(slices))
  {
    hide KeyOf, Trim;
    if slices != [] {
      KeysOfNames(slices[1..]);
      KeyOfTrimmed(slices[0]);
      assert Trimmed(slices)[1..] == Trimmed(slices[1..]);
    }
  }

  /** Names laid out in the columns of a header text are its keys. */
  lemma KeysOfLayout(text: string, names: seq<string>, widths: seq<nat>)
    requires |names| == |widths| && Fit(names, widths) && Alike(text, Layout(names, widths))
    ensures KeysOf(Slices(text, widths)) == NamedKeys(names)
  {
    hide Trim, Alike, Layout, Fit, KeysOf, NamedKeys, Slices, ValuesFor;
    KeysOfNames(Slices(text, widths));
    SlicesAreValues(text, widths);
    FittingValuesAreRead(text, names, widths, |widths|);
    assert names + seq(0, i => "") == names;
  }
}
