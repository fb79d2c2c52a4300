/** Taking the command out of its `CMD(...)` wrapping by counting brackets. */
module EssentialCommand {
  import opened Brackets
  import opened Results

  /** Where the count, `count` before position `from`, first comes to 0. */
  function CloseAt(s: string, from: nat, count: int): (r: Option<nat>)
    requires from <= |s|
    ensures r.Some? ==> from <= r.value < |s|
    decreases |s| - from
  {
    if from == |s| then None
    else if count + Delta(s[from]) == 0 then Some(from)
    else CloseAt(s, from + 1, count + Delta(s[from]))
  }

  /** What `extractEssentialCommand` returns. */
  function Extracted(cmd: string): string {
    if |cmd| < 4 then Trim(cmd)
    else
      match CloseAt(cmd, 4, 1)
      case Some(i) => Trim(cmd[4..i])
      case None => Trim(cmd)
  }

  method ExtractEssentialCommand(cmd: string) returns (r: string)
    ensures r == Extracted(cmd)
  {
    var count := 1;
    var i := 4;
    while i < |cmd|
      invariant 4 <= i && (4 <= |cmd| ==> i <= |cmd|)
      invariant 4 <= |cmd| ==> CloseAt(cmd, 4, 1) == CloseAt(cmd, i, count)
    {
      if cmd[i] == '(' {
        count := count + 1;
      }
      if cmd[i] == ')' {
        count := count - 1;
      }
      if count == 0 {
        return Trim(cmd[4..i]);
      }
      i := i + 1;
    }
    return Trim(cmd);
  }

  // ----- where the count comes to zero

  lemma DepthStep(s: string, from: nat, k: nat)
    requires from < k <= |s|
    ensures Depth(s[from..k]) == Delta(s[from]) + Depth(s[from + 1..k])
  {
    assert s[from..k][1..] == s[from + 1..k];
  }

  /** The count is `count` plus the depth of what has been passed. */
  lemma {:induction false} CloseAtMeans(s: string, from: nat, count: int)
    requires from <= |s|
    ensures match CloseAt(s, from, count)
            case Some(i) =>
              && count + Depth(s[from..i + 1]) == 0
              && forall k :: from < k <= i ==> count + Depth(s[from..k]) != 0
            case None => forall k :: from < k <= |s| ==> count + Depth(s[from..k]) != 0
    decreases |s| - from
  {
    if from < |s| {
      var next := count + Delta(s[from]);
      assert s[from + 1..from + 1] == "";
      DepthStep(s, from, from + 1);
      if next != 0 {
        CloseAtMeans(s, from + 1, next);
        forall k | from < k <= |s|
          ensures count + Depth(s[from..k]) == next + Depth(s[from + 1..k])
        {
          DepthStep(s, from, k);
        }
      }
    }
  }

  /** A depth that starts at 0 and moves by one takes every value on its way down. */
  lemma {:induction false} FirstDip(s: string)
    requires !NeverDips(s)
    ensures exists k :: 0 < k <= |s| && Depth(s[..k]) == -1
  {
    var k :| 0 <= k <= |s| && Depth(s[..k]) < 0;
    while Depth(s[..k]) != -1
      invariant 0 <= k <= |s| && Depth(s[..k]) < 0
      decreases k
    {
      assert k > 0;
      assert s[..k] == s[..k - 1] + [s[k - 1]];
      DepthOfConcat(s[..k - 1], [s[k - 1]]);
      DepthOfOne(s[k - 1]);
      k := k - 1;
    }
    assert s[..0] == "";
  }

  lemma Wrapped(body: string, rest: string, k: nat)
    ensures var cmd := "CMD(" + body + ")" + rest;
            && (k <= |body| ==> cmd[4..4 + k] == body[..k])
            && cmd[4..4 + |body| + 1] == body + ")"
            && cmd[4 + |body|] == ')'
  {
  }

  /** The extractor gives back the wrapped text, trimmed, if and only if its brackets are balanced: whatever the
      text and whatever follows the wrapping. */
  lemma ExtractsExactlyBalanced(body: string, rest: string)
    ensures Extracted("CMD(" + body + ")" + rest) == Trim(body) <==> Balanced(body)
  {
    if Balanced(body) {
      ExtractsBalanced(body, rest);
    } else if !NeverDips(body) {
      StopsEarly(body, rest);
    } else {
      RunsOn(body, rest);
    }
  }

  lemma ExtractsBalanced(body: string, rest: string)
    requires Balanced(body)
    ensures Extracted("CMD(" + body + ")" + rest) == Trim(body)
  {
    var cmd := "CMD(" + body + ")" + rest;
    CloseAtMeans(cmd, 4, 1);
    Wrapped(body, rest, |body|);
    DepthOfConcat(body, ")");
    DepthOfOne(')');
    assert [')'] == ")";
    assert 1 + Depth(cmd[4..4 + |body| + 1]) == 0;
    forall k | 4 < k <= 4 + |body|
      ensures 1 + Depth(cmd[4..k]) > 0
    {
      Wrapped(body, rest, k - 4);
    }
    assert CloseAt(cmd, 4, 1) == Some(4 + |body|);
    assert body[..|body|] == body;
  }

  lemma StopsEarly(body: string, rest: string)
    requires !NeverDips(body)
    ensures Extracted("CMD(" + body + ")" + rest) != Trim(body)
  {
    var cmd := "CMD(" + body + ")" + rest;
    CloseAtMeans(cmd, 4, 1);
    FirstDip(body);
    var k :| 0 < k <= |body| && Depth(body[..k]) == -1;
    Wrapped(body, rest, k);
    var i := CloseAt(cmd, 4, 1).value;
    assert i < 4 + k;
    CutAtBracket(cmd, i);
    var cut := i - 4;
    Wrapped(body, rest, cut);
    assert cmd[i] == body[cut];
    assert body == body[..cut] + [')'] + body[cut + 1..];
    TrimGrows(body[..cut], ')', body[cut + 1..]);
  }

  lemma CutAtBracket(cmd: string, i: nat)
    requires 4 <= |cmd| && CloseAt(cmd, 4, 1) == Some(i)
    ensures cmd[i] == ')'
  {
    CloseAtMeans(cmd, 4, 1);
    assert cmd[4..i + 1] == cmd[4..i] + [cmd[i]];
    DepthOfConcat(cmd[4..i], [cmd[i]]);
    DepthOfOne(cmd[i]);
    StaysPositive(cmd, 4, 1, i);
  }

  /** Before it first comes to 0, a count that starts positive stays positive. */
  lemma {:induction false} StaysPositive(s: string, from: nat, count: int, i: nat)
    requires from <= i < |s| && count > 0 && CloseAt(s, from, count) == Some(i)
    ensures count + Depth(s[from..i]) > 0
    decreases |s| - from
  {
    if from == i {
      assert s[from..i] == "";
    } else {
      DepthStep(s, from, i);
      StaysPositive(s, from + 1, count + Delta(s[from]), i);
    }
  }

  lemma RunsOn(body: string, rest: string)
    requires NeverDips(body) && Depth(body) != 0
    ensures Extracted("CMD(" + body + ")" + rest) != Trim(body)
  {
    hide Trim, CloseAt;
    var cmd := "CMD(" + body + ")" + rest;
    match CloseAt(cmd, 4, 1) {
      case Some(i) =>
        ClosesLater(body, rest, i);
        LongerCut(body, rest, i);
      case None =>
        assert cmd == "CMD(" + body + [')'] + rest;
        TrimGrows("CMD(" + body, ')', rest);
        TrimWithPrefix(body);
    }
  }

  lemma LongerCut(body: string, rest: string, i: nat)
    requires var cmd := "CMD(" + body + ")" + rest; 4 + |body| < i <= |cmd|
    ensures |Trim(body)| < |Trim(("CMD(" + body + ")" + rest)[4..i])|
  {
    hide Trim;
    var cmd := "CMD(" + body + ")" + rest;
    var tail := cmd[4 + |body| + 1..i];
    Wrapped(body, rest, |body|);
    assert cmd[4..i] == cmd[4..4 + |body| + 1] + tail;
    assert ")" == [')'];
    TrimGrows(body, ')', tail);
  }

  lemma ClosesLater(body: string, rest: string, i: nat)
    requires NeverDips(body) && Depth(body) != 0
    requires CloseAt("CMD(" + body + ")" + rest, 4, 1) == Some(i)
    ensures 4 + |body| < i
  {
    var cmd := "CMD(" + body + ")" + rest;
    CloseAtMeans(cmd, 4, 1);
    assert [')'] == ")";
    DepthOfOne(')');
    DepthOfConcat(body, ")");
    Wrapped(body, rest, |body|);
    assert body[..|body|] == body;
    if i + 1 - 4 <= |body| {
      Wrapped(body, rest, i + 1 - 4);
    }
  }

  lemma TrimWithPrefix(body: string)
    ensures |Trim(body)| <= |Trim("CMD(" + body)|
  {
    var s := "CMD(" + body;
    assert s == "" + ['C'] + ("MD(" + body);
    assert "MD(" + body == "MD" + ['('] + body;
    TrimLeftStops("", 'C', "MD(" + body);
    TrimRightStops("CMD", '(', body);
    assert s == "CMD" + ['('] + body;
    TrimBothSides(body);
  }

  lemma {:induction false} TrimBothSides(body: string)
    ensures |Trim(body)| <= |TrimRight(body)|
    decreases |body|
  {
    if body != "" && body[0] <= ' ' {
      TrimBothSides(body[1..]);
      TrimRightTail(body);
    }
  }

  lemma {:induction false} TrimRightTail(s: string)
    requires s != ""
    ensures |TrimRight(s[1..])| <= |TrimRight(s)|
    decreases |s|
  {
    if s[|s| - 1] <= ' ' && |s| > 1 {
      TrimRightTail(s[..|s| - 1]);
      assert s[1..][..|s| - 2] == s[..|s| - 1][1..];
    }
  }

  /** A body that closes a bracket it did not open is cut there. */
  lemma UnbalancedIsCut()
    ensures !Balanced("A)(B") && Extracted("CMD(A)(B)ROUTE(C)") != "A)(B"
  {
    var body := "A)(B";
    hide Extracted, Trim;
    assert !Balanced(body) by {
      var start := ['A', ')'];
      assert body[..2] == start && start[1..] == [')'];
      DepthOfOne(')');
      assert Depth(body[..2]) == -1;
    }
    ExtractsExactlyBalanced(body, "ROUTE(C)");
    assert "CMD(" + body + ")" + "ROUTE(C)" == "CMD(A)(B)ROUTE(C)";
    TrimUnneeded(body);
  }

  /** A text whose first bracket, in its fourth place, is never closed comes back whole, trimmed; so does a shorter one. */
  lemma UnclosedIsTrimmed(cmd: string)
    requires |cmd| >= 4 ==> forall k :: 4 <= k <= |cmd| ==> 1 + Depth(cmd[4..k]) > 0
    ensures Extracted(cmd) == Trim(cmd)
  {
    hide Trim;
    if |cmd| >= 4 {
      CloseAtMeans(cmd, 4, 1);
    }
  }
}
