/** Bracket depth of a text, and Java's `trim`. */
module Brackets {

  function Delta(c: char): int {
    if c == '(' then 1 else if c == ')' then -1 else 0
  }

  /** How many brackets a text leaves open. */
  function Depth(s: string): int {
    if s == "" then 0 else Delta(s[0]) + Depth(s[1..])
  }

  /** No bracket is closed before it is opened. */
  ghost predicate NeverDips(s: string) {
    forall k :: 0 <= k <= |s| ==> Depth(s[..k]) >= 0
  }

  ghost predicate Balanced(s: string) {
    NeverDips(s) && Depth(s) == 0
  }

  lemma {:induction false} DepthOfConcat(s: string, t: string)
    ensures Depth(s + t) == Depth(s) + Depth(t)
  {
    if s == "" {
      assert s + t == t;
    } else {
      DepthOfConcat(s[1..], t);
      assert (s + t)[1..] == s[1..] + t;
    }
  }

  lemma NeverDipsConcat(s: string, t: string)
    requires NeverDips(s) && forall k :: 0 <= k <= |t| ==> Depth(s) + Depth(t[..k]) >= 0
    ensures NeverDips(s + t)
  {
    forall k | 0 <= k <= |s + t|
      ensures Depth((s + t)[..k]) >= 0
    {
      if k <= |s| {
        assert (s + t)[..k] == s[..k];
      } else {
        assert (s + t)[..k] == s + t[..k - |s|];
        DepthOfConcat(s, t[..k - |s|]);
      }
    }
  }

  lemma BalancedConcat(s: string, t: string)
    requires Balanced(s) && Balanced(t)
    ensures Balanced(s + t)
  {
    NeverDipsConcat(s, t);
    DepthOfConcat(s, t);
  }

  lemma BalancedNesting(s: string)
    requires Balanced(s)
    ensures Balanced("(" + s + ")")
  {
    DepthOfOne('(');
    DepthOfOne(')');
    assert "(" == ['('] && ")" == [')'];
    forall k | 0 <= k <= |s|
      ensures Depth("(") + Depth(s[..k]) >= 0
    {
    }
    NeverDipsOpen();
    NeverDipsConcat("(", s);
    DepthOfConcat("(", s);
    forall k | 0 <= k <= |")"|
      ensures Depth("(" + s) + Depth(")"[..k]) >= 0
    {
      if k == 0 {
        assert ")"[..0] == "";
      } else {
        assert ")"[..1] == ")";
      }
    }
    NeverDipsConcat("(" + s, ")");
    DepthOfConcat("(" + s, ")");
  }

  lemma NeverDipsOpen()
    ensures NeverDips("(")
  {
    forall k | 0 <= k <= |"("|
      ensures Depth("("[..k]) >= 0
    {
      if k == 0 {
        assert "("[..0] == "";
      } else {
        assert "("[..1] == "(";
        DepthOfOne('(');
      }
    }
  }

  lemma DepthOfOne(c: char)
    ensures Depth([c]) == Delta(c)
  {
    assert [c][1..] == "";
  }

  /** A text without brackets. */
  predicate Flat(s: string) {
    forall i :: 0 <= i < |s| ==> s[i] != '(' && s[i] != ')'
  }

  lemma {:induction false} FlatIsBalanced(s: string)
    requires Flat(s)
    ensures Balanced(s)
  {
    FlatDepth(s);
    forall k | 0 <= k <= |s|
      ensures Depth(s[..k]) >= 0
    {
      FlatDepth(s[..k]);
    }
  }

  lemma {:induction false} FlatDepth(s: string)
    requires Flat(s)
    ensures Depth(s) == 0
  {
    if s != "" {
      FlatDepth(s[1..]);
    }
  }

  // ----- trim

  function TrimLeft(s: string): (r: string)
    ensures |r| <= |s|
  {
    if s != "" && s[0] <= ' ' then TrimLeft(s[1..]) else s
  }

  function TrimRight(s: string): (r: string)
    ensures |r| <= |s|
  {
    if s != "" && s[|s| - 1] <= ' ' then TrimRight(s[..|s| - 1]) else s
  }

  /** `String.trim`: characters up to the space are cut off both ends. */
  function Trim(s: string): string {
    TrimRight(TrimLeft(s))
  }

  lemma {:induction false} TrimLeftStops(a: string, c: char, t: string)
    requires c > ' '
    ensures TrimLeft(a + [c] + t) == TrimLeft(a) + [c] + t
  {
    var s := a + [c] + t;
    if a != "" && a[0] <= ' ' {
      TrimLeftStops(a[1..], c, t);
      assert s[1..] == a[1..] + [c] + t;
    } else {
      assert s[0] == if a == "" then c else a[0];
    }
  }

  lemma {:induction false} TrimRightStops(a: string, c: char, t: string)
    requires c > ' '
    ensures TrimRight(a + [c] + t) == a + [c] + TrimRight(t)
    decreases |t|
  {
    var s := a + [c] + t;
    if t != "" && t[|t| - 1] <= ' ' {
      TrimRightStops(a, c, t[..|t| - 1]);
      assert s[..|s| - 1] == a + [c] + t[..|t| - 1];
    } else {
      assert s[|s| - 1] == if t == "" then c else t[|t| - 1];
    }
  }

  /** Going on past a visible character makes the trimmed text longer. */
  lemma TrimGrows(a: string, c: char, t: string)
    requires c > ' '
    ensures |Trim(a)| < |Trim(a + [c] + t)|
  {
    TrimLeftStops(a, c, t);
    TrimRightStops(TrimLeft(a), c, t);
  }

  lemma TrimUnneeded(s: string)
    requires s != "" && s[0] > ' ' && s[|s| - 1] > ' '
    ensures Trim(s) == s
  {
  }
}
