/** A reader of command texts: words, brackets and commas. */
module CommandTokens {
  import opened CommandReading
  import opened CommandText

  datatype Token = Word(text: string) | Open | Close | Comma

  predicate IsMark(c: char) {
    c == '(' || c == ')' || c == ',' || c == ' '
  }

  function WordEnd(s: string): (n: nat)
    ensures n <= |s|
    ensures forall i :: 0 <= i < n ==> !IsMark(s[i])
    ensures n < |s| ==> IsMark(s[n])
  {
    if s == "" || IsMark(s[0]) then 0 else 1 + WordEnd(s[1..])
  }

  /** The tokens of a text; blanks only separate words. */
  function Tokens(s: string): seq<Token>
    decreases |s|
  {
    if s == "" then []
    else if s[0] == ' ' then Tokens(s[1..])
    else if s[0] == '(' then [Open] + Tokens(s[1..])
    else if s[0] == ')' then [Close] + Tokens(s[1..])
    else if s[0] == ',' then [Comma] + Tokens(s[1..])
    else [Word(s[..WordEnd(s)])] + Tokens(s[WordEnd(s)..])
  }

  lemma {:induction false} WordEndIs(s: string, n: nat)
    requires n <= |s| && (forall i :: 0 <= i < n ==> !IsMark(s[i])) && (n < |s| ==> IsMark(s[n]))
    ensures WordEnd(s) == n
  {
    if n > 0 {
      WordEndIs(s[1..], n - 1);
    }
  }

  lemma MarkStep(s: string)
    requires s != "" && IsMark(s[0])
    ensures Tokens(s) == MarkTokens(s[0]) + Tokens(s[1..])
  {
  }

  function MarkTokens(c: char): seq<Token> {
    if c == '(' then [Open] else if c == ')' then [Close] else if c == ',' then [Comma] else []
  }

  lemma WordStep(s: string, n: nat)
    requires 0 < n <= |s| && (forall i :: 0 <= i < n ==> !IsMark(s[i])) && (n < |s| ==> IsMark(s[n]))
    ensures Tokens(s) == [Word(s[..n])] + Tokens(s[n..])
  {
    WordEndIs(s, n);
  }

  /** Where a text is cut before a mark, or after one, its tokens are cut too. */
  lemma {:induction false} TokensConcat(a: string, b: string)
    requires b == "" || IsMark(b[0]) || a == "" || IsMark(a[|a| - 1])
    ensures Tokens(a + b) == Tokens(a) + Tokens(b)
    decreases |a|
  {
    hide Tokens, WordEnd;
    if a == "" {
      assert a + b == b;
      NoTokens();
    } else if IsMark(a[0]) {
      MarkStep(a);
      MarkStep(a + b);
      assert (a + b)[1..] == a[1..] + b;
      TokensConcat(a[1..], b);
    } else {
      var n := WordEnd(a);
      FirstWord(a, b);
      WordStep(a, n);
      WordStep(a + b, n);
      assert (a + b)[..n] == a[..n] && (a + b)[n..] == a[n..] + b;
      TokensConcat(a[n..], b);
    }
  }

  lemma NoTokens()
    ensures Tokens("") == []
  {
  }

  lemma FirstWord(a: string, b: string)
    requires a != "" && !IsMark(a[0])
    requires b == "" || IsMark(b[0]) || IsMark(a[|a| - 1])
    ensures var n := WordEnd(a);
            && 0 < n && (n < |a + b| ==> IsMark((a + b)[n]))
            && (b == "" || IsMark(b[0]) || a[n..] == "" || IsMark(a[n..][|a[n..]| - 1]))
  {
    var n := WordEnd(a);
    if n < |a| {
      assert (a + b)[n] == a[n] && a[n..][|a[n..]| - 1] == a[|a| - 1];
    } else {
      assert !IsMark(a[|a| - 1]);
      assert b != "" ==> (a + b)[n] == b[0];
    }
  }

  lemma TokensOfMarks()
    ensures Tokens("") == [] && Tokens(" ") == [] && Tokens("(") == [Open] && Tokens(")") == [Close] && Tokens(",") == [Comma]
    ensures Tokens(", ") == [Comma]
  {
    assert " "[1..] == "" && "("[1..] == "" && ")"[1..] == "" && ","[1..] == "" && ", "[1..] == " ";
  }

  /** A word is one token. */
  lemma TokensOfWord(s: string)
    requires CleanName(s)
    ensures Tokens(s) == [Word(s)]
  {
    forall i | 0 <= i < |s|
      ensures !IsMark(s[i])
    {
      assert s[i] in s;
    }
    WordEndIs(s, |s|);
    assert s[..|s|] == s && s[|s|..] == "";
  }

  /** What stands before a bracket and in it. */
  lemma TokensOfBracket(front: string, inner: string)
    ensures Tokens(front + "(" + inner + ")") == Tokens(front) + [Open] + Tokens(inner) + [Close]
  {
    hide Tokens;
    TokensOfMarks();
    TokensConcat(front, "(");
    TokensConcat(front + "(", inner);
    TokensConcat(front + "(" + inner, ")");
  }

  /** Things with commas between them. */
  function Listed(items: seq<seq<Token>>): seq<Token> {
    if items == [] then []
    else if |items| == 1 then items[0]
    else items[0] + [Comma] + Listed(items[1..])
  }

  lemma {:induction false} TokensOfJoin(separator: string, items: seq<string>, tokens: seq<seq<Token>>)
    requires separator == "," || separator == ", "
    requires |items| == |tokens| && forall i :: 0 <= i < |items| ==> Tokens(items[i]) == tokens[i]
    ensures Tokens(Join(separator, items)) == Listed(tokens)
    decreases |items|
  {
    hide Tokens;
    TokensOfMarks();
    if |items| > 1 {
      TokensOfJoin(separator, items[1..], tokens[1..]);
      TokensConcat(items[0], separator);
      TokensConcat(items[0] + separator, Join(separator, items[1..]));
    }
  }
}
