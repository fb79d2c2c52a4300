/** Lists of words as text, and the buffer in which commands are built. */
module CommandText {
  import opened Sequences

  function Join(separator: string, items: seq<string>): string {
    if items == [] then ""
    else if |items| == 1 then items[0]
    else items[0] + separator + Join(separator, items[1..])
  }

  /** Every item followed by the separator, the last one too. */
  function Terminated(separator: string, items: seq<string>): string {
    if items == [] then "" else items[0] + separator + Terminated(separator, items[1..])
  }

  lemma {:induction false} TerminatedIsJoin(separator: string, items: seq<string>)
    requires items != []
    ensures Terminated(separator, items) == Join(separator, items) + separator
  {
    if |items| == 1 {
      assert Terminated(separator, items[1..]) == "";
    } else {
      TerminatedIsJoin(separator, items[1..]);
      Regroup(items[0] + separator, Join(separator, items[1..]), separator);
    }
  }

  /** `format`: a trailing comma or space is dropped. */
  function Formatted(s: string): string
    requires s != ""
  {
    if s[|s| - 1] == ',' || s[|s| - 1] == ' ' then s[..|s| - 1] else s
  }

  lemma FormattedSuffix(s: string, t: string)
    requires t != ""
    ensures s + t != "" && Formatted(s + t) == s + Formatted(t)
  {
    assert (s + t)[|s + t| - 1] == t[|t| - 1];
    assert (s + t)[..|s + t| - 1] == s + t[..|t| - 1];
  }

  class StringBuilder {
    var text: string

    constructor (text: string)
      ensures this.text == text
    {
      this.text := text;
    }

    method Append(s: string)
      modifies this
      ensures text == old(text) + s
    {
      text := text + s;
    }

    method DeleteLastChar()
      requires text != ""
      modifies this
      ensures text == old(text)[..|old(text)| - 1]
    {
      text := text[..|text| - 1];
    }

    method Format()
      requires text != ""
      modifies this
      ensures text == Formatted(old(text))
    {
      if text[|text| - 1] == ',' || text[|text| - 1] == ' ' {
        DeleteLastChar();
      }
    }

    /** The loop that writes a list with separators between its items. */
    method AppendJoined(separator: string, items: seq<string>)
      modifies this
      ensures text == old(text) + Join(separator, items)
    {
      var i := 0;
      assert items[0..] == items;
      while i < |items|
        invariant i <= |items|
        invariant text + Join(separator, items[i..]) == old(text) + Join(separator, items)
      {
        ghost var later := Join(separator, items[i + 1..]);
        assert items[i..][0] == items[i] && items[i..][1..] == items[i + 1..];
        Regroup(text, items[i], separator);
        Regroup(text, items[i] + separator, later);
        Append(items[i]);
        if i != |items| - 1 {
          Append(separator);
        }
        i := i + 1;
      }
      assert items[i..] == [];
    }
  }
}
