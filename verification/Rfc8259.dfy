/** A reader for RFC 8259, sections 2 to 7, written from the standard: what a strict JSON reader makes of a text.
    With `nul` it also takes backslash zero, which the standard does not list, for U+0000. */
module Rfc8259 {
  import opened JsonNumbers
  import opened JsonPrinter
  import opened JsonTokenizer
  import opened JsonValues
  import opened Numerals
  import opened Results

  type Read<+T> = Option<Lexed<T>>

  function SkipBlanks(s: string): (r: string)
    ensures |r| <= |s|
  {
    s[Span(s, IsBlank)..]
  }

  /** Section 3: the value a text starts with. */
  function ReadValue(s: string, nul: bool): (r: Read<Json>)
    ensures r.Some? ==> |r.value.rest| < |s|
    decreases |s|, 0
  {
    if s == "" then None
    else if s[0] == '[' then ReadArray(s, nul)
    else if s[0] == '{' then ReadObject(s, nul)
    else if s[0] == '\"' then
      var body :- ReadString(s[1..], nul, []);
      Some(Lexed(Str(body.value), body.rest))
    else if s[0] == '-' || '0' <= s[0] <= '9' then ReadNumber(s)
    else if "null" <= s then Some(Lexed(Null, s[4..]))
    else if "true" <= s then Some(Lexed(Bool(true), s[4..]))
    else if "false" <= s then Some(Lexed(Bool(false), s[5..]))
    else None
  }

  /** Section 5. */
  function ReadArray(s: string, nul: bool): (r: Read<Json>)
    requires s != ""
    ensures r.Some? ==> |r.value.rest| < |s|
    decreases |s| - 1, 3
  {
    var t := SkipBlanks(s[1..]);
    if t != "" && t[0] == ']' then Some(Lexed(Arr([]), t[1..])) else ReadElements(t, nul, [])
  }

  function ReadElements(s: string, nul: bool, read: seq<Json>): (r: Read<Json>)
    ensures r.Some? ==> |r.value.rest| < |s|
    decreases |s|, 1
  {
    var element :- ReadValue(s, nul);
    var t := SkipBlanks(element.rest);
    if t != "" && t[0] == ',' then ReadElements(SkipBlanks(t[1..]), nul, read + [element.value])
    else if t != "" && t[0] == ']' then Some(Lexed(Arr(read + [element.value]), t[1..]))
    else None
  }

  /** Section 4. */
  function ReadObject(s: string, nul: bool): (r: Read<Json>)
    requires s != ""
    ensures r.Some? ==> |r.value.rest| < |s|
    decreases |s| - 1, 3
  {
    var t := SkipBlanks(s[1..]);
    if t != "" && t[0] == '}' then Some(Lexed(Obj([]), t[1..])) else ReadMembers(t, nul, [])
  }

  function ReadMember(s: string, nul: bool): (r: Read<Member>)
    ensures r.Some? ==> |r.value.rest| < |s|
    decreases |s|, 1
  {
    if s == "" || s[0] != '\"' then None
    else
      var key :- ReadString(s[1..], nul, []);
      var t := SkipBlanks(key.rest);
      if t == "" || t[0] != ':' then None
      else
        var value :- ReadValue(SkipBlanks(t[1..]), nul);
        Some(Lexed(Member(key.value, value.value), value.rest))
  }

  function ReadMembers(s: string, nul: bool, read: seq<Member>): (r: Read<Json>)
    ensures r.Some? ==> |r.value.rest| < |s|
    decreases |s|, 2
  {
    var member :- ReadMember(s, nul);
    var t := SkipBlanks(member.rest);
    if t != "" && t[0] == ',' then ReadMembers(SkipBlanks(t[1..]), nul, read + [member.value])
    else if t != "" && t[0] == '}' then Some(Lexed(Obj(read + [member.value]), t[1..]))
    else None
  }

  /** Section 6: the longest run of number characters must be a number. */
  function ReadNumber(s: string): (r: Read<Json>)
    requires s != "" && (s[0] == '-' || '0' <= s[0] <= '9')
    ensures r.Some? ==> |r.value.rest| < |s|
  {
    var n := Span(s, IsNumberChar);
    var number :- NumberOf(s[..n]);
    Some(Lexed(Num(number), s[n..]))
  }

  /** Section 7: the rest of a string after its opening quote and the units already in `read`. */
  function ReadString(s: string, nul: bool, read: Units): (r: Read<Units>)
    ensures r.Some? ==> |r.value.rest| < |s|
    decreases |s|
  {
    if s == "" || s[0] < ' ' then None
    else if s[0] == '\"' then Some(Lexed(read, s[1..]))
    else if s[0] != '\\' then ReadString(s[1..], nul, read + Encoded(s[0]))
    else
      var escape :- ReadEscape(s[1..], nul);
      ReadString(escape.rest, nul, read + [escape.value])
  }

  /** A character in UTF-16, as section 2.1 of RFC 2781 has it: a surrogate pair for 0x10000 and above. */
  function Encoded(c: char): Units {
    var u := c as int;
    if u >= 0x1_0000 then [0xD7C0 + u / 0x400, 0xDC00 + u % 0x400] else [u]
  }

  /** The escapes of one letter: quotation mark, reverse solidus, solidus, and five control characters. */
  function OneLetter(c: char): Option<Utf16> {
    match c
    case '\"' => Some(0x22)
    case '\\' => Some(0x5C)
    case '/' => Some(0x2F)
    case 'b' => Some(0x08)
    case 'f' => Some(0x0C)
    case 'n' => Some(0x0A)
    case 'r' => Some(0x0D)
    case 't' => Some(0x09)
    case _ => None
  }

  function ReadEscape(s: string, nul: bool): (r: Read<Utf16>)
    ensures r.Some? ==> |r.value.rest| < |s|
  {
    if s == "" then None
    else if OneLetter(s[0]).Some? then Some(Lexed(OneLetter(s[0]).value, s[1..]))
    else if s[0] == '0' && nul then Some(Lexed(0, s[1..]))
    else if s[0] == 'u' && |s| >= 5 && AllDigits(s[1..5], 16) then Some(Lexed(Value(s[1..5], 16) % 0x1_0000, s[5..]))
    else None
  }
}
