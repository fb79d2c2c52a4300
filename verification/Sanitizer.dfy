/** Which values are hidden when a JSON object is written for a log. */
module Sanitizer {
  import opened JsonValues
  import opened Sequences

  const MASK := Ascii("********")
  const SECRET := Ascii("password")

  /** `toLowerCase(Locale.ENGLISH)` as far as a search for "password" can tell: the only characters whose lower
      case is one of the ASCII letters p, a, s, w, o, r, d are those letters and their ASCII capitals. */
  function LowerCase(u: Units): (r: Units)
    ensures |r| == |u|
  {
    seq(|u|, i requires 0 <= i < |u| => LowerUnit(u[i]))
  }

  function LowerUnit(u: Utf16): Utf16 {
    if 'A' as int <= u <= 'Z' as int then u + 32 else u
  }

  predicate Secret(key: Units) {
    Contains(LowerCase(key), SECRET)
  }

  function Sanitize(key: Units, value: Json): Json {
    if Secret(key) then Str(MASK) else value
  }
}
