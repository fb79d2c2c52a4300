/** What the sanitising serializers reveal: their output is the plain output of a redacted tree, at every depth. */
module Redaction {
  import opened JsonNumbers
  import opened JsonPrinter
  import opened JsonValues
  import opened Sanitizer
  import opened StandardJson

  /** The tree with the value of every entry whose key contains "password" replaced by the mask. */
  function Redact(v: Json): Json
    decreases v, 1
  {
    match v
    case Arr(es) => Arr(RedactElements(es))
    case Obj(ms) => Obj(RedactMembers(ms))
    case _ => v
  }

  function RedactElements(es: seq<Json>): (rs: seq<Json>)
    ensures |rs| == |es| && forall i :: 0 <= i < |es| ==> rs[i] == Redact(es[i])
    decreases es, 0
  {
    if es == [] then [] else [Redact(es[0])] + RedactElements(es[1..])
  }

  function RedactMembers(ms: seq<Member>): (rs: seq<Member>)
    ensures |rs| == |ms| && forall i :: 0 <= i < |ms| ==> rs[i] == RedactMember(ms[i])
    decreases ms, 0
  {
    if ms == [] then [] else [RedactMember(ms[0])] + RedactMembers(ms[1..])
  }

  function RedactMember(m: Member): Member
    decreases m, 2
  {
    Member(m.key, if Secret(m.key) then Str(MASK) else Redact(m.value))
  }

  ghost predicate Sanitizing(style: Style) {
    BlankHooks(style) && style.sanitizing
  }

  function Unsanitized(style: Style): Style {
    style.(sanitizing := false)
  }

  /** The overriding `writeObject`, reached again for every nested object, prints what the plain one prints for the
      redacted tree. */
  lemma {:induction false} SanitizedText(v: Json, style: Style, depth: nat)
    requires style.sanitizing
    ensures Text(v, style, depth) == Text(Redact(v), Unsanitized(style), depth)
    decreases v, 1
  {
    match v {
      case Arr(es) => SanitizedElements(es, style, depth + 1);
      case Obj(ms) => SanitizedMembers(ms, style, depth + 1);
      case _ =>
    }
  }

  lemma {:induction false} SanitizedElements(es: seq<Json>, style: Style, depth: nat)
    requires style.sanitizing
    ensures ElementsText(es, style, depth) == ElementsText(RedactElements(es), Unsanitized(style), depth)
    decreases es, 0
  {
    if es != [] {
      SanitizedText(es[0], style, depth);
      SanitizedElements(es[1..], style, depth);
      assert RedactElements(es)[1..] == RedactElements(es[1..]);
    }
  }

  lemma {:induction false} SanitizedMembers(ms: seq<Member>, style: Style, depth: nat)
    requires style.sanitizing
    ensures MembersText(ms, style, depth) == MembersText(RedactMembers(ms), Unsanitized(style), depth)
    decreases ms, 0
  {
    if ms != [] {
      var m, plain := ms[0], Unsanitized(style);
      if Secret(m.key) {
        assert Text(Str(MASK), style, depth) == Quoted(MASK) == Text(Str(MASK), plain, depth);
      } else {
        SanitizedText(m.value, style, depth);
      }
      assert Cleansed(m.key, RedactMember(m).value, plain) == RedactMember(m).value;
      assert MemberText(m, |ms| > 1, style, depth) == MemberText(RedactMember(m), |ms| > 1, plain, depth);
      SanitizedMembers(ms[1..], style, depth);
      assert RedactMembers(ms)[1..] == RedactMembers(ms[1..]);
    }
  }

  /** The trees are alike except below entries whose key contains "password". */
  ghost predicate Agree(v: Json, w: Json)
    decreases v
  {
    if v.Arr? && w.Arr? then
      |v.elements| == |w.elements| && forall i :: 0 <= i < |v.elements| ==> Agree(v.elements[i], w.elements[i])
    else if v.Obj? && w.Obj? then
      && |v.members| == |w.members|
      && forall i :: 0 <= i < |v.members| ==>
           && v.members[i].key == w.members[i].key
           && (Secret(v.members[i].key) || Agree(v.members[i].value, w.members[i].value))
    else v == w
  }

  lemma {:induction false} AgreeMeansSameRedaction(v: Json, w: Json)
    ensures Agree(v, w) <==> Redact(v) == Redact(w)
    decreases v
  {
    if v.Arr? && w.Arr? {
      forall i | 0 <= i < |v.elements| && i < |w.elements|
        ensures Agree(v.elements[i], w.elements[i])
           <==> RedactElements(v.elements)[i] == RedactElements(w.elements)[i]
      {
        AgreeMeansSameRedaction(v.elements[i], w.elements[i]);
      }
    } else if v.Obj? && w.Obj? {
      forall i | 0 <= i < |v.members| && i < |w.members|
        ensures v.members[i].key == w.members[i].key
             && (Secret(v.members[i].key) || Agree(v.members[i].value, w.members[i].value))
           <==> RedactMembers(v.members)[i] == RedactMembers(w.members)[i]
      {
        AgreeMeansSameRedaction(v.members[i].value, w.members[i].value);
      }
    }
  }

  lemma {:induction false} RedactionKeepsNumbers(v: Json)
    requires Canonical(v)
    ensures Canonical(Redact(v))
    decreases v
  {
    hide Proper;
    match v {
      case Arr(es) =>
        forall i | 0 <= i < |es| { RedactionKeepsNumbers(es[i]); }
      case Obj(ms) =>
        forall i | 0 <= i < |ms| { RedactionKeepsNumbers(ms[i].value); }
      case _ =>
    }
  }

  lemma {:induction false} NulledAndRedacted(v: Json)
    ensures Nulled(Redact(v)) == Redact(Nulled(v))
    decreases v
  {
    hide Secret, RedactElements, RedactMembers, NulledElements, NulledMembers, RedactMember;
    match v {
      case Arr(es) =>
        forall i | 0 <= i < |es| { NulledAndRedacted(es[i]); }
        assert NulledElements(RedactElements(es)) == RedactElements(NulledElements(es));
      case Obj(ms) =>
        forall i | 0 <= i < |ms|
          ensures NulledMembers(RedactMembers(ms))[i] == RedactMembers(NulledMembers(ms))[i]
        {
          NulledAndRedacted(ms[i].value);
          NulledMember(ms[i]);
        }
        assert NulledMembers(RedactMembers(ms)) == RedactMembers(NulledMembers(ms));
      case _ =>
    }
  }

  lemma NulledMember(m: Member)
    requires Nulled(Redact(m.value)) == Redact(Nulled(m.value))
    ensures Member(RedactMember(m).key, Nulled(RedactMember(m).value)) == RedactMember(Member(m.key, Nulled(m.value)))
  {
    hide Redact, Secret;
  }

  /** Two trees are written alike by a sanitising serializer if and only if they agree outside password entries, null and
      numbers that are not finite taken as the same: nothing below such an entry shows, and nothing else is hidden. */
  lemma NothingElseIsHidden(v: Json, w: Json, style: Style, depth: nat)
    requires Sanitizing(style) && Canonical(v) && Canonical(w)
    ensures Text(v, style, depth) == Text(w, style, depth) <==> Agree(Nulled(v), Nulled(w))
    ensures Finite(v) && Finite(w) ==> (Text(v, style, depth) == Text(w, style, depth) <==> Agree(v, w))
  {
    hide Text, Redact, Nulled, Agree, Canonical, Finite;
    SanitizedText(v, style, depth);
    SanitizedText(w, style, depth);
    AgreeMeansSameRedaction(Nulled(v), Nulled(w));
    RedactionKeepsNumbers(v);
    RedactionKeepsNumbers(w);
    NulledAndRedacted(v);
    NulledAndRedacted(w);
    SameText(Redact(v), Redact(w), Unsanitized(style), depth);
    NulledIsFinite(v);
    NulledIsFinite(w);
  }

  /** Every entry of the tree whose key contains "password" holds the mask. */
  ghost predicate Masked(v: Json)
    decreases v
  {
    match v
    case Arr(es) => forall i :: 0 <= i < |es| ==> Masked(es[i])
    case Obj(ms) => forall i :: 0 <= i < |ms| ==>
                      if Secret(ms[i].key) then ms[i].value == Str(MASK) else Masked(ms[i].value)
    case _ => true
  }

  /** Redaction masks everything it should and changes nothing that was masked already. */
  lemma {:induction false} RedactionMasks(v: Json)
    ensures Masked(Redact(v))
    ensures Masked(v) <==> Redact(v) == v
    decreases v
  {
    match v {
      case Arr(es) =>
        forall i | 0 <= i < |es| { RedactionMasks(es[i]); }
      case Obj(ms) =>
        forall i | 0 <= i < |ms|
          ensures var r := RedactMembers(ms)[i];
                  if Secret(r.key) then r.value == Str(MASK) else Masked(r.value)
          ensures (if Secret(ms[i].key) then ms[i].value == Str(MASK) else Masked(ms[i].value))
             <==> RedactMembers(ms)[i] == ms[i]
        {
          RedactionMasks(ms[i].value);
        }
      case _ =>
    }
  }

  // ----- which keys, and what is written under them

  /** The letters of "password" stand somewhere in the key, each of them small or capital. */
  ghost predicate SaysPassword(key: Units) {
    exists i :: 0 <= i <= |key| - 8 && PasswordAt(key, i)
  }

  predicate PasswordAt(key: Units, i: int)
    requires 0 <= i <= |key| - 8
  {
    forall j :: 0 <= j < 8 ==> key[i + j] == "password"[j] as int || key[i + j] == "PASSWORD"[j] as int
  }

  lemma LettersMatch(key: Units, i: nat)
    requires i <= |key|
    ensures SECRET <= LowerCase(key)[i..] <==> i <= |key| - 8 && PasswordAt(key, i)
  {
    var tail := LowerCase(key)[i..];
    if i <= |key| - 8 {
      assert SECRET <= tail <==> forall j :: 0 <= j < 8 ==> tail[j] == SECRET[j];
      forall j | 0 <= j < 8
        ensures tail[j] == SECRET[j] <==> key[i + j] == "password"[j] as int || key[i + j] == "PASSWORD"[j] as int
      {
        assert tail[j] == LowerUnit(key[i + j]) && SECRET[j] == "password"[j] as int;
        OneLetter(key[i + j], j);
      }
    }
  }

  lemma OneLetter(u: Utf16, j: nat)
    requires j < 8
    ensures LowerUnit(u) == "password"[j] as int <==> u == "password"[j] as int || u == "PASSWORD"[j] as int
  {
  }

  /** The values that are hidden are those whose key says "password", in whatever case, and no others. */
  lemma SecretMeans(key: Units)
    ensures Secret(key) <==> SaysPassword(key)
  {
    hide LowerCase, PasswordAt;
    if Secret(key) {
      var i :| 0 <= i <= |LowerCase(key)| && SECRET <= LowerCase(key)[i..];
      LettersMatch(key, i);
    }
    if SaysPassword(key) {
      var i :| 0 <= i <= |key| - 8 && PasswordAt(key, i);
      LettersMatch(key, i);
    }
  }

  /** What a sanitising serializer writes for an entry: eight asterisks if the key says "password", and otherwise what
      it writes for the value. */
  lemma EntryWritten(m: Member, more: bool, style: Style, depth: nat)
    requires style.sanitizing
    ensures MemberText(m, more, style, depth) ==
            LineBreak(style, depth) + Quoted(m.key) + ":" + style.space
            + (if SaysPassword(m.key) then "\"********\"" else Text(m.value, style, depth))
            + if more then "," else ""
  {
    hide LineBreak, Quoted, Secret, SaysPassword;
    SecretMeans(m.key);
    MaskText(style, depth);
  }

  lemma MaskText(style: Style, depth: nat)
    ensures Text(Str(MASK), style, depth) == "\"********\""
  {
    Asterisks(8);
    assert MASK == seq(8, _ => 42);
  }

  lemma {:induction false} Asterisks(n: nat)
    ensures Escaped(seq(n, _ => 42)) == seq(n, _ => '*')
  {
    if n > 0 {
      Asterisks(n - 1);
      assert seq(n, _ => 42)[1..] == seq(n - 1, _ => 42);
      assert seq(n, _ => '*') == ['*'] + seq(n - 1, _ => '*');
    } else {
      assert seq(0, _ => '*') == "";
    }
  }
}
