/** Exactly which trees survive being written and parsed again. */
module JsonFidelity {
  import opened InsertionOrder
  import opened JsonNumbers
  import opened JsonParser
  import opened JsonPrinter
  import opened JsonRoundTrip
  import opened JsonTokenizer
  import opened JsonValues
  import opened Numerals
  import opened Results
  import opened StringRoundTrip
  import opened TokenRoundTrip

  /** Every string of the tree, keys included, is read back unchanged. */
  ghost predicate ReadableStrings(v: Json)
    decreases v
  {
    match v
    case Str(s) => Readable(s)
    case Arr(es) => forall i :: 0 <= i < |es| ==> ReadableStrings(es[i])
    case Obj(ms) => forall i :: 0 <= i < |ms| ==> Readable(ms[i].key) && ReadableStrings(ms[i].value)
    case _ => true
  }

  // ----- strings

  lemma {:induction false} ReadBackShrinks(u: Units)
    ensures |ReadBack(u)| <= |u|
    ensures ReadBack(u) == u <==> Readable(u)
    ensures !Readable(u) ==> |ReadBack(u)| < |u|
  {
    if u != [] {
      if u[0] == 0 && |u| > 1 && IsOctalUnit(u[1]) {
        ReadBackShrinks(u[2..]);
      } else {
        ReadBackShrinks(u[1..]);
        assert forall i :: 0 <= i < |u[1..]| ==> u[1..][i] == u[i + 1];
        assert Readable(u) <==> Readable(u[1..]) by {
          if Readable(u[1..]) {
            forall i | 0 < i < |u| && u[i - 1] == 0
              ensures !IsOctalUnit(u[i])
            {
              if i > 1 {
                assert u[1..][i - 2] == 0 && u[1..][i - 1] == u[i];
              }
            }
          }
        }
        assert u == [u[0]] + u[1..];
      }
    }
  }

  // ----- a measure that parsing never increases

  /** The number of code units in the strings of a tree, plus the number of its non-finite numbers. */
  function Weight(v: Json): nat
    decreases v, 1
  {
    match v
    case Num(n) => if n.IsFinite() then 0 else 1
    case Str(s) => |s|
    case Arr(es) => ElementsWeight(es)
    case Obj(ms) => MembersWeight(ms)
    case _ => 0
  }

  function ElementsWeight(es: seq<Json>): nat
    decreases es, 0
  {
    if es == [] then 0 else Weight(es[0]) + ElementsWeight(es[1..])
  }

  function MembersWeight(ms: seq<Member>): nat
    decreases ms, 0
  {
    if ms == [] then 0 else |ms[0].key| + Weight(ms[0].value) + MembersWeight(ms[1..])
  }

  lemma {:induction false} PutWeight(ms: seq<Member>, key: Units, value: Json)
    ensures MembersWeight(Put(ms, key, value)) <= MembersWeight(ms) + |key| + Weight(value)
  {
    if ms == [] {
      assert [Member(key, value)][1..] == [];
    } else if ms[0].key == key {
      assert ([Member(key, value)] + ms[1..])[1..] == ms[1..];
    } else {
      PutWeight(ms[1..], key, value);
      assert ([ms[0]] + Put(ms[1..], key, value))[1..] == Put(ms[1..], key, value);
    }
  }

  ghost predicate Survives(v: Json) {
    Finite(v) && ReadableStrings(v)
  }

  ghost predicate MemberSurvives(m: Member) {
    Readable(m.key) && Survives(m.value)
  }

  lemma {:induction false} LossIsWeighed(v: Json)
    ensures Weight(AsRead(v)) <= Weight(v)
    ensures !Survives(v) ==> Weight(AsRead(v)) < Weight(v)
    decreases v, 1
  {
    match v {
      case Str(s) => ReadBackShrinks(s);
      case Arr(es) => ElementsLoss(es);
      case Obj(ms) => MembersLoss([], ms);
      case _ =>
    }
  }

  lemma {:induction false} ElementsLoss(es: seq<Json>)
    ensures ElementsWeight(ElementsAsRead(es)) <= ElementsWeight(es)
    ensures !(forall i :: 0 <= i < |es| ==> Survives(es[i])) ==> ElementsWeight(ElementsAsRead(es)) < ElementsWeight(es)
    decreases es, 0
  {
    if es != [] {
      LossIsWeighed(es[0]);
      ElementsLoss(es[1..]);
      assert ElementsAsRead(es)[1..] == ElementsAsRead(es[1..]);
      assert forall i :: 0 < i < |es| ==> es[i] == es[1..][i - 1];
    }
  }

  lemma {:induction false} MembersLoss(read: seq<Member>, ms: seq<Member>)
    ensures MembersWeight(MembersAsRead(read, ms)) <= MembersWeight(read) + MembersWeight(ms)
    ensures !(forall i :: 0 <= i < |ms| ==> MemberSurvives(ms[i])) ==>
              MembersWeight(MembersAsRead(read, ms)) < MembersWeight(read) + MembersWeight(ms)
    decreases ms, 0
  {
    if ms != [] {
      var key, value := ReadBack(ms[0].key), AsRead(ms[0].value);
      ReadBackShrinks(ms[0].key);
      LossIsWeighed(ms[0].value);
      PutWeight(read, key, value);
      MembersLoss(Put(read, key, value), ms[1..]);
      assert forall i :: 0 < i < |ms| ==> ms[i] == ms[1..][i - 1];
    }
  }

  // ----- trees that come back unchanged

  lemma {:induction false} SurvivorsComeBack(v: Json)
    requires DistinctKeys(v) && Survives(v)
    ensures AsRead(v) == v
    decreases v, 1
  {
    match v {
      case Str(s) => ReadBackShrinks(s);
      case Arr(es) => ElementsComeBack(es);
      case Obj(ms) =>
        assert [] + ms == ms;
        MembersComeBack([], ms);
      case _ =>
    }
  }

  lemma {:induction false} ElementsComeBack(es: seq<Json>)
    requires forall i :: 0 <= i < |es| ==> DistinctKeys(es[i]) && Survives(es[i])
    ensures ElementsAsRead(es) == es
    decreases es, 0
  {
    if es != [] {
      SurvivorsComeBack(es[0]);
      ElementsComeBack(es[1..]);
      assert es == [es[0]] + es[1..];
    }
  }

  lemma {:induction false} MembersComeBack(read: seq<Member>, ms: seq<Member>)
    requires Distinct(Keys(read + ms))
    requires forall i :: 0 <= i < |ms| ==> DistinctKeys(ms[i].value) && MemberSurvives(ms[i])
    ensures MembersAsRead(read, ms) == read + ms
    decreases ms, 0
  {
    if ms == [] {
      assert read + [] == read;
    } else {
      ReadBackShrinks(ms[0].key);
      SurvivorsComeBack(ms[0].value);
      assert ms[0].key !in Keys(read) by {
        forall i | 0 <= i < |read|
          ensures Keys(read)[i] != ms[0].key
        {
          assert Keys(read + ms)[i] == Keys(read)[i] && Keys(read + ms)[|read|] == ms[0].key;
        }
      }
      PutNewKey(read, ms[0].key, ms[0].value);
      assert read + [ms[0]] + ms[1..] == read + ms;
      MembersComeBack(read + [ms[0]], ms[1..]);
    }
  }

  // ----- the round trip

  /** Whatever object is written, in any blank layout, the parser reads `AsRead` of it, unless it stops at a number that
      the tokenizer cannot convert. Of what follows it looks at one token only, and fails if that cannot be read. */
  lemma WrittenThenParsed(ms: seq<Member>, style: Style, depth: nat, rest: string)
    requires Plain(style) && Canonical(Obj(ms)) && EndsToken(rest)
    ensures ParseText(Text(Obj(ms), style, depth) + rest)
         == if !Legible(Obj(ms)) then Err(BadNumber)
            else if NextToken(rest).Ok? then Ok(AsRead(Obj(ms)))
            else Err(NextToken(rest).error)
  {
    var t := Text(Obj(ms), style, depth) + rest;
    ValueRead(Obj(ms), style, depth, rest);
    SkipBlank("", t);
    assert "" + t == t;
    assert t[0] == '{';
    Dispatch(t);
  }

  lemma WrittenAloneThenParsed(ms: seq<Member>, style: Style)
    requires Plain(style) && Canonical(Obj(ms))
    ensures ParseText(Text(Obj(ms), style, 0)) == if Legible(Obj(ms)) then Ok(AsRead(Obj(ms))) else Err(BadNumber)
  {
    hide ParseText, Text, AsRead, Plain, Canonical, Legible;
    WrittenThenParsed(ms, style, 0, "");
    assert Text(Obj(ms), style, 0) + "" == Text(Obj(ms), style, 0);
  }

  /** An object comes back unchanged if and only if each of its numbers is finite and is a 64-bit integer, or has a point,
      or has an exponent and no leading zero; and none of its strings has U+0000 right before an octal digit. */
  lemma RoundTrip(ms: seq<Member>, style: Style)
    requires Plain(style) && Canonical(Obj(ms)) && DistinctKeys(Obj(ms))
    ensures ParseText(Text(Obj(ms), style, 0)) == Ok(Obj(ms))
            <==> Finite(Obj(ms)) && Legible(Obj(ms)) && ReadableStrings(Obj(ms))
  {
    hide ParseText, Text, AsRead, Plain, Canonical, Legible, Weight;
    WrittenAloneThenParsed(ms, style);
    LossIsWeighed(Obj(ms));
    if Survives(Obj(ms)) {
      SurvivorsComeBack(Obj(ms));
    }
  }

  /** A serializer and then a parser, run one after the other. */
  method WriteAndParse(ms: seq<Member>, style: Style) returns (r: Result<Json, ReadError>)
    requires Plain(style) && Canonical(Obj(ms)) && DistinctKeys(Obj(ms))
    ensures r == if Legible(Obj(ms)) then Ok(AsRead(Obj(ms))) else Err(BadNumber)
    ensures r == Ok(Obj(ms)) <==> Finite(Obj(ms)) && Legible(Obj(ms)) && ReadableStrings(Obj(ms))
  {
    hide *;
    var serializer := new Serializer(style);
    serializer.WriteObject(ms);
    assert "" + Text(Obj(ms), style, 0) == Text(Obj(ms), style, 0);
    var parser := new Parser(serializer.written);
    r := parser.Parse();
    WrittenAloneThenParsed(ms, style);
    RoundTrip(ms, style);
  }

  /** The layout makes no difference to what is parsed. */
  lemma LayoutIsIrrelevant(ms: seq<Member>, style: Style)
    requires Plain(style) && Canonical(Obj(ms))
    ensures ParseText(Text(Obj(ms), style, 0)) == ParseText(Text(Obj(ms), COMPACT, 0))
  {
    WrittenAloneThenParsed(ms, style);
    StylesArePlain();
    WrittenAloneThenParsed(ms, COMPACT);
  }

  // ----- three objects that do not come back

  /** U+0000 followed by the digit 1 is written as \01 and comes back as U+0001. */
  lemma NulBeforeDigitIsLost()
    ensures ParseText(Text(Obj([Member([0, 49], Null)]), COMPACT, 0)) == Ok(Obj([Member([1], Null)]))
  {
    StylesArePlain();
    WrittenAloneThenParsed([Member([0, 49], Null)], COMPACT);
    hide Text, ParseText;
    OneMember([0, 49], Null);
  }

  lemma OneMember(key: Units, value: Json)
    ensures AsRead(Obj([Member(key, value)])) == Obj([Member(ReadBack(key), AsRead(value))])
    ensures ReadBack([0, 49]) == [1]
  {
    var ms := [Member(key, value)];
    assert ms[1..] == [];
    assert MembersAsRead([], ms) == MembersAsRead([Member(ReadBack(key), AsRead(value))], []);
    assert [0, 49][2..] == [];
  }

  /** Any integer beyond 64 bits, such as 2^63 held by a `BigInteger`, is written but cannot be parsed. */
  lemma BigIntegerIsRefused(key: Units, n: int, style: Style)
    requires Plain(style) && !(-0x8000_0000_0000_0000 <= n < 0x8000_0000_0000_0000)
    ensures Canonical(Obj([Member(key, Num(Decimal(LongText(n))))]))
    ensures ParseText(Text(Obj([Member(key, Num(Decimal(LongText(n))))]), style, 0)) == Err(BadNumber)
  {
    hide ParseText, Text, NumberOf, LongText;
    var ms := [Member(key, Num(Decimal(LongText(n))))];
    BigInteger(n);
    assert !Legible(ms[0].value);
    WrittenAloneThenParsed(ms, style);
  }

  lemma BigInteger(n: int)
    requires !(-0x8000_0000_0000_0000 <= n < 0x8000_0000_0000_0000)
    ensures NumberOf(LongText(n)) == Some(Decimal(LongText(n))) && !Tokenizable(Decimal(LongText(n)))
  {
    var magnitude: nat := if n < 0 then -n else n;
    var digits, sign := Numeral(magnitude, 10), if n < 0 then "-" else "";
    NumeralDenotes(magnitude, 10);
    NumeralHead(magnitude, 10);
    DigitsOnly(digits);
    DigitsAreNumber(digits);
    hide Numeral, IsUnsignedNumber, AllDigits, DigitRun, Value, Magnitude, Unsigned;
    Signed(sign, digits);
    assert LongText(n) == sign + digits;
    InSigned(sign, digits, '.');
    InSigned(sign, digits, 'e');
    InSigned(sign, digits, 'E');
  }

  /** Zero with an exponent, as `new BigDecimal("0E+3")` prints it, is taken for the start of an octal number. */
  lemma ZeroWithExponentIsRefused(key: Units, style: Style)
    requires Plain(style)
    ensures Canonical(Obj([Member(key, Num(Decimal("0E+3")))]))
    ensures ParseText(Text(Obj([Member(key, Num(Decimal("0E+3")))]), style, 0)) == Err(BadNumber)
  {
    hide ParseText, Text, NumberOf;
    var ms := [Member(key, Num(Decimal("0E+3")))];
    ZeroWithExponent("0E+3");
    assert !Legible(ms[0].value);
    WrittenAloneThenParsed(ms, style);
  }

  lemma ZeroWithExponent(text: string)
    requires text == "0E+3"
    ensures NumberOf(text) == Some(Decimal(text)) && !Tokenizable(Decimal(text))
  {
    assert text == ['0'] + "E+3" && text[0] == '0';
    var exponent := text[1..];
    assert exponent == "E+3";
    assert IsExponent(exponent) by { assert exponent[1..] == "+3" && "+3"[1..] == "3" && "3"[1..] == ""; }
    hide IsExponent, Value;
    assert DigitRun(text) == 1 by { assert DigitRun(exponent) == 0; }
    assert IsUnsignedNumber(text);
    assert !AllDigits(text, 10) by { assert text[1] == 'E' && !IsDigit('E', 10); }
  }
}
