/** The JSON-able values: null, String, Boolean, Number, JSONObject and JSONArray. */
module JsonValues {
  import opened JsonNumbers

  /** A Java `char`: one UTF-16 code unit, lone surrogates included. */
  type Utf16 = u: int | 0 <= u < 0x1_0000

  /** A Java `String`. */
  type Units = seq<Utf16>

  datatype Member = Member(key: Units, value: Json)

  /** An object is the sequence of its entries in the order in which the serializer visits them. */
  datatype Json =
    | Null
    | Bool(b: bool)
    | Num(num: Number)
    | Str(s: Units)
    | Arr(elements: seq<Json>)
    | Obj(members: seq<Member>)
  {
    predicate Container() {
      Arr? || Obj?
    }
  }

  /** ASCII literals as Java strings. */
  function Ascii(s: string): (u: Units)
    requires forall i :: 0 <= i < |s| ==> s[i] < '\U{80}'
    ensures |u| == |s|
  {
    seq(|s|, i requires 0 <= i < |s| => s[i] as int)
  }

  function Keys(ms: seq<Member>): (keys: seq<Units>)
    ensures |keys| == |ms|
    ensures forall i :: 0 <= i < |ms| ==> keys[i] == ms[i].key
  {
    seq(|ms|, i requires 0 <= i < |ms| => ms[i].key)
  }

  ghost predicate Distinct<T(!new)>(s: seq<T>) {
    forall i, j :: 0 <= i < j < |s| ==> s[i] != s[j]
  }

  /** Every number of the tree is one that the number classes give. */
  ghost predicate Canonical(v: Json)
    decreases v
  {
    match v
    case Num(n) => Proper(n)
    case Arr(es) => forall i :: 0 <= i < |es| ==> Canonical(es[i])
    case Obj(ms) => forall i :: 0 <= i < |ms| ==> Canonical(ms[i].value)
    case _ => true
  }

  /** No object of the tree has two entries with the same key: what a map guarantees. */
  ghost predicate DistinctKeys(v: Json)
    decreases v
  {
    match v
    case Arr(es) => forall i :: 0 <= i < |es| ==> DistinctKeys(es[i])
    case Obj(ms) => Distinct(Keys(ms)) && forall i :: 0 <= i < |ms| ==> DistinctKeys(ms[i].value)
    case _ => true
  }

  /** No number of the tree is NaN or infinite. */
  ghost predicate Finite(v: Json)
    decreases v
  {
    match v
    case Num(n) => n.IsFinite()
    case Arr(es) => forall i :: 0 <= i < |es| ==> Finite(es[i])
    case Obj(ms) => forall i :: 0 <= i < |ms| ==> Finite(ms[i].value)
    case _ => true
  }
}
