/** Association lists in order of first insertion: the meaning of an ordered JSON object. */
module InsertionOrder {
  import opened JsonValues
  import opened Results

  /** An existing key keeps its place and gets the new value; a new key goes to the end. */
  function Put(ms: seq<Member>, key: Units, value: Json): seq<Member> {
    if ms == [] then [Member(key, value)]
    else if ms[0].key == key then [Member(key, value)] + ms[1..]
    else [ms[0]] + Put(ms[1..], key, value)
  }

  function Remove(ms: seq<Member>, key: Units): seq<Member> {
    if ms == [] then []
    else if ms[0].key == key then ms[1..]
    else [ms[0]] + Remove(ms[1..], key)
  }

  lemma {:induction false} PutNewKey(ms: seq<Member>, key: Units, value: Json)
    requires key !in Keys(ms)
    ensures Put(ms, key, value) == ms + [Member(key, value)]
  {
    if ms != [] {
      assert ms[0].key == Keys(ms)[0];
      assert forall i :: 0 <= i < |ms[1..]| ==> Keys(ms[1..])[i] == Keys(ms)[i + 1];
      PutNewKey(ms[1..], key, value);
    }
  }

  lemma {:induction false} PutOldKey(ms: seq<Member>, key: Units, value: Json, i: nat)
    requires Distinct(Keys(ms)) && i < |ms| && ms[i].key == key
    ensures Put(ms, key, value) == ms[i := Member(key, value)]
  {
    hide Distinct, Keys;
    KeysOfTail(ms);
    if i == 0 {
      assert ms[0 := Member(key, value)] == [Member(key, value)] + ms[1..];
    } else {
      FirstKeyDiffers(ms, i);
      assert ms[i := Member(key, value)] == [ms[0]] + ms[1..][i - 1 := Member(key, value)];
      PutOldKey(ms[1..], key, value, i - 1);
    }
  }

  lemma {:induction false} RemoveOldKey(ms: seq<Member>, key: Units, i: nat)
    requires Distinct(Keys(ms)) && i < |ms| && ms[i].key == key
    ensures Remove(ms, key) == ms[..i] + ms[i + 1..]
  {
    hide Distinct, Keys;
    KeysOfTail(ms);
    if i > 0 {
      FirstKeyDiffers(ms, i);
      RemoveOldKey(ms[1..], key, i - 1);
      assert [ms[0]] + (ms[1..][..i - 1] + ms[1..][i..]) == ms[..i] + ms[i + 1..];
    }
  }

  lemma {:induction false} RemoveNoKey(ms: seq<Member>, key: Units)
    requires key !in Keys(ms)
    ensures Remove(ms, key) == ms
  {
    if ms != [] {
      KeysOfTail(ms);
      assert ms[0].key == Keys(ms)[0];
      RemoveNoKey(ms[1..], key);
    }
  }

  lemma FirstKeyDiffers(ms: seq<Member>, i: nat)
    requires Distinct(Keys(ms)) && 0 < i < |ms|
    ensures ms[0].key != ms[i].key
  {
    assert Keys(ms)[0] != Keys(ms)[i];
  }

  lemma KeysOfTail(ms: seq<Member>)
    requires ms != []
    ensures Keys(ms[1..]) == Keys(ms)[1..]
    ensures Distinct(Keys(ms)) ==> Distinct(Keys(ms[1..]))
  {
  }

  // ----- runs

  datatype Operation = PutEntry(key: Units, value: Json) | RemoveEntry(key: Units) | Clear

  function Apply(ms: seq<Member>, op: Operation): seq<Member> {
    match op
    case PutEntry(key, value) => Put(ms, key, value)
    case RemoveEntry(key) => Remove(ms, key)
    case Clear => []
  }

  function Run(ms: seq<Member>, ops: seq<Operation>): seq<Member> {
    if ops == [] then ms else Apply(Run(ms, ops[..|ops| - 1]), ops[|ops| - 1])
  }

  /** When `key` was first put since it was last removed: the index of that operation, if the key is there at all. */
  function Born(ops: seq<Operation>, key: Units): (r: Option<nat>)
    ensures r.Some? ==> r.value < |ops|
  {
    if ops == [] then None
    else
      var before, last := Born(ops[..|ops| - 1], key), ops[|ops| - 1];
      if last.Clear? || (last.RemoveEntry? && last.key == key) then None
      else if last.PutEntry? && last.key == key && before.None? then Some(|ops| - 1)
      else before
  }

  /** The value last put under `key`. */
  function LastPut(ops: seq<Operation>, key: Units): Json {
    if ops == [] then Null
    else
      var last := ops[|ops| - 1];
      if last.PutEntry? && last.key == key then last.value else LastPut(ops[..|ops| - 1], key)
  }

  /** The list a run from the empty object must produce, told from the history alone: exactly the keys that were put
      since their last removal, in the order of those puts, each with the value last put. */
  ghost predicate Chronicle(ms: seq<Member>, ops: seq<Operation>) {
    && (forall i :: 0 <= i < |ms| ==> Born(ops, ms[i].key).Some? && ms[i].value == LastPut(ops, ms[i].key))
    && (forall i, j :: 0 <= i < j < |ms| ==> Earlier(ops, ms[i].key, ms[j].key))
    && (forall key :: Born(ops, key).Some? ==> key in Keys(ms))
  }

  ghost predicate Earlier(ops: seq<Operation>, key: Units, other: Units) {
    Born(ops, key).Some? && Born(ops, other).Some? && Born(ops, key).value < Born(ops, other).value
  }

  /** Every run from the empty object gives exactly the list its history tells, and no key twice. */
  lemma {:induction false} RunIsChronicle(ops: seq<Operation>)
    ensures Chronicle(Run([], ops), ops)
    ensures Distinct(Keys(Run([], ops)))
  {
    if ops != [] {
      var n := |ops| - 1;
      RunIsChronicle(ops[..n]);
      ChronicleStep(Run([], ops[..n]), ops);
      ChronicleIsDistinct(Run([], ops), ops);
    }
  }

  lemma ChronicleIsDistinct(ms: seq<Member>, ops: seq<Operation>)
    requires Chronicle(ms, ops)
    ensures Distinct(Keys(ms))
  {
    forall i, j | 0 <= i < j < |ms|
      ensures Keys(ms)[i] != Keys(ms)[j]
    {
      assert Earlier(ops, ms[i].key, ms[j].key);
    }
  }

  lemma ChronicleStep(ms: seq<Member>, ops: seq<Operation>)
    requires ops != [] && Chronicle(ms, ops[..|ops| - 1])
    ensures Chronicle(Apply(ms, ops[|ops| - 1]), ops)
  {
    ChronicleIsDistinct(ms, ops[..|ops| - 1]);
    match ops[|ops| - 1] {
      case PutEntry(key, value) => ChroniclePut(ms, ops, key, value);
      case RemoveEntry(key) => ChronicleRemove(ms, ops, key);
      case Clear =>
    }
  }

  lemma ChroniclePut(ms: seq<Member>, ops: seq<Operation>, key: Units, value: Json)
    requires ops != [] && ops[|ops| - 1] == PutEntry(key, value)
    requires Chronicle(ms, ops[..|ops| - 1]) && Distinct(Keys(ms))
    ensures Chronicle(Put(ms, key, value), ops)
  {
    if key in Keys(ms) {
      var i :| 0 <= i < |ms| && Keys(ms)[i] == key;
      PutOldKey(ms, key, value, i);
      PutOldChronicle(ms, ops, i);
    } else {
      PutNewKey(ms, key, value);
      PutNewChronicle(ms, ops);
    }
  }

  /** An operation on one key leaves the history of every other key alone. */
  lemma OtherKeys(ops: seq<Operation>, key: Units)
    requires ops != [] && !ops[|ops| - 1].Clear? && ops[|ops| - 1].key == key
    ensures var past := ops[..|ops| - 1];
            forall k :: k != key ==> Born(ops, k) == Born(past, k) && LastPut(ops, k) == LastPut(past, k)
  {
  }

  lemma PutOldChronicle(ms: seq<Member>, ops: seq<Operation>, i: nat)
    requires ops != [] && ops[|ops| - 1].PutEntry?
    requires i < |ms| && ms[i].key == ops[|ops| - 1].key
    requires Chronicle(ms, ops[..|ops| - 1]) && Distinct(Keys(ms))
    ensures Chronicle(ms[i := Member(ms[i].key, ops[|ops| - 1].value)], ops)
  {
    var past, key, value := ops[..|ops| - 1], ms[i].key, ops[|ops| - 1].value;
    var r := ms[i := Member(key, value)];
    assert Born(ops, key) == Born(past, key) && LastPut(ops, key) == value;
    OtherKeys(ops, key);
    hide Born, LastPut;
    assert Keys(r) == Keys(ms);
    forall j | 0 <= j < |r|
      ensures Born(ops, r[j].key).Some? && r[j].value == LastPut(ops, r[j].key)
    {
      assert Keys(r)[j] == Keys(ms)[j];
      assert j != i ==> r[j] == ms[j] && Keys(ms)[j] != Keys(ms)[i];
    }
    forall j, k | 0 <= j < k < |r|
      ensures Earlier(ops, r[j].key, r[k].key)
    {
      assert Earlier(past, ms[j].key, ms[k].key);
    }
  }

  lemma PutNewChronicle(ms: seq<Member>, ops: seq<Operation>)
    requires ops != [] && ops[|ops| - 1].PutEntry?
    requires ops[|ops| - 1].key !in Keys(ms)
    requires Chronicle(ms, ops[..|ops| - 1]) && Distinct(Keys(ms))
    ensures Chronicle(ms + [Member(ops[|ops| - 1].key, ops[|ops| - 1].value)], ops)
  {
    var past, key, value := ops[..|ops| - 1], ops[|ops| - 1].key, ops[|ops| - 1].value;
    var r := ms + [Member(key, value)];
    assert Born(past, key).None?;
    assert Born(ops, key) == Some(|past|) && LastPut(ops, key) == value;
    OtherKeys(ops, key);
    assert forall k :: Born(past, k).Some? ==> Born(past, k).value < |past|;
    hide Born, LastPut;
    assert Keys(r) == Keys(ms) + [key];
    forall j | 0 <= j < |ms|
      ensures ms[j].key != key
    {
      assert Keys(ms)[j] == ms[j].key;
    }
    forall j, k | 0 <= j < k < |r|
      ensures Earlier(ops, r[j].key, r[k].key)
    {
      if k < |ms| {
        assert Earlier(past, ms[j].key, ms[k].key);
      }
    }
  }

  lemma ChronicleRemove(ms: seq<Member>, ops: seq<Operation>, key: Units)
    requires ops != [] && ops[|ops| - 1] == RemoveEntry(key)
    requires Chronicle(ms, ops[..|ops| - 1]) && Distinct(Keys(ms))
    ensures Chronicle(Remove(ms, key), ops)
  {
    if key in Keys(ms) {
      var i :| 0 <= i < |ms| && Keys(ms)[i] == key;
      RemoveOldKey(ms, key, i);
      RemoveAtChronicle(ms, ops, i);
    } else {
      RemoveNoKey(ms, key);
      assert Born(ops[..|ops| - 1], key).None?;
      OtherKeys(ops, key);
      hide Born, LastPut;
      forall j | 0 <= j < |ms|
        ensures ms[j].key != key
      {
        assert Keys(ms)[j] == ms[j].key;
      }
      forall j, k | 0 <= j < k < |ms|
        ensures Earlier(ops, ms[j].key, ms[k].key)
      {
        assert Earlier(ops[..|ops| - 1], ms[j].key, ms[k].key);
      }
      assert Born(ops, key).None? by { RemovedIsUnborn(ops, key); }
    }
  }

  lemma RemovedIsUnborn(ops: seq<Operation>, key: Units)
    requires ops != [] && ops[|ops| - 1] == RemoveEntry(key)
    ensures Born(ops, key) == None
  {
  }

  function Shifted(j: nat, i: nat): nat {
    if j < i then j else j + 1
  }

  lemma WithoutOne(ms: seq<Member>, i: nat)
    requires i < |ms| && Distinct(Keys(ms))
    ensures var r := ms[..i] + ms[i + 1..];
            && |r| == |ms| - 1
            && (forall j :: 0 <= j < |r| ==> r[j] == ms[Shifted(j, i)] && r[j].key != ms[i].key)
            && (forall key :: key in Keys(ms) && key != ms[i].key ==> key in Keys(r))
  {
    var r := ms[..i] + ms[i + 1..];
    forall j | 0 <= j < |r|
      ensures r[j] == ms[Shifted(j, i)] && r[j].key != ms[i].key
    {
      assert Keys(ms)[Shifted(j, i)] != Keys(ms)[i];
    }
    forall key | key in Keys(ms) && key != ms[i].key
      ensures key in Keys(r)
    {
      var j :| 0 <= j < |ms| && Keys(ms)[j] == key;
      assert Keys(r)[if j < i then j else j - 1] == key;
    }
  }

  lemma RemoveAtChronicle(ms: seq<Member>, ops: seq<Operation>, i: nat)
    requires ops != [] && i < |ms| && ops[|ops| - 1] == RemoveEntry(ms[i].key)
    requires Chronicle(ms, ops[..|ops| - 1]) && Distinct(Keys(ms))
    ensures Chronicle(ms[..i] + ms[i + 1..], ops)
  {
    var past, key := ops[..|ops| - 1], ms[i].key;
    var r := ms[..i] + ms[i + 1..];
    RemovedIsUnborn(ops, key);
    OtherKeys(ops, key);
    WithoutOne(ms, i);
    hide Born, LastPut, Distinct, Keys;
    forall j, k | 0 <= j < k < |r|
      ensures Earlier(ops, r[j].key, r[k].key)
    {
      assert Earlier(past, ms[Shifted(j, i)].key, ms[Shifted(k, i)].key);
    }
  }
}
