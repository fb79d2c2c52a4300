/** The ordered JSON object: a map and a separate list of its keys. */
module OrderedJsonObject {
  import opened InsertionOrder
  import opened JsonPrinter
  import opened JsonValues

  /** The `ArrayList` of keys. It is an object of its own, which two ordered objects may come to share. */
  class KeyList {
    var keys: seq<Units>

    constructor (keys: seq<Units>)
      ensures this.keys == keys
    {
      this.keys := keys;
    }

    method Add(key: Units)
      modifies this
      ensures keys == old(keys) + [key]
    {
      keys := keys + [key];
    }

    method RemoveAll()
      modifies this
      ensures keys == []
    {
      keys := [];
    }

    /** The loop that removes the first occurrence of a key. */
    method RemoveFirst(key: Units)
      modifies this
      ensures key !in old(keys) ==> keys == old(keys)
      ensures forall i :: 0 <= i < |old(keys)| && old(keys)[i] == key && key !in old(keys)[..i] ==>
                keys == old(keys)[..i] + old(keys)[i + 1..]
    {
      var i := 0;
      while i < |keys|
        invariant i <= |keys| && keys == old(keys)
        invariant key !in keys[..i]
      {
        if keys[i] == key {
          keys := keys[..i] + keys[i + 1..];
          break;
        }
        i := i + 1;
      }
    }
  }

  /** The list names exactly the keys of the map, each once. */
  ghost predicate Consistent(keys: seq<Units>, entries: map<Units, Json>) {
    Distinct(keys) && forall key :: key in keys <==> key in entries
  }

  function Lookup(entries: map<Units, Json>, key: Units): Json {
    if key in entries then entries[key] else Null
  }

  function Listed(keys: seq<Units>, entries: map<Units, Json>): (ms: seq<Member>)
    ensures Keys(ms) == keys
    ensures forall i :: 0 <= i < |keys| ==> ms[i] == Member(keys[i], Lookup(entries, keys[i]))
  {
    seq(|keys|, i requires 0 <= i < |keys| => Member(keys[i], Lookup(entries, keys[i])))
  }

  lemma PutListed(keys: seq<Units>, entries: map<Units, Json>, key: Units, value: Json)
    requires Consistent(keys, entries)
    ensures var keys' := if key in entries then keys else keys + [key];
            && Consistent(keys', entries[key := value])
            && Listed(keys', entries[key := value]) == InsertionOrder.Put(Listed(keys, entries), key, value)
  {
    var before := Listed(keys, entries);
    if key in entries {
      var i :| 0 <= i < |keys| && keys[i] == key;
      PutOldKey(before, key, value, i);
      assert Listed(keys, entries[key := value]) == before[i := Member(key, value)];
    } else {
      PutNewKey(before, key, value);
      assert Listed(keys + [key], entries[key := value]) == before + [Member(key, value)];
    }
  }

  lemma WithoutKey(keys: seq<Units>, i: nat)
    requires Distinct(keys) && i < |keys|
    ensures keys[i] !in keys[..i] && Distinct(keys[..i] + keys[i + 1..])
    ensures forall key :: key in keys[..i] + keys[i + 1..] <==> key in keys && key != keys[i]
  {
    var r := keys[..i] + keys[i + 1..];
    assert forall j :: 0 <= j < |r| ==> r[j] == keys[Shifted(j, i)];
    forall key | key in keys && key != keys[i]
      ensures key in r
    {
      var j :| 0 <= j < |keys| && keys[j] == key;
      assert r[if j < i then j else j - 1] == key;
    }
  }

  lemma RemoveListed(keys: seq<Units>, entries: map<Units, Json>, i: nat)
    requires Consistent(keys, entries) && i < |keys|
    ensures keys[i] !in keys[..i]
    ensures var keys' := keys[..i] + keys[i + 1..];
            && Consistent(keys', entries - {keys[i]})
            && Listed(keys', entries - {keys[i]}) == InsertionOrder.Remove(Listed(keys, entries), keys[i])
  {
    hide Distinct, Keys, InsertionOrder.Remove, Listed;
    WithoutKey(keys, i);
    var keys', before := keys[..i] + keys[i + 1..], Listed(keys, entries);
    RemoveOldKey(before, keys[i], i);
    assert forall key :: key in keys' <==> key in entries - {keys[i]};
    var after, r := Listed(keys', entries - {keys[i]}), before[..i] + before[i + 1..];
    forall j | 0 <= j < |r|
      ensures after[j] == r[j]
    {
      assert keys'[j] == keys[Shifted(j, i)] && keys'[j] in keys';
    }
    assert after == r;
  }

  class OrderedObject {
    /** What the object inherits from `HashMap`. */
    var entries: map<Units, Json>
    var order: KeyList

    ghost predicate Valid()
      reads this, order
    {
      Consistent(order.keys, entries)
    }

    /** The entries a serializer visits: `getOrder`, and `get` for each key, null if the map does not have it. */
    function Visited(): (ms: seq<Member>)
      reads this, order
      ensures Keys(ms) == order.keys
    {
      Listed(order.keys, entries)
    }

    constructor ()
      ensures Valid() && fresh(order) && Visited() == []
    {
      entries := map[];
      order := new KeyList([]);
    }

    /** The first step of `clone`: `HashMap.clone` copies the map and, like any field, the reference to the list. */
    constructor Shallow(entries: map<Units, Json>, order: KeyList)
      ensures this.entries == entries && this.order == order
    {
      this.entries := entries;
      this.order := order;
    }

    method Put(key: Units, value: Json) returns (previous: Json)
      modifies this`entries, order
      ensures previous == Lookup(old(entries), key) && entries == old(entries)[key := value]
      ensures order.keys == if key in old(entries) then old(order.keys) else old(order.keys) + [key]
      ensures old(Valid()) ==> Valid() && Visited() == InsertionOrder.Put(old(Visited()), key, value)
    {
      if key !in entries {
        order.Add(key);
      }
      previous := Lookup(entries, key);
      entries := entries[key := value];
      if old(Valid()) {
        PutListed(old(order.keys), old(entries), key, value);
      }
    }

    method Remove(key: Units) returns (removed: Json)
      modifies this`entries, order
      ensures removed == Lookup(old(entries), key) && entries == old(entries) - {key}
      ensures old(Valid()) ==> Valid() && Visited() == InsertionOrder.Remove(old(Visited()), key)
    {
      removed := Lookup(entries, key);
      if key in entries {
        entries := entries - {key};
        order.RemoveFirst(key);
        if old(Valid()) {
          ghost var keys := old(order.keys);
          ghost var i :| 0 <= i < |keys| && keys[i] == key;
          RemoveListed(keys, old(entries), i);
        }
      } else if old(Valid()) {
        RemoveNoKey(Visited(), key);
      }
    }

    method RemoveAll()
      modifies this`entries, order
      ensures Valid() && Visited() == []
    {
      entries := map[];
      order.RemoveAll();
    }

    /** Any sequence of calls does to the object what it does to the association list. */
    method Perform(ops: seq<Operation>)
      requires Valid()
      modifies this`entries, order
      ensures Valid() && Visited() == Run(old(Visited()), ops)
    {
      hide Listed, Distinct, InsertionOrder.Put, InsertionOrder.Remove, Lookup;
      var i := 0;
      while i < |ops|
        invariant i <= |ops| && order == old(order)
        invariant Valid() && Visited() == Run(old(Visited()), ops[..i])
      {
        match ops[i] {
          case PutEntry(key, value) =>
            var _ := Put(key, value);
          case RemoveEntry(key) =>
            var _ := Remove(key);
          case Clear => RemoveAll();
        }
        assert ops[..i + 1][..i] == ops[..i];
        i := i + 1;
      }
      assert ops[..i] == ops;
    }

    /** The copy of a non-empty object gets a list of its own; the copy of an empty one keeps the original's list. */
    method Clone() returns (copy: OrderedObject)
      ensures fresh(copy) && copy.entries == entries && copy.order.keys == order.keys
      ensures order.keys != [] ==> fresh(copy.order)
      ensures order.keys == [] ==> copy.order == order
    {
      copy := new OrderedObject.Shallow(entries, order);
      var list := order.keys;
      var orderList := new KeyList([]);
      var i := 0;
      while i < |list|
        invariant i <= |list| && fresh(orderList) && orderList.keys == list[..i]
        invariant copy.order == if i == 0 then order else orderList
        invariant copy.entries == entries
      {
        orderList.Add(list[i]);
        copy.order := orderList;
        i := i + 1;
      }
    }

    /** What the serializer writes for the object. */
    method WriteTo(serializer: Serializer)
      modifies serializer
      ensures serializer.written == old(serializer.written) + Text(Obj(Visited()), serializer.style, old(serializer.depth))
    {
      serializer.WriteObject(Visited());
    }
  }

  /** Every run from the empty object leaves a valid object, and what is then written has each key once, in the order
      and with the values that the history tells. */
  method History(ops: seq<Operation>) returns (o: OrderedObject)
    ensures fresh(o) && o.Valid()
    ensures Chronicle(o.Visited(), ops) && Distinct(Keys(o.Visited()))
  {
    o := new OrderedObject();
    o.Perform(ops);
    RunIsChronicle(ops);
  }

  /** For a non-empty object, whatever is later done to the original and to the copy stays apart. */
  method CloneIsIndependent(o: OrderedObject, ops: seq<Operation>, copyOps: seq<Operation>) returns (copy: OrderedObject)
    requires o.Valid() && o.order.keys != []
    modifies o`entries, o.order
    ensures o.Valid() && o.Visited() == Run(old(o.Visited()), ops)
    ensures fresh(copy) && copy.Valid() && copy.Visited() == Run(old(o.Visited()), copyOps)
  {
    copy := o.Clone();
    assert copy.Visited() == o.Visited();
    copy.Perform(copyOps);
    o.Perform(ops);
  }

  /** One put on the copy tells the two cases apart: the original stays as it was if and only if it was not empty.
      An empty original is left with a key in its list that its map does not have, which is then written as null. */
  method CloneThenPut(o: OrderedObject, key: Units, value: Json) returns (copy: OrderedObject)
    requires o.Valid() && key !in o.entries
    modifies o.order
    ensures copy.Valid() && copy.Visited() == InsertionOrder.Put(old(o.Visited()), key, value)
    ensures o.Valid() <==> old(o.order.keys) != []
    ensures o.Valid() ==> o.Visited() == old(o.Visited())
    ensures !o.Valid() ==> o.Visited() == [Member(key, Null)]
  {
    copy := o.Clone();
    assert copy.Visited() == o.Visited();
    var _ := copy.Put(key, value);
    if old(o.order.keys) == [] {
      assert o.order.keys[0] == key;
    }
  }
}
