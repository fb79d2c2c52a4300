/** `java.util.Properties` with text keys and values. */
module PropertyTables {

  type Entries = map<string, string>

  class Properties {
    var entries: Entries

    constructor ()
      ensures entries == map[]
    {
      entries := map[];
    }

    method PutAll(other: Properties)
      modifies this
      ensures entries == old(entries) + old(other.entries)
    {
      entries := entries + other.entries;
    }

    method Put(key: string, value: string)
      modifies this
      ensures entries == old(entries)[key := value]
    {
      entries := entries[key := value];
    }
  }

  ghost function Contents(list: seq<Properties>): (contents: seq<Entries>)
    reads list
    ensures |contents| == |list|
    ensures forall i :: 0 <= i < |list| ==> contents[i] == list[i].entries
  {
    if list == [] then [] else Contents(list[..|list| - 1]) + [list[|list| - 1].entries]
  }
}
