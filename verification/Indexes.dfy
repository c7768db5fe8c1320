/** What an index holds, and the hash index of src/indexing/hash_index.cpp. */
module Indexes {
  import opened Values
  import opened Lists

  /** Row ids filed under each key, in insertion order. */
  type Entries = map<Value, seq<nat>>

  function Ids(entries: Entries, key: Value): seq<nat> {
    if key in entries then entries[key] else []
  }

  function Inserted(entries: Entries, key: Value, id: nat): Entries {
    entries[key := Ids(entries, key) + [id]]
  }

  /** A key whose last row id goes disappears. */
  function Removed(entries: Entries, key: Value, id: nat): (r: Entries)
    ensures forall k :: k != key ==> Ids(r, k) == Ids(entries, k)
    ensures Ids(r, key) == Without(Ids(entries, key), id)
  {
    if key !in entries then entries
    else
      var rest := Without(entries[key], id);
      if rest == [] then entries - {key} else entries[key := rest]
  }

  class HashIndex {
    var entries: Entries

    constructor ()
      ensures entries == map[]
    {
      entries := map[];
    }

    method Insert(key: Value, id: nat)
      modifies this
      ensures entries == Inserted(old(entries), key, id)
    {
      var ids := if key in entries then entries[key] else [];
      entries := entries[key := ids + [id]];
    }

    method Remove(key: Value, id: nat)
      modifies this
      ensures entries == Removed(old(entries), key, id)
    {
      if key !in entries {
        return;
      }
      var rest := Without(entries[key], id);
      if rest == [] {
        entries := entries - {key};
      } else {
        entries := entries[key := rest];
      }
    }

    method Clear()
      modifies this
      ensures entries == map[]
    {
      entries := map[];
    }

    method Find(key: Value) returns (ids: seq<nat>)
      ensures ids == Ids(entries, key)
    {
      if key !in entries {
        return [];
      }
      return entries[key];
    }
  }
}
