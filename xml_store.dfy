/**
 * The default backing store (`XmlStorage.Storage`) as the registry sees it:
 * a table of values addressed by a declared type and a save key, plus a
 * count of the times the table was written out. Its file format and
 * aggregation switching are not part of this model.
 */
module XmlStore {
  import opened Wrappers
  import opened Reflection
  import opened Engine

  /** An entry is addressed by the type it was stored as and its save key. */
  datatype StoreKey = StoreKey(ty: Option<TypeId>, key: string)

  /** Stored values; a value stored as null is kept as `None`. */
  type Entries = map<StoreKey, Option<Value>>

  /** `Storage.Get(type, key, null)`: the stored value, or the default null when nothing is stored. */
  function Lookup(entries: Entries, k: StoreKey): Option<Value> {
    if k in entries then entries[k] else None
  }

  class Storage {
    var entries: Entries
    /** How many times `Storage.Save()` wrote the table out. */
    var persisted: nat

    constructor (entries: Entries)
      ensures this.entries == entries && persisted == 0
    {
      this.entries := entries;
      persisted := 0;
    }

    /** `Storage.Set(type, key, value)`: the entry is replaced, the rest kept. */
    method Set(ty: Option<TypeId>, key: string, value: Option<Value>)
      modifies this`entries
      ensures entries == old(entries)[StoreKey(ty, key) := value]
    {
      entries := entries[StoreKey(ty, key) := value];
    }

    /** `Storage.Save()`: the table is written out once more. */
    method Save()
      modifies this`persisted
      ensures persisted == old(persisted) + 1
    {
      persisted := persisted + 1;
    }
  }
}
