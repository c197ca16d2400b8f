/** The key-value store (a badger database) that holds the configuration and the synced
    servers.  A read transaction sees the map; an update transaction replaces it, every
    write of one transaction together.  Storage failures of the database are not part
    of this model. */
module Store {
  import opened Wrappers
  import opened Utf8
  import opened Errors

  class Db {
    var kv: map<Bytes, Bytes>

    constructor (initial: map<Bytes, Bytes>)
      ensures kv == initial
    {
      kv := initial;
    }

    /** `txn.Get(key)` and `item.Value`: `badger.ErrKeyNotFound` for an absent key. */
    function Get(key: Bytes): (r: Result<Bytes, Error>)
      reads this
      ensures r.Ok? <==> key in kv
      ensures r.Ok? ==> r.value == kv[key]
      ensures r.Err? ==> r.error == KeyNotFound(key)
    {
      if key in kv then Ok(kv[key]) else Err(KeyNotFound(key))
    }

    /** An update transaction with one `txn.Set`. */
    method Set(key: Bytes, value: Bytes)
      modifies this
      ensures kv == old(kv)[key := value]
    {
      kv := kv[key := value];
    }

    /** An update transaction with two `txn.Set`s, committed together. */
    method SetPair(k1: Bytes, v1: Bytes, k2: Bytes, v2: Bytes)
      modifies this
      ensures kv == old(kv)[k1 := v1][k2 := v2]
    {
      kv := kv[k1 := v1][k2 := v2];
    }

    /** An update transaction with one `txn.Delete`; deleting an absent key is no error. */
    method Delete(key: Bytes)
      modifies this
      ensures kv == old(kv) - {key}
    {
      kv := kv - {key};
    }
  }

  predicate HasBytePrefix(k: Bytes, p: Bytes) { |p| <= |k| && k[..|p|] == p }
}
