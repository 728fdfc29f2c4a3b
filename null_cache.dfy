/** The dummy policy: a cache that never stores anything, behaving like a
    cache of capacity zero. Its constructor accepts and ignores a capacity. */
module Null {
  import opened Common

  class NullCache<K> {
    constructor (maxlen: int)
    {
    }

    /** `len(cache)`: always empty. */
    function Len(): (n: nat)
    {
      0
    }

    /** `maxlen`: always zero, whatever the constructor was given. */
    function MaxLen(): (n: nat)
    {
      0
    }

    /** `dump()`: the empty list. */
    function Dump(): (d: seq<K>)
    {
      []
    }

    /** `has(k)` and `get(k)`: never a hit. */
    function Has(k: K): (b: bool)
    {
      false
    }

    function Get(k: K): (b: bool)
    {
      false
    }

    /** `put(k)`: stores nothing and evicts nothing. */
    function Put(k: K): (evicted: Option<K>)
    {
      None
    }

    /** `clear()`: nothing to do. */
    method Clear()
    {
    }
  }

  /** A null cache of any requested capacity is empty before and after any
      sequence of `put`s: it reports no content, no hit and no eviction, and it
      is as full as its capacity allows. */
  lemma NullStaysEmpty<K>(c: NullCache<K>, keys: seq<K>)
    ensures forall i | 0 <= i < |keys| :: c.Put(keys[i]) == None && !c.Get(keys[i]) && !c.Has(keys[i])
    ensures c.Len() == 0 == c.MaxLen() && c.Dump() == []
    ensures c.Len() <= c.MaxLen()
  {
  }
}
