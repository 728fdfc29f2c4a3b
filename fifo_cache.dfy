/** First In First Out policy. The abstract state is the insertion order `d`,
    newest first, as the source's deque holds it; the set `_cache` holds the
    same keys. A hit changes nothing; a new key goes to the front and, past the
    capacity, the oldest key leaves from the back. */
module Fifo {
  import opened Common
  import Lru

  /** `put(k)` on the insertion order: a resident key leaves it as it is; a new
      key is prepended; if the keys then exceed the capacity the last one is
      popped and returned. */
  function Insert<K(==)>(d: seq<K>, maxlen: nat, k: K): (seq<K>, Option<K>)
  {
    var d1 := if k in d then d else [k] + d;
    if |d1| <= maxlen then (d1, None) else (d1[..|d1| - 1], Some(d1[|d1| - 1]))
  }

  /** What `put` promises: a hit is a no-op; a new key becomes first; when the
      cache was full the oldest key is evicted; the capacity and the absence of
      duplicates are kept. */
  lemma InsertSpec<K>(d: seq<K>, maxlen: nat, k: K)
    requires Distinct(d) && |d| <= maxlen && 0 < maxlen
    ensures var (r, ev) := Insert(d, maxlen, k);
            Distinct(r) && |r| <= maxlen &&
            (k in d ==> r == d && ev == None) &&
            (k !in d ==> r[0] == k && (ev.Some? <==> |d| == maxlen)) &&
            (k !in d && ev.None? ==> r == [k] + d) &&
            (ev.Some? ==> ev.value == d[|d| - 1] && ev.value !in r && r == [k] + d[..|d| - 1])
  {
    if k !in d {
      DistinctPush(d, k);
      var o := [k] + d;
      if |o| > maxlen {
        assert o[..|o| - 1] == [k] + d[..|d| - 1];
        SplitAt(d, |d| - 1);
      }
    }
  }

  /** FIFO and LRU differ only on a hit: for a key that is not resident both
      policies produce the same order and evict the same key. */
  lemma AgreesWithLruOnMiss<K>(d: seq<K>, maxlen: nat, k: K)
    requires k !in d
    ensures Insert(d, maxlen, k) == Lru.Insert(d, maxlen, k)
  {
  }

  /** On a hit, LRU moves the key to the front while FIFO keeps the order; the
      two agree exactly when the key already was the newest. */
  lemma DiffersFromLruOnHit<K>(d: seq<K>, maxlen: nat, k: K)
    requires Distinct(d) && k in d && |d| <= maxlen
    ensures Insert(d, maxlen, k).1 == None == Lru.Insert(d, maxlen, k).1
    ensures Insert(d, maxlen, k).0 == Lru.Insert(d, maxlen, k).0 <==> d[0] == k
  {
    var i := IndexOf(d, k);
    Lru.TouchAt(d, i);
    if d[0] == k {
      assert i == 0;
    }
  }

  /** `self._cache.add(k)` and `self.d.appendleft(k)` for a new key keep the
      set equal to the keys of the deque, and the deque duplicate-free. */
  lemma PushStep<K>(cache: set<K>, d: seq<K>, k: K)
    requires cache == Elems(d) && Distinct(d) && k !in d
    ensures cache + {k} == Elems([k] + d) && Distinct([k] + d) && |[k] + d| == |cache + {k}|
  {
    ElemsCons(k, d);
    DistinctPush(d, k);
    ElemsCard([k] + d);
  }

  /** `self.d.pop()` and `self._cache.remove(evicted)` likewise. */
  lemma PopStep<K>(cache: set<K>, d: seq<K>)
    requires cache == Elems(d) && Distinct(d) && |d| > 0
    ensures cache - {d[|d| - 1]} == Elems(d[..|d| - 1]) && Distinct(d[..|d| - 1])
  {
    ElemsRemove(d, |d| - 1);
    TrimIsRemove(d);
    DistinctRemove(d, |d| - 1);
  }

  class FifoCache<K(==)> {
    var cache: set<K>  // `_cache`
    var d: seq<K>      // the deque `d`, newest key first
    const maxlen: nat

    ghost predicate Valid()
      reads this
    {
      0 < maxlen && |d| <= maxlen && Distinct(d) && cache == Elems(d)
    }

    constructor (maxlen: nat)
      requires 0 < maxlen
      ensures Valid() && this.maxlen == maxlen && d == []
    {
      cache := {};
      this.maxlen := maxlen;
      d := [];
    }

    /** `len(cache)`: the number of keys in the deque. */
    function Len(): (n: nat)
      reads this
      requires Valid()
      ensures n == |d| && n <= maxlen
    {
      ElemsCard(d);
      |cache|
    }

    /** `dump()`: every resident key exactly once, newest first. */
    function Dump(): (r: seq<K>)
      reads this
      requires Valid()
      ensures Distinct(r) && |r| == Len()
      ensures forall x | x in r :: x in cache
      ensures forall x | x in cache :: x in r
    {
      ElemsMembers(d);
      d
    }

    /** `has(k)`: set membership, which agrees with the deque. */
    function Has(k: K): (b: bool)
      reads this
      requires Valid()
      ensures b <==> k in d
    {
      ElemsMembers(d);
      k in cache
    }

    /** `get(k)` is `has(k)`: a query that changes nothing. */
    function Get(k: K): (b: bool)
      reads this
      requires Valid()
      ensures b <==> k in d
    {
      Has(k)
    }

    /** `position(k)`: the index of `k` in the deque, ValueError if absent. */
    method Position(k: K) returns (r: Result<nat>)
      ensures r.Ok? <==> k in d
      ensures r.Ok? ==> r.value < |d| && d[r.value] == k && k !in d[..r.value]
      ensures r.Err? ==> r.error == ValueError
    {
      var i := 0;
      while i < |d|
        invariant i <= |d| && k !in d[..i]
      {
        if d[i] == k {
          return Ok(i);
        }
        assert d[..i + 1] == d[..i] + [d[i]];
        i := i + 1;
      }
      assert d[..i] == d;
      return Err(ValueError);
    }

    /** `put(k)`: `appendleft` for a new key, then one `pop` from the right if
        the set exceeds the capacity. */
    method Put(k: K) returns (evicted: Option<K>)
      requires Valid()
      modifies this
      ensures Valid()
      ensures (d, evicted) == Insert(old(d), maxlen, k)
    {
      ElemsMembers(d);
      ElemsCard(d);
      evicted := None;
      if k !in cache {
        PushStep(cache, d, k);
        cache := cache + {k};
        d := [k] + d;
      }
      if |cache| > maxlen {
        PopStep(cache, d);
        evicted := Some(d[|d| - 1]);
        d := d[..|d| - 1];
        cache := cache - {evicted.value};
      }
    }

    /** `clear()`: empty both the set and the deque. */
    method Clear()
      requires Valid()
      modifies this
      ensures Valid() && d == []
    {
      cache := {};
      d := [];
    }
  }

  /** `FifoCache(maxlen)`: ValueError unless the capacity is positive. */
  method NewFifoCache<K(==)>(maxlen: int) returns (r: Result<FifoCache<K>>)
    ensures r.Err? <==> maxlen <= 0
    ensures r.Err? ==> r.error == ValueError
    ensures r.Ok? ==> fresh(r.value) && r.value.Valid() && r.value.maxlen == maxlen && r.value.d == []
  {
    if maxlen <= 0 {
      return Err(ValueError);
    }
    var c := new FifoCache(maxlen);
    return Ok(c);
  }

  /** Capacity 2, keys A, B, C as 1, 2, 3: `put(A)`, `put(B)`, `get(A)`,
      `put(C)` evicts `A`, since the hit did not protect it, and leaves the
      deque `[C, B]`. */
  lemma Scenario()
    ensures Insert([], 2, 1) == ([1], None)
    ensures Insert([1], 2, 2) == ([2, 1], None)
    ensures 1 in [2, 1]
    ensures Insert([2, 1], 2, 3) == ([3, 2], Some(1))
  {
    assert [1] + [] == [1];
    assert [2] + [1] == [2, 1];
    assert ([3] + [2, 1])[..2] == [3, 2];
  }
}
