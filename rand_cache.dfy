/** Random eviction policy. The set `_cache` holds the resident keys and the
    slot array `a` of length `maxlen` holds them too: while the cache fills up,
    a new key goes into the first free slot; once it is full, a slot drawn at
    random is overwritten and its previous occupant is evicted. The abstract
    state `keys` lists the occupied slots in slot order. The random draw is an
    argument of `Put`. */
module Rand {
  import opened Common

  /** `put(k)` on the slot contents `keys` with drawn slot `i`: a resident key
      changes nothing; a new key is appended while there is room, and replaces
      the occupant of slot `i` once the cache is full. */
  function Place<K(==)>(keys: seq<K>, maxlen: nat, k: K, i: nat): (seq<K>, Option<K>)
    requires |keys| <= maxlen && i < maxlen
  {
    if k in keys then (keys, None)
    else if |keys| == maxlen then (keys[i := k], Some(keys[i]))
    else (keys + [k], None)
  }

  /** What `put` promises: the resident keys afterwards are the previous ones,
      minus the evicted key, plus `k`; there is an eviction exactly when a new
      key meets a full cache; the capacity and the absence of duplicates are
      kept. */
  lemma PlaceSpec<K>(keys: seq<K>, maxlen: nat, k: K, i: nat)
    requires Distinct(keys) && |keys| <= maxlen && i < maxlen
    ensures var (r, ev) := Place(keys, maxlen, k, i);
            Distinct(r) && |r| <= maxlen && k in r &&
            (ev.Some? <==> k !in keys && |keys| == maxlen) &&
            (ev.Some? ==> ev.value in keys && ev.value !in r && ev.value != k) &&
            (forall x | x in keys && Some(x) != ev :: x in r) &&
            (forall x | x in r :: x in keys || x == k)
  {
    if k !in keys {
      if |keys| == maxlen {
        KeysReplace(keys, i, k);
      } else {
        KeysAppend(keys, k);
      }
    }
  }

  /** Writing a new key into slot `i` replaces exactly the key held there. */
  lemma KeysReplace<K>(keys: seq<K>, i: nat, k: K)
    requires Distinct(keys) && i < |keys| && k !in keys
    ensures Distinct(keys[i := k]) && k in keys[i := k]
    ensures forall x | x in keys[i := k] :: x == k || (x in keys && x != keys[i])
    ensures forall x | x in keys && x != keys[i] :: x in keys[i := k]
  {
    var r := keys[i := k];
    assert r[i] == k;
    forall x | x in keys && x != keys[i] ensures x in r {
      var j :| 0 <= j < |keys| && keys[j] == x;
      assert r[j] == x;
    }
  }

  /** Writing a new key into the first free slot adds exactly that key. */
  lemma KeysAppend<K>(keys: seq<K>, k: K)
    requires Distinct(keys) && k !in keys
    ensures Distinct(keys + [k])
    ensures forall x | x in keys + [k] :: x == k || x in keys
    ensures forall x | x in keys :: x in keys + [k]
  {
  }

  /** The set after the replacement in slot `i` is the set of the new keys. */
  lemma ReplaceStep<K>(cache: set<K>, keys: seq<K>, i: nat, k: K)
    requires cache == Elems(keys) && Distinct(keys) && i < |keys| && k !in keys
    ensures cache - {keys[i]} + {k} == Elems(keys[i := k]) && Distinct(keys[i := k])
  {
    KeysReplace(keys, i, k);
    ElemsMembers(keys);
    ElemsMembers(keys[i := k]);
  }

  /** The set after filling the first free slot is the set of the new keys. */
  lemma AppendStep<K>(cache: set<K>, keys: seq<K>, k: K)
    requires cache == Elems(keys) && Distinct(keys) && k !in keys
    ensures cache + {k} == Elems(keys + [k]) && Distinct(keys + [k])
  {
    KeysAppend(keys, k);
    ElemsMembers(keys);
    ElemsMembers(keys + [k]);
  }

  class RandCache<K(==)> {
    var cache: set<K>               // `_cache`
    const a: array<Option<K>>       // the slots; `None` where never written
    const maxlen: nat
    ghost var keys: seq<K>          // the occupied slots `a[0..len)`

    ghost predicate Valid()
      reads this, a
    {
      0 < maxlen && a.Length == maxlen && |keys| <= maxlen &&
      Distinct(keys) && cache == Elems(keys) &&
      forall j | 0 <= j < |keys| :: a[j] == Some(keys[j])
    }

    constructor (maxlen: nat)
      requires 0 < maxlen
      ensures Valid() && fresh(a) && this.maxlen == maxlen && keys == []
      ensures forall j | 0 <= j < a.Length :: a[j] == None
    {
      cache := {};
      a := new Option<K>[maxlen](_ => None);
      this.maxlen := maxlen;
      keys := [];
    }

    /** `len(cache)`: the number of occupied slots. */
    function Len(): (n: nat)
      reads this, a
      requires Valid()
      ensures n == |keys| && n <= maxlen
    {
      ElemsCard(keys);
      |cache|
    }

    /** `has(k)`, and `get(k)`, which is the same query. */
    function Has(k: K): (b: bool)
      reads this, a
      requires Valid()
      ensures b <==> k in keys
    {
      ElemsMembers(keys);
      k in cache
    }

    function Get(k: K): (b: bool)
      reads this, a
      requires Valid()
      ensures b <==> k in keys
    {
      Has(k)
    }

    /** `dump()` is `list(self._cache)`: every resident key once, in an
        order the set leaves unspecified. */
    method Dump() returns (r: seq<K>)
      requires Valid()
      ensures Distinct(r) && |r| == Len()
      ensures forall x | x in r :: x in keys
      ensures forall x | x in keys :: x in r
    {
      r := SetToSeq(cache);
      ElemsMembers(keys);
      ElemsCard(r);
      ElemsMembers(r);
      ElemsCard(keys);
      assert Elems(r) == cache;
    }

    /** `put(k)` with `i` the slot that `random.randint(0, maxlen - 1)`
        draws; the draw is used only when a new key meets a full cache. */
    method Put(k: K, i: nat) returns (evicted: Option<K>)
      requires Valid() && i < maxlen
      modifies this, a
      ensures Valid()
      ensures (keys, evicted) == Place(old(keys), maxlen, k, i)
      ensures k in old(keys) ==> a[..] == old(a[..])
      ensures k !in old(keys) && |old(keys)| < maxlen ==> a[..] == old(a[..])[|old(keys)| := Some(k)]
      ensures k !in old(keys) && |old(keys)| == maxlen ==> a[..] == old(a[..])[i := Some(k)]
    {
      ElemsMembers(keys);
      ElemsCard(keys);
      evicted := None;
      if k !in cache {
        if |cache| == maxlen {
          ReplaceStep(cache, keys, i, k);
          evicted := a[i];
          a[i] := Some(k);
          cache := cache - {evicted.value};
          keys := keys[i := k];
        } else {
          AppendStep(cache, keys, k);
          a[|cache|] := Some(k);
          keys := keys + [k];
        }
        cache := cache + {k};
      }
    }

    /** `clear()` empties the set only; the slots keep their stale contents,
        which the next `put`s overwrite from slot 0 on. */
    method Clear()
      requires Valid()
      modifies this
      ensures Valid() && keys == [] && cache == {}
    {
      cache := {};
      keys := [];
    }
  }

  /** The slots `a[0..len)` hold exactly the keys of `_cache`, each in one
      slot: the fact the eviction in `put` relies on. */
  lemma SlotsHoldResidents<K>(c: RandCache<K>)
    requires c.Valid()
    ensures |c.cache| == |c.keys| <= c.a.Length
    ensures forall j | 0 <= j < |c.cache| :: c.a[j].Some? && c.a[j].value in c.cache
    ensures forall j, l | 0 <= j < l < |c.cache| :: c.a[j] != c.a[l]
    ensures forall x | x in c.cache :: Some(x) in c.a[..|c.cache|]
  {
    ElemsCard(c.keys);
    ElemsMembers(c.keys);
    forall x | x in c.cache ensures Some(x) in c.a[..|c.cache|] {
      var j :| 0 <= j < |c.keys| && c.keys[j] == x;
      assert c.a[..|c.cache|][j] == Some(x);
    }
  }

  /** `RandCache(maxlen)`: ValueError unless the capacity is positive. */
  method NewRandCache<K(==)>(maxlen: int) returns (r: Result<RandCache<K>>)
    ensures r.Err? <==> maxlen <= 0
    ensures r.Err? ==> r.error == ValueError
    ensures r.Ok? ==> fresh(r.value) && fresh(r.value.a) && r.value.Valid() &&
                      r.value.maxlen == maxlen && r.value.keys == []
  {
    if maxlen <= 0 {
      return Err(ValueError);
    }
    var c := new RandCache(maxlen);
    return Ok(c);
  }
}
