/** Key-value caching (`keyval_cache`): a wrapper that owns a cache and an
    auxiliary map `_vals` from key to value. `put(k, v)` records the value and
    then inserts the key; an evicted key is reported with its value, which is
    dropped from `_vals`. `get(k)` returns the value of a resident key,
    `dump()` pairs the inner listing with the values, `clear()` empties both.
    A lookup of a key missing from `_vals` raises KeyError; that happens only
    for keys that were already resident in the cache when it was wrapped. */
module KeyVal {
  import opened Common
  import opened Caches

  /** What `put` leaves: the new `_vals` and the reported eviction. */
  datatype Stored<K, V> = Stored(vals: map<K, V>, evicted: Option<(K, V)>)

  /** `put(k, v)` on `_vals`, given `ev`, what the inner `put(k)` returned:
      the value is recorded, and an evicted key has its value looked up,
      removed and reported. Evicting a key without a value is a KeyError. */
  function StoreValue<K, V>(vals: map<K, V>, k: K, v: V, ev: Option<K>): (r: Result<Stored<K, V>>)
    ensures r.Err? <==> ev.Some? && ev.value != k && ev.value !in vals
    ensures r.Err? ==> r.error == KeyError
    ensures r.Ok? && ev.None? ==> r.value == Stored(vals[k := v], None)
    ensures r.Ok? && ev.Some? ==>
              var e := ev.value;
              r.value.evicted == Some((e, vals[k := v][e])) &&
              e !in r.value.vals &&
              r.value.vals.Keys == vals.Keys + {k} - {e} &&
              forall x | x in r.value.vals :: r.value.vals[x] == vals[k := v][x]
  {
    var vals1 := vals[k := v];
    if ev.None? then Ok(Stored(vals1, None))
    else if ev.value in vals1 then
      var e := ev.value;
      Ok(Stored(vals1 - {e}, Some((e, vals1[e]))))
    else Err(KeyError)
  }

  /** The same lines as written: `if evicted:` tests the truth value of the
      evicted key, so an evicted key that Python deems false (`0`, `''`,
      `False`, an empty tuple) is neither reported nor removed. */
  function StoreValueAsWritten<K, V>(vals: map<K, V>, k: K, v: V, ev: Option<K>, truthy: K -> bool)
    : (r: Result<Stored<K, V>>)
    ensures ev.Some? && !truthy(ev.value) ==> r == Ok(Stored(vals[k := v], None))
    ensures ev.None? || truthy(ev.value) ==> r == StoreValue(vals, k, v, ev)
  {
    var vals1 := vals[k := v];
    if ev.Some? && truthy(ev.value) then
      var e := ev.value;
      if e in vals1 then Ok(Stored(vals1 - {e}, Some((e, vals1[e])))) else Err(KeyError)
    else Ok(Stored(vals1, None))
  }

  /** Python's truth value of an integer key. */
  function IntTruthy(x: int): bool
  {
    x != 0
  }

  /** The whole `put(k, v)` on the inner state and `_vals`. */
  function KvPut<K(==), V>(s: State<K>, vals: map<K, V>, k: K, v: V, i: nat): (State<K>, Result<Stored<K, V>>)
    requires Inv(s) && (s.RandS? ==> i < s.maxlen)
  {
    var (s', ev) := PutSpec(s, k, i);
    (s', StoreValue(vals, k, v, ev))
  }

  /** `get(k)`: the inner `get`, then the value of a hit. */
  function KvGet<K(==), V>(s: State<K>, vals: map<K, V>, k: K): (State<K>, Result<Option<V>>)
  {
    var (s', hit) := GetSpec(s, k);
    (s', if !hit then Ok(None) else if k in vals then Ok(Some(vals[k])) else Err(KeyError))
  }

  /** Every resident key has a value: true from the start when the wrapped
      cache was empty. */
  ghost predicate Covered<K, V>(s: State<K>, vals: map<K, V>)
  {
    forall x | x in Keys(s) :: x in vals
  }

  /** The value map holds exactly the resident keys. */
  ghost predicate Mirrors<K, V>(s: State<K>, vals: map<K, V>)
  {
    vals.Keys == Keys(s)
  }

  /** `StoreValue` after a `put` that obeys the common law: every key left
      resident keeps a value, and a value map that mirrored the keys before
      mirrors them after, unless the capacity is zero. */
  lemma StoreKeepsValues<K, V>(before: set<K>, after: set<K>, maxlen: nat, k: K, ev: Option<K>,
                               vals: map<K, V>, v: V)
    requires PutLaw(before, after, maxlen, k, ev) && forall x | x in before :: x in vals
    ensures var r := StoreValue(vals, k, v, ev);
            r.Ok? && (forall x | x in after :: x in r.value.vals) &&
            (vals.Keys == before && 0 < maxlen ==> r.value.vals.Keys == after)
  {
    var r := StoreValue(vals, k, v, ev);
    if vals.Keys == before && 0 < maxlen {
      forall x ensures x in r.value.vals.Keys <==> x in after {
        if x in after && x != k {
          assert x in before;
        }
      }
    }
  }

  /** `put` keeps every resident key valued, never raises KeyError on a
      covered cache, and removes the evicted key from `_vals`; on every
      policy but the null one the value map keeps mirroring the cache. */
  lemma PutKeepsValues<K, V>(s: State<K>, vals: map<K, V>, k: K, v: V, i: nat)
    requires Inv(s) && (s.RandS? ==> i < s.maxlen) && Covered(s, vals)
    ensures var (s', r) := KvPut(s, vals, k, v, i);
            r.Ok? && Covered(s', r.value.vals) &&
            (Mirrors(s, vals) && !s.NullS? ==> Mirrors(s', r.value.vals))
  {
    var (s', ev) := PutSpec(s, k, i);
    PutObeysLaw(s, k, i);
    StoreKeepsValues(Keys(s), Keys(s'), Capacity(s), k, ev, vals, v);
  }

  /** Round trip: after `put(k, v)`, `get(k)` returns `v` if `k` is still
      resident and `None` if it is not (it was evicted at once, or the cache
      is the null cache). */
  lemma {:induction false} PutThenGet<K, V>(s: State<K>, vals: map<K, V>, k: K, v: V, i: nat)
    requires Inv(s) && (s.RandS? ==> i < s.maxlen) && Covered(s, vals)
    ensures var (s1, r) := KvPut(s, vals, k, v, i);
            r.Ok? &&
            KvGet(s1, r.value.vals, k).1 == Ok(if k in Keys(s1) then Some(v) else None)
  {
    var (s1, ev) := PutSpec(s, k, i);
    PutObeysLaw(s, k, i);
    PutKeepsValues(s, vals, k, v, i);
    GetKeepsKeys(s1, k);
    var r := StoreValue(vals, k, v, ev);
    if k in Keys(s1) {
      assert ev != Some(k);
      assert k in r.value.vals && r.value.vals[k] == v;
    }
  }

  /** `get` keeps every resident key valued and raises no KeyError on a
      covered cache. */
  lemma GetKeepsValues<K, V>(s: State<K>, vals: map<K, V>, k: K)
    requires Inv(s) && Covered(s, vals)
    ensures var (s', r) := KvGet(s, vals, k);
            r.Ok? && Covered(s', vals) && (r.value.Some? <==> k in Keys(s)) &&
            (r.value.Some? ==> r.value.value == vals[k])
  {
    GetKeepsKeys(s, k);
  }

  /** The null cache stores no key, but `put` still records the value: the
      value map then holds a key that is not resident. */
  lemma NullKeepsValue<K, V>(vals: map<K, V>, k: K, v: V)
    ensures var (s', r) := KvPut(NullS, vals, k, v, 0);
            r == Ok(Stored(vals[k := v], None)) && k in r.value.vals && k !in Keys(s')
  {
  }

  /** The falsy-key flaw: with integer keys, an LRU cache of capacity 1
      holding key `0` (valued 10) evicts `0` when key `1` is put; as written,
      `put` reports no eviction and `_vals` keeps the value of `0`, which no
      longer is resident. The corrected `StoreValue` reports `(0, 10)` and
      drops it. */
  lemma FalsyEvictionLingers()
    ensures var s := LruS([0], 1);
            var vals := map[0 := 10];
            var (s', ev) := PutSpec(s, 1, 0);
            ev == Some(0) && 0 !in Keys(s') &&
            StoreValueAsWritten(vals, 1, 20, ev, IntTruthy) == Ok(Stored(map[0 := 10, 1 := 20], None)) &&
            StoreValue(vals, 1, 20, ev) == Ok(Stored(map[1 := 20], Some((0, 10))))
  {
    var s := LruS([0], 1);
    var (s', ev) := PutSpec(s, 1, 0);
    assert Lru.Insert([0], 1, 1) == ([1], Some(0));
    assert Elems([1]) == {1} by {
      assert [1][1..] == [];
    }
    var vals: map<int, int> := map[0 := 10];
    assert vals[1 := 20] - {0} == map[1 := 20];
  }

  /** LRU `put(k)` as written under `keyval_cache`: its hit test
      (`if self.get(k)`) reaches the replaced `get`, which promotes a resident
      key and then answers with the value `put` has just recorded, `v`. A
      resident key whose value is falsy is therefore pushed on top a second
      time. From a well-formed order, the result is the node list from top to
      bottom, the keys of `_cache` and what `put` returns; the capacity test
      counts `_cache`, not the list. */
  ghost function LruPutThroughKvGet<K, V>(order: seq<K>, maxlen: nat, k: K, v: V, truthy: V -> bool)
    : (r: (seq<K>, set<K>, Option<K>))
    requires Distinct(order) && |order| <= maxlen && 0 < maxlen
    ensures |r.0| > 0 && r.0[0] == k && k in r.1
    ensures r.2.Some? ==> k !in order && r.2.value in order && r.2.value !in r.1
  {
    var touched := Lru.Touch(order, k);
    ElemsMembers(order);
    if k in order && truthy(v) then
      Lru.TouchMovesToFront(order, k);
      (touched, Elems(order), None)
    else
      var l := [k] + touched;
      var keys := Elems(order) + {k};
      ElemsCard(order);
      if |keys| <= maxlen then (l, keys, None)
      else
        assert k !in order && order != [];
        (l[..|l| - 1], keys - {l[|l| - 1]}, Some(l[|l| - 1]))
  }

  /** When the stored value is truthy, or the key is new, the as-written
      `put` is LRU's own `put`, and `_cache` holds exactly the listed keys. */
  lemma ThroughKvGetAgrees<K, V>(order: seq<K>, maxlen: nat, k: K, v: V, truthy: V -> bool)
    requires Distinct(order) && |order| <= maxlen && 0 < maxlen
    requires k !in order || truthy(v)
    ensures var (l, keys, ev) := LruPutThroughKvGet(order, maxlen, k, v, truthy);
            (l, ev) == Lru.Insert(order, maxlen, k) && keys == Elems(l)
  {
    if k in order {
      var l := Lru.Touch(order, k);
      Lru.TouchMovesToFront(order, k);
      ElemsMembers(order);
      ElemsMembers(l);
    } else {
      var o := [k] + order;
      DistinctPush(order, k);
      ElemsCons(k, order);
      ElemsCard(o);
      assert Elems(order) + {k} == Elems(o);
      if |o| > maxlen {
        ElemsRemove(o, |o| - 1);
        TrimIsRemove(o);
      }
    }
  }

  /** When the key is resident and its new value is falsy, the as-written
      `put` lists the key twice while `_cache` holds it once: the node list is
      one longer than the dictionary, and nothing is evicted. */
  lemma FalsyValuePushesTwice<K, V>(order: seq<K>, maxlen: nat, k: K, v: V, truthy: V -> bool)
    requires Distinct(order) && |order| <= maxlen && 0 < maxlen
    requires k in order && !truthy(v)
    ensures var (l, keys, ev) := LruPutThroughKvGet(order, maxlen, k, v, truthy);
            l == [k] + Lru.Touch(order, k) && l[0] == l[1] == k && !Distinct(l) &&
            keys == Elems(order) && |l| == |keys| + 1 && ev == None
  {
    Lru.TouchMovesToFront(order, k);
    ElemsMembers(order);
    ElemsCard(order);
  }

  /** `keyval_cache(LruCache(2))` with `put(1, 0)` twice: the second `put`
      finds key 1 resident, but its hit test sees the value 0 and pushes 1
      again, giving the listing `[1, 1]`; LRU's own `put` leaves `[1]`. */
  lemma FalsyValueDuplicates()
    ensures LruPutThroughKvGet([1], 2, 1, 0, IntTruthy) == ([1, 1], {1}, None)
    ensures Lru.Insert([1], 2, 1) == ([1], None)
  {
    assert Lru.Touch([1], 1) == [1] by {
      Lru.TouchAt([1], 0);
    }
    assert Elems([1]) == {1} by {
      assert [1][1..] == [];
    }
    assert !IntTruthy(0) && [1] + [1] == [1, 1] && |{1} + {1}| == 1;
  }

  /** The pairs `dump()` returns: the keys in the inner listing's order, each
      with its value. */
  function KeysOf<K, V>(ps: seq<(K, V)>): (r: seq<K>)
    ensures |r| == |ps| && forall j | 0 <= j < |ps| :: r[j] == ps[j].0
  {
    seq(|ps|, j requires 0 <= j < |ps| => ps[j].0)
  }

  class KeyValCache<K(==), V> {
    const inner: Cache<K>  // the wrapped cache
    var vals: map<K, V>    // `_vals`

    ghost predicate Valid()
      reads this, Repr(inner)
    {
      Caches.Valid(inner)
    }

    /** `keyval_cache(cache)`: the wrapped cache with an empty `_vals`. */
    constructor (c: Cache<K>)
      requires Caches.Valid(c)
      ensures Valid() && inner == c && vals == map[]
      ensures Keys(StateOf(c)) == {} ==> Covered(StateOf(c), vals) && Mirrors(StateOf(c), vals)
    {
      inner := c;
      vals := map[];
    }

    /** `put(k, v)`; `i` is the slot a random inner cache would draw. When the
        evicted key has no value the KeyError leaves `_vals` with `k` recorded. */
    method Put(k: K, v: V, i: nat) returns (r: Result<Option<(K, V)>>)
      requires Valid() && (inner.RandC? ==> i < inner.r.maxlen)
      modifies this, Repr(inner)
      ensures Valid()
      ensures Inv(old(StateOf(inner)))
      ensures var (s', st) := KvPut(old(StateOf(inner)), old(vals), k, v, i);
              StateOf(inner) == s' &&
              (st.Ok? ==> r == Ok(st.value.evicted) && vals == st.value.vals) &&
              (st.Err? ==> r == Err(st.error) && vals == old(vals)[k := v])
    {
      ValidInv(inner);
      vals := vals[k := v];
      var evicted := Caches.Put(inner, k, i);
      if evicted.Some? {
        if evicted.value !in vals {
          return Err(KeyError);
        }
        var val := vals[evicted.value];
        vals := vals - {evicted.value};
        return Ok(Some((evicted.value, val)));
      }
      return Ok(None);
    }

    /** `get(k)`: the value of a hit, `None` on a miss. */
    method Get(k: K) returns (r: Result<Option<V>>)
      requires Valid()
      modifies Repr(inner)
      ensures Valid()
      ensures (StateOf(inner), r) == KvGet(old(StateOf(inner)), vals, k)
    {
      var hit := Caches.Get(inner, k);
      if !hit {
        return Ok(None);
      }
      if k !in vals {
        return Err(KeyError);
      }
      return Ok(Some(vals[k]));
    }

    /** `dump()`: the inner listing, each key paired with its value; KeyError
        if a resident key has none. */
    method Dump() returns (r: Result<seq<(K, V)>>)
      requires Valid()
      ensures r.Err? <==> !Covered(StateOf(inner), vals)
      ensures r.Err? ==> r.error == KeyError
      ensures r.Ok? ==> Listing(StateOf(inner), KeysOf(r.value))
      ensures r.Ok? ==> forall j | 0 <= j < |r.value| :: r.value[j].0 in vals && r.value[j].1 == vals[r.value[j].0]
    {
      var d := Caches.Dump(inner);
      var ps: seq<(K, V)> := [];
      var j := 0;
      while j < |d|
        invariant j <= |d| && |ps| == j
        invariant forall l | 0 <= l < j :: d[l] in vals && ps[l] == (d[l], vals[d[l]])
      {
        if d[j] !in vals {
          assert d[j] in Keys(StateOf(inner));
          return Err(KeyError);
        }
        ps := ps + [(d[j], vals[d[j]])];
        j := j + 1;
      }
      assert KeysOf(ps) == d;
      assert Covered(StateOf(inner), vals) by {
        forall x | x in Keys(StateOf(inner)) ensures x in vals {
          var l :| 0 <= l < |d| && d[l] == x;
        }
      }
      return Ok(ps);
    }

    /** `clear()`: the inner cache and `_vals` together. */
    method Clear()
      requires Valid()
      modifies this, Repr(inner)
      ensures Valid() && StateOf(inner) == ClearSpec(old(StateOf(inner))) && vals == map[]
      ensures Mirrors(StateOf(inner), vals)
    {
      Caches.Clear(inner);
      ClearEmpties(old(StateOf(inner)));
      vals := map[];
    }
  }
}
