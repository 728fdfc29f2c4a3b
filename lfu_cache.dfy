/** Least Frequently Used policy. `_cache` maps each resident key to the pair
    `(freq, t)`: how often it was requested and the insertion sequence number
    drawn from the counter `t`. Pairs are compared lexicographically, as Python
    compares tuples; the eviction victim is the key with the smallest pair. */
module Lfu {
  import opened Common

  /** The tuple `(freq, t)`. */
  datatype Entry = Entry(freq: nat, t: nat)

  /** Python's `<` on two-element tuples. */
  predicate Below(a: Entry, b: Entry)
  {
    a.freq < b.freq || (a.freq == b.freq && a.t < b.t)
  }

  /** No two resident keys share a sequence number. */
  ghost predicate Stamped<K>(m: map<K, Entry>)
  {
    forall x, y | x in m && y in m && x != y :: m[x].t != m[y].t
  }

  /** `x` carries the smallest pair of `m`. */
  predicate IsMin<K>(m: map<K, Entry>, x: K)
  {
    x in m && forall y | y in m && y != x :: Below(m[x], m[y])
  }

  /** `x` carries the largest pair of `m`. */
  predicate IsMax<K>(m: map<K, Entry>, x: K)
  {
    x in m && forall y | y in m && y != x :: Below(m[y], m[x])
  }

  /** `a` comes first in the order `up` (`up`: ascending, else descending). */
  predicate Before(up: bool, a: Entry, b: Entry)
  {
    if up then Below(a, b) else Below(b, a)
  }

  /** `x` comes first among the keys `s` of `m` in the order `up`. */
  ghost predicate FirstIn<K>(m: map<K, Entry>, s: set<K>, up: bool, x: K)
    requires s <= m.Keys
  {
    x in s && forall y | y in s && y != x :: Before(up, m[x], m[y])
  }

  /** Distinct sequence numbers make the order total: every non-empty set of
      resident keys has a first element, in either direction. */
  lemma {:induction false} FirstExists<K>(m: map<K, Entry>, s: set<K>, up: bool)
    requires Stamped(m) && s <= m.Keys && s != {}
    ensures exists x :: FirstIn(m, s, up, x)
    decreases s
  {
    var z :| z in s;
    var r := s - {z};
    if r == {} {
      forall y | y in s ensures y == z {
        assert y !in r;
      }
      assert FirstIn(m, s, up, z);
    } else {
      FirstExists(m, r, up);
      var x :| FirstIn(m, r, up, x);
      if Before(up, m[z], m[x]) {
        forall y | y in s && y != z ensures Before(up, m[z], m[y]) {
          if y != x {
            assert Before(up, m[x], m[y]);
          }
        }
        assert FirstIn(m, s, up, z);
      } else {
        assert m[z].t != m[x].t;
        assert FirstIn(m, s, up, x);
      }
    }
  }

  /** At most one key satisfies `IsMin`, and one does when `m` is not empty. */
  lemma MinExists<K>(m: map<K, Entry>)
    requires Stamped(m) && |m| > 0
    ensures exists x :: IsMin(m, x)
    ensures forall x, y | IsMin(m, x) && IsMin(m, y) :: x == y
  {
    var z :| z in m;
    FirstExists(m, m.Keys, true);
    var x :| FirstIn(m, m.Keys, true, x);
    assert IsMin(m, x);
  }

  lemma MaxExists<K>(m: map<K, Entry>)
    requires Stamped(m) && |m| > 0
    ensures exists x :: IsMax(m, x)
    ensures forall x, y | IsMax(m, x) && IsMax(m, y) :: x == y
  {
    var z :| z in m;
    FirstExists(m, m.Keys, false);
    var x :| FirstIn(m, m.Keys, false, x);
    assert IsMax(m, x);
  }

  /** `min(self._cache, key=lambda x: self._cache[x])`. */
  function MinKey<K>(m: map<K, Entry>): (x: K)
    requires Stamped(m) && |m| > 0
    ensures IsMin(m, x)
  {
    MinExists(m);
    var x :| IsMin(m, x);
    x
  }

  /** Putting the largest key in front of a descending listing of the others
      gives a descending listing of all of `m`. */
  lemma ConsDesc<K>(m: map<K, Entry>, x: K, tail: seq<K>)
    requires IsMax(m, x)
    requires Distinct(tail) && |tail| == |m - {x}|
    requires forall i | 0 <= i < |tail| :: tail[i] in m - {x}
    requires forall i, j | 0 <= i < j < |tail| :: Below((m - {x})[tail[j]], (m - {x})[tail[i]])
    ensures |[x] + tail| == |m| && Distinct([x] + tail)
    ensures forall i | 0 <= i < |[x] + tail| :: ([x] + tail)[i] in m
    ensures forall i, j | 0 <= i < j < |[x] + tail| :: Below(m[([x] + tail)[j]], m[([x] + tail)[i]])
  {
    var d := [x] + tail;
    assert m.Keys == (m - {x}).Keys + {x};
    forall i, j | 0 <= i < j < |d| ensures Below(m[d[j]], m[d[i]]) {
      assert d[j] == tail[j - 1];
      if i > 0 {
        assert d[i] == tail[i - 1];
      }
    }
  }

  /** `sorted(self._cache, key=lambda x: self._cache[x], reverse=True)`:
      repeatedly the key with the largest pair. */
  function SortedDesc<K>(m: map<K, Entry>): (d: seq<K>)
    requires Stamped(m)
    ensures |d| == |m| && Distinct(d)
    ensures forall i | 0 <= i < |d| :: d[i] in m
    ensures forall i, j | 0 <= i < j < |d| :: Below(m[d[j]], m[d[i]])
    decreases |m|
  {
    if |m| == 0 then []
    else
      MaxExists(m);
      var x :| IsMax(m, x);
      var tail := SortedDesc(m - {x});
      ConsDesc(m, x, tail);
      [x] + tail
  }

  /** Every resident key was requested at least once and got its sequence
      number from the counter, which has not yet reached `t + 1`. */
  ghost predicate Counted<K>(m: map<K, Entry>, t: nat)
  {
    forall x | x in m :: 1 <= m[x].freq && 1 <= m[x].t <= t
  }

  /** `put(k)` on the pairs `m` and the counter `t`: a resident key changes
      nothing; a new key gets `(1, t + 1)` and, past the capacity, the key with
      the smallest pair is removed and returned. */
  function Insert<K>(m: map<K, Entry>, t: nat, maxlen: nat, k: K): (map<K, Entry>, nat, Option<K>)
    requires Stamped(m) && Counted(m, t)
  {
    if k in m then (m, t, None)
    else
      var m1 := m[k := Entry(1, t + 1)];
      AddStamp(m, t, k);
      if |m1| > maxlen then
        var x := MinKey(m1);
        (m1 - {x}, t + 1, Some(x))
      else (m1, t + 1, None)
  }

  /** What `put` promises: a hit changes nothing; a miss hands out the next
      sequence number, larger than every one in use; the key with the smallest
      pair is evicted exactly when the new key overflows the capacity; the
      invariant is kept. */
  lemma InsertSpec<K>(m: map<K, Entry>, t: nat, maxlen: nat, k: K)
    requires Stamped(m) && Counted(m, t) && |m| <= maxlen
    ensures var (r, t', ev) := Insert(m, t, maxlen, k);
            Stamped(r) && Counted(r, t') && |r| <= maxlen &&
            (k in m ==> r == m && t' == t && ev == None) &&
            (k !in m ==> t' == t + 1 && forall x | x in m :: m[x].t < t') &&
            (k !in m ==>
               var m1 := m[k := Entry(1, t + 1)];
               (ev.Some? <==> |m| == maxlen) &&
               (ev.None? ==> r == m1) &&
               (ev.Some? ==> IsMin(m1, ev.value) && r == m1 - {ev.value}))
  {
    if k !in m {
      var m1 := m[k := Entry(1, t + 1)];
      AddStamp(m, t, k);
      if |m1| > maxlen {
        DropStamp(m1, t + 1, MinKey(m1));
      }
    }
  }

  /** `put` keeps the invariant of the pairs and the capacity bound. */
  lemma InsertKeeps<K>(m: map<K, Entry>, t: nat, maxlen: nat, k: K)
    requires Stamped(m) && Counted(m, t) && |m| <= maxlen
    ensures var (r, t', _) := Insert(m, t, maxlen, k);
            Stamped(r) && Counted(r, t') && |r| <= maxlen
  {
    InsertSpec(m, t, maxlen, k);
  }

  /** A new key with the next sequence number keeps the stamps distinct. */
  lemma AddStamp<K>(m: map<K, Entry>, t: nat, k: K)
    requires Stamped(m) && Counted(m, t) && k !in m
    ensures var m1 := m[k := Entry(1, t + 1)];
            Stamped(m1) && Counted(m1, t + 1) && |m1| == |m| + 1 &&
            forall x | x in m :: m[x].t < t + 1
  {
  }

  /** Removing a key keeps the invariant of the others. */
  lemma DropStamp<K>(m: map<K, Entry>, t: nat, x: K)
    requires Stamped(m) && Counted(m, t) && x in m
    ensures Stamped(m - {x}) && Counted(m - {x}, t) && |m - {x}| == |m| - 1
  {
  }

  class LfuCache<K(==)> {
    var cache: map<K, Entry>  // `_cache`
    var t: nat                // the last sequence number handed out
    const maxlen: nat

    ghost predicate Valid()
      reads this
    {
      0 < maxlen && |cache| <= maxlen && Stamped(cache) && Counted(cache, t)
    }

    constructor (maxlen: nat)
      requires 0 < maxlen
      ensures Valid() && this.maxlen == maxlen && cache == map[] && t == 0
    {
      cache := map[];
      t := 0;
      this.maxlen := maxlen;
    }

    /** `len(cache)`. */
    function Len(): (n: nat)
      reads this
      requires Valid()
      ensures n == |cache| && n <= maxlen
    {
      |cache|
    }

    /** `has(k)`. */
    function Has(k: K): (b: bool)
      reads this
      ensures b <==> k in cache
    {
      k in cache
    }

    /** `dump()`: every resident key once, by decreasing `(freq, t)`. */
    function Dump(): (d: seq<K>)
      reads this
      requires Valid()
      ensures |d| == |cache| && Distinct(d)
      ensures forall i | 0 <= i < |d| :: d[i] in cache
      ensures forall i, j | 0 <= i < j < |d| :: Below(cache[d[j]], cache[d[i]])
    {
      SortedDesc(cache)
    }

    /** `get(k)`: a hit adds one to the key's frequency and keeps its
        sequence number. */
    method Get(k: K) returns (hit: bool)
      requires Valid()
      modifies this
      ensures Valid() && t == old(t)
      ensures hit <==> k in old(cache)
      ensures hit ==> cache == old(cache)[k := Entry(old(cache)[k].freq + 1, old(cache)[k].t)]
      ensures !hit ==> cache == old(cache)
    {
      if k in cache {
        var e := cache[k];
        cache := cache[k := Entry(e.freq + 1, e.t)];
        return true;
      }
      return false;
    }

    /** `put(k)`: a new key enters with `(1, t + 1)`; past the capacity the
        key with the smallest pair leaves, which may be the new key itself. A
        resident key changes nothing. */
    method Put(k: K) returns (evicted: Option<K>)
      requires Valid()
      modifies this
      ensures Valid()
      ensures (cache, t, evicted) == Insert(old(cache), old(t), maxlen, k)
    {
      InsertKeeps(cache, t, maxlen, k);
      if k !in cache {
        t := t + 1;
        cache := cache[k := Entry(1, t)];
        if |cache| > maxlen {
          var x := MinKey(cache);
          cache := cache - {x};
          return Some(x);
        }
      }
      return None;
    }

    /** `clear()`: forget every key; the counter `t` is not reset. */
    method Clear()
      requires Valid()
      modifies this
      ensures Valid() && cache == map[] && t == old(t)
    {
      cache := map[];
    }
  }

  /** Inserting a new key into a full cache evicts the new key itself exactly
      when every other resident has been requested at least twice: it has the
      lowest possible frequency and the newest sequence number. */
  lemma NewKeyEvictedIff<K>(m: map<K, Entry>, k: K, t: nat)
    requires k !in m && forall x | x in m :: 1 <= m[x].freq && m[x].t <= t
    ensures var m' := m[k := Entry(1, t + 1)];
            IsMin(m', k) <==> forall x | x in m :: m[x].freq >= 2
  {
    var m' := m[k := Entry(1, t + 1)];
    if forall x | x in m :: m[x].freq >= 2 {
      assert IsMin(m', k);
    }
    if IsMin(m', k) {
      forall x | x in m ensures m[x].freq >= 2 {
        assert Below(m'[k], m'[x]);
      }
    }
  }

  /** Ties on frequency go to the oldest insertion: the victim has the lowest
      frequency, and among the keys of that frequency the smallest sequence
      number. */
  lemma EvictionTiesToOldest<K>(m: map<K, Entry>, x: K)
    requires IsMin(m, x)
    ensures forall y | y in m :: m[x].freq <= m[y].freq
    ensures forall y | y in m && y != x && m[y].freq == m[x].freq :: m[x].t < m[y].t
  {
  }

  /** The victim chosen by `min` is the last element of `dump()`. */
  lemma MinIsLastOfDump<K>(m: map<K, Entry>)
    requires Stamped(m) && |m| > 0
    ensures var d := SortedDesc(m); d[|d| - 1] == MinKey(m)
  {
    var d := SortedDesc(m);
    var x := d[|d| - 1];
    forall y | y in m && y != x ensures Below(m[x], m[y]) {
      var j :| 0 <= j < |d| && d[j] == y by {
        DistinctCover(d, m);
      }
      assert j < |d| - 1;
    }
    MinExists(m);
  }

  /** A duplicate-free listing of keys of `m`, as long as `m`, lists them all. */
  lemma DistinctCover<K>(d: seq<K>, m: map<K, Entry>)
    requires Distinct(d) && |d| == |m| && forall i | 0 <= i < |d| :: d[i] in m
    ensures forall y | y in m :: y in d
  {
    ElemsCard(d);
    ElemsMembers(d);
    assert Elems(d) <= m.Keys;
    assert m.Keys * Elems(d) == Elems(d);
    assert |m.Keys - Elems(d)| == |m.Keys| - |m.Keys * Elems(d)|;
    assert m.Keys - Elems(d) == {};
  }

  /** `LfuCache(maxlen)`: ValueError unless the capacity is positive. */
  method NewLfuCache<K(==)>(maxlen: int) returns (r: Result<LfuCache<K>>)
    ensures r.Err? <==> maxlen <= 0
    ensures r.Err? ==> r.error == ValueError
    ensures r.Ok? ==> fresh(r.value) && r.value.Valid() && r.value.maxlen == maxlen &&
                      r.value.cache == map[] && r.value.t == 0
  {
    if maxlen <= 0 {
      return Err(ValueError);
    }
    var c := new LfuCache(maxlen);
    return Ok(c);
  }

  /** Capacity 2, keys A, B, C as 1, 2, 3: `put(A)` gets `(1, 1)`, `put(B)`
      gets `(1, 2)`, `get(A)` raises A to `(2, 1)`, and `put(C)` evicts `B`,
      the less frequently used key; `dump()` is then `[A, C]`. */
  lemma Scenario()
    ensures Insert(map[], 0, 2, 1) == (map[1 := Entry(1, 1)], 1, None)
    ensures Insert(map[1 := Entry(1, 1)], 1, 2, 2) == (map[1 := Entry(1, 1), 2 := Entry(1, 2)], 2, None)
    ensures Insert(map[1 := Entry(2, 1), 2 := Entry(1, 2)], 2, 2, 3) ==
            (map[1 := Entry(2, 1), 3 := Entry(1, 3)], 3, Some(2))
    ensures SortedDesc(map[1 := Entry(2, 1), 3 := Entry(1, 3)]) == [1, 3]
  {
    var m0: map<int, Entry> := map[];
    assert m0[1 := Entry(1, 1)] == map[1 := Entry(1, 1)];
    var m3 := map[1 := Entry(2, 1), 2 := Entry(1, 2), 3 := Entry(1, 3)];
    assert map[1 := Entry(2, 1), 2 := Entry(1, 2)][3 := Entry(1, 3)] == m3;
    assert IsMin(m3, 2);
    MinExists(m3);
    var m4 := map[1 := Entry(2, 1), 3 := Entry(1, 3)];
    assert m3 - {2} == m4;
    var d := SortedDesc(m4);
    assert d[0] in m4 && d[1] in m4 && d[0] != d[1];
    assert Below(m4[d[1]], m4[d[0]]);
  }
}
