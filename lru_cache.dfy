/** Least Recently Used policy. The abstract state is the recency order, a
    sequence of distinct keys from most to least recently used; `Touch` and
    `Insert` say what `get` and `put` do to it. `LruCache` keeps the source's
    representation (a dictionary from key to node plus a doubly linked list with
    `top` and `bottom`), with the list held in an arena (see `LruList`). */
module Lru {
  import opened Common
  import opened LruList

  /** The elements of `s` other than `x`, in their order in `s`. */
  function Without<K(==)>(s: seq<K>, x: K): (r: seq<K>)
    ensures |r| <= |s|
    ensures forall y | y in r :: y in s && y != x
    ensures forall y | y in s && y != x :: y in r
    decreases |s|
  {
    if s == [] then []
    else if s[0] == x then Without(s[1..], x)
    else [s[0]] + Without(s[1..], x)
  }

  /** `get(k)`: a resident key moves to the front; nothing else moves. */
  function Touch<K(==)>(order: seq<K>, k: K): seq<K>
  {
    if k in order then [k] + Without(order, k) else order
  }

  /** `put(k)`: a resident key is touched; a new key goes to the front, and when
      that overflows the capacity the last key leaves and is returned. */
  function Insert<K(==)>(order: seq<K>, maxlen: nat, k: K): (seq<K>, Option<K>)
  {
    if k in order then (Touch(order, k), None)
    else
      var o := [k] + order;
      if |o| <= maxlen then (o, None) else (o[..|o| - 1], Some(o[|o| - 1]))
  }

  lemma {:induction false} WithoutAbsent<K>(s: seq<K>, x: K)
    requires x !in s
    ensures Without(s, x) == s
  {
    if s != [] {
      WithoutAbsent(s[1..], x);
    }
  }

  /** `Without` cuts out a single occurrence. */
  lemma {:induction false} WithoutSplit<K>(a: seq<K>, x: K, b: seq<K>)
    requires x !in a && x !in b
    ensures Without(a + [x] + b, x) == a + b
  {
    var s := a + [x] + b;
    if a == [] {
      assert s[1..] == b;
      WithoutAbsent(b, x);
    } else {
      assert s[0] == a[0] && s[1..] == a[1..] + [x] + b;
      WithoutSplit(a[1..], x, b);
      assert [a[0]] + (a[1..] + b) == a + b;
    }
  }

  /** In a duplicate-free sequence, `Without` just cuts out the one occurrence. */
  lemma WithoutAt<K>(s: seq<K>, i: nat)
    requires Distinct(s) && i < |s|
    ensures Without(s, s[i]) == s[..i] + s[i + 1..]
  {
    SplitAt(s, i);
    WithoutSplit(s[..i], s[i], s[i + 1..]);
  }

  /** Touching a resident key puts it first, keeps the same keys, and leaves the
      relative order of all other keys unchanged. */
  lemma TouchMovesToFront<K>(order: seq<K>, k: K)
    requires Distinct(order) && k in order
    ensures var r := Touch(order, k);
            |r| == |order| && r[0] == k && Distinct(r) &&
            (forall x :: x in r <==> x in order) &&
            Without(r, k) == Without(order, k)
  {
    var i :| 0 <= i < |order| && order[i] == k;
    WithoutAt(order, i);
    DistinctRemove(order, i);
    var rest := order[..i] + order[i + 1..];
    assert Touch(order, k) == [k] + rest;
    assert Without([k] + rest, k) == Without(rest, k);
    WithoutAbsent(rest, k);
  }

  /** Touching the key at position i cuts it out and puts it first; touching
      the first key changes nothing. */
  lemma TouchAt<K>(order: seq<K>, i: nat)
    requires Distinct(order) && i < |order|
    ensures Touch(order, order[i]) == [order[i]] + (order[..i] + order[i + 1..])
    ensures i == 0 ==> Touch(order, order[i]) == order
  {
    WithoutAt(order, i);
    if i == 0 {
      assert order[..0] + order[1..] == order[1..];
    }
  }

  /** `put` of a new key: it becomes first; when the cache was full the previous
      last key is evicted; the cache stays within capacity. */
  lemma InsertNewKey<K>(order: seq<K>, maxlen: nat, k: K)
    requires Distinct(order) && |order| <= maxlen && 0 < maxlen && k !in order
    ensures var (r, ev) := Insert(order, maxlen, k);
            r[0] == k && Distinct(r) && |r| <= maxlen &&
            (ev.Some? <==> |order| == maxlen) &&
            (ev.None? ==> r == [k] + order) &&
            (ev.Some? ==> ev.value == order[|order| - 1] && ev.value != k && ev.value !in r &&
                          r == [k] + order[..|order| - 1])
  {
    var o := [k] + order;
    if |o| > maxlen {
      assert o[..|o| - 1] == [k] + order[..|order| - 1];
      assert order[|order| - 1] !in order[..|order| - 1];
    }
  }

  /** The properties every `put` keeps, whatever the key: capacity, no duplicates,
      and the evicted key (if any) was resident and no longer is. */
  lemma InsertKeepsInvariant<K>(order: seq<K>, maxlen: nat, k: K)
    requires Distinct(order) && |order| <= maxlen && 0 < maxlen
    ensures var (r, ev) := Insert(order, maxlen, k);
            Distinct(r) && |r| <= maxlen && k in r &&
            (ev.Some? ==> ev.value in order && ev.value !in r) &&
            (forall x :: x in r <==> (x in order || x == k) && ev != Some(x))
  {
    if k in order {
      TouchMovesToFront(order, k);
    } else {
      InsertNewKey(order, maxlen, k);
      var (r, ev) := Insert(order, maxlen, k);
      if ev.Some? {
        forall x ensures x in r <==> (x in order || x == k) && ev != Some(x) {
          if x in order && x != ev.value {
            var j :| 0 <= j < |order| && order[j] == x;
            assert j < |order| - 1 && r[j + 1] == x;
          }
        }
      }
    }
  }

  class LruCache<K(==)> {
    var cache: map<K, Handle>        // `_cache`: key to the handle of its node
    var nodes: map<Handle, Node<K>>  // the arena that holds the list nodes
    var top: Option<Handle>          // most recently used node
    var bottom: Option<Handle>       // least recently used node
    var next: Handle                 // first arena handle never handed out
    const maxlen: nat

    ghost var order: seq<K>          // the keys from top to bottom
    ghost var hs: seq<Handle>        // their nodes, in the same order

    ghost predicate Valid()
      reads this
    {
      0 < maxlen && |order| <= maxlen &&
      Shape(cache, nodes, top, bottom, next, order, hs)
    }

    constructor (maxlen: nat)
      requires 0 < maxlen
      ensures Valid() && this.maxlen == maxlen && order == []
    {
      cache, nodes := map[], map[];
      top, bottom, next := None, None, 0;
      this.maxlen := maxlen;
      order, hs := [], [];
    }

    /** `len(cache)`. */
    function Len(): (n: nat)
      reads this
      requires Valid()
      ensures n == |order| && n <= maxlen
    {
      |cache|
    }

    /** `has(k)`: membership, without touching the order. */
    function Has(k: K): (b: bool)
      reads this
      requires Valid()
      ensures b <==> k in order
    {
      IndexedKeys(cache, hs, order);
      k in cache
    }

    /** `dump()`: walks the list from `top` along `down`. */
    method Dump() returns (d: seq<K>)
      requires Valid()
      ensures d == order
    {
      d := [];
      var cur := top;
      while cur.Some?
        invariant |d| <= |hs| && d == order[..|d|]
        invariant cur == if |d| < |hs| then Some(hs[|d|]) else None
        decreases |hs| - |d|
      {
        ghost var j := |d|;
        assert nodes[hs[j]] == Node(UpOf(hs, j), DownOf(hs, j), order[j]);
        d := d + [nodes[cur.value].val];
        cur := nodes[cur.value].down;
        assert d == order[..j + 1];
      }
    }

    /** `position(k)`: the rank of `k` from the top; ValueError when absent. */
    method Position(k: K) returns (r: Result<nat>)
      requires Valid()
      ensures r.Ok? <==> k in order
      ensures r.Ok? ==> r.value < |order| && order[r.value] == k
      ensures r.Err? ==> r.error == ValueError
    {
      if k !in cache {
        return Err(ValueError);
      }
      IndexedKeys(cache, hs, order);
      var index := 0;
      var cur := top;
      while cur.Some?
        invariant index <= |hs|
        invariant cur == if index < |hs| then Some(hs[index]) else None
        invariant forall j :: 0 <= j < index ==> order[j] != k
        decreases |hs| - index
      {
        if nodes[cur.value].val == k {
          return Ok(index);
        }
        cur := nodes[cur.value].down;
        index := index + 1;
      }
      assert false;
    }

    /** `get(k)`: a hit moves the key's node to the top of the list. */
    method Get(k: K) returns (hit: bool)
      requires Valid()
      modifies this
      ensures Valid()
      ensures hit == (k in old(order))
      ensures order == Touch(old(order), k)
      ensures !hit ==> unchanged(this)
    {
      if k !in cache {
        IndexedKeys(cache, hs, order);
        return false;
      }
      Locate(cache, nodes, top, bottom, next, order, hs, k);
      ghost var i := IndexOf(order, k);
      TouchAt(order, i);
      var node := nodes[cache[k]];
      if node.up.None? {
        return true;  // already on top
      }
      Detach(k, i);
      PushOnTop(k);
      return true;
    }

    /** The unlinking half of a `get` hit below the top: `node.down.up = node.up`
        (or `self.bottom = node.up` for the bottom node), `node.up.down = node.down`
        and `del self._cache[k]`. */
    method Detach(k: K, ghost i: nat)
      requires Shape(cache, nodes, top, bottom, next, order, hs)
      requires 0 < i < |order| && order[i] == k
      modifies this
      ensures Shape(cache, nodes, top, bottom, next, order, hs)
      ensures order == old(order[..i] + order[i + 1..]) && hs == old(hs[..i] + hs[i + 1..])
    {
      ghost var c0, n0, b0, o0, h0 := cache, nodes, bottom, order, hs;
      UnlinkStep(c0, n0, top, b0, next, o0, h0, i);
      var node := nodes[cache[k]];
      if node.down.Some? {
        nodes := nodes[node.down.value := nodes[node.down.value].(up := node.up)];
      } else {
        bottom := node.up;
      }
      nodes := nodes[node.up.value := nodes[node.up.value].(down := node.down)];
      cache := cache - {k};
      order, hs := order[..i] + order[i + 1..], hs[..i] + hs[i + 1..];
    }

    /** `obj = Node(self.top, k)` with the wiring that makes it the new top and
        `self._cache[k] = obj`, for a key that is not listed. */
    method PushOnTop(k: K)
      requires Shape(cache, nodes, top, bottom, next, order, hs) && k !in order
      modifies this
      ensures Shape(cache, nodes, top, bottom, next, order, hs)
      ensures order == [k] + old(order) && hs == [old(next)] + old(hs)
    {
      PushStep(cache, nodes, top, bottom, next, order, hs, k);
      var obj := next;
      next := next + 1;
      nodes := nodes[obj := Node(None, top, k)];
      if bottom.None? {
        bottom := Some(obj);
      }
      if top.Some? {
        nodes := nodes[top.value := nodes[top.value].(up := Some(obj))];
      }
      top := Some(obj);
      cache := cache[k := obj];
      order, hs := [k] + order, [obj] + hs;
    }

    /** `put(k)`: a hit is a `get`; otherwise a new node goes on top and, past
        the capacity, the bottom node is unlinked and its key returned. */
    method Put(k: K) returns (evicted: Option<K>)
      requires Valid()
      modifies this
      ensures Valid()
      ensures (order, evicted) == Insert(old(order), maxlen, k)
    {
      ghost var o0 := order;
      var hit := Get(k);
      if hit {
        return None;
      }
      InsertNewKey(o0, maxlen, k);
      PushOnTop(k);
      if |cache| <= maxlen {
        return None;
      }
      if bottom == top {
        // a single node cannot exceed a positive capacity
        assert false;
      }
      var ev := EvictBottom();
      return Some(ev);
    }

    /** The eviction in `put`: `a = self.bottom`, `a.up.down = None`,
        `self.bottom = a.up`, `a.up = None`, `del self._cache[evicted]`, for a
        list of two or more nodes. */
    method EvictBottom() returns (evicted: K)
      requires Shape(cache, nodes, top, bottom, next, order, hs) && |hs| >= 2
      modifies this
      ensures Shape(cache, nodes, top, bottom, next, order, hs)
      ensures evicted == old(order[|order| - 1])
      ensures order == old(order[..|order| - 1]) && hs == old(hs[..|hs| - 1])
    {
      ghost var c1, n1, b1, o1, h1 := cache, nodes, bottom, order, hs;
      EvictStep(c1, n1, top, b1, next, o1, h1);
      var a := bottom.value;
      evicted := nodes[a].val;
      var u := nodes[a].up.value;
      nodes := nodes[u := nodes[u].(down := None)];
      bottom := nodes[a].up;
      nodes := nodes[a := nodes[a].(up := None)];
      cache := cache - {evicted};
      order, hs := order[..|order| - 1], hs[..|hs| - 1];
    }

    /** `clear()`: forget every key and both list ends. */
    method Clear()
      requires Valid()
      modifies this
      ensures Valid() && order == []
    {
      cache := map[];
      bottom := None;
      top := None;
      order, hs := [], [];
    }
  }

  /** `LruCache(maxlen)`: ValueError unless the capacity is positive. */
  method NewLruCache<K(==)>(maxlen: int) returns (r: Result<LruCache<K>>)
    ensures r.Err? <==> maxlen <= 0
    ensures r.Err? ==> r.error == ValueError
    ensures r.Ok? ==> fresh(r.value) && r.value.Valid() && r.value.maxlen == maxlen && r.value.order == []
  {
    if maxlen <= 0 {
      return Err(ValueError);
    }
    var c := new LruCache(maxlen);
    return Ok(c);
  }

  /** Capacity 2, keys A, B, C as 1, 2, 3: `put(A)`, `put(B)`, `get(A)`,
      `put(C)` evicts `B` and leaves the order `[C, A]`. */
  lemma Scenario()
    ensures Insert([], 2, 1) == ([1], None)
    ensures Insert([1], 2, 2) == ([2, 1], None)
    ensures Touch([2, 1], 1) == [1, 2]
    ensures Insert([1, 2], 2, 3) == ([3, 1], Some(2))
  {
    assert [1] + [] == [1];
    assert [2] + [1] == [2, 1];
    assert Without([2, 1], 1) == [2] by {
      assert [2, 1][1..] == [1];
      assert [1][1..] == [];
    }
    assert ([3] + [1, 2])[..2] == [3, 1];
  }
}
