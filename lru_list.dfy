/** The doubly linked recency list behind the LRU policy, modelled as an arena:
    nodes live in a map from integer handles to node records, and `up`/`down`
    hold handles instead of references. `Linked(nodes, hs, order)` says that the
    handles `hs` form the list from top (most recent) to bottom (least recent)
    and that the node at position i stores `order[i]`. The lemmas are the three
    pointer surgeries the policy performs: push a node on top, unlink an inner
    node, and drop the bottom node. */
module LruList {
  import opened Common

  type Handle = nat

  /** A list node; `up` points toward the top, `down` toward the bottom. */
  datatype Node<K> = Node(up: Option<Handle>, down: Option<Handle>, val: K)

  function UpOf(hs: seq<Handle>, i: nat): Option<Handle>
    requires i < |hs|
  {
    if i == 0 then None else Some(hs[i - 1])
  }

  function DownOf(hs: seq<Handle>, i: nat): Option<Handle>
    requires i < |hs|
  {
    if i + 1 < |hs| then Some(hs[i + 1]) else None
  }

  /** The `top` handle of a list laid out as `hs`. */
  function Head(hs: seq<Handle>): Option<Handle>
  {
    if hs == [] then None else Some(hs[0])
  }

  /** The `bottom` handle of a list laid out as `hs`. */
  function Last(hs: seq<Handle>): Option<Handle>
  {
    if hs == [] then None else Some(hs[|hs| - 1])
  }

  ghost predicate Linked<K>(nodes: map<Handle, Node<K>>, hs: seq<Handle>, order: seq<K>)
  {
    |hs| == |order| &&
    forall i {:trigger nodes[hs[i]]} {:trigger hs[i] in nodes} :: 0 <= i < |hs| ==>
      hs[i] in nodes && nodes[hs[i]] == Node(UpOf(hs, i), DownOf(hs, i), order[i])
  }

  /** The dictionary `_cache` maps each listed key to the handle of its node
      and holds nothing else (it has as many entries as the list has nodes). */
  ghost predicate Indexed<K>(cache: map<K, Handle>, hs: seq<Handle>, order: seq<K>)
  {
    |hs| == |order| && |cache| == |order| &&
    forall i :: 0 <= i < |order| ==> order[i] in cache && cache[order[i]] == hs[i]
  }

  /** Every key of `_cache` is on the list. */
  lemma IndexedKeys<K>(cache: map<K, Handle>, hs: seq<Handle>, order: seq<K>)
    requires Indexed(cache, hs, order) && Distinct(order)
    ensures forall x | x in cache :: x in order
  {
    var listed := Elems(order);
    var keys := cache.Keys;
    ElemsCard(order);
    ElemsMembers(order);
    assert listed <= keys by {
      forall x | x in listed ensures x in keys {
        var i :| 0 <= i < |order| && order[i] == x;
      }
    }
    assert keys * listed == listed;
    assert |keys - listed| == |keys| - |keys * listed|;
    assert keys - listed == {};
  }

  /** Writing a node that is not on the list leaves the list intact. */
  lemma LinkedFrame<K>(nodes: map<Handle, Node<K>>, hs: seq<Handle>, order: seq<K>, h: Handle, n: Node<K>)
    requires Linked(nodes, hs, order) && h !in hs
    ensures Linked(nodes[h := n], hs, order)
  {
  }

  /** `Node(self.top, k)` followed by `self.top.up = obj`: the new node heads the list. */
  lemma PushTop<K>(nodes: map<Handle, Node<K>>, hs: seq<Handle>, order: seq<K>, h: Handle, k: K)
    requires Linked(nodes, hs, order) && Distinct(hs) && h !in hs
    ensures var n1 := nodes[h := Node(None, Head(hs), k)];
            var n2 := if hs == [] then n1 else n1[hs[0] := n1[hs[0]].(up := Some(h))];
            Linked(n2, [h] + hs, [k] + order)
  {
    var n1 := nodes[h := Node(None, Head(hs), k)];
    var n2 := if hs == [] then n1 else n1[hs[0] := n1[hs[0]].(up := Some(h))];
    var hs', order' := [h] + hs, [k] + order;
    forall i | 0 <= i < |hs'|
      ensures hs'[i] in n2 && n2[hs'[i]] == Node(UpOf(hs', i), DownOf(hs', i), order'[i])
    {
      if i == 0 {
      } else if i == 1 {
        assert hs'[1] == hs[0] && nodes[hs[0]] == Node(UpOf(hs, 0), DownOf(hs, 0), order[0]);
      } else {
        assert hs'[i] == hs[i - 1] && hs[i - 1] != hs[0];
        assert nodes[hs[i - 1]] == Node(UpOf(hs, i - 1), DownOf(hs, i - 1), order[i - 1]);
      }
    }
  }

  /** Lines `node.down.up = node.up` (or moving `bottom`) and `node.up.down = node.down`:
      an inner node with an upper neighbour leaves the list. */
  lemma Unlink<K>(nodes: map<Handle, Node<K>>, hs: seq<Handle>, order: seq<K>, i: nat)
    requires Linked(nodes, hs, order) && Distinct(hs) && 0 < i < |hs|
    ensures nodes[hs[i]] == Node(Some(hs[i - 1]), DownOf(hs, i), order[i])
    ensures var node := nodes[hs[i]];
            var n1 := if node.down.Some? then nodes[node.down.value := nodes[node.down.value].(up := node.up)] else nodes;
            var n2 := n1[node.up.value := n1[node.up.value].(down := node.down)];
            Linked(n2, hs[..i] + hs[i + 1..], order[..i] + order[i + 1..])
  {
    assert nodes[hs[i]] == Node(UpOf(hs, i), DownOf(hs, i), order[i]);
    var n1 := if i + 1 < |hs| then nodes[hs[i + 1] := nodes[hs[i + 1]].(up := Some(hs[i - 1]))] else nodes;
    var n2 := n1[hs[i - 1] := n1[hs[i - 1]].(down := DownOf(hs, i))];
    var hs', order' := hs[..i] + hs[i + 1..], order[..i] + order[i + 1..];
    assert |hs'| == |hs| - 1;
    forall j | 0 <= j < |hs'|
      ensures hs'[j] in n2 && n2[hs'[j]] == Node(UpOf(hs', j), DownOf(hs', j), order'[j])
    {
      if j < i - 1 {
        assert hs'[j] == hs[j] && order'[j] == order[j] && hs[j] != hs[i - 1] && hs[j] != hs[i];
        assert j + 1 < i ==> hs'[j + 1] == hs[j + 1];
        if i + 1 < |hs| { assert hs[j] != hs[i + 1]; }
        assert nodes[hs[j]] == Node(UpOf(hs, j), DownOf(hs, j), order[j]);
      } else if j == i - 1 {
        assert hs'[j] == hs[i - 1] && order'[j] == order[i - 1];
        if i + 1 < |hs| { assert hs[i - 1] != hs[i + 1] && hs'[j + 1] == hs[i + 1]; }
        assert j > 0 ==> hs'[j - 1] == hs[j - 1];
        assert nodes[hs[i - 1]] == Node(UpOf(hs, i - 1), DownOf(hs, i - 1), order[i - 1]);
      } else if j == i {
        assert hs'[j] == hs[i + 1] && order'[j] == order[i + 1] && hs'[j - 1] == hs[i - 1];
        assert hs[i + 1] != hs[i - 1];
        assert j + 1 < |hs'| ==> hs'[j + 1] == hs[i + 2];
        assert nodes[hs[i + 1]] == Node(UpOf(hs, i + 1), DownOf(hs, i + 1), order[i + 1]);
      } else {
        assert hs'[j] == hs[j + 1] && order'[j] == order[j + 1] && hs'[j - 1] == hs[j];
        assert hs[j + 1] != hs[i - 1] && hs[j + 1] != hs[i + 1];
        assert j + 1 < |hs'| ==> hs'[j + 1] == hs[j + 2];
        assert nodes[hs[j + 1]] == Node(UpOf(hs, j + 1), DownOf(hs, j + 1), order[j + 1]);
      }
    }
  }

  /** Lines `a.up.down = None`, `self.bottom = a.up`, `a.up = None`: the bottom node
      of a list of two or more leaves it. */
  lemma DropLast<K>(nodes: map<Handle, Node<K>>, hs: seq<Handle>, order: seq<K>)
    requires Linked(nodes, hs, order) && Distinct(hs) && |hs| >= 2
    ensures nodes[hs[|hs| - 1]] == Node(Some(hs[|hs| - 2]), None, order[|hs| - 1])
    ensures var a := hs[|hs| - 1];
            var u := nodes[a].up.value;
            var n1 := nodes[u := nodes[u].(down := None)];
            var n2 := n1[a := n1[a].(up := None)];
            n1[a].up == Some(hs[|hs| - 2]) &&
            Linked(n2, hs[..|hs| - 1], order[..|hs| - 1])
  {
    var n := |hs|;
    var a, b := hs[n - 1], hs[n - 2];
    assert nodes[a] == Node(UpOf(hs, n - 1), DownOf(hs, n - 1), order[n - 1]);
    var n1 := nodes[b := nodes[b].(down := None)];
    var n2 := n1[a := n1[a].(up := None)];
    var hs', order' := hs[..n - 1], order[..n - 1];
    forall j | 0 <= j < |hs'|
      ensures hs'[j] in n2 && n2[hs'[j]] == Node(UpOf(hs', j), DownOf(hs', j), order'[j])
    {
      assert hs'[j] == hs[j] && hs[j] != a;
      assert j > 0 ==> hs'[j - 1] == hs[j - 1];
      assert j + 1 < |hs'| ==> hs'[j + 1] == hs[j + 1] && hs[j] != b;
      assert nodes[hs[j]] == Node(UpOf(hs, j), DownOf(hs, j), order[j]);
    }
  }

  /** `self._cache[k] = obj` for a key not yet listed, placed on top. */
  lemma IndexPush<K>(cache: map<K, Handle>, hs: seq<Handle>, order: seq<K>, k: K, h: Handle)
    requires Indexed(cache, hs, order) && Distinct(order) && k !in order
    ensures k !in cache
    ensures Indexed(cache[k := h], [h] + hs, [k] + order)
  {
    IndexedKeys(cache, hs, order);
    var hs', order' := [h] + hs, [k] + order;
    forall i | 0 <= i < |order'| ensures cache[k := h][order'[i]] == hs'[i] {
      if i > 0 { assert order'[i] == order[i - 1] && order[i - 1] != k; }
    }
  }

  /** `del self._cache[k]` for the key at position i. */
  lemma IndexRemove<K>(cache: map<K, Handle>, hs: seq<Handle>, order: seq<K>, i: nat)
    requires Indexed(cache, hs, order) && Distinct(order) && i < |order|
    ensures Indexed(cache - {order[i]}, hs[..i] + hs[i + 1..], order[..i] + order[i + 1..])
  {
    var k := order[i];
    var hs', order' := hs[..i] + hs[i + 1..], order[..i] + order[i + 1..];
    DistinctRemove(order, i);
    assert (cache - {k}).Keys == cache.Keys - {k};
    forall j | 0 <= j < |order'| ensures order'[j] in cache - {k} && (cache - {k})[order'[j]] == hs'[j] {
      if j < i {
        assert order'[j] == order[j] && hs'[j] == hs[j];
      } else {
        assert order'[j] == order[j + 1] && hs'[j] == hs[j + 1];
      }
    }
  }

  /** The whole LRU representation: `hs` lists distinct, already allocated
      handles whose nodes form the list of the distinct keys `order`, `_cache`
      indexes exactly those nodes, and `top`/`bottom` are the two ends. */
  ghost predicate Shape<K>(cache: map<K, Handle>, nodes: map<Handle, Node<K>>, top: Option<Handle>,
                           bottom: Option<Handle>, next: Handle, order: seq<K>, hs: seq<Handle>)
  {
    Distinct(order) && Distinct(hs) &&
    (forall i :: 0 <= i < |hs| ==> hs[i] < next) &&
    Linked(nodes, hs, order) && Indexed(cache, hs, order) &&
    top == Head(hs) && bottom == Last(hs)
  }

  /** `self._cache[k]` for a resident key: the node of its list position, which
      has no upper neighbour exactly when it is the top node. */
  lemma Locate<K>(cache: map<K, Handle>, nodes: map<Handle, Node<K>>, top: Option<Handle>,
                  bottom: Option<Handle>, next: Handle, order: seq<K>, hs: seq<Handle>, k: K)
    requires Shape(cache, nodes, top, bottom, next, order, hs) && k in cache
    ensures k in order
    ensures var i := IndexOf(order, k);
            cache[k] == hs[i] && hs[i] in nodes && (nodes[hs[i]].up.None? <==> i == 0)
  {
    IndexedKeys(cache, hs, order);
    var i := IndexOf(order, k);
    assert nodes[hs[i]] == Node(UpOf(hs, i), DownOf(hs, i), order[i]);
  }

  /** A fresh handle is not on the list, and the list with it on top stays
      below the next fresh handle. */
  lemma BoundPush(hs: seq<Handle>, next: Handle)
    requires forall j :: 0 <= j < |hs| ==> hs[j] < next
    ensures next !in hs
    ensures var hs' := [next] + hs;
            (forall j :: 0 <= j < |hs'| ==> hs'[j] < next + 1) &&
            Head(hs') == Some(next) && Last(hs') == (if hs == [] then Some(next) else Last(hs))
  {
    var hs' := [next] + hs;
    forall j | 0 <= j < |hs'| ensures hs'[j] < next + 1 {
      if j > 0 { assert hs'[j] == hs[j - 1]; }
    }
    if hs != [] { assert hs'[|hs'| - 1] == hs[|hs| - 1]; }
  }

  /** Dropping position i keeps every handle below `next`. */
  lemma BoundRemove(hs: seq<Handle>, next: Handle, i: nat)
    requires (forall j :: 0 <= j < |hs| ==> hs[j] < next) && i < |hs|
    ensures var hs' := hs[..i] + hs[i + 1..];
            forall j :: 0 <= j < |hs'| ==> hs'[j] < next
  {
    var hs' := hs[..i] + hs[i + 1..];
    forall j | 0 <= j < |hs'| ensures hs'[j] < next {
      if j < i { assert hs'[j] == hs[j]; } else { assert hs'[j] == hs[j + 1]; }
    }
  }

  /** Dropping an inner position keeps the top; the bottom moves up only when
      the dropped position was the last. */
  lemma EndsRemove(hs: seq<Handle>, i: nat)
    requires 0 < i < |hs|
    ensures var hs' := hs[..i] + hs[i + 1..];
            Head(hs') == Head(hs) &&
            Last(hs') == (if i + 1 < |hs| then Last(hs) else Some(hs[i - 1]))
  {
    var hs' := hs[..i] + hs[i + 1..];
    assert hs'[0] == hs[0];
    if i + 1 < |hs| {
      assert hs'[|hs'| - 1] == hs[|hs| - 1];
    } else {
      assert hs' == hs[..i];
    }
  }

  /** `get` on the key at position i > 0, first half: its node leaves the list
      and its `_cache` entry is deleted. */
  lemma UnlinkStep<K>(cache: map<K, Handle>, nodes: map<Handle, Node<K>>, top: Option<Handle>,
                      bottom: Option<Handle>, next: Handle, order: seq<K>, hs: seq<Handle>, i: nat)
    requires Shape(cache, nodes, top, bottom, next, order, hs) && 0 < i < |hs|
    ensures order[i] in cache && cache[order[i]] == hs[i] && hs[i] in nodes
    ensures nodes[hs[i]].up == Some(hs[i - 1]) && hs[i - 1] in nodes
    ensures nodes[hs[i]].down.Some? ==> nodes[hs[i]].down.value in nodes
    ensures var node := nodes[hs[i]];
            var n1 := if node.down.Some? then nodes[node.down.value := nodes[node.down.value].(up := node.up)] else nodes;
            var b1 := if node.down.Some? then bottom else node.up;
            var n2 := n1[node.up.value := n1[node.up.value].(down := node.down)];
            Shape(cache - {order[i]}, n2, top, b1, next, order[..i] + order[i + 1..], hs[..i] + hs[i + 1..])
  {
    Unlink(nodes, hs, order, i);
    IndexRemove(cache, hs, order, i);
    DistinctRemove(hs, i);
    DistinctRemove(order, i);
    BoundRemove(hs, next, i);
    EndsRemove(hs, i);
  }

  /** `Node(self.top, k)` and its wiring in as the new top, with `_cache[k] = obj`,
      for a key not on the list; `next` is the handle of the new node. */
  lemma PushStep<K>(cache: map<K, Handle>, nodes: map<Handle, Node<K>>, top: Option<Handle>,
                    bottom: Option<Handle>, next: Handle, order: seq<K>, hs: seq<Handle>, k: K)
    requires Shape(cache, nodes, top, bottom, next, order, hs) && k !in order
    ensures k !in cache
    ensures top.Some? ==> top.value in nodes[next := Node(None, top, k)]
    ensures var n1 := nodes[next := Node(None, top, k)];
            var b1 := if bottom.None? then Some(next) else bottom;
            var n2 := if top.Some? then n1[top.value := n1[top.value].(up := Some(next))] else n1;
            Shape(cache[k := next], n2, Some(next), b1, next + 1, [k] + order, [next] + hs)
  {
    BoundPush(hs, next);
    PushTop(nodes, hs, order, next, k);
    IndexPush(cache, hs, order, k, next);
    DistinctPush(hs, next);
    DistinctPush(order, k);
  }

  /** Dropping the last node of a list of two or more keeps the top and
      makes the one above it the bottom. */
  lemma EndsTrim(hs: seq<Handle>)
    requires |hs| >= 2
    ensures Head(hs[..|hs| - 1]) == Head(hs) && Last(hs[..|hs| - 1]) == Some(hs[|hs| - 2])
  {
  }

  /** The eviction in `put`: the bottom node of a list of two or more leaves it
      and its `_cache` entry is deleted. */
  lemma EvictStep<K>(cache: map<K, Handle>, nodes: map<Handle, Node<K>>, top: Option<Handle>,
                     bottom: Option<Handle>, next: Handle, order: seq<K>, hs: seq<Handle>)
    requires Shape(cache, nodes, top, bottom, next, order, hs) && |hs| >= 2
    ensures bottom.Some? && bottom != top && bottom.value in nodes
    ensures nodes[bottom.value].val == order[|order| - 1]
    ensures nodes[bottom.value].up.Some? && nodes[bottom.value].up.value in nodes
    ensures var a := bottom.value;
            var u := nodes[a].up.value;
            var n1 := nodes[u := nodes[u].(down := None)];
            var n2 := n1[a := n1[a].(up := None)];
            Shape(cache - {order[|order| - 1]}, n2, top, n1[a].up, next, order[..|order| - 1], hs[..|hs| - 1])
  {
    var n := |hs|;
    DropLast(nodes, hs, order);
    TrimIsRemove(hs);
    TrimIsRemove(order);
    IndexRemove(cache, hs, order, n - 1);
    DistinctRemove(hs, n - 1);
    DistinctRemove(order, n - 1);
    BoundRemove(hs, next, n - 1);
    EndsTrim(hs);
    assert hs[0] != hs[n - 1];
  }
}
