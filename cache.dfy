/** The common interface of the policies. `Cache<K>` is one cache object of
    any of the five policies; `State<K>` is its abstract state, and `PutSpec`,
    `GetSpec` and `ClearSpec` say what the operations do to it, policy by
    policy. `PutLaw` is the contract every policy's `put` keeps: at most
    `maxlen` keys, a key is returned only when it has just been removed, and
    nothing but that key leaves. */
module Caches {
  import opened Common
  import Null
  import Lru
  import Lfu
  import Fifo
  import Rand

  /** The abstract state of a cache of each policy. */
  datatype State<K> =
    | NullS
    | LruS(order: seq<K>, maxlen: nat)
    | LfuS(entries: map<K, Lfu.Entry>, t: nat, maxlen: nat)
    | FifoS(d: seq<K>, maxlen: nat)
    | RandS(keys: seq<K>, slots: seq<Option<K>>, maxlen: nat)

  /** The invariant each policy keeps on its abstract state. */
  ghost predicate Inv<K>(s: State<K>)
  {
    match s
    case NullS => true
    case LruS(order, maxlen) => 0 < maxlen && |order| <= maxlen && Distinct(order)
    case LfuS(m, t, maxlen) =>
      0 < maxlen && |m| <= maxlen && Lfu.Stamped(m) && Lfu.Counted(m, t)
    case FifoS(d, maxlen) => 0 < maxlen && |d| <= maxlen && Distinct(d)
    case RandS(keys, slots, maxlen) =>
      0 < maxlen && |keys| <= maxlen && Distinct(keys) && |slots| == maxlen &&
      forall j | 0 <= j < |keys| :: slots[j] == Some(keys[j])
  }

  /** The resident keys. */
  ghost function Keys<K>(s: State<K>): set<K>
  {
    match s
    case NullS => {}
    case LruS(order, _) => Elems(order)
    case LfuS(m, _, _) => m.Keys
    case FifoS(d, _) => Elems(d)
    case RandS(keys, _, _) => Elems(keys)
  }

  /** The `maxlen` property: zero for the null cache. */
  function Capacity<K>(s: State<K>): nat
  {
    if s.NullS? then 0 else s.maxlen
  }

  /** `put(k)` on each policy; `i` is the slot a random cache draws. */
  function PutSpec<K(==)>(s: State<K>, k: K, i: nat): (State<K>, Option<K>)
    requires Inv(s) && (s.RandS? ==> i < s.maxlen)
  {
    match s
    case NullS => (NullS, None)
    case LruS(order, maxlen) =>
      var (o, ev) := Lru.Insert(order, maxlen, k);
      (LruS(o, maxlen), ev)
    case LfuS(m, t, maxlen) =>
      var (m', t', ev) := Lfu.Insert(m, t, maxlen, k);
      (LfuS(m', t', maxlen), ev)
    case FifoS(d, maxlen) =>
      var (d', ev) := Fifo.Insert(d, maxlen, k);
      (FifoS(d', maxlen), ev)
    case RandS(keys, slots, maxlen) =>
      var (keys', ev) := Rand.Place(keys, maxlen, k, i);
      var slots' :=
        if k in keys then slots
        else if |keys| == maxlen then slots[i := Some(k)]
        else slots[|keys| := Some(k)];
      (RandS(keys', slots', maxlen), ev)
  }

  /** `get(k)` on each policy: whether `k` is resident, and the new state. */
  function GetSpec<K(==)>(s: State<K>, k: K): (State<K>, bool)
  {
    match s
    case NullS => (s, false)
    case LruS(order, maxlen) => (LruS(Lru.Touch(order, k), maxlen), k in order)
    case LfuS(m, t, maxlen) =>
      if k in m then (LfuS(m[k := Lfu.Entry(m[k].freq + 1, m[k].t)], t, maxlen), true)
      else (s, false)
    case FifoS(d, _) => (s, k in d)
    case RandS(keys, _, _) => (s, k in keys)
  }

  /** `clear()` on each policy: no resident key remains; the LFU counter and
      the random cache's slots are left as they were. */
  function ClearSpec<K>(s: State<K>): State<K>
  {
    match s
    case NullS => s
    case LruS(_, maxlen) => LruS([], maxlen)
    case LfuS(_, t, maxlen) => LfuS(map[], t, maxlen)
    case FifoS(_, maxlen) => FifoS([], maxlen)
    case RandS(_, slots, maxlen) => RandS([], slots, maxlen)
  }

  /** The contract of `put(k)` common to all policies, from the resident keys
      `before` to `after` with `ev` returned. */
  ghost predicate PutLaw<K>(before: set<K>, after: set<K>, maxlen: nat, k: K, ev: Option<K>)
  {
    |after| <= maxlen &&
    (k in before ==> after == before && ev == None) &&
    (ev.Some? ==> k !in before && |before| == maxlen && ev.value in before + {k} && ev.value !in after) &&
    (forall x | x in after :: x in before || x == k) &&
    (forall x | x in before && Some(x) != ev :: x in after) &&
    (0 < maxlen ==> k in after || ev == Some(k))
  }

  /** The listing `dump()` returns: every resident key once, in the policy's
      order (recency for LRU, decreasing `(freq, t)` for LFU, insertion for
      FIFO, unspecified for the random cache). */
  ghost predicate Listing<K>(s: State<K>, r: seq<K>)
  {
    Distinct(r) && (forall x | x in r :: x in Keys(s)) && (forall x | x in Keys(s) :: x in r) &&
    (s.LruS? ==> r == s.order) &&
    (s.LfuS? && Lfu.Stamped(s.entries) ==> r == Lfu.SortedDesc(s.entries)) &&
    (s.FifoS? ==> r == s.d)
  }

  /** From an order of distinct keys to its set: the same members, as many. */
  lemma SeqKeys<K>(s: seq<K>)
    requires Distinct(s)
    ensures |Elems(s)| == |s|
    ensures forall x | x in Elems(s) :: x in s
    ensures forall x | x in s :: x in Elems(s)
  {
    ElemsCard(s);
    ElemsMembers(s);
  }

  /** The common law of `put`, stated on duplicate-free listings of the keys
      before and after. */
  lemma SeqPutLaw<K>(before: seq<K>, after: seq<K>, maxlen: nat, k: K, ev: Option<K>)
    requires Distinct(before) && Distinct(after) && |after| <= maxlen
    requires k in before ==> ev == None && forall x :: x in after <==> x in before
    requires ev.Some? ==> k !in before && |before| == maxlen && (ev.value in before || ev.value == k) && ev.value !in after
    requires forall x | x in after :: x in before || x == k
    requires forall x | x in before && Some(x) != ev :: x in after
    requires 0 < maxlen ==> k in after || ev == Some(k)
    ensures PutLaw(Elems(before), Elems(after), maxlen, k, ev)
  {
    SeqKeys(before);
    SeqKeys(after);
    if k in before {
      assert Elems(after) == Elems(before);
    }
  }

  lemma LruPutLaw<K>(order: seq<K>, maxlen: nat, k: K)
    requires 0 < maxlen && |order| <= maxlen && Distinct(order)
    ensures var (r, ev) := Lru.Insert(order, maxlen, k);
            Distinct(r) && |r| <= maxlen && PutLaw(Elems(order), Elems(r), maxlen, k, ev)
  {
    var (r, ev) := Lru.Insert(order, maxlen, k);
    Lru.InsertKeepsInvariant(order, maxlen, k);
    if k !in order {
      Lru.InsertNewKey(order, maxlen, k);
    }
    SeqPutLaw(order, r, maxlen, k, ev);
  }

  lemma LfuPutLaw<K>(m: map<K, Lfu.Entry>, t: nat, maxlen: nat, k: K)
    requires 0 < maxlen && |m| <= maxlen && Lfu.Stamped(m) && Lfu.Counted(m, t)
    ensures var (r, t', ev) := Lfu.Insert(m, t, maxlen, k);
            Lfu.Stamped(r) && Lfu.Counted(r, t') && |r| <= maxlen &&
            PutLaw(m.Keys, r.Keys, maxlen, k, ev)
  {
    Lfu.InsertSpec(m, t, maxlen, k);
  }

  lemma FifoPutLaw<K>(d: seq<K>, maxlen: nat, k: K)
    requires 0 < maxlen && |d| <= maxlen && Distinct(d)
    ensures var (r, ev) := Fifo.Insert(d, maxlen, k);
            Distinct(r) && |r| <= maxlen && PutLaw(Elems(d), Elems(r), maxlen, k, ev)
  {
    var (r, ev) := Fifo.Insert(d, maxlen, k);
    Fifo.InsertSpec(d, maxlen, k);
    if ev.Some? {
      forall x | x in d && Some(x) != ev ensures x in r {
        var j :| 0 <= j < |d| && d[j] == x;
        assert j < |d| - 1 && r[j + 1] == x;
      }
    }
    SeqPutLaw(d, r, maxlen, k, ev);
  }

  lemma RandPutLaw<K>(keys: seq<K>, maxlen: nat, k: K, i: nat)
    requires 0 < maxlen && |keys| <= maxlen && Distinct(keys) && i < maxlen
    ensures var (r, ev) := Rand.Place(keys, maxlen, k, i);
            Distinct(r) && |r| <= maxlen && PutLaw(Elems(keys), Elems(r), maxlen, k, ev)
  {
    var (r, ev) := Rand.Place(keys, maxlen, k, i);
    Rand.PlaceSpec(keys, maxlen, k, i);
    SeqPutLaw(keys, r, maxlen, k, ev);
  }

  /** Every policy's `put` keeps its invariant and obeys the common law. */
  lemma PutObeysLaw<K>(s: State<K>, k: K, i: nat)
    requires Inv(s) && (s.RandS? ==> i < s.maxlen)
    ensures var (s', ev) := PutSpec(s, k, i);
            Inv(s') && s'.NullS? == s.NullS? && Capacity(s') == Capacity(s) &&
            PutLaw(Keys(s), Keys(s'), Capacity(s), k, ev)
  {
    match s
    case NullS =>
    case LruS(order, maxlen) => LruPutLaw(order, maxlen, k);
    case LfuS(m, t, maxlen) => LfuPutLaw(m, t, maxlen, k);
    case FifoS(d, maxlen) => FifoPutLaw(d, maxlen, k);
    case RandS(keys, slots, maxlen) =>
      RandPutLaw(keys, maxlen, k, i);
      var (keys', _) := Rand.Place(keys, maxlen, k, i);
      var s' := PutSpec(s, k, i).0;
      forall j | 0 <= j < |keys'| ensures s'.slots[j] == Some(keys'[j]) {
      }
  }

  /** Every policy's `get(k)` reports exactly whether `k` is resident, keeps
      the invariant and does not change which keys are resident. */
  lemma GetKeepsKeys<K>(s: State<K>, k: K)
    requires Inv(s)
    ensures var (s', hit) := GetSpec(s, k);
            Inv(s') && Capacity(s') == Capacity(s) && Keys(s') == Keys(s) &&
            (hit <==> k in Keys(s))
  {
    match s
    case NullS =>
    case LruS(order, maxlen) =>
      SeqKeys(order);
      if k in order {
        Lru.TouchMovesToFront(order, k);
        SeqKeys(Lru.Touch(order, k));
      }
    case LfuS(m, t, maxlen) =>
    case FifoS(d, _) => SeqKeys(d);
    case RandS(keys, _, _) => SeqKeys(keys);
  }

  /** `clear()` leaves no resident key and keeps the invariant and capacity. */
  lemma ClearEmpties<K>(s: State<K>)
    requires Inv(s)
    ensures Inv(ClearSpec(s)) && Keys(ClearSpec(s)) == {} && Capacity(ClearSpec(s)) == Capacity(s)
  {
  }

  /** A cache object of one of the five policies. */
  datatype Cache<K(==)> =
    | NullC(n: Null.NullCache<K>)
    | LruC(l: Lru.LruCache<K>)
    | LfuC(f: Lfu.LfuCache<K>)
    | FifoC(q: Fifo.FifoCache<K>)
    | RandC(r: Rand.RandCache<K>)

  /** The objects that make up the cache. */
  function Repr<K(==)>(c: Cache<K>): set<object>
  {
    match c
    case NullC(n) => {n}
    case LruC(l) => {l}
    case LfuC(f) => {f}
    case FifoC(q) => {q}
    case RandC(r) => {r, r.a}
  }

  ghost function StateOf<K>(c: Cache<K>): State<K>
    reads Repr(c)
  {
    match c
    case NullC(_) => NullS
    case LruC(l) => LruS(l.order, l.maxlen)
    case LfuC(f) => LfuS(f.cache, f.t, f.maxlen)
    case FifoC(q) => FifoS(q.d, q.maxlen)
    case RandC(r) => RandS(r.keys, r.a[..], r.maxlen)
  }

  /** The object's own invariant, and with it that of its abstract state. */
  ghost predicate Valid<K>(c: Cache<K>)
    reads Repr(c)
  {
    match c
    case NullC(_) => true
    case LruC(l) => l.Valid()
    case LfuC(f) => f.Valid()
    case FifoC(q) => q.Valid()
    case RandC(r) => r.Valid()
  }

  lemma ValidInv<K>(c: Cache<K>)
    requires Valid(c)
    ensures Inv(StateOf(c))
  {
    match c
    case NullC(_) =>
    case LruC(l) =>
    case LfuC(f) =>
    case FifoC(q) =>
    case RandC(r) =>
      assert forall j | 0 <= j < |r.keys| :: r.a[..][j] == r.a[j];
  }

  /** Names of the policies, as the registry knows them. */
  datatype Policy = NULL | LRU | LFU | FIFO | RAND

  /** A new, empty cache of the given policy and capacity; every policy but
      the null one raises ValueError unless the capacity is positive. */
  method NewCache<K(==)>(policy: Policy, maxlen: int) returns (r: Result<Cache<K>>)
    ensures r.Err? <==> policy != NULL && maxlen <= 0
    ensures r.Err? ==> r.error == ValueError
    ensures r.Ok? ==> Valid(r.value) && fresh(Repr(r.value)) && Keys(StateOf(r.value)) == {}
    ensures r.Ok? ==> Capacity(StateOf(r.value)) == if policy == NULL then 0 else maxlen
  {
    if policy == NULL {
      var n := new Null.NullCache<K>(maxlen);
      return Ok(NullC(n));
    }
    if maxlen <= 0 {
      return Err(ValueError);
    }
    match policy
    case LRU =>
      var l := new Lru.LruCache<K>(maxlen);
      return Ok(LruC(l));
    case LFU =>
      var f := new Lfu.LfuCache<K>(maxlen);
      return Ok(LfuC(f));
    case FIFO =>
      var q := new Fifo.FifoCache<K>(maxlen);
      return Ok(FifoC(q));
    case RAND =>
      var c := new Rand.RandCache<K>(maxlen);
      return Ok(RandC(c));
  }

  /** `len(cache)`. */
  function Len<K(==)>(c: Cache<K>): (n: nat)
    reads Repr(c)
    requires Valid(c)
    ensures n == |Keys(StateOf(c))| && n <= Capacity(StateOf(c))
  {
    match c
    case NullC(n) => n.Len()
    case LruC(l) => ElemsCard(l.order); l.Len()
    case LfuC(f) => f.Len()
    case FifoC(q) => ElemsCard(q.d); q.Len()
    case RandC(r) => ElemsCard(r.keys); r.Len()
  }

  /** `cache.maxlen`. */
  function MaxLen<K(==)>(c: Cache<K>): (n: nat)
    reads Repr(c)
    ensures n == Capacity(StateOf(c))
  {
    match c
    case NullC(n) => n.MaxLen()
    case LruC(l) => l.maxlen
    case LfuC(f) => f.maxlen
    case FifoC(q) => q.maxlen
    case RandC(r) => r.maxlen
  }

  /** `has(k)`: whether `k` is resident; it changes nothing. */
  function Has<K(==)>(c: Cache<K>, k: K): (b: bool)
    reads Repr(c)
    requires Valid(c)
    ensures b <==> k in Keys(StateOf(c))
  {
    match c
    case NullC(n) => n.Has(k)
    case LruC(l) => SeqKeys(l.order); l.Has(k)
    case LfuC(f) => f.Has(k)
    case FifoC(q) => SeqKeys(q.d); q.Has(k)
    case RandC(r) => SeqKeys(r.keys); r.Has(k)
  }

  /** `get(k)`. */
  method Get<K(==)>(c: Cache<K>, k: K) returns (hit: bool)
    requires Valid(c)
    modifies Repr(c)
    ensures Valid(c)
    ensures (StateOf(c), hit) == GetSpec(old(StateOf(c)), k)
  {
    match c
    case NullC(n) => hit := n.Get(k);
    case LruC(l) => hit := l.Get(k);
    case LfuC(f) => hit := f.Get(k);
    case FifoC(q) => hit := q.Get(k);
    case RandC(r) => hit := r.Get(k);
  }

  /** `put(k)`; `i` is the slot a random cache overwrites when it is full. */
  method Put<K(==)>(c: Cache<K>, k: K, i: nat) returns (evicted: Option<K>)
    requires Valid(c) && (c.RandC? ==> i < c.r.maxlen)
    modifies Repr(c)
    ensures Valid(c)
    ensures Inv(old(StateOf(c))) && (StateOf(c), evicted) == PutSpec(old(StateOf(c)), k, i)
  {
    ValidInv(c);
    match c
    case NullC(n) => evicted := n.Put(k);
    case LruC(l) => evicted := l.Put(k);
    case LfuC(f) => evicted := f.Put(k);
    case FifoC(q) => evicted := q.Put(k);
    case RandC(r) => evicted := r.Put(k, i);
  }

  /** `dump()`. */
  method Dump<K(==)>(c: Cache<K>) returns (d: seq<K>)
    requires Valid(c)
    ensures Listing(StateOf(c), d)
  {
    match c
    case NullC(n) => d := n.Dump();
    case LruC(l) => d := l.Dump(); SeqKeys(l.order);
    case LfuC(f) => d := f.Dump(); DumpCovers(d, f.cache);
    case FifoC(q) => d := q.Dump(); SeqKeys(q.d);
    case RandC(r) => d := r.Dump(); SeqKeys(r.keys);
  }

  /** `clear()`. */
  method Clear<K(==)>(c: Cache<K>)
    requires Valid(c)
    modifies Repr(c)
    ensures Valid(c) && StateOf(c) == ClearSpec(old(StateOf(c)))
  {
    match c
    case NullC(n) => n.Clear();
    case LruC(l) => l.Clear();
    case LfuC(f) => f.Clear();
    case FifoC(q) => q.Clear();
    case RandC(r) => r.Clear();
  }

  lemma DumpCovers<K>(d: seq<K>, m: map<K, Lfu.Entry>)
    requires Distinct(d) && |d| == |m| && forall i | 0 <= i < |d| :: d[i] in m
    ensures forall x | x in d :: x in m
    ensures forall x | x in m :: x in d
  {
    Lfu.DistinctCover(d, m);
  }
}
