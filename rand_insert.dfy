/** Probabilistic insertion (`rand_insert_cache`): a wrapper that owns a cache
    and lets each `put` through only when a uniform draw `u` from [0, 1) falls
    below the insertion probability `p`; a dropped `put` returns `None` and
    leaves the cache as it was. The draw is an argument, and so is the slot a
    random cache would draw if the `put` reaches it. */
module RandInsert {
  import opened Common
  import opened Caches

  /** The `put` of the wrapper on the abstract state: the inner `put` when
      `u < p`, otherwise nothing happens and nothing is evicted. */
  function AdmitPut<K(==)>(s: State<K>, p: real, u: real, k: K, i: nat): (State<K>, Option<K>)
    requires Inv(s) && (s.RandS? ==> i < s.maxlen)
  {
    if u < p then PutSpec(s, k, i) else (s, None)
  }

  /** One call of `put`: the key, the uniform draw and the slot draw. */
  datatype Draw<K> = Draw(k: K, u: real, i: nat)

  /** Every draw is a value of `random.random()`, and every slot draw is a
      slot of a random cache. */
  ghost predicate Fits<K>(s: State<K>, draws: seq<Draw<K>>)
  {
    forall j | 0 <= j < |draws| :: 0.0 <= draws[j].u < 1.0 && (s.RandS? ==> draws[j].i < s.maxlen)
  }

  /** A `put` keeps the policy and the capacity, so later draws still fit. */
  lemma PutKeepsShape<K>(s: State<K>, k: K, i: nat)
    requires Inv(s) && (s.RandS? ==> i < s.maxlen)
    ensures var s' := PutSpec(s, k, i).0;
            Inv(s') && s'.RandS? == s.RandS? && (s.RandS? ==> s'.maxlen == s.maxlen) &&
            Capacity(s') == Capacity(s)
  {
    PutObeysLaw(s, k, i);
  }

  /** The state after a series of `put`s through the wrapper. */
  function Run<K(==)>(s: State<K>, p: real, draws: seq<Draw<K>>): (r: State<K>)
    requires Inv(s) && Fits(s, draws)
    ensures Inv(r) && Capacity(r) == Capacity(s)
    decreases |draws|
  {
    if draws == [] then s
    else
      var d := draws[0];
      PutKeepsShape(s, d.k, d.i);
      var s1 := AdmitPut(s, p, d.u, d.k, d.i).0;
      assert Fits(s1, draws[1..]) by {
        forall j | 0 <= j < |draws| - 1
          ensures 0.0 <= draws[1..][j].u < 1.0 && (s1.RandS? ==> draws[1..][j].i < s1.maxlen)
        {
          assert draws[1..][j] == draws[j + 1];
        }
      }
      Run(s1, p, draws[1..])
  }

  /** The state after the same series of `put`s on the unwrapped cache. */
  function RunPlain<K(==)>(s: State<K>, draws: seq<Draw<K>>): (r: State<K>)
    requires Inv(s) && Fits(s, draws)
    ensures Inv(r) && Capacity(r) == Capacity(s)
    decreases |draws|
  {
    if draws == [] then s
    else
      var d := draws[0];
      PutKeepsShape(s, d.k, d.i);
      var s1 := PutSpec(s, d.k, d.i).0;
      assert Fits(s1, draws[1..]) by {
        forall j | 0 <= j < |draws| - 1
          ensures 0.0 <= draws[1..][j].u < 1.0 && (s1.RandS? ==> draws[1..][j].i < s1.maxlen)
        {
          assert draws[1..][j] == draws[j + 1];
        }
      }
      RunPlain(s1, draws[1..])
  }

  /** With `p = 0` no `put` gets through: the cache never changes, so neither
      does its size. */
  lemma {:induction false} ZeroNeverInserts<K>(s: State<K>, draws: seq<Draw<K>>)
    requires Inv(s) && Fits(s, draws)
    ensures Run(s, 0.0, draws) == s
    ensures Keys(Run(s, 0.0, draws)) == Keys(s)
    decreases |draws|
  {
    if draws != [] {
      assert Fits(s, draws[1..]) by {
        forall j | 0 <= j < |draws| - 1
          ensures 0.0 <= draws[1..][j].u < 1.0 && (s.RandS? ==> draws[1..][j].i < s.maxlen)
        {
          assert draws[1..][j] == draws[j + 1];
        }
      }
      ZeroNeverInserts(s, draws[1..]);
    }
  }

  /** With `p = 1` every `put` gets through: the wrapper behaves exactly as
      the unwrapped cache given the same slot draws. */
  lemma {:induction false} OneAlwaysInserts<K>(s: State<K>, draws: seq<Draw<K>>)
    requires Inv(s) && Fits(s, draws)
    ensures Run(s, 1.0, draws) == RunPlain(s, draws)
    decreases |draws|
  {
    if draws != [] {
      var d := draws[0];
      PutKeepsShape(s, d.k, d.i);
      var s1 := PutSpec(s, d.k, d.i).0;
      assert Fits(s1, draws[1..]) by {
        forall j | 0 <= j < |draws| - 1
          ensures 0.0 <= draws[1..][j].u < 1.0 && (s1.RandS? ==> draws[1..][j].i < s1.maxlen)
        {
          assert draws[1..][j] == draws[j + 1];
        }
      }
      OneAlwaysInserts(s1, draws[1..]);
    }
  }

  /** A `put` through the wrapper either changes nothing or is the inner
      `put`; either way the common law of `put` holds. */
  lemma AdmitPutObeysLaw<K>(s: State<K>, p: real, u: real, k: K, i: nat)
    requires Inv(s) && (s.RandS? ==> i < s.maxlen)
    ensures var (s', ev) := AdmitPut(s, p, u, k, i);
            Inv(s') && Capacity(s') == Capacity(s) &&
            (u < p ==> PutLaw(Keys(s), Keys(s'), Capacity(s), k, ev)) &&
            (!(u < p) ==> s' == s && ev == None)
  {
    PutObeysLaw(s, k, i);
  }

  class RandInsertCache<K(==)> {
    const inner: Cache<K>  // the cache whose `put` is replaced
    const p: real          // the insertion probability

    ghost predicate Valid()
      reads this, Repr(inner)
    {
      Caches.Valid(inner) && 0.0 <= p <= 1.0
    }

    constructor (c: Cache<K>, p: real)
      requires Caches.Valid(c) && 0.0 <= p <= 1.0
      ensures Valid() && inner == c && this.p == p
    {
      inner := c;
      this.p := p;
    }

    /** The replaced `put(k)`: `u` is the value `random.random()` returns and
        `i` the slot a random inner cache would draw. */
    method Put(k: K, u: real, i: nat) returns (evicted: Option<K>)
      requires Valid() && 0.0 <= u < 1.0 && (inner.RandC? ==> i < inner.r.maxlen)
      modifies Repr(inner)
      ensures Valid()
      ensures Inv(old(StateOf(inner))) && (StateOf(inner), evicted) == AdmitPut(old(StateOf(inner)), p, u, k, i)
      ensures !(u < p) ==> unchanged(Repr(inner))
    {
      ValidInv(inner);
      if u < p {
        evicted := Caches.Put(inner, k, i);
      } else {
        evicted := None;
      }
    }

    /** `get`, `has`, `dump` and `clear` are the inner cache's own. */
    method Get(k: K) returns (hit: bool)
      requires Valid()
      modifies Repr(inner)
      ensures Valid()
      ensures (StateOf(inner), hit) == GetSpec(old(StateOf(inner)), k)
    {
      hit := Caches.Get(inner, k);
    }

    function Has(k: K): (b: bool)
      reads this, Repr(inner)
      requires Valid()
      ensures b <==> k in Keys(StateOf(inner))
    {
      Caches.Has(inner, k)
    }

    method Dump() returns (d: seq<K>)
      requires Valid()
      ensures Listing(StateOf(inner), d)
    {
      d := Caches.Dump(inner);
    }

    method Clear()
      requires Valid()
      modifies Repr(inner)
      ensures Valid() && StateOf(inner) == ClearSpec(old(StateOf(inner)))
    {
      Caches.Clear(inner);
    }
  }

  /** `rand_insert_cache(cache, p)`: ValueError unless `0 <= p <= 1`. */
  method NewRandInsertCache<K(==)>(c: Cache<K>, p: real) returns (r: Result<RandInsertCache<K>>)
    requires Caches.Valid(c)
    ensures r.Err? <==> p < 0.0 || p > 1.0
    ensures r.Err? ==> r.error == ValueError
    ensures r.Ok? ==> fresh(r.value) && r.value.Valid() && r.value.inner == c && r.value.p == p
  {
    if p < 0.0 || p > 1.0 {
      return Err(ValueError);
    }
    var w := new RandInsertCache(c, p);
    return Ok(w);
  }
}
