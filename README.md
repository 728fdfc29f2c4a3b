# Cache replacement policies of Icarus, modelled in Dafny

This project models `icarus/models/cache.py`: the in-memory, fixed-capacity
caches that the Icarus simulator places at its nodes, and the two functions
that change how a cache inserts.

- **NullCache** stores nothing. Its capacity is 0 whatever it is given.
- **LruCache** keeps a dictionary from key to list node and a doubly linked
  list from `top` (most recently used) to `bottom`. Here the list lives in an
  arena: a map from integer handles to node records whose `up`/`down` fields
  are handles. A ghost sequence `order` is the recency order and `hs` the
  handles of its nodes. `Valid()` ties both to the dictionary, the arena and
  the two ends.
- **LfuCache** maps each key to the pair `(freq, t)` and keeps a counter `t`.
  The victim is the key with the lexicographically smallest pair.
- **FifoCache** keeps a set and a deque, newest key first.
- **RandCache** keeps a set and a slot array. A new key takes the first free
  slot. When the cache is full it overwrites a drawn slot and evicts the key
  that was there.
- **rand_insert_cache** becomes the class `RandInsertCache`. It owns a cache and
  lets a `put` through only when the uniform draw is below `p`.
- **keyval_cache** becomes the class `KeyValCache`. It owns a cache and a value
  map `_vals`.

Every policy is a Dafny class whose methods update its fields in place. Each
`put` and `get` is proved against a pure function on the abstract state:
`Lru.Insert`/`Lru.Touch`, `Lfu.Insert`, `Fifo.Insert` and `Rand.Place`.
The module `Caches` gathers the five classes into one datatype, `Cache<K>`,
and their abstract states into `State<K>`. It proves the law that every
`put` keeps (`PutLaw`):
- at most `maxlen` keys remain;
- a resident key evicts nothing and leaves the set of resident keys as it was;
- only a key that has just left the cache is returned;
- no other key leaves.

The two wrappers own a `Cache<K>` and are specified against that
abstract state.

Random draws are arguments:
- `RandCache.Put` takes the slot index `i`, with `0 <= i < maxlen`.
- `RandInsertCache.Put` takes the value `u` of `random.random()`, in `[0, 1)`.

Python exceptions become `Result` values: `ValueError` for a capacity that is
not positive, for `p` outside `[0, 1]` and for `position` of an absent key, and
`KeyError` for a `_vals` lookup that fails.

Behaviours of the code that the model keeps, though a reader might expect
otherwise:
- `LfuCache.clear` does not reset the counter `t`, so sequence numbers keep
  increasing across `clear`.
- `RandCache.clear` empties the set but leaves the slot array as it was.
- The null cache drops keys, but `keyval_cache`'s `put` still records the value.
  The value map then holds keys that are not resident, so it is not always a
  subset of the cache's keys (`KeyVal.NullKeepsValue`).
- `keyval_cache` starts with an empty `_vals` even when the wrapped cache
  already holds keys. `get` of such a key, `dump`, and evicting it raise
  KeyError. The model keeps these error paths, and `KeyVal.Covered` is the
  condition under which none of them can happen.

## Model

| member | source | states |
|---|---|---|
| `Null.NullStaysEmpty` | icarus/models/cache.py:174-279 | for any keys, `put` returns None and `has`/`get` return False; `len` and `maxlen` are 0 and `dump` is empty; these are the results of `Null.NullCache`'s `Len`, `MaxLen`, `Dump`, `Has`, `Get` and `Put` (lines 181-279), which carry no contract of their own; its `constructor` and `Clear` keep no state, so there is nothing to state about them |
| `Lru.LruCache.constructor` | icarus/models/cache.py:298-304 | a new LRU cache is valid, empty and has the given capacity |
| `Lru.NewLruCache` | icarus/models/cache.py:298-304 | ValueError exactly when `maxlen <= 0`, otherwise a fresh empty valid cache |
| `Lru.LruCache.Len` | icarus/models/cache.py:306-308 | `len` is the number of keys in the recency order and never exceeds `maxlen` |
| `Lru.LruCache.Has` | icarus/models/cache.py:352-354 | `has(k)` holds exactly when `k` is in the recency order |
| `Lru.LruCache.Dump` | icarus/models/cache.py:315-322 | walking from `top` along `down` yields the recency order: every dictionary key once, most recent first |
| `Lru.LruCache.Position` | icarus/models/cache.py:324-350 | returns the index of `k` in `dump()` when `k` is resident, ValueError otherwise |
| `Lru.LruCache.Get` | icarus/models/cache.py:356-378 | a hit returns True and the new order is `Touch(old order, k)`; a miss returns False and changes nothing |
| `Lru.LruCache.Detach` | icarus/models/cache.py:363-370 | unlinking a node below the top removes exactly its key from the order and keeps the list well formed |
| `Lru.LruCache.PushOnTop` | icarus/models/cache.py:400-406 | a new node for an absent key becomes the top; the order gains the key in front |
| `Lru.LruCache.Put` | icarus/models/cache.py:380-421 | `(new order, evicted) == Insert(old order, maxlen, k)` and the representation stays valid; the `bottom == top` branch is unreachable |
| `Lru.LruCache.EvictBottom` | icarus/models/cache.py:414-421 | the bottom node leaves, its key is returned and the order loses its last element |
| `Lru.LruCache.Clear` | icarus/models/cache.py:423-427 | the cache is empty and valid |
| `Lru.TouchMovesToFront` | icarus/models/cache.py:357-378 | touching a resident key puts it first, keeps the same keys, and leaves the relative order of the others unchanged |
| `Lru.TouchAt` | icarus/models/cache.py:362-378 | touching the key at position `i` cuts it out and puts it first; touching the top key changes nothing |
| `Lru.InsertNewKey` | icarus/models/cache.py:399-421 | a new key becomes first; there is an eviction exactly when the cache was full, and the victim is the previous last element |
| `Lru.InsertKeepsInvariant` | icarus/models/cache.py:380-421 | `put` keeps the capacity and distinctness; the evicted key was resident and no longer is; the keys after are the keys before plus `k` minus the victim |
| `Lru.Scenario` | icarus/models/cache.py:356-421 | capacity 2: `put(A)`, `put(B)`, `get(A)`, `put(C)` evicts `B` and leaves `[C, A]` |
| `LruList.Locate` | icarus/models/cache.py:360-364 | a dictionary hit yields the node at the key's list position, which has no `up` exactly when it is the top |
| `LruList.UnlinkStep` | icarus/models/cache.py:365-370 | the pointer rewiring of a hit below the top, and deleting the key, leave a valid list without that key |
| `LruList.PushStep` | icarus/models/cache.py:371-377 | creating `Node(self.top, k)` and linking it as the top leaves a valid list with `k` in front |
| `LruList.EvictStep` | icarus/models/cache.py:414-420 | unlinking the bottom of a list of two or more leaves a valid list without its last key |
| `LruList.IndexedKeys` | icarus/models/cache.py:352-354 | every key of the dictionary is on the list |
| `Lfu.NewLfuCache` | icarus/models/cache.py:450-455 | ValueError exactly when `maxlen <= 0`, otherwise a fresh empty cache with counter 0 |
| `Lfu.LfuCache.constructor` | icarus/models/cache.py:450-455 | a new LFU cache is valid, empty and has counter 0 |
| `Lfu.LfuCache.Len` | icarus/models/cache.py:457-459 | `len` is the number of resident keys and never exceeds `maxlen` |
| `Lfu.LfuCache.Has` | icarus/models/cache.py:470-472 | `has(k)` holds exactly when `k` has an entry |
| `Lfu.LfuCache.Dump` | icarus/models/cache.py:466-468 | every resident key once, sorted by strictly decreasing `(freq, t)` |
| `Lfu.LfuCache.Get` | icarus/models/cache.py:474-481 | a hit adds exactly 1 to the key's frequency and keeps its sequence number; a miss changes nothing; `t` is unchanged |
| `Lfu.LfuCache.Put` | icarus/models/cache.py:483-492 | `(entries, t, evicted) == Insert(old entries, old t, maxlen, k)`, with the invariant kept |
| `Lfu.LfuCache.Clear` | icarus/models/cache.py:494-496 | no entry remains and the counter `t` is not reset |
| `Lfu.SortedDesc` | icarus/models/cache.py:468 | the keys once each, in strictly decreasing order of their pairs |
| `Lfu.MinKey` | icarus/models/cache.py:489 | the key whose pair is below every other key's pair |
| `Lfu.InsertSpec` | icarus/models/cache.py:483-492 | a resident key changes nothing; a new key gets a sequence number above all in use; the key with the smallest pair is evicted exactly when the cache was full |
| `Lfu.InsertKeeps` | icarus/models/cache.py:483-492 | `put` keeps the capacity, frequencies at least 1 and distinct sequence numbers |
| `Lfu.NewKeyEvictedIff` | icarus/models/cache.py:486-491 | the key just inserted is the victim exactly when every other resident has frequency at least 2 |
| `Lfu.EvictionTiesToOldest` | icarus/models/cache.py:489 | the victim has the lowest frequency and, among keys of that frequency, the oldest insertion |
| `Lfu.MinIsLastOfDump` | icarus/models/cache.py:467-489 | the key `put` evicts is the last element of `dump()` |
| `Lfu.Scenario` | icarus/models/cache.py:474-491 | capacity 2: `put(A)`, `put(B)`, `get(A)`, `put(C)` evicts `B` (lower frequency) and `dump()` is `[A, C]` |
| `Fifo.NewFifoCache` | icarus/models/cache.py:513-518 | ValueError exactly when `maxlen <= 0`, otherwise a fresh empty cache |
| `Fifo.FifoCache.constructor` | icarus/models/cache.py:513-518 | a new FIFO cache is valid and empty |
| `Fifo.FifoCache.Len` | icarus/models/cache.py:520-522 | the size of the set equals the length of the deque and never exceeds `maxlen` |
| `Fifo.FifoCache.Dump` | icarus/models/cache.py:529-531 | the deque lists every key of the set exactly once |
| `Fifo.FifoCache.Has` | icarus/models/cache.py:533-535 | set membership agrees with the deque |
| `Fifo.FifoCache.Get` | icarus/models/cache.py:562-564 | `get` is the membership test and changes nothing |
| `Fifo.FifoCache.Position` | icarus/models/cache.py:537-560 | the index of the first occurrence of `k` in `dump()`, ValueError when absent |
| `Fifo.FifoCache.Put` | icarus/models/cache.py:566-575 | `(new deque, evicted) == Insert(old deque, maxlen, k)` and the set keeps matching the deque |
| `Fifo.FifoCache.Clear` | icarus/models/cache.py:577-580 | set and deque are both empty |
| `Fifo.InsertSpec` | icarus/models/cache.py:566-575 | a resident key is a no-op; a new key is prepended; on overflow the oldest key is removed and returned |
| `Fifo.AgreesWithLruOnMiss` | icarus/models/cache.py:501-510 | for an absent key FIFO and LRU produce the same order and victim |
| `Fifo.DiffersFromLruOnHit` | icarus/models/cache.py:501-510 | on a hit neither evicts, and the orders agree exactly when the key already was the newest |
| `Fifo.PushStep` | icarus/models/cache.py:569-571 | `add` and `appendleft` of a new key keep set and deque in step |
| `Fifo.PopStep` | icarus/models/cache.py:572-574 | `pop` and `remove` of the oldest key keep set and deque in step |
| `Fifo.Scenario` | icarus/models/cache.py:562-575 | capacity 2: `put(A)`, `put(B)`, `get(A)`, `put(C)` evicts `A` and leaves `[C, B]` |
| `Rand.NewRandCache` | icarus/models/cache.py:594-599 | ValueError exactly when `maxlen <= 0`, otherwise a fresh empty cache with `maxlen` slots |
| `Rand.RandCache.constructor` | icarus/models/cache.py:594-599 | a new cache is valid and empty, with `maxlen` unset slots |
| `Rand.RandCache.Len` | icarus/models/cache.py:601-603 | `len` is the number of occupied slots and never exceeds `maxlen` |
| `Rand.RandCache.Has` | icarus/models/cache.py:613-615 | membership in the set agrees with the occupied slots |
| `Rand.RandCache.Get` | icarus/models/cache.py:617-619 | `get` is the membership test and changes nothing |
| `Rand.RandCache.Dump` | icarus/models/cache.py:609-611 | every resident key once, in an unspecified order |
| `Rand.RandCache.Put` | icarus/models/cache.py:621-633 | `(slots, evicted) == Place(old slots, maxlen, k, i)`; a resident key leaves the array alone; otherwise slot `len` or, when full, slot `i` receives `k` |
| `Rand.RandCache.Clear` | icarus/models/cache.py:635-637 | the set is emptied and the slot array is left as it was; the invariant still holds |
| `Rand.PlaceSpec` | icarus/models/cache.py:621-633 | an eviction happens exactly when a new key meets a full cache; the victim was resident and no longer is; every other key stays and `k` is in |
| `Rand.KeysReplace` | icarus/models/cache.py:626-629 | overwriting slot `i` with a new key replaces exactly its occupant |
| `Rand.KeysAppend` | icarus/models/cache.py:630-631 | filling the first free slot adds exactly the new key |
| `Rand.ReplaceStep` | icarus/models/cache.py:626-632 | after an overwrite, the set equals the keys of the occupied slots |
| `Rand.AppendStep` | icarus/models/cache.py:630-632 | after filling a free slot, the set equals the keys of the occupied slots |
| `Rand.SlotsHoldResidents` | icarus/models/cache.py:622-637 | `a[0..len)` holds exactly the keys of the set, each in one slot |
| `Caches.NewCache` | icarus/models/cache.py:61-70 | every policy but the null one raises ValueError unless the capacity is positive; a new cache is empty |
| `Caches.Len` | icarus/models/cache.py:72-81 | the number of resident keys, at most the capacity |
| `Caches.MaxLen` | icarus/models/cache.py:83-93 | the capacity, 0 for the null cache |
| `Caches.Has` | icarus/models/cache.py:107-123 | membership without a change of state |
| `Caches.Get` | icarus/models/cache.py:125-144 | the policy's `get`, as `GetSpec` |
| `Caches.Put` | icarus/models/cache.py:146-163 | the policy's `put`, as `PutSpec` |
| `Caches.Dump` | icarus/models/cache.py:95-105 | every resident key once, in the policy's order |
| `Caches.Clear` | icarus/models/cache.py:165-169 | the policy's `clear`, as `ClearSpec` |
| `Caches.PutObeysLaw` | icarus/models/cache.py:146-163 | every policy's `put` keeps its invariant and capacity and obeys `PutLaw` |
| `Caches.LruPutLaw` | icarus/models/cache.py:380-421 | LRU `put` obeys `PutLaw` |
| `Caches.LfuPutLaw` | icarus/models/cache.py:483-492 | LFU `put` obeys `PutLaw` |
| `Caches.FifoPutLaw` | icarus/models/cache.py:566-575 | FIFO `put` obeys `PutLaw` |
| `Caches.RandPutLaw` | icarus/models/cache.py:621-633 | RAND `put` obeys `PutLaw` |
| `Caches.GetKeepsKeys` | icarus/models/cache.py:125-144 | every policy's `get` reports residency exactly and keeps the set of resident keys |
| `Caches.ClearEmpties` | icarus/models/cache.py:165-169 | after `clear` no key is resident; capacity and invariant are kept |
| `RandInsert.NewRandInsertCache` | icarus/models/cache.py:663-664 | ValueError exactly when `p < 0` or `p > 1` |
| `RandInsert.RandInsertCache.constructor` | icarus/models/cache.py:665-674 | the wrapper owns the given cache and probability |
| `RandInsert.RandInsertCache.Put` | icarus/models/cache.py:667-671 | when `u < p` it is the inner `put`; otherwise it returns None and leaves the inner cache unchanged |
| `RandInsert.RandInsertCache.Get` | icarus/models/cache.py:665-671 | `get` is the inner cache's own |
| `RandInsert.RandInsertCache.Has` | icarus/models/cache.py:665-671 | `has` is the inner cache's own |
| `RandInsert.RandInsertCache.Dump` | icarus/models/cache.py:665-671 | `dump` is the inner cache's own |
| `RandInsert.RandInsertCache.Clear` | icarus/models/cache.py:665-671 | `clear` is the inner cache's own |
| `RandInsert.AdmitPutObeysLaw` | icarus/models/cache.py:668-670 | an admitted `put` obeys `PutLaw`; a dropped one changes nothing and returns None |
| `RandInsert.ZeroNeverInserts` | icarus/models/cache.py:668-670 | with `p = 0`, no series of `put`s changes the cache or its size |
| `RandInsert.OneAlwaysInserts` | icarus/models/cache.py:668-670 | with `p = 1`, a series of `put`s does exactly what it does on the unwrapped cache |
| `KeyVal.StoreValue` | icarus/models/cache.py:725-730 | records the value; an evicted key is reported with its stored value and removed from `_vals`; KeyError when the evicted key has no value |
| `KeyVal.StoreValueAsWritten` | icarus/models/cache.py:725-730 | as written: an evicted key that Python deems false is neither reported nor removed |
| `KeyVal.FalsyEvictionLingers` | icarus/models/cache.py:727 | with integer keys, evicting key 0 leaves its value in `_vals` and reports nothing |
| `KeyVal.StoreKeepsValues` | icarus/models/cache.py:725-730 | after any `put` that obeys `PutLaw`, every resident key keeps a value; a mirroring value map keeps mirroring when the capacity is positive |
| `KeyVal.PutKeepsValues` | icarus/models/cache.py:705-730 | on a cache whose residents all have values, `put` raises no KeyError and keeps that so; on every policy but the null one the value map keeps holding exactly the resident keys |
| `KeyVal.PutThenGet` | icarus/models/cache.py:705-750 | `put(k, v)` then `get(k)` returns `v` when `k` is still resident and None otherwise |
| `KeyVal.GetKeepsValues` | icarus/models/cache.py:732-750 | `get` returns the stored value exactly for resident keys and raises no KeyError on such a cache |
| `KeyVal.LruPutThroughKvGet` | icarus/models/cache.py:397-419 | as written under `keyval_cache`: the hit test sees the stored value, so a resident key with a falsy value is pushed on top again; the key ends on top and in `_cache`, and an evicted key was resident and leaves `_cache` |
| `KeyVal.ThroughKvGetAgrees` | icarus/models/cache.py:397-419 | with a truthy value, or a new key, that `put` is LRU's own `Lru.Insert`, and `_cache` holds exactly the listed keys |
| `KeyVal.FalsyValuePushesTwice` | icarus/models/cache.py:397-406 | with a resident key and a falsy value, the key is listed twice, the list is one longer than `_cache`, and nothing is evicted |
| `KeyVal.FalsyValueDuplicates` | icarus/models/cache.py:397 | `keyval_cache(LruCache(2))` with `put(1, 0)` twice lists `[1, 1]`, where LRU's own `put` lists `[1]` |
| `KeyVal.NullKeepsValue` | icarus/models/cache.py:725-727 | on the null cache `put` records the value though the key is not resident |
| `KeyVal.KeyValCache.constructor` | icarus/models/cache.py:698-699 | the wrapper owns the given cache and starts with an empty `_vals` |
| `KeyVal.KeyValCache.Put` | icarus/models/cache.py:705-730 | the inner state follows `PutSpec` and `_vals` and the result follow `StoreValue`; on KeyError `_vals` keeps the new value |
| `KeyVal.KeyValCache.Get` | icarus/models/cache.py:732-750 | the inner `get`, then the stored value on a hit and None on a miss |
| `KeyVal.KeyValCache.Dump` | icarus/models/cache.py:752-763 | the inner listing paired with the stored values; KeyError exactly when a resident key has no value |
| `KeyVal.KeyValCache.Clear` | icarus/models/cache.py:765-767 | the inner cache and `_vals` are both emptied |

## Findings

| source | as written | input that shows it | evidently intended | confidence | as-written member | corrected member |
|---|---|---|---|---|---|---|
| icarus/models/cache.py:727 | `if evicted:` tests the truth value of the evicted key | integer keys, LRU of capacity 1 holding key `0` with value 10, then `put(1, 20)`: key 0 is evicted, `put` returns None and `_vals` keeps `0 -> 10` | `if evicted is not None:`, reporting `(0, 10)` and removing it | not executed; high | `KeyVal.StoreValueAsWritten`, `KeyVal.FalsyEvictionLingers` | `KeyVal.StoreValue` (with `KeyVal.PutKeepsValues`) |
| icarus/models/cache.py:397 | LRU `put` tests a hit with `self.get(k)`, which under `keyval_cache` is the replaced `get` (line 772); it returns the value just stored at line 725 | `keyval_cache(LruCache(2))`, then `put(1, 0)` twice: `dump()` gives `[(1, 0), (1, 0)]`; continuing with `put(2, 5)`, `put(3, 5)`, `put(4, 5)` evicts the stale node of key 1 and then deletes key 1 from `_cache` a second time, a KeyError at line 419 | the hit test asks the policy itself whether `k` is resident, so a resident key is only moved to the top | not executed; high | `KeyVal.LruPutThroughKvGet`, `KeyVal.FalsyValuePushesTwice`, `KeyVal.FalsyValueDuplicates` | `KeyVal.KeyValCache.Put` (with `KeyVal.ThroughKvGetAgrees`, `KeyVal.PutKeepsValues`) |

## Left out

- Copying on wrap: `copy.deepcopy` at lines 665 and 698 is not modelled. The wrapper takes the given cache object as its own, so the caller must not use that object afterwards.
- The `isinstance` checks of both wrappers (TypeError): the Dafny types rule out a non-cache argument.
- The policy registry (`register_cache_policy`) and the `inheritdoc` decorator: they are naming and documentation utilities.
- `int(maxlen)` coercion: capacities are integers in the model.
- Random numbers: `random.seed`, `random.random()` and `random.randint` become arguments. The uniformity of the random eviction is a statistical property and is not stated.
- The numpy object array of `RandCache` becomes `array<Option<K>>`, with `None` in slots never written.
- Renaming of the replaced methods (`__name__`, `__doc__`).
- `Node.hits` and `Node.time`: they are never read.
- Freeing LRU nodes: the arena never reuses a handle. Nodes left behind by `get` and by eviction stay in the arena, off the list, like garbage awaiting collection.
- Wrappers around wrappers: `Cache<K>` covers the five policies, so a wrapper wraps a policy, not another wrapper.
- The wrappers' untouched members: `len`, `maxlen` and `position` of a wrapped cache are the inner cache's own, reached through its `inner` field.
- KeyVal.KeyValCache.Put: the wrapped policy's `put` keeps its own hit test, as LRU's `put` does when its `get` is not replaced. In the source, LRU's hit test reaches the replaced `get` (line 397, line 772), so a resident key with a falsy value is pushed twice. That path is modelled on the abstract order by `KeyVal.LruPutThroughKvGet` and listed under Findings.
