# grule-plus caches and consistent-hash ring in Dafny

This project models the in-memory rule caches of grule-plus and the consistent-hash ring
that its partition engine uses to spread rules over engines.

- Five cache policies keep key/value entries with an optional expiration stamp. Each one
  reports removals to an optional `onEvicted` callback, with a cause: Expiration,
  Eviction, Delete or Clear.
  - **LRU** (`lru.dfy`, module `Lru`): a map plus a recency list. A hit moves the key to
    the front; a full cache evicts the back.
  - **LFU** (`lfu.dfy`, module `Lfu`): a map plus one list per access count, and
    `minFreq`. A full cache evicts the front of the `minFreq` list.
  - **ARC** (`arc.dfy`, module `Arc`): the lists T1/T2, the ghost lists B1/B2 and the
    adaptive target `p`.
  - **2Q** (`twoq.dfy`, module `TwoQ`): a FIFO A1, an LRU A2 and a ghost queue B.
  - **Random** (`random.dfy`, module `Random`): a map plus a slice of keys. A victim is
    picked by index.
- `common.dfy` (module `Common`) holds what the caches share:
  - the causes and their integer codes;
  - the expiry test (a zero stamp never expires; otherwise expired once `now` is past it);
  - the two time-to-live rules;
  - the notification log that stands for the callback;
  - the loops over a map (Clear notifications, key listing, live counting).
- `arena.dfy` (module `Arena`) holds what ARC and 2Q share. Entries are records, and the
  lists hold identities of records, so an identity can sit on two lists as a Go
  `*entry` can. Ghost-list trimming and `checkGhost` live here.
- `lists.dfy` (module `Lists`) holds sequence helpers: duplicate-freedom, `container/list`
  removal, filtering.
- `consistenthash.dfy` (module `HashRing`): `replicas` virtual points per node, the sorted
  points, a point-to-node owner map, and lookup by binary search with wrap-around.

Each cache has the same shape:
- a `datatype State` with the fields of the Go struct, and an invariant `WellFormed`;
- one specification function per operation (`SetOp`, `GetOp`, …), whose `ensures` state
  what the operation does and that it keeps the invariant;
- a `class Cache` with the real fields. Its methods carry the source's loops, and each is
  proved equal to its specification function (`Model() == SetOp(old(Model()), …)`).

The ring follows the same pattern with `Ring`, `AddNodeOp`, `RemoveNodeOp`, `Lookup` and
the class `ConsistentHash`.

Where the code does something other than what the cache's comments suggest, the model
follows the code:
- **2Q and ARC: a hit on an entry already in A2/T2 adds a second element.** The code
  tries `Remove` on A1/T1 and tests the result against nil, but `container/list`'s
  `Remove` always returns the element's value. So the "already in A2" branch never runs,
  and the hit pushes a second element for the same entry. `TwoQ.DuplicateElementsExample`
  and `Arc.T2GrowthExample` show the lists outgrowing the limit, with one key in the map.
- **ARC: `Set` of a new key can panic.** This happens when the key has a ghost, T1 holds
  fewer than `max(1, p)` elements and T2 is empty. `Arc.ReplacePanicExample` gives the sequence of calls.
- **A zero limit is not "no limit" everywhere.**
  - LRU: never evicts.
  - Random: never evicts.
  - LFU: keeps at most one entry.
  - ARC and 2Q: evict the entry just inserted.
- **Ring: `RemoveNode` with hash collisions.** When two virtual points of a node collide,
  it leaves one copy on the ring with no owner (`HashRing.CollisionSurvives`).

## Model

| member | source | states |
|---|---|---|
| Common.Code | internal/cache/common/common.go:4-9 | the four causes get the distinct codes 0 to 3 in declaration order: Expiration 0, Eviction 1, Delete 2, Clear 3, each code naming exactly one cause |
| Common.CappedExpiration | internal/cache/lru/lru.go:88-99 | LRU/LFU stamp: an explicit TTL is capped at a positive default; the default applies when no TTL is given; with neither the entry never expires |
| Common.FallbackExpiration | internal/cache/arc/arc.go:64-69 | ARC/2Q/Random stamp: an explicit TTL always wins, the default is only a fallback, and with neither the stamp is 0 |
| Common.CappedDiffersOnlyAboveDefault | internal/cache/lfu/lfu.go:88-99 | the two rules give different stamps exactly when an explicit TTL exceeds a positive default, and then the capped stamp is earlier |
| Common.CappedTTLExample | internal/cache/lfu/lfu_test.go:62-72 | default 20ms, requested 50ms, checked 30ms later: the LFU stamp has expired, though under the fallback rule it would still be live |
| Common.NotifyEach | internal/cache/lru/lru.go:184-196 | the Clear loop notifies every key once, with its value and the given cause, in some order, and only when a callback is installed |
| Common.AllKeys | internal/cache/lru/lru.go:262-270 | lists every key of the map exactly once |
| Common.LiveKeys | internal/cache/arc/arc.go:180-194 | lists exactly the keys whose entry has not expired, each once |
| Common.CountLive | internal/cache/arc/arc.go:197-211 | counts exactly the unexpired entries, which is at most the map's size |
| Arena.Trim | internal/cache/arc/arc.go:268-271 | after a push, a ghost list that grew past the limit loses its back element; otherwise it is unchanged; either way it ends within the limit |
| Arena.FirstWithKey | internal/cache/arc/arc.go:324-332 | the position of the first ghost whose entry has the key: no earlier ghost has it |
| Arena.Unghost | internal/cache/arc/arc.go:324-332 | `checkGhost` removes the first ghost of the key, and only it; the list shrinks by one exactly when it held a ghost of the key, and nothing is ever added |
| Arena.CheckGhost | internal/cache/arc/arc.go:324-332 | the front-to-back loop gives `Unghost`'s list, and reports true exactly when a ghost of the key was present |
| Arena.ExpiredIds | internal/cache/arc/arc.go:370-384 | holds exactly the identities on the list whose entry has expired |
| Arena.CollectExpired | internal/cache/arc/arc.go:370-384 | the collecting loop of `cleanup` gives the expired identities in list order |
| Lru.ListLengthIsEntryCount | internal/cache/lru/lru.go:173-181 | in a well-formed cache the list is as long as the map is large, expired entries included |
| Lru.RemoveElementOp | internal/cache/lru/lru.go:210-217 | the key leaves the map, and its element leaves the list while the other elements keep their order; exactly one notification with its value and cause; every other field is unchanged; the invariant holds |
| Lru.RemoveOldestOp | internal/cache/lru/lru.go:199-207 | the back of the list leaves map and list with one Eviction notification, and the other fields are unchanged; an empty or nil cache is unchanged |
| Lru.SetOp | internal/cache/lru/lru.go:79-120 | the key ends at the front with the new value and capped stamp; an existing key moves to the front silently; a new key on a full list first evicts the back (notified), otherwise is pushed; a zero limit never evicts; with a limit the list never exceeds it |
| Lru.Lookup | internal/cache/lru/lru.go:143-158 | a value is reported exactly for a present, unexpired key, and it is that entry's value |
| Lru.GetOp | internal/cache/lru/lru.go:123-140 | a live hit only moves the key to the front; an expired hit unlinks it from the list, others keeping their order, and removes it with one Expiration notification; a miss changes nothing |
| Lru.DeleteOp | internal/cache/lru/lru.go:161-170 | a present key leaves the map and the list, the other elements keeping their order, with one Delete notification; an absent key changes nothing |
| Lru.SweepOp | internal/cache/lru/lru.go:238-252 | exactly the expired entries leave map and list, the others keep entries and order, and each expired key is notified once |
| Lru.ExpiryEventsOnce | internal/cache/lru/lru.go:238-252 | the sweep's notifications name each expired key of the list once, with its value |
| Lru.SweptFromWellFormed | internal/cache/lru/lru.go:238-252 | part way through the backward sweep the cache is well formed and the part of the list not yet visited is untouched |
| Lru.SweepStep | internal/cache/lru/lru.go:238-252 | one backward step meets an unvisited element, which it either removes with an Expiration notification or keeps |
| Lru.SweepStepRemoves | internal/cache/lru/lru.go:243-250 | removing an expired element in the sweep is `removeElement` with cause Expiration |
| Lru.SweepStepKeeps | internal/cache/lru/lru.go:238-252 | an unexpired element is passed over unchanged |
| Lru.SweptFromStart | internal/cache/lru/lru.go:238-252 | the sweep run to the front of the list gives `SweepOp` |
| Lru.RecencyExample | internal/cache/lru/lru.go:79-140 | at capacity 2, `Set A; Set B; Get A; Set C` evicts B, the least recently used, and keeps A and C |
| Lru.Cache.constructor | internal/cache/lru/lru.go:37-49 | `New`: an empty cache with the given limit, no callback and no default TTL |
| Lru.Cache.WithEvictionFunc | internal/cache/lru/lru.go:52-56 | `NewWithEvictionFunc`: as `New`, with the callback installed |
| Lru.Cache.SetEvictedFunc | internal/cache/lru/lru.go:59-68 | fails exactly when a callback is already installed, and then keeps it; otherwise installs the new one |
| Lru.Cache.SetDefaultTTL | internal/cache/lru/lru.go:71-76 | only the default TTL changes |
| Lru.Cache.Set | internal/cache/lru/lru.go:79-120 | the new state is `SetOp` of the old one, and the invariant holds |
| Lru.Cache.Get | internal/cache/lru/lru.go:123-140 | answers `Lookup` on the old state; the new state is `GetOp` of the old one |
| Lru.Cache.Has | internal/cache/lru/lru.go:143-158 | true exactly for a present, unexpired key; nothing changes |
| Lru.Cache.Delete | internal/cache/lru/lru.go:161-170 | reports whether the key was present; the new state is `DeleteOp` of the old one |
| Lru.Cache.Len | internal/cache/lru/lru.go:173-181 | the list length, which equals the map size and counts unswept expired entries |
| Lru.Cache.Keys | internal/cache/lru/lru.go:262-270 | every key of the map once, expired ones included |
| Lru.Cache.Clear | internal/cache/lru/lru.go:184-196 | one Clear notification per entry, then map and list are nil; callback and default TTL are kept |
| Lru.Cache.Close | internal/cache/lru/lru.go:273-287 | as `Clear` |
| Lru.Cache.RemoveOldest | internal/cache/lru/lru.go:199-207 | the new state is `RemoveOldestOp` of the old one |
| Lru.Cache.RemoveElement | internal/cache/lru/lru.go:210-217 | the new state is `RemoveElementOp` of the old one |
| Lru.Cache.CleanupExpiredEntries | internal/cache/lru/lru.go:238-252 | the back-to-front loop gives `SweepOp` of the old state |
| Lfu.IndexedUnlink | internal/cache/lfu/lfu.go:194-208 | unlinking an entry keeps the count index; its list disappears exactly when the entry was alone in it; no other list appears or disappears |
| Lfu.IndexedPush | internal/cache/lfu/lfu.go:124-128 | pushing a new entry at the back of its count's list keeps the index |
| Lfu.UnlinkKeepsOthers | internal/cache/lfu/lfu.go:158-160 | unlinking keeps the order of the other elements of that count's list, drops the list once empty, and leaves every other list as it was |
| Lfu.PushBehind | internal/cache/lfu/lfu.go:166-170 | a push puts the entry behind those already on its list, in their order, creating the list if needed, and leaves every other list as it was |
| Lfu.VictimIsLeastFrequent | internal/cache/lfu/lfu.go:174-191 | on a full cache the victim exists, has the least count of all entries, and every other entry of that count joined its list later |
| Lfu.RemoveEntryOp | internal/cache/lfu/lfu.go:194-208 | the entry leaves the map, and its count list is unlinked as `Unlink` states: the others keep their order and no other list changes; one notification when that list exists; `minFreq` stays or resets to 1; with no list only the map entry goes |
| Lfu.RemoveEntryKeepsWellFormed | internal/cache/lfu/lfu.go:194-208 | removal keeps the invariant, notifies once, and resets `minFreq` to 1 exactly when the entry was alone in the `minFreq` list |
| Lfu.IncrementOp | internal/cache/lfu/lfu.go:155-171 | the entry's count goes up by one; it is unlinked from its old list (`Unlink`) and pushed at the back of the next one (`Push`); `minFreq` stays or rises by one; nothing is notified |
| Lfu.IncrementKeepsWellFormed | internal/cache/lfu/lfu.go:155-171 | one more use keeps the invariant; `minFreq` moves up by one exactly when the entry was alone in the `minFreq` list |
| Lfu.IncrementKeepsMin | internal/cache/lfu/lfu.go:158-170 | after one more use `minFreq` still bounds every count, and names a list whenever the cache is full |
| Lfu.IncrementMinBound | internal/cache/lfu/lfu.go:158-170 | after one more use `minFreq` still bounds every count |
| Lfu.IncrementMinListed | internal/cache/lfu/lfu.go:158-170 | after one more use the `minFreq` list still exists |
| Lfu.IncrementMinValue | internal/cache/lfu/lfu.go:158-170 | `minFreq` moves up exactly when the entry was alone in the `minFreq` list |
| Lfu.EvictOp | internal/cache/lfu/lfu.go:174-191 | the front of the `minFreq` list leaves the cache and that list (`Unlink`), with one Eviction notification; without that list nothing happens |
| Lfu.EvictFront | internal/cache/lfu/lfu.go:174-191 | eviction leaves the rest of the `minFreq` list, or drops the list when it held only the victim |
| Lfu.EvictLeavesRoom | internal/cache/lfu/lfu.go:111-114 | evicting from a full, well-formed cache keeps the index and frees room for one more entry |
| Lfu.PushNewKeepsWellFormed | internal/cache/lfu/lfu.go:118-129 | a new entry of count 1 at the back of list 1, with `minFreq` 1, keeps the invariant |
| Lfu.SetOp | internal/cache/lfu/lfu.go:84-130 | the key ends with the new value and capped stamp. An existing key counts one more use silently: it moves from its list to the back of the next one, with `minFreq` rising exactly when it was alone in the `minFreq` list. A new key has count 1 and joins the back of list 1, which becomes `minFreq`, after the least-used entry is evicted from its list (notified) when the cache is full. The invariant holds |
| Lfu.SetExisting | internal/cache/lfu/lfu.go:101-109 | the existing-key path takes the new value and stamp and one more use, and keeps the invariant |
| Lfu.SetFull | internal/cache/lfu/lfu.go:111-129 | the new-key path on a full cache evicts the victim with one notification and adds the key with count 1 |
| Lfu.Lookup | internal/cache/lfu/lfu.go:211-227 | a value is reported exactly for a present, unexpired key, and it is that entry's value |
| Lfu.GetOp | internal/cache/lfu/lfu.go:134-152 | a live hit is exactly one more use (`IncrementOp`), with nothing notified; an expired hit is `RemoveEntryOp` with cause Expiration; a miss changes nothing |
| Lfu.DeleteOp | internal/cache/lfu/lfu.go:230-241 | a present key is `RemoveEntryOp` with cause Delete, one notification; an absent key changes nothing |
| Lfu.FrequencyExample | internal/cache/lfu/lfu_test.go:46-60 | capacity 2, `Set x; Set y; Get x; Set z` evicts y, the entry used least, and keeps x and z |
| Lfu.ExampleUse | internal/cache/lfu/lfu.go:155-171 | a use of x from list 1 = [x, y] moves x to list 2 and leaves y alone in list 1 |
| Lfu.SweepKeepsLookups | internal/cache/lfu/lfu.go:289-300 | the sweep removes exactly the expired keys, so no entry left has expired and every lookup answers as before |
| Lfu.SweptByKeepsWellFormed | internal/cache/lfu/lfu.go:289-300 | removing any set of keys from map and lists keeps the invariant |
| Lfu.SweptByStep | internal/cache/lfu/lfu.go:289-300 | removing one more key after a set of them is removing the larger set, so the order the map loop meets the keys does not matter |
| Lfu.CleanupOp | internal/cache/lfu/lfu.go:289-300 | after cleanup no entry has expired, the entries left are exactly the unexpired ones, and every lookup answers as before |
| Lfu.RemoveAllSweeps | internal/cache/lfu/lfu.go:289-300 | removing distinct keys one by one gives the order-free sweep by their set, with one notification each |
| Lfu.SweepDone | internal/cache/lfu/lfu.go:289-300 | when the loop has removed exactly the expired keys, the cache is `CleanupOp`'s and each expired key was notified once |
| Lfu.ExpiryEventsOnce | internal/cache/lfu/lfu.go:289-300 | the notifications of distinct keys report each of them once with its value |
| Lfu.Cache.constructor | internal/cache/lfu/lfu.go:37-51 | `New`: empty map and lists, `minFreq` 0, no callback and no default TTL |
| Lfu.Cache.WithEvictionFunc | internal/cache/lfu/lfu.go:55-59 | `NewWithEvictionFunc`: as `New`, with the callback installed |
| Lfu.Cache.SetEvictedFunc | internal/cache/lfu/lfu.go:62-71 | fails exactly when a callback is already installed, and then keeps it |
| Lfu.Cache.SetDefaultTTL | internal/cache/lfu/lfu.go:74-80 | only the default TTL changes |
| Lfu.Cache.Set | internal/cache/lfu/lfu.go:84-130 | the new state is `SetOp` of the old one |
| Lfu.Cache.Get | internal/cache/lfu/lfu.go:134-152 | answers `Lookup` on the old state; the new state is `GetOp` of the old one |
| Lfu.Cache.IncrementFrequency | internal/cache/lfu/lfu.go:155-171 | the new state is `IncrementOp` of the old one |
| Lfu.Cache.Evict | internal/cache/lfu/lfu.go:174-191 | the new state is `EvictOp` of the old one |
| Lfu.Cache.RemoveEntry | internal/cache/lfu/lfu.go:194-208 | the new state is `RemoveEntryOp` of the old one |
| Lfu.Cache.Has | internal/cache/lfu/lfu.go:211-227 | true exactly for a present, unexpired key; not counted as a use |
| Lfu.Cache.Delete | internal/cache/lfu/lfu.go:230-241 | reports whether the key was present; the new state is `DeleteOp` of the old one |
| Lfu.Cache.Len | internal/cache/lfu/lfu.go:244-252 | the map size, unswept expired entries included |
| Lfu.Cache.Keys | internal/cache/lfu/lfu.go:309-317 | every key of the map once, expired ones included |
| Lfu.Cache.Clear | internal/cache/lfu/lfu.go:255-268 | one Clear notification per entry, then map and lists nil and `minFreq` 0 |
| Lfu.Cache.Close | internal/cache/lfu/lfu.go:320-335 | as `Clear` |
| Lfu.Cache.CleanupExpiredEntries | internal/cache/lfu/lfu.go:289-300 | the loop over the map, in whatever order, gives `CleanupOp`, with one Expiration notification per expired key |
| Lfu.Cache.SweepKey | internal/cache/lfu/lfu.go:294-298 | one turn of the loop removes the key met exactly when it has expired |
| Arc.GrowP | internal/cache/arc/arc.go:93-99 | after a B1 hit `p` never decreases, grows below the limit, is clamped at the limit, and grows by the ratio of B2 to B1 lengths (at least 1) |
| Arc.ShrinkP | internal/cache/arc/arc.go:101-107 | after a B2 hit `p` never increases, shrinks above 0, is clamped at 0, and shrinks by the ratio of B1 to B2 lengths (at least 1) |
| Arc.AdaptOp | internal/cache/arc/arc.go:143-158 | `checkGhost` runs on both ghost lists; on a B1 hit `p` becomes `GrowP` of the shrunk lists, else on a B2 hit `ShrinkP`; T1, T2, the map and the log are untouched; no ghost means no change |
| Arc.ReplaceOp | internal/cache/arc/arc.go:292-321 | T1's back goes to B1 when T1 holds at least `max(1, p)` elements, else T2's back goes to B2; the ghost list is trimmed, the key leaves the map, the lists lose one element, and exactly one Eviction is notified |
| Arc.EvictCanRun | internal/cache/arc/arc.go:114-117 | after a push on T1 that makes the lists exceed the limit, `evict` finds an element to take |
| Arc.PromoteKeeps | internal/cache/arc/arc.go:132-138 | a hit, which unlinks the T1 element and pushes a new one on T2, keeps the invariant |
| Arc.InsertKeeps | internal/cache/arc/arc.go:111-112 | a new entry at the front of T1 keeps the invariant |
| Arc.GhostHitOp | internal/cache/arc/arc.go:89-109 | ghost handling for a new key: `p` is set as `AdaptOp` sets it; on a ghost hit the state is `ReplaceOp` of the adapted one, which fixes the lists, the ghost lists and the one Eviction; with no ghost nothing changes; no key is added |
| Arc.AdmitOp | internal/cache/arc/arc.go:86-112 | after ghost handling the new key maps to a fresh entry at the front of T1; T2, the ghost lists, `p` and the log are those the ghost handling left |
| Arc.SetNewOp | internal/cache/arc/arc.go:86-117 | a new key is admitted (`AdmitOp`), then `ReplaceOp` runs exactly when the lists exceed the limit; `p` is the adapted target; the lists never outgrow a limit they respected; at most two Evictions are notified |
| Arc.SetOp | internal/cache/arc/arc.go:60-118 | an existing key takes the new value and stamp and is promoted to T2's front silently, with no ghost handling; a new key is `SetNewOp`, with `p` the adapted target, and never makes the lists outgrow the limit; at most two Evictions are notified |
| Arc.Lookup | internal/cache/arc/arc.go:164-177 | a value is reported exactly for a present, unexpired key, and it is that entry's value |
| Arc.RemoveElementOp | internal/cache/arc/arc.go:396-408 | the key leaves the map, the element is unlinked from T1 when there (the others keep their order; a T2 element stays), and one notification is made; the rest is unchanged |
| Arc.GetOp | internal/cache/arc/arc.go:121-161 | a live hit promotes to T2; an expired hit unlinks the element from T1, others keeping their order, and removes the entry with one Expiration notification; a miss is exactly `AdaptOp`: only `p` and the ghost lists change, which never grow |
| Arc.RemoveEach | internal/cache/arc/arc.go:386-388 | removing a sequence of elements drops each of their keys, filters them out of T1 keeping the order of the rest, leaves T2 and the ghost lists alone, and notifies each in order |
| Arc.CleanupOp | internal/cache/arc/arc.go:350-393 | nothing once closed; otherwise no key of the map is left on an expired entry, T1 keeps exactly its unexpired elements in their order, T2, the ghost lists and `p` are untouched, and each expired element is notified once |
| Arc.CleanupLeavesLive | internal/cache/arc/arc.go:370-388 | removing exactly the expired elements leaves only live entries in the map and only live elements on T1 |
| Arc.ClearKeeps | internal/cache/arc/arc.go:214-229 | the emptied cache is well formed |
| Arc.Empty | internal/cache/arc/arc.go:41-57 | the cache `New` builds is well formed |
| Arc.FirstSet | internal/cache/arc/arc.go:86-117 | the first `Set` on an empty cache puts its entry alone on T1 |
| Arc.SecondSetEvicts | internal/cache/arc/arc.go:261-274 | at capacity 1 a second new key pushes the first from T1's back to B1 with one Eviction notification |
| Arc.GhostHitSet | internal/cache/arc/arc.go:89-112 | setting a key found on B1 raises `p` to 1, moves the other key from T1 to B1, and brings the key back on T1 under a new entry |
| Arc.GhostHitExample | internal/cache/arc/arc.go:60-118 | at capacity 1, `Set k1, k2, k1` leaves k1 alone in the map with `p` 1 and k2's entry on B1, and notifies one Eviction each for k1 and k2 |
| Arc.T2GrowthExample | internal/cache/arc/arc.go:132-138 | two hits on one entry at capacity 1 leave two T2 elements for it, so T1 and T2 together exceed the limit |
| Arc.ReplacePanicExample | internal/cache/arc/arc.go:93-100 | at capacity 1, after k1 is evicted to B1 and k2 expires and is removed by `Get`, `Set k1` reaches `replace` with T1 too short and T2 empty |
| Arc.Cache.constructor | internal/cache/arc/arc.go:41-57 | `New`: empty map and lists, `p` 0 |
| Arc.Cache.SetEvictedFunc | internal/cache/arc/arc.go:246-251 | always succeeds and overwrites any installed callback |
| Arc.Cache.SetDefaultTTL | internal/cache/arc/arc.go:254-258 | only the default TTL changes |
| Arc.Cache.Set | internal/cache/arc/arc.go:60-118 | the new state is `SetOp` of the old one, and the invariant holds |
| Arc.Cache.PushT1 | internal/cache/arc/arc.go:111-112 | the new entry's element goes to the front of T1 |
| Arc.Cache.ReplaceOnGhost | internal/cache/arc/arc.go:89-109 | the new state is `GhostHitOp` of the old one |
| Arc.Cache.Adapt | internal/cache/arc/arc.go:143-158 | the new state is `AdaptOp` of the old one, and the result says whether either ghost list held the key |
| Arc.Cache.Get | internal/cache/arc/arc.go:121-161 | answers `Lookup` on the old state; the new state is `GetOp` of the old one |
| Arc.Cache.Has | internal/cache/arc/arc.go:164-177 | true exactly for a present, unexpired key; nothing changes |
| Arc.Cache.Keys | internal/cache/arc/arc.go:180-194 | exactly the unexpired keys, each once |
| Arc.Cache.Len | internal/cache/arc/arc.go:197-211 | the number of unexpired entries |
| Arc.Cache.Clear | internal/cache/arc/arc.go:214-229 | one Clear notification per map entry, then empty map and lists and `p` 0 |
| Arc.Cache.Close | internal/cache/arc/arc.go:232-243 | marks the cache closed and clears it |
| Arc.Cache.Evict | internal/cache/arc/arc.go:261-289 | the new state is `ReplaceOp` of the old one |
| Arc.Cache.Replace | internal/cache/arc/arc.go:292-321 | the new state is `ReplaceOp` of the old one; the key argument is not read |
| Arc.Cache.RemoveElement | internal/cache/arc/arc.go:396-408 | the new state is `RemoveElementOp` of the old one |
| Arc.Cache.Cleanup | internal/cache/arc/arc.go:350-393 | the new state is `CleanupOp` of the old one |
| Arc.Cache.RemoveAll | internal/cache/arc/arc.go:386-388 | the new state is `RemoveEach` of the old one |
| TwoQ.RemoveElementOp | internal/cache/twoq/twoq.go:335-347 | the key leaves the map, the element is unlinked from A1 when there (the others keep their order; an A2 element stays), and one notification is made; the rest is unchanged |
| TwoQ.EvictOp | internal/cache/twoq/twoq.go:229-260 | A1's back is evicted and ghosted on B when A1 is non-empty, else A2's back is evicted without a ghost; one Eviction notification; two empty queues change nothing |
| TwoQ.PromoteKeeps | internal/cache/twoq/twoq.go:113-120 | a hit, which unlinks the A1 element and pushes a new one on A2, keeps the invariant |
| TwoQ.InsertKeeps | internal/cache/twoq/twoq.go:91-92 | a new entry at the front of A1 keeps the invariant |
| TwoQ.SetOp | internal/cache/twoq/twoq.go:63-98 | an existing key takes the new value and stamp and is promoted to A2's front, silently and without consulting B; a new key goes to A1's front, and when the queues then exceed the limit A1's back is evicted and ghosted with one notification; the queues never outgrow a limit they respected |
| TwoQ.CheckGhostOp | internal/cache/twoq/twoq.go:263-271 | only the ghost queue changes: the key's first ghost leaves it |
| TwoQ.Lookup | internal/cache/twoq/twoq.go:134-147 | a value is reported exactly for a present, unexpired key, and it is that entry's value |
| TwoQ.GetOp | internal/cache/twoq/twoq.go:101-131 | a live hit promotes to A2; an expired hit unlinks the element from A1, others keeping their order, and removes the entry with one Expiration notification; a miss is exactly `CheckGhostOp`, dropping the key's first ghost and adding nothing |
| TwoQ.RemoveEach | internal/cache/twoq/twoq.go:325-327 | removing a sequence of elements drops each of their keys, filters them out of A1 keeping the order of the rest, leaves A2 and B alone, and notifies each in order |
| TwoQ.CleanupOp | internal/cache/twoq/twoq.go:289-332 | nothing once closed; otherwise no key of the map is left on an expired entry, A1 keeps exactly its unexpired elements in their order, A2 and B are untouched, and each expired element is notified once |
| TwoQ.CleanupLeavesLive | internal/cache/twoq/twoq.go:309-327 | removing exactly the expired elements leaves only live entries in the map and only live elements on A1 |
| TwoQ.FillThree | internal/cache/twoq/twoq.go:90-97 | three new keys at capacity 3 or more are not evicted and sit on A1, newest first |
| TwoQ.GetPromotes | internal/cache/twoq/twoq.go:113-121 | from three entries on A1, `Get k1` moves k1 to A2 |
| TwoQ.PromoteThenEvict | internal/cache/twoq/twoq.go:229-247 | then `Set k4` evicts k2, the oldest entry left on A1 |
| TwoQ.LookupsAfterEvict | internal/cache/twoq/twoq.go:101-122 | in that state `Get` misses k2 and finds k1, k3 and k4 |
| TwoQ.EvictionPolicyExample | internal/cache/twoq/twoq_test.go:46-67 | capacity 3, `Set k1, k2, k3; Get k1; Set k4` evicts k2 and keeps k1, k3 and k4 |
| TwoQ.EvictionNoticeExample | internal/cache/twoq/twoq_test.go:105-125 | capacity 2, three new keys: the first is evicted, notified with its value and cause Eviction, and ghosted |
| TwoQ.DuplicateElementsExample | internal/cache/twoq/twoq.go:113-120 | two Gets of one key leave two A2 elements for it; at capacity 2 a new key is then evicted by its own `Set` |
| TwoQ.Cache.constructor | internal/cache/twoq/twoq.go:40-60 | `New`: empty map and queues; `kin` is a quarter of the limit, at least 1 |
| TwoQ.Cache.SetEvictedFunc | internal/cache/twoq/twoq.go:214-219 | always succeeds and overwrites any installed callback |
| TwoQ.Cache.SetDefaultTTL | internal/cache/twoq/twoq.go:222-226 | only the default TTL changes |
| TwoQ.Cache.Set | internal/cache/twoq/twoq.go:63-98 | the new state is `SetOp` of the old one, and the invariant holds |
| TwoQ.Cache.Get | internal/cache/twoq/twoq.go:101-131 | answers `Lookup` on the old state; the new state is `GetOp` of the old one |
| TwoQ.Cache.Has | internal/cache/twoq/twoq.go:134-147 | true exactly for a present, unexpired key; nothing changes |
| TwoQ.Cache.Keys | internal/cache/twoq/twoq.go:150-164 | exactly the unexpired keys, each once |
| TwoQ.Cache.Len | internal/cache/twoq/twoq.go:167-181 | the number of unexpired entries |
| TwoQ.Cache.Clear | internal/cache/twoq/twoq.go:184-197 | one Clear notification per map entry, then an empty map and three empty queues |
| TwoQ.Cache.Close | internal/cache/twoq/twoq.go:200-211 | marks the cache closed and clears it |
| TwoQ.Cache.Evict | internal/cache/twoq/twoq.go:229-260 | the new state is `EvictOp` of the old one |
| TwoQ.Cache.CheckGhost | internal/cache/twoq/twoq.go:263-271 | the new state is `CheckGhostOp` of the old one; true exactly when B held a ghost of the key |
| TwoQ.Cache.RemoveElement | internal/cache/twoq/twoq.go:335-347 | the new state is `RemoveElementOp` of the old one |
| TwoQ.Cache.Cleanup | internal/cache/twoq/twoq.go:289-332 | the new state is `CleanupOp` of the old one |
| Random.SliceLengthIsEntryCount | internal/cache/random/random.go:127-140 | the slice is as long as the map is large |
| Random.SwapRemove | internal/cache/random/random.go:218-219 | slot `i` takes the last element and the slice is one shorter |
| Random.SwapRemoveDrops | internal/cache/random/random.go:218-219 | on a duplicate-free slice this drops exactly the element in slot `i` |
| Random.EvictRandomOp | internal/cache/random/random.go:199-221 | the key in the drawn slot leaves map and slice with one Eviction notification; an empty slice is left alone |
| Random.SetOp | internal/cache/random/random.go:48-78 | an existing key is updated in place silently; a new key is appended and, when the map grows past a positive limit, the drawn key (maybe the new one) is evicted with one notification; a positive limit always bounds the map; a zero limit never evicts |
| Random.Lookup | internal/cache/random/random.go:81-106 | a value is reported exactly for a present, unexpired key, and it is that entry's value |
| Random.SweepOp | internal/cache/random/random.go:239-270 | exactly the expired entries leave the map and the slice; the others keep their entries and their order in the slice |
| Random.SweepIsSwept | internal/cache/random/random.go:239-270 | the sweep is removing the set of expired keys |
| Random.SweptStep | internal/cache/random/random.go:255-268 | removing one more expired key continues the sweep by the larger set |
| Random.ExpiredKeyList | internal/cache/random/random.go:246-251 | the first loop collects exactly the expired keys, each once |
| Random.SpliceOut | internal/cache/random/random.go:262-267 | the inner loop removes the first slot holding the key |
| Random.EvictionExample | internal/cache/random/random_test.go:43-62 | capacity 2, three new keys: whichever slot is drawn, two entries remain and one Eviction is notified |
| Random.UpdateExample | internal/cache/random/random_test.go:86-107 | capacity 1, setting one key twice replaces the value and notifies nothing |
| Random.Cache.constructor | internal/cache/random/random.go:33-45 | `New`: an empty map and slice, no callback, no default TTL |
| Random.Cache.SetEvictedFunc | internal/cache/random/random.go:184-189 | always succeeds and overwrites any installed callback |
| Random.Cache.SetDefaultTTL | internal/cache/random/random.go:192-196 | only the default TTL changes |
| Random.Cache.Set | internal/cache/random/random.go:48-78 | the new state is `SetOp` of the old one with the drawn index |
| Random.Cache.EvictRandom | internal/cache/random/random.go:199-221 | the new state is `EvictRandomOp` of the old one |
| Random.Cache.Get | internal/cache/random/random.go:81-92 | answers `Lookup`; an expired entry is reported missing but stays |
| Random.Cache.Has | internal/cache/random/random.go:95-106 | true exactly for a present, unexpired key |
| Random.Cache.Keys | internal/cache/random/random.go:109-124 | the unexpired keys in slice order, each once |
| Random.Cache.Len | internal/cache/random/random.go:127-140 | the number of unexpired entries; none is removed |
| Random.Cache.Clear | internal/cache/random/random.go:143-155 | one Clear notification per entry, then an empty map and slice |
| Random.Cache.Cleanup | internal/cache/random/random.go:239-270 | the new state is `SweepOp` of the old one, with one Expiration notification per expired key |
| Random.Cache.SweepAll | internal/cache/random/random.go:254-269 | the removal loop over the collected keys removes exactly the expired ones, each notified once |
| Random.Cache.SweepKey | internal/cache/random/random.go:255-268 | one pass removes one more collected key and notifies it |
| HashRing.Itoa | internal/consistenthash/consistenthash.go:55 | `strconv.Itoa`: a non-empty string of decimal digits without a leading zero |
| HashRing.ItoaRoundTrip | internal/consistenthash/consistenthash.go:55 | reading `Itoa`'s digits back gives the number |
| HashRing.ItoaInjective | internal/consistenthash/consistenthash.go:55 | distinct replica indexes give distinct suffixes |
| HashRing.VirtualPoints | internal/consistenthash/consistenthash.go:53-56 | the `replicas` points of a node: point `i` is the hash of the node name followed by `i` |
| HashRing.Claim | internal/consistenthash/consistenthash.go:54-58 | the owner map after the loop: each new point belongs to the node; other points keep their owner |
| HashRing.InsertSorted | internal/consistenthash/consistenthash.go:60-63 | insertion keeps ascending order and adds exactly one copy of the element |
| HashRing.SortSeq | internal/consistenthash/consistenthash.go:60-63 | the points in ascending order, the same multiset |
| HashRing.SortedUnique | internal/consistenthash/consistenthash.go:60-63 | one multiset has one ascending arrangement, so the unstable `sort.Slice` gives a determined result |
| HashRing.AddNodeOp | internal/consistenthash/consistenthash.go:44-64 | a member is left alone; a new node joins, its points are added and claimed for it and the points are sorted; other points keep their owner; ascending order, ownership by members and owner entries only for listed points naming members are kept |
| HashRing.AddKeepsListed | internal/consistenthash/consistenthash.go:55-63 | owner entries are recorded only for points that are also appended, so every entry stays on a listed point and names a member |
| HashRing.AddNodeCounts | internal/consistenthash/consistenthash.go:44-64 | adding nodes keeps `replicas` points per node, duplicate hashes included |
| HashRing.AddKeepsOwned | internal/consistenthash/consistenthash.go:44-64 | when every point had a member owner, it still does after adding |
| HashRing.Filter | internal/consistenthash/consistenthash.go:76-85 | the `RemoveNode` loop keeps every point the node does not own, with its owner, in ascending order, adds nothing, and deletes the node's owner entries |
| HashRing.FilterNoDup | internal/consistenthash/consistenthash.go:76-85 | without duplicate points the loop keeps exactly the points the node does not own |
| HashRing.CollisionSurvives | internal/consistenthash/consistenthash.go:76-85 | two colliding points of one node: the loop drops one copy and leaves the other on the ring with no owner |
| HashRing.FilterStep | internal/consistenthash/consistenthash.go:78-84 | one more point through the loop is dropped exactly when its current owner is the node |
| HashRing.RemoveNodeOp | internal/consistenthash/consistenthash.go:67-86 | a non-member is left alone; a member leaves the node set; points it does not own stay with their owners; nothing new appears; ascending order kept; every owner entry stays on a listed point naming a member, and none names the removed node; without duplicates exactly its points go and every remaining point has a member owner |
| HashRing.AddFresh | internal/consistenthash/consistenthash.go:44-64 | adding a node whose points are new leaves the points distinct: the old ones plus the node's |
| HashRing.AddRemoveKeys | internal/consistenthash/consistenthash.go:67-86 | removing a node just added restores the points |
| HashRing.AddRemoveOwners | internal/consistenthash/consistenthash.go:67-86 | removing a node just added restores the owner map |
| HashRing.FilterClaimed | internal/consistenthash/consistenthash.go:76-85 | sweeping a node out of points it had just claimed restores the owner map |
| HashRing.AddRemoveRoundTrip | internal/consistenthash/consistenthash.go:44-86 | `RemoveNode` undoes `AddNode` of a node whose points collide with nothing |
| HashRing.EmptyFresh | internal/consistenthash/consistenthash.go:25-35 | a node whose points are distinct can join the empty ring as a new node |
| HashRing.FreshAfter | internal/consistenthash/consistenthash.go:44-64 | after one fresh node joins, a second node whose points collide with nothing is fresh too |
| HashRing.FreshCounts | internal/consistenthash/consistenthash.go:44-64 | a fresh node adds exactly `replicas` points, each with one owner entry |
| HashRing.TwoFresh | internal/consistenthash/consistenthash_test.go:20-39 | two nodes whose points all hash apart join a new ring one after the other as fresh nodes |
| HashRing.OneNodeRing | internal/consistenthash/consistenthash_test.go:20-39 | one node on a new ring: `replicas` points, each with an owner entry |
| HashRing.TwoNodeRing | internal/consistenthash/consistenthash_test.go:20-39 | two nodes: both are members, with `2 * replicas` points and owner entries |
| HashRing.OneNodeRemove | internal/consistenthash/consistenthash_test.go:41-58 | removing the only node gives back the empty ring |
| HashRing.TwoNodeRemove | internal/consistenthash/consistenthash_test.go:41-58 | removing the second of two nodes gives back the ring with the first alone |
| HashRing.FirstAtLeast | internal/consistenthash/consistenthash.go:99-102 | the `sort.Search` index: every earlier point is below the hash, and the point there (if any) is at or above it |
| HashRing.FirstAtLeastUnique | internal/consistenthash/consistenthash.go:99-102 | that index is the only one with this property |
| HashRing.Successor | internal/consistenthash/consistenthash.go:99-109 | the point `GetNode` settles on: the least point at or above the hash, or else (wrap-around) the least point of all |
| HashRing.SuccessorOfSubset | internal/consistenthash/consistenthash.go:99-109 | a ring holding fewer points but still the successor point has the same successor |
| HashRing.Lookup | internal/consistenthash/consistenthash.go:89-110 | "" on an empty ring; whenever every owner entry is on the ring and names a member, a non-empty answer is a member, even with colliding points; when every point has a member owner, a non-empty ring answers a member |
| HashRing.MinimalRemapping | internal/consistenthash/consistenthash.go:67-110 | removing a node changes the answer only for keys that node served |
| HashRing.Search | internal/consistenthash/consistenthash.go:99-102 | the binary search returns `FirstAtLeast` |
| HashRing.Stats | internal/consistenthash/consistenthash.go:146-155 | counts owner entries per node; exactly the owners appear |
| HashRing.StatsStep | internal/consistenthash/consistenthash.go:150-153 | one more owner entry adds one to its node's count and changes no other count |
| HashRing.ConsistentHash.constructor | internal/consistenthash/consistenthash.go:25-35 | `New`: no points and no nodes, with the given replica count and hash |
| HashRing.ConsistentHash.AddNode | internal/consistenthash/consistenthash.go:44-64 | the new state is `AddNodeOp` of the old one |
| HashRing.ConsistentHash.Place | internal/consistenthash/consistenthash.go:53-58 | the loop appends the node's points in order and claims each of them |
| HashRing.ConsistentHash.RemoveNode | internal/consistenthash/consistenthash.go:67-86 | the new state is `RemoveNodeOp` of the old one |
| HashRing.ConsistentHash.Sweep | internal/consistenthash/consistenthash.go:76-85 | the loop gives `Filter`'s points and owner map |
| HashRing.ConsistentHash.GetNode | internal/consistenthash/consistenthash.go:89-110 | answers `Lookup` for the key's hash; a non-empty answer is a member, since the class invariant keeps every owner entry on a listed point naming a member |
| HashRing.ConsistentHash.GetNodes | internal/consistenthash/consistenthash.go:113-122 | every member exactly once |
| HashRing.ConsistentHash.GetNodeCount | internal/consistenthash/consistenthash.go:125-129 | the number of members |
| HashRing.ConsistentHash.GetVirtualNodeCount | internal/consistenthash/consistenthash.go:132-136 | the number of points |
| HashRing.ConsistentHash.IsEmpty | internal/consistenthash/consistenthash.go:139-143 | true exactly when there is no member |
| HashRing.ConsistentHash.GetNodeStats | internal/consistenthash/consistenthash.go:146-155 | `Stats` of the owner map |

## Left out

- Locking: the mutexes are not modelled, and calls are taken one at a time.
- Background work: the sweeper goroutines, their tickers and stop channels are not modelled.
  `StopCleanup` has no state to act on. Each `cleanup` is modelled as a single call, with
  `closed` checked once.
- Time: the clock is a parameter `now` (Unix nanoseconds), and a duration is an integer
  number of nanoseconds.
- Randomness: `rand.Intn` is the parameter `pick` of `Random.SetOp` and
  `Random.Cache.Set`.
- Hashing:
  - `md5Hash` and `utils` hashing are not modelled. The ring takes any hash function
    from strings to 32-bit values.
  - Go hashes the bytes of the string; the model hashes the string itself.
- Console output, `String()` and `runtime.GC` are not modelled.
- The cache factory in `internal/cache/cache.go` and the engines are not modelled.
- Go maps are iterated in an unspecified order. Loops over a map pick their next key with
  `:|`, and their contracts do not depend on the order.
- Capacities are natural numbers: a negative `maxEntries` is not modelled.
- The callback is an identity plus a log of its calls; what the callback itself does is not
  modelled.
- Random.Cache: `Close` is not modelled. It takes the mutex and then calls `Clear`, which
  takes it again; that self-deadlock has no counterpart without locks.
- Lru.Cache.Close and Lfu.Cache.Close: a second `Close` closes the stop channel again,
  which panics. Channels are not modelled, so a second call behaves like `Clear`.
- Lru.Cache.CleanupExpiredEntries requires a cache that has not been cleared. After
  `Clear` the list is nil, and the sweep's `Back()` dereferences it.
- Lfu.Cache.Set requires a cache that has not been cleared. After `Clear` the count lists
  are nil, and the insert panics.
- Arc.Cache.Set and Arc.SetOp require `SetCanRun`. This excludes the nil dereference in
  `replace` when a ghost hit finds T1 shorter than `max(1, p)` and T2 empty; that input is
  shown by `Arc.ReplacePanicExample`.
- Lfu.Cache.Evict requires a full cache, which is how its only caller, `Set`, uses it.
- Lfu.Cache.IncrementFrequency requires the entry's count list to exist. Without it the
  source calls `Remove` on a nil list, which panics.
- Lfu.CleanupOp, Random.SweepOp and Lru.SweepOp state the cache after cleanup. The
  notifications of the first two are stated by `Lfu.Cache.CleanupExpiredEntries` and
  `Random.Cache.Cleanup`.
- HashRing.AddNodeOp and HashRing.RemoveNodeOp: that every point has a member owner, and
  the exact points removed, are proved only for rings without duplicate points. With hash
  collisions a point can be left without an owner (`HashRing.CollisionSurvives`). The
  weaker invariant that every owner entry is on the ring and names a member holds always.
- HashRing.AddRemoveRoundTrip and the ring examples assume that the node's points hash
  apart from each other and from the points already there.
- HashRing.TwoNodeRemove removes the node added last. The repository's own scenario
  removes the first node; that case is not stated.
