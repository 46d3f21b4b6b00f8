/** The adaptive replacement cache (internal/cache/arc/arc.go): a map from key to list
    element, a list T1 of entries seen once, a list T2 of re-accessed entries, ghost lists
    B1 and B2 of entries evicted from T1 and T2, and the target size `p` of T1.

    As in the 2Q cache, `list.Remove(e)` unlinks `e` only when it is on that list and
    always returns `e.Value`, so `c.t1.Remove(ele) != nil` is always true. A hit always
    pushes a new element for the entry to the front of T2 and repoints the map to it; a
    hit on an entry already in T2 leaves its older element there, so T2 can hold an
    entry several times and T1 and T2 together can hold more elements than the limit.
    `removeElement` never reaches its `t2.Remove`. */
module Arc {
  import opened Common
  import opened Lists
  import opened Arena

  /** The fields of `arc.Cache`. `entries` maps a key to the identity of the entry its
      element points to; `next` is the first identity not yet allocated. */
  datatype State<K, V> = State(
    maxEntries: nat,
    entries: map<K, nat>,
    store: map<nat, Rec<K, V>>,
    next: nat,
    t1: seq<nat>,
    t2: seq<nat>,
    b1: seq<nat>,
    b2: seq<nat>,
    p: nat,
    closed: bool,
    onEvicted: Option<Callback>,
    defaultTTL: int,
    log: seq<Event<K, V>>)

  /** Every identity in use is allocated; a key maps to an entry of that key which sits
      on T1 or T2; T1 holds each identity once and none that is on T2; both ghost lists
      are trimmed to the limit, and the target `p` lies between 0 and the limit. */
  ghost predicate WellFormed<K, V>(s: State<K, V>)
  {
    && (forall i | i in s.store :: i < s.next)
    && (forall k | k in s.entries :: s.entries[k] in s.store && s.store[s.entries[k]].key == k)
    && (forall k | k in s.entries :: s.entries[k] in s.t1 || s.entries[k] in s.t2)
    && (forall i | i in s.t1 :: i in s.store && i !in s.t2)
    && (forall i | i in s.t2 :: i in s.store)
    && (forall i | i in s.b1 :: i in s.store)
    && (forall i | i in s.b2 :: i in s.store)
    && NoDup(s.t1)
    && |s.b1| <= s.maxEntries && |s.b2| <= s.maxEntries
    && s.p <= s.maxEntries
  }

  /** The target after a hit in B1: it grows by `|B2| / |B1|`, at least 1 (by 1 when B1
      is empty), and is clamped at the limit. It never decreases and, below the limit,
      always grows. */
  function GrowP(p: nat, b1: nat, b2: nat, maxEntries: nat): (r: nat)
    requires p <= maxEntries
    ensures p <= r <= maxEntries
    ensures p < maxEntries ==> p < r
    ensures r < maxEntries ==> r == p + (if b1 > 0 then Max(1, b2 / b1) else 1)
  {
    if b1 > 0 then Min(p + Max(1, b2 / b1), maxEntries) else Min(p + 1, maxEntries)
  }

  /** The target after a hit in B2: it shrinks by `|B1| / |B2|`, at least 1 (by 1 when
      B2 is empty), and is clamped at 0. It never increases and, above 0, always
      shrinks. */
  function ShrinkP(p: nat, b1: nat, b2: nat): (r: nat)
    ensures r <= p
    ensures p > 0 ==> r < p
    ensures r > 0 ==> r == p - (if b2 > 0 then Max(1, b1 / b2) else 1)
  {
    if b2 > 0 then Max(p - Max(1, b1 / b2), 0) else Max(p - 1, 0)
  }

  /** The ghost handling shared by `Set` of a new key and a `Get` miss: `checkGhost` on
      B1 and then on B2, then `p` adapts to a B1 hit (up) or else a B2 hit (down). T1,
      T2, the map and the log are untouched. */
  function AdaptOp<K(==), V>(s: State<K, V>, key: K): (r: State<K, V>)
    requires WellFormed(s)
    ensures WellFormed(r)
    ensures r == s.(b1 := Unghost(s.b1, s.store, key), b2 := Unghost(s.b2, s.store, key), p := r.p)
    ensures HasGhost(s.b1, s.store, key) ==> s.p <= r.p && r.p == GrowP(s.p, |r.b1|, |r.b2|, s.maxEntries)
    ensures !HasGhost(s.b1, s.store, key) && HasGhost(s.b2, s.store, key) ==>
      r.p <= s.p && r.p == ShrinkP(s.p, |r.b1|, |r.b2|)
    ensures !HasGhost(s.b1, s.store, key) && !HasGhost(s.b2, s.store, key) ==> r == s
  {
    var b1 := Unghost(s.b1, s.store, key);
    var b2 := Unghost(s.b2, s.store, key);
    var p := if |b1| < |s.b1| then GrowP(s.p, |b1|, |b2|, s.maxEntries)
             else if |b2| < |s.b2| then ShrinkP(s.p, |b1|, |b2|)
             else s.p;
    s.(b1 := b1, b2 := b2, p := p)
  }

  /** `log` extends `log0` by at most `n` notifications, all of them Evictions. */
  ghost predicate EvictionsAppended<K, V>(log0: seq<Event<K, V>>, log: seq<Event<K, V>>, n: nat)
  {
    && |log0| <= |log| <= |log0| + n && log[..|log0|] == log0
    && forall i | |log0| <= i < |log| :: log[i].kind == Eviction
  }

  lemma EvictionsAppendedTrans<K, V>(a: seq<Event<K, V>>, b: seq<Event<K, V>>, c: seq<Event<K, V>>, m: nat, n: nat)
    requires EvictionsAppended(a, b, m) && EvictionsAppended(b, c, n)
    ensures EvictionsAppended(a, c, m + n)
  {
    assert c[..|a|] == c[..|b|][..|a|];
  }

  /** `replace` (and `evict`, whose body is the same) can run: it takes T1's back when
      T1 holds at least `max(1, p)` elements, and otherwise T2's back, which must
      exist. */
  predicate CanReplace<K, V>(s: State<K, V>)
  {
    |s.t1| >= Max(1, s.p) || s.t2 != []
  }

  /** `evict` and `replace`: T1's back element when T1 holds at least `max(1, p)`
      elements, its entry pushed on the front of B1; otherwise T2's back element, its
      entry pushed on B2. The ghost list is trimmed, the key of the entry leaves the map
      and exactly one Eviction is notified. */
  function ReplaceOp<K(==), V>(s: State<K, V>): (r: State<K, V>)
    requires WellFormed(s) && CanReplace(s)
    ensures WellFormed(r)
    ensures |s.t1| >= Max(1, s.p) ==>
      && r.t1 == DropLast(s.t1) && r.t2 == s.t2
      && r.b1 == Trim([Last(s.t1)] + s.b1, s.maxEntries) && r.b2 == s.b2
      && r.entries == s.entries - {s.store[Last(s.t1)].key}
      && r.log == Notify(s.log, s.onEvicted, Event(s.store[Last(s.t1)].key, s.store[Last(s.t1)].value, Eviction))
    ensures |s.t1| < Max(1, s.p) ==>
      && r.t1 == s.t1 && r.t2 == DropLast(s.t2)
      && r.b1 == s.b1 && r.b2 == Trim([Last(s.t2)] + s.b2, s.maxEntries)
      && r.entries == s.entries - {s.store[Last(s.t2)].key}
      && r.log == Notify(s.log, s.onEvicted, Event(s.store[Last(s.t2)].key, s.store[Last(s.t2)].value, Eviction))
    ensures |r.t1| + |r.t2| == |s.t1| + |s.t2| - 1
    ensures EvictionsAppended(s.log, r.log, 1)
    ensures r.store == s.store && r.next == s.next && r.p == s.p && r.maxEntries == s.maxEntries
    ensures r.closed == s.closed && r.onEvicted == s.onEvicted && r.defaultTTL == s.defaultTTL
  {
    if |s.t1| >= Max(1, s.p) then
      var id := Last(s.t1);
      var e := s.store[id];
      ReplaceFrontKeeps(s);
      s.(t1 := DropLast(s.t1), entries := s.entries - {e.key}, b1 := Trim([id] + s.b1, s.maxEntries),
         log := Notify(s.log, s.onEvicted, Event(e.key, e.value, Eviction)))
    else
      var id := Last(s.t2);
      var e := s.store[id];
      ReplaceBackKeeps(s);
      s.(t2 := DropLast(s.t2), entries := s.entries - {e.key}, b2 := Trim([id] + s.b2, s.maxEntries),
         log := Notify(s.log, s.onEvicted, Event(e.key, e.value, Eviction)))
  }

  lemma ReplaceFrontKeeps<K, V>(s: State<K, V>)
    requires WellFormed(s) && s.t1 != []
    ensures var id := Last(s.t1);
            WellFormed(s.(t1 := DropLast(s.t1), entries := s.entries - {s.store[id].key},
                          b1 := Trim([id] + s.b1, s.maxEntries)))
  {
    var id := Last(s.t1);
    var t1 := DropLast(s.t1);
    assert s.t1 == t1 + [id];
    NoDupSlice(s.t1, 0, |s.t1| - 1);
    assert s.t1[0..|s.t1| - 1] == t1;
    forall k | k in s.entries && k != s.store[id].key
      ensures s.entries[k] in t1 || s.entries[k] in s.t2
    {
      assert s.entries[k] != id;
    }
  }

  lemma ReplaceBackKeeps<K, V>(s: State<K, V>)
    requires WellFormed(s) && s.t2 != []
    ensures var id := Last(s.t2);
            WellFormed(s.(t2 := DropLast(s.t2), entries := s.entries - {s.store[id].key},
                          b2 := Trim([id] + s.b2, s.maxEntries)))
  {
    var id := Last(s.t2);
    var t2 := DropLast(s.t2);
    assert s.t2 == t2 + [id];
    forall k | k in s.entries && k != s.store[id].key
      ensures s.entries[k] in s.t1 || s.entries[k] in t2
    {
      assert s.entries[k] != id;
    }
  }

  /** After a new element is pushed on T1, `evict` can always run: either T1 reaches
      `max(1, p)`, or T1 is below `p`, and since `p` is within the limit that the lists
      exceed, T2 is not empty. */
  lemma EvictCanRun<K, V>(s: State<K, V>)
    requires WellFormed(s) && s.t1 != [] && |s.t1| + |s.t2| > s.maxEntries
    ensures CanReplace(s)
  {
  }

  /** A hit on the entry `id`: its T1 element (if any) is unlinked and a new element for
      it goes to the front of T2. */
  function Promote<K, V>(s: State<K, V>, id: nat): State<K, V>
  {
    s.(t1 := Remove(s.t1, id), t2 := [id] + s.t2)
  }

  lemma PromoteKeeps<K, V>(s: State<K, V>, k: K)
    requires WellFormed(s) && k in s.entries
    ensures WellFormed(Promote(s, s.entries[k]))
  {
    RemoveNoDup(s.t1, s.entries[k]);
  }

  /** A new entry for `key` at the front of T1, under the next identity. */
  function Insert<K, V>(s: State<K, V>, key: K, e: Rec<K, V>): State<K, V>
  {
    s.(store := s.store[s.next := e], next := s.next + 1,
       entries := s.entries[key := s.next], t1 := [s.next] + s.t1)
  }

  lemma InsertKeeps<K, V>(s: State<K, V>, key: K, e: Rec<K, V>)
    requires WellFormed(s) && key !in s.entries && e.key == key
    ensures WellFormed(Insert(s, key, e))
  {
    assert s.next !in s.store;
    assert s.next !in s.t1;
    NoDupConcat([s.next], s.t1);
  }

  /** What `Set` of a new key demands: when the key has a ghost, the `replace` that
      follows the adaptation of `p` must find an element to evict. Otherwise Go's
      `t2.Back()` is nil and `Set` panics. */
  predicate SetCanRun<K(==), V>(s: State<K, V>, key: K)
    requires WellFormed(s)
  {
    key !in s.entries && (HasGhost(s.b1, s.store, key) || HasGhost(s.b2, s.store, key))
    ==> CanReplace(AdaptOp(s, key))
  }

  /** The ghost handling of `Set` for a new key: `p` adapts and, on a ghost hit,
      `replace` evicts one element. The key stays absent from the map, the store is
      untouched and at most one Eviction is notified. */
  function GhostHitOp<K(==), V>(s: State<K, V>, key: K): (r: State<K, V>)
    requires WellFormed(s) && key !in s.entries && SetCanRun(s, key)
    ensures WellFormed(r)
    ensures r.p == AdaptOp(s, key).p
    ensures HasGhost(s.b1, s.store, key) || HasGhost(s.b2, s.store, key) ==>
      CanReplace(AdaptOp(s, key)) && r == ReplaceOp(AdaptOp(s, key))
    ensures !HasGhost(s.b1, s.store, key) && !HasGhost(s.b2, s.store, key) ==> r == s
    ensures r.entries.Keys <= s.entries.Keys
    ensures |r.t1| + |r.t2| == |s.t1| + |s.t2| - (if HasGhost(s.b1, s.store, key) || HasGhost(s.b2, s.store, key) then 1 else 0)
    ensures EvictionsAppended(s.log, r.log, 1)
    ensures r.store == s.store && r.next == s.next && r.maxEntries == s.maxEntries && r.closed == s.closed
    ensures r.onEvicted == s.onEvicted && r.defaultTTL == s.defaultTTL
  {
    var t := AdaptOp(s, key);
    if HasGhost(s.b1, s.store, key) || HasGhost(s.b2, s.store, key) then ReplaceOp(t)
    else
      assert t.log[..|t.log|] == t.log;
      t
  }

  /** A new key after the ghost handling: pushed on the front of T1 under the next
      identity. */
  function AdmitOp<K(==), V>(s: State<K, V>, key: K, e: Rec<K, V>): (r: State<K, V>)
    requires WellFormed(s) && key !in s.entries && e.key == key && SetCanRun(s, key)
    ensures WellFormed(r)
    ensures key in r.entries && r.entries[key] == s.next && r.t1 != [] && r.t1[0] == s.next
    ensures var g := GhostHitOp(s, key);
      && r.t1 == [s.next] + g.t1 && r.t2 == g.t2 && r.entries == g.entries[key := s.next]
      && r.b1 == g.b1 && r.b2 == g.b2 && r.p == AdaptOp(s, key).p && r.log == g.log
    ensures |r.t1| + |r.t2| == |s.t1| + |s.t2| + (if HasGhost(s.b1, s.store, key) || HasGhost(s.b2, s.store, key) then 0 else 1)
    ensures r.store == s.store[s.next := e] && r.next == s.next + 1
    ensures EvictionsAppended(s.log, r.log, 1)
    ensures r.maxEntries == s.maxEntries && r.closed == s.closed
    ensures r.onEvicted == s.onEvicted && r.defaultTTL == s.defaultTTL
  {
    var u := GhostHitOp(s, key);
    InsertKeeps(u, key, e);
    Insert(u, key, e)
  }

  /** `Set`. An existing key takes the new value and stamp in its entry, which is
      promoted to the front of T2, with no ghost handling, no eviction and no
      notification. A new key has its ghost handled (adapting `p` and replacing on a
      hit) and is pushed on the front of T1; when T1 and T2 then hold more elements
      than the limit, one eviction follows. A new key never makes the lists outgrow the
      limit, and every notification it causes is an Eviction. */
  function SetOp<K(==), V>(s: State<K, V>, key: K, value: V, ttl: int, now: nat): (r: State<K, V>)
    requires WellFormed(s) && SetCanRun(s, key)
    ensures WellFormed(r)
    ensures key in s.entries ==>
      var id := s.entries[key];
      && r.entries == s.entries && r.t1 == Remove(s.t1, id) && r.t2 == [id] + s.t2
      && r.b1 == s.b1 && r.b2 == s.b2 && r.p == s.p
      && r.store == s.store[id := Rec(key, value, FallbackExpiration(now, ttl, s.defaultTTL))]
      && r.log == s.log && r.next == s.next
    ensures key !in s.entries ==>
      && r.store == s.store[s.next := Rec(key, value, FallbackExpiration(now, ttl, s.defaultTTL))]
      && r.next == s.next + 1
      && (key in r.entries ==> r.entries[key] == s.next)
      && r == SetNewOp(s, key, Rec(key, value, FallbackExpiration(now, ttl, s.defaultTTL)))
      && r.p == AdaptOp(s, key).p
      && (|s.t1| + |s.t2| <= s.maxEntries ==> |r.t1| + |r.t2| <= s.maxEntries)
      && EvictionsAppended(s.log, r.log, 2)
    ensures r.maxEntries == s.maxEntries && r.closed == s.closed
    ensures r.onEvicted == s.onEvicted && r.defaultTTL == s.defaultTTL
  {
    var e := Rec(key, value, FallbackExpiration(now, ttl, s.defaultTTL));
    if key in s.entries then
      var id := s.entries[key];
      var t := s.(store := s.store[id := e]);
      PromoteKeeps(t, key);
      Promote(t, id)
    else
      SetNewOp(s, key, e)
  }

  /** `Set` of a key not in the map: admission, then one eviction when the lists have
      grown past the limit. */
  function SetNewOp<K(==), V>(s: State<K, V>, key: K, e: Rec<K, V>): (r: State<K, V>)
    requires WellFormed(s) && SetCanRun(s, key) && key !in s.entries && e.key == key
    ensures WellFormed(r)
    ensures r.store == s.store[s.next := e] && r.next == s.next + 1
    ensures key in r.entries ==> r.entries[key] == s.next
    ensures r.p == AdaptOp(s, key).p
    ensures var t := AdmitOp(s, key, e);
      && (|t.t1| + |t.t2| > s.maxEntries ==> CanReplace(t) && r == ReplaceOp(t))
      && (|t.t1| + |t.t2| <= s.maxEntries ==> r == t)
    ensures |s.t1| + |s.t2| <= s.maxEntries ==> |r.t1| + |r.t2| <= s.maxEntries
    ensures EvictionsAppended(s.log, r.log, 2)
    ensures r.maxEntries == s.maxEntries && r.closed == s.closed
    ensures r.onEvicted == s.onEvicted && r.defaultTTL == s.defaultTTL
  {
    var t := AdmitOp(s, key, e);
    if |t.t1| + |t.t2| > s.maxEntries then
      EvictCanRun(t);
      var r := ReplaceOp(t);
      EvictionsAppendedTrans(s.log, t.log, r.log, 1, 1);
      r
    else
      EvictionsAppendedTrans(s.log, t.log, t.log, 1, 1);
      t
  }

  /** What `Get` and `Has` report: the value of the unexpired entry of the key. */
  function Lookup<K(==), V>(s: State<K, V>, key: K, now: nat): (r: Option<V>)
    requires WellFormed(s)
    ensures r.Some? <==> key in s.entries && !Expired(s.store[s.entries[key]].expiration, now)
    ensures r.Some? ==> r.value == s.store[s.entries[key]].value
  {
    if key in s.entries && !Expired(s.store[s.entries[key]].expiration, now) then
      Some(s.store[s.entries[key]].value)
    else None
  }

  /** `removeElement` for the element of entry `id`: the key of the entry leaves the map,
      the element leaves T1 if it is there (a T2 element stays), and the entry is
      notified. */
  function RemoveElementOp<K(==), V>(s: State<K, V>, id: nat, kind: EventKind): (r: State<K, V>)
    requires WellFormed(s) && id in s.store
    ensures WellFormed(r)
    ensures r.entries == s.entries - {s.store[id].key}
    ensures r.t1 == Remove(s.t1, id)
    ensures forall i :: i in r.t1 <==> i in s.t1 && i != id
    ensures r.t2 == s.t2 && r.b1 == s.b1 && r.b2 == s.b2 && r.p == s.p
    ensures r.store == s.store && r.next == s.next
    ensures r.log == Notify(s.log, s.onEvicted, Event(s.store[id].key, s.store[id].value, kind))
    ensures r.maxEntries == s.maxEntries && r.closed == s.closed
    ensures r.onEvicted == s.onEvicted && r.defaultTTL == s.defaultTTL
  {
    var e := s.store[id];
    RemoveNoDup(s.t1, id);
    s.(entries := s.entries - {e.key}, t1 := Remove(s.t1, id),
       log := Notify(s.log, s.onEvicted, Event(e.key, e.value, kind)))
  }

  /** `Get`. A live hit promotes the entry to the front of T2 (from T1 if it was there).
      An expired hit removes it with one Expiration notification. A miss changes only
      `p` and the ghost lists: T1, T2 and the map stay as they were. */
  function GetOp<K(==), V>(s: State<K, V>, key: K, now: nat): (r: State<K, V>)
    requires WellFormed(s)
    ensures WellFormed(r)
    ensures Lookup(s, key, now).Some? ==>
      var id := s.entries[key];
      r == s.(t1 := Remove(s.t1, id), t2 := [id] + s.t2) && r.t2[0] == id && id !in r.t1
    ensures key in s.entries && Expired(s.store[s.entries[key]].expiration, now) ==>
      && r.entries == s.entries - {key} && r.t2 == s.t2 && r.b1 == s.b1 && r.b2 == s.b2
      && r.t1 == Remove(s.t1, s.entries[key])
      && (forall i :: i in r.t1 <==> i in s.t1 && i != s.entries[key])
      && r.log == Notify(s.log, s.onEvicted, Event(key, s.store[s.entries[key]].value, Expiration))
    ensures key !in s.entries ==>
      && r == AdaptOp(s, key)
      && r == s.(b1 := r.b1, b2 := r.b2, p := r.p)
      && |r.b1| <= |s.b1| && |r.b2| <= |s.b2|
      && (HasGhost(s.b1, s.store, key) ==> s.p <= r.p)
      && (!HasGhost(s.b1, s.store, key) && HasGhost(s.b2, s.store, key) ==> r.p <= s.p)
  {
    if key in s.entries then
      var id := s.entries[key];
      if Expired(s.store[id].expiration, now) then RemoveElementOp(s, id, Expiration)
      else
        PromoteKeeps(s, key);
        RemoveNoDup(s.t1, id);
        Promote(s, id)
    else
      AdaptOp(s, key)
  }

  /** The removal loop of `cleanup`: `removeElement` for each identity of `ids` in turn.
      Each key of their entries leaves the map, T1 keeps its other elements in order,
      T2 and the ghost lists are untouched, and every element is notified once, in order. */
  function RemoveEach<K(==), V>(s: State<K, V>, ids: seq<nat>): (r: State<K, V>)
    requires WellFormed(s) && forall id | id in ids :: id in s.store
    ensures WellFormed(r)
    ensures r.entries == s.entries - KeysOf(ids, s.store)
    ensures r.t1 == Without(s.t1, Elems(ids))
    ensures r.log == s.log + (if s.onEvicted.Some? then ExpiryEvents(ids, s.store) else [])
    ensures r == s.(entries := r.entries, t1 := r.t1, log := r.log)
    decreases |ids|
  {
    if ids == [] then
      assert KeysOf(ids, s.store) == {} && Elems(ids) == {};
      WithoutNothing(s.t1, {});
      s
    else
      var t := RemoveEach(s, DropLast(ids));
      RemoveEachStep(s, ids, t);
      RemoveWithoutStep(s.t1, ids);
      RemoveElementOp(t, Last(ids), Expiration)
  }

  /** One more `removeElement` after the elements of `DropLast(ids)`. */
  lemma RemoveEachStep<K, V>(s: State<K, V>, ids: seq<nat>, t: State<K, V>)
    requires WellFormed(s) && ids != [] && forall id | id in ids :: id in s.store
    requires WellFormed(t) && t.entries == s.entries - KeysOf(DropLast(ids), s.store)
    requires t.log == s.log + (if s.onEvicted.Some? then ExpiryEvents(DropLast(ids), s.store) else [])
    requires t == s.(entries := t.entries, t1 := t.t1, log := t.log)
    ensures Last(ids) in t.store
    ensures var r := RemoveElementOp(t, Last(ids), Expiration);
            && WellFormed(r)
            && r.entries == s.entries - KeysOf(ids, s.store)
            && r.log == s.log + (if s.onEvicted.Some? then ExpiryEvents(ids, s.store) else [])
            && r == s.(entries := r.entries, t1 := r.t1, log := r.log)
  {
    InDropLast(ids);
    var r := RemoveElementOp(t, Last(ids), Expiration);
    assert r.entries == s.entries - KeysOf(ids, s.store) by {
      KeysOfStep(ids, s.store);
    }
    assert r.log == s.log + (if s.onEvicted.Some? then ExpiryEvents(ids, s.store) else []);
  }

  /** `cleanup`: unless the cache is closed, the expired elements of T1 (front to back)
      and then of T2 go through `removeElement`, each with one Expiration notification.
      Afterwards no key of the map refers to an expired entry and T1 keeps exactly its
      unexpired entries, in order; T2, the ghost lists and `p` are untouched. */
  function CleanupOp<K(==), V>(s: State<K, V>, now: nat): (r: State<K, V>)
    requires WellFormed(s)
    ensures WellFormed(r)
    ensures s.closed ==> r == s
    ensures !s.closed ==>
      var x := ExpiredIds(s.t1, s.store, now) + ExpiredIds(s.t2, s.store, now);
      && r.entries == s.entries - KeysOf(x, s.store)
      && (forall k | k in r.entries :: !Expired(r.store[r.entries[k]].expiration, now))
      && r.t1 == Without(s.t1, Elems(x))
      && (forall i :: i in r.t1 <==> i in s.t1 && !Expired(s.store[i].expiration, now))
      && r.t2 == s.t2 && r.b1 == s.b1 && r.b2 == s.b2 && r.p == s.p && r.store == s.store
      && r.log == s.log + (if s.onEvicted.Some? then ExpiryEvents(x, s.store) else [])
  {
    if s.closed then s
    else
      var x := ExpiredIds(s.t1, s.store, now) + ExpiredIds(s.t2, s.store, now);
      var r := RemoveEach(s, x);
      CleanupLeavesLive(s, x, now, r);
      r
  }

  lemma CleanupLeavesLive<K, V>(s: State<K, V>, x: seq<nat>, now: nat, r: State<K, V>)
    requires WellFormed(s)
    requires forall id :: id in x <==> (id in s.t1 || id in s.t2) && Expired(s.store[id].expiration, now)
    requires r.entries == s.entries - KeysOf(x, s.store) && r.store == s.store
    requires forall i :: i in r.t1 <==> i in s.t1 && i !in x
    ensures forall k | k in r.entries :: !Expired(r.store[r.entries[k]].expiration, now)
    ensures forall i :: i in r.t1 <==> i in s.t1 && !Expired(s.store[i].expiration, now)
  {
    forall k | k in s.entries && Expired(s.store[s.entries[k]].expiration, now)
      ensures k in KeysOf(x, s.store)
    {
      assert s.entries[k] in x;
    }
  }

  /** The key -> expiration view of the map, read by `Keys` and `Len`. */
  function Expirations<K, V>(s: State<K, V>): map<K, nat>
    requires WellFormed(s)
  {
    map k | k in s.entries :: s.store[s.entries[k]].expiration
  }

  function Values<K, V>(s: State<K, V>): map<K, V>
    requires WellFormed(s)
  {
    map k | k in s.entries :: s.store[s.entries[k]].value
  }

  /** Emptying the map and the four lists, with the target back at 0, keeps the
      invariant whatever was notified. */
  lemma ClearKeeps<K, V>(s: State<K, V>, l: seq<Event<K, V>>)
    requires WellFormed(s)
    ensures WellFormed(s.(entries := map[], t1 := [], t2 := [], b1 := [], b2 := [], p := 0, log := l))
  {
  }

  /** The empty cache `New` builds, with callback `f` installed. */
  function Empty<K, V>(m: nat, f: Option<Callback>): (r: State<K, V>)
    ensures WellFormed(r)
  {
    State(m, map[], map[], 0, [], [], [], [], 0, false, f, 0, [])
  }

  /** The first `Set` on an empty cache of capacity 1 or more pushes its entry on T1. */
  lemma FirstSet<K, V>(m: nat, f: Option<Callback>, k: K, v: V, ttl: int, now: nat)
    requires m >= 1
    ensures SetOp(Empty(m, f), k, v, ttl, now)
            == State(m, map[k := 0], map[0 := Rec(k, v, FallbackExpiration(now, ttl, 0))], 1, [0], [], [], [], 0, false, f, 0, [])
  {
    var s0: State<K, V> := Empty(m, f);
    assert AdaptOp(s0, k) == s0;
  }

  /** At capacity 1, a second new key pushes out the first: its entry goes from the back
      of T1 to B1 and is notified as an Eviction. */
  lemma SecondSetEvicts<K, V>(f: Option<Callback>, k1: K, v1: V, e1: nat, k2: K, v2: V, ttl: int, now: nat)
    requires k1 != k2
    ensures var s1 := State(1, map[k1 := 0], map[0 := Rec(k1, v1, e1)], 1, [0], [], [], [], 0, false, f, 0, []);
            SetOp(s1, k2, v2, ttl, now)
            == State(1, map[k2 := 1], map[0 := Rec(k1, v1, e1), 1 := Rec(k2, v2, FallbackExpiration(now, ttl, 0))], 2,
                     [1], [], [0], [], 0, false, f, 0, Notify([], f, Event(k1, v1, Eviction)))
  {
    var s1: State<K, V> := State(1, map[k1 := 0], map[0 := Rec(k1, v1, e1)], 1, [0], [], [], [], 0, false, f, 0, []);
    assert AdaptOp(s1, k2) == s1;
    var t := Insert(s1, k2, Rec(k2, v2, FallbackExpiration(now, ttl, 0)));
    assert t.t1 == [1, 0] && Last(t.t1) == 0;
    assert t.entries - {k1} == map[k2 := 1];
  }

  /** The cache after `Set k1` then `Set k2` at capacity 1: k2 alone on T1, k1's entry
      on B1. */
  function GhostHitStart<K, V>(f: Option<Callback>, k1: K, v1: V, e1: nat, k2: K, v2: V, e2: nat, l: seq<Event<K, V>>): State<K, V>
  {
    State(1, map[k2 := 1], map[0 := Rec(k1, v1, e1), 1 := Rec(k2, v2, e2)], 2, [1], [], [0], [], 0, false, f, 0, l)
  }

  /** The cache after the ghost hit on k1 that follows. */
  function GhostHitEnd<K, V>(f: Option<Callback>, k1: K, v1: V, e1: nat, k2: K, v2: V, e2: nat, v3: V, l: seq<Event<K, V>>): State<K, V>
  {
    State(1, map[k1 := 2], map[0 := Rec(k1, v1, e1), 1 := Rec(k2, v2, e2), 2 := Rec(k1, v3, 0)], 3,
          [2], [], [1], [], 1, false, f, 0, Notify(l, f, Event(k2, v2, Eviction)))
  }

  /** With k1's entry on B1 and k2's alone on T1 at capacity 1, setting k1 again is a
      ghost hit: `p` grows to 1, `replace` moves k2's entry from T1 to B1 and k1 comes
      back on T1 under a new identity. */
  lemma GhostHitSet<K, V>(f: Option<Callback>, k1: K, v1: V, e1: nat, k2: K, v2: V, e2: nat, v3: V, l: seq<Event<K, V>>, now: nat)
    requires k1 != k2 && WellFormed(GhostHitStart(f, k1, v1, e1, k2, v2, e2, l))
    ensures SetCanRun(GhostHitStart(f, k1, v1, e1, k2, v2, e2, l), k1)
    ensures SetOp(GhostHitStart(f, k1, v1, e1, k2, v2, e2, l), k1, v3, 0, now) == GhostHitEnd(f, k1, v1, e1, k2, v2, e2, v3, l)
  {
    var s2 := GhostHitStart(f, k1, v1, e1, k2, v2, e2, l);
    assert 0 in s2.b1 && s2.store[0].key == k1;
    assert Unghost(s2.b1, s2.store, k1) == [];
    var t := AdaptOp(s2, k1);
    assert t == s2.(b1 := [], p := 1);
    assert Last(t.t1) == 1;
    assert t.entries - {k2} == map[];
  }

  /** At capacity 1, `Set k1, k2, k1` ends with k1 alone in the map, `p` at 1 and k2's
      entry on B1, and with one Eviction notified for each of k1 and k2. */
  lemma GhostHitExample<K>(f: Option<Callback>, k1: K, k2: K, now: nat)
    requires k1 != k2
    ensures var s2 := SetOp(SetOp(Empty(1, f), k1, 1, 0, now), k2, 2, 0, now);
            && SetCanRun(s2, k1)
            && var s3 := SetOp(s2, k1, 3, 0, now);
               && s3.entries == map[k1 := 2] && s3.p == 1 && s3.t1 == [2] && s3.b1 == [1]
               && s3.store[2] == Rec(k1, 3, 0)
               && s3.log == Notify(Notify([], f, Event(k1, 1, Eviction)), f, Event(k2, 2, Eviction))
  {
    FirstSet(1, f, k1, 1, 0, now);
    SecondSetEvicts(f, k1, 1, 0, k2, 2, 0, now);
    var s2 := SetOp(SetOp(Empty(1, f), k1, 1, 0, now), k2, 2, 0, now);
    var l := Notify([], f, Event(k1, 1, Eviction));
    assert s2 == GhostHitStart(f, k1, 1, 0, k2, 2, 0, l);
    GhostHitSet(f, k1, 1, 0, k2, 2, 0, 3, l, now);
  }

  /** Two hits on an entry at capacity 1 leave two elements for it on T2: T1 and T2
      together hold more elements than the limit, with one key in the map. */
  lemma T2GrowthExample<K>(k: K, now: nat)
    ensures var s1 := SetOp(Empty(1, None), k, 1, 0, now);
            var s3 := GetOp(GetOp(s1, k, now), k, now);
            && |s3.t1| + |s3.t2| == 2 > s3.maxEntries
            && s3.entries == map[k := 0] && s3.t2 == [0, 0]
  {
    FirstSet(1, None, k, 1, 0, now);
    var s1: State<K, int> := State(1, map[k := 0], map[0 := Rec(k, 1, 0)], 1, [0], [], [], [], 0, false, None, 0, []);
    assert Remove([0], 0) == [];
    var s2 := GetOp(s1, k, now);
    assert s2 == s1.(t1 := [], t2 := [0]);
    assert Remove([], 0) == [];
  }

  /** The panic `Set` can reach: at capacity 1, k1 is evicted to B1 by k2, k2 expires and
      is removed by `Get`, so T1 and T2 are empty when `Set k1` hits B1 and `p` becomes 1;
      `replace` then finds `|T1| < max(1, p)` and an empty T2. */
  lemma ReplacePanicExample<K>(k1: K, k2: K)
    requires k1 != k2
    ensures var s2 := SetOp(SetOp(Empty(1, None), k1, 1, 5, 10), k2, 2, 5, 10);
            var s3 := GetOp(s2, k2, 20);
            k1 !in s3.entries && !SetCanRun(s3, k1)
  {
    FirstSet(1, None, k1, 1, 5, 10);
    SecondSetEvicts(None, k1, 1, 15, k2, 2, 5, 10);
    var s2: State<K, int> := State(1, map[k2 := 1], map[0 := Rec(k1, 1, 15), 1 := Rec(k2, 2, 15)], 2, [1], [], [0], [], 0, false, None, 0, []);
    assert Remove([1], 1) == [];
    var s3 := GetOp(s2, k2, 20);
    assert s3 == s2.(entries := map[], t1 := []);
    assert s3.b1[0] == 0;
    assert HasGhost(s3.b1, s3.store, k1);
    assert AdaptOp(s3, k1).p == 1;
  }

  /** `arc.Cache`. The mutex, the sweeper goroutine and its stop channel are not
      modelled. */
  class Cache<K(==), V> {
    const maxEntries: nat
    var entries: map<K, nat>
    var store: map<nat, Rec<K, V>>
    var next: nat
    var t1: seq<nat>
    var t2: seq<nat>
    var b1: seq<nat>
    var b2: seq<nat>
    var p: nat
    var closed: bool
    var onEvicted: Option<Callback>
    var defaultTTL: int
    var log: seq<Event<K, V>>

    function Model(): State<K, V>
      reads this
    {
      State(maxEntries, entries, store, next, t1, t2, b1, b2, p, closed, onEvicted, defaultTTL, log)
    }

    ghost predicate Valid()
      reads this
    {
      WellFormed(Model())
    }

    /** `New`: empty map and lists, target 0. */
    constructor (maxEntries: nat)
      ensures Valid()
      ensures Model() == State(maxEntries, map[], map[], 0, [], [], [], [], 0, false, None, 0, [])
    {
      this.maxEntries := maxEntries;
      entries, store, next := map[], map[], 0;
      t1, t2, b1, b2, p, closed := [], [], [], [], 0, false;
      onEvicted, defaultTTL, log := None, 0, [];
    }

    /** `SetEvictedFunc` always succeeds and overwrites any installed callback. */
    method SetEvictedFunc(f: Option<Callback>) returns (err: bool)
      requires Valid()
      modifies this
      ensures Valid()
      ensures !err
      ensures Model() == old(Model()).(onEvicted := f)
    {
      onEvicted := f;
      return false;
    }

    method SetDefaultTTL(ttl: int)
      requires Valid()
      modifies this
      ensures Valid()
      ensures Model() == old(Model()).(defaultTTL := ttl)
    {
      defaultTTL := ttl;
    }

    method Set(key: K, value: V, ttl: int, now: nat)
      requires Valid() && SetCanRun(Model(), key)
      modifies this
      ensures Valid()
      ensures Model() == SetOp(old(Model()), key, value, ttl, now)
    {
      ghost var s := Model();
      var ent := Rec(key, value, FallbackExpiration(now, ttl, defaultTTL));
      if key in entries {
        var id := entries[key];
        PromoteKeeps(s.(store := store[id := ent]), key);
        // the T1 removal always reports success, so MoveToFront is never reached
        store, t1, t2 := store[id := ent], Remove(t1, id), [id] + t2;
        assert Model() == Promote(s.(store := s.store[id := ent]), id);
        return;
      }
      ReplaceOnGhost(key);
      InsertKeeps(Model(), key, ent);
      PushT1(key, ent);
      if |t1| + |t2| > maxEntries {
        EvictCanRun(Model());
        Evict();
      }
    }

    /** `c.entries[key] = c.t1.PushFront(ent)`: the new entry's element at the front of
        T1. */
    method PushT1(key: K, ent: Rec<K, V>)
      requires Valid() && key !in entries && ent.key == key
      modifies this
      ensures Model() == Insert(old(Model()), key, ent)
    {
      var id := next;
      store, next, entries, t1 := store[id := ent], next + 1, entries[key := id], [id] + t1;
    }

    /** The ghost handling of `Set` for a new key: adapt `p`, then `replace` on a hit. */
    method ReplaceOnGhost(key: K)
      requires Valid() && key !in entries && SetCanRun(Model(), key)
      modifies this
      ensures Model() == GhostHitOp(old(Model()), key)
    {
      var hit := Adapt(key);
      if hit {
        Replace(key);
      }
    }

    /** The ghost handling that `Set` of a new key and a `Get` miss both spell out:
        `checkGhost` on B1 and on B2, then `p` moves up on a B1 hit or else down on a
        B2 hit, by the ratio of the ghost lists' lengths and at least 1, clamped to
        `[0, maxEntries]`. */
    method Adapt(key: K) returns (hit: bool)
      requires Valid()
      modifies this
      ensures Model() == AdaptOp(old(Model()), key)
      ensures hit <==> HasGhost(old(b1), old(store), key) || HasGhost(old(b2), old(store), key)
    {
      var nb1, inB1 := CheckGhost(b1, store, key);
      var nb2, inB2 := CheckGhost(b2, store, key);
      var np := p;
      if inB1 {
        if |nb1| > 0 {
          np := Min(p + Max(1, |nb2| / |nb1|), maxEntries);
        } else {
          np := Min(p + 1, maxEntries);
        }
      } else if inB2 {
        if |nb2| > 0 {
          np := Max(p - Max(1, |nb1| / |nb2|), 0);
        } else {
          np := Max(p - 1, 0);
        }
      }
      b1, b2, p := nb1, nb2, np;
      return inB1 || inB2;
    }

    method Get(key: K, now: nat) returns (value: Option<V>)
      requires Valid()
      modifies this
      ensures Valid()
      ensures value == Lookup(old(Model()), key, now)
      ensures Model() == GetOp(old(Model()), key, now)
    {
      if key in entries {
        var id := entries[key];
        var ent := store[id];
        if ent.expiration > 0 && now > ent.expiration {
          RemoveElement(id, Expiration);
          return None;
        }
        PromoteKeeps(Model(), key);
        t1, t2 := Remove(t1, id), [id] + t2;
        return Some(ent.value);
      }
      var _ := Adapt(key);
      return None;
    }

    /** `Has` reads only: true exactly for a present, unexpired key. */
    method Has(key: K, now: nat) returns (ok: bool)
      requires Valid()
      ensures ok <==> Lookup(Model(), key, now).Some?
    {
      if key !in entries {
        return false;
      }
      var ent := store[entries[key]];
      if ent.expiration > 0 && now > ent.expiration {
        return false;
      }
      return true;
    }

    /** `Keys` lists the keys of unexpired entries, each once, in map order. */
    method Keys(now: nat) returns (ks: seq<K>)
      requires Valid()
      ensures NoDup(ks)
      ensures forall k :: k in ks <==> Lookup(Model(), k, now).Some?
    {
      ks := LiveKeys(Expirations(Model()), now);
    }

    /** `Len` counts the unexpired entries. */
    method Len(now: nat) returns (n: nat)
      requires Valid()
      ensures n == |LiveSet(Expirations(Model()), now)|
      ensures n <= |entries|
    {
      n := CountLive(Expirations(Model()), now);
      assert Expirations(Model()).Keys == entries.Keys;
    }

    /** `Clear`: one Clear notification per map entry, then an empty map, four empty
        lists and the target back at 0. */
    method Clear()
      requires Valid()
      modifies this
      ensures Valid()
      ensures Model() == old(Model()).(entries := map[], t1 := [], t2 := [], b1 := [], b2 := [], p := 0, log := log)
      ensures NotifiedEach(old(log), log, onEvicted, old(entries).Keys, Values(old(Model())), EventKind.Clear)
    {
      var l := NotifyEach(log, onEvicted, entries.Keys, Values(Model()), EventKind.Clear);
      ClearKeeps(Model(), l);
      Reset(l);
    }

    /** The resets at the end of `Clear`, with `l` the notifications already made. */
    method Reset(l: seq<Event<K, V>>)
      modifies this
      ensures Model() == old(Model()).(entries := map[], t1 := [], t2 := [], b1 := [], b2 := [], p := 0, log := l)
    {
      entries, t1, t2, b1, b2, p, log := map[], [], [], [], [], 0, l;
    }

    /** `Close` marks the cache closed, so that later sweeps do nothing, and clears it. */
    method Close()
      requires Valid()
      modifies this
      ensures Valid()
      ensures entries == map[] && t1 == [] && t2 == [] && b1 == [] && b2 == [] && p == 0 && closed
      ensures onEvicted == old(onEvicted) && defaultTTL == old(defaultTTL)
      ensures NotifiedEach(old(log), log, onEvicted, old(entries).Keys, Values(old(Model())), EventKind.Clear)
    {
      closed := true;
      Clear();
    }

    method Evict()
      requires Valid() && CanReplace(Model())
      modifies this
      ensures Model() == ReplaceOp(old(Model()))
    {
      ghost var s := Model();
      if |t1| >= Max(1, p) {
        var id := t1[|t1| - 1];
        var ent := store[id];
        var l := Notify(log, onEvicted, Event(ent.key, ent.value, Eviction));
        t1, entries, b1, log := t1[..|t1| - 1], entries - {ent.key}, Trim([id] + b1, maxEntries), l;
        assert Model() == s.(t1 := DropLast(s.t1), entries := s.entries - {ent.key}, b1 := Trim([id] + s.b1, maxEntries), log := l);
      } else {
        var id := t2[|t2| - 1];
        var ent := store[id];
        var l := Notify(log, onEvicted, Event(ent.key, ent.value, Eviction));
        t2, entries, b2, log := t2[..|t2| - 1], entries - {ent.key}, Trim([id] + b2, maxEntries), l;
        assert Model() == s.(t2 := DropLast(s.t2), entries := s.entries - {ent.key}, b2 := Trim([id] + s.b2, maxEntries), log := l);
      }
    }

    /** `replace` repeats the body of `evict`; its key argument is not read. */
    method Replace(key: K)
      requires Valid() && CanReplace(Model())
      modifies this
      ensures Model() == ReplaceOp(old(Model()))
    {
      Evict();
    }

    method RemoveElement(id: nat, kind: EventKind)
      requires Valid() && id in store
      modifies this
      ensures Model() == RemoveElementOp(old(Model()), id, kind)
    {
      var ent := store[id];
      RemoveNoDup(t1, id);
      var l := Notify(log, onEvicted, Event(ent.key, ent.value, kind));
      // the T1 removal always reports success, so the T2 removal is never reached
      entries, t1, log := entries - {ent.key}, Remove(t1, id), l;
    }

    /** `cleanup`: nothing once closed; otherwise collect the expired elements of T1 and
        then of T2, and remove each. */
    method Cleanup(now: nat)
      requires Valid()
      modifies this
      ensures Model() == CleanupOp(old(Model()), now)
    {
      if closed {
        return;
      }
      var toRemove := CollectExpired(t1, store, now);
      var fromT2 := CollectExpired(t2, store, now);
      toRemove := toRemove + fromT2;
      RemoveAll(toRemove);
    }

    /** The removal loop of `cleanup`: `removeElement` on each collected element. */
    method RemoveAll(toRemove: seq<nat>)
      requires Valid() && forall id | id in toRemove :: id in store
      modifies this
      ensures Model() == RemoveEach(old(Model()), toRemove)
    {
      ghost var s0 := Model();
      var j := 0;
      while j < |toRemove|
        invariant j <= |toRemove|
        invariant store == s0.store
        invariant Model() == RemoveEach(s0, toRemove[..j])
      {
        PrefixStep(toRemove, j);
        RemoveElement(toRemove[j], Expiration);
        j := j + 1;
      }
      assert toRemove[..j] == toRemove;
    }
  }
}
