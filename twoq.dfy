/** The two-queue policy (internal/cache/twoq/twoq.go): a map from key to list element,
    a FIFO queue A1 of first-time entries, a queue A2 of re-accessed entries and a ghost
    queue B of entries evicted from A1.

    Entry records live in a store indexed by entry identity; each queue is the sequence
    of the identities its elements point to, front first. Go's `list.Remove(e)` unlinks
    `e` only when `e` is on that list and always returns `e.Value`, so the test
    `c.a1.Remove(ele) != nil` is always true: a hit always pushes a new element to the
    front of A2, and a hit on an entry already in A2 leaves its older element in place.
    A2 can therefore hold an identity several times. For the same reason
    `removeElement` never unlinks an A2 element. */
module TwoQ {
  import opened Common
  import opened Lists
  import opened Arena

  /** The fields of `twoq.Cache`. `entries` maps a key to the identity of the entry its
      element points to; `next` is the first identity not yet allocated. */
  datatype State<K, V> = State(
    maxEntries: nat,
    entries: map<K, nat>,
    store: map<nat, Rec<K, V>>,
    next: nat,
    a1: seq<nat>,
    a2: seq<nat>,
    b: seq<nat>,
    closed: bool,
    onEvicted: Option<Callback>,
    defaultTTL: int,
    log: seq<Event<K, V>>)

  /** Every identity in use is allocated; a key maps to an entry of that key which sits
      on A1 or A2; A1 holds each identity once and none that is on A2 (an entry leaves
      A1 for good when first hit); the ghost queue is trimmed to the limit. */
  ghost predicate WellFormed<K, V>(s: State<K, V>)
  {
    && (forall i | i in s.store :: i < s.next)
    && (forall k | k in s.entries :: s.entries[k] in s.store && s.store[s.entries[k]].key == k)
    && (forall k | k in s.entries :: s.entries[k] in s.a1 || s.entries[k] in s.a2)
    && (forall i | i in s.a1 :: i in s.store && i !in s.a2)
    && (forall i | i in s.a2 :: i in s.store)
    && (forall i | i in s.b :: i in s.store)
    && NoDup(s.a1)
    && |s.b| <= s.maxEntries
  }

  /** `removeElement` for the element of entry `id`: the key of the entry leaves the map,
      the element leaves A1 if it is there (an A2 element stays), and the entry is
      notified. */
  function RemoveElementOp<K(==), V>(s: State<K, V>, id: nat, kind: EventKind): (r: State<K, V>)
    requires WellFormed(s) && id in s.store
    ensures WellFormed(r)
    ensures r.entries == s.entries - {s.store[id].key}
    ensures r.a1 == Remove(s.a1, id)
    ensures forall i :: i in r.a1 <==> i in s.a1 && i != id
    ensures r.a2 == s.a2 && r.b == s.b && r.store == s.store && r.next == s.next
    ensures r.log == Notify(s.log, s.onEvicted, Event(s.store[id].key, s.store[id].value, kind))
    ensures r.maxEntries == s.maxEntries && r.closed == s.closed
    ensures r.onEvicted == s.onEvicted && r.defaultTTL == s.defaultTTL
  {
    var e := s.store[id];
    RemoveNoDup(s.a1, id);
    s.(entries := s.entries - {e.key}, a1 := Remove(s.a1, id),
       log := Notify(s.log, s.onEvicted, Event(e.key, e.value, kind)))
  }

  /** `evict`: A1's back element when A1 is non-empty, its entry pushed on the ghost
      queue; otherwise A2's back element, not ghosted. The key of the evicted entry leaves
      the map and exactly one Eviction is notified. Two empty queues change nothing. */
  function EvictOp<K(==), V>(s: State<K, V>): (r: State<K, V>)
    requires WellFormed(s)
    ensures WellFormed(r)
    ensures s.a1 != [] ==>
      && r.a1 == DropLast(s.a1) && r.a2 == s.a2
      && r.b == Trim([Last(s.a1)] + s.b, s.maxEntries)
      && r.entries == s.entries - {s.store[Last(s.a1)].key}
      && r.log == Notify(s.log, s.onEvicted, Event(s.store[Last(s.a1)].key, s.store[Last(s.a1)].value, Eviction))
    ensures s.a1 == [] && s.a2 != [] ==>
      && r.a1 == s.a1 && r.a2 == DropLast(s.a2) && r.b == s.b
      && r.entries == s.entries - {s.store[Last(s.a2)].key}
      && r.log == Notify(s.log, s.onEvicted, Event(s.store[Last(s.a2)].key, s.store[Last(s.a2)].value, Eviction))
    ensures s.a1 == [] && s.a2 == [] ==> r == s
    ensures r.store == s.store && r.next == s.next && r.maxEntries == s.maxEntries && r.closed == s.closed
    ensures r.onEvicted == s.onEvicted && r.defaultTTL == s.defaultTTL
  {
    if s.a1 != [] then
      var id := Last(s.a1);
      var e := s.store[id];
      EvictFrontKeeps(s);
      s.(a1 := DropLast(s.a1), entries := s.entries - {e.key}, b := Trim([id] + s.b, s.maxEntries),
         log := Notify(s.log, s.onEvicted, Event(e.key, e.value, Eviction)))
    else if s.a2 != [] then
      var id := Last(s.a2);
      var e := s.store[id];
      EvictBackKeeps(s);
      s.(a2 := DropLast(s.a2), entries := s.entries - {e.key},
         log := Notify(s.log, s.onEvicted, Event(e.key, e.value, Eviction)))
    else s
  }

  lemma EvictFrontKeeps<K, V>(s: State<K, V>)
    requires WellFormed(s) && s.a1 != []
    ensures var id := Last(s.a1);
            WellFormed(s.(a1 := DropLast(s.a1), entries := s.entries - {s.store[id].key},
                          b := Trim([id] + s.b, s.maxEntries)))
  {
    var id := Last(s.a1);
    var a1 := DropLast(s.a1);
    assert s.a1 == a1 + [id];
    NoDupSlice(s.a1, 0, |s.a1| - 1);
    assert s.a1[0..|s.a1| - 1] == a1;
    forall k | k in s.entries && k != s.store[id].key
      ensures s.entries[k] in a1 || s.entries[k] in s.a2
    {
      assert s.entries[k] != id;
    }
  }

  lemma EvictBackKeeps<K, V>(s: State<K, V>)
    requires WellFormed(s) && s.a2 != []
    ensures var id := Last(s.a2);
            WellFormed(s.(a2 := DropLast(s.a2), entries := s.entries - {s.store[id].key}))
  {
    var id := Last(s.a2);
    var a2 := DropLast(s.a2);
    assert s.a2 == a2 + [id];
    forall k | k in s.entries && k != s.store[id].key
      ensures s.entries[k] in s.a1 || s.entries[k] in a2
    {
      assert s.entries[k] != id;
    }
  }

  /** A hit on the entry `id`: its A1 element (if any) is unlinked and a new element for
      it goes to the front of A2. */
  function Promote<K, V>(s: State<K, V>, id: nat): State<K, V>
  {
    s.(a1 := Remove(s.a1, id), a2 := [id] + s.a2)
  }

  lemma PromoteKeeps<K, V>(s: State<K, V>, k: K)
    requires WellFormed(s) && k in s.entries
    ensures WellFormed(Promote(s, s.entries[k]))
  {
    RemoveNoDup(s.a1, s.entries[k]);
  }

  /** A new entry for `key` at the front of A1, under the next identity. */
  function Insert<K, V>(s: State<K, V>, key: K, e: Rec<K, V>): State<K, V>
  {
    s.(store := s.store[s.next := e], next := s.next + 1,
       entries := s.entries[key := s.next], a1 := [s.next] + s.a1)
  }

  lemma InsertKeeps<K, V>(s: State<K, V>, key: K, e: Rec<K, V>)
    requires WellFormed(s) && key !in s.entries && e.key == key
    ensures WellFormed(Insert(s, key, e))
  {
    assert s.next !in s.store;
    assert s.next !in s.a1;
    NoDupConcat([s.next], s.a1);
  }

  /** `Set`. An existing key takes the new value and stamp in its entry, which is
      promoted to the front of A2; the ghost queue is not consulted and nothing is
      notified. A new key is pushed on the front of A1; when A1 and A2 then hold more
      elements than the limit, one eviction follows, from A1, which is non-empty. */
  function SetOp<K(==), V>(s: State<K, V>, key: K, value: V, ttl: int, now: nat): (r: State<K, V>)
    requires WellFormed(s)
    ensures WellFormed(r)
    ensures key in s.entries ==>
      var id := s.entries[key];
      && r.entries == s.entries && r.a1 == Remove(s.a1, id) && r.a2 == [id] + s.a2 && r.b == s.b
      && r.store == s.store[id := Rec(key, value, FallbackExpiration(now, ttl, s.defaultTTL))]
      && r.log == s.log && r.next == s.next
    ensures key !in s.entries && |s.a1| + |s.a2| < s.maxEntries ==>
      && r.entries == s.entries[key := s.next] && r.a1 == [s.next] + s.a1 && r.a2 == s.a2 && r.b == s.b
      && r.log == s.log
    ensures key !in s.entries && |s.a1| + |s.a2| >= s.maxEntries ==>
      var victim := Last([s.next] + s.a1);
      var stored := s.store[s.next := Rec(key, value, FallbackExpiration(now, ttl, s.defaultTTL))];
      && r.a1 == DropLast([s.next] + s.a1) && r.a2 == s.a2
      && r.b == Trim([victim] + s.b, s.maxEntries)
      && r.entries == s.entries[key := s.next] - {stored[victim].key}
      && r.log == Notify(s.log, s.onEvicted, Event(stored[victim].key, stored[victim].value, Eviction))
    ensures key !in s.entries ==>
      && r.store == s.store[s.next := Rec(key, value, FallbackExpiration(now, ttl, s.defaultTTL))]
      && r.next == s.next + 1
      && (|s.a1| + |s.a2| <= s.maxEntries ==> |r.a1| + |r.a2| <= s.maxEntries)
    ensures r.maxEntries == s.maxEntries && r.closed == s.closed
    ensures r.onEvicted == s.onEvicted && r.defaultTTL == s.defaultTTL
  {
    var e := Rec(key, value, FallbackExpiration(now, ttl, s.defaultTTL));
    if key in s.entries then
      var id := s.entries[key];
      var t := s.(store := s.store[id := e]);
      PromoteKeeps(t, key);
      Promote(t, id)
    else
      var t := Insert(s, key, e);
      InsertKeeps(s, key, e);
      if |t.a1| + |t.a2| > s.maxEntries then EvictOp(t) else t
  }

  /** `checkGhost`: the first ghost of `key`, if any, leaves the ghost queue. */
  function CheckGhostOp<K(==), V>(s: State<K, V>, key: K): (r: State<K, V>)
    requires WellFormed(s)
    ensures WellFormed(r)
    ensures r == s.(b := Unghost(s.b, s.store, key))
  {
    s.(b := Unghost(s.b, s.store, key))
  }

  /** What `Get` and `Has` report: the value of the unexpired entry of the key. */
  function Lookup<K(==), V>(s: State<K, V>, key: K, now: nat): (r: Option<V>)
    requires WellFormed(s)
    ensures r.Some? <==> key in s.entries && !Expired(s.store[s.entries[key]].expiration, now)
    ensures r.Some? ==> r.value == s.store[s.entries[key]].value
  {
    if key in s.entries && !Expired(s.store[s.entries[key]].expiration, now) then
      Some(s.store[s.entries[key]].value)
    else None
  }

  /** `Get`. A live hit promotes the entry to the front of A2 (from A1 if it was there).
      An expired hit removes it with one Expiration notification. A miss changes only
      the ghost queue, from which it drops the key's first ghost: nothing is added. */
  function GetOp<K(==), V>(s: State<K, V>, key: K, now: nat): (r: State<K, V>)
    requires WellFormed(s)
    ensures WellFormed(r)
    ensures Lookup(s, key, now).Some? ==>
      var id := s.entries[key];
      r == s.(a1 := Remove(s.a1, id), a2 := [id] + s.a2) && r.a2[0] == id && id !in r.a1
    ensures key in s.entries && Expired(s.store[s.entries[key]].expiration, now) ==>
      && r.entries == s.entries - {key} && r.a2 == s.a2 && r.b == s.b
      && r.a1 == Remove(s.a1, s.entries[key])
      && (forall i :: i in r.a1 <==> i in s.a1 && i != s.entries[key])
      && r.log == Notify(s.log, s.onEvicted, Event(key, s.store[s.entries[key]].value, Expiration))
    ensures key !in s.entries ==>
      && r == CheckGhostOp(s, key)
      && r == s.(b := r.b)
      && |r.b| <= |s.b| && (forall i | i in r.b :: i in s.b)
      && (|r.b| < |s.b| <==> exists i | i in s.b :: s.store[i].key == key)
  {
    if key in s.entries then
      var id := s.entries[key];
      if Expired(s.store[id].expiration, now) then RemoveElementOp(s, id, Expiration)
      else
        PromoteKeeps(s, key);
        RemoveNoDup(s.a1, id);
        Promote(s, id)
    else
      CheckGhostOp(s, key)
  }

  /** Emptying the map and the three queues keeps the invariant whatever was notified. */
  lemma ClearKeeps<K, V>(s: State<K, V>, l: seq<Event<K, V>>)
    requires WellFormed(s)
    ensures WellFormed(s.(entries := map[], a1 := [], a2 := [], b := [], log := l))
  {
  }

  /** The removal loop of `cleanup`: `removeElement` for each identity of `ids` in turn.
      Each key of their entries leaves the map, A1 keeps its other elements in order,
      A2 and the ghost queue are untouched, and every element is notified once, in order
      (an entry listed twice is notified twice). */
  function RemoveEach<K(==), V>(s: State<K, V>, ids: seq<nat>): (r: State<K, V>)
    requires WellFormed(s) && forall id | id in ids :: id in s.store
    ensures WellFormed(r)
    ensures r.entries == s.entries - KeysOf(ids, s.store)
    ensures r.a1 == Without(s.a1, Elems(ids))
    ensures r.a2 == s.a2 && r.b == s.b && r.store == s.store && r.next == s.next
    ensures r.log == s.log + (if s.onEvicted.Some? then ExpiryEvents(ids, s.store) else [])
    ensures r.maxEntries == s.maxEntries && r.closed == s.closed
    ensures r.onEvicted == s.onEvicted && r.defaultTTL == s.defaultTTL
    decreases |ids|
  {
    if ids == [] then
      assert KeysOf(ids, s.store) == {} && Elems(ids) == {};
      WithoutNothing(s.a1, {});
      s
    else
      var t := RemoveEach(s, DropLast(ids));
      RemoveEachStep(s, ids, t);
      RemoveWithoutStep(s.a1, ids);
      RemoveElementOp(t, Last(ids), Expiration)
  }

  /** One more `removeElement` after the elements of `DropLast(ids)`. */
  lemma RemoveEachStep<K, V>(s: State<K, V>, ids: seq<nat>, t: State<K, V>)
    requires WellFormed(s) && ids != [] && forall id | id in ids :: id in s.store
    requires WellFormed(t) && t.entries == s.entries - KeysOf(DropLast(ids), s.store)
    requires t.log == s.log + (if s.onEvicted.Some? then ExpiryEvents(DropLast(ids), s.store) else [])
    requires t == s.(entries := t.entries, a1 := t.a1, log := t.log)
    ensures Last(ids) in t.store
    ensures var r := RemoveElementOp(t, Last(ids), Expiration);
            && WellFormed(r)
            && r.entries == s.entries - KeysOf(ids, s.store)
            && r.log == s.log + (if s.onEvicted.Some? then ExpiryEvents(ids, s.store) else [])
            && r == s.(entries := r.entries, a1 := r.a1, log := r.log)
  {
    InDropLast(ids);
    var r := RemoveElementOp(t, Last(ids), Expiration);
    assert r.entries == s.entries - KeysOf(ids, s.store) by {
      KeysOfStep(ids, s.store);
    }
    assert r.log == s.log + (if s.onEvicted.Some? then ExpiryEvents(ids, s.store) else []);
  }

  /** `cleanup`: unless the cache is closed, the expired elements of A1 (front to back)
      and then of A2 go through `removeElement`, each with one Expiration notification.
      Afterwards no key of the map refers to an expired entry and A1 keeps exactly its
      unexpired entries, in order. A key is dropped exactly when an expired element carries it,
      which may be a stale A2 element of an earlier entry of that key. */
  function CleanupOp<K(==), V>(s: State<K, V>, now: nat): (r: State<K, V>)
    requires WellFormed(s)
    ensures WellFormed(r)
    ensures s.closed ==> r == s
    ensures !s.closed ==>
      var x := ExpiredIds(s.a1, s.store, now) + ExpiredIds(s.a2, s.store, now);
      && r.entries == s.entries - KeysOf(x, s.store)
      && (forall k | k in r.entries :: !Expired(r.store[r.entries[k]].expiration, now))
      && r.a1 == Without(s.a1, Elems(x))
      && (forall i :: i in r.a1 <==> i in s.a1 && !Expired(s.store[i].expiration, now))
      && r.a2 == s.a2 && r.b == s.b && r.store == s.store
      && r.log == s.log + (if s.onEvicted.Some? then ExpiryEvents(x, s.store) else [])
  {
    if s.closed then s
    else
      var x := ExpiredIds(s.a1, s.store, now) + ExpiredIds(s.a2, s.store, now);
      var r := RemoveEach(s, x);
      CleanupLeavesLive(s, x, now, r);
      r
  }

  lemma CleanupLeavesLive<K, V>(s: State<K, V>, x: seq<nat>, now: nat, r: State<K, V>)
    requires WellFormed(s)
    requires forall id :: id in x <==> (id in s.a1 || id in s.a2) && Expired(s.store[id].expiration, now)
    requires r.entries == s.entries - KeysOf(x, s.store) && r.store == s.store
    requires forall i :: i in r.a1 <==> i in s.a1 && i !in x
    ensures forall k | k in r.entries :: !Expired(r.store[r.entries[k]].expiration, now)
    ensures forall i :: i in r.a1 <==> i in s.a1 && !Expired(s.store[i].expiration, now)
  {
    forall k | k in s.entries && Expired(s.store[s.entries[k]].expiration, now)
      ensures k in KeysOf(x, s.store)
    {
      assert s.entries[k] in x;
    }
  }

  /** The key -> expiration view of the map, read by `Keys` and `Len`. */
  function Expirations<K, V>(s: State<K, V>): map<K, nat>
    requires WellFormed(s)
  {
    map k | k in s.entries :: s.store[s.entries[k]].expiration
  }

  function Values<K, V>(s: State<K, V>): map<K, V>
    requires WellFormed(s)
  {
    map k | k in s.entries :: s.store[s.entries[k]].value
  }

  /** Three new keys at capacity 3 or more: no eviction, A1 holds them newest first. */
  lemma FillThree<K>(m: nat, k1: K, k2: K, k3: K, f: Option<Callback>, now: nat)
    requires k1 != k2 && k1 != k3 && k2 != k3 && m >= 3
    ensures SetOp(SetOp(SetOp(State(m, map[], map[], 0, [], [], [], false, f, 0, []), k1, 1, 0, now), k2, 2, 0, now), k3, 3, 0, now)
            == State(m, map[k1 := 0, k2 := 1, k3 := 2], map[0 := Rec(k1, 1, 0), 1 := Rec(k2, 2, 0), 2 := Rec(k3, 3, 0)],
                     3, [2, 1, 0], [], [], false, f, 0, [])
  {
    var s0: State<K, int> := State(m, map[], map[], 0, [], [], [], false, f, 0, []);
    var s1 := SetOp(s0, k1, 1, 0, now);
    assert s1 == State(m, map[k1 := 0], map[0 := Rec(k1, 1, 0)], 1, [0], [], [], false, f, 0, []);
    var s2 := SetOp(s1, k2, 2, 0, now);
    assert s2 == State(m, map[k1 := 0, k2 := 1], map[0 := Rec(k1, 1, 0), 1 := Rec(k2, 2, 0)], 2, [1, 0], [], [], false, f, 0, []);
  }

  /** From three entries in A1 at capacity 3, `Get k1` promotes k1 to A2. */
  lemma GetPromotes<K>(k1: K, k2: K, k3: K, now: nat)
    requires k1 != k2 && k1 != k3 && k2 != k3
    ensures var store := map[0 := Rec(k1, 1, 0), 1 := Rec(k2, 2, 0), 2 := Rec(k3, 3, 0)];
            var s3 := State(3, map[k1 := 0, k2 := 1, k3 := 2], store, 3, [2, 1, 0], [], [], false, None, 0, []);
            GetOp(s3, k1, now) == s3.(a1 := [2, 1], a2 := [0])
  {
    assert Remove([2, 1, 0], 0) == [2, 1];
  }

  /** `Set k4` then evicts the oldest entry left in A1, k2. */
  lemma PromoteThenEvict<K>(k1: K, k2: K, k3: K, k4: K, now: nat)
    requires k1 != k2 && k1 != k3 && k1 != k4 && k2 != k3 && k2 != k4 && k3 != k4
    ensures var store := map[0 := Rec(k1, 1, 0), 1 := Rec(k2, 2, 0), 2 := Rec(k3, 3, 0)];
            var s3 := State(3, map[k1 := 0, k2 := 1, k3 := 2], store, 3, [2, 1, 0], [], [], false, None, 0, []);
            var s5 := SetOp(GetOp(s3, k1, now), k4, 4, 0, now);
            && s5.entries == map[k1 := 0, k2 := 1, k3 := 2, k4 := 3] - {k2}
            && s5.store == store[3 := Rec(k4, 4, 0)]
  {
    GetPromotes(k1, k2, k3, now);
    assert Last([3] + [2, 1]) == 1;
  }

  /** What `Get` answers in the state `PromoteThenEvict` ends in. */
  lemma LookupsAfterEvict<K>(s: State<K, int>, k1: K, k2: K, k3: K, k4: K, now: nat)
    requires k1 != k2 && k1 != k3 && k1 != k4 && k2 != k3 && k2 != k4 && k3 != k4
    requires WellFormed(s)
    requires s.entries == map[k1 := 0, k2 := 1, k3 := 2, k4 := 3] - {k2}
    requires s.store == map[0 := Rec(k1, 1, 0), 1 := Rec(k2, 2, 0), 2 := Rec(k3, 3, 0), 3 := Rec(k4, 4, 0)]
    ensures Lookup(s, k2, now).None?
    ensures Lookup(s, k1, now) == Some(1) && Lookup(s, k3, now) == Some(3) && Lookup(s, k4, now) == Some(4)
  {
    assert s.entries[k1] == 0 && s.entries[k3] == 2 && s.entries[k4] == 3;
  }

  /** The eviction-policy test: capacity 3, `Set k1, k2, k3; Get k1; Set k4` evicts k2,
      the oldest entry of A1, and keeps k1 (now in A2), k3 and k4. */
  lemma EvictionPolicyExample<K>(k1: K, k2: K, k3: K, k4: K, now: nat)
    requires k1 != k2 && k1 != k3 && k1 != k4 && k2 != k3 && k2 != k4 && k3 != k4
    ensures var s0 := State(3, map[], map[], 0, [], [], [], false, None, 0, []);
            var s3 := SetOp(SetOp(SetOp(s0, k1, 1, 0, now), k2, 2, 0, now), k3, 3, 0, now);
            var s5 := SetOp(GetOp(s3, k1, now), k4, 4, 0, now);
            && Lookup(s5, k2, now).None?
            && Lookup(s5, k1, now) == Some(1) && Lookup(s5, k3, now) == Some(3) && Lookup(s5, k4, now) == Some(4)
  {
    FillThree(3, k1, k2, k3, None, now);
    PromoteThenEvict(k1, k2, k3, k4, now);
    var store := map[0 := Rec(k1, 1, 0), 1 := Rec(k2, 2, 0), 2 := Rec(k3, 3, 0)];
    var s3: State<K, int> := State(3, map[k1 := 0, k2 := 1, k3 := 2], store, 3, [2, 1, 0], [], [], false, None, 0, []);
    LookupsAfterEvict(SetOp(GetOp(s3, k1, now), k4, 4, 0, now), k1, k2, k3, k4, now);
  }

  /** The callback test: capacity 2, three new keys; the third evicts the first, which is
      notified with its value and cause Eviction and pushed on the ghost queue. */
  lemma EvictionNoticeExample<K>(k1: K, k2: K, k3: K, f: Callback, now: nat)
    requires k1 != k2 && k1 != k3 && k2 != k3
    ensures var s0 := State(2, map[], map[], 0, [], [], [], false, Some(f), 0, []);
            var s3 := SetOp(SetOp(SetOp(s0, k1, 1, 0, now), k2, 2, 0, now), k3, 3, 0, now);
            s3.log == [Event(k1, 1, Eviction)] && s3.b == [0]
  {
    var s0: State<K, int> := State(2, map[], map[], 0, [], [], [], false, Some(f), 0, []);
    var s1 := SetOp(s0, k1, 1, 0, now);
    assert s1 == State(2, map[k1 := 0], map[0 := Rec(k1, 1, 0)], 1, [0], [], [], false, Some(f), 0, []);
    var s2 := SetOp(s1, k2, 2, 0, now);
    assert s2 == State(2, map[k1 := 0, k2 := 1], map[0 := Rec(k1, 1, 0), 1 := Rec(k2, 2, 0)], 2, [1, 0], [], [], false, Some(f), 0, []);
    assert Last([2] + s2.a1) == 0;
  }

  /** Because a hit on an A2 entry pushes a second element for it, two Gets of the same
      key fill A2 with two elements of one entry, and at capacity 2 a new key is then
      evicted by its own Set. */
  lemma DuplicateElementsExample<K>(k1: K, k2: K, now: nat)
    requires k1 != k2
    ensures var s0 := State(2, map[], map[], 0, [], [], [], false, None, 0, []);
            var s3 := GetOp(GetOp(SetOp(s0, k1, 1, 0, now), k1, now), k1, now);
            var s4 := SetOp(s3, k2, 2, 0, now);
            && s3.a2 == [0, 0] && |s3.entries| == 1
            && Lookup(s4, k2, now).None? && Lookup(s4, k1, now) == Some(1)
  {
    var s0: State<K, int> := State(2, map[], map[], 0, [], [], [], false, None, 0, []);
    var s1 := SetOp(s0, k1, 1, 0, now);
    var store := map[0 := Rec(k1, 1, 0)];
    assert s1 == State(2, map[k1 := 0], store, 1, [0], [], [], false, None, 0, []);
    var s2 := GetOp(s1, k1, now);
    assert s2 == s1.(a1 := [], a2 := [0]);
    var s3 := GetOp(s2, k1, now);
    assert s3 == s1.(a1 := [], a2 := [0, 0]);
    var s4 := SetOp(s3, k2, 2, 0, now);
    assert Last([1]) == 1;
    assert s4.store == store[1 := Rec(k2, 2, 0)];
    assert s4.entries == map[k1 := 0];
  }

  /** `twoq.Cache`. The mutex, the sweeper goroutine and its stop channel are not
      modelled; `kin` is computed by New and read nowhere. */
  class Cache<K(==), V> {
    const maxEntries: nat
    const kin: nat
    var entries: map<K, nat>
    var store: map<nat, Rec<K, V>>
    var next: nat
    var a1: seq<nat>
    var a2: seq<nat>
    var b: seq<nat>
    var closed: bool
    var onEvicted: Option<Callback>
    var defaultTTL: int
    var log: seq<Event<K, V>>

    function Model(): State<K, V>
      reads this
    {
      State(maxEntries, entries, store, next, a1, a2, b, closed, onEvicted, defaultTTL, log)
    }

    ghost predicate Valid()
      reads this
    {
      WellFormed(Model())
    }

    /** `New`: empty map and queues; `kin` is a quarter of the limit, at least 1. */
    constructor (maxEntries: nat)
      ensures Valid()
      ensures Model() == State(maxEntries, map[], map[], 0, [], [], [], false, None, 0, [])
      ensures kin == Max(maxEntries / 4, 1)
    {
      this.maxEntries := maxEntries;
      kin := if maxEntries / 4 < 1 then 1 else maxEntries / 4;
      entries, store, next := map[], map[], 0;
      a1, a2, b, closed := [], [], [], false;
      onEvicted, defaultTTL, log := None, 0, [];
    }

    /** `SetEvictedFunc` always succeeds and overwrites any installed callback. */
    method SetEvictedFunc(f: Option<Callback>) returns (err: bool)
      requires Valid()
      modifies this
      ensures Valid()
      ensures !err
      ensures Model() == old(Model()).(onEvicted := f)
    {
      onEvicted := f;
      return false;
    }

    method SetDefaultTTL(ttl: int)
      requires Valid()
      modifies this
      ensures Valid()
      ensures Model() == old(Model()).(defaultTTL := ttl)
    {
      defaultTTL := ttl;
    }

    method Set(key: K, value: V, ttl: int, now: nat)
      requires Valid()
      modifies this
      ensures Valid()
      ensures Model() == SetOp(old(Model()), key, value, ttl, now)
    {
      ghost var s := Model();
      var expiration := FallbackExpiration(now, ttl, defaultTTL);
      var ent := Rec(key, value, expiration);
      if key in entries {
        var id := entries[key];
        PromoteKeeps(s.(store := store[id := ent]), key);
        // a1.Remove(ele) returns the element's value, never nil
        store, a1, a2 := store[id := ent], Remove(a1, id), [id] + a2;
        assert Model() == Promote(s.(store := s.store[id := ent]), id);
        return;
      }
      InsertKeeps(s, key, ent);
      var id := next;
      store, next, entries, a1 := store[id := ent], next + 1, entries[key := id], [id] + a1;
      assert Model() == Insert(s, key, ent);
      if |a1| + |a2| > maxEntries {
        Evict();
      }
    }

    method Get(key: K, now: nat) returns (value: Option<V>)
      requires Valid()
      modifies this
      ensures Valid()
      ensures value == Lookup(old(Model()), key, now)
      ensures Model() == GetOp(old(Model()), key, now)
    {
      if key in entries {
        var id := entries[key];
        var ent := store[id];
        if ent.expiration > 0 && now > ent.expiration {
          RemoveElement(id, Expiration);
          return None;
        }
        PromoteKeeps(Model(), key);
        a1, a2 := Remove(a1, id), [id] + a2;
        return Some(ent.value);
      }
      var _ := CheckGhost(key);
      return None;
    }

    /** `Has` reads only: true exactly for a present, unexpired key. */
    method Has(key: K, now: nat) returns (ok: bool)
      requires Valid()
      ensures ok <==> Lookup(Model(), key, now).Some?
    {
      if key !in entries {
        return false;
      }
      var ent := store[entries[key]];
      if ent.expiration > 0 && now > ent.expiration {
        return false;
      }
      return true;
    }

    /** `Keys` lists the keys of unexpired entries, each once, in map order. */
    method Keys(now: nat) returns (ks: seq<K>)
      requires Valid()
      ensures NoDup(ks)
      ensures forall k :: k in ks <==> Lookup(Model(), k, now).Some?
    {
      ks := LiveKeys(Expirations(Model()), now);
    }

    /** `Len` counts the unexpired entries. */
    method Len(now: nat) returns (n: nat)
      requires Valid()
      ensures n == |LiveSet(Expirations(Model()), now)|
      ensures n <= |entries|
    {
      n := CountLive(Expirations(Model()), now);
      assert Expirations(Model()).Keys == entries.Keys;
    }

    /** `Clear`: one Clear notification per map entry, then an empty map and three empty
        queues. */
    method Clear()
      requires Valid()
      modifies this
      ensures Valid()
      ensures entries == map[] && a1 == [] && a2 == [] && b == []
      ensures store == old(store) && next == old(next) && closed == old(closed)
      ensures onEvicted == old(onEvicted) && defaultTTL == old(defaultTTL)
      ensures NotifiedEach(old(log), log, onEvicted, old(entries).Keys, Values(old(Model())), EventKind.Clear)
    {
      var l := NotifyEach(log, onEvicted, entries.Keys, Values(Model()), EventKind.Clear);
      ClearKeeps(Model(), l);
      log, entries, a1, a2, b := l, map[], [], [], [];
    }

    /** `Close` marks the cache closed, so that later sweeps do nothing, and clears it. */
    method Close()
      requires Valid()
      modifies this
      ensures Valid()
      ensures entries == map[] && a1 == [] && a2 == [] && b == [] && closed
      ensures onEvicted == old(onEvicted) && defaultTTL == old(defaultTTL)
      ensures NotifiedEach(old(log), log, onEvicted, old(entries).Keys, Values(old(Model())), EventKind.Clear)
    {
      closed := true;
      Clear();
    }

    method Evict()
      requires Valid()
      modifies this
      ensures Model() == EvictOp(old(Model()))
    {
      if |a1| > 0 {
        var id := a1[|a1| - 1];
        var ent := store[id];
        EvictFrontKeeps(Model());
        var l := Notify(log, onEvicted, Event(ent.key, ent.value, Eviction));
        a1, entries, b, log := a1[..|a1| - 1], entries - {ent.key}, Trim([id] + b, maxEntries), l;
        return;
      }
      if |a2| > 0 {
        var id := a2[|a2| - 1];
        var ent := store[id];
        EvictBackKeeps(Model());
        var l := Notify(log, onEvicted, Event(ent.key, ent.value, Eviction));
        a2, entries, log := a2[..|a2| - 1], entries - {ent.key}, l;
      }
    }

    /** `checkGhost` on the ghost queue. */
    method CheckGhost(key: K) returns (found: bool)
      requires Valid()
      modifies this
      ensures Model() == CheckGhostOp(old(Model()), key)
      ensures found <==> exists id | id in old(b) :: old(store)[id].key == key
    {
      b, found := Arena.CheckGhost(b, store, key);
    }

    method RemoveElement(id: nat, kind: EventKind)
      requires Valid() && id in store
      modifies this
      ensures Model() == RemoveElementOp(old(Model()), id, kind)
    {
      var ent := store[id];
      RemoveNoDup(a1, id);
      var l := Notify(log, onEvicted, Event(ent.key, ent.value, kind));
      // a1.Remove(ele) never returns nil, so a2.Remove is never reached
      entries, a1, log := entries - {ent.key}, Remove(a1, id), l;
    }

    /** `cleanup`: nothing once closed; otherwise collect the expired elements of A1 and
        then of A2, and remove each. */
    method Cleanup(now: nat)
      requires Valid()
      modifies this
      ensures Model() == CleanupOp(old(Model()), now)
    {
      if closed {
        return;
      }
      ghost var s0 := Model();
      var toRemove := CollectExpired(a1, store, now);
      var fromA2 := CollectExpired(a2, store, now);
      toRemove := toRemove + fromA2;
      var j := 0;
      while j < |toRemove|
        invariant j <= |toRemove|
        invariant forall id | id in toRemove :: id in s0.store
        invariant Model() == RemoveEach(s0, toRemove[..j])
      {
        PrefixStep(toRemove, j);
        RemoveElement(toRemove[j], Expiration);
        j := j + 1;
      }
      assert toRemove[..j] == toRemove;
    }
  }
}
