/** The random policy (internal/cache/random/random.go): a map from key to entry and a
    slice holding every key once, from which the victim is drawn. The slice is a sequence
    field that the methods reassign; the index `rand.Intn` would draw is a parameter. */
module Random {
  import opened Common
  import opened Lists

  /** The record the map points to (its key is the map key). */
  datatype Entry<V> = Entry(value: V, expiration: nat)

  /** The fields of `random.Cache`; `log` is the sequence of onEvicted calls so far. */
  datatype State<K, V> = State(
    maxEntries: nat,
    entries: map<K, Entry<V>>,
    keys: seq<K>,
    onEvicted: Option<Callback>,
    defaultTTL: int,
    log: seq<Event<K, V>>)

  /** The slice holds exactly the map's keys, each once. */
  ghost predicate Consistent<K, V>(s: State<K, V>)
  {
    && NoDup(s.keys)
    && (forall k | k in s.keys :: k in s.entries)
    && (forall k | k in s.entries :: k in s.keys)
  }

  /** Between calls a positive limit also bounds the map. */
  ghost predicate WellFormed<K, V>(s: State<K, V>)
  {
    Consistent(s) && (s.maxEntries > 0 ==> |s.entries| <= s.maxEntries)
  }

  /** The slice is as long as the map is large. */
  lemma SliceLengthIsEntryCount<K, V>(s: State<K, V>)
    requires Consistent(s)
    ensures |s.keys| == |s.entries|
  {
    NoDupCard(s.keys, s.entries.Keys);
  }

  function Values<K, V>(entries: map<K, Entry<V>>): map<K, V>
  {
    map k | k in entries :: entries[k].value
  }

  function Expirations<K, V>(entries: map<K, Entry<V>>): map<K, nat>
  {
    map k | k in entries :: entries[k].expiration
  }

  /** Overwrite slot `i` with the last element, then cut the last slot off. */
  function SwapRemove<T>(l: seq<T>, i: nat): (r: seq<T>)
    requires i < |l|
    ensures |r| == |l| - 1
    ensures forall a | 0 <= a < |r| :: r[a] == if a == i then Last(l) else l[a]
  {
    l[i := Last(l)][..|l| - 1]
  }

  /** On a duplicate-free slice, swap-and-truncate drops exactly the element in slot `i`
      and keeps the others distinct. */
  lemma SwapRemoveDrops<T>(l: seq<T>, i: nat)
    requires NoDup(l) && i < |l|
    ensures NoDup(SwapRemove(l, i))
    ensures forall y :: y in SwapRemove(l, i) <==> y in l && y != l[i]
  {
    var r := SwapRemove(l, i);
    forall y | y in l && y != l[i]
      ensures y in r
    {
      var j :| 0 <= j < |l| && l[j] == y;
      if j == |l| - 1 {
        assert r[i] == y;
      } else {
        assert r[j] == y;
      }
    }
  }

  /** `evictRandom` with drawn index `i`: the key in slot `i` is notified with cause
      Eviction, leaves the map, and its slot takes the last key. An empty slice is left
      alone. */
  function EvictRandomOp<K(==), V>(s: State<K, V>, i: nat): (r: State<K, V>)
    requires Consistent(s) && (s.keys != [] ==> i < |s.keys|)
    ensures Consistent(r)
    ensures s.keys == [] ==> r == s
    ensures s.keys != [] ==>
      && s.keys[i] in s.entries
      && r.entries == s.entries - {s.keys[i]}
      && r.keys == SwapRemove(s.keys, i)
      && r.log == Notify(s.log, s.onEvicted, Event(s.keys[i], s.entries[s.keys[i]].value, Eviction))
      && |r.entries| == |s.entries| - 1
    ensures r.maxEntries == s.maxEntries && r.onEvicted == s.onEvicted && r.defaultTTL == s.defaultTTL
  {
    if s.keys == [] then s
    else
      var k := s.keys[i];
      SwapRemoveDrops(s.keys, i);
      s.(entries := s.entries - {k}, keys := SwapRemove(s.keys, i),
         log := Notify(s.log, s.onEvicted, Event(k, s.entries[k].value, Eviction)))
  }

  /** A new key pushes a limited map over its limit. */
  predicate Full<K, V>(s: State<K, V>)
  {
    s.maxEntries > 0 && |s.entries| >= s.maxEntries
  }

  /** `Set` with `pick` the index `rand.Intn` draws from the grown slice. An existing key
      takes the new value and stamp in place and nothing else changes. A new key is
      appended; when that exceeds a positive limit, the key drawn (possibly the new one)
      is evicted with one notification, so the map stays within the limit. A zero limit
      never evicts. */
  function SetOp<K(==), V>(s: State<K, V>, key: K, value: V, ttl: int, now: nat, pick: nat): (r: State<K, V>)
    requires WellFormed(s) && pick <= |s.keys|
    ensures WellFormed(r)
    ensures key in s.entries ==>
      r == s.(entries := s.entries[key := Entry(value, FallbackExpiration(now, ttl, s.defaultTTL))])
    ensures key !in s.entries && !Full(s) ==>
      && r.entries == s.entries[key := Entry(value, FallbackExpiration(now, ttl, s.defaultTTL))]
      && r.keys == s.keys + [key]
      && r.log == s.log
    ensures key !in s.entries && Full(s) ==>
      var l := s.keys + [key];
      var added := s.entries[key := Entry(value, FallbackExpiration(now, ttl, s.defaultTTL))];
      && r.entries == added - {l[pick]}
      && r.keys == SwapRemove(l, pick)
      && r.log == Notify(s.log, s.onEvicted, Event(l[pick], added[l[pick]].value, Eviction))
      && |r.entries| == s.maxEntries
    ensures s.maxEntries > 0 ==> |r.entries| <= s.maxEntries
    ensures s.maxEntries == 0 ==> r.log == s.log && s.entries.Keys <= r.entries.Keys
    ensures r.maxEntries == s.maxEntries && r.onEvicted == s.onEvicted && r.defaultTTL == s.defaultTTL
  {
    var e := Entry(value, FallbackExpiration(now, ttl, s.defaultTTL));
    if key in s.entries then
      s.(entries := s.entries[key := e])
    else
      var t := s.(entries := s.entries[key := e], keys := s.keys + [key]);
      AppendFresh(s.keys, key);
      SliceLengthIsEntryCount(s);
      SliceLengthIsEntryCount(t);
      if Full(s) then EvictRandomOp(t, pick) else t
  }

  lemma AppendFresh<T>(l: seq<T>, x: T)
    requires NoDup(l) && x !in l
    ensures NoDup(l + [x])
  {
    NoDupConcat(l, [x]);
  }

  /** What `Get` and `Has` report: the value of an unexpired entry. */
  function Lookup<K(==), V>(s: State<K, V>, key: K, now: nat): (r: Option<V>)
    ensures r.Some? <==> key in s.entries && !Expired(s.entries[key].expiration, now)
    ensures r.Some? ==> r.value == s.entries[key].value
  {
    if key in s.entries && !Expired(s.entries[key].expiration, now) then Some(s.entries[key].value)
    else None
  }

  /** Keys whose entry has expired at `now`. */
  function ExpiredKeys<K(==), V>(entries: map<K, Entry<V>>, now: nat): set<K>
  {
    set k | k in entries && Expired(entries[k].expiration, now)
  }

  /** The map and slice once the keys of `d` are gone; the slice keeps its order. */
  function Swept<K(==), V>(s: State<K, V>, d: set<K>): State<K, V>
  {
    s.(entries := map k | k in s.entries && k !in d :: s.entries[k], keys := Without(s.keys, d))
  }

  /** `cleanup`, apart from its notifications: exactly the expired entries leave map and
      slice, the survivors keep their entries and their relative order in the slice. */
  function SweepOp<K(==), V>(s: State<K, V>, now: nat): (r: State<K, V>)
    requires WellFormed(s)
    ensures WellFormed(r)
    ensures r.entries.Keys == s.entries.Keys - ExpiredKeys(s.entries, now)
    ensures forall k | k in r.entries :: r.entries[k] == s.entries[k]
    ensures r.keys == Without(s.keys, ExpiredKeys(s.entries, now))
    ensures r.log == s.log && r.maxEntries == s.maxEntries
    ensures r.onEvicted == s.onEvicted && r.defaultTTL == s.defaultTTL
  {
    var r := Swept(s, ExpiredKeys(s.entries, now));
    WithoutNoDup(s.keys, ExpiredKeys(s.entries, now));
    SubsetCard(r.entries.Keys, s.entries.Keys);
    r
  }

  lemma SweepIsSwept<K, V>(s: State<K, V>, now: nat)
    requires WellFormed(s)
    ensures SweepOp(s, now) == Swept(s, ExpiredKeys(s.entries, now))
  {
  }

  /** The keys visited so far grow by the next one, which is new. */
  lemma NextKey<K>(d: set<K>, xs: seq<K>, j: nat)
    requires NoDup(xs) && j < |xs|
    requires forall y :: y in d <==> y in xs[..j]
    ensures xs[j] !in d
    ensures forall y :: y in d + {xs[j]} <==> y in xs[..j + 1]
  {
    assert xs[..j + 1] == xs[..j] + [xs[j]];
  }

  lemma SameKeys<K>(d: set<K>, xs: seq<K>, x: set<K>)
    requires forall y :: y in d <==> y in xs
    requires forall y :: y in xs <==> y in x
    ensures d == x
  {
  }

  /** Removing one more swept key from map and slice. */
  lemma SweptStep<K, V>(s: State<K, V>, d: set<K>, k: K, cur: State<K, V>)
    requires Consistent(s) && k in s.entries && k !in d
    requires cur.(log := s.log) == Swept(s, d)
    ensures k in cur.entries
    ensures cur.(entries := cur.entries - {k}, keys := Remove(cur.keys, k), log := s.log) == Swept(s, d + {k})
  {
    RemoveFromWithout(s.keys, d, k);
    assert cur.entries - {k} == Swept(s, d + {k}).entries;
  }

  /** The first loop of `cleanup`: the expired keys, each once, in map order. */
  method ExpiredKeyList<K, V>(entries: map<K, Entry<V>>, now: nat) returns (xs: seq<K>)
    ensures NoDup(xs)
    ensures forall k :: k in xs <==> k in ExpiredKeys(entries, now)
  {
    xs := [];
    var rest := entries.Keys;
    while rest != {}
      invariant rest <= entries.Keys
      invariant forall k :: k in xs <==> k in entries.Keys - rest && Expired(entries[k].expiration, now)
      invariant NoDup(xs)
      decreases rest
    {
      var k :| k in rest;
      if entries[k].expiration > 0 && now > entries[k].expiration {
        xs := xs + [k];
      }
      rest := rest - {k};
    }
  }

  /** The inner loop of `cleanup`: find the first slot holding `x` and splice it out. */
  method SpliceOut<T(==)>(l: seq<T>, x: T) returns (r: seq<T>)
    ensures r == Remove(l, x)
  {
    var i := 0;
    while i < |l|
      invariant i <= |l| && x !in l[..i]
    {
      if l[i] == x {
        assert l == l[..i] + [x] + l[i + 1..];
        RemoveSplit(l[..i], x, l[i + 1..]);
        return l[..i] + l[i + 1..];
      }
      assert l[..i + 1] == l[..i] + [l[i]];
      i := i + 1;
    }
    assert l[..i] == l;
    return l;
  }

  /** The random-eviction test: capacity 2, three new keys; whichever slot is drawn, two
      entries remain and exactly one eviction is notified. */
  lemma EvictionExample<K>(k1: K, k2: K, k3: K, pick: nat, now: nat)
    requires k1 != k2 && k2 != k3 && k1 != k3 && pick <= 2
    ensures var s0 := State(2, map[], [], Some(0), 0, []);
            var s3 := SetOp(SetOp(SetOp(s0, k1, "v1", 0, now, 0), k2, "v2", 0, now, 0), k3, "v3", 0, now, pick);
            && |s3.entries| == 2 && |s3.log| == 1 && s3.log[0].kind == Eviction
            && s3.log[0].key in {k1, k2, k3}
  {
    var s0: State<K, string> := State(2, map[], [], Some(0), 0, []);
    var s1 := SetOp(s0, k1, "v1", 0, now, 0);
    assert s1.keys == [k1] && s1.log == [];
    var s2 := SetOp(s1, k2, "v2", 0, now, 0);
    assert s2.keys == [k1, k2] && s2.log == [] && |s2.entries| == 2;
    var l := s2.keys + [k3];
    assert l[pick] in l;
  }

  /** The callback test: capacity 1, setting the same key twice replaces the value and
      notifies nothing. */
  lemma UpdateExample(now: nat)
    ensures var s0 := State(1, map[], [], Some(0), 0, []);
            var s2 := SetOp(SetOp(s0, "k1", "v1", 0, now, 0), "k1", "v2", 0, now, 0);
            s2.log == [] && Lookup(s2, "k1", now) == Some("v2") && s2.keys == ["k1"]
  {
  }

  /** `random.Cache`. The mutex and the sweeper goroutine are not modelled. */
  class Cache<K(==), V> {
    const maxEntries: nat
    var entries: map<K, Entry<V>>
    var keys: seq<K>
    var onEvicted: Option<Callback>
    var defaultTTL: int
    var log: seq<Event<K, V>>

    function Model(): State<K, V>
      reads this
    {
      State(maxEntries, entries, keys, onEvicted, defaultTTL, log)
    }

    ghost predicate Valid()
      reads this
    {
      WellFormed(Model())
    }

    /** `New`: an empty map and slice, no callback, no default TTL. */
    constructor (maxEntries: nat)
      ensures Valid()
      ensures Model() == State(maxEntries, map[], [], None, 0, [])
    {
      this.maxEntries := maxEntries;
      entries, keys := map[], [];
      onEvicted, defaultTTL, log := None, 0, [];
    }

    /** `SetEvictedFunc` always succeeds and overwrites any installed callback. */
    method SetEvictedFunc(f: Option<Callback>) returns (err: bool)
      requires Valid()
      modifies this
      ensures Valid()
      ensures !err
      ensures Model() == old(Model()).(onEvicted := f)
    {
      onEvicted := f;
      return false;
    }

    method SetDefaultTTL(ttl: int)
      requires Valid()
      modifies this
      ensures Valid()
      ensures Model() == old(Model()).(defaultTTL := ttl)
    {
      defaultTTL := ttl;
    }

    /** `pick` is what `rand.Intn(len(c.keys))` returns if an eviction is needed. */
    method Set(key: K, value: V, ttl: int, now: nat, pick: nat)
      requires Valid() && pick <= |keys|
      modifies this
      ensures Valid()
      ensures Model() == SetOp(old(Model()), key, value, ttl, now, pick)
    {
      var expiration := FallbackExpiration(now, ttl, defaultTTL);
      if key in entries {
        entries := entries[key := Entry(value, expiration)];
        return;
      }
      AppendFresh(keys, key);
      SliceLengthIsEntryCount(Model());
      entries := entries[key := Entry(value, expiration)];
      keys := keys + [key];
      SliceLengthIsEntryCount(Model());
      if maxEntries > 0 && |entries| > maxEntries {
        EvictRandom(pick);
      }
    }

    /** `evictRandom`. The source guards the map lookup of the drawn key, which always
        succeeds because the slice holds only keys of the map. */
    method EvictRandom(i: nat)
      requires Consistent(Model()) && (keys != [] ==> i < |keys|)
      modifies this
      ensures Model() == EvictRandomOp(old(Model()), i)
    {
      if |keys| == 0 {
        return;
      }
      var keyToEvict := keys[i];
      var ent := entries[keyToEvict];
      var l := log;
      if onEvicted.Some? {
        l := l + [Event(keyToEvict, ent.value, Eviction)];
      }
      var ks := keys[i := keys[|keys| - 1]];
      ks := ks[..|ks| - 1];
      assert ks == SwapRemove(keys, i);
      entries, keys, log := entries - {keyToEvict}, ks, l;
    }

    /** `Get` reads only: an expired entry is reported missing but stays. */
    method Get(key: K, now: nat) returns (value: Option<V>)
      requires Valid()
      ensures value == Lookup(Model(), key, now)
    {
      if key in entries {
        var ent := entries[key];
        if ent.expiration > 0 && now > ent.expiration {
          return None;
        }
        return Some(ent.value);
      }
      return None;
    }

    method Has(key: K, now: nat) returns (b: bool)
      requires Valid()
      ensures b <==> key in entries && !Expired(entries[key].expiration, now)
    {
      var v := Get(key, now);
      b := v.Some?;
    }

    /** `Keys` walks the slice and lists the unexpired keys in slice order. The source
        guards the map lookup, which always succeeds: the slice holds only map keys. */
    method Keys(now: nat) returns (ks: seq<K>)
      requires Valid()
      ensures ks == Without(keys, ExpiredKeys(entries, now))
      ensures NoDup(ks)
      ensures forall k :: k in ks <==> k in entries && !Expired(entries[k].expiration, now)
    {
      ghost var x := ExpiredKeys(entries, now);
      ks := [];
      var i := 0;
      while i < |keys|
        invariant i <= |keys|
        invariant ks == Without(keys[..i], x)
      {
        var key := keys[i];
        WithoutPrefixStep(keys, i, x);
        var ent := entries[key];
        if ent.expiration == 0 || now <= ent.expiration {
          ks := ks + [key];
        }
        i := i + 1;
      }
      assert keys[..i] == keys;
      WithoutNoDup(keys, x);
    }

    /** `Len` counts the unexpired entries without removing the others. */
    method Len(now: nat) returns (n: nat)
      requires Valid()
      ensures n == |LiveSet(Expirations(entries), now)|
      ensures n <= |entries|
    {
      n := CountLive(Expirations(entries), now);
      assert Expirations(entries).Keys == entries.Keys;
    }

    /** `Clear`: one Clear notification per entry, then an empty map and slice. */
    method Clear()
      requires Valid()
      modifies this
      ensures Valid()
      ensures entries == map[] && keys == []
      ensures onEvicted == old(onEvicted) && defaultTTL == old(defaultTTL)
      ensures NotifiedEach(old(log), log, onEvicted, old(entries).Keys, Values(old(entries)), EventKind.Clear)
    {
      log := NotifyEach(log, onEvicted, entries.Keys, Values(entries), EventKind.Clear);
      entries, keys := map[], [];
    }

    /** `cleanup`: collect the expired keys, then for each one notify, delete it from the
        map and splice it out of the slice. */
    method Cleanup(now: nat)
      requires Valid()
      modifies this
      ensures Valid()
      ensures Model().(log := old(log)) == SweepOp(old(Model()), now)
      ensures NotifiedEach(old(log), log, onEvicted, ExpiredKeys(old(entries), now), Values(old(entries)), Expiration)
    {
      ghost var s0 := Model();
      var expiredKeys := ExpiredKeyList(entries, now);
      SweepAll(expiredKeys, s0, now);
      SweepIsSwept(s0, now);
    }

    /** The second loop of `cleanup`: removes each collected key in turn. */
    method SweepAll(expiredKeys: seq<K>, ghost s0: State<K, V>, now: nat)
      requires WellFormed(s0) && Model() == s0
      requires NoDup(expiredKeys) && forall k :: k in expiredKeys <==> k in ExpiredKeys(s0.entries, now)
      modifies this
      ensures Model().(log := s0.log) == Swept(s0, ExpiredKeys(s0.entries, now))
      ensures NotifiedEach(s0.log, log, onEvicted, ExpiredKeys(s0.entries, now), Values(s0.entries), Expiration)
    {
      ghost var done: set<K> := {};
      var j := 0;
      assert Swept(s0, {}).entries == s0.entries;
      WithoutNothing(s0.keys, {});
      assert log[|s0.log|..] == [];
      while j < |expiredKeys|
        invariant j <= |expiredKeys|
        invariant forall y :: y in done <==> y in expiredKeys[..j]
        invariant Model().(log := s0.log) == Swept(s0, done)
        invariant NotifiedEach(s0.log, log, onEvicted, done, Values(s0.entries), Expiration)
      {
        var key := expiredKeys[j];
        assert key in ExpiredKeys(s0.entries, now);
        NextKey(done, expiredKeys, j);
        SweepKey(key, s0, done);
        done := done + {key};
        j := j + 1;
      }
      assert expiredKeys[..j] == expiredKeys;
      SameKeys(done, expiredKeys, ExpiredKeys(s0.entries, now));
    }

    /** One pass of the second loop of `cleanup`, for a key not yet removed. The source
        guards the map lookup, which always succeeds: the collected keys are distinct. */
    method SweepKey(key: K, ghost s0: State<K, V>, ghost done: set<K>)
      requires WellFormed(s0) && key in s0.entries && key !in done
      requires Model().(log := s0.log) == Swept(s0, done)
      requires NotifiedEach(s0.log, log, onEvicted, done, Values(s0.entries), Expiration)
      modifies this
      ensures Model().(log := s0.log) == Swept(s0, done + {key})
      ensures NotifiedEach(s0.log, log, onEvicted, done + {key}, Values(s0.entries), Expiration)
    {
      ghost var cur := Model();
      SweptStep(s0, done, key, cur);
      var ent := entries[key];
      assert ent.value == Values(s0.entries)[key];
      NotifiedEachStep(s0.log, log, onEvicted, done, Values(s0.entries), Expiration, key);
      var l := log;
      if onEvicted.Some? {
        l := l + [Event(key, ent.value, Expiration)];
      }
      var ks := SpliceOut(keys, key);
      entries, keys, log := entries - {key}, ks, l;
      assert Model().(log := s0.log) == cur.(entries := cur.entries - {key}, keys := Remove(cur.keys, key), log := s0.log);
    }
  }
}
