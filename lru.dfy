/** The recency policy (internal/cache/lru/lru.go): a map from key to list element and a
    doubly linked list kept in recency order. Each key has exactly one element, so the list
    is modelled as the sequence of its keys, most recent first. */
module Lru {
  import opened Common
  import opened Lists

  /** The record a list element points to (its key is the map key). */
  datatype Entry<V> = Entry(value: V, expiration: nat)

  /** The fields of `lru.Cache`. `cleared` holds while `entries` and `ll` are nil, after
      Clear or Close; `log` is the sequence of onEvicted calls so far. */
  datatype State<K, V> = State(
    maxEntries: nat,
    entries: map<K, Entry<V>>,
    ll: seq<K>,
    cleared: bool,
    onEvicted: Option<Callback>,
    defaultTTL: int,
    log: seq<Event<K, V>>)

  /** Map and list hold the same keys, each once; a nil cache is empty; with a limit the
      list never holds more than `maxEntries` elements. */
  ghost predicate WellFormed<K, V>(s: State<K, V>)
  {
    && NoDup(s.ll)
    && (forall k | k in s.ll :: k in s.entries)
    && (forall k | k in s.entries :: k in s.ll)
    && (s.cleared ==> s.ll == [])
    && (s.maxEntries != 0 ==> |s.ll| <= s.maxEntries)
  }

  /** The next new key must first evict the back element. */
  predicate Full<K, V>(s: State<K, V>)
  {
    s.maxEntries != 0 && |s.ll| >= s.maxEntries
  }

  /** The number of entries is the length of the list, expired or not. */
  lemma {:induction false} ListLengthIsEntryCount<K, V>(s: State<K, V>)
    requires WellFormed(s)
    ensures |s.ll| == |s.entries|
  {
    NoDupCard(s.ll, s.entries.Keys);
  }

  /** `removeElement`: unlink the element of `k`, delete it from the map, notify. */
  function RemoveElementOp<K(==), V>(s: State<K, V>, k: K, kind: EventKind): (r: State<K, V>)
    requires WellFormed(s) && k in s.entries
    ensures WellFormed(r)
    ensures r.entries == s.entries - {k} && k !in r.ll
    ensures r.ll == Remove(s.ll, k) && |r.ll| == |s.ll| - 1
    ensures r.log == Notify(s.log, s.onEvicted, Event(k, s.entries[k].value, kind))
    ensures r.maxEntries == s.maxEntries && r.cleared == s.cleared
    ensures r.onEvicted == s.onEvicted && r.defaultTTL == s.defaultTTL
  {
    RemoveNoDup(s.ll, k);
    s.(ll := Remove(s.ll, k), entries := s.entries - {k},
       log := Notify(s.log, s.onEvicted, Event(k, s.entries[k].value, kind)))
  }

  /** `RemoveOldest`: the back element goes, with cause Eviction; a nil or empty cache is
      left alone. */
  function RemoveOldestOp<K(==), V>(s: State<K, V>): (r: State<K, V>)
    requires WellFormed(s)
    ensures WellFormed(r)
    ensures s.ll == [] ==> r == s
    ensures s.ll != [] ==>
      && r.ll == DropLast(s.ll)
      && r.entries == s.entries - {Last(s.ll)}
      && r.log == Notify(s.log, s.onEvicted, Event(Last(s.ll), s.entries[Last(s.ll)].value, Eviction))
    ensures r.maxEntries == s.maxEntries && r.cleared == s.cleared
    ensures r.onEvicted == s.onEvicted && r.defaultTTL == s.defaultTTL
  {
    if s.cleared || s.ll == [] then s
    else
      RemoveAt(s.ll, |s.ll| - 1);
      RemoveElementOp(s, Last(s.ll), Eviction)
  }

  /** `Set`: an existing key moves to the front with its new value and stamp and nothing
      is notified; a new key first evicts the back when the list is full, then goes to the
      front. A zero limit never evicts. */
  function SetOp<K(==), V>(s: State<K, V>, key: K, value: V, ttl: int, now: nat): (r: State<K, V>)
    requires WellFormed(s)
    ensures WellFormed(r)
    ensures !r.cleared && r.ll != [] && r.ll[0] == key
    ensures key in r.entries && r.entries[key] == Entry(value, CappedExpiration(now, ttl, s.defaultTTL))
    ensures key in s.entries ==>
      && r.ll == [key] + Remove(s.ll, key)
      && r.entries == s.entries[key := Entry(value, CappedExpiration(now, ttl, s.defaultTTL))]
      && r.log == s.log
    ensures key !in s.entries && Full(s) ==>
      && r.ll == [key] + DropLast(s.ll)
      && r.entries == (s.entries - {Last(s.ll)})[key := Entry(value, CappedExpiration(now, ttl, s.defaultTTL))]
      && r.log == Notify(s.log, s.onEvicted, Event(Last(s.ll), s.entries[Last(s.ll)].value, Eviction))
    ensures key !in s.entries && !Full(s) ==>
      && r.ll == [key] + s.ll
      && r.entries == s.entries[key := Entry(value, CappedExpiration(now, ttl, s.defaultTTL))]
      && r.log == s.log
    ensures s.maxEntries == 0 ==> r.log == s.log
    ensures r.maxEntries != 0 ==> |r.ll| <= r.maxEntries
    ensures r.maxEntries == s.maxEntries && r.onEvicted == s.onEvicted && r.defaultTTL == s.defaultTTL
  {
    var e := Entry(value, CappedExpiration(now, ttl, s.defaultTTL));
    var s0 := s.(cleared := false);
    if key in s0.entries then
      RemoveNoDup(s0.ll, key);
      s0.(ll := [key] + Remove(s0.ll, key), entries := s0.entries[key := e])
    else
      var s1 := if Full(s0) then RemoveOldestOp(s0) else s0;
      s1.(ll := [key] + s1.ll, entries := s1.entries[key := e])
  }

  /** What `Get` and `Has` report: the value of an unexpired entry. */
  function Lookup<K(==), V>(s: State<K, V>, key: K, now: nat): (r: Option<V>)
    ensures r.Some? <==> key in s.entries && !Expired(s.entries[key].expiration, now)
    ensures r.Some? ==> r.value == s.entries[key].value
  {
    if key in s.entries && !Expired(s.entries[key].expiration, now) then Some(s.entries[key].value)
    else None
  }

  /** `Get`: a live hit moves the key to the front and changes nothing else; an expired hit
      removes it with exactly one Expiration notification; a miss changes nothing. */
  function GetOp<K(==), V>(s: State<K, V>, key: K, now: nat): (r: State<K, V>)
    requires WellFormed(s)
    ensures WellFormed(r)
    ensures key !in s.entries ==> r == s
    ensures Lookup(s, key, now).Some? ==>
      r == s.(ll := [key] + Remove(s.ll, key)) && r.ll[0] == key
    ensures key in s.entries && Expired(s.entries[key].expiration, now) ==>
      && r == s.(ll := Remove(s.ll, key), entries := s.entries - {key},
                 log := Notify(s.log, s.onEvicted, Event(key, s.entries[key].value, Expiration)))
      && key !in r.ll
  {
    if key !in s.entries then s
    else if Expired(s.entries[key].expiration, now) then RemoveElementOp(s, key, Expiration)
    else
      RemoveNoDup(s.ll, key);
      s.(ll := [key] + Remove(s.ll, key))
  }

  /** `Delete`: a present key is removed with exactly one Delete notification. */
  function DeleteOp<K(==), V>(s: State<K, V>, key: K): (r: State<K, V>)
    requires WellFormed(s)
    ensures WellFormed(r)
    ensures r.entries == s.entries - {key}
    ensures key in s.entries ==>
      r == s.(ll := Remove(s.ll, key), entries := s.entries - {key},
              log := Notify(s.log, s.onEvicted, Event(key, s.entries[key].value, Delete)))
    ensures key !in s.entries ==> r == s
  {
    if key in s.entries then RemoveElementOp(s, key, Delete) else s
  }

  /** Keys whose entry has expired at `now`. */
  function ExpiredKeys<K(==), V>(entries: map<K, Entry<V>>, now: nat): set<K>
  {
    set k | k in entries && Expired(entries[k].expiration, now)
  }

  /** Expiration notifications for the expired keys of `l`, from its back to its front. */
  function ExpiryEvents<K(==), V>(l: seq<K>, entries: map<K, Entry<V>>, now: nat): seq<Event<K, V>>
    requires forall k | k in l :: k in entries
  {
    if l == [] then []
    else
      ExpiryEvents(l[1..], entries, now)
      + (if Expired(entries[l[0]].expiration, now) then [Event(l[0], entries[l[0]].value, Expiration)] else [])
  }

  /** The notifications of a sweep name each expired key on the list once, with its value. */
  lemma {:induction false} ExpiryEventsOnce<K, V>(l: seq<K>, entries: map<K, Entry<V>>, now: nat)
    requires NoDup(l) && forall k | k in l :: k in entries
    ensures OncePerKey(ExpiryEvents(l, entries, now), set k | k in l && Expired(entries[k].expiration, now),
                       map k | k in entries :: entries[k].value, Expiration)
  {
    var values := map k | k in entries :: entries[k].value;
    var x := set k | k in l && Expired(entries[k].expiration, now);
    if l == [] {
      assert x == {};
    } else {
      var t := l[1..];
      assert NoDup(t) by {
        forall a, b | 0 <= a < b < |t| ensures t[a] != t[b] { assert t[a] == l[a + 1] && t[b] == l[b + 1]; }
      }
      ExpiryEventsOnce(t, entries, now);
      var xt := set k | k in t && Expired(entries[k].expiration, now);
      assert l[0] !in t;
      if Expired(entries[l[0]].expiration, now) {
        assert x == xt + {l[0]};
        OncePerKeyExtend(ExpiryEvents(t, entries, now), xt, values, Expiration, l[0]);
      } else {
        assert x == xt;
        var e := ExpiryEvents(t, entries, now);
        assert ExpiryEvents(l, entries, now) == e + [];
        assert e + [] == e;
      }
    }
  }

  /** `cleanupExpiredEntries`: exactly the expired entries leave map and list, the others
      keep their order, and each expired key is notified once. */
  function SweepOp<K(==), V>(s: State<K, V>, now: nat): (r: State<K, V>)
    requires WellFormed(s)
    ensures WellFormed(r)
    ensures forall k | k in r.entries :: k in s.entries && !Expired(s.entries[k].expiration, now)
    ensures forall k | k in s.entries && !Expired(s.entries[k].expiration, now) :: k in r.entries
    ensures forall k | k in r.entries :: r.entries[k] == s.entries[k]
    ensures r.ll == Without(s.ll, ExpiredKeys(s.entries, now))
    ensures s.onEvicted.None? ==> r.log == s.log
    ensures s.onEvicted.Some? ==>
      && |s.log| <= |r.log| && r.log[..|s.log|] == s.log
      && OncePerKey(r.log[|s.log|..], ExpiredKeys(s.entries, now),
                    map k | k in s.entries :: s.entries[k].value, Expiration)
  {
    var x := ExpiredKeys(s.entries, now);
    WithoutNoDup(s.ll, x);
    ExpiryEventsOnce(s.ll, s.entries, now);
    assert (set k | k in s.ll && Expired(s.entries[k].expiration, now)) == x;
    var r := s.(ll := Without(s.ll, x),
                entries := map k | k in s.entries && k !in x :: s.entries[k],
                log := s.log + (if s.onEvicted.Some? then ExpiryEvents(s.ll, s.entries, now) else []));
    assert s.onEvicted.Some? ==> r.log[|s.log|..] == ExpiryEvents(s.ll, s.entries, now);
    r
  }

  /** The state after the sweep has visited the elements from index `i` to the back. */
  ghost function SweptFrom<K, V>(s: State<K, V>, i: nat, now: nat): State<K, V>
    requires WellFormed(s) && i <= |s.ll|
  {
    var x := ExpiredKeys(s.entries, now);
    s.(ll := s.ll[..i] + Without(s.ll[i..], x),
       entries := map k | k in s.entries && !(k in x && k in s.ll[i..]) :: s.entries[k],
       log := s.log + (if s.onEvicted.Some? then ExpiryEvents(s.ll[i..], s.entries, now) else []))
  }

  lemma SweptFromEnd<K, V>(s: State<K, V>, now: nat)
    requires WellFormed(s)
    ensures SweptFrom(s, |s.ll|, now) == s
  {
    assert s.ll[|s.ll|..] == [];
    assert s.ll[..|s.ll|] + [] == s.ll;
    assert SweptFrom(s, |s.ll|, now).entries == s.entries;
  }

  /** Part way through, the visited suffix is filtered and the prefix is untouched. */
  lemma SweptFromWellFormed<K, V>(s: State<K, V>, i: nat, now: nat)
    requires WellFormed(s) && i <= |s.ll|
    ensures WellFormed(SweptFrom(s, i, now))
    ensures SweptFrom(s, i, now).ll[..i] == s.ll[..i]
  {
    var t := SweptFrom(s, i, now);
    var w := Without(s.ll[i..], ExpiredKeys(s.entries, now));
    assert s.ll == s.ll[..i] + s.ll[i..];
    NoDupSlice(s.ll, 0, i);
    NoDupSlice(s.ll, i, |s.ll|);
    assert s.ll[0..i] == s.ll[..i];
    WithoutNoDup(s.ll[i..], ExpiredKeys(s.entries, now));
    forall y | y in s.ll[..i] ensures y !in w {
    }
    NoDupConcat(s.ll[..i], w);
    forall j | j in t.entries ensures j in t.ll {
      if j !in s.ll[i..] {
        assert j in s.ll[..i];
      }
    }
    assert |t.ll| <= |s.ll|;
    assert t.ll[..i] == s.ll[..i];
  }

  /** The element at `i - 1` of a duplicate-free list occurs neither before nor after. */
  lemma SplitAt<T>(l: seq<T>, i: nat)
    requires NoDup(l) && 0 < i <= |l|
    ensures l[i - 1..] == [l[i - 1]] + l[i..]
    ensures l[..i] == l[..i - 1] + [l[i - 1]]
    ensures l[i - 1] !in l[..i - 1] && l[i - 1] !in l[i..]
  {
  }

  /** One backward step of the sweep: the element at `i - 1` is untouched so far, and the
      step either removes it with an Expiration notification or keeps it. */
  lemma SweepStep<K, V>(s: State<K, V>, i: nat, now: nat)
    requires WellFormed(s) && 0 < i <= |s.ll|
    ensures WellFormed(SweptFrom(s, i, now))
    ensures var t := SweptFrom(s, i, now);
            var k := s.ll[i - 1];
            && i - 1 < |t.ll| && t.ll[i - 1] == k
            && k in t.entries && t.entries[k] == s.entries[k]
            && SweptFrom(s, i - 1, now)
               == (if Expired(s.entries[k].expiration, now) then RemoveElementOp(t, k, Expiration) else t)
            && t.maxEntries == s.maxEntries && t.cleared == s.cleared
            && t.onEvicted == s.onEvicted && t.defaultTTL == s.defaultTTL
  {
    SweptFromWellFormed(s, i, now);
    SplitAt(s.ll, i);
    var t := SweptFrom(s, i, now);
    var k := s.ll[i - 1];
    assert t.ll[..i][i - 1] == k;
    SweepEntriesStep(s, i, now);
    if Expired(s.entries[k].expiration, now) {
      SweepStepRemoves(s, i, now);
    } else {
      SweepStepKeeps(s, i, now);
    }
  }

  lemma SweepStepRemoves<K, V>(s: State<K, V>, i: nat, now: nat)
    requires WellFormed(s) && 0 < i <= |s.ll|
    requires WellFormed(SweptFrom(s, i, now))
    requires s.ll[..i] == s.ll[..i - 1] + [s.ll[i - 1]]
    requires s.ll[i - 1] !in s.ll[..i - 1] && s.ll[i - 1] !in s.ll[i..]
    requires Expired(s.entries[s.ll[i - 1]].expiration, now)
    ensures s.ll[i - 1] in SweptFrom(s, i, now).entries
    ensures SweptFrom(s, i - 1, now) == RemoveElementOp(SweptFrom(s, i, now), s.ll[i - 1], Expiration)
  {
    var t := SweptFrom(s, i, now);
    var k := s.ll[i - 1];
    var u := SweptFrom(s, i - 1, now);
    SweepRemovesFromList(s, i, now);
    SweepEntriesStep(s, i, now);
    SweepLogStep(s, i, now);
    assert u == t.(ll := Remove(t.ll, k), entries := t.entries - {k}, log := u.log);
  }

  /** An expired element swept off adds its Expiration notification after those of the
      elements behind it. */
  lemma SweepLogStep<K, V>(s: State<K, V>, i: nat, now: nat)
    requires WellFormed(s) && 0 < i <= |s.ll|
    requires Expired(s.entries[s.ll[i - 1]].expiration, now)
    ensures SweptFrom(s, i - 1, now).log
            == Notify(SweptFrom(s, i, now).log, s.onEvicted, Event(s.ll[i - 1], s.entries[s.ll[i - 1]].value, Expiration))
  {
    ExpiryEventsStep(s.ll, i, s.entries, now);
  }

  lemma SweepEntriesStep<K, V>(s: State<K, V>, i: nat, now: nat)
    requires WellFormed(s) && 0 < i <= |s.ll|
    ensures s.ll[i - 1] in SweptFrom(s, i, now).entries
    ensures SweptFrom(s, i, now).entries[s.ll[i - 1]] == s.entries[s.ll[i - 1]]
    ensures SweptFrom(s, i - 1, now).entries
            == if Expired(s.entries[s.ll[i - 1]].expiration, now)
               then SweptFrom(s, i, now).entries - {s.ll[i - 1]}
               else SweptFrom(s, i, now).entries
  {
    SplitAt(s.ll, i);
  }

  /** One more element at the front of the visited suffix adds its notification last. */
  lemma ExpiryEventsStep<K, V>(l: seq<K>, i: nat, entries: map<K, Entry<V>>, now: nat)
    requires 0 < i <= |l| && forall k | k in l :: k in entries
    ensures ExpiryEvents(l[i - 1..], entries, now)
            == ExpiryEvents(l[i..], entries, now)
               + (if Expired(entries[l[i - 1]].expiration, now) then [Event(l[i - 1], entries[l[i - 1]].value, Expiration)] else [])
  {
    assert l[i - 1..][1..] == l[i..];
  }

  lemma SweepRemovesFromList<K, V>(s: State<K, V>, i: nat, now: nat)
    requires WellFormed(s) && 0 < i <= |s.ll|
    requires s.ll[..i] == s.ll[..i - 1] + [s.ll[i - 1]]
    requires s.ll[i - 1] !in s.ll[..i - 1]
    requires Expired(s.entries[s.ll[i - 1]].expiration, now)
    ensures SweptFrom(s, i - 1, now).ll == Remove(SweptFrom(s, i, now).ll, s.ll[i - 1])
  {
    RemoveSweptStep(s.ll, i, ExpiredKeys(s.entries, now));
  }

  lemma SweepStepKeeps<K, V>(s: State<K, V>, i: nat, now: nat)
    requires WellFormed(s) && 0 < i <= |s.ll|
    requires !Expired(s.entries[s.ll[i - 1]].expiration, now)
    ensures SweptFrom(s, i - 1, now) == SweptFrom(s, i, now)
  {
    var t := SweptFrom(s, i, now);
    var u := SweptFrom(s, i - 1, now);
    KeepSweptStep(s.ll, i, ExpiredKeys(s.entries, now));
    SweepEntriesStep(s, i, now);
    ExpiryEventsStep(s.ll, i, s.entries, now);
    assert u.log == t.log;
  }

  lemma SweptFromStart<K, V>(s: State<K, V>, now: nat)
    requires WellFormed(s)
    ensures SweptFrom(s, 0, now) == SweepOp(s, now)
  {
    assert s.ll[0..] == s.ll && s.ll[..0] == [];
    assert SweptFrom(s, 0, now).entries == SweepOp(s, now).entries;
  }

  /** Recency at capacity 2: `Set A; Set B; Get A; Set C` evicts B, the least recently used, and keeps A and C. */
  lemma RecencyExample(a: string, b: string, c: string, now: nat)
    requires a != b && b != c && a != c
    ensures var s0 := State(2, map[], [], false, None, 0, []);
            var s1 := SetOp(SetOp(s0, a, 1, 0, now), b, 2, 0, now);
            var s2 := SetOp(GetOp(s1, a, now), c, 3, 0, now);
            Lookup(s2, b, now).None? && Lookup(s2, a, now) == Some(1) && Lookup(s2, c, now) == Some(3)
  {
    var s0: State<string, int> := State(2, map[], [], false, None, 0, []);
    var s1 := SetOp(SetOp(s0, a, 1, 0, now), b, 2, 0, now);
    assert s1.ll == [b, a];
    var g := GetOp(s1, a, now);
    assert Remove(s1.ll, a) == [b];
    assert g.ll == [a, b];
  }

  /** `lru.Cache`. The mutex, the sweeper goroutine and its stop channel are not modelled. */
  class Cache<K(==), V> {
    const maxEntries: nat
    var entries: map<K, Entry<V>>
    var ll: seq<K>
    var cleared: bool
    var onEvicted: Option<Callback>
    var defaultTTL: int
    var log: seq<Event<K, V>>

    function Model(): State<K, V>
      reads this
    {
      State(maxEntries, entries, ll, cleared, onEvicted, defaultTTL, log)
    }

    ghost predicate Valid()
      reads this
    {
      WellFormed(Model())
    }

    /** `New`: an empty cache with no callback and no default TTL. */
    constructor (maxEntries: nat)
      ensures Valid()
      ensures Model() == State(maxEntries, map[], [], false, None, 0, [])
    {
      this.maxEntries := maxEntries;
      entries, ll, cleared := map[], [], false;
      onEvicted, defaultTTL, log := None, 0, [];
    }

    /** `NewWithEvictionFunc`. */
    constructor WithEvictionFunc(maxEntries: nat, f: Callback)
      ensures Valid()
      ensures Model() == State(maxEntries, map[], [], false, Some(f), 0, [])
    {
      this.maxEntries := maxEntries;
      entries, ll, cleared := map[], [], false;
      onEvicted, defaultTTL, log := Some(f), 0, [];
    }

    /** `SetEvictedFunc` refuses a second registration and keeps the installed callback. */
    method SetEvictedFunc(f: Option<Callback>) returns (err: bool)
      requires Valid()
      modifies this
      ensures Valid()
      ensures err <==> old(onEvicted).Some?
      ensures Model() == if err then old(Model()) else old(Model()).(onEvicted := f)
    {
      if onEvicted.Some? {
        return true;
      }
      onEvicted := f;
      return false;
    }

    method SetDefaultTTL(ttl: int)
      requires Valid()
      modifies this
      ensures Valid()
      ensures Model() == old(Model()).(defaultTTL := ttl)
    {
      defaultTTL := ttl;
    }

    method Set(key: K, value: V, ttl: int, now: nat)
      requires Valid()
      modifies this
      ensures Valid()
      ensures Model() == SetOp(old(Model()), key, value, ttl, now)
    {
      if cleared {
        entries, ll, cleared := map[], [], false;
      }
      var expiration := CappedExpiration(now, ttl, defaultTTL);
      if key in entries {
        RemoveNoDup(ll, key);
        ll := [key] + Remove(ll, key);
        entries := entries[key := Entry(value, expiration)];
        return;
      }
      if maxEntries != 0 && |ll| >= maxEntries {
        RemoveOldest();
      }
      ll := [key] + ll;
      entries := entries[key := Entry(value, expiration)];
    }

    method Get(key: K, now: nat) returns (value: Option<V>)
      requires Valid()
      modifies this
      ensures Valid()
      ensures value == Lookup(old(Model()), key, now)
      ensures Model() == GetOp(old(Model()), key, now)
    {
      if key !in entries {
        return None;
      }
      var e := entries[key];
      if e.expiration > 0 && now > e.expiration {
        RemoveElement(key, Expiration);
        return None;
      }
      RemoveNoDup(ll, key);
      ll := [key] + Remove(ll, key);
      return Some(e.value);
    }

    /** `Has` reads only: true exactly for a present, unexpired key. */
    method Has(key: K, now: nat) returns (b: bool)
      requires Valid()
      ensures b <==> key in entries && !Expired(entries[key].expiration, now)
    {
      if cleared || key !in entries {
        return false;
      }
      var e := entries[key];
      if e.expiration > 0 && now > e.expiration {
        return false;
      }
      return true;
    }

    /** `Delete` reports whether the key was present. */
    method Delete(key: K) returns (found: bool)
      requires Valid()
      modifies this
      ensures Valid()
      ensures found <==> key in old(entries)
      ensures Model() == DeleteOp(old(Model()), key)
    {
      if key in entries {
        RemoveElement(key, EventKind.Delete);
        return true;
      }
      return false;
    }

    /** `Len` is the list length, which still counts expired entries not yet swept. */
    method Len() returns (n: nat)
      requires Valid()
      ensures n == |ll| && n == |entries|
    {
      ListLengthIsEntryCount(Model());
      if cleared {
        return 0;
      }
      return |ll|;
    }

    /** `Keys` lists every key of the map once, expired ones included. */
    method Keys() returns (ks: seq<K>)
      requires Valid()
      ensures NoDup(ks)
      ensures forall k :: k in ks <==> k in entries
    {
      ks := AllKeys(entries);
    }

    /** `Clear`: one Clear notification per entry, then both map and list are nil. */
    method Clear()
      requires Valid()
      modifies this
      ensures Valid()
      ensures entries == map[] && ll == [] && cleared
      ensures onEvicted == old(onEvicted) && defaultTTL == old(defaultTTL)
      ensures NotifiedEach(old(log), log, onEvicted, old(entries).Keys,
                           map k | k in old(entries) :: old(entries)[k].value, EventKind.Clear)
    {
      log := NotifyEach(log, onEvicted, entries.Keys, map k | k in entries :: entries[k].value, EventKind.Clear);
      ll, entries, cleared := [], map[], true;
    }

    /** `Close` stops the sweeper and then does what Clear does. Closing twice closes the
        stop channel twice, which panics in the source; channels are not modelled. */
    method Close()
      requires Valid()
      modifies this
      ensures Valid()
      ensures entries == map[] && ll == [] && cleared
      ensures onEvicted == old(onEvicted) && defaultTTL == old(defaultTTL)
      ensures NotifiedEach(old(log), log, onEvicted, old(entries).Keys,
                           map k | k in old(entries) :: old(entries)[k].value, EventKind.Clear)
    {
      Clear();
    }

    method RemoveOldest()
      requires Valid()
      modifies this
      ensures Valid()
      ensures Model() == RemoveOldestOp(old(Model()))
    {
      if cleared || ll == [] {
        return;
      }
      RemoveAt(ll, |ll| - 1);
      RemoveElement(ll[|ll| - 1], Eviction);
    }

    method RemoveElement(k: K, kind: EventKind)
      requires Valid() && k in entries
      modifies this
      ensures Valid()
      ensures Model() == RemoveElementOp(old(Model()), k, kind)
    {
      RemoveNoDup(ll, k);
      var e := entries[k];
      ll := Remove(ll, k);
      entries := entries - {k};
      if onEvicted.Some? {
        log := log + [Event(k, e.value, kind)];
      }
    }

    /** `cleanupExpiredEntries` walks the list from back to front and removes every expired
        element. After Clear the list is nil and `c.ll.Back()` dereferences it, so the
        sweep requires a cache that has not been cleared. */
    method CleanupExpiredEntries(now: nat)
      requires Valid() && !cleared
      modifies this
      ensures Valid()
      ensures Model() == SweepOp(old(Model()), now)
    {
      ghost var s0 := Model();
      var i := |ll|;
      SweptFromEnd(s0, now);
      while i > 0
        invariant 0 <= i <= |s0.ll|
        invariant Model() == SweptFrom(s0, i, now)
        invariant Valid()
        decreases i
      {
        SweepStep(s0, i, now);
        i := i - 1;
        var k := ll[i];
        var e := entries[k];
        if e.expiration > 0 && now > e.expiration {
          RemoveElement(k, Expiration);
        }
      }
      SweptFromStart(s0, now);
    }
  }
}
