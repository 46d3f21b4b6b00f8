/** Vocabulary shared by the five cache policies: the eviction-notification causes, the
    notification log that stands for the onEvicted callback, the expiry test and the two
    time-to-live rules. Wall-clock time is a parameter `now` (Unix nanoseconds). */
module Common {

  datatype Option<T> = None | Some(value: T)

  /** Cause passed to onEvicted; the source numbers them with iota in this order. */
  datatype EventKind = Expiration | Eviction | Delete | Clear

  /** The integer the source passes for each cause. */
  function Code(k: EventKind): (c: int)
    ensures 0 <= c < 4
    ensures c == 0 <==> k == Expiration
    ensures c == 1 <==> k == Eviction
    ensures c == 2 <==> k == Delete
    ensures c == 3 <==> k == Clear
  {
    match k
    case Expiration => 0
    case Eviction => 1
    case Delete => 2
    case Clear => 3
  }

  /** One call of the onEvicted callback: (key, value, cause). */
  datatype Event<K, V> = Event(key: K, value: V, kind: EventKind)

  /** An installed onEvicted function, known only by its identity; `None` is Go's nil. */
  type Callback = nat

  /** The log after one notification, which only happens when a callback is installed. */
  function Notify<K, V>(log: seq<Event<K, V>>, onEvicted: Option<Callback>, e: Event<K, V>): seq<Event<K, V>>
  {
    if onEvicted.Some? then log + [e] else log
  }

  /** An entry has expired once `now` is past its stamp; a zero stamp never expires. */
  predicate Expired(expiration: int, now: int)
  {
    expiration > 0 && now > expiration
  }

  function Min(a: int, b: int): int { if a < b then a else b }
  function Max(a: int, b: int): int { if a > b then a else b }

  /** Expiration stamp computed by the LRU and LFU Set: an explicit TTL is capped at the
      default TTL, and the default applies when no TTL is given. */
  function CappedExpiration(now: nat, ttl: int, defaultTTL: int): (exp: nat)
    ensures ttl > 0 && defaultTTL > 0 ==> exp == now + Min(ttl, defaultTTL)
    ensures ttl > 0 && defaultTTL <= 0 ==> exp == now + ttl
    ensures ttl <= 0 && defaultTTL > 0 ==> exp == now + defaultTTL
    ensures ttl <= 0 && defaultTTL <= 0 ==> exp == 0
  {
    if ttl > 0 then
      if defaultTTL > 0 && ttl > defaultTTL then now + defaultTTL else now + ttl
    else if defaultTTL > 0 then now + defaultTTL
    else 0
  }

  /** Expiration stamp computed by the ARC, 2Q and Random Set: the default TTL is only a
      fallback for a missing TTL and never caps an explicit one. */
  function FallbackExpiration(now: nat, ttl: int, defaultTTL: int): (exp: nat)
    ensures ttl > 0 ==> exp == now + ttl
    ensures ttl <= 0 && defaultTTL > 0 ==> exp == now + defaultTTL
    ensures ttl <= 0 && defaultTTL <= 0 ==> exp == 0
  {
    if ttl > 0 then now + ttl
    else if defaultTTL > 0 then now + defaultTTL
    else 0
  }

  /** The two rules differ only when an explicit TTL exceeds a configured default:
      there the capped stamp is the earlier one. */
  lemma CappedDiffersOnlyAboveDefault(now: nat, ttl: int, defaultTTL: int)
    ensures CappedExpiration(now, ttl, defaultTTL) != FallbackExpiration(now, ttl, defaultTTL)
            <==> ttl > 0 && defaultTTL > 0 && ttl > defaultTTL
    ensures CappedExpiration(now, ttl, defaultTTL) <= FallbackExpiration(now, ttl, defaultTTL)
  {
  }

  /** The frequency-policy test: default 20ms, requested 50ms, checked 30ms later. The
      capped stamp has expired; under the fallback rule it would still be live. */
  lemma CappedTTLExample(now: nat)
    requires now > 0
    ensures Expired(CappedExpiration(now, 50, 20), now + 30)
    ensures !Expired(FallbackExpiration(now, 50, 20), now + 30)
  {
  }

  // ---------------------------------------------------------------------------
  // Events emitted by the "for each map entry" loops (Clear, Close, sweeps)

  /** `evs` reports every key of `keys` exactly once, with its value from `values`, all
      with cause `kind`, in some order (the source ranges over a Go map). */
  ghost predicate OncePerKey<K, V>(evs: seq<Event<K, V>>, keys: set<K>, values: map<K, V>, kind: EventKind)
  {
    && keys <= values.Keys
    && |evs| == |keys|
    && (forall i | 0 <= i < |evs| ::
          evs[i].key in keys && evs[i].value == values[evs[i].key] && evs[i].kind == kind)
    && (forall i, j | 0 <= i < j < |evs| :: evs[i].key != evs[j].key)
    && (forall k | k in keys :: exists i | 0 <= i < |evs| :: evs[i].key == k)
  }

  /** The log grew by the notifications of `OncePerKey`, or not at all without a callback. */
  ghost predicate NotifiedEach<K, V>(log0: seq<Event<K, V>>, log: seq<Event<K, V>>, onEvicted: Option<Callback>,
                                     keys: set<K>, values: map<K, V>, kind: EventKind)
  {
    if onEvicted.None? then log == log0
    else |log0| <= |log| && log[..|log0|] == log0 && OncePerKey(log[|log0|..], keys, values, kind)
  }

  /** Appending the event of one more key keeps `OncePerKey`. */
  lemma OncePerKeyExtend<K, V>(evs: seq<Event<K, V>>, keys: set<K>, values: map<K, V>, kind: EventKind, k: K)
    requires OncePerKey(evs, keys, values, kind)
    requires k in values && k !in keys
    ensures OncePerKey(evs + [Event(k, values[k], kind)], keys + {k}, values, kind)
  {
    var evs' := evs + [Event(k, values[k], kind)];
    forall j | j in keys + {k}
      ensures exists i | 0 <= i < |evs'| :: evs'[i].key == j
    {
      if j == k {
        assert evs'[|evs|].key == k;
      } else {
        var i :| 0 <= i < |evs| && evs[i].key == j;
        assert evs'[i].key == j;
      }
    }
  }

  /** One more notified key keeps `NotifiedEach`. */
  lemma NotifiedEachStep<K, V>(log0: seq<Event<K, V>>, log: seq<Event<K, V>>, onEvicted: Option<Callback>,
                               keys: set<K>, values: map<K, V>, kind: EventKind, k: K)
    requires NotifiedEach(log0, log, onEvicted, keys, values, kind)
    requires k in values && k !in keys
    ensures NotifiedEach(log0, Notify(log, onEvicted, Event(k, values[k], kind)), onEvicted, keys + {k}, values, kind)
  {
    if onEvicted.Some? {
      var e := Event(k, values[k], kind);
      OncePerKeyExtend(log[|log0|..], keys, values, kind, k);
      assert (log + [e])[|log0|..] == log[|log0|..] + [e];
    }
  }

  /** The loop over a cache's map that calls the callback, when one is installed, once per
      key of `keys` with its value and `kind`, in an arbitrary order. */
  method NotifyEach<K, V>(log0: seq<Event<K, V>>, onEvicted: Option<Callback>, keys: set<K>,
                          values: map<K, V>, kind: EventKind)
    returns (log: seq<Event<K, V>>)
    requires keys <= values.Keys
    ensures NotifiedEach(log0, log, onEvicted, keys, values, kind)
  {
    if onEvicted.None? {
      return log0;
    }
    var evs: seq<Event<K, V>> := [];
    var rest := keys;
    ghost var done: set<K> := {};
    while rest != {}
      invariant done + rest == keys && done !! rest
      invariant OncePerKey(evs, done, values, kind)
      decreases rest
    {
      var k :| k in rest;
      OncePerKeyExtend(evs, done, values, kind, k);
      evs := evs + [Event(k, values[k], kind)];
      rest := rest - {k};
      done := done + {k};
    }
    log := log0 + evs;
    assert log[..|log0|] == log0 && log[|log0|..] == evs;
  }

  // ---------------------------------------------------------------------------
  // Read-only loops over a key -> expiration view of a cache's map

  /** Keys whose entry has not expired at `now`. */
  ghost function LiveSet<K>(exps: map<K, nat>, now: nat): set<K>
  {
    set k | k in exps && !Expired(exps[k], now)
  }

  /** The loop collecting a map's keys: every key once, in map order. */
  method AllKeys<K, X>(m: map<K, X>) returns (ks: seq<K>)
    ensures forall i, j | 0 <= i < j < |ks| :: ks[i] != ks[j]
    ensures forall k :: k in ks <==> k in m
    ensures |ks| == |m|
  {
    ks := [];
    var rest := m.Keys;
    while rest != {}
      invariant rest <= m.Keys
      invariant forall k :: k in ks <==> k in m.Keys - rest
      invariant forall i, j | 0 <= i < j < |ks| :: ks[i] != ks[j]
      invariant |ks| + |rest| == |m.Keys|
      decreases rest
    {
      var k :| k in rest;
      ks := ks + [k];
      rest := rest - {k};
    }
  }

  /** The Keys loop of ARC and 2Q: keys whose entry is unexpired, in map order. */
  method LiveKeys<K>(exps: map<K, nat>, now: nat) returns (ks: seq<K>)
    ensures forall i, j | 0 <= i < j < |ks| :: ks[i] != ks[j]
    ensures forall k :: k in ks <==> k in exps && !Expired(exps[k], now)
  {
    ks := [];
    var rest := exps.Keys;
    while rest != {}
      invariant rest <= exps.Keys
      invariant forall k :: k in ks <==> k in exps.Keys - rest && !Expired(exps[k], now)
      invariant forall i, j | 0 <= i < j < |ks| :: ks[i] != ks[j]
      decreases rest
    {
      var k :| k in rest;
      if exps[k] == 0 || now <= exps[k] {
        ks := ks + [k];
      }
      rest := rest - {k};
    }
  }

  /** The Len loop of ARC, 2Q and Random: how many entries are unexpired. */
  method CountLive<K>(exps: map<K, nat>, now: nat) returns (n: nat)
    ensures n == |LiveSet(exps, now)|
    ensures n <= |exps|
  {
    n := 0;
    var rest := exps.Keys;
    ghost var done: set<K> := {};
    ghost var live: set<K> := {};
    while rest != {}
      invariant done + rest == exps.Keys && done !! rest
      invariant live <= done && n == |live|
      invariant forall j | j in done :: j in live <==> !Expired(exps[j], now)
      decreases rest
    {
      var k :| k in rest;
      if exps[k] == 0 || now <= exps[k] {
        live := live + {k};
        n := n + 1;
      }
      rest := rest - {k};
      done := done + {k};
    }
    LiveSetIs(exps, now, live);
    SubsetCard(live, exps.Keys);
  }

  /** A set of keys holding exactly the unexpired ones is `LiveSet`. */
  lemma LiveSetIs<K>(exps: map<K, nat>, now: nat, live: set<K>)
    requires live <= exps.Keys
    requires forall j | j in exps :: j in live <==> !Expired(exps[j], now)
    ensures live == LiveSet(exps, now)
  {
  }

  lemma SubsetCard<T>(a: set<T>, b: set<T>)
    requires a <= b
    ensures |a| <= |b|
  {
    assert b == a + (b - a);
  }
}
