/** Entry records shared by the ARC and 2Q caches (internal/cache/arc/arc.go,
    internal/cache/twoq/twoq.go). Both keep `container/list` lists whose elements point
    to `entry` records. The model keeps the records in a store indexed by entry identity
    and each list as the sequence of identities its elements point to, front first. */
module Arena {
  import opened Common
  import opened Lists

  /** The `entry` record that list elements point to. */
  datatype Rec<K, V> = Rec(key: K, value: V, expiration: nat)

  /** A ghost list after a push: its back goes when it has grown past the limit. */
  function Trim(b: seq<nat>, maxEntries: nat): (r: seq<nat>)
    ensures |b| <= maxEntries + 1 ==> |r| <= maxEntries
    ensures |b| > maxEntries ==> b != [] && r == DropLast(b)
    ensures |b| <= maxEntries ==> r == b
  {
    if |b| > maxEntries then DropLast(b) else b
  }

  /** Index of the first element of a ghost list whose entry has key `key`, or the
      list's length when there is none. */
  function FirstWithKey<K(==), V>(b: seq<nat>, store: map<nat, Rec<K, V>>, key: K): (i: nat)
    requires forall id | id in b :: id in store
    ensures i <= |b|
    ensures i < |b| ==> store[b[i]].key == key
    ensures forall j | 0 <= j < i :: store[b[j]].key != key
  {
    if b == [] then 0
    else if store[b[0]].key == key then 0
    else 1 + FirstWithKey(b[1..], store, key)
  }

  /** Whether some entry on ghost list `b` has key `key`. */
  predicate HasGhost<K(==), V>(b: seq<nat>, store: map<nat, Rec<K, V>>, key: K)
    requires forall id | id in b :: id in store
  {
    exists id | id in b :: store[id].key == key
  }

  /** `checkGhost` on one ghost list: the first element whose entry has key `key` is
      unlinked. The list loses an element exactly when some entry on it has that key,
      and nothing is ever added. */
  function Unghost<K(==), V>(b: seq<nat>, store: map<nat, Rec<K, V>>, key: K): (r: seq<nat>)
    requires forall id | id in b :: id in store
    ensures forall id | id in r :: id in b
    ensures |r| < |b| <==> HasGhost(b, store, key)
    ensures |r| == |b| ==> r == b
    ensures |r| < |b| ==> |r| == |b| - 1 && var i := FirstWithKey(b, store, key); r == b[..i] + b[i + 1..]
  {
    var i := FirstWithKey(b, store, key);
    if i < |b| then
      assert b[i] in b;
      assert forall id | id in b[..i] + b[i + 1..] :: id in b;
      b[..i] + b[i + 1..]
    else b
  }

  /** The loop of `checkGhost`: walks the list from the front and unlinks the first
      element whose entry has key `key`, reporting whether it found one. */
  method CheckGhost<K(==), V>(b: seq<nat>, store: map<nat, Rec<K, V>>, key: K) returns (r: seq<nat>, found: bool)
    requires forall id | id in b :: id in store
    ensures r == Unghost(b, store, key)
    ensures found <==> HasGhost(b, store, key)
  {
    var i := 0;
    while i < |b|
      invariant i <= |b|
      invariant i <= FirstWithKey(b, store, key)
    {
      if store[b[i]].key == key {
        return b[..i] + b[i + 1..], true;
      }
      i := i + 1;
    }
    return b, false;
  }

  /** The identities of `l` whose entry has expired, in list order. */
  function ExpiredIds<K, V>(l: seq<nat>, store: map<nat, Rec<K, V>>, now: nat): (r: seq<nat>)
    requires forall id | id in l :: id in store
    ensures forall id :: id in r <==> id in l && Expired(store[id].expiration, now)
  {
    if l == [] then []
    else
      ExpiredIds(DropLast(l), store, now)
      + (if Expired(store[Last(l)].expiration, now) then [Last(l)] else [])
  }

  /** Expiration notifications for the entries of `ids`, in order. */
  function ExpiryEvents<K, V>(ids: seq<nat>, store: map<nat, Rec<K, V>>): seq<Event<K, V>>
    requires forall id | id in ids :: id in store
  {
    if ids == [] then []
    else ExpiryEvents(DropLast(ids), store) + [Event(store[Last(ids)].key, store[Last(ids)].value, Expiration)]
  }

  /** The keys of the entries of `ids`. */
  function KeysOf<K, V>(ids: seq<nat>, store: map<nat, Rec<K, V>>): set<K>
    requires forall id | id in ids :: id in store
  {
    set id | id in ids :: store[id].key
  }

  lemma KeysOfStep<K, V>(ids: seq<nat>, store: map<nat, Rec<K, V>>)
    requires ids != [] && forall id | id in ids :: id in store
    ensures KeysOf(ids, store) == KeysOf(DropLast(ids), store) + {store[Last(ids)].key}
  {
    assert ids == DropLast(ids) + [Last(ids)];
  }

  /** The collecting loops of `cleanup`: walk a list from the front and keep the
      identities of expired entries. */
  method CollectExpired<K, V>(l: seq<nat>, store: map<nat, Rec<K, V>>, now: nat) returns (r: seq<nat>)
    requires forall id | id in l :: id in store
    ensures r == ExpiredIds(l, store, now)
  {
    r := [];
    var i := 0;
    while i < |l|
      invariant i <= |l|
      invariant r == ExpiredIds(l[..i], store, now)
    {
      PrefixStep(l, i);
      var ent := store[l[i]];
      if ent.expiration > 0 && now > ent.expiration {
        r := r + [l[i]];
      }
      i := i + 1;
    }
    assert l[..i] == l;
  }
}
