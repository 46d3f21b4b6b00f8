/** The frequency policy (internal/cache/lfu/lfu.go): a map from key to entry, one list per
    access count holding the entries with that count in insertion order, and the smallest
    count `minFreq` whose list the next eviction takes from. Lists are sequences of keys. */
module Lfu {
  import opened Common
  import opened Lists

  /** The entry record; its key is the map key and its list is `freqList[freq]`. */
  datatype Item<V> = Item(value: V, freq: nat, expiration: nat)

  /** The fields of `lfu.Cache`; `cleared` holds while `entries` and `freqList` are nil. */
  datatype State<K, V> = State(
    maxEntries: nat,
    entries: map<K, Item<V>>,
    freqList: map<nat, seq<K>>,
    minFreq: nat,
    cleared: bool,
    onEvicted: Option<Callback>,
    defaultTTL: int,
    log: seq<Event<K, V>>)

  /** The lists index the entries by count: every entry (count at least 1) sits in the list
      of its count, every list is nonempty with each key once (emptied lists are deleted),
      and a list holds only entries of its count. */
  ghost predicate Indexed<K, V>(entries: map<K, Item<V>>, freqList: map<nat, seq<K>>)
  {
    && (forall k | k in entries ::
          1 <= entries[k].freq && entries[k].freq in freqList && k in freqList[entries[k].freq])
    && (forall f | f in freqList :: freqList[f] != [] && NoDup(freqList[f]))
    && (forall f, k | f in freqList && k in freqList[f] :: k in entries && entries[k].freq == f)
  }

  /** The invariant the operations keep: `Indexed`; `minFreq` bounds every count and names
      a list whenever the next new key must evict; at most `max(1, maxEntries)` entries (a
      zero limit still admits the entry just inserted); a nil cache is empty. */
  ghost predicate WellFormed<K, V>(s: State<K, V>)
  {
    && Indexed(s.entries, s.freqList)
    && (forall k | k in s.entries :: s.minFreq <= s.entries[k].freq)
    && (s.entries != map[] && |s.entries| >= s.maxEntries ==> s.minFreq in s.freqList)
    && |s.entries| <= Max(1, s.maxEntries)
    && (s.cleared ==> s.entries == map[] && s.freqList == map[])
  }

  lemma MapRemoveCard<K, X>(m: map<K, X>, k: K)
    requires k in m
    ensures |m - {k}| == |m| - 1
  {
    assert (m - {k}).Keys == m.Keys - {k};
  }

  lemma MapAddCard<K, X>(m: map<K, X>, k: K, x: X)
    requires k !in m
    ensures |m[k := x]| == |m| + 1
  {
    assert m[k := x].Keys == m.Keys + {k};
  }

  /** `list.Remove` on the list of count f, and `delete(c.freqList, f)` if it became empty. */
  function Unlink<K(==)>(freqList: map<nat, seq<K>>, f: nat, k: K): map<nat, seq<K>>
    requires f in freqList
  {
    var l := Remove(freqList[f], k);
    if l == [] then freqList - {f} else freqList[f := l]
  }

  /** `PushBack` onto the list of count f, creating it if missing. */
  function Push<K(==)>(freqList: map<nat, seq<K>>, f: nat, k: K): map<nat, seq<K>>
  {
    freqList[f := (if f in freqList then freqList[f] else []) + [k]]
  }

  /** Unlinking `k` from the list of count f keeps the order of the others on that list,
      drops the list when it empties, and leaves every other list as it was. */
  lemma UnlinkKeepsOthers<K>(freqList: map<nat, seq<K>>, f: nat, k: K)
    requires f in freqList
    ensures var r := Unlink(freqList, f, k);
            && (f in r <==> Remove(freqList[f], k) != [])
            && (f in r ==> r[f] == Remove(freqList[f], k))
            && forall g | g != f :: (g in r <==> g in freqList) && (g in r ==> r[g] == freqList[g])
  {
  }

  /** Pushing `k` onto the list of count f puts it behind the elements already there, in
      their order, and leaves every other list as it was. */
  lemma PushBehind<K>(freqList: map<nat, seq<K>>, f: nat, k: K)
    ensures var r := Push(freqList, f, k);
            && f in r && r[f] != [] && Last(r[f]) == k
            && DropLast(r[f]) == (if f in freqList then freqList[f] else [])
            && forall g | g != f :: (g in r <==> g in freqList) && (g in r ==> r[g] == freqList[g])
  {
    var l := if f in freqList then freqList[f] else [];
    assert DropLast(l + [k]) == l;
  }

  /** Unlinking an entry and deleting it keeps the index; its list disappears exactly when
      the entry was alone in it, and no other list changes. */
  lemma IndexedUnlink<K, V>(entries: map<K, Item<V>>, freqList: map<nat, seq<K>>, k: K)
    requires Indexed(entries, freqList) && k in entries
    ensures Indexed(entries - {k}, Unlink(freqList, entries[k].freq, k))
    ensures entries[k].freq !in Unlink(freqList, entries[k].freq, k) <==> freqList[entries[k].freq] == [k]
    ensures forall g | g != entries[k].freq ::
              (g in Unlink(freqList, entries[k].freq, k) <==> g in freqList)
  {
    var f := entries[k].freq;
    var b := freqList[f];
    var l := Remove(b, k);
    var fl := Unlink(freqList, f, k);
    RemoveNoDup(b, k);
    forall j | j in entries - {k} ensures entries[j].freq in fl && j in fl[entries[j].freq] {
      if entries[j].freq == f {
        assert j in b && j in l;
      }
    }
    forall g, j | g in fl && j in fl[g] ensures j in entries - {k} && entries[j].freq == g {
      if g == f {
        assert j in b;
      }
    }
    if b == [k] {
      assert l == [];
    }
    if l == [] {
      assert |b| == 1 && b[0] == k;
      assert b == [k];
    }
  }

  /** Adding a new entry at the back of the list of its count keeps the index. */
  lemma IndexedPush<K, V>(entries: map<K, Item<V>>, freqList: map<nat, seq<K>>, k: K, it: Item<V>)
    requires Indexed(entries, freqList) && k !in entries && 1 <= it.freq
    ensures Indexed(entries[k := it], Push(freqList, it.freq, k))
  {
    var f := it.freq;
    var before := if f in freqList then freqList[f] else [];
    assert k !in before;
    NoDupConcat(before, [k]);
    var e := entries[k := it];
    var fl := Push(freqList, f, k);
    forall g, j | g in fl && j in fl[g] ensures j in e && e[j].freq == g {
      if g == f && j != k {
        assert j in before;
      }
    }
  }

  /** The entry `Set` evicts: the front of the `minFreq` list. */
  function Victim<K, V>(s: State<K, V>): K
    requires s.minFreq in s.freqList && s.freqList[s.minFreq] != []
  {
    s.freqList[s.minFreq][0]
  }

  /** On a full, well-formed cache the victim exists and is an entry of the smallest count;
      every other entry of that count reached it later (stands behind it in the list). */
  lemma VictimIsLeastFrequent<K, V>(s: State<K, V>)
    requires WellFormed(s) && s.entries != map[] && |s.entries| >= s.maxEntries
    ensures s.minFreq in s.freqList && s.freqList[s.minFreq] != []
    ensures Victim(s) in s.entries && s.entries[Victim(s)].freq == s.minFreq
    ensures forall k | k in s.entries :: s.entries[Victim(s)].freq <= s.entries[k].freq
    ensures forall k | k in s.entries && k != Victim(s) && s.entries[k].freq == s.minFreq ::
              k in s.freqList[s.minFreq][1..]
  {
    var b := s.freqList[s.minFreq];
    assert b[0] in b;
    forall k | k in s.entries && k != Victim(s) && s.entries[k].freq == s.minFreq
      ensures k in b[1..]
    {
      var i :| 0 <= i < |b| && b[i] == k;
      assert b[1..][i - 1] == k;
    }
  }

  /** `removeEntry`, followed by the `delete(c.entries, key)` every caller does next: unlink
      the entry from its list (dropping an emptied list and resetting `minFreq` to 1 if that
      was the `minFreq` list) and notify. Without a list for the entry's count only the map
      entry goes, unannounced. */
  function RemoveEntryOp<K(==), V>(s: State<K, V>, k: K, kind: EventKind): (r: State<K, V>)
    requires k in s.entries
    ensures r.entries == s.entries - {k}
    ensures s.entries[k].freq in s.freqList ==>
      r.log == Notify(s.log, s.onEvicted, Event(k, s.entries[k].value, kind))
    ensures s.entries[k].freq !in s.freqList ==> r == s.(entries := s.entries - {k})
    ensures s.entries[k].freq in s.freqList ==> r.freqList == Unlink(s.freqList, s.entries[k].freq, k)
    ensures r.minFreq == s.minFreq || r.minFreq == 1
    ensures r.maxEntries == s.maxEntries && r.cleared == s.cleared
    ensures r.onEvicted == s.onEvicted && r.defaultTTL == s.defaultTTL
  {
    var f := s.entries[k].freq;
    if f !in s.freqList then s.(entries := s.entries - {k})
    else
      var fl := Unlink(s.freqList, f, k);
      s.(entries := s.entries - {k},
         freqList := fl,
         minFreq := if f !in fl && f == s.minFreq then 1 else s.minFreq,
         log := Notify(s.log, s.onEvicted, Event(k, s.entries[k].value, kind)))
  }

  /** Removing an entry keeps the invariant, announces it, and moves `minFreq` (to 1) only
      when the entry was alone in the `minFreq` list. */
  lemma RemoveEntryKeepsWellFormed<K, V>(s: State<K, V>, k: K, kind: EventKind)
    requires WellFormed(s) && k in s.entries
    ensures WellFormed(RemoveEntryOp(s, k, kind))
    ensures RemoveEntryOp(s, k, kind).log == Notify(s.log, s.onEvicted, Event(k, s.entries[k].value, kind))
    ensures RemoveEntryOp(s, k, kind).minFreq
            == if s.minFreq in s.freqList && s.freqList[s.minFreq] == [k] then 1 else s.minFreq
  {
    IndexedUnlink(s.entries, s.freqList, k);
    MapRemoveCard(s.entries, k);
    var r := RemoveEntryOp(s, k, kind);
    if r.entries != map[] {
      assert |s.entries| >= 2;
    }
  }

  /** `incrementFrequency`: the entry leaves the list of its count f (dropping it if
      emptied, and moving `minFreq` up if that was the `minFreq` list) and joins the back of
      the list of count f + 1. */
  function IncrementOp<K(==), V>(s: State<K, V>, k: K): (r: State<K, V>)
    requires k in s.entries && s.entries[k].freq in s.freqList
    ensures r.entries == s.entries[k := s.entries[k].(freq := s.entries[k].freq + 1)]
    ensures var f := s.entries[k].freq; r.freqList == Push(Unlink(s.freqList, f, k), f + 1, k)
    ensures r.minFreq == s.minFreq || r.minFreq == s.minFreq + 1
    ensures r.log == s.log && r.cleared == s.cleared
    ensures r.maxEntries == s.maxEntries && r.onEvicted == s.onEvicted && r.defaultTTL == s.defaultTTL
  {
    var f := s.entries[k].freq;
    var fl := Unlink(s.freqList, f, k);
    s.(entries := s.entries[k := s.entries[k].(freq := f + 1)],
       freqList := Push(fl, f + 1, k),
       minFreq := if f !in fl && s.minFreq == f then s.minFreq + 1 else s.minFreq)
  }

  /** One more use keeps the invariant; `minFreq` moves up by one exactly when the entry
      was alone in the `minFreq` list. */
  lemma IncrementKeepsWellFormed<K, V>(s: State<K, V>, k: K)
    requires WellFormed(s) && k in s.entries
    ensures WellFormed(IncrementOp(s, k))
    ensures IncrementOp(s, k).minFreq
            == if s.minFreq in s.freqList && s.freqList[s.minFreq] == [k] then s.minFreq + 1 else s.minFreq
  {
    IncrementKeepsIndex(s, k);
    IncrementKeepsMin(s, k);
    var r := IncrementOp(s, k);
    assert r.entries.Keys == s.entries.Keys;
  }

  lemma IncrementKeepsIndex<K, V>(s: State<K, V>, k: K)
    requires Indexed(s.entries, s.freqList) && k in s.entries
    ensures Indexed(IncrementOp(s, k).entries, IncrementOp(s, k).freqList)
  {
    var f := s.entries[k].freq;
    IndexedMove(s.entries, s.freqList, k);
    assert IncrementOp(s, k).freqList == Push(Unlink(s.freqList, f, k), f + 1, k);
  }

  /** Moving an entry from the list of its count to the back of the next one keeps the
      index. */
  lemma IndexedMove<K, V>(entries: map<K, Item<V>>, freqList: map<nat, seq<K>>, k: K)
    requires Indexed(entries, freqList) && k in entries
    ensures var f := entries[k].freq;
            Indexed(entries[k := entries[k].(freq := f + 1)], Push(Unlink(freqList, f, k), f + 1, k))
  {
    var f := entries[k].freq;
    var it := entries[k].(freq := f + 1);
    IndexedUnlink(entries, freqList, k);
    IndexedPush(entries - {k}, Unlink(freqList, f, k), k, it);
    MapReplace(entries, k, it);
  }

  lemma MapReplace<K, X>(m: map<K, X>, k: K, x: X)
    ensures (m - {k})[k := x] == m[k := x]
  {
  }

  lemma IncrementKeepsMin<K, V>(s: State<K, V>, k: K)
    requires WellFormed(s) && k in s.entries
    ensures var r := IncrementOp(s, k);
            && (forall j | j in r.entries :: r.minFreq <= r.entries[j].freq)
            && (r.entries != map[] && |r.entries| >= r.maxEntries ==> r.minFreq in r.freqList)
            && r.minFreq == if s.minFreq in s.freqList && s.freqList[s.minFreq] == [k] then s.minFreq + 1 else s.minFreq
  {
    IncrementMinValue(s, k);
    IncrementMinBound(s, k);
    if s.entries != map[] && |s.entries| >= s.maxEntries {
      IncrementMinListed(s, k);
    }
    var r := IncrementOp(s, k);
    assert r.entries.Keys == s.entries.Keys;
  }

  /** After one more use `minFreq` still bounds every count. */
  lemma IncrementMinBound<K, V>(s: State<K, V>, k: K)
    requires Indexed(s.entries, s.freqList) && k in s.entries
    requires forall j | j in s.entries :: s.minFreq <= s.entries[j].freq
    ensures var r := IncrementOp(s, k);
            forall j | j in r.entries :: r.minFreq <= r.entries[j].freq
  {
    IncrementMinValue(s, k);
    var r := IncrementOp(s, k);
    if r.minFreq != s.minFreq {
      forall j | j in s.entries && s.entries[j].freq == s.minFreq ensures j == k {
        assert j in s.freqList[s.minFreq];
      }
    }
  }

  /** After one more use the `minFreq` list still exists. */
  lemma IncrementMinListed<K, V>(s: State<K, V>, k: K)
    requires Indexed(s.entries, s.freqList) && k in s.entries && s.minFreq in s.freqList
    ensures IncrementOp(s, k).minFreq in IncrementOp(s, k).freqList
  {
    IndexedUnlink(s.entries, s.freqList, k);
    IncrementMinValue(s, k);
  }

  /** `minFreq` moves up exactly when the entry was alone in the `minFreq` list. */
  lemma IncrementMinValue<K, V>(s: State<K, V>, k: K)
    requires Indexed(s.entries, s.freqList) && k in s.entries
    ensures IncrementOp(s, k).minFreq
            == if s.minFreq in s.freqList && s.freqList[s.minFreq] == [k] then s.minFreq + 1 else s.minFreq
  {
    IndexedUnlink(s.entries, s.freqList, k);
    if s.minFreq in s.freqList && s.freqList[s.minFreq] == [k] {
      assert k in s.freqList[s.minFreq];
    }
  }

  /** `evict`: the front of the `minFreq` list leaves the cache with an Eviction
      notification; when that list is missing nothing happens. */
  function EvictOp<K(==), V>(s: State<K, V>): (r: State<K, V>)
    requires s.minFreq in s.freqList ==> s.freqList[s.minFreq] != [] && Victim(s) in s.entries
    ensures s.minFreq !in s.freqList ==> r == s
    ensures s.minFreq in s.freqList ==>
      && r.entries == s.entries - {Victim(s)}
      && r.freqList == Unlink(s.freqList, s.minFreq, Victim(s))
      && r.log == Notify(s.log, s.onEvicted, Event(Victim(s), s.entries[Victim(s)].value, Eviction))
    ensures r.maxEntries == s.maxEntries && r.cleared == s.cleared && r.minFreq == s.minFreq
    ensures r.onEvicted == s.onEvicted && r.defaultTTL == s.defaultTTL
  {
    if s.minFreq !in s.freqList then s
    else
      var v := s.freqList[s.minFreq][0];
      s.(entries := s.entries - {v},
         freqList := Unlink(s.freqList, s.minFreq, v),
         log := Notify(s.log, s.onEvicted, Event(v, s.entries[v].value, Eviction)))
  }

  /** A cache without entries and lists is well formed, whatever its other fields. */
  lemma EmptyWellFormed<K, V>(s: State<K, V>)
    requires s.entries == map[] && s.freqList == map[]
    ensures WellFormed(s)
  {
    assert |s.entries| == 0;
  }

  /** Eviction drops the front of the `minFreq` list: the rest of it stays, or the list
      goes when nothing is left. */
  lemma EvictFront<K, V>(s: State<K, V>)
    requires s.minFreq in s.freqList && s.freqList[s.minFreq] != [] && Victim(s) in s.entries
    ensures var v := Victim(s);
            var l := s.freqList[s.minFreq][1..];
            EvictOp(s) == s.(entries := s.entries - {v},
                             freqList := if l == [] then s.freqList - {s.minFreq} else s.freqList[s.minFreq := l],
                             log := if s.onEvicted.Some? then s.log + [Event(v, s.entries[v].value, Eviction)] else s.log)
  {
    assert s.freqList[s.minFreq][1..] == Remove(s.freqList[s.minFreq], Victim(s));
  }

  /** Eviction from a full, well-formed cache keeps the index and the bound on counts, and
      frees room for one more entry. */
  lemma EvictLeavesRoom<K, V>(s: State<K, V>)
    requires WellFormed(s) && |s.entries| >= s.maxEntries
    ensures s.minFreq in s.freqList ==> s.freqList[s.minFreq] != [] && Victim(s) in s.entries
    ensures var r := EvictOp(s);
            && Indexed(r.entries, r.freqList)
            && |r.entries| < Max(1, s.maxEntries)
  {
    if s.entries == map[] {
      EmptyIndex(s.entries, s.freqList);
    } else {
      VictimIsLeastFrequent(s);
      var v := Victim(s);
      IndexedUnlink(s.entries, s.freqList, v);
      MapRemoveCard(s.entries, v);
      var r := EvictOp(s);
      assert r.entries == s.entries - {v};
      assert r.freqList == Unlink(s.freqList, s.entries[v].freq, v);
    }
  }

  /** No entries, no lists. */
  lemma EmptyIndex<K, V>(entries: map<K, Item<V>>, freqList: map<nat, seq<K>>)
    requires Indexed(entries, freqList) && entries == map[]
    ensures freqList == map[]
  {
    if freqList != map[] {
      var f :| f in freqList;
      ListHeadIsEntry(entries, freqList, f);
      assert false;
    }
  }

  lemma ListHeadIsEntry<K, V>(entries: map<K, Item<V>>, freqList: map<nat, seq<K>>, f: nat)
    requires Indexed(entries, freqList) && f in freqList
    ensures freqList[f][0] in entries
  {
    assert freqList[f][0] in freqList[f];
  }

  /** The last step of `Set` for a new key: an entry of count 1 at the back of list 1,
      which becomes `minFreq`. */
  function PushNew<K(==), V>(s: State<K, V>, key: K, value: V, expiration: nat): State<K, V>
  {
    s.(entries := s.entries[key := Item(value, 1, expiration)],
       freqList := Push(s.freqList, 1, key),
       minFreq := 1,
       cleared := false)
  }

  lemma PushNewKeepsWellFormed<K, V>(s: State<K, V>, key: K, value: V, expiration: nat)
    requires Indexed(s.entries, s.freqList)
    requires |s.entries| < Max(1, s.maxEntries) && key !in s.entries
    ensures WellFormed(PushNew(s, key, value, expiration))
  {
    IndexedPush(s.entries, s.freqList, key, Item(value, 1, expiration));
    MapAddCard(s.entries, key, Item(value, 1, expiration));
  }

  /** `Set`. An existing key takes the new value and stamp and counts one more use; a new
      key, when the cache is full, first evicts the least frequently used entry (the
      earliest among equals), then enters list 1, which becomes `minFreq`. */
  function SetOp<K(==), V>(s: State<K, V>, key: K, value: V, ttl: int, now: nat): (r: State<K, V>)
    requires WellFormed(s) && !s.cleared
    ensures WellFormed(r)
    ensures key in r.entries && r.entries[key].value == value
    ensures r.entries[key].expiration == CappedExpiration(now, ttl, s.defaultTTL)
    ensures key in s.entries ==>
      && r.entries == s.entries[key := Item(value, s.entries[key].freq + 1, CappedExpiration(now, ttl, s.defaultTTL))]
      && s.entries[key].freq in s.freqList
      && r.freqList == Push(Unlink(s.freqList, s.entries[key].freq, key), s.entries[key].freq + 1, key)
      && r.minFreq == (if s.minFreq in s.freqList && s.freqList[s.minFreq] == [key] then s.minFreq + 1 else s.minFreq)
      && r.log == s.log
    ensures key !in s.entries ==> r.entries[key].freq == 1 && r.minFreq == 1
    ensures key !in s.entries && s.entries != map[] && |s.entries| >= s.maxEntries ==>
      && s.minFreq in s.freqList && s.freqList[s.minFreq] != [] && Victim(s) in s.entries
      && r.entries == (s.entries - {Victim(s)})[key := Item(value, 1, CappedExpiration(now, ttl, s.defaultTTL))]
      && r.freqList == Push(Unlink(s.freqList, s.minFreq, Victim(s)), 1, key)
      && r.log == Notify(s.log, s.onEvicted, Event(Victim(s), s.entries[Victim(s)].value, Eviction))
    ensures key !in s.entries && (s.entries == map[] || |s.entries| < s.maxEntries) ==>
      && r.entries == s.entries[key := Item(value, 1, CappedExpiration(now, ttl, s.defaultTTL))]
      && r.freqList == Push(s.freqList, 1, key)
      && r.log == s.log
    ensures !r.cleared && r.maxEntries == s.maxEntries
    ensures r.onEvicted == s.onEvicted && r.defaultTTL == s.defaultTTL
  {
    var exp := CappedExpiration(now, ttl, s.defaultTTL);
    if key in s.entries then
      SetExisting(s, key, value, exp);
      IncrementOp(Refresh(s, key, value, exp), key)
    else if |s.entries| >= s.maxEntries then
      SetFull(s, key, value, exp);
      PushNew(EvictOp(s), key, value, exp)
    else
      PushNewKeepsWellFormed(s, key, value, exp);
      PushNew(s, key, value, exp)
  }

  /** The first step of `Set` for a present key: new value and stamp, same count. */
  function Refresh<K, V>(s: State<K, V>, key: K, value: V, exp: nat): State<K, V>
    requires key in s.entries
  {
    s.(entries := s.entries[key := s.entries[key].(value := value, expiration := exp)])
  }

  /** The existing-key path of `Set`: new value and stamp, then one more use. */
  lemma SetExisting<K, V>(s: State<K, V>, key: K, value: V, exp: nat)
    requires WellFormed(s) && key in s.entries
    ensures var s1 := Refresh(s, key, value, exp);
            && key in s1.entries && s1.entries[key].freq in s1.freqList
            && var r := IncrementOp(s1, key);
               && WellFormed(r)
               && r.entries == s.entries[key := Item(value, s.entries[key].freq + 1, exp)]
               && r.freqList == Push(Unlink(s.freqList, s.entries[key].freq, key), s.entries[key].freq + 1, key)
               && r.minFreq == (if s.minFreq in s.freqList && s.freqList[s.minFreq] == [key] then s.minFreq + 1 else s.minFreq)
               && r.log == s.log && r.cleared == s.cleared && r.maxEntries == s.maxEntries
               && r.onEvicted == s.onEvicted && r.defaultTTL == s.defaultTTL
  {
    ListHasEntry(s, key);
    var s1 := Refresh(s, key, value, exp);
    assert s1.freqList == s.freqList && s1.minFreq == s.minFreq;
    RefreshKeepsWellFormed(s, key, value, exp);
    IncrementKeepsWellFormed(s1, key);
    RefreshThenIncrement(s, key, value, exp);
  }

  /** The entry of `key` ends with the new value and stamp and one more use. */
  lemma RefreshThenIncrement<K, V>(s: State<K, V>, key: K, value: V, exp: nat)
    requires key in s.entries && s.entries[key].freq in s.freqList
    ensures var r := IncrementOp(Refresh(s, key, value, exp), key);
            && r.entries == s.entries[key := Item(value, s.entries[key].freq + 1, exp)]
            && r.freqList == Push(Unlink(s.freqList, s.entries[key].freq, key), s.entries[key].freq + 1, key)
            && r.log == s.log && r.cleared == s.cleared && r.maxEntries == s.maxEntries
            && r.onEvicted == s.onEvicted && r.defaultTTL == s.defaultTTL
  {
    var c := s.entries[key].(value := value, expiration := exp);
    var s1 := Refresh(s, key, value, exp);
    assert s1.entries == s.entries[key := c];
    var it := Item(value, s.entries[key].freq + 1, exp);
    assert s1.entries[key].(freq := s1.entries[key].freq + 1) == it;
    MapUpdateTwice(s.entries, key, c, it);
  }

  lemma MapUpdateTwice<K, X>(m: map<K, X>, k: K, a: X, b: X)
    ensures m[k := a][k := b] == m[k := b]
  {
  }

  /** A new value and stamp for an existing entry keep its count, so the invariant holds. */
  lemma RefreshKeepsWellFormed<K, V>(s: State<K, V>, key: K, value: V, exp: nat)
    requires WellFormed(s) && key in s.entries
    ensures WellFormed(Refresh(s, key, value, exp))
  {
    var s1 := Refresh(s, key, value, exp);
    assert s1.entries.Keys == s.entries.Keys;
    forall f, k | f in s1.freqList && k in s1.freqList[f] ensures k in s1.entries && s1.entries[k].freq == f {
      assert k in s.entries && s.entries[k].freq == f;
    }
  }

  /** The new-key path of `Set` on a full cache: evict, then push the new entry. */
  lemma SetFull<K, V>(s: State<K, V>, key: K, value: V, exp: nat)
    requires WellFormed(s) && !s.cleared && key !in s.entries && |s.entries| >= s.maxEntries
    ensures s.minFreq in s.freqList ==> s.freqList[s.minFreq] != [] && Victim(s) in s.entries
    ensures var r := PushNew(EvictOp(s), key, value, exp);
            && WellFormed(r) && r.minFreq == 1 && !r.cleared && r.maxEntries == s.maxEntries
            && r.onEvicted == s.onEvicted && r.defaultTTL == s.defaultTTL
            && (s.entries == map[] ==>
                  r.entries == s.entries[key := Item(value, 1, exp)] && r.freqList == Push(s.freqList, 1, key)
                  && r.log == s.log)
            && (s.entries != map[] ==>
                  && s.minFreq in s.freqList && s.freqList[s.minFreq] != [] && Victim(s) in s.entries
                  && r.entries == (s.entries - {Victim(s)})[key := Item(value, 1, exp)]
                  && r.freqList == Push(Unlink(s.freqList, s.minFreq, Victim(s)), 1, key)
                  && r.log == Notify(s.log, s.onEvicted, Event(Victim(s), s.entries[Victim(s)].value, Eviction)))
  {
    EvictLeavesRoom(s);
    if s.entries == map[] {
      EmptyIndex(s.entries, s.freqList);
      assert EvictOp(s) == s;
    }
    PushNewKeepsWellFormed(EvictOp(s), key, value, exp);
  }

  /** What `Get` and `Has` report: the value of an unexpired entry. */
  function Lookup<K(==), V>(s: State<K, V>, key: K, now: nat): (r: Option<V>)
    ensures r.Some? <==> key in s.entries && !Expired(s.entries[key].expiration, now)
    ensures r.Some? ==> r.value == s.entries[key].value
  {
    if key in s.entries && !Expired(s.entries[key].expiration, now) then Some(s.entries[key].value)
    else None
  }

  /** `Get`: a live hit counts one more use; an expired hit removes the entry with one
      Expiration notification; a miss changes nothing. */
  function GetOp<K(==), V>(s: State<K, V>, key: K, now: nat): (r: State<K, V>)
    requires WellFormed(s)
    ensures WellFormed(r)
    ensures key !in s.entries ==> r == s
    ensures Lookup(s, key, now).Some? ==>
      && s.entries[key].freq in s.freqList && r == IncrementOp(s, key)
      && r.entries == s.entries[key := s.entries[key].(freq := s.entries[key].freq + 1)] && r.log == s.log
    ensures key in s.entries && Expired(s.entries[key].expiration, now) ==>
      && r == RemoveEntryOp(s, key, Expiration)
      && r.entries == s.entries - {key}
      && r.log == Notify(s.log, s.onEvicted, Event(key, s.entries[key].value, Expiration))
    ensures r.maxEntries == s.maxEntries && r.cleared == s.cleared
    ensures r.onEvicted == s.onEvicted && r.defaultTTL == s.defaultTTL
  {
    if key !in s.entries then s
    else if Expired(s.entries[key].expiration, now) then
      RemoveEntryKeepsWellFormed(s, key, Expiration);
      RemoveEntryOp(s, key, Expiration)
    else
      IncrementKeepsWellFormed(s, key);
      IncrementOp(s, key)
  }

  /** `Delete`: a present key leaves with one Delete notification. */
  function DeleteOp<K(==), V>(s: State<K, V>, key: K): (r: State<K, V>)
    requires WellFormed(s)
    ensures WellFormed(r)
    ensures r.entries == s.entries - {key}
    ensures key in s.entries ==>
      && r == RemoveEntryOp(s, key, Delete)
      && r.log == Notify(s.log, s.onEvicted, Event(key, s.entries[key].value, Delete))
    ensures key !in s.entries ==> r == s
  {
    if key in s.entries then
      RemoveEntryKeepsWellFormed(s, key, Delete);
      RemoveEntryOp(s, key, Delete)
    else s
  }

  /** The frequency test: capacity 2, `Set x; Set y; Get x; Set z` evicts y, the entry used
      least. */
  lemma FrequencyExample(x: int, y: int, z: int, now: nat)
    requires x != y && y != z && x != z
    ensures var s0 := State(2, map[], map[], 0, false, None, 0, []);
            var s1 := SetOp(SetOp(s0, x, 1, 0, now), y, 2, 0, now);
            var s2 := SetOp(GetOp(s1, x, now), z, 3, 0, now);
            Lookup(s2, y, now).None? && Lookup(s2, x, now) == Some(1) && Lookup(s2, z, now) == Some(3)
  {
    var s0: State<int, int> := State(2, map[], map[], 0, false, None, 0, []);
    var s1 := SetOp(SetOp(s0, x, 1, 0, now), y, 2, 0, now);
    ExampleFill(x, y, now);
    assert GetOp(s1, x, now) == IncrementOp(s1, x);
    ExampleUse(s1, x, y);
    ExampleEvict(GetOp(s1, x, now), x, y, z, now);
  }

  /** `Set z` on the full cache evicts y, alone in list 1, and keeps x. */
  lemma ExampleEvict(g: State<int, int>, x: int, y: int, z: int, now: nat)
    requires WellFormed(g) && !g.cleared && x != y && y != z && x != z && g.maxEntries == 2 && g.defaultTTL == 0
    requires g.entries == map[x := Item(1, 2, 0), y := Item(2, 1, 0)]
    requires 1 in g.freqList && g.freqList[1] == [y] && g.minFreq == 1
    ensures var r := SetOp(g, z, 3, 0, now);
            Lookup(r, y, now).None? && Lookup(r, x, now) == Some(1) && Lookup(r, z, now) == Some(3)
  {
    assert g.freqList[g.minFreq] == [y];
    assert Victim(g) == y;
    assert |g.entries| == 2 by {
      assert g.entries.Keys == {x, y};
    }
  }

  /** A new key into a cache whose list 1 is `l` and not full. */
  lemma ExampleInsert(s: State<int, int>, key: int, value: int, now: nat)
    requires WellFormed(s) && !s.cleared && key !in s.entries && |s.entries| < s.maxEntries
    requires s.defaultTTL == 0 && (s.entries == map[] ==> s.freqList == map[])
    ensures var r := SetOp(s, key, value, 0, now);
            && r.entries == s.entries[key := Item(value, 1, 0)]
            && 1 in r.freqList && r.freqList[1] == (if 1 in s.freqList then s.freqList[1] else []) + [key]
            && r.minFreq == 1 && r.maxEntries == s.maxEntries && r.defaultTTL == 0
  {
    assert SetOp(s, key, value, 0, now) == PushNew(s, key, value, 0);
  }

  /** Two new keys in an empty cache of two entries share list 1, oldest first. */
  lemma ExampleFill(x: int, y: int, now: nat)
    requires x != y
    ensures var s0 := State(2, map[], map[], 0, false, None, 0, []);
            var s1 := SetOp(SetOp(s0, x, 1, 0, now), y, 2, 0, now);
            && WellFormed(s1) && !s1.cleared && s1.maxEntries == 2 && s1.defaultTTL == 0
            && s1.entries == map[x := Item(1, 1, 0), y := Item(2, 1, 0)]
            && 1 in s1.freqList && s1.freqList[1] == [x, y] && s1.minFreq == 1
  {
    var s0: State<int, int> := State(2, map[], map[], 0, false, None, 0, []);
    var a := SetOp(s0, x, 1, 0, now);
    ExampleInsert(s0, x, 1, now);
    ExampleInsert(a, y, 2, now);
  }

  /** One more use of x on list 1 = [x, y] moves x to list 2 and leaves y alone at the
      front of list 1. */
  lemma ExampleUse(s: State<int, int>, x: int, y: int)
    requires x != y
    requires s.entries == map[x := Item(1, 1, 0), y := Item(2, 1, 0)]
    requires 1 in s.freqList && s.freqList[1] == [x, y] && s.minFreq == 1
    ensures var g := IncrementOp(s, x);
            && g.entries == map[x := Item(1, 2, 0), y := Item(2, 1, 0)]
            && 1 in g.freqList && g.freqList[1] == [y] && g.minFreq == 1
  {
    assert Remove([x, y], x) == [y];
    var fl := Unlink(s.freqList, 1, x);
    assert 1 in fl && fl[1] == [y];
  }

  // ---------------------------------------------------------------------------
  // cleanupExpiredEntries: removeEntry for each expired key, in map order

  /** Keys whose entry has expired at `now`. */
  function ExpiredKeys<K, V>(entries: map<K, Item<V>>, now: nat): set<K>
  {
    set k | k in entries && Expired(entries[k].expiration, now)
  }

  /** The lists once the keys of `d` are unlinked: each list filtered, emptied lists gone. */
  function FilterLists<K(==)>(freqList: map<nat, seq<K>>, d: set<K>): (r: map<nat, seq<K>>)
    ensures forall f | f in r :: f in freqList && r[f] == Without(freqList[f], d) && r[f] != []
    ensures forall f | f in freqList && Without(freqList[f], d) != [] :: f in r
  {
    map f | f in freqList && Without(freqList[f], d) != [] :: Without(freqList[f], d)
  }

  /** The entries outside `d`. */
  function FilterEntries<K, V>(entries: map<K, Item<V>>, d: set<K>): (r: map<K, Item<V>>)
    ensures forall k | k in r :: k in entries && k !in d && r[k] == entries[k]
    ensures forall k | k in entries && k !in d :: k in r
  {
    map k | k in entries && k !in d :: entries[k]
  }

  /** The cache after `removeEntry` and `delete` of every key of `d`, in whatever order:
      the entries of `d` leave map and lists, and `minFreq` falls back to 1 when the whole
      `minFreq` list went. The log is described separately, by `NotifiedEach`. */
  function SweptBy<K(==), V>(s: State<K, V>, d: set<K>): State<K, V>
  {
    s.(entries := FilterEntries(s.entries, d),
       freqList := FilterLists(s.freqList, d),
       minFreq := if s.minFreq in s.freqList && Without(s.freqList[s.minFreq], d) == [] then 1 else s.minFreq)
  }

  /** A sweep by the expired keys removes exactly them, so every lookup at `now` answers
      as before. */
  lemma SweepKeepsLookups<K, V>(s: State<K, V>, now: nat)
    ensures var r := SweptBy(s, ExpiredKeys(s.entries, now));
            && (forall k | k in r.entries :: !Expired(r.entries[k].expiration, now))
            && (forall k | k in s.entries :: Lookup(r, k, now) == Lookup(s, k, now))
            && r.entries.Keys == s.entries.Keys - ExpiredKeys(s.entries, now)
  {
    var d := ExpiredKeys(s.entries, now);
    var r := SweptBy(s, d);
    forall k | k in s.entries ensures Lookup(r, k, now) == Lookup(s, k, now) {
      if k in d {
        assert k !in r.entries;
      } else {
        assert r.entries[k] == s.entries[k];
      }
    }
  }

  /** Dropping the keys of `d` from the map and from the lists keeps the index. */
  lemma IndexedFilter<K, V>(entries: map<K, Item<V>>, freqList: map<nat, seq<K>>, d: set<K>)
    requires Indexed(entries, freqList)
    ensures Indexed(FilterEntries(entries, d), FilterLists(freqList, d))
  {
    FilterListsHold(freqList, d);
    IndexedSub(entries, freqList, d, FilterEntries(entries, d), FilterLists(freqList, d));
  }

  /** The filtered lists hold exactly the listed keys outside `d`, each once. */
  lemma FilterListsHold<K>(freqList: map<nat, seq<K>>, d: set<K>)
    requires forall f | f in freqList :: NoDup(freqList[f])
    ensures var fl := FilterLists(freqList, d);
            && (forall f | f in fl :: f in freqList && fl[f] != [] && NoDup(fl[f]))
            && (forall f, k | f in fl && k in fl[f] :: f in freqList && k in freqList[f] && k !in d)
            && (forall f, k | f in freqList && k in freqList[f] && k !in d :: f in fl && k in fl[f])
  {
    var fl := FilterLists(freqList, d);
    forall f | f in fl ensures NoDup(fl[f]) {
      WithoutNoDup(freqList[f], d);
    }
    forall f, k | f in freqList && k in freqList[f] && k !in d ensures f in fl && k in fl[f] {
      assert k in Without(freqList[f], d);
    }
  }

  /** The index survives dropping the keys of `d` from map and lists (lists stated only by
      what they hold). */
  lemma IndexedSub<K, V>(entries: map<K, Item<V>>, freqList: map<nat, seq<K>>, d: set<K>,
                         e: map<K, Item<V>>, fl: map<nat, seq<K>>)
    requires Indexed(entries, freqList)
    requires forall k | k in e :: k in entries && k !in d && e[k] == entries[k]
    requires forall k | k in entries && k !in d :: k in e
    requires forall f | f in fl :: f in freqList && fl[f] != [] && NoDup(fl[f])
    requires forall f, k | f in fl && k in fl[f] :: f in freqList && k in freqList[f] && k !in d
    requires forall f, k | f in freqList && k in freqList[f] && k !in d :: f in fl && k in fl[f]
    ensures Indexed(e, fl)
  {
    forall k | k in e
      ensures 1 <= e[k].freq && e[k].freq in fl && k in fl[e[k].freq]
    {
      assert k in freqList[entries[k].freq];
    }
    forall f, k | f in fl && k in fl[f] ensures k in e && e[k].freq == f {
      assert f in freqList;
      assert k !in d;
      ListMemberIsEntry(entries, freqList, f, k);
    }
  }

  lemma ListMemberIsEntry<K, V>(entries: map<K, Item<V>>, freqList: map<nat, seq<K>>, f: nat, k: K)
    requires Indexed(entries, freqList) && f in freqList && k in freqList[f]
    ensures k in entries && entries[k].freq == f
  {
  }

  lemma SweptByKeepsWellFormed<K, V>(s: State<K, V>, d: set<K>)
    requires WellFormed(s)
    ensures WellFormed(SweptBy(s, d))
  {
    var r := SweptBy(s, d);
    IndexedFilter(s.entries, s.freqList, d);
    SubsetCard(r.entries.Keys, s.entries.Keys);
    SweptMinBound(s, d);
    if s.minFreq in s.freqList && Without(s.freqList[s.minFreq], d) == [] {
      SweptMinList(s, d);
    } else if r.entries != map[] && |r.entries| >= r.maxEntries {
      SweptMinKept(s, d);
    }
  }

  /** `minFreq` after a sweep still bounds every remaining count. */
  lemma SweptMinBound<K, V>(s: State<K, V>, d: set<K>)
    requires Indexed(s.entries, s.freqList)
    requires forall k | k in s.entries :: s.minFreq <= s.entries[k].freq
    ensures var r := SweptBy(s, d);
            forall k | k in r.entries :: r.minFreq <= r.entries[k].freq
  {
  }

  /** A `minFreq` list with a key outside `d` survives the sweep. */
  lemma SweptMinKept<K, V>(s: State<K, V>, d: set<K>)
    requires s.minFreq in s.freqList && Without(s.freqList[s.minFreq], d) != []
    ensures SweptBy(s, d).minFreq in SweptBy(s, d).freqList
  {
  }

  /** When the whole `minFreq` list is swept, at least its head leaves the map, so the
      cache is no longer full. */
  lemma SweptMinList<K, V>(s: State<K, V>, d: set<K>)
    requires WellFormed(s) && s.minFreq in s.freqList && Without(s.freqList[s.minFreq], d) == []
    ensures |FilterEntries(s.entries, d)| < |s.entries|
  {
    var h := s.freqList[s.minFreq][0];
    assert h in s.freqList[s.minFreq];
    ListMemberIsEntry(s.entries, s.freqList, s.minFreq, h);
    assert h in d;
    FilterEntriesSmaller(s.entries, d, h);
  }

  /** A map filtered by a set that holds one of its keys is smaller. */
  lemma FilterEntriesSmaller<K, V>(entries: map<K, Item<V>>, d: set<K>, h: K)
    requires h in entries && h in d
    ensures |FilterEntries(entries, d)| < |entries|
  {
    var r := FilterEntries(entries, d);
    assert r.Keys <= entries.Keys - {h};
    SubsetCard(r.Keys, entries.Keys - {h});
  }

  /** Unlinking `k` from the filtered lists is filtering by one more key. */
  lemma FilterListsStep<K, V>(entries: map<K, Item<V>>, freqList: map<nat, seq<K>>, d: set<K>, k: K)
    requires Indexed(entries, freqList) && k in entries && k !in d
    ensures entries[k].freq in FilterLists(freqList, d)
    ensures Unlink(FilterLists(freqList, d), entries[k].freq, k) == FilterLists(freqList, d + {k})
    ensures (entries[k].freq !in FilterLists(freqList, d + {k})) <==> Without(freqList[entries[k].freq], d + {k}) == []
  {
    var f := entries[k].freq;
    assert k in Without(freqList[f], d);
    RemoveFromWithout(freqList[f], d, k);
    forall g | g in freqList && g != f ensures Without(freqList[g], d + {k}) == Without(freqList[g], d) {
      OtherListStep(entries, freqList, d, k, g);
    }
    var p := map g | g in freqList :: Without(freqList[g], d);
    var q := map g | g in freqList :: Without(freqList[g], d + {k});
    UnlinkFiltered(p, q, k, f, FilterLists(freqList, d), FilterLists(freqList, d + {k}));
  }

  /** `Unlink` on the nonempty lists of `p` gives the nonempty lists of `q`, when `q` is
      `p` with `k` removed from the list at `f` only. */
  lemma UnlinkFiltered<K>(p: map<nat, seq<K>>, q: map<nat, seq<K>>, k: K, f: nat,
                          a: map<nat, seq<K>>, b: map<nat, seq<K>>)
    requires f in p && p[f] != [] && p.Keys == q.Keys && q[f] == Remove(p[f], k)
    requires forall g | g in p && g != f :: q[g] == p[g]
    requires forall g | g in a :: g in p && a[g] == p[g] && a[g] != []
    requires forall g | g in p && p[g] != [] :: g in a
    requires forall g | g in b :: g in q && b[g] == q[g] && b[g] != []
    requires forall g | g in q && q[g] != [] :: g in b
    ensures f in a && Unlink(a, f, k) == b
  {
    var u := Unlink(a, f, k);
    forall g ensures g in u <==> g in b {
      if g == f {
        assert a[f] == p[f];
      } else if g in p {
        assert q[g] == p[g];
      } else {
        assert g !in a && g !in b;
      }
    }
    assert u.Keys == b.Keys;
  }

  lemma OtherListStep<K, V>(entries: map<K, Item<V>>, freqList: map<nat, seq<K>>, d: set<K>, k: K, g: nat)
    requires Indexed(entries, freqList) && k in entries && g in freqList && g != entries[k].freq
    ensures Without(freqList[g], d + {k}) == Without(freqList[g], d)
  {
    assert k !in freqList[g];
    WithoutNothing(freqList[g], {k});
    WithoutTwice(freqList[g], d, {k});
  }

  /** Removing one more key `k` from the swept state is sweeping `d + {k}`: the order in
      which the source's map loop meets the expired keys does not matter. */
  lemma SweptByStep<K, V>(s: State<K, V>, d: set<K>, k: K, kind: EventKind)
    requires WellFormed(s) && k in s.entries && k !in d
    ensures k in SweptBy(s, d).entries
    ensures RemoveEntryOp(SweptBy(s, d), k, kind).(log := s.log) == SweptBy(s, d + {k})
  {
    var f := s.entries[k].freq;
    FilterListsStep(s.entries, s.freqList, d, k);
    FilterEntriesStep(s.entries, d, k);
    var a := SweptBy(s, d);
    var fl := Unlink(a.freqList, f, k);
    var m := if f !in fl && f == a.minFreq then 1 else a.minFreq;
    SweptMinStep(s, d, k);
    assert RemoveEntryOp(a, k, kind).(log := s.log)
        == s.(entries := a.entries - {k}, freqList := fl, minFreq := m);
  }

  lemma FilterEntriesStep<K, V>(entries: map<K, Item<V>>, d: set<K>, k: K)
    ensures FilterEntries(entries, d) - {k} == FilterEntries(entries, d + {k})
  {
  }

  /** `minFreq` after one more removal agrees with the sweep by the larger set. */
  lemma SweptMinStep<K, V>(s: State<K, V>, d: set<K>, k: K)
    requires WellFormed(s) && k in s.entries && k !in d
    ensures var f := s.entries[k].freq;
            var a := SweptBy(s, d);
            f in a.freqList &&
            (if f !in Unlink(a.freqList, f, k) && f == a.minFreq then 1 else a.minFreq)
            == SweptBy(s, d + {k}).minFreq
  {
    var f := s.entries[k].freq;
    FilterListsStep(s.entries, s.freqList, d, k);
    if s.minFreq in s.freqList && s.minFreq != f {
      OtherListStep(s.entries, s.freqList, d, k, s.minFreq);
    }
  }

  /** The state `cleanupExpiredEntries` leaves, apart from its notifications. */
  function CleanupOp<K(==), V>(s: State<K, V>, now: nat): (r: State<K, V>)
    requires WellFormed(s)
    ensures WellFormed(r)
    ensures forall k | k in r.entries :: !Expired(r.entries[k].expiration, now)
    ensures forall k | k in s.entries :: Lookup(r, k, now) == Lookup(s, k, now)
    ensures r.entries.Keys == s.entries.Keys - ExpiredKeys(s.entries, now)
  {
    SweptByKeepsWellFormed(s, ExpiredKeys(s.entries, now));
    SweepKeepsLookups(s, now);
    SweptBy(s, ExpiredKeys(s.entries, now))
  }

  /** The values of the entries, as the callback sees them. */
  function Values<K, V>(entries: map<K, Item<V>>): map<K, V>
  {
    map k | k in entries :: entries[k].value
  }

  // ---------------------------------------------------------------------------
  // The cache object

  class Cache<K(==), V> {
    const maxEntries: nat
    var entries: map<K, Item<V>>
    var freqList: map<nat, seq<K>>
    var minFreq: nat
    var cleared: bool
    var onEvicted: Option<Callback>
    var defaultTTL: int
    var log: seq<Event<K, V>>

    function Model(): State<K, V>
      reads this
    {
      State(maxEntries, entries, freqList, minFreq, cleared, onEvicted, defaultTTL, log)
    }

    ghost predicate Valid()
      reads this
    {
      WellFormed(Model())
    }

    /** `New`: empty map and lists, `minFreq` 0, no callback, no default TTL. */
    constructor (maxEntries: nat)
      ensures Valid()
      ensures Model() == State(maxEntries, map[], map[], 0, false, None, 0, [])
    {
      this.maxEntries := maxEntries;
      entries, freqList, minFreq, cleared := map[], map[], 0, false;
      onEvicted, defaultTTL, log := None, 0, [];
    }

    /** `NewWithEvictionFunc`. */
    constructor WithEvictionFunc(maxEntries: nat, f: Callback)
      ensures Valid()
      ensures Model() == State(maxEntries, map[], map[], 0, false, Some(f), 0, [])
    {
      this.maxEntries := maxEntries;
      entries, freqList, minFreq, cleared := map[], map[], 0, false;
      onEvicted, defaultTTL, log := Some(f), 0, [];
    }

    /** `SetEvictedFunc` refuses a second registration and keeps the installed callback. */
    method SetEvictedFunc(f: Option<Callback>) returns (err: bool)
      requires Valid()
      modifies this
      ensures Valid()
      ensures err <==> old(onEvicted).Some?
      ensures Model() == if err then old(Model()) else old(Model()).(onEvicted := f)
    {
      if onEvicted.Some? {
        return true;
      }
      onEvicted := f;
      return false;
    }

    method SetDefaultTTL(ttl: int)
      requires Valid()
      modifies this
      ensures Valid()
      ensures Model() == old(Model()).(defaultTTL := ttl)
    {
      defaultTTL := ttl;
    }

    /** `Set`. After Clear the map is nil and the insert would panic, so a cleared cache
        is excluded. */
    method Set(key: K, value: V, ttl: int, now: nat)
      requires Valid() && !cleared
      modifies this
      ensures Valid()
      ensures Model() == SetOp(old(Model()), key, value, ttl, now)
    {
      ghost var s0 := Model();
      var expiration := CappedExpiration(now, ttl, defaultTTL);
      if key in entries {
        SetExisting(s0, key, value, expiration);
        entries := entries[key := entries[key].(value := value, expiration := expiration)];
        IncrementFrequency(key);
        return;
      }
      if |entries| >= maxEntries {
        SetFull(s0, key, value, expiration);
        Evict();
      } else {
        PushNewKeepsWellFormed(s0, key, value, expiration);
      }
      ghost var s1 := Model();
      entries := entries[key := Item(value, 1, expiration)];
      freqList := Push(freqList, 1, key);
      minFreq := 1;
      assert Model() == PushNew(s1, key, value, expiration);
    }

    /** `Get`: see `GetOp`; the answer is the value of a live entry. */
    method Get(key: K, now: nat) returns (value: Option<V>)
      requires Valid()
      modifies this
      ensures Valid()
      ensures value == Lookup(old(Model()), key, now)
      ensures Model() == GetOp(old(Model()), key, now)
    {
      if key !in entries {
        return None;
      }
      var e := entries[key];
      if e.expiration > 0 && now > e.expiration {
        RemoveEntryKeepsWellFormed(Model(), key, Expiration);
        RemoveEntry(key, Expiration);
        return None;
      }
      IncrementKeepsWellFormed(Model(), key);
      IncrementFrequency(key);
      return Some(e.value);
    }

    /** `incrementFrequency`. */
    method IncrementFrequency(k: K)
      requires k in entries && entries[k].freq in freqList
      modifies this
      ensures Model() == IncrementOp(old(Model()), k)
    {
      var freq := entries[k].freq;
      var l := Remove(freqList[freq], k);
      if l == [] {
        freqList := freqList - {freq};
        if minFreq == freq {
          minFreq := minFreq + 1;
        }
      } else {
        freqList := freqList[freq := l];
      }
      entries := entries[k := entries[k].(freq := freq + 1)];
      if freq + 1 !in freqList {
        freqList := freqList[freq + 1 := []];
      }
      freqList := freqList[freq + 1 := freqList[freq + 1] + [k]];
    }

    /** `evict`, on a full cache (its only caller). */
    method Evict()
      requires Valid() && |entries| >= maxEntries
      modifies this
      ensures Model() == EvictOp(old(Model()))
    {
      EvictLeavesRoom(Model());
      if minFreq !in freqList {
        return;
      }
      EvictFront(Model());
      var oldest := freqList[minFreq][0];
      var l := freqList[minFreq][1..];
      var e := entries[oldest];
      entries := entries - {oldest};
      if l == [] {
        freqList := freqList - {minFreq};
      } else {
        freqList := freqList[minFreq := l];
      }
      if onEvicted.Some? {
        log := log + [Event(oldest, e.value, Eviction)];
      }
    }

    /** `removeEntry` followed by the caller's `delete(c.entries, key)`. */
    method RemoveEntry(k: K, kind: EventKind)
      requires k in entries
      modifies this
      ensures Model() == RemoveEntryOp(old(Model()), k, kind)
    {
      var e := entries[k];
      if e.freq in freqList {
        var l := Remove(freqList[e.freq], k);
        if l == [] {
          freqList := freqList - {e.freq};
          if e.freq == minFreq {
            minFreq := 1;
          }
        } else {
          freqList := freqList[e.freq := l];
        }
        if onEvicted.Some? {
          log := log + [Event(k, e.value, kind)];
        }
      }
      entries := entries - {k};
    }

    /** `Has` reads only and does not count as a use. */
    method Has(key: K, now: nat) returns (b: bool)
      requires Valid()
      ensures b <==> Lookup(Model(), key, now).Some?
    {
      if cleared || key !in entries {
        return false;
      }
      var e := entries[key];
      if e.expiration > 0 && now > e.expiration {
        return false;
      }
      return true;
    }

    /** `Delete` reports whether the key was present. */
    method Delete(key: K) returns (found: bool)
      requires Valid()
      modifies this
      ensures Valid()
      ensures found <==> key in old(entries)
      ensures Model() == DeleteOp(old(Model()), key)
    {
      if key in entries {
        RemoveEntryKeepsWellFormed(Model(), key, EventKind.Delete);
        RemoveEntry(key, EventKind.Delete);
        return true;
      }
      return false;
    }

    /** `Len` counts the map, expired entries not yet swept included. */
    method Len() returns (n: nat)
      requires Valid()
      ensures n == |entries|
    {
      if cleared {
        return 0;
      }
      return |entries|;
    }

    /** `Keys` lists every key of the map once, expired ones included. */
    method Keys() returns (ks: seq<K>)
      requires Valid()
      ensures NoDup(ks)
      ensures forall k :: k in ks <==> k in entries
    {
      ks := AllKeys(entries);
    }

    /** `Clear`: one Clear notification per entry, then map and lists are nil and
        `minFreq` is 0. */
    method Clear()
      requires Valid()
      modifies this
      ensures Valid()
      ensures entries == map[] && freqList == map[] && minFreq == 0 && cleared
      ensures onEvicted == old(onEvicted) && defaultTTL == old(defaultTTL)
      ensures NotifiedEach(old(log), log, onEvicted, old(entries).Keys, Values(old(entries)), EventKind.Clear)
    {
      var l := NotifyEach(log, onEvicted, entries.Keys, Values(entries), EventKind.Clear);
      entries, freqList, minFreq, cleared, log := map[], map[], 0, true, l;
      EmptyWellFormed(Model());
    }

    /** `Close` stops the sweeper and then does what Clear does. Closing twice closes the
        stop channel twice, which panics in the source; channels are not modelled. */
    method Close()
      requires Valid()
      modifies this
      ensures Valid()
      ensures entries == map[] && freqList == map[] && minFreq == 0 && cleared
      ensures onEvicted == old(onEvicted) && defaultTTL == old(defaultTTL)
      ensures NotifiedEach(old(log), log, onEvicted, old(entries).Keys, Values(old(entries)), EventKind.Clear)
    {
      Clear();
    }

    /** `cleanupExpiredEntries`: ranges over the map in an unspecified order and removes
        every expired entry with one Expiration notification each. */
    method CleanupExpiredEntries(now: nat)
      requires Valid()
      modifies this
      ensures Valid()
      ensures Model().(log := old(log)) == CleanupOp(old(Model()), now)
      ensures NotifiedEach(old(log), log, onEvicted, ExpiredKeys(old(entries), now),
                           Values(old(entries)), Expiration)
    {
      ghost var s0 := Model();
      ghost var done: set<K> := {};
      ghost var ks: seq<K> := [];
      var rest := entries.Keys;
      while rest != {}
        invariant done + rest == s0.entries.Keys && done !! rest
        invariant NoDup(ks) && forall j :: j in ks <==> j in done && Expired(s0.entries[j].expiration, now)
        invariant Model() == RemoveAll(s0, ks)
        decreases rest
      {
        var k :| k in rest;
        MoveOne(done, rest, k, s0.entries.Keys);
        ks := SweepKey(k, now, s0, ks, done);
        rest := rest - {k};
        done := done + {k};
      }
      SweepDone(s0, ks, now);
    }

    /** One turn of the cleanup loop: `k`, not met before, is removed if it has expired. */
    method SweepKey(k: K, now: nat, ghost s0: State<K, V>, ghost ks: seq<K>, ghost done: set<K>)
      returns (ghost ks': seq<K>)
      requires WellFormed(s0) && done <= s0.entries.Keys && k in s0.entries && k !in done
      requires NoDup(ks) && forall j :: j in ks <==> j in done && Expired(s0.entries[j].expiration, now)
      requires Model() == RemoveAll(s0, ks)
      modifies this
      ensures NoDup(ks') && forall j :: j in ks' <==> j in done + {k} && Expired(s0.entries[j].expiration, now)
      ensures Model() == RemoveAll(s0, ks')
    {
      assert k !in ks;
      RemoveAllKeepsOthers(s0, ks, k);
      var e := entries[k];
      ks' := ks;
      if e.expiration > 0 && now > e.expiration {
        RemoveEntry(k, Expiration);
        NoDupConcat(ks, [k]);
        assert DropLast(ks + [k]) == ks;
        ks' := ks + [k];
      }
      ExpiredListedStep(ks, done, k, s0.entries, now, ks');
    }
  }

  /** The keys removed so far, after meeting one more key. */
  lemma ExpiredListedStep<K, V>(ks: seq<K>, done: set<K>, k: K, entries: map<K, Item<V>>, now: nat, ks': seq<K>)
    requires done <= entries.Keys && k in entries && k !in done
    requires forall j :: j in ks <==> j in done && Expired(entries[j].expiration, now)
    requires ks' == if Expired(entries[k].expiration, now) then ks + [k] else ks
    ensures forall j :: j in ks' <==> j in done + {k} && Expired(entries[j].expiration, now)
  {
  }

  /** After the loop: the keys removed are exactly the expired ones, so the cache is the
      cleanup's result and the log holds one Expiration notification for each of them. */
  lemma SweepDone<K, V>(s0: State<K, V>, ks: seq<K>, now: nat)
    requires WellFormed(s0) && NoDup(ks)
    requires forall j :: j in ks <==> j in s0.entries.Keys && Expired(s0.entries[j].expiration, now)
    ensures WellFormed(RemoveAll(s0, ks))
    ensures RemoveAll(s0, ks).(log := s0.log) == CleanupOp(s0, now)
    ensures NotifiedEach(s0.log, RemoveAll(s0, ks).log, s0.onEvicted, ExpiredKeys(s0.entries, now),
                         Values(s0.entries), Expiration)
  {
    var gone := ExpiredKeys(s0.entries, now);
    RemoveAllSweeps(s0, ks, gone);
    SweptByKeepsWellFormed(s0, gone);
    ExpiryEventsOnce(ks, gone, s0.entries);
    var log := RemoveAll(s0, ks).log;
    if s0.onEvicted.Some? {
      assert log[..|s0.log|] == s0.log && log[|s0.log|..] == ExpiryEvents(ks, s0.entries);
    }
  }

  /** The keys of `ks`, met in this order, each removed with `removeEntry` if still
      present. */
  function RemoveAll<K(==), V>(s: State<K, V>, ks: seq<K>): State<K, V>
  {
    if ks == [] then s
    else
      var r := RemoveAll(s, DropLast(ks));
      if Last(ks) in r.entries then RemoveEntryOp(r, Last(ks), Expiration) else r
  }

  /** The Expiration notifications for the keys of `ks`, in order. */
  function ExpiryEvents<K, V>(ks: seq<K>, entries: map<K, Item<V>>): seq<Event<K, V>>
    requires forall k | k in ks :: k in entries
  {
    if ks == [] then []
    else ExpiryEvents(DropLast(ks), entries) + [Event(Last(ks), entries[Last(ks)].value, Expiration)]
  }

  /** Removing distinct keys one by one is the order-free sweep by the set of them, with
      one notification per key. */
  lemma {:induction false} RemoveAllSweeps<K, V>(s0: State<K, V>, ks: seq<K>, d: set<K>)
    requires WellFormed(s0) && NoDup(ks)
    requires forall k :: k in ks <==> k in d
    requires d <= s0.entries.Keys
    ensures RemoveAll(s0, ks).(log := s0.log) == SweptBy(s0, d)
    ensures RemoveAll(s0, ks).log
            == if s0.onEvicted.Some? then s0.log + ExpiryEvents(ks, s0.entries) else s0.log
  {
    if ks == [] {
      assert d == {};
      SweptByNothing(s0);
    } else {
      ListedDropLast(ks, d);
      RemoveAllSweeps(s0, DropLast(ks), d - {Last(ks)});
      RemoveAllLast(s0, ks, d);
    }
  }

  /** The inductive step of `RemoveAllSweeps`: removing the last key of `ks` after the
      others. */
  lemma RemoveAllLast<K, V>(s0: State<K, V>, ks: seq<K>, d: set<K>)
    requires WellFormed(s0) && ks != [] && Last(ks) in d && d <= s0.entries.Keys
    requires forall j | j in ks :: j in s0.entries
    requires forall j | j in DropLast(ks) :: j in s0.entries
    requires RemoveAll(s0, DropLast(ks)).(log := s0.log) == SweptBy(s0, d - {Last(ks)})
    requires RemoveAll(s0, DropLast(ks)).log
             == if s0.onEvicted.Some? then s0.log + ExpiryEvents(DropLast(ks), s0.entries) else s0.log
    ensures RemoveAll(s0, ks).(log := s0.log) == SweptBy(s0, d)
    ensures RemoveAll(s0, ks).log
            == if s0.onEvicted.Some? then s0.log + ExpiryEvents(ks, s0.entries) else s0.log
  {
    var p := DropLast(ks);
    var k := Last(ks);
    var r := RemoveAll(s0, p);
    CleanupIter(s0, d - {k}, r, k);
    AddBack(d, k);
    NotifyStep(s0.log, ExpiryEvents(p, s0.entries), r.log, s0.onEvicted, Event(k, s0.entries[k].value, Expiration));
  }

  lemma AddBack<K>(d: set<K>, k: K)
    requires k in d
    ensures d - {k} + {k} == d
  {
  }

  /** Dropping the last key of a duplicate-free listing of `d` lists the rest of `d`. */
  lemma ListedDropLast<K>(ks: seq<K>, d: set<K>)
    requires NoDup(ks) && ks != [] && forall j :: j in ks <==> j in d
    ensures NoDup(DropLast(ks)) && Last(ks) in d && Last(ks) !in DropLast(ks)
    ensures forall j :: j in DropLast(ks) <==> j in d - {Last(ks)}
  {
    assert ks == DropLast(ks) + [Last(ks)];
    NoDupSlice(ks, 0, |ks| - 1);
  }


  /** A key not yet met is still in the cache, unchanged. */
  lemma RemoveAllKeepsOthers<K, V>(s0: State<K, V>, ks: seq<K>, k: K)
    requires WellFormed(s0) && NoDup(ks) && k in s0.entries && k !in ks
    requires forall j | j in ks :: j in s0.entries
    ensures k in RemoveAll(s0, ks).entries && RemoveAll(s0, ks).entries[k] == s0.entries[k]
  {
    var d := set j | j in ks;
    RemoveAllSweeps(s0, ks, d);
  }

  /** The notifications of distinct keys report each of them once. */
  lemma {:induction false} ExpiryEventsOnce<K, V>(ks: seq<K>, d: set<K>, entries: map<K, Item<V>>)
    requires NoDup(ks) && (forall k :: k in ks <==> k in d) && d <= entries.Keys
    ensures OncePerKey(ExpiryEvents(ks, entries), d, Values(entries), Expiration)
  {
    if ks != [] {
      var p := DropLast(ks);
      var k := Last(ks);
      assert ks == p + [k];
      NoDupSlice(ks, 0, |ks| - 1);
      assert k !in p;
      ExpiryEventsOnce(p, d - {k}, entries);
      OncePerKeyExtend(ExpiryEvents(p, entries), d - {k}, Values(entries), Expiration, k);
      assert d - {k} + {k} == d;
    }
  }

  lemma NotifyStep<K, V>(log0: seq<Event<K, V>>, evs: seq<Event<K, V>>, log: seq<Event<K, V>>,
                         onEvicted: Option<Callback>, ev: Event<K, V>)
    requires log == (if onEvicted.Some? then log0 + evs else log0)
    ensures Notify(log, onEvicted, ev) == (if onEvicted.Some? then log0 + (evs + [ev]) else log0)
  {
    assert log0 + evs + [ev] == log0 + (evs + [ev]);
  }

  /** Moving one element from `rest` to `done` keeps them a partition of `all`. */
  lemma MoveOne<K>(done: set<K>, rest: set<K>, k: K, all: set<K>)
    requires done + rest == all && done !! rest && k in rest
    ensures (done + {k}) + (rest - {k}) == all && (done + {k}) !! (rest - {k})
  {
  }

  /** Sweeping no key leaves a well-formed cache as it was. */
  lemma SweptByNothing<K, V>(s: State<K, V>)
    requires WellFormed(s)
    ensures SweptBy(s, {}) == s
  {
    FilterEntriesNothing(s.entries);
    FilterListsNothing(s.freqList);
  }

  lemma FilterEntriesNothing<K, V>(entries: map<K, Item<V>>)
    ensures FilterEntries(entries, {}) == entries
  {
  }

  /** Filtering nonempty lists by no key keeps every one of them. */
  lemma FilterListsNothing<K>(freqList: map<nat, seq<K>>)
    requires forall f | f in freqList :: freqList[f] != []
    ensures FilterLists(freqList, {}) == freqList
  {
    forall f | f in freqList ensures Without(freqList[f], {}) == freqList[f] {
      WithoutNothing(freqList[f], {});
    }
  }


  /** One turn of the cleanup loop: the key met is still in the cache as it was, and
      removing it continues the sweep whatever the log holds so far. */
  lemma CleanupIter<K, V>(s0: State<K, V>, gone: set<K>, m: State<K, V>, k: K)
    requires WellFormed(s0) && k in s0.entries && k !in gone
    requires m.(log := s0.log) == SweptBy(s0, gone)
    ensures k in m.entries && m.entries[k] == s0.entries[k]
    ensures RemoveEntryOp(m, k, Expiration).(log := s0.log) == SweptBy(s0, gone + {k})
    ensures RemoveEntryOp(m, k, Expiration).log == Notify(m.log, m.onEvicted, Event(k, s0.entries[k].value, Expiration))
  {
    SweptByStep(s0, gone, k, Expiration);
    var a := SweptBy(s0, gone);
    assert m == a.(log := m.log);
    ListHasEntry(m, k) by {
      SweptByKeepsWellFormed(s0, gone);
      assert WellFormed(a);
    }
  }

  /** Every entry of a well-formed cache has its list. */
  lemma ListHasEntry<K, V>(s: State<K, V>, k: K)
    requires WellFormed(s) && k in s.entries
    ensures s.entries[k].freq in s.freqList
  {
  }
}
