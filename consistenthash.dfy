/** The consistent-hash ring (internal/consistenthash/consistenthash.go): a slice of
    32-bit points kept in ascending order, the node owning each point and the set of real
    nodes. Each real node contributes `replicas` virtual points, the hashes of the node's
    name followed by the replica index in decimal.

    The hash function is a parameter: `md5Hash` and the conversion of a string to its
    bytes are not modelled, so the hash is taken over the string itself. Reading a point
    that has no owner yields "", Go's zero value for a string. */
module HashRing {
  import opened Lists

  newtype u32 = x: int | 0 <= x < 0x1_0000_0000

  /** `HashFunc`, taken over the string whose bytes Go hashes. */
  type Hash = string -> u32

  predicate Sorted(s: seq<u32>)
  {
    forall i, j | 0 <= i < j < |s| :: s[i] <= s[j]
  }

  /** The decimal digit for `d`. */
  function Digit(d: nat): (c: char)
    requires d < 10
    ensures '0' <= c <= '9' && c as int - '0' as int == d
  {
    ('0' as int + d) as char
  }

  /** `strconv.Itoa` on a non-negative int: its decimal digits, without leading zeros. */
  function Itoa(n: nat): (r: string)
    ensures |r| >= 1
    ensures forall i | 0 <= i < |r| :: '0' <= r[i] <= '9'
    ensures n >= 10 ==> r[0] != '0'
  {
    if n < 10 then [Digit(n)] else Itoa(n / 10) + [Digit(n % 10)]
  }

  /** The value of a string of decimal digits. */
  function Atoi(s: string): nat
  {
    if s == [] then 0
    else
      var d := Last(s) as int - '0' as int;
      Atoi(DropLast(s)) * 10 + (if 0 <= d < 10 then d else 0)
  }

  /** `Itoa` loses nothing: reading its digits back gives the number. Hence distinct
      replica indexes give distinct suffixes. */
  lemma {:induction false} ItoaRoundTrip(n: nat)
    ensures Atoi(Itoa(n)) == n
  {
    if n >= 10 {
      var s := Itoa(n);
      assert DropLast(s) == Itoa(n / 10) && Last(s) == Digit(n % 10);
      ItoaRoundTrip(n / 10);
    }
  }

  lemma ItoaInjective(a: nat, b: nat)
    requires Itoa(a) == Itoa(b)
    ensures a == b
  {
    ItoaRoundTrip(a);
    ItoaRoundTrip(b);
  }

  /** How many times the loop of `AddNode` runs: none when `replicas` is not positive. */
  function Replicas(replicas: int): nat
  {
    if replicas > 0 then replicas else 0
  }

  /** The first `n` virtual points of `node`, in the order `AddNode` appends them. */
  function VirtualPoints(hash: Hash, node: string, n: nat): (r: seq<u32>)
    ensures |r| == n
    ensures forall i | 0 <= i < n :: r[i] == hash(node + Itoa(i))
  {
    if n == 0 then [] else VirtualPoints(hash, node, n - 1) + [hash(node + Itoa(n - 1))]
  }

  /** The owner-map writes of `AddNode`'s loop: each point of `pts` becomes `node`'s,
      whoever owned it before. */
  function Claim(m: map<u32, string>, pts: seq<u32>, node: string): (r: map<u32, string>)
    ensures forall p :: p in r <==> p in m || p in pts
    ensures forall p | p in pts :: r[p] == node
    ensures forall p | p in m && p !in pts :: r[p] == m[p]
  {
    if pts == [] then m
    else
      InDropLast(pts);
      Claim(m, DropLast(pts), node)[Last(pts) := node]
  }

  /** An element of an ascending sequence is not below its first. */
  lemma SortedHeadLe(s: seq<u32>, y: u32)
    requires Sorted(s) && y in s
    ensures s[0] <= y
  {
    var k :| 0 <= k < |s| && s[k] == y;
  }

  /** An ascending sequence stays ascending when a value not below any of its elements
      is appended. */
  lemma SortedAppend(s: seq<u32>, x: u32)
    requires Sorted(s) && forall y | y in s :: y <= x
    ensures Sorted(s + [x])
  {
    forall i, j | 0 <= i < j < |s + [x]| ensures (s + [x])[i] <= (s + [x])[j] {
      assert (s + [x])[i] == s[i] && s[i] in s;
    }
  }

  /** An ascending sequence stays ascending when a value not above any of its elements
      is put in front. */
  lemma SortedPrepend(x: u32, s: seq<u32>)
    requires Sorted(s) && forall y | y in s :: x <= y
    ensures Sorted([x] + s)
  {
    forall i, j | 0 <= i < j < |[x] + s| ensures ([x] + s)[i] <= ([x] + s)[j] {
      assert ([x] + s)[j] == s[j - 1] && s[j - 1] in s;
    }
  }

  /** `x` placed into the sorted `s` before the first element not below it. */
  function InsertSorted(x: u32, s: seq<u32>): (r: seq<u32>)
    requires Sorted(s)
    ensures |r| == |s| + 1
    ensures forall y :: y in r <==> y == x || y in s
    ensures Sorted(r)
    ensures multiset(r) == multiset(s) + multiset{x}
  {
    if s == [] || x <= s[0] then
      assert forall y | y in s :: x <= y by {
        forall y | y in s ensures x <= y {
          SortedHeadLe(s, y);
        }
      }
      SortedPrepend(x, s);
      [x] + s
    else
      var t := InsertSorted(x, s[1..]);
      assert s == [s[0]] + s[1..];
      assert forall y | y in t :: s[0] <= y by {
        forall y | y in t ensures s[0] <= y {
          if y != x {
            SortedHeadLe(s, y);
          }
        }
      }
      SortedPrepend(s[0], t);
      [s[0]] + t
  }

  /** The order `sort.Slice` leaves the points in: ascending. */
  function SortSeq(s: seq<u32>): (r: seq<u32>)
    ensures Sorted(r) && multiset(r) == multiset(s)
  {
    if s == [] then []
    else
      assert s == [s[0]] + s[1..];
      InsertSorted(s[0], SortSeq(s[1..]))
  }

  /** Two ascending arrangements of one multiset start with the same element. */
  lemma SortedSameHead(a: seq<u32>, b: seq<u32>)
    requires Sorted(a) && Sorted(b) && multiset(a) == multiset(b) && a != []
    ensures b != [] && a[0] == b[0]
  {
    assert a[0] in multiset(b);
    assert b != [] && b[0] in multiset(a);
    SortedHeadLe(a, b[0]);
    SortedHeadLe(b, a[0]);
  }

  /** A multiset has one ascending arrangement only, so `sort.Slice` not being stable
      does not matter: any sort of the points gives `SortSeq`'s result. */
  lemma {:induction false} SortedUnique(a: seq<u32>, b: seq<u32>)
    requires Sorted(a) && Sorted(b) && multiset(a) == multiset(b)
    ensures a == b
  {
    if a == [] {
      assert |b| == |multiset(b)| == 0;
    } else {
      SortedSameHead(a, b);
      SortedTail(a);
      SortedTail(b);
      SortedUnique(a[1..], b[1..]);
      assert a == [a[0]] + a[1..] && b == [b[0]] + b[1..];
    }
  }

  lemma SortedTail(a: seq<u32>)
    requires Sorted(a) && a != []
    ensures Sorted(a[1..]) && multiset(a[1..]) == multiset(a) - multiset{a[0]}
  {
    assert a == [a[0]] + a[1..];
  }

  lemma {:induction false} NoDupCount<T>(s: seq<T>, x: T)
    requires NoDup(s)
    ensures multiset(s)[x] <= 1
  {
    if s != [] {
      assert s == [s[0]] + s[1..];
      NoDupSlice(s, 1, |s|);
      NoDupCount(s[1..], x);
      if s[0] == x {
        assert x !in s[1..];
      }
    }
  }

  /** Rearranging a sequence keeps it free of duplicates. */
  lemma NoDupPermutation<T>(a: seq<T>, b: seq<T>)
    requires NoDup(a) && multiset(a) == multiset(b)
    ensures NoDup(b)
  {
    forall i, j | 0 <= i < j < |b| ensures b[i] != b[j] {
      if b[i] == b[j] {
        assert b == b[..j] + b[j..];
        assert b[i] in b[..j] && b[j] in b[j..];
        assert multiset(b)[b[i]] == multiset(b[..j])[b[i]] + multiset(b[j..])[b[i]];
        NoDupCount(a, b[i]);
        assert false;
      }
    }
  }

  /** The fields of `ConsistentHash` except the hash function. */
  datatype Ring = Ring(replicas: int, keys: seq<u32>, nodeMap: map<u32, string>, nodes: set<string>)

  /** `c.nodeMap[p]`: the owner of point `p`, or "" when it has none. */
  function Owner(m: map<u32, string>, p: u32): string
  {
    if p in m then m[p] else ""
  }

  /** Every point of the ring has an owner, and every owner is a member. */
  ghost predicate Owned(s: Ring)
  {
    forall p | p in s.keys :: p in s.nodeMap && s.nodeMap[p] in s.nodes
  }

  /** Every owner entry is for a point on the ring and names a member. `AddNode` only
      records owners for points it also adds, and `RemoveNode` deletes every entry of the
      node it removes, so this holds even when points collide. */
  ghost predicate OwnersListed(s: Ring)
  {
    forall q | q in s.nodeMap :: q in s.keys && s.nodeMap[q] in s.nodes
  }

  /** `AddNode`. A member is left alone. A new node is recorded, its `replicas` points are
      added and claimed for it, and the points are sorted again. Every point keeps its
      owner unless the new node's points include it, and the number of points grows by
      exactly `replicas` (duplicate hashes included). */
  function AddNodeOp(s: Ring, hash: Hash, node: string): (r: Ring)
    ensures node in s.nodes ==> r == s
    ensures node !in s.nodes ==>
      var pts := VirtualPoints(hash, node, Replicas(s.replicas));
      && r.nodes == s.nodes + {node} && r.replicas == s.replicas
      && Sorted(r.keys) && multiset(r.keys) == multiset(s.keys) + multiset(pts)
      && |r.keys| == |s.keys| + Replicas(s.replicas)
      && (forall p :: p in r.nodeMap <==> p in s.nodeMap || p in pts)
      && (forall p | p in pts :: r.nodeMap[p] == node)
      && (forall p | p in s.nodeMap && p !in pts :: r.nodeMap[p] == s.nodeMap[p])
    ensures Sorted(s.keys) ==> Sorted(r.keys)
    ensures Owned(s) ==> Owned(r)
    ensures OwnersListed(s) ==> OwnersListed(r)
  {
    if node in s.nodes then s
    else
      var pts := VirtualPoints(hash, node, Replicas(s.replicas));
      var keys := SortSeq(s.keys + pts);
      assert |keys| == |multiset(keys)| == |s.keys + pts|;
      AddKeepsOwned(s, pts, node, keys);
      AddKeepsListed(s, pts, node, keys);
      s.(nodes := s.nodes + {node}, keys := keys, nodeMap := Claim(s.nodeMap, pts, node))
  }

  /** Adding nodes only, the ring holds `replicas` points per node (duplicate hashes
      included): `GetVirtualNodeCount` is `replicas` times `GetNodeCount`. */
  lemma AddNodeCounts(s: Ring, hash: Hash, node: string)
    requires |s.keys| == Replicas(s.replicas) * |s.nodes|
    ensures var r := AddNodeOp(s, hash, node);
            |r.keys| == Replicas(r.replicas) * |r.nodes|
  {
    if node !in s.nodes {
      var r := AddNodeOp(s, hash, node);
      assert |r.nodes| == |s.nodes| + 1;
      MulSucc(Replicas(s.replicas), |s.nodes|);
    }
  }

  lemma MulSucc(a: nat, b: nat)
    ensures a * (b + 1) == a * b + a
  {
  }

  lemma AddKeepsOwned(s: Ring, pts: seq<u32>, node: string, keys: seq<u32>)
    requires multiset(keys) == multiset(s.keys + pts)
    ensures Owned(s) ==> Owned(s.(nodes := s.nodes + {node}, keys := keys, nodeMap := Claim(s.nodeMap, pts, node)))
  {
    if Owned(s) {
      var m := Claim(s.nodeMap, pts, node);
      forall p | p in keys ensures p in m && m[p] in s.nodes + {node} {
        assert p in multiset(s.keys + pts);
        assert p in s.keys + pts;
      }
    }
  }

  lemma AddKeepsListed(s: Ring, pts: seq<u32>, node: string, keys: seq<u32>)
    requires multiset(keys) == multiset(s.keys + pts)
    ensures OwnersListed(s) ==>
      OwnersListed(s.(nodes := s.nodes + {node}, keys := keys, nodeMap := Claim(s.nodeMap, pts, node)))
  {
    if OwnersListed(s) {
      var m := Claim(s.nodeMap, pts, node);
      forall q | q in m ensures q in keys && m[q] in s.nodes + {node} {
        assert q in s.keys + pts;
        assert q in multiset(s.keys + pts);
      }
    }
  }

  /** The loop of `RemoveNode` over the points `keys`, with `m` the owner map before it:
      a point whose owner at that moment is `node` is dropped and its owner entry deleted,
      any other point is kept, in order. Once a point has been dropped its entry is gone,
      so a later copy of the same point (two virtual points with one hash) has owner ""
      and is kept. */
  function Filter(keys: seq<u32>, m: map<u32, string>, node: string): (r: (seq<u32>, map<u32, string>))
    ensures forall p | p in r.0 :: p in keys
    ensures Sorted(keys) ==> Sorted(r.0)
    ensures NoDup(keys) ==> NoDup(r.0)
    ensures forall p | p in r.1 :: p in m && r.1[p] == m[p]
    ensures forall p | p in m && (m[p] != node || p !in keys) :: p in r.1
    ensures forall p | p in keys && Owner(m, p) != node :: p in r.0
    ensures forall p | p in keys && p in m && m[p] == node :: p !in r.1
  {
    if keys == [] then ([], m)
    else
      var t := Filter(DropLast(keys), m, node);
      var p := Last(keys);
      InDropLast(keys);
      assert NoDup(keys) ==> NoDup(DropLast(keys)) && p !in DropLast(keys) by {
        if NoDup(keys) {
          NoDupSlice(keys, 0, |keys| - 1);
          assert keys[..|keys| - 1] == DropLast(keys);
        }
      }
      assert Sorted(keys) ==> Sorted(DropLast(keys));
      if Owner(t.1, p) != node then
        assert Sorted(keys) ==> Sorted(t.0 + [p]) by {
          if Sorted(keys) {
            forall y | y in t.0 ensures y <= p {
              var k :| 0 <= k < |keys| - 1 && DropLast(keys)[k] == y;
            }
            SortedAppend(t.0, p);
          }
        }
        assert NoDup(keys) ==> NoDup(t.0 + [p]) by {
          if NoDup(keys) {
            NoDupConcat(t.0, [p]);
          }
        }
        (t.0 + [p], t.1)
      else (t.0, t.1 - {p})
  }

  /** Without duplicate points, `RemoveNode`'s loop keeps exactly the points that `node`
      does not own. */
  lemma {:induction false} FilterNoDup(keys: seq<u32>, m: map<u32, string>, node: string)
    ensures NoDup(keys) ==> forall p :: p in Filter(keys, m, node).0 <==> p in keys && Owner(m, p) != node
  {
    if keys != [] && NoDup(keys) {
      InDropLast(keys);
      NoDupSlice(keys, 0, |keys| - 1);
      assert keys[..|keys| - 1] == DropLast(keys);
      FilterNoDup(DropLast(keys), m, node);
      var t := Filter(DropLast(keys), m, node);
      assert Owner(t.1, Last(keys)) == Owner(m, Last(keys));
    }
  }

  /** Two virtual points of `node` with one hash: `RemoveNode` drops the first copy and
      deletes the owner entry, so the second copy stays on the ring with no owner. */
  lemma CollisionSurvives(p: u32, node: string)
    requires node != ""
    ensures Filter([p, p], map[p := node], node) == ([p], map[])
  {
    var m := map[p := node];
    FilterStep([], p, m, node);
    assert [] + [p] == [p] && m - {p} == map[];
    FilterStep([p], p, m, node);
    assert [p] + [p] == [p, p];
  }

  /** One more point through the loop of `RemoveNode`. */
  lemma FilterStep(keys: seq<u32>, x: u32, m: map<u32, string>, node: string)
    ensures Filter(keys + [x], m, node)
            == var t := Filter(keys, m, node);
               if Owner(t.1, x) != node then (t.0 + [x], t.1) else (t.0, t.1 - {x})
  {
    assert DropLast(keys + [x]) == keys && Last(keys + [x]) == x;
  }

  /** `RemoveNode`. A non-member is left alone. A member leaves the node set and the
      points go through the filtering loop: each point whose owner is not `node` is kept
      with its owner, nothing new appears, the order stays ascending and, when the ring has
      no duplicate points, the points left are exactly those `node` did not own. */
  function RemoveNodeOp(s: Ring, node: string): (r: Ring)
    ensures node !in s.nodes ==> r == s
    ensures r.nodes == s.nodes - {node} && r.replicas == s.replicas
    ensures forall p | p in r.keys :: p in s.keys
    ensures forall p | p in s.keys && Owner(s.nodeMap, p) != node ::
      p in r.keys && Owner(r.nodeMap, p) == Owner(s.nodeMap, p)
    ensures Sorted(s.keys) ==> Sorted(r.keys)
    ensures NoDup(s.keys) ==> NoDup(r.keys)
    ensures node in s.nodes && NoDup(s.keys) ==>
      forall p :: p in r.keys <==> p in s.keys && Owner(s.nodeMap, p) != node
    ensures NoDup(s.keys) && Owned(s) ==> Owned(r)
    ensures OwnersListed(s) ==> OwnersListed(r) && forall q | q in r.nodeMap :: r.nodeMap[q] != node
  {
    if node !in s.nodes then s
    else
      var t := Filter(s.keys, s.nodeMap, node);
      FilterNoDup(s.keys, s.nodeMap, node);
      s.(nodes := s.nodes - {node}, keys := t.0, nodeMap := t.1)
  }

  lemma RemoveNodeUnfold(s: Ring, node: string, keys: seq<u32>, m: map<u32, string>)
    requires node in s.nodes && (keys, m) == Filter(s.keys, s.nodeMap, node)
    ensures RemoveNodeOp(s, node) == Ring(s.replicas, keys, m, s.nodes - {node})
  {
  }

  /** Two duplicate-free sequences with the same elements hold the same multiset. */
  lemma NoDupSameMultiset(a: seq<u32>, b: seq<u32>)
    requires NoDup(a) && NoDup(b) && forall p :: p in a <==> p in b
    ensures multiset(a) == multiset(b)
  {
    forall p ensures multiset(a)[p] == multiset(b)[p] {
      NoDupCount(a, p);
      NoDupCount(b, p);
      assert p in a <==> p in multiset(a);
      assert p in b <==> p in multiset(b);
    }
  }

  /** The points `AddNode` gives a node that is not yet a member. */
  function NewPoints(s: Ring, hash: Hash, node: string): seq<u32>
  {
    VirtualPoints(hash, node, Replicas(s.replicas))
  }

  /** The conditions under which removing a node just added restores the ring: its
      points are distinct from each other and from every point and owner entry already
      there, and the ring's points are ascending and owned by members. */
  ghost predicate FreshNode(s: Ring, hash: Hash, node: string)
  {
    && node !in s.nodes && Sorted(s.keys) && Owned(s)
    && NoDup(s.keys + NewPoints(s, hash, node))
    && (forall p | p in NewPoints(s, hash, node) :: p !in s.nodeMap)
    && (forall p | p in s.nodeMap :: s.nodeMap[p] != node)
  }

  /** Adding a fresh node leaves the points duplicate-free; they are the old points and
      the new node's. */
  lemma AddFresh(s: Ring, hash: Hash, node: string)
    requires FreshNode(s, hash, node)
    ensures var r1 := AddNodeOp(s, hash, node);
            && NoDup(r1.keys) && NoDup(s.keys)
            && forall p :: p in r1.keys <==> p in s.keys || p in NewPoints(s, hash, node)
  {
    var pts := NewPoints(s, hash, node);
    var r1 := AddNodeOp(s, hash, node);
    NoDupPermutation(s.keys + pts, r1.keys);
    NoDupSlice(s.keys + pts, 0, |s.keys|);
    assert (s.keys + pts)[0..|s.keys|] == s.keys;
    forall p ensures p in r1.keys <==> p in s.keys || p in pts {
      assert p in multiset(r1.keys) <==> p in multiset(s.keys + pts);
    }
  }

  /** Removing a fresh node just added restores the points. */
  lemma AddRemoveKeys(s: Ring, hash: Hash, node: string)
    requires FreshNode(s, hash, node)
    ensures Filter(AddNodeOp(s, hash, node).keys, AddNodeOp(s, hash, node).nodeMap, node).0 == s.keys
  {
    var pts := NewPoints(s, hash, node);
    var r1 := AddNodeOp(s, hash, node);
    AddFresh(s, hash, node);
    var f := Filter(r1.keys, r1.nodeMap, node);
    FilterNoDup(r1.keys, r1.nodeMap, node);
    forall p ensures p in f.0 <==> p in s.keys {
      if p in s.keys {
        assert p !in pts;
      }
    }
    NoDupSameMultiset(f.0, s.keys);
    SortedUnique(f.0, s.keys);
  }

  /** Removing a fresh node just added restores the owner entries. */
  lemma AddRemoveOwners(s: Ring, hash: Hash, node: string)
    requires FreshNode(s, hash, node)
    ensures Filter(AddNodeOp(s, hash, node).keys, AddNodeOp(s, hash, node).nodeMap, node).1 == s.nodeMap
  {
    var pts := NewPoints(s, hash, node);
    var r1 := AddNodeOp(s, hash, node);
    assert r1.nodeMap == Claim(s.nodeMap, pts, node);
    forall p | p in pts ensures p in r1.keys {
      assert p in multiset(r1.keys);
    }
    FilterClaimed(r1.keys, s.nodeMap, pts, node);
  }

  /** Sweeping `node` out of points it has just claimed, none of which had an owner
      entry before and none of whose other entries are its own, restores the entries. */
  lemma FilterClaimed(keys: seq<u32>, m: map<u32, string>, pts: seq<u32>, node: string)
    requires forall p | p in pts :: p in keys && p !in m
    requires forall p | p in m :: m[p] != node
    ensures Filter(keys, Claim(m, pts, node), node).1 == m
  {
    var c := Claim(m, pts, node);
    var f := Filter(keys, c, node);
    forall p | p in m ensures p in f.1 && f.1[p] == m[p] {
      assert p !in pts;
    }
    forall p | p in pts ensures p !in f.1 {
      assert p in keys && p in c && c[p] == node;
    }
  }

  /** Every owner entry is for a point on the ring and every point has one. */
  ghost predicate Tidy(s: Ring)
  {
    forall p :: p in s.nodeMap <==> p in s.keys
  }

  /** A first node is fresh on an empty ring when its own points are distinct. */
  lemma EmptyFresh(replicas: int, hash: Hash, node: string)
    requires NoDup(VirtualPoints(hash, node, Replicas(replicas)))
    ensures FreshNode(Ring(replicas, [], map[], {}), hash, node)
  {
    var s := Ring(replicas, [], map[], {});
    assert s.keys + NewPoints(s, hash, node) == NewPoints(s, hash, node);
  }

  /** After a fresh node `a` joins, a second node `b` is fresh too when all the points
      are distinct and `b` owns nothing yet. */
  lemma FreshAfter(s: Ring, hash: Hash, a: string, b: string)
    requires FreshNode(s, hash, a) && a != b && b !in s.nodes
    requires NoDup(s.keys + NewPoints(s, hash, a) + NewPoints(s, hash, b))
    requires forall p | p in NewPoints(s, hash, b) :: p !in s.nodeMap
    requires forall p | p in s.nodeMap :: s.nodeMap[p] != b
    ensures FreshNode(AddNodeOp(s, hash, a), hash, b)
  {
    var pa, pb := NewPoints(s, hash, a), NewPoints(s, hash, b);
    var r1 := AddNodeOp(s, hash, a);
    assert NewPoints(r1, hash, b) == pb;
    assert multiset(r1.keys + pb) == multiset(s.keys + pa + pb);
    NoDupPermutation(s.keys + pa + pb, r1.keys + pb);
    NoDupDisjoint(s.keys + pa, pb);
  }

  /** The two parts of a duplicate-free concatenation share no element. */
  lemma NoDupDisjoint<T>(x: seq<T>, y: seq<T>)
    requires NoDup(x + y)
    ensures forall p | p in y :: p !in x
  {
    forall i, j | 0 <= i < |y| && 0 <= j < |x| ensures x[j] != y[i] {
      assert (x + y)[j] == x[j] && (x + y)[|x| + i] == y[i];
    }
  }

  /** A fresh node adds exactly its `replicas` points, each with one owner entry. */
  lemma FreshCounts(s: Ring, hash: Hash, node: string)
    requires FreshNode(s, hash, node) && Tidy(s)
    ensures var r1 := AddNodeOp(s, hash, node);
            && Tidy(r1)
            && |r1.keys| == |s.keys| + Replicas(s.replicas) && |r1.nodeMap| == |r1.keys|
  {
    var r1 := AddNodeOp(s, hash, node);
    AddFresh(s, hash, node);
    NoDupCard(r1.keys, r1.nodeMap.Keys);
  }

  /** Two nodes whose points all hash apart join `New(replicas, hash)` as fresh nodes. */
  lemma TwoFresh(replicas: int, hash: Hash, a: string, b: string)
    requires a != b
    requires NoDup(VirtualPoints(hash, a, Replicas(replicas)) + VirtualPoints(hash, b, Replicas(replicas)))
    ensures NoDup(VirtualPoints(hash, a, Replicas(replicas)))
    ensures FreshNode(Ring(replicas, [], map[], {}), hash, a) && Tidy(Ring(replicas, [], map[], {}))
    ensures FreshNode(AddNodeOp(Ring(replicas, [], map[], {}), hash, a), hash, b)
  {
    var s0 := Ring(replicas, [], map[], {});
    var pa, pb := NewPoints(s0, hash, a), NewPoints(s0, hash, b);
    assert s0.keys + pa + pb == pa + pb;
    NoDupSlice(pa + pb, 0, |pa|);
    assert (pa + pb)[0..|pa|] == pa;
    EmptyFresh(replicas, hash, a);
    FreshAfter(s0, hash, a, b);
  }

  /** `New(replicas, hash)`, then `AddNode(a)` for a node whose points hash apart:
      `replicas` points, each with an owner entry. */
  lemma OneNodeRing(replicas: int, hash: Hash, a: string)
    requires NoDup(VirtualPoints(hash, a, Replicas(replicas)))
    ensures var s1 := AddNodeOp(Ring(replicas, [], map[], {}), hash, a);
            && s1.nodes == {a} && |s1.keys| == |s1.nodeMap| == Replicas(replicas) && Tidy(s1)
  {
    EmptyFresh(replicas, hash, a);
    FreshCounts(Ring(replicas, [], map[], {}), hash, a);
  }

  /** Then `AddNode(b)` for a second node whose points hash apart from those of `a`:
      `replicas` points and owner entries per node. */
  lemma TwoNodeRing(replicas: int, hash: Hash, a: string, b: string)
    requires a != b
    requires NoDup(VirtualPoints(hash, a, Replicas(replicas)) + VirtualPoints(hash, b, Replicas(replicas)))
    ensures var s2 := AddNodeOp(AddNodeOp(Ring(replicas, [], map[], {}), hash, a), hash, b);
            s2.nodes == {a, b} && |s2.keys| == |s2.nodeMap| == 2 * Replicas(replicas)
  {
    var s1 := AddNodeOp(Ring(replicas, [], map[], {}), hash, a);
    TwoFresh(replicas, hash, a, b);
    OneNodeRing(replicas, hash, a);
    SecondNode(s1, hash, b);
  }

  /** A fresh node joining a ring holding `replicas` points with one owner entry each. */
  lemma SecondNode(s1: Ring, hash: Hash, b: string)
    requires FreshNode(s1, hash, b) && Tidy(s1) && |s1.keys| == |s1.nodeMap| == Replicas(s1.replicas)
    ensures var s2 := AddNodeOp(s1, hash, b);
            s2.nodes == s1.nodes + {b} && |s2.keys| == |s2.nodeMap| == 2 * Replicas(s1.replicas)
  {
    FreshCounts(s1, hash, b);
  }

  /** Removing the only node empties the ring again: `IsEmpty` holds and `GetNode` has
      nothing to return. */
  lemma OneNodeRemove(replicas: int, hash: Hash, a: string)
    requires NoDup(VirtualPoints(hash, a, Replicas(replicas)))
    ensures RemoveNodeOp(AddNodeOp(Ring(replicas, [], map[], {}), hash, a), a) == Ring(replicas, [], map[], {})
  {
    EmptyFresh(replicas, hash, a);
    AddRemoveRoundTrip(Ring(replicas, [], map[], {}), hash, a);
  }

  /** On that ring `RemoveNode(b)` gives back the ring with `a` alone. */
  lemma TwoNodeRemove(replicas: int, hash: Hash, a: string, b: string)
    requires a != b
    requires NoDup(VirtualPoints(hash, a, Replicas(replicas)) + VirtualPoints(hash, b, Replicas(replicas)))
    ensures var s1 := AddNodeOp(Ring(replicas, [], map[], {}), hash, a);
            RemoveNodeOp(AddNodeOp(s1, hash, b), b) == s1
  {
    TwoFresh(replicas, hash, a, b);
    AddRemoveRoundTrip(AddNodeOp(Ring(replicas, [], map[], {}), hash, a), hash, b);
  }

  /** `RemoveNode` undoes `AddNode` of a fresh node. */
  lemma AddRemoveRoundTrip(s: Ring, hash: Hash, node: string)
    requires FreshNode(s, hash, node)
    ensures RemoveNodeOp(AddNodeOp(s, hash, node), node) == s
  {
    var r1 := AddNodeOp(s, hash, node);
    var f := Filter(r1.keys, r1.nodeMap, node);
    AddRemoveKeys(s, hash, node);
    AddRemoveOwners(s, hash, node);
    RemoveNodeUnfold(r1, node, f.0, f.1);
  }

  /** The index `sort.Search` returns for the predicate `keys[i] >= h`: the first point
      at or above `h`, or the length when there is none. */
  function FirstAtLeast(keys: seq<u32>, h: u32): (i: nat)
    ensures i <= |keys|
    ensures forall j | 0 <= j < i :: keys[j] < h
    ensures i < |keys| ==> keys[i] >= h
  {
    if keys == [] then 0
    else if keys[0] >= h then 0
    else 1 + FirstAtLeast(keys[1..], h)
  }

  /** The point `GetNode` settles on, wrapping to the first point when none is at or
      above `h`: on an ascending ring, the least point at or above `h` if there is one,
      else the least point of all. */
  function Successor(keys: seq<u32>, h: u32): (q: u32)
    requires keys != [] && Sorted(keys)
    ensures q in keys
    ensures (exists j | 0 <= j < |keys| :: keys[j] >= h) ==>
      q >= h && forall j | 0 <= j < |keys| && keys[j] >= h :: q <= keys[j]
    ensures (forall j | 0 <= j < |keys| :: keys[j] < h) ==> forall j | 0 <= j < |keys| :: q <= keys[j]
  {
    var i := FirstAtLeast(keys, h);
    if i == |keys| then keys[0] else keys[i]
  }

  /** The point `GetNode` settles on depends only on which points are on the ring: a
      ring holding a subset of the points and the same successor point has that point as
      its successor too. */
  lemma SuccessorOfSubset(keys: seq<u32>, sub: seq<u32>, h: u32)
    requires keys != [] && Sorted(keys) && Sorted(sub)
    requires forall p | p in sub :: p in keys
    requires Successor(keys, h) in sub
    ensures Successor(sub, h) == Successor(keys, h)
  {
    var q := Successor(keys, h);
    var q' := Successor(sub, h);
    assert q' in keys;
    var i :| 0 <= i < |sub| && sub[i] == q;
    var i' :| 0 <= i' < |keys| && keys[i'] == q';
    if exists j | 0 <= j < |keys| :: keys[j] >= h {
      assert q >= h;
      assert q' >= h && q' <= sub[i];
    } else {
      assert q' <= sub[i];
    }
  }

  /** `GetNode` for a key hashing to `h`: "" on an empty ring, else the owner of the
      successor point. When every owner entry names a member, any non-empty answer is a
      member, collisions or not; when every point is owned by a member, a non-empty ring
      answers with a member. */
  function Lookup(s: Ring, h: u32): (n: string)
    requires Sorted(s.keys)
    ensures s.keys == [] ==> n == ""
    ensures OwnersListed(s) && n != "" ==> n in s.nodes
    ensures s.keys != [] && Owned(s) ==> n in s.nodes
  {
    if s.keys == [] then "" else Owner(s.nodeMap, Successor(s.keys, h))
  }

  /** Minimal remapping: removing `node` moves only the keys `node` served. Every other
      key keeps its node, because its successor point survives with its owner and no point
      appears. */
  lemma MinimalRemapping(s: Ring, node: string, h: u32)
    requires Sorted(s.keys)
    requires Lookup(s, h) != node
    ensures Lookup(RemoveNodeOp(s, node), h) == Lookup(s, h)
  {
    var r := RemoveNodeOp(s, node);
    if s.keys != [] {
      var q := Successor(s.keys, h);
      assert q in r.keys;
      SuccessorOfSubset(s.keys, r.keys, h);
    }
  }

  /** The first point at or above `h` is the only index with no such point before it
      and such a point (or the end) at it. */
  lemma {:induction false} FirstAtLeastUnique(keys: seq<u32>, h: u32, i: nat)
    requires i <= |keys|
    requires forall j | 0 <= j < i :: keys[j] < h
    requires i < |keys| ==> keys[i] >= h
    ensures i == FirstAtLeast(keys, h)
  {
    if keys != [] && keys[0] < h {
      FirstAtLeastUnique(keys[1..], h, i - 1);
    }
  }

  /** `sort.Search(len(keys), func(i) bool { return keys[i] >= h })`: binary search for
      the first point at or above `h`. */
  method Search(keys: seq<u32>, h: u32) returns (i: nat)
    requires Sorted(keys)
    ensures i == FirstAtLeast(keys, h)
  {
    var lo, hi := 0, |keys|;
    while lo < hi
      invariant 0 <= lo <= hi <= |keys|
      invariant forall j | 0 <= j < lo :: keys[j] < h
      invariant forall j | hi <= j < |keys| :: keys[j] >= h
    {
      var mid := (lo + hi) / 2;
      if keys[mid] < h {
        lo := mid + 1;
      } else {
        hi := mid;
      }
    }
    FirstAtLeastUnique(keys, h, lo);
    return lo;
  }

  /** How many owner entries each node has: what `GetNodeStats` counts. */
  function Count(m: map<u32, string>, n: string): nat
  {
    |set p | p in m && m[p] == n|
  }

  function Stats(m: map<u32, string>): (r: map<string, nat>)
    ensures forall n :: n in r <==> n in m.Values
  {
    map n | n in m.Values :: Count(m, n)
  }

  lemma CountStep(m: map<u32, string>, p: u32, n: string, x: string)
    requires p !in m
    ensures Count(m[p := n], x) == Count(m, x) + (if x == n then 1 else 0)
  {
    var m' := m[p := n];
    var after, before := set q | q in m' && m'[q] == x, set q | q in m && m[q] == x;
    assert p !in before;
    if x == n {
      assert after == before + {p};
    } else {
      assert after == before;
    }
  }

  /** One more owner entry adds one to its node's count and changes no other count. */
  lemma StatsStep(m: map<u32, string>, p: u32, n: string)
    requires p !in m
    ensures Stats(m[p := n]) == Stats(m)[n := (if n in Stats(m) then Stats(m)[n] else 0) + 1]
  {
    var m' := m[p := n];
    forall v | v in m.Values ensures v in m'.Values {
      var q :| q in m && m[q] == v;
      assert q in m' && m'[q] == v;
    }
    forall v | v in m'.Values ensures v in m.Values + {n} {
      var q :| q in m' && m'[q] == v;
      if q != p {
        assert q in m && m[q] == v;
      }
    }
    assert p in m' && m'[p] == n;
    assert m'.Values == m.Values + {n};
    if n !in m.Values {
      assert (set q | q in m && m[q] == n) == {};
    }
    forall x | x in m'.Values
      ensures Stats(m')[x] == Stats(m)[n := (if n in Stats(m) then Stats(m)[n] else 0) + 1][x]
    {
      CountStep(m, p, n, x);
    }
  }

  /** `ConsistentHash`. The mutex is not modelled. */
  class ConsistentHash {
    const hashFunc: Hash
    const replicas: int
    var keys: seq<u32>
    var nodeMap: map<u32, string>
    var nodes: set<string>

    function Model(): Ring
      reads this
    {
      Ring(replicas, keys, nodeMap, nodes)
    }

    ghost predicate Valid()
      reads this
    {
      Sorted(keys) && OwnersListed(Model())
    }

    /** `New` with a hash function: no points and no nodes. */
    constructor (replicas: int, hashFunc: Hash)
      ensures Valid()
      ensures Model() == Ring(replicas, [], map[], {}) && this.hashFunc == hashFunc
    {
      this.hashFunc, this.replicas := hashFunc, replicas;
      keys, nodeMap, nodes := [], map[], {};
    }

    method AddNode(node: string)
      requires Valid()
      modifies this
      ensures Valid()
      ensures Model() == AddNodeOp(old(Model()), hashFunc, node)
    {
      if node in nodes {
        return;
      }
      var ks, m := Place(keys, nodeMap, hashFunc, replicas, node);
      ghost var r := AddNodeOp(Model(), hashFunc, node);
      assert r == Ring(replicas, SortSeq(ks), m, nodes + {node});
      nodes, keys, nodeMap := nodes + {node}, SortSeq(ks), m;
    }

    /** The loop of `AddNode`: appends the hash of `node` followed by each replica index
        and records `node` as the owner of each such point. */
    static method Place(keys: seq<u32>, nodeMap: map<u32, string>, hash: Hash, replicas: int, node: string)
      returns (ks: seq<u32>, m: map<u32, string>)
      ensures ks == keys + VirtualPoints(hash, node, Replicas(replicas))
      ensures m == Claim(nodeMap, VirtualPoints(hash, node, Replicas(replicas)), node)
    {
      ks, m := keys, nodeMap;
      var i := 0;
      while i < replicas
        invariant 0 <= i <= Replicas(replicas)
        invariant ks == keys + VirtualPoints(hash, node, i)
        invariant m == Claim(nodeMap, VirtualPoints(hash, node, i), node)
      {
        var h := hash(node + Itoa(i));
        assert DropLast(VirtualPoints(hash, node, i + 1)) == VirtualPoints(hash, node, i);
        ks := ks + [h];
        m := m[h := node];
        i := i + 1;
      }
    }

    method RemoveNode(node: string)
      requires Valid()
      modifies this
      ensures Valid()
      ensures Model() == RemoveNodeOp(old(Model()), node)
    {
      if node !in nodes {
        return;
      }
      var newKeys, m := Sweep(keys, nodeMap, node);
      RemoveNodeUnfold(Model(), node, newKeys, m);
      nodes, keys, nodeMap := nodes - {node}, newKeys, m;
    }

    /** The loop of `RemoveNode`: walks the points in order, dropping each one `node`
        owns at that moment together with its owner entry. */
    static method Sweep(keys: seq<u32>, nodeMap: map<u32, string>, node: string)
      returns (newKeys: seq<u32>, m: map<u32, string>)
      ensures (newKeys, m) == Filter(keys, nodeMap, node)
    {
      newKeys, m := [], nodeMap;
      var i := 0;
      while i < |keys|
        invariant i <= |keys|
        invariant (newKeys, m) == Filter(keys[..i], nodeMap, node)
      {
        var key := keys[i];
        assert keys[..i + 1] == keys[..i] + [key];
        FilterStep(keys[..i], key, nodeMap, node);
        if Owner(m, key) != node {
          newKeys := newKeys + [key];
        } else {
          m := m - {key};
        }
        i := i + 1;
      }
      assert keys[..i] == keys;
    }

    method GetNode(key: string) returns (node: string)
      requires Valid()
      ensures node == Lookup(Model(), hashFunc(key))
      ensures node != "" ==> node in nodes
    {
      if |keys| == 0 {
        return "";
      }
      var hash := hashFunc(key);
      var idx := Search(keys, hash);
      if idx == |keys| {
        idx := 0;
      }
      return Owner(nodeMap, keys[idx]);
    }

    /** `GetNodes`: every member once, in the map's iteration order. */
    method GetNodes() returns (ns: seq<string>)
      ensures forall n :: n in ns <==> n in nodes
      ensures NoDup(ns) && |ns| == |nodes|
    {
      ns := [];
      var rest := nodes;
      while rest != {}
        invariant rest <= nodes
        invariant forall n :: n in ns <==> n in nodes && n !in rest
        invariant NoDup(ns)
        decreases |rest|
      {
        var n :| n in rest;
        NoDupConcat(ns, [n]);
        ns := ns + [n];
        rest := rest - {n};
      }
      NoDupCard(ns, nodes);
    }

    method GetNodeCount() returns (n: nat)
      ensures n == |nodes|
    {
      return |nodes|;
    }

    method GetVirtualNodeCount() returns (n: nat)
      ensures n == |keys|
    {
      return |keys|;
    }

    method IsEmpty() returns (b: bool)
      ensures b <==> nodes == {}
    {
      return |nodes| == 0;
    }

    /** `GetNodeStats`: for each node with owner entries, how many it has, counted over
        the map in its iteration order. */
    method GetNodeStats() returns (stats: map<string, nat>)
      ensures stats == Stats(nodeMap)
    {
      stats := map[];
      var done: map<u32, string> := map[];
      var rest := nodeMap.Keys;
      while rest != {}
        invariant rest <= nodeMap.Keys
        invariant forall p :: p in done <==> p in nodeMap && p !in rest
        invariant forall p | p in done :: done[p] == nodeMap[p]
        invariant stats == Stats(done)
        decreases |rest|
      {
        var p :| p in rest;
        var n := nodeMap[p];
        StatsStep(done, p, n);
        stats := stats[n := (if n in stats then stats[n] else 0) + 1];
        done := done[p := n];
        rest := rest - {p};
      }
      assert done == nodeMap;
    }
  }
}
