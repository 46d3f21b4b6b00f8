/** Sequences standing for Go's container/list lists and slices: front of the list at
    index 0, back at the last index. */
module Lists {

  ghost predicate NoDup<T>(s: seq<T>)
  {
    forall i, j | 0 <= i < j < |s| :: s[i] != s[j]
  }

  function Last<T>(s: seq<T>): T
    requires s != []
  {
    s[|s| - 1]
  }

  function DropLast<T>(s: seq<T>): seq<T>
    requires s != []
  {
    s[..|s| - 1]
  }

  /** A non-empty sequence's elements are those of its front part and its last one. */
  lemma InDropLast<T>(s: seq<T>)
    requires s != []
    ensures forall x :: x in s <==> x in DropLast(s) || x == Last(s)
  {
    assert s == DropLast(s) + [Last(s)];
  }

  /** `l.Remove(e)` for the element holding `x`: unlinks the first occurrence of `x` and,
      as container/list does for an element of another list, leaves `s` alone when `x`
      is not on it. */
  function Remove<T(==)>(s: seq<T>, x: T): (r: seq<T>)
    ensures x !in s ==> r == s
    ensures x in s ==> |r| == |s| - 1
    ensures forall y | y in r :: y in s
  {
    if s == [] then []
    else if s[0] == x then s[1..]
    else [s[0]] + Remove(s[1..], x)
  }

  /** Removing an element that occurs once, at a known place, closes the gap. */
  lemma {:induction false} RemoveSplit<T>(pre: seq<T>, x: T, suf: seq<T>)
    requires x !in pre
    ensures Remove(pre + [x] + suf, x) == pre + suf
  {
    if pre == [] {
      assert pre + [x] + suf == [x] + suf;
    } else {
      assert (pre + [x] + suf)[1..] == pre[1..] + [x] + suf;
      RemoveSplit(pre[1..], x, suf);
      assert pre == [pre[0]] + pre[1..];
    }
  }

  lemma RemoveAt<T>(s: seq<T>, i: nat)
    requires NoDup(s) && i < |s|
    ensures Remove(s, s[i]) == s[..i] + s[i + 1..]
  {
    assert s == s[..i] + [s[i]] + s[i + 1..];
    RemoveSplit(s[..i], s[i], s[i + 1..]);
  }

  /** On a list without duplicates, Remove drops exactly `x` and keeps the rest distinct. */
  lemma RemoveNoDup<T>(s: seq<T>, x: T)
    requires NoDup(s)
    ensures NoDup(Remove(s, x))
    ensures forall y | y in s && y != x :: y in Remove(s, x)
    ensures x !in Remove(s, x)
  {
    if x in s {
      var i :| 0 <= i < |s| && s[i] == x;
      RemoveAt(s, i);
      var r := s[..i] + s[i + 1..];
      assert forall a | 0 <= a < |r| :: r[a] == s[if a < i then a else a + 1];
      forall y | y in s && y != x ensures y in r {
        var j :| 0 <= j < |s| && s[j] == y;
        assert r[if j < i then j else j - 1] == y;
      }
    }
  }

  /** `s` with every element of `d` dropped, order kept. */
  function Without<T(==)>(s: seq<T>, d: set<T>): (r: seq<T>)
    ensures forall y | y in r :: y in s && y !in d
    ensures forall y | y in s && y !in d :: y in r
    ensures |r| <= |s|
  {
    if s == [] then []
    else (if s[0] in d then [] else [s[0]]) + Without(s[1..], d)
  }

  lemma {:induction false} WithoutNoDup<T>(s: seq<T>, d: set<T>)
    requires NoDup(s)
    ensures NoDup(Without(s, d))
  {
    if s != [] {
      WithoutNoDup(s[1..], d);
      var w := Without(s[1..], d);
      assert s[0] !in s[1..];
      assert s[0] !in w;
    }
  }

  lemma {:induction false} WithoutAppend<T>(a: seq<T>, b: seq<T>, d: set<T>)
    ensures Without(a + b, d) == Without(a, d) + Without(b, d)
  {
    if a == [] {
      assert a + b == b;
    } else {
      assert (a + b)[1..] == a[1..] + b;
      WithoutAppend(a[1..], b, d);
    }
  }

  /** Filtering a prefix one element longer. */
  lemma WithoutPrefixStep<T>(s: seq<T>, i: nat, d: set<T>)
    requires i < |s|
    ensures Without(s[..i + 1], d) == Without(s[..i], d) + (if s[i] in d then [] else [s[i]])
  {
    assert s[..i + 1] == s[..i] + [s[i]];
    WithoutAppend(s[..i], [s[i]], d);
    assert Without([s[i]], d) == (if s[i] in d then [] else [s[i]]) + Without([], d);
  }

  /** Dropping nothing that occurs in `s` leaves it as it was. */
  lemma {:induction false} WithoutNothing<T>(s: seq<T>, d: set<T>)
    requires forall y | y in s :: y !in d
    ensures Without(s, d) == s
  {
    if s != [] {
      WithoutNothing(s[1..], d);
      assert s == [s[0]] + s[1..];
    }
  }

  /** Sweeping one more element of a duplicate-free list out of a filtered list is the same
      as filtering by the larger set. */
  lemma {:induction false} RemoveFromWithout<T>(s: seq<T>, d: set<T>, x: T)
    requires NoDup(s) && x in s && x !in d
    ensures Remove(Without(s, d), x) == Without(s, d + {x})
  {
    assert NoDup(s[1..]) by {
      forall a, b | 0 <= a < b < |s[1..]| ensures s[1..][a] != s[1..][b] {
        assert s[1..][a] == s[a + 1] && s[1..][b] == s[b + 1];
      }
    }
    if s[0] == x {
      assert x !in s[1..];
      WithoutNothing(s[1..], {x});
      WithoutTwice(s[1..], d, {x});
    } else {
      RemoveFromWithout(s[1..], d, x);
      var w1 := Without(s[1..], d);
      if s[0] !in d {
        var w := [s[0]] + w1;
        assert Without(s, d) == w;
        assert w[0] == s[0] && w[1..] == w1;
        assert Remove(w, x) == [s[0]] + Remove(w1, x);
        assert Without(s, d + {x}) == [s[0]] + Without(s[1..], d + {x});
      } else {
        assert Without(s, d) == w1;
        assert Without(s, d + {x}) == Without(s[1..], d + {x});
      }
    }
  }

  /** The elements of a sequence, as a set. */
  function Elems<T>(s: seq<T>): set<T>
  {
    set x | x in s
  }

  /** On a duplicate-free list, removing any `x` from the filtered list is filtering by one
      more element: a no-op when `x` was already filtered out or never on the list. */
  lemma RemoveWithoutAny<T>(s: seq<T>, d: set<T>, x: T)
    requires NoDup(s)
    ensures Remove(Without(s, d), x) == Without(s, d + {x})
  {
    if x in d {
      assert d + {x} == d;
    } else if x !in s {
      WithoutNothing(s, {x});
      WithoutTwice(s, d, {x});
    } else {
      RemoveFromWithout(s, d, x);
    }
  }

  /** Removing the elements of `ids` one at a time, the last one after all the others. */
  lemma RemoveWithoutStep<T>(s: seq<T>, ids: seq<T>)
    requires NoDup(s) && ids != []
    ensures Remove(Without(s, Elems(DropLast(ids))), Last(ids)) == Without(s, Elems(ids))
  {
    InDropLast(ids);
    assert Elems(ids) == Elems(DropLast(ids)) + {Last(ids)};
    RemoveWithoutAny(s, Elems(DropLast(ids)), Last(ids));
  }

  lemma {:induction false} WithoutTwice<T>(s: seq<T>, d: set<T>, e: set<T>)
    ensures Without(s, d + e) == Without(Without(s, e), d)
  {
    if s != [] {
      WithoutTwice(s[1..], d, e);
      var w1 := Without(s[1..], e);
      if s[0] in e {
        assert Without(s, e) == w1;
      } else {
        var w := [s[0]] + w1;
        assert Without(s, e) == w;
        assert w[0] == s[0] && w[1..] == w1;
        assert Without(w, d) == (if s[0] in d then [] else [s[0]]) + Without(w1, d);
      }
    }
  }

  /** A backward filtering walk that drops the element at `i - 1`. */
  lemma RemoveSweptStep<T>(l: seq<T>, i: nat, d: set<T>)
    requires 0 < i <= |l| && l[i - 1] in d && l[i - 1] !in l[..i - 1]
    ensures Remove(l[..i] + Without(l[i..], d), l[i - 1]) == l[..i - 1] + Without(l[i - 1..], d)
  {
    var x, pre, w := l[i - 1], l[..i - 1], Without(l[i..], d);
    WithoutSuffixStep(l, i, d);
    assert Without(l[i - 1..], d) == [] + w == w;
    assert l[..i] == pre + [x];
    RemoveSplit(pre, x, w);
  }

  /** A backward filtering walk that keeps the element at `i - 1`. */
  lemma KeepSweptStep<T>(l: seq<T>, i: nat, d: set<T>)
    requires 0 < i <= |l| && l[i - 1] !in d
    ensures l[..i] + Without(l[i..], d) == l[..i - 1] + Without(l[i - 1..], d)
  {
    WithoutSuffixStep(l, i, d);
    assert l[..i] == l[..i - 1] + [l[i - 1]];
    ConcatAssoc(l[..i - 1], [l[i - 1]], Without(l[i..], d));
  }

  /** A prefix one element longer ends in that element. */
  lemma PrefixStep<T>(s: seq<T>, i: nat)
    requires i < |s|
    ensures s[..i + 1] != [] && DropLast(s[..i + 1]) == s[..i] && Last(s[..i + 1]) == s[i]
  {
  }

  lemma ConcatAssoc<T>(a: seq<T>, b: seq<T>, c: seq<T>)
    ensures a + b + c == a + (b + c)
  {
  }

  /** The elements at and after `i`, filtered, grow by one step when `i` moves back. */
  lemma WithoutSuffixStep<T>(s: seq<T>, i: nat, d: set<T>)
    requires 0 < i <= |s|
    ensures Without(s[i - 1..], d) == (if s[i - 1] in d then [] else [s[i - 1]]) + Without(s[i..], d)
  {
    assert s[i - 1..][1..] == s[i..];
  }

  lemma NoDupSlice<T>(s: seq<T>, i: nat, j: nat)
    requires NoDup(s) && i <= j <= |s|
    ensures NoDup(s[i..j])
  {
    forall a, b | 0 <= a < b < j - i ensures s[i..j][a] != s[i..j][b] {
      assert s[i..j][a] == s[i + a] && s[i..j][b] == s[i + b];
    }
  }

  /** Two duplicate-free lists with no element in common concatenate to one. */
  lemma NoDupConcat<T>(a: seq<T>, b: seq<T>)
    requires NoDup(a) && NoDup(b)
    requires forall y | y in a :: y !in b
    ensures NoDup(a + b)
  {
    forall i, j | 0 <= i < j < |a + b| ensures (a + b)[i] != (a + b)[j] {
      if j < |a| {
        assert (a + b)[i] == a[i] && (a + b)[j] == a[j];
      } else if i < |a| {
        assert (a + b)[i] == a[i] && (a + b)[j] == b[j - |a|];
        assert a[i] in a;
      } else {
        assert (a + b)[i] == b[i - |a|] && (a + b)[j] == b[j - |a|];
      }
    }
  }

  /** A duplicate-free list has as many elements as the set of its elements. */
  lemma {:induction false} NoDupCard<T>(s: seq<T>, e: set<T>)
    requires NoDup(s)
    requires forall y :: y in s <==> y in e
    ensures |s| == |e|
  {
    if s != [] {
      assert s[0] !in s[1..];
      NoDupCard(s[1..], e - {s[0]});
    } else {
      assert e == {};
    }
  }
}
