// Python's sorted(): a stable sort under a total preorder.  Every sort in
// the modelled code (sorted tuples, sorted names, sorted by glyph id, by
// file name) is an instance of Sort with the appropriate ordering.
module Sorting {

  /** `le` orders every pair and is transitive: what a key order or a
      lexicographic order gives, and what a stable sort needs. */
  ghost predicate TotalPreorder<T(!new)>(le: (T, T) -> bool)
  {
    (forall a, b :: le(a, b) || le(b, a)) &&
    (forall a, b, c :: le(a, b) && le(b, c) ==> le(a, c))
  }

  predicate SortedBy<T>(s: seq<T>, le: (T, T) -> bool)
  {
    forall i, j :: 0 <= i < j < |s| ==> le(s[i], s[j])
  }

  /** `a` and `b` are ordered both ways: neither has to come first. */
  predicate Equivalent<T>(le: (T, T) -> bool, a: T, b: T)
  {
    le(a, b) && le(b, a)
  }

  /** The elements of `s` equivalent to `x`, in their order in `s`. */
  function EquivalentTo<T>(s: seq<T>, x: T, le: (T, T) -> bool): (r: seq<T>)
    ensures |r| <= |s|
  {
    if |s| == 0 then []
    else (if Equivalent(le, s[0], x) then [s[0]] else []) + EquivalentTo(s[1..], x, le)
  }

  /** Ordering by a key: what `sorted(xs, key=key)` compares. */
  function ByKey<T, K>(key: T -> K, le: (K, K) -> bool): (T, T) -> bool
  {
    (a: T, b: T) => le(key(a), key(b))
  }

  /** Inserts `x` after every element that is not greater than it. */
  function Insert<T>(x: T, s: seq<T>, le: (T, T) -> bool): seq<T>
  {
    if |s| == 0 then [x]
    else if le(s[0], x) then [s[0]] + Insert(x, s[1..], le)
    else [x] + s
  }

  /** Insertion sort, inserting each element after the earlier ones it ties with. */
  function Sort<T>(s: seq<T>, le: (T, T) -> bool): seq<T>
  {
    if |s| == 0 then [] else Insert(s[|s| - 1], Sort(s[..|s| - 1], le), le)
  }

  lemma ByKeyOrder<T(!new), K(!new)>(key: T -> K, le: (K, K) -> bool)
    requires TotalPreorder(le)
    ensures TotalPreorder(ByKey(key, le))
  {
    var kl := ByKey(key, le);
    forall a, b ensures kl(a, b) || kl(b, a) {
      assert le(key(a), key(b)) || le(key(b), key(a));
    }
    forall a, b, c | kl(a, b) && kl(b, c) ensures kl(a, c) {
      assert le(key(a), key(b)) && le(key(b), key(c));
    }
  }

  lemma {:induction false} InsertPerm<T>(x: T, s: seq<T>, le: (T, T) -> bool)
    ensures multiset(Insert(x, s, le)) == multiset(s) + multiset{x}
  {
    if |s| == 0 {
    } else if le(s[0], x) {
      InsertPerm(x, s[1..], le);
      assert s == [s[0]] + s[1..];
    }
  }

  lemma {:induction false} InsertSorted<T(!new)>(x: T, s: seq<T>, le: (T, T) -> bool)
    requires TotalPreorder(le) && SortedBy(s, le)
    ensures SortedBy(Insert(x, s, le), le)
  {
    if |s| == 0 {
    } else if le(s[0], x) {
      SortedTail(s, le);
      InsertSorted(x, s[1..], le);
      InsertAbove(x, s[1..], s[0], le);
      var t := Insert(x, s[1..], le);
      assert Insert(x, s, le) == [s[0]] + t;
      forall i, j | 0 <= i < j < |[s[0]] + t| ensures le(([s[0]] + t)[i], ([s[0]] + t)[j]) {
        if i > 0 {
          assert ([s[0]] + t)[i] == t[i - 1] && ([s[0]] + t)[j] == t[j - 1];
        }
      }
    } else {
      assert le(x, s[0]);
    }
  }

  /** Inserting keeps every element above a bound that `x` and `s` are
      above. */
  lemma InsertAbove<T>(x: T, s: seq<T>, lo: T, le: (T, T) -> bool)
    requires le(lo, x) && forall k :: 0 <= k < |s| ==> le(lo, s[k])
    ensures forall j :: 0 <= j < |Insert(x, s, le)| ==> le(lo, Insert(x, s, le)[j])
  {
    InsertPerm(x, s, le);
    var t := Insert(x, s, le);
    forall j | 0 <= j < |t| ensures le(lo, t[j]) {
      assert t[j] in multiset(t);
      assert t[j] in multiset(s) + multiset{x};
      if t[j] != x {
        assert t[j] in s;
      }
    }
  }

  lemma {:induction false} SortPerm<T>(s: seq<T>, le: (T, T) -> bool)
    ensures multiset(Sort(s, le)) == multiset(s)
  {
    if |s| > 0 {
      SortPerm(s[..|s| - 1], le);
      InsertPerm(s[|s| - 1], Sort(s[..|s| - 1], le), le);
      assert s == s[..|s| - 1] + [s[|s| - 1]];
    }
  }

  lemma {:induction false} SortSorted<T(!new)>(s: seq<T>, le: (T, T) -> bool)
    requires TotalPreorder(le)
    ensures SortedBy(Sort(s, le), le)
  {
    if |s| > 0 {
      SortSorted(s[..|s| - 1], le);
      InsertSorted(s[|s| - 1], Sort(s[..|s| - 1], le), le);
    }
  }

  lemma {:induction false} SortLength<T>(s: seq<T>, le: (T, T) -> bool)
    ensures |Sort(s, le)| == |s|
  {
    SortPerm(s, le);
    assert |multiset(Sort(s, le))| == |multiset(s)|;
  }

  lemma SortMembers<T>(s: seq<T>, le: (T, T) -> bool)
    ensures forall x :: x in Sort(s, le) <==> x in s
  {
    SortPerm(s, le);
    forall x ensures x in Sort(s, le) <==> x in s {
      assert x in Sort(s, le) <==> x in multiset(Sort(s, le));
      assert x in s <==> x in multiset(s);
    }
  }

  lemma {:induction false} EquivalentToAppend<T>(s: seq<T>, t: seq<T>, x: T, le: (T, T) -> bool)
    ensures EquivalentTo(s + t, x, le) == EquivalentTo(s, x, le) + EquivalentTo(t, x, le)
  {
    if |s| == 0 {
      assert s + t == t;
    } else {
      var f := if Equivalent(le, s[0], x) then [s[0]] else [];
      assert (s + t)[0] == s[0];
      assert (s + t)[1..] == s[1..] + t;
      calc {
        EquivalentTo(s + t, x, le);
        f + EquivalentTo(s[1..] + t, x, le);
        { EquivalentToAppend(s[1..], t, x, le); }
        f + (EquivalentTo(s[1..], x, le) + EquivalentTo(t, x, le));
        (f + EquivalentTo(s[1..], x, le)) + EquivalentTo(t, x, le);
      }
    }
  }

  /** Inserting `x` records it after all equivalent elements and before the greater ones. */
  lemma {:induction false} InsertStable<T(!new)>(a: T, s: seq<T>, x: T, le: (T, T) -> bool)
    requires TotalPreorder(le) && SortedBy(s, le)
    ensures EquivalentTo(Insert(a, s, le), x, le) ==
            EquivalentTo(s, x, le) + (if Equivalent(le, a, x) then [a] else [])
  {
    if |s| == 0 {
    } else if le(s[0], a) {
      assert SortedBy(s[1..], le);
      InsertStable(a, s[1..], x, le);
      assert ([s[0]] + Insert(a, s[1..], le))[1..] == Insert(a, s[1..], le);
    } else if Equivalent(le, a, x) {
      // every element of s is strictly greater than a, hence not equivalent to x
      NoneEquivalent(a, s, x, le);
      assert ([a] + s)[1..] == s;
    } else {
      assert ([a] + s)[1..] == s;
    }
  }

  lemma NoneEquivalent<T(!new)>(a: T, s: seq<T>, x: T, le: (T, T) -> bool)
    requires TotalPreorder(le) && SortedBy(s, le)
    requires |s| > 0 && !le(s[0], a) && Equivalent(le, a, x)
    ensures EquivalentTo(s, x, le) == []
  {
    forall k | 0 <= k < |s| ensures !Equivalent(le, s[k], x) {
      if k > 0 {
        assert le(s[0], s[k]);
      }
    }
    EquivalentToNone(s, x, le);
  }

  lemma {:induction false} EquivalentToNone<T>(s: seq<T>, x: T, le: (T, T) -> bool)
    requires forall k :: 0 <= k < |s| ==> !Equivalent(le, s[k], x)
    ensures EquivalentTo(s, x, le) == []
  {
    if |s| > 0 {
      EquivalentToNone(s[1..], x, le);
    }
  }

  /** Stability: elements that tie keep their original relative order. */
  lemma {:induction false} SortStable<T(!new)>(s: seq<T>, x: T, le: (T, T) -> bool)
    requires TotalPreorder(le)
    ensures EquivalentTo(Sort(s, le), x, le) == EquivalentTo(s, x, le)
  {
    if |s| > 0 {
      var p, last := s[..|s| - 1], s[|s| - 1];
      var f := if Equivalent(le, last, x) then [last] else [];
      assert p + [last] == s;
      calc {
        EquivalentTo(Sort(s, le), x, le);
        EquivalentTo(Insert(last, Sort(p, le), le), x, le);
        { SortSorted(p, le); InsertStable(last, Sort(p, le), x, le); }
        EquivalentTo(Sort(p, le), x, le) + f;
        { SortStable(p, x, le); }
        EquivalentTo(p, x, le) + f;
        { assert EquivalentTo([last], x, le) == f + EquivalentTo([], x, le);
          EquivalentToAppend(p, [last], x, le); }
        EquivalentTo(s, x, le);
      }
    }
  }

  /** A sequence that is already sorted comes back unchanged. */
  lemma {:induction false} SortOfSorted<T(!new)>(s: seq<T>, le: (T, T) -> bool)
    requires TotalPreorder(le) && SortedBy(s, le)
    ensures Sort(s, le) == s
  {
    if |s| > 0 {
      var p := s[..|s| - 1];
      assert SortedBy(p, le);
      SortOfSorted(p, le);
      InsertAtEnd(s[|s| - 1], p, le);
      assert p + [s[|s| - 1]] == s;
    }
  }

  lemma {:induction false} InsertAtEnd<T>(x: T, s: seq<T>, le: (T, T) -> bool)
    requires forall i :: 0 <= i < |s| ==> le(s[i], x)
    ensures Insert(x, s, le) == s + [x]
  {
    if |s| > 0 {
      InsertAtEnd(x, s[1..], le);
    }
  }

  /** Sorting is idempotent. */
  lemma SortIdempotent<T(!new)>(s: seq<T>, le: (T, T) -> bool)
    requires TotalPreorder(le)
    ensures Sort(Sort(s, le), le) == Sort(s, le)
  {
    SortSorted(s, le);
    SortOfSorted(Sort(s, le), le);
  }

  lemma SortedTail<T>(a: seq<T>, le: (T, T) -> bool)
    requires |a| > 0 && SortedBy(a, le)
    ensures SortedBy(a[1..], le)
  {
    forall i, j | 0 <= i < j < |a| - 1 ensures le(a[1..][i], a[1..][j]) {
      assert a[1..][i] == a[i + 1] && a[1..][j] == a[j + 1];
    }
  }

  /** Two sorted permutations of each other start with the same element. */
  lemma SameHead<T(!new)>(a: seq<T>, b: seq<T>, le: (T, T) -> bool)
    requires forall x, y :: le(x, y) && le(y, x) ==> x == y
    requires SortedBy(a, le) && SortedBy(b, le) && multiset(a) == multiset(b) && |a| > 0 && |b| > 0
    ensures a[0] == b[0]
  {
    assert a[0] in multiset(b) && b[0] in multiset(a);
    var i :| 0 <= i < |a| && a[i] == b[0];
    var j :| 0 <= j < |b| && b[j] == a[0];
    assert i == 0 || le(a[0], a[i]);
    assert j == 0 || le(b[0], b[j]);
  }

  lemma TailMultiset<T>(a: seq<T>)
    requires |a| > 0
    ensures multiset(a[1..]) == multiset(a) - multiset{a[0]}
  {
    assert a == [a[0]] + a[1..];
  }

  /** Under an order in which only equal elements tie, a sequence has one
      sorted permutation. */
  lemma {:induction false} SortedUnique<T(!new)>(a: seq<T>, b: seq<T>, le: (T, T) -> bool)
    requires forall x, y :: le(x, y) && le(y, x) ==> x == y
    requires SortedBy(a, le) && SortedBy(b, le) && multiset(a) == multiset(b)
    ensures a == b
  {
    assert |a| == |multiset(a)| == |multiset(b)| == |b|;
    if |a| > 0 {
      SameHead(a, b, le);
      TailMultiset(a);
      TailMultiset(b);
      SortedTail(a, le);
      SortedTail(b, le);
      SortedUnique(a[1..], b[1..], le);
      forall k | 1 <= k < |a| ensures a[k] == b[k] {
        assert a[k] == a[1..][k - 1] && b[k] == b[1..][k - 1];
      }
    }
  }

  /** Sorting does not depend on the order of its input. */
  lemma SortOrderFree<T(!new)>(s: seq<T>, t: seq<T>, le: (T, T) -> bool)
    requires TotalPreorder(le) && forall x, y :: le(x, y) && le(y, x) ==> x == y
    requires multiset(s) == multiset(t)
    ensures Sort(s, le) == Sort(t, le)
  {
    SortPerm(s, le);
    SortPerm(t, le);
    SortSorted(s, le);
    SortSorted(t, le);
    SortedUnique(Sort(s, le), Sort(t, le), le);
  }
}
