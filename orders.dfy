// Python's comparison of tuples and strings: lexicographic, a proper
// prefix before its extensions.
module Orders {
  import opened Sorting

  ghost predicate StrictTotalOrder<T(!new)>(lt: (T, T) -> bool)
  {
    (forall a :: !lt(a, a)) &&
    (forall a, b, c :: lt(a, b) && lt(b, c) ==> lt(a, c)) &&
    (forall a, b :: a == b || lt(a, b) || lt(b, a))
  }

  /** `a <= b` for Python sequences whose elements compare by `lt`. */
  predicate LexLe<T(==)>(a: seq<T>, b: seq<T>, lt: (T, T) -> bool)
    decreases |a|
  {
    |a| == 0 || (|b| > 0 && (lt(a[0], b[0]) || (a[0] == b[0] && LexLe(a[1..], b[1..], lt))))
  }

  lemma {:induction false} LexLeProperties<T(!new)>(a: seq<T>, b: seq<T>, c: seq<T>, lt: (T, T) -> bool)
    requires StrictTotalOrder(lt)
    ensures LexLe(a, a, lt)
    ensures LexLe(a, b, lt) || LexLe(b, a, lt)
    ensures LexLe(a, b, lt) && LexLe(b, a, lt) ==> a == b
    ensures LexLe(a, b, lt) && LexLe(b, c, lt) ==> LexLe(a, c, lt)
    decreases |a|
  {
    if |a| > 0 && |b| > 0 && |c| > 0 {
      LexLeProperties(a[1..], b[1..], c[1..], lt);
      if a[0] == b[0] && LexLe(a, b, lt) && LexLe(b, a, lt) {
        assert a == [a[0]] + a[1..] && b == [b[0]] + b[1..];
      }
    } else if |a| > 0 && |b| > 0 {
      LexLeProperties(a[1..], b[1..], b[1..], lt);
      if LexLe(a, b, lt) && LexLe(b, a, lt) {
        assert a == [a[0]] + a[1..] && b == [b[0]] + b[1..];
      }
    } else if |a| > 0 && |c| > 0 {
      LexLeProperties(a[1..], a[1..], c[1..], lt);
    } else if |a| > 0 {
      LexLeProperties(a[1..], a[1..], a[1..], lt);
    }
  }

  lemma LexTotal<T(!new)>(lt: (T, T) -> bool)
    requires StrictTotalOrder(lt)
    ensures forall a, b :: LexLe(a, b, lt) || LexLe(b, a, lt)
    ensures forall a, b, c :: LexLe(a, b, lt) && LexLe(b, c, lt) ==> LexLe(a, c, lt)
    ensures forall a, b :: LexLe(a, b, lt) && LexLe(b, a, lt) ==> a == b
  {
    forall a, b, c ensures LexLe(a, b, lt) && LexLe(b, c, lt) ==> LexLe(a, c, lt) {
      LexLeProperties(a, b, c, lt);
    }
    forall a, b ensures (LexLe(a, b, lt) || LexLe(b, a, lt)) && (LexLe(a, b, lt) && LexLe(b, a, lt) ==> a == b) {
      LexLeProperties(a, b, b, lt);
    }
  }

  /** Comparison of integer keys, such as glyph ids. */
  function IntLe(a: int, b: int): bool { a <= b }

  lemma IntOrder()
    ensures TotalPreorder(IntLe)
  {
  }

  function NatLt(a: nat, b: nat): bool { a < b }
  function CharLt(a: char, b: char): bool { a < b }

  /** Comparison of codepoint tuples. */
  function NatsLe(a: seq<nat>, b: seq<nat>): bool { LexLe(a, b, NatLt) }

  /** Comparison of strings (by code point, as Python compares str). */
  function StrLe(a: string, b: string): bool { LexLe(a, b, CharLt) }

  function StrLt(a: string, b: string): bool { StrLe(a, b) && a != b }

  /** Comparison of tuples of strings. */
  function StrsLe(a: seq<string>, b: seq<string>): bool { LexLe(a, b, StrLt) }

  /** Comparison of (codepoint tuple, string) pairs. */
  function PairLe(p: (seq<nat>, string), q: (seq<nat>, string)): bool
  {
    (NatsLe(p.0, q.0) && p.0 != q.0) || (p.0 == q.0 && StrLe(p.1, q.1))
  }

  lemma NatsOrder()
    ensures TotalPreorder(NatsLe)
    ensures forall a, b :: NatsLe(a, b) && NatsLe(b, a) ==> a == b
  {
    LexTotal(NatLt);
  }

  lemma StrOrder()
    ensures TotalPreorder(StrLe)
    ensures forall a, b :: StrLe(a, b) && StrLe(b, a) ==> a == b
    ensures StrictTotalOrder(StrLt)
  {
    LexTotal(CharLt);
  }

  lemma StrsOrder()
    ensures TotalPreorder(StrsLe)
    ensures forall a, b :: StrsLe(a, b) && StrsLe(b, a) ==> a == b
  {
    StrOrder();
    LexTotal(StrLt);
  }

  lemma PairOrder()
    ensures TotalPreorder(PairLe)
    ensures forall p, q :: PairLe(p, q) && PairLe(q, p) ==> p == q
  {
    NatsOrder();
    StrOrder();
  }

  /** Strictly increasing under `lt`: sorted, with no repeats. */
  predicate StrictlySorted<T>(s: seq<T>, lt: (T, T) -> bool)
  {
    forall i, j :: 0 <= i < j < |s| ==> lt(s[i], s[j])
  }

  /** The "not greater" relation that Python's sorted derives from `<`. */
  function NotAfter<T>(lt: (T, T) -> bool): (T, T) -> bool
  {
    (a: T, b: T) => !lt(b, a)
  }

  /** `<` on Python sequences whose elements compare by `lt`. */
  function LexLt<T(==)>(lt: (T, T) -> bool): (seq<T>, seq<T>) -> bool
  {
    (a: seq<T>, b: seq<T>) => LexLe(a, b, lt) && a != b
  }

  lemma LexLtOrder<T(!new)>(lt: (T, T) -> bool)
    requires StrictTotalOrder(lt)
    ensures StrictTotalOrder(LexLt(lt))
  {
    LexTotal(lt);
  }

  /** Inserting a new element into a strictly sorted sequence keeps it
      strictly sorted and adds exactly that element. */
  lemma {:induction false} InsertStrict<T(!new)>(x: T, s: seq<T>, lt: (T, T) -> bool)
    requires StrictTotalOrder(lt) && StrictlySorted(s, lt) && x !in s
    ensures StrictlySorted(Insert(x, s, NotAfter(lt)), lt)
    ensures forall y :: y in Insert(x, s, NotAfter(lt)) <==> y in s || y == x
  {
    var le := NotAfter(lt);
    if |s| == 0 {
    } else if le(s[0], x) {
      assert lt(s[0], x);
      InsertStrict(x, s[1..], lt);
      var t := Insert(x, s[1..], le);
      assert Insert(x, s, le) == [s[0]] + t;
      forall j | 0 <= j < |t| ensures lt(s[0], t[j]) {
        assert t[j] in t;
        if t[j] != x {
          var k :| 0 <= k < |s[1..]| && s[1..][k] == t[j];
          assert s[k + 1] == t[j];
        }
      }
      forall y ensures y in Insert(x, s, le) <==> y in s || y == x {
        assert y in s <==> y == s[0] || y in s[1..] by {
          assert s == [s[0]] + s[1..];
        }
      }
    } else {
      assert lt(x, s[0]);
      assert Insert(x, s, le) == [x] + s;
    }
  }

  /** A strictly sorted sequence is determined by its elements. */
  lemma {:induction false} StrictlySortedUnique<T(!new)>(s: seq<T>, t: seq<T>, lt: (T, T) -> bool)
    requires StrictTotalOrder(lt) && StrictlySorted(s, lt) && StrictlySorted(t, lt)
    requires forall x :: x in s <==> x in t
    ensures s == t
  {
    assert |s| > 0 ==> s[0] in t;
    assert |t| > 0 ==> t[0] in s;
    if |s| > 0 {
      assert s[0] == t[0];
      forall x ensures x in s[1..] <==> x in t[1..] {
        assert x in s <==> x == s[0] || x in s[1..] by {
          assert s == [s[0]] + s[1..];
        }
        assert x in t <==> x == t[0] || x in t[1..] by {
          assert t == [t[0]] + t[1..];
        }
        if x in s[1..] {
          var i :| 0 <= i < |s[1..]| && s[1..][i] == x;
          assert lt(s[0], s[i + 1]);
        }
        if x in t[1..] {
          var i :| 0 <= i < |t[1..]| && t[1..][i] == x;
          assert lt(t[0], t[i + 1]);
        }
      }
      StrictlySortedUnique(s[1..], t[1..], lt);
      assert s == [s[0]] + s[1..] && t == [t[0]] + t[1..];
    }
  }
}
