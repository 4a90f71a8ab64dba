// Small facts about sequences shared by several modules.
module Seqs {

  /** The concatenation of a sequence of runs, as `sum(runs, [])`. */
  function Flatten<T>(runs: seq<seq<T>>): seq<T>
  {
    if |runs| == 0 then [] else runs[0] + Flatten(runs[1..])
  }

  lemma AppendAssociative<T>(a: seq<T>, b: seq<T>, c: seq<T>)
    ensures a + (b + c) == (a + b) + c
  {
  }

  lemma {:induction false} FlattenAppend<T>(a: seq<seq<T>>, b: seq<seq<T>>)
    ensures Flatten(a + b) == Flatten(a) + Flatten(b)
  {
    if |a| == 0 {
      assert a + b == b;
    } else {
      assert (a + b)[1..] == a[1..] + b;
      FlattenAppend(a[1..], b);
    }
  }

  /** Taking one more run. */
  lemma FlattenSnoc<T>(s: seq<seq<T>>, i: nat)
    requires i < |s|
    ensures Flatten(s[..i + 1]) == Flatten(s[..i]) + s[i]
    ensures Flatten(s[i..]) == s[i] + Flatten(s[i + 1..])
  {
    assert s[..i + 1] == s[..i] + [s[i]];
    FlattenAppend(s[..i], [s[i]]);
    assert Flatten([s[i]]) == s[i] + Flatten([s[i]][1..]);
    assert s[i..][1..] == s[i + 1..];
  }

  /** No element occurs twice. */
  predicate NoRepeats<T(==)>(s: seq<T>)
  {
    forall i, j :: 0 <= i < j < |s| ==> s[i] != s[j]
  }

  lemma {:induction false} FlattenMembers<T>(runs: seq<seq<T>>)
    ensures forall x :: x in Flatten(runs) <==> exists i :: 0 <= i < |runs| && x in runs[i]
  {
    if |runs| > 0 {
      FlattenMembers(runs[1..]);
      forall x ensures x in Flatten(runs) <==> exists i :: 0 <= i < |runs| && x in runs[i] {
        if x in Flatten(runs[1..]) {
          var i :| 0 <= i < |runs[1..]| && x in runs[1..][i];
          assert x in runs[i + 1];
        }
        if exists i :: 0 <= i < |runs| && x in runs[i] {
          var i :| 0 <= i < |runs| && x in runs[i];
          if i > 0 {
            assert runs[1..][i - 1] == runs[i];
          }
        }
      }
    }
  }

  /** The index of a run holding `x`. */
  lemma RunOf<T>(runs: seq<seq<T>>, x: T) returns (k: nat)
    requires x in Flatten(runs)
    ensures k < |runs| && x in runs[k]
  {
    FlattenMembers(runs);
    k :| 0 <= k < |runs| && x in runs[k];
  }

  /** Runs without repeats, no two sharing an element, flatten without repeats. */
  lemma {:induction false} FlattenNoRepeats<T>(runs: seq<seq<T>>)
    requires forall i :: 0 <= i < |runs| ==> NoRepeats(runs[i])
    requires forall i, j, x :: 0 <= i < |runs| && 0 <= j < |runs| && x in runs[i] && x in runs[j] ==> i == j
    ensures NoRepeats(Flatten(runs))
  {
    if |runs| > 0 {
      var head, tail := runs[0], runs[1..];
      forall i, j, x | 0 <= i < |tail| && 0 <= j < |tail| && x in tail[i] && x in tail[j] ensures i == j {
        assert tail[i] == runs[i + 1] && tail[j] == runs[j + 1];
      }
      forall i | 0 <= i < |tail| ensures NoRepeats(tail[i]) {
        assert tail[i] == runs[i + 1];
      }
      FlattenNoRepeats(tail);
      FlattenMembers(tail);
      var f := Flatten(runs);
      assert f == head + Flatten(tail);
      forall i, j | 0 <= i < j < |f| ensures f[i] != f[j] {
        if i < |head| && j >= |head| {
          var x := f[j];
          assert x == Flatten(tail)[j - |head|];
          assert x in Flatten(tail);
          var k := RunOf(tail, x);
          assert x in runs[k + 1] && f[i] == head[i] && head[i] in runs[0];
        } else if j < |head| {
          assert f[i] == head[i] && f[j] == head[j];
        } else {
          assert f[i] == Flatten(tail)[i - |head|] && f[j] == Flatten(tail)[j - |head|];
        }
      }
    }
  }
}
