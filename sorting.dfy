/** Python's `list.sort(key=k, reverse=True)`: a stable sort into descending key order. Python
    keeps elements with equal keys in their original order also when `reverse=True`. */
module Sorting {

  /** Keys never increase along the list. */
  ghost predicate SortedDesc<T>(s: seq<T>, key: T -> real) {
    forall i, j :: 0 <= i < j < |s| ==> key(s[i]) >= key(s[j])
  }

  /** Inserts `x` into a list, after the longest suffix whose keys are all below its own; on a
      descending list that is after every element whose key is at least its own. */
  function Insert<T>(s: seq<T>, x: T, key: T -> real): (r: seq<T>)
    ensures |r| == |s| + 1
    ensures multiset(r) == multiset(s) + multiset{x}
    decreases |s|
  {
    if |s| == 0 then [x]
    else if key(s[|s| - 1]) >= key(x) then s + [x]
    else
      var p := s[..|s| - 1];
      assert s == p + [s[|s| - 1]];
      Insert(p, x, key) + [s[|s| - 1]]
  }

  /** Insertion keeps a list descending. */
  lemma {:induction false} InsertSorted<T>(s: seq<T>, x: T, key: T -> real)
    requires SortedDesc(s, key)
    ensures SortedDesc(Insert(s, x, key), key)
    decreases |s|
  {
    if |s| > 0 {
      var p, last := s[..|s| - 1], s[|s| - 1];
      if key(last) >= key(x) {
        assert forall i :: 0 <= i < |s| ==> key(s[i]) >= key(last);
      } else {
        InsertSorted(p, x, key);
        var q := Insert(p, x, key);
        forall k | 0 <= k < |q|
          ensures key(q[k]) >= key(last)
        {
          assert q[k] in multiset(q);
          if q[k] != x {
            assert q[k] in multiset(p);
            var j :| 0 <= j < |p| && p[j] == q[k];
            assert s[j] == p[j];
          }
        }
        assert Insert(s, x, key) == q + [last];
      }
    }
  }

  /** The stable descending sort, by insertion of each element in turn. */
  function SortDesc<T>(s: seq<T>, key: T -> real): (r: seq<T>)
    ensures |r| == |s|
    ensures multiset(r) == multiset(s)
    ensures SortedDesc(r, key)
    decreases |s|
  {
    if |s| == 0 then []
    else
      var p := s[..|s| - 1];
      assert s == p + [s[|s| - 1]];
      InsertSorted(SortDesc(p, key), s[|s| - 1], key);
      Insert(SortDesc(p, key), s[|s| - 1], key)
  }

  /** The elements whose key is `k`, in list order. */
  function WithKey<T>(s: seq<T>, key: T -> real, k: real): seq<T>
    decreases |s|
  {
    if |s| == 0 then []
    else WithKey(s[..|s| - 1], key, k) + (if key(s[|s| - 1]) == k then [s[|s| - 1]] else [])
  }

  lemma {:induction false} InsertWithKey<T>(s: seq<T>, x: T, key: T -> real, k: real)
    ensures WithKey(Insert(s, x, key), key, k) == WithKey(s, key, k) + (if key(x) == k then [x] else [])
    decreases |s|
  {
    if |s| == 0 {
    } else if key(s[|s| - 1]) >= key(x) {
      assert (s + [x])[..|s|] == s;
    } else {
      var p := s[..|s| - 1];
      var q := Insert(p, x, key);
      assert (q + [s[|s| - 1]])[..|q|] == q;
      InsertWithKey(p, x, key, k);
    }
  }

  /** Stability: the sort keeps, for every key, the original order of the elements with that key. */
  lemma {:induction false} SortDescStable<T>(s: seq<T>, key: T -> real, k: real)
    ensures WithKey(SortDesc(s, key), key, k) == WithKey(s, key, k)
    decreases |s|
  {
    if |s| > 0 {
      var p := s[..|s| - 1];
      SortDescStable(p, key, k);
      InsertWithKey(SortDesc(p, key), s[|s| - 1], key, k);
    }
  }

  /** The sum of `f` over a list. */
  function SumBy<T>(s: seq<T>, f: T -> int): int
    decreases |s|
  {
    if |s| == 0 then 0 else SumBy(s[..|s| - 1], f) + f(s[|s| - 1])
  }

  lemma {:induction false} InsertSum<T>(s: seq<T>, x: T, key: T -> real, f: T -> int)
    ensures SumBy(Insert(s, x, key), f) == SumBy(s, f) + f(x)
    decreases |s|
  {
    if |s| == 0 {
      assert Insert(s, x, key) == s + [x];
      SumByAppend(s, x, f);
    } else if key(s[|s| - 1]) >= key(x) {
      SumByAppend(s, x, f);
    } else {
      var p, last := s[..|s| - 1], s[|s| - 1];
      var q := Insert(p, x, key);
      calc {
        SumBy(Insert(s, x, key), f);
      == { assert Insert(s, x, key) == q + [last]; }
        SumBy(q + [last], f);
      == { SumByAppend(q, last, f); InsertSum(p, x, key, f); }
        SumBy(p, f) + f(x) + f(last);
      == { assert s == p + [last]; SumByAppend(p, last, f); }
        SumBy(s, f) + f(x);
      }
    }
  }

  /** Sorting does not change a sum over the list. */
  lemma {:induction false} SortDescSum<T>(s: seq<T>, key: T -> real, f: T -> int)
    ensures SumBy(SortDesc(s, key), f) == SumBy(s, f)
    decreases |s|
  {
    if |s| > 0 {
      var p := s[..|s| - 1];
      SortDescSum(p, key, f);
      InsertSum(SortDesc(p, key), s[|s| - 1], key, f);
    }
  }

  lemma SumByAppend<T>(s: seq<T>, x: T, f: T -> int)
    ensures SumBy(s + [x], f) == SumBy(s, f) + f(x)
  {
    assert (s + [x])[..|s|] == s;
  }

  /** Replacing one element changes the sum by the difference of the two values. */
  lemma {:induction false} SumByUpdate<T>(s: seq<T>, k: nat, x: T, f: T -> int)
    requires k < |s|
    ensures SumBy(s[k := x], f) == SumBy(s, f) - f(s[k]) + f(x)
    decreases |s|
  {
    var n := |s| - 1;
    if k == n {
      assert s[k := x][..n] == s[..n];
    } else {
      assert s[k := x][..n] == s[..n][k := x];
      SumByUpdate(s[..n], k, x, f);
    }
  }

  /** Two lists that agree on `f` position by position have the same sum. */
  lemma {:induction false} SumByPointwise<T>(a: seq<T>, b: seq<T>, f: T -> int)
    requires |a| == |b| && forall k :: 0 <= k < |a| ==> f(a[k]) == f(b[k])
    ensures SumBy(a, f) == SumBy(b, f)
    decreases |a|
  {
    if |a| > 0 {
      SumByPointwise(a[..|a| - 1], b[..|b| - 1], f);
    }
  }
}
