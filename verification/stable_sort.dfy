/**
 * Stable sorting by an integer key, highest key first. This is what PHP 8's
 * `usort` computes for the two comparators of the bundle
 * (`$b->priority <=> $a->priority` on rules, and the provider comparator that
 * returns 0 on equal priorities): PHP 8's sort is stable, so elements with
 * equal keys keep their input order.
 */
module StableSort {

  /** Inserts `x` in front of the first element whose key is not greater than its own. */
  function Insert<T>(x: T, s: seq<T>, key: T -> int): (r: seq<T>)
    ensures |r| == |s| + 1
  {
    if |s| == 0 || key(s[0]) <= key(x) then [x] + s
    else [s[0]] + Insert(x, s[1..], key)
  }

  /** Insertion sort, highest key first, ties in input order. */
  function SortDesc<T>(s: seq<T>, key: T -> int): (r: seq<T>)
    ensures |r| == |s|
  {
    if |s| == 0 then [] else Insert(s[0], SortDesc(s[1..], key), key)
  }

  ghost predicate SortedDesc<T>(s: seq<T>, key: T -> int)
  {
    forall i, j :: 0 <= i < j < |s| ==> key(s[i]) >= key(s[j])
  }

  /** The elements of `s` whose key is `k`, in order. */
  function WithKey<T>(s: seq<T>, key: T -> int, k: int): (r: seq<T>)
    ensures |r| <= |s|
  {
    if |s| == 0 then []
    else (if key(s[0]) == k then [s[0]] else []) + WithKey(s[1..], key, k)
  }

  /** Sum of a measure over a sequence. */
  function SumBy<T>(s: seq<T>, f: T -> int): int
  {
    if |s| == 0 then 0 else f(s[0]) + SumBy(s[1..], f)
  }

  lemma {:induction false} InsertPermutes<T>(x: T, s: seq<T>, key: T -> int)
    ensures multiset(Insert(x, s, key)) == multiset(s) + multiset{x}
  {
    if |s| > 0 && key(s[0]) > key(x) {
      InsertPermutes(x, s[1..], key);
      assert s == [s[0]] + s[1..];
    }
  }

  /** The sorted sequence is a permutation of the input. */
  lemma {:induction false} SortPermutes<T>(s: seq<T>, key: T -> int)
    ensures multiset(SortDesc(s, key)) == multiset(s)
  {
    if |s| > 0 {
      SortPermutes(s[1..], key);
      InsertPermutes(s[0], SortDesc(s[1..], key), key);
      assert s == [s[0]] + s[1..];
    }
  }

  lemma {:induction false} InsertSorted<T>(x: T, s: seq<T>, key: T -> int)
    requires SortedDesc(s, key)
    ensures SortedDesc(Insert(x, s, key), key)
  {
    if |s| > 0 && key(s[0]) > key(x) {
      var t := s[1..];
      assert SortedDesc(t, key) by {
        forall i, j | 0 <= i < j < |t| ensures key(t[i]) >= key(t[j]) {
          assert t[i] == s[i + 1] && t[j] == s[j + 1];
        }
      }
      InsertSorted(x, t, key);
      var it := Insert(x, t, key);
      InsertPermutes(x, t, key);
      var r := [s[0]] + it;
      forall i, j | 0 <= i < j < |r| ensures key(r[i]) >= key(r[j]) {
        if i == 0 {
          var y := it[j - 1];
          assert y in multiset(it);
          assert y == x || y in multiset(t);
          if y != x {
            var m :| 0 <= m < |t| && t[m] == y;
            assert t[m] == s[m + 1];
          }
        }
      }
    }
  }

  /** The result is ordered by key, highest first. */
  lemma {:induction false} SortSorted<T>(s: seq<T>, key: T -> int)
    ensures SortedDesc(SortDesc(s, key), key)
  {
    if |s| > 0 {
      SortSorted(s[1..], key);
      InsertSorted(s[0], SortDesc(s[1..], key), key);
    }
  }

  lemma {:induction false} WithKeyAppend<T>(a: seq<T>, b: seq<T>, key: T -> int, k: int)
    ensures WithKey(a + b, key, k) == WithKey(a, key, k) + WithKey(b, key, k)
  {
    if |a| > 0 {
      WithKeyAppend(a[1..], b, key, k);
      assert (a + b)[1..] == a[1..] + b;
    } else {
      assert a + b == b;
    }
  }

  lemma {:induction false} InsertWithKey<T>(x: T, s: seq<T>, key: T -> int, k: int)
    requires SortedDesc(s, key)
    ensures WithKey(Insert(x, s, key), key, k)
         == if key(x) == k then [x] + WithKey(s, key, k) else WithKey(s, key, k)
  {
    if |s| > 0 && key(s[0]) > key(x) {
      var t := s[1..];
      assert SortedDesc(t, key) by {
        forall i, j | 0 <= i < j < |t| ensures key(t[i]) >= key(t[j]) {
          assert t[i] == s[i + 1] && t[j] == s[j + 1];
        }
      }
      InsertWithKey(x, t, key, k);
      if key(x) == k {
        // s[0] lies strictly above k, so it is not collected for key k
        assert key(s[0]) != k;
      }
    }
  }

  /**
   * Stability: for every key, the elements carrying that key appear in the
   * result in exactly the order they had in the input.
   */
  lemma {:induction false} SortStable<T>(s: seq<T>, key: T -> int, k: int)
    ensures WithKey(SortDesc(s, key), key, k) == WithKey(s, key, k)
  {
    if |s| > 0 {
      SortStable(s[1..], key, k);
      SortSorted(s[1..], key);
      InsertWithKey(s[0], SortDesc(s[1..], key), key, k);
    }
  }

  lemma {:induction false} WithKeyMember<T>(s: seq<T>, key: T -> int, i: nat)
    requires i < |s|
    ensures s[i] in WithKey(s, key, key(s[i]))
  {
    if i > 0 {
      WithKeyMember(s[1..], key, i - 1);
      assert s[1..][i - 1] == s[i];
    }
  }

  lemma {:induction false} WithKeyElements<T>(s: seq<T>, key: T -> int, k: int, y: T)
    requires y in WithKey(s, key, k)
    ensures y in s && key(y) == k
  {
    if |s| > 0 {
      if !(key(s[0]) == k && y == s[0]) {
        WithKeyElements(s[1..], key, k, y);
      }
    }
  }

  /** Sequences that agree key by key are empty together. */
  lemma BothEmptyOrNeither<T>(a: seq<T>, b: seq<T>, key: T -> int)
    requires forall k :: WithKey(a, key, k) == WithKey(b, key, k)
    ensures |a| == 0 <==> |b| == 0
  {
    if |a| > 0 {
      WithKeyMember(a, key, 0);
    }
    if |b| > 0 {
      WithKeyMember(b, key, 0);
    }
  }

  /**
   * Uniqueness: two key-ordered sequences that agree, key by key, on the
   * order of their elements are equal. With SortSorted and SortStable this
   * says SortDesc is the one and only stable descending sort, so it agrees
   * with whatever stable algorithm PHP uses internally.
   */
  lemma {:induction false} SortedStableUnique<T>(a: seq<T>, b: seq<T>, key: T -> int)
    requires SortedDesc(a, key) && SortedDesc(b, key)
    requires forall k :: WithKey(a, key, k) == WithKey(b, key, k)
    ensures a == b
    decreases |a|
  {
    BothEmptyOrNeither(a, b, key);
    if |a| > 0 {
      HeadsAgree(a, b, key);
      SortedTail(a, key);
      SortedTail(b, key);
      TailsAgree(a, b, key);
      SortedStableUnique(a[1..], b[1..], key);
      assert a == [a[0]] + a[1..];
      assert b == [b[0]] + b[1..];
    }
  }

  /** Two sorted sequences with the same elements per key start with the same element. */
  lemma HeadsAgree<T>(a: seq<T>, b: seq<T>, key: T -> int)
    requires SortedDesc(a, key) && SortedDesc(b, key) && |a| > 0 && |b| > 0
    requires forall k :: WithKey(a, key, k) == WithKey(b, key, k)
    ensures a[0] == b[0]
  {
    // the leading keys agree: each is the largest key of both sequences
    WithKeyMember(a, key, 0);
    WithKeyMember(b, key, 0);
    assert a[0] in WithKey(b, key, key(a[0]));
    WithKeyElements(b, key, key(a[0]), a[0]);
    assert b[0] in WithKey(a, key, key(b[0]));
    WithKeyElements(a, key, key(b[0]), b[0]);
    var m := key(a[0]);
    assert key(b[0]) == m;
    // and so do the leading elements: both head the sequence of key m
    assert a[0] == WithKey(a, key, m)[0];
    assert b[0] == WithKey(b, key, m)[0];
  }

  lemma SortedTail<T>(a: seq<T>, key: T -> int)
    requires SortedDesc(a, key) && |a| > 0
    ensures SortedDesc(a[1..], key)
  {
    var a' := a[1..];
    forall i, j | 0 <= i < j < |a'| ensures key(a'[i]) >= key(a'[j]) {
      assert a'[i] == a[i + 1] && a'[j] == a[j + 1];
    }
  }

  /** Dropping a common head keeps the elements per key equal. */
  lemma TailsAgree<T>(a: seq<T>, b: seq<T>, key: T -> int)
    requires |a| > 0 && |b| > 0 && a[0] == b[0]
    requires forall k :: WithKey(a, key, k) == WithKey(b, key, k)
    ensures forall k :: WithKey(a[1..], key, k) == WithKey(b[1..], key, k)
  {
    forall k ensures WithKey(a[1..], key, k) == WithKey(b[1..], key, k) {
      var h := if key(a[0]) == k then [a[0]] else [];
      assert WithKey(a, key, k) == h + WithKey(a[1..], key, k);
      assert WithKey(b, key, k) == h + WithKey(b[1..], key, k);
      assert WithKey(a[1..], key, k) == WithKey(a, key, k)[|h|..];
      assert WithKey(b[1..], key, k) == WithKey(b, key, k)[|h|..];
    }
  }

  lemma {:induction false} InsertSum<T>(x: T, s: seq<T>, key: T -> int, f: T -> int)
    ensures SumBy(Insert(x, s, key), f) == f(x) + SumBy(s, f)
  {
    if |s| > 0 && key(s[0]) > key(x) {
      InsertSum(x, s[1..], key, f);
      assert ([s[0]] + Insert(x, s[1..], key))[1..] == Insert(x, s[1..], key);
    }
  }

  /** Sorting does not change the total of any measure. */
  lemma {:induction false} SortSum<T>(s: seq<T>, key: T -> int, f: T -> int)
    ensures SumBy(SortDesc(s, key), f) == SumBy(s, f)
  {
    if |s| > 0 {
      SortSum(s[1..], key, f);
      InsertSum(s[0], SortDesc(s[1..], key), key, f);
    }
  }

  /** The three facts that together pin down a stable descending sort. */
  lemma SortSpec<T>(s: seq<T>, key: T -> int)
    ensures multiset(SortDesc(s, key)) == multiset(s)
    ensures SortedDesc(SortDesc(s, key), key)
    ensures forall k :: WithKey(SortDesc(s, key), key, k) == WithKey(s, key, k)
  {
    SortPermutes(s, key);
    SortSorted(s, key);
    forall k ensures WithKey(SortDesc(s, key), key, k) == WithKey(s, key, k) {
      SortStable(s, key, k);
    }
  }
}
