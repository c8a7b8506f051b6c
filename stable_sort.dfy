/**
 * `Array.prototype.sort(compare)`: a stable sort driven by a comparator that
 * returns a negative number, zero or a positive number.
 */
module StableSort {
  /** What `sort` needs of a comparator: swapping the arguments negates the result,
      and "may precede" (a result that is not positive) is transitive. */
  ghost predicate IsComparator<T(!new)>(cmp: (T, T) -> int) {
    (forall a, b :: cmp(a, b) == -cmp(b, a)) &&
    (forall a, b, c :: cmp(a, b) <= 0 && cmp(b, c) <= 0 ==> cmp(a, c) <= 0)
  }

  /** Every element may precede every later one. */
  ghost predicate Sorted<T>(s: seq<T>, cmp: (T, T) -> int) {
    forall i, j :: 0 <= i < j < |s| ==> cmp(s[i], s[j]) <= 0
  }

  /** Insertion of `x` after every element of `s` that does not compare greater. */
  function Insert<T>(x: T, s: seq<T>, cmp: (T, T) -> int): (r: seq<T>)
    ensures |r| == |s| + 1
    decreases |s|
  {
    if s == [] then [x]
    else
      var last := s[|s| - 1];
      if cmp(last, x) > 0 then Insert(x, s[..|s| - 1], cmp) + [last]
      else s + [x]
  }

  /** Insertion adds exactly the one element. */
  lemma {:induction false} InsertPermutation<T>(x: T, s: seq<T>, cmp: (T, T) -> int)
    ensures multiset(Insert(x, s, cmp)) == multiset(s) + multiset{x}
    decreases |s|
  {
    if s != [] {
      var p, last := s[..|s| - 1], s[|s| - 1];
      assert s == p + [last];
      if cmp(last, x) > 0 {
        InsertPermutation(x, p, cmp);
        assert Insert(x, s, cmp) == Insert(x, p, cmp) + [last];
      }
    }
  }

  /** The sorted sequence: each element inserted in turn, so that elements that
      compare equal keep their original order. */
  function Sort<T>(s: seq<T>, cmp: (T, T) -> int): (r: seq<T>)
    ensures |r| == |s|
  {
    if s == [] then []
    else Insert(s[|s| - 1], Sort(s[..|s| - 1], cmp), cmp)
  }

  /** The sort rearranges its input: the same elements, as often as before. */
  lemma {:induction false} SortPermutation<T>(s: seq<T>, cmp: (T, T) -> int)
    ensures multiset(Sort(s, cmp)) == multiset(s)
  {
    if s != [] {
      var p, last := s[..|s| - 1], s[|s| - 1];
      assert s == p + [last];
      SortPermutation(p, cmp);
      InsertPermutation(last, Sort(p, cmp), cmp);
    }
  }

  /** A sorted sequence stays sorted when an element that every element may
      precede is appended. */
  lemma SortedSnoc<T>(q: seq<T>, y: T, cmp: (T, T) -> int)
    requires Sorted(q, cmp)
    requires forall z :: z in q ==> cmp(z, y) <= 0
    ensures Sorted(q + [y], cmp)
  {
  }

  /** Appending `x` after a sorted sequence whose last element may precede `x`. */
  lemma SortedAfterLast<T(!new)>(s: seq<T>, x: T, cmp: (T, T) -> int)
    requires IsComparator(cmp) && Sorted(s, cmp)
    requires s == [] || cmp(s[|s| - 1], x) <= 0
    ensures Sorted(s + [x], cmp)
  {
    forall z | z in s ensures cmp(z, x) <= 0 {
      var k :| 0 <= k < |s| && s[k] == z;
      if k < |s| - 1 {
        assert cmp(z, s[|s| - 1]) <= 0;
      }
    }
    SortedSnoc(s, x, cmp);
  }

  /** Every element of `q`, the elements of `p` and `x`, may precede `last`. */
  lemma AllPrecede<T>(q: seq<T>, p: seq<T>, x: T, last: T, cmp: (T, T) -> int)
    requires multiset(q) == multiset(p) + multiset{x}
    requires forall k :: 0 <= k < |p| ==> cmp(p[k], last) <= 0
    requires cmp(x, last) <= 0
    ensures forall z :: z in q ==> cmp(z, last) <= 0
  {
    forall z | z in q ensures cmp(z, last) <= 0 {
      assert z in multiset(q);
      if z != x {
        assert z in multiset(p);
        var k :| 0 <= k < |p| && p[k] == z;
      }
    }
  }

  /** Inserting into a sorted sequence keeps it sorted. */
  lemma {:induction false} InsertSorted<T(!new)>(x: T, s: seq<T>, cmp: (T, T) -> int)
    requires IsComparator(cmp) && Sorted(s, cmp)
    ensures Sorted(Insert(x, s, cmp), cmp)
    decreases |s|
  {
    if s != [] {
      var p, last := s[..|s| - 1], s[|s| - 1];
      if cmp(last, x) > 0 {
        var q := Insert(x, p, cmp);
        assert Insert(x, s, cmp) == q + [last];
        assert Sorted(p, cmp) by {
          forall i, j | 0 <= i < j < |p| ensures cmp(p[i], p[j]) <= 0 {
            assert p[i] == s[i] && p[j] == s[j];
          }
        }
        InsertSorted(x, p, cmp);
        assert forall k :: 0 <= k < |p| ==> cmp(p[k], last) <= 0 by {
          forall k | 0 <= k < |p| ensures cmp(p[k], last) <= 0 {
            assert p[k] == s[k];
          }
        }
        assert cmp(x, last) <= 0;
        InsertPermutation(x, p, cmp);
        AllPrecede(q, p, x, last, cmp);
        SortedSnoc(q, last, cmp);
      } else {
        assert Insert(x, s, cmp) == s + [x];
        SortedAfterLast(s, x, cmp);
      }
    }
  }

  /** The result of the sort is sorted. */
  lemma {:induction false} SortSorted<T(!new)>(s: seq<T>, cmp: (T, T) -> int)
    requires IsComparator(cmp)
    ensures Sorted(Sort(s, cmp), cmp)
  {
    if s != [] {
      SortSorted(s[..|s| - 1], cmp);
      InsertSorted(s[|s| - 1], Sort(s[..|s| - 1], cmp), cmp);
    }
  }

  /** A sequence already in order is left exactly as it is. */
  lemma {:induction false} SortOfSorted<T>(s: seq<T>, cmp: (T, T) -> int)
    requires Sorted(s, cmp)
    ensures Sort(s, cmp) == s
  {
    if s != [] {
      var p, last := s[..|s| - 1], s[|s| - 1];
      assert Sorted(p, cmp) by {
        forall i, j | 0 <= i < j < |p| ensures cmp(p[i], p[j]) <= 0 {
          assert p[i] == s[i] && p[j] == s[j];
        }
      }
      SortOfSorted(p, cmp);
      assert Sort(s, cmp) == Insert(last, p, cmp);
      if p != [] {
        assert cmp(s[|p| - 1], last) <= 0;
        assert Insert(last, p, cmp) == p + [last];
      }
      assert s == p + [last];
    }
  }

  /** Sorting a sorted result again changes nothing. */
  lemma SortIdempotent<T(!new)>(s: seq<T>, cmp: (T, T) -> int)
    requires IsComparator(cmp)
    ensures Sort(Sort(s, cmp), cmp) == Sort(s, cmp)
  {
    SortSorted(s, cmp);
    SortOfSorted(Sort(s, cmp), cmp);
  }

  /** `[y]` when `y` compares equal to `x`, else nothing. */
  function IfEqual<T>(y: T, x: T, cmp: (T, T) -> int): seq<T> {
    if cmp(y, x) == 0 then [y] else []
  }

  /** The elements of `s` that compare equal to `x`, in their order in `s`. */
  function EqualRun<T>(s: seq<T>, x: T, cmp: (T, T) -> int): (r: seq<T>)
    ensures |r| <= |s|
  {
    if s == [] then [] else EqualRun(s[..|s| - 1], x, cmp) + IfEqual(s[|s| - 1], x, cmp)
  }

  lemma EqualRunSnoc<T>(s: seq<T>, y: T, x: T, cmp: (T, T) -> int)
    ensures EqualRun(s + [y], x, cmp) == EqualRun(s, x, cmp) + IfEqual(y, x, cmp)
  {
    assert (s + [y])[..|s|] == s;
  }

  /** An element that compares greater than `y` and `y` itself are not both equal
      to one `x`. */
  lemma NotBothEqual<T(!new)>(y: T, last: T, x: T, cmp: (T, T) -> int)
    requires IsComparator(cmp) && cmp(last, y) > 0
    ensures cmp(y, x) != 0 || cmp(last, x) != 0
  {
    assert cmp(x, y) == -cmp(y, x);
    assert cmp(last, x) <= 0 && cmp(x, y) <= 0 ==> cmp(last, y) <= 0;
  }

  /** Moving `y` past an element `last` leaves the run of every `x` as it was when
      the two are not both equal to `x`. */
  lemma EqualRunPastGreater<T>(y: T, q: seq<T>, p: seq<T>, last: T, x: T, cmp: (T, T) -> int)
    requires cmp(y, x) != 0 || cmp(last, x) != 0
    requires EqualRun(q, x, cmp) == EqualRun(p, x, cmp) + IfEqual(y, x, cmp)
    ensures EqualRun(q + [last], x, cmp) == EqualRun(p + [last], x, cmp) + IfEqual(y, x, cmp)
  {
    EqualRunSnoc(q, last, x, cmp);
    EqualRunSnoc(p, last, x, cmp);
    var a, fy, fl := EqualRun(p, x, cmp), IfEqual(y, x, cmp), IfEqual(last, x, cmp);
    if cmp(y, x) != 0 {
      assert fy == [];
      assert a + fy == a;
      assert EqualRun(p + [last], x, cmp) + fy == a + fl;
    } else {
      assert fl == [];
      assert EqualRun(q + [last], x, cmp) == a + fy;
    }
  }

  /** Inserting `y` puts it after every element that compares equal to it. */
  lemma {:induction false} EqualRunInsert<T(!new)>(y: T, s: seq<T>, x: T, cmp: (T, T) -> int)
    requires IsComparator(cmp)
    ensures EqualRun(Insert(y, s, cmp), x, cmp) == EqualRun(s, x, cmp) + IfEqual(y, x, cmp)
    decreases |s|
  {
    if s == [] {
      assert Insert(y, s, cmp) == s + [y];
      EqualRunSnoc(s, y, x, cmp);
    } else {
      var p, last := s[..|s| - 1], s[|s| - 1];
      assert s == p + [last];
      if cmp(last, y) > 0 {
        var q := Insert(y, p, cmp);
        assert Insert(y, s, cmp) == q + [last];
        EqualRunInsert(y, p, x, cmp);
        NotBothEqual(y, last, x, cmp);
        EqualRunPastGreater(y, q, p, last, x, cmp);
      } else {
        assert Insert(y, s, cmp) == s + [y];
        EqualRunSnoc(s, y, x, cmp);
      }
    }
  }

  /** Stability: the elements that compare equal to any `x` come out of the sort in
      the order they went in. */
  lemma {:induction false} SortStable<T(!new)>(s: seq<T>, x: T, cmp: (T, T) -> int)
    requires IsComparator(cmp)
    ensures EqualRun(Sort(s, cmp), x, cmp) == EqualRun(s, x, cmp)
  {
    if s != [] {
      var p := s[..|s| - 1];
      SortStable(p, x, cmp);
      EqualRunInsert(s[|s| - 1], Sort(p, cmp), x, cmp);
    }
  }
}
