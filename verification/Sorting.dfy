/** Stable sorting by a total preorder, as sorted() does it. */
module Sorting {

  ghost predicate TotalPreorder<T(!new)>(le: (T, T) -> bool) {
    && (forall a, b :: le(a, b) || le(b, a))
    && (forall a, b, c :: le(a, b) && le(b, c) ==> le(a, c))
  }

  ghost predicate Sorted<T>(s: seq<T>, le: (T, T) -> bool) {
    forall i, j :: 0 <= i < j < |s| ==> le(s[i], s[j])
  }

  /** How Python orders two tuples of one length: by the first place where they differ. */
  ghost predicate TupleLess(a: seq<int>, b: seq<int>)
    requires |a| == |b|
  {
    exists k :: 0 <= k < |a| && a[..k] == b[..k] && a[k] < b[k]
  }

  ghost predicate TupleLeq(a: seq<int>, b: seq<int>)
    requires |a| == |b|
  {
    a == b || TupleLess(a, b)
  }

  lemma TupleTail(x: int, a: seq<int>, b: seq<int>, k: nat)
    requires |a| == |b| && k < |a|
    ensures ([x] + a)[..k + 1] == ([x] + b)[..k + 1] <==> a[..k] == b[..k]
  {
    assert ([x] + a)[..k + 1] == [x] + a[..k] && ([x] + b)[..k + 1] == [x] + b[..k];
    assert ([x] + a[..k])[1..] == a[..k] && ([x] + b[..k])[1..] == b[..k];
  }

  lemma HeadDecides(x: int, a: seq<int>, y: int, b: seq<int>)
    requires |a| == |b| && TupleLess([x] + a, [y] + b)
    ensures x < y || (x == y && TupleLess(a, b))
  {
    var s, t := [x] + a, [y] + b;
    var k :| 0 <= k < |s| && s[..k] == t[..k] && s[k] < t[k];
    if k > 0 {
      assert s[..k][0] == t[..k][0];
      TupleTail(x, a, b, k - 1);
      assert a[k - 1] < b[k - 1];
    }
  }

  /** The first place decides, and behind it the rest. */
  lemma TupleLessByHead(x: int, a: seq<int>, y: int, b: seq<int>)
    requires |a| == |b|
    ensures TupleLess([x] + a, [y] + b) <==> x < y || (x == y && TupleLess(a, b))
  {
    var s, t := [x] + a, [y] + b;
    if TupleLess(s, t) {
      HeadDecides(x, a, y, b);
    }
    if x < y {
      assert s[..0] == t[..0] && s[0] < t[0];
    } else if x == y && TupleLess(a, b) {
      var k :| 0 <= k < |a| && a[..k] == b[..k] && a[k] < b[k];
      TupleTail(x, a, b, k);
      assert s[k + 1] < t[k + 1];
    }
  }

  lemma Tuples2(a0: int, a1: int, b0: int, b1: int)
    ensures TupleLess([a0, a1], [b0, b1])
            <==> a0 < b0 || (a0 == b0 && a1 < b1)
  {
    TupleLessByHead(a1, [], b1, []);
    assert [a1] + [] == [a1] && [b1] + [] == [b1];
    TupleLessByHead(a0, [a1], b0, [b1]);
    assert [a0] + [a1] == [a0, a1] && [b0] + [b1] == [b0, b1];
  }

  lemma Tuples3(a0: int, a1: int, a2: int, b0: int, b1: int, b2: int)
    ensures TupleLess([a0, a1, a2], [b0, b1, b2])
            <==> a0 < b0 || (a0 == b0 && (a1 < b1 || (a1 == b1 && a2 < b2)))
  {
    Tuples2(a1, a2, b1, b2);
    TupleLessByHead(a0, [a1, a2], b0, [b1, b2]);
    assert [a0] + [a1, a2] == [a0, a1, a2] && [b0] + [b1, b2] == [b0, b1, b2];
  }

  lemma Tuples4(a0: int, a1: int, a2: int, a3: int, b0: int, b1: int, b2: int, b3: int)
    ensures TupleLess([a0, a1, a2, a3], [b0, b1, b2, b3])
            <==> a0 < b0 || (a0 == b0 && (a1 < b1 || (a1 == b1 && (a2 < b2 || (a2 == b2 && a3 < b3)))))
  {
    Tuples3(a1, a2, a3, b1, b2, b3);
    TupleLessByHead(a0, [a1, a2, a3], b0, [b1, b2, b3]);
    assert [a0] + [a1, a2, a3] == [a0, a1, a2, a3] && [b0] + [b1, b2, b3] == [b0, b1, b2, b3];
  }

  lemma Tuples5(a0: int, a1: int, a2: int, a3: int, a4: int, b0: int, b1: int, b2: int, b3: int, b4: int)
    ensures TupleLess([a0, a1, a2, a3, a4], [b0, b1, b2, b3, b4])
            <==> || a0 < b0
                 || (a0 == b0 && a1 < b1)
                 || (a0 == b0 && a1 == b1 && (a2 < b2 || (a2 == b2 && (a3 < b3 || (a3 == b3 && a4 < b4)))))
  {
    Tuples4(a1, a2, a3, a4, b1, b2, b3, b4);
    TupleLessByHead(a0, [a1, a2, a3, a4], b0, [b1, b2, b3, b4]);
    assert [a0] + [a1, a2, a3, a4] == [a0, a1, a2, a3, a4] && [b0] + [b1, b2, b3, b4] == [b0, b1, b2, b3, b4];
  }

  /** x goes behind everything it does not precede. */
  function Insert<T>(s: seq<T>, x: T, le: (T, T) -> bool): seq<T> {
    if s == [] then [x]
    else if le(s[|s| - 1], x) then s + [x]
    else Insert(s[..|s| - 1], x, le) + [s[|s| - 1]]
  }

  function Sort<T>(s: seq<T>, le: (T, T) -> bool): seq<T> {
    if s == [] then [] else Insert(Sort(s[..|s| - 1], le), s[|s| - 1], le)
  }

  lemma {:induction false} InsertPermutes<T>(s: seq<T>, x: T, le: (T, T) -> bool)
    ensures multiset(Insert(s, x, le)) == multiset(s) + multiset{x}
  {
    if s == [] {
    } else {
      assert s == s[..|s| - 1] + [s[|s| - 1]];
      if !le(s[|s| - 1], x) {
        InsertPermutes(s[..|s| - 1], x, le);
      }
    }
  }

  lemma {:induction false} SortPermutes<T>(s: seq<T>, le: (T, T) -> bool)
    ensures multiset(Sort(s, le)) == multiset(s)
  {
    if s == [] {
    } else {
      assert s == s[..|s| - 1] + [s[|s| - 1]];
      SortPermutes(s[..|s| - 1], le);
      InsertPermutes(Sort(s[..|s| - 1], le), s[|s| - 1], le);
    }
  }

  /** Inserting splits a sorted sequence where x belongs. */
  lemma {:induction false} InsertSplits<T>(s: seq<T>, x: T, le: (T, T) -> bool, k: nat)
    requires k <= |s|
    requires forall i :: 0 <= i < k ==> le(s[i], x)
    requires forall i :: k <= i < |s| ==> !le(s[i], x)
    ensures Insert(s, x, le) == s[..k] + [x] + s[k..]
  {
    if k == |s| {
      assert s[..k] == s && s[k..] == [];
    } else {
      var front := s[..|s| - 1];
      InsertSplits(front, x, le, k);
      assert front[k..] + [s[|s| - 1]] == s[k..];
    }
  }

  lemma {:induction false} InsertSorts<T(!new)>(s: seq<T>, x: T, le: (T, T) -> bool)
    requires TotalPreorder(le) && Sorted(s, le)
    ensures Sorted(Insert(s, x, le), le)
  {
    if s != [] && !le(s[|s| - 1], x) {
      var front := s[..|s| - 1];
      InsertSorts(front, x, le);
      InsertPermutes(front, x, le);
      var r := Insert(front, x, le);
      forall i | 0 <= i < |r| ensures le(r[i], s[|s| - 1]) {
        assert r[i] in multiset(r);
        assert r[i] == x || r[i] in front;
      }
    } else if s != [] {
      forall i | 0 <= i < |s| ensures le(s[i], x) {
        assert i < |s| - 1 ==> le(s[i], s[|s| - 1]);
      }
    }
  }

  lemma {:induction false} SortSorts<T(!new)>(s: seq<T>, le: (T, T) -> bool)
    requires TotalPreorder(le)
    ensures Sorted(Sort(s, le), le)
  {
    if s == [] {
    } else {
      SortSorts(s[..|s| - 1], le);
      InsertSorts(Sort(s[..|s| - 1], le), s[|s| - 1], le);
    }
  }

  lemma {:induction false} SortKeepsSorted<T>(s: seq<T>, le: (T, T) -> bool)
    requires Sorted(s, le)
    ensures Sort(s, le) == s
  {
    if s == [] {
    } else {
      var front := s[..|s| - 1];
      SortKeepsSorted(front, le);
      if |front| > 0 {
        assert le(s[|s| - 2], s[|s| - 1]);
      }
      assert front + [s[|s| - 1]] == s;
    }
  }

  lemma {:induction false} SameLeast<T(!new)>(a: seq<T>, b: seq<T>, less: (T, T) -> bool)
    requires forall x, y :: less(x, y) ==> !less(y, x)
    requires Sorted(a, less) && Sorted(b, less) && multiset(a) == multiset(b)
    requires a != [] && b != []
    ensures a[0] == b[0]
  {
    assert a[0] in multiset(b) && b[0] in multiset(a);
    var i :| 0 <= i < |b| && b[i] == a[0];
    var j :| 0 <= j < |a| && a[j] == b[0];
  }

  lemma RestPermutes<T>(a: seq<T>, b: seq<T>)
    requires a != [] && b != [] && a[0] == b[0] && multiset(a) == multiset(b)
    ensures multiset(a[1..]) == multiset(b[1..])
  {
    assert a == [a[0]] + a[1..] && b == [b[0]] + b[1..];
    assert multiset(a[1..]) == multiset(a) - multiset{a[0]};
    assert multiset(b[1..]) == multiset(b) - multiset{b[0]};
  }

  /** An order without ties admits one sorted arrangement. */
  lemma {:induction false} StrictOrderIsUnique<T(!new)>(a: seq<T>, b: seq<T>, less: (T, T) -> bool)
    requires forall x, y :: less(x, y) ==> !less(y, x)
    requires Sorted(a, less) && Sorted(b, less) && multiset(a) == multiset(b)
    ensures a == b
  {
    assert |a| == |multiset(a)| == |multiset(b)| == |b|;
    if a == [] {
    } else {
      SameLeast(a, b, less);
      RestPermutes(a, b);
      StrictOrderIsUnique(a[1..], b[1..], less);
      assert a == [a[0]] + a[1..] && b == [b[0]] + b[1..];
    }
  }

  /** A permutation holds the last element somewhere, and the rest around it. */
  lemma SplitAt<T>(a: seq<T>, b: seq<T>) returns (front: seq<T>, back: seq<T>)
    requires a != [] && multiset(a) == multiset(b)
    ensures b == front + [a[|a| - 1]] + back
    ensures multiset(a[..|a| - 1]) == multiset(front + back)
  {
    var x := a[|a| - 1];
    assert a == a[..|a| - 1] + [x];
    assert x in multiset(b);
    var k :| 0 <= k < |b| && b[k] == x;
    front, back := b[..k], b[k + 1..];
    assert b == front + [x] + back;
    assert multiset(front + back) == multiset(b) - multiset{x};
    assert multiset(a[..|a| - 1]) == multiset(a) - multiset{x};
  }

  // ----- permutations

  predicate NoRepeats<T(==)>(s: seq<T>) {
    forall i, j :: 0 <= i < j < |s| ==> s[i] != s[j]
  }

  lemma RepeatCounts<T>(s: seq<T>, i: nat, j: nat)
    requires i < j < |s| && s[i] == s[j]
    ensures multiset(s)[s[i]] >= 2
  {
    assert s == s[..j] + s[j..];
    assert s[i] in s[..j] && s[i] in s[j..];
    assert multiset(s)[s[i]] == multiset(s[..j])[s[i]] + multiset(s[j..])[s[i]];
  }

  lemma {:induction false} NoRepeatCounts<T>(s: seq<T>, x: T)
    requires NoRepeats(s)
    ensures multiset(s)[x] <= 1
  {
    if s == [] {
    } else {
      var front, last := s[..|s| - 1], s[|s| - 1];
      NoRepeatCounts(front, x);
      assert s == front + [last];
      assert last !in front;
    }
  }

  lemma {:induction false} SameMembers<T>(a: seq<T>, b: seq<T>)
    requires multiset(a) == multiset(b)
    ensures forall x :: x in a <==> x in b
  {
    forall x ensures x in a <==> x in b {
      assert x in a <==> x in multiset(a);
      assert x in b <==> x in multiset(b);
    }
  }

  lemma {:induction false} PermutationHasNoRepeats<T>(a: seq<T>, b: seq<T>)
    requires NoRepeats(a) && multiset(a) == multiset(b)
    ensures NoRepeats(b)
  {
    forall i, j | 0 <= i < j < |b| ensures b[i] != b[j] {
      if b[i] == b[j] {
        RepeatCounts(b, i, j);
        NoRepeatCounts(a, b[i]);
      }
    }
  }

  function Map<T, U>(s: seq<T>, f: T -> U): (r: seq<U>)
    ensures |r| == |s| && forall i :: 0 <= i < |s| ==> r[i] == f(s[i])
  {
    if s == [] then [] else Map(s[..|s| - 1], f) + [f(s[|s| - 1])]
  }

  lemma {:induction false} MapConcat<T, U>(a: seq<T>, b: seq<T>, f: T -> U)
    ensures Map(a + b, f) == Map(a, f) + Map(b, f)
  {
  }

  /** Renaming a permutation gives a permutation. */
  lemma {:induction false} MapPermutes<T, U>(a: seq<T>, b: seq<T>, f: T -> U)
    requires multiset(a) == multiset(b)
    ensures multiset(Map(a, f)) == multiset(Map(b, f))
  {
    if a == [] {
      assert |b| == |multiset(b)| == |multiset(a)|;
    } else {
      var x := a[|a| - 1];
      var front, back := SplitAt(a, b);
      MapPermutes(a[..|a| - 1], front + back, f);
      MapConcat(front + [x], back, f);
      MapConcat(front, [x], f);
      MapConcat(front, back, f);
      assert Map([x], f) == [f(x)];
    }
  }
}
