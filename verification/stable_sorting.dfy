/** What a stable sort is, for any comparison that is a total preorder, and the
  facts about merging that compat/merge.c relies on.
*/
module StableSorting {

  /** The contract of a comparison function: opposite signs for swapped
      arguments, and transitive. */
  ghost predicate Preorder<T(!new)>(cmp: (T, T) -> int) {
    && (forall x, y :: cmp(x, y) > 0 <==> cmp(y, x) < 0)
    && (forall x, y, z :: cmp(x, y) <= 0 && cmp(y, z) <= 0 ==> cmp(x, z) <= 0)
  }

  ghost predicate Sorted<T>(cmp: (T, T) -> int, s: seq<T>) {
    forall i, j | 0 <= i < j < |s| :: cmp(s[i], s[j]) <= 0
  }

  /** The elements equivalent to k, in order. */
  function Equal<T>(cmp: (T, T) -> int, s: seq<T>, k: T): seq<T> {
    if s == [] then [] else
      Equal(cmp, s[..|s| - 1], k) + if cmp(s[|s| - 1], k) == 0 then [s[|s| - 1]] else []
  }

  /** The same elements, equivalent ones in the same order. */
  ghost predicate SameOrder<T(!new)>(cmp: (T, T) -> int, s: seq<T>, t: seq<T>) {
    forall k :: Equal(cmp, s, k) == Equal(cmp, t, k)
  }

  // ------------------------------------------------------------ the order

  lemma Opposite<T(!new)>(cmp: (T, T) -> int, x: T, y: T)
    requires Preorder(cmp)
    ensures cmp(x, y) > 0 <==> cmp(y, x) < 0
    ensures cmp(x, y) == 0 <==> cmp(y, x) == 0
    ensures cmp(x, x) == 0
  {
    assert cmp(y, x) > 0 <==> cmp(x, y) < 0;
  }

  lemma Chained<T(!new)>(cmp: (T, T) -> int, x: T, y: T, z: T)
    requires Preorder(cmp) && cmp(x, y) <= 0 && cmp(y, z) <= 0
    ensures cmp(x, z) <= 0 && (cmp(x, y) < 0 || cmp(y, z) < 0 ==> cmp(x, z) < 0)
  {
    Opposite(cmp, x, z);
    Opposite(cmp, x, y);
    Opposite(cmp, y, z);
    if cmp(x, z) >= 0 {
      assert cmp(z, x) <= 0;
      assert cmp(z, y) <= 0;
      assert cmp(y, x) <= 0;
    }
  }

  // ------------------------------------------------------------ equivalent elements

  lemma {:induction false} EqualConcat<T>(cmp: (T, T) -> int, s: seq<T>, t: seq<T>, k: T)
    ensures Equal(cmp, s + t, k) == Equal(cmp, s, k) + Equal(cmp, t, k)
    decreases |t|
  {
    if t == [] {
      assert s + t == s;
    } else {
      EqualConcat(cmp, s, t[..|t| - 1], k);
      assert (s + t)[..|s + t| - 1] == s + t[..|t| - 1];
    }
  }

  lemma EqualOne<T>(cmp: (T, T) -> int, x: T, k: T)
    ensures Equal(cmp, [x], k) == if cmp(x, k) == 0 then [x] else []
  {
    assert [x][..0] == [];
  }

  lemma EqualFirst<T>(cmp: (T, T) -> int, s: seq<T>, k: T)
    requires s != []
    ensures Equal(cmp, s, k) == (if cmp(s[0], k) == 0 then [s[0]] else []) + Equal(cmp, s[1..], k)
  {
    assert s == [s[0]] + s[1..];
    EqualConcat(cmp, [s[0]], s[1..], k);
    EqualOne(cmp, s[0], k);
  }

  lemma {:induction false} EqualNone<T>(cmp: (T, T) -> int, s: seq<T>, k: T)
    requires forall i | 0 <= i < |s| :: cmp(s[i], k) != 0
    ensures Equal(cmp, s, k) == []
    decreases |s|
  {
    if s != [] {
      EqualNone(cmp, s[..|s| - 1], k);
    }
  }

  lemma {:induction false} EqualElements<T>(cmp: (T, T) -> int, s: seq<T>, k: T)
    ensures forall x | x in Equal(cmp, s, k) :: x in s && cmp(x, k) == 0
    decreases |s|
  {
    if s != [] {
      EqualElements(cmp, s[..|s| - 1], k);
    }
  }

  lemma SameOrderConcat<T(!new)>(cmp: (T, T) -> int, s: seq<T>, t: seq<T>, s': seq<T>, t': seq<T>)
    requires SameOrder(cmp, s, s') && SameOrder(cmp, t, t')
    ensures SameOrder(cmp, s + t, s' + t')
  {
    forall k
      ensures Equal(cmp, s + t, k) == Equal(cmp, s' + t', k)
    {
      EqualConcat(cmp, s, t, k);
      EqualConcat(cmp, s', t', k);
    }
  }

  lemma SameOrderRefl<T(!new)>(cmp: (T, T) -> int, s: seq<T>)
    ensures SameOrder(cmp, s, s)
  {
  }

  lemma SameOrderTrans<T(!new)>(cmp: (T, T) -> int, s: seq<T>, t: seq<T>, u: seq<T>)
    requires SameOrder(cmp, s, t) && SameOrder(cmp, t, u)
    ensures SameOrder(cmp, s, u)
  {
  }

  /** Replacing a part in the middle. */
  lemma SameOrderInside<T(!new)>(cmp: (T, T) -> int, a: seq<T>, m: seq<T>, m': seq<T>, z: seq<T>)
    requires SameOrder(cmp, m, m')
    ensures SameOrder(cmp, a + m + z, a + m' + z)
  {
    hide SameOrder;
    SameOrderRefl(cmp, a);
    SameOrderRefl(cmp, z);
    SameOrderConcat(cmp, a, m, a, m');
    SameOrderConcat(cmp, a + m, z, a + m', z);
  }

  /** Equal elements in the same order make the same multiset. */
  lemma SameOrderIsPermutation<T(!new)>(cmp: (T, T) -> int, s: seq<T>, t: seq<T>)
    requires Preorder(cmp) && SameOrder(cmp, s, t)
    ensures multiset(s) == multiset(t)
  {
    forall x
      ensures multiset(s)[x] == multiset(t)[x]
    {
      CountInEqual(cmp, s, x);
      CountInEqual(cmp, t, x);
    }
  }

  lemma {:induction false} CountInEqual<T(!new)>(cmp: (T, T) -> int, s: seq<T>, x: T)
    requires Preorder(cmp)
    ensures multiset(Equal(cmp, s, x))[x] == multiset(s)[x]
    decreases |s|
  {
    if s != [] {
      var front, last := s[..|s| - 1], s[|s| - 1];
      assert s == front + [last];
      CountInEqual(cmp, front, x);
      Opposite(cmp, x, x);
    }
  }

  /** There is only one stable sorted arrangement. */
  lemma {:induction false} StableSortIsUnique<T(!new)>(cmp: (T, T) -> int, s: seq<T>, t: seq<T>)
    requires Preorder(cmp) && Sorted(cmp, s) && Sorted(cmp, t) && SameOrder(cmp, s, t)
    ensures s == t
    decreases |s|
  {
    hide Preorder;
    if s == [] || t == [] {
      if s != [] {
        OneEquivalent(cmp, s, t);
        assert false;
      } else if t != [] {
        OneEquivalent(cmp, t, s);
        assert false;
      }
    } else {
      SameFirst(cmp, s, t);
      forall k
        ensures Equal(cmp, s[1..], k) == Equal(cmp, t[1..], k)
      {
        EqualFirst(cmp, s, k);
        EqualFirst(cmp, t, k);
        var head := if cmp(s[0], k) == 0 then [s[0]] else [];
        assert (head + Equal(cmp, s[1..], k))[|head|..] == Equal(cmp, s[1..], k);
        assert (head + Equal(cmp, t[1..], k))[|head|..] == Equal(cmp, t[1..], k);
      }
      StableSortIsUnique(cmp, s[1..], t[1..]);
    }
  }

  /** t has an element equivalent to the first of s. */
  lemma OneEquivalent<T(!new)>(cmp: (T, T) -> int, s: seq<T>, t: seq<T>)
    requires Preorder(cmp) && SameOrder(cmp, s, t) && s != []
    ensures Equal(cmp, t, s[0]) != [] && Equal(cmp, t, s[0])[0] == s[0]
    ensures exists i | 0 <= i < |t| :: cmp(t[i], s[0]) == 0
  {
    EqualFirst(cmp, s, s[0]);
    Opposite(cmp, s[0], s[0]);
    EqualElements(cmp, t, s[0]);
    assert Equal(cmp, t, s[0])[0] in Equal(cmp, t, s[0]);
    assert s[0] in t;
  }

  lemma SameFirst<T(!new)>(cmp: (T, T) -> int, s: seq<T>, t: seq<T>)
    requires Preorder(cmp) && Sorted(cmp, s) && Sorted(cmp, t) && SameOrder(cmp, s, t) && s != [] && t != []
    ensures s[0] == t[0]
  {
    hide Preorder, SameOrder;
    OneEquivalent(cmp, s, t);
    var i :| 0 <= i < |t| && cmp(t[i], s[0]) == 0;
    SameOrderSymmetric(cmp, s, t);
    OneEquivalent(cmp, t, s);
    var j :| 0 <= j < |s| && cmp(s[j], t[0]) == 0;
    Opposite(cmp, t[0], t[0]);
    Opposite(cmp, s[0], s[0]);
    Chained(cmp, t[0], t[i], s[0]);
    Chained(cmp, s[0], s[j], t[0]);
    Opposite(cmp, t[0], s[0]);
    EqualFirst(cmp, t, s[0]);
  }

  lemma SameOrderSymmetric<T(!new)>(cmp: (T, T) -> int, s: seq<T>, t: seq<T>)
    requires SameOrder(cmp, s, t)
    ensures SameOrder(cmp, t, s)
  {
  }

  // ------------------------------------------------------------ swapping and reversing

  /** Neighbours in the wrong order may be swapped. */
  lemma SwapKeepsOrder<T(!new)>(cmp: (T, T) -> int, s: seq<T>, i: nat)
    requires Preorder(cmp) && i + 1 < |s| && cmp(s[i], s[i + 1]) > 0
    ensures SameOrder(cmp, s[i := s[i + 1]][i + 1 := s[i]], s)
  {
    var x, y := s[i], s[i + 1];
    forall k
      ensures Equal(cmp, [y] + [x], k) == Equal(cmp, [x] + [y], k)
    {
      EqualConcat(cmp, [x], [y], k);
      EqualConcat(cmp, [y], [x], k);
      EqualOne(cmp, x, k);
      EqualOne(cmp, y, k);
      if cmp(x, k) == 0 && cmp(y, k) == 0 {
        Opposite(cmp, y, k);
        Chained(cmp, x, k, y);
      }
    }
    SameOrderInside(cmp, s[..i], [y] + [x], [x] + [y], s[i + 2..]);
    assert s == s[..i] + ([x] + [y]) + s[i + 2..];
    assert s[i := s[i + 1]][i + 1 := s[i]] == s[..i] + ([y] + [x]) + s[i + 2..];
  }

  ghost predicate StrictlyDescending<T>(cmp: (T, T) -> int, s: seq<T>) {
    forall i, j | 0 <= i < j < |s| :: cmp(s[i], s[j]) > 0
  }

  function Reversed<T>(s: seq<T>): (r: seq<T>)
    ensures |r| == |s| && forall i | 0 <= i < |s| :: r[i] == s[|s| - 1 - i]
  {
    if s == [] then [] else Reversed(s[1..]) + [s[0]]
  }

  /** Below an element equivalent to k a strictly descending run has no other. */
  lemma NoneBelow<T(!new)>(cmp: (T, T) -> int, s: seq<T>, k: T)
    requires Preorder(cmp) && StrictlyDescending(cmp, s) && s != [] && cmp(s[0], k) == 0
    ensures Equal(cmp, s[1..], k) == []
  {
    hide Preorder;
    forall i | 0 <= i < |s| - 1
      ensures cmp(s[1..][i], k) != 0
    {
      var x, y := s[0], s[i + 1];
      assert cmp(x, y) > 0;
      if cmp(y, k) == 0 {
        Opposite(cmp, y, k);
        Chained(cmp, x, k, y);
      }
    }
    EqualNone(cmp, s[1..], k);
  }

  /** A strictly descending run may be reversed, and is sorted then. */
  lemma {:induction false} ReversedKeepsOrder<T(!new)>(cmp: (T, T) -> int, s: seq<T>)
    requires Preorder(cmp) && StrictlyDescending(cmp, s)
    ensures SameOrder(cmp, Reversed(s), s) && Sorted(cmp, Reversed(s))
  {
    hide Preorder, Equal;
    if s == [] {
      SameOrderRefl(cmp, s);
    } else {
      var x, tail := s[0], s[1..];
      ReversedKeepsOrder(cmp, tail);
      forall k
        ensures Equal(cmp, Reversed(tail) + [x], k) == Equal(cmp, s, k)
      {
        EqualConcat(cmp, Reversed(tail), [x], k);
        EqualOne(cmp, x, k);
        EqualFirst(cmp, s, k);
        if cmp(x, k) == 0 {
          NoneBelow(cmp, s, k);
        }
      }
      forall i, j | 0 <= i < j < |s|
        ensures cmp(Reversed(s)[i], Reversed(s)[j]) <= 0
      {
        assert cmp(s[|s| - 1 - j], s[|s| - 1 - i]) > 0;
        Opposite(cmp, s[|s| - 1 - j], s[|s| - 1 - i]);
      }
    }
  }

  // ------------------------------------------------------------ merging

  /** Merging two runs, the first one's elements going first among equivalents. */
  function Merge<T>(cmp: (T, T) -> int, s: seq<T>, t: seq<T>): (m: seq<T>)
    ensures |m| == |s| + |t|
    decreases |s| + |t|
  {
    if s == [] then t
    else if t == [] then s
    else if cmp(s[0], t[0]) <= 0 then [s[0]] + Merge(cmp, s[1..], t)
    else [t[0]] + Merge(cmp, s, t[1..])
  }

  lemma MergeStep<T>(cmp: (T, T) -> int, s: seq<T>, t: seq<T>)
    requires s != [] && t != []
    ensures Merge(cmp, s, t) ==
            if cmp(s[0], t[0]) <= 0 then [s[0]] + Merge(cmp, s[1..], t) else [t[0]] + Merge(cmp, s, t[1..])
  {
  }

  /** The elements of s that go before t[0], and t[0] itself, in one step. */
  lemma {:induction false} MergeFromFirst<T>(cmp: (T, T) -> int, s: seq<T>, t: seq<T>, c: nat)
    requires t != [] && c <= |s| && forall i | 0 <= i < c :: cmp(s[i], t[0]) <= 0
    requires c < |s| ==> cmp(s[c], t[0]) > 0
    ensures Merge(cmp, s, t) == s[..c] + [t[0]] + Merge(cmp, s[c..], t[1..])
    decreases c
  {
    if c > 0 {
      MergeFromFirst(cmp, s[1..], t, c - 1);
      assert s[1..][c - 1..] == s[c..];
      assert [s[0]] + s[1..][..c - 1] == s[..c];
      var rest := Merge(cmp, s[c..], t[1..]);
      assert [s[0]] + (s[1..][..c - 1] + [t[0]] + rest) == [s[0]] + s[1..][..c - 1] + [t[0]] + rest;
    } else {
      assert s[..0] == [] && s[0..] == s;
      if s == [] {
        assert t == [t[0]] + t[1..];
        assert Merge(cmp, [], t[1..]) == t[1..];
      }
    }
  }

  /** The elements of t that go before s[0], and s[0] itself, in one step. */
  lemma {:induction false} MergeFromSecond<T>(cmp: (T, T) -> int, s: seq<T>, t: seq<T>, c: nat)
    requires s != [] && c <= |t| && forall i | 0 <= i < c :: cmp(s[0], t[i]) > 0
    requires c < |t| ==> cmp(s[0], t[c]) <= 0
    ensures Merge(cmp, s, t) == t[..c] + [s[0]] + Merge(cmp, s[1..], t[c..])
    decreases c
  {
    if c > 0 {
      MergeStep(cmp, s, t);
      MergeFromSecond(cmp, s, t[1..], c - 1);
      assert t[1..][c - 1..] == t[c..];
      assert [t[0]] + t[1..][..c - 1] == t[..c];
      var rest := Merge(cmp, s[1..], t[c..]);
      assert [t[0]] + (t[1..][..c - 1] + [s[0]] + rest) == [t[0]] + t[1..][..c - 1] + [s[0]] + rest;
    } else {
      assert t[..0] == [] && t[0..] == t;
      if t == [] {
        assert s == [s[0]] + s[1..];
        assert Merge(cmp, s, []) == s && Merge(cmp, s[1..], []) == s[1..];
      } else {
        MergeStep(cmp, s, t);
      }
    }
  }

  lemma {:induction false} MergeElements<T>(cmp: (T, T) -> int, s: seq<T>, t: seq<T>)
    ensures forall x | x in Merge(cmp, s, t) :: x in s || x in t
    decreases |s| + |t|
  {
    if s != [] && t != [] {
      if cmp(s[0], t[0]) <= 0 {
        MergeElements(cmp, s[1..], t);
      } else {
        MergeElements(cmp, s, t[1..]);
      }
    }
  }

  /** Merging sorted runs sorts them. */
  lemma {:induction false} MergeSorts<T(!new)>(cmp: (T, T) -> int, s: seq<T>, t: seq<T>)
    requires Preorder(cmp) && Sorted(cmp, s) && Sorted(cmp, t)
    ensures Sorted(cmp, Merge(cmp, s, t))
    decreases |s| + |t|
  {
    hide Preorder;
    if s != [] && t != [] {
      var first := if cmp(s[0], t[0]) <= 0 then s[0] else t[0];
      var s', t' := if cmp(s[0], t[0]) <= 0 then s[1..] else s, if cmp(s[0], t[0]) <= 0 then t else t[1..];
      MergeSorts(cmp, s', t');
      MergeElements(cmp, s', t');
      Opposite(cmp, s[0], t[0]);
      FirstIsLeast(cmp, s, t, first);
      var m := Merge(cmp, s', t');
      SortedCons(cmp, first, m);
    }
  }

  lemma FirstIsLeast<T(!new)>(cmp: (T, T) -> int, s: seq<T>, t: seq<T>, first: T)
    requires Preorder(cmp) && Sorted(cmp, s) && Sorted(cmp, t) && s != [] && t != []
    requires first == if cmp(s[0], t[0]) <= 0 then s[0] else t[0]
    ensures forall x | x in s || x in t :: cmp(first, x) <= 0
  {
    hide Preorder;
    Opposite(cmp, s[0], t[0]);
    Opposite(cmp, s[0], s[0]);
    Opposite(cmp, t[0], t[0]);
    forall x | x in s || x in t
      ensures cmp(first, x) <= 0
    {
      if x in s {
        var i :| 0 <= i < |s| && s[i] == x;
        Chained(cmp, first, s[0], s[i]);
      } else {
        var i :| 0 <= i < |t| && t[i] == x;
        Chained(cmp, first, t[0], t[i]);
      }
    }
  }

  lemma SortedCons<T>(cmp: (T, T) -> int, x: T, s: seq<T>)
    requires Sorted(cmp, s) && forall y | y in s :: cmp(x, y) <= 0
    ensures Sorted(cmp, [x] + s)
  {
    forall i, j | 0 <= i < j < |[x] + s|
      ensures cmp(([x] + s)[i], ([x] + s)[j]) <= 0
    {
      assert s[j - 1] in s;
    }
  }

  /** Merging sorted runs keeps the order of equivalent elements. */
  lemma MergeKeepsOrder<T(!new)>(cmp: (T, T) -> int, s: seq<T>, t: seq<T>)
    requires Preorder(cmp) && Sorted(cmp, s) && Sorted(cmp, t)
    ensures SameOrder(cmp, Merge(cmp, s, t), s + t)
  {
    hide Preorder, Sorted;
    forall k
      ensures Equal(cmp, Merge(cmp, s, t), k) == Equal(cmp, s + t, k)
    {
      MergeKeepsEqual(cmp, s, t, k);
      EqualConcat(cmp, s, t, k);
    }
  }

  lemma {:induction false} MergeKeepsEqual<T(!new)>(cmp: (T, T) -> int, s: seq<T>, t: seq<T>, k: T)
    requires Preorder(cmp) && Sorted(cmp, s) && Sorted(cmp, t)
    ensures Equal(cmp, Merge(cmp, s, t), k) == Equal(cmp, s, k) + Equal(cmp, t, k)
    decreases |s| + |t|
  {
    hide *;
    if s == [] || t == [] {
      MergeWithNone(cmp, s, t);
      EqualConcat(cmp, s, t, k);
    } else if cmp(s[0], t[0]) <= 0 {
      SortedTail(cmp, s);
      MergeKeepsEqual(cmp, s[1..], t, k);
      MergeStep(cmp, s, t);
      FrontEqual(cmp, s[0], Merge(cmp, s[1..], t), k);
      EqualFirst(cmp, s, k);
      Regroup(if cmp(s[0], k) == 0 then [s[0]] else [], Equal(cmp, s[1..], k), Equal(cmp, t, k));
    } else {
      SortedTail(cmp, t);
      MergeKeepsEqual(cmp, s, t[1..], k);
      MergeStep(cmp, s, t);
      FrontEqual(cmp, t[0], Merge(cmp, s, t[1..]), k);
      EqualFirst(cmp, t, k);
      if cmp(t[0], k) == 0 {
        AllAbove(cmp, s, t[0], k);
      }
      PassOver(if cmp(t[0], k) == 0 then [t[0]] else [], Equal(cmp, s, k), Equal(cmp, t[1..], k));
    }
  }

  lemma MergeWithNone<T>(cmp: (T, T) -> int, s: seq<T>, t: seq<T>)
    requires s == [] || t == []
    ensures Merge(cmp, s, t) == s + t
  {
  }

  lemma SortedTail<T>(cmp: (T, T) -> int, s: seq<T>)
    requires Sorted(cmp, s) && s != []
    ensures Sorted(cmp, s[1..])
  {
  }

  lemma Regroup<T>(a: seq<T>, b: seq<T>, c: seq<T>)
    ensures a + (b + c) == a + b + c
  {
  }

  lemma PassOver<T>(a: seq<T>, b: seq<T>, c: seq<T>)
    requires a == [] || b == []
    ensures a + (b + c) == b + (a + c)
  {
  }

  lemma FrontEqual<T>(cmp: (T, T) -> int, x: T, s: seq<T>, k: T)
    ensures Equal(cmp, [x] + s, k) == (if cmp(x, k) == 0 then [x] else []) + Equal(cmp, s, k)
  {
    EqualConcat(cmp, [x], s, k);
    EqualOne(cmp, x, k);
  }

  /** Nothing in a run whose first element is above x is equivalent to x. */
  lemma AllAbove<T(!new)>(cmp: (T, T) -> int, s: seq<T>, x: T, k: T)
    requires Preorder(cmp) && Sorted(cmp, s) && s != [] && cmp(s[0], x) > 0 && cmp(x, k) == 0
    ensures Equal(cmp, s, k) == []
  {
    hide Preorder;
    forall i | 0 <= i < |s|
      ensures cmp(s[i], k) != 0
    {
      if cmp(s[i], k) == 0 {
        Opposite(cmp, s[0], s[0]);
        Opposite(cmp, x, k);
        Chained(cmp, s[0], s[i], k);
        Chained(cmp, s[0], k, x);
      }
    }
    EqualNone(cmp, s, k);
  }
}
