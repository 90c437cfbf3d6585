/** The natural merge sort of compat/merge.c. Positions are counted in elements;
  the linked list of run ends that the C code packs into the spare buffer is an
  array of indices here, one beside each of the two lists.
*/
module MergeSort {
  import opened StableSorting

  const THRESHOLD: nat := 16
  const PSIZE: nat := 8

  // ------------------------------------------------------------ the search

  /** x goes before the key q; `sense` is -1 when elements equivalent to q do too. */
  predicate Before<T>(cmp: (T, T) -> int, q: T, sense: int, x: T) {
    cmp(q, x) > sense
  }

  /** c is the first index in [b, t) whose element does not go before q, or t. */
  ghost predicate IsCut<T>(cmp: (T, T) -> int, s: seq<T>, q: T, sense: int, b: nat, t: nat, c: nat) {
    && b <= c <= t <= |s|
    && (forall k | b <= k < c :: Before(cmp, q, sense, s[k]))
    && (forall k | c <= k < t :: !Before(cmp, q, sense, s[k]))
  }

  ghost predicate SortedIn<T>(cmp: (T, T) -> int, s: seq<T>, lo: nat, hi: nat) {
    lo <= hi <= |s| && forall i, j | lo <= i < j < hi :: cmp(s[i], s[j]) <= 0
  }

  /** In a sorted run what goes before q is a prefix. */
  lemma BeforeIsPrefix<T(!new)>(cmp: (T, T) -> int, s: seq<T>, q: T, sense: int, lo: nat, hi: nat, p: nat)
    requires Preorder(cmp) && SortedIn(cmp, s, lo, hi) && lo <= p < hi && -1 <= sense <= 0
    ensures Before(cmp, q, sense, s[p]) ==> forall k | lo <= k <= p :: Before(cmp, q, sense, s[k])
    ensures !Before(cmp, q, sense, s[p]) ==> forall k | p <= k < hi :: !Before(cmp, q, sense, s[k])
  {
    hide Preorder;
    forall k | lo <= k < p && Before(cmp, q, sense, s[p])
      ensures Before(cmp, q, sense, s[k])
    {
      BeforeEarlier(cmp, q, sense, s[k], s[p]);
    }
    forall k | p < k < hi && !Before(cmp, q, sense, s[p])
      ensures !Before(cmp, q, sense, s[k])
    {
      if Before(cmp, q, sense, s[k]) {
        BeforeEarlier(cmp, q, sense, s[p], s[k]);
      }
    }
  }

  lemma BeforeEarlier<T(!new)>(cmp: (T, T) -> int, q: T, sense: int, x: T, y: T)
    requires Preorder(cmp) && cmp(x, y) <= 0 && Before(cmp, q, sense, y) && -1 <= sense <= 0
    ensures Before(cmp, q, sense, x)
  {
    hide Preorder;
    Opposite(cmp, q, y);
    Opposite(cmp, y, q);
    Opposite(cmp, q, x);
    Opposite(cmp, x, q);
    Chained(cmp, x, y, q);
  }

  ghost predicate PowerOfTwo(i: int) {
    i == 1 || (i > 1 && i % 2 == 0 && PowerOfTwo(i / 2))
  }

  lemma Powers()
    ensures PowerOfTwo(1)
    ensures forall i: int :: i > 0 && PowerOfTwo(i) ==>
              PowerOfTwo(i * 2) && (i > 1 ==> PowerOfTwo(i / 2) && i == i / 2 * 2)
  {
  }

  /** The search of mergesort(): linear for up to six elements, or exponential and
      then by halving; `big` remembers which to start with. It finds the cut a
      linear scan would find. */
  method FindCut<T(!new)>(cmp: (T, T) -> int, list: array<T>, q: T, sense: int, b0: nat, t0: nat, big0: bool)
    returns (cut: nat, big: bool)
    requires Preorder(cmp) && SortedIn(cmp, list[..], b0, t0) && b0 < t0 && -1 <= sense <= 0
    requires Before(cmp, q, sense, list[b0])
    ensures IsCut(cmp, list[..], q, sense, b0, t0, cut) && b0 < cut
  {
    hide Preorder, PowerOfTwo;
    var b, t := b0, t0;
    big := big0;
    assert list.Length >= t0;
    if !big {
      var i := 0;
      b := b + 1;
      while b < t && cmp(q, list[b]) > sense
        invariant b0 < b <= t && t == t0
        invariant forall k | b0 <= k < b :: Before(cmp, q, sense, list[k])
        decreases t - b
      {
        i := i + 1;
        if i == 6 {
          big := true;
          break;
        }
        b := b + 1;
      }
      if !big {
        if b < t {
          BeforeIsPrefix(cmp, list[..], q, sense, b0, t0, b);
        }
        return b, big;
      }
    }
    b, t, big := Gallop(cmp, list, q, sense, b0, b, t0);
    BeforeIsPrefix(cmp, list[..], q, sense, b0, t0, b);
    if t < t0 {
      BeforeIsPrefix(cmp, list[..], q, sense, b0, t0, t);
    }
    return t, big;
  }

  /** From the label EXPONENTIAL on: b goes before q; afterwards b and t are
      neighbours that enclose the cut. */
  method Gallop<T(!new)>(cmp: (T, T) -> int, list: array<T>, q: T, sense: int, ghost lo: nat, b0: nat, t0: nat)
    returns (b: nat, t: nat, big: bool)
    requires Preorder(cmp) && lo <= b0 < t0 <= list.Length && -1 <= sense <= 0
    requires Before(cmp, q, sense, list[b0])
    ensures b0 <= b && t == b + 1 <= t0 && Before(cmp, q, sense, list[b])
    ensures t < t0 ==> !Before(cmp, q, sense, list[t])
  {
    hide PowerOfTwo, Preorder;
    Powers();
    b, t, big := b0, t0, true;
    var i, fast := 1, false;
    while true
      invariant b0 <= b < t == t0 && i > 0 && PowerOfTwo(i) && Before(cmp, q, sense, list[b])
      decreases t - b
    {
      var p := b + i;
      if p >= t {
        p := t - 1;
        if p > b && cmp(q, list[p]) <= sense {
          t := p;
        } else {
          b := p;
        }
        break;
      } else if cmp(q, list[p]) <= sense {
        t := p;
        if i == 1 {
          big := false;
        }
        fast := true;
        break;
      } else {
        b := p;
      }
      i := i * 2;
    }
    if !fast {
      while t > b + 1
        invariant b0 <= b < t <= t0 && Before(cmp, q, sense, list[b]) && (t < t0 ==> !Before(cmp, q, sense, list[t]))
        decreases t - b
      {
        i := (t - b) / 2;
        var p := b + i;
        if cmp(q, list[p]) <= sense {
          t := p;
        } else {
          b := p;
        }
      }
    } else {
      while i > 1
        invariant i > 0 && PowerOfTwo(i) && t == b + i
        invariant b0 <= b < t < t0 && Before(cmp, q, sense, list[b]) && !Before(cmp, q, sense, list[t])
        decreases i
      {
        assert PowerOfTwo(i / 2) && i == i / 2 * 2;
        i := i / 2;
        var p := b + i;
        if cmp(q, list[p]) <= sense {
          t := p;
        } else {
          b := p;
        }
      }
    }
  }

  // ------------------------------------------------------------ merging two runs

  /** Copying src[from..to] to dst[at..]. */
  method CopyList<T>(src: array<T>, dst: array<T>, from: nat, to: nat, at: nat)
    requires src != dst && from <= to <= src.Length && at + (to - from) <= dst.Length
    modifies dst
    ensures forall k | 0 <= k < at || at + (to - from) <= k < dst.Length :: dst[k] == old(dst[k])
    ensures dst[at..at + (to - from)] == src[from..to]
  {
    var f := from;
    while f < to
      invariant from <= f <= to
      invariant forall k | 0 <= k < at || at + (to - from) <= k < dst.Length :: dst[k] == old(dst[k])
      invariant dst[at..at + (f - from)] == src[from..f]
    {
      dst[at + (f - from)] := src[f];
      assert dst[at..at + (f - from) + 1] == src[from..f] + [src[f]];
      f := f + 1;
    }
  }

  /** What has been written of a merge, and what is still to come. */
  ghost predicate Merging<T>(cmp: (T, T) -> int, s: seq<T>, out: seq<T>, lo: nat, mid: nat, hi: nat, f1: nat, f2: nat,
                             at: nat) {
    && lo <= f1 <= mid <= f2 <= hi <= |s| && at == f1 + f2 - mid && at <= |out|
    && out[lo..at] + Merge(cmp, s[f1..mid], s[f2..hi]) == Merge(cmp, s[lo..mid], s[mid..hi])
  }

  lemma MergingStart<T>(cmp: (T, T) -> int, s: seq<T>, out: seq<T>, lo: nat, mid: nat, hi: nat)
    requires lo <= mid <= hi <= |s| == |out|
    ensures Merging(cmp, s, out, lo, mid, hi, lo, mid, lo)
  {
    hide Merge;
    assert out[lo..lo] == [];
  }

  lemma OutGrows<T>(out: seq<T>, out': seq<T>, lo: nat, at: nat, copied: seq<T>, last: T, rest: seq<T>)
    requires lo <= at && at + |copied| < |out'| == |out| && (forall k | lo <= k < at :: out'[k] == out[k])
    requires out'[at..at + |copied|] == copied && out'[at + |copied|] == last
    ensures out'[lo..at + |copied| + 1] + rest == out[lo..at] + (copied + [last] + rest)
  {
    assert out'[lo..at] == out[lo..at];
    assert out'[lo..at + |copied|] == out'[lo..at] + out'[at..at + |copied|];
    assert out'[lo..at + |copied| + 1] == out'[lo..at + |copied|] + [last];
    assert out[lo..at] + copied + [last] + rest == out[lo..at] + (copied + [last] + rest);
  }

  /** Elements of the first run up to the cut, then one of the second. */
  lemma MergingFirst<T>(cmp: (T, T) -> int, s: seq<T>, out: seq<T>, out': seq<T>, lo: nat, mid: nat, hi: nat, f1: nat,
                        f2: nat, at: nat, c: nat)
    requires Merging(cmp, s, out, lo, mid, hi, f1, f2, at) && f1 < mid && f2 < hi && |out'| == |out| >= hi
    requires IsCut(cmp, s, s[f2], -1, f1, mid, c)
    requires forall k | lo <= k < at :: out'[k] == out[k]
    requires out'[at..at + (c - f1)] == s[f1..c] && out'[at + (c - f1)] == s[f2]
    requires forall x, y :: cmp(x, y) > 0 <==> cmp(y, x) < 0
    ensures Merging(cmp, s, out', lo, mid, hi, c, f2 + 1, at + (c - f1) + 1)
  {
    hide Merge;
    assert lo <= f1 <= mid <= f2 <= hi <= |s| && at == f1 + f2 - mid;
    var x, y := s[f1..mid], s[f2..hi];
    var n := c - f1;
    forall i | 0 <= i < n
      ensures cmp(x[i], y[0]) <= 0
    {
      assert Before(cmp, s[f2], -1, s[f1 + i]);
    }
    if c < mid {
      assert !Before(cmp, s[f2], -1, s[c]);
    }
    MergeFromFirst(cmp, x, y, n);
    assert x[n..] == s[c..mid] && y[1..] == s[f2 + 1..hi] && x[..n] == s[f1..c];
    OutGrows(out, out', lo, at, s[f1..c], s[f2], Merge(cmp, s[c..mid], s[f2 + 1..hi]));
  }

  /** Elements of the second run up to the cut, then one of the first. */
  lemma MergingSecond<T>(cmp: (T, T) -> int, s: seq<T>, out: seq<T>, out': seq<T>, lo: nat, mid: nat, hi: nat,
                         f1: nat, f2: nat, at: nat, c: nat)
    requires Merging(cmp, s, out, lo, mid, hi, f1, f2, at) && f1 < mid && f2 < hi && |out'| == |out| >= hi
    requires IsCut(cmp, s, s[f1], 0, f2, hi, c)
    requires forall k | lo <= k < at :: out'[k] == out[k]
    requires out'[at..at + (c - f2)] == s[f2..c] && out'[at + (c - f2)] == s[f1]
    ensures Merging(cmp, s, out', lo, mid, hi, f1 + 1, c, at + (c - f2) + 1)
  {
    hide Merge;
    assert lo <= f1 <= mid <= f2 <= hi <= |s| && at == f1 + f2 - mid;
    var x, y := s[f1..mid], s[f2..hi];
    var n := c - f2;
    forall i | 0 <= i < n
      ensures cmp(x[0], y[i]) > 0
    {
      assert Before(cmp, s[f1], 0, s[f2 + i]);
    }
    if c < hi {
      assert !Before(cmp, s[f1], 0, s[c]);
    }
    MergeFromSecond(cmp, x, y, n);
    assert y[n..] == s[c..hi] && x[1..] == s[f1 + 1..mid] && y[..n] == s[f2..c];
    OutGrows(out, out', lo, at, s[f2..c], s[f1], Merge(cmp, s[f1 + 1..mid], s[c..hi]));
  }

  lemma MergingEnd<T>(cmp: (T, T) -> int, s: seq<T>, out: seq<T>, out': seq<T>, lo: nat, mid: nat, hi: nat, f1: nat,
                      f2: nat, at: nat)
    requires Merging(cmp, s, out, lo, mid, hi, f1, f2, at) && (f1 == mid || f2 == hi) && |out'| == |out| >= hi
    requires forall k | lo <= k < at :: out'[k] == out[k]
    requires out'[at..hi] == if f2 < hi then s[f2..hi] else s[f1..mid]
    ensures out'[lo..hi] == Merge(cmp, s[lo..mid], s[mid..hi])
  {
    assert out'[lo..hi] == out'[lo..at] + out'[at..hi];
    assert out'[lo..at] == out[lo..at];
  }

  /** The inner loop of mergesort(): the runs [lo, mid) and [mid, hi) of list1 are
      merged into list2[lo..hi]. */
  method MergeRuns<T(!new)>(cmp: (T, T) -> int, list1: array<T>, list2: array<T>, lo: nat, mid: nat, hi: nat,
                            big0: bool)
    returns (big: bool)
    requires Preorder(cmp) && list1 != list2 && list1.Length == list2.Length && lo <= mid <= hi <= list1.Length
    requires SortedIn(cmp, list1[..], lo, mid) && SortedIn(cmp, list1[..], mid, hi)
    modifies list2
    ensures list2[lo..hi] == Merge(cmp, list1[lo..mid], list1[mid..hi])
    ensures forall k | 0 <= k < lo || hi <= k < list2.Length :: list2[k] == old(list2[k])
  {
    hide *;
    var f1, f2, tp2 := lo, mid, lo;
    big := big0;
    ghost var s := list1[..];
    MergingStart(cmp, s, list2[..], lo, mid, hi);
    while f1 < mid && f2 < hi
      invariant lo <= f1 <= mid <= f2 <= hi && tp2 == f1 + f2 - mid
      invariant Merging(cmp, s, list2[..], lo, mid, hi, f1, f2, tp2)
      invariant forall k | 0 <= k < lo || hi <= k < list2.Length :: list2[k] == old(list2[k])
      decreases mid - f1 + hi - f2
    {
      ghost var out := list2[..];
      FirstStep(cmp, s, lo, mid, hi, f1, f2);
      if cmp(list1[f1], list1[f2]) <= 0 {
        var cut;
        cut, big := FindCut(cmp, list1, list1[f2], -1, f1, mid, big);
        CutInside(cmp, s, list1[f2], -1, f1, mid, cut);
        CopyList(list1, list2, f1, cut, tp2);
        list2[tp2 + (cut - f1)] := list1[f2];
        MergingFirst(cmp, s, out, list2[..], lo, mid, hi, f1, f2, tp2, cut);
        f1, f2, tp2 := cut, f2 + 1, tp2 + (cut - f1) + 1;
      } else {
        var cut;
        cut, big := FindCut(cmp, list1, list1[f1], 0, f2, hi, big);
        CutInside(cmp, s, list1[f1], 0, f2, hi, cut);
        CopyList(list1, list2, f2, cut, tp2);
        list2[tp2 + (cut - f2)] := list1[f1];
        MergingSecond(cmp, s, out, list2[..], lo, mid, hi, f1, f2, tp2, cut);
        f1, f2, tp2 := f1 + 1, cut, tp2 + (cut - f2) + 1;
      }
    }
    ghost var out := list2[..];
    if f2 < hi {
      CopyList(list1, list2, f2, hi, tp2);
    } else if f1 < mid {
      CopyList(list1, list2, f1, mid, tp2);
    }
    MergingEnd(cmp, s, out, list2[..], lo, mid, hi, f1, f2, tp2);
  }

  lemma CutInside<T>(cmp: (T, T) -> int, s: seq<T>, q: T, sense: int, b: nat, t: nat, c: nat)
    requires IsCut(cmp, s, q, sense, b, t, c)
    ensures b <= c <= t <= |s|
  {
  }

  /** The first element of the run searched goes before the key, and the rest of
      both runs is sorted. */
  lemma FirstStep<T(!new)>(cmp: (T, T) -> int, s: seq<T>, lo: nat, mid: nat, hi: nat, f1: nat, f2: nat)
    requires Preorder(cmp) && SortedIn(cmp, s, lo, mid) && SortedIn(cmp, s, mid, hi)
    requires lo <= f1 < mid <= f2 < hi <= |s|
    ensures SortedIn(cmp, s, f1, mid) && SortedIn(cmp, s, f2, hi)
    ensures if cmp(s[f1], s[f2]) <= 0 then Before(cmp, s[f2], -1, s[f1]) else Before(cmp, s[f1], 0, s[f2])
    ensures forall x, y :: cmp(x, y) > 0 <==> cmp(y, x) < 0
  {
  }

  // ------------------------------------------------------------ runs

  /** The list of run ends: following `next` from 0 visits the bounds up to n. */
  ghost predicate Linked(next: seq<nat>, bounds: seq<nat>, n: nat) {
    && |bounds| >= 1 && bounds[0] == 0 && bounds[|bounds| - 1] <= n == |next|
    && (forall i, j | 0 <= i < j < |bounds| :: bounds[i] < bounds[j])
    && forall i | 0 <= i < |bounds| - 1 :: next[bounds[i]] == bounds[i + 1]
  }

  /** Every run is sorted. */
  ghost predicate SortedRuns<T>(cmp: (T, T) -> int, s: seq<T>, bounds: seq<nat>) {
    forall i | 0 <= i < |bounds| - 1 :: SortedIn(cmp, s, bounds[i], bounds[i + 1])
  }

  /** The runs tile the whole list. */
  ghost predicate Tiled<T>(cmp: (T, T) -> int, s: seq<T>, next: seq<nat>, bounds: seq<nat>) {
    && |s| == |next| > 0 && |bounds| >= 2 && bounds[|bounds| - 1] == |s|
    && Linked(next, bounds, |s|) && SortedRuns(cmp, s, bounds)
  }

  /** Adding a run to a list of runs. */
  lemma LinkMore(next: seq<nat>, next': seq<nat>, bounds: seq<nat>, p: nat, n: nat)
    requires Linked(next, bounds, n) && |next'| == |next| && bounds[|bounds| - 1] < p <= n
    requires next' == next[bounds[|bounds| - 1] := p]
    ensures Linked(next', bounds + [p], n)
  {
    var last := bounds[|bounds| - 1];
    forall i | 0 <= i < |bounds|
      ensures next'[(bounds + [p])[i]] == (bounds + [p])[i + 1]
    {
      if i < |bounds| - 1 {
        assert bounds[i] < last;
      }
    }
  }

  lemma SortedMore<T>(cmp: (T, T) -> int, s: seq<T>, s': seq<T>, bounds: seq<nat>, p: nat)
    requires |bounds| >= 1 && |s| == |s'| && SortedRuns(cmp, s, bounds)
    requires forall i | 0 <= i < |bounds| :: bounds[i] <= bounds[|bounds| - 1]
    requires forall k | 0 <= k < bounds[|bounds| - 1] && k < |s| :: s[k] == s'[k]
    requires SortedIn(cmp, s', bounds[|bounds| - 1], p)
    ensures SortedRuns(cmp, s', bounds + [p])
  {
    forall i | 0 <= i < |bounds|
      ensures SortedIn(cmp, s', (bounds + [p])[i], (bounds + [p])[i + 1])
    {
      if i < |bounds| - 1 {
        assert SortedIn(cmp, s, bounds[i], bounds[i + 1]);
        assert bounds[i + 1] <= bounds[|bounds| - 1];
      }
    }
  }

  /** The merged runs so far: `done` are the bounds of the new list, the next pair
      starts at bound m of the old. */
  ghost predicate PassedTo<T(!new)>(cmp: (T, T) -> int, s: seq<T>, out: seq<T>, bounds: seq<nat>, next1: seq<nat>,
                                    done: seq<nat>, m: nat) {
    && |out| == |s| && m < |bounds| && 1 <= |done| && 2 * (|done| - 1) <= |bounds|
    && m == (if 2 * (|done| - 1) < |bounds| - 1 then 2 * (|done| - 1) else |bounds| - 1)
    && Linked(next1, done, |s|) && done[|done| - 1] == bounds[m]
    && SortedRuns(cmp, out, done)
    && SameOrder(cmp, out[..done[|done| - 1]], s[..done[|done| - 1]])
  }

  lemma PassStart<T(!new)>(cmp: (T, T) -> int, s: seq<T>, out: seq<T>, bounds: seq<nat>, next1: seq<nat>,
                           next2: seq<nat>)
    requires Tiled(cmp, s, next2, bounds) && |out| == |s| == |next1|
    ensures PassedTo(cmp, s, out, bounds, next1, [0], 0)
  {
    assert out[..0] == [] && s[..0] == [];
    SameOrderRefl(cmp, s[..0]);
  }

  /** The end of the run that starts at bound m. */
  lemma RunAt<T>(cmp: (T, T) -> int, s: seq<T>, next: seq<nat>, bounds: seq<nat>, m: nat)
    requires Tiled(cmp, s, next, bounds) && m < |bounds| - 1
    ensures bounds[m] < bounds[m + 1] <= |s| && next[bounds[m]] == bounds[m + 1]
            && SortedIn(cmp, s, bounds[m], bounds[m + 1])
    ensures bounds[m + 1] == |s| <==> m + 1 == |bounds| - 1
  {
    assert m + 1 < |bounds| - 1 ==> bounds[m + 1] < bounds[|bounds| - 1];
  }

  /** One more pair of runs merged. */
  lemma PassStep<T(!new)>(cmp: (T, T) -> int, s: seq<T>, out: seq<T>, out': seq<T>, next2: seq<nat>, bounds: seq<nat>,
                          next1: seq<nat>, done: seq<nat>, m: nat, mid: nat, hi: nat)
    requires Preorder(cmp) && Tiled(cmp, s, next2, bounds) && PassedTo(cmp, s, out, bounds, next1, done, m)
             && m < |bounds| - 1
    requires mid == bounds[m + 1] && hi == (if m + 1 < |bounds| - 1 then bounds[m + 2] else mid)
    requires |out'| == |out| && forall k | 0 <= k < bounds[m] :: out'[k] == out[k]
    requires bounds[m] < mid <= hi <= |s| && out'[bounds[m]..hi] == Merge(cmp, s[bounds[m]..mid], s[mid..hi])
    ensures PassedTo(cmp, s, out', bounds, next1[bounds[m] := hi], done + [hi], if m + 1 < |bounds| - 1 then m + 2
                     else m + 1)
  {
    hide Linked, Merge, Preorder, SameOrder, Sorted, SortedIn, SortedRuns;
    var lo := bounds[m];
    PairSorted(cmp, s, next2, bounds, m);
    PassedFacts(cmp, s, out, bounds, next1, done, m);
    MergeSorts(cmp, s[lo..mid], s[mid..hi]);
    MergeKeepsOrder(cmp, s[lo..mid], s[mid..hi]);
    SortedSlice(cmp, out', lo, hi);
    SortedMore(cmp, out, out', done, hi);
    LinkMore(next1, next1[lo := hi], done, hi, |s|);
    SameOrderConcat(cmp, out[..lo], out'[lo..hi], s[..lo], s[lo..mid] + s[mid..hi]);
    assert out'[..hi] == out[..lo] + out'[lo..hi];
    assert s[..hi] == s[..lo] + (s[lo..mid] + s[mid..hi]);
  }

  lemma PassedFacts<T(!new)>(cmp: (T, T) -> int, s: seq<T>, out: seq<T>, bounds: seq<nat>, next1: seq<nat>,
                             done: seq<nat>, m: nat)
    requires PassedTo(cmp, s, out, bounds, next1, done, m)
    ensures forall i | 0 <= i < |done| :: done[i] <= done[|done| - 1] <= |s|
    ensures |done| >= 1 && done[|done| - 1] == bounds[m] && Linked(next1, done, |s|) && |next1| == |s|
    ensures SortedRuns(cmp, out, done) && SameOrder(cmp, out[..bounds[m]], s[..bounds[m]])
  {
  }

  lemma PairSorted<T(!new)>(cmp: (T, T) -> int, s: seq<T>, next: seq<nat>, bounds: seq<nat>, m: nat)
    requires Tiled(cmp, s, next, bounds) && m < |bounds| - 1
    ensures var lo, mid := bounds[m], bounds[m + 1]; var hi := if m + 1 < |bounds| - 1 then bounds[m + 2] else mid;
            lo < mid <= hi <= |s| && Sorted(cmp, s[lo..mid]) && Sorted(cmp, s[mid..hi])
            && SortedIn(cmp, s, lo, mid) && SortedIn(cmp, s, mid, hi)
  {
    RunAt(cmp, s, next, bounds, m);
    if m + 1 < |bounds| - 1 {
      RunAt(cmp, s, next, bounds, m + 1);
    }
  }

  lemma SortedSlice<T>(cmp: (T, T) -> int, s: seq<T>, lo: nat, hi: nat)
    requires lo <= hi <= |s|
    ensures Sorted(cmp, s[lo..hi]) <==> SortedIn(cmp, s, lo, hi)
  {
    if Sorted(cmp, s[lo..hi]) {
      forall i, j | lo <= i < j < hi
        ensures cmp(s[i], s[j]) <= 0
      {
        assert s[i] == s[lo..hi][i - lo] && s[j] == s[lo..hi][j - lo];
      }
    }
  }

  /** Four different arrays. */
  ghost predicate Apart<T>(list1: array<T>, list2: array<T>, next1: array<nat>, next2: array<nat>) {
    var l1: object, l2: object, n1: object, n2: object := list1, list2, next1, next2;
    l1 != l2 && l1 != n1 && l1 != n2 && l2 != n1 && l2 != n2 && n1 != n2
  }

  /** One pass over the lists: runs are merged in pairs from list1 to list2, and
      the ends of the merged runs are noted in next1. With k runs there are
      (k + 1) / 2 afterwards. */
  method Pass<T(!new)>(cmp: (T, T) -> int, list1: array<T>, list2: array<T>, next1: array<nat>, next2: array<nat>,
                       big0: bool, ghost bounds: seq<nat>)
    returns (big: bool, ghost merged: seq<nat>)
    requires Preorder(cmp) && Apart(list1, list2, next1, next2)
    requires list1.Length == list2.Length == next1.Length == next2.Length
    requires Tiled(cmp, list1[..], next2[..], bounds)
    modifies list2, next1
    ensures Tiled(cmp, list2[..], next1[..], merged) && SameOrder(cmp, list2[..], list1[..])
    ensures |merged| - 1 == |bounds| / 2
  {
    hide Linked, Merge, Preorder, SameOrder, Sorted, SortedIn, SortedRuns;
    ghost var s, links, m := list1[..], next2[..], 0;
    ghost var n := |s|;
    var l2, p1, p2, last := 0, 0, 0, list1.Length;
    big, merged := big0, [0];
    PassStart(cmp, s, list2[..], bounds, next1[..], links);
    TiledFacts(cmp, s, links, bounds);
    while p2 != last
      invariant l2 == p1 == p2 <= last && list1[..] == s && next2[..] == links
      invariant PassedTo(cmp, s, list2[..], bounds, next1[..], merged, m)
      invariant m < |bounds| && p2 == bounds[m] && (p2 == last <==> m == |bounds| - 1)
      decreases last - p2
    {
      ghost var out, ends := list2[..], next1[..];
      PairSorted(cmp, s, links, bounds, m);
      RunAt(cmp, s, links, bounds, m);
      p2 := next2[p2];
      var f1, mid := l2, p2;
      if p2 != last {
        RunAt(cmp, s, links, bounds, m + 1);
        p2 := next2[p2];
      }
      l2 := p2;
      big := MergeRuns(cmp, list1, list2, f1, mid, l2, big);
      next1[p1] := l2;
      PassStep(cmp, s, out, list2[..], links, bounds, ends, merged, m, mid, l2);
      assert next1[..] == ends[p1 := l2];
      merged := merged + [l2];
      m := if m + 1 < |bounds| - 1 then m + 2 else m + 1;
      p1 := l2;
    }
    PassEnd(cmp, s, list2[..], links, bounds, next1[..], merged, m);
  }

  lemma TiledFacts<T>(cmp: (T, T) -> int, s: seq<T>, next: seq<nat>, bounds: seq<nat>)
    requires Tiled(cmp, s, next, bounds)
    ensures |bounds| >= 2 && bounds[0] == 0 && bounds[|bounds| - 1] == |s| > 0
  {
  }

  lemma PassEnd<T(!new)>(cmp: (T, T) -> int, s: seq<T>, out: seq<T>, next2: seq<nat>, bounds: seq<nat>,
                         next1: seq<nat>, done: seq<nat>, m: nat)
    requires Tiled(cmp, s, next2, bounds) && PassedTo(cmp, s, out, bounds, next1, done, m) && m == |bounds| - 1
    ensures Tiled(cmp, out, next1, done) && SameOrder(cmp, out, s) && |done| - 1 == |bounds| / 2
  {
    hide SameOrder, SortedRuns;
    assert out[..|s|] == out && s[..|s|] == s;
  }

  // ------------------------------------------------------------ insertion sort

  /** Sorted in [lo, hi), but for the element at t against those before it. */
  ghost predicate SortedBut<T>(cmp: (T, T) -> int, s: seq<T>, lo: nat, hi: nat, t: nat) {
    lo <= t < hi <= |s| && forall i, j | lo <= i < j < hi && j != t :: cmp(s[i], s[j]) <= 0
  }

  function Swapped<T>(s: seq<T>, u: nat): seq<T>
    requires u + 1 < |s|
  {
    s[u := s[u + 1]][u + 1 := s[u]]
  }

  lemma SinkOne<T(!new)>(cmp: (T, T) -> int, s: seq<T>, lo: nat, hi: nat, t: nat)
    requires Preorder(cmp) && SortedBut(cmp, s, lo, hi, t) && lo < t && cmp(s[t - 1], s[t]) > 0
    ensures SortedBut(cmp, Swapped(s, t - 1), lo, hi, t - 1)
  {
    var s' := Swapped(s, t - 1);
    forall i, j | lo <= i < j < hi && j != t - 1
      ensures cmp(s'[i], s'[j]) <= 0
    {
      Opposite(cmp, s[t - 1], s[t]);
    }
  }

  lemma SunkEnough<T(!new)>(cmp: (T, T) -> int, s: seq<T>, lo: nat, hi: nat, t: nat)
    requires Preorder(cmp) && SortedBut(cmp, s, lo, hi, t) && (lo < t ==> cmp(s[t - 1], s[t]) <= 0)
    ensures SortedIn(cmp, s, lo, hi)
  {
    hide Preorder;
    forall i | lo <= i < t
      ensures cmp(s[i], s[t]) <= 0
    {
      if i < t - 1 {
        Chained(cmp, s[i], s[t - 1], s[t]);
      }
    }
  }

  lemma OneSorted<T>(cmp: (T, T) -> int, s: seq<T>, lo: nat)
    requires lo < |s|
    ensures SortedIn(cmp, s, lo, lo + 1)
  {
  }

  lemma StartSinking<T>(cmp: (T, T) -> int, s: seq<T>, lo: nat, ai: nat)
    requires SortedIn(cmp, s, lo, ai) && lo < ai < |s|
    ensures SortedBut(cmp, s, lo, ai + 1, ai)
  {
  }

  /** insertionsort() of n elements from lo on. */
  method InsertionSort<T(!new)>(cmp: (T, T) -> int, a: array<T>, lo: nat, n: nat)
    requires Preorder(cmp) && n >= 1 && lo + n <= a.Length
    modifies a
    ensures SortedIn(cmp, a[..], lo, lo + n) && SameOrder(cmp, a[..], old(a[..]))
    ensures forall k | 0 <= k < lo || lo + n <= k < a.Length :: a[k] == old(a[k])
  {
    hide Preorder, SameOrder, SortedBut, SortedIn;
    var ai, left := lo + 1, n - 1;
    SameOrderRefl(cmp, a[..]);
    OneSorted(cmp, a[..], lo);
    while left >= 1
      invariant ai + left == lo + n && 0 <= left && lo < ai
      invariant SortedIn(cmp, a[..], lo, ai) && SameOrder(cmp, a[..], old(a[..]))
      invariant forall k | 0 <= k < lo || lo + n <= k < a.Length :: a[k] == old(a[k])
      decreases left
    {
      var t := ai;
      StartSinking(cmp, a[..], lo, ai);
      while t > lo
        invariant lo <= t <= ai && SortedBut(cmp, a[..], lo, ai + 1, t) && SameOrder(cmp, a[..], old(a[..]))
        invariant forall k | 0 <= k < lo || lo + n <= k < a.Length :: a[k] == old(a[k])
      {
        var u := t - 1;
        if cmp(a[u], a[t]) <= 0 {
          break;
        }
        ghost var s := a[..];
        SinkOne(cmp, s, lo, ai + 1, t);
        SwapKeepsOrder(cmp, s, u);
        a[u], a[t] := a[t], a[u];
        assert a[..] == s[u := s[u + 1]][u + 1 := s[u]] == Swapped(s, u);
        SameOrderTrans(cmp, a[..], s, old(a[..]));
        t := u;
      }
      SunkEnough(cmp, a[..], lo, ai + 1, t);
      ai, left := ai + 1, left - 1;
    }
  }

  // ------------------------------------------------------------ finding runs

  /** Reverse a[bot..top], both ends included. */
  method Reverse<T>(a: array<T>, bot0: nat, top: nat)
    requires bot0 < top < a.Length
    modifies a
    ensures a[..] == old(a[..])[..bot0] + Reversed(old(a[..])[bot0..top + 1]) + old(a[..])[top + 1..]
  {
    hide Reversed;
    var bot, s: int := bot0, top;
    ghost var was := old(a[..]);
    while bot < s
      invariant bot0 <= bot <= s + 1 && bot + s == bot0 + top
      invariant forall k | 0 <= k < bot0 || top < k < a.Length || bot <= k <= s :: a[k] == was[k]
      invariant forall k | bot0 <= k < bot || s < k <= top :: a[k] == was[bot0 + top - k]
    {
      a[bot], a[s] := a[s], a[bot];
      bot, s := bot + 1, s - 1;
    }
    IsReversed(was, a[..], bot0, top);
  }

  lemma IsReversed<T>(was: seq<T>, now: seq<T>, bot: nat, top: nat)
    requires bot < top < |was| == |now|
    requires forall k | 0 <= k < bot || top < k < |was| :: now[k] == was[k]
    requires forall k | bot <= k <= top :: now[k] == was[bot + top - k]
    ensures now == was[..bot] + Reversed(was[bot..top + 1]) + was[top + 1..]
  {
    var r := Reversed(was[bot..top + 1]);
    hide Reversed;
    forall k | bot <= k <= top
      ensures now[k] == r[k - bot]
    {
      assert r[k - bot] == was[bot..top + 1][top - bot - (k - bot)];
    }
  }

  /** Neighbours in [lo, hi) compare with the same sense. */
  ghost predicate Chain<T>(cmp: (T, T) -> int, s: seq<T>, lo: nat, hi: nat, sense: bool) {
    hi <= |s| && forall k | lo <= k < hi - 1 :: (cmp(s[k], s[k + 1]) > 0) == sense
  }

  /** Pairs in [lo, hi) compare with the same sense. */
  ghost predicate PairSense<T>(cmp: (T, T) -> int, s: seq<T>, lo: nat, hi: nat, sense: bool) {
    hi <= |s| && forall k | lo <= k < hi - 1 && k % 2 == 0 :: (cmp(s[k], s[k + 1]) > 0) == sense
  }

  lemma {:induction false} ChainOrder<T(!new)>(cmp: (T, T) -> int, s: seq<T>, lo: nat, hi: nat, sense: bool, i: nat,
                                               j: nat)
    requires Preorder(cmp) && Chain(cmp, s, lo, hi, sense) && lo <= i < j < hi
    ensures (cmp(s[i], s[j]) > 0) == sense
    decreases j - i
  {
    hide Preorder;
    if j > i + 1 {
      ChainOrder(cmp, s, lo, hi, sense, i, j - 1);
      var x, y, z := s[i], s[j - 1], s[j];
      if sense {
        Opposite(cmp, x, y);
        Opposite(cmp, y, z);
        Opposite(cmp, x, z);
        Opposite(cmp, y, x);
        Opposite(cmp, z, y);
        Opposite(cmp, z, x);
        Chained(cmp, z, y, x);
      } else {
        Chained(cmp, x, y, z);
      }
    }
  }

  /** A run as found becomes a sorted run with the same order of equivalents. */
  lemma RunSettled<T(!new)>(cmp: (T, T) -> int, s: seq<T>, s': seq<T>, lo: nat, hi: nat, sense: bool)
    requires Preorder(cmp) && lo <= hi && Chain(cmp, s, lo, hi, sense)
    requires s' == if sense then s[..lo] + Reversed(s[lo..hi]) + s[hi..] else s
    ensures |s'| == |s| && SortedIn(cmp, s', lo, hi) && SameOrder(cmp, s', s)
    ensures forall k | 0 <= k < lo || hi <= k < |s| :: s'[k] == s[k]
  {
    hide Chain, Preorder, Reversed, SameOrder, Sorted, StrictlyDescending;
    ChainBounds(cmp, s, lo, hi, sense);
    forall i, j | lo <= i < j < hi
      ensures (cmp(s[i], s[j]) > 0) == sense
    {
      ChainOrder(cmp, s, lo, hi, sense, i, j);
    }
    if sense {
      DescendingSlice(cmp, s, lo, hi);
      ReversedKeepsOrder(cmp, s[lo..hi]);
      SameOrderInside(cmp, s[..lo], Reversed(s[lo..hi]), s[lo..hi], s[hi..]);
      MiddlePart(s, lo, hi, Reversed(s[lo..hi]));
      SortedSlice(cmp, s', lo, hi);
    } else {
      SameOrderRefl(cmp, s);
    }
  }

  lemma ChainBounds<T>(cmp: (T, T) -> int, s: seq<T>, lo: nat, hi: nat, sense: bool)
    requires Chain(cmp, s, lo, hi, sense)
    ensures hi <= |s|
  {
  }

  lemma DescendingSlice<T>(cmp: (T, T) -> int, s: seq<T>, lo: nat, hi: nat)
    requires lo <= hi <= |s| && forall i, j | lo <= i < j < hi :: cmp(s[i], s[j]) > 0
    ensures StrictlyDescending(cmp, s[lo..hi])
  {
  }

  /** Putting another part of the same length between lo and hi. */
  lemma MiddlePart<T>(s: seq<T>, lo: nat, hi: nat, part: seq<T>)
    requires lo <= hi <= |s| && |part| == hi - lo
    ensures var s' := s[..lo] + part + s[hi..];
            |s'| == |s| && s'[lo..hi] == part && s == s[..lo] + s[lo..hi] + s[hi..]
            && forall k | 0 <= k < lo || hi <= k < |s| :: s'[k] == s[k]
  {
  }

  /** What setup() has done: sorted runs up to f1, and one sorted run from `last`
      to the end. */
  ghost predicate SetUpTo<T(!new)>(cmp: (T, T) -> int, s0: seq<T>, s: seq<T>, next: seq<nat>, bounds: seq<nat>,
                                   f1: nat, last: nat) {
    && |s0| == |s| == |next| && f1 <= last < |s| && f1 % 2 == last % 2 == 0
    && Linked(next, bounds, |s|) && bounds[|bounds| - 1] == f1 && SortedRuns(cmp, s, bounds)
    && SortedIn(cmp, s, last, |s|) && next[last] == |s| && SameOrder(cmp, s, s0)
  }

  /** Closing a run that ends at e. */
  lemma CloseRun<T(!new)>(cmp: (T, T) -> int, s0: seq<T>, s: seq<T>, s': seq<T>, next: seq<nat>, bounds: seq<nat>,
                          f1: nat, e: nat, last: nat, sense: bool)
    requires Preorder(cmp) && SetUpTo(cmp, s0, s, next, bounds, f1, last)
    requires f1 < e <= last && e % 2 == 0 && Chain(cmp, s, f1, e, sense)
    requires s' == if sense then s[..f1] + Reversed(s[f1..e]) + s[e..] else s
    ensures SetUpTo(cmp, s0, s', next[f1 := e], bounds + [e], e, last)
    ensures forall k | e <= k < |s| :: s'[k] == s[k]
  {
    hide Chain, Linked, Preorder, Reversed, SameOrder, SortedIn, SortedRuns;
    SetUpFacts(cmp, s0, s, next, bounds, f1, last);
    RunSettled(cmp, s, s', f1, e, sense);
    SortedMore(cmp, s, s', bounds, e);
    LinkMore(next, next[f1 := e], bounds, e, |s|);
    SameOrderTrans(cmp, s', s, s0);
    LastStays(cmp, s, s', last);
  }

  lemma LastStays<T>(cmp: (T, T) -> int, s: seq<T>, s': seq<T>, last: nat)
    requires SortedIn(cmp, s, last, |s|) && |s'| == |s| && forall k | last <= k < |s| :: s'[k] == s[k]
    ensures SortedIn(cmp, s', last, |s'|)
  {
  }

  lemma SetUpFacts<T(!new)>(cmp: (T, T) -> int, s0: seq<T>, s: seq<T>, next: seq<nat>, bounds: seq<nat>, f1: nat,
                            last: nat)
    requires SetUpTo(cmp, s0, s, next, bounds, f1, last)
    ensures |s| == |next| == |s0| && f1 <= last < |s| && |bounds| >= 1 && bounds[|bounds| - 1] == f1
    ensures Linked(next, bounds, |s|) && SortedRuns(cmp, s, bounds) && SortedIn(cmp, s, last, |s|)
            && SameOrder(cmp, s, s0)
    ensures forall i | 0 <= i < |bounds| :: bounds[i] <= bounds[|bounds| - 1]
  {
  }

  /** The two ways the list of runs ends: a run from `last`, or the last run found
      goes on into it. */
  lemma EndRuns<T(!new)>(cmp: (T, T) -> int, s0: seq<T>, s: seq<T>, next: seq<nat>, bounds: seq<nat>, last: nat)
    requires SetUpTo(cmp, s0, s, next, bounds, last, last)
    ensures Tiled(cmp, s, next, bounds + [|s|]) && SameOrder(cmp, s, s0)
  {
    hide Linked, SameOrder, SortedIn, SortedRuns;
    SetUpFacts(cmp, s0, s, next, bounds, last, last);
    SortedMore(cmp, s, s, bounds, |s|);
    assert next[last := |s|] == next;
    LinkMore(next, next, bounds, |s|, |s|);
  }

  lemma JoinRuns<T(!new)>(cmp: (T, T) -> int, s0: seq<T>, s: seq<T>, s': seq<T>, next: seq<nat>, bounds: seq<nat>,
                          f1: nat, last: nat, sense: bool)
    requires Preorder(cmp) && SetUpTo(cmp, s0, s, next, bounds, f1, last) && f1 < last && Chain(cmp, s, f1, last, sense)
    requires s' == if sense then s[..f1] + Reversed(s[f1..last]) + s[last..] else s
    requires |s'| == |s| && cmp(s'[last - 1], s'[last]) <= 0
    ensures Tiled(cmp, s', next[f1 := |s|], bounds + [|s|]) && SameOrder(cmp, s', s0)
    ensures forall k | last <= k < |s| :: s'[k] == s[k]
  {
    hide Chain, Linked, Preorder, Reversed, SameOrder, SortedIn, SortedRuns;
    SetUpFacts(cmp, s0, s, next, bounds, f1, last);
    RunSettled(cmp, s, s', f1, last, sense);
    LastStays(cmp, s, s', last);
    SortedJoin(cmp, s', f1, last, |s|);
    SortedMore(cmp, s, s', bounds, |s|);
    LinkMore(next, next[f1 := |s|], bounds, |s|, |s|);
    SameOrderTrans(cmp, s', s, s0);
  }

  lemma SortedJoin<T(!new)>(cmp: (T, T) -> int, s: seq<T>, lo: nat, mid: nat, hi: nat)
    requires Preorder(cmp) && SortedIn(cmp, s, lo, mid) && SortedIn(cmp, s, mid, hi)
    requires lo < mid < hi <= |s| && cmp(s[mid - 1], s[mid]) <= 0
    ensures SortedIn(cmp, s, lo, hi)
  {
    hide Preorder;
    Opposite(cmp, s[mid - 1], s[mid - 1]);
    Opposite(cmp, s[mid], s[mid]);
    forall i, j | lo <= i < mid <= j < hi
      ensures cmp(s[i], s[j]) <= 0
    {
      Chained(cmp, s[i], s[mid - 1], s[mid]);
      Chained(cmp, s[i], s[mid], s[j]);
    }
  }

  /** Pairs with the same sense from f1 on: where they end. */
  method FindPairs<T>(cmp: (T, T) -> int, a: array<T>, f1: nat, last: nat, sense: bool) returns (f2: nat)
    requires f1 + 2 <= last < a.Length && f1 % 2 == last % 2 == 0 && (cmp(a[f1], a[f1 + 1]) > 0) == sense
    ensures f1 < f2 <= last && f2 % 2 == 0 && PairSense(cmp, a[..], f1, f2, sense)
    ensures f2 < last ==> (cmp(a[f2], a[f2 + 1]) > 0) != sense
  {
    hide PairSense;
    ghost var s := a[..];
    f2 := f1 + 2;
    FirstPairSense(cmp, s, f1, sense);
    while f2 < last
      invariant f1 + 2 <= f2 <= last && f2 % 2 == 0 && PairSense(cmp, s, f1, f2, sense)
    {
      if (cmp(a[f2], a[f2 + 1]) > 0) != sense {
        break;
      }
      MorePairSense(cmp, s, f1, f2, sense);
      f2 := f2 + 2;
    }
  }

  lemma FirstPairSense<T>(cmp: (T, T) -> int, s: seq<T>, f1: nat, sense: bool)
    requires f1 + 2 <= |s| && f1 % 2 == 0 && (cmp(s[f1], s[f1 + 1]) > 0) == sense
    ensures PairSense(cmp, s, f1, f1 + 2, sense)
  {
  }

  lemma MorePairSense<T>(cmp: (T, T) -> int, s: seq<T>, f1: nat, f2: nat, sense: bool)
    requires f2 + 2 <= |s| && f2 % 2 == 0 && (cmp(s[f2], s[f2 + 1]) > 0) == sense && PairSense(cmp, s, f1, f2, sense)
    ensures PairSense(cmp, s, f1, f2 + 2, sense)
  {
    forall k | f1 <= k < f2 + 1 && k % 2 == 0
      ensures (cmp(s[k], s[k + 1]) > 0) == sense
    {
      assert k < f2 - 1 || k == f2;
    }
  }

  /** The pairwise branch: every pair becomes a run. */
  method PairwiseRuns<T(!new)>(cmp: (T, T) -> int, a: array<T>, next: array<nat>, f: nat, f2: nat, last: nat,
                               sense: bool,
                               ghost s0: seq<T>, ghost bounds0: seq<nat>)
    returns (ghost bounds: seq<nat>)
    requires Preorder(cmp) && DifferentArrays(a, next) && SetUpTo(cmp, s0, a[..], next[..], bounds0, f, last)
    requires f < f2 <= last && f2 % 2 == 0 && PairSense(cmp, a[..], f, f2, sense)
    modifies a, next
    ensures SetUpTo(cmp, s0, a[..], next[..], bounds, f2, last)
    ensures forall k | f2 <= k < a.Length :: a[k] == old(a[k])
  {
    hide Chain, Linked, PairSense, Preorder, Reversed, SameOrder, SortedIn, SortedRuns;
    var f1: nat, p2: nat := f, f;
    bounds := bounds0;
    SetUpFacts(cmp, s0, a[..], next[..], bounds, f, last);
    assert f % 2 == 0;
    while f1 < f2
      invariant p2 == f1 <= f2 && f1 % 2 == 0 && SetUpTo(cmp, s0, a[..], next[..], bounds, f1, last)
      invariant PairSense(cmp, a[..], f1, f2, sense)
      invariant forall k | f2 <= k < a.Length :: a[k] == old(a[k])
    {
      ghost var s, ends := a[..], next[..];
      var e: nat := f1 + 2;
      next[p2] := e;
      p2 := e;
      if sense {
        a[f1], a[f1 + 1] := a[f1 + 1], a[f1];
        PairReversed(s, f1);
      }
      PairIsChain(cmp, s, f1, f2, sense);
      CloseRun(cmp, s0, s, a[..], ends, bounds, f1, e, last, sense);
      PairsStay(cmp, s, a[..], e, f2, sense);
      bounds := bounds + [e];
      assert next[..] == ends[f1 := e];
      f1 := e;
    }
  }

  lemma PairIsChain<T>(cmp: (T, T) -> int, s: seq<T>, f1: nat, f2: nat, sense: bool)
    requires PairSense(cmp, s, f1, f2, sense) && f1 % 2 == f2 % 2 == 0 && f1 < f2
    ensures Chain(cmp, s, f1, f1 + 2, sense) && PairSense(cmp, s, f1 + 2, f2, sense)
  {
  }

  lemma PairReversed<T>(s: seq<T>, i: nat)
    requires i + 1 < |s|
    ensures s[i := s[i + 1]][i + 1 := s[i]] == s[..i] + Reversed(s[i..i + 2]) + s[i + 2..]
  {
  }

  ghost predicate DifferentArrays<T>(a: array<T>, next: array<nat>) {
    var x: object, y: object := a, next;
    x != y && a.Length == next.Length
  }

  lemma FirstPair<T(!new)>(cmp: (T, T) -> int, s0: seq<T>, s: seq<T>, next: seq<nat>, bounds: seq<nat>, f: nat,
                           l2: nat, last: nat, sense: bool)
    requires SetUpTo(cmp, s0, s, next, bounds, f, last) && f < l2 <= last && l2 % 2 == 0
             && PairSense(cmp, s, f, l2, sense)
    ensures f % 2 == 0 && f + 2 <= l2 && last < |s| && Chain(cmp, s, f, f + 2, sense)
            && PairSense(cmp, s, f + 2, l2, sense)
  {
  }

  lemma PairFits<T>(cmp: (T, T) -> int, s: seq<T>, f2: nat, l2: nat, sense: bool)
    requires PairSense(cmp, s, f2, l2, sense) && f2 < l2 && f2 % 2 == l2 % 2
    ensures f2 + 2 <= l2 <= |s|
  {
  }

  /** The next pair goes on with the run, or starts one. */
  lemma PairChains<T>(cmp: (T, T) -> int, s: seq<T>, f1: nat, f2: nat, l2: nat, sense: bool)
    requires PairSense(cmp, s, f2, l2, sense) && f2 % 2 == 0 && f2 + 2 <= l2 <= |s|
    requires f1 == f2 || (f1 < f2 && Chain(cmp, s, f1, f2, sense) && (cmp(s[f2 - 1], s[f2]) > 0) == sense)
    ensures Chain(cmp, s, f1, f2 + 2, sense) && PairSense(cmp, s, f2 + 2, l2, sense)
  {
  }

  lemma PairsStay<T>(cmp: (T, T) -> int, s: seq<T>, s': seq<T>, f2: nat, l2: nat, sense: bool)
    requires PairSense(cmp, s, f2, l2, sense) && |s'| == |s| && forall k | f2 <= k < |s| :: s'[k] == s[k]
    ensures PairSense(cmp, s', f2, l2, sense)
  {
  }

  /** The natural branch: runs of one sense, longer than a pair, descending ones
      reversed. The last of them may go on into the run from `last`. */
  method NaturalRuns<T(!new)>(cmp: (T, T) -> int, a: array<T>, next: array<nat>, f: nat, l2: nat, last: nat,
                              sense: bool,
                              ghost s0: seq<T>, ghost bounds0: seq<nat>)
    returns (joined: bool, ghost bounds: seq<nat>)
    requires Preorder(cmp) && DifferentArrays(a, next) && SetUpTo(cmp, s0, a[..], next[..], bounds0, f, last)
    requires f < l2 <= last && l2 % 2 == 0 && PairSense(cmp, a[..], f, l2, sense)
    modifies a, next
    ensures joined ==> l2 == last && Tiled(cmp, a[..], next[..], bounds) && SameOrder(cmp, a[..], s0)
    ensures !joined ==> SetUpTo(cmp, s0, a[..], next[..], bounds, l2, last)
    ensures forall k | l2 <= k < a.Length :: a[k] == old(a[k])
  {
    hide Chain, Linked, PairSense, Preorder, SameOrder, SortedIn, SortedRuns;
    var f1: nat, f2: nat := f, f + 2;
    bounds := bounds0;
    FirstPair(cmp, s0, a[..], next[..], bounds, f, l2, last, sense);
    while f2 < l2
      invariant f1 + 2 <= f2 <= l2 && f1 % 2 == f2 % 2 == 0
      invariant SetUpTo(cmp, s0, a[..], next[..], bounds, f1, last)
      invariant Chain(cmp, a[..], f1, f2, sense) && PairSense(cmp, a[..], f2, l2, sense)
      invariant forall k | l2 <= k < a.Length :: a[k] == old(a[k])
    {
      PairFits(cmp, a[..], f2, l2, sense);
      if (cmp(a[f2 - 1], a[f2]) > 0) != sense {
        ghost var s := a[..];
        bounds := EndRun(cmp, a, next, f1, f2, last, sense, s0, bounds);
        PairsStay(cmp, s, a[..], f2, l2, sense);
        f1 := f2;
      }
      PairChains(cmp, a[..], f1, f2, l2, sense);
      f2 := f2 + 2;
    }
    joined, bounds := LastRun(cmp, a, next, f1, f2, last, sense, s0, bounds);
  }

  /** The end of a natural run: its end is linked, and it is reversed if it
      descends. */
  method EndRun<T(!new)>(cmp: (T, T) -> int, a: array<T>, next: array<nat>, f1: nat, f2: nat, last: nat, sense: bool,
                         ghost s0: seq<T>, ghost bounds0: seq<nat>)
    returns (ghost bounds: seq<nat>)
    requires Preorder(cmp) && DifferentArrays(a, next) && SetUpTo(cmp, s0, a[..], next[..], bounds0, f1, last)
    requires f1 + 2 <= f2 <= last && f2 % 2 == 0 && Chain(cmp, a[..], f1, f2, sense)
    modifies a, next
    ensures SetUpTo(cmp, s0, a[..], next[..], bounds, f2, last)
    ensures forall k | f2 <= k < a.Length :: a[k] == old(a[k])
  {
    hide Chain, Linked, Preorder, Reversed, SameOrder, SortedIn, SortedRuns;
    ghost var s, ends := a[..], next[..];
    SetUpFacts(cmp, s0, s, ends, bounds0, f1, last);
    next[f1] := f2;
    if sense {
      Reverse(a, f1, f2 - 1);
    }
    CloseRun(cmp, s0, s, a[..], ends, bounds0, f1, f2, last, sense);
    assert next[..] == ends[f1 := f2];
    bounds := bounds0 + [f2];
  }

  /** The last natural run found: it may go on into the run from `last`. */
  method LastRun<T(!new)>(cmp: (T, T) -> int, a: array<T>, next: array<nat>, f1: nat, f2: nat, last: nat, sense: bool,
                          ghost s0: seq<T>, ghost bounds0: seq<nat>)
    returns (joined: bool, ghost bounds: seq<nat>)
    requires Preorder(cmp) && DifferentArrays(a, next) && SetUpTo(cmp, s0, a[..], next[..], bounds0, f1, last)
    requires f1 + 2 <= f2 <= last && f2 % 2 == 0 && Chain(cmp, a[..], f1, f2, sense)
    modifies a, next
    ensures joined ==> f2 == last && Tiled(cmp, a[..], next[..], bounds) && SameOrder(cmp, a[..], s0)
    ensures !joined ==> SetUpTo(cmp, s0, a[..], next[..], bounds, f2, last)
    ensures forall k | f2 <= k < a.Length :: a[k] == old(a[k])
  {
    hide Chain, Linked, Preorder, Reversed, SameOrder, SortedIn, SortedRuns;
    ghost var s, ends := a[..], next[..];
    SetUpFacts(cmp, s0, s, ends, bounds0, f1, last);
    if sense {
      Reverse(a, f1, f2 - 1);
    }
    if f2 < last || cmp(a[f2 - 1], a[f2]) > 0 {
      CloseRun(cmp, s0, s, a[..], ends, bounds0, f1, f2, last, sense);
      next[f1] := f2;
      assert next[..] == ends[f1 := f2];
      return false, bounds0 + [f2];
    } else {
      JoinRuns(cmp, s0, s, a[..], ends, bounds0, f1, last, sense);
      var e: nat := a.Length;
      next[f1] := e;
      assert next[..] == ends[f1 := e];
      return true, bounds0 + [e];
    }
  }

  /** setup(): find the natural runs of a list, or pairs where they are short, and
      link their ends. */
  method Setup<T(!new)>(cmp: (T, T) -> int, a: array<T>, next: array<nat>) returns (ghost bounds: seq<nat>)
    requires Preorder(cmp) && DifferentArrays(a, next) && a.Length > 0
    modifies a, next
    ensures Tiled(cmp, a[..], next[..], bounds) && SameOrder(cmp, a[..], old(a[..]))
  {
    hide Linked, PairSense, Preorder, SameOrder, SortedIn, SortedRuns;
    var n := a.Length;
    ghost var s0 := a[..];
    if n <= 5 {
      InsertionSort(cmp, a, 0, n);
      next[0] := n;
      OneRun(cmp, a[..], next[..]);
      return [0, n];
    }
    var i := 4 + n % 2;
    InsertionSort(cmp, a, n - i, i);
    var last := n - i;
    next[last] := n;
    var f1 := 0;
    bounds := [0];
    SetUpStart(cmp, s0, a[..], next[..], last);
    var sense := cmp(a[0], a[1]) > 0;
    var joined := false;
    while f1 < last
      invariant joined ==> f1 == last && Tiled(cmp, a[..], next[..], bounds) && SameOrder(cmp, a[..], s0)
      invariant !joined ==> f1 <= last && SetUpTo(cmp, s0, a[..], next[..], bounds, f1, last)
      invariant f1 % 2 == last % 2 == 0 && f1 <= last == n - i
      invariant f1 < last ==> (cmp(a[f1], a[f1 + 1]) > 0) == sense
      decreases last - f1
    {
      var f2 := FindPairs(cmp, a, f1, last, sense);
      var length := f2 - f1;
      if length < THRESHOLD {
        bounds := PairwiseRuns(cmp, a, next, f1, f2, last, sense, s0, bounds);
      } else {
        joined, bounds := NaturalRuns(cmp, a, next, f1, f2, last, sense, s0, bounds);
      }
      f1 := f2;
      sense := !sense;
    }
    if !joined {
      EndRuns(cmp, s0, a[..], next[..], bounds, last);
      bounds := bounds + [n];
    }
  }

  lemma OneRun<T>(cmp: (T, T) -> int, s: seq<T>, next: seq<nat>)
    requires |s| == |next| > 0 && SortedIn(cmp, s, 0, |s|) && next[0] == |s|
    ensures Tiled(cmp, s, next, [0, |s|])
  {
  }

  lemma SetUpStart<T(!new)>(cmp: (T, T) -> int, s0: seq<T>, s: seq<T>, next: seq<nat>, last: nat)
    requires |s0| == |s| == |next| && last < |s| && last % 2 == 0
    requires SortedIn(cmp, s, last, |s|) && next[last] == |s| && SameOrder(cmp, s, s0)
    ensures SetUpTo(cmp, s0, s, next, [0], 0, last)
  {
  }

  // ------------------------------------------------------------ the sort

  /** mergesort() of a list of elements of the given size in bytes. The result is
      the only stable sorted arrangement of the elements. */
  method Sort<T(!new)>(cmp: (T, T) -> int, base: array<T>, size: nat) returns (r: int)
    requires Preorder(cmp)
    modifies base
    ensures r == if size < PSIZE / 2 then -1 else 0
    ensures r == -1 ==> base[..] == old(base[..])
    ensures r == 0 ==> Sorted(cmp, base[..]) && SameOrder(cmp, base[..], old(base[..]))
  {
    hide Preorder, SameOrder, Tiled;
    if size < PSIZE / 2 {
      return -1;
    }
    if base.Length == 0 {
      SameOrderRefl(cmp, base[..]);
      return 0;
    }
    var n := base.Length;
    ghost var s0 := base[..];
    var first := base[0];
    var list1, list2 := base, new T[n](_ => first);
    var next1, next2 := new nat[n](_ => 0), new nat[n](_ => 0);
    ghost var bounds := Setup(cmp, list1, next2);
    var big := false;
    TiledFirst(cmp, list1[..], next2[..], bounds);
    while next2[0] != n
      invariant list1 != list2 && Apart(list1, list2, next1, next2)
      invariant base == list1 || base == list2
      invariant list1.Length == list2.Length == next1.Length == next2.Length == n
      invariant fresh(next1) && fresh(next2) && (list1 != base ==> fresh(list1)) && (list2 != base ==> fresh(list2))
      invariant Tiled(cmp, list1[..], next2[..], bounds) && SameOrder(cmp, list1[..], s0)
      decreases |bounds|
    {
      ghost var s := list1[..];
      TiledFirst(cmp, s, next2[..], bounds);
      big, bounds := Pass(cmp, list1, list2, next1, next2, big, bounds);
      SameOrderTrans(cmp, list2[..], s, s0);
      list1, list2 := list2, list1;
      next1, next2 := next2, next1;
    }
    TiledFirst(cmp, list1[..], next2[..], bounds);
    ghost var s := list1[..];
    SortedSlice(cmp, s, 0, n);
    assert s[0..n] == s;
    if base == list2 {
      CopyList(list1, list2, 0, n, 0);
      assert list2[..] == list2[0..0 + (n - 0)] == s;
    }
    return 0;
  }

  /** One run left, or at least two. */
  lemma TiledFirst<T>(cmp: (T, T) -> int, s: seq<T>, next: seq<nat>, bounds: seq<nat>)
    requires Tiled(cmp, s, next, bounds)
    ensures |s| == |next| > 0
    ensures if next[0] == |s| then SortedIn(cmp, s, 0, |s|) else |bounds| > 2
  {
    assert next[bounds[0]] == bounds[1] && SortedIn(cmp, s, bounds[0], bounds[1]);
    assert 1 < |bounds| - 1 ==> bounds[1] < bounds[|bounds| - 1];
  }
}
