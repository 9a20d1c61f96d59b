/** The counted insertion sorts, in place on an array, with the parts of range-v3 they call:
    `rotate` of the last element of a range and `upper_bound` by `partition_point`. */
module InsertionSort {
  import opened StableOrder
  import opened MetaSort
  import opened Logarithm
  import opened Comparing

  /** What a binary search of d elements may spend. */
  function SearchCost(d: nat): nat {
    if d == 0 then 0 else Log2(d) + 1
  }

  lemma SearchCostHalves(d: nat, d': nat)
    requires 0 < d && d' <= d / 2
    ensures SearchCost(d') + 1 <= SearchCost(d)
  {
    if d' > 0 {
      Log2Mono(d', d / 2);
    }
  }

  /** Position p of s splits the elements that may stay before v from those that exceed it. */
  predicate IsUpperBound<T>(s: seq<T>, p: nat, v: T, lt: (T, T) -> bool) {
    && p <= |s|
    && (forall i :: 0 <= i < p ==> !lt(v, s[i]))
    && (forall i :: p <= i < |s| ==> lt(v, s[i]))
  }

  /** No element that exceeds v comes before one that does not; sorted sequences are like that. */
  predicate SplitBy<T>(s: seq<T>, v: T, lt: (T, T) -> bool) {
    forall i, j :: 0 <= i < j < |s| && lt(v, s[i]) ==> lt(v, s[j])
  }

  lemma SortedIsSplit<T(!new)>(s: seq<T>, v: T, lt: (T, T) -> bool)
    requires StrictWeakOrder(lt) && Sorted(s, lt)
    ensures SplitBy(s, v, lt)
  {
  }

  /** `upper_bound_n`. */
  method UpperBoundN<T>(a: array<T>, first: nat, d: nat, val: T, c: Comparer<T>) returns (r: nat)
    requires c.Valid() && first + d <= a.Length && SplitBy(a[first..first + d], val, c.lt)
    modifies c`calls
    ensures first <= r && IsUpperBound(a[first..first + d], r - first, val, c.lt)
    ensures c.calls <= old(c.calls) + SearchCost(d)
  {
    var lo: nat, n: nat := first, d;
    ghost var s := a[first..first + d];
    while 0 != n
      invariant first <= lo && lo + n <= first + d
      invariant forall i :: 0 <= i < lo - first ==> !c.lt(val, s[i])
      invariant forall i :: lo + n - first <= i < d ==> c.lt(val, s[i])
      invariant c.calls + SearchCost(n) <= old(c.calls) + SearchCost(d)
    {
      var half := n / 2;
      var middle := lo + half;
      assert a[middle] == s[middle - first];
      var exceeds := c.Less(val, a[middle]);
      if exceeds {
        SearchCostHalves(n, half);
        n := half;
      } else {
        SearchCostHalves(n, n - (half + 1));
        middle := middle + 1;
        lo := middle;
        n := n - (half + 1);
      }
    }
    r := lo;
  }

  /** `partition_point_n` on the predicate of `upper_bound`, which negates the comparison. */
  method PartitionPointN<T>(a: array<T>, first: nat, d: nat, val: T, c: Comparer<T>) returns (r: nat)
    requires c.Valid() && first + d <= a.Length && SplitBy(a[first..first + d], val, c.lt)
    modifies c`calls
    ensures first <= r && IsUpperBound(a[first..first + d], r - first, val, c.lt)
    ensures c.calls <= old(c.calls) + SearchCost(d)
  {
    r := first;
    ghost var s := a[first..first + d];
    if 0 < d {
      var n := d;
      while true
        invariant first <= r && 0 < n && r + n <= first + d
        invariant forall i :: 0 <= i < r - first ==> !c.lt(val, s[i])
        invariant forall i :: r + n - first <= i < d ==> c.lt(val, s[i])
        invariant c.calls + SearchCost(n) <= old(c.calls) + SearchCost(d)
        decreases n
      {
        var half := n / 2;
        var middle := r + half;
        assert a[middle] == s[middle - first];
        var exceeds := c.Less(val, a[middle]);
        if !exceeds {
          SearchCostHalves(n, n - (half + 1));
          r := middle + 1;
          n := n - (half + 1);
        } else {
          SearchCostHalves(n, half);
          n := half;
        }
        if 0 == n {
          break;
        }
      }
    }
  }

  /** What `upper_bound` of a range of d elements may spend: one bisection if the distance is known,
      else the probes and a bisection between the last two. */
  function RangeCost(d: nat, sized: bool): nat {
    if sized then SearchCost(d) else 2 * Log2(d + 1)
  }

  /** After j probes that went on, the last piece of at most 2^j of d elements is bisected, with one
      more comparison if it is not the end of the range. */
  lemma ProbesCost(d: nat, j: nat, piece: nat)
    requires Pow2(j) - 1 <= d && piece <= Pow2(j) && piece <= d - (Pow2(j) - 1)
    ensures j + SearchCost(piece) <= 2 * Log2(d + 1)
    ensures piece == Pow2(j) < d - (Pow2(j) - 1) ==> j + 1 + SearchCost(piece) <= 2 * Log2(d + 1)
  {
    Log2OfPow2(j);
    Log2Mono(Pow2(j), d + 1);
    if piece == Pow2(j) {
      Log2OfPow2(j + 1);
      Log2Mono(Pow2(j + 1), d + 1);
    } else if piece > 0 {
      LogBelow(piece, j);
    }
  }

  /** The bisection between the last two probes of a range that holds s. */
  method BisectPiece<T>(a: array<T>, ghost s: seq<T>, ghost first: nat, lo: nat, len: nat, val: T, c: Comparer<T>)
    returns (r: nat)
    requires c.Valid() && SplitBy(s, val, c.lt)
    requires first <= lo && lo + len <= first + |s| <= a.Length && s == a[first..first + |s|]
    requires forall i :: 0 <= i < lo - first ==> !c.lt(val, s[i])
    requires lo + len < first + |s| ==> c.lt(val, s[lo + len - first])
    modifies c`calls
    ensures first <= r && IsUpperBound(s, r - first, val, c.lt)
    ensures c.calls <= old(c.calls) + SearchCost(len)
  {
    ghost var from, to := lo - first, lo + len - first;
    PieceSplits(s, from, to, val, c.lt);
    SliceOfSlice(a[..], first, first + |s|, lo, lo + len);
    r := PartitionPointN(a, lo, len, val, c);
    PieceDecides(s, from, to, r - lo, val, c.lt);
  }

  /** `upper_bound` on [first, last).  Without a distance the range is probed in steps that double
      until an element exceeds `val` or the end is reached. */
  method RangesUpperBound<T>(a: array<T>, first: nat, last: nat, val: T, c: Comparer<T>, sized: bool)
    returns (r: nat)
    requires c.Valid() && first <= last <= a.Length && SplitBy(a[first..last], val, c.lt)
    modifies c`calls
    ensures first <= r && IsUpperBound(a[first..last], r - first, val, c.lt)
    ensures c.calls <= old(c.calls) + RangeCost(last - first, sized)
  {
    ghost var s := a[first..last];
    if sized {
      r := PartitionPointN(a, first, last - first, val, c);
      return;
    }
    var lo: nat, len: nat := first, 1;
    ghost var probes: nat := 0;
    while true
      invariant first <= lo <= last
      invariant forall i :: 0 <= i < lo - first ==> !c.lt(val, s[i])
      invariant len == Pow2(probes) == lo - first + 1
      invariant c.calls == old(c.calls) + probes
      decreases last - lo
    {
      var mid := if lo + len <= last then lo + len else last;
      var d := len - (mid - lo); // the part of len that did not fit
      assert mid < last ==> a[mid] == s[mid - first];
      var stop := mid == last;
      if !stop {
        stop := c.Less(val, a[mid]);
      }
      if stop {
        len := len - d;
        ProbesCost(last - first, probes, len);
        r := BisectPiece(a, s, first, lo, len, val, c);
        return;
      }
      probes := probes + 1;
      lo := mid;
      len := len * 2;
    }
  }

  lemma SliceOfSlice<T>(a: seq<T>, first: nat, last: nat, lo: nat, mid: nat)
    requires first <= lo <= mid <= last <= |a|
    ensures a[first..last][lo - first..mid - first] == a[lo..mid]
  {
    var t := a[first..last][lo - first..mid - first];
    assert |t| == mid - lo && forall i :: 0 <= i < |t| ==> t[i] == a[first..last][lo - first + i] == a[lo + i];
  }

  lemma PieceSplits<T>(s: seq<T>, from: nat, to: nat, v: T, lt: (T, T) -> bool)
    requires from <= to <= |s| && SplitBy(s, v, lt)
    ensures SplitBy(s[from..to], v, lt)
  {
  }

  /** The upper bound in a piece with no element that exceeds v before it and none that does not after
      it is that of the whole. */
  lemma PieceDecides<T>(s: seq<T>, from: nat, to: nat, p: nat, v: T, lt: (T, T) -> bool)
    requires from <= to <= |s| && SplitBy(s, v, lt) && IsUpperBound(s[from..to], p, v, lt)
    requires forall i :: 0 <= i < from ==> !lt(v, s[i])
    requires to < |s| ==> lt(v, s[to])
    ensures IsUpperBound(s, from + p, v, lt)
  {
    forall i | 0 <= i < |s|
      ensures lt(v, s[i]) <==> from + p <= i
    {
      if from <= i < to {
        assert s[i] == s[from..to][i - from];
      }
    }
  }

  // ----- rotate of the range [first, middle + 1)

  datatype Category = Forward | Bidirectional | RandomAccess

  /** `rotate_left`: the first element moves behind the others. */
  method RotateLeft<T>(a: array<T>, first: nat, last: nat)
    requires first < last <= a.Length
    modifies a
    ensures a[..] == old(a[..first] + a[first + 1..last] + [a[first]] + a[last..])
  {
    ghost var s := a[..];
    var tmp := a[first];
    var out := first;
    while out + 1 != last
      invariant first <= out < last
      invariant forall k :: 0 <= k < first || out <= k < a.Length ==> a[k] == s[k]
      invariant forall k :: first <= k < out ==> a[k] == s[k + 1]
    {
      a[out] := a[out + 1];
      out := out + 1;
    }
    a[out] := tmp;
    LeftRotated(s, a[..], first, last);
  }

  lemma LeftRotated<T>(s: seq<T>, t: seq<T>, first: nat, last: nat)
    requires first < last <= |s| == |t|
    requires forall k :: 0 <= k < first || last <= k < |s| ==> t[k] == s[k]
    requires forall k :: first <= k < last - 1 ==> t[k] == s[k + 1]
    requires t[last - 1] == s[first]
    ensures t == s[..first] + s[first + 1..last] + [s[first]] + s[last..]
  {
    assert t[..first] == s[..first] && t[first..last - 1] == s[first + 1..last] && t[last..] == s[last..];
    assert t == t[..first] + t[first..last - 1] + [t[last - 1]] + t[last..];
  }

  /** `rotate_right`: the last element moves before the others. */
  method RotateRight<T>(a: array<T>, first: nat, last: nat)
    requires first < last <= a.Length
    modifies a
    ensures a[..] == old(a[..first] + [a[last - 1]] + a[first..last - 1] + a[last..])
  {
    ghost var s := a[..];
    var out := last - 1;
    var tmp := a[out];
    while out != first
      invariant first <= out < last
      invariant forall k :: 0 <= k < out || last <= k < a.Length ==> a[k] == s[k]
      invariant forall k :: out < k < last ==> a[k] == s[k - 1]
    {
      a[out] := a[out - 1];
      out := out - 1;
    }
    a[first] := tmp;
    RightRotated(s, a[..], first, last);
  }

  lemma RightRotated<T>(s: seq<T>, t: seq<T>, first: nat, last: nat)
    requires first < last <= |s| == |t|
    requires forall k :: 0 <= k < first || last <= k < |s| ==> t[k] == s[k]
    requires forall k :: first < k < last ==> t[k] == s[k - 1]
    requires t[first] == s[last - 1]
    ensures t == s[..first] + [s[last - 1]] + s[first..last - 1] + s[last..]
  {
    assert t[..first] == s[..first] && t[first + 1..last] == s[first..last - 1] && t[last..] == s[last..];
    assert t == t[..first] + [t[first]] + t[first + 1..last] + t[last..];
  }

  /** The rotation still to be done when the cursors stand at f, m and i: the untouched tail, then
      the front elements already carried along, then those that are not. */
  function Pending<T>(s: seq<T>, f: nat, m: nat, i: nat, last: nat): seq<T>
    requires f <= m <= i <= last <= |s|
  {
    s[..f] + s[i..last] + s[m..i] + s[f..m] + s[last..]
  }

  lemma SwapKeepsPending<T>(s: seq<T>, f: nat, m: nat, i: nat, last: nat)
    requires f < m <= i < last <= |s|
    ensures Pending(Swapped(s, f, i), f + 1, m, i + 1, last) == Pending(s, f, m, i, last)
  {
    var t := Swapped(s, f, i);
    assert t[..f + 1] == s[..f] + [s[i]];
    assert t[i + 1..last] == s[i + 1..last];
    assert t[m..i + 1] == s[m..i] + [s[f]];
    assert t[f + 1..m] == s[f + 1..m];
    assert t[last..] == s[last..];
    assert s[i..last] == [s[i]] + s[i + 1..last];
    assert s[f..m] == [s[f]] + s[f + 1..m];
  }

  lemma FrontUsedUp<T>(s: seq<T>, f: nat, i: nat, last: nat)
    requires f <= i <= last <= |s|
    ensures Pending(s, f, f, i, last) == Pending(s, f, i, i, last)
  {
  }

  lemma TailUsedUp<T>(s: seq<T>, f: nat, m: nat, last: nat)
    requires f <= m <= last <= |s|
    ensures Pending(s, f, m, last, last) == Pending(s, f, m, m, last)
    ensures f == m ==> Pending(s, f, m, last, last) == s
  {
    assert s == s[..last] + s[last..];
    assert s[..last] == s[..f] + s[f..last];
  }

  /** `iter_swap`. */
  function Swapped<T>(s: seq<T>, f: nat, i: nat): seq<T>
    requires f < |s| && i < |s|
  {
    s[f := s[i]][i := s[f]]
  }

  /** What the swaps of `rotate_forward` make of s from cursors f, m and i on. */
  function Rotating<T>(s: seq<T>, f: nat, m: nat, i: nat, last: nat): seq<T>
    requires f < m <= i < last <= |s|
    decreases last - f
  {
    var t := Swapped(s, f, i);
    if i + 1 == last then
      if f + 1 == m then t else Rotating(t, f + 1, m, m, last)
    else Rotating(t, f + 1, if f + 1 == m then i + 1 else m, i + 1, last)
  }

  /** One swap leaves the rotation still to be done from the advanced cursors. */
  lemma SwapAdvances<T>(s: seq<T>, f: nat, m: nat, i: nat, last: nat, t: seq<T>)
    requires f < m <= i < last <= |s| && t == Swapped(s, f, i)
    ensures |t| == |s|
    ensures i + 1 != last ==> Pending(t, f + 1, if f + 1 == m then i + 1 else m, i + 1, last) == Pending(s, f, m, i, last)
    ensures i + 1 == last && f + 1 != m ==> Pending(t, f + 1, m, m, last) == Pending(s, f, m, i, last)
    ensures i + 1 == last && f + 1 == m ==> t == Pending(s, f, m, i, last)
  {
    SwapKeepsPending(s, f, m, i, last);
    if f + 1 == m {
      FrontUsedUp(t, f + 1, i + 1, last);
    }
    if i + 1 == last {
      TailUsedUp(t, f + 1, m, last);
    }
  }

  lemma {:induction false} RotatingRotates<T>(s: seq<T>, f: nat, m: nat, i: nat, last: nat)
    requires f < m <= i < last <= |s|
    ensures Rotating(s, f, m, i, last) == Pending(s, f, m, i, last)
    decreases last - f
  {
    var t := Swapped(s, f, i);
    SwapAdvances(s, f, m, i, last, t);
    if i + 1 != last {
      RotatingRotates(t, f + 1, if f + 1 == m then i + 1 else m, i + 1, last);
    } else if f + 1 != m {
      RotatingRotates(t, f + 1, m, m, last);
    }
  }

  method SwapElements<T>(a: array<T>, f: nat, i: nat)
    requires f < a.Length && i < a.Length
    modifies a
    ensures a[..] == Swapped(old(a[..]), f, i)
  {
    a[f], a[i] := a[i], a[f];
  }

  /** The first loop of `rotate_forward`; nothing is out of place if the cursors meet. */
  method RotateHead<T>(a: array<T>, first: nat, middle: nat, last: nat) returns (f: nat, m: nat)
    requires first < middle < last <= a.Length
    modifies a
    ensures f <= m < last
    ensures (if f == m then a[..] else Rotating(a[..], f, m, m, last)) == Rotating(old(a[..]), first, middle, middle, last)
  {
    var i: nat;
    f, m, i := first, middle, middle;
    while true
      invariant f < m <= i < last
      invariant Rotating(a[..], f, m, i, last) == Rotating(old(a[..]), first, middle, middle, last)
      decreases last - i
    {
      SwapElements(a, f, i);
      f := f + 1;
      i := i + 1;
      if i == last {
        break;
      }
      if f == m {
        m := i;
      }
    }
  }

  /** The second loop of `rotate_forward`. */
  method RotateRest<T>(a: array<T>, first: nat, middle: nat, last: nat)
    requires first < middle < last <= a.Length
    modifies a
    ensures a[..] == Rotating(old(a[..]), first, middle, middle, last)
  {
    var f: nat, m: nat, j: nat := first, middle, middle;
    while true
      invariant f < m <= j < last
      invariant Rotating(a[..], f, m, j, last) == Rotating(old(a[..]), first, middle, middle, last)
      decreases last - f
    {
      SwapElements(a, f, j);
      f := f + 1;
      j := j + 1;
      if j == last {
        if f == m {
          break;
        }
        j := m;
      } else if f == m {
        m := j;
      }
    }
  }

  lemma NothingCarried<T>(s: seq<T>, first: nat, middle: nat, last: nat)
    requires first <= middle <= last <= |s|
    ensures Pending(s, first, middle, middle, last) == s[..first] + s[middle..last] + s[first..middle] + s[last..]
  {
    assert s[middle..middle] == [];
  }

  /** `rotate_forward`: elements are swapped from the front, and the part of the front that has been
      carried along is then rotated behind what is left, until nothing is out of place. */
  method RotateForward<T>(a: array<T>, first: nat, middle: nat, last: nat)
    requires first < middle < last <= a.Length
    modifies a
    ensures a[..] == old(a[..first] + a[middle..last] + a[first..middle] + a[last..])
  {
    RotatingRotates(a[..], first, middle, middle, last);
    NothingCarried(a[..], first, middle, last);
    var f, m := RotateHead(a, first, middle, last);
    if f != m {
      RotateRest(a, f, m, last);
    }
  }

  /** `rotate(first, middle, middle + 1)`: which algorithm runs depends on the iterators and on how
      the elements are moved, what it leaves does not. */
  method RotateLast<T>(a: array<T>, first: nat, middle: nat, category: Category, trivial: bool)
    requires first <= middle < a.Length
    modifies a
    ensures a[..] == old(a[..first] + [a[middle]] + a[first..middle] + a[middle + 1..])
  {
    if first == middle {
      return;
    }
    if trivial && first + 1 == middle {
      RotateLeft(a, first, middle + 1);
    } else if trivial && !category.Forward? {
      RotateRight(a, first, middle + 1);
    } else {
      RotateForward(a, first, middle, middle + 1);
    }
  }

  // ----- the sorts

  /** Putting v at its upper bound in a sorted sequence. */
  function InsertAt<T>(s: seq<T>, p: nat, v: T): seq<T>
    requires p <= |s|
  {
    s[..p] + [v] + s[p..]
  }

  lemma InsertAtSorts<T(!new)>(s: seq<T>, p: nat, v: T, lt: (T, T) -> bool)
    requires StrictWeakOrder(lt) && Sorted(s, lt) && IsUpperBound(s, p, v, lt)
    ensures IsStableSort(s + [v], InsertAt(s, p, v), lt)
  {
    InsertAtSorted(s, p, v, lt);
    forall x
      ensures Class(s + [v], lt, x) == Class(InsertAt(s, p, v), lt, x)
    {
      InsertAtKeepsClass(s, p, v, lt, x);
    }
  }

  lemma InsertAtSorted<T(!new)>(s: seq<T>, p: nat, v: T, lt: (T, T) -> bool)
    requires StrictWeakOrder(lt) && Sorted(s, lt) && IsUpperBound(s, p, v, lt)
    ensures Sorted(InsertAt(s, p, v), lt)
  {
    var t := InsertAt(s, p, v);
    assert forall i :: 0 <= i < |t| ==> t[i] == if i < p then s[i] else if i == p then v else s[i - 1];
  }

  lemma InsertAtKeepsClass<T(!new)>(s: seq<T>, p: nat, v: T, lt: (T, T) -> bool, x: T)
    requires StrictWeakOrder(lt) && IsUpperBound(s, p, v, lt)
    ensures Class(s + [v], lt, x) == Class(InsertAt(s, p, v), lt, x)
  {
    var low, tie, high := Class(s[..p], lt, x), Class([v], lt, x), Class(s[p..], lt, x);
    ClassAppend(s, [v], lt, x);
    ClassAppend(s[..p], s[p..], lt, x);
    assert s == s[..p] + s[p..];
    ClassAppend(s[..p] + [v], s[p..], lt, x);
    ClassAppend(s[..p], [v], lt, x);
    ClassOne(lt, x, v);
    if Equivalent(lt, x, v) {
      NoTieAbove(s[p..], lt, x, v);
    }
    assert low + high + tie == low + tie + high;
  }

  lemma NoTieAbove<T(!new)>(s: seq<T>, lt: (T, T) -> bool, x: T, v: T)
    requires StrictWeakOrder(lt) && Equivalent(lt, x, v) && forall i :: 0 <= i < |s| ==> lt(v, s[i])
    ensures Class(s, lt, x) == []
  {
    if Class(s, lt, x) != [] {
      var y := Class(s, lt, x)[0];
      ClassMember(s, lt, x, y);
    }
  }

  /** Inserting the next element extends a stable sorting. */
  lemma InsertExtendsSort<T(!new)>(part: seq<T>, s: seq<T>, v: T, p: nat, lt: (T, T) -> bool)
    requires StrictWeakOrder(lt) && IsStableSort(part, s, lt) && IsUpperBound(s, p, v, lt)
    ensures IsStableSort(part + [v], InsertAt(s, p, v), lt)
  {
    InsertAtSorts(s, p, v, lt);
    forall x
      ensures Class(part + [v], lt, x) == Class(InsertAt(s, p, v), lt, x)
    {
      ClassAppend(part, [v], lt, x);
      ClassAppend(s, [v], lt, x);
      assert Class(part, lt, x) == Class(s, lt, x);
      assert Class(s + [v], lt, x) == Class(InsertAt(s, p, v), lt, x);
    }
  }

  /** A stable sorting has the length of its input and can be searched for any value. */
  lemma StableSortIsSplit<T(!new)>(part: seq<T>, s: seq<T>, v: T, lt: (T, T) -> bool)
    requires StrictWeakOrder(lt) && IsStableSort(part, s, lt)
    ensures |s| == |part| && SplitBy(s, v, lt)
  {
    StableIsPermutation(part, s, lt);
    assert |multiset(s)| == |multiset(part)|;
    SortedIsSplit(s, v, lt);
  }

  lemma SpliceMoves<T>(pre: seq<T>, s: seq<T>, v: T, post: seq<T>, p: nat)
    requires p <= |s|
    ensures var b := pre + s + [v] + post; var it := |pre| + |s|;
      b[..|pre| + p] + [b[it]] + b[|pre| + p..it] + b[it + 1..] == pre + InsertAt(s, p, v) + post
  {
    var b := pre + s + [v] + post;
    var it := |pre| + |s|;
    assert b[..|pre| + p] == pre + s[..p];
    assert b[|pre| + p..it] == s[p..];
    assert b[it + 1..] == post;
  }

  /** Part-way: the range up to `it` holds `s`, the rest is as in the input. */
  ghost predicate Placed<T>(b: seq<T>, input: seq<T>, first: nat, it: nat, s: seq<T>) {
    first <= it <= |input| && |s| == it - first && b == input[..first] + s + input[it..]
  }

  lemma PlacedParts<T>(b: seq<T>, input: seq<T>, first: nat, it: nat, s: seq<T>)
    requires Placed(b, input, first, it, s) && it < |input|
    ensures |b| == |input| && b[first..it] == s && b[it] == input[it]
    ensures b == input[..first] + s + [input[it]] + input[it + 1..]
  {
    assert input[it..] == [input[it]] + input[it + 1..];
  }

  /** The element at `it` is rotated to its place in what is before it. */
  method RotateIn<T>(a: array<T>, first: nat, it: nat, insertion: nat, category: Category, trivial: bool,
                     ghost input: seq<T>, ghost s: seq<T>)
    requires first <= insertion <= it < a.Length == |input| && Placed(a[..], input, first, it, s)
    modifies a
    ensures Placed(a[..], input, first, it + 1, InsertAt(s, insertion - first, input[it]))
  {
    ghost var b, pre, v, post := a[..], input[..first], input[it], input[it + 1..];
    PlacedParts(b, input, first, it, s);
    SpliceMoves(pre, s, v, post, insertion - first);
    RotateLast(a, insertion, it, category, trivial);
    assert a[..] == b[..insertion] + [b[it]] + b[insertion..it] + b[it + 1..];
  }

  /** The next element at its upper bound: the prefix that is sorted grows by one. */
  lemma RoundSorts<T(!new)>(input: seq<T>, first: nat, it: nat, s: seq<T>, p: nat, lt: (T, T) -> bool)
    requires StrictWeakOrder(lt) && first <= it < |input|
    requires IsStableSort(input[first..it], s, lt) && IsUpperBound(s, p, input[it], lt)
    ensures IsStableSort(input[first..it + 1], InsertAt(s, p, input[it]), lt)
  {
    InsertExtendsSort(input[first..it], s, input[it], p, lt);
    assert input[first..it] + [input[it]] == input[first..it + 1];
  }

  /** Part-way: the range up to `it` holds the stable sorting `s`, the rest is as in the input. */
  ghost predicate SortedUpTo<T(!new)>(b: seq<T>, input: seq<T>, first: nat, it: nat, s: seq<T>, lt: (T, T) -> bool) {
    Placed(b, input, first, it, s) && IsStableSort(input[first..it], s, lt)
  }

  lemma BeforeRound<T(!new)>(b: seq<T>, input: seq<T>, first: nat, it: nat, s: seq<T>, lt: (T, T) -> bool)
    requires StrictWeakOrder(lt) && SortedUpTo(b, input, first, it, s, lt) && it < |input|
    ensures |b| == |input| && b[first..it] == s && b[it] == input[it] && SplitBy(s, input[it], lt)
  {
    PlacedParts(b, input, first, it, s);
    StableSortIsSplit(input[first..it], s, input[it], lt);
  }

  /** One round: the element at `it` moves to its upper bound in the sorted part before it. */
  method InsertNext<T(!new)>(a: array<T>, first: nat, it: nat, insertion: nat, ghost lt: (T, T) -> bool,
                             category: Category, trivial: bool, ghost input: seq<T>, ghost s: seq<T>)
    requires StrictWeakOrder(lt) && first <= insertion <= it < a.Length == |input|
    requires SortedUpTo(a[..], input, first, it, s, lt) && IsUpperBound(s, insertion - first, input[it], lt)
    modifies a
    ensures SortedUpTo(a[..], input, first, it + 1, InsertAt(s, insertion - first, input[it]), lt)
  {
    RotateIn(a, first, it, insertion, category, trivial, input, s);
    RoundSorts(input, first, it, s, insertion - first, lt);
  }

  lemma NothingSorted<T(!new)>(input: seq<T>, first: nat, lt: (T, T) -> bool)
    requires first <= |input|
    ensures SortedUpTo(input, input, first, first, [], lt)
  {
    assert input == input[..first] + [] + input[first..];
    assert input[first..first] == [];
  }

  /** The range [first, last) as `meta::sort` sorts it, the rest unchanged. */
  function RangeSorted<T>(input: seq<T>, first: nat, last: nat, lt: (T, T) -> bool): seq<T>
    requires first <= last <= |input|
  {
    input[..first] + Sort(input[first..last], lt) + input[last..]
  }

  /** Stable sortings are unique, so this one is what `meta::sort` returns. */
  lemma AllSorted<T(!new)>(b: seq<T>, input: seq<T>, first: nat, last: nat, s: seq<T>, lt: (T, T) -> bool)
    requires StrictWeakOrder(lt) && SortedUpTo(b, input, first, last, s, lt)
    ensures b == RangeSorted(input, first, last, lt)
  {
    var part := input[first..last];
    SortIsStableSort(part, lt);
    forall x
      ensures Class(s, lt, x) == Class(Sort(part, lt), lt, x)
    {
      assert Class(part, lt, x) == Class(s, lt, x);
      assert Class(part, lt, x) == Class(Sort(part, lt), lt, x);
    }
    StableSortIsUnique(s, Sort(part, lt), lt);
  }

  /** `m` searches of at most `each` comparisons. */
  function Budget(m: nat, each: nat): nat {
    if m == 0 then 0 else Budget(m - 1, each) + each
  }

  lemma {:induction false} BudgetIsProduct(m: nat, each: nat)
    ensures Budget(m, each) == m * each
  {
    if m > 0 {
      BudgetIsProduct(m - 1, each);
    }
  }

  lemma WholeBudget(n: nat)
    requires n > 0
    ensures Budget(n, SearchCost(n)) == n * (Log2(n) + 1)
  {
    BudgetIsProduct(n, SearchCost(n));
  }

  lemma SearchCostGrows(m: nat, n: nat)
    requires m <= n
    ensures SearchCost(m) <= SearchCost(n)
  {
    if m > 0 {
      Log2Mono(m, n);
    }
  }

  /** `insertion_sort_n`: leaves in [first, first + n) what `meta::sort` makes of its contents, with
      at most n searches of at most log2(n) + 1 comparisons. */
  method InsertionSortN<T(!new)>(a: array<T>, first: nat, n: nat, c: Comparer<T>, category: Category, trivial: bool)
    requires c.Valid() && StrictWeakOrder(c.lt) && first + n <= a.Length
    modifies a, c`calls
    ensures a[..] == RangeSorted(old(a[..]), first, first + n, c.lt)
    ensures c.calls <= old(c.calls) + if n == 0 then 0 else n * (Log2(n) + 1)
  {
    ghost var input, s := a[..], [];
    NothingSorted(input, first, c.lt);
    var m, it := 0, first;
    while m != n
      invariant 0 <= m <= n && it == first + m
      invariant SortedUpTo(a[..], input, first, it, s, c.lt)
      invariant c.calls <= old(c.calls) + Budget(m, SearchCost(n))
      decreases n - m
    {
      BeforeRound(a[..], input, first, it, s, c.lt);
      assert a[first..it] == s;
      var insertion := UpperBoundN(a, first, m, a[it], c);
      InsertNext(a, first, it, insertion, c.lt, category, trivial, input, s);
      s := InsertAt(s, insertion - first, input[it]);
      SearchCostGrows(m, n);
      it := it + 1;
      m := m + 1;
    }
    if n > 0 {
      WholeBudget(n);
    }
    AllSorted(a[..], input, first, it, s, c.lt);
  }

  /** What one of n searches may spend at most. */
  function EachCost(n: nat, sized: bool): nat {
    if n == 0 then 0 else if sized then Log2(n) + 1 else 2 * Log2(n)
  }

  lemma RangeCostBelow(m: nat, n: nat, sized: bool)
    requires m < n
    ensures RangeCost(m, sized) <= EachCost(n, sized)
  {
    if sized {
      SearchCostGrows(m, n);
    } else {
      Log2Mono(m + 1, n);
    }
  }

  /** `insertion_sort` on [first, last): the same result as `insertion_sort_n`, with as many comparisons
      if the distance is known, and otherwise at most 2 n log2(n). */
  method InsertionSortRange<T(!new)>(a: array<T>, first: nat, last: nat, c: Comparer<T>,
                                     category: Category, trivial: bool, sized: bool)
    requires c.Valid() && StrictWeakOrder(c.lt) && first <= last <= a.Length
    modifies a, c`calls
    ensures a[..] == RangeSorted(old(a[..]), first, last, c.lt)
    ensures c.calls <= old(c.calls) + (last - first) * EachCost(last - first, sized)
  {
    ghost var input, s := a[..], [];
    NothingSorted(input, first, c.lt);
    var it := first;
    while it != last
      invariant first <= it <= last
      invariant SortedUpTo(a[..], input, first, it, s, c.lt)
      invariant c.calls <= old(c.calls) + Budget(it - first, EachCost(last - first, sized))
      decreases last - it
    {
      BeforeRound(a[..], input, first, it, s, c.lt);
      assert a[first..it] == s;
      var insertion := RangesUpperBound(a, first, it, a[it], c, sized);
      InsertNext(a, first, it, insertion, c.lt, category, trivial, input, s);
      s := InsertAt(s, insertion - first, input[it]);
      RangeCostBelow(it - first, last - first, sized);
      it := it + 1;
    }
    BudgetIsProduct(last - first, EachCost(last - first, sized));
    AllSorted(a[..], input, first, it, s, c.lt);
  }
}
