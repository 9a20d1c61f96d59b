/** `meta::partition` and `meta::sort`: a quicksort on the first element. */
module MetaSort {
  import opened MetaFolds
  import opened StableOrder

  /** `partition_<Fn>::impl`: one element joins the back of the list it belongs to. */
  function PartitionStep<T>(p: T -> bool): ((seq<T>, seq<T>), T) -> (seq<T>, seq<T>) {
    (state: (seq<T>, seq<T>), a: T) => if p(a) then (state.0 + [a], state.1) else (state.0, state.1 + [a])
  }

  /** `bind_back<Fn, A>`: an element against the pivot. */
  function Below<T>(lt: (T, T) -> bool, a: T): T -> bool {
    x => lt(x, a)
  }

  function Not<T>(p: T -> bool): T -> bool {
    x => !p(x)
  }

  function Partition<T>(l: seq<T>, p: T -> bool): (r: (seq<T>, seq<T>))
    ensures r.0 == Select(l, p)
    ensures r.1 == Select(l, Not(p))
    ensures |r.0| + |r.1| == |l|
  {
    PartitionSelects(l, p);
    Fold(l, ([], []), PartitionStep(p))
  }

  lemma {:induction false} PartitionFolds<T>(l: seq<T>, p: T -> bool, yes: seq<T>, no: seq<T>)
    ensures FoldLeft(l, (yes, no), PartitionStep(p)) == (yes + Select(l, p), no + Select(l, Not(p)))
    ensures |Select(l, p)| + |Select(l, Not(p))| == |l|
    decreases |l|
  {
    if l == [] {
      assert yes + [] == yes && no + [] == no;
    } else {
      var a := l[0];
      if p(a) {
        PartitionFolds(l[1..], p, yes + [a], no);
        assert yes + [a] + Select(l[1..], p) == yes + Select(l, p);
      } else {
        PartitionFolds(l[1..], p, yes, no + [a]);
        assert no + [a] + Select(l[1..], Not(p)) == no + Select(l, Not(p));
      }
    }
  }

  lemma PartitionSelects<T>(l: seq<T>, p: T -> bool)
    ensures Fold(l, ([], []), PartitionStep(p)) == (Select(l, p), Select(l, Not(p)))
    ensures |Select(l, p)| + |Select(l, Not(p))| == |l|
  {
    FoldIsLeftFold(l, ([], []), PartitionStep(p));
    PartitionFolds(l, p, [], []);
    assert [] + Select(l, p) == Select(l, p) && [] + Select(l, Not(p)) == Select(l, Not(p));
  }

  /** A sorted list, and how often the predicate was called for it. */
  datatype Counted<T> = Counted(list: seq<T>, calls: nat)

  /** `sort_`: each element after the pivot is put to the predicate once. */
  function SortCounted<T>(l: seq<T>, lt: (T, T) -> bool): Counted<T>
    decreases |l|
  {
    if |l| <= 1 then Counted(l, 0)
    else
      var a := l[0];
      var parts := Partition(l[1..], Below(lt, a));
      var low, high := SortCounted(parts.0, lt), SortCounted(parts.1, lt);
      Counted(Concat([low.list, [a], high.list]), |l[1..]| + low.calls + high.calls)
  }

  function Sort<T>(l: seq<T>, lt: (T, T) -> bool): seq<T> {
    SortCounted(l, lt).list
  }

  lemma {:induction false} SelectOfClass<T>(s: seq<T>, lt: (T, T) -> bool, a: T, x: T)
    requires forall y, z :: Equivalent(lt, y, z) ==> (lt(y, a) <==> lt(z, a))
    ensures Class(Select(s, Below(lt, a)), lt, x) == if lt(x, a) then Class(s, lt, x) else []
    ensures Class(Select(s, Not(Below(lt, a))), lt, x) == if lt(x, a) then [] else Class(s, lt, x)
    decreases |s|
  {
    if s != [] {
      SelectOfClass(s[1..], lt, a, x);
      var y := s[0];
      var below, above := Select(s[1..], Below(lt, a)), Select(s[1..], Not(Below(lt, a)));
      assert ([y] + below)[1..] == below;
      assert ([y] + above)[1..] == above;
    }
  }

  lemma TiesCompareAlike<T(!new)>(lt: (T, T) -> bool, a: T)
    requires StrictWeakOrder(lt)
    ensures forall y, z :: Equivalent(lt, y, z) ==> (lt(y, a) <==> lt(z, a))
  {
  }

  /** Splitting at the pivot and putting the parts around it keeps every class in order. */
  lemma SplitIsStable<T(!new)>(rest: seq<T>, a: T, lt: (T, T) -> bool)
    requires StrictWeakOrder(lt)
    ensures StablyRearranged([a] + rest, Select(rest, Below(lt, a)) + [a] + Select(rest, Not(Below(lt, a))), lt)
  {
    var below, above := Select(rest, Below(lt, a)), Select(rest, Not(Below(lt, a)));
    TiesCompareAlike(lt, a);
    forall x
      ensures Class([a] + rest, lt, x) == Class(below + [a] + above, lt, x)
    {
      SelectOfClass(rest, lt, a, x);
      ClassAppend([a], rest, lt, x);
      ClassAppend(below + [a], above, lt, x);
      ClassAppend(below, [a], lt, x);
      assert [a][1..] == [];
      assert lt(x, a) ==> Class([a], lt, x) == [];
    }
  }

  lemma RearrangeParts<T(!new)>(a: seq<T>, b: seq<T>, a': seq<T>, b': seq<T>, m: seq<T>, lt: (T, T) -> bool)
    requires StablyRearranged(a, a', lt) && StablyRearranged(b, b', lt)
    ensures StablyRearranged(a + m + b, a' + m + b', lt)
  {
    forall x
      ensures Class(a + m + b, lt, x) == Class(a' + m + b', lt, x)
    {
      ClassAppend(a + m, b, lt, x);
      ClassAppend(a, m, lt, x);
      ClassAppend(a' + m, b', lt, x);
      ClassAppend(a', m, lt, x);
      assert Class(a, lt, x) == Class(a', lt, x) && Class(b, lt, x) == Class(b', lt, x);
    }
  }

  lemma SortedAround<T(!new)>(low: seq<T>, a: T, high: seq<T>, lt: (T, T) -> bool)
    requires StrictWeakOrder(lt) && Sorted(low, lt) && Sorted(high, lt)
    requires forall x :: x in low ==> lt(x, a)
    requires forall x :: x in high ==> !lt(x, a)
    ensures Sorted(low + [a] + high, lt)
  {
    var s := low + [a] + high;
    forall i, j | 0 <= i < j < |s|
      ensures !lt(s[j], s[i])
    {
      assert i < |low| ==> s[i] in low;
      assert j < |low| ==> s[j] in low;
      assert i > |low| ==> s[i] == high[i - |low| - 1] && s[i] in high;
      assert j > |low| ==> s[j] == high[j - |low| - 1] && s[j] in high;
    }
  }

  /** `meta::sort` returns the stable sorting of its input, for every strict weak order. */
  lemma {:induction false} SortIsStableSort<T(!new)>(l: seq<T>, lt: (T, T) -> bool)
    requires StrictWeakOrder(lt)
    ensures IsStableSort(l, Sort(l, lt), lt)
    decreases |l|
  {
    if |l| > 1 {
      var a, rest := l[0], l[1..];
      var below, above := Select(rest, Below(lt, a)), Select(rest, Not(Below(lt, a)));
      PartitionSelects(rest, Below(lt, a));
      SortIsStableSort(below, lt);
      SortIsStableSort(above, lt);
      var low, high := Sort(below, lt), Sort(above, lt);
      ConcatIsFlatten([low, [a], high]);
      FlattenThree(low, [a], high);
      assert Sort(l, lt) == low + [a] + high;
      forall x | x in low
        ensures lt(x, a)
      {
        RearrangedMembers(below, low, lt, x);
        SelectMember(rest, Below(lt, a), x);
      }
      forall x | x in high
        ensures !lt(x, a)
      {
        RearrangedMembers(above, high, lt, x);
        SelectMember(rest, Not(Below(lt, a)), x);
      }
      SortedAround(low, a, high, lt);
      SplitIsStable(rest, a, lt);
      RearrangeParts(below, above, low, high, [a], lt);
      assert l == [a] + rest;
    }
  }

  // ----- how often the predicate is called

  function SortCalls<T>(l: seq<T>, lt: (T, T) -> bool): nat {
    SortCounted(l, lt).calls
  }

  /** The calls exactly: one for each element after the pivot, and those for the ones that are below
      the pivot and for the ones that are not. */
  lemma CallsExactly<T>(l: seq<T>, lt: (T, T) -> bool)
    ensures SortCalls(l, lt) == if |l| <= 1 then 0 else
      |l| - 1 + SortCalls(Select(l[1..], x => lt(x, l[0])), lt) + SortCalls(Select(l[1..], x => !lt(x, l[0])), lt)
  {
    if |l| > 1 {
      SelectSame(l[1..], Below(lt, l[0]), x => lt(x, l[0]));
      SelectSame(l[1..], Not(Below(lt, l[0])), x => !lt(x, l[0]));
    }
  }

  lemma {:induction false} SelectSame<T>(s: seq<T>, p: T -> bool, q: T -> bool)
    requires forall x :: x in s ==> p(x) == q(x)
    ensures Select(s, p) == Select(s, q)
    decreases |s|
  {
    if s != [] {
      assert s[0] in s;
      assert forall x :: x in s[1..] ==> x in s;
      SelectSame(s[1..], p, q);
    }
  }

  /** 0 + 1 + ... + (n - 1): the number of pairs of n elements. */
  function Pairs(n: nat): nat {
    if n == 0 then 0 else Pairs(n - 1) + n - 1
  }

  lemma {:induction false} PairsIsHalfProduct(n: nat)
    ensures 2 * Pairs(n) == n * (n - 1)
  {
    if n > 0 {
      PairsIsHalfProduct(n - 1);
      assert n * (n - 1) == (n - 1) * (n - 2) + 2 * (n - 1);
    }
  }

  lemma {:induction false} PairsOfParts(a: nat, b: nat)
    ensures a + b + Pairs(a) + Pairs(b) <= Pairs(a + b + 1)
    decreases a
  {
    if a > 0 {
      PairsOfParts(a - 1, b);
    }
  }

  /** No list takes more calls than it has pairs, whatever the predicate ... */
  lemma {:induction false} SortIsQuadratic<T>(l: seq<T>, lt: (T, T) -> bool)
    ensures SortCalls(l, lt) <= Pairs(|l|)
    ensures 2 * Pairs(|l|) == |l| * (|l| - 1)
    decreases |l|
  {
    PairsIsHalfProduct(|l|);
    if |l| > 1 {
      var parts := Partition(l[1..], Below(lt, l[0]));
      SortIsQuadratic(parts.0, lt);
      SortIsQuadratic(parts.1, lt);
      PairsOfParts(|parts.0|, |parts.1|);
    }
  }

  lemma {:induction false} NothingBelow<T>(l: seq<T>, p: T -> bool)
    requires forall x :: x in l ==> !p(x)
    ensures Select(l, p) == [] && Select(l, Not(p)) == l
    decreases |l|
  {
    if l != [] {
      NothingBelow(l[1..], p);
      assert l[0] in l && l == [l[0]] + l[1..];
    }
  }

  lemma SortedSplitsOff<T>(l: seq<T>, lt: (T, T) -> bool)
    requires |l| > 1 && Sorted(l, lt)
    ensures Sorted(l[1..], lt) && Partition(l[1..], Below(lt, l[0])) == ([], l[1..])
  {
    var rest := l[1..];
    forall x | x in rest
      ensures !Below(lt, l[0])(x)
    {
      var i :| 0 <= i < |rest| && rest[i] == x;
      assert l[i + 1] == x;
    }
    NothingBelow(rest, Below(lt, l[0]));
  }

  /** ... and a list that is sorted already takes them all. */
  lemma {:induction false} SortedTakesAllCalls<T>(l: seq<T>, lt: (T, T) -> bool)
    requires Sorted(l, lt)
    ensures SortCalls(l, lt) == Pairs(|l|)
    decreases |l|
  {
    if |l| > 1 {
      SortedSplitsOff(l, lt);
      SortedTakesAllCalls(l[1..], lt);
      OneSplit(l, lt);
    }
  }

  lemma OneSplit<T>(l: seq<T>, lt: (T, T) -> bool)
    requires |l| > 1 && Partition(l[1..], Below(lt, l[0])) == ([], l[1..])
    ensures SortCalls(l, lt) == |l| - 1 + SortCalls(l[1..], lt)
  {
    var none: seq<T> := [];
    assert SortCounted(none, lt).calls == 0;
  }
}
