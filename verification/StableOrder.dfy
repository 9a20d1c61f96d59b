/** Strict weak orders, and the one sequence that is a stable sorting of another. */
module StableOrder {

  ghost predicate StrictWeakOrder<T(!new)>(lt: (T, T) -> bool) {
    && (forall x :: !lt(x, x))
    && (forall x, y, z :: lt(x, y) && lt(y, z) ==> lt(x, z))
    && (forall x, y, z :: !lt(x, y) && !lt(y, z) ==> !lt(x, z))
  }

  predicate Sorted<T>(s: seq<T>, lt: (T, T) -> bool) {
    forall i, j :: 0 <= i < j < |s| ==> !lt(s[j], s[i])
  }

  /** The elements that satisfy `p`, in order. */
  function Select<T>(s: seq<T>, p: T -> bool): seq<T> {
    if s == [] then [] else if p(s[0]) then [s[0]] + Select(s[1..], p) else Select(s[1..], p)
  }

  predicate Equivalent<T>(lt: (T, T) -> bool, x: T, y: T) {
    !lt(x, y) && !lt(y, x)
  }

  /** The elements that tie with `x`, in order. */
  function Class<T>(s: seq<T>, lt: (T, T) -> bool, x: T): seq<T> {
    Select(s, y => Equivalent(lt, x, y))
  }

  /** Rearranging `s` into `t` has not changed the order of elements that tie. */
  ghost predicate StablyRearranged<T(!new)>(s: seq<T>, t: seq<T>, lt: (T, T) -> bool) {
    forall x :: Class(s, lt, x) == Class(t, lt, x)
  }

  ghost predicate IsStableSort<T(!new)>(s: seq<T>, t: seq<T>, lt: (T, T) -> bool) {
    Sorted(t, lt) && StablyRearranged(s, t, lt)
  }

  lemma {:induction false} SelectAppend<T>(a: seq<T>, b: seq<T>, p: T -> bool)
    ensures Select(a + b, p) == Select(a, p) + Select(b, p)
    decreases |a|
  {
    if a == [] {
      assert a + b == b;
    } else {
      assert (a + b)[1..] == a[1..] + b;
      SelectAppend(a[1..], b, p);
    }
  }

  lemma {:induction false} SelectMember<T>(s: seq<T>, p: T -> bool, x: T)
    ensures x in Select(s, p) <==> x in s && p(x)
    decreases |s|
  {
    if s != [] {
      SelectMember(s[1..], p, x);
      assert s == [s[0]] + s[1..];
    }
  }

  lemma ClassAppend<T>(a: seq<T>, b: seq<T>, lt: (T, T) -> bool, x: T)
    ensures Class(a + b, lt, x) == Class(a, lt, x) + Class(b, lt, x)
  {
    SelectAppend(a, b, y => Equivalent(lt, x, y));
  }

  lemma ClassOne<T>(lt: (T, T) -> bool, x: T, v: T)
    ensures Class([v], lt, x) == if Equivalent(lt, x, v) then [v] else []
  {
    SelectOne(v, y => Equivalent(lt, x, y));
  }

  lemma SelectOne<T>(v: T, p: T -> bool)
    ensures Select([v], p) == if p(v) then [v] else []
  {
    assert [v][1..] == [];
    assert Select([v][1..], p) == [];
  }

  lemma ClassMember<T>(s: seq<T>, lt: (T, T) -> bool, x: T, y: T)
    ensures y in Class(s, lt, x) <==> y in s && Equivalent(lt, x, y)
  {
    SelectMember(s, z => Equivalent(lt, x, z), y);
  }

  lemma RearrangedMembers<T(!new)>(s: seq<T>, t: seq<T>, lt: (T, T) -> bool, x: T)
    requires StrictWeakOrder(lt) && StablyRearranged(s, t, lt)
    ensures x in s <==> x in t
  {
    ClassMember(s, lt, x, x);
    ClassMember(t, lt, x, x);
    assert Class(s, lt, x) == Class(t, lt, x);
  }

  /** The first element of a sorted sequence heads the class of everything it ties with. */
  lemma HeadOfClass<T>(s: seq<T>, lt: (T, T) -> bool, x: T)
    requires s != [] && Equivalent(lt, x, s[0])
    ensures Class(s, lt, x) != [] && Class(s, lt, x)[0] == s[0]
    ensures Class(s[1..], lt, x) == Class(s, lt, x)[1..]
  {
  }

  lemma OutsideClass<T>(s: seq<T>, lt: (T, T) -> bool, x: T)
    requires s != [] && !Equivalent(lt, x, s[0])
    ensures Class(s[1..], lt, x) == Class(s, lt, x)
  {
  }

  lemma SortedHeads<T(!new)>(s: seq<T>, t: seq<T>, lt: (T, T) -> bool)
    requires StrictWeakOrder(lt) && Sorted(s, lt) && Sorted(t, lt) && StablyRearranged(s, t, lt)
    requires s != []
    ensures t != [] && t[0] == s[0]
  {
    RearrangedMembers(s, t, lt, s[0]);
    RearrangedMembers(s, t, lt, t[0]);
    var i :| 0 <= i < |t| && t[i] == s[0];
    var j :| 0 <= j < |s| && s[j] == t[0];
    assert Equivalent(lt, s[0], t[0]);
    assert Equivalent(lt, s[0], s[0]);
    HeadOfClass(s, lt, s[0]);
    HeadOfClass(t, lt, s[0]);
    assert Class(s, lt, s[0]) == Class(t, lt, s[0]);
  }

  /** Two sorted, stable rearrangements of the same elements are the same sequence. */
  lemma {:induction false} StableSortIsUnique<T(!new)>(s: seq<T>, t: seq<T>, lt: (T, T) -> bool)
    requires StrictWeakOrder(lt) && Sorted(s, lt) && Sorted(t, lt) && StablyRearranged(s, t, lt)
    ensures s == t
    decreases |s|
  {
    if s == [] {
      if t != [] {
        RearrangedMembers(s, t, lt, t[0]);
      }
    } else {
      SortedHeads(s, t, lt);
      forall x
        ensures Class(s[1..], lt, x) == Class(t[1..], lt, x)
      {
        assert Class(s, lt, x) == Class(t, lt, x);
        if Equivalent(lt, x, s[0]) {
          HeadOfClass(s, lt, x);
          HeadOfClass(t, lt, x);
        } else {
          OutsideClass(s, lt, x);
          OutsideClass(t, lt, x);
        }
      }
      StableSortIsUnique(s[1..], t[1..], lt);
      assert s == [s[0]] + s[1..] && t == [t[0]] + t[1..];
    }
  }

  lemma {:induction false} SelectCount<T>(s: seq<T>, p: T -> bool, x: T)
    requires p(x)
    ensures multiset(Select(s, p))[x] == multiset(s)[x]
    decreases |s|
  {
    if s != [] {
      SelectCount(s[1..], p, x);
      assert s == [s[0]] + s[1..];
    }
  }

  /** In particular a stable rearrangement is a permutation. */
  lemma StableIsPermutation<T(!new)>(s: seq<T>, t: seq<T>, lt: (T, T) -> bool)
    requires StrictWeakOrder(lt) && StablyRearranged(s, t, lt)
    ensures multiset(s) == multiset(t)
  {
    forall x
      ensures multiset(s)[x] == multiset(t)[x]
    {
      assert Equivalent(lt, x, x);
      SelectCount(s, y => Equivalent(lt, x, y), x);
      SelectCount(t, y => Equivalent(lt, x, y), x);
      assert Class(s, lt, x) == Class(t, lt, x);
    }
  }
}
