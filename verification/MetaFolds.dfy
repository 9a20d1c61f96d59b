/** The list algorithms of meta.hpp that are unrolled ten elements at a time, against their
    one-at-a-time definitions.  Type packs are sequences. */
module MetaFolds {

  // ----- one at a time

  function FoldLeft<S, T>(l: seq<T>, state: S, fn: (S, T) -> S): S {
    if l == [] then state else FoldLeft(l[1..], fn(state, l[0]), fn)
  }

  function FoldRight<S, T>(l: seq<T>, state: S, fn: (S, T) -> S): S {
    if l == [] then state else fn(FoldRight(l[1..], state, fn), l[0])
  }

  function Flatten<T>(ls: seq<seq<T>>): seq<T> {
    if ls == [] then [] else ls[0] + Flatten(ls[1..])
  }

  // ----- ten at a time

  /** `compose10_`. */
  function Compose10<S, T>(fn: (S, T) -> S, t: seq<T>, s: S): S
    requires |t| == 10
  {
    fn(fn(fn(fn(fn(fn(fn(fn(fn(fn(s, t[0]), t[1]), t[2]), t[3]), t[4]), t[5]), t[6]), t[7]), t[8]), t[9])
  }

  /** `fold_`: the ten-element specialization is preferred wherever it matches. */
  function Fold<S, T>(l: seq<T>, state: S, fn: (S, T) -> S): S
    decreases |l|
  {
    if l == [] then state
    else if |l| >= 10 then Fold(l[10..], Compose10(fn, l[..10], state), fn)
    else Fold(l[1..], fn(state, l[0]), fn)
  }

  function Backwards<T>(t: seq<T>): (r: seq<T>)
    requires |t| == 10
    ensures |r| == 10
  {
    [t[9], t[8], t[7], t[6], t[5], t[4], t[3], t[2], t[1], t[0]]
  }

  /** `reverse_fold_`. */
  function ReverseFold<S, T>(l: seq<T>, state: S, fn: (S, T) -> S): S
    decreases |l|
  {
    if l == [] then state
    else if |l| >= 10 then Compose10(fn, Backwards(l[..10]), ReverseFold(l[10..], state, fn))
    else fn(ReverseFold(l[1..], state, fn), l[0])
  }

  function Join5<T>(ls: seq<seq<T>>): seq<T>
    requires |ls| == 5
  {
    ls[0] + ls[1] + ls[2] + ls[3] + ls[4]
  }

  /** `concat_`: ten lists are joined at once, four to nine three at a time, up to three directly. */
  function Concat<T>(ls: seq<seq<T>>): seq<T>
    decreases |ls|
  {
    if |ls| == 0 then []
    else if |ls| == 1 then ls[0]
    else if |ls| == 2 then ls[0] + ls[1]
    else if |ls| == 3 then ls[0] + ls[1] + ls[2]
    else if |ls| < 10 then Concat([ls[0] + ls[1] + ls[2]] + ls[3..])
    else Concat([Join5(ls[..5]) + Join5(ls[5..10])] + ls[10..])
  }

  /** `reverse_`, with its accumulated state. */
  function ReverseOnto<T>(l: seq<T>, state: seq<T>): seq<T>
    decreases |l|
  {
    if |l| >= 10 then ReverseOnto(l[10..], Backwards(l[..10]) + state)
    else Fold(l, state, (s: seq<T>, t: T) => [t] + s)
  }

  function Reverse<T>(l: seq<T>): seq<T> {
    ReverseOnto(l, [])
  }

  // ----- they agree

  lemma {:induction false} FoldLeftAppend<S, T>(a: seq<T>, b: seq<T>, state: S, fn: (S, T) -> S)
    ensures FoldLeft(a + b, state, fn) == FoldLeft(b, FoldLeft(a, state, fn), fn)
    decreases |a|
  {
    if a == [] {
      assert a + b == b;
    } else {
      assert (a + b)[1..] == a[1..] + b;
      FoldLeftAppend(a[1..], b, fn(state, a[0]), fn);
    }
  }

  lemma {:induction false} FoldRightAppend<S, T>(a: seq<T>, b: seq<T>, state: S, fn: (S, T) -> S)
    ensures FoldRight(a + b, state, fn) == FoldRight(a, FoldRight(b, state, fn), fn)
    decreases |a|
  {
    if a == [] {
      assert a + b == b;
    } else {
      assert (a + b)[1..] == a[1..] + b;
      FoldRightAppend(a[1..], b, state, fn);
    }
  }

  lemma Peel<S, T>(fn: (S, T) -> S, t: seq<T>, k: nat, s: S)
    requires k < |t|
    ensures FoldLeft(t[k..], s, fn) == FoldLeft(t[k + 1..], fn(s, t[k]), fn)
  {
    assert t[k..][1..] == t[k + 1..];
  }

  lemma TenLeft<S, T>(fn: (S, T) -> S, t: seq<T>, s: S)
    requires |t| == 10
    ensures Compose10(fn, t, s) == FoldLeft(t, s, fn)
  {
    assert t[0..] == t;
    var s0 := s;
    Peel(fn, t, 0, s0);
    var s1 := fn(s0, t[0]);
    Peel(fn, t, 1, s1);
    var s2 := fn(s1, t[1]);
    Peel(fn, t, 2, s2);
    var s3 := fn(s2, t[2]);
    Peel(fn, t, 3, s3);
    var s4 := fn(s3, t[3]);
    Peel(fn, t, 4, s4);
    var s5 := fn(s4, t[4]);
    Peel(fn, t, 5, s5);
    var s6 := fn(s5, t[5]);
    Peel(fn, t, 6, s6);
    var s7 := fn(s6, t[6]);
    Peel(fn, t, 7, s7);
    var s8 := fn(s7, t[7]);
    Peel(fn, t, 8, s8);
    var s9 := fn(s8, t[8]);
    Peel(fn, t, 9, s9);
    var s10 := fn(s9, t[9]);
  }

  /** A right fold is a left fold over the reversed elements. */
  lemma {:induction false} FoldRightIsFoldLeftReversed<S, T>(l: seq<T>, state: S, fn: (S, T) -> S)
    ensures FoldRight(l, state, fn) == FoldLeft(Mirror(l), state, fn)
    decreases |l|
  {
    if l != [] {
      FoldRightIsFoldLeftReversed(l[1..], state, fn);
      FoldLeftAppend(Mirror(l[1..]), [l[0]], state, fn);
      assert Mirror(l) == Mirror(l[1..]) + [l[0]];
    }
  }

  /** The list with its elements in the opposite order. */
  function Mirror<T>(l: seq<T>): (r: seq<T>)
    ensures |r| == |l| && forall i :: 0 <= i < |l| ==> r[i] == l[|l| - 1 - i]
  {
    seq(|l|, i requires 0 <= i < |l| => l[|l| - 1 - i])
  }

  lemma {:induction false} FoldIsLeftFold<S, T>(l: seq<T>, state: S, fn: (S, T) -> S)
    ensures Fold(l, state, fn) == FoldLeft(l, state, fn)
    decreases |l|
  {
    if |l| >= 10 {
      assert l == l[..10] + l[10..];
      FoldLeftAppend(l[..10], l[10..], state, fn);
      TenLeft(fn, l[..10], state);
      FoldIsLeftFold(l[10..], Compose10(fn, l[..10], state), fn);
    } else if l != [] {
      FoldIsLeftFold(l[1..], fn(state, l[0]), fn);
    }
  }

  lemma {:induction false} ReverseFoldIsRightFold<S, T>(l: seq<T>, state: S, fn: (S, T) -> S)
    ensures ReverseFold(l, state, fn) == FoldRight(l, state, fn)
    decreases |l|
  {
    if |l| >= 10 {
      assert l == l[..10] + l[10..];
      ReverseFoldIsRightFold(l[10..], state, fn);
      FoldRightAppend(l[..10], l[10..], state, fn);
      var s := FoldRight(l[10..], state, fn);
      FoldRightIsFoldLeftReversed(l[..10], s, fn);
      assert Mirror(l[..10]) == Backwards(l[..10]);
      TenLeft(fn, Backwards(l[..10]), s);
    } else if l != [] {
      ReverseFoldIsRightFold(l[1..], state, fn);
    }
  }

  /** A right fold whose function takes the element first, as it is documented. */
  function ElementFirst<T>(l: seq<T>, state: T, fn: (T, T) -> T): T {
    if l == [] then state else fn(l[0], ElementFirst(l[1..], state, fn))
  }

  ghost predicate Commutes<T(!new)>(fn: (T, T) -> T) {
    forall x, y :: fn(x, y) == fn(y, x)
  }

  /** What the code computes with `fn` is what is documented, on every list and from every state. */
  ghost predicate FoldsAsDocumented<T(!new)>(fn: (T, T) -> T) {
    forall l: seq<T>, state: T :: ReverseFold(l, state, fn) == ElementFirst(l, state, fn)
  }

  lemma {:induction false} CommutingFoldsAgree<T(!new)>(l: seq<T>, state: T, fn: (T, T) -> T)
    requires Commutes(fn)
    ensures FoldRight(l, state, fn) == ElementFirst(l, state, fn)
  {
    if l != [] {
      CommutingFoldsAgree(l[1..], state, fn);
    }
  }

  lemma FoldsOfOne<T>(x: T, y: T, fn: (T, T) -> T)
    ensures ReverseFold([y], x, fn) == fn(x, y) && ElementFirst([y], x, fn) == fn(y, x)
  {
    assert [y][1..] == [];
  }

  /** The code passes the state first.  That is the documented right fold, which passes the element
      first, exactly for functions that commute. */
  lemma DocumentedOnlyIfCommuting<T(!new)>(fn: (T, T) -> T)
    ensures FoldsAsDocumented(fn) <==> Commutes(fn)
  {
    if Commutes(fn) {
      forall l: seq<T>, state: T
        ensures ReverseFold(l, state, fn) == ElementFirst(l, state, fn)
      {
        ReverseFoldIsRightFold(l, state, fn);
        CommutingFoldsAgree(l, state, fn);
      }
    }
    if FoldsAsDocumented(fn) {
      forall x, y
        ensures fn(x, y) == fn(y, x)
      {
        FoldsOfOne(x, y, fn);
      }
    }
  }

  /** The two orders on one list: 1 - (2 - 0) is documented, (0 - 2) - 1 is computed. */
  lemma ReverseFoldIsNotAsDocumented()
    ensures ElementFirst([1, 2], 0, (x, y) => x - y) == -1
    ensures ReverseFold([1, 2], 0, (x, y) => x - y) == -3
  {
    var fn := (x: int, y: int) => x - y;
    assert [1, 2][1..] == [2] && [2][1..] == [];
    assert ReverseFold([2], 0, fn) == -2 && ElementFirst([2], 0, fn) == 2;
  }

  lemma {:induction false} FlattenAppend<T>(a: seq<seq<T>>, b: seq<seq<T>>)
    ensures Flatten(a + b) == Flatten(a) + Flatten(b)
    decreases |a|
  {
    if a == [] {
      assert a + b == b;
    } else {
      assert (a + b)[1..] == a[1..] + b;
      FlattenAppend(a[1..], b);
    }
  }

  lemma FlattenOne<T>(l: seq<T>)
    ensures Flatten([l]) == l
  {
    assert [l][1..] == [];
  }

  lemma FlattenCons<T>(l: seq<T>, rest: seq<seq<T>>)
    ensures Flatten([l] + rest) == l + Flatten(rest)
  {
    assert ([l] + rest)[1..] == rest;
  }

  lemma FlattenPrefix<T>(l: seq<seq<T>>, k: nat)
    requires k < |l|
    ensures Flatten(l[..k + 1]) == if k == 0 then l[0] else Flatten(l[..k]) + l[k]
  {
    assert l[..k + 1] == l[..k] + [l[k]];
    FlattenAppend(l[..k], [l[k]]);
    FlattenOne(l[k]);
    assert l[..0] == [];
  }

  lemma FlattenThree<T>(a: seq<T>, b: seq<T>, c: seq<T>)
    ensures Flatten([a, b, c]) == a + b + c
  {
    var l := [a, b, c];
    FlattenPrefix(l, 0);
    FlattenPrefix(l, 1);
    FlattenPrefix(l, 2);
    assert l[..3] == l;
  }

  lemma FlattenFive<T>(l: seq<seq<T>>)
    requires |l| == 5
    ensures Flatten(l) == Join5(l)
  {
    FlattenPrefix(l, 0);
    FlattenPrefix(l, 1);
    FlattenPrefix(l, 2);
    FlattenPrefix(l, 3);
    FlattenPrefix(l, 4);
    assert l[..5] == l;
  }

  lemma {:induction false} ConcatIsFlatten<T>(ls: seq<seq<T>>)
    ensures Concat(ls) == Flatten(ls)
    decreases |ls|
  {
    if |ls| >= 10 {
      var head := Join5(ls[..5]) + Join5(ls[5..10]);
      ConcatIsFlatten([head] + ls[10..]);
      FlattenFive(ls[..5]);
      FlattenFive(ls[5..10]);
      FlattenAppend(ls[..5], ls[5..10]);
      assert ls[..10] == ls[..5] + ls[5..10];
      FlattenOne(head);
      FlattenAppend([head], ls[10..]);
      FlattenAppend(ls[..10], ls[10..]);
      assert ls == ls[..10] + ls[10..];
    } else if |ls| >= 4 {
      var head := ls[0] + ls[1] + ls[2];
      ConcatIsFlatten([head] + ls[3..]);
      FlattenThree(ls[0], ls[1], ls[2]);
      FlattenOne(head);
      FlattenAppend([head], ls[3..]);
      assert ls[..3] == [ls[0], ls[1], ls[2]];
      FlattenAppend(ls[..3], ls[3..]);
      assert ls == ls[..3] + ls[3..];
    } else if |ls| == 3 {
      FlattenThree(ls[0], ls[1], ls[2]);
      assert ls == [ls[0], ls[1], ls[2]];
    } else if |ls| == 2 {
      FlattenOne(ls[1]);
      assert ls[1..] == [ls[1]];
    } else if |ls| == 1 {
      FlattenOne(ls[0]);
      assert ls == [ls[0]];
    }
  }

  lemma {:induction false} PushFrontReverses<T>(l: seq<T>, state: seq<T>)
    ensures FoldLeft(l, state, (s: seq<T>, t: T) => [t] + s) == Mirror(l) + state
    decreases |l|
  {
    if l != [] {
      PushFrontReverses(l[1..], [l[0]] + state);
      assert Mirror(l[1..]) + ([l[0]] + state) == Mirror(l) + state;
    }
  }

  lemma {:induction false} ReverseOntoMirrors<T>(l: seq<T>, state: seq<T>)
    ensures ReverseOnto(l, state) == Mirror(l) + state
    decreases |l|
  {
    if |l| >= 10 {
      ReverseOntoMirrors(l[10..], Backwards(l[..10]) + state);
      assert Mirror(l[10..]) + (Backwards(l[..10]) + state) == Mirror(l) + state;
    } else {
      FoldIsLeftFold(l, state, (s: seq<T>, t: T) => [t] + s);
      PushFrontReverses(l, state);
    }
  }

  /** `reverse` puts element i at position |l| - 1 - i, so it undoes itself. */
  lemma ReverseMirrorsAndInverts<T>(l: seq<T>)
    ensures |Reverse(l)| == |l|
    ensures forall i :: 0 <= i < |l| ==> Reverse(l)[i] == l[|l| - 1 - i]
    ensures Reverse(Reverse(l)) == l
  {
    ReverseOntoMirrors(l, []);
    ReverseOntoMirrors(Reverse(l), []);
    assert Mirror(l) + [] == Mirror(l);
    assert Mirror(Mirror(l)) == l;
  }
}
