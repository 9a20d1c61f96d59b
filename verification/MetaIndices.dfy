/** `make_index_sequence` and `integer_range`: index packs built by doubling what is there and, when
    twice as many would be too many, by appending a shifted pack for the rest. */
module MetaIndices {
  import opened Options
  import opened Logarithm

  datatype Strategy = Done | Repeat | Recurse

  function StrategyFor(cur: nat, end: nat): Strategy {
    if cur >= end then Done else if cur * 2 <= end then Repeat else Recurse
  }

  /** Each value shifted by `offset`. */
  function Shift(values: seq<int>, offset: int): (r: seq<int>)
    ensures |r| == |values| && forall i :: 0 <= i < |r| ==> r[i] == values[i] + offset
  {
    seq(|values|, i requires 0 <= i < |values| => values[i] + offset)
  }

  /** A pack and the number of repeat and recurse specializations used to make it. */
  datatype Built = Built(values: seq<int>, steps: nat)

  /** `make_indices_<end, values, strategy_(|values|, end)>`. */
  function MakeIndices(end: nat, values: seq<int>): Built
    requires values != []
    decreases end, 0, end - |values|
  {
    match StrategyFor(|values|, end)
    case Done => Built(if end == 0 && values == [0] then [] else values, 0)
    case Repeat =>
      var b := MakeIndices(end, values + Shift(values, |values|));
      Built(b.values, b.steps + 1)
    case Recurse =>
      var b := MakeIndexSequence(end - |values|);
      Built(values + Shift(b.values, |values|), b.steps + 1)
  }

  function MakeIndexSequence(n: nat): Built
    decreases n, 1
  {
    MakeIndices(n, [0])
  }

  /** [from, from + 1, ..., from + n - 1]. */
  function Iota(from: int, n: nat): (r: seq<int>)
    ensures |r| == n && forall i :: 0 <= i < n ==> r[i] == from + i
  {
    seq(n, i requires 0 <= i < n => from + i)
  }

  function Triangle(l: nat): nat {
    l * (l + 3) / 2
  }

  lemma TriangleGrows(l: nat)
    ensures Triangle(l + 1) == Triangle(l) + l + 2
  {
    assert (l + 1) * (l + 4) == l * (l + 3) + 2 * (l + 2);
  }

  lemma {:induction false} TriangleMono(k: nat, l: nat)
    requires k <= l
    ensures Triangle(k) <= Triangle(l)
    decreases l - k
  {
    if k < l {
      TriangleGrows(l - 1);
      TriangleMono(k, l - 1);
    }
  }

  /** From a pack of 2^k indices: l - k doublings, then one recursion on the rest if there is one. */
  lemma {:induction false} MakeIndicesDoubles(n: nat, k: nat, l: nat)
    requires Pow2(k) <= n && k <= l && l == Log2(n)
    requires forall m: nat :: m < n ==> MakeIndexSequence(m).values == Iota(0, m)
    ensures Pow2(l) <= n < 2 * Pow2(l)
    ensures MakeIndices(n, Iota(0, Pow2(k))).values == Iota(0, n)
    ensures MakeIndices(n, Iota(0, Pow2(k))).steps
      == l - k + (if n == Pow2(l) then 0 else 1 + MakeIndexSequence(n - Pow2(l)).steps)
    decreases l - k
  {
    var values := Iota(0, Pow2(k));
    Log2Brackets(n);
    assert Pow2(l + 1) == 2 * Pow2(l) && Pow2(k + 1) == 2 * Pow2(k);
    match StrategyFor(|values|, n)
    case Done =>
      Log2Unique(n, k);
      assert values == Iota(0, n);
    case Repeat =>
      assert values + Shift(values, |values|) == Iota(0, Pow2(k + 1));
      if k < l {
        MakeIndicesDoubles(n, k + 1, l);
      }
    case Recurse =>
      Log2Unique(n, k);
      assert values + Shift(Iota(0, n - Pow2(k)), |values|) == Iota(0, n);
  }

  /** For every n the result is exactly [0, ..., n - 1]. */
  lemma {:induction false} MakeIndexSequenceIsIota(n: nat)
    ensures MakeIndexSequence(n).values == Iota(0, n)
  {
    assert [0] == Iota(0, Pow2(0));
    if n > 0 {
      forall m: nat | m < n
        ensures MakeIndexSequence(m).values == Iota(0, m)
      {
        MakeIndexSequenceIsIota(m);
      }
      MakeIndicesDoubles(n, 0, Log2(n));
    }
  }

  /** One pass of the scheme: as many doublings as the logarithm says, and the rest again. */
  lemma StepsRecurrence(n: nat)
    requires n > 0
    ensures Pow2(Log2(n)) <= n < 2 * Pow2(Log2(n))
    ensures MakeIndexSequence(n).steps
      == Log2(n) + (if n == Pow2(Log2(n)) then 0 else 1 + MakeIndexSequence(n - Pow2(Log2(n))).steps)
  {
    assert [0] == Iota(0, Pow2(0));
    forall m: nat | m < n
      ensures MakeIndexSequence(m).values == Iota(0, m)
    {
      MakeIndexSequenceIsIota(m);
    }
    MakeIndicesDoubles(n, 0, Log2(n));
  }

  /** At most L(L+3)/2 repeat and recurse steps, where L is the binary logarithm of n. */
  lemma {:induction false} StepsAreBounded(n: nat)
    ensures MakeIndexSequence(n).steps <= if n == 0 then 0 else Triangle(Log2(n))
  {
    if n > 0 {
      var l := Log2(n);
      StepsRecurrence(n);
      if n == Pow2(l) {
        TriangleAtLeast(l);
      } else {
        var rest := n - Pow2(l);
        LogBelow(rest, l);
        StepsAreBounded(rest);
        TriangleMono(Log2(rest), l - 1);
        TriangleGrows(l - 1);
      }
    }
  }

  lemma TriangleAtLeast(l: nat)
    ensures l <= Triangle(l)
  {
    assert l * (l + 3) == l * l + 3 * l;
  }

  /** The bound is met: one less than a power of two takes all of L(L+3)/2 steps, so the number of
      steps is not O(log n) as documented but of order log squared. */
  lemma {:induction false} StepsBoundIsTight(l: nat)
    ensures Log2(Pow2(l + 1) - 1) == l
    ensures MakeIndexSequence(Pow2(l + 1) - 1).steps == Triangle(l)
  {
    var n := Pow2(l + 1) - 1;
    assert n == 2 * Pow2(l) - 1;
    Log2Unique(n, l);
    StepsRecurrence(n);
    if l > 0 {
      assert n - Pow2(l) == Pow2(l - 1 + 1) - 1;
      StepsBoundIsTight(l - 1);
      TriangleGrows(l - 1);
    }
  }

  /** The sum of the positions of the set bits of n, counted from `from`, plus one for each. */
  function SetBits(n: nat, from: nat): nat {
    if n == 0 then 0 else (if n % 2 == 1 then from + 1 else 0) + SetBits(n / 2, from + 1)
  }

  lemma {:induction false} TopBit(n: nat, from: nat)
    requires n > 0
    ensures Pow2(Log2(n)) <= n
    ensures SetBits(n, from) == SetBits(n - Pow2(Log2(n)), from) + Log2(n) + from + 1
    decreases n
  {
    Log2Brackets(n);
    if n > 1 {
      TopBit(n / 2, from + 1);
      var top := Pow2(Log2(n / 2));
      assert Pow2(Log2(n)) == 2 * top;
      assert (n - 2 * top) / 2 == n / 2 - top && (n - 2 * top) % 2 == n % 2;
    }
  }

  /** For every n the number of steps is the sum of the positions of its set bits plus their number,
      less one. */
  lemma {:induction false} StepsAreBitPositions(n: nat)
    requires n > 0
    ensures MakeIndexSequence(n).steps + 1 == SetBits(n, 0)
  {
    StepsRecurrence(n);
    TopBit(n, 0);
    if n > Pow2(Log2(n)) {
      StepsAreBitPositions(n - Pow2(Log2(n)));
    }
  }

  /** `integer_range<From, To>`; a range that runs backwards does not compile. */
  function IntegerRange(from: int, to: int): Option<seq<int>> {
    if from <= to then Some(Shift(MakeIndexSequence(to - from).values, from)) else None
  }

  /** The range [from, to), exactly when it is not reversed. */
  lemma IntegerRangeIsExact(from: int, to: int)
    ensures IntegerRange(from, to).Some? <==> from <= to
    ensures from <= to ==>
      |IntegerRange(from, to).value| == to - from &&
      forall i :: 0 <= i < to - from ==> IntegerRange(from, to).value[i] == from + i
  {
    if from <= to {
      MakeIndexSequenceIsIota(to - from);
    }
  }
}
