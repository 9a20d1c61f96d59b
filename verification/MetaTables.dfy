/** `meta::transpose` and `meta::cartesian_product` on lists of lists. */
module MetaTables {
  import opened Options
  import opened MetaFolds

  // ----- transpose

  predicate Rectangular<T>(rows: seq<seq<T>>, width: nat) {
    forall i :: 0 <= i < |rows| ==> |rows[i]| == width
  }

  /** `transform<cols, row, push_back>` compiles only if both lists have the same length. */
  function PushRow<T>(cols: Option<seq<seq<T>>>, row: seq<T>): Option<seq<seq<T>>> {
    if cols.Some? && |cols.value| == |row| then
      Some(seq(|row|, j requires 0 <= j < |row| => cols.value[j] + [row[j]]))
    else None
  }

  /** `transpose`: a fold that starts from as many empty columns as the first row is long. */
  function Transpose<T>(rows: seq<seq<T>>): Option<seq<seq<T>>> {
    if rows == [] then None
    else Fold(rows, Some(seq(|rows[0]|, _ => [])), (cols: Option<seq<seq<T>>>, row: seq<T>) => PushRow(cols, row))
  }

  /** `cols` holds what the columns of `rows` begin with. */
  ghost predicate IsTransposed<T>(rows: seq<seq<T>>, cols: seq<seq<T>>) {
    && (forall i :: 0 <= i < |rows| ==> |rows[i]| == |cols|)
    && (forall j :: 0 <= j < |cols| ==> |cols[j]| == |rows|)
    && (forall i, j :: 0 <= i < |rows| && 0 <= j < |cols| ==> cols[j][i] == rows[i][j])
  }

  lemma {:induction false} FoldNone<T>(rows: seq<seq<T>>)
    ensures FoldLeft(rows, None, (cols: Option<seq<seq<T>>>, row: seq<T>) => PushRow(cols, row)) == None
    decreases |rows|
  {
    if rows != [] {
      FoldNone(rows[1..]);
    }
  }

  lemma {:induction false} FoldTransposes<T>(before: seq<seq<T>>, rows: seq<seq<T>>, cols: seq<seq<T>>)
    requires IsTransposed(before, cols)
    ensures var r := FoldLeft(rows, Some(cols), (cols: Option<seq<seq<T>>>, row: seq<T>) => PushRow(cols, row));
      if Rectangular(rows, |cols|) then r.Some? && |r.value| == |cols| && IsTransposed(before + rows, r.value) else r.None?
    decreases |rows|
  {
    if rows == [] {
      assert before + rows == before;
    } else {
      var next := PushRow(Some(cols), rows[0]);
      if next.Some? {
        assert IsTransposed(before + [rows[0]], next.value);
        FoldTransposes(before + [rows[0]], rows[1..], next.value);
        assert before + [rows[0]] + rows[1..] == before + rows;
        assert Rectangular(rows[1..], |cols|) ==> Rectangular(rows, |cols|);
      } else {
        FoldNone(rows[1..]);
      }
    }
  }

  /** A list of lists can be transposed exactly when it is not empty and all its lists are equally
      long; the result then has out[j][i] == in[i][j]. */
  lemma TransposeSwapsIndices<T>(rows: seq<seq<T>>)
    ensures Transpose(rows).Some? <==> rows != [] && Rectangular(rows, |rows[0]|)
    ensures Transpose(rows).Some? ==> |Transpose(rows).value| == |rows[0]| && IsTransposed(rows, Transpose(rows).value)
  {
    if rows != [] {
      var cols: seq<seq<T>> := seq(|rows[0]|, _ => []);
      FoldIsLeftFold(rows, Some(cols), (cols: Option<seq<seq<T>>>, row: seq<T>) => PushRow(cols, row));
      FoldTransposes([], rows, cols);
      assert [] + rows == rows;
    }
  }

  /** Transposing twice gives the input back exactly when its rows are not empty: rows of length 0
      leave no columns, and an empty list of lists cannot be transposed. */
  lemma TransposeTwice<T>(rows: seq<seq<T>>)
    requires Transpose(rows).Some?
    ensures Transpose(Transpose(rows).value) == Some(rows) <==> |rows[0]| > 0
  {
    TransposeSwapsIndices(rows);
    var cols := Transpose(rows).value;
    if |rows[0]| > 0 {
      TransposeSwapsIndices(cols);
      var back := Transpose(cols).value;
      forall i | 0 <= i < |rows|
        ensures back[i] == rows[i]
      {
        assert forall j :: 0 <= j < |rows[i]| ==> back[i][j] == cols[j][i] == rows[i][j];
      }
      assert back == rows;
    }
  }

  // ----- cartesian_product

  /** `cartesian_product_fn<M2, M>`: each x of m before each tuple of m2. */
  function ProductStep<T>(m2: seq<seq<T>>, m: seq<T>): seq<seq<T>> {
    Concat(seq(|m|, i requires 0 <= i < |m| =>
      Concat(seq(|m2|, j requires 0 <= j < |m2| => [[m[i]] + m2[j]]))))
  }

  function CartesianProduct<T>(lists: seq<seq<T>>): seq<seq<T>> {
    ReverseFold(lists, [[]], (m2: seq<seq<T>>, m: seq<T>) => ProductStep(m2, m))
  }

  /** The product of the lengths. */
  function Size<T>(lists: seq<seq<T>>): nat {
    if lists == [] then 1 else |lists[0]| * Size(lists[1..])
  }

  /** One position per list. */
  predicate Digits<T>(lists: seq<seq<T>>, d: seq<nat>) {
    |d| == |lists| && forall i :: 0 <= i < |d| ==> d[i] < |lists[i]|
  }

  /** The tuple those positions pick. */
  function Pick<T>(lists: seq<seq<T>>, d: seq<nat>): (r: seq<T>)
    requires Digits(lists, d)
    ensures |r| == |lists|
  {
    seq(|d|, i requires 0 <= i < |d| => lists[i][d[i]])
  }

  /** The rank of those positions in lexicographic order: the first list is the most significant. */
  function Rank<T>(lists: seq<seq<T>>, d: seq<nat>): nat
    requires Digits(lists, d)
  {
    if lists == [] then 0 else d[0] * Size(lists[1..]) + Rank(lists[1..], d[1..])
  }

  lemma {:induction false} MulMono(a: nat, b: nat, n: nat)
    requires a <= b
    ensures a * n <= b * n
    decreases b - a
  {
    if a < b {
      MulMono(a, b - 1, n);
      assert b * n == (b - 1) * n + n;
    }
  }

  /** A digit in front outweighs whatever follows it. */
  lemma LeadingDigit(a: nat, b: nat, n: nat, r: nat)
    requires a < b && r < n
    ensures a * n + r < b * n
  {
    MulMono(a + 1, b, n);
    assert (a + 1) * n == a * n + n;
  }

  lemma {:induction false} FlattenBlockSize<T>(blocks: seq<seq<T>>, n: nat)
    requires forall i :: 0 <= i < |blocks| ==> |blocks[i]| == n
    ensures |Flatten(blocks)| == |blocks| * n
    decreases |blocks|
  {
    if blocks != [] {
      FlattenBlockSize(blocks[1..], n);
      assert |blocks| * n == n + (|blocks| - 1) * n;
    }
  }

  lemma {:induction false} FlattenBlock<T>(blocks: seq<seq<T>>, n: nat, q: nat, r: nat)
    requires forall i :: 0 <= i < |blocks| ==> |blocks[i]| == n
    requires q < |blocks| && r < n
    ensures q * n + r < |Flatten(blocks)| && Flatten(blocks)[q * n + r] == blocks[q][r]
    decreases |blocks|
  {
    FlattenBlockSize(blocks, n);
    LeadingDigit(q, |blocks|, n, r);
    if q > 0 {
      FlattenBlock(blocks[1..], n, q - 1, r);
      assert q * n + r == n + ((q - 1) * n + r);
    }
  }

  lemma {:induction false} FlattenOnes<T>(l: seq<T>, ones: seq<seq<T>>)
    requires |ones| == |l| && forall i :: 0 <= i < |l| ==> ones[i] == [l[i]]
    ensures Flatten(ones) == l
    decreases |l|
  {
    if l != [] {
      FlattenOnes(l[1..], ones[1..]);
      assert l == [l[0]] + l[1..];
    }
  }

  /** Each element of m heads a block with all tuples of m2. */
  lemma ProductStepBlock<T>(m2: seq<seq<T>>, m: seq<T>, q: nat, r: nat)
    ensures |ProductStep(m2, m)| == |m| * |m2|
    ensures q < |m| && r < |m2| ==>
      q * |m2| + r < |ProductStep(m2, m)| && ProductStep(m2, m)[q * |m2| + r] == [m[q]] + m2[r]
  {
    var blocks := seq(|m|, i requires 0 <= i < |m| =>
      Concat(seq(|m2|, j requires 0 <= j < |m2| => [[m[i]] + m2[j]])));
    forall i | 0 <= i < |m|
      ensures |blocks[i]| == |m2| && forall j :: 0 <= j < |m2| ==> blocks[i][j] == [m[i]] + m2[j]
    {
      var ones := seq(|m2|, j requires 0 <= j < |m2| => [[m[i]] + m2[j]]);
      var block := seq(|m2|, j requires 0 <= j < |m2| => [m[i]] + m2[j]);
      ConcatIsFlatten(ones);
      FlattenOnes(block, ones);
    }
    ConcatIsFlatten(blocks);
    FlattenBlockSize(blocks, |m2|);
    if q < |m| && r < |m2| {
      FlattenBlock(blocks, |m2|, q, r);
    }
  }

  lemma ProductUnfolds<T>(lists: seq<seq<T>>)
    ensures CartesianProduct(lists) ==
      if lists == [] then [[]] else ProductStep(CartesianProduct(lists[1..]), lists[0])
  {
    var fn := (m2: seq<seq<T>>, m: seq<T>) => ProductStep(m2, m);
    ReverseFoldIsRightFold(lists, [[]], fn);
    if lists != [] {
      ReverseFoldIsRightFold(lists[1..], [[]], fn);
    }
  }

  lemma {:induction false} RankInRange<T>(lists: seq<seq<T>>, d: seq<nat>)
    requires Digits(lists, d)
    ensures Rank(lists, d) < Size(lists)
    decreases |lists|
  {
    if lists != [] {
      RankInRange(lists[1..], d[1..]);
      LeadingDigit(d[0], |lists[0]|, Size(lists[1..]), Rank(lists[1..], d[1..]));
    }
  }

  /** The product has as many tuples as the lengths multiply to, and the tuple picked by positions d
      stands at the lexicographic rank of d, empty lists included. */
  lemma {:induction false} ProductListsTuplesInOrder<T>(lists: seq<seq<T>>, d: seq<nat>)
    ensures |CartesianProduct(lists)| == Size(lists)
    ensures Digits(lists, d) ==>
      Rank(lists, d) < Size(lists) && CartesianProduct(lists)[Rank(lists, d)] == Pick(lists, d)
    decreases |lists|
  {
    ProductUnfolds(lists);
    if lists == [] {
      if Digits(lists, d) {
        assert Pick(lists, d) == [];
      }
    } else {
      var d' := if d == [] then [] else d[1..];
      ProductListsTuplesInOrder(lists[1..], d');
      ProductStepBlock(CartesianProduct(lists[1..]), lists[0], 0, 0);
      if Digits(lists, d) {
        assert Digits(lists[1..], d');
        RankInRange(lists, d);
        ProductStepBlock(CartesianProduct(lists[1..]), lists[0], d[0], Rank(lists[1..], d'));
        assert Pick(lists, d) == [lists[0][d[0]]] + Pick(lists[1..], d');
      }
    }
  }

  /** Quotient and remainder. */
  function Split(k: nat, n: nat): (qr: (nat, nat))
    requires n > 0
    ensures k == qr.0 * n + qr.1 && qr.1 < n
  {
    if k < n then (0, k)
    else
      var (q, r) := Split(k - n, n);
      assert (q + 1) * n == q * n + n;
      (q + 1, r)
  }

  lemma SplitBounds(k: nat, m: nat, n: nat)
    requires k < m * n
    ensures n > 0 && Split(k, n).0 < m
  {
    assert n > 0;
    if m <= Split(k, n).0 {
      MulMono(m, Split(k, n).0, n);
    }
  }

  /** The positions that have rank k. */
  function Unrank<T>(lists: seq<seq<T>>, k: nat): (d: seq<nat>)
    requires k < Size(lists)
    ensures Digits(lists, d)
  {
    if lists == [] then []
    else
      var n := Size(lists[1..]);
      SplitBounds(k, |lists[0]|, n);
      var (q, r) := Split(k, n);
      [q] + Unrank(lists[1..], r)
  }

  /** Every place in the product is the rank of some choice of positions ... */
  lemma {:induction false} RankOfUnrank<T>(lists: seq<seq<T>>, k: nat)
    requires k < Size(lists)
    ensures Rank(lists, Unrank(lists, k)) == k
    decreases |lists|
  {
    if lists != [] {
      var n := Size(lists[1..]);
      SplitBounds(k, |lists[0]|, n);
      var (q, r) := Split(k, n);
      RankOfUnrank(lists[1..], r);
      assert Unrank(lists, k)[1..] == Unrank(lists[1..], r);
    }
  }

  lemma {:induction false} SplitOf(a: nat, n: nat, r: nat)
    requires r < n
    ensures a * n + r >= 0 && Split(a * n + r, n) == (a, r)
    decreases a
  {
    if a > 0 {
      SplitOf(a - 1, n, r);
      assert a * n + r - n == (a - 1) * n + r;
    }
  }

  lemma UnrankAt<T>(lists: seq<seq<T>>, k: nat, a: nat, r: nat)
    requires lists != [] && k < Size(lists) && r < Size(lists[1..]) && Split(k, Size(lists[1..])) == (a, r)
    ensures Unrank(lists, k) == [a] + Unrank(lists[1..], r)
  {
  }

  /** ... and of no other. */
  lemma {:induction false} UnrankOfRank<T>(lists: seq<seq<T>>, d: seq<nat>)
    requires Digits(lists, d)
    ensures Rank(lists, d) < Size(lists) && Unrank(lists, Rank(lists, d)) == d
    decreases |lists|
  {
    RankInRange(lists, d);
    if lists != [] {
      RankInRange(lists[1..], d[1..]);
      UnrankOfRank(lists[1..], d[1..]);
      SplitOf(d[0], Size(lists[1..]), Rank(lists[1..], d[1..]));
      UnrankAt(lists, Rank(lists, d), d[0], Rank(lists[1..], d[1..]));
      assert d == [d[0]] + d[1..];
    }
  }

  /** Lexicographic comparison of positions. */
  predicate Before(d: seq<nat>, e: seq<nat>)
    requires |d| == |e|
  {
    d != [] && (d[0] < e[0] || (d[0] == e[0] && Before(d[1..], e[1..])))
  }

  /** Ranks follow the lexicographic order of the positions. */
  lemma {:induction false} RankFollowsOrder<T>(lists: seq<seq<T>>, d: seq<nat>, e: seq<nat>)
    requires Digits(lists, d) && Digits(lists, e)
    ensures Rank(lists, d) < Rank(lists, e) <==> Before(d, e)
    decreases |lists|
  {
    if lists != [] {
      var n := Size(lists[1..]);
      RankInRange(lists[1..], d[1..]);
      RankInRange(lists[1..], e[1..]);
      RankFollowsOrder(lists[1..], d[1..], e[1..]);
      if d[0] < e[0] {
        LeadingDigit(d[0], e[0], n, Rank(lists[1..], d[1..]));
      } else if e[0] < d[0] {
        LeadingDigit(e[0], d[0], n, Rank(lists[1..], e[1..]));
      }
    }
  }

  /** A tuple is in the product exactly when it takes one element from each list. */
  lemma ProductMembers<T>(lists: seq<seq<T>>, t: seq<T>)
    ensures t in CartesianProduct(lists) <==> |t| == |lists| && forall i :: 0 <= i < |lists| ==> t[i] in lists[i]
  {
    ProductListsTuplesInOrder(lists, []);
    if t in CartesianProduct(lists) {
      var k :| 0 <= k < |CartesianProduct(lists)| && CartesianProduct(lists)[k] == t;
      var d := Unrank(lists, k);
      RankOfUnrank(lists, k);
      ProductListsTuplesInOrder(lists, d);
    }
    if |t| == |lists| && forall i :: 0 <= i < |lists| ==> t[i] in lists[i] {
      var d := seq(|t|, i requires 0 <= i < |t| => PositionOf(lists[i], t[i]));
      ProductListsTuplesInOrder(lists, d);
      assert Pick(lists, d) == t;
    }
  }

  ghost function PositionOf<T>(l: seq<T>, x: T): (k: nat)
    requires x in l
    ensures k < |l| && l[k] == x
  {
    var k :| 0 <= k < |l| && l[k] == x;
    k
  }
}
