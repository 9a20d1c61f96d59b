/** The round-robin cursor of the calendar example and the transposition built from it. */
module Interleave {
  import opened Options
  import opened MetaTables
  import MetaFolds

  /** The length of the shortest range. */
  function MinLength<T>(rngs: seq<seq<T>>): (m: nat)
    requires rngs != []
    ensures forall i :: 0 <= i < |rngs| ==> m <= |rngs[i]|
    ensures exists i :: 0 <= i < |rngs| && m == |rngs[i]|
  {
    if |rngs| == 1 then |rngs[0]|
    else
      var rest := MinLength(rngs[1..]);
      assert forall i :: 0 < i < |rngs| ==> rngs[i] == rngs[1..][i - 1];
      if |rngs[0]| <= rest then |rngs[0]|
      else
        var i :| 0 <= i < |rngs[1..]| && rest == |rngs[1..][i]|;
        assert rest == |rngs[i + 1]|;
        rest
  }

  lemma RoundStep(n: nat, r: nat)
    requires n < r
    ensures (n + 1) % r == if n + 1 == r then 0 else n + 1
  {
  }

  /** The cursor of `interleave_view`: which range comes next, and an iterator into each range. */
  class Cursor<T> {
    var n: nat
    const rngs: seq<seq<T>>
    const its: array<nat>
    ghost var col: nat // the column in which all iterators stand

    /** No iterator is past its end, and inside a round none is at it. */
    ghost predicate Valid()
      reads this, its
    {
      && its.Length == |rngs|
      && (n == 0 || n < |rngs|)
      && (forall i :: 0 <= i < |rngs| ==> its[i] == col)
      && (|rngs| > 0 ==> col <= MinLength(rngs) && (n > 0 ==> col < MinLength(rngs)))
    }

    /** `begin_cursor`. */
    constructor (rngs: seq<seq<T>>)
      ensures Valid() && this.rngs == rngs && n == 0 && col == 0 && fresh(its)
    {
      this.rngs := rngs;
      n := 0;
      its := new nat[|rngs|](_ => 0);
      col := 0;
    }

    /** `equal(default_sentinel)`: only between rounds, and then when some range is used up.  With no
        ranges at all the answer is always no, although there is nothing to read. */
    method AtEnd() returns (b: bool)
      requires Valid()
      ensures |rngs| == 0 ==> !b
      ensures |rngs| > 0 ==> (b <==> n == 0 && col == MinLength(rngs))
    {
      if n != 0 {
        return false;
      }
      var i := 0;
      while i < its.Length && its[i] != |rngs[i]|
        invariant 0 <= i <= its.Length
        invariant forall j :: 0 <= j < i ==> its[j] != |rngs[j]|
      {
        i := i + 1;
      }
      b := i != its.Length;
    }

    /** `read`. */
    method Read() returns (x: T)
      requires Valid() && |rngs| > 0 && col < MinLength(rngs)
      ensures x == rngs[n][col]
    {
      x := rngs[n][its[n]];
    }

    /** `next`: all iterators move when the last range of the round has been read. */
    method Next()
      requires Valid() && |rngs| > 0 && col < MinLength(rngs)
      modifies this, its
      ensures Valid()
      ensures n == if old(n) + 1 == |rngs| then 0 else old(n) + 1
      ensures col == old(col) + (if n == 0 then 1 else 0)
    {
      RoundStep(n, |rngs|);
      n := (n + 1) % its.Length;
      if 0 == n {
        var i := 0;
        while i < its.Length
          modifies its
          invariant 0 <= i <= its.Length
          invariant forall j :: 0 <= j < i ==> its[j] == col + 1
          invariant forall j :: i <= j < its.Length ==> its[j] == col
        {
          its[i] := its[i] + 1;
          i := i + 1;
        }
        col := col + 1;
      }
    }
  }

  // ----- what a walk from begin to end produces

  function Column<T>(rngs: seq<seq<T>>, j: nat): (c: seq<T>)
    requires forall i :: 0 <= i < |rngs| ==> j < |rngs[i]|
    ensures |c| == |rngs| && forall i :: 0 <= i < |c| ==> c[i] == rngs[i][j]
  {
    seq(|rngs|, i requires 0 <= i < |rngs| => rngs[i][j])
  }

  /** The first m columns one after the other. */
  function ColumnMajor<T>(rngs: seq<seq<T>>, m: nat): seq<T>
    requires forall i :: 0 <= i < |rngs| ==> m <= |rngs[i]|
  {
    if m == 0 then [] else ColumnMajor(rngs, m - 1) + Column(rngs, m - 1)
  }

  /** Walking the view yields the columns as far as the shortest range goes, and then stops. */
  method Walk<T>(rngs: seq<seq<T>>) returns (out: seq<T>)
    requires rngs != []
    ensures out == ColumnMajor(rngs, MinLength(rngs))
  {
    var cursor := new Cursor(rngs);
    out := [];
    var end := cursor.AtEnd();
    while !end
      invariant fresh(cursor) && fresh(cursor.its) && cursor.Valid() && cursor.rngs == rngs
      invariant out == WalkedSoFar(rngs, cursor.col, cursor.n)
      invariant end <==> cursor.n == 0 && cursor.col == MinLength(rngs)
      decreases MinLength(rngs) - cursor.col, |rngs| - cursor.n
    {
      var x := cursor.Read();
      ghost var col, n := cursor.col, cursor.n;
      out := out + [x];
      cursor.Next();
      WalkOne(rngs, col, n, cursor.col, cursor.n);
      end := cursor.AtEnd();
    }
  }

  /** All columns before `col`, and the first n elements of that one. */
  function WalkedSoFar<T>(rngs: seq<seq<T>>, col: nat, n: nat): seq<T>
    requires n <= |rngs|
    requires forall i :: 0 <= i < |rngs| ==> col <= |rngs[i]|
    requires n > 0 ==> forall i :: 0 <= i < |rngs| ==> col < |rngs[i]|
  {
    ColumnMajor(rngs, col) + (if n == 0 then [] else Column(rngs, col)[..n])
  }

  lemma WalkOne<T>(rngs: seq<seq<T>>, col: nat, n: nat, col': nat, n': nat)
    requires n < |rngs| && forall i :: 0 <= i < |rngs| ==> col < |rngs[i]|
    requires if n + 1 == |rngs| then n' == 0 && col' == col + 1 else n' == n + 1 && col' == col
    ensures WalkedSoFar(rngs, col, n) + [rngs[n][col]] == WalkedSoFar(rngs, col', n')
  {
    var c := Column(rngs, col);
    assert c[..n] + [c[n]] == c[..n + 1];
    assert c[..|rngs|] == c;
  }

  /** `views::chunk`. */
  function Chunk<T>(s: seq<T>, n: nat): seq<seq<T>>
    requires n > 0
  {
    if s == [] then [] else if |s| <= n then [s] else [s[..n]] + Chunk(s[n..], n)
  }

  lemma {:induction false} ChunkSnoc<T>(s: seq<T>, last: seq<T>, n: nat, q: nat)
    requires n > 0 && |last| == n && |s| == q * n
    ensures Chunk(s + last, n) == Chunk(s, n) + [last]
    decreases q
  {
    if q == 0 {
      assert s + last == last;
    } else {
      assert |s| == n + (q - 1) * n;
      assert (s + last)[..n] == s[..n];
      assert (s + last)[n..] == s[n..] + last;
      ChunkSnoc(s[n..], last, n, q - 1);
      if |s| == n {
        assert s[..n] == s && s[n..] == [];
      }
    }
  }

  /** Cutting the walk into pieces of one element per range gives back the columns. */
  lemma {:induction false} ChunksAreColumns<T>(rngs: seq<seq<T>>, m: nat)
    requires rngs != [] && forall i :: 0 <= i < |rngs| ==> m <= |rngs[i]|
    ensures |ColumnMajor(rngs, m)| == m * |rngs|
    ensures Chunk(ColumnMajor(rngs, m), |rngs|) == seq(m, j requires 0 <= j < m => Column(rngs, j))
    decreases m
  {
    if m > 0 {
      ChunksAreColumns(rngs, m - 1);
      ChunkSnoc(ColumnMajor(rngs, m - 1), Column(rngs, m - 1), |rngs|, m - 1);
      assert m * |rngs| == (m - 1) * |rngs| + |rngs|;
    }
  }

  /** The rows cut to the length of the shortest. */
  function Truncated<T>(rngs: seq<seq<T>>): (r: seq<seq<T>>)
    requires rngs != []
    ensures |r| == |rngs|
  {
    var m := MinLength(rngs);
    seq(|rngs|, i requires 0 <= i < |rngs| => rngs[i][..m])
  }

  /** Two transpositions of the same rows are equal. */
  lemma TransposedIsUnique<T>(rows: seq<seq<T>>, a: seq<seq<T>>, b: seq<seq<T>>)
    requires rows != [] && IsTransposed(rows, a) && IsTransposed(rows, b)
    ensures a == b
  {
    assert |a| == |rows[0]| == |b|;
    forall j | 0 <= j < |a|
      ensures a[j] == b[j]
    {
      assert forall i :: 0 <= i < |rows| ==> a[j][i] == rows[i][j] == b[j][i];
    }
  }

  /** `transpose` of the calendar: on rows of equal length it is `meta::transpose`; otherwise it
      transposes what the shortest row leaves. */
  method TransposeRanges<T>(rngs: seq<seq<T>>) returns (rows: seq<seq<T>>)
    requires rngs != []
    ensures MetaTables.Transpose(Truncated(rngs)) == Some(rows)
    ensures Rectangular(rngs, |rngs[0]|) ==> MetaTables.Transpose(rngs) == Some(rows)
  {
    var out := Walk(rngs);
    rows := Chunk(out, |rngs|);
    ChunksAreColumns(rngs, MinLength(rngs));
    TransposeSwapsIndices(Truncated(rngs));
    assert IsTransposed(Truncated(rngs), rows);
    TransposedIsUnique(Truncated(rngs), rows, MetaTables.Transpose(Truncated(rngs)).value);
    if Rectangular(rngs, |rngs[0]|) {
      assert forall i :: 0 <= i < |rngs| ==> |rngs[i]| == MinLength(rngs);
      assert forall i :: 0 <= i < |rngs| ==> Truncated(rngs)[i] == rngs[i];
      assert Truncated(rngs) == rngs;
    }
  }

  // ----- the lines of the calendar

  /** The longest start of s whose elements all have key k. */
  function KeyRun(s: seq<int>, key: int -> int, k: int): (n: nat)
    ensures n <= |s|
    ensures forall i :: 0 <= i < n ==> key(s[i]) == k
    ensures n < |s| ==> key(s[n]) != k
  {
    if s == [] || key(s[0]) != k then 0 else 1 + KeyRun(s[1..], key, k)
  }

  /** `views::group_by` on equality of a key with the first element of the group. */
  function GroupBy(s: seq<int>, key: int -> int): seq<seq<int>> {
    if s == [] then []
    else
      var n := KeyRun(s, key, key(s[0]));
      assert n > 0;
      [s[..n]] + GroupBy(s[n..], key)
  }

  /** The groups put together are the input ... */
  lemma {:induction false} GroupsFlatten(s: seq<int>, key: int -> int)
    ensures MetaFolds.Flatten(GroupBy(s, key)) == s
    decreases |s|
  {
    if s != [] {
      var n := KeyRun(s, key, key(s[0]));
      assert n > 0;
      var rest := GroupBy(s[n..], key);
      GroupsFlatten(s[n..], key);
      MetaFolds.FlattenCons(s[..n], rest);
      assert s[..n] + s[n..] == s;
    }
  }

  predicate OneKey(group: seq<int>, key: int -> int) {
    group != [] && forall i :: 0 <= i < |group| ==> key(group[i]) == key(group[0])
  }

  predicate KeysDiffer(a: seq<int>, b: seq<int>, key: int -> int) {
    a != [] && b != [] && key(a[0]) != key(b[0])
  }

  /** ... each group has one key, and neighbouring groups differ in it. */
  lemma {:induction false} GroupsHaveKeys(s: seq<int>, key: int -> int)
    ensures forall g :: 0 <= g < |GroupBy(s, key)| ==> OneKey(GroupBy(s, key)[g], key)
    ensures forall g :: 0 <= g < |GroupBy(s, key)| - 1 ==> KeysDiffer(GroupBy(s, key)[g], GroupBy(s, key)[g + 1], key)
    ensures s != [] ==> GroupBy(s, key) != [] && GroupBy(s, key)[0] != [] && GroupBy(s, key)[0][0] == s[0]
    decreases |s|
  {
    if s != [] {
      var n := KeyRun(s, key, key(s[0]));
      assert n > 0;
      var groups, rest := GroupBy(s, key), GroupBy(s[n..], key);
      GroupsHaveKeys(s[n..], key);
      assert OneKey(s[..n], key);
      assert groups == [s[..n]] + rest;
      forall g | 0 <= g < |groups| - 1
        ensures KeysDiffer(groups[g], groups[g + 1], key)
      {
        if g > 0 {
          assert KeysDiffer(rest[g - 1], rest[g - 1 + 1], key);
        }
      }
    }
  }

  /** Each element has the key of the one before or the next key. */
  predicate StepByStep(s: seq<int>, key: int -> int) {
    forall i :: 0 <= i < |s| - 1 ==> key(s[i]) <= key(s[i + 1]) <= key(s[i]) + 1
  }

  lemma {:induction false} GroupCount(s: seq<int>, key: int -> int)
    requires s != [] && StepByStep(s, key)
    ensures |GroupBy(s, key)| == key(s[|s| - 1]) - key(s[0]) + 1
    decreases |s|
  {
    var n := KeyRun(s, key, key(s[0]));
    assert n > 0;
    if n < |s| {
      assert key(s[n - 1]) <= key(s[n]) <= key(s[n - 1]) + 1;
      GroupCount(s[n..], key);
    } else {
      assert s[n..] == [];
    }
  }

  /** The days of a month, and the week (Sunday to Saturday) of each when the first falls on
      weekday `first`, Sunday being 0. */
  function Month(days: nat): seq<int> {
    seq(days, i => i + 1)
  }

  function WeekOf(first: nat): int -> int {
    day => (first + day - 1) / 7
  }

  /** The key of `by_week`: the number of the week, by whatever calendar numbers the weeks. */
  function Numbered(week: int -> int, number: int -> int): int -> int {
    day => number(week(day))
  }

  /** No two consecutive weeks share a number; so it is with ISO 8601, also where a year ends. */
  ghost predicate TellsWeeksApart(number: int -> int) {
    forall w: int :: number(w) != number(w + 1)
  }

  lemma {:induction false} RunsAgree(s: seq<int>, week: int -> int, number: int -> int, w: int)
    requires TellsWeeksApart(number) && StepByStep(s, week) && (s != [] ==> w <= week(s[0]) <= w + 1)
    ensures KeyRun(s, Numbered(week, number), number(w)) == KeyRun(s, week, w)
    decreases |s|
  {
    if s != [] {
      assert number(w) != number(w + 1);
      if week(s[0]) == w {
        RunsAgree(s[1..], week, number, w);
      }
    }
  }

  /** Grouping days by the number of their week is grouping them by the week. */
  lemma {:induction false} NumbersGroupWeeks(s: seq<int>, week: int -> int, number: int -> int)
    requires TellsWeeksApart(number) && StepByStep(s, week)
    ensures GroupBy(s, Numbered(week, number)) == GroupBy(s, week)
    decreases |s|
  {
    if s != [] {
      var n := KeyRun(s, week, week(s[0]));
      assert n > 0;
      RunsAgree(s, week, number, week(s[0]));
      NumbersGroupWeeks(s[n..], week, number);
    }
  }

  /** `month | by_week()`. */
  function ByWeek(first: nat, days: nat, number: int -> int): seq<seq<int>> {
    GroupBy(Month(days), Numbered(WeekOf(first), number))
  }

  lemma MonthGoesWeekByWeek(first: nat, days: nat)
    ensures StepByStep(Month(days), WeekOf(first))
  {
  }

  lemma WeeksTouched(first: nat, days: nat)
    requires first < 7 && 28 <= days <= 31
    ensures |GroupBy(Month(days), WeekOf(first))| == (first + days - 1) / 7 + 1
  {
    var m, week := Month(days), WeekOf(first);
    MonthGoesWeekByWeek(first, days);
    GroupCount(m, week);
    assert m[0] == 1 && m[|m| - 1] == days;
    assert week(1) == 0 && week(days) == (first + days - 1) / 7;
  }

  lemma GroupsAreWeeks(first: nat, days: nat, number: int -> int)
    requires TellsWeeksApart(number)
    ensures ByWeek(first, days, number) == GroupBy(Month(days), WeekOf(first))
  {
    MonthGoesWeekByWeek(first, days);
    NumbersGroupWeeks(Month(days), WeekOf(first), number);
  }

  /** A month touches four to six weeks, and `by_week` makes one group of each ... */
  lemma WeeksFitSixLines(first: nat, days: nat, number: int -> int)
    requires first < 7 && 28 <= days <= 31 && TellsWeeksApart(number)
    ensures ByWeek(first, days, number) == GroupBy(Month(days), WeekOf(first))
    ensures 4 <= |ByWeek(first, days, number)| == (first + days - 1) / 7 + 1 <= 6
  {
    GroupsAreWeeks(first, days, number);
    WeeksTouched(first, days);
  }

  function Blank(): string {
    seq(22, _ => ' ')
  }

  /** The title, one line per week, and empty lines up to six weeks. */
  function Lines(title: string, format: seq<int> -> string, weeks: seq<seq<int>>): (lines: seq<string>)
    requires |weeks| <= 6
    ensures |lines| == 7
  {
    [title] + seq(|weeks|, i requires 0 <= i < |weeks| => format(weeks[i])) + seq(6 - |weeks|, _ => Blank())
  }

  /** The lines are the title, the weeks in order, and then lines of 22 blanks. */
  lemma LinesInOrder(title: string, format: seq<int> -> string, weeks: seq<seq<int>>, i: nat)
    requires |weeks| <= 6 && i < 7
    ensures var line := Lines(title, format, weeks)[i];
      if i == 0 then line == title
      else if i <= |weeks| then line == format(weeks[i - 1])
      else |line| == 22 && forall c :: c in line ==> c == ' '
  {
  }

  /** `layout_months`. */
  function LayoutMonth(title: string, format: seq<int> -> string, first: nat, days: nat, number: int -> int)
    : (lines: seq<string>)
    requires first < 7 && 28 <= days <= 31 && TellsWeeksApart(number)
    ensures |lines| == 7
  {
    WeeksFitSixLines(first, days, number);
    Lines(title, format, ByWeek(first, days, number))
  }

  ghost predicate IsLaidOut(month: seq<string>) {
    exists title, format, first: nat, days: nat, number ::
      first < 7 && 28 <= days <= 31 && TellsWeeksApart(number) && month == LayoutMonth(title, format, first, days, number)
  }

  /** ... so months set side by side are a rectangle, and transposing them loses no line. */
  lemma MonthsSideBySide(months: seq<seq<string>>)
    requires months != []
    requires forall k :: 0 <= k < |months| ==> IsLaidOut(months[k])
    ensures MetaTables.Transpose(months).Some? && |MetaTables.Transpose(months).value| == 7
  {
    TransposeSwapsIndices(months);
  }
}
