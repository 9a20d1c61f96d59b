/** Counting comparisons.  An order is only known through answers about comparisons, and making a
    comparison counts, so that no code can compare two elements without it. */
module Comparing {

  /** Two elements to be compared. */
  class Comparison<T> {
    const left: T
    const right: T

    constructor (left: T, right: T, ghost tally: Comparer<T>)
      modifies tally`calls
      ensures this.left == left && this.right == right
      ensures tally.calls == old(tally.calls) + 1
    {
      this.left, this.right := left, right;
      new;
      tally.calls := tally.calls + 1;
    }
  }

  ghost function Answers<T>(lt: (T, T) -> bool): Comparison<T> -> bool {
    (c: Comparison<T>) => lt(c.left, c.right)
  }

  class Comparer<T> {
    ghost const lt: (T, T) -> bool
    const answer: Comparison<T> -> bool
    ghost var calls: nat

    ghost predicate Valid() {
      answer == Answers(lt)
    }

    constructor (ghost lt: (T, T) -> bool, answer: Comparison<T> -> bool)
      requires answer == Answers(lt)
      ensures Valid() && this.lt == lt && calls == 0
    {
      this.lt, this.answer, calls := lt, answer, 0;
    }

    method Less(x: T, y: T) returns (b: bool)
      requires Valid()
      modifies `calls
      ensures b == lt(x, y) && calls == old(calls) + 1
    {
      var c := new Comparison(x, y, this);
      b := answer(c);
    }
  }
}
