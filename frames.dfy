/** Row-selection and summation over in-memory tables, the two operations the
    request handler applies to its data frames: a boolean mask keeps the rows
    satisfying a condition, and `.sum()` adds up one numeric column (the sum of
    no rows is 0). */
module Frames {

  datatype Option<T> = None | Some(value: T)

  /** The rows of `xs` for which `keep` holds, in their original order. */
  function Filter<T(==,!new)>(xs: seq<T>, keep: T -> bool): (r: seq<T>)
    ensures |r| <= |xs|
    ensures forall x :: x in r <==> x in xs && keep(x)
  {
    if xs == [] then []
    else (if keep(xs[0]) then [xs[0]] else []) + Filter(xs[1..], keep)
  }

  /** Masking distributes over concatenation of tables. */
  lemma {:induction false} FilterAppend<T(!new)>(xs: seq<T>, ys: seq<T>, keep: T -> bool)
    ensures Filter(xs + ys, keep) == Filter(xs, keep) + Filter(ys, keep)
  {
    if xs == [] {
      assert xs + ys == ys;
    } else {
      assert (xs + ys)[0] == xs[0];
      assert (xs + ys)[1..] == xs[1..] + ys;
      FilterAppend(xs[1..], ys, keep);
    }
  }

  /** A mask keeps each passing row as many times as it occurs, and drops
      every other row: duplicate rows are not merged. */
  lemma {:induction false} FilterCounts<T(!new)>(xs: seq<T>, keep: T -> bool)
    ensures forall x :: multiset(Filter(xs, keep))[x] == if keep(x) then multiset(xs)[x] else 0
  {
    if xs != [] {
      FilterCounts(xs[1..], keep);
      assert xs == [xs[0]] + xs[1..];
      assert multiset(xs) == multiset([xs[0]]) + multiset(xs[1..]);
      var head := if keep(xs[0]) then [xs[0]] else [];
      assert multiset(Filter(xs, keep)) == multiset(head) + multiset(Filter(xs[1..], keep));
    }
  }

  /** A mask that no row passes selects nothing. */
  lemma {:induction false} FilterNone<T(!new)>(xs: seq<T>, keep: T -> bool)
    requires forall x :: x in xs ==> !keep(x)
    ensures Filter(xs, keep) == []
  {
    if xs != [] {
      assert xs[0] in xs;
      FilterNone(xs[1..], keep);
    }
  }

  /** The column sum of `amount` over `xs`; an empty table sums to 0. */
  function Sum<T>(xs: seq<T>, amount: T -> int): (total: int)
    ensures xs == [] ==> total == 0
    ensures |xs| == 1 ==> total == amount(xs[0])
  {
    if xs == [] then 0 else amount(xs[0]) + Sum(xs[1..], amount)
  }

  /** The column sum is additive over concatenation of tables. */
  lemma {:induction false} SumAppend<T>(xs: seq<T>, ys: seq<T>, amount: T -> int)
    ensures Sum(xs + ys, amount) == Sum(xs, amount) + Sum(ys, amount)
  {
    if xs == [] {
      assert xs + ys == ys;
    } else {
      assert (xs + ys)[0] == xs[0];
      assert (xs + ys)[1..] == xs[1..] + ys;
      SumAppend(xs[1..], ys, amount);
    }
  }

  /** The sum over the rows that pass a mask, after one more row is appended. */
  lemma MaskedSumSnoc<T(!new)>(xs: seq<T>, x: T, keep: T -> bool, amount: T -> int)
    ensures Sum(Filter(xs + [x], keep), amount)
         == Sum(Filter(xs, keep), amount) + (if keep(x) then amount(x) else 0)
  {
    FilterAppend(xs, [x], keep);
    SumAppend(Filter(xs, keep), Filter([x], keep), amount);
    assert Filter([x], keep) == if keep(x) then [x] else [];
    if keep(x) {
      assert Sum([x], amount) == amount(x) + Sum([x][1..], amount);
    }
  }
}
