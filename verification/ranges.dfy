/**
  Python's `range(start, stop, step)` as a sequence of integers, and the
  multiplication table both loop tutorials print with nested loops.
 */
module Ranges {
  import opened Wrappers

  /** `range(start, stop, step)` for a non-zero step: it starts at
      `start`, every element lies between `start` and `stop` (excluded)
      in the direction of travel, and one more step after the last element
      would reach or pass `stop`. `RangeSteps` adds that consecutive
      elements are exactly `step` apart. */
  function Range(start: int, stop: int, step: int): (r: seq<int>)
    requires step != 0
    ensures |r| > 0 ==> r[0] == start
    ensures step > 0 ==> forall i :: 0 <= i < |r| ==> start <= r[i] < stop
    ensures step < 0 ==> forall i :: 0 <= i < |r| ==> stop < r[i] <= start
    ensures |r| == 0 ==> (step > 0 ==> start >= stop) && (step < 0 ==> start <= stop)
    ensures |r| > 0 ==> (step > 0 ==> r[|r| - 1] + step >= stop) && (step < 0 ==> r[|r| - 1] + step <= stop)
    decreases if step > 0 then stop - start else start - stop
  {
    if (step > 0 && start >= stop) || (step < 0 && start <= stop) then []
    else [start] + Range(start + step, stop, step)
  }

  /** Consecutive elements of a range are exactly `step` apart. */
  lemma {:induction false} RangeSteps(start: int, stop: int, step: int)
    requires step != 0
    ensures forall i, j :: 0 <= i && j == i + 1 && j < |Range(start, stop, step)| ==>
      Range(start, stop, step)[j] == Range(start, stop, step)[i] + step
    decreases if step > 0 then stop - start else start - stop
  {
    var r := Range(start, stop, step);
    if |r| > 0 {
      var r' := Range(start + step, stop, step);
      RangeSteps(start + step, stop, step);
      assert r == [start] + r';
      forall i, j | 0 <= i && j == i + 1 && j < |r|
        ensures r[j] == r[i] + step
      {
        if i > 0 {
          assert r[j] == r'[j - 1] && r[i] == r'[i - 1];
          assert r'[j - 1] == r'[i - 1] + step;
        } else {
          assert r[1] == r'[0] == start + step;
        }
      }
    }
  }

  /** `range` with its `ValueError` for a zero step. */
  function RangeOf(start: int, stop: int, step: int): (r: Result<seq<int>, string>)
    ensures r.Failure? <==> step == 0
    ensures r.Success? ==> r.value == Range(start, stop, step)
  {
    if step == 0 then Failure("range() arg 3 must not be zero") else Success(Range(start, stop, step))
  }

  /** With step 1 the range holds every integer from `start` up to
      `stop - 1`, and nothing else. */
  lemma {:induction false} RangeUnit(start: int, stop: int)
    ensures |Range(start, stop, 1)| == if stop > start then stop - start else 0
    ensures forall i :: 0 <= i < |Range(start, stop, 1)| ==> Range(start, stop, 1)[i] == start + i
    decreases stop - start
  {
    if start < stop {
      RangeUnit(start + 1, stop);
    }
  }

  /** `x` is the next point of the grid after `r`, which starts at
      `start`. */
  predicate NextOnGrid(r: seq<int>, start: int, step: int, x: int) {
    if |r| == 0 then x == start else r[|r| - 1] + step == x
  }

  /** Raising `stop` by one adds `stop` to the end exactly when `stop` is
      the next point of the step grid, and changes nothing otherwise. */
  predicate GrowthLaw(start: int, stop: int, step: int)
    requires step > 0
  {
    if NextOnGrid(Range(start, stop, step), start, step, stop)
    then Range(start, stop + 1, step) == Range(start, stop, step) + [stop]
    else Range(start, stop + 1, step) == Range(start, stop, step)
  }

  /** The growth law holds for every upward range. */
  lemma {:induction false} RangeGrow(start: int, stop: int, step: int)
    requires step > 0 && start <= stop
    ensures GrowthLaw(start, stop, step)
    decreases stop - start
  {
    if start + step > stop {
      RangeGrowLastStep(start, stop, step);
    } else {
      RangeGrow(start + step, stop, step);
      RangeGrowStep(start, stop, step);
    }
  }

  lemma RangeGrowLastStep(start: int, stop: int, step: int)
    requires step > 0 && start <= stop < start + step
    ensures GrowthLaw(start, stop, step)
  {
    assert Range(start + step, stop + 1, step) == [];
    if start < stop {
      assert Range(start + step, stop, step) == [];
    }
  }

  /** One step of `RangeGrow`: the law for `start + step` gives it for
      `start`. */
  lemma RangeGrowStep(start: int, stop: int, step: int)
    requires step > 0 && start + step <= stop
    requires GrowthLaw(start + step, stop, step)
    ensures GrowthLaw(start, stop, step)
  {
    var r' := Range(start + step, stop, step);
    var r := Range(start, stop, step);
    assert r == [start] + r';
    assert Range(start, stop + 1, step) == [start] + Range(start + step, stop + 1, step);
    assert NextOnGrid(r, start, step, stop) <==> NextOnGrid(r', start + step, step, stop);
    if NextOnGrid(r', start + step, step, stop) {
      assert [start] + (r' + [stop]) == r + [stop];
    }
  }

  /** With step 1 every `stop` is on the grid: raising `stop` by one
      appends it. */
  lemma UnitGrow(start: int, stop: int)
    requires start <= stop
    ensures Range(start, stop + 1, 1) == Range(start, stop, 1) + [stop]
  {
    RangeGrow(start, stop, 1);
  }

  /** Every element of a step-2 range from an odd start is odd. */
  lemma {:induction false} OddElements(start: int, stop: int)
    requires start % 2 == 1
    ensures forall x :: x in Range(start, stop, 2) ==> x % 2 == 1
    decreases stop - start
  {
    if start < stop {
      OddElements(start + 2, stop);
      assert Range(start, stop, 2) == [start] + Range(start + 2, stop, 2);
    }
  }

  /** The odd numbers from 1: `stop` is the next one exactly when it is
      odd. */
  lemma OddGrid(stop: int)
    requires stop >= 1
    ensures NextOnGrid(Range(1, stop, 2), 1, 2, stop) <==> stop % 2 == 1
  {
    var r := Range(1, stop, 2);
    if |r| > 0 {
      OddElements(1, stop);
      assert r[|r| - 1] in r;
    }
  }

  /** Counting `k` up from 1: `range(1, k + 1, 2)` gains `k` exactly
      when `k` is odd. */
  lemma OddStep(k: int)
    requires k >= 1
    ensures Range(1, k + 1, 2) == if k % 2 == 1 then Range(1, k, 2) + [k] else Range(1, k, 2)
  {
    RangeGrow(1, k, 2);
    OddGrid(k);
  }

  lemma RangeExamples()
    ensures Range(0, 5, 1) == [0, 1, 2, 3, 4]
    ensures Range(0, 10, 2) == [0, 2, 4, 6, 8]
    ensures Range(1, 4, 1) == [1, 2, 3]
    ensures Range(1, 6, 1) == [1, 2, 3, 4, 5]
    ensures Range(1, 10, 1) == [1, 2, 3, 4, 5, 6, 7, 8, 9]
  {
    RangeUnit(0, 5);
    RangeUnit(1, 4);
    RangeUnit(1, 6);
    RangeUnit(1, 10);
    EvenRange();
  }

  lemma EvenRange()
    ensures Range(0, 10, 2) == [0, 2, 4, 6, 8]
  {
    assert Range(10, 10, 2) == [];
    assert Range(8, 10, 2) == [8];
    assert Range(6, 10, 2) == [6, 8];
    assert Range(4, 10, 2) == [4, 6, 8];
    assert Range(2, 10, 2) == [2, 4, 6, 8];
  }

  // ---------------------------------------------------------------
  // The multiplication table.
  // ---------------------------------------------------------------

  /** One printed cell: `f"{row} x {col} = {row * col}"`. */
  datatype Cell = Cell(row: int, col: int, product: int)

  /** Row `row` of an `n` by `n` table: columns 1 to `n`. */
  function TableRow(row: int, n: nat): (r: seq<Cell>)
    ensures |r| == n
    ensures forall j :: 0 <= j < n ==> r[j] == Cell(row, j + 1, row * (j + 1))
  {
    seq(n, j requires 0 <= j < n => Cell(row, j + 1, row * (j + 1)))
  }

  /** Rows 1 to `rows` of the table, in row-major order. */
  function Table(rows: nat, n: nat): (t: seq<Cell>)
    ensures |t| == rows * n
    decreases rows
  {
    if rows == 0 then [] else Table(rows - 1, n) + TableRow(rows, n)
  }

  /** Every cell of the table holds the product of its row and column,
      both within the table's bounds. */
  lemma {:induction false} TableCells(rows: nat, n: nat)
    ensures forall c :: c in Table(rows, n) ==>
      1 <= c.row <= rows && 1 <= c.col <= n && c.product == c.row * c.col
    decreases rows
  {
    if rows > 0 {
      TableCells(rows - 1, n);
      var row := TableRow(rows, n);
      assert forall c :: c in row ==> c.row == rows && 1 <= c.col <= n && c.product == c.row * c.col;
    }
  }

  lemma TableExample()
    ensures Table(3, 3) == [
      Cell(1, 1, 1), Cell(1, 2, 2), Cell(1, 3, 3),
      Cell(2, 1, 2), Cell(2, 2, 4), Cell(2, 3, 6),
      Cell(3, 1, 3), Cell(3, 2, 6), Cell(3, 3, 9)]
  {
  }
}
