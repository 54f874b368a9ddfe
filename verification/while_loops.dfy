/**
  The counted `while` loops of Python/10_While_Loop.py. Each loop is a
  method whose output is the sequence of numbers it prints (the fixed
  text around each number is described in the comments); the password
  loop is in the `InputLoops` module.
 */
module WhileLoops {
  import opened Ranges

  /** `counter = 1; while counter <= limit: print(counter); counter += 1`
      (the tutorial's limit is 5): prints 1 to `limit`, and the counter
      ends one past the last number printed. */
  method CounterLoop(limit: int) returns (printed: seq<int>, counter: int)
    ensures printed == Range(1, limit + 1, 1)
    ensures counter == if limit >= 1 then limit + 1 else 1
  {
    counter := 1;
    printed := [];
    while counter <= limit
      invariant 1 <= counter <= if limit >= 1 then limit + 1 else 1
      invariant printed == Range(1, counter, 1)
    {
      UnitGrow(1, counter);
      printed := printed + [counter];
      counter := counter + 1;
    }
  }

  /** The loop with `break`: `num` runs from 0 while `num < bound`, is
      printed, and the loop breaks (printing "Breaking the loop.") once
      the printed number was `target`. The print comes before the test,
      so `target` itself is printed: with bound 10 and target 5 the
      output is 0 to 5. */
  method BreakLoop(bound: int, target: int) returns (printed: seq<int>, broke: bool)
    ensures broke <==> 0 <= target < bound
    ensures broke ==> printed == Range(0, target + 1, 1)
    ensures !broke ==> printed == Range(0, bound, 1)
  {
    var num := 0;
    printed := [];
    broke := false;
    while num < bound
      invariant 0 <= num
      invariant num <= bound || num == 0
      invariant target < 0 || num <= target
      invariant printed == Range(0, num, 1)
    {
      UnitGrow(0, num);
      printed := printed + [num];
      if num == target {
        broke := true;
        break;
      }
      num := num + 1;
    }
  }

  /** With the tutorial's bounds (10 and 5, so `BreakLoop` breaks and
      prints `Range(0, 5 + 1, 1)`) the loop prints 0 to 5; the number 5 is
      printed although the accompanying comment expects the output to
      stop at 4. */
  lemma BreakLoopPrintsFive()
    ensures Range(0, 5 + 1, 1) == [0, 1, 2, 3, 4, 5]
  {
    RangeUnit(0, 6);
  }

  /** The loop with `continue`: `num` is raised first, even numbers skip
      the print, so exactly the odd numbers from 1 to `bound` are printed
      ("Odd Number: 1" ... "Odd Number: 9" for bound 10). */
  method ContinueLoop(bound: int) returns (printed: seq<int>)
    ensures printed == Range(1, bound + 1, 2)
    ensures forall x :: x in printed ==> 1 <= x <= bound && x % 2 == 1
  {
    var num := 0;
    printed := [];
    while num < bound
      invariant 0 <= num <= if bound > 0 then bound else 0
      invariant printed == Range(1, num + 1, 2)
    {
      num := num + 1;
      OddStep(num);
      if num % 2 == 0 {
        continue;
      }
      printed := printed + [num];
    }
    OddElements(1, bound + 1);
  }

  lemma ContinueLoopExample()
    ensures Range(1, 10 + 1, 2) == [1, 3, 5, 7, 9]
  {
    assert Range(11, 11, 2) == [];
    assert Range(9, 11, 2) == [9];
    assert Range(7, 11, 2) == [7, 9];
    assert Range(5, 11, 2) == [5, 7, 9];
    assert Range(3, 11, 2) == [3, 5, 7, 9];
  }

  /** The tutorial's runs of the `break` loop (bound 10, target 5) and of
      the `continue` loop (bound 10). */
  method TutorialBreak() returns (printed: seq<int>)
    ensures printed == [0, 1, 2, 3, 4, 5]
  {
    var broke;
    printed, broke := BreakLoop(10, 5);
    BreakLoopPrintsFive();
  }

  method TutorialContinue() returns (printed: seq<int>)
    ensures printed == [1, 3, 5, 7, 9]
  {
    printed := ContinueLoop(10);
    ContinueLoopExample();
  }

  /** The nested `while` loops: rows 1 to `n`, and in each row columns
      1 to `n`, printing `f"{row} x {col} = {row * col}"` (n is 3). */
  method TableLoop(n: nat) returns (cells: seq<Cell>)
    ensures cells == Table(n, n)
  {
    cells := [];
    var row := 1;
    while row <= n
      invariant 1 <= row <= n + 1
      invariant cells == Table(row - 1, n)
    {
      var col := 1;
      while col <= n
        invariant 1 <= col <= n + 1
        invariant cells == Table(row - 1, n) + TableRow(row, n)[..col - 1]
      {
        assert TableRow(row, n)[..col] == TableRow(row, n)[..col - 1] + [Cell(row, col, row * col)];
        cells := cells + [Cell(row, col, row * col)];
        col := col + 1;
      }
      assert TableRow(row, n)[..n] == TableRow(row, n);
      row := row + 1;
    }
  }

  const ExitCount := 5

  /** `while True` with the exit test after the increment: prints 0 to 4
      (then "Exiting infinite loop.") and leaves `count` at 5. */
  method WhileTrueLoop() returns (printed: seq<int>, count: int)
    ensures printed == Range(0, ExitCount, 1)
    ensures count == ExitCount
  {
    count := 0;
    printed := [];
    while true
      invariant 0 <= count < ExitCount
      invariant printed == Range(0, count, 1)
      decreases ExitCount - count
    {
      UnitGrow(0, count);
      printed := printed + [count];
      count := count + 1;
      if count == ExitCount {
        break;
      }
    }
  }
}
