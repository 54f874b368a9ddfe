/**
  The `for` loops of Python/11_For_Loop.py: `break` and `continue` over a
  range, the nested multiplication table, the squares comprehension and
  the sum of the first million integers. The `range` loops themselves are
  `Ranges.Range`.
 */
module ForLoops {
  import opened Ranges
  import Functions

  /** `for num in xs: if num == target: print("Breaking the loop."); break;
      print(num)`: the numbers before the first `target`, and whether the
      loop broke. */
  method BreakLoop(xs: seq<int>, target: int) returns (printed: seq<int>, broke: bool)
    ensures broke <==> target in xs
    ensures |printed| <= |xs| && printed == xs[..|printed|]
    ensures target !in printed
    ensures broke ==> xs[|printed|] == target
    ensures !broke ==> printed == xs
  {
    printed := [];
    broke := false;
    var i := 0;
    while i < |xs|
      invariant 0 <= i <= |xs|
      invariant printed == xs[..i]
      invariant target !in printed
    {
      if xs[i] == target {
        broke := true;
        break;
      }
      printed := printed + [xs[i]];
      i := i + 1;
    }
    assert !broke ==> xs[..|xs|] == xs;
  }

  /** Whatever a run of `BreakLoop` over `range(1, 10)` with target 5
      prints, it is 1 to 4. */
  lemma BreakLoopExample(printed: seq<int>)
    requires |printed| < 9 && printed == [1, 2, 3, 4, 5, 6, 7, 8, 9][..|printed|]
    requires 5 !in printed && [1, 2, 3, 4, 5, 6, 7, 8, 9][|printed|] == 5
    ensures Range(1, 10, 1) == [1, 2, 3, 4, 5, 6, 7, 8, 9]
    ensures printed == [1, 2, 3, 4]
  {
    RangeUnit(1, 10);
  }

  /** One printed line of the `continue` loop. */
  datatype Line = Number(n: int) | Skipping(n: int)

  /** `for num in xs: if num == skip: print(f"Skipping {skip}."); continue;
      print(num)`: one line per element, in order; the skipped value
      gets the skip message instead of its number. */
  method ContinueLoop(xs: seq<int>, skip: int) returns (out: seq<Line>)
    ensures |out| == |xs|
    ensures forall i :: 0 <= i < |xs| ==> out[i] == if xs[i] == skip then Skipping(skip) else Number(xs[i])
  {
    out := [];
    for i := 0 to |xs|
      invariant |out| == i
      invariant forall k :: 0 <= k < i ==> out[k] == if xs[k] == skip then Skipping(skip) else Number(xs[k])
    {
      if xs[i] == skip {
        out := out + [Skipping(skip)];
        continue;
      }
      out := out + [Number(xs[i])];
    }
  }

  /** Over `range(1, 6)` skipping 3 the lines are 1, 2, the skip
      message, 4 and 5. */
  lemma ContinueLoopExample(xs: seq<int>, out: seq<Line>)
    requires xs == Range(1, 6, 1)
    requires |out| == |xs|
    requires forall i :: 0 <= i < |xs| ==> out[i] == if xs[i] == 3 then Skipping(3) else Number(xs[i])
    ensures out == [Number(1), Number(2), Skipping(3), Number(4), Number(5)]
  {
    RangeUnit(1, 6);
    assert out[0] == Number(1) && out[1] == Number(2) && out[2] == Skipping(3);
    assert out[3] == Number(4) && out[4] == Number(5);
  }

  /** The nested `for` loops over `range(1, n + 1)` (n is 3): the same
      table as the nested `while` loops. */
  method TableLoop(n: nat) returns (cells: seq<Cell>)
    ensures cells == Table(n, n)
  {
    cells := [];
    for i := 1 to n + 1
      invariant cells == Table(i - 1, n)
    {
      for j := 1 to n + 1
        invariant cells == Table(i - 1, n) + TableRow(i, n)[..j - 1]
      {
        assert TableRow(i, n)[..j] == TableRow(i, n)[..j - 1] + [Cell(i, j, i * j)];
        cells := cells + [Cell(i, j, i * j)];
      }
      assert TableRow(i, n)[..n] == TableRow(i, n);
    }
  }

  /** `[num ** 2 for num in numbers]`: the square of each number, in
      order. */
  method Squares(numbers: seq<int>) returns (squares: seq<int>)
    ensures |squares| == |numbers|
    ensures forall i :: 0 <= i < |numbers| ==> squares[i] == Functions.Square(numbers[i])
    ensures forall i :: 0 <= i < |numbers| ==> squares[i] >= 0
  {
    squares := [];
    for i := 0 to |numbers|
      invariant |squares| == i
      invariant forall k :: 0 <= k < i ==> squares[k] == Functions.Square(numbers[k])
    {
      squares := squares + [Functions.Square(numbers[i])];
    }
  }

  lemma SquaresExample(squares: seq<int>)
    requires |squares| == 5
    requires forall i :: 0 <= i < 5 ==> squares[i] == Functions.Square([1, 2, 3, 4, 5][i])
    ensures squares == [1, 4, 9, 16, 25]
  {
    assert squares[0] == 1 && squares[1] == 4 && squares[2] == 9;
    assert squares[3] == 16 && squares[4] == 25;
  }

  /** `sum(range(1, n + 1))` is `n(n + 1)/2`. */
  lemma {:induction false} GaussSum(n: nat)
    ensures 2 * Functions.Sum(Range(1, n + 1, 1)) == n * (n + 1)
    decreases n
  {
    if n > 0 {
      GaussSum(n - 1);
      UnitGrow(1, n);
      Functions.SumSnoc(Range(1, n, 1), n);
      assert (n - 1) * n + 2 * n == n * (n + 1);
    }
  }

  /** `total = sum(list(range(1, n + 1)))` as a running total. */
  method SumRange(n: nat) returns (total: int)
    ensures total == Functions.Sum(Range(1, n + 1, 1))
    ensures 2 * total == n * (n + 1)
  {
    total := 0;
    for i := 1 to n + 1
      invariant total == Functions.Sum(Range(1, i, 1))
    {
      UnitGrow(1, i);
      Functions.SumSnoc(Range(1, i, 1), i);
      total := total + i;
    }
    GaussSum(n);
  }

  /** The tutorial's million: 500000500000. */
  lemma MillionSum()
    ensures Functions.Sum(Range(1, 1000000 + 1, 1)) == 500000500000
  {
    GaussSum(1000000);
  }

  // ---------------------------------------------------------------
  // The tutorial's runs of the loops above.
  // ---------------------------------------------------------------

  /** `for num in range(1, 10)` breaking at 5 prints 1 to 4. */
  method TutorialBreak() returns (printed: seq<int>)
    ensures printed == [1, 2, 3, 4]
  {
    RangeUnit(1, 10);
    var xs := Range(1, 10, 1);
    assert xs[4] == 5;
    var broke;
    printed, broke := BreakLoop(xs, 5);
    BreakLoopExample(printed);
  }

  /** `for num in range(1, 6)` skipping 3. */
  method TutorialContinue() returns (out: seq<Line>)
    ensures out == [Number(1), Number(2), Skipping(3), Number(4), Number(5)]
  {
    out := ContinueLoop(Range(1, 6, 1), 3);
    ContinueLoopExample(Range(1, 6, 1), out);
  }

  /** The squares of `[1, 2, 3, 4, 5]`. */
  method TutorialSquares() returns (squares: seq<int>)
    ensures squares == [1, 4, 9, 16, 25]
  {
    squares := Squares([1, 2, 3, 4, 5]);
    SquaresExample(squares);
  }

  /** `sum(range(1, 1000001))` by the running total. */
  method TutorialSum() returns (total: int)
    ensures total == 500000500000
  {
    total := SumRange(1000000);
  }
}
