/**
  The integer helpers of Python/12_Functions.py: `factorial`,
  `calculate_area_and_perimeter`, `sum_numbers` (over `*args`), `square`,
  `multiply`, and the greeting with a default argument.
 */
module Functions {
  import opened Wrappers

  // ---------------------------------------------------------------
  // factorial
  // ---------------------------------------------------------------

  /** `factorial` exactly as written: the only base case is `n == 1`, so
      from any `n < 1` the recursion walks down forever (Python stops it
      with `RecursionError`). Each call spends one unit of `fuel`; `None`
      means the fuel ran out before the base case was reached. */
  function FactorialAsWritten(n: int, fuel: nat): (r: Option<int>)
    ensures r.Some? ==> n >= 1
    decreases fuel
  {
    if fuel == 0 then None
    else if n == 1 then Some(1)
    else
      match FactorialAsWritten(n - 1, fuel - 1)
      case None => None
      case Some(f) => Some(n * f)
  }

  /** No amount of fuel is enough below 1: `factorial(0)` and every
      negative argument never return. */
  lemma {:induction false} FactorialAsWrittenDiverges(n: int, fuel: nat)
    requires n < 1
    ensures FactorialAsWritten(n, fuel) == None
    decreases fuel
  {
    if fuel > 0 {
      FactorialAsWrittenDiverges(n - 1, fuel - 1);
    }
  }

  /** The factorial the function is evidently meant to compute, with the
      customary `0! = 1` base case; it is total on the naturals. */
  function Factorial(n: nat): (r: nat)
    ensures r >= 1
    ensures r >= n
    decreases n
  {
    if n == 0 then 1 else n * Factorial(n - 1)
  }

  /** On the inputs it handles (`n >= 1`), the function as written agrees
      with the corrected one, and `n` calls are enough. */
  lemma {:induction false} FactorialAsWrittenAgrees(n: int, fuel: nat)
    requires n >= 1 && fuel >= n
    ensures FactorialAsWritten(n, fuel) == Some(Factorial(n))
    decreases n
  {
    if n > 1 {
      FactorialAsWrittenAgrees(n - 1, fuel - 1);
    }
  }

  /** `n!` is a multiple of every number from 1 to `n`: the lemma
      returns the cofactor. */
  lemma {:induction false} FactorialDivisible(n: nat, k: nat) returns (q: nat)
    requires 1 <= k <= n
    ensures Factorial(n) == k * q
    decreases n
  {
    if k == n {
      q := Factorial(n - 1);
    } else {
      var q' := FactorialDivisible(n - 1, k);
      q := n * q';
      calc {
        Factorial(n);
        n * Factorial(n - 1);
        n * (k * q');
        { MulSwap(n, k, q'); }
        k * (n * q');
      }
    }
  }

  lemma MulSwap(a: int, b: int, c: int)
    ensures a * (b * c) == b * (a * c)
  {
  }

  lemma FactorialExample()
    ensures Factorial(5) == 120
    ensures FactorialAsWritten(5, 5) == Some(120)
  {
    FactorialAsWrittenAgrees(5, 5);
  }

  // ---------------------------------------------------------------
  // calculate_area_and_perimeter
  // ---------------------------------------------------------------

  /** `(length * width, 2 * (length + width))`. Whatever the sides, the
      area is at most a sixteenth of the squared perimeter, with equality
      exactly for a square. */
  function AreaAndPerimeter(length: int, width: int): (r: (int, int))
    ensures 16 * r.0 <= r.1 * r.1
    ensures 16 * r.0 == r.1 * r.1 <==> length == width
  {
    var area := length * width;
    var perimeter := 2 * (length + width);
    SquareGap(length, width);
    (area, perimeter)
  }

  /** `(2(l + w))^2 - 16lw = 4(l - w)^2`. */
  lemma SquareGap(l: int, w: int)
    ensures (2 * (l + w)) * (2 * (l + w)) - 16 * (l * w) == 4 * ((l - w) * (l - w))
    ensures (l - w) * (l - w) == 0 <==> l == w
    ensures (l - w) * (l - w) >= 0
  {
    var d := l - w;
    if d != 0 {
      assert d * d > 0 by {
        if d < 0 {
          assert d * d == (-d) * (-d);
        }
      }
    }
  }

  /** Swapping length and width changes neither result. */
  lemma AreaAndPerimeterSymmetric(length: int, width: int)
    ensures AreaAndPerimeter(length, width) == AreaAndPerimeter(width, length)
  {
    assert length * width == width * length;
  }

  lemma AreaAndPerimeterExample()
    ensures AreaAndPerimeter(5, 3) == (15, 16)
  {
  }

  // ---------------------------------------------------------------
  // sum_numbers
  // ---------------------------------------------------------------

  /** `sum(args)`: the arguments added left to right, starting from 0. */
  function Sum(args: seq<int>): int
    decreases |args|
  {
    if |args| == 0 then 0 else Sum(args[..|args| - 1]) + args[|args| - 1]
  }

  /** One more argument adds exactly its value. */
  lemma SumSnoc(args: seq<int>, x: int)
    ensures Sum(args + [x]) == Sum(args) + x
  {
    assert (args + [x])[..|args|] == args;
  }

  /** Summing two argument lists one after the other is summing each. */
  lemma {:induction false} SumConcat(a: seq<int>, b: seq<int>)
    ensures Sum(a + b) == Sum(a) + Sum(b)
    decreases |b|
  {
    if |b| == 0 {
      assert a + b == a;
    } else {
      assert (a + b)[..|a + b| - 1] == a + b[..|b| - 1];
      SumConcat(a, b[..|b| - 1]);
    }
  }

  /** Non-negative arguments give a sum at least as large as any one of
      them. */
  lemma {:induction false} SumBoundsEach(args: seq<int>, i: nat)
    requires forall j :: 0 <= j < |args| ==> args[j] >= 0
    requires i < |args|
    ensures Sum(args) >= args[i]
    decreases |args|
  {
    if i < |args| - 1 {
      SumBoundsEach(args[..|args| - 1], i);
    } else {
      SumNonNegative(args[..|args| - 1]);
    }
  }

  lemma {:induction false} SumNonNegative(args: seq<int>)
    requires forall j :: 0 <= j < |args| ==> args[j] >= 0
    ensures Sum(args) >= 0
    decreases |args|
  {
    if |args| > 0 {
      SumNonNegative(args[..|args| - 1]);
    }
  }

  /** `sum_numbers(*args)` as an accumulating loop over the arguments. */
  method SumNumbers(args: seq<int>) returns (total: int)
    ensures total == Sum(args)
  {
    total := 0;
    var i := 0;
    while i < |args|
      invariant 0 <= i <= |args|
      invariant total == Sum(args[..i])
    {
      assert args[..i + 1][..i] == args[..i];
      total := total + args[i];
      i := i + 1;
    }
    assert args[..|args|] == args;
  }

  lemma SumExample()
    ensures Sum([1, 2, 3, 4, 5]) == 15
  {
    assert [1, 2, 3, 4, 5][..4] == [1, 2, 3, 4];
    assert [1, 2, 3, 4][..3] == [1, 2, 3];
    assert [1, 2, 3][..2] == [1, 2];
    assert [1, 2][..1] == [1];
    assert [1][..0] == [];
  }

  // ---------------------------------------------------------------
  // square and multiply
  // ---------------------------------------------------------------

  /** `a * b` on Python's unbounded integers; the product is non-negative
      exactly when the factors do not have strictly opposite signs. */
  function Multiply(a: int, b: int): (r: int)
    ensures r >= 0 <==> (a >= 0 && b >= 0) || (a <= 0 && b <= 0) || a == 0 || b == 0
    ensures r == 0 <==> a == 0 || b == 0
  {
    SignOfProduct(a, b);
    a * b
  }

  lemma SignOfProduct(a: int, b: int)
    ensures a > 0 && b > 0 ==> a * b > 0
    ensures a < 0 && b < 0 ==> a * b > 0
    ensures a > 0 && b < 0 ==> a * b < 0
    ensures a < 0 && b > 0 ==> a * b < 0
  {
    if a < 0 && b < 0 {
      assert a * b == (-a) * (-b);
    } else if a > 0 && b < 0 {
      assert a * b == -(a * (-b));
    } else if a < 0 && b > 0 {
      assert a * b == -((-a) * b);
    }
  }

  /** `number ** 2`: never negative, and zero only for zero. */
  function Square(n: int): (r: int)
    ensures r >= 0
    ensures r == 0 <==> n == 0
  {
    SignOfProduct(n, n);
    n * n
  }

  /** Squaring is multiplying a number by itself. */
  lemma SquareIsMultiply(n: int)
    ensures Square(n) == Multiply(n, n)
  {
  }

  lemma SquareMultiplyExamples()
    ensures Square(4) == 16
    ensures Multiply(3, 7) == 21
  {
  }

  // ---------------------------------------------------------------
  // greet_with_default
  // ---------------------------------------------------------------

  const DefaultName := "Guest"

  /** The line `greet_with_default(name="Guest")` prints: the name framed
      by "Hello, " and "!". */
  function GreetWithDefault(name: string := DefaultName): (r: string)
    ensures |r| == |name| + 8
    ensures r[..7] == "Hello, " && r[|r| - 1] == '!'
    ensures r[7..|r| - 1] == name
  {
    "Hello, " + name + "!"
  }

  /** Different names give different greetings: the name can be read back
      from the line. */
  lemma GreetingInjective(a: string, b: string)
    requires GreetWithDefault(a) == GreetWithDefault(b)
    ensures a == b
  {
    assert a == GreetWithDefault(a)[7..|GreetWithDefault(a)| - 1];
  }

  lemma GreetExamples()
    ensures GreetWithDefault() == "Hello, Guest!"
    ensures GreetWithDefault("Bob") == "Hello, Bob!"
  {
  }
}
