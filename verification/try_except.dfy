/**
  The exception routing of Python/15_Try_Except.py, with each raised
  exception turned into a tagged outcome: `check_age` and its caller, and
  the `int(input)` then `100 / value` blocks with their `except`, `else`
  and `finally` clauses.
 */
module TryExcept {
  import opened Wrappers
  import opened IntText

  // ---------------------------------------------------------------
  // check_age and the script around it.
  // ---------------------------------------------------------------

  const NegativeAge := "Age cannot be negative."
  const MinorMessage := "Minor: Access restricted."
  const AdultMessage := "Adult: Access granted."
  const AgeNotANumber := "Error: Age must be a valid number."

  /** What `check_age` does: raise `InvalidAgeError` with its message, or
      print one of the two access lines. */
  datatype AgeOutcome = InvalidAge(message: string) | Minor | Adult

  /** `check_age(age)`: the three outcomes split the integers at 0 and 18. */
  function CheckAge(age: int): (r: AgeOutcome)
    ensures r.InvalidAge? <==> age < 0
    ensures r.Minor? <==> 0 <= age < 18
    ensures r.Adult? <==> age >= 18
    ensures r.InvalidAge? ==> r.message == NegativeAge
  {
    if age < 0 then InvalidAge(NegativeAge)
    else if age < 18 then Minor
    else Adult
  }

  /** Position of an outcome along the age line. */
  function AgeRank(o: AgeOutcome): nat {
    match o
    case InvalidAge(_) => 0
    case Minor => 1
    case Adult => 2
  }

  /** An older person never gets an outcome lower down the line: the
      classification is monotone in the age. */
  lemma CheckAgeMonotone(a: int, b: int)
    requires a <= b
    ensures AgeRank(CheckAge(a)) <= AgeRank(CheckAge(b))
  {
  }

  /** The line the age script prints once `int()` has succeeded. */
  function AgeLine(o: AgeOutcome): string {
    match o
    case InvalidAge(m) => "InvalidAgeError: " + m
    case Minor => MinorMessage
    case Adult => AdultMessage
  }

  /** The `try` block around `check_age(int(input()))`: text that is not
      an integer reaches the `ValueError` handler, which is distinct from
      the `InvalidAgeError` handler a negative number reaches. */
  function AgeScript(line: string): (out: string)
    ensures out == AgeNotANumber <==> ParseInt(line).None?
    ensures out == "InvalidAgeError: " + NegativeAge <==> ParseInt(line).Some? && ParseInt(line).value < 0
    ensures out == MinorMessage <==> ParseInt(line).Some? && 0 <= ParseInt(line).value < 18
    ensures out == AdultMessage <==> ParseInt(line).Some? && ParseInt(line).value >= 18
  {
    match ParseInt(line)
    case None => AgeNotANumber
    case Some(age) => AgeLine(CheckAge(age))
  }

  /** Typing an age routes it through `check_age`, whatever the age. */
  lemma AgeScriptTyped(n: int)
    ensures AgeScript(Show(n)) == AgeLine(CheckAge(n))
  {
    ShowParse(n);
  }

  /** The tutorial's suggestions: -5 is refused, 17 is a minor, and "abc"
      is not a number. */
  lemma AgeScriptExamples()
    ensures AgeScript("-5") == "InvalidAgeError: " + NegativeAge
    ensures AgeScript("abc") == AgeNotANumber
    ensures AgeScript("17") == MinorMessage
  {
    ShowExamples();
    assert Show(17) == "17";
    AgeScriptTyped(-5);
    AgeScriptTyped(17);
    ParseRejectsExamples();
  }

  // ---------------------------------------------------------------
  // int(input()) followed by 100 / value.
  // ---------------------------------------------------------------

  const NotANumberMessage := "Error: Input must be a valid number."
  const ZeroMessage := "Error: Cannot divide by zero."
  const FinallyMessage := "Execution of finally block. Always runs."

  /** Which clause runs after the `try` body: the `ValueError` handler,
      the `ZeroDivisionError` handler, or `else` with the divisor. */
  datatype Division = NotANumber | DivideByZero | Quotient(divisor: int)

  function Divide(line: string): (r: Division)
    ensures r.NotANumber? <==> ParseInt(line).None?
    ensures r.DivideByZero? <==> ParseInt(line) == Some(0)
    ensures r.Quotient? <==> ParseInt(line).Some? && ParseInt(line).value != 0
    ensures r.Quotient? ==> ParseInt(line) == Some(r.divisor)
  {
    match ParseInt(line)
    case None => NotANumber
    case Some(v) => if v == 0 then DivideByZero else Quotient(v)
  }

  /** One printed line: a fixed message, or the `else` clause's
      `f"Result: {100 / divisor}"`, whose floating-point text is not
      modelled. */
  datatype Printed = Message(text: string) | ResultLine(divisor: int)

  /** Everything the block prints, in order; `withFinally` selects the
      version with a `finally` clause. */
  function DivisionOutput(line: string, withFinally: bool): (out: seq<Printed>)
    ensures |out| == if withFinally then 2 else 1
    ensures withFinally ==> out[1] == Message(FinallyMessage)
    ensures out[0] == Message(NotANumberMessage) <==> ParseInt(line).None?
    ensures out[0] == Message(ZeroMessage) <==> ParseInt(line) == Some(0)
    ensures out[0].ResultLine? <==> ParseInt(line).Some? && ParseInt(line).value != 0
    ensures out[0].ResultLine? ==> ParseInt(line) == Some(out[0].divisor)
  {
    var first := match Divide(line)
      case NotANumber => Message(NotANumberMessage)
      case DivideByZero => Message(ZeroMessage)
      case Quotient(v) => ResultLine(v);
    if withFinally then [first, Message(FinallyMessage)] else [first]
  }

  /** The `finally` clause adds its line after whatever the rest printed,
      on every path, and changes nothing else. */
  lemma FinallyAlwaysRuns(line: string)
    ensures DivisionOutput(line, true) == DivisionOutput(line, false) + [Message(FinallyMessage)]
  {
  }

  /** The tutorial's suggestions: "abc" and 0. */
  lemma DivisionExamples()
    ensures DivisionOutput("abc", true) == [Message(NotANumberMessage), Message(FinallyMessage)]
    ensures DivisionOutput("0", false) == [Message(ZeroMessage)]
  {
    ParseRejectsExamples();
    assert ParseInt("0") == Some(0) by {
      assert Show(0) == "0";
      ShowParse(0);
    }
  }
}
