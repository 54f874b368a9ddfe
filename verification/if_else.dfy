/**
  The decision chains of Python/9_If_Else.py: the adult check, the grade
  chain, the nested positive/parity test, the picnic condition, the
  password comparison, the tax bracket and the voting prompt.
 */
module IfElse {
  import opened Wrappers
  import opened IntText
  import TryExcept

  // ---------------------------------------------------------------
  // Adulthood and voting.
  // ---------------------------------------------------------------

  const AdultAge := 18

  /** `age >= 18`, the test both the adult message and the voting prompt
      use. */
  predicate IsAdult(age: int) {
    age >= AdultAge
  }

  /** The adult test agrees with `check_age`'s adult outcome, and a minor
      for it is exactly a non-adult who is not negative. */
  lemma AdultMatchesCheckAge(age: int)
    ensures IsAdult(age) <==> TryExcept.CheckAge(age).Adult?
    ensures !IsAdult(age) && age >= 0 <==> TryExcept.CheckAge(age).Minor?
  {
  }

  const Eligible := "You are eligible to vote."
  const NotEligible := "You are not eligible to vote."
  const NotNumeric := "Invalid input! Please enter a numeric value."

  /** The voting prompt: non-numeric text reaches the `ValueError`
      handler; a number is eligible exactly from 18 on. */
  function VoteScript(line: string): (out: string)
    ensures out == NotNumeric <==> ParseInt(line).None?
    ensures out == Eligible <==> ParseInt(line).Some? && IsAdult(ParseInt(line).value)
    ensures out == NotEligible <==> ParseInt(line).Some? && !IsAdult(ParseInt(line).value)
  {
    match ParseInt(line)
    case None => NotNumeric
    case Some(age) => if age >= 18 then Eligible else NotEligible
  }

  /** Typing an age decides eligibility by the age alone; 18 is the first
      eligible age. */
  lemma VoteTyped(n: int)
    ensures VoteScript(Show(n)) == (if n >= 18 then Eligible else NotEligible)
  {
    ShowParse(n);
  }

  // ---------------------------------------------------------------
  // Grades.
  // ---------------------------------------------------------------

  datatype Grade = A | B | C | F

  /** The `if`/`elif` chain on `marks`: each branch is reached only when
      the ones above failed, so each grade owns a half-open band. */
  function GradeOf(marks: int): (g: Grade)
    ensures g == A <==> marks >= 90
    ensures g == B <==> 80 <= marks < 90
    ensures g == C <==> 70 <= marks < 80
    ensures g == F <==> marks < 70
  {
    if marks >= 90 then A
    else if marks >= 80 then B
    else if marks >= 70 then C
    else F
  }

  function GradeRank(g: Grade): nat {
    match g
    case F => 0
    case C => 1
    case B => 2
    case A => 3
  }

  /** More marks never give a lower grade. */
  lemma GradeMonotone(m1: int, m2: int)
    requires m1 <= m2
    ensures GradeRank(GradeOf(m1)) <= GradeRank(GradeOf(m2))
  {
  }

  lemma GradeExample()
    ensures GradeOf(85) == B
    ensures GradeOf(90) == A && GradeOf(80) == B && GradeOf(70) == C && GradeOf(69) == F
  {
  }

  // ---------------------------------------------------------------
  // Positive and parity.
  // ---------------------------------------------------------------

  datatype NumberKind = PositiveEven | PositiveOdd | NotPositive

  /** The nested test: the parity question is only asked of positive
      numbers. */
  function KindOf(num: int): (k: NumberKind)
    ensures k == PositiveEven <==> num > 0 && num % 2 == 0
    ensures k == PositiveOdd <==> num > 0 && num % 2 == 1
    ensures k == NotPositive <==> num <= 0
  {
    if num > 0 then
      if num % 2 == 0 then PositiveEven else PositiveOdd
    else NotPositive
  }

  /** The wording the nested test prints after the number. */
  function KindText(k: NumberKind): string {
    match k
    case PositiveEven => " is a positive even number."
    case PositiveOdd => " is a positive odd number."
    case NotPositive => " is not a positive number."
  }

  /** The three wordings are pairwise different. */
  lemma KindTextInjective(k1: NumberKind, k2: NumberKind)
    ensures KindText(k1) == KindText(k2) <==> k1 == k2
  {
    var even, odd, not := KindText(PositiveEven), KindText(PositiveOdd), KindText(NotPositive);
    assert |even| != |odd|;
    assert even[5] != not[5];
    assert odd[5] != not[5];
  }

  /** The line the nested test prints: the number, then the wording of
      its kind. */
  function KindMessage(num: int): (r: string)
    ensures |r| > |Show(num)| && r[..|Show(num)|] == Show(num)
    ensures r[|Show(num)|..] == KindText(KindOf(num))
  {
    Show(num) + KindText(KindOf(num))
  }

  /** The text after the number tells the kind apart: two numbers get the
      same wording exactly when they are of the same kind. */
  lemma KindMessageTells(a: int, b: int)
    ensures KindMessage(a)[|Show(a)|..] == KindMessage(b)[|Show(b)|..] <==> KindOf(a) == KindOf(b)
  {
    KindTextInjective(KindOf(a), KindOf(b));
  }

  /** Adding two to a positive number keeps its kind; and the next number
      up has the other parity. */
  lemma KindPeriodic(num: int)
    requires num > 0
    ensures KindOf(num + 2) == KindOf(num)
    ensures KindOf(num + 1) != KindOf(num)
  {
  }

  lemma KindExample()
    ensures KindOf(15) == PositiveOdd
  {
  }

  // ---------------------------------------------------------------
  // Picnic.
  // ---------------------------------------------------------------

  /** `temperature > 20 and not is_raining`. */
  predicate Picnic(temperature: int, raining: bool) {
    temperature > 20 && !raining
  }

  /** Rain always cancels, and a warmer dry day is never worse. */
  lemma PicnicMonotone(t1: int, t2: int, raining: bool)
    ensures raining ==> !Picnic(t2, raining)
    ensures t1 <= t2 && Picnic(t1, raining) ==> Picnic(t2, raining)
  {
  }

  // ---------------------------------------------------------------
  // Password check.
  // ---------------------------------------------------------------

  const StoredPassword := "secure123"
  const AccessGranted := "Access granted."
  const AccessDenied := "Access denied."

  /** Access is granted exactly for the stored password. */
  function AccessMessage(entered: string, password: string): (r: string)
    ensures r == AccessGranted <==> entered == password
    ensures r == AccessDenied <==> entered != password
  {
    if entered == password then AccessGranted else AccessDenied
  }

  /** The tutorial enters the stored password and is let in; any other
      entry is refused. */
  lemma AccessExample(entered: string)
    requires entered != StoredPassword
    ensures AccessMessage("secure123", StoredPassword) == AccessGranted
    ensures AccessMessage(entered, StoredPassword) == AccessDenied
  {
  }

  // ---------------------------------------------------------------
  // Tax bracket.
  // ---------------------------------------------------------------

  /** The tax rate as a whole percentage (the source multiplies a float
      rate by 100 when printing). Both thresholds are strict. */
  function TaxPercent(income: int): (p: int)
    ensures p == 30 <==> income > 100000
    ensures p == 20 <==> 50000 < income <= 100000
    ensures p == 10 <==> income <= 50000
  {
    if income > 100000 then 30
    else if income > 50000 then 20
    else 10
  }

  /** A higher income never falls into a lower bracket. */
  lemma TaxMonotone(i1: int, i2: int)
    requires i1 <= i2
    ensures TaxPercent(i1) <= TaxPercent(i2)
  {
  }

  lemma TaxExample()
    ensures TaxPercent(50000) == 10
    ensures TaxPercent(50001) == 20 && TaxPercent(100000) == 20 && TaxPercent(100001) == 30
  {
  }
}
