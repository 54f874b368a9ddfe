/**
  The retry-until-valid loops: the score prompt of Python/16_Input.py and
  the password prompt of Python/10_While_Loop.py. Both read one line per
  iteration, print one diagnostic for each rejected line and stop at the
  first accepted one. The console is replaced by a finite list of lines;
  when none of them is accepted the loop is still prompting when the list
  runs out (the source has no end-of-input handling and no retry bound).
 */
module InputLoops {
  import opened Wrappers
  import opened IntText

  /** What one iteration decides about the line it read. */
  datatype Verdict<T> = Accept(value: T) | Reject(diagnostic: string)

  /** Where the loop stands after the lines it was given: it accepted the
      line at `index`, or it is still waiting for an acceptable line. */
  datatype Run<T> =
    | Accepted(value: T, index: nat, diagnostics: seq<string>)
    | Prompting(diagnostics: seq<string>)

  /** The shared loop: the first accepted line wins, and every line before
      it contributes exactly its own diagnostic, in order. */
  function RetryLoop<T>(check: string -> Verdict<T>, lines: seq<string>): (r: Run<T>)
    ensures r.Accepted? <==> exists i :: 0 <= i < |lines| && check(lines[i]).Accept?
    ensures r.Accepted? ==> r.index < |lines| && check(lines[r.index]) == Accept(r.value)
    ensures r.Accepted? ==> |r.diagnostics| == r.index
    ensures r.Prompting? ==> |r.diagnostics| == |lines|
    ensures forall j :: 0 <= j < |r.diagnostics| ==> check(lines[j]) == Reject(r.diagnostics[j])
    decreases |lines|
  {
    if |lines| == 0 then Prompting([])
    else
      match check(lines[0])
      case Accept(v) => Accepted(v, 0, [])
      case Reject(d) =>
        match RetryLoop(check, lines[1..])
        case Accepted(v, i, ds) => Accepted(v, i + 1, [d] + ds)
        case Prompting(ds) => Prompting([d] + ds)
  }

  /** Once a line is accepted the loop has ended: whatever would have been
      typed afterwards is never read. */
  lemma {:induction false} LaterLinesUnread<T>(check: string -> Verdict<T>, lines: seq<string>, more: seq<string>)
    requires RetryLoop(check, lines).Accepted?
    ensures RetryLoop(check, lines + more) == RetryLoop(check, lines)
    decreases |lines|
  {
    assert (lines + more)[0] == lines[0];
    if check(lines[0]).Reject? {
      assert (lines + more)[1..] == lines[1..] + more;
      LaterLinesUnread(check, lines[1..], more);
    }
  }

  /** While the loop is still prompting, the next line is handled exactly
      as if it were the first: one more line is one more iteration. */
  lemma {:induction false} NextLine<T>(check: string -> Verdict<T>, lines: seq<string>, line: string)
    requires RetryLoop(check, lines).Prompting?
    ensures var ds := RetryLoop(check, lines).diagnostics;
      RetryLoop(check, lines + [line]) ==
        match check(line)
        case Accept(v) => Accepted(v, |lines|, ds)
        case Reject(d) => Prompting(ds + [d])
    decreases |lines|
  {
    if |lines| == 0 {
      assert lines + [line] == [line];
    } else {
      assert (lines + [line])[0] == lines[0];
      assert (lines + [line])[1..] == lines[1..] + [line];
      NextLine(check, lines[1..], line);
    }
  }

  // ---------------------------------------------------------------
  // The score prompt: an integer between 0 and 100, both inclusive.
  // ---------------------------------------------------------------

  const ScoreTypeError := "Error: Please enter a valid integer."
  const ScoreRangeError := "Error: Score must be between 0 and 100."

  predicate InScoreRange(score: int) {
    0 <= score <= 100
  }

  /** The text converts to an integer and that integer is a valid score. */
  predicate ValidScore(line: string) {
    ParseInt(line).Some? && InScoreRange(ParseInt(line).value)
  }

  function ScoreCheck(line: string): Verdict<int> {
    match ParseInt(line)
    case None => Reject(ScoreTypeError)
    case Some(score) =>
      if 0 <= score <= 100 then Accept(score) else Reject(ScoreRangeError)
  }

  /** The score loop accepts the first line that is a valid score, and
      only such a line; every earlier line earns exactly one diagnostic,
      chosen by why it failed. */
  function ScoreLoop(lines: seq<string>): (r: Run<int>)
    ensures r.Accepted? <==> exists i :: 0 <= i < |lines| && ValidScore(lines[i])
    ensures r.Accepted? ==> r.index < |lines| && ParseInt(lines[r.index]) == Some(r.value)
    ensures r.Accepted? ==> 0 <= r.value <= 100
    ensures r.Accepted? ==> |r.diagnostics| == r.index
    ensures r.Prompting? ==> |r.diagnostics| == |lines|
    ensures forall j :: 0 <= j < |r.diagnostics| ==>
      if ParseInt(lines[j]).None? then r.diagnostics[j] == ScoreTypeError
      else !InScoreRange(ParseInt(lines[j]).value) && r.diagnostics[j] == ScoreRangeError
  {
    var r := RetryLoop(ScoreCheck, lines);
    assert forall i :: 0 <= i < |lines| ==> (ScoreCheck(lines[i]).Accept? <==> ValidScore(lines[i]));
    r
  }

  /** The lines the score loop prints: one per line it read, the last
      being the confirmation when a score was accepted. */
  function ScoreOutput(lines: seq<string>): (out: seq<string>)
    ensures var r := ScoreLoop(lines);
      && (r.Accepted? ==> |out| == r.index + 1 && out[r.index] == "Your score is " + Show(r.value) + ".")
      && (r.Prompting? ==> |out| == |lines|)
      && out[..|r.diagnostics|] == r.diagnostics
  {
    match ScoreLoop(lines)
    case Accepted(v, _, ds) => ds + ["Your score is " + Show(v) + "."]
    case Prompting(ds) => ds
  }

  /** Both bounds are inclusive and nothing outside them is accepted: a
      single typed integer is accepted exactly when it lies in [0, 100]. */
  lemma ScoreBounds(n: int)
    ensures ScoreLoop([Show(n)]).Accepted? <==> 0 <= n <= 100
    ensures 0 <= n <= 100 ==> ScoreLoop([Show(n)]) == Accepted(n, 0, [])
    ensures n < 0 || n > 100 ==> ScoreLoop([Show(n)]) == Prompting([ScoreRangeError])
  {
    ShowParse(n);
  }

  /** The tutorial's session: "105" is out of range, "abc" is not a
      number, "85" is accepted on the third attempt. */
  lemma ScoreSession(lines: seq<string>)
    requires lines == ["105", "abc", "85"]
    ensures ScoreLoop(lines) == Accepted(85, 2, [ScoreRangeError, ScoreTypeError])
  {
    var a, b, c := lines[0], lines[1], lines[2];
    assert ScoreCheck(a) == Reject(ScoreRangeError) && ScoreCheck(b) == Reject(ScoreTypeError)
        && ScoreCheck(c) == Accept(85) by {
      ParseRejectsExamples();
      ParseAcceptsExamples();
    }
    assert lines == [a, b, c];
    ThreeAttempts(ScoreCheck, a, b, c, 85, ScoreRangeError, ScoreTypeError);
  }

  /** Two rejected attempts, then an accepted one. */
  lemma ThreeAttempts<T>(check: string -> Verdict<T>, a: string, b: string, c: string, v: T, d1: string, d2: string)
    requires check(a) == Reject(d1) && check(b) == Reject(d2) && check(c) == Accept(v)
    ensures RetryLoop(check, [a, b, c]) == Accepted(v, 2, [d1, d2])
  {
    var abc := [a, b, c];
    assert abc[1..] == [b, c] && abc[1..][1..] == [c];
    assert RetryLoop(check, [c]) == Accepted(v, 0, []);
    assert RetryLoop(check, [b, c]) == Accepted(v, 1, [d2]);
  }

  // ---------------------------------------------------------------
  // The password prompt: exact match with the stored password.
  // ---------------------------------------------------------------

  const Password := "python123"
  const WrongPassword := "Incorrect password. Try again."
  const PasswordAccepted := "Access granted!"

  function PasswordCheck(line: string): Verdict<string> {
    if line == Password then Accept(line) else Reject(WrongPassword)
  }

  /** The password loop stops at the first line equal to the password,
      printing one "try again" line for each earlier attempt. */
  function PasswordLoop(lines: seq<string>): (r: Run<string>)
    ensures r.Accepted? <==> Password in lines
    ensures r.Accepted? ==> r.index < |lines| && lines[r.index] == Password && r.value == Password
    ensures r.Accepted? ==> Password !in lines[..r.index]
    ensures r.Accepted? ==> |r.diagnostics| == r.index
    ensures r.Prompting? ==> |r.diagnostics| == |lines|
    ensures forall j :: 0 <= j < |r.diagnostics| ==> r.diagnostics[j] == WrongPassword
  {
    var r := RetryLoop(PasswordCheck, lines);
    assert Password in lines ==> exists i :: 0 <= i < |lines| && PasswordCheck(lines[i]).Accept?;
    assert r.Accepted? ==> forall j :: 0 <= j < r.index ==> lines[..r.index][j] != Password;
    r
  }

  /** The lines the password loop prints, one per attempt. */
  function PasswordOutput(lines: seq<string>): (out: seq<string>)
    ensures Password in lines ==> |out| == PasswordLoop(lines).index + 1 && out[|out| - 1] == PasswordAccepted
    ensures Password !in lines ==> |out| == |lines|
    ensures forall j :: 0 <= j < |out| ==> (out[j] == PasswordAccepted <==> lines[j] == Password)
    ensures forall j :: 0 <= j < |out| ==> out[j] == (if lines[j] == Password then PasswordAccepted else WrongPassword)
  {
    match PasswordLoop(lines)
    case Accepted(_, _, ds) => ds + [PasswordAccepted]
    case Prompting(ds) => ds
  }

  /** A wrong guess, then the password: one "try again" line and then
      access. */
  lemma PasswordSession(lines: seq<string>)
    requires lines == ["secret", Password]
    ensures PasswordLoop(lines) == Accepted(Password, 1, [WrongPassword])
    ensures PasswordOutput(lines) == [WrongPassword, PasswordAccepted]
  {
    assert lines[0] != Password;
    assert Password in lines;
  }
}
