# Tutorial scripts: validated input, classifiers, a small dict and counted loops

This project models the pieces of user-written logic in the Python tutorial
scripts `Python/8_Dictionaries.py` to `Python/16_Input.py` (the input,
object, exception, function, dictionary, branching and loop lessons) as
Dafny definitions, and proves what the scripts and their comments promise
about them.

The model is built from these modules:

- `Wrappers`: `Option` and `Result`, which stand for a raised exception.
- `Text`: the string builtins the scripts call. `str.strip`, `str.lower` (ASCII letters) and `str.split` with no argument are modelled over Python's whitespace characters, together with a single-space join.
- `IntText`: `int()` on text and decimal formatting (`f"{n}"`).
  - `int()` is a simplified parser: whitespace at both ends, an optional sign, then ASCII digits. It returns `None` where Python raises `ValueError` on such text.
  - The whitespace `int()` skips is not quite the whitespace `str.strip()` removes. CPython keeps the ASCII separators U+001C..U+001F, so text holding one never converts, while `strip()` and `split()` treat them as whitespace. It has no digit limit: CPython 3.11 and later also raise `ValueError` for more than 4300 digits.
  - `ParseInt(Show(n)) == Some(n)` is proved for every integer. CPython 3.11 and later holds to this only below 4300 digits.
- `InputLoops`: the retry-until-valid loops, which are the score prompt and the password prompt.
  - The console becomes a finite list of typed lines.
  - The result is either the accepted value, the attempt it was accepted at and the diagnostics printed before it, or "still prompting" with every diagnostic so far.
- `InputConversions`: the yes/no answer, the age that defaults to 18, and the line of integers.
- `Oops`: `Car.describe`, the `BankAccount` state machine (deposit and guarded withdraw) and `Product`'s validating `price` setter.
  - Every method is a pure function from the old object to the new one, paired with the returned message.
  - A setter that raises returns the object unchanged together with the error.
- `TryExcept`: `check_age` and the script around it. It also covers the `int(input())` then `100 / value` blocks, with their `except`, `else` and `finally` clauses. Each raised exception is a tagged outcome.
- `Functions`: `factorial` (as written and corrected), `calculate_area_and_perimeter`, `sum_numbers`, `square`, `multiply` and `greet_with_default`.
- `Dictionaries`: an insertion-ordered `dict`.
  - It is a key order plus a map. Item assignment, `del`, `pop`, `in` and `get` with a default are modelled, with the "every key once" invariant.
  - The word-count loop is modelled both as a recursive function and as a method with a loop invariant.
- `IfElse`: the grade chain, the nested positive/parity test, the picnic condition, the password comparison, the tax bracket and the voting prompt.
- `Ranges`: Python's `range(start, stop, step)` and the multiplication table.
- `WhileLoops` and `ForLoops`: the counted loops with `break` and `continue`, the nested tables, `while True` with an exit test, the squares comprehension and the sum of 1 to 1,000,000.
  - These are imperative methods with loop invariants.
  - What each one prints is its sequence of numbers.

Where a comment in the scripts disagrees with the code, the model follows the code:

- The `break` loop of `Python/10_While_Loop.py:75-81` prints its number before testing it. It therefore prints 0 to 5, not the "0 ... 4" its comment gives; see `WhileLoops.TutorialBreak`, which runs the loop with bound 10 and target 5.
- The comment "Output: Grade: B" in `Python/9_If_Else.py:60` sits on the `A` line. The code gives `B` for 85, as `IfElse.GradeExample` states.

## Model

| member | source | states |
|---|---|---|
| InputLoops.RetryLoop | Python/16_Input.py:69-78 | A retry loop accepts exactly when some line is acceptable. It accepts the first such line, and each earlier line contributes exactly its own diagnostic, in order. |
| InputLoops.LaterLinesUnread | Python/16_Input.py:72-74 | After the `break`, lines typed later are never read. |
| InputLoops.NextLine | Python/16_Input.py:69-78 | While still prompting, one more line is exactly one more iteration. |
| InputLoops.ScoreLoop | Python/16_Input.py:69-78 | The loop accepts the first line that converts to an integer in [0, 100], and only such a line. Every earlier line gives "Please enter a valid integer." when it does not convert and "Score must be between 0 and 100." when it is out of range. There is one diagnostic per earlier line. |
| InputLoops.ScoreOutput | Python/16_Input.py:71-78 | The printed lines are the diagnostics, followed by "Your score is N." when a score was accepted. |
| InputLoops.ScoreBounds | Python/16_Input.py:72-76 | Both bounds are inclusive. A typed integer is accepted exactly when it lies in [0, 100], and gets the range error otherwise. This assumes `int()` has no digit limit; see `IntText.ParseInt` under Left out. |
| InputLoops.ScoreSession | Python/16_Input.py:71-73 | "105", "abc", "85" is accepted with 85 on the third attempt, after a range error and a type error. |
| InputLoops.PasswordLoop | Python/10_While_Loop.py:58-64 | The loop stops exactly at the first line equal to "python123". Every earlier attempt prints "Incorrect password. Try again.". |
| InputLoops.PasswordOutput | Python/10_While_Loop.py:61-64 | One line is printed per attempt. A line is "Access granted!" when its attempt is the password and "Incorrect password. Try again." otherwise, and printing stops after the first correct attempt. |
| InputLoops.PasswordSession | Python/10_While_Loop.py:58-64 | A wrong guess followed by the password prints one retry line and then access. |
| InputConversions.LikesPython | Python/16_Input.py:55-56 | The answer is true exactly when it is "yes" in any capitalisation once stripped. |
| InputConversions.LowerIsYes | Python/16_Input.py:55 | Lower-casing gives "yes" exactly for the eight capitalisations of "yes". |
| InputConversions.LikesPythonPadded | Python/16_Input.py:55-56 | Whitespace around the answer never changes the result. |
| InputConversions.DefaultAge | Python/16_Input.py:138-139 | Blank (after strip) gives 18. Otherwise the result is `int` of the stripped text, or the uncaught `ValueError` carrying that text. |
| InputConversions.DefaultAgeTyped | Python/16_Input.py:138-139 | Typing an age gives that age back. |
| InputConversions.DefaultAgeBlank | Python/16_Input.py:138-139 | An empty or all-whitespace answer gives 18. |
| InputConversions.ConvertAll | Python/16_Input.py:126 | If every token converts, the result holds one integer per token, in order. Otherwise it is the `ValueError` of the first token that does not convert. |
| InputConversions.SplitInts | Python/16_Input.py:125-126 | There is one integer per whitespace-separated token, in order. Otherwise the result is the `ValueError` of the first token that does not convert, every token before it having converted. |
| InputConversions.ConvertEach | Python/16_Input.py:126 | A list comprehension over a converter that may raise gives all results in order, or the error of the first token it rejects, with every earlier token accepted. |
| InputConversions.ConvertShown | Python/16_Input.py:126 | Converting the decimal texts of any list of integers gives the list back. |
| InputConversions.SplitIntsRoundTrip | Python/16_Input.py:125-127 | Any list of integers typed with single spaces reads back as the same list. |
| InputConversions.SplitIntsExample | Python/16_Input.py:125-127 | "10 20 30" gives [10, 20, 30]. |
| Text.Strip | Python/16_Input.py:55 | `strip()` leaves no whitespace at either end and never lengthens the text. |
| Text.TrimStart | Python/16_Input.py:108-109 | Leading whitespace and only leading whitespace is removed: the result is a suffix of the input, whatever was removed is whitespace, and the result does not begin with whitespace. |
| Text.TrimEnd | Python/16_Input.py:108-109 | Trailing whitespace and only trailing whitespace is removed: the result is a prefix of the input, the removed part is whitespace, and the result does not end with whitespace. |
| Text.StripFixed | Python/16_Input.py:108-109 | Text without whitespace at either end is a fixed point of `strip()`. |
| Text.StripRemovesOnlySpace | Python/16_Input.py:138 | `strip()` removes whitespace, and only from the two ends: the result is a contiguous slice of the input. |
| Text.StripPadding | Python/16_Input.py:138 | Whitespace padding around text without edge whitespace is removed exactly. |
| Text.Lower | Python/16_Input.py:55 | `lower()` keeps the length and leaves no ASCII capital in the result. Characters that are not capitals are unchanged, and each capital becomes the matching small letter. |
| Text.LowerIdempotent | Python/16_Input.py:55 | Lower-casing twice is the same as lower-casing once. |
| Text.Split | Python/16_Input.py:125 | `split()` yields only non-empty tokens without whitespace. Together with `SplitAtSpace`, `SplitKeepsContent` and `SplitJoin`, the tokens are exactly the maximal runs of non-whitespace. |
| Text.SplitAtSpace | Python/16_Input.py:125 | `split()` cuts at every whitespace character, so no token spans whitespace. The tokens of `a + c + b`, for a whitespace `c`, are those of `a` followed by those of `b`, however much whitespace there is. |
| Text.SplitJoin | Python/16_Input.py:125 | Splitting words joined by single spaces gives back the words. |
| Text.SplitKeepsContent | Python/16_Input.py:125 | `split()` keeps every non-whitespace character, in order. |
| IntText.ParseInt | Python/16_Input.py:71 | Text holding one of the ASCII separators U+001C..U+001F never converts. Any other text converts exactly when stripping its whitespace leaves an optionally signed ASCII numeral, and then to that numeral's value. |
| IntText.ParseNeedsDigit | Python/16_Input.py:77-78 | Text without a digit never converts. |
| IntText.ParseBlank | Python/15_Try_Except.py:79 | A blank line never converts. |
| IntText.Show | Python/16_Input.py:73 | The decimal text of an integer is one word, starting with '-' exactly for negatives. |
| IntText.ShowNat | Python/16_Input.py:73 | The decimal digits of a natural number read back as that number, with no leading zero except for 0 itself. |
| IntText.ShowParse | Python/16_Input.py:71-73 | `int(f"{n}") == n` for every integer. CPython 3.11 and later holds to this only below 4300 digits; see Left out. |
| IntText.ParsePadded | Python/16_Input.py:71 | Whitespace around the typed text does not change `int()`, unless it holds an ASCII separator (U+001C..U+001F), which makes the conversion fail. |
| IntText.ParseRejectsExamples | Python/16_Input.py:89-93 | "abc", "", "-" and "50" after a U+001C do not convert. |
| IntText.ShowExamples | Python/16_Input.py:73 | 85, 105 and -5 print as "85", "105" and "-5". |
| IntText.ParseAcceptsExamples | Python/16_Input.py:71-73 | "85", "105" and "-5" convert to 85, 105 and -5. |
| Oops.Describe | Python/14_OOPS.py:41-43 | The description is the year's text, a space, the make, a space and the model, each placed at its exact position. |
| Oops.DescribeFields | Python/14_OOPS.py:41-43 | With one-word make and model, the description splits back into year, make and model, and the year converts back. |
| Oops.DescribeExample | Python/14_OOPS.py:46-50 | Toyota Camry 2022 gives "2022 Toyota Camry". |
| Oops.Deposit | Python/14_OOPS.py:99-102 | `deposit(a)` raises the balance by exactly `a` and reports the new balance. |
| Oops.Withdraw | Python/14_OOPS.py:104-109 | Above the balance it returns "Insufficient funds." and leaves the account unchanged. Otherwise the balance drops by exactly the amount and stays non-negative. |
| Oops.DepositThenWithdraw | Python/14_OOPS.py:99-109 | Withdrawing what was just deposited restores a non-negative account. |
| Oops.WithdrawThenDeposit | Python/14_OOPS.py:99-109 | A successful withdrawal is undone by depositing the same amount. |
| Oops.BalanceStaysNonNegative | Python/14_OOPS.py:104-109 | From a non-negative balance, with non-negative deposits, any sequence of transactions keeps the balance non-negative and the owner unchanged. |
| Oops.AccountSession | Python/14_OOPS.py:95-114 | A new account (`Open`) keeps its owner and starts at 0 by default. The session goes 1000, then 1500 after depositing 500, then 1300 after withdrawing 200, and withdrawing 2000 is refused. |
| Oops.SetPrice | Python/14_OOPS.py:246-250 | A negative price raises "Price cannot be negative." and keeps the old price. Any other price is stored. |
| Oops.SetPriceLastWins | Python/14_OOPS.py:246-250 | A rejected assignment changes nothing, and an accepted one overrides everything before it. |
| Oops.Price | Python/14_OOPS.py:242-250 | The getter and the setter agree: assigning back the price just read is accepted and leaves the product unchanged whenever that price is valid. |
| Oops.GetAfterSet | Python/14_OOPS.py:242-250 | Reading back after an accepted assignment gives the value assigned. |
| Oops.ProductSession | Python/14_OOPS.py:252-256 | The price reads 1000, then 1200 after the update, and -500 is refused. |
| TryExcept.CheckAge | Python/15_Try_Except.py:129-135 | `InvalidAgeError` is raised exactly for age < 0, minor exactly for 0 <= age < 18, and adult exactly for age >= 18. The three outcomes are exclusive and cover all integers. |
| TryExcept.CheckAgeMonotone | Python/15_Try_Except.py:129-135 | An older age never gets an outcome lower down the line. |
| TryExcept.AgeScript | Python/15_Try_Except.py:137-143 | Non-numeric text reaches the `ValueError` handler, a distinct line from the `InvalidAgeError` handler that negatives reach. Each of the four printed lines is characterised. |
| TryExcept.AgeScriptTyped | Python/15_Try_Except.py:137-141 | Any typed integer is routed through `check_age`. |
| TryExcept.AgeScriptExamples | Python/15_Try_Except.py:138-143 | The script prints the `InvalidAgeError` line for "-5", the minor line for "17" and the `ValueError` line for "abc". |
| TryExcept.Divide | Python/15_Try_Except.py:78-84 | Non-integer text goes to the `ValueError` handler, 0 to the `ZeroDivisionError` handler, and only any other integer to `else`. |
| TryExcept.DivisionOutput | Python/15_Try_Except.py:78-111 | The printed lines of both blocks: one line chosen by the clause that ran, plus the `finally` line in the second block. |
| TryExcept.FinallyAlwaysRuns | Python/15_Try_Except.py:101-111 | The `finally` line is appended on every path and changes nothing else. |
| TryExcept.DivisionExamples | Python/15_Try_Except.py:79-80 | "abc" and "0" print their error lines. |
| Functions.FactorialAsWritten | Python/12_Functions.py:186-190 | The function exactly as written returns only for n >= 1. The recursion depth is unbounded here; see Left out for CPython's limit. |
| Functions.FactorialAsWrittenDiverges | Python/12_Functions.py:188-190 | For n < 1 no recursion depth reaches the base case. |
| Functions.Factorial | Python/12_Functions.py:186-190 | The corrected factorial is total on the naturals, at least 1 and at least n. |
| Functions.FactorialAsWrittenAgrees | Python/12_Functions.py:186-190 | For n >= 1 the function as written returns the corrected factorial after n calls. In CPython this holds only while n stays below the recursion limit; see Left out. |
| Functions.FactorialDivisible | Python/12_Functions.py:186-190 | n! is a multiple of every k in 1..n. |
| Functions.FactorialExample | Python/12_Functions.py:192 | factorial(5) is 120. |
| Functions.AreaAndPerimeter | Python/12_Functions.py:94-98 | 16 times the area is at most the perimeter squared, with equality exactly for a square. |
| Functions.AreaAndPerimeterSymmetric | Python/12_Functions.py:94-98 | Swapping length and width changes neither result. |
| Functions.AreaAndPerimeterExample | Python/12_Functions.py:100-101 | (5, 3) gives (15, 16). |
| Functions.SumConcat | Python/12_Functions.py:136-138 | The sum of two argument lists one after the other is the sum of the sums. |
| Functions.SumSnoc | Python/12_Functions.py:136-138 | One more argument adds exactly its value to the sum. |
| Functions.SumBoundsEach | Python/12_Functions.py:136-138 | With non-negative arguments the sum is at least each argument. |
| Functions.SumNumbers | Python/12_Functions.py:136-138 | An accumulating loop computes `sum(args)`. |
| Functions.SumExample | Python/12_Functions.py:140 | 1..5 gives 15. |
| Functions.Multiply | Python/12_Functions.py:231-233 | The product is non-negative exactly when the signs do not strictly differ, and zero exactly when a factor is zero. |
| Functions.Square | Python/12_Functions.py:87-89 | `n ** 2` is never negative, and zero only for 0. |
| Functions.SquareIsMultiply | Python/12_Functions.py:87-89 | Squaring is multiplying a number by itself. |
| Functions.SquareMultiplyExamples | Python/12_Functions.py:91 | square(4) is 16 and multiply(3, 7) is 21. |
| Functions.GreetingInjective | Python/12_Functions.py:65-67 | Different names give different greetings. |
| Functions.GreetExamples | Python/12_Functions.py:69-70 | No argument gives "Hello, Guest!", and "Bob" gives "Hello, Bob!". |
| Dictionaries.Empty | Python/8_Dictionaries.py:181 | `{}` is a valid dict with no keys. |
| Dictionaries.Get | Python/8_Dictionaries.py:131-132 | `get(k, d)` is the stored value when k is present, else d. |
| Dictionaries.Set | Python/8_Dictionaries.py:95-98 | An absent key is appended to the order. A present key keeps its place and gets the new value. Every other entry is unchanged, and the dict stays valid. |
| Dictionaries.RemoveKey | Python/8_Dictionaries.py:101-102 | Removing a key from the key order keeps exactly the other keys and never introduces duplicates. |
| Dictionaries.Del | Python/8_Dictionaries.py:101-102 | `del` removes the named key and nothing else, and raises `KeyError` exactly for a missing key. |
| Dictionaries.DelKeepsOrder | Python/8_Dictionaries.py:101-102 | The remaining keys keep their order. |
| Dictionaries.Pop | Python/8_Dictionaries.py:105-107 | `pop(k)` returns k's value and the dict with k deleted, or `KeyError` exactly for a missing key. |
| Dictionaries.SetThenDel | Python/8_Dictionaries.py:95-102 | Adding a new key and deleting it restores the dict. |
| Dictionaries.Distinct | Python/8_Dictionaries.py:181-184 | The distinct words in order of first appearance contain no duplicates and exactly the words. |
| Dictionaries.WordCount | Python/8_Dictionaries.py:180-184 | The counting loop gives a valid dict whose keys are the distinct words in first-appearance order and whose `get(w, 0)` is w's number of occurrences. |
| Dictionaries.CountStep | Python/8_Dictionaries.py:182-183 | One iteration keeps keys and counts in step with the words read so far. |
| Dictionaries.CountWords | Python/8_Dictionaries.py:180-184 | The imperative loop gives the same keys and counts. |
| Dictionaries.CountPositive | Python/8_Dictionaries.py:181-184 | A count is positive exactly for words that occur. |
| Dictionaries.Count | Python/8_Dictionaries.py:181-184 | No word occurs more often than there are words. |
| Dictionaries.WordCountPattern | Python/8_Dictionaries.py:180-184 | Any three distinct words in the tutorial's pattern are counted 3, 2 and 1, in first-appearance order. |
| Dictionaries.WordCountExample | Python/8_Dictionaries.py:180-184 | The result is apple: 3, banana: 2, orange: 1. |
| Dictionaries.InventoryPattern | Python/8_Dictionaries.py:95-107 | Adding, updating, deleting and popping three distinct keys follows the tutorial's walk-through. |
| Dictionaries.InventoryExample | Python/8_Dictionaries.py:95-107 | The dict goes through {apples: 20, oranges: 5, bananas: 15} and then {apples: 20, bananas: 15}, and `pop` gives 15 leaving {apples: 20}. |
| IfElse.AdultMatchesCheckAge | Python/9_If_Else.py:36-38 | The adult test (age >= 18) agrees with `check_age`'s adult and minor outcomes. |
| IfElse.VoteScript | Python/9_If_Else.py:181-188 | Non-numeric text gets the `ValueError` message. A number is eligible exactly from 18. |
| IfElse.VoteTyped | Python/9_If_Else.py:181-186 | A typed age decides eligibility by the age alone. |
| IfElse.GradeOf | Python/9_If_Else.py:58-66 | A exactly for marks >= 90, B for 80..89, C for 70..79, and F below 70. |
| IfElse.GradeMonotone | Python/9_If_Else.py:58-66 | More marks never give a lower grade. |
| IfElse.GradeExample | Python/9_If_Else.py:58-66 | 85 gives B, and each threshold falls in the higher band. |
| IfElse.KindOf | Python/9_If_Else.py:78-85 | Positive even, positive odd and not positive are characterised exactly. |
| IfElse.KindMessage | Python/9_If_Else.py:78-85 | The printed line is the number followed by the wording of its kind. |
| IfElse.KindTextInjective | Python/9_If_Else.py:78-85 | The three wordings are pairwise different. |
| IfElse.KindMessageTells | Python/9_If_Else.py:78-85 | Two numbers get the same wording after the number exactly when they are of the same kind. |
| IfElse.KindPeriodic | Python/9_If_Else.py:79-83 | For positive numbers, adding 2 keeps the kind and adding 1 changes it. |
| IfElse.KindExample | Python/9_If_Else.py:78-83 | 15 is positive odd. |
| IfElse.PicnicMonotone | Python/9_If_Else.py:99-103 | Rain always cancels, and a warmer dry day is never worse. |
| IfElse.AccessMessage | Python/9_If_Else.py:133-139 | Access is granted exactly when the entered password equals the stored one. |
| IfElse.AccessExample | Python/9_If_Else.py:133-139 | Entering "secure123" against the stored password is granted, and any other entry is denied. |
| IfElse.TaxPercent | Python/9_If_Else.py:142-148 | The rate is 30 exactly above 100000, 20 exactly in (50000, 100000], and 10 otherwise. |
| IfElse.TaxMonotone | Python/9_If_Else.py:142-148 | A higher income never falls into a lower bracket. |
| IfElse.TaxExample | Python/9_If_Else.py:142-149 | 50000 gives 10, and the thresholds are strict. |
| Ranges.Range | Python/11_For_Loop.py:79-86 | `range` starts at `start` and stays strictly before `stop` in the direction of travel. One more step would reach or pass `stop`. |
| Ranges.RangeSteps | Python/11_For_Loop.py:85-86 | Consecutive elements are exactly `step` apart. |
| Ranges.RangeOf | Python/11_For_Loop.py:85 | A zero step fails with `ValueError`, and every other step gives the range. |
| Ranges.RangeUnit | Python/11_For_Loop.py:79-80 | With step 1 the range holds exactly start, start + 1, ..., stop - 1. |
| Ranges.RangeGrow | Python/11_For_Loop.py:85-86 | Raising `stop` by one appends `stop` exactly when it is the next grid point. |
| Ranges.OddElements | Python/10_While_Loop.py:92-97 | A step-2 range from an odd start holds only odd numbers. |
| Ranges.OddGrid | Python/10_While_Loop.py:92-97 | `stop` is the next odd number after `range(1, stop, 2)` exactly when it is odd. |
| Ranges.OddStep | Python/10_While_Loop.py:92-97 | Counting `k` up from 1, `range(1, k + 1, 2)` gains `k` exactly when `k` is odd. |
| Ranges.RangeExamples | Python/11_For_Loop.py:79-86 | `range(5)` is 0..4, `range(0, 10, 2)` is 0, 2, 4, 6, 8, and so on. |
| Ranges.Table | Python/11_For_Loop.py:100-103 | The table has rows times n cells. |
| Ranges.TableCells | Python/11_For_Loop.py:100-103 | Every cell holds the product of its row and column, both in bounds. |
| Ranges.TableExample | Python/11_For_Loop.py:100-103 | The 3 by 3 table in row-major order. |
| WhileLoops.CounterLoop | Python/10_While_Loop.py:44-47 | The loop prints 1..limit and ends with the counter one past the last number. |
| WhileLoops.BreakLoop | Python/10_While_Loop.py:75-81 | The loop breaks exactly when the target is reached before the bound, having printed 0..target inclusive. Otherwise it prints 0..bound-1. |
| WhileLoops.BreakLoopPrintsFive | Python/10_While_Loop.py:75-81 | `Range(0, 6, 1)`, the range `BreakLoop` prints for bounds 10 and 5, is 0 to 5. `WhileLoops.TutorialBreak` joins the two. |
| WhileLoops.ContinueLoop | Python/10_While_Loop.py:92-97 | Exactly the odd numbers from 1 to the bound are printed. |
| WhileLoops.ContinueLoopExample | Python/10_While_Loop.py:92-97 | `Range(1, 11, 2)`, the range `ContinueLoop` prints for bound 10, is 1, 3, 5, 7, 9. `WhileLoops.TutorialContinue` joins the two. |
| WhileLoops.TutorialBreak | Python/10_While_Loop.py:75-81 | Running the `break` loop with bound 10 and target 5 prints 0 to 5. |
| WhileLoops.TutorialContinue | Python/10_While_Loop.py:92-97 | Running the `continue` loop with bound 10 prints 1, 3, 5, 7, 9. |
| WhileLoops.TableLoop | Python/10_While_Loop.py:108-115 | The nested `while` loops print the n by n table in row-major order. |
| WhileLoops.WhileTrueLoop | Python/10_While_Loop.py:128-134 | The loop prints 0..4 and exits with count 5. |
| ForLoops.BreakLoop | Python/11_For_Loop.py:117-121 | The loop prints the elements before the first target and breaks exactly when the target occurs. |
| ForLoops.BreakLoopExample | Python/11_For_Loop.py:117-121 | Over `range(1, 10)` with target 5 it prints 1, 2, 3, 4. |
| ForLoops.ContinueLoop | Python/11_For_Loop.py:126-130 | There is one line per element, in order, and the skipped value gets the skip message. |
| ForLoops.ContinueLoopExample | Python/11_For_Loop.py:126-130 | Over `range(1, 6)` skipping 3, the lines are 1, 2, the skip message, 4 and 5. |
| ForLoops.TableLoop | Python/11_For_Loop.py:100-103 | The nested `for` loops give the same table as the nested `while` loops. |
| ForLoops.Squares | Python/11_For_Loop.py:151-153 | The comprehension gives the square of each number, in order. |
| ForLoops.SquaresExample | Python/11_For_Loop.py:151-153 | [1..5] gives [1, 4, 9, 16, 25]. |
| ForLoops.GaussSum | Python/11_For_Loop.py:169-171 | sum(1..n) is n(n + 1)/2. |
| ForLoops.SumRange | Python/11_For_Loop.py:169-171 | The running total equals the sum of the range. |
| ForLoops.MillionSum | Python/11_For_Loop.py:169-171 | The sum of 1..1000000 is 500000500000. |
| ForLoops.TutorialBreak | Python/11_For_Loop.py:117-121 | Running the `break` loop over `range(1, 10)` with target 5 prints 1, 2, 3, 4. |
| ForLoops.TutorialContinue | Python/11_For_Loop.py:126-130 | Running the `continue` loop over `range(1, 6)` skipping 3 prints 1, 2, the skip message, 4 and 5. |
| ForLoops.TutorialSquares | Python/11_For_Loop.py:151-153 | Running the comprehension on [1, 2, 3, 4, 5] gives [1, 4, 9, 16, 25]. |
| ForLoops.TutorialSum | Python/11_For_Loop.py:169-171 | Running the running-total loop to 1000000 gives 500000500000. |

## Left out

- Console I/O is a parameter, not modelled. `input()` is a line (or a finite list of lines), and `print` is the returned text or number sequence. The fixed text around each printed number is described in comments, not modelled character by character. `sys.argv` and `sys.stdin.read` (Python/16_Input.py:150-170) are left out.
- End of input and retry limits: the source has neither. When the lines run out before an accepted one, the retry loops report "still prompting".
- Floating point is not modelled:
  - the height (Python/16_Input.py:48-52);
  - the `100 / value` quotient (Python/15_Try_Except.py:80), where only the clause taken and the divisor are modelled;
  - the tax rate, which is modelled as an integer percentage. The script prints `tax_rate * 100` as a float ("10.0%", "20.0%", "30.0%"), and that ".0" rendering is not modelled.
- Functions.FactorialAsWritten: the fuel stands for an unbounded recursion depth. CPython's default recursion limit is 1000, so `factorial(n)` raises `RecursionError` from about n = 1000. `Functions.FactorialAsWrittenAgrees` therefore holds in CPython only below that limit.
- IntText.ParseInt: only whitespace, an optional sign and ASCII digits are accepted. Underscores between digits and non-ASCII digits, which Python's `int()` also accepts, are rejected. The model also has no digit limit. CPython 3.11 and later raise `ValueError` for more than 4300 digits, on input (`int()`) and on output (`f"{n}"`). So `IntText.ShowParse` and `InputLoops.ScoreBounds` hold there only below that limit: a 4301-digit score would get the type error, not the range error.
- Text.Lower: only ASCII letters are lowered. Python lowers every cased Unicode character.
- The plain `int(input())` examples at Python/16_Input.py:41-45 and 89-93 and the username prompt at 108-109 are covered by `IntText.ParseInt` and `Text.Strip`. They have no members of their own.
- Oops.Deposit and Oops.Withdraw: the message text is stated through the shared formatter. No concrete message string is checked against the comments.
- Ranges.Range: a zero step is a precondition. The `ValueError` Python raises for it is modelled by `Ranges.RangeOf`.
- `greet_user`, `add_numbers`, `print_user_info` (`**kwargs`), the lambdas and scope examples of Python/12_Functions.py, and the non-core class features of Python/14_OOPS.py (class attributes, inheritance, polymorphism, `__str__`) are not part of this model. They print without logic of their own.
- Python/17_File_Handling.py, Python/13_Arrays.py and the builtin demonstrations in lessons 1 to 7 are not part of this model.

## Findings

| source | as written | input that shows it | evidently intended | confidence | as-written member | corrected member |
|---|---|---|---|---|---|---|
| Python/12_Functions.py:186-190 | `factorial` has `n == 1` as its only base case, so for any `n < 1` it recurses without end (`RecursionError` in Python) | `factorial(0)`, or any negative argument: `FactorialAsWrittenDiverges` shows no recursion depth returns | `factorial(0) == 1`, and a total function on the naturals that agrees with the original for `n >= 1` (`FactorialAsWrittenAgrees`) | high (not executed) | Functions.FactorialAsWritten | Functions.Factorial |
