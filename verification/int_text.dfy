/**
  Decimal integers as text: a simplified model of Python's `int(text)`
  (surrounding whitespace, an optional sign, one or more ASCII digits)
  and of the decimal formatting f-strings apply to an `int`.
 */
module IntText {
  import opened Wrappers
  import opened Text

  predicate IsDigit(c: char) {
    '0' <= c <= '9'
  }

  predicate AllDigits(s: string) {
    forall i :: 0 <= i < |s| ==> IsDigit(s[i])
  }

  predicate HasDigit(s: string) {
    exists i :: 0 <= i < |s| && IsDigit(s[i])
  }

  function DigitValue(c: char): nat
    requires IsDigit(c)
  {
    c as int - '0' as int
  }

  function DigitChar(d: nat): (c: char)
    requires d < 10
    ensures IsDigit(c) && DigitValue(c) == d
  {
    ('0' as int + d) as char
  }

  /** The value of a numeral, read left to right in base 10. */
  function NumeralValue(s: string): nat
    requires AllDigits(s)
    decreases |s|
  {
    if |s| == 0 then 0 else 10 * NumeralValue(s[..|s| - 1]) + DigitValue(s[|s| - 1])
  }

  /** An unsigned numeral: at least one digit and nothing but digits. */
  function ParseUnsigned(t: string): Option<nat> {
    if |t| > 0 && AllDigits(t) then Some(NumeralValue(t)) else None
  }

  /** A stripped numeral: an optional `-` or `+` sign, then an unsigned
      numeral. */
  function ParseNumeral(t: string): Option<int> {
    if |t| > 0 && (t[0] == '-' || t[0] == '+') then
      match ParseUnsigned(t[1..])
      case Some(n) =>
        var v: int := n;
        if t[0] == '-' then Some(-v) else Some(v)
      case None => None
    else
      match ParseUnsigned(t)
      case Some(n) => Some(n)
      case None => None
  }

  lemma NumeralNeedsDigit(t: string)
    ensures ParseNumeral(t).Some? ==> HasDigit(t)
  {
    if ParseNumeral(t).Some? {
      if t[0] == '-' || t[0] == '+' {
        assert IsDigit(t[1..][0]);
      } else {
        assert IsDigit(t[0]);
      }
    }
  }

  /** The ASCII information separators U+001C..U+001F: whitespace to
      `str.isspace()`, but not to `int()`. */
  predicate IsSeparator(c: char) {
    28 <= c as int <= 31
  }

  predicate SeparatorFree(s: string) {
    forall i :: 0 <= i < |s| ==> !IsSeparator(s[i])
  }

  /** The whitespace `int()` skips at either end. CPython first turns
      non-ASCII whitespace into a space but keeps every ASCII character,
      and then skips only tab, line feed, vertical tab, form feed,
      carriage return and space, so the separators stay and are rejected. */
  predicate IntSpace(c: char) {
    IsSpace(c) && !IsSeparator(c)
  }

  lemma SeparatorFreeConcat(a: string, b: string)
    ensures SeparatorFree(a + b) <==> SeparatorFree(a) && SeparatorFree(b)
  {
    if SeparatorFree(a) && SeparatorFree(b) {
      forall i | 0 <= i < |a + b|
        ensures !IsSeparator((a + b)[i])
      {
        if i >= |a| {
          assert (a + b)[i] == b[i - |a|];
        }
      }
    }
    if SeparatorFree(a + b) {
      forall i | 0 <= i < |a|
        ensures !IsSeparator(a[i])
      {
        assert a[i] == (a + b)[i];
      }
      forall i | 0 <= i < |b|
        ensures !IsSeparator(b[i])
      {
        assert b[i] == (a + b)[|a| + i];
      }
    }
  }

  lemma SeparatorFreeDropFirst(s: string)
    requires |s| > 0 && !IsSeparator(s[0])
    ensures SeparatorFree(s) == SeparatorFree(s[1..])
  {
    assert s == [s[0]] + s[1..];
    SeparatorFreeConcat([s[0]], s[1..]);
  }

  lemma SeparatorFreeDropLast(s: string)
    requires |s| > 0 && !IsSeparator(s[|s| - 1])
    ensures SeparatorFree(s) == SeparatorFree(s[..|s| - 1])
  {
    assert s == s[..|s| - 1] + [s[|s| - 1]];
    SeparatorFreeConcat(s[..|s| - 1], [s[|s| - 1]]);
  }

  /** A numeral consists of a sign and digits, so it holds no separator. */
  lemma NumeralSeparatorFree(t: string)
    ensures ParseNumeral(t).Some? ==> SeparatorFree(t)
  {
    if ParseNumeral(t).Some? && (t[0] == '-' || t[0] == '+') {
      forall i | 1 <= i < |t|
        ensures IsDigit(t[i])
      {
        assert t[i] == t[1..][i - 1];
      }
    }
  }

  /** `int(s)`: `None` where Python raises `ValueError`. Text holding an
      ASCII separator anywhere never converts; otherwise `int()` is exactly
      "strip, then read an optionally signed numeral". */
  function ParseInt(s: string): (r: Option<int>)
    ensures r == if SeparatorFree(s) then ParseNumeral(Strip(s)) else None
    decreases |s|
  {
    if |s| > 0 && IntSpace(s[0]) then
      ParseIntDropFirst(s);
      ParseInt(s[1..])
    else if |s| > 0 && IntSpace(s[|s| - 1]) then
      ParseIntDropLast(s);
      ParseInt(s[..|s| - 1])
    else
      ParseIntCore(s);
      ParseNumeral(s)
  }

  /** Skipping a leading whitespace character other than a separator
      changes neither the separators present nor the stripped text. */
  lemma ParseIntDropFirst(s: string)
    requires |s| > 0 && IntSpace(s[0])
    ensures SeparatorFree(s) == SeparatorFree(s[1..])
    ensures Strip(s) == Strip(s[1..])
  {
    StripDropFirst(s);
    SeparatorFreeDropFirst(s);
  }

  /** The same for a trailing one, once the front is settled. */
  lemma ParseIntDropLast(s: string)
    requires |s| > 0 && !IntSpace(s[0]) && IntSpace(s[|s| - 1])
    ensures SeparatorFree(s) == SeparatorFree(s[..|s| - 1])
    ensures SeparatorFree(s) ==> Strip(s) == Strip(s[..|s| - 1])
  {
    SeparatorFreeDropLast(s);
    if !IsSpace(s[0]) {
      StripDropLast(s);
    }
  }

  /** With no skippable whitespace at either end, `int()` reads the
      numeral itself, which a separator at an end (or inside) spoils. */
  lemma ParseIntCore(s: string)
    requires !(|s| > 0 && IntSpace(s[0])) && !(|s| > 0 && IntSpace(s[|s| - 1]))
    ensures ParseNumeral(s) == if SeparatorFree(s) then ParseNumeral(Strip(s)) else None
  {
    NumeralSeparatorFree(s);
    if SeparatorFree(s) {
      StripFixed(s);
    }
  }

  /** Blank text never converts. */
  lemma ParseBlank(s: string)
    requires Strip(s) == ""
    ensures ParseInt(s) == None
  {
  }

  /** Text without a digit never converts. */
  lemma {:induction false} ParseNeedsDigit(s: string)
    ensures ParseInt(s).Some? ==> HasDigit(s)
    decreases |s|
  {
    if |s| > 0 && IntSpace(s[0]) {
      ParseNeedsDigit(s[1..]);
      if HasDigit(s[1..]) {
        var k :| 0 <= k < |s[1..]| && IsDigit(s[1..][k]);
        assert s[k + 1] == s[1..][k];
      }
    } else if |s| > 0 && IntSpace(s[|s| - 1]) {
      ParseNeedsDigit(s[..|s| - 1]);
      if HasDigit(s[..|s| - 1]) {
        var k :| 0 <= k < |s| - 1 && IsDigit(s[..|s| - 1][k]);
        assert s[k] == s[..|s| - 1][k];
      }
    } else {
      NumeralNeedsDigit(s);
    }
  }

  /** Decimal digits of `n`, most significant first, without leading
      zeros; reading them back gives `n`. */
  function ShowNat(n: nat): (r: string)
    ensures |r| > 0 && AllDigits(r)
    ensures NumeralValue(r) == n
    ensures r[0] == '0' ==> n == 0
    decreases n
  {
    if n < 10 then [DigitChar(n)]
    else
      var front := ShowNat(n / 10);
      var r := front + [DigitChar(n % 10)];
      assert r[..|r| - 1] == front;
      r
  }

  /** The f-string rendering of an `int`: a minus sign for negatives. */
  function Show(n: int): (r: string)
    ensures IsWord(r) && NoEdgeSpace(r)
    ensures n < 0 <==> r[0] == '-'
  {
    var r := if n < 0 then "-" + ShowNat(-n) else ShowNat(n);
    assert forall i :: 0 <= i < |r| ==> r[i] == '-' || IsDigit(r[i]);
    r
  }

  /** `int(str(n)) == n`: formatting an integer and converting the text
      back recovers it. */
  lemma ShowParse(n: int)
    ensures ParseInt(Show(n)) == Some(n)
  {
    var t := Show(n);
    StripFixed(t);
    if n < 0 {
      assert t[1..] == ShowNat(-n);
    } else {
      assert IsDigit(t[0]);
    }
  }

  /** `int()` ignores whitespace around the numeral, unless the padding
      holds an ASCII separator, which makes it fail. */
  lemma ParsePadded(pre: string, s: string, post: string)
    requires AllSpace(pre) && AllSpace(post) && NoEdgeSpace(s)
    ensures ParseInt(pre + s + post) ==
      if SeparatorFree(pre) && SeparatorFree(post) then ParseInt(s) else None
  {
    StripPadding(pre, s, post);
    StripFixed(s);
    SeparatorFreeConcat(pre, s);
    SeparatorFreeConcat(pre + s, post);
  }

  /** Letters, blank text, a lone sign and a leading U+001C never convert. */
  lemma ParseRejectsExamples()
    ensures ParseInt("abc") == None
    ensures ParseInt("") == None
    ensures ParseInt("-") == None
    ensures ParseInt([28 as char] + "50") == None
  {
    assert IsSeparator(([28 as char] + "50")[0]);
    assert !HasDigit("abc") && !HasDigit("-");
    ParseNeedsDigit("abc");
    ParseNeedsDigit("-");
    assert ParseInt("") == None;
  }

  lemma ShowExamples()
    ensures Show(85) == "85" && Show(105) == "105" && Show(-5) == "-5"
  {
    assert Show(85) == "85";
    assert Show(105) == "105";
    assert Show(-5) == "-5";
  }

  lemma ParseAcceptsExamples()
    ensures ParseInt("85") == Some(85)
    ensures ParseInt("105") == Some(105)
    ensures ParseInt("-5") == Some(-5)
  {
    ShowExamples();
    ShowParse(85);
    ShowParse(105);
    ShowParse(-5);
  }
}
