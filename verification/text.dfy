/**
  The string primitives the input tutorials lean on: Python's whitespace
  test, `str.strip()`, `str.lower()` and the argument-less `str.split()`,
  together with a single-space join used to state round trips.
 */
module Text {

  /** Python's `str.isspace()` for one character: the C0 separators
      U+0009..U+000D and U+001C..U+001F, the space, and the Unicode
      space and line/paragraph separators. */
  predicate IsSpace(c: char) {
    var n := c as int;
    || (9 <= n <= 13)
    || (28 <= n <= 32)
    || n == 0x85 || n == 0xA0 || n == 0x1680
    || (0x2000 <= n <= 0x200A)
    || n == 0x2028 || n == 0x2029 || n == 0x202F || n == 0x205F || n == 0x3000
  }

  predicate AllSpace(s: string) {
    forall i :: 0 <= i < |s| ==> IsSpace(s[i])
  }

  /** Neither end of `s` is whitespace (vacuously true of ""). */
  predicate NoEdgeSpace(s: string) {
    |s| == 0 || (!IsSpace(s[0]) && !IsSpace(s[|s| - 1]))
  }

  /** A token `str.split()` can produce: non-empty, no whitespace inside. */
  predicate IsWord(w: string) {
    |w| > 0 && forall i :: 0 <= i < |w| ==> !IsSpace(w[i])
  }

  predicate AllWords(ws: seq<string>) {
    forall i :: 0 <= i < |ws| ==> IsWord(ws[i])
  }

  /** `str.lstrip()`: drops the leading whitespace and nothing else. */
  function TrimStart(s: string): (r: string)
    ensures |r| <= |s| && r == s[|s| - |r|..]
    ensures AllSpace(s[..|s| - |r|])
    ensures |r| > 0 ==> !IsSpace(r[0])
    decreases |s|
  {
    if |s| > 0 && IsSpace(s[0]) then TrimStart(s[1..]) else s
  }

  /** `str.rstrip()`: drops the trailing whitespace and nothing else. */
  function TrimEnd(s: string): (r: string)
    ensures |r| <= |s| && r == s[..|r|]
    ensures AllSpace(s[|r|..])
    ensures |r| > 0 ==> !IsSpace(r[|r| - 1])
    decreases |s|
  {
    if |s| > 0 && IsSpace(s[|s| - 1]) then TrimEnd(s[..|s| - 1]) else s
  }

  /** `str.strip()`: the result has no whitespace at either end (and,
      by `StripRemovesOnlySpace`, is `s` minus whitespace at its ends). */
  function Strip(s: string): (r: string)
    ensures NoEdgeSpace(r)
    ensures |r| <= |s|
  {
    TrimEnd(TrimStart(s))
  }

  /** What `Strip` removes is whitespace, and only from the two ends. */
  lemma StripRemovesOnlySpace(s: string)
    ensures var r := Strip(s);
      exists a :: 0 <= a <= |s| - |r| && r == s[a..a + |r|]
               && AllSpace(s[..a]) && AllSpace(s[a + |r|..])
  {
    var t := TrimStart(s);
    StripShape(s, t, TrimEnd(t));
  }

  lemma StripShape(s: string, t: string, r: string)
    requires |t| <= |s| && t == s[|s| - |t|..] && AllSpace(s[..|s| - |t|])
    requires |r| <= |t| && r == t[..|r|] && AllSpace(t[|r|..])
    ensures exists a :: 0 <= a <= |s| - |r| && r == s[a..a + |r|]
               && AllSpace(s[..a]) && AllSpace(s[a + |r|..])
  {
    var a := |s| - |t|;
    assert s[a + |r|..] == t[|r|..];
    assert 0 <= a <= |s| - |r| && r == s[a..a + |r|] && AllSpace(s[..a]) && AllSpace(s[a + |r|..]);
  }

  lemma {:induction false} TrimStartPadding(pre: string, rest: string)
    requires AllSpace(pre)
    requires |rest| == 0 || !IsSpace(rest[0])
    ensures TrimStart(pre + rest) == rest
    decreases |pre|
  {
    if |pre| == 0 {
      assert pre + rest == rest;
    } else {
      assert (pre + rest)[1..] == pre[1..] + rest;
      TrimStartPadding(pre[1..], rest);
    }
  }

  lemma {:induction false} TrimEndPadding(rest: string, post: string)
    requires AllSpace(post)
    requires |rest| == 0 || !IsSpace(rest[|rest| - 1])
    ensures TrimEnd(rest + post) == rest
    decreases |post|
  {
    if |post| == 0 {
      assert rest + post == rest;
    } else {
      assert (rest + post)[..|rest + post| - 1] == rest + post[..|post| - 1];
      TrimEndPadding(rest, post[..|post| - 1]);
    }
  }

  /** The decomposition `Strip` promises is unique: whatever whitespace
      surrounds a text without edge whitespace, stripping recovers it. */
  lemma StripPadding(pre: string, mid: string, post: string)
    requires AllSpace(pre) && AllSpace(post) && NoEdgeSpace(mid)
    ensures Strip(pre + mid + post) == mid
  {
    if |mid| == 0 {
      assert pre + mid + post == (pre + post) + "";
      assert AllSpace(pre + post);
      TrimStartPadding(pre + post, "");
    } else {
      assert pre + mid + post == pre + (mid + post);
      TrimStartPadding(pre, mid + post);
      TrimEndPadding(mid, post);
    }
  }

  /** Leading whitespace is stripped one character at a time. */
  lemma StripDropFirst(s: string)
    requires |s| > 0 && IsSpace(s[0])
    ensures Strip(s) == Strip(s[1..])
  {
  }

  /** Once the front is clean, trailing whitespace is stripped one
      character at a time. */
  lemma StripDropLast(s: string)
    requires |s| > 0 && !IsSpace(s[0]) && IsSpace(s[|s| - 1])
    ensures Strip(s) == Strip(s[..|s| - 1])
  {
    var s' := s[..|s| - 1];
    assert |s| >= 2;
    assert s'[0] == s[0];
    assert TrimStart(s) == s && TrimStart(s') == s';
  }

  /** A text with no edge whitespace is its own strip; in particular
      `Strip` is idempotent. */
  lemma StripFixed(s: string)
    requires NoEdgeSpace(s)
    ensures Strip(s) == s
  {
    assert "" + s + "" == s;
    StripPadding("", s, "");
  }

  function LowerChar(c: char): char {
    if 'A' <= c <= 'Z' then (c as int + 32) as char else c
  }

  /** `str.lower()` restricted to ASCII letters; every other character is
      left as it is. */
  function Lower(s: string): (r: string)
    ensures |r| == |s|
    ensures forall i :: 0 <= i < |s| ==> r[i] == LowerChar(s[i])
    ensures forall i :: 0 <= i < |r| ==> !('A' <= r[i] <= 'Z')
    ensures forall i :: 0 <= i < |s| && !('A' <= s[i] <= 'Z') ==> r[i] == s[i]
    ensures forall i :: 0 <= i < |s| && 'A' <= s[i] <= 'Z' ==> r[i] as int == s[i] as int + 32
  {
    seq(|s|, i requires 0 <= i < |s| => LowerChar(s[i]))
  }

  /** Lower-casing twice is lower-casing once. */
  lemma LowerIdempotent(s: string)
    ensures Lower(Lower(s)) == Lower(s)
  {
  }

  /** Length of the run of non-whitespace characters at the front of `s`. */
  function TokenLen(s: string): (n: nat)
    ensures n <= |s|
    ensures forall i :: 0 <= i < n ==> !IsSpace(s[i])
    ensures n < |s| ==> IsSpace(s[n])
  {
    if |s| == 0 || IsSpace(s[0]) then 0 else 1 + TokenLen(s[1..])
  }

  /** `str.split()` with no separator: the maximal runs of non-whitespace,
      in order; leading, trailing and repeated whitespace yield nothing. */
  function Split(s: string): (ws: seq<string>)
    ensures AllWords(ws)
    decreases |s|
  {
    if |s| == 0 then []
    else if IsSpace(s[0]) then Split(s[1..])
    else
      var n := TokenLen(s);
      [s[..n]] + Split(s[n..])
  }

  /** `" ".join(ws)`. */
  function JoinWords(ws: seq<string>): string {
    if |ws| == 0 then ""
    else if |ws| == 1 then ws[0]
    else ws[0] + " " + JoinWords(ws[1..])
  }

  /** The characters of `s` that are not whitespace, in order. */
  function NonSpace(s: string): string {
    if |s| == 0 then ""
    else if IsSpace(s[0]) then NonSpace(s[1..])
    else [s[0]] + NonSpace(s[1..])
  }

  function Concat(ws: seq<string>): string {
    if |ws| == 0 then "" else ws[0] + Concat(ws[1..])
  }

  lemma {:induction false} TokenLenWord(w: string, t: string)
    requires IsWord(w)
    requires |t| == 0 || IsSpace(t[0])
    ensures TokenLen(w + t) == |w|
    decreases |w|
  {
    if |w| > 1 {
      assert (w + t)[1..] == w[1..] + t;
      TokenLenWord(w[1..], t);
    } else {
      assert (w + t)[1..] == t;
    }
  }

  lemma SplitWordThen(w: string, t: string)
    requires IsWord(w)
    requires |t| == 0 || IsSpace(t[0])
    ensures Split(w + t) == [w] + Split(t)
  {
    TokenLenWord(w, t);
    assert (w + t)[..|w|] == w;
    assert (w + t)[|w|..] == t;
  }

  /** A whitespace character before `b` cannot belong to a token of `a`:
      the first token of `a + [c] + b` is the first token of `a`. */
  lemma {:induction false} TokenLenBeforeSpace(a: string, c: char, b: string)
    requires IsSpace(c)
    ensures TokenLen(a + [c] + b) == TokenLen(a)
    decreases |a|
  {
    if |a| > 0 && !IsSpace(a[0]) {
      assert (a + [c] + b)[1..] == a[1..] + [c] + b;
      TokenLenBeforeSpace(a[1..], c, b);
    }
  }

  /** `split()` cuts at every whitespace character: the tokens of
      `a + [c] + b` are those of `a` followed by those of `b`, so no token
      ever spans whitespace, however many whitespace characters separate
      the tokens. */
  lemma {:induction false} SplitAtSpace(a: string, c: char, b: string)
    requires IsSpace(c)
    ensures Split(a + [c] + b) == Split(a) + Split(b)
    decreases |a|
  {
    var s := a + [c] + b;
    if |a| == 0 {
      assert s[1..] == b;
    } else if IsSpace(a[0]) {
      assert s[1..] == a[1..] + [c] + b;
      SplitAtSpace(a[1..], c, b);
    } else {
      SplitAtSpace(a[TokenLen(a)..], c, b);
      SplitAtSpaceToken(a, c, b);
    }
  }

  /** The step of `SplitAtSpace` when `a` starts with a token: that token
      comes first on both sides. */
  lemma SplitAtSpaceToken(a: string, c: char, b: string)
    requires IsSpace(c) && |a| > 0 && !IsSpace(a[0])
    requires Split(a[TokenLen(a)..] + [c] + b) == Split(a[TokenLen(a)..]) + Split(b)
    ensures Split(a + [c] + b) == Split(a) + Split(b)
  {
    var s := a + [c] + b;
    var n := TokenLen(a);
    TokenLenBeforeSpace(a, c, b);
    assert s[..n] == a[..n];
    assert s[n..] == a[n..] + [c] + b;
    assert Split(s) == [a[..n]] + Split(s[n..]);
    assert Split(a) == [a[..n]] + Split(a[n..]);
  }

  /** Splitting undoes joining with single spaces, when every part is a
      word: "10 20 30" splits back into its three tokens. */
  lemma {:induction false} SplitJoin(ws: seq<string>)
    requires AllWords(ws)
    ensures Split(JoinWords(ws)) == ws
    decreases |ws|
  {
    if |ws| == 1 {
      assert ws[0] + "" == ws[0];
      SplitWordThen(ws[0], "");
    } else if |ws| > 1 {
      var rest := " " + JoinWords(ws[1..]);
      assert JoinWords(ws) == ws[0] + rest;
      SplitWordThen(ws[0], rest);
      assert rest[1..] == JoinWords(ws[1..]);
      SplitJoin(ws[1..]);
    }
  }

  /** Splitting loses exactly the whitespace: the tokens, put back to
      back, are the non-whitespace characters of the input in order. */
  lemma {:induction false} SplitKeepsContent(s: string)
    ensures Concat(Split(s)) == NonSpace(s)
    decreases |s|
  {
    if |s| > 0 {
      if IsSpace(s[0]) {
        SplitKeepsContent(s[1..]);
      } else {
        var n := TokenLen(s);
        SplitKeepsContent(s[n..]);
        assert Split(s) == [s[..n]] + Split(s[n..]);
        assert Concat(Split(s)) == s[..n] + Concat(Split(s[n..]));
        NonSpaceOfWord(s, n);
      }
    }
  }

  lemma {:induction false} NonSpaceOfWord(s: string, n: nat)
    requires n <= |s|
    requires forall i :: 0 <= i < n ==> !IsSpace(s[i])
    ensures NonSpace(s) == s[..n] + NonSpace(s[n..])
    decreases n
  {
    if n > 0 {
      NonSpaceOfWord(s[1..], n - 1);
      assert s[1..][n - 1..] == s[n..];
      assert s[..n] == [s[0]] + s[1..][..n - 1];
    } else {
      assert s[..0] == "";
      assert s[0..] == s;
    }
  }
}
