/**
  The one-shot conversions of Python/16_Input.py: a yes/no answer read as
  a boolean, an age that defaults to 18 when left blank, and a line of
  whitespace-separated integers.
 */
module InputConversions {
  import opened Wrappers
  import opened Text
  import opened IntText

  /** The `ValueError` `int()` raises, with the text it refused. Neither
      conversion below catches it, so it ends the script. */
  datatype InputError = ValueError(text: string)

  // ---------------------------------------------------------------
  // Yes/no as a boolean.
  // ---------------------------------------------------------------

  /** Every capitalisation of "yes". */
  const YesSpellings: set<string> := {"yes", "yeS", "yEs", "yES", "Yes", "YeS", "YEs", "YES"}

  /** `response.strip().lower() == "yes"`: true exactly when the answer,
      without surrounding whitespace, is "yes" in any capitalisation. */
  function LikesPython(response: string): (r: bool)
    ensures r <==> Strip(response) in YesSpellings
  {
    var t := Strip(response);
    LowerIsYes(t);
    Lower(t) == "yes"
  }

  lemma LowerCharIs(c: char, lower: char)
    requires 'a' <= lower <= 'z'
    ensures LowerChar(c) == lower <==> c == lower || c as int == lower as int - 32
  {
  }

  lemma LowerIsYes(t: string)
    ensures Lower(t) == "yes" <==> t in YesSpellings
  {
    if |t| == 3 {
      LowerCharIs(t[0], 'y');
      LowerCharIs(t[1], 'e');
      LowerCharIs(t[2], 's');
      assert t == [t[0], t[1], t[2]];
      assert Lower(t) == "yes" <==> LowerChar(t[0]) == 'y' && LowerChar(t[1]) == 'e' && LowerChar(t[2]) == 's';
    } else {
      assert forall y :: y in YesSpellings ==> |y| == 3;
      assert |"yes"| == 3;
    }
  }

  /** Whitespace typed around the answer never changes it. */
  lemma LikesPythonPadded(pre: string, answer: string, post: string)
    requires AllSpace(pre) && AllSpace(post) && NoEdgeSpace(answer)
    ensures LikesPython(pre + answer + post) <==> answer in YesSpellings
  {
    StripPadding(pre, answer, post);
  }

  // ---------------------------------------------------------------
  // Age with a default.
  // ---------------------------------------------------------------

  const DefaultAgeValue := 18

  /** `int(age) if age else 18` on the stripped answer: blank means 18;
      anything else is converted, and text that is not an integer raises
      `ValueError`, which nothing catches. */
  function DefaultAge(answer: string): (r: Result<int, InputError>)
    ensures Strip(answer) == "" ==> r == Success(DefaultAgeValue)
    ensures Strip(answer) != "" ==> (r.Success? <==> ParseInt(Strip(answer)).Some?)
    ensures Strip(answer) != "" && r.Success? ==> r.value == ParseInt(Strip(answer)).value
    ensures r.Failure? ==> r.error == ValueError(Strip(answer))
  {
    var age := Strip(answer);
    StripFixed(age);
    if age == "" then Success(DefaultAgeValue)
    else
      match ParseInt(age)
      case Some(v) => Success(v)
      case None => Failure(ValueError(age))
  }

  /** Typing an age gives that age back. */
  lemma DefaultAgeTyped(n: int)
    ensures DefaultAge(Show(n)) == Success(n)
  {
    StripFixed(Show(n));
    ShowParse(n);
  }

  /** Pressing Enter, or typing only whitespace, gives the default. */
  lemma DefaultAgeBlank(answer: string)
    requires AllSpace(answer)
    ensures DefaultAge(answer) == Success(DefaultAgeValue)
  {
    assert answer + "" + "" == answer;
    StripPadding(answer, "", "");
  }

  // ---------------------------------------------------------------
  // A line of integers.
  // ---------------------------------------------------------------

  /** `[convert(t) for t in tokens]`: every token converted in order, or
      the `ValueError` of the first token `convert` rejects. */
  function ConvertEach<T>(convert: string -> Option<T>, tokens: seq<string>): (r: Result<seq<T>, InputError>)
    ensures r.Success? <==> forall i :: 0 <= i < |tokens| ==> convert(tokens[i]).Some?
    ensures r.Success? ==> |r.value| == |tokens|
    ensures r.Success? ==> forall i :: 0 <= i < |tokens| ==> convert(tokens[i]) == Some(r.value[i])
    ensures r.Failure? ==>
      exists i :: 0 <= i < |tokens| && convert(tokens[i]).None? && r.error == ValueError(tokens[i])
                  && (forall j :: 0 <= j < i ==> convert(tokens[j]).Some?)
  {
    if |tokens| == 0 then Success([])
    else
      match convert(tokens[0])
      case None => Failure(ValueError(tokens[0]))
      case Some(v) =>
        match ConvertEach(convert, tokens[1..])
        case Success(vs) => Success([v] + vs)
        case Failure(e) =>
          var k :| 0 <= k < |tokens[1..]| && convert(tokens[1..][k]).None?
            && e == ValueError(tokens[1..][k])
            && forall j :: 0 <= j < k ==> convert(tokens[1..][j]).Some?;
          assert forall j :: 0 <= j < k + 1 ==> convert(tokens[j]).Some? by {
            forall j | 0 <= j < k + 1
              ensures convert(tokens[j]).Some?
            {
              if j > 0 {
                assert tokens[j] == tokens[1..][j - 1];
              }
            }
          }
          assert tokens[k + 1] == tokens[1..][k];
          Failure(e)
  }

  /** A converter that accepts every token gives exactly its results. */
  lemma ConvertEachAll<T>(convert: string -> Option<T>, tokens: seq<string>, vs: seq<T>)
    requires |vs| == |tokens|
    requires forall i :: 0 <= i < |tokens| ==> convert(tokens[i]) == Some(vs[i])
    ensures ConvertEach(convert, tokens) == Success(vs)
  {
    var r := ConvertEach(convert, tokens);
    assert r.Success?;
    assert |r.value| == |vs|;
    assert forall i :: 0 <= i < |tokens| ==> r.value[i] == vs[i];
    assert r.value == vs;
  }

  /** `[int(num) for num in tokens]`: all converted in order, or the
      `ValueError` of the first token that does not convert. */
  function ConvertAll(tokens: seq<string>): (r: Result<seq<int>, InputError>)
    ensures r.Success? <==> forall i :: 0 <= i < |tokens| ==> ParseInt(tokens[i]).Some?
    ensures r.Success? ==> |r.value| == |tokens|
    ensures r.Success? ==> forall i :: 0 <= i < |tokens| ==> ParseInt(tokens[i]) == Some(r.value[i])
    ensures r.Failure? ==>
      exists i :: 0 <= i < |tokens| && ParseInt(tokens[i]).None? && r.error == ValueError(tokens[i])
                  && (forall j :: 0 <= j < i ==> ParseInt(tokens[j]).Some?)
  {
    ConvertEach(ParseInt, tokens)
  }

  /** `[int(num) for num in line.split()]`: one integer per
      whitespace-separated token, in order. */
  function SplitInts(line: string): (r: Result<seq<int>, InputError>)
    ensures r.Success? ==> |r.value| == |Split(line)|
    ensures r.Success? ==> forall i :: 0 <= i < |Split(line)| ==> ParseInt(Split(line)[i]) == Some(r.value[i])
    ensures r.Failure? ==> exists i :: 0 <= i < |Split(line)| && ParseInt(Split(line)[i]).None?
                                        && r.error == ValueError(Split(line)[i])
                                        && (forall j :: 0 <= j < i ==> ParseInt(Split(line)[j]).Some?)
  {
    ConvertAll(Split(line))
  }

  function ShowAll(ns: seq<int>): (ws: seq<string>)
    ensures |ws| == |ns| && AllWords(ws)
    ensures forall i :: 0 <= i < |ns| ==> ws[i] == Show(ns[i])
  {
    seq(|ns|, i requires 0 <= i < |ns| => Show(ns[i]))
  }

  /** Converting the decimal texts of a list of integers gives the list
      back. */
  lemma ConvertShown(ns: seq<int>)
    ensures ConvertAll(ShowAll(ns)) == Success(ns)
  {
    var ws := ShowAll(ns);
    forall i | 0 <= i < |ns|
      ensures ParseInt(ws[i]) == Some(ns[i])
    {
      ShowParse(ns[i]);
    }
    ConvertEachAll(ParseInt, ws, ns);
  }

  /** Typing a list of integers separated by single spaces reads back the
      same list. */
  lemma SplitIntsRoundTrip(ns: seq<int>)
    ensures SplitInts(JoinWords(ShowAll(ns))) == Success(ns)
  {
    SplitJoin(ShowAll(ns));
    ConvertShown(ns);
  }

  /** The tutorial's line "10 20 30" gives [10, 20, 30]. */
  lemma SplitIntsExample(line: string)
    requires line == "10 20 30"
    ensures SplitInts(line) == Success([10, 20, 30])
  {
    assert ShowAll([10, 20, 30]) == ["10", "20", "30"] by {
      assert Show(10) == "10";
      assert Show(20) == "20";
      assert Show(30) == "30";
    }
    assert JoinWords(["10", "20", "30"]) == line by {
      assert ["10", "20", "30"][1..] == ["20", "30"];
      assert ["20", "30"][1..] == ["30"];
    }
    SplitIntsRoundTrip([10, 20, 30]);
  }
}
