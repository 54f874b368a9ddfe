/**
  Python's insertion-ordered `dict` as used in Python/8_Dictionaries.py:
  item assignment (add or update), `del`, `pop`, `in` and `get` with a
  default, and the word-count loop built on them.
 */
module Dictionaries {
  import opened Wrappers

  ghost predicate NoDuplicates<T>(s: seq<T>) {
    forall i, j :: 0 <= i < j < |s| ==> s[i] != s[j]
  }

  /** A dict: its keys in insertion order, and the value of each key. */
  datatype Dict<K(==, !new), V> = Dict(keys: seq<K>, values: map<K, V>)

  /** What every Python dict satisfies: each key once, and exactly the
      keys that have a value. */
  ghost predicate Valid<K(!new), V>(d: Dict<K, V>) {
    && NoDuplicates(d.keys)
    && (forall k :: k in d.keys <==> k in d.values)
  }

  /** `{}`. */
  function Empty<K(==, !new), V>(): (d: Dict<K, V>)
    ensures Valid(d) && |d.keys| == 0
  {
    Dict([], map[])
  }

  /** `d[k]` where it exists. */
  function Lookup<K(==, !new), V>(d: Dict<K, V>, k: K): Option<V> {
    if k in d.values then Some(d.values[k]) else None
  }

  /** `k in d`. */
  predicate Contains<K(==, !new), V>(d: Dict<K, V>, k: K) {
    k in d.values
  }

  /** `d.get(k, default)`: the stored value if `k` is present, else the
      default. */
  function Get<K(==, !new), V>(d: Dict<K, V>, k: K, default: V): (r: V)
    ensures Lookup(d, k).Some? ==> r == Lookup(d, k).value
    ensures Lookup(d, k).None? ==> r == default
  {
    if k in d.values then d.values[k] else default
  }

  /** `d[k] = v`: an absent key is added at the end of the order, a
      present key keeps its place and gets the new value; every other
      entry is unchanged. */
  function Set<K(==, !new), V>(d: Dict<K, V>, k: K, v: V): (r: Dict<K, V>)
    requires Valid(d)
    ensures Valid(r)
    ensures Lookup(r, k) == Some(v)
    ensures forall k' :: k' != k ==> Lookup(r, k') == Lookup(d, k')
    ensures Contains(d, k) ==> r.keys == d.keys
    ensures !Contains(d, k) ==> r.keys == d.keys + [k]
  {
    if k in d.values then Dict(d.keys, d.values[k := v])
    else Dict(d.keys + [k], d.values[k := v])
  }

  /** The order with one key taken out. */
  function RemoveKey<K(==, !new)>(s: seq<K>, k: K): (r: seq<K>)
    ensures forall x :: x in r <==> x in s && x != k
    ensures NoDuplicates(s) ==> NoDuplicates(r)
    decreases |s|
  {
    if |s| == 0 then []
    else if s[0] == k then RemoveKey(s[1..], k)
    else
      var rest := RemoveKey(s[1..], k);
      assert NoDuplicates(s) ==> NoDuplicates(s[1..]) && s[0] !in s[1..];
      [s[0]] + rest
  }

  /** Taking a key out of an order without duplicates closes the gap it
      leaves: the keys before and after it stay in order. */
  lemma {:induction false} RemoveKeyAt<K(!new)>(s: seq<K>, i: nat)
    requires NoDuplicates(s) && i < |s|
    ensures RemoveKey(s, s[i]) == s[..i] + s[i + 1..]
    decreases |s|
  {
    var t := s[1..];
    NoDuplicatesTail(s);
    if i == 0 {
      RemoveAbsent(t, s[0]);
    } else {
      assert s[0] != s[i];
      assert t[i - 1] == s[i];
      assert RemoveKey(s, s[i]) == [s[0]] + RemoveKey(t, s[i]);
      RemoveKeyAt(t, i - 1);
      assert s[..i] == [s[0]] + t[..i - 1];
      assert s[i + 1..] == t[i..];
    }
  }

  /** Without duplicates, the head is not in the tail, which has no
      duplicates either. */
  lemma NoDuplicatesTail<K>(s: seq<K>)
    requires NoDuplicates(s) && |s| > 0
    ensures NoDuplicates(s[1..]) && s[0] !in s[1..]
  {
    forall i, j | 0 <= i < j < |s| - 1
      ensures s[1..][i] != s[1..][j]
    {
      assert s[1..][i] == s[i + 1] && s[1..][j] == s[j + 1];
    }
    forall j | 0 <= j < |s| - 1
      ensures s[1..][j] != s[0]
    {
      assert s[1..][j] == s[j + 1];
    }
  }

  lemma {:induction false} RemoveAbsent<K(!new)>(s: seq<K>, k: K)
    requires k !in s
    ensures RemoveKey(s, k) == s
    decreases |s|
  {
    if |s| > 0 {
      RemoveAbsent(s[1..], k);
    }
  }

  /** The `KeyError` `del` and `pop` raise for a missing key. */
  datatype KeyError<K> = KeyError(key: K)

  /** `del d[k]`: removes `k` and nothing else; a missing key raises
      `KeyError`. */
  function Del<K(==, !new), V>(d: Dict<K, V>, k: K): (r: Result<Dict<K, V>, KeyError<K>>)
    requires Valid(d)
    ensures r.Failure? <==> !Contains(d, k)
    ensures r.Failure? ==> r.error == KeyError(k)
    ensures r.Success? ==> Valid(r.value) && Lookup(r.value, k) == None
    ensures r.Success? ==> forall k' :: k' != k ==> Lookup(r.value, k') == Lookup(d, k')
  {
    if k !in d.values then Failure(KeyError(k))
    else Success(Dict(RemoveKey(d.keys, k), d.values - {k}))
  }

  /** `del` keeps the order of the keys that remain. */
  lemma DelKeepsOrder<K(!new), V>(d: Dict<K, V>, i: nat)
    requires Valid(d) && i < |d.keys|
    ensures Del(d, d.keys[i]).Success?
    ensures Del(d, d.keys[i]).value.keys == d.keys[..i] + d.keys[i + 1..]
  {
    RemoveKeyAt(d.keys, i);
  }

  /** `d.pop(k)`: the value of `k`, and the dict with `k` deleted; a
      missing key raises `KeyError`. */
  function Pop<K(==, !new), V>(d: Dict<K, V>, k: K): (r: Result<(V, Dict<K, V>), KeyError<K>>)
    requires Valid(d)
    ensures r.Failure? <==> !Contains(d, k)
    ensures r.Failure? ==> r.error == KeyError(k)
    ensures r.Success? ==> Lookup(d, k) == Some(r.value.0) && Del(d, k) == Success(r.value.1)
  {
    match Del(d, k)
    case Failure(e) => Failure(e)
    case Success(rest) => Success((d.values[k], rest))
  }

  /** Assigning a key and then deleting it restores a dict that did not
      have it. */
  lemma SetThenDel<K(!new), V>(d: Dict<K, V>, k: K, v: V)
    requires Valid(d) && !Contains(d, k)
    ensures Del(Set(d, k, v), k) == Success(d)
  {
    assert k !in d.keys;
    RemoveLast(d.keys, k);
    UpdateThenRemove(d.values, k, v);
  }

  /** Taking out a key that was just appended restores the order. */
  lemma {:induction false} RemoveLast<K(!new)>(s: seq<K>, k: K)
    requires k !in s
    ensures RemoveKey(s + [k], k) == s
    decreases |s|
  {
    if |s| == 0 {
      assert [k][1..] == [];
    } else {
      assert (s + [k])[1..] == s[1..] + [k];
      RemoveLast(s[1..], k);
    }
  }

  lemma UpdateThenRemove<K(!new), V>(m: map<K, V>, k: K, v: V)
    requires k !in m
    ensures m[k := v] - {k} == m
  {
  }

  // ---------------------------------------------------------------
  // Counting words.
  // ---------------------------------------------------------------

  /** How many times `w` occurs in `words`. */
  function Count(words: seq<string>, w: string): (c: nat)
    ensures c <= |words|
    decreases |words|
  {
    if |words| == 0 then 0
    else Count(words[..|words| - 1], w) + (if words[|words| - 1] == w then 1 else 0)
  }

  /** The distinct words, in order of first appearance. */
  function Distinct(words: seq<string>): (r: seq<string>)
    ensures NoDuplicates(r)
    ensures forall w :: w in r <==> w in words
    decreases |words|
  {
    if |words| == 0 then []
    else
      var init := words[..|words| - 1];
      var last := words[|words| - 1];
      assert forall w :: w in words <==> w in init || w == last;
      if last in init then Distinct(init) else Distinct(init) + [last]
  }

  /** The dict the loop `word_count[word] = word_count.get(word, 0) + 1`
      builds over `words`: one key per distinct word, in order of first
      appearance, mapped to its number of occurrences. */
  function WordCount(words: seq<string>): (d: Dict<string, int>)
    ensures Valid(d)
    ensures d.keys == Distinct(words)
    ensures forall w :: Get(d, w, 0) == Count(words, w)
    decreases |words|
  {
    if |words| == 0 then Empty()
    else
      var prev := WordCount(words[..|words| - 1]);
      var w := words[|words| - 1];
      assert words == words[..|words| - 1] + [w];
      CountStep(prev, words[..|words| - 1], w);
      Set(prev, w, Get(prev, w, 0) + 1)
  }

  /** One iteration of the counting loop keeps the dict in step with the
      words read so far. */
  lemma CountStep(d: Dict<string, int>, ws: seq<string>, x: string)
    requires Valid(d) && d.keys == Distinct(ws)
    requires forall w :: Get(d, w, 0) == Count(ws, w)
    ensures var d' := Set(d, x, Get(d, x, 0) + 1);
      && Valid(d')
      && d'.keys == Distinct(ws + [x])
      && forall w :: Get(d', w, 0) == Count(ws + [x], w)
  {
    CountStepKeys(d, ws, x, Get(d, x, 0) + 1);
    CountStepCounts(d, ws, x);
  }

  /** The counts after one iteration are the counts of the words so far. */
  lemma CountStepCounts(d: Dict<string, int>, ws: seq<string>, x: string)
    requires Valid(d)
    requires forall w :: Get(d, w, 0) == Count(ws, w)
    ensures forall w :: Get(Set(d, x, Get(d, x, 0) + 1), w, 0) == Count(ws + [x], w)
  {
    forall w
      ensures Get(Set(d, x, Get(d, x, 0) + 1), w, 0) == Count(ws + [x], w)
    {
      CountStepAt(d, ws, x, w);
    }
  }

  /** The key order after one iteration is the distinct words so far. */
  lemma CountStepKeys(d: Dict<string, int>, ws: seq<string>, x: string, v: int)
    requires Valid(d) && d.keys == Distinct(ws)
    ensures Set(d, x, v).keys == Distinct(ws + [x])
  {
    DistinctSnoc(ws, x);
    assert Contains(d, x) <==> x in ws by {
      assert x in d.keys <==> x in d.values;
    }
  }

  /** The count of one word after one iteration. */
  lemma CountStepAt(d: Dict<string, int>, ws: seq<string>, x: string, w: string)
    requires Valid(d)
    requires Get(d, w, 0) == Count(ws, w) && Get(d, x, 0) == Count(ws, x)
    ensures Get(Set(d, x, Get(d, x, 0) + 1), w, 0) == Count(ws + [x], w)
  {
    CountSnoc(ws, x, w);
  }

  /** Reading one more word adds one to its count and nothing to the
      others. */
  lemma CountSnoc(ws: seq<string>, x: string, w: string)
    ensures Count(ws + [x], w) == Count(ws, w) + (if x == w then 1 else 0)
  {
    var ws' := ws + [x];
    assert ws'[..|ws'| - 1] == ws;
  }

  /** Reading one more word appends it to the distinct words exactly when
      it is new. */
  lemma DistinctSnoc(ws: seq<string>, x: string)
    ensures Distinct(ws + [x]) == if x in ws then Distinct(ws) else Distinct(ws) + [x]
  {
    var ws' := ws + [x];
    assert ws'[..|ws'| - 1] == ws;
  }

  /** The loop itself, one word per iteration. */
  method CountWords(words: seq<string>) returns (d: Dict<string, int>)
    ensures Valid(d)
    ensures d.keys == Distinct(words)
    ensures forall w :: Get(d, w, 0) == Count(words, w)
  {
    d := Empty();
    var i := 0;
    while i < |words|
      invariant 0 <= i <= |words|
      invariant Valid(d)
      invariant d.keys == Distinct(words[..i])
      invariant forall w :: Get(d, w, 0) == Count(words[..i], w)
    {
      var word := words[i];
      assert words[..i + 1] == words[..i] + [word];
      CountStep(d, words[..i], word);
      d := Set(d, word, Get(d, word, 0) + 1);
      i := i + 1;
    }
    assert words[..|words|] == words;
  }

  /** Each word's count is positive exactly when it occurs. */
  lemma {:induction false} CountPositive(words: seq<string>, w: string)
    ensures Count(words, w) > 0 <==> w in words
    decreases |words|
  {
    if |words| > 0 {
      var init := words[..|words| - 1];
      CountPositive(init, w);
      assert w in words <==> w in init || w == words[|words| - 1];
    }
  }

  /** Three distinct words in the tutorial's pattern: the first appears
      three times, the second twice, the third once. */
  lemma WordCountPattern(x: string, y: string, z: string)
    requires x != y && y != z && x != z
    ensures WordCount([x, y, x, z, y, x]).keys == [x, y, z]
    ensures WordCount([x, y, x, z, y, x]).values == map[x := 3, y := 2, z := 1]
  {
    var ws := [x, y, x, z, y, x];
    PatternDistinct(x, y, z);
    PatternCounts(x, y, z);
    var d := WordCount(ws);
    assert d.values[x] == 3 by { assert Get(d, x, 0) == Count(ws, x); }
    assert d.values[y] == 2 by { assert Get(d, y, 0) == Count(ws, y); }
    assert d.values[z] == 1 by { assert Get(d, z, 0) == Count(ws, z); }
    ValuesFromGet(d, map[x := 3, y := 2, z := 1]);
  }

  /** A valid dict is determined by its keys and what `get` returns for
      each of them. */
  lemma ValuesFromGet<K(!new), V>(d: Dict<K, V>, m: map<K, V>)
    requires Valid(d)
    requires forall k :: k in d.keys <==> k in m
    requires forall k :: k in m ==> d.values[k] == m[k]
    ensures d.values == m
  {
  }

  lemma PatternPrefixes(x: string, y: string, z: string)
    ensures var ws := [x, y, x, z, y, x];
      && ws[..5] == [x, y, x, z, y]
      && [x, y, x, z, y][..4] == [x, y, x, z]
      && [x, y, x, z][..3] == [x, y, x]
      && [x, y, x][..2] == [x, y]
      && [x, y][..1] == [x]
      && [x][..0] == []
  {
  }

  lemma PatternDistinct(x: string, y: string, z: string)
    requires x != y && y != z && x != z
    ensures Distinct([x, y, x, z, y, x]) == [x, y, z]
  {
    PatternPrefixes(x, y, z);
    assert Distinct([x]) == [x];
    assert Distinct([x, y]) == [x, y];
    assert Distinct([x, y, x]) == [x, y];
    assert Distinct([x, y, x, z]) == [x, y, z];
    assert Distinct([x, y, x, z, y]) == [x, y, z];
  }

  lemma PatternCounts(x: string, y: string, z: string)
    requires x != y && y != z && x != z
    ensures var ws := [x, y, x, z, y, x];
      Count(ws, x) == 3 && Count(ws, y) == 2 && Count(ws, z) == 1
  {
    PatternPrefixes(x, y, z);
    assert Count([x], x) == 1 && Count([x], y) == 0 && Count([x], z) == 0;
    assert Count([x, y], x) == 1 && Count([x, y], y) == 1 && Count([x, y], z) == 0;
    assert Count([x, y, x], x) == 2 && Count([x, y, x], y) == 1 && Count([x, y, x], z) == 0;
    assert Count([x, y, x, z], x) == 2 && Count([x, y, x, z], y) == 1 && Count([x, y, x, z], z) == 1;
    assert Count([x, y, x, z, y], x) == 2 && Count([x, y, x, z, y], y) == 2 && Count([x, y, x, z, y], z) == 1;
  }

  lemma WordCountExample(words: seq<string>)
    requires words == ["apple", "banana", "apple", "orange", "banana", "apple"]
    ensures WordCount(words).keys == ["apple", "banana", "orange"]
    ensures WordCount(words).values == map["apple" := 3, "banana" := 2, "orange" := 1]
  {
    WordCountPattern("apple", "banana", "orange");
  }

  // ---------------------------------------------------------------
  // The inventory walk-through.
  // ---------------------------------------------------------------

  /** Add a third key, update the first, delete the second, pop the third. */
  lemma InventoryPattern(p: string, q: string, r: string, inv: Dict<string, int>)
    requires p != q && q != r && p != r
    requires inv == Dict([p, q], map[p := 10, q := 5])
    ensures var a := Set(Set(inv, r, 15), p, 20);
      && a.keys == [p, q, r]
      && a.values == map[p := 20, q := 5, r := 15]
      && Del(a, q).Success?
      && Del(a, q).value.keys == [p, r]
      && Pop(Del(a, q).value, r).Success?
      && Pop(Del(a, q).value, r).value == (15, Dict([p], map[p := 20]))
  {
    InventorySets(p, q, r, inv);
    var a := Set(Set(inv, r, 15), p, 20);
    InventoryDel(p, q, r, a);
    InventoryPop(p, r, Del(a, q).value);
  }

  lemma InventorySets(p: string, q: string, r: string, inv: Dict<string, int>)
    requires p != q && q != r && p != r
    requires inv == Dict([p, q], map[p := 10, q := 5])
    ensures Set(Set(inv, r, 15), p, 20) == Dict([p, q, r], map[p := 20, q := 5, r := 15])
  {
    InventoryAdd(p, q, r, inv);
    InventoryUpdate(p, q, r, Set(inv, r, 15));
  }

  lemma InventoryAdd(p: string, q: string, r: string, inv: Dict<string, int>)
    requires p != q && q != r && p != r
    requires inv == Dict([p, q], map[p := 10, q := 5])
    ensures Valid(inv) && Set(inv, r, 15) == Dict([p, q, r], map[p := 10, q := 5, r := 15])
  {
    assert Valid(inv);
  }

  lemma InventoryUpdate(p: string, q: string, r: string, a: Dict<string, int>)
    requires p != q && q != r && p != r
    requires a == Dict([p, q, r], map[p := 10, q := 5, r := 15])
    ensures Valid(a) && Set(a, p, 20) == Dict([p, q, r], map[p := 20, q := 5, r := 15])
  {
    assert Valid(a);
    assert Contains(a, p);
    assert map[p := 10, q := 5, r := 15][p := 20] == map[p := 20, q := 5, r := 15];
  }

  lemma InventoryDel(p: string, q: string, r: string, a: Dict<string, int>)
    requires p != q && q != r && p != r
    requires a == Dict([p, q, r], map[p := 20, q := 5, r := 15])
    ensures Valid(a) && Del(a, q) == Success(Dict([p, r], map[p := 20, r := 15]))
  {
    assert Valid(a);
    assert RemoveKey([p, q, r], q) == [p, r] by {
      assert [p, q, r][1..] == [q, r] && [q, r][1..] == [r] && [r][1..] == [];
      assert RemoveKey([r], q) == [r];
      assert RemoveKey([q, r], q) == [r];
      assert RemoveKey([p, q, r], q) == [p] + [r];
    }
    assert map[p := 20, q := 5, r := 15] - {q} == map[p := 20, r := 15];
  }

  lemma InventoryPop(p: string, r: string, b: Dict<string, int>)
    requires p != r
    requires b == Dict([p, r], map[p := 20, r := 15])
    ensures Valid(b) && Pop(b, r) == Success((15, Dict([p], map[p := 20])))
  {
    assert Valid(b);
    DelKeepsOrder(b, 1);
    assert [p, r][..1] + [p, r][2..] == [p];
    assert map[p := 20, r := 15] - {r} == map[p := 20];
  }

  lemma InventoryExample(inv: Dict<string, int>)
    requires inv == Dict(["apples", "oranges"], map["apples" := 10, "oranges" := 5])
    ensures var a := Set(Set(inv, "bananas", 15), "apples", 20);
      && a.keys == ["apples", "oranges", "bananas"]
      && a.values == map["apples" := 20, "oranges" := 5, "bananas" := 15]
      && Del(a, "oranges").Success?
      && Del(a, "oranges").value.keys == ["apples", "bananas"]
      && Pop(Del(a, "oranges").value, "bananas").value == (15, Dict(["apples"], map["apples" := 20]))
  {
    InventoryPattern("apples", "oranges", "bananas", inv);
  }
}
