/** Truth tables (al_models.js): enumerating the interpretations of a list of
    letters, collecting the letters of a sentence, and splitting all
    interpretations of a sentence's letters into models and counter-models. */
module Models {
  import opened Sentences
  import opened Eval

  function Pow2(n: nat): nat
  {
    if n == 0 then 1 else 2 * Pow2(n - 1)
  }

  /** One step of the reduce in enumerateInterpretations: each interpretation
      is replaced, in place, by its two extensions with `c` true, then false. */
  function Extend(rows: seq<Interpretation>, c: char): (r: seq<Interpretation>)
    ensures |r| == 2 * |rows|
    ensures forall k :: 0 <= k < |rows| ==> r[2 * k] == rows[k][c := true] && r[2 * k + 1] == rows[k][c := false]
  {
    if rows == [] then [] else [rows[0][c := true], rows[0][c := false]] + Extend(rows[1..], c)
  }

  /** enumerateInterpretations: a left fold of Extend over the letters,
      starting from the single empty interpretation. */
  function EnumerateInterpretations(letters: seq<char>): (r: seq<Interpretation>)
    ensures |r| == Pow2(|letters|)
  {
    if letters == [] then [map[]]
    else Extend(EnumerateInterpretations(letters[..|letters| - 1]), letters[|letters| - 1])
  }

  /** Every interpretation of `rows` with `c` set to `b` underneath (letters
      already in the interpretation keep their values). */
  function Under(c: char, b: bool, rows: seq<Interpretation>): (r: seq<Interpretation>)
    ensures |r| == |rows|
    ensures forall k :: 0 <= k < |rows| ==> r[k] == map[c := b] + rows[k]
  {
    seq(|rows|, k requires 0 <= k < |rows| => map[c := b] + rows[k])
  }

  /** Reference truth table, recursive on the FIRST letter: all rows with the
      first letter true, then all rows with it false. */
  function TruthTable(letters: seq<char>): seq<Interpretation>
  {
    if letters == [] then [map[]]
    else
      var rest := TruthTable(letters[1..]);
      Under(letters[0], true, rest) + Under(letters[0], false, rest)
  }

  lemma {:induction false} ExtendAppend(a: seq<Interpretation>, b: seq<Interpretation>, d: char)
    ensures Extend(a + b, d) == Extend(a, d) + Extend(b, d)
  {
    if a == [] {
      assert a + b == b;
    } else {
      assert (a + b)[1..] == a[1..] + b;
      ExtendAppend(a[1..], b, d);
    }
  }

  lemma MapUpdateUnder(m: Interpretation, row: Interpretation, d: char, b: bool)
    ensures m + row[d := b] == (m + row)[d := b]
  {
  }

  lemma UnderExtend(c: char, v: bool, xs: seq<Interpretation>, d: char)
    ensures Under(c, v, Extend(xs, d)) == Extend(Under(c, v, xs), d)
  {
    var lhs, rhs := Under(c, v, Extend(xs, d)), Extend(Under(c, v, xs), d);
    forall k | 0 <= k < |xs|
      ensures lhs[2 * k] == rhs[2 * k] && lhs[2 * k + 1] == rhs[2 * k + 1]
    {
      MapUpdateUnder(map[c := v], xs[k], d, true);
      MapUpdateUnder(map[c := v], xs[k], d, false);
    }
    forall n | 0 <= n < |lhs|
      ensures lhs[n] == rhs[n]
    {
      var k := n / 2;
      assert n == 2 * k || n == 2 * k + 1;
    }
  }

  /** Appending a letter to the reference table is one Extend step. */
  lemma {:induction false} TruthTableSnoc(letters: seq<char>, d: char)
    ensures TruthTable(letters + [d]) == Extend(TruthTable(letters), d)
  {
    if letters == [] {
      assert [d][1..] == [];
      assert map[d := true] + map[] == map[][d := true];
      assert map[d := false] + map[] == map[][d := false];
    } else {
      var c, rest := letters[0], letters[1..];
      assert (letters + [d])[0] == c && (letters + [d])[1..] == rest + [d];
      TruthTableSnoc(rest, d);
      var x := TruthTable(rest);
      UnderExtend(c, true, x, d);
      UnderExtend(c, false, x, d);
      ExtendAppend(Under(c, true, x), Under(c, false, x), d);
    }
  }

  /** The source's left fold enumerates exactly the reference truth table:
      the first letter varies slowest, and true comes before false. */
  lemma {:induction false} EnumerationIsTruthTable(letters: seq<char>)
    ensures EnumerateInterpretations(letters) == TruthTable(letters)
  {
    if letters != [] {
      var init, last := letters[..|letters| - 1], letters[|letters| - 1];
      EnumerationIsTruthTable(init);
      TruthTableSnoc(init, last);
      assert init + [last] == letters;
    }
  }

  /** The truth table of n letters has 2^n rows, each assigning exactly the
      given letters. */
  lemma {:induction false} TruthTableShape(letters: seq<char>)
    ensures |TruthTable(letters)| == Pow2(|letters|)
    ensures forall k :: 0 <= k < |TruthTable(letters)| ==>
              TruthTable(letters)[k].Keys == set c | c in letters
  {
    if letters != [] {
      var rest := letters[1..];
      TruthTableShape(rest);
      assert forall c :: c in letters <==> c == letters[0] || c in rest;
    }
  }

  /** enumerateInterpretations of n letters returns 2^n interpretations, each
      of which assigns exactly the given letters. */
  lemma EnumerationShape(letters: seq<char>)
    ensures |EnumerateInterpretations(letters)| == Pow2(|letters|)
    ensures forall k :: 0 <= k < |EnumerateInterpretations(letters)| ==>
              EnumerateInterpretations(letters)[k].Keys == set c | c in letters
  {
    EnumerationIsTruthTable(letters);
    TruthTableShape(letters);
  }

  /** For letters without repetitions, the first half of the enumeration
      makes the first letter true and the second half makes it false. */
  lemma FirstLetterVariesSlowest(letters: seq<char>, k: nat)
    requires |letters| > 0 && letters[0] !in letters[1..]
    requires k < Pow2(|letters|)
    ensures |EnumerateInterpretations(letters)| == Pow2(|letters|)
    ensures letters[0] in EnumerateInterpretations(letters)[k]
    ensures EnumerateInterpretations(letters)[k][letters[0]] == (k < Pow2(|letters| - 1))
  {
    EnumerationIsTruthTable(letters);
    TruthTableShape(letters);
    var rest := TruthTable(letters[1..]);
    TruthTableShape(letters[1..]);
    var n := Pow2(|letters| - 1);
    var row := if k < n then rest[k] else rest[k - n];
    assert letters[0] !in row.Keys;
  }

  /** The letters of `s` in visiting order, with repetitions. */
  function Visit(s: Sentence): (r: seq<char>)
    ensures forall c :: c in r <==> c in LettersOf(s)
  {
    match s
    case Letter(c) => [c]
    case Not(o) => Visit(o)
    case Bin(_, l, r) => Visit(l) + Visit(r)
  }

  predicate StrictlyIncreasing(r: seq<char>)
  {
    forall i, j :: 0 <= i < j < |r| ==> r[i] < r[j]
  }

  /** Inserts `c` into an increasing list unless it is already there. */
  function Insert(c: char, r: seq<char>): (t: seq<char>)
    requires StrictlyIncreasing(r)
    ensures StrictlyIncreasing(t)
    ensures forall x :: x in t <==> x == c || x in r
  {
    if r == [] then [c]
    else if c < r[0] then [c] + r
    else if c == r[0] then r
    else
      TailIncreasing(r);
      var u := Insert(c, r[1..]);
      ConsIncreasing(r[0], u);
      assert r == [r[0]] + r[1..];
      [r[0]] + u
  }

  lemma TailIncreasing(r: seq<char>)
    requires StrictlyIncreasing(r) && r != []
    ensures StrictlyIncreasing(r[1..])
    ensures forall x :: x in r[1..] ==> r[0] < x
  {
    forall x | x in r[1..]
      ensures r[0] < x
    {
      var k :| 0 <= k < |r[1..]| && r[1..][k] == x;
      assert r[k + 1] == x;
    }
  }

  lemma ConsIncreasing(a: char, u: seq<char>)
    requires StrictlyIncreasing(u)
    requires forall x :: x in u ==> a < x
    ensures StrictlyIncreasing([a] + u)
  {
    var t := [a] + u;
    forall i, j | 0 <= i < j < |t|
      ensures t[i] < t[j]
    {
      assert t[j] == u[j - 1] && u[j - 1] in u;
      if i > 0 {
        assert t[i] == u[i - 1];
      }
    }
  }

  /** `[...new Set(cs)].sort()`: the distinct letters of `cs`, increasing. */
  function SortedLetters(cs: seq<char>): (r: seq<char>)
    ensures StrictlyIncreasing(r)
    ensures forall c :: c in r <==> c in cs
  {
    if cs == [] then []
    else Insert(cs[|cs| - 1], SortedLetters(cs[..|cs| - 1]))
  }

  /** getLettersInSentence: the sorted, duplicate-free list of the letters of
      `s`. */
  function GetLettersInSentence(s: Sentence): (r: seq<char>)
    ensures StrictlyIncreasing(r)
    ensures forall c :: c in r <==> c in LettersOf(s)
  {
    SortedLetters(Visit(s))
  }

  /** `i` interprets every letter of `s` and makes it `value`. */
  predicate Gives(s: Sentence, i: Interpretation, value: bool)
  {
    Covers(i, s) && Evaluate(s, i) == value
  }

  /** Every interpretation in `rows` gives `s` the value `value`. */
  predicate AllGive(s: Sentence, rows: seq<Interpretation>, value: bool)
  {
    forall k :: 0 <= k < |rows| ==> Gives(s, rows[k], value)
  }

  /** Every interpretation in `rows` interprets every letter of `s`. */
  predicate RowsCover(s: Sentence, rows: seq<Interpretation>)
  {
    forall k :: 0 <= k < |rows| ==> Covers(rows[k], s)
  }

  /** The rows of `rows` that give `s` the value `value`, in their order. */
  function RowsGiving(s: Sentence, rows: seq<Interpretation>, value: bool): (r: seq<Interpretation>)
    requires RowsCover(s, rows)
    ensures AllGive(s, r, value)
  {
    if rows == [] then []
    else
      var last := rows[|rows| - 1];
      var front := RowsGiving(s, rows[..|rows| - 1], value);
      if Evaluate(s, last) == value then front + [last] else front
  }

  /** getAllModels: every interpretation of the sentence's letters goes into
      exactly one of two lists, the models (true) or the counter-models
      (false), each keeping the enumeration's order. */
  method GetAllModels(s: Sentence) returns (models: seq<Interpretation>, counterModels: seq<Interpretation>)
    ensures RowsCover(s, EnumerateInterpretations(GetLettersInSentence(s)))
    ensures models == RowsGiving(s, EnumerateInterpretations(GetLettersInSentence(s)), true)
    ensures counterModels == RowsGiving(s, EnumerateInterpretations(GetLettersInSentence(s)), false)
    ensures AllGive(s, models, true) && AllGive(s, counterModels, false)
    ensures multiset(models) + multiset(counterModels)
            == multiset(EnumerateInterpretations(GetLettersInSentence(s)))
    ensures |models| + |counterModels| == Pow2(|GetLettersInSentence(s)|)
  {
    var all := EnumerateInterpretations(GetLettersInSentence(s));
    RowsCoverSentence(s);
    models, counterModels := [], [];
    for n := 0 to |all|
      invariant RowsCover(s, all[..n])
      invariant models == RowsGiving(s, all[..n], true) && counterModels == RowsGiving(s, all[..n], false)
    {
      var row := all[n];
      assert all[..n + 1][..n] == all[..n] && all[..n + 1][n] == row;
      if Evaluate(s, row) {
        models := models + [row];
      } else {
        counterModels := counterModels + [row];
      }
    }
    assert all[..|all|] == all;
    RowsSplit(s, all);
    MultisetSizes(models, counterModels, all);
  }

  /** Filtering by the value true and by the value false splits the rows:
      every row lands in exactly one of the two lists. */
  lemma {:induction false} RowsSplit(s: Sentence, rows: seq<Interpretation>)
    requires RowsCover(s, rows)
    ensures multiset(RowsGiving(s, rows, true)) + multiset(RowsGiving(s, rows, false)) == multiset(rows)
  {
    if rows != [] {
      var front, last := rows[..|rows| - 1], rows[|rows| - 1];
      assert RowsCover(s, front);
      RowsSplit(s, front);
      var t, f := RowsGiving(s, front, true), RowsGiving(s, front, false);
      if Evaluate(s, last) {
        assert RowsGiving(s, rows, true) == t + [last] && RowsGiving(s, rows, false) == f;
      } else {
        assert RowsGiving(s, rows, true) == t && RowsGiving(s, rows, false) == f + [last];
      }
      assert rows == front + [last];
    }
  }

  /** Each enumerated row for a sentence's letters covers the sentence, and
      there are 2^n of them. */
  lemma RowsCoverSentence(s: Sentence)
    ensures |EnumerateInterpretations(GetLettersInSentence(s))| == Pow2(|GetLettersInSentence(s)|)
    ensures forall k :: 0 <= k < |EnumerateInterpretations(GetLettersInSentence(s))| ==>
              Covers(EnumerateInterpretations(GetLettersInSentence(s))[k], s)
  {
    var letters := GetLettersInSentence(s);
    EnumerationShape(letters);
  }

  lemma MultisetSizes<T>(a: seq<T>, b: seq<T>, all: seq<T>)
    requires multiset(a) + multiset(b) == multiset(all)
    ensures |a| + |b| == |all|
  {
    assert |multiset(a) + multiset(b)| == |multiset(all)|;
  }
}
