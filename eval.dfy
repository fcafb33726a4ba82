/** Truth-functional evaluation of a sentence under an interpretation
    (al_eval.js). A letter missing from the interpretation is an assertion
    failure in the source, so it is a precondition here; the "unrecognised
    node or operator" failure cannot arise for the closed datatype. */
module Eval {
  import opened Sentences

  /** An assignment of truth values to letters. */
  type Interpretation = map<char, bool>

  /** `i` assigns a value to every letter of `s`. */
  predicate Covers(i: Interpretation, s: Sentence)
  {
    LettersOf(s) <= i.Keys
  }

  function EvaluateAtomic(c: char, i: Interpretation): bool
    requires c in i
  {
    i[c]
  }

  function EvaluateComplex(s: Sentence, i: Interpretation): bool
    requires !s.Letter? && Covers(i, s)
    decreases s, 0
  {
    match s
    case Bin(Equivalent, l, r) => Evaluate(l, i) == Evaluate(r, i)
    case Bin(Follows, l, r) => !Evaluate(l, i) || Evaluate(r, i)
    case Bin(And, l, r) => Evaluate(l, i) && Evaluate(r, i)
    case Bin(Or, l, r) => Evaluate(l, i) || Evaluate(r, i)
    case Not(o) => !Evaluate(o, i)
  }

  /** evaluateSentence and evaluateSentence_: dispatch on the node kind. */
  function Evaluate(s: Sentence, i: Interpretation): bool
    requires Covers(i, s)
    decreases s, 1
  {
    if s.Letter? then EvaluateAtomic(s.letter, i) else EvaluateComplex(s, i)
  }

  /** A letter has whatever value the interpretation gives it. */
  lemma LetterTakesItsValue(c: char, i: Interpretation, v: bool)
    ensures Evaluate(Letter(c), i[c := v]) == v
  {
  }

  /** The textbook truth table of each binary connective: the pairs of
      operand values that make it true. */
  function TrueRows(op: BinOp): set<(bool, bool)>
  {
    match op
    case Equivalent => {(true, true), (false, false)}
    case Follows => {(true, true), (false, true), (false, false)}
    case And => {(true, true)}
    case Or => {(true, true), (true, false), (false, true)}
  }

  /** A compound sentence is true exactly on its connective's true rows,
      and a negation has the opposite value of its operand. */
  lemma ConnectiveTruthTables(op: BinOp, a: Sentence, b: Sentence, i: Interpretation)
    requires Covers(i, a) && Covers(i, b)
    ensures Evaluate(Bin(op, a, b), i) <==> (Evaluate(a, i), Evaluate(b, i)) in TrueRows(op)
    ensures Evaluate(Not(a), i) <==> !Evaluate(a, i)
  {
  }

  /** Letters outside the sentence do not influence its value: two
      interpretations that agree on the sentence's letters give the same
      result. */
  lemma {:induction false} EvaluateDependsOnlyOnLetters(s: Sentence, i: Interpretation, j: Interpretation)
    requires Covers(i, s) && Covers(j, s)
    requires forall c :: c in LettersOf(s) ==> i[c] == j[c]
    ensures Evaluate(s, i) == Evaluate(s, j)
  {
    match s
    case Letter(c) =>
    case Not(o) =>
      EvaluateDependsOnlyOnLetters(o, i, j);
    case Bin(_, l, r) =>
      EvaluateDependsOnlyOnLetters(l, i, j);
      EvaluateDependsOnlyOnLetters(r, i, j);
  }

  /** Extending an interpretation with extra letters leaves the value alone. */
  lemma EvaluateUnderExtension(s: Sentence, i: Interpretation, extra: Interpretation)
    requires Covers(i, s)
    requires i.Keys !! extra.Keys
    ensures Covers(i + extra, s)
    ensures Evaluate(s, i + extra) == Evaluate(s, i)
  {
    EvaluateDependsOnlyOnLetters(s, i + extra, i);
  }

  /** The connectives relate to one another as in classical logic:
      `follows` is `!lhs | rhs`, `equivalent` holds iff both sides agree,
      and the De Morgan laws hold. */
  lemma ConnectiveLaws(a: Sentence, b: Sentence, i: Interpretation)
    requires Covers(i, a) && Covers(i, b)
    ensures Evaluate(Bin(Follows, a, b), i) == Evaluate(Bin(Or, Not(a), b), i)
    ensures Evaluate(Bin(Equivalent, a, b), i)
            == Evaluate(Bin(And, Bin(Follows, a, b), Bin(Follows, b, a)), i)
    ensures Evaluate(Not(Bin(And, a, b)), i) == Evaluate(Bin(Or, Not(a), Not(b)), i)
    ensures Evaluate(Not(Bin(Or, a, b)), i) == Evaluate(Bin(And, Not(a), Not(b)), i)
    ensures Evaluate(Not(Not(a)), i) == Evaluate(a, i)
  {
    var x, y := Evaluate(a, i), Evaluate(b, i);
    assert Evaluate(Not(a), i) == !x && Evaluate(Not(b), i) == !y;
    assert Evaluate(Bin(Follows, a, b), i) == (!x || y);
    assert Evaluate(Bin(Follows, b, a), i) == (!y || x);
    assert Evaluate(Bin(And, a, b), i) == (x && y);
    assert Evaluate(Bin(Or, a, b), i) == (x || y);
  }
}
