/** The propositional sentence tree shared by the evaluator, the printer and the
    matching engine. A sentence is a letter, a negation or one of four binary
    connectives; in rule templates every letter is a schema variable. */
module Sentences {

  datatype BinOp = Equivalent | Follows | And | Or

  datatype Sentence =
    | Letter(letter: char)
    | Not(operand: Sentence)
    | Bin(op: BinOp, lhs: Sentence, rhs: Sentence)

  /** The letters occurring anywhere in `s`. */
  function LettersOf(s: Sentence): set<char>
  {
    match s
    case Letter(c) => {c}
    case Not(o) => LettersOf(o)
    case Bin(_, l, r) => LettersOf(l) + LettersOf(r)
  }

  /** The implication `lhs -> rhs`. */
  function Implies(lhs: Sentence, rhs: Sentence): Sentence
  {
    Bin(Follows, lhs, rhs)
  }
}
