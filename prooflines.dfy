/** The records a proof is made of, shared by the line parser
    (al_proof_parse.js) and the checker (al_proof_check.js). The per-line
    grammar is not part of this model: its output for each raw line is an
    input, either a parsed record or a rejection. */
module ProofLines {
  import opened Wrappers
  import opened Sentences

  /** How a line cites its premises: an object rule lists the cited lines,
      a meta rule the two end points of a sub-proof. */
  datatype CitationKind = ObjectCitation | MetaCitation

  datatype Citation = Citation(name: string, kind: CitationKind, premisesLines: seq<int>)

  /** What the line grammar yields for one raw line: a sentence line
      (`|<n> <sentence> <rule>(<lines>)`, with its bar depth) or a separator
      (`|-`). */
  datatype LineRecord =
    | SentenceRecord(depth: int, lineNumber: int, sentence: Sentence, argument: Citation)
    | SeparatorRecord(depth: int)

  /** A sentence line accepted by the parser, tagged with its 0-based raw
      index in the input. */
  datatype ProofLine = ProofLine(rawLineNumber: int, depth: int, lineNumber: int, sentence: Sentence, argument: Citation)

  /** The error kinds of both the parser and the checker. `SeparatorInBody`
      and `LineNumberOutOfRange` stand for the two places where the source
      reads a field of a missing value and throws. */
  datatype ErrorKind =
    | InvalidLine
    | InvalidDepth
    | ExpectedSeparatorOrPremise
    | ExpectedSeparator
    | ExpectedPremise
    | ExpectedAssumption
    | InvalidArgumentName
    | ParserError
    | SeparatorInBody
    | InvalidNumbering
    | InaccessiblePremise
    | InvalidArgumentApplication
    | InvalidPremise
    | LineNumberOutOfRange

  /** An error with the raw index of the offending line and that line's
      record (`None` for end of input and for a line the grammar rejected). */
  datatype ProofError = ProofError(kind: ErrorKind, rawLineNumber: int, line: Option<LineRecord>)

  function Tag(raw: int, rec: LineRecord): ProofLine
    requires rec.SentenceRecord?
  {
    ProofLine(raw, rec.depth, rec.lineNumber, rec.sentence, rec.argument)
  }

  /** The record a proof line was parsed from. */
  function RecordOf(l: ProofLine): LineRecord
  {
    SentenceRecord(l.depth, l.lineNumber, l.sentence, l.argument)
  }

  /** The error `kind` reported against an accepted line. */
  function LineError(kind: ErrorKind, l: ProofLine): ProofError
  {
    ProofError(kind, l.rawLineNumber, Some(RecordOf(l)))
  }
}
