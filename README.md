# logicjs core in Dafny

A model of the core of logicjs, a web trainer for propositional (and a little
predicate) logic, with proofs of what each operation promises. It covers:

- Sentences of propositional logic, their truth-functional evaluation and
  their truth tables (`al_eval.js`, `al_models.js`).
- The fully parenthesising printer (`al_print.js`).
- The rule matcher that decides whether a line follows from the lines it
  cites by a named rule (`al_arguments.js`).
- The parser that turns the lines of a natural-deduction proof into
  accepted lines, and the checker that decides whether those lines form a
  correct proof (`al_proof_parse.js`, `al_proof_check.js`).
- The bound-variable check on predicate-logic sentences (`pl_parse.js`).
- The quiz state machine (`exercise.js`) and the session table
  (`session.js`).

One module per source file:

| file | module | source |
|---|---|---|
| wrappers.dfy | Wrappers | `Option` and `Result` |
| sentences.dfy | Sentences | the sentence tree shared by all modules |
| eval.dfy | Eval | al_eval.js |
| models.dfy | Models | al_models.js |
| print.dfy | Print | al_print.js |
| arguments.dfy | Arguments | al_arguments.js |
| prooflines.dfy | ProofLines | the line records and errors of the parser and checker |
| proof_parse.dfy | ProofParse | al_proof_parse.js |
| proof_check.dfy | ProofCheck | al_proof_check.js |
| pl_check.dfy | PlCheck | pl_parse.js |
| exercise.dfy | Exercises | exercise.js |
| session.dfy | Sessions | session.js |

Code that computes values is modelled as functions and lemmas. Code that
changes state is modelled as methods:

- the parser's cursor and accepted lines are fields of `ProofParser`;
- the exercise's counters and state are fields of `Exercise`;
- the session dictionary is a field of `SessionTable`.

Each such method is proved equal to a specification function, or states
its new state outright. The loops of the source stay loops:
`joinMapping`, `matchMappings_`, `matchObjectArgument`, `checkArgument`,
the four checker stages, the accessibility scan, `getAllModels` and
`cleanupSessions`.

Conventions:

- The rule catalogue (`al_argument_definitions.json`) is a parameter: a map
  from rule name to its overloads.
- The per-line proof grammar is not part of this model. Its output for each
  raw line is an input: `Some(record)`, or `None` for a line it rejects.
  The end of the input is the record without a type that `nextLine` makes
  past the last line.
- Line numbers are stored 0-based, as the grammar stores them (`|1 ...` has
  line number 0).
- Clocks (`Date.now`) are a `now` parameter.
- The question factory of an exercise is split in two: the question
  `makeQuestion` would return is a parameter of the operation that asks
  it, and `checkAnswer` is a function fixed at construction.
- Operator transcription (`transcribe.js`) is a function parameter `tr`.
- `checkVariables` in pl_parse.js hands plain sentence nodes, not results,
  to `match_result` in its recursive calls. The model takes a plain value
  to be treated as a success, so that the callback runs on the node
  itself, which is what the repository's tests of `parse` rely on.

## Model

| member | source | states |
|---|---|---|
| Eval.EvaluateDependsOnlyOnLetters | al_eval.js:17-45 | two interpretations that agree on the sentence's letters give it the same value |
| Eval.EvaluateUnderExtension | al_eval.js:17-51 | adding letters that are not in the interpretation leaves a sentence's value unchanged |
| Eval.LetterTakesItsValue | al_eval.js:17-20 | gives `EvaluateAtomic` its meaning: a letter has whatever value the interpretation assigns it |
| Eval.ConnectiveTruthTables | al_eval.js:22-35 | gives `EvaluateComplex` its meaning: a compound sentence is true exactly on the rows of its connective's textbook truth table, and a negation flips its operand |
| Arguments.InstanceValue | al_eval.js:17-51 | gives `Evaluate` its meaning as a compositional semantics: an instance of a pattern has the value the pattern takes when each schema variable has the value of its image |
| Eval.ConnectiveLaws | al_eval.js:22-35 | `follows` is `!lhs \| rhs`; `equivalent` is implication both ways; the De Morgan laws and double negation hold |
| Models.EnumerateInterpretations | al_models.js:9-19 | n letters give 2^n interpretations |
| Models.Extend | al_models.js:10-16 | one reduce step doubles the rows, with each row extended by the letter true and then false, in place |
| Models.EnumerationIsTruthTable | al_models.js:9-19 | the left fold equals a reference truth table that puts the first letter outermost, true before false |
| Models.EnumerationShape | al_models.js:9-19 | n letters give 2^n interpretations, each assigning exactly those letters |
| Models.FirstLetterVariesSlowest | al_models.js:9-19 | for distinct letters, the first half of the rows makes the first letter true and the second half false |
| Models.Visit | al_models.js:22-31 | the visit yields exactly the letters occurring in the sentence |
| Models.Insert | al_models.js:32-35 | inserting into an increasing duplicate-free list keeps it so and adds exactly the letter |
| Models.SortedLetters | al_models.js:32-35 | the set-then-sort step gives an increasing list with exactly the input's letters |
| Models.GetLettersInSentence | al_models.js:21-36 | the result is increasing (sorted, no duplicates) and holds exactly the sentence's letters |
| Models.RowsGiving | al_models.js:38-49 | every row kept by the filter gives the sentence the value filtered for |
| Models.RowsSplit | al_models.js:38-49 | filtering for true and for false splits the rows: together the two lists hold every row exactly once |
| Models.GetAllModels | al_models.js:38-49 | `true` is the enumeration filtered, in order, to the rows that make the sentence true, and `false` the rows that make it false; every row lands in exactly one list, and together they number 2^n |
| Models.RowsCoverSentence | al_models.js:38-40 | each enumerated row interprets every letter of the sentence, so evaluation never fails |
| Print.SentenceToString | al_print.js:7-28 | without transcription, the alphabetic characters of the text are exactly the alphabetic letters of the sentence |
| Print.ReadPrinted | al_print.js:7-28 | reading the printed text back (identity transcription) gives the sentence and leaves the following text untouched |
| Print.PrintInjective | al_print.js:7-28 | two sentences with alphabetic letters that print alike are equal |
| Print.ReadOperatorText | al_print.js:11-18 | each connective's spelling, ` <-> `, ` -> `, ` & ` or ` \| `, is read back as that connective |
| Arguments.Join | al_arguments.js:19-31 | Ok iff the two mappings agree on shared keys; the result keeps every lhs binding and adds rhs's other keys; the error is IncompatibleMapping |
| Arguments.JoinMapping | al_arguments.js:19-31 | the key-by-key loop computes `Join` |
| Arguments.MatchMappingPair | al_arguments.js:33-42 | true iff the mappings agree on every shared key |
| Arguments.MatchMappings | al_arguments.js:44-49 | true iff every pair of the mappings agrees on shared keys |
| Arguments.MatchSentence | al_arguments.js:51-70 | on success the keys are exactly the pattern's letters and substituting gives the sentence; a compound pattern with another root connective fails with IncompatibleOperators |
| Arguments.MatchComplete | al_arguments.js:51-70 | if some mapping turns the pattern into the sentence, matching succeeds with exactly that mapping's bindings of the pattern's letters |
| Arguments.MatchIffInstance | al_arguments.js:51-70 | a pattern matches a sentence iff the sentence is an instance of the pattern |
| Arguments.RepeatedVariableMustAgree | al_arguments.js:56-61 | `A -> A` does not match `p -> q`: the join fails with IncompatibleMapping |
| Arguments.MapResult | al_arguments.js:58 | the values of all results when all are Ok, an error otherwise |
| Arguments.MatchObjectArgument | al_arguments.js:72-86 | the loop collecting one match per premise, then the conclusion, computes the object-rule outcome |
| Arguments.ObjectMatchSound | al_arguments.js:72-86 | on success one mapping instantiates every premise pattern and the conclusion pattern at once |
| Arguments.ObjectMatchComplete | al_arguments.js:72-86 | if one mapping instantiates all the patterns, the object rule matches |
| Arguments.Candidates | al_arguments.js:101-103 | the candidates are `assumption -> line` for every line of the sub-proof, `assumption -> assumption` included |
| Arguments.PossibleMappings | al_arguments.js:104-113 | for each inference pattern, its matches among the candidates that agree with the conclusion's mapping |
| Arguments.MatchMetaArgument | al_arguments.js:98-137 | a conclusion that does not match fails with the matcher's own error; past it, the only failure is ArgumentDoesNotMatch; it never reports InvalidArgumentUsage |
| Arguments.MetaMatchSound | al_arguments.js:98-137 | on success the conclusion matches, and each inference pattern is instantiated to `assumption -> some line` by a mapping that agrees with the conclusion's mapping and with the reference mapping |
| Arguments.MetaMatchComplete | al_arguments.js:98-137 | if one mapping instantiates the conclusion and turns every inference pattern into `assumption -> some line`, the meta rule matches |
| Arguments.SingleArgument | al_arguments.js:139-168 | an object rule cited with a premise count other than its arity fails with InvalidArgumentUsage before matching; every other failure is ArgumentDoesNotMatch |
| Arguments.ObjectRuleIff | al_arguments.js:139-154 | an object rule applies iff the premise count is its arity and one mapping instantiates all its patterns |
| Arguments.CheckSingleArgument | al_arguments.js:139-168 | computes `SingleArgument` |
| Arguments.CheckArgument | al_arguments.js:170-179 | Ok iff some overload under the name applies, so an unknown name fails; the only error is ArgumentDoesNotMatch |
| ProofParse.DepthOutcome | al_proof_parse.js:37-43 | Ok iff the line's depth is the expected one, InvalidDepth at that line otherwise |
| ProofParse.NextOutcome | al_proof_parse.js:120-135 | each call consumes the line under the cursor and appends exactly the sentence lines consumed; an error names the last line read; a line the grammar rejected, in the premise section or the body, is a ParserError at its raw index |
| ProofParse.PremiseOrSeparatorOutcome | al_proof_parse.js:45-55 | on success every line consumed before the separator is a `V` line at depth 1 and the run ends on a separator |
| ProofParse.SeparatorOutcome | al_proof_parse.js:57-65 | Ok iff the line is a separator; the state is not changed |
| ProofParse.PremiseOutcome | al_proof_parse.js:67-80 | a premise is accepted only at depth 1, and the premise section goes on |
| ProofParse.AssumptionOutcome | al_proof_parse.js:82-95 | an accepted `A` line must be followed by a separator, and the body then runs to the end of the input |
| ProofParse.ArgumentOutcome | al_proof_parse.js:97-106 | on success the body runs to the end of the input and every accepted line names a known rule |
| ProofParse.ArgumentOrSubproofOutcome | al_proof_parse.js:108-118 | on success every accepted line deeper than the one before it is an `A` line followed by a separator |
| ProofParse.ParseOkShape | al_proof_parse.js:137-148 | on success no line was rejected, the result is exactly the sentence lines in input order tagged with their 0-based raw index, the premise section is `V` lines at depth 1 closed by a separator, every deeper line is an `A` line followed by a separator, and every rule name is known |
| ProofParse.PremiseSectionErrors | al_proof_parse.js:45-80 | after the premises: end of input is ExpectedSeparatorOrPremise at index = number of lines; a rejected line is ParserError; a `V` line not at depth 1 is InvalidDepth; any other rule is ExpectedSeparatorOrPremise |
| ProofParse.RejectedFirstBodyLine | al_proof_parse.js:120-148 | premises, a separator, then a line the grammar rejects: the parse fails with ParserError at that line's raw index |
| ProofParse.BodyLineErrors | al_proof_parse.js:82-135 | a line the grammar rejected is ParserError at its index, also right after an `A` line; a deeper line that is not `A` is ExpectedAssumption; an `A` line not followed by a separator is ExpectedSeparator, at end of input too; a separator at no greater depth is SeparatorInBody; an unknown rule name is InvalidArgumentName |
| ProofParse.PremisesOnlyAccepted | al_proof_parse.js:137-148 | premises closed by a separator and nothing else parse to exactly the premises |
| ProofParse.SeparatorEndsPremises | al_proof_parse.js:48-49 | a separator ends the premise section successfully, consuming one line |
| ProofParse.EndOfInputEndsBody | al_proof_parse.js:98-99 | the end of the input ends the body successfully |
| ProofParse.ProofParser.constructor | al_proof_parse.js:138 | the cursor starts at 0 with no accepted lines |
| ProofParse.ProofParser.NextLine | al_proof_parse.js:120-135 | the in-place cursor and result agree with `NextOutcome` |
| ProofParse.ProofParser.CheckDepth | al_proof_parse.js:37-43 | computes `DepthOutcome` |
| ProofParse.ProofParser.ParsePremiseOrSeparator | al_proof_parse.js:45-55 | the in-place state agrees with `PremiseOrSeparatorOutcome` |
| ProofParse.ProofParser.ParseSeparator | al_proof_parse.js:57-65 | the in-place state agrees with `SeparatorOutcome` |
| ProofParse.ProofParser.ParsePremise | al_proof_parse.js:67-80 | the in-place state agrees with `PremiseOutcome` |
| ProofParse.ProofParser.ParseAssumption | al_proof_parse.js:82-95 | the in-place state agrees with `AssumptionOutcome` |
| ProofParse.ProofParser.ParseArgument | al_proof_parse.js:97-106 | the in-place state agrees with `ArgumentOutcome` |
| ProofParse.ProofParser.ParseArgumentOrSubproof | al_proof_parse.js:108-118 | the in-place state agrees with `ArgumentOrSubproofOutcome` |
| ProofParse.ParseProofOutcome | al_proof_parse.js:137-148 | on success every accepted line names `V`, `A` or a rule of the catalogue |
| ProofParse.ParseProof | al_proof_parse.js:137-148 | the parse through a `ProofParser` object computes `ParseProofOutcome` |
| ProofCheck.FirstMisnumbered | al_proof_check.js:18-23 | the first position whose line number differs from the position |
| ProofCheck.Numbering | al_proof_check.js:15-27 | Ok iff every line's number is its position, returning the lines unchanged; otherwise InvalidNumbering at the first misnumbered line |
| ProofCheck.CheckNumbering | al_proof_check.js:15-27 | the loop computes `Numbering`; an earlier error passes through |
| ProofCheck.MinDepth | al_proof_check.js:41-44 | the running minimum depth of the scan is at most every depth passed, and is one of them |
| ProofCheck.RemainingIsUnfound | al_proof_check.js:38-53 | after the backward scan, exactly the cited numbers that no usable line below carries are left to find |
| ProofCheck.LineAccessIff | al_proof_check.js:32-56 | one line's scan succeeds iff every line it cites is found below it at a usable depth; the scan reads past the end only when its line number exceeds the line count |
| ProofCheck.CheckLineAccess | al_proof_check.js:33-56 | the while loop over `premises_to_find`, `current_depth` and `max_meta_depth` computes `LineAccess` |
| ProofCheck.Accessibility | al_proof_check.js:29-61 | on success the lines come back unchanged; the only errors are InaccessiblePremise and LineNumberOutOfRange |
| ProofCheck.AccessibilityIff | al_proof_check.js:29-61 | the stage succeeds iff every citation of every line reaches a usable line, returning the lines unchanged; a failure is reported against the first line whose citations do not all reach, as LineNumberOutOfRange when that line cites something and its number lies past the end, as InaccessiblePremise otherwise |
| ProofCheck.CheckAccessibilityOfPremises | al_proof_check.js:29-61 | the loop computes `Accessibility`; an earlier error passes through |
| ProofCheck.ObjectReachesIff | al_proof_check.js:41-51 | an object rule may cite a line iff it is no deeper than the citing line and no line between them is shallower: closed sub-proofs are invisible |
| ProofCheck.MetaReachesIff | al_proof_check.js:36-48 | a meta rule may cite a line one deeper than the citing line when no line between is shallower than the citing line, or a line shallower than the citing line when no line between is shallower than that line |
| ProofCheck.AllowedPremises | al_proof_check.js:63-80 | on success the lines come back unchanged; the only error is InvalidPremise, and only when a list is given |
| ProofCheck.AllowedPremisesIff | al_proof_check.js:63-80 | with no list any premise passes; otherwise Ok iff every `V` line's sentence is in the list, returning the lines unchanged; a failure is InvalidPremise at the first `V` line whose sentence is not |
| ProofCheck.CheckAllowedPremises | al_proof_check.js:63-80 | the loop computes `AllowedPremises`; an earlier error passes through |
| ProofCheck.CitedSentences | al_proof_check.js:90 | the cited sentences, defined iff every cited number is a position of the proof |
| ProofCheck.CheckedArguments | al_proof_check.js:82-101 | on success the lines come back unchanged; the only errors are InvalidArgumentApplication and LineNumberOutOfRange |
| ProofCheck.CheckedArgumentsIff | al_proof_check.js:82-101 | `V` and `A` lines are never checked; the stage succeeds iff every other line applies its rule correctly to the sentences it cites, returning the lines unchanged; a failure is reported against the first line that does not, as LineNumberOutOfRange when it cites a number outside the proof and InvalidArgumentApplication otherwise |
| ProofCheck.CheckArguments | al_proof_check.js:82-101 | the loop computes `CheckedArguments`; a rule failure is InvalidArgumentApplication at that line |
| ProofCheck.CheckProofOutcome | al_proof_check.js:103-113 | on success the lines come back unchanged; an error is one of the stages' kinds, and InvalidNumbering only for lines not numbered in order |
| ProofCheck.CheckProof | al_proof_check.js:103-113 | an incoming error passes through unchanged; otherwise the stages run in the order accessibility, numbering, allowed premises, rules |
| ProofCheck.CheckProofIff | al_proof_check.js:103-113 | the check accepts iff the lines are numbered in order, every citation reaches, the premises are allowed and every rule applies; it then returns the lines unchanged |
| ProofCheck.CitedLinesEarlier | al_proof_check.js:37-51 | in an accepted proof every cited line lies strictly before the citing line |
| ProofCheck.CitationsInRange | al_proof_check.js:88-92 | in a numbered proof whose citations reach, the rule stage never reads a missing line |
| ProofCheck.NestedEndpointNotFound | al_proof_check.js:41-51 | as written, a meta citation finds a line only at exactly the meta depth: a sub-proof cited as `RAA(3-7)` whose last line 7 lies in a further nested sub-proof is rejected with InaccessiblePremise, whatever the rule catalogue |
| ProofCheck.OutOfRangeBeforeNumbering | al_proof_check.js:103-113 | as written, a line numbered past the end that cites a line ends the check in the scan, not in InvalidNumbering |
| ProofCheck.NumberedFirstNeverOutOfRange | al_proof_check.js:103-113 | with numbering first no stage reads a missing line, and the same proofs are accepted |
| PlCheck.ObjectsBound | pl_parse.js:42-46 | the reduce is true iff every argument that is `x`, `y` or `z` is in the bound list |
| PlCheck.CheckVariablesAsWritten | pl_parse.js:28-52 | as written, a success hands back a predicate, and the only error is UnboundVariable |
| PlCheck.AsWrittenReturnsLastPredicate | pl_parse.js:28-52 | as written, success hands back the rightmost predicate of the sentence |
| PlCheck.AsWrittenDropsTheSentence | pl_parse.js:33-36 | as written, `Fa & Gb` passes and gives back `Gb` alone |
| PlCheck.CheckVariables | pl_parse.js:28-52 | succeeds exactly when the source does, handing back the whole sentence; the only error is UnboundVariable |
| PlCheck.CheckVariablesIff | pl_parse.js:28-52 | passes iff every variable used free in the sentence is in the bound list |
| PlCheck.QuantifierScopesOverBodyOnly | pl_parse.js:31-32 | a quantifier binds its variable in its body only: `AAx Fx` passes, `(AAx Fx & Gx)` fails |
| PlCheck.BoundMonotone | pl_parse.js:41-47 | enlarging the bound list never turns a pass into a failure |
| PlCheck.Parse | pl_parse.js:54-55 | a syntax error passes through; a sentence passes iff it has no free variable |
| Exercises.Exercise.constructor | exercise.js:33-53 | starts ready with the counters reset and the other parameters kept |
| Exercises.Exercise.NextQuestion | exercise.js:55-58 | the new question, and the counter one up |
| Exercises.Exercise.Launch | exercise.js:60-69 | only from ready: counter to 1, question asked, clock started; otherwise InvalidTransition and nothing changes |
| Exercises.Exercise.Finish | exercise.js:71-81 | success iff enough points and within the time limit or no limit (0) |
| Exercises.Exercise.Answer | exercise.js:83-97 | only from asked: answer and verdict recorded, points added, time elapsed since launch set; otherwise InvalidTransition and nothing changes |
| Exercises.Exercise.Ask | exercise.js:99-114 | only from answered: finishes, without counting, on the last question of a positive total; otherwise the next question; the counter never passes a positive total, and a total of 0 never finishes |
| Exercises.Exercise.MakeView | exercise.js:116-146 | NoView iff ready; otherwise the page of the state with what it shows |
| Exercises.IgnoreInvalidTransition | exercise.js:149-153 | InvalidTransition becomes success with no value; a value or any other error passes through |
| Sessions.Kept | session.js:16-23 | a key survives cleanup iff it was used within the lifetime, with its entry unchanged |
| Sessions.TouchedSurvivesCleanup | session.js:5-23 | a session handed out at `now` survives any cleanup within the lifetime and is still the same object |
| Sessions.SessionTable.GetSession | session.js:5-14 | the same object for a key and item already present, a fresh empty one otherwise; the key is marked used at `now`; nothing else changes |
| Sessions.SessionTable.CleanupSessions | session.js:16-23 | deletes exactly the keys unused for longer than the lifetime (strictly), with all their items |

## Left out

- The nearley grammars and their wrappers (`al_parse.js`, `parseLine` in al_proof_parse.js, `parse_` in pl_parse.js, `al_grammar_gen.js`): the grammar files are not part of this model. Their outputs are inputs here.
- `al_argument_definitions.js` and its JSON catalogue: loading and schema validation. The catalogue is a parameter. `WellFormedLibrary` states the one shape fact the model relies on: an object rule has as many premise patterns as its arity, and a meta rule has at least one.
- `transcribe.js`: its table is read from a file, so transcription is the parameter `tr`. The round trip is proved for the identity transcription only.
- The random generators (`al_generator.js`, `al_random.js`, `al_premise_generator.js`, `al_generator_static.js`, `tg.js`) and the exercises built on them (`exercise_al_tof.js`, `exercise_al_AmodelsB.js`): they depend on `Math.random`.
- `al_cache.js`, `html_to_lines.js`, the database, HTTP, authentication and UI code: disk and database I/O, JS regular expressions, Express and the browser.
- `al_proof.js`, `exercise_al_proofs.js`, `error_to_string.js`: thin wrappers over the modelled pieces. The conclusion argument `al_proof.js` hands to the checker is ignored there: `checkProof` takes only the lines and the allowed premises, so no stage compares the last line with an expected conclusion.
- The `javascript-state-machine` object: it is replaced by the `Phase` field, with the same four transitions.
- `Date.now`: it is the `now` parameter of `Launch`, `Answer` and `GetSession`, and of `CleanupSessions`, which takes the lifetime explicitly; the source's default is `DefaultLifetime`, one hour.
- The assertion failures for malformed input are not modelled: an unknown node kind or operator, a template type other than object or meta, a non-string id, a negative total. The closed datatypes and the constructor's precondition exclude those inputs.
- Eval.Evaluate: a letter missing from the interpretation is an assertion failure in the source, so `Covers` is a precondition rather than an error result.
- Arguments.MatchObjectArgument: the source asserts that the pattern and premise lists have equal length; it is a precondition, and `SingleArgument` checks the arity before calling it.
- Arguments.MetaMatchSound: the source only requires every inference's mapping to agree with the reference mapping and the conclusion's mapping, not with each other, so soundness is stated in that form and not as one common instantiation.
- Print.SentenceToString: the transcription is applied at every node, as in the source, and no property of the transcription is assumed beyond the identity case.
- ProofParse.ArgumentOutcome: a separator at no greater depth in the body makes the source read `argument.name` of a record that has none and throw a TypeError. The model reports the error kind SeparatorInBody at that line instead.
- ProofCheck.LineAccessIff: a line whose number exceeds the line count and that cites something makes the source read past the end of the lines and throw. A cited number outside the proof in the rule stage does the same. The model reports LineNumberOutOfRange at that line in both places.
- Exercises.Exercise.MakeView: `path.join` normalisation is not modelled; the path is the id followed by `/` and the state name.
- Exercises.IgnoreInvalidTransition: the source's `make_ok()` carries `undefined`, modelled as `Ok(None)`; a passed-through value is wrapped in `Some`.
- Sessions.SessionTable.GetSession: JS object-key quirks are not modelled. These are inherited property names, an item named `last_used` colliding with the timestamp, and truthiness tests on stored values. A key is present or absent.
- Numbers are unbounded integers. Points, times and line numbers never reach JS's floating-point limits in practice.
- Lodash's `_.isEqual` on sentences is Dafny's structural equality on the `Sentence` datatype.

## Findings

| source | as written | input that shows it | evidently intended | confidence | as-written member | corrected member |
|---|---|---|---|---|---|---|
| al_proof_check.js:103-113 | the accessibility scan runs before numbering, and it starts from the citing line's own line number (al_proof_check.js:37-40), so a line numbered past the end reads a missing line and throws | the lines `\|1 p V`, `\|-`, `\|5 p R(1)` (line numbers 0 and 4 once stored) | an InvalidNumbering error at the third line, which numbering first would give | medium, not executed | ProofCheck.OutOfRangeBeforeNumbering | ProofCheck.NumberedFirstNeverOutOfRange |
| pl_parse.js:28-52 | `checkVariables` passes up the result of the last sub-check, so on success it returns the rightmost predicate rather than the sentence; `parse` therefore returns a fragment | `Fa & Gb` gives `Ok(Gb)` | `Ok` of the whole parsed sentence | low (callers only test ok or error), not executed | PlCheck.AsWrittenDropsTheSentence | PlCheck.CheckVariables |
