/** The checks run on the accepted lines of a proof (al_proof_check.js):
    premises are cited only where they are accessible, lines are numbered
    in order, the premises are among the allowed ones, and every rule is
    applied correctly. Each stage passes an earlier error through and
    returns its input unchanged when it succeeds. A line number of the
    proof counts from 0 here, as the line grammar stores it. */
module ProofCheck {
  import opened Wrappers
  import opened Sentences
  import opened ProofLines
  import Arguments

  type Lines = seq<ProofLine>

  type Checked = Result<Lines, ProofError>

  // ---------------------------------------------------------------------
  // Numbering

  /** Every line carries its position as its line number. */
  predicate WellNumbered(ls: Lines)
  {
    forall k :: 0 <= k < |ls| ==> ls[k].lineNumber == k
  }

  /** The first position from `k` on whose line number is not the position,
      or `|ls|` when there is none. */
  function FirstMisnumbered(ls: Lines, k: nat): (r: nat)
    requires k <= |ls|
    ensures k <= r <= |ls|
    ensures forall j :: k <= j < r ==> ls[j].lineNumber == j
    ensures r < |ls| ==> ls[r].lineNumber != r
    decreases |ls| - k
  {
    if k == |ls| || ls[k].lineNumber != k then k else FirstMisnumbered(ls, k + 1)
  }

  /** What checkNumbering computes on accepted lines. */
  function Numbering(ls: Lines): (r: Checked)
    ensures r.Ok? <==> WellNumbered(ls)
    ensures r.Ok? ==> r.value == ls
    ensures r.Err? ==> exists k :: 0 <= k < |ls| && ls[k].lineNumber != k
                         && (forall j :: 0 <= j < k ==> ls[j].lineNumber == j)
                         && r.error == LineError(InvalidNumbering, ls[k])
  {
    var k := FirstMisnumbered(ls, 0);
    if k == |ls| then Ok(ls) else Err(LineError(InvalidNumbering, ls[k]))
  }

  /** checkNumbering: the first line whose number is not its position is
      an InvalidNumbering error. */
  method CheckNumbering(input: Checked) returns (r: Checked)
    ensures input.Err? ==> r == input
    ensures input.Ok? ==> r == Numbering(input.value)
  {
    if input.Err? {
      return input;
    }
    var ls := input.value;
    for index := 0 to |ls|
      invariant forall j :: 0 <= j < index ==> ls[j].lineNumber == j
    {
      if ls[index].lineNumber != index {
        assert FirstMisnumbered(ls, 0) == index;
        return Err(LineError(InvalidNumbering, ls[index]));
      }
    }
    return Ok(ls);
  }

  // ---------------------------------------------------------------------
  // Accessibility of premises

  /** The smallest depth among `d` and the lines `j` to `e - 1`. */
  function MinDepth(ls: Lines, j: int, e: int, d: int): (r: int)
    requires 0 <= j <= e <= |ls|
    ensures r <= d
    ensures forall k :: j <= k < e ==> r <= ls[k].depth
    ensures r == d || exists k :: j <= k < e && r == ls[k].depth
    decreases e - j
  {
    if j == e then d
    else
      var m := MinDepth(ls, j + 1, e, d);
      if ls[j].depth < m then ls[j].depth else m
  }

  /** The depth a meta rule may cite at: one deeper than the citing line
      while no shallower line has been passed, the current depth after. */
  function MetaDepth(current: int, d: int): int
  {
    if current < d then current else d + 1
  }

  /** The line at position `j`, below the citing line's number, is one the
      citing line may use: for an object rule it lies at the smallest depth
      seen from it up to the citing line, for a meta rule at the meta depth
      there. */
  predicate Reaches(ls: Lines, citing: ProofLine, j: int)
    requires 0 <= j < citing.lineNumber <= |ls|
  {
    var current := MinDepth(ls, j, citing.lineNumber, citing.depth);
    match citing.argument.kind
    case ObjectCitation => ls[j].depth == current
    case MetaCitation => ls[j].depth == MetaDepth(current, citing.depth)
  }

  /** The cited line numbers not yet found when the backward scan has
      reached position `i`. */
  function Remaining(ls: Lines, citing: ProofLine, toFind: set<int>, i: int): set<int>
    requires i <= citing.lineNumber <= |ls|
    decreases i
  {
    if toFind == {} || i <= 0 then toFind
    else
      var j := i - 1;
      var n := ls[j].lineNumber;
      Remaining(ls, citing, if n in toFind && Reaches(ls, citing, j) then toFind - {n} else toFind, j)
  }

  /** Some line below position `i` carries number `n` and may be used by
      the citing line. */
  predicate FoundBelow(ls: Lines, citing: ProofLine, n: int, i: int)
    requires i <= citing.lineNumber <= |ls|
  {
    exists j :: 0 <= j < i && ls[j].lineNumber == n && Reaches(ls, citing, j)
  }

  /** The scan leaves exactly the cited numbers that no usable line below
      carries. */
  lemma {:induction false} RemainingIsUnfound(ls: Lines, citing: ProofLine, toFind: set<int>, i: int)
    requires i <= citing.lineNumber <= |ls|
    ensures Remaining(ls, citing, toFind, i) == set n | n in toFind && !FoundBelow(ls, citing, n, i)
    decreases i
  {
    if toFind == {} {
    } else if i <= 0 {
      assert forall n :: !FoundBelow(ls, citing, n, i);
    } else {
      var j := i - 1;
      var x := ls[j].lineNumber;
      var next := if x in toFind && Reaches(ls, citing, j) then toFind - {x} else toFind;
      RemainingIsUnfound(ls, citing, next, j);
      forall n
        ensures FoundBelow(ls, citing, n, i) <==> FoundBelow(ls, citing, n, j) || (n == x && Reaches(ls, citing, j))
      {
        if FoundBelow(ls, citing, n, i) && !FoundBelow(ls, citing, n, j) {
          var k :| 0 <= k < i && ls[k].lineNumber == n && Reaches(ls, citing, k);
          assert k == j;
        }
      }
    }
  }

  function PremiseSet(l: ProofLine): set<int>
  {
    set n | n in l.argument.premisesLines
  }

  /** What the scan for one citing line yields. The source reads past the
      end of the lines when the citing line's number exceeds their count
      and it cites anything; the model reports LineNumberOutOfRange. */
  function LineAccess(ls: Lines, l: ProofLine): Result<(), ErrorKind>
  {
    var toFind := PremiseSet(l);
    if toFind == {} then Ok(())
    else if l.lineNumber > |ls| then Err(LineNumberOutOfRange)
    else if Remaining(ls, l, toFind, l.lineNumber) == {} then Ok(())
    else Err(InaccessiblePremise)
  }

  /** Every number `l` cites is carried by a line below `l`'s own number
      that `l` may use. */
  predicate AllCitationsReach(ls: Lines, l: ProofLine)
  {
    l.argument.premisesLines == [] ||
    (l.lineNumber <= |ls| && forall n :: n in l.argument.premisesLines ==> FoundBelow(ls, l, n, l.lineNumber))
  }

  /** The scan succeeds iff every cited number is found; it reads past the
      end exactly when the line cites something and its number exceeds the
      count of lines. */
  lemma LineAccessIff(ls: Lines, l: ProofLine)
    ensures LineAccess(ls, l).Ok? <==> AllCitationsReach(ls, l)
    ensures LineAccess(ls, l) == Err(LineNumberOutOfRange) <==>
              l.argument.premisesLines != [] && l.lineNumber > |ls|
  {
    var toFind := PremiseSet(l);
    if l.argument.premisesLines != [] {
      assert l.argument.premisesLines[0] in toFind;
    }
    if l.lineNumber <= |ls| {
      RemainingIsUnfound(ls, l, toFind, l.lineNumber);
      if Remaining(ls, l, toFind, l.lineNumber) != {} {
        var n :| n in Remaining(ls, l, toFind, l.lineNumber);
        assert n in l.argument.premisesLines && !FoundBelow(ls, l, n, l.lineNumber);
      } else {
        forall n | n in l.argument.premisesLines
          ensures FoundBelow(ls, l, n, l.lineNumber)
        {
          assert n in toFind;
          assert n !in Remaining(ls, l, toFind, l.lineNumber);
        }
      }
    }
  }

  /** One iteration of the outer loop of checkAccessibilityOfPremises: the
      backward scan from the citing line's number, tracking the smallest
      depth passed and the depth a meta rule may cite at. */
  method CheckLineAccess(ls: Lines, l: ProofLine) returns (r: Result<(), ErrorKind>)
    ensures r == LineAccess(ls, l)
  {
    var toFind := PremiseSet(l);
    ghost var all := toFind;
    var kind := l.argument.kind;
    var currentDepth := l.depth;
    var maxMetaDepth := currentDepth + 1;
    var i := l.lineNumber;
    while toFind != {} && i > 0
      invariant i <= l.lineNumber
      invariant i == l.lineNumber ==> currentDepth == l.depth && toFind == all
      invariant i < l.lineNumber ==> 0 <= i && l.lineNumber <= |ls|
                                      && currentDepth == MinDepth(ls, i, l.lineNumber, l.depth)
      invariant maxMetaDepth == MetaDepth(currentDepth, l.depth)
      invariant l.lineNumber <= |ls| ==> Remaining(ls, l, toFind, i) == Remaining(ls, l, all, l.lineNumber)
      decreases i
    {
      i := i - 1;
      if i >= |ls| {
        return Err(LineNumberOutOfRange);
      }
      var line := ls[i];
      if line.depth < currentDepth {
        currentDepth := line.depth;
        maxMetaDepth := currentDepth;
      }
      assert currentDepth == MinDepth(ls, i, l.lineNumber, l.depth);
      if line.lineNumber in toFind {
        if (kind == MetaCitation && line.depth == maxMetaDepth) || (kind == ObjectCitation && line.depth == currentDepth) {
          toFind := toFind - {line.lineNumber};
        }
      }
    }
    if toFind != {} {
      return Err(InaccessiblePremise);
    }
    return Ok(());
  }

  /** The first line from position `p` on whose scan fails, as an error
      against that line. */
  function AccessFrom(ls: Lines, p: nat): (r: Checked)
    requires p <= |ls|
    ensures r.Ok? ==> r.value == ls
    ensures r.Err? ==> r.error.kind in {LineNumberOutOfRange, InaccessiblePremise}
    decreases |ls| - p
  {
    if p == |ls| then Ok(ls)
    else
      match LineAccess(ls, ls[p])
      case Err(kind) => Err(LineError(kind, ls[p]))
      case Ok(_) => AccessFrom(ls, p + 1)
  }

  /** What checkAccessibilityOfPremises computes on accepted lines. */
  function Accessibility(ls: Lines): (r: Checked)
    ensures r.Ok? ==> r.value == ls
    ensures r.Err? ==> r.error.kind in {LineNumberOutOfRange, InaccessiblePremise}
  {
    AccessFrom(ls, 0)
  }

  lemma {:induction false} AccessFromIff(ls: Lines, p: nat)
    requires p <= |ls|
    ensures AccessFrom(ls, p).Ok? <==> forall q :: p <= q < |ls| ==> LineAccess(ls, ls[q]).Ok?
    ensures AccessFrom(ls, p).Err? ==>
              exists q :: p <= q < |ls| && LineAccess(ls, ls[q]).Err?
                && (forall q' :: p <= q' < q ==> LineAccess(ls, ls[q']).Ok?)
                && AccessFrom(ls, p).error == LineError(LineAccess(ls, ls[q]).error, ls[q])
    decreases |ls| - p
  {
    if p < |ls| && LineAccess(ls, ls[p]).Ok? {
      AccessFromIff(ls, p + 1);
    }
  }

  /** The kind of error the scan reports for a line whose citations do
      not all reach. */
  function AccessErrorKind(ls: Lines, l: ProofLine): ErrorKind
  {
    if l.argument.premisesLines != [] && l.lineNumber > |ls| then LineNumberOutOfRange else InaccessiblePremise
  }

  /** The accessibility stage succeeds iff every line may use every line
      it cites; a failure is reported against the first line whose
      citations do not all reach, as LineNumberOutOfRange when its number
      lies past the end and InaccessiblePremise otherwise. */
  lemma AccessibilityIff(ls: Lines)
    ensures Accessibility(ls).Ok? <==> forall p :: 0 <= p < |ls| ==> AllCitationsReach(ls, ls[p])
    ensures Accessibility(ls).Ok? ==> Accessibility(ls).value == ls
    ensures Accessibility(ls).Err? ==>
              exists p :: 0 <= p < |ls| && !AllCitationsReach(ls, ls[p])
                && (forall q :: 0 <= q < p ==> AllCitationsReach(ls, ls[q]))
                && Accessibility(ls).error == LineError(AccessErrorKind(ls, ls[p]), ls[p])
  {
    AccessFromIff(ls, 0);
    forall p | 0 <= p < |ls|
      ensures LineAccess(ls, ls[p]).Ok? <==> AllCitationsReach(ls, ls[p])
      ensures LineAccess(ls, ls[p]).Err? ==> LineAccess(ls, ls[p]).error == AccessErrorKind(ls, ls[p])
    {
      LineAccessIff(ls, ls[p]);
    }
  }

  /** checkAccessibilityOfPremises. */
  method CheckAccessibilityOfPremises(input: Checked) returns (r: Checked)
    ensures input.Err? ==> r == input
    ensures input.Ok? ==> r == Accessibility(input.value)
  {
    if input.Err? {
      return input;
    }
    var ls := input.value;
    for p := 0 to |ls|
      invariant AccessFrom(ls, p) == AccessFrom(ls, 0)
    {
      var access := CheckLineAccess(ls, ls[p]);
      if access.Err? {
        return Err(LineError(access.error, ls[p]));
      }
    }
    return Ok(ls);
  }

  /** An object rule may use a line iff that line is no deeper than the
      citing line and no line between them is shallower than it: it lies in
      the citing line's scope or an enclosing one that is still open. */
  lemma ObjectReachesIff(ls: Lines, citing: ProofLine, j: int)
    requires 0 <= j < citing.lineNumber <= |ls| && citing.argument.kind == ObjectCitation
    ensures Reaches(ls, citing, j) <==>
              ls[j].depth <= citing.depth && forall k :: j < k < citing.lineNumber ==> ls[k].depth >= ls[j].depth
  {
    var current := MinDepth(ls, j, citing.lineNumber, citing.depth);
    var rest := MinDepth(ls, j + 1, citing.lineNumber, citing.depth);
    assert current == if ls[j].depth < rest then ls[j].depth else rest;
    if ls[j].depth <= citing.depth && forall k :: j < k < citing.lineNumber ==> ls[k].depth >= ls[j].depth {
      assert rest >= ls[j].depth;
    }
  }

  /** A meta rule may use a line iff either no line from it up to the
      citing line is shallower than the citing line and it lies one level
      deeper (a sub-proof just inside), or it lies shallower than the citing
      line and no line after it is shallower still. */
  lemma MetaReachesIff(ls: Lines, citing: ProofLine, j: int)
    requires 0 <= j < citing.lineNumber <= |ls| && citing.argument.kind == MetaCitation
    ensures Reaches(ls, citing, j) <==>
              || (ls[j].depth == citing.depth + 1 && forall k :: j < k < citing.lineNumber ==> ls[k].depth >= citing.depth)
              || (ls[j].depth < citing.depth && forall k :: j < k < citing.lineNumber ==> ls[k].depth >= ls[j].depth)
  {
    var d := citing.depth;
    var current := MinDepth(ls, j, citing.lineNumber, d);
    var rest := MinDepth(ls, j + 1, citing.lineNumber, d);
    assert current == if ls[j].depth < rest then ls[j].depth else rest;
    if forall k :: j < k < citing.lineNumber ==> ls[k].depth >= d {
      assert rest == d;
    }
    if ls[j].depth < d && forall k :: j < k < citing.lineNumber ==> ls[k].depth >= ls[j].depth {
      assert rest >= ls[j].depth;
    }
  }

  // ---------------------------------------------------------------------
  // Allowed premises

  function AllowedFrom(ls: Lines, allowed: seq<Sentence>, p: nat): (r: Checked)
    requires p <= |ls|
    ensures r.Ok? ==> r.value == ls
    ensures r.Err? ==> r.error.kind == InvalidPremise
    decreases |ls| - p
  {
    if p == |ls| then Ok(ls)
    else if ls[p].argument.name == "V" && ls[p].sentence !in allowed then Err(LineError(InvalidPremise, ls[p]))
    else AllowedFrom(ls, allowed, p + 1)
  }

  /** What checkAllowedPremises computes on accepted lines: no list means
      any premise is allowed. */
  function AllowedPremises(ls: Lines, allowed: Option<seq<Sentence>>): (r: Checked)
    ensures r.Ok? ==> r.value == ls
    ensures r.Err? ==> allowed.Some? && r.error.kind == InvalidPremise
  {
    if allowed.None? then Ok(ls) else AllowedFrom(ls, allowed.value, 0)
  }

  /** Every `V` line's sentence is among the allowed premises. */
  predicate PremisesAllowed(ls: Lines, allowed: Option<seq<Sentence>>)
  {
    allowed.Some? ==> forall p :: 0 <= p < |ls| && ls[p].argument.name == "V" ==> ls[p].sentence in allowed.value
  }

  lemma {:induction false} AllowedFromIff(ls: Lines, allowed: seq<Sentence>, p: nat)
    requires p <= |ls|
    ensures AllowedFrom(ls, allowed, p).Ok? <==>
              forall q :: p <= q < |ls| && ls[q].argument.name == "V" ==> ls[q].sentence in allowed
    ensures AllowedFrom(ls, allowed, p).Err? ==>
              exists q :: p <= q < |ls| && ls[q].argument.name == "V" && ls[q].sentence !in allowed
                && (forall q' :: p <= q' < q && ls[q'].argument.name == "V" ==> ls[q'].sentence in allowed)
                && AllowedFrom(ls, allowed, p).error == LineError(InvalidPremise, ls[q])
    decreases |ls| - p
  {
    if p < |ls| && !(ls[p].argument.name == "V" && ls[p].sentence !in allowed) {
      AllowedFromIff(ls, allowed, p + 1);
    }
  }

  /** The stage succeeds iff every premise line states an allowed premise;
      a failure is InvalidPremise against the first premise line that does
      not. */
  lemma AllowedPremisesIff(ls: Lines, allowed: Option<seq<Sentence>>)
    ensures AllowedPremises(ls, allowed).Ok? <==> PremisesAllowed(ls, allowed)
    ensures AllowedPremises(ls, allowed).Ok? ==> AllowedPremises(ls, allowed).value == ls
    ensures AllowedPremises(ls, allowed).Err? ==>
              exists q :: 0 <= q < |ls| && ls[q].argument.name == "V" && allowed.Some? && ls[q].sentence !in allowed.value
                && (forall q' :: 0 <= q' < q && ls[q'].argument.name == "V" ==> ls[q'].sentence in allowed.value)
                && AllowedPremises(ls, allowed).error == LineError(InvalidPremise, ls[q])
  {
    if allowed.Some? {
      AllowedFromIff(ls, allowed.value, 0);
    }
  }

  /** checkAllowedPremises. */
  method CheckAllowedPremises(input: Checked, allowed: Option<seq<Sentence>>) returns (r: Checked)
    ensures input.Err? ==> r == input
    ensures input.Ok? ==> r == AllowedPremises(input.value, allowed)
  {
    if input.Err? {
      return input;
    }
    var ls := input.value;
    if allowed.None? {
      return Ok(ls);
    }
    for p := 0 to |ls|
      invariant AllowedFrom(ls, allowed.value, p) == AllowedFrom(ls, allowed.value, 0)
    {
      if ls[p].argument.name == "V" && ls[p].sentence !in allowed.value {
        return Err(LineError(InvalidPremise, ls[p]));
      }
    }
    return Ok(ls);
  }

  // ---------------------------------------------------------------------
  // Rule applications

  /** The sentences of the lines at positions `ns`, or None when one of
      them is not a position (the source reads a field of a missing line
      there). */
  function CitedSentences(ls: Lines, ns: seq<int>): (r: Option<seq<Sentence>>)
    ensures r.Some? <==> forall k :: 0 <= k < |ns| ==> 0 <= ns[k] < |ls|
    ensures r.Some? ==> |r.value| == |ns| && forall k :: 0 <= k < |ns| ==> r.value[k] == ls[ns[k]].sentence
  {
    if ns == [] then Some([])
    else if !(0 <= ns[0] < |ls|) then None
    else
      match CitedSentences(ls, ns[1..])
      case None => None
      case Some(rest) => Some([ls[ns[0]].sentence] + rest)
  }

  /** `V` and `A` lines need no justification. */
  predicate NeedsJustification(l: ProofLine)
  {
    l.argument.name != "V" && l.argument.name != "A"
  }

  /** The line is a correct application of the rule it names to the lines
      it cites. */
  predicate Justified(lib: Arguments.Library, ls: Lines, l: ProofLine)
    requires Arguments.WellFormedLibrary(lib)
  {
    NeedsJustification(l) ==>
      var cited := CitedSentences(ls, l.argument.premisesLines);
      cited.Some? && Arguments.ArgumentHolds(lib, l.argument.name, cited.value, l.sentence)
  }

  function LineArgument(lib: Arguments.Library, ls: Lines, l: ProofLine): Result<(), ErrorKind>
    requires Arguments.WellFormedLibrary(lib)
  {
    if !NeedsJustification(l) then Ok(())
    else
      match CitedSentences(ls, l.argument.premisesLines)
      case None => Err(LineNumberOutOfRange)
      case Some(ps) =>
        if Arguments.ArgumentHolds(lib, l.argument.name, ps, l.sentence) then Ok(()) else Err(InvalidArgumentApplication)
  }

  function ArgumentsFrom(lib: Arguments.Library, ls: Lines, p: nat): (r: Checked)
    requires Arguments.WellFormedLibrary(lib) && p <= |ls|
    ensures r.Ok? ==> r.value == ls
    ensures r.Err? ==> r.error.kind in {LineNumberOutOfRange, InvalidArgumentApplication}
    decreases |ls| - p
  {
    if p == |ls| then Ok(ls)
    else
      match LineArgument(lib, ls, ls[p])
      case Err(kind) => Err(LineError(kind, ls[p]))
      case Ok(_) => ArgumentsFrom(lib, ls, p + 1)
  }

  /** What checkArguments computes on accepted lines. */
  function CheckedArguments(lib: Arguments.Library, ls: Lines): (r: Checked)
    requires Arguments.WellFormedLibrary(lib)
    ensures r.Ok? ==> r.value == ls
    ensures r.Err? ==> r.error.kind in {LineNumberOutOfRange, InvalidArgumentApplication}
  {
    ArgumentsFrom(lib, ls, 0)
  }

  lemma {:induction false} ArgumentsFromIff(lib: Arguments.Library, ls: Lines, p: nat)
    requires Arguments.WellFormedLibrary(lib) && p <= |ls|
    ensures ArgumentsFrom(lib, ls, p).Ok? <==> forall q :: p <= q < |ls| ==> Justified(lib, ls, ls[q])
    ensures ArgumentsFrom(lib, ls, p).Err? ==>
              exists q :: p <= q < |ls| && !Justified(lib, ls, ls[q])
                && (forall q' :: p <= q' < q ==> Justified(lib, ls, ls[q']))
                && ArgumentsFrom(lib, ls, p).error == LineError(LineArgument(lib, ls, ls[q]).error, ls[q])
    decreases |ls| - p
  {
    if p < |ls| {
      assert LineArgument(lib, ls, ls[p]).Ok? <==> Justified(lib, ls, ls[p]);
      if LineArgument(lib, ls, ls[p]).Ok? {
        ArgumentsFromIff(lib, ls, p + 1);
        if ArgumentsFrom(lib, ls, p).Err? {
          var q :| p + 1 <= q < |ls| && !Justified(lib, ls, ls[q])
                   && (forall q' :: p + 1 <= q' < q ==> Justified(lib, ls, ls[q']))
                   && ArgumentsFrom(lib, ls, p + 1).error == LineError(LineArgument(lib, ls, ls[q]).error, ls[q]);
          assert forall q' :: p <= q' < q ==> Justified(lib, ls, ls[q']);
        }
      }
    }
  }

  /** The kind of error the rule stage reports for an unjustified line:
      LineNumberOutOfRange when it cites a number that is not a position,
      InvalidArgumentApplication otherwise. */
  function ArgumentErrorKind(ls: Lines, l: ProofLine): ErrorKind
  {
    if forall n :: n in l.argument.premisesLines ==> 0 <= n < |ls| then InvalidArgumentApplication else LineNumberOutOfRange
  }

  /** The stage succeeds iff every line other than a premise or an
      assumption applies its rule correctly to the lines it cites; a
      failure is reported against the first line that does not. */
  lemma CheckedArgumentsIff(lib: Arguments.Library, ls: Lines)
    requires Arguments.WellFormedLibrary(lib)
    ensures CheckedArguments(lib, ls).Ok? <==> forall q :: 0 <= q < |ls| ==> Justified(lib, ls, ls[q])
    ensures CheckedArguments(lib, ls).Ok? ==> CheckedArguments(lib, ls).value == ls
    ensures CheckedArguments(lib, ls).Err? ==>
              exists q :: 0 <= q < |ls| && !Justified(lib, ls, ls[q])
                && (forall q' :: 0 <= q' < q ==> Justified(lib, ls, ls[q']))
                && CheckedArguments(lib, ls).error == LineError(ArgumentErrorKind(ls, ls[q]), ls[q])
  {
    ArgumentsFromIff(lib, ls, 0);
    forall q | 0 <= q < |ls| && !Justified(lib, ls, ls[q])
      ensures LineArgument(lib, ls, ls[q]).error == ArgumentErrorKind(ls, ls[q])
    {
      var ns := ls[q].argument.premisesLines;
      if forall n :: n in ns ==> 0 <= n < |ls| {
        assert forall k :: 0 <= k < |ns| ==> ns[k] in ns;
      } else {
        var n :| n in ns && !(0 <= n < |ls|);
        var k :| 0 <= k < |ns| && ns[k] == n;
      }
    }
  }

  /** checkArguments: a failed rule check is an InvalidArgumentApplication
      error against the line. */
  method CheckArguments(lib: Arguments.Library, input: Checked) returns (r: Checked)
    requires Arguments.WellFormedLibrary(lib)
    ensures input.Err? ==> r == input
    ensures input.Ok? ==> r == CheckedArguments(lib, input.value)
  {
    if input.Err? {
      return input;
    }
    var ls := input.value;
    for p := 0 to |ls|
      invariant ArgumentsFrom(lib, ls, p) == ArgumentsFrom(lib, ls, 0)
    {
      var line := ls[p];
      if NeedsJustification(line) {
        var cited := CitedSentences(ls, line.argument.premisesLines);
        if cited.None? {
          return Err(LineError(LineNumberOutOfRange, line));
        }
        var result := Arguments.CheckArgument(lib, line.argument.name, cited.value, line.sentence);
        if result.Err? {
          return Err(LineError(InvalidArgumentApplication, line));
        }
      }
    }
    return Ok(ls);
  }

  // ---------------------------------------------------------------------
  // The whole check

  /** What checkProof computes on accepted lines, stage by stage in the
      source's order: accessibility, numbering, allowed premises, rules. */
  function CheckProofOutcome(lib: Arguments.Library, ls: Lines, allowed: Option<seq<Sentence>>): (r: Checked)
    requires Arguments.WellFormedLibrary(lib)
    ensures r.Ok? ==> r.value == ls
    ensures r.Err? ==> r.error.kind in {LineNumberOutOfRange, InaccessiblePremise, InvalidNumbering, InvalidPremise, InvalidArgumentApplication}
    ensures r.Err? && r.error.kind == InvalidNumbering ==> !WellNumbered(ls)
    ensures r.Err? && r.error.kind == InvalidPremise ==> !PremisesAllowed(ls, allowed)
  {
    var access := Accessibility(ls);
    if access.Err? then access
    else
      var numbering := Numbering(ls);
      if numbering.Err? then numbering
      else
        var premises := AllowedPremises(ls, allowed);
        if premises.Err? then AllowedPremisesIff(ls, allowed); premises
        else CheckedArguments(lib, ls)
  }

  /** checkProof: the stages chained, an earlier error passed through. */
  method CheckProof(lib: Arguments.Library, input: Checked, allowed: Option<seq<Sentence>>) returns (r: Checked)
    requires Arguments.WellFormedLibrary(lib)
    ensures input.Err? ==> r == input
    ensures input.Ok? ==> r == CheckProofOutcome(lib, input.value, allowed)
  {
    var access := CheckAccessibilityOfPremises(input);
    if input.Ok? {
      AccessibilityIff(input.value);
    }
    var numbering := CheckNumbering(access);
    var premises := CheckAllowedPremises(numbering, allowed);
    if numbering.Ok? {
      AllowedPremisesIff(numbering.value, allowed);
    }
    r := CheckArguments(lib, premises);
  }

  /** Everything a checked proof satisfies. */
  predicate SoundProof(lib: Arguments.Library, ls: Lines, allowed: Option<seq<Sentence>>)
    requires Arguments.WellFormedLibrary(lib)
  {
    && WellNumbered(ls)
    && (forall p :: 0 <= p < |ls| ==> AllCitationsReach(ls, ls[p]))
    && PremisesAllowed(ls, allowed)
    && (forall p :: 0 <= p < |ls| ==> Justified(lib, ls, ls[p]))
  }

  /** The check accepts the lines iff they are numbered in order, every
      citation reaches a usable line, the premises are allowed and every
      rule is applied correctly; it then returns the lines unchanged. */
  lemma CheckProofIff(lib: Arguments.Library, ls: Lines, allowed: Option<seq<Sentence>>)
    requires Arguments.WellFormedLibrary(lib)
    ensures CheckProofOutcome(lib, ls, allowed).Ok? <==> SoundProof(lib, ls, allowed)
    ensures CheckProofOutcome(lib, ls, allowed).Ok? ==> CheckProofOutcome(lib, ls, allowed).value == ls
  {
    AccessibilityIff(ls);
    AllowedPremisesIff(ls, allowed);
    CheckedArgumentsIff(lib, ls);
  }

  /** In a numbered proof whose citations all reach, every cited line lies
      strictly before the citing line. */
  lemma CitedLinesEarlier(ls: Lines, p: int, n: int)
    requires WellNumbered(ls) && 0 <= p < |ls| && AllCitationsReach(ls, ls[p])
    requires n in ls[p].argument.premisesLines
    ensures 0 <= n < p
  {
    var j :| 0 <= j < ls[p].lineNumber && ls[j].lineNumber == n && Reaches(ls, ls[p], j);
  }

  /** In a numbered proof whose citations all reach, no line cites a
      position outside the proof, so the rule stage never meets a missing
      line. */
  lemma CitationsInRange(lib: Arguments.Library, ls: Lines, p: int)
    requires Arguments.WellFormedLibrary(lib)
    requires WellNumbered(ls) && 0 <= p < |ls| && AllCitationsReach(ls, ls[p])
    ensures LineArgument(lib, ls, ls[p]) != Err(LineNumberOutOfRange)
  {
    var ns := ls[p].argument.premisesLines;
    forall k | 0 <= k < |ns|
      ensures 0 <= ns[k] < |ls|
    {
      CitedLinesEarlier(ls, p, ns[k]);
    }
  }

  // ---------------------------------------------------------------------
  // Stage order

  /** As written, a line whose number lies past the end of the proof and
      that cites a line makes the accessibility stage read past the end
      before numbering is checked: lines `|1 p V` and `|5 p R(1)` (numbers
      0 and 4 once stored) end there instead of in an InvalidNumbering
      error. */
  lemma OutOfRangeBeforeNumbering(lib: Arguments.Library)
    requires Arguments.WellFormedLibrary(lib)
    ensures var ls := [ProofLine(0, 1, 0, Letter('p'), Citation("V", ObjectCitation, [])),
                       ProofLine(2, 1, 4, Letter('p'), Citation("R", ObjectCitation, [0]))];
            CheckProofOutcome(lib, ls, None) == Err(LineError(LineNumberOutOfRange, ls[1]))
  {
    var ls := [ProofLine(0, 1, 0, Letter('p'), Citation("V", ObjectCitation, [])),
               ProofLine(2, 1, 4, Letter('p'), Citation("R", ObjectCitation, [0]))];
    assert PremiseSet(ls[0]) == {};
    assert 0 in PremiseSet(ls[1]);
    assert AccessFrom(ls, 1) == Err(LineError(LineNumberOutOfRange, ls[1]));
  }

  /** The accepted lines of a proof whose `RAA(3-7)` on line 8 cites, as the
      end of its sub-proof, line 7, which lies in a sub-proof nested one
      level deeper still. */
  function NestedEndpointProof(): Lines
  {
    [ ProofLine(0, 1, 0, Not(Letter('p')), Citation("V", ObjectCitation, [])),
      ProofLine(2, 2, 1, Letter('p'), Citation("A", ObjectCitation, [])),
      ProofLine(4, 3, 2, Not(Letter('q')), Citation("A", ObjectCitation, [])),
      ProofLine(6, 3, 3, Letter('p'), Citation("R", ObjectCitation, [1])),
      ProofLine(7, 3, 4, Not(Letter('p')), Citation("R", ObjectCitation, [0])),
      ProofLine(8, 4, 5, Letter('r'), Citation("A", ObjectCitation, [])),
      ProofLine(10, 4, 6, Not(Letter('q')), Citation("R", ObjectCitation, [2])),
      ProofLine(11, 2, 7, Not(Not(Letter('q'))), Citation("RAA", MetaCitation, [2, 6])),
      ProofLine(12, 2, 8, Letter('q'), Citation("-DN", ObjectCitation, [7])),
      ProofLine(13, 1, 9, Implies(Letter('p'), Letter('q')), Citation("+I", MetaCitation, [1, 8])) ]
  }

  /** A meta citation finds a line only at exactly the meta depth, so the
      end point in the nested sub-proof is never found: whatever the rule
      catalogue, the check rejects the proof with InaccessiblePremise. */
  lemma NestedEndpointNotFound(lib: Arguments.Library)
    requires Arguments.WellFormedLibrary(lib)
    ensures !AllCitationsReach(NestedEndpointProof(), NestedEndpointProof()[7])
    ensures CheckProofOutcome(lib, NestedEndpointProof(), None).Err?
    ensures CheckProofOutcome(lib, NestedEndpointProof(), None).error.kind == InaccessiblePremise
  {
    var ls := NestedEndpointProof();
    var citing := ls[7];
    assert MinDepth(ls, 6, 7, 2) == 2;
    assert !Reaches(ls, citing, 6);
    assert forall j :: 0 <= j < |ls| ==> ls[j].lineNumber == j;
    assert !FoundBelow(ls, citing, 6, 7);
    assert 6 in citing.argument.premisesLines;
    AccessibilityIff(ls);
    assert forall j :: 0 <= j < |ls| ==> AccessErrorKind(ls, ls[j]) == InaccessiblePremise;
  }

  /** The stages with numbering checked first, so that the scan for
      citations only runs over correctly numbered lines. */
  function CheckProofNumberedFirst(lib: Arguments.Library, ls: Lines, allowed: Option<seq<Sentence>>): Checked
    requires Arguments.WellFormedLibrary(lib)
  {
    var numbering := Numbering(ls);
    if numbering.Err? then numbering
    else
      var access := Accessibility(ls);
      if access.Err? then access
      else
        var premises := AllowedPremises(ls, allowed);
        if premises.Err? then premises
        else CheckedArguments(lib, ls)
  }

  /** With numbering first no stage ever meets a missing line, and the
      proofs accepted are exactly those the source's order accepts. */
  lemma NumberedFirstNeverOutOfRange(lib: Arguments.Library, ls: Lines, allowed: Option<seq<Sentence>>)
    requires Arguments.WellFormedLibrary(lib)
    ensures CheckProofNumberedFirst(lib, ls, allowed).Err? ==>
              CheckProofNumberedFirst(lib, ls, allowed).error.kind != LineNumberOutOfRange
    ensures CheckProofNumberedFirst(lib, ls, allowed).Ok? <==> CheckProofOutcome(lib, ls, allowed).Ok?
  {
    CheckProofIff(lib, ls, allowed);
    AccessibilityIff(ls);
    AllowedPremisesIff(ls, allowed);
    CheckedArgumentsIff(lib, ls);
    if WellNumbered(ls) {
      AccessFromNumbered(ls, 0);
      if Accessibility(ls).Ok? {
        ArgumentsFromNumbered(lib, ls, 0);
      }
    }
  }

  lemma {:induction false} AccessFromNumbered(ls: Lines, p: nat)
    requires WellNumbered(ls) && p <= |ls|
    ensures AccessFrom(ls, p).Err? ==> AccessFrom(ls, p).error.kind != LineNumberOutOfRange
    decreases |ls| - p
  {
    if p < |ls| {
      LineAccessIff(ls, ls[p]);
      AccessFromNumbered(ls, p + 1);
    }
  }

  lemma {:induction false} ArgumentsFromNumbered(lib: Arguments.Library, ls: Lines, p: nat)
    requires Arguments.WellFormedLibrary(lib)
    requires WellNumbered(ls) && p <= |ls| && forall q :: 0 <= q < |ls| ==> AllCitationsReach(ls, ls[q])
    ensures ArgumentsFrom(lib, ls, p).Err? ==> ArgumentsFrom(lib, ls, p).error.kind != LineNumberOutOfRange
    decreases |ls| - p
  {
    if p < |ls| {
      CitationsInRange(lib, ls, p);
      ArgumentsFromNumbered(lib, ls, p + 1);
    }
  }
}
