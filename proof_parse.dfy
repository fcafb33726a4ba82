/** The proof-line state machine (al_proof_parse.js). Raw lines are consumed
    through a cursor: first the premises (`V` lines at depth 1) up to a
    separator, then the body, where a line deeper than the last accepted one
    opens a sub-proof with an assumption (`A`) followed by a separator. Each
    handler of the source is a function here giving its outcome (status,
    cursor and accepted lines), and a method of `ProofParser` that updates
    the cursor and the accepted lines in place is proved to agree with it. */
module ProofParse {
  import opened Wrappers
  import opened Sentences
  import opened ProofLines
  import Arguments

  /** Which handler `nextLine` passes the next line to. */
  datatype Continuation = PremiseOrSeparator | Separator | ArgumentOrSubproof

  /** The parser's mutable record: the cursor and the accepted lines. */
  datatype PState = PState(index: int, result: seq<ProofLine>)

  datatype Outcome = Outcome(status: Result<(), ProofError>, st: PState)

  /** The line handed to a handler: its raw index and record; `None` is the
      record without a type that stands for the end of the input. */
  datatype Current = Current(raw: int, rec: Option<LineRecord>)

  // ---------------------------------------------------------------------
  // Accepted lines

  predicate IsSentence(l: Option<LineRecord>)
  {
    l.Some? && l.value.SentenceRecord?
  }

  predicate IsSeparator(l: Option<LineRecord>)
  {
    l.Some? && l.value.SeparatorRecord?
  }

  /** The sentence lines among the raw lines `a` to `b - 1`, tagged with
      their raw indices. */
  function Tagged(lines: seq<Option<LineRecord>>, a: int, b: int): seq<ProofLine>
    requires 0 <= a <= b <= |lines|
    decreases b - a
  {
    if a == b then []
    else Tagged(lines, a, b - 1) + (if IsSentence(lines[b - 1]) then [Tag(b - 1, lines[b - 1].value)] else [])
  }

  lemma {:induction false} TaggedSplit(lines: seq<Option<LineRecord>>, a: int, b: int, c: int)
    requires 0 <= a <= b <= c <= |lines|
    ensures Tagged(lines, a, c) == Tagged(lines, a, b) + Tagged(lines, b, c)
    decreases c - b
  {
    if b < c {
      TaggedSplit(lines, a, b, c - 1);
    }
  }

  /** Each tagged line carries its raw index and the record at that index,
      and the raw indices increase. */
  lemma {:induction false} TaggedLines(lines: seq<Option<LineRecord>>, a: int, b: int)
    requires 0 <= a <= b <= |lines|
    ensures forall k :: 0 <= k < |Tagged(lines, a, b)| ==>
              a <= Tagged(lines, a, b)[k].rawLineNumber < b
              && lines[Tagged(lines, a, b)[k].rawLineNumber] == Some(RecordOf(Tagged(lines, a, b)[k]))
    ensures forall k1, k2 :: 0 <= k1 < k2 < |Tagged(lines, a, b)| ==>
              Tagged(lines, a, b)[k1].rawLineNumber < Tagged(lines, a, b)[k2].rawLineNumber
    decreases b - a
  {
    if a < b {
      TaggedLines(lines, a, b - 1);
      var r0 := Tagged(lines, a, b - 1);
      var r := Tagged(lines, a, b);
      if IsSentence(lines[b - 1]) {
        var x := Tag(b - 1, lines[b - 1].value);
        assert r == r0 + [x];
        forall k | 0 <= k < |r|
          ensures a <= r[k].rawLineNumber < b && lines[r[k].rawLineNumber] == Some(RecordOf(r[k]))
        {
          if k < |r0| {
            assert r[k] == r0[k];
          } else {
            assert r[k] == x;
          }
        }
        forall k1, k2 | 0 <= k1 < k2 < |r|
          ensures r[k1].rawLineNumber < r[k2].rawLineNumber
        {
          assert r[k1] == r0[k1];
          if k2 < |r0| {
            assert r[k2] == r0[k2];
          } else {
            assert r[k2] == x;
          }
        }
      } else {
        assert r == r0;
      }
    }
  }

  /** What every step guarantees about the lines consumed from raw index
      `from` on: the cursor moved past `from` and stays within one past the
      end, exactly the sentence lines among them were appended, none of them
      was rejected by the grammar, and an error names the last line read. */
  predicate Consumes(lines: seq<Option<LineRecord>>, from: int, before: seq<ProofLine>, o: Outcome)
  {
    && 0 <= from < o.st.index <= |lines| + 1
    && o.st.result == before + Tagged(lines, from, o.st.index - 1)
    && (forall i :: from <= i < o.st.index - 1 ==> lines[i].Some?)
    && (o.status.Err? ==> o.status.error.rawLineNumber == o.st.index - 1)
  }

  /** Where a successful step stops: the premise section and the separator
      after an assumption end on a separator line, the body at the end. */
  predicate Finishes(lines: seq<Option<LineRecord>>, k: Continuation, o: Outcome)
  {
    && (k != ArgumentOrSubproof && o.status.Ok? ==>
          0 < o.st.index <= |lines| && IsSeparator(lines[o.st.index - 1]))
    && (k == ArgumentOrSubproof && o.status.Ok? ==> o.st.index == |lines| + 1)
  }

  /** A premise: a `V` sentence line at depth 1. */
  predicate PremiseLine(l: Option<LineRecord>)
  {
    IsSentence(l) && l.value.argument.name == "V" && l.value.depth == 1
  }

  /** Every accepted line deeper than the one before it is an `A` line, and
      the raw line after it is a separator. */
  predicate OpensWell(lines: seq<Option<LineRecord>>, r: seq<ProofLine>)
  {
    forall k :: 0 < k < |r| && r[k].depth > r[k - 1].depth ==>
      && r[k].argument.name == "A"
      && 0 <= r[k].rawLineNumber && r[k].rawLineNumber + 1 < |lines|
      && IsSeparator(lines[r[k].rawLineNumber + 1])
  }

  /** Appending a line keeps OpensWell when the line is no deeper than the
      last one, or is an `A` line followed by a separator. */
  lemma OpensWellPush(lines: seq<Option<LineRecord>>, r: seq<ProofLine>, x: ProofLine)
    requires OpensWell(lines, r)
    requires |r| == 0 || x.depth <= r[|r| - 1].depth
             || (x.argument.name == "A" && 0 <= x.rawLineNumber && x.rawLineNumber + 1 < |lines|
                 && IsSeparator(lines[x.rawLineNumber + 1]))
    ensures OpensWell(lines, r + [x])
  {
    var r' := r + [x];
    forall k | 0 < k < |r'| && r'[k].depth > r'[k - 1].depth
      ensures r'[k].argument.name == "A" && 0 <= r'[k].rawLineNumber && r'[k].rawLineNumber + 1 < |lines|
              && IsSeparator(lines[r'[k].rawLineNumber + 1])
    {
      if k < |r| {
        assert r'[k] == r[k] && r'[k - 1] == r[k - 1];
      }
    }
  }

  /** An accepted `A` line followed by a separator keeps OpensWell. */
  lemma AssumptionOpensWell(lines: seq<Option<LineRecord>>, raw: int, before: seq<ProofLine>, after: seq<ProofLine>, o1: Outcome)
    requires 0 <= raw < |lines| && IsSentence(lines[raw]) && lines[raw].value.argument.name == "A"
    requires after == before + [Tag(raw, lines[raw].value)]
    requires o1.status.Ok? && o1.st == PState(raw + 2, after)
    requires Finishes(lines, Separator, o1)
    requires OpensWell(lines, before)
    ensures OpensWell(lines, o1.st.result)
  {
    OpensWellPush(lines, before, Tag(raw, lines[raw].value));
  }

  /** A rule name the parser accepts somewhere: a premise, an assumption or
      a rule of the catalogue. */
  predicate KnownName(lib: Arguments.Library, name: string)
  {
    name == "V" || name == "A" || name in lib
  }

  /** Every accepted line names a rule the parser accepts. */
  predicate NamesKnown(lib: Arguments.Library, r: seq<ProofLine>)
  {
    forall k :: 0 <= k < |r| ==> KnownName(lib, r[k].argument.name)
  }

  lemma NamesKnownPush(lib: Arguments.Library, r: seq<ProofLine>, x: ProofLine)
    requires KnownName(lib, x.argument.name)
    ensures NamesKnown(lib, r) ==> NamesKnown(lib, r + [x])
  {
    if NamesKnown(lib, r) {
      forall k | 0 <= k < |r + [x]|
        ensures KnownName(lib, (r + [x])[k].argument.name)
      {
        if k < |r| {
          assert (r + [x])[k] == r[k];
        }
      }
    }
  }

  /** `cur` is the line just read by `nextLine` into state `st`. */
  predicate Fits(lines: seq<Option<LineRecord>>, cur: Current, st: PState)
  {
    && 0 <= cur.raw && st.index == cur.raw + 1 && cur.raw <= |lines|
    && (cur.raw < |lines| ==> lines[cur.raw].Some? && cur.rec == lines[cur.raw])
    && (cur.raw == |lines| ==> cur.rec.None?)
  }

  function ErrorAt(kind: ErrorKind, cur: Current): ProofError
  {
    ProofError(kind, cur.raw, cur.rec)
  }

  // ---------------------------------------------------------------------
  // The handlers, as functions

  /** checkDepth. */
  function DepthOutcome(cur: Current, expected: int): (r: Result<(), ProofError>)
    ensures r.Ok? <==> cur.rec.Some? && cur.rec.value.depth == expected
    ensures r.Err? ==> r.error == ErrorAt(InvalidDepth, cur)
  {
    if cur.rec.Some? && cur.rec.value.depth == expected then Ok(()) else Err(ErrorAt(InvalidDepth, cur))
  }

  /** nextLine: reads the line under the cursor (the end of the input past
      the last line), advances the cursor by one and hands the line to `k`;
      a line the grammar rejected is a ParserError. */
  function NextOutcome(lines: seq<Option<LineRecord>>, lib: Arguments.Library, k: Continuation, st: PState): (o: Outcome)
    requires 0 <= st.index <= |lines|
    ensures Consumes(lines, st.index, st.result, o)
    ensures Finishes(lines, k, o)
    ensures k == PremiseOrSeparator && o.status.Ok? ==>
              forall i :: st.index <= i < o.st.index - 1 ==> PremiseLine(lines[i])
    ensures k == Separator && o.status.Ok? ==> o.st == PState(st.index + 1, st.result)
    ensures k != PremiseOrSeparator && o.status.Ok? && OpensWell(lines, st.result) ==> OpensWell(lines, o.st.result)
    ensures o.status.Ok? && NamesKnown(lib, st.result) ==> NamesKnown(lib, o.st.result)
    ensures st.index < |lines| && lines[st.index].None? ==>
              o.status == Err(ProofError(ParserError, st.index, None))
    decreases |lines| + 1 - st.index, 0
  {
    var raw := st.index;
    var st1 := PState(raw + 1, st.result);
    if raw < |lines| && lines[raw].None? then
      Outcome(Err(ProofError(ParserError, raw, None)), st1)
    else
      var cur := Current(raw, if raw < |lines| then lines[raw] else None);
      match k
      case PremiseOrSeparator => PremiseOrSeparatorOutcome(lines, lib, cur, st1)
      case Separator => SeparatorOutcome(lines, cur, st1)
      case ArgumentOrSubproof => ArgumentOrSubproofOutcome(lines, lib, cur, st1)
  }

  /** parsePremiseOrSeparator. */
  function PremiseOrSeparatorOutcome(lines: seq<Option<LineRecord>>, lib: Arguments.Library, cur: Current, st: PState): (o: Outcome)
    requires Fits(lines, cur, st)
    ensures Consumes(lines, cur.raw, st.result, o)
    ensures Finishes(lines, PremiseOrSeparator, o)
    ensures o.status.Ok? ==> forall i :: cur.raw <= i < o.st.index - 1 ==> PremiseLine(lines[i])
    ensures o.status.Ok? && NamesKnown(lib, st.result) ==> NamesKnown(lib, o.st.result)
    decreases |lines| + 1 - st.index, 3
  {
    match cur.rec
    case None => Outcome(Err(ErrorAt(ExpectedSeparatorOrPremise, cur)), st)
    case Some(rec) =>
      if rec.SeparatorRecord? then SeparatorOutcome(lines, cur, st)
      else if rec.argument.name == "V" then PremiseOutcome(lines, lib, cur, st)
      else Outcome(Err(ErrorAt(ExpectedSeparatorOrPremise, cur)), st)
  }

  /** parseSeparator. */
  function SeparatorOutcome(lines: seq<Option<LineRecord>>, cur: Current, st: PState): (o: Outcome)
    requires Fits(lines, cur, st)
    ensures Consumes(lines, cur.raw, st.result, o)
    ensures Finishes(lines, Separator, o)
    ensures o.status.Ok? <==> IsSeparator(cur.rec)
    ensures o.st == st
    decreases |lines| + 1 - st.index, 1
  {
    match cur.rec
    case None => Outcome(Err(ErrorAt(ExpectedSeparator, cur)), st)
    case Some(rec) =>
      if rec.SeparatorRecord? then Outcome(Ok(()), st)
      else Outcome(Err(ErrorAt(ExpectedSeparator, cur)), st)
  }

  /** parsePremise: a `V` line at depth 1 is accepted and the premise
      section goes on. */
  function PremiseOutcome(lines: seq<Option<LineRecord>>, lib: Arguments.Library, cur: Current, st: PState): (o: Outcome)
    requires Fits(lines, cur, st)
    ensures Consumes(lines, cur.raw, st.result, o)
    ensures Finishes(lines, PremiseOrSeparator, o)
    ensures o.status.Ok? ==> forall i :: cur.raw <= i < o.st.index - 1 ==> PremiseLine(lines[i])
    ensures o.status.Ok? && NamesKnown(lib, st.result) ==> NamesKnown(lib, o.st.result)
    decreases |lines| + 1 - st.index, 2
  {
    match cur.rec
    case None => Outcome(Err(ErrorAt(ExpectedPremise, cur)), st)
    case Some(rec) =>
      if rec.SentenceRecord? && rec.argument.name == "V" then
        var depth := DepthOutcome(cur, 1);
        if depth.Err? then Outcome(depth, st)
        else
          var st1 := PState(st.index, st.result + [Tag(cur.raw, rec)]);
          var o := NextOutcome(lines, lib, PremiseOrSeparator, st1);
          AcceptOne(lines, cur.raw, st.result, st1.result, o);
          NamesKnownPush(lib, st.result, Tag(cur.raw, rec));
          o
      else Outcome(Err(ErrorAt(ExpectedPremise, cur)), st)
  }

  /** parseAssumption: an `A` line is accepted, the next line must be a
      separator, and the body goes on after it. */
  function AssumptionOutcome(lines: seq<Option<LineRecord>>, lib: Arguments.Library, cur: Current, st: PState): (o: Outcome)
    requires Fits(lines, cur, st)
    ensures Consumes(lines, cur.raw, st.result, o)
    ensures Finishes(lines, ArgumentOrSubproof, o)
    ensures o.status.Ok? && OpensWell(lines, st.result) ==> OpensWell(lines, o.st.result)
    ensures o.status.Ok? && NamesKnown(lib, st.result) ==> NamesKnown(lib, o.st.result)
    decreases |lines| + 1 - st.index, 2
  {
    match cur.rec
    case None => Outcome(Err(ErrorAt(ExpectedAssumption, cur)), st)
    case Some(rec) =>
      if rec.SentenceRecord? && rec.argument.name == "A" then
        var st1 := PState(st.index, st.result + [Tag(cur.raw, rec)]);
        var o1 := NextOutcome(lines, lib, Separator, st1);
        AcceptOne(lines, cur.raw, st.result, st1.result, o1);
        NamesKnownPush(lib, st.result, Tag(cur.raw, rec));
        if o1.status.Err? then o1
        else
          var o2 := NextOutcome(lines, lib, ArgumentOrSubproof, o1.st);
          ConsumesChain(lines, cur.raw, o1.st.index, st.result, o1, o2);
          if OpensWell(lines, st.result) then
            AssumptionOpensWell(lines, cur.raw, st.result, st1.result, o1);
            o2
          else o2
      else Outcome(Err(ErrorAt(ExpectedAssumption, cur)), st)
  }

  /** parseArgument: the end of the input ends the body successfully; a
      line naming a rule of the catalogue is accepted and the body goes on.
      A separator has no rule name to read: the source throws there, and the
      model reports SeparatorInBody. */
  function ArgumentOutcome(lines: seq<Option<LineRecord>>, lib: Arguments.Library, cur: Current, st: PState): (o: Outcome)
    requires Fits(lines, cur, st)
    ensures Consumes(lines, cur.raw, st.result, o)
    ensures Finishes(lines, ArgumentOrSubproof, o)
    ensures o.status.Ok? && OpensWell(lines, st.result) && !OpensSubproof(cur, st) ==> OpensWell(lines, o.st.result)
    ensures o.status.Ok? && NamesKnown(lib, st.result) ==> NamesKnown(lib, o.st.result)
    decreases |lines| + 1 - st.index, 2
  {
    match cur.rec
    case None => Outcome(Ok(()), st)
    case Some(rec) =>
      if rec.SeparatorRecord? then Outcome(Err(ErrorAt(SeparatorInBody, cur)), st)
      else if rec.argument.name in lib then
        var st1 := PState(st.index, st.result + [Tag(cur.raw, rec)]);
        var o := NextOutcome(lines, lib, ArgumentOrSubproof, st1);
        AcceptOne(lines, cur.raw, st.result, st1.result, o);
        NamesKnownPush(lib, st.result, Tag(cur.raw, rec));
        if OpensWell(lines, st.result) && !OpensSubproof(cur, st) then
          OpensWellPush(lines, st.result, Tag(cur.raw, rec));
          o
        else o
      else Outcome(Err(ErrorAt(InvalidArgumentName, cur)), st)
  }

  /** The line opens a sub-proof: something was accepted before and the line
      is deeper than the last accepted line. */
  predicate OpensSubproof(cur: Current, st: PState)
  {
    |st.result| > 0 && cur.rec.Some? && cur.rec.value.depth > st.result[|st.result| - 1].depth
  }

  /** parseArgumentOrSubproof. */
  function ArgumentOrSubproofOutcome(lines: seq<Option<LineRecord>>, lib: Arguments.Library, cur: Current, st: PState): (o: Outcome)
    requires Fits(lines, cur, st)
    ensures Consumes(lines, cur.raw, st.result, o)
    ensures Finishes(lines, ArgumentOrSubproof, o)
    ensures o.status.Ok? && OpensWell(lines, st.result) ==> OpensWell(lines, o.st.result)
    ensures o.status.Ok? && NamesKnown(lib, st.result) ==> NamesKnown(lib, o.st.result)
    decreases |lines| + 1 - st.index, 3
  {
    if OpensSubproof(cur, st) then AssumptionOutcome(lines, lib, cur, st)
    else ArgumentOutcome(lines, lib, cur, st)
  }

  /** After accepting the sentence line `raw`, the rest of the run accounts
      for the lines from `raw` on. */
  lemma AcceptOne(lines: seq<Option<LineRecord>>, raw: int, before: seq<ProofLine>, after: seq<ProofLine>, o: Outcome)
    requires 0 <= raw < |lines| && IsSentence(lines[raw])
    requires after == before + [Tag(raw, lines[raw].value)]
    requires Consumes(lines, raw + 1, after, o)
    ensures Consumes(lines, raw, before, o)
  {
    TaggedSplit(lines, raw, raw + 1, o.st.index - 1);
    assert Tagged(lines, raw, raw + 1) == [Tag(raw, lines[raw].value)];
  }

  /** Two runs one after the other account for the lines of both. */
  lemma ConsumesChain(lines: seq<Option<LineRecord>>, from: int, mid: int, before: seq<ProofLine>, o1: Outcome, o2: Outcome)
    requires Consumes(lines, from, before, o1) && o1.st.index == mid
    requires mid <= |lines| && lines[mid - 1].Some? && !IsSentence(lines[mid - 1])
    requires Consumes(lines, mid, o1.st.result, o2)
    ensures Consumes(lines, from, before, o2)
  {
    TaggedSplit(lines, from, mid - 1, o2.st.index - 1);
    TaggedSplit(lines, mid - 1, mid, o2.st.index - 1);
  }

  /** parseProof: the premise section, then the body; the accepted lines on
      success. */
  function ParseProofOutcome(lines: seq<Option<LineRecord>>, lib: Arguments.Library): (r: Result<seq<ProofLine>, ProofError>)
    ensures r.Ok? ==> NamesKnown(lib, r.value)
  {
    var o1 := NextOutcome(lines, lib, PremiseOrSeparator, PState(0, []));
    if o1.status.Err? then Err(o1.status.error)
    else
      var o2 := NextOutcome(lines, lib, ArgumentOrSubproof, o1.st);
      if o2.status.Err? then Err(o2.status.error) else Ok(o2.st.result)
  }

  // ---------------------------------------------------------------------
  // What parseProof guarantees

  /** The premise lines among raw lines `a` to `b - 1` are all `V` lines at
      depth 1 once tagged, so they open no sub-proof. */
  lemma PremisesFlat(lines: seq<Option<LineRecord>>, lib: Arguments.Library, a: int, b: int)
    requires 0 <= a <= b <= |lines|
    requires forall i :: a <= i < b ==> PremiseLine(lines[i])
    ensures forall k :: 0 <= k < |Tagged(lines, a, b)| ==>
              Tagged(lines, a, b)[k].depth == 1 && Tagged(lines, a, b)[k].argument.name == "V"
    ensures OpensWell(lines, Tagged(lines, a, b)) && NamesKnown(lib, Tagged(lines, a, b))
  {
    TaggedLines(lines, a, b);
    var r := Tagged(lines, a, b);
    forall k | 0 <= k < |r|
      ensures r[k].depth == 1 && r[k].argument.name == "V"
    {
      assert PremiseLine(lines[r[k].rawLineNumber]);
    }
  }

  /** The two stages of a successful parse put together: the premise
      section `0` to `s - 1`, the separator at `s`, then the body. */
  lemma StagesShape(lines: seq<Option<LineRecord>>, lib: Arguments.Library, s: int, r: seq<ProofLine>)
    requires 0 <= s < |lines| && IsSeparator(lines[s])
    requires forall i :: 0 <= i < s ==> PremiseLine(lines[i])
    requires r == Tagged(lines, 0, s) + Tagged(lines, s + 1, |lines|)
    requires OpensWell(lines, Tagged(lines, 0, s)) ==> OpensWell(lines, r)
    requires NamesKnown(lib, Tagged(lines, 0, s)) ==> NamesKnown(lib, r)
    ensures r == Tagged(lines, 0, |lines|)
    ensures NamesKnown(lib, r) && OpensWell(lines, r)
  {
    PremisesFlat(lines, lib, 0, s);
    TaggedSplit(lines, 0, s, s + 1);
    TaggedSplit(lines, 0, s + 1, |lines|);
    assert Tagged(lines, s, s + 1) == [];
  }

  /** What the premise stage of a successful parse leaves behind. */
  lemma FirstStage(lines: seq<Option<LineRecord>>, lib: Arguments.Library, o1: Outcome)
    requires o1 == NextOutcome(lines, lib, PremiseOrSeparator, PState(0, [])) && o1.status.Ok?
    ensures 0 < o1.st.index <= |lines| && IsSeparator(lines[o1.st.index - 1])
    ensures o1.st.result == Tagged(lines, 0, o1.st.index - 1)
    ensures forall i :: 0 <= i < o1.st.index - 1 ==> PremiseLine(lines[i])
  {
    assert [] + Tagged(lines, 0, o1.st.index - 1) == Tagged(lines, 0, o1.st.index - 1);
  }

  /** What the body stage of a successful parse leaves behind. */
  lemma SecondStage(lines: seq<Option<LineRecord>>, lib: Arguments.Library, st: PState, o2: Outcome)
    requires 0 < st.index <= |lines|
    requires o2 == NextOutcome(lines, lib, ArgumentOrSubproof, st) && o2.status.Ok?
    ensures o2.st.result == st.result + Tagged(lines, st.index, |lines|)
    ensures forall i :: st.index <= i < |lines| ==> lines[i].Some?
    ensures OpensWell(lines, st.result) ==> OpensWell(lines, o2.st.result)
    ensures NamesKnown(lib, st.result) ==> NamesKnown(lib, o2.st.result)
  {
  }

  /** A successful parse accepts every raw line (none was rejected by the
      grammar), returns exactly the sentence lines in input order, starts
      with a premise section of `V` lines at depth 1 closed by a separator,
      names only accepted rules, and opens every sub-proof with an `A` line
      followed by a separator. */
  lemma ParseOkShape(lines: seq<Option<LineRecord>>, lib: Arguments.Library)
    requires ParseProofOutcome(lines, lib).Ok?
    ensures forall i :: 0 <= i < |lines| ==> lines[i].Some?
    ensures ParseProofOutcome(lines, lib).value == Tagged(lines, 0, |lines|)
    ensures exists s :: 0 <= s < |lines| && IsSeparator(lines[s]) && forall i :: 0 <= i < s ==> PremiseLine(lines[i])
    ensures NamesKnown(lib, ParseProofOutcome(lines, lib).value)
    ensures OpensWell(lines, ParseProofOutcome(lines, lib).value)
  {
    var o1 := NextOutcome(lines, lib, PremiseOrSeparator, PState(0, []));
    FirstStage(lines, lib, o1);
    var o2 := NextOutcome(lines, lib, ArgumentOrSubproof, o1.st);
    assert ParseProofOutcome(lines, lib) == Ok(o2.st.result);
    var s := o1.st.index - 1;
    SecondStage(lines, lib, o1.st, o2);
    StagesShape(lines, lib, s, o2.st.result);
    forall i | 0 <= i < |lines|
      ensures lines[i].Some?
    {
      if i == s {
        assert IsSeparator(lines[s]);
      }
    }
  }

  /** One premise line accepted. */
  lemma PremiseStep(lines: seq<Option<LineRecord>>, lib: Arguments.Library, i: int, res: seq<ProofLine>)
    requires 0 <= i < |lines| && PremiseLine(lines[i])
    ensures NextOutcome(lines, lib, PremiseOrSeparator, PState(i, res))
            == NextOutcome(lines, lib, PremiseOrSeparator, PState(i + 1, res + [Tag(i, lines[i].value)]))
  {
    var cur := Current(i, lines[i]);
    var st1 := PState(i + 1, res);
    assert NextOutcome(lines, lib, PremiseOrSeparator, PState(i, res)) == PremiseOrSeparatorOutcome(lines, lib, cur, st1);
    assert PremiseOrSeparatorOutcome(lines, lib, cur, st1) == PremiseOutcome(lines, lib, cur, st1);
    assert DepthOutcome(cur, 1).Ok?;
  }

  /** A run of premise lines is accepted one by one: parsing the premise
      section from `i` is parsing it from `j` with those lines accepted. */
  lemma {:induction false} PremiseRun(lines: seq<Option<LineRecord>>, lib: Arguments.Library, i: int, j: int, res: seq<ProofLine>)
    requires 0 <= i <= j <= |lines|
    requires forall t :: i <= t < j ==> PremiseLine(lines[t])
    ensures NextOutcome(lines, lib, PremiseOrSeparator, PState(i, res))
            == NextOutcome(lines, lib, PremiseOrSeparator, PState(j, res + Tagged(lines, i, j)))
    decreases j - i
  {
    if i < j {
      var x := Tag(i, lines[i].value);
      PremiseStep(lines, lib, i, res);
      PremiseRun(lines, lib, i + 1, j, res + [x]);
      TaggedSplit(lines, i, i + 1, j);
      assert Tagged(lines, i, i + 1) == [x];
      assert res + [x] + Tagged(lines, i + 1, j) == res + Tagged(lines, i, j);
    } else {
      assert res + Tagged(lines, i, j) == res;
    }
  }

  /** How the premise section fails: after premise lines `0` to `j - 1`,
      the end of the input, a line the grammar rejected, a `V` line at
      another depth, or a sentence line of another rule. */
  lemma PremiseSectionErrors(lines: seq<Option<LineRecord>>, lib: Arguments.Library, j: int)
    requires 0 <= j <= |lines|
    requires forall t :: 0 <= t < j ==> PremiseLine(lines[t])
    ensures j == |lines| ==>
              ParseProofOutcome(lines, lib) == Err(ProofError(ExpectedSeparatorOrPremise, j, None))
    ensures j < |lines| && lines[j].None? ==>
              ParseProofOutcome(lines, lib) == Err(ProofError(ParserError, j, None))
    ensures j < |lines| && IsSentence(lines[j]) && lines[j].value.argument.name == "V" && lines[j].value.depth != 1 ==>
              ParseProofOutcome(lines, lib) == Err(ProofError(InvalidDepth, j, lines[j]))
    ensures j < |lines| && IsSentence(lines[j]) && lines[j].value.argument.name != "V" ==>
              ParseProofOutcome(lines, lib) == Err(ProofError(ExpectedSeparatorOrPremise, j, lines[j]))
  {
    PremiseRun(lines, lib, 0, j, []);
    assert [] + Tagged(lines, 0, j) == Tagged(lines, 0, j);
    var st := PState(j + 1, Tagged(lines, 0, j));
    if j < |lines| && IsSentence(lines[j]) && lines[j].value.argument.name == "V" && lines[j].value.depth != 1 {
      var cur := Current(j, lines[j]);
      assert NextOutcome(lines, lib, PremiseOrSeparator, PState(j, Tagged(lines, 0, j)))
             == PremiseOrSeparatorOutcome(lines, lib, cur, st);
      assert PremiseOrSeparatorOutcome(lines, lib, cur, st) == PremiseOutcome(lines, lib, cur, st);
      assert DepthOutcome(cur, 1) == Err(ErrorAt(InvalidDepth, cur));
    }
  }

  /** A line the grammar rejects right after the premise section ends the
      parse with a ParserError at that line's raw index. */
  lemma RejectedFirstBodyLine(lines: seq<Option<LineRecord>>, lib: Arguments.Library, s: int)
    requires 0 <= s && s + 1 < |lines|
    requires forall t :: 0 <= t < s ==> PremiseLine(lines[t])
    requires IsSeparator(lines[s]) && lines[s + 1].None?
    ensures ParseProofOutcome(lines, lib) == Err(ProofError(ParserError, s + 1, None))
  {
    PremiseRun(lines, lib, 0, s, []);
    SeparatorEndsPremises(lines, lib, s, [] + Tagged(lines, 0, s));
  }

  /** How one body line fails, given the lines accepted so far: a line the
      grammar rejected, a line deeper than the last accepted one that is
      not an `A` line, an `A` line not followed by a separator (the end of
      the input or a rejected line included), a separator at no greater
      depth, or a sentence line whose rule is not in the catalogue. */
  lemma BodyLineErrors(lines: seq<Option<LineRecord>>, lib: Arguments.Library, i: int, res: seq<ProofLine>)
    requires 0 <= i < |lines|
    ensures var o := NextOutcome(lines, lib, ArgumentOrSubproof, PState(i, res));
            var deeper := OpensSubproof(Current(i, lines[i]), PState(i + 1, res));
            && (lines[i].None? ==> o.status == Err(ProofError(ParserError, i, None)))
            && (deeper && !(IsSentence(lines[i]) && lines[i].value.argument.name == "A") ==>
                  o.status == Err(ProofError(ExpectedAssumption, i, lines[i])))
            && (deeper && IsSentence(lines[i]) && lines[i].value.argument.name == "A" && i + 1 == |lines| ==>
                  o.status == Err(ProofError(ExpectedSeparator, i + 1, None)))
            && (deeper && IsSentence(lines[i]) && lines[i].value.argument.name == "A" && i + 1 < |lines| && IsSentence(lines[i + 1]) ==>
                  o.status == Err(ProofError(ExpectedSeparator, i + 1, lines[i + 1])))
            && (deeper && IsSentence(lines[i]) && lines[i].value.argument.name == "A" && i + 1 < |lines| && lines[i + 1].None? ==>
                  o.status == Err(ProofError(ParserError, i + 1, None)))
            && (!deeper && IsSeparator(lines[i]) ==>
                  o.status == Err(ProofError(SeparatorInBody, i, lines[i])))
            && (!deeper && IsSentence(lines[i]) && lines[i].value.argument.name !in lib ==>
                  o.status == Err(ProofError(InvalidArgumentName, i, lines[i])))
  {
    if lines[i].None? {
      return;
    }
    var cur := Current(i, lines[i]);
    var st := PState(i + 1, res);
    assert NextOutcome(lines, lib, ArgumentOrSubproof, PState(i, res)) == ArgumentOrSubproofOutcome(lines, lib, cur, st);
    if OpensSubproof(cur, st) {
      assert ArgumentOrSubproofOutcome(lines, lib, cur, st) == AssumptionOutcome(lines, lib, cur, st);
      if IsSentence(lines[i]) && lines[i].value.argument.name == "A" {
        var st1 := PState(i + 1, res + [Tag(i, lines[i].value)]);
        var next := Current(i + 1, if i + 1 < |lines| then lines[i + 1] else None);
        if i + 1 == |lines| || IsSentence(lines[i + 1]) {
          assert NextOutcome(lines, lib, Separator, st1) == SeparatorOutcome(lines, next, PState(i + 2, st1.result));
        }
      }
    } else {
      assert ArgumentOrSubproofOutcome(lines, lib, cur, st) == ArgumentOutcome(lines, lib, cur, st);
    }
  }

  /** A separator ends the premise section successfully. */
  lemma SeparatorEndsPremises(lines: seq<Option<LineRecord>>, lib: Arguments.Library, i: int, res: seq<ProofLine>)
    requires 0 <= i < |lines| && IsSeparator(lines[i])
    ensures NextOutcome(lines, lib, PremiseOrSeparator, PState(i, res)) == Outcome(Ok(()), PState(i + 1, res))
  {
    var cur := Current(i, lines[i]);
    assert NextOutcome(lines, lib, PremiseOrSeparator, PState(i, res))
           == PremiseOrSeparatorOutcome(lines, lib, cur, PState(i + 1, res));
  }

  /** The end of the input ends the body successfully, whatever was
      accepted before. */
  lemma EndOfInputEndsBody(lines: seq<Option<LineRecord>>, lib: Arguments.Library, res: seq<ProofLine>)
    ensures NextOutcome(lines, lib, ArgumentOrSubproof, PState(|lines|, res))
            == Outcome(Ok(()), PState(|lines| + 1, res))
  {
    var eoi := Current(|lines|, None);
    var st := PState(|lines| + 1, res);
    assert NextOutcome(lines, lib, ArgumentOrSubproof, PState(|lines|, res))
           == ArgumentOrSubproofOutcome(lines, lib, eoi, st);
    assert !OpensSubproof(eoi, st);
    assert ArgumentOrSubproofOutcome(lines, lib, eoi, st) == ArgumentOutcome(lines, lib, eoi, st);
  }

  /** Premises closed by a separator and nothing else form a complete proof:
      the parse accepts exactly the premises. */
  lemma PremisesOnlyAccepted(lines: seq<Option<LineRecord>>, lib: Arguments.Library)
    requires |lines| > 0 && IsSeparator(lines[|lines| - 1])
    requires forall t :: 0 <= t < |lines| - 1 ==> PremiseLine(lines[t])
    ensures ParseProofOutcome(lines, lib) == Ok(Tagged(lines, 0, |lines| - 1))
  {
    var n := |lines|;
    var res := Tagged(lines, 0, n - 1);
    PremiseRun(lines, lib, 0, n - 1, []);
    assert [] + res == res;
    SeparatorEndsPremises(lines, lib, n - 1, res);
    EndOfInputEndsBody(lines, lib, res);
  }

  // ---------------------------------------------------------------------
  // The parser object

  class ProofParser {
    const lines: seq<Option<LineRecord>>
    const lib: Arguments.Library
    var index: int
    var result: seq<ProofLine>

    constructor(lines: seq<Option<LineRecord>>, lib: Arguments.Library)
      ensures this.lines == lines && this.lib == lib
      ensures index == 0 && result == []
    {
      this.lines := lines;
      this.lib := lib;
      index := 0;
      result := [];
    }

    function State(): PState
      reads this
    {
      PState(index, result)
    }

    /** nextLine. */
    method NextLine(k: Continuation) returns (r: Result<(), ProofError>)
      requires 0 <= index <= |lines|
      modifies this
      ensures Outcome(r, State()) == NextOutcome(lines, lib, k, old(State()))
      decreases |lines| + 1 - index, 0
    {
      var raw := index;
      var line: Option<LineRecord> := None;
      if index < |lines| {
        line := lines[index];
      }
      index := index + 1;
      if raw < |lines| && line.None? {
        return Err(ProofError(ParserError, raw, None));
      }
      var cur := Current(raw, line);
      match k
      case PremiseOrSeparator => r := ParsePremiseOrSeparator(cur);
      case Separator => r := ParseSeparator(cur);
      case ArgumentOrSubproof => r := ParseArgumentOrSubproof(cur);
    }

    /** checkDepth. */
    method CheckDepth(cur: Current, expected: int) returns (r: Result<(), ProofError>)
      ensures r == DepthOutcome(cur, expected)
    {
      if cur.rec.Some? && cur.rec.value.depth == expected {
        return Ok(());
      }
      return Err(ErrorAt(InvalidDepth, cur));
    }

    /** parsePremiseOrSeparator. */
    method ParsePremiseOrSeparator(cur: Current) returns (r: Result<(), ProofError>)
      requires Fits(lines, cur, State())
      modifies this
      ensures Outcome(r, State()) == PremiseOrSeparatorOutcome(lines, lib, cur, old(State()))
      decreases |lines| + 1 - index, 3
    {
      if cur.rec.None? {
        return Err(ErrorAt(ExpectedSeparatorOrPremise, cur));
      } else if cur.rec.value.SeparatorRecord? {
        r := ParseSeparator(cur);
      } else if cur.rec.value.argument.name == "V" {
        r := ParsePremise(cur);
      } else {
        return Err(ErrorAt(ExpectedSeparatorOrPremise, cur));
      }
    }

    /** parseSeparator. */
    method ParseSeparator(cur: Current) returns (r: Result<(), ProofError>)
      requires Fits(lines, cur, State())
      modifies this
      ensures Outcome(r, State()) == SeparatorOutcome(lines, cur, old(State()))
      decreases |lines| + 1 - index, 1
    {
      if cur.rec.None? {
        return Err(ErrorAt(ExpectedSeparator, cur));
      } else if cur.rec.value.SeparatorRecord? {
        return Ok(());
      } else {
        return Err(ErrorAt(ExpectedSeparator, cur));
      }
    }

    /** parsePremise. */
    method ParsePremise(cur: Current) returns (r: Result<(), ProofError>)
      requires Fits(lines, cur, State())
      modifies this
      ensures Outcome(r, State()) == PremiseOutcome(lines, lib, cur, old(State()))
      decreases |lines| + 1 - index, 2
    {
      if cur.rec.None? {
        return Err(ErrorAt(ExpectedPremise, cur));
      } else if cur.rec.value.SentenceRecord? && cur.rec.value.argument.name == "V" {
        var depth := CheckDepth(cur, 1);
        if depth.Err? {
          return depth;
        }
        result := result + [Tag(cur.raw, cur.rec.value)];
        r := NextLine(PremiseOrSeparator);
      } else {
        return Err(ErrorAt(ExpectedPremise, cur));
      }
    }

    /** parseAssumption. */
    method ParseAssumption(cur: Current) returns (r: Result<(), ProofError>)
      requires Fits(lines, cur, State())
      modifies this
      ensures Outcome(r, State()) == AssumptionOutcome(lines, lib, cur, old(State()))
      decreases |lines| + 1 - index, 2
    {
      if cur.rec.None? {
        return Err(ErrorAt(ExpectedAssumption, cur));
      } else if cur.rec.value.SentenceRecord? && cur.rec.value.argument.name == "A" {
        result := result + [Tag(cur.raw, cur.rec.value)];
        r := NextLine(Separator);
        if r.Err? {
          return r;
        }
        r := NextLine(ArgumentOrSubproof);
      } else {
        return Err(ErrorAt(ExpectedAssumption, cur));
      }
    }

    /** parseArgument. */
    method ParseArgument(cur: Current) returns (r: Result<(), ProofError>)
      requires Fits(lines, cur, State())
      modifies this
      ensures Outcome(r, State()) == ArgumentOutcome(lines, lib, cur, old(State()))
      decreases |lines| + 1 - index, 2
    {
      if cur.rec.None? {
        return Ok(());
      } else if cur.rec.value.SeparatorRecord? {
        return Err(ErrorAt(SeparatorInBody, cur));
      } else if cur.rec.value.argument.name in lib {
        result := result + [Tag(cur.raw, cur.rec.value)];
        r := NextLine(ArgumentOrSubproof);
      } else {
        return Err(ErrorAt(InvalidArgumentName, cur));
      }
    }

    /** parseArgumentOrSubproof. */
    method ParseArgumentOrSubproof(cur: Current) returns (r: Result<(), ProofError>)
      requires Fits(lines, cur, State())
      modifies this
      ensures Outcome(r, State()) == ArgumentOrSubproofOutcome(lines, lib, cur, old(State()))
      decreases |lines| + 1 - index, 3
    {
      if |result| > 0 && cur.rec.Some? && cur.rec.value.depth > result[|result| - 1].depth {
        r := ParseAssumption(cur);
      } else {
        r := ParseArgument(cur);
      }
    }
  }

  /** parseProof. */
  method ParseProof(lines: seq<Option<LineRecord>>, lib: Arguments.Library) returns (r: Result<seq<ProofLine>, ProofError>)
    ensures r == ParseProofOutcome(lines, lib)
  {
    var parser := new ProofParser(lines, lib);
    var status := parser.NextLine(PremiseOrSeparator);
    if status.Err? {
      return Err(status.error);
    }
    status := parser.NextLine(ArgumentOrSubproof);
    if status.Err? {
      return Err(status.error);
    }
    return Ok(parser.result);
  }
}
