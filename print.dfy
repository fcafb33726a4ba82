/** The fully parenthesising printer (al_print.js). Operator transcription,
    whose table is read from a file at start-up, is a parameter `tr`: the
    source applies it to the text produced at every node, so the model does
    too. The printer's partner is a reader for the printed form; printing
    with the identity transcription and reading back gives the sentence. */
module Print {
  import opened Wrappers
  import opened Sentences

  /** The ASCII spelling of each binary connective, with its spaces. */
  function OperatorText(op: BinOp): string
  {
    match op
    case Equivalent => " <-> "
    case Follows => " -> "
    case And => " & "
    case Or => " | "
  }

  /** sentenceToString_ and sentenceToString. Without transcription the
      alphabetic characters of the text are exactly the alphabetic letters
      of the sentence. */
  function SentenceToString(s: Sentence, tr: string -> string): (r: string)
    ensures (forall x :: tr(x) == x) ==>
              forall c :: IsLetterChar(c) ==> (c in r <==> c in LettersOf(s))
  {
    match s
    case Letter(c) => tr([c])
    case Bin(op, l, r) =>
      tr("(" + SentenceToString(l, tr) + OperatorText(op) + SentenceToString(r, tr) + ")")
    case Not(o) => tr("!" + SentenceToString(o, tr))
  }

  /** Letters the printed form can carry unambiguously. */
  predicate IsLetterChar(c: char)
  {
    ('a' <= c <= 'z') || ('A' <= c <= 'Z')
  }

  predicate AlphabeticLetters(s: Sentence)
  {
    forall c :: c in LettersOf(s) ==> IsLetterChar(c)
  }

  /** Reads a connective at the front of `t`. */
  function ReadOperator(t: string): (r: Option<(BinOp, string)>)
    ensures r.Some? ==> |r.value.1| < |t| && t == OperatorText(r.value.0) + r.value.1
  {
    if |t| >= 5 && t[..5] == " <-> " then Some((Equivalent, t[5..]))
    else if |t| >= 4 && t[..4] == " -> " then Some((Follows, t[4..]))
    else if |t| >= 3 && t[..3] == " & " then Some((And, t[3..]))
    else if |t| >= 3 && t[..3] == " | " then Some((Or, t[3..]))
    else None
  }

  /** Reads one sentence in printed form at the front of `t` and returns it
      with the rest of the text. */
  function ReadSentence(t: string): (r: Option<(Sentence, string)>)
    ensures r.Some? ==> |r.value.1| < |t|
    decreases |t|
  {
    if |t| == 0 then None
    else if IsLetterChar(t[0]) then Some((Letter(t[0]), t[1..]))
    else if t[0] == '!' then
      match ReadSentence(t[1..])
      case None => None
      case Some((o, rest)) => Some((Not(o), rest))
    else if t[0] == '(' then
      match ReadSentence(t[1..])
      case None => None
      case Some((l, rest1)) =>
        match ReadOperator(rest1)
        case None => None
        case Some((op, rest2)) =>
          match ReadSentence(rest2)
          case None => None
          case Some((r, rest3)) =>
            if |rest3| > 0 && rest3[0] == ')' then Some((Bin(op, l, r), rest3[1..])) else None
    else None
  }

  lemma ReadOperatorText(op: BinOp, rest: string)
    ensures ReadOperator(OperatorText(op) + rest) == Some((op, rest))
  {
    var t := OperatorText(op) + rest;
    var n := |OperatorText(op)|;
    assert t[..n] == OperatorText(op) && t[n..] == rest;
    assert t[0] == ' ' && t[1] == OperatorText(op)[1];
  }

  /** One step of the round trip for a negation. */
  lemma ReadNot(o: Sentence, p: string, rest: string)
    requires ReadSentence(p + rest) == Some((o, rest))
    ensures ReadSentence("!" + p + rest) == Some((Not(o), rest))
  {
    var t := "!" + p + rest;
    assert t[0] == '!' && t[1..] == p + rest;
  }

  /** One step of the round trip for a binary node, on the printed text cut
      into its pieces. */
  lemma ReadBin(t: string, op: BinOp, l: Sentence, r: Sentence, pl: string, pr: string, rest: string)
    requires |t| > 0 && t[0] == '(' && t[1..] == pl + (OperatorText(op) + (pr + (")" + rest)))
    requires ReadSentence(pl + (OperatorText(op) + (pr + (")" + rest)))) == Some((l, OperatorText(op) + (pr + (")" + rest))))
    requires ReadSentence(pr + (")" + rest)) == Some((r, ")" + rest))
    ensures ReadSentence(t) == Some((Bin(op, l, r), rest))
  {
    ReadOperatorText(op, pr + (")" + rest));
    assert (")" + rest)[0] == ')' && (")" + rest)[1..] == rest;
  }

  lemma BinText(pl: string, o: string, pr: string, rest: string)
    ensures var t := "(" + pl + o + pr + ")" + rest;
      |t| > 0 && t[0] == '(' && t[1..] == pl + (o + (pr + (")" + rest)))
  {
    var t := "(" + pl + o + pr + ")" + rest;
    assert t == "(" + (pl + (o + (pr + (")" + rest))));
  }

  /** Reading the printed form back (identity transcription) yields the
      sentence and leaves whatever follows it untouched. */
  lemma {:induction false} ReadPrinted(s: Sentence, tr: string -> string, rest: string)
    requires forall x :: tr(x) == x
    requires AlphabeticLetters(s)
    ensures ReadSentence(SentenceToString(s, tr) + rest) == Some((s, rest))
  {
    match s
    case Letter(c) =>
      assert SentenceToString(s, tr) == [c];
      assert ([c] + rest)[0] == c && ([c] + rest)[1..] == rest;
    case Not(o) =>
      var p := SentenceToString(o, tr);
      assert SentenceToString(s, tr) == "!" + p;
      ReadPrinted(o, tr, rest);
      ReadNot(o, p, rest);
    case Bin(op, l, r) =>
      var pl, pr := SentenceToString(l, tr), SentenceToString(r, tr);
      assert SentenceToString(s, tr) == "(" + pl + OperatorText(op) + pr + ")";
      ReadPrinted(l, tr, OperatorText(op) + (pr + (")" + rest)));
      ReadPrinted(r, tr, ")" + rest);
      BinText(pl, OperatorText(op), pr, rest);
      ReadBin(SentenceToString(s, tr) + rest, op, l, r, pl, pr, rest);
  }

  /** Printing is injective: two sentences with alphabetic letters that
      print alike are equal. */
  lemma PrintInjective(s: Sentence, u: Sentence, tr: string -> string)
    requires forall x :: tr(x) == x
    requires AlphabeticLetters(s) && AlphabeticLetters(u)
    requires SentenceToString(s, tr) == SentenceToString(u, tr)
    ensures s == u
  {
    ReadPrinted(s, tr, "");
    ReadPrinted(u, tr, "");
    assert SentenceToString(s, tr) + "" == SentenceToString(s, tr);
    assert SentenceToString(u, tr) + "" == SentenceToString(u, tr);
  }
}
