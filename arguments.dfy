/** The schema matcher (al_arguments.js). A rule template is a list of
    premise patterns and a conclusion pattern; every letter of a pattern is
    a schema variable. Matching a pattern against a sentence yields a
    mapping from the pattern's letters to sub-sentences. Object rules match
    their premises against cited lines directly; meta rules match implication
    patterns against `assumption -> line` implications built from a cited
    sub-proof. The rule catalogue is a parameter. */
module Arguments {
  import opened Wrappers
  import opened Sentences
  import Eval

  datatype MatchError =
    | IncompatibleMapping
    | IncompatibleOperators
    | InvalidArgumentUsage
    | ArgumentDoesNotMatch

  /** A binding of schema variables to sentences. */
  type Mapping = map<char, Sentence>

  datatype TemplateType = ObjectRule | MetaRule

  datatype Template = Template(kind: TemplateType, arity: int, premises: seq<Sentence>, conclusion: Sentence)

  /** The rule catalogue: each rule name with its overloads, in order. */
  type Library = map<string, seq<Template>>

  /** What the catalogue's schema guarantees: an object rule has as many
      premise patterns as its arity, a meta rule at least one. */
  predicate WellFormedTemplate(t: Template)
  {
    match t.kind
    case ObjectRule => |t.premises| == t.arity
    case MetaRule => |t.premises| > 0
  }

  predicate WellFormedLibrary(lib: Library)
  {
    forall name, t :: name in lib && t in lib[name] ==> WellFormedTemplate(t)
  }

  // ---------------------------------------------------------------------
  // Mappings

  /** Two mappings agree on every key they share. */
  predicate Compatible(lhs: Mapping, rhs: Mapping)
  {
    forall k :: k in lhs && k in rhs ==> lhs[k] == rhs[k]
  }

  /** The union of two mappings, or IncompatibleMapping when they disagree
      on a shared key. */
  function Join(lhs: Mapping, rhs: Mapping): (r: Result<Mapping, MatchError>)
    ensures r.Ok? <==> Compatible(lhs, rhs)
    ensures r.Err? ==> r.error == IncompatibleMapping
    ensures r.Ok? ==> r.value.Keys == lhs.Keys + rhs.Keys
    ensures r.Ok? ==> (forall k :: k in lhs ==> r.value[k] == lhs[k]) && (forall k :: k in rhs ==> r.value[k] == rhs[k])
  {
    if Compatible(lhs, rhs) then Ok(rhs + lhs) else Err(IncompatibleMapping)
  }

  /** joinMapping: copies `lhs` and adds the keys of `rhs` one at a time,
      failing at the first shared key with a different value. */
  method JoinMapping(lhs: Mapping, rhs: Mapping) returns (r: Result<Mapping, MatchError>)
    ensures r == Join(lhs, rhs)
  {
    var result := lhs;
    var todo := rhs.Keys;
    while todo != {}
      invariant todo <= rhs.Keys
      invariant result.Keys == lhs.Keys + (rhs.Keys - todo)
      invariant forall k :: k in lhs ==> result[k] == lhs[k]
      invariant forall k :: k in rhs && k !in todo ==> result[k] == rhs[k]
      decreases todo
    {
      var key :| key in todo;
      if key in lhs {
        if lhs[key] != rhs[key] {
          return Err(IncompatibleMapping);
        }
      } else {
        result := result[key := rhs[key]];
      }
      todo := todo - {key};
    }
    assert result == rhs + lhs;
    return Ok(result);
  }

  /** matchMappings_: whether the two mappings agree on their shared keys. */
  method MatchMappingPair(lhs: Mapping, rhs: Mapping) returns (b: bool)
    ensures b == Compatible(lhs, rhs)
  {
    var todo := rhs.Keys;
    while todo != {}
      invariant todo <= rhs.Keys
      invariant forall k :: k in lhs && k in rhs && k !in todo ==> lhs[k] == rhs[k]
      decreases todo
    {
      var key :| key in todo;
      if key in lhs && lhs[key] != rhs[key] {
        return false;
      }
      todo := todo - {key};
    }
    return true;
  }

  /** `reduce((a, b) => a && b)` without an initial value, which the source
      only applies to non-empty lists. */
  function AllTrue(bs: seq<bool>): (r: bool)
    requires |bs| > 0
    ensures r <==> forall k :: 0 <= k < |bs| ==> bs[k]
  {
    if |bs| == 1 then bs[0] else AllTrue(bs[..|bs| - 1]) && bs[|bs| - 1]
  }

  /** matchMappings: every mapping agrees with every other one. */
  function MatchMappings(ms: seq<Mapping>): (r: bool)
    requires |ms| > 0
    ensures r <==> forall i, j :: 0 <= i < |ms| && 0 <= j < |ms| ==> Compatible(ms[i], ms[j])
  {
    var rows := seq(|ms|, i requires 0 <= i < |ms| => MatchesAll(ms[i], ms));
    assert forall i :: 0 <= i < |ms| ==> rows[i] == MatchesAll(ms[i], ms);
    AllTrue(rows)
  }

  /** The inner map-and-reduce of matchMappings for one reference mapping. */
  function MatchesAll(ref: Mapping, ms: seq<Mapping>): (r: bool)
    requires |ms| > 0
    ensures r <==> forall j :: 0 <= j < |ms| ==> Compatible(ref, ms[j])
  {
    var row := seq(|ms|, j requires 0 <= j < |ms| => Compatible(ref, ms[j]));
    assert forall j :: 0 <= j < |ms| ==> row[j] == Compatible(ref, ms[j]);
    AllTrue(row)
  }

  // ---------------------------------------------------------------------
  // Matching one sentence

  /** Replaces every letter of `p` by its image under `m`. */
  function Subst(p: Sentence, m: Mapping): Sentence
    requires LettersOf(p) <= m.Keys
  {
    match p
    case Letter(c) => m[c]
    case Not(o) => Not(Subst(o, m))
    case Bin(op, l, r) => Bin(op, Subst(l, m), Subst(r, m))
  }

  /** The part of `m` on the letters `ls`. */
  function Restrict(m: Mapping, ls: set<char>): Mapping
  {
    map c | c in ls && c in m :: m[c]
  }

  /** Substitution depends only on the images of the pattern's letters. */
  lemma {:induction false} SubstAgree(p: Sentence, m1: Mapping, m2: Mapping)
    requires LettersOf(p) <= m1.Keys && LettersOf(p) <= m2.Keys
    requires forall c :: c in LettersOf(p) ==> m1[c] == m2[c]
    ensures Subst(p, m1) == Subst(p, m2)
  {
    match p
    case Letter(_) =>
    case Not(o) => SubstAgree(o, m1, m2);
    case Bin(_, l, r) =>
      SubstAgree(l, m1, m2);
      SubstAgree(r, m1, m2);
  }

  /** The interpretation that gives each letter of `p` the value of its
      image under `m`. */
  function ImageValues(p: Sentence, m: Mapping, i: Eval.Interpretation): Eval.Interpretation
    requires LettersOf(p) <= m.Keys
    requires forall c :: c in LettersOf(p) ==> Eval.Covers(i, m[c])
  {
    map c | c in LettersOf(p) :: Eval.Evaluate(m[c], i)
  }

  /** Evaluation is compositional: an instance of a pattern has the value
      the pattern has when each schema variable takes the value of its
      image. */
  lemma {:induction false} InstanceValue(p: Sentence, m: Mapping, i: Eval.Interpretation)
    requires LettersOf(p) <= m.Keys
    requires forall c :: c in LettersOf(p) ==> Eval.Covers(i, m[c])
    ensures Eval.Covers(i, Subst(p, m))
    ensures Eval.Evaluate(Subst(p, m), i) == Eval.Evaluate(p, ImageValues(p, m, i))
  {
    match p
    case Letter(c) =>
    case Not(o) =>
      InstanceValue(o, m, i);
      Eval.EvaluateDependsOnlyOnLetters(o, ImageValues(o, m, i), ImageValues(p, m, i));
    case Bin(op, l, r) =>
      InstanceValue(l, m, i);
      InstanceValue(r, m, i);
      Eval.EvaluateDependsOnlyOnLetters(l, ImageValues(l, m, i), ImageValues(p, m, i));
      Eval.EvaluateDependsOnlyOnLetters(r, ImageValues(r, m, i), ImageValues(p, m, i));
  }

  /** Pattern and sentence have the same connective at the root. */
  predicate SameOperator(p: Sentence, s: Sentence)
  {
    (p.Not? && s.Not?) || (p.Bin? && s.Bin? && p.op == s.op)
  }

  /** matchSentence. A letter matches anything; a compound pattern needs the
      same connective at the root, then its sides are matched (the left
      side's error first) and their mappings joined. */
  function MatchSentence(p: Sentence, s: Sentence): (r: Result<Mapping, MatchError>)
    ensures r.Ok? ==> r.value.Keys == LettersOf(p) && Subst(p, r.value) == s
    ensures r.Err? ==> r.error == IncompatibleOperators || r.error == IncompatibleMapping
    ensures !p.Letter? && !SameOperator(p, s) ==> r == Err(IncompatibleOperators)
  {
    match p
    case Letter(c) => Ok(map[c := s])
    case Not(po) =>
      if s.Not? then MatchSentence(po, s.operand) else Err(IncompatibleOperators)
    case Bin(op, pl, pr) =>
      if s.Bin? && s.op == op then
        var ml := MatchSentence(pl, s.lhs);
        var mr := MatchSentence(pr, s.rhs);
        if ml.Err? then Err(ml.error)
        else if mr.Err? then Err(mr.error)
        else
          var j := Join(ml.value, mr.value);
          if j.Ok? then
            SubstAgree(pl, ml.value, j.value);
            SubstAgree(pr, mr.value, j.value);
            j
          else j
      else Err(IncompatibleOperators)
  }

  /** Completeness: if some mapping turns `p` into `s`, matching succeeds
      with exactly that mapping's bindings of `p`'s letters. */
  lemma {:induction false} MatchComplete(p: Sentence, sigma: Mapping, s: Sentence)
    requires LettersOf(p) <= sigma.Keys && Subst(p, sigma) == s
    ensures MatchSentence(p, s) == Ok(Restrict(sigma, LettersOf(p)))
  {
    match p
    case Letter(c) =>
      assert Restrict(sigma, {c}) == map[c := s];
    case Not(o) =>
      MatchComplete(o, sigma, s.operand);
    case Bin(op, l, r) =>
      MatchComplete(l, sigma, s.lhs);
      MatchComplete(r, sigma, s.rhs);
      var ml, mr := Restrict(sigma, LettersOf(l)), Restrict(sigma, LettersOf(r));
      assert Compatible(ml, mr);
      assert mr + ml == Restrict(sigma, LettersOf(p));
  }

  /** A pattern matches a sentence iff the sentence is an instance of it. */
  lemma MatchIffInstance(p: Sentence, s: Sentence)
    ensures MatchSentence(p, s).Ok? <==> exists sigma: Mapping :: LettersOf(p) <= sigma.Keys && Subst(p, sigma) == s
  {
    var r := MatchSentence(p, s);
    if r.Ok? {
      assert LettersOf(p) <= r.value.Keys && Subst(p, r.value) == s;
    }
    forall sigma: Mapping | LettersOf(p) <= sigma.Keys && Subst(p, sigma) == s
      ensures MatchSentence(p, s).Ok?
    {
      MatchComplete(p, sigma, s);
    }
  }

  /** A schema variable used twice must be bound to one sentence: `A -> A`
      does not match `p -> q`. */
  lemma RepeatedVariableMustAgree()
    ensures MatchSentence(Implies(Letter('A'), Letter('A')), Implies(Letter('p'), Letter('q')))
            == Err(IncompatibleMapping)
  {
    var ml, mr := map['A' := Letter('p')], map['A' := Letter('q')];
    assert !Compatible(ml, mr) by {
      assert 'A' in ml && 'A' in mr && ml['A'] != mr['A'];
    }
  }

  // ---------------------------------------------------------------------
  // Object rules

  /** map_result: the first error among `rs`, or all of their values. */
  function MapResult(rs: seq<Result<Mapping, MatchError>>): (r: Result<seq<Mapping>, MatchError>)
    ensures r.Ok? <==> forall k :: 0 <= k < |rs| ==> rs[k].Ok?
    ensures r.Ok? ==> |r.value| == |rs| && forall k :: 0 <= k < |rs| ==> rs[k] == Ok(r.value[k])
  {
    if rs == [] then Ok([])
    else if rs[0].Err? then Err(rs[0].error)
    else
      match MapResult(rs[1..])
      case Err(e) => Err(e)
      case Ok(vs) =>
        assert forall k :: 1 <= k < |rs| ==> rs[k] == rs[1..][k - 1];
        Ok([rs[0].value] + vs)
  }

  /** The match of every premise pattern against its premise, followed by
      the match of the conclusion pattern. */
  function ObjectMatches(pps: seq<Sentence>, cp: Sentence, ps: seq<Sentence>, c: Sentence): seq<Result<Mapping, MatchError>>
    requires |pps| == |ps|
  {
    seq(|pps|, i requires 0 <= i < |pps| => MatchSentence(pps[i], ps[i])) + [MatchSentence(cp, c)]
  }

  /** The outcome matchObjectArgument computes. */
  function ObjectMatch(pps: seq<Sentence>, cp: Sentence, ps: seq<Sentence>, c: Sentence): Result<(), MatchError>
    requires |pps| == |ps|
  {
    match MapResult(ObjectMatches(pps, cp, ps, c))
    case Err(e) => Err(e)
    case Ok(ms) => if MatchMappings(ms) then Ok(()) else Err(ArgumentDoesNotMatch)
  }

  /** matchObjectArgument: collects the matches in a loop, then requires all
      of them to succeed and to agree pairwise. */
  method MatchObjectArgument(pps: seq<Sentence>, cp: Sentence, ps: seq<Sentence>, c: Sentence)
    returns (r: Result<(), MatchError>)
    requires |pps| == |ps|
    ensures r == ObjectMatch(pps, cp, ps, c)
  {
    var mappings: seq<Result<Mapping, MatchError>> := [];
    for i := 0 to |pps|
      invariant |mappings| == i
      invariant forall k :: 0 <= k < i ==> mappings[k] == MatchSentence(pps[k], ps[k])
    {
      mappings := mappings + [MatchSentence(pps[i], ps[i])];
    }
    mappings := mappings + [MatchSentence(cp, c)];
    assert mappings == ObjectMatches(pps, cp, ps, c);
    match MapResult(mappings)
    case Err(e) =>
      r := Err(e);
    case Ok(ms) =>
      r := if MatchMappings(ms) then Ok(()) else Err(ArgumentDoesNotMatch);
  }

  /** One mapping makes every premise pattern and the conclusion pattern into
      the given premises and conclusion. */
  predicate ObjectInstance(pps: seq<Sentence>, cp: Sentence, ps: seq<Sentence>, c: Sentence, sigma: Mapping)
    requires |pps| == |ps|
  {
    && (forall i :: 0 <= i < |pps| ==> LettersOf(pps[i]) <= sigma.Keys && Subst(pps[i], sigma) == ps[i])
    && LettersOf(cp) <= sigma.Keys && Subst(cp, sigma) == c
  }

  /** The union of mappings, the earlier ones winning. */
  function Merge(ms: seq<Mapping>): Mapping
  {
    if ms == [] then map[] else Merge(ms[1..]) + ms[0]
  }

  lemma {:induction false} MergeAgrees(ms: seq<Mapping>)
    requires forall i, j :: 0 <= i < |ms| && 0 <= j < |ms| ==> Compatible(ms[i], ms[j])
    ensures forall i, k :: 0 <= i < |ms| && k in ms[i] ==> k in Merge(ms) && Merge(ms)[k] == ms[i][k]
  {
    if ms != [] {
      var tail := ms[1..];
      assert forall i :: 0 <= i < |tail| ==> tail[i] == ms[i + 1];
      MergeAgrees(tail);
      forall i, k | 0 <= i < |ms| && k in ms[i]
        ensures k in Merge(ms) && Merge(ms)[k] == ms[i][k]
      {
        if i > 0 {
          assert ms[i] == tail[i - 1];
          assert k in ms[0] ==> ms[0][k] == ms[i][k] by {
            assert Compatible(ms[0], ms[i]);
          }
        }
      }
    }
  }

  /** Soundness of matchObjectArgument: on success one mapping instantiates
      all the patterns at once. */
  lemma ObjectMatchSound(pps: seq<Sentence>, cp: Sentence, ps: seq<Sentence>, c: Sentence)
    requires |pps| == |ps|
    requires ObjectMatch(pps, cp, ps, c).Ok?
    ensures exists sigma :: ObjectInstance(pps, cp, ps, c, sigma)
  {
    var rs := ObjectMatches(pps, cp, ps, c);
    var ms := MapResult(rs).value;
    var sigma := Merge(ms);
    MergeAgrees(ms);
    forall i | 0 <= i < |pps|
      ensures LettersOf(pps[i]) <= sigma.Keys && Subst(pps[i], sigma) == ps[i]
    {
      assert rs[i] == MatchSentence(pps[i], ps[i]) == Ok(ms[i]);
      SubstAgree(pps[i], ms[i], sigma);
    }
    var n := |pps|;
    assert rs[n] == MatchSentence(cp, c) == Ok(ms[n]);
    SubstAgree(cp, ms[n], sigma);
    assert ObjectInstance(pps, cp, ps, c, sigma);
  }

  /** Completeness of matchObjectArgument: if one mapping instantiates all the
      patterns, matching succeeds. */
  lemma ObjectMatchComplete(pps: seq<Sentence>, cp: Sentence, ps: seq<Sentence>, c: Sentence, sigma: Mapping)
    requires |pps| == |ps|
    requires ObjectInstance(pps, cp, ps, c, sigma)
    ensures ObjectMatch(pps, cp, ps, c) == Ok(())
  {
    var rs := ObjectMatches(pps, cp, ps, c);
    var n := |pps|;
    var pats := pps + [cp];
    forall k | 0 <= k < |rs|
      ensures rs[k] == Ok(Restrict(sigma, LettersOf(pats[k])))
    {
      if k < n {
        MatchComplete(pps[k], sigma, ps[k]);
      } else {
        MatchComplete(cp, sigma, c);
      }
    }
    var ms := MapResult(rs).value;
    forall i, j | 0 <= i < |ms| && 0 <= j < |ms|
      ensures Compatible(ms[i], ms[j])
    {
      assert rs[i] == Ok(ms[i]) && rs[j] == Ok(ms[j]);
    }
  }

  // ---------------------------------------------------------------------
  // Meta rules

  /** The implications `assumption -> line` for every line of a cited
      sub-proof, the assumption itself included. */
  function Candidates(proof: seq<Sentence>): (r: seq<Sentence>)
    ensures |r| == |proof|
    ensures forall k :: 0 <= k < |proof| ==> r[k] == Implies(proof[0], proof[k])
  {
    seq(|proof|, k requires 0 <= k < |proof| => Implies(proof[0], proof[k]))
  }

  /** The successful matches of `pat` against `cands`, in order. */
  function OkMatches(pat: Sentence, cands: seq<Sentence>): (r: seq<Mapping>)
    ensures forall m :: m in r <==> exists k :: 0 <= k < |cands| && MatchSentence(pat, cands[k]) == Ok(m)
  {
    if cands == [] then []
    else
      var rest := OkMatches(pat, cands[1..]);
      assert forall k :: 1 <= k < |cands| ==> cands[k] == cands[1..][k - 1];
      match MatchSentence(pat, cands[0])
      case Ok(m) => [m] + rest
      case Err(_) => rest
  }

  /** The mappings of `ms` that agree with `ref`, in order. */
  function CompatibleOnes(ms: seq<Mapping>, ref: Mapping): (r: seq<Mapping>)
    ensures forall m :: m in r <==> m in ms && Compatible(m, ref)
  {
    if ms == [] then []
    else (if Compatible(ms[0], ref) then [ms[0]] else []) + CompatibleOnes(ms[1..], ref)
  }

  /** For each inference pattern, its matches among the candidates that
      agree with the conclusion's mapping. */
  function PossibleMappings(infs: seq<Sentence>, proof: seq<Sentence>, cm: Mapping): (r: seq<seq<Mapping>>)
    ensures |r| == |infs|
    ensures forall j :: 0 <= j < |infs| ==> r[j] == CompatibleOnes(OkMatches(infs[j], Candidates(proof)), cm)
  {
    seq(|infs|, j requires 0 <= j < |infs| => CompatibleOnes(OkMatches(infs[j], Candidates(proof)), cm))
  }

  /** Every inference pattern has a possible mapping that agrees with `ref`. */
  predicate Supported(ref: Mapping, possible: seq<seq<Mapping>>)
  {
    forall j :: 0 <= j < |possible| ==> exists m :: m in possible[j] && Compatible(m, ref)
  }

  /** matchMetaArgument. The conclusion must match; then some reference
      mapping, a possible mapping of the first inference pattern, must be
      supported by a possible mapping of every inference pattern. */
  function MatchMetaArgument(infs: seq<Sentence>, cp: Sentence, proof: seq<Sentence>, c: Sentence): (r: Result<(), MatchError>)
    requires |infs| > 0
    ensures MatchSentence(cp, c).Err? ==> r == Err(MatchSentence(cp, c).error)
    ensures MatchSentence(cp, c).Ok? && r.Err? ==> r.error == ArgumentDoesNotMatch
    ensures r.Err? ==> r.error != InvalidArgumentUsage
  {
    match MatchSentence(cp, c)
    case Err(e) => Err(e)
    case Ok(cm) =>
      var possible := PossibleMappings(infs, proof, cm);
      if exists ref | ref in possible[0] :: Supported(ref, possible) then Ok(()) else Err(ArgumentDoesNotMatch)
  }

  /** What a successful meta match guarantees: inference pattern `j` is
      instantiated by `ms[j]` to `assumption -> proof[ks[j]]`, and every
      `ms[j]` agrees with the conclusion's mapping `cm` and with the
      reference `ms[0]`. */
  predicate MetaWitness(infs: seq<Sentence>, proof: seq<Sentence>, cm: Mapping, ms: seq<Mapping>, ks: seq<int>)
  {
    && |ms| == |infs| && |ks| == |infs|
    && forall j :: 0 <= j < |infs| ==>
         && 0 <= ks[j] < |proof|
         && LettersOf(infs[j]) <= ms[j].Keys
         && Subst(infs[j], ms[j]) == Implies(proof[0], proof[ks[j]])
         && Compatible(ms[j], cm) && Compatible(ms[j], ms[0])
  }

  /** Picks, for every list of `possible`, a mapping in it that agrees with
      `ref`, taking `ref` itself from the first list. */
  lemma PickSupport(ref: Mapping, possible: seq<seq<Mapping>>) returns (ms: seq<Mapping>)
    requires |possible| > 0 && ref in possible[0]
    requires Supported(ref, possible)
    ensures |ms| == |possible| && ms[0] == ref
    ensures forall j :: 0 <= j < |possible| ==> ms[j] in possible[j] && Compatible(ms[j], ref)
  {
    assert Compatible(ref, ref);
    ms := [ref];
    for j := 1 to |possible|
      invariant |ms| == j && ms[0] == ref
      invariant forall i :: 0 <= i < j ==> ms[i] in possible[i] && Compatible(ms[i], ref)
    {
      var m :| m in possible[j] && Compatible(m, ref);
      ms := ms + [m];
    }
  }

  /** The candidate line a successful match of `pat` came from. */
  lemma PickLine(pat: Sentence, proof: seq<Sentence>, m: Mapping) returns (k: int)
    requires m in OkMatches(pat, Candidates(proof))
    ensures 0 <= k < |proof| && MatchSentence(pat, Implies(proof[0], proof[k])) == Ok(m)
  {
    var cands := Candidates(proof);
    k :| 0 <= k < |cands| && MatchSentence(pat, cands[k]) == Ok(m);
    assert cands[k] == Implies(proof[0], proof[k]);
  }

  /** Picks, for every inference pattern, the candidate line its chosen
      mapping came from. */
  lemma PickLines(infs: seq<Sentence>, proof: seq<Sentence>, ms: seq<Mapping>) returns (ks: seq<int>)
    requires |ms| == |infs|
    requires forall j :: 0 <= j < |infs| ==> ms[j] in OkMatches(infs[j], Candidates(proof))
    ensures |ks| == |infs|
    ensures forall j :: 0 <= j < |infs| ==>
              0 <= ks[j] < |proof| && MatchSentence(infs[j], Implies(proof[0], proof[ks[j]])) == Ok(ms[j])
  {
    ks := [];
    for j := 0 to |infs|
      invariant |ks| == j
      invariant forall i :: 0 <= i < j ==>
                  0 <= ks[i] < |proof| && MatchSentence(infs[i], Implies(proof[0], proof[ks[i]])) == Ok(ms[i])
    {
      var k := PickLine(infs[j], proof, ms[j]);
      ks := ks + [k];
    }
  }

  /** Soundness of matchMetaArgument. */
  lemma MetaMatchSound(infs: seq<Sentence>, cp: Sentence, proof: seq<Sentence>, c: Sentence)
    requires |infs| > 0
    requires MatchMetaArgument(infs, cp, proof, c).Ok?
    ensures MatchSentence(cp, c).Ok?
    ensures LettersOf(cp) <= MatchSentence(cp, c).value.Keys && Subst(cp, MatchSentence(cp, c).value) == c
    ensures exists ms, ks :: MetaWitness(infs, proof, MatchSentence(cp, c).value, ms, ks)
  {
    var cm := MatchSentence(cp, c).value;
    var possible := PossibleMappings(infs, proof, cm);
    var ref :| ref in possible[0] && Supported(ref, possible);
    var ms := PickSupport(ref, possible);
    forall j | 0 <= j < |infs|
      ensures ms[j] in OkMatches(infs[j], Candidates(proof))
      ensures Compatible(ms[j], cm) && Compatible(ms[j], ref)
    {
      assert ms[j] in possible[j];
      assert possible[j] == CompatibleOnes(OkMatches(infs[j], Candidates(proof)), cm);
    }
    var ks := PickLines(infs, proof, ms);
    assert MetaWitness(infs, proof, cm, ms, ks);
  }

  /** Completeness of matchMetaArgument: if one mapping instantiates the
      conclusion pattern and turns every inference pattern into an
      implication from the sub-proof's assumption to one of its lines, the
      meta rule matches. */
  lemma MetaMatchComplete(infs: seq<Sentence>, cp: Sentence, proof: seq<Sentence>, c: Sentence, sigma: Mapping, ks: seq<int>)
    requires |infs| > 0 && |ks| == |infs|
    requires LettersOf(cp) <= sigma.Keys && Subst(cp, sigma) == c
    requires forall j :: 0 <= j < |infs| ==>
               0 <= ks[j] < |proof| && LettersOf(infs[j]) <= sigma.Keys
               && Subst(infs[j], sigma) == Implies(proof[0], proof[ks[j]])
    ensures MatchMetaArgument(infs, cp, proof, c) == Ok(())
  {
    MatchComplete(cp, sigma, c);
    var cm := Restrict(sigma, LettersOf(cp));
    var cands := Candidates(proof);
    var possible := PossibleMappings(infs, proof, cm);
    var mine := seq(|infs|, j requires 0 <= j < |infs| => Restrict(sigma, LettersOf(infs[j])));
    forall j | 0 <= j < |infs|
      ensures mine[j] in possible[j]
    {
      MatchComplete(infs[j], sigma, cands[ks[j]]);
      assert MatchSentence(infs[j], cands[ks[j]]) == Ok(mine[j]);
      assert Compatible(mine[j], cm);
    }
    var ref := mine[0];
    forall j | 0 <= j < |possible|
      ensures exists m :: m in possible[j] && Compatible(m, ref)
    {
      assert mine[j] in possible[j] && Compatible(mine[j], ref);
    }
    assert ref in possible[0] && Supported(ref, possible);
  }

  // ---------------------------------------------------------------------
  // Rules and overloads

  /** The outcome checkSingleArgument computes. */
  function SingleArgument(t: Template, ps: seq<Sentence>, c: Sentence): (r: Result<(), MatchError>)
    requires WellFormedTemplate(t)
    ensures t.kind == ObjectRule && |ps| != t.arity ==> r == Err(InvalidArgumentUsage)
    ensures r.Err? && !(t.kind == ObjectRule && |ps| != t.arity) ==> r.error == ArgumentDoesNotMatch
  {
    match t.kind
    case ObjectRule =>
      if |ps| != t.arity then Err(InvalidArgumentUsage)
      else if ObjectMatch(t.premises, t.conclusion, ps, c).Ok? then Ok(())
      else Err(ArgumentDoesNotMatch)
    case MetaRule =>
      if MatchMetaArgument(t.premises, t.conclusion, ps, c).Ok? then Ok(()) else Err(ArgumentDoesNotMatch)
  }

  /** An object rule applies iff the premise count is its arity and one
      mapping instantiates all its patterns to the premises and conclusion. */
  lemma ObjectRuleIff(t: Template, ps: seq<Sentence>, c: Sentence)
    requires t.kind == ObjectRule && WellFormedTemplate(t)
    ensures SingleArgument(t, ps, c).Ok? <==>
              |ps| == t.arity && exists sigma :: ObjectInstance(t.premises, t.conclusion, ps, c, sigma)
  {
    if |ps| == t.arity {
      if SingleArgument(t, ps, c).Ok? {
        ObjectMatchSound(t.premises, t.conclusion, ps, c);
      }
      forall sigma | ObjectInstance(t.premises, t.conclusion, ps, c, sigma)
        ensures SingleArgument(t, ps, c).Ok?
      {
        ObjectMatchComplete(t.premises, t.conclusion, ps, c, sigma);
      }
    }
  }

  /** checkSingleArgument. */
  method CheckSingleArgument(t: Template, ps: seq<Sentence>, c: Sentence) returns (r: Result<(), MatchError>)
    requires WellFormedTemplate(t)
    ensures r == SingleArgument(t, ps, c)
  {
    match t.kind
    case ObjectRule =>
      if |ps| != t.arity {
        return Err(InvalidArgumentUsage);
      }
      var m := MatchObjectArgument(t.premises, t.conclusion, ps, c);
      r := if m.Ok? then Ok(()) else Err(ArgumentDoesNotMatch);
    case MetaRule =>
      var m := MatchMetaArgument(t.premises, t.conclusion, ps, c);
      r := if m.Ok? then Ok(()) else Err(ArgumentDoesNotMatch);
  }

  /** Some overload registered under `name` accepts the premises and
      conclusion. */
  predicate ArgumentHolds(lib: Library, name: string, ps: seq<Sentence>, c: Sentence)
    requires WellFormedLibrary(lib)
  {
    name in lib && exists t :: t in lib[name] && SingleArgument(t, ps, c).Ok?
  }

  /** checkArgument: tries the overloads in order and stops at the first
      that accepts. */
  method CheckArgument(lib: Library, name: string, ps: seq<Sentence>, c: Sentence) returns (r: Result<(), MatchError>)
    requires WellFormedLibrary(lib)
    ensures r.Ok? <==> ArgumentHolds(lib, name, ps, c)
    ensures r.Err? ==> r.error == ArgumentDoesNotMatch
  {
    if name in lib {
      var overloads := lib[name];
      for i := 0 to |overloads|
        invariant forall k :: 0 <= k < i ==> SingleArgument(overloads[k], ps, c).Err?
      {
        var single := CheckSingleArgument(overloads[i], ps, c);
        if single.Ok? {
          return Ok(());
        }
      }
    }
    return Err(ArgumentDoesNotMatch);
  }
}
