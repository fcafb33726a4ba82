/** The bound-variable check on parsed predicate-logic sentences
    (pl_parse.js). `x`, `y` and `z` are variables and must be bound by an
    enclosing quantifier wherever they are used as an argument of a
    predicate; every other argument is a constant. */
module PlCheck {
  import opened Wrappers
  import opened Sentences

  datatype Quantifier = ForAll | Exists

  /** The node shapes of the predicate-logic tree: `{lhs, rhs}`,
      `{operand}`, `{variable, sentence}` and `{objects}`. */
  datatype PlSentence =
    | PlBinary(op: BinOp, lhs: PlSentence, rhs: PlSentence)
    | PlNot(operand: PlSentence)
    | Quantified(quantifier: Quantifier, variable: string, body: PlSentence)
    | Predicate(name: string, objects: seq<string>)

  datatype PlError = SyntaxError | UnboundVariable

  predicate IsVariable(o: string)
  {
    o == "x" || o == "y" || o == "z"
  }

  /** The reduce over a predicate's arguments: every variable among them is
      bound. */
  function ObjectsBound(objects: seq<string>, bound: seq<string>): (r: bool)
    ensures r <==> forall k :: 0 <= k < |objects| && IsVariable(objects[k]) ==> objects[k] in bound
  {
    if objects == [] then true
    else
      var last := objects[|objects| - 1];
      ObjectsBound(objects[..|objects| - 1], bound) && (!IsVariable(last) || last in bound)
  }

  /** The variables used free in `s`: reference definition. */
  function FreeVariables(s: PlSentence): set<string>
  {
    match s
    case PlBinary(_, l, r) => FreeVariables(l) + FreeVariables(r)
    case PlNot(o) => FreeVariables(o)
    case Quantified(_, v, b) => FreeVariables(b) - {v}
    case Predicate(_, objs) => set o | o in objs && IsVariable(o)
  }

  /** checkVariables as written: on success it passes up the result of the
      last sub-tree it checked, which is the rightmost predicate. */
  function CheckVariablesAsWritten(s: PlSentence, bound: seq<string>): (r: Result<PlSentence, PlError>)
    ensures r.Ok? ==> r.value.Predicate?
    ensures r.Err? ==> r.error == UnboundVariable
  {
    match s
    case PlBinary(_, l, r) =>
      var left := CheckVariablesAsWritten(l, bound);
      if left.Err? then left else CheckVariablesAsWritten(r, bound)
    case PlNot(o) => CheckVariablesAsWritten(o, bound)
    case Quantified(_, v, b) => CheckVariablesAsWritten(b, bound + [v])
    case Predicate(_, objs) => if ObjectsBound(objs, bound) then Ok(s) else Err(UnboundVariable)
  }

  /** The rightmost predicate of a sentence. */
  function LastPredicate(s: PlSentence): (r: PlSentence)
    ensures r.Predicate?
  {
    match s
    case PlBinary(_, _, r) => LastPredicate(r)
    case PlNot(o) => LastPredicate(o)
    case Quantified(_, _, b) => LastPredicate(b)
    case Predicate(_, _) => s
  }

  /** What the source returns on success is the rightmost predicate, not the
      sentence. */
  lemma {:induction false} AsWrittenReturnsLastPredicate(s: PlSentence, bound: seq<string>)
    ensures CheckVariablesAsWritten(s, bound).Ok? ==> CheckVariablesAsWritten(s, bound).value == LastPredicate(s)
  {
    match s
    case PlBinary(_, l, r) => AsWrittenReturnsLastPredicate(r, bound);
    case PlNot(o) => AsWrittenReturnsLastPredicate(o, bound);
    case Quantified(_, v, b) => AsWrittenReturnsLastPredicate(b, bound + [v]);
    case Predicate(_, _) =>
  }

  /** `Fa & Gb` passes the check, and the source hands back `Gb` alone. */
  lemma AsWrittenDropsTheSentence()
    ensures var s := PlBinary(And, Predicate("F", ["a"]), Predicate("G", ["b"]));
            CheckVariablesAsWritten(s, []) == Ok(Predicate("G", ["b"])) && Predicate("G", ["b"]) != s
  {
    assert ObjectsBound(["a"], []);
    assert ObjectsBound(["b"], []);
  }

  /** checkVariables returning the checked sentence itself: succeeds exactly
      when every variable used free in `s` is in `bound`, and the only error
      is UnboundVariable. */
  function CheckVariables(s: PlSentence, bound: seq<string>): (r: Result<PlSentence, PlError>)
    ensures r.Ok? ==> r.value == s
    ensures r.Err? ==> r.error == UnboundVariable
    ensures r.Ok? <==> CheckVariablesAsWritten(s, bound).Ok?
  {
    match s
    case PlBinary(_, l, r) =>
      if CheckVariables(l, bound).Err? then Err(UnboundVariable)
      else if CheckVariables(r, bound).Err? then Err(UnboundVariable)
      else Ok(s)
    case PlNot(o) => if CheckVariables(o, bound).Err? then Err(UnboundVariable) else Ok(s)
    case Quantified(_, v, b) => if CheckVariables(b, bound + [v]).Err? then Err(UnboundVariable) else Ok(s)
    case Predicate(_, objs) => if ObjectsBound(objs, bound) then Ok(s) else Err(UnboundVariable)
  }

  /** The check passes iff every free variable of `s` is bound. */
  lemma {:induction false} CheckVariablesIff(s: PlSentence, bound: seq<string>)
    ensures CheckVariables(s, bound).Ok? <==> forall v :: v in FreeVariables(s) ==> v in bound
  {
    match s
    case PlBinary(_, l, r) =>
      CheckVariablesIff(l, bound);
      CheckVariablesIff(r, bound);
    case PlNot(o) =>
      CheckVariablesIff(o, bound);
    case Quantified(_, v, b) =>
      CheckVariablesIff(b, bound + [v]);
      assert forall u :: u in bound + [v] <==> u in bound || u == v;
    case Predicate(_, objs) =>
  }

  /** The variable a quantifier binds is bound in its body only: `AAx Fx &
      Gx` fails although `AAx Fx` passes. */
  lemma QuantifierScopesOverBodyOnly()
    ensures CheckVariables(Quantified(ForAll, "x", Predicate("F", ["x"])), []).Ok?
    ensures CheckVariables(PlBinary(And, Quantified(ForAll, "x", Predicate("F", ["x"])), Predicate("G", ["x"])), []).Err?
  {
    assert ObjectsBound(["x"], ["x"]);
    assert !ObjectsBound(["x"], []);
  }

  /** Enlarging the bound list never turns a pass into a failure. */
  lemma BoundMonotone(s: PlSentence, bound: seq<string>, bound': seq<string>)
    requires forall v :: v in bound ==> v in bound'
    requires CheckVariables(s, bound).Ok?
    ensures CheckVariables(s, bound').Ok?
  {
    CheckVariablesIff(s, bound);
    CheckVariablesIff(s, bound');
  }

  /** parse after the grammar: a syntax error passes through, a sentence
      is checked with no variable bound. */
  function Parse(parsed: Result<PlSentence, PlError>): (r: Result<PlSentence, PlError>)
    ensures parsed.Err? ==> r == parsed
    ensures parsed.Ok? ==> (r.Ok? <==> FreeVariables(parsed.value) == {})
    ensures parsed.Ok? && r.Ok? ==> r.value == parsed.value
  {
    if parsed.Err? then parsed
    else
      var s := parsed.value;
      CheckVariablesIff(s, []);
      CheckVariables(s, [])
  }
}
