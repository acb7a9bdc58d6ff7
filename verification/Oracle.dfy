// The SAT solver as the oracle of the selection: what its answers say about pairs
// of input vectors.
module Oracle {
  import opened SolverTypes
  import opened CircuitCnf
  import opened PatchDesign
  import opened MergeSelecting
  import opened QuerySolving
  import opened DontCares
  import opened DontCareSolving
  import opened SolverInterfacing
  import opened SolverInvariant
  import opened SolverCore

  // The assumptions of a query: triggers of the selected candidates, and whether
  // blocked cases are enforced.
  function Assumptions(l: Layout, equal: seq<nat>, noIn0: bool, noIn1: bool): seq<Lit>
  {
    seq(|equal|, i requires 0 <= i < |equal| => SigLit(if equal[i] < |l.eq| then l.eq[equal[i]]
      else l.en0, if equal[i] < |l.eq| then true else noIn0))
      + [SigLit(l.en0, noIn0), SigLit(l.en1, noIn1)]
  }

  ghost function Chosen(equal: seq<nat>): set<nat>
  {
    set k | k in equal
  }

  // The assumptions hold exactly if the triggers and the enabling variables do.
  lemma AssumptionsMeaning(tau: Model, l: Layout, equal: seq<nat>, noIn0: bool, noIn1: bool)
    ensures (forall p :: p in Assumptions(l, equal, noIn0, noIn1) ==> HoldsL(tau, p)) <==>
      (forall k :: k in Chosen(equal) && k < |l.eq| ==> l.eq[k] in tau) && (l.en0 in tau <==> noIn0)
        && (l.en1 in tau <==> noIn1)
  {
    var asms := Assumptions(l, equal, noIn0, noIn1);
    if forall p :: p in asms ==> HoldsL(tau, p) {
      assert asms[|equal|] in asms && asms[|equal| + 1] in asms;
      forall k | k in Chosen(equal) && k < |l.eq| ensures l.eq[k] in tau
      {
        var i :| 0 <= i < |equal| && equal[i] == k;
        assert asms[i] in asms;
      }
    }
    if (forall k :: k in Chosen(equal) && k < |l.eq| ==> l.eq[k] in tau) && (l.en0 in tau <==> noIn0)
      && (l.en1 in tau <==> noIn1) {
      forall p | p in asms ensures HoldsL(tau, p)
      {
        var i :| 0 <= i < |asms| && asms[i] == p;
        if i < |equal| {
          assert equal[i] in Chosen(equal);
        }
      }
    }
  }

  // The solver's formula is that of the query, with the cases blocked so far.
  ghost predicate Encodes(f: set<seq<Lit>>, c: Circuits, l: Layout, in0: seq<Vec>, in1: seq<Vec>)
    requires CircuitsOk(c) && LayoutOk(c, l)
  {
    forall tau :: HoldsF(tau, f) <==>
      Base(tau, c, l) && (forall p :: p in in0 ==> CaseHolds(tau, c, l, p, false))
        && (forall p :: p in in1 ==> CaseHolds(tau, c, l, p, true))
  }

  // The solver with the formula of the interface, in incremental mode. The source
  // passes variables and clauses on as they are made; here all clauses come after all
  // variables, in any order.
  method Load(glu: GInterface) returns (s: Solver)
    requires glu.Valid()
    ensures fresh(s) && s.Valid() && |s.trailLim| == 0 && s.DecisionsCover()
    ensures s.formula == glu.clauses && |s.assigns| == glu.nVars
  {
    hide Consistent, Drained, BooksOk, AllClear;
    s := new Solver();
    s.SetIncrementalMode();
    for n := 0 to glu.nVars
      invariant s.Valid() && |s.trailLim| == 0 && s.formula == {} && |s.assigns| == |s.decision| == n
      invariant forall v :: 0 <= v < |s.decision| ==> s.decision[v]
    {
      var v := s.NewVar(true, true);
    }
    var todo := glu.clauses;
    while todo != {}
      invariant todo <= glu.clauses && s.formula == glu.clauses - todo
      invariant s.Valid() && |s.trailLim| == 0 && |s.assigns| == glu.nVars
      invariant forall v :: 0 <= v < |s.decision| ==> s.decision[v]
      decreases todo
    {
      var c :| c in todo;
      var res := s.AddClause(c);
      todo := todo - {c};
    }
  }

  // The formula of the query with the cases blocked so far.
  method Formula(c: Circuits, in0: seq<Vec>, in1: seq<Vec>) returns (glu: GInterface, l: Layout)
    requires CircuitsOk(c) && forall p :: p in in0 || p in in1 ==> |p| == |c.cands|
    ensures fresh(glu) && glu.Valid() && LayoutOk(c, l) && LayoutBelow(l, glu.nVars)
    ensures Encodes(glu.clauses, c, l, in0, in1)
  {
    hide CircuitsOk, LayoutOk, Base, CaseHolds, HoldsF;
    glu, l := MakeSolver(c);
    for i := 0 to |in0|
      invariant fresh(glu) && glu.Valid() && LayoutBelow(l, glu.nVars)
      invariant Encodes(glu.clauses, c, l, in0[..i], [])
    {
      assert in0[i] in in0 && in0[..i + 1] == in0[..i] + [in0[i]];
      RemoveCase(glu, c, l, in0[i], false);
    }
    assert in0[..|in0|] == in0;
    for i := 0 to |in1|
      invariant fresh(glu) && glu.Valid() && LayoutBelow(l, glu.nVars)
      invariant Encodes(glu.clauses, c, l, in0, in1[..i])
    {
      assert in1[i] in in1 && in1[..i + 1] == in1[..i] + [in1[i]];
      RemoveCase(glu, c, l, in1[i], true);
    }
    assert in1[..|in1|] == in1;
  }

  // From the circuits to the answer: the formula is built and loaded, and the solver
  // asked. A pair answers the query, and a refusal means that no pair does.
  method Decide(c: Circuits, ghost d: Design, equal: seq<nat>, in0: seq<Vec>, in1: seq<Vec>, noIn0: bool, noIn1: bool,
      restarts: nat)
    returns (res: Option<(Vec, Vec)>)
    requires CircuitsOk(c) && Describes(d, c) && forall p :: p in in0 || p in in1 ==> |p| == |c.cands|
    ensures res.Some? ==>
      res.value.0 in d.inputs && res.value.1 in d.inputs
      && Query(d, res.value.0, res.value.1, Chosen(equal), in0, in1, noIn0, noIn1)
    ensures res.None? ==>
      forall v, w :: v in d.inputs && w in d.inputs ==> !Query(d, v, w, Chosen(equal), in0, in1, noIn0, noIn1)
  {
    hide CircuitsOk, LayoutOk, Describes, Encodes, Query, Chosen;
    var glu, l := Formula(c, in0, in1);
    var s := Load(glu);
    res := Ask(s, c, l, d, equal, in0, in1, noIn0, noIn1, restarts);
  }

  // Asks the solver; its model gives the two vectors.
  method Ask(s: Solver, c: Circuits, l: Layout, ghost d: Design, equal: seq<nat>, ghost in0: seq<Vec>,
      ghost in1: seq<Vec>, noIn0: bool, noIn1: bool, restarts: nat)
    returns (res: Option<(Vec, Vec)>)
    requires CircuitsOk(c) && LayoutOk(c, l) && Describes(d, c) && Encodes(s.formula, c, l, in0, in1)
    requires s.Valid() && |s.trailLim| == 0 && s.DecisionsCover() && LayoutBelow(l, |s.assigns|)
    modifies s
    ensures s.Valid() && |s.trailLim| == 0 && s.formula == old(s.formula)
    ensures res.Some? ==>
      res.value.0 in d.inputs && res.value.1 in d.inputs
      && Query(d, res.value.0, res.value.1, Chosen(equal), in0, in1, noIn0, noIn1)
    ensures res.None? ==>
      forall v, w :: v in d.inputs && w in d.inputs ==> !Query(d, v, w, Chosen(equal), in0, in1, noIn0, noIn1)
  {
    var asms := Assumptions(l, equal, noIn0, noIn1);
    hide CircuitsOk, Describes, Encodes, Query, Base;
    forall p | p in asms ensures p.v < |s.assigns|
    {
      var i :| 0 <= i < |asms| && asms[i] == p;
    }
    hide Assumptions;
    var status := s.Solve(asms, restarts);
    if status == LTrue {
      ghost var tau := s.ModelSet();
      VectorRead(s.model, tau, c);
      AssumptionsMeaning(tau, l, equal, noIn0, noIn1);
      PositiveAnswer(tau, s.formula, c, l, d, Chosen(equal), in0, in1, noIn0, noIn1);
      return Some((ReadVector(s.model, c.implPis, 0), ReadVector(s.model, c.implPis, 2 * c.impl.n)));
    }
    NegativeAnswer(s.formula, c, l, d, equal, in0, in1, noIn0, noIn1);
    res := None;
  }

  // The values of the inputs in a model.
  function ReadVector(model: seq<LBool>, pis: seq<nat>, off: nat): Vec
  {
    seq(|pis|, k requires 0 <= k < |pis| => Place(pis[k], off) < |model| && model[Place(pis[k], off)] == LTrue)
  }

  lemma VectorRead(model: seq<LBool>, tau: Model, c: Circuits)
    requires tau == iset v: nat | v < |model| && model[v] == LTrue
    ensures ReadVector(model, c.implPis, 0) == FirstVector(tau, c)
    ensures ReadVector(model, c.implPis, 2 * c.impl.n) == SecondVector(tau, c)
  {
  }

  lemma PositiveAnswer(tau: Model, f: set<seq<Lit>>, c: Circuits, l: Layout, d: Design, equal: set<nat>, in0: seq<Vec>,
      in1: seq<Vec>, noIn0: bool, noIn1: bool)
    requires CircuitsOk(c) && LayoutOk(c, l) && Describes(d, c) && Encodes(f, c, l, in0, in1) && HoldsF(tau, f)
    requires (forall k :: k in equal && k < |l.eq| ==> l.eq[k] in tau) && (l.en0 in tau <==> noIn0)
      && (l.en1 in tau <==> noIn1)
    ensures FirstVector(tau, c) in d.inputs && SecondVector(tau, c) in d.inputs
    ensures Query(d, FirstVector(tau, c), SecondVector(tau, c), equal, in0, in1, noIn0, noIn1)
  {
    hide CircuitsOk, LayoutOk, Describes, Query, Base, CaseHolds, HoldsF;
    AnswerIsPair(tau, c, l, d, equal, in0, in1, noIn0, noIn1);
  }

  lemma NegativeAnswer(f: set<seq<Lit>>, c: Circuits, l: Layout, d: Design, equal: seq<nat>, in0: seq<Vec>,
      in1: seq<Vec>, noIn0: bool, noIn1: bool)
    requires CircuitsOk(c) && LayoutOk(c, l) && Describes(d, c) && Encodes(f, c, l, in0, in1)
    requires forall tau :: HoldsF(tau, f) ==> exists p :: p in Assumptions(l, equal, noIn0, noIn1) && !HoldsL(tau, p)
    ensures forall v, w :: v in d.inputs && w in d.inputs ==> !Query(d, v, w, Chosen(equal), in0, in1, noIn0, noIn1)
  {
    hide CircuitsOk, LayoutOk, Describes, Query, Base, CaseHolds, HoldsF, HoldsL, Assumptions, Chosen;
    forall v, w | v in d.inputs && w in d.inputs ensures !Query(d, v, w, Chosen(equal), in0, in1, noIn0, noIn1)
    {
      if Query(d, v, w, Chosen(equal), in0, in1, noIn0, noIn1) {
        PairIsAnswer(c, l, d, v, w, Chosen(equal), in0, in1, noIn0, noIn1);
        var tau := Built(c, l, v, w, noIn0, noIn1);
        AssumptionsMeaning(tau, l, equal, noIn0, noIn1);
      }
    }
  }

  // ---- The enumeration of patterns ----

  // The formula for the cases blocked so far.
  method PatternFormula(c: Circuits, signals: seq<nat>, blocked: seq<Vec>) returns (glu: GInterface, ghost max: nat)
    requires CircuitsOk(c) && InRange(signals, |c.cands|) && forall p :: p in blocked ==> |p| == |signals|
    ensures fresh(glu) && glu.Valid() && 2 * c.impl.n <= max <= glu.nVars
    ensures forall tau :: HoldsF(tau, glu.clauses) <==> MainAnswer(tau, c, max, signals, blocked)
  {
    hide CircuitsOk, MainBase, PatternHolds, HoldsF, InRange;
    glu, max := MakeMain(c);
    for i := 0 to |blocked|
      invariant fresh(glu) && glu.Valid() && 2 * c.impl.n <= max <= glu.nVars
      invariant forall tau :: HoldsF(tau, glu.clauses) <==> MainAnswer(tau, c, max, signals, blocked[..i])
    {
      assert blocked[i] in blocked && blocked[..i + 1] == blocked[..i] + [blocked[i]];
      BlockCase(glu, c, signals, blocked[i]);
    }
    assert blocked[..|blocked|] == blocked;
  }

  // Whether the formula has a model in which the variable is true, and the model.
  method Satisfy(glu: GInterface, v: nat, restarts: nat) returns (sat: bool, model: seq<LBool>)
    requires glu.Valid() && v < glu.nVars
    ensures sat ==> HoldsF(TrueIn(model), glu.clauses) && v in TrueIn(model)
    ensures !sat ==> forall tau :: HoldsF(tau, glu.clauses) ==> v !in tau
  {
    hide HoldsF, Consistent, Drained, BooksOk, AllClear;
    var s := Load(glu);
    var on := SigLit(v, true);
    var status := s.Solve([on], restarts);
    sat, model := status == LTrue, s.model;
    assert [on][0] == on && s.ModelSet() == TrueIn(model);
  }

  ghost function TrueIn(model: seq<LBool>): Model
  {
    iset v: nat | v < |model| && model[v] == LTrue
  }

  // An input on which the target matters, with a new pattern, from the circuits.
  method DecideMain(c: Circuits, ghost d: Design, signals: seq<nat>, blocked: seq<Vec>, restarts: nat)
    returns (res: Option<Vec>)
    requires CircuitsOk(c) && Describes(d, c) && InRange(signals, |c.cands|)
    requires forall p :: p in blocked ==> |p| == |signals|
    ensures res.Some? ==> res.value in d.inputs && MainQuery(d, signals, res.value, blocked)
    ensures res.None? ==> forall v :: v in d.inputs ==> !MainQuery(d, signals, v, blocked)
  {
    hide CircuitsOk, Describes, MainAnswer, MainQuery, InRange;
    var glu; ghost var max;
    glu, max := PatternFormula(c, signals, blocked);
    var s := Load(glu);
    var status := s.Solve([], restarts);
    if status == LTrue {
      VectorRead(s.model, s.ModelSet(), c);
      AnswerIsInput(s.ModelSet(), c, max, d, signals, blocked);
      return Some(ReadVector(s.model, c.implPis, 0));
    }
    forall v | v in d.inputs ensures !MainQuery(d, signals, v, blocked)
    {
      if MainQuery(d, signals, v, blocked) {
        InputIsAnswer(c, max, d, signals, blocked, v);
      }
    }
    res := None;
  }

  // The second formula with variables made for the circuits and for the controls.
  ghost predicate Ready(f: set<seq<Lit>>, nVars: nat, c: Circuits, controls: set<nat>)
    requires CircuitsOk(c)
  {
    && Checks(f, c, controls) && (forall k :: k in controls ==> k < nVars)
    && (c.spec.n > 0 ==> c.impl.n + c.spec.n <= nVars)
  }

  // The target value that repairs an input on which the target matters. The clauses
  // that enforce the input are switched off again, so that the formula serves for the
  // next one.
  method DecideCheck(glu: GInterface, c: Circuits, ghost d: Design, ghost controls: set<nat>, x: Vec, restarts: nat)
    returns (res: Option<bool>, ghost controls': set<nat>)
    requires CircuitsOk(c) && Describes(d, c) && x in d.inputs && d.Toggles(x)
    requires glu.Valid() && Ready(glu.clauses, glu.nVars, c, controls)
    modifies glu
    ensures glu.Valid() && old(glu.nVars) <= glu.nVars
    ensures res.Some? ==> d.Repairs(x, res.value) && Ready(glu.clauses, glu.nVars, c, controls')
    ensures res.None? ==> forall b :: !d.Repairs(x, b)
  {
    hide CircuitsOk, Describes, CheckBase, HoldsF, Values, Checks;
    HasOutput(c, d, x);
    ghost var f := glu.clauses;
    var control := EnforceInput(glu, c, x);
    var on := glu.GenLit(control, true);
    var sat, model := Satisfy(glu, control, restarts);
    controls' := controls + {control};
    if !sat {
      CheckNegative(f, c, controls, control, d, x);
      return None, controls';
    }
    var t := c.target < |model| && model[c.target] == LTrue;
    CheckPositive(TrueIn(model), f, c, controls, control, d, x, t);
    Retire(glu, c, controls, control, x, f);
    res := Some(t);
  }

  // The enumeration of patterns from the circuits, with the solver answering both
  // queries.
  method Enumerate(c: Circuits, d: Design, signals: seq<nat>, retries: nat, restarts: nat)
    returns (dc: GetDC, res: bool, done: bool)
    requires CircuitsOk(c) && Describes(d, c) && InRange(signals, |c.cands|)
    ensures dc.Valid() && dc.d == d && dc.signals == signals
    ensures !done ==> KeyClash(d, signals)
    ensures done && res ==> !KeyClash(d, signals) && EveryRecorded(d, signals, dc.in1cases, dc.in2cases)
    ensures done && !res ==> Unrepaired(d)
  {
    hide CircuitsOk, Describes, Checks, InRange, NeededBy, Recorded, KeysApart, NewPatterns, Pattern, MainQuery,
      KeyClash, EveryRecorded, Key;
    dc := new GetDC(d, signals);
    NoLengths(|signals|);
    var glu := MakeCheck(c);
    ghost var controls: set<nat> := {};
    var left := retries;
    while true
      invariant fresh(dc) && dc.Valid() && dc.d == d && dc.signals == signals && PatternLengths(dc.blocked, |signals|)
      invariant fresh(glu) && glu.Valid() && Ready(glu.clauses, glu.nVars, c, controls)
      decreases |NewPatterns(d, signals, dc.blocked)|, left
    {
      var found := DecideMain(c, d, signals, dc.blocked, restarts);
      if found.None? {
        AllRecorded(d, signals, dc.in1cases, dc.in2cases, dc.removedCases, dc.blocked);
        return dc, true, true;
      }
      var x := found.value;
      QueryToggles(d, signals, x, dc.blocked);
      var answer;
      answer, controls := DecideCheck(glu, c, d, controls, x, restarts);
      if answer.None? {
        return dc, false, true;
      }
      var more;
      more, left := dc.Meet(x, answer.value, left);
      if !more {
        return dc, false, false;
      }
    }
  }

  lemma CheckPositive(tau: Model, f: set<seq<Lit>>, c: Circuits, controls: set<nat>, control: nat, d: Design, x: Vec,
      t: bool)
    requires CircuitsOk(c) && Describes(d, c) && Checks(f, c, controls) && HoldsF(tau, f) && control in tau
    requires Values(Copy(tau, 0), c.implPis) == x && (c.target in tau <==> t)
    ensures d.Repairs(x, t)
  {
    hide CircuitsOk, Describes, CheckBase, HoldsF, Values;
    AnswerRepairs(tau, c, controls, control, d, x, t);
  }

  lemma CheckNegative(f: set<seq<Lit>>, c: Circuits, controls: set<nat>, control: nat, d: Design, x: Vec)
    requires CircuitsOk(c) && Describes(d, c) && Checks(f, c, controls) && x in d.inputs
    requires control >= c.impl.n + c.spec.n && control !in controls
    requires forall tau :: HoldsF(tau, f) && control in tau ==> Values(Copy(tau, 0), c.implPis) != x
    ensures forall t :: !d.Repairs(x, t)
  {
    hide CircuitsOk, Describes, CheckBase, HoldsF, Values, CheckModel;
    forall t ensures !d.Repairs(x, t)
    {
      if d.Repairs(x, t) {
        RepairAnswers(c, controls, control, d, x, t);
      }
    }
  }

  lemma HasOutput(c: Circuits, d: Design, x: Vec)
    requires CircuitsOk(c) && Describes(d, c) && x in d.inputs && d.Toggles(x)
    ensures c.spec.n > 0 && |x| == |c.implPis|
  {
    if |c.specPos| > 0 {
      assert c.specPos[0] < c.spec.n;
    }
  }
}
