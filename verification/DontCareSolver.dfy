// The formulas behind the enumeration of patterns: two netlists joined at their inputs
// and made to differ at an output, with the cases seen so far blocked.
module DontCareSolving {
  import opened SolverTypes
  import opened CircuitCnf
  import opened SolverInterfacing
  import opened PatchDesign
  import opened QuerySolving
  import opened DontCares

  // ---- Two netlists that differ ----

  // Two netlists with their inputs and outputs in pairs.
  datatype Pair = Pair(f: Netlist, g: Netlist, fIns: seq<nat>, gIns: seq<nat>, fOuts: seq<nat>, gOuts: seq<nat>)

  ghost predicate PairOk(p: Pair)
  {
    && NetOk(p.f) && NetOk(p.g) && |p.fIns| == |p.gIns| && |p.fOuts| == |p.gOuts|
    && InRange(p.fIns, p.f.n) && InRange(p.gIns, p.g.n) && InRange(p.fOuts, p.f.n) && InRange(p.gOuts, p.g.n)
  }

  // Both netlists hold, the inputs are equal and some pair of outputs differs.
  ghost predicate Miter(tau: Model, p: Pair, max: nat)
    requires PairOk(p)
  {
    var n, k := p.f.n, |p.fOuts|;
    && HoldsF(tau, NetClauses(p.f, 0)) && HoldsF(tau, NetClauses(p.g, n))
    && AllSame(tau, Shifted(p.fIns, 0), Shifted(p.gIns, n), |p.fIns|)
    && Marked(tau, Shifted(p.fOuts, 0), Shifted(p.gOuts, n), max, k) && SomeMarked(tau, max, k)
  }

  // The undriven signals `x` and `y` give equal inputs and different outputs.
  ghost predicate Distinguishes(x: Model, y: Model, p: Pair)
    requires PairOk(p)
  {
    && Values(Signals(p.f, x), p.fIns) == Values(Signals(p.g, y), p.gIns)
    && Values(Signals(p.f, x), p.fOuts) != Values(Signals(p.g, y), p.gOuts)
  }

  lemma CopyOfSelf(tau: Model, net: Netlist, off: nat)
    requires NetOk(net) && HoldsF(tau, NetClauses(net, off))
    ensures CopyIs(tau, net.n, off, Signals(net, Copy(tau, off)))
  {
    NetMeaning(tau, net, off);
  }

  // The two copies of a model are signals that distinguish the netlists.
  lemma MiterDistinguishes(tau: Model, p: Pair, max: nat)
    requires PairOk(p) && Miter(tau, p, max)
    ensures Distinguishes(Copy(tau, 0), Copy(tau, p.f.n), p)
    ensures CopyIs(tau, p.f.n, 0, Signals(p.f, Copy(tau, 0)))
    ensures CopyIs(tau, p.g.n, p.f.n, Signals(p.g, Copy(tau, p.f.n)))
  {
    hide HoldsF, CopyIs, Marked, SomeMarked, AllSame, Signals, NetOk, Copy, InRange;
    var x, y, n := Copy(tau, 0), Copy(tau, p.f.n), p.f.n;
    CopyOfSelf(tau, p.f, 0);
    CopyOfSelf(tau, p.g, n);
    CopyValues(tau, n, 0, Signals(p.f, x), p.fIns);
    CopyValues(tau, p.g.n, n, Signals(p.g, y), p.gIns);
    CopyValues(tau, n, 0, Signals(p.f, x), p.fOuts);
    CopyValues(tau, p.g.n, n, Signals(p.g, y), p.gOuts);
    SameValues(tau, p.fIns, 0, p.gIns, n);
    MarkedValues(tau, p.fOuts, 0, p.gOuts, n, max);
  }

  // Both simulations side by side.
  ghost function SideBySide(p: Pair, x: Model, y: Model): Model
    requires PairOk(p)
  {
    iset i: nat | if i < p.f.n then i in Signals(p.f, x) else i - p.f.n in Signals(p.g, y)
  }

  // The model made from signals that distinguish the netlists.
  ghost function MiterModel(p: Pair, x: Model, y: Model, max: nat): Model
    requires PairOk(p)
  {
    WithMarks(SideBySide(p, x, y), Shifted(p.fOuts, 0), Shifted(p.gOuts, p.f.n), max)
  }

  lemma MiterCopies(p: Pair, x: Model, y: Model, max: nat)
    requires PairOk(p) && p.f.n + p.g.n <= max
    ensures CopyIs(MiterModel(p, x, y, max), p.f.n, 0, Signals(p.f, x))
    ensures CopyIs(MiterModel(p, x, y, max), p.g.n, p.f.n, Signals(p.g, y))
    ensures CopyIs(SideBySide(p, x, y), p.f.n, 0, Signals(p.f, x))
    ensures CopyIs(SideBySide(p, x, y), p.g.n, p.f.n, Signals(p.g, y))
  {
    hide PairOk, Signals, Same;
    forall i: nat | i < p.g.n ensures Place(i, p.f.n) - p.f.n == i && p.f.n <= Place(i, p.f.n) < max
    {
    }
  }

  lemma OutputsAway(p: Pair, max: nat)
    requires PairOk(p) && p.f.n + p.g.n <= max
    ensures AwayFrom(Shifted(p.fOuts, 0), max, |p.fOuts|) && AwayFrom(Shifted(p.gOuts, p.f.n), max, |p.fOuts|)
  {
    hide NetOk;
  }

  // Signals that distinguish the netlists make a model.
  lemma DistinguishingMeets(p: Pair, x: Model, y: Model, max: nat)
    requires PairOk(p) && p.f.n + p.g.n <= max && Distinguishes(x, y, p)
    ensures Miter(MiterModel(p, x, y, max), p, max)
  {
    hide HoldsF, CopyIs, Marked, SomeMarked, AllSame, Signals, NetOk, Copy, InRange, SideBySide, AwayFrom, WithMarks;
    var tau, both, n := MiterModel(p, x, y, max), SideBySide(p, x, y), p.f.n;
    MiterCopies(p, x, y, max);
    CopyHolds(tau, p.f, 0, x);
    CopyHolds(tau, p.g, n, y);
    CopyValues(tau, n, 0, Signals(p.f, x), p.fIns);
    CopyValues(tau, p.g.n, n, Signals(p.g, y), p.gIns);
    CopyValues(both, n, 0, Signals(p.f, x), p.fOuts);
    CopyValues(both, p.g.n, n, Signals(p.g, y), p.gOuts);
    SameValues(tau, p.fIns, 0, p.gIns, n);
    SameValues(both, p.fOuts, 0, p.gOuts, n);
    OutputsAway(p, max);
    DifferenceExtends(both, Shifted(p.fOuts, 0), Shifted(p.gOuts, n), max);
  }

  // Exactly the inputs are undriven, each listed once.
  ghost predicate InputsOnly(net: Netlist, ins: seq<nat>)
  {
    && (forall i, j :: 0 <= i < j < |ins| ==> ins[i] != ins[j])
    && forall i: nat :: i < net.n ==> (Driven(net, i) <==> i !in ins)
  }

  ghost function Outputs(net: Netlist, ins: seq<nat>, outs: seq<nat>, v: Vec): Vec
    requires NetOk(net)
  {
    Values(Signals(net, InputModel(ins, v)), outs)
  }

  // The outputs depend on the vector of inputs only.
  lemma OutputsOf(net: Netlist, ins: seq<nat>, outs: seq<nat>, x: Model)
    requires NetOk(net) && InputsOnly(net, ins) && InRange(ins, net.n) && InRange(outs, net.n)
    ensures Values(Signals(net, x), outs) == Outputs(net, ins, outs, Values(x, ins))
    ensures Values(Signals(net, x), ins) == Values(x, ins)
  {
    var v := Values(x, ins);
    forall i: nat | i < net.n && !Driven(net, i) ensures i in x <==> i in InputModel(ins, v)
    {
      var k :| 0 <= k < |ins| && ins[k] == i;
      InputBit(ins, v, k);
    }
    hide InputModel, InputsOnly;
    forall i: nat | i < net.n ensures Sim(net, x, i) == Sim(net, InputModel(ins, v), i)
    {
      SimSame(net, x, InputModel(ins, v), i);
    }
    forall k | 0 <= k < |ins| ensures ins[k] in Signals(net, x) <==> ins[k] in x
    {
      InputUndriven(net, ins, k);
    }
  }

  lemma InputUndriven(net: Netlist, ins: seq<nat>, k: nat)
    requires InputsOnly(net, ins) && InRange(ins, net.n) && k < |ins|
    ensures !Driven(net, ins[k])
  {
    assert ins[k] in ins;
  }

  lemma VectorBack(ins: seq<nat>, v: Vec)
    requires |v| == |ins| && forall i, j :: 0 <= i < j < |ins| ==> ins[i] != ins[j]
    ensures Values(InputModel(ins, v), ins) == v
  {
    forall k | 0 <= k < |ins| ensures Values(InputModel(ins, v), ins)[k] == v[k]
    {
      InputBit(ins, v, k);
    }
  }

  // The formula has a model exactly if some input vector makes the netlists differ.
  lemma MiterAnswered(p: Pair, max: nat)
    requires PairOk(p) && p.f.n + p.g.n <= max && InputsOnly(p.f, p.fIns) && InputsOnly(p.g, p.gIns)
    ensures (exists tau :: Miter(tau, p, max)) <==>
      exists v: Vec :: |v| == |p.fIns| && Outputs(p.f, p.fIns, p.fOuts, v) != Outputs(p.g, p.gIns, p.gOuts, v)
  {
    hide Miter, Outputs, Signals, Copy, NetOk, InRange;
    if tau :| Miter(tau, p, max) {
      var x, y := Copy(tau, 0), Copy(tau, p.f.n);
      MiterDistinguishes(tau, p, max);
      OutputsOf(p.f, p.fIns, p.fOuts, x);
      OutputsOf(p.g, p.gIns, p.gOuts, y);
      assert |Values(x, p.fIns)| == |p.fIns|;
    }
    if v: Vec :| |v| == |p.fIns| && Outputs(p.f, p.fIns, p.fOuts, v) != Outputs(p.g, p.gIns, p.gOuts, v) {
      var x, y := InputModel(p.fIns, v), InputModel(p.gIns, v);
      VectorBack(p.fIns, v);
      VectorBack(p.gIns, v);
      OutputsOf(p.f, p.fIns, p.fOuts, x);
      OutputsOf(p.g, p.gIns, p.gOuts, y);
      DistinguishingMeets(p, x, y, max);
    }
  }

  // ---- The first formula: where the target matters ----

  // Two copies of the implementation.
  function TwoCopies(c: Circuits): Pair
  {
    Pair(c.impl, c.impl, c.implPis, c.implPis, c.implPos, c.implPos)
  }

  // The copies share their inputs, the target is 1 in the first and 0 in the second,
  // and some output differs.
  ghost predicate MainBase(tau: Model, c: Circuits, max: nat)
    requires CircuitsOk(c)
  {
    Miter(tau, TwoCopies(c), max) && Place(c.target, 0) in tau && Place(c.target, c.impl.n) !in tau
  }

  // Builds the formula; afterwards its models are described by `MainBase`.
  method MakeMain(c: Circuits) returns (glu: GInterface, max: nat)
    requires CircuitsOk(c)
    ensures fresh(glu) && glu.Valid() && 2 * c.impl.n <= max <= glu.nVars
    ensures forall tau :: HoldsF(tau, glu.clauses) <==> MainBase(tau, c, max)
  {
    hide HoldsF, AllSame, Marked, SomeMarked, Same, NetOk;
    var n := c.impl.n;
    glu := new GInterface();
    forall tau ensures HoldsF(tau, {})
    {
      EmptyHolds(tau);
    }
    glu.AddCNF(c.impl, 0);
    glu.AddCNF(c.impl, n);
    SetSignal(glu, Place(c.target, 0), true);
    SetSignal(glu, Place(c.target, n), false);
    var ins, ins' := Shifted(c.implPis, 0), Shifted(c.implPis, n);
    glu.SetEqualAll(ins, ins');
    BothAllocated(c, glu.nVars);
    max := glu.nVars;
    glu.SetNEqual(Shifted(c.implPos, 0), Shifted(c.implPos, n));
  }

  lemma BothAllocated(c: Circuits, nVars: nat)
    requires CircuitsOk(c) && Place(c.target, c.impl.n) < nVars
    requires forall g :: g in c.impl.gates ==> g.out + c.impl.n < nVars
    requires forall i :: 0 <= i < |c.implPis| && Shifted(c.implPis, 0)[i] != Shifted(c.implPis, c.impl.n)[i] ==>
      Shifted(c.implPis, c.impl.n)[i] < nVars
    ensures 2 * c.impl.n <= nVars
  {
    var i := c.impl.n - 1;
    if Driven(c.impl, i) {
      var g := Driver(c.impl, i);
    } else if i in c.implPis {
      var k :| 0 <= k < |c.implPis| && c.implPis[k] == i;
      assert Shifted(c.implPis, 0)[k] != Shifted(c.implPis, c.impl.n)[k];
    }
  }

  // The signals chosen among the candidates.
  function Selected(c: Circuits, signals: seq<nat>): (r: seq<nat>)
    requires InRange(signals, |c.cands|)
    ensures |r| == |signals|
  {
    seq(|signals|, k requires 0 <= k < |signals| => c.cands[signals[k]])
  }

  // The literals that a signal differs from the recorded value.
  function PatternClause(sel: seq<nat>, data: Vec): (r: seq<Lit>)
    requires |data| == |sel|
    ensures |r| == |sel|
  {
    seq(|sel|, k requires 0 <= k < |sel| => SigLit(sel[k], !data[k]))
  }

  lemma PatternMeaning(tau: Model, sel: seq<nat>, data: Vec)
    requires |data| == |sel|
    ensures HoldsC(tau, PatternClause(sel, data)) <==> ClauseHolds(Values(Copy(tau, 0), sel), data, false)
  {
    var c, v := PatternClause(sel, data), Values(Copy(tau, 0), sel);
    forall k | 0 <= k < |sel| ensures HoldsL(tau, c[k]) <==> v[k] != data[k]
    {
      assert Place(sel[k], 0) == sel[k];
    }
    if HoldsC(tau, c) {
      var l :| l in c && HoldsL(tau, l);
      var k :| 0 <= k < |c| && c[k] == l;
      assert v[k] != data[k] || false;
    }
    if ClauseHolds(v, data, false) {
      var k :| 0 <= k < |data| && k < |v| && (v[k] != data[k] || false);
      assert c[k] in c && HoldsL(tau, c[k]);
    }
  }

  ghost predicate PatternHolds(tau: Model, c: Circuits, signals: seq<nat>, p: Vec)
    requires InRange(signals, |c.cands|)
  {
    ClauseHolds(Values(Copy(tau, 0), Selected(c, signals)), p, false)
  }

  // Blocks a case.
  method BlockCase(glu: GInterface, c: Circuits, signals: seq<nat>, data: Vec)
    requires glu.Valid() && InRange(signals, |c.cands|) && |data| == |signals|
    modifies glu
    ensures glu.Valid() && old(glu.nVars) <= glu.nVars
    ensures forall tau :: HoldsF(tau, glu.clauses) <==>
      HoldsF(tau, old(glu.clauses)) && PatternHolds(tau, c, signals, data)
  {
    hide HoldsF, HoldsC;
    var sel := Selected(c, signals);
    var lits: seq<Lit> := [];
    for k := 0 to |signals|
      invariant glu.Valid() && old(glu.nVars) <= glu.nVars && glu.clauses == old(glu.clauses)
      invariant lits == PatternClause(sel, data)[..k] && VarsBelow(lits, glu.nVars)
    {
      var l := glu.GenLit(c.cands[signals[k]], !data[k]);
      lits := lits + [l];
    }
    assert PatternClause(sel, data)[..|sel|] == PatternClause(sel, data);
    glu.AddClause(lits);
    forall tau ensures HoldsC(tau, lits) <==> PatternHolds(tau, c, signals, data)
    {
      PatternMeaning(tau, sel, data);
    }
  }

  // A model of the formula with the blocked cases.
  ghost predicate MainAnswer(tau: Model, c: Circuits, max: nat, signals: seq<nat>, blocked: seq<Vec>)
    requires CircuitsOk(c) && InRange(signals, |c.cands|)
  {
    MainBase(tau, c, max) && forall p :: p in blocked ==> PatternHolds(tau, c, signals, p)
  }

  // The selected signals have the values of the pattern.
  lemma PatternIs(tau: Model, c: Circuits, d: Design, signals: seq<nat>, x: Vec)
    requires CircuitsOk(c) && InRange(signals, |c.cands|) && d.signals(x) == Values(Copy(tau, 0), c.cands)
    ensures Values(Copy(tau, 0), Selected(c, signals)) == Pattern(d, signals, x)
  {
    hide CircuitsOk, Copy;
  }

  lemma TwoCopiesOk(c: Circuits)
    requires CircuitsOk(c)
    ensures PairOk(TwoCopies(c))
  {
    hide NetOk, InRange;
  }

  // The inputs and the target of a model decide the rest of a copy.
  lemma CopyIsImpl(tau: Model, c: Circuits, off: nat, x: Model, v: Vec, t: bool)
    requires CircuitsOk(c) && CopyIs(tau, c.impl.n, off, Signals(c.impl, x))
    requires v == Values(Copy(tau, off), c.implPis) && (c.target in Copy(tau, off) <==> t)
    ensures CopyIs(tau, c.impl.n, off, ImplSignals(c, v, t))
  {
    hide CopyIs, HoldsF, ImplSignals, Copy, Signals;
    assert NetOk(c.impl);
    CopyHolds(tau, c.impl, off, x);
    ImplCopy(tau, c, off, v, t);
  }

  // A model is an input on which the target matters, with a new pattern.
  lemma AnswerIsInput(tau: Model, c: Circuits, max: nat, d: Design, signals: seq<nat>, blocked: seq<Vec>)
    requires CircuitsOk(c) && InRange(signals, |c.cands|) && Describes(d, c)
    requires MainAnswer(tau, c, max, signals, blocked)
    ensures FirstVector(tau, c) in d.inputs && MainQuery(d, signals, FirstVector(tau, c), blocked)
  {
    hide CircuitsOk, CopyIs, HoldsF, ImplSignals, Copy, Signals, NetOk, InRange, Pattern, Selected, Values, AllSame,
      Marked, SomeMarked;
    var x, n, p := FirstVector(tau, c), c.impl.n, TwoCopies(c);
    TwoCopiesOk(c);
    MiterDistinguishes(tau, p, max);
    SameValues(tau, c.implPis, 0, c.implPis, n);
    TargetAt(tau, c);
    CopyIsImpl(tau, c, 0, Copy(tau, 0), x, true);
    CopyIsImpl(tau, c, n, Copy(tau, n), x, false);
    InputsFacts(c);
    CopyValues(tau, n, 0, ImplSignals(c, x, true), c.implPos);
    CopyValues(tau, n, n, ImplSignals(c, x, false), c.implPos);
    CopyValues(tau, n, 0, ImplSignals(c, x, true), c.cands);
    MarkedValues(tau, c.implPos, 0, c.implPos, n, max);
    assert |x| == |c.implPis|;
    PatternIs(tau, c, d, signals, x);
  }

  lemma InputsFacts(c: Circuits)
    requires CircuitsOk(c)
    ensures InRange(c.implPos, c.impl.n) && InRange(c.cands, c.impl.n) && InRange(c.implPis, c.impl.n)
  {
  }

  lemma TargetAt(tau: Model, c: Circuits)
    ensures Place(c.target, 0) in tau <==> c.target in Copy(tau, 0)
    ensures Place(c.target, c.impl.n) in tau <==> c.target in Copy(tau, c.impl.n)
  {
  }

  // An input on which the target matters, with a new pattern, makes a model.
  lemma InputIsAnswer(c: Circuits, max: nat, d: Design, signals: seq<nat>, blocked: seq<Vec>, x: Vec)
    requires CircuitsOk(c) && InRange(signals, |c.cands|) && Describes(d, c) && 2 * c.impl.n <= max
    requires x in d.inputs && MainQuery(d, signals, x, blocked)
    ensures exists tau :: MainAnswer(tau, c, max, signals, blocked)
  {
    hide CircuitsOk, CopyIs, HoldsF, Copy, NetOk, InRange, Pattern, Selected, Values, AllSame, Marked, SomeMarked,
      MiterModel, Signals, InputOne, ImplFree;
    var n, p := c.impl.n, TwoCopies(c);
    TwoCopiesOk(c);
    var y, z := ImplFree(c, x, true), ImplFree(c, x, false);
    var tau := MiterModel(p, y, z, max);
    MiterCopies(p, y, z, max);
    InputsFacts(c);
    GivenInputs(c, x, true);
    GivenInputs(c, x, false);
    assert Distinguishes(y, z, p);
    DistinguishingMeets(p, y, z, max);
    TargetsGiven(tau, c, x);
    CopyValues(tau, n, 0, ImplSignals(c, x, true), c.cands);
    PatternIs(tau, c, d, signals, x);
    assert MainAnswer(tau, c, max, signals, blocked);
  }

  lemma GivenInputs(c: Circuits, x: Vec, t: bool)
    requires CircuitsOk(c) && |x| == |c.implPis|
    ensures Values(ImplSignals(c, x, t), c.implPis) == x
  {
    forall k | 0 <= k < |c.implPis| ensures Values(ImplSignals(c, x, t), c.implPis)[k] == x[k]
    {
      ImplInput(c, x, t, k);
    }
  }

  lemma TargetsGiven(tau: Model, c: Circuits, x: Vec)
    requires CircuitsOk(c) && |x| == |c.implPis|
    requires CopyIs(tau, c.impl.n, 0, ImplSignals(c, x, true))
    requires CopyIs(tau, c.impl.n, c.impl.n, ImplSignals(c, x, false))
    ensures Place(c.target, 0) in tau && Place(c.target, c.impl.n) !in tau
  {
    hide ImplSignals;
    ImplInput(c, x, true, 0);
    ImplInput(c, x, false, 0);
    assert c.target in Copy(tau, 0) <==> c.target in ImplSignals(c, x, true);
    assert c.target in Copy(tau, c.impl.n) <==> c.target in ImplSignals(c, x, false);
  }

  // The formula with the blocked cases has a model exactly if some input on which the
  // target matters has a new pattern.
  lemma MainAnswered(c: Circuits, max: nat, d: Design, signals: seq<nat>, blocked: seq<Vec>)
    requires CircuitsOk(c) && InRange(signals, |c.cands|) && Describes(d, c) && 2 * c.impl.n <= max
    ensures (exists tau :: MainAnswer(tau, c, max, signals, blocked)) <==>
      exists x :: x in d.inputs && MainQuery(d, signals, x, blocked)
  {
    hide CircuitsOk, InRange, Describes, MainQuery, MainAnswer;
    if tau :| MainAnswer(tau, c, max, signals, blocked) {
      AnswerIsInput(tau, c, max, d, signals, blocked);
    }
    if x :| x in d.inputs && MainQuery(d, signals, x, blocked) {
      InputIsAnswer(c, max, d, signals, blocked, x);
    }
  }

  // ---- The second formula: the target value that repairs an input ----

  // The implementation and the specification share their inputs and agree on the
  // outputs.
  ghost predicate CheckBase(tau: Model, c: Circuits)
    requires CircuitsOk(c)
  {
    var n := c.impl.n;
    && HoldsF(tau, NetClauses(c.impl, 0)) && HoldsF(tau, NetClauses(c.spec, n))
    && AllSame(tau, Shifted(c.implPis, 0), Shifted(c.specPis, n), |c.implPis|)
    && AllSame(tau, Shifted(c.implPos, 0), Shifted(c.specPos, n), |c.implPos|)
  }

  // The models of the formula: the control variables of earlier inputs are off.
  ghost predicate Checks(f: set<seq<Lit>>, c: Circuits, controls: set<nat>)
    requires CircuitsOk(c)
  {
    && (forall k :: k in controls ==> k >= c.impl.n + c.spec.n)
    && forall tau :: HoldsF(tau, f) <==> CheckBase(tau, c) && forall k :: k in controls ==> k !in tau
  }

  method MakeCheck(c: Circuits) returns (glu: GInterface)
    requires CircuitsOk(c)
    ensures fresh(glu) && glu.Valid() && Checks(glu.clauses, c, {})
    ensures c.spec.n > 0 ==> c.impl.n + c.spec.n <= glu.nVars
  {
    hide HoldsF, AllSame, Same, NetOk;
    var n := c.impl.n;
    glu := new GInterface();
    forall tau ensures HoldsF(tau, {})
    {
      EmptyHolds(tau);
    }
    glu.AddCNF(c.impl, 0);
    glu.AddCNF(c.spec, n);
    glu.SetEqualAll(Shifted(c.implPis, 0), Shifted(c.specPis, n));
    SpecAllocated(c, glu.nVars);
    glu.SetEqualAll(Shifted(c.implPos, 0), Shifted(c.specPos, n));
  }

  lemma SpecAllocated(c: Circuits, nVars: nat)
    requires CircuitsOk(c) && forall g :: g in c.spec.gates ==> g.out + c.impl.n < nVars
    requires forall i :: 0 <= i < |c.implPis| && Shifted(c.implPis, 0)[i] != Shifted(c.specPis, c.impl.n)[i] ==>
      Shifted(c.specPis, c.impl.n)[i] < nVars
    ensures c.spec.n > 0 ==> c.impl.n + c.spec.n <= nVars
  {
    if c.spec.n > 0 {
      var i := c.spec.n - 1;
      if Driven(c.spec, i) {
        var g := Driver(c.spec, i);
      } else {
        var k :| 0 <= k < |c.specPis| && c.specPis[k] == i;
        assert Shifted(c.implPis, 0)[k] != Shifted(c.specPis, c.impl.n)[k];
      }
    }
  }

  // An input is enforced under a fresh control variable.
  method EnforceInput(glu: GInterface, c: Circuits, x: Vec) returns (control: nat)
    requires glu.Valid() && |x| == |c.implPis|
    modifies glu
    ensures glu.Valid() && control == old(glu.nVars) <= glu.nVars
    ensures forall tau :: HoldsF(tau, glu.clauses) <==>
      HoldsF(tau, old(glu.clauses)) && (control in tau ==> Values(Copy(tau, 0), c.implPis) == x)
  {
    hide HoldsF, HoldsC;
    control := glu.nVars;
    for k := 0 to |x|
      invariant glu.Valid() && control <= glu.nVars
      invariant forall tau :: HoldsF(tau, glu.clauses) <==>
        HoldsF(tau, old(glu.clauses)) && (control in tau ==> FirstBits(tau, c, x, k))
    {
      var p := glu.GenLit(c.implPis[k], x[k]);
      var q := glu.GenLit(control, false);
      glu.AddClause([p, q]);
      forall tau ensures HoldsC(tau, [p, q]) <==> (control in tau ==> (c.implPis[k] in tau <==> x[k]))
      {
        Holds2(tau, p, q);
      }
    }
    forall tau ensures FirstBits(tau, c, x, |x|) <==> Values(Copy(tau, 0), c.implPis) == x
    {
      AllBits(tau, c, x);
    }
  }

  ghost predicate FirstBits(tau: Model, c: Circuits, x: Vec, k: nat)
    requires k <= |x| == |c.implPis|
  {
    forall i :: 0 <= i < k ==> (c.implPis[i] in tau <==> x[i])
  }

  lemma AllBits(tau: Model, c: Circuits, x: Vec)
    requires |x| == |c.implPis|
    ensures FirstBits(tau, c, x, |x|) <==> Values(Copy(tau, 0), c.implPis) == x
  {
    var v := Values(Copy(tau, 0), c.implPis);
    forall i | 0 <= i < |x| ensures v[i] <==> c.implPis[i] in tau
    {
      assert Place(c.implPis[i], 0) == c.implPis[i];
    }
  }

  // A model for input `x` and target value `t`.
  ghost predicate CheckAnswer(tau: Model, c: Circuits, controls: set<nat>, control: nat, x: Vec, t: bool)
    requires CircuitsOk(c)
  {
    && CheckBase(tau, c) && (forall k :: k in controls ==> k !in tau) && control in tau
    && Values(Copy(tau, 0), c.implPis) == x && (c.target in tau <==> t)
  }

  lemma AnswerRepairs(tau: Model, c: Circuits, controls: set<nat>, control: nat, d: Design, x: Vec, t: bool)
    requires CircuitsOk(c) && Describes(d, c) && CheckAnswer(tau, c, controls, control, x, t)
    ensures x in d.inputs && d.Repairs(x, t)
  {
    hide CopyIs, HoldsF, ImplSignals, SpecSignals, Copy, Values, AllSame;
    var n := c.impl.n;
    TargetAt(tau, c);
    assert Place(c.target, 0) == c.target;
    SameValues(tau, c.implPis, 0, c.specPis, n);
    SameValues(tau, c.implPos, 0, c.specPos, n);
    ImplCopy(tau, c, 0, x, t);
    SpecCopy(tau, c, n, x);
    CopyValues(tau, n, 0, ImplSignals(c, x, t), c.implPos);
    CopyValues(tau, c.spec.n, n, SpecSignals(c, x), c.specPos);
    assert |x| == |c.implPis|;
  }

  // Both simulations side by side, with the control variable on.
  ghost function CheckModel(c: Circuits, x: Vec, t: bool, control: nat): Model
    requires CircuitsOk(c)
  {
    iset i: nat | if i < c.impl.n then i in ImplSignals(c, x, t)
      else if i < c.impl.n + c.spec.n then i - c.impl.n in SpecSignals(c, x) else i == control
  }

  lemma CheckCopies(c: Circuits, x: Vec, t: bool, control: nat)
    requires CircuitsOk(c) && control >= c.impl.n + c.spec.n
    ensures CopyIs(CheckModel(c, x, t, control), c.impl.n, 0, ImplSignals(c, x, t))
    ensures CopyIs(CheckModel(c, x, t, control), c.spec.n, c.impl.n, SpecSignals(c, x))
  {
    hide CircuitsOk, ImplSignals, SpecSignals;
    forall i: nat | i < c.spec.n ensures Place(i, c.impl.n) - c.impl.n == i && Place(i, c.impl.n) >= c.impl.n
    {
    }
  }

  lemma RepairAnswers(c: Circuits, controls: set<nat>, control: nat, d: Design, x: Vec, t: bool)
    requires CircuitsOk(c) && Describes(d, c) && x in d.inputs && d.Repairs(x, t)
    requires control >= c.impl.n + c.spec.n && control !in controls
    requires forall k :: k in controls ==> k >= c.impl.n + c.spec.n
    ensures CheckAnswer(CheckModel(c, x, t, control), c, controls, control, x, t)
  {
    hide CopyIs, HoldsF, ImplSignals, SpecSignals, Copy, Values, AllSame, InRange, NetOk;
    var tau, n := CheckModel(c, x, t, control), c.impl.n;
    CheckCopies(c, x, t, control);
    CopyOfImpl(tau, c, x, t);
    CopyOfSpec(tau, c, x);
    CopyValues(tau, n, 0, ImplSignals(c, x, t), c.implPis);
    CopyValues(tau, c.spec.n, n, SpecSignals(c, x), c.specPis);
    CopyValues(tau, n, 0, ImplSignals(c, x, t), c.implPos);
    CopyValues(tau, c.spec.n, n, SpecSignals(c, x), c.specPos);
    GivenInputs(c, x, t);
    GivenSpec(c, x);
    ImplInput(c, x, t, 0);
    SameValues(tau, c.implPis, 0, c.specPis, n);
    SameValues(tau, c.implPos, 0, c.specPos, n);
  }

  lemma CopyOfImpl(tau: Model, c: Circuits, x: Vec, t: bool)
    requires CircuitsOk(c) && CopyIs(tau, c.impl.n, 0, ImplSignals(c, x, t))
    ensures HoldsF(tau, NetClauses(c.impl, 0))
  {
    hide CopyIs, HoldsF;
    CopyHolds(tau, c.impl, 0, ImplFree(c, x, t));
  }

  lemma CopyOfSpec(tau: Model, c: Circuits, x: Vec)
    requires CircuitsOk(c) && CopyIs(tau, c.spec.n, c.impl.n, SpecSignals(c, x))
    ensures HoldsF(tau, NetClauses(c.spec, c.impl.n))
  {
    hide CopyIs, HoldsF;
    CopyHolds(tau, c.spec, c.impl.n, SpecFree(c, x));
  }

  lemma GivenSpec(c: Circuits, x: Vec)
    requires CircuitsOk(c) && |x| == |c.specPis|
    ensures Values(SpecSignals(c, x), c.specPis) == x
  {
    forall k | 0 <= k < |c.specPis| ensures Values(SpecSignals(c, x), c.specPis)[k] == x[k]
    {
      SpecInput(c, x, k);
    }
  }

  // With the control variable on, the formula has a model with target value `t` exactly
  // if `t` repairs the input.
  lemma CheckAnswered(c: Circuits, controls: set<nat>, control: nat, d: Design, x: Vec, t: bool)
    requires CircuitsOk(c) && Describes(d, c) && x in d.inputs
    requires control >= c.impl.n + c.spec.n && control !in controls
    requires forall k :: k in controls ==> k >= c.impl.n + c.spec.n
    ensures (exists tau :: CheckAnswer(tau, c, controls, control, x, t)) <==> d.Repairs(x, t)
  {
    hide CircuitsOk, Describes, CheckAnswer, CheckModel;
    if tau :| CheckAnswer(tau, c, controls, control, x, t) {
      AnswerRepairs(tau, c, controls, control, d, x, t);
    }
    if d.Repairs(x, t) {
      RepairAnswers(c, controls, control, d, x, t);
    }
  }

  // Switches the clauses of an input off.
  method Retire(glu: GInterface, c: Circuits, ghost controls: set<nat>, control: nat, ghost x: Vec,
      ghost f: set<seq<Lit>>)
    requires glu.Valid() && CircuitsOk(c) && Checks(f, c, controls) && control >= c.impl.n + c.spec.n
    requires forall tau :: HoldsF(tau, glu.clauses) <==>
      HoldsF(tau, f) && (control in tau ==> Values(Copy(tau, 0), c.implPis) == x)
    modifies glu
    ensures glu.Valid() && old(glu.nVars) <= glu.nVars && control < glu.nVars
    ensures Checks(glu.clauses, c, controls + {control})
  {
    hide HoldsF, CheckBase, CircuitsOk;
    SetSignal(glu, control, false);
  }
}
