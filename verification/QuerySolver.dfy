// The formula behind the selection: two input vectors, the implementation with both
// target values for each, and what a solver's answer about it means.
module QuerySolving {
  import opened SolverTypes
  import opened CircuitCnf
  import opened SolverInterfacing
  import opened PatchDesign
  import opened MergeSelecting

  // The two circuits with their inputs, outputs, the target and the candidates.
  datatype Circuits = Circuits(
    impl: Netlist, spec: Netlist,
    implPis: seq<nat>, specPis: seq<nat>,
    implPos: seq<nat>, specPos: seq<nat>,
    target: nat, cands: seq<nat>)

  // Exactly the primary inputs and, in the implementation, the target are undriven.
  ghost predicate CircuitsOk(c: Circuits)
  {
    && NetOk(c.impl) && NetOk(c.spec)
    && |c.implPis| == |c.specPis| && |c.implPos| == |c.specPos|
    && InRange(c.implPis, c.impl.n) && InRange(c.specPis, c.spec.n) && InRange(c.implPos, c.impl.n)
    && InRange(c.specPos, c.spec.n)
    && InRange(c.cands, c.impl.n) && c.target < c.impl.n && c.target !in c.implPis
    && (forall i, j :: 0 <= i < j < |c.implPis| ==> c.implPis[i] != c.implPis[j] && c.specPis[i] != c.specPis[j])
    && (forall i: nat :: i < c.impl.n ==> (Driven(c.impl, i) <==> i !in c.implPis && i != c.target))
    && (forall i: nat :: i < c.spec.n ==> (Driven(c.spec, i) <==> i !in c.specPis))
  }

  // Signal `i` is an input that is 1 in `x`.
  ghost predicate InputOne(pis: seq<nat>, x: Vec, i: nat)
  {
    exists k :: 0 <= k < |pis| && k < |x| && pis[k] == i && x[k]
  }

  // The values of the inputs given by a vector, nothing else being true.
  ghost function InputModel(ins: seq<nat>, v: Vec): Model
  {
    iset i: nat | InputOne(ins, v, i)
  }

  // The values of the undriven signals of the implementation and the specification.
  ghost function ImplFree(c: Circuits, x: Vec, t: bool): Model
  {
    iset i: nat | InputOne(c.implPis, x, i) || (i == c.target && t)
  }

  ghost function SpecFree(c: Circuits, x: Vec): Model
  {
    InputModel(c.specPis, x)
  }

  ghost function ImplSignals(c: Circuits, x: Vec, t: bool): Model
    requires CircuitsOk(c)
  {
    Signals(c.impl, ImplFree(c, x, t))
  }

  ghost function SpecSignals(c: Circuits, x: Vec): Model
    requires CircuitsOk(c)
  {
    Signals(c.spec, SpecFree(c, x))
  }

  // The values of the listed signals.
  ghost function Values(v: Model, s: seq<nat>): (r: Vec)
    ensures |r| == |s|
  {
    seq(|s|, k requires 0 <= k < |s| => s[k] in v)
  }

  // The design describes the circuits; the candidates do not depend on the target.
  ghost predicate Describes(d: Design, c: Circuits)
    requires CircuitsOk(c)
  {
    && d.width == |c.cands|
    && (forall x :: x in d.inputs <==> |x| == |c.implPis|)
    && (forall x, t :: x in d.inputs ==> d.impl(x, t) == Values(ImplSignals(c, x, t), c.implPos))
    && (forall x :: x in d.inputs ==> d.spec(x) == Values(SpecSignals(c, x), c.specPos))
    && (forall x, t :: x in d.inputs ==> d.signals(x) == Values(ImplSignals(c, x, t), c.cands))
  }

  // ---- The formula ----

  function Shifted(s: seq<nat>, off: nat): (r: seq<nat>)
    ensures |r| == |s|
  {
    seq(|s|, k requires 0 <= k < |s| => Place(s[k], off))
  }

  function Spec0(c: Circuits): nat { 4 * c.impl.n }

  function Spec1(c: Circuits): nat { 4 * c.impl.n + c.spec.n }

  // Where the auxiliary variables, the enabling variables and the triggers are.
  datatype Layout = Layout(max1: nat, max2: nat, en0: nat, en1: nat, eq: seq<nat>)

  ghost predicate LayoutOk(c: Circuits, l: Layout)
  {
    && 4 * c.impl.n <= l.max1 && 4 * c.impl.n + 2 * c.spec.n <= l.max1
    && l.max2 == l.max1 + |c.implPos| && l.en0 == l.max2 + |c.implPos| && l.en1 == l.en0 + 1
    && |l.eq| == |c.cands| && (forall k :: 0 <= k < |l.eq| ==> l.eq[k] > l.en1)
    && forall j, k :: 0 <= j < k < |l.eq| ==> l.eq[j] < l.eq[k]
  }

  ghost predicate NetsHold(tau: Model, c: Circuits)
  {
    && HoldsF(tau, NetClauses(c.impl, 0)) && HoldsF(tau, NetClauses(c.impl, c.impl.n))
    && HoldsF(tau, NetClauses(c.impl, 2 * c.impl.n)) && HoldsF(tau, NetClauses(c.impl, 3 * c.impl.n))
    && HoldsF(tau, NetClauses(c.spec, Spec0(c))) && HoldsF(tau, NetClauses(c.spec, Spec1(c)))
  }

  // The target is 0 in the first and third copy and 1 in the others.
  ghost predicate TargetsHold(tau: Model, c: Circuits)
  {
    var n := c.impl.n;
    && Place(c.target, 0) !in tau && Place(c.target, n) in tau && Place(c.target, 2 * n) !in tau
    && Place(c.target, 3 * n) in tau
  }

  // The first two copies have the inputs of the first specification, the others
  // those of the second.
  ghost predicate InputsHold(tau: Model, c: Circuits, k: nat)
    requires k <= |c.implPis| && k <= |c.specPis|
  {
    forall i :: 0 <= i < k ==> InputHolds(tau, c, c.implPis[i], c.specPis[i])
  }

  ghost predicate InputHolds(tau: Model, c: Circuits, pi: nat, spi: nat)
  {
    var n := c.impl.n;
    && Same(tau, Place(pi, 0), Place(spi, Spec0(c))) && Same(tau, Place(pi, n), Place(spi, Spec0(c)))
    && Same(tau, Place(pi, 2 * n), Place(spi, Spec1(c))) && Same(tau, Place(pi, 3 * n), Place(spi, Spec1(c)))
  }

  // Right with the wanted target value, wrong with the other.
  ghost predicate OutputsHold(tau: Model, c: Circuits, max1: nat, max2: nat)
    requires |c.implPos| == |c.specPos|
  {
    var n, k := c.impl.n, |c.implPos|;
    && AllSame(tau, Shifted(c.implPos, 0), Shifted(c.specPos, Spec0(c)), k)
    && AllSame(tau, Shifted(c.implPos, 3 * n), Shifted(c.specPos, Spec1(c)), k)
    && Marked(tau, Shifted(c.implPos, n), Shifted(c.specPos, Spec0(c)), max1, k) && SomeMarked(tau, max1, k)
    && Marked(tau, Shifted(c.implPos, 2 * n), Shifted(c.specPos, Spec1(c)), max2, k) && SomeMarked(tau, max2, k)
  }

  ghost predicate TriggersHold(tau: Model, c: Circuits, eq: seq<nat>, k: nat)
    requires k <= |eq| && k <= |c.cands|
  {
    forall i :: 0 <= i < k && eq[i] in tau ==> Same(tau, Place(c.cands[i], 0), Place(c.cands[i], 2 * c.impl.n))
  }

  ghost predicate Base(tau: Model, c: Circuits, l: Layout)
    requires CircuitsOk(c) && LayoutOk(c, l)
  {
    && NetsHold(tau, c) && TargetsHold(tau, c) && InputsHold(tau, c, |c.implPis|)
    && OutputsHold(tau, c, l.max1, l.max2) && TriggersHold(tau, c, l.eq, |c.cands|)
  }

  method AddNets(glu: GInterface, c: Circuits)
    requires glu.Valid()
    modifies glu
    ensures glu.Valid()
    ensures forall tau :: HoldsF(tau, glu.clauses) <==> HoldsF(tau, old(glu.clauses)) && NetsHold(tau, c)
    ensures old(glu.nVars) <= glu.nVars
    ensures forall g :: g in c.impl.gates ==> g.out + 3 * c.impl.n < glu.nVars
    ensures forall g :: g in c.spec.gates ==> g.out + Spec1(c) < glu.nVars
  {
    hide HoldsF;
    for i := 0 to 4
      invariant glu.Valid() && old(glu.nVars) <= glu.nVars
      invariant i == 4 ==> forall g :: g in c.impl.gates ==> g.out + 3 * c.impl.n < glu.nVars
      invariant forall tau ::
        HoldsF(tau, glu.clauses) <==>
        HoldsF(tau, old(glu.clauses)) && forall j :: 0 <= j < i ==> HoldsF(tau, NetClauses(c.impl, j * c.impl.n))
    {
      glu.AddCNF(c.impl, i * c.impl.n);
    }
    ghost var mid := glu.clauses;
    forall tau ensures (forall j :: 0 <= j < 4 ==> HoldsF(tau, NetClauses(c.impl, j * c.impl.n))) <==>
      HoldsF(tau, NetClauses(c.impl, 0)) && HoldsF(tau, NetClauses(c.impl, c.impl.n))
        && HoldsF(tau, NetClauses(c.impl, 2 * c.impl.n)) && HoldsF(tau, NetClauses(c.impl, 3 * c.impl.n))
    {
      FourTimes(tau, c);
    }
    glu.AddCNF(c.spec, Spec0(c));
    glu.AddCNF(c.spec, Spec1(c));
  }

  lemma FourTimes(tau: Model, c: Circuits)
    ensures (forall j :: 0 <= j < 4 ==> HoldsF(tau, NetClauses(c.impl, j * c.impl.n))) <==>
      HoldsF(tau, NetClauses(c.impl, 0)) && HoldsF(tau, NetClauses(c.impl, c.impl.n))
        && HoldsF(tau, NetClauses(c.impl, 2 * c.impl.n)) && HoldsF(tau, NetClauses(c.impl, 3 * c.impl.n))
  {
    hide HoldsF;
    assert 0 * c.impl.n == 0 && 1 * c.impl.n == c.impl.n;
    if forall j :: 0 <= j < 4 ==> HoldsF(tau, NetClauses(c.impl, j * c.impl.n)) {
      assert HoldsF(tau, NetClauses(c.impl, 0 * c.impl.n)) && HoldsF(tau, NetClauses(c.impl, 1 * c.impl.n));
      assert HoldsF(tau, NetClauses(c.impl, 2 * c.impl.n)) && HoldsF(tau, NetClauses(c.impl, 3 * c.impl.n));
    }
    if HoldsF(tau, NetClauses(c.impl, 0)) && HoldsF(tau, NetClauses(c.impl, c.impl.n))
      && HoldsF(tau, NetClauses(c.impl, 2 * c.impl.n)) && HoldsF(tau, NetClauses(c.impl, 3 * c.impl.n)) {
      forall j | 0 <= j < 4 ensures HoldsF(tau, NetClauses(c.impl, j * c.impl.n))
      {
        assert j == 0 || j == 1 || j == 2 || j == 3;
      }
    }
  }

  method AddTargets(glu: GInterface, c: Circuits)
    requires glu.Valid()
    modifies glu
    ensures glu.Valid()
    ensures forall tau :: HoldsF(tau, glu.clauses) <==> HoldsF(tau, old(glu.clauses)) && TargetsHold(tau, c)
    ensures old(glu.nVars) <= glu.nVars && c.target + 3 * c.impl.n < glu.nVars
  {
    hide HoldsF, HoldsC;
    var n := c.impl.n;
    SetSignal(glu, Place(c.target, 0), false);
    SetSignal(glu, Place(c.target, n), true);
    SetSignal(glu, Place(c.target, 2 * n), false);
    SetSignal(glu, Place(c.target, 3 * n), true);
  }

  method SetSignal(glu: GInterface, i: nat, b: bool)
    requires glu.Valid()
    modifies glu
    ensures glu.Valid()
    ensures forall tau :: HoldsF(tau, glu.clauses) <==> HoldsF(tau, old(glu.clauses)) && (i in tau <==> b)
    ensures old(glu.nVars) <= glu.nVars && i < glu.nVars
  {
    hide HoldsF, HoldsC;
    var l := glu.GenLit(i, b);
    glu.AddClause([l]);
    forall tau ensures HoldsC(tau, [l]) <==> (i in tau <==> b)
    {
      Holds1(tau, l);
    }
  }

  method AddInputs(glu: GInterface, c: Circuits)
    requires glu.Valid()
    requires CircuitsOk(c)
    modifies glu
    ensures glu.Valid()
    ensures forall tau :: HoldsF(tau, glu.clauses) <==> HoldsF(tau, old(glu.clauses)) && InputsHold(tau, c, |c.implPis|)
    ensures old(glu.nVars) <= glu.nVars
    ensures forall k ::
      0 <= k < |c.implPis| ==> c.implPis[k] + 3 * c.impl.n < glu.nVars && c.specPis[k] + Spec1(c) < glu.nVars
  {
    hide HoldsF;
    for i := 0 to |c.implPis|
      invariant forall tau :: HoldsF(tau, glu.clauses) <==> HoldsF(tau, old(glu.clauses)) && InputsHold(tau, c, i)
      invariant glu.Valid() && old(glu.nVars) <= glu.nVars
      invariant forall k ::
        0 <= k < i ==> c.implPis[k] + 3 * c.impl.n < glu.nVars && c.specPis[k] + Spec1(c) < glu.nVars
    {
      AddInput(glu, c, c.implPis[i], c.specPis[i]);
    }
  }

  method AddInput(glu: GInterface, c: Circuits, pi: nat, spi: nat)
    requires glu.Valid()
    requires pi < c.impl.n
    modifies glu
    ensures glu.Valid()
    ensures forall tau :: HoldsF(tau, glu.clauses) <==> HoldsF(tau, old(glu.clauses)) && InputHolds(tau, c, pi, spi)
    ensures old(glu.nVars) <= glu.nVars && pi + 3 * c.impl.n < glu.nVars && spi + Spec1(c) < glu.nVars
  {
    hide HoldsF, Same;
    var n := c.impl.n;
    glu.SetEqual(Place(pi, 0), Place(spi, Spec0(c)));
    glu.SetEqual(Place(pi, n), Place(spi, Spec0(c)));
    glu.SetEqual(Place(pi, 2 * n), Place(spi, Spec1(c)));
    glu.SetEqual(Place(pi, 3 * n), Place(spi, Spec1(c)));
  }

  method AddOutputs(glu: GInterface, c: Circuits) returns (max1: nat, max2: nat)
    requires glu.Valid()
    requires CircuitsOk(c) && 4 * c.impl.n <= glu.nVars && 4 * c.impl.n + 2 * c.spec.n <= glu.nVars
    modifies glu
    ensures glu.Valid()
    ensures forall tau :: HoldsF(tau, glu.clauses) <==> HoldsF(tau, old(glu.clauses)) && OutputsHold(tau, c, max1, max2)
    ensures old(glu.nVars) <= max1 && max2 == max1 + |c.implPos| && glu.nVars == max2 + |c.implPos|
  {
    hide HoldsF, AllSame, Marked, SomeMarked;
    var n := c.impl.n;
    glu.SetEqualAll(Shifted(c.implPos, 0), Shifted(c.specPos, Spec0(c)));
    glu.SetEqualAll(Shifted(c.implPos, 3 * n), Shifted(c.specPos, Spec1(c)));
    max1 := glu.nVars;
    glu.SetNEqual(Shifted(c.implPos, n), Shifted(c.specPos, Spec0(c)));
    max2 := glu.nVars;
    glu.SetNEqual(Shifted(c.implPos, 2 * n), Shifted(c.specPos, Spec1(c)));
  }

  method AddTriggers(glu: GInterface, c: Circuits) returns (eq: seq<nat>)
    requires glu.Valid()
    modifies glu
    ensures glu.Valid()
    ensures old(glu.nVars) <= glu.nVars && |eq| == |c.cands|
    ensures forall k :: 0 <= k < |eq| ==> old(glu.nVars) <= eq[k] < glu.nVars
    ensures forall j, k :: 0 <= j < k < |eq| ==> eq[j] < eq[k]
    ensures forall tau ::
      HoldsF(tau, glu.clauses) <==> HoldsF(tau, old(glu.clauses)) && TriggersHold(tau, c, eq, |c.cands|)
  {
    hide HoldsF;
    eq := [];
    for i := 0 to |c.cands|
      invariant glu.Valid() && |eq| == i && old(glu.nVars) <= glu.nVars
      invariant forall k :: 0 <= k < i ==> old(glu.nVars) <= eq[k] < glu.nVars
      invariant forall j, k :: 0 <= j < k < i ==> eq[j] < eq[k]
      invariant forall tau :: HoldsF(tau, glu.clauses) <==> HoldsF(tau, old(glu.clauses)) && TriggersHold(tau, c, eq, i)
    {
      var flag := glu.nVars;
      ghost var was := eq;
      glu.IfTrueThenEq([Place(c.cands[i], 0)], [Place(c.cands[i], 2 * c.impl.n)], flag);
      eq := eq + [flag];
      forall tau ensures TriggersHold(tau, c, eq, i + 1) <==>
        TriggersHold(tau, c, was, i)
        && (flag in tau ==> AllSame(tau, [Place(c.cands[i], 0)], [Place(c.cands[i], 2 * c.impl.n)], 1))
      {
        TriggersStep(tau, c, was, flag, i);
      }
    }
  }

  lemma TriggersStep(tau: Model, c: Circuits, eq: seq<nat>, flag: nat, i: nat)
    requires |eq| == i < |c.cands|
    ensures TriggersHold(tau, c, eq + [flag], i + 1) <==>
      TriggersHold(tau, c, eq, i)
      && (flag in tau ==> AllSame(tau, [Place(c.cands[i], 0)], [Place(c.cands[i], 2 * c.impl.n)], 1))
  {
    hide Same;
    var now := eq + [flag];
    var a, b := Place(c.cands[i], 0), Place(c.cands[i], 2 * c.impl.n);
    assert now[i] == flag && [a][0] == a && [b][0] == b;
    assert AllSame(tau, [a], [b], 1) <==> Same(tau, a, b);
    assert forall k :: 0 <= k < i ==> now[k] == eq[k];
    if TriggersHold(tau, c, now, i + 1) {
      forall k | 0 <= k < i && eq[k] in tau ensures Same(tau, Place(c.cands[k], 0), Place(c.cands[k], 2 * c.impl.n))
      {
        assert now[k] in tau;
      }
    }
  }

  // The variables of the assumptions have been made.
  ghost predicate LayoutBelow(l: Layout, n: nat)
  {
    l.en0 < n && l.en1 < n && forall k :: 0 <= k < |l.eq| ==> l.eq[k] < n
  }

  // Builds the formula; afterwards its models are described by `Base`.
  method MakeSolver(c: Circuits) returns (glu: GInterface, l: Layout)
    requires CircuitsOk(c)
    ensures fresh(glu) && glu.Valid() && LayoutOk(c, l) && LayoutBelow(l, glu.nVars)
    ensures forall tau :: HoldsF(tau, glu.clauses) <==> Base(tau, c, l)
  {
    hide HoldsF, NetsHold, TargetsHold, InputsHold, OutputsHold, TriggersHold;
    glu := new GInterface();
    forall tau ensures HoldsF(tau, {})
    {
      EmptyHolds(tau);
    }
    AddNets(glu, c);
    AddTargets(glu, c);
    AddInputs(glu, c);
    AllAllocated(c, glu.nVars);
    var max1, max2 := AddOutputs(glu, c);
    var en0 := glu.nVars;
    var en1 := glu.nVars + 1;
    var unused := glu.GenLit(en0, true);
    unused := glu.GenLit(en1, true);
    var eq := AddTriggers(glu, c);
    l := Layout(max1, max2, en0, en1, eq);
  }

  lemma EmptyHolds(tau: Model)
    ensures HoldsF(tau, {})
  {
  }

  // Every signal has its variable: it is driven, an input or the target.
  lemma AllAllocated(c: Circuits, nVars: nat)
    requires CircuitsOk(c)
    requires forall g :: g in c.impl.gates ==> g.out + 3 * c.impl.n < nVars
    requires forall g :: g in c.spec.gates ==> g.out + Spec1(c) < nVars
    requires forall k :: 0 <= k < |c.implPis| ==> c.implPis[k] + 3 * c.impl.n < nVars && c.specPis[k] + Spec1(c) < nVars
    requires c.target + 3 * c.impl.n < nVars
    ensures 4 * c.impl.n <= nVars && 4 * c.impl.n + 2 * c.spec.n <= nVars
  {
    var i := c.impl.n - 1;
    if Driven(c.impl, i) {
      var g := Driver(c.impl, i);
    } else if i in c.implPis {
      var k :| 0 <= k < |c.implPis| && c.implPis[k] == i;
    }
    if c.spec.n > 0 {
      var j := c.spec.n - 1;
      if Driven(c.spec, j) {
        var g := Driver(c.spec, j);
      } else {
        var k :| 0 <= k < |c.specPis| && c.specPis[k] == j;
      }
    }
  }

  // ---- Reading an answer ----

  // The copy at `off` has the signals `v`.
  ghost predicate CopyIs(tau: Model, n: nat, off: nat, v: Model)
  {
    forall i: nat :: i < n ==> (i in Copy(tau, off) <==> i in v)
  }

  lemma CopyValues(tau: Model, n: nat, off: nat, v: Model, s: seq<nat>)
    requires CopyIs(tau, n, off, v) && InRange(s, n)
    ensures Values(Copy(tau, off), s) == Values(v, s)
  {
  }

  lemma ImplCopy(tau: Model, c: Circuits, off: nat, x: Vec, t: bool)
    requires CircuitsOk(c) && HoldsF(tau, NetClauses(c.impl, off))
    requires x == Values(Copy(tau, off), c.implPis) && (c.target in Copy(tau, off) <==> t)
    ensures CopyIs(tau, c.impl.n, off, ImplSignals(c, x, t))
  {
    var v, free := Copy(tau, off), ImplFree(c, x, t);
    NetMeaning(tau, c.impl, off);
    forall k: nat | k < c.impl.n && !Driven(c.impl, k) ensures k in v <==> k in free
    {
      if k in c.implPis {
        var j :| 0 <= j < |c.implPis| && c.implPis[j] == k;
        InputBit(c.implPis, x, j);
      } else {
        NoInput(c.implPis, x, k);
      }
    }
    forall i: nat | i < c.impl.n ensures i in v <==> i in ImplSignals(c, x, t)
    {
      SimSame(c.impl, v, free, i);
    }
  }

  lemma SpecCopy(tau: Model, c: Circuits, off: nat, x: Vec)
    requires CircuitsOk(c) && HoldsF(tau, NetClauses(c.spec, off)) && x == Values(Copy(tau, off), c.specPis)
    ensures CopyIs(tau, c.spec.n, off, SpecSignals(c, x))
  {
    var v, free := Copy(tau, off), SpecFree(c, x);
    NetMeaning(tau, c.spec, off);
    forall k: nat | k < c.spec.n && !Driven(c.spec, k) ensures k in v <==> k in free
    {
      var j :| 0 <= j < |c.specPis| && c.specPis[j] == k;
      InputBit(c.specPis, x, j);
    }
    forall i: nat | i < c.spec.n ensures i in v <==> i in SpecSignals(c, x)
    {
      SimSame(c.spec, v, free, i);
    }
  }

  lemma InputBit(pis: seq<nat>, x: Vec, j: nat)
    requires j < |pis| == |x| && forall a, b :: 0 <= a < b < |pis| ==> pis[a] != pis[b]
    ensures InputOne(pis, x, pis[j]) <==> x[j]
  {
  }

  lemma NoInput(pis: seq<nat>, x: Vec, i: nat)
    requires i !in pis
    ensures !InputOne(pis, x, i)
  {
  }

  // Equal signals in pairs are equal vectors of values.
  lemma SameValues(tau: Model, v: seq<nat>, off: nat, w: seq<nat>, off': nat)
    requires |v| == |w|
    ensures AllSame(tau, Shifted(v, off), Shifted(w, off'), |v|) <==>
      Values(Copy(tau, off), v) == Values(Copy(tau, off'), w)
  {
    var p, q := Values(Copy(tau, off), v), Values(Copy(tau, off'), w);
    forall k | 0 <= k < |v| ensures Same(tau, Shifted(v, off)[k], Shifted(w, off')[k]) <==> p[k] == q[k]
    {
    }
    if AllSame(tau, Shifted(v, off), Shifted(w, off'), |v|) {
      assert forall k :: 0 <= k < |v| ==> Same(tau, Shifted(v, off)[k], Shifted(w, off')[k]);
    }
  }

  // A marked pair makes the vectors different.
  lemma MarkedValues(tau: Model, v: seq<nat>, off: nat, w: seq<nat>, off': nat, max: nat)
    requires |v| == |w| && Marked(tau, Shifted(v, off), Shifted(w, off'), max, |v|)
    ensures SomeMarked(tau, max, |v|) <==> Values(Copy(tau, off), v) != Values(Copy(tau, off'), w)
  {
    SameValues(tau, v, off, w, off');
    if !AllSame(tau, Shifted(v, off), Shifted(w, off'), |v|) {
      var k: nat :| k < |v| && !Same(tau, Shifted(v, off)[k], Shifted(w, off')[k]);
      assert Place(k, max) in tau;
    }
  }

  // The input vectors of a model.
  ghost function FirstVector(tau: Model, c: Circuits): Vec
  {
    Values(Copy(tau, 0), c.implPis)
  }

  ghost function SecondVector(tau: Model, c: Circuits): Vec
  {
    Values(Copy(tau, 2 * c.impl.n), c.implPis)
  }

  // The copies of one input vector have the inputs of its specification.
  lemma SharedInputs(tau: Model, c: Circuits)
    requires CircuitsOk(c) && InputsHold(tau, c, |c.implPis|)
    ensures Values(Copy(tau, c.impl.n), c.implPis) == FirstVector(tau, c) == Values(Copy(tau, Spec0(c)), c.specPis)
    ensures Values(Copy(tau, 3 * c.impl.n), c.implPis) == SecondVector(tau, c) == Values(Copy(tau, Spec1(c)), c.specPis)
  {
    forall k | 0 <= k < |c.implPis| ensures InputHolds(tau, c, c.implPis[k], c.specPis[k])
    {
    }
  }

  // The copies are simulations of the two vectors with both target values.
  lemma CopiesSimulate(tau: Model, c: Circuits, l: Layout)
    requires CircuitsOk(c) && LayoutOk(c, l) && Base(tau, c, l)
    ensures var x, y, n := FirstVector(tau, c), SecondVector(tau, c), c.impl.n;
      && CopyIs(tau, n, 0, ImplSignals(c, x, false)) && CopyIs(tau, n, n, ImplSignals(c, x, true))
      && CopyIs(tau, n, 2 * n, ImplSignals(c, y, false)) && CopyIs(tau, n, 3 * n, ImplSignals(c, y, true))
      && CopyIs(tau, c.spec.n, Spec0(c), SpecSignals(c, x)) && CopyIs(tau, c.spec.n, Spec1(c), SpecSignals(c, y))
  {
    var x, y, n := FirstVector(tau, c), SecondVector(tau, c), c.impl.n;
    hide HoldsF, OutputsHold, TriggersHold, CopyIs;
    SharedInputs(tau, c);
    ImplCopy(tau, c, 0, x, false);
    ImplCopy(tau, c, n, x, true);
    ImplCopy(tau, c, 2 * n, y, false);
    ImplCopy(tau, c, 3 * n, y, true);
    SpecCopy(tau, c, Spec0(c), x);
    SpecCopy(tau, c, Spec1(c), y);
  }

  // The first vector needs target value 0 and the second needs 1.
  lemma BaseWants(tau: Model, c: Circuits, l: Layout, d: Design)
    requires CircuitsOk(c) && LayoutOk(c, l) && Base(tau, c, l) && Describes(d, c)
    ensures FirstVector(tau, c) in d.inputs && d.Wants(FirstVector(tau, c), false)
    ensures SecondVector(tau, c) in d.inputs && d.Wants(SecondVector(tau, c), true)
    ensures d.signals(FirstVector(tau, c)) == Values(Copy(tau, 0), c.cands)
    ensures d.signals(SecondVector(tau, c)) == Values(Copy(tau, 2 * c.impl.n), c.cands)
  {
    hide HoldsF, NetsHold, InputsHold, TriggersHold, CopyIs;
    var x, y, n := FirstVector(tau, c), SecondVector(tau, c), c.impl.n;
    CopiesSimulate(tau, c, l);
    CopyValues(tau, n, 0, ImplSignals(c, x, false), c.implPos);
    CopyValues(tau, n, n, ImplSignals(c, x, true), c.implPos);
    CopyValues(tau, n, 2 * n, ImplSignals(c, y, false), c.implPos);
    CopyValues(tau, n, 3 * n, ImplSignals(c, y, true), c.implPos);
    CopyValues(tau, c.spec.n, Spec0(c), SpecSignals(c, x), c.specPos);
    CopyValues(tau, c.spec.n, Spec1(c), SpecSignals(c, y), c.specPos);
    CopyValues(tau, n, 0, ImplSignals(c, x, false), c.cands);
    CopyValues(tau, n, 2 * n, ImplSignals(c, y, false), c.cands);
    SameValues(tau, c.implPos, 0, c.specPos, Spec0(c));
    SameValues(tau, c.implPos, 3 * n, c.specPos, Spec1(c));
    MarkedValues(tau, c.implPos, n, c.specPos, Spec0(c), l.max1);
    MarkedValues(tau, c.implPos, 2 * n, c.specPos, Spec1(c), l.max2);
  }

  // ---- Blocked cases and assumptions ----

  // The literals that a signal differs from the recorded value, each with the
  // enabling variable.
  function BlockClause(cands: seq<nat>, off: nat, data: Vec, en: nat): seq<Lit>
    requires |data| == |cands|
    decreases |cands|
  {
    if cands == [] then []
    else [SigLit(Place(cands[0], off), !data[0]), SigLit(en, true)] + BlockClause(cands[1..], off, data[1..], en)
  }

  lemma {:induction false} BlockMeaning(tau: Model, cands: seq<nat>, off: nat, data: Vec, en: nat)
    requires |data| == |cands|
    ensures HoldsC(tau, BlockClause(cands, off, data, en)) <==>
      ClauseHolds(Values(Copy(tau, off), cands), data, en in tau)
    decreases |cands|
  {
    if cands == [] {
      assert !HoldsC(tau, []);
    } else {
      var p, q := SigLit(Place(cands[0], off), !data[0]), SigLit(en, true);
      var rest := BlockClause(cands[1..], off, data[1..], en);
      BlockMeaning(tau, cands[1..], off, data[1..], en);
      HoldsPair(tau, p, q, rest);
      ClauseSplit(Values(Copy(tau, off), cands), data, en in tau);
      assert Values(Copy(tau, off), cands)[1..] == Values(Copy(tau, off), cands[1..]);
    }
  }

  lemma HoldsPair(tau: Model, p: Lit, q: Lit, rest: seq<Lit>)
    ensures HoldsC(tau, [p, q] + rest) <==> HoldsL(tau, p) || HoldsL(tau, q) || HoldsC(tau, rest)
  {
    var c := [p, q] + rest;
    assert forall l :: l in c <==> l == p || l == q || l in rest;
  }

  lemma ClauseSplit(v: Vec, p: Vec, en: bool)
    requires |v| == |p| > 0
    ensures ClauseHolds(v, p, en) <==> v[0] != p[0] || en || ClauseHolds(v[1..], p[1..], en)
  {
    if ClauseHolds(v, p, en) {
      var i :| 0 <= i < |p| && i < |v| && (v[i] != p[i] || en);
      if i > 0 {
        assert v[1..][i - 1] == v[i] && p[1..][i - 1] == p[i];
      }
    }
    if ClauseHolds(v[1..], p[1..], en) {
      var i :| 0 <= i < |p| - 1 && (v[1..][i] != p[1..][i] || en);
      assert v[i + 1] != p[i + 1] || en;
    }
    if v[0] != p[0] || en {
      assert 0 <= 0 < |p| && (v[0] != p[0] || en);
    }
  }

  lemma BlockStep(cands: seq<nat>, off: nat, data: Vec, en: nat, k: nat)
    requires k < |cands| == |data|
    ensures BlockClause(cands[k..], off, data[k..], en) ==
      [SigLit(Place(cands[k], off), !data[k]), SigLit(en, true)] + BlockClause(cands[k + 1..], off, data[k + 1..], en)
  {
    assert cands[k..][1..] == cands[k + 1..] && data[k..][1..] == data[k + 1..];
  }

  lemma BlockEnds(cands: seq<nat>, off: nat, data: Vec, en: nat)
    requires |cands| == |data|
    ensures BlockClause(cands[|cands|..], off, data[|cands|..], en) == []
    ensures cands[0..] == cands && data[0..] == data
  {
  }

  // The literals of a blocking clause, with their variables made.
  method CaseLits(glu: GInterface, cands: seq<nat>, off: nat, data: Vec, en: nat) returns (lits: seq<Lit>)
    requires glu.Valid() && |data| == |cands|
    modifies glu`nVars
    ensures glu.Valid() && old(glu.nVars) <= glu.nVars
    ensures lits == BlockClause(cands, off, data, en) && VarsBelow(lits, glu.nVars)
  {
    hide BlockClause;
    lits := [];
    assert VarsBelow(lits, glu.nVars);
    BlockEnds(cands, off, data, en);
    for k := 0 to |cands|
      invariant glu.Valid() && old(glu.nVars) <= glu.nVars && VarsBelow(lits, glu.nVars)
      invariant BlockClause(cands, off, data, en) == lits + BlockClause(cands[k..], off, data[k..], en)
    {
      ghost var before := glu.nVars;
      var p := glu.GenLit(Place(cands[k], off), !data[k]);
      var q := glu.GenLit(en, true);
      BlockStep(cands, off, data, en, k);
      BelowPair(lits, before, glu.nVars, p, q);
      lits := lits + [p, q];
    }
  }

  // Blocks a case for the first vector, or for the second.
  method RemoveCase(glu: GInterface, c: Circuits, l: Layout, data: Vec, second: bool)
    requires glu.Valid() && |data| == |c.cands|
    modifies glu
    ensures glu.Valid() && old(glu.nVars) <= glu.nVars
    ensures forall tau :: HoldsF(tau, glu.clauses) <==>
      HoldsF(tau, old(glu.clauses)) && CaseHolds(tau, c, l, data, second)
  {
    hide HoldsF, HoldsC, BlockClause, VarsBelow;
    var off, en := if second then 2 * c.impl.n else 0, if second then l.en1 else l.en0;
    var lits := CaseLits(glu, c.cands, off, data, en);
    glu.AddClause(lits);
    forall tau ensures HoldsC(tau, lits) <==> CaseHolds(tau, c, l, data, second)
    {
      BlockMeaning(tau, c.cands, off, data, en);
    }
  }

  lemma BelowPair(c: seq<Lit>, n: nat, m: nat, p: Lit, q: Lit)
    requires VarsBelow(c, n) && n <= m && p.v < m && q.v < m
    ensures VarsBelow(c + [p, q], m)
  {
  }

  ghost predicate CaseHolds(tau: Model, c: Circuits, l: Layout, data: Vec, second: bool)
  {
    if second then ClauseHolds(Values(Copy(tau, 2 * c.impl.n), c.cands), data, l.en1 in tau)
    else ClauseHolds(Values(Copy(tau, 0), c.cands), data, l.en0 in tau)
  }

  // A model of the formula with the blocked cases under the assumptions of a query.
  ghost predicate Answer(tau: Model, c: Circuits, l: Layout, equal: set<nat>, in0: seq<Vec>, in1: seq<Vec>,
      noIn0: bool, noIn1: bool)
    requires CircuitsOk(c) && LayoutOk(c, l)
  {
    && Base(tau, c, l)
    && (forall p :: p in in0 ==> CaseHolds(tau, c, l, p, false))
    && (forall p :: p in in1 ==> CaseHolds(tau, c, l, p, true))
    && (forall k :: k in equal && k < |l.eq| ==> l.eq[k] in tau)
    && (l.en0 in tau <==> noIn0) && (l.en1 in tau <==> noIn1)
  }

  // A model is a pair of vectors that answers the query.
  lemma AnswerIsPair(tau: Model, c: Circuits, l: Layout, d: Design, equal: set<nat>, in0: seq<Vec>, in1: seq<Vec>,
      noIn0: bool, noIn1: bool)
    requires CircuitsOk(c) && LayoutOk(c, l) && Describes(d, c) && Answer(tau, c, l, equal, in0, in1, noIn0, noIn1)
    ensures FirstVector(tau, c) in d.inputs && SecondVector(tau, c) in d.inputs
    ensures Query(d, FirstVector(tau, c), SecondVector(tau, c), equal, in0, in1, noIn0, noIn1)
  {
    BaseWants(tau, c, l, d);
    var x, y := FirstVector(tau, c), SecondVector(tau, c);
    assert TriggersHold(tau, c, l.eq, |c.cands|);
    hide Base, Describes, CircuitsOk, LayoutOk;
    forall k | k in equal && k < |d.signals(x)| && k < |d.signals(y)| ensures d.signals(x)[k] == d.signals(y)[k]
    {
      assert l.eq[k] in tau;
    }
  }

  // ---- Building an answer ----

  // The variable `i` of the model made from two vectors.
  ghost predicate BuiltAt(c: Circuits, l: Layout, x: Vec, y: Vec, noIn0: bool, noIn1: bool, i: nat)
    requires CircuitsOk(c) && LayoutOk(c, l)
  {
    var n, m := c.impl.n, c.spec.n;
    if i < n then i in ImplSignals(c, x, false)
    else if i < 2 * n then i - n in ImplSignals(c, x, true)
    else if i < 3 * n then i - 2 * n in ImplSignals(c, y, false)
    else if i < 4 * n then i - 3 * n in ImplSignals(c, y, true)
    else if i < 4 * n + m then i - 4 * n in SpecSignals(c, x)
    else if i < 4 * n + 2 * m then i - 4 * n - m in SpecSignals(c, y)
    else if l.max1 <= i < l.max2
      then Differs(ImplSignals(c, x, true), c.implPos, SpecSignals(c, x), c.specPos, i - l.max1)
    else if l.max2 <= i < l.en0
      then Differs(ImplSignals(c, y, false), c.implPos, SpecSignals(c, y), c.specPos, i - l.max2)
    else if i == l.en0 then noIn0
    else if i == l.en1 then noIn1
    else Triggered(c, l, x, y, i)
  }

  // The outputs at place `k` differ.
  ghost predicate Differs(v: Model, s: seq<nat>, w: Model, t: seq<nat>, k: nat)
  {
    k < |s| && k < |t| && ((s[k] in v) != (t[k] in w))
  }

  // `i` is the trigger of a candidate that has the same value for both vectors.
  ghost predicate Triggered(c: Circuits, l: Layout, x: Vec, y: Vec, i: nat)
    requires CircuitsOk(c)
  {
    exists k :: 0 <= k < |l.eq| && k < |c.cands| && l.eq[k] == i
      && ((c.cands[k] in ImplSignals(c, x, false)) == (c.cands[k] in ImplSignals(c, y, false)))
  }

  ghost function Built(c: Circuits, l: Layout, x: Vec, y: Vec, noIn0: bool, noIn1: bool): Model
    requires CircuitsOk(c) && LayoutOk(c, l)
  {
    iset i: nat | BuiltAt(c, l, x, y, noIn0, noIn1, i)
  }

  lemma BuiltCopies(c: Circuits, l: Layout, x: Vec, y: Vec, noIn0: bool, noIn1: bool)
    requires CircuitsOk(c) && LayoutOk(c, l)
    ensures var tau, n := Built(c, l, x, y, noIn0, noIn1), c.impl.n;
      && CopyIs(tau, n, 0, ImplSignals(c, x, false)) && CopyIs(tau, n, n, ImplSignals(c, x, true))
      && CopyIs(tau, n, 2 * n, ImplSignals(c, y, false)) && CopyIs(tau, n, 3 * n, ImplSignals(c, y, true))
      && CopyIs(tau, c.spec.n, Spec0(c), SpecSignals(c, x)) && CopyIs(tau, c.spec.n, Spec1(c), SpecSignals(c, y))
  {
    hide CircuitsOk, LayoutOk, ImplSignals, SpecSignals;
    var tau, n := Built(c, l, x, y, noIn0, noIn1), c.impl.n;
    forall i: nat | i < n ensures (i in Copy(tau, 0) <==> i in ImplSignals(c, x, false))
      && (i in Copy(tau, n) <==> i in ImplSignals(c, x, true))
      && (i in Copy(tau, 2 * n) <==> i in ImplSignals(c, y, false))
      && (i in Copy(tau, 3 * n) <==> i in ImplSignals(c, y, true))
    {
      assert Place(i, n) - n == i && Place(i, 2 * n) - 2 * n == i && Place(i, 3 * n) - 3 * n == i;
    }
    forall i: nat | i < c.spec.n ensures (i in Copy(tau, Spec0(c)) <==> i in SpecSignals(c, x))
      && (i in Copy(tau, Spec1(c)) <==> i in SpecSignals(c, y))
    {
      assert Place(i, Spec0(c)) - 4 * n == i && Place(i, Spec1(c)) - 4 * n - c.spec.n == i;
    }
  }

  lemma CopyHolds(tau: Model, net: Netlist, off: nat, free: Model)
    requires NetOk(net) && CopyIs(tau, net.n, off, Signals(net, free))
    ensures HoldsF(tau, NetClauses(net, off))
  {
    SimRespects(net, free);
    SameSignals(net, Copy(tau, off), Signals(net, free));
    ClausesRespect(tau, net, off);
  }

  lemma BuiltNets(tau: Model, c: Circuits, x: Vec, y: Vec)
    requires CircuitsOk(c)
    requires var n := c.impl.n;
      && CopyIs(tau, n, 0, ImplSignals(c, x, false)) && CopyIs(tau, n, n, ImplSignals(c, x, true))
      && CopyIs(tau, n, 2 * n, ImplSignals(c, y, false)) && CopyIs(tau, n, 3 * n, ImplSignals(c, y, true))
      && CopyIs(tau, c.spec.n, Spec0(c), SpecSignals(c, x)) && CopyIs(tau, c.spec.n, Spec1(c), SpecSignals(c, y))
    ensures NetsHold(tau, c)
  {
    hide CopyIs, HoldsF;
    CopyHolds(tau, c.impl, 0, ImplFree(c, x, false));
    CopyHolds(tau, c.impl, c.impl.n, ImplFree(c, x, true));
    CopyHolds(tau, c.impl, 2 * c.impl.n, ImplFree(c, y, false));
    CopyHolds(tau, c.impl, 3 * c.impl.n, ImplFree(c, y, true));
    CopyHolds(tau, c.spec, Spec0(c), SpecFree(c, x));
    CopyHolds(tau, c.spec, Spec1(c), SpecFree(c, y));
  }

  // Undriven signals have the value they were given.
  lemma ImplInput(c: Circuits, x: Vec, t: bool, k: nat)
    requires CircuitsOk(c) && |x| == |c.implPis|
    ensures k < |c.implPis| ==> (c.implPis[k] in ImplSignals(c, x, t) <==> x[k])
    ensures c.target in ImplSignals(c, x, t) <==> t
  {
    if k < |c.implPis| {
      InputBit(c.implPis, x, k);
      assert c.implPis[k] in c.implPis;
    }
    NoInput(c.implPis, x, c.target);
  }

  lemma SpecInput(c: Circuits, x: Vec, k: nat)
    requires CircuitsOk(c) && |x| == |c.specPis| && k < |c.specPis|
    ensures c.specPis[k] in SpecSignals(c, x) <==> x[k]
  {
    InputBit(c.specPis, x, k);
    assert c.specPis[k] in c.specPis;
  }

  lemma BuiltInputs(tau: Model, c: Circuits, x: Vec, y: Vec)
    requires CircuitsOk(c) && |x| == |y| == |c.implPis|
    requires var n := c.impl.n;
      && CopyIs(tau, n, 0, ImplSignals(c, x, false)) && CopyIs(tau, n, n, ImplSignals(c, x, true))
      && CopyIs(tau, n, 2 * n, ImplSignals(c, y, false)) && CopyIs(tau, n, 3 * n, ImplSignals(c, y, true))
      && CopyIs(tau, c.spec.n, Spec0(c), SpecSignals(c, x)) && CopyIs(tau, c.spec.n, Spec1(c), SpecSignals(c, y))
    ensures TargetsHold(tau, c) && InputsHold(tau, c, |c.implPis|)
  {
    hide ImplSignals, SpecSignals;
    var n := c.impl.n;
    ImplInput(c, x, false, 0);
    ImplInput(c, x, true, 0);
    ImplInput(c, y, false, 0);
    ImplInput(c, y, true, 0);
    assert c.target in Copy(tau, 0) <==> Place(c.target, 0) in tau;
    assert c.target in Copy(tau, n) <==> Place(c.target, n) in tau;
    assert c.target in Copy(tau, 2 * n) <==> Place(c.target, 2 * n) in tau;
    assert c.target in Copy(tau, 3 * n) <==> Place(c.target, 3 * n) in tau;
    forall k | 0 <= k < |c.implPis| ensures InputHolds(tau, c, c.implPis[k], c.specPis[k])
    {
      ImplInput(c, x, false, k);
      ImplInput(c, x, true, k);
      ImplInput(c, y, false, k);
      ImplInput(c, y, true, k);
      SpecInput(c, x, k);
      SpecInput(c, y, k);
      var pi, spi := c.implPis[k], c.specPis[k];
      assert pi in Copy(tau, 0) <==> pi in Copy(tau, n);
      assert pi in Copy(tau, 2 * n) <==> pi in Copy(tau, 3 * n);
      assert spi in Copy(tau, Spec0(c)) <==> pi in Copy(tau, 0);
      assert spi in Copy(tau, Spec1(c)) <==> pi in Copy(tau, 2 * n);
    }
  }

  lemma DifferencesMarked(tau: Model, c: Circuits, v: Model, off: nat, w: Model, off': nat, max: nat)
    requires CircuitsOk(c) && CopyIs(tau, c.impl.n, off, v) && CopyIs(tau, c.spec.n, off', w)
    requires forall k: nat :: k < |c.implPos| ==> (Place(k, max) in tau <==> Differs(v, c.implPos, w, c.specPos, k))
    ensures Marked(tau, Shifted(c.implPos, off), Shifted(c.specPos, off'), max, |c.implPos|)
  {
    forall k | 0 <= k < |c.implPos|
      ensures Place(k, max) in tau <==> !Same(tau, Shifted(c.implPos, off)[k], Shifted(c.specPos, off')[k])
    {
      assert c.implPos[k] in Copy(tau, off) <==> c.implPos[k] in v;
      assert c.specPos[k] in Copy(tau, off') <==> c.specPos[k] in w;
    }
  }

  lemma BuiltMarks(c: Circuits, l: Layout, x: Vec, y: Vec, noIn0: bool, noIn1: bool)
    requires CircuitsOk(c) && LayoutOk(c, l)
    ensures forall k: nat ::
      k < |c.implPos| ==>
      (Place(k, l.max1) in Built(c, l, x, y, noIn0, noIn1) <==>
      Differs(ImplSignals(c, x, true), c.implPos, SpecSignals(c, x), c.specPos, k))
    ensures forall k: nat ::
      k < |c.implPos| ==>
      (Place(k, l.max2) in Built(c, l, x, y, noIn0, noIn1) <==>
      Differs(ImplSignals(c, y, false), c.implPos, SpecSignals(c, y), c.specPos, k))
    ensures (l.en0 in Built(c, l, x, y, noIn0, noIn1) <==> noIn0)
      && (l.en1 in Built(c, l, x, y, noIn0, noIn1) <==> noIn1)
  {
    hide *;
    forall k: nat | k < |c.implPos|
      ensures Place(k, l.max1) in Built(c, l, x, y, noIn0, noIn1) <==>
        Differs(ImplSignals(c, x, true), c.implPos, SpecSignals(c, x), c.specPos, k)
      ensures Place(k, l.max2) in Built(c, l, x, y, noIn0, noIn1) <==>
        Differs(ImplSignals(c, y, false), c.implPos, SpecSignals(c, y), c.specPos, k)
    {
      BuiltMark(c, l, x, y, noIn0, noIn1, k);
    }
    BuiltSwitches(c, l, x, y, noIn0, noIn1);
  }

  lemma BuiltMark(c: Circuits, l: Layout, x: Vec, y: Vec, noIn0: bool, noIn1: bool, k: nat)
    requires CircuitsOk(c) && LayoutOk(c, l) && k < |c.implPos|
    ensures Place(k, l.max1) in Built(c, l, x, y, noIn0, noIn1) <==>
      Differs(ImplSignals(c, x, true), c.implPos, SpecSignals(c, x), c.specPos, k)
    ensures Place(k, l.max2) in Built(c, l, x, y, noIn0, noIn1) <==>
      Differs(ImplSignals(c, y, false), c.implPos, SpecSignals(c, y), c.specPos, k)
  {
    hide CircuitsOk, ImplSignals, SpecSignals, Differs, Triggered, InRange;
    assert Place(k, l.max1) - l.max1 == k && l.max1 <= Place(k, l.max1) < l.max2;
    assert Place(k, l.max2) - l.max2 == k && l.max2 <= Place(k, l.max2) < l.en0;
  }

  lemma BuiltSwitches(c: Circuits, l: Layout, x: Vec, y: Vec, noIn0: bool, noIn1: bool)
    requires CircuitsOk(c) && LayoutOk(c, l)
    ensures (l.en0 in Built(c, l, x, y, noIn0, noIn1) <==> noIn0)
      && (l.en1 in Built(c, l, x, y, noIn0, noIn1) <==> noIn1)
  {
    hide CircuitsOk, ImplSignals, SpecSignals, Differs, Triggered, InRange;
  }

  lemma BuiltOutputs(c: Circuits, l: Layout, d: Design, x: Vec, y: Vec, noIn0: bool, noIn1: bool)
    requires CircuitsOk(c) && LayoutOk(c, l) && Describes(d, c) && x in d.inputs && y in d.inputs
    requires d.Wants(x, false) && d.Wants(y, true)
    ensures OutputsHold(Built(c, l, x, y, noIn0, noIn1), c, l.max1, l.max2)
  {
    hide Built, BuiltAt, ImplSignals, SpecSignals, CopyIs, Marked, SomeMarked, AllSame;
    var tau, n := Built(c, l, x, y, noIn0, noIn1), c.impl.n;
    BuiltCopies(c, l, x, y, noIn0, noIn1);
    BuiltMarks(c, l, x, y, noIn0, noIn1);
    DifferencesMarked(tau, c, ImplSignals(c, x, true), n, SpecSignals(c, x), Spec0(c), l.max1);
    DifferencesMarked(tau, c, ImplSignals(c, y, false), 2 * n, SpecSignals(c, y), Spec1(c), l.max2);
    CopyValues(tau, n, 0, ImplSignals(c, x, false), c.implPos);
    CopyValues(tau, n, n, ImplSignals(c, x, true), c.implPos);
    CopyValues(tau, n, 2 * n, ImplSignals(c, y, false), c.implPos);
    CopyValues(tau, n, 3 * n, ImplSignals(c, y, true), c.implPos);
    CopyValues(tau, c.spec.n, Spec0(c), SpecSignals(c, x), c.specPos);
    CopyValues(tau, c.spec.n, Spec1(c), SpecSignals(c, y), c.specPos);
    SameValues(tau, c.implPos, 0, c.specPos, Spec0(c));
    SameValues(tau, c.implPos, 3 * n, c.specPos, Spec1(c));
    MarkedValues(tau, c.implPos, n, c.specPos, Spec0(c), l.max1);
    MarkedValues(tau, c.implPos, 2 * n, c.specPos, Spec1(c), l.max2);
  }

  lemma BuiltTriggers(c: Circuits, l: Layout, x: Vec, y: Vec, noIn0: bool, noIn1: bool)
    requires CircuitsOk(c) && LayoutOk(c, l)
    ensures forall k :: 0 <= k < |l.eq| ==> (l.eq[k] in Built(c, l, x, y, noIn0, noIn1) <==>
      ((c.cands[k] in ImplSignals(c, x, false)) == (c.cands[k] in ImplSignals(c, y, false))))
    ensures TriggersHold(Built(c, l, x, y, noIn0, noIn1), c, l.eq, |c.cands|)
  {
    hide ImplSignals, SpecSignals;
    var tau, n := Built(c, l, x, y, noIn0, noIn1), c.impl.n;
    BuiltCopies(c, l, x, y, noIn0, noIn1);
    forall k | 0 <= k < |l.eq| ensures l.eq[k] in tau <==>
      ((c.cands[k] in ImplSignals(c, x, false)) == (c.cands[k] in ImplSignals(c, y, false)))
    {
      TriggerAt(c, l, x, y, k);
    }
    forall k | 0 <= k < |l.eq| && l.eq[k] in tau ensures Same(tau, Place(c.cands[k], 0), Place(c.cands[k], 2 * n))
    {
      assert c.cands[k] in Copy(tau, 0) <==> c.cands[k] in ImplSignals(c, x, false);
      assert c.cands[k] in Copy(tau, 2 * n) <==> c.cands[k] in ImplSignals(c, y, false);
    }
  }

  lemma TriggerAt(c: Circuits, l: Layout, x: Vec, y: Vec, k: nat)
    requires CircuitsOk(c) && LayoutOk(c, l) && k < |l.eq|
    ensures Triggered(c, l, x, y, l.eq[k]) <==>
      ((c.cands[k] in ImplSignals(c, x, false)) == (c.cands[k] in ImplSignals(c, y, false)))
  {
    hide ImplSignals, CircuitsOk;
    if Triggered(c, l, x, y, l.eq[k]) {
      var j :| 0 <= j < |l.eq| && j < |c.cands| && l.eq[j] == l.eq[k]
        && ((c.cands[j] in ImplSignals(c, x, false)) == (c.cands[j] in ImplSignals(c, y, false)));
      assert j == k;
    }
  }

  // A pair of vectors that answers the query makes a model.
  lemma PairIsAnswer(c: Circuits, l: Layout, d: Design, x: Vec, y: Vec, equal: set<nat>, in0: seq<Vec>, in1: seq<Vec>,
      noIn0: bool, noIn1: bool)
    requires CircuitsOk(c) && LayoutOk(c, l) && Describes(d, c) && x in d.inputs && y in d.inputs
    requires Query(d, x, y, equal, in0, in1, noIn0, noIn1)
    ensures Answer(Built(c, l, x, y, noIn0, noIn1), c, l, equal, in0, in1, noIn0, noIn1)
  {
    hide Built, ImplSignals, SpecSignals, NetsHold, TargetsHold, InputsHold, OutputsHold, TriggersHold, CopyIs;
    var tau, n := Built(c, l, x, y, noIn0, noIn1), c.impl.n;
    BuiltCopies(c, l, x, y, noIn0, noIn1);
    BuiltNets(tau, c, x, y);
    BuiltInputs(tau, c, x, y);
    BuiltOutputs(c, l, d, x, y, noIn0, noIn1);
    BuiltTriggers(c, l, x, y, noIn0, noIn1);
    BuiltMarks(c, l, x, y, noIn0, noIn1);
    CopyValues(tau, n, 0, ImplSignals(c, x, false), c.cands);
    CopyValues(tau, n, 2 * n, ImplSignals(c, y, false), c.cands);
    assert d.signals(x) == Values(Copy(tau, 0), c.cands) && d.signals(y) == Values(Copy(tau, 2 * n), c.cands);
    forall k | k in equal && k < |l.eq| ensures l.eq[k] in tau
    {
      AgreeAt(d, x, y, equal, k);
    }
  }

  lemma AgreeAt(d: Design, x: Vec, y: Vec, equal: set<nat>, k: nat)
    requires d.Agree(x, y, equal) && k in equal && k < |d.signals(x)| && k < |d.signals(y)|
    ensures d.signals(x)[k] == d.signals(y)[k]
  {
  }

  // The formula with the blocked cases has a model under the assumptions exactly if
  // there is a pair of input vectors that answers the query.
  lemma QueryAnswered(c: Circuits, l: Layout, d: Design, equal: set<nat>, in0: seq<Vec>, in1: seq<Vec>, noIn0: bool,
      noIn1: bool)
    requires CircuitsOk(c) && LayoutOk(c, l) && Describes(d, c)
    ensures (exists tau :: Answer(tau, c, l, equal, in0, in1, noIn0, noIn1)) <==>
      exists x, y :: x in d.inputs && y in d.inputs && Query(d, x, y, equal, in0, in1, noIn0, noIn1)
  {
    hide CircuitsOk, LayoutOk, Describes, Query, Answer;
    if tau :| Answer(tau, c, l, equal, in0, in1, noIn0, noIn1) {
      AnswerIsPair(tau, c, l, d, equal, in0, in1, noIn0, noIn1);
    }
    if x, y :| x in d.inputs && y in d.inputs && Query(d, x, y, equal, in0, in1, noIn0, noIn1) {
      PairIsAnswer(c, l, d, x, y, equal, in0, in1, noIn0, noIn1);
    }
  }
}
