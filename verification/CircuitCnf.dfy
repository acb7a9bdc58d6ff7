// The encoding of acyclic netlists into clauses, and what the clauses say about the
// circuit's signals.
module CircuitCnf {
  import opened SolverTypes

  // A gate drives signal `out`. A cube gate has the value `lo` exactly if its fanins
  // have the values `la` and `lb`.
  datatype Gate =
    | Constant(out: nat, value: bool)
    | Buffer(out: nat, a: nat)
    | Inverter(out: nat, a: nat)
    | Cube(out: nat, a: nat, b: nat, la: bool, lb: bool, lo: bool)

  function Fanins(g: Gate): seq<nat>
  {
    match g
    case Constant(_, _) => []
    case Buffer(_, a) => [a]
    case Inverter(_, a) => [a]
    case Cube(_, a, b, _, _, _) => [a, b]
  }

  // The value a gate gives to its output when the signals have the values `v`.
  ghost function EvalGate(g: Gate, v: Model): bool
  {
    match g
    case Constant(_, b) => b
    case Buffer(_, a) => a in v
    case Inverter(_, a) => a !in v
    case Cube(_, a, b, la, lb, lo) => if (a in v) == la && (b in v) == lb then lo else !lo
  }

  // `n` signals, each driven by at most one gate; `rank` shows that there is no cycle.
  datatype Netlist = Netlist(gates: seq<Gate>, n: nat, rank: seq<nat>)

  ghost predicate NetOk(net: Netlist)
  {
    && |net.rank| == net.n
    && (forall g :: g in net.gates ==> g.out < net.n)
    && (forall g, f :: g in net.gates && f in Fanins(g) ==> f < net.n && net.rank[f] < net.rank[g.out])
    && (forall g, h :: g in net.gates && h in net.gates && g.out == h.out ==> g == h)
    && (forall g :: g in net.gates && g.Cube? ==> g.a != g.b)
  }

  ghost predicate Driven(net: Netlist, i: nat)
  {
    exists g :: g in net.gates && g.out == i
  }

  ghost function Driver(net: Netlist, i: nat): (g: Gate)
    requires Driven(net, i)
    ensures g in net.gates && g.out == i
  {
    var g :| g in net.gates && g.out == i;
    g
  }

  // Simulation: the value of signal `i` when the signals without gate are as in `x`.
  ghost function Sim(net: Netlist, x: Model, i: nat): bool
    requires NetOk(net) && i < net.n
    decreases net.rank[i]
  {
    if !Driven(net, i) then i in x
    else
      match Driver(net, i)
      case Constant(_, b) => b
      case Buffer(_, a) => assert a in Fanins(Driver(net, i)); Sim(net, x, a)
      case Inverter(_, a) => assert a in Fanins(Driver(net, i)); !Sim(net, x, a)
      case Cube(_, a, b, la, lb, lo) =>
        assert a in Fanins(Driver(net, i)) && b in Fanins(Driver(net, i));
        if Sim(net, x, a) == la && Sim(net, x, b) == lb then lo else !lo
  }

  // The values of all signals.
  ghost function Signals(net: Netlist, x: Model): Model
    requires NetOk(net)
  {
    iset i: nat | i < net.n && Sim(net, x, i)
  }

  // Every gate's output has the value the gate gives it.
  ghost predicate Respects(net: Netlist, v: Model)
  {
    forall g :: g in net.gates ==> (g.out in v <==> EvalGate(g, v))
  }

  lemma SimRespects(net: Netlist, x: Model)
    requires NetOk(net)
    ensures Respects(net, Signals(net, x))
  {
    var v := Signals(net, x);
    forall g | g in net.gates ensures g.out in v <==> EvalGate(g, v)
    {
      assert Driven(net, g.out);
      assert Driver(net, g.out) == g;
      assert forall f :: f in Fanins(g) ==> (f in v <==> Sim(net, x, f));
      match g
      case Constant(_, _) =>
      case Buffer(_, a) => assert a in Fanins(g);
      case Inverter(_, a) => assert a in Fanins(g);
      case Cube(_, a, b, _, _, _) => assert a in Fanins(g) && b in Fanins(g);
    }
  }

  // Values that respect all gates are the simulation of the undriven signals.
  lemma {:induction false} RespectsIsSim(net: Netlist, v: Model, i: nat)
    requires NetOk(net) && Respects(net, v) && i < net.n
    ensures i in v <==> Sim(net, v, i)
    decreases net.rank[i]
  {
    if Driven(net, i) {
      var g := Driver(net, i);
      forall f | f in Fanins(g) ensures f in v <==> Sim(net, v, f)
      {
        RespectsIsSim(net, v, f);
      }
      match g
      case Constant(_, _) =>
      case Buffer(_, a) => assert a in Fanins(g);
      case Inverter(_, a) => assert a in Fanins(g);
      case Cube(_, a, b, _, _, _) => assert a in Fanins(g) && b in Fanins(g);
    }
  }

  ghost predicate AgreeUndriven(net: Netlist, x: Model, y: Model)
  {
    forall k: nat :: k < net.n && !Driven(net, k) ==> (k in x <==> k in y)
  }

  // Simulation depends on the undriven signals only.
  lemma {:induction false} SimSame(net: Netlist, x: Model, y: Model, i: nat)
    requires NetOk(net) && i < net.n && AgreeUndriven(net, x, y)
    ensures Sim(net, x, i) == Sim(net, y, i)
    decreases net.rank[i]
  {
    if Driven(net, i) {
      var g := Driver(net, i);
      forall f | f in Fanins(g) ensures Sim(net, x, f) == Sim(net, y, f)
      {
        SimSame(net, x, y, f);
      }
      match g
      case Constant(_, _) =>
      case Buffer(_, a) => assert a in Fanins(g);
      case Inverter(_, a) => assert a in Fanins(g);
      case Cube(_, a, b, _, _, _) => assert a in Fanins(g) && b in Fanins(g);
    }
  }

  // ---- Clauses ----

  // The literal that is true exactly if signal `i` has value `b`.
  function SigLit(i: nat, b: bool): Lit
  {
    Lit(i, !b)
  }

  function GateClauses(g: Gate, off: nat): seq<seq<Lit>>
  {
    match g
    case Constant(o, b) => [[SigLit(o + off, b)]]
    case Buffer(o, a) => [[SigLit(o + off, true), SigLit(a + off, false)],
      [SigLit(o + off, false), SigLit(a + off, true)]]
    case Inverter(o, a) => [[SigLit(o + off, false), SigLit(a + off, false)],
      [SigLit(o + off, true), SigLit(a + off, true)]]
    case Cube(o, a, b, la, lb, lo) =>
      [[SigLit(a + off, !la), SigLit(b + off, !lb), SigLit(o + off, lo)],
       [SigLit(a + off, la), SigLit(o + off, !lo)],
       [SigLit(b + off, lb), SigLit(o + off, !lo)]]
  }

  ghost function NetClauses(net: Netlist, off: nat): set<seq<Lit>>
  {
    set g, c | g in net.gates && c in GateClauses(g, off) :: c
  }

  function Place(i: nat, off: nat): nat
  {
    i + off
  }

  // The signals of the copy at `off`.
  ghost function Copy(tau: Model, off: nat): Model
  {
    iset i: nat | Place(i, off) in tau
  }

  lemma Holds1(tau: Model, p: Lit)
    ensures HoldsC(tau, [p]) <==> HoldsL(tau, p)
  {
    assert p in [p];
  }

  lemma Holds2(tau: Model, p: Lit, q: Lit)
    ensures HoldsC(tau, [p, q]) <==> HoldsL(tau, p) || HoldsL(tau, q)
  {
    assert p in [p, q] && q in [p, q];
  }

  lemma Holds3(tau: Model, p: Lit, q: Lit, r: Lit)
    ensures HoldsC(tau, [p, q, r]) <==> HoldsL(tau, p) || HoldsL(tau, q) || HoldsL(tau, r)
  {
    assert p in [p, q, r] && q in [p, q, r] && r in [p, q, r];
  }

  // The clauses of a gate hold exactly if its output has the gate's value.
  lemma GateMeaning(tau: Model, g: Gate, off: nat)
    ensures (forall c :: c in GateClauses(g, off) ==> HoldsC(tau, c)) <==>
      (g.out in Copy(tau, off) <==> EvalGate(g, Copy(tau, off)))
  {
    hide *;
    match g
    case Constant(o, b) =>
      ConstantGate(tau, o, b, off);
    case Buffer(o, a) =>
      BufferGate(tau, o, a, off);
    case Inverter(o, a) =>
      InverterGate(tau, o, a, off);
    case Cube(o, a, b, la, lb, lo) =>
      CubeGate(tau, o, a, b, la, lb, lo, off);
  }

  lemma ConstantGate(tau: Model, o: nat, b: bool, off: nat)
    ensures (forall c :: c in GateClauses(Constant(o, b), off) ==> HoldsC(tau, c)) <==>
      (o in Copy(tau, off) <==> EvalGate(Constant(o, b), Copy(tau, off)))
  {
    hide HoldsC;
    var c := [SigLit(o + off, b)];
    assert GateClauses(Constant(o, b), off) == [c] && c in [c];
    Holds1(tau, SigLit(o + off, b));
    SignalLiteral(tau, o, off, b);
  }

  lemma BufferGate(tau: Model, o: nat, a: nat, off: nat)
    ensures (forall c :: c in GateClauses(Buffer(o, a), off) ==> HoldsC(tau, c)) <==>
      (o in Copy(tau, off) <==> EvalGate(Buffer(o, a), Copy(tau, off)))
  {
    hide HoldsC, HoldsL, Copy, SigLit;
    TwoClauses(tau, [SigLit(o + off, true), SigLit(a + off, false)], [SigLit(o + off, false), SigLit(a + off, true)]);
    Holds2(tau, SigLit(o + off, true), SigLit(a + off, false));
    Holds2(tau, SigLit(o + off, false), SigLit(a + off, true));
    SignalLiterals(tau, o, off);
    SignalLiterals(tau, a, off);
  }

  lemma InverterGate(tau: Model, o: nat, a: nat, off: nat)
    ensures (forall c :: c in GateClauses(Inverter(o, a), off) ==> HoldsC(tau, c)) <==>
      (o in Copy(tau, off) <==> EvalGate(Inverter(o, a), Copy(tau, off)))
  {
    hide HoldsC, HoldsL, Copy, SigLit;
    TwoClauses(tau, [SigLit(o + off, false), SigLit(a + off, false)], [SigLit(o + off, true), SigLit(a + off, true)]);
    Holds2(tau, SigLit(o + off, false), SigLit(a + off, false));
    Holds2(tau, SigLit(o + off, true), SigLit(a + off, true));
    SignalLiterals(tau, o, off);
    SignalLiterals(tau, a, off);
  }

  lemma CubeGate(tau: Model, o: nat, a: nat, b: nat, la: bool, lb: bool, lo: bool, off: nat)
    ensures (forall c :: c in GateClauses(Cube(o, a, b, la, lb, lo), off) ==> HoldsC(tau, c)) <==>
      (o in Copy(tau, off) <==> EvalGate(Cube(o, a, b, la, lb, lo), Copy(tau, off)))
  {
    hide HoldsC, HoldsL, Copy, SigLit;
    ThreeClauses(tau, [SigLit(a + off, !la), SigLit(b + off, !lb), SigLit(o + off, lo)],
      [SigLit(a + off, la), SigLit(o + off, !lo)], [SigLit(b + off, lb), SigLit(o + off, !lo)]);
    Holds3(tau, SigLit(a + off, !la), SigLit(b + off, !lb), SigLit(o + off, lo));
    Holds2(tau, SigLit(a + off, la), SigLit(o + off, !lo));
    Holds2(tau, SigLit(b + off, lb), SigLit(o + off, !lo));
    SignalLiterals(tau, o, off);
    SignalLiterals(tau, a, off);
    SignalLiterals(tau, b, off);
  }

  lemma TwoClauses(tau: Model, c: seq<Lit>, d: seq<Lit>)
    ensures (forall e :: e in [c, d] ==> HoldsC(tau, e)) <==> HoldsC(tau, c) && HoldsC(tau, d)
  {
    hide *;
    assert c in [c, d] && d in [c, d];
  }

  lemma ThreeClauses(tau: Model, c: seq<Lit>, d: seq<Lit>, e: seq<Lit>)
    ensures (forall f :: f in [c, d, e] ==> HoldsC(tau, f)) <==> HoldsC(tau, c) && HoldsC(tau, d) && HoldsC(tau, e)
  {
    hide *;
    assert c in [c, d, e] && d in [c, d, e] && e in [c, d, e];
  }

  lemma SignalLiteral(tau: Model, i: nat, off: nat, b: bool)
    ensures HoldsL(tau, SigLit(i + off, b)) <==> (i in Copy(tau, off) <==> b)
  {
    assert Place(i, off) == i + off;
  }

  lemma SignalLiterals(tau: Model, i: nat, off: nat)
    ensures HoldsL(tau, SigLit(i + off, true)) <==> i in Copy(tau, off)
    ensures HoldsL(tau, SigLit(i + off, false)) <==> i !in Copy(tau, off)
  {
    SignalLiteral(tau, i, off, true);
    SignalLiteral(tau, i, off, false);
  }

  // The clauses hold exactly if every signal of the copy has its simulated value.
  lemma NetMeaning(tau: Model, net: Netlist, off: nat)
    requires NetOk(net)
    ensures HoldsF(tau, NetClauses(net, off)) <==>
      forall i: nat :: i < net.n ==> (i in Copy(tau, off) <==> Sim(net, Copy(tau, off), i))
  {
    var v := Copy(tau, off);
    ClausesRespect(tau, net, off);
    if Respects(net, v) {
      forall i: nat | i < net.n ensures i in v <==> Sim(net, v, i)
      {
        RespectsIsSim(net, v, i);
      }
    }
    if forall i: nat :: i < net.n ==> (i in v <==> Sim(net, v, i)) {
      SimRespects(net, v);
      SameSignals(net, v, Signals(net, v));
    }
  }

  lemma SameSignals(net: Netlist, v: Model, w: Model)
    requires NetOk(net) && Respects(net, w) && forall i: nat :: i < net.n ==> (i in v <==> i in w)
    ensures Respects(net, v)
  {
    forall g | g in net.gates ensures g.out in v <==> EvalGate(g, v)
    {
      assert forall f :: f in Fanins(g) ==> (f in v <==> f in w);
      match g
      case Constant(_, _) =>
      case Buffer(_, a) => assert a in Fanins(g);
      case Inverter(_, a) => assert a in Fanins(g);
      case Cube(_, a, b, _, _, _) => assert a in Fanins(g) && b in Fanins(g);
    }
  }

  lemma ClausesRespect(tau: Model, net: Netlist, off: nat)
    ensures HoldsF(tau, NetClauses(net, off)) <==> Respects(net, Copy(tau, off))
  {
    hide HoldsC, GateClauses, EvalGate, Copy;
    forall g | g in net.gates ensures (forall c :: c in GateClauses(g, off) ==> HoldsC(tau, c)) <==>
      (g.out in Copy(tau, off) <==> EvalGate(g, Copy(tau, off)))
    {
      GateMeaning(tau, g, off);
    }
    if HoldsF(tau, NetClauses(net, off)) {
      forall g, c | g in net.gates && c in GateClauses(g, off) ensures HoldsC(tau, c)
      {
        assert c in NetClauses(net, off);
      }
    }
  }

  // Every choice of the undriven signals extends to a satisfying assignment, and
  // all of them have the same signals.
  lemma OneSimulation(net: Netlist, x: Model)
    requires NetOk(net)
    ensures HoldsF(Signals(net, x), NetClauses(net, 0))
    ensures AgreeUndriven(net, Signals(net, x), x)
    ensures forall tau, i: nat ::
      HoldsF(tau, NetClauses(net, 0)) && i < net.n && AgreeUndriven(net, tau, x) ==>
      (i in tau <==> i in Signals(net, x))
  {
    var v := Signals(net, x);
    SimRespects(net, x);
    assert Copy(v, 0) == v;
    ClausesRespect(v, net, 0);
    forall tau, i: nat | HoldsF(tau, NetClauses(net, 0)) && i < net.n && AgreeUndriven(net, tau, x)
      ensures i in tau <==> i in v
    {
      assert Copy(tau, 0) == tau;
      ClausesRespect(tau, net, 0);
      RespectsIsSim(net, tau, i);
      SimSame(net, tau, x, i);
    }
  }
}
