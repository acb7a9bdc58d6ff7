// Building formulas: netlists, equalities and inequalities between signals, and
// equalities under a flag.
module SolverInterfacing {
  import opened SolverTypes
  import opened CircuitCnf

  lemma HoldsAdded(tau: Model, f: set<seq<Lit>>, c: seq<Lit>)
    ensures HoldsF(tau, f + {c}) <==> HoldsF(tau, f) && HoldsC(tau, c)
  {
    hide HoldsC;
    assert forall d :: d in f + {c} <==> d in f || d == c;
  }

  lemma HoldsUnion(tau: Model, f: set<seq<Lit>>, g: set<seq<Lit>>)
    ensures HoldsF(tau, f + g) <==> HoldsF(tau, f) && HoldsF(tau, g)
  {
    hide HoldsC;
  }

  // Signal `i` and signal `j` have the same value.
  ghost predicate Same(tau: Model, i: nat, j: nat)
  {
    i in tau <==> j in tau
  }

  ghost predicate AllSame(tau: Model, v: seq<nat>, w: seq<nat>, k: nat)
    requires k <= |v| && k <= |w|
  {
    forall i :: 0 <= i < k ==> Same(tau, v[i], w[i])
  }

  // Auxiliary `max + i` is true exactly if the signals at `i` differ.
  ghost predicate Marked(tau: Model, v: seq<nat>, w: seq<nat>, max: nat, k: nat)
    requires k <= |v| && k <= |w|
  {
    forall i :: 0 <= i < k ==> (Place(i, max) in tau <==> !Same(tau, v[i], w[i]))
  }

  ghost predicate SomeMarked(tau: Model, max: nat, k: nat)
  {
    exists i: nat :: i < k && Place(i, max) in tau
  }

  // The formula built so far, over the variables made so far.
  class GInterface {
    var nVars: nat
    var clauses: set<seq<Lit>>

    // Every literal has its variable.
    ghost predicate Valid()
      reads this
    {
      forall c :: c in clauses ==> VarsBelow(c, nVars)
    }

    constructor ()
      ensures Valid() && nVars == 0 && clauses == {}
    {
      nVars, clauses := 0, {};
    }

    // The literal of a variable, which is made if there is none yet.
    method GenLit(x: nat, b: bool) returns (l: Lit)
      requires Valid()
      modifies this`nVars
      ensures Valid() && l == SigLit(x, b) && nVars == if x >= old(nVars) then x + 1 else old(nVars)
    {
      while x >= nVars
        invariant nVars == old(nVars) || (nVars <= x + 1 && old(nVars) <= nVars)
        decreases x + 1 - nVars
      {
        nVars := nVars + 1;
      }
      l := SigLit(x, b);
    }

    method AddClause(c: seq<Lit>)
      requires Valid() && VarsBelow(c, nVars)
      modifies this`clauses
      ensures Valid() && clauses == old(clauses) + {c}
      ensures forall tau :: HoldsF(tau, clauses) <==> HoldsF(tau, old(clauses)) && HoldsC(tau, c)
    {
      ghost var f := clauses;
      clauses := clauses + {c};
      forall tau ensures HoldsF(tau, clauses) <==> HoldsF(tau, f) && HoldsC(tau, c)
      {
        HoldsAdded(tau, f, c);
      }
    }

    // Adds the clauses of a copy of the netlist.
    method AddCNF(net: Netlist, offset: nat)
      requires Valid()
      modifies this
      ensures Valid() && clauses == old(clauses) + NetClauses(net, offset) && old(nVars) <= nVars
      ensures forall g :: g in net.gates ==> g.out + offset < nVars
      ensures forall tau :: HoldsF(tau, clauses) <==> HoldsF(tau, old(clauses)) && HoldsF(tau, NetClauses(net, offset))
    {
      hide HoldsF, GateClauses, HoldsC, VarsBelow;
      ghost var f := clauses;
      assert NetClauses(Netlist([], net.n, net.rank), offset) == {};
      for i := 0 to |net.gates|
        invariant Valid() && old(nVars) <= nVars
        invariant clauses == f + NetClauses(Netlist(net.gates[..i], net.n, net.rank), offset)
        invariant forall k :: 0 <= k < i ==> net.gates[k].out + offset < nVars
      {
        AddGate(net.gates[i], offset);
        NetClausesStep(net, offset, i);
      }
      assert Netlist(net.gates[..|net.gates|], net.n, net.rank) == net;
      forall tau ensures HoldsF(tau, clauses) <==> HoldsF(tau, f) && HoldsF(tau, NetClauses(net, offset))
      {
        HoldsUnion(tau, f, NetClauses(net, offset));
      }
    }

    // Adds the clauses of one gate.
    method AddGate(g: Gate, offset: nat)
      requires Valid()
      modifies this
      ensures Valid() && clauses == old(clauses) + (set c | c in GateClauses(g, offset))
      ensures old(nVars) <= nVars && g.out + offset < nVars
    {
      hide GateClauses, HoldsF, HoldsC;
      OutInClause(g, offset);
      ghost var before := clauses;
      var cs := GateClauses(g, offset);
      for k := 0 to |cs|
        invariant Valid() && old(nVars) <= nVars && (k > 0 ==> g.out + offset < nVars)
        invariant clauses == before + (set c | c in cs[..k])
      {
        assert cs[..k + 1] == cs[..k] + [cs[k]];
        AllocateClause(cs[k]);
        AddClause(cs[k]);
      }
      assert cs[..|cs|] == cs;
    }

    // Makes the variables of the literals.
    method AllocateClause(c: seq<Lit>)
      requires Valid()
      modifies this`nVars
      ensures Valid() && old(nVars) <= nVars && VarsBelow(c, nVars)
    {
      for i := 0 to |c|
        invariant Valid() && old(nVars) <= nVars && forall k :: 0 <= k < i ==> c[k].v < nVars
      {
        var l := GenLit(c[i].v, !c[i].s);
      }
    }

    // Two signals are equal.
    method SetEqual(a: nat, b: nat)
      requires Valid()
      modifies this
      ensures Valid()
      ensures forall tau :: HoldsF(tau, clauses) <==> HoldsF(tau, old(clauses)) && Same(tau, a, b)
      ensures old(nVars) <= nVars && (a != b ==> a < nVars && b < nVars)
      ensures a < old(nVars) && b < old(nVars) ==> nVars == old(nVars)
    {
      hide HoldsF, HoldsC;
      if a == b {
        return;
      }
      var p := GenLit(a, true);
      var q := GenLit(b, false);
      AddClause([p, q]);
      AddClause([SigLit(b, true), SigLit(a, false)]);
      forall tau ensures HoldsC(tau, [p, q]) && HoldsC(tau, [SigLit(b, true), SigLit(a, false)]) <==> Same(tau, a, b)
      {
        Holds2(tau, p, q);
        Holds2(tau, SigLit(b, true), SigLit(a, false));
      }
    }

    // The signals of two lists are equal in pairs.
    method SetEqualAll(values1: seq<nat>, values2: seq<nat>)
      requires Valid() && |values1| == |values2|
      modifies this
      ensures Valid() && old(nVars) <= nVars
      ensures forall tau :: HoldsF(tau, clauses) <==>
        HoldsF(tau, old(clauses)) && AllSame(tau, values1, values2, |values1|)
      ensures forall i :: 0 <= i < |values1| && values1[i] != values2[i] ==> values1[i] < nVars && values2[i] < nVars
    {
      hide HoldsF, VarsBelow;
      for i := 0 to |values1|
        invariant Valid() && old(nVars) <= nVars
        invariant forall tau :: HoldsF(tau, clauses) <==>
          HoldsF(tau, old(clauses)) && AllSame(tau, values1, values2, i)
        invariant forall k :: 0 <= k < i && values1[k] != values2[k] ==> values1[k] < nVars && values2[k] < nVars
      {
        SetEqual(values1[i], values2[i]);
      }
    }

    // Some pair of signals differs. The auxiliary variables of the pairs are numbered
    // from the variables there were before, even if making the signals' variables
    // goes past that.
    method SetNEqual(values1: seq<nat>, values2: seq<nat>)
      requires Valid() && |values1| == |values2|
      modifies this
      ensures Valid() && old(nVars) + |values1| <= nVars
      ensures InRange(values1, old(nVars)) && InRange(values2, old(nVars)) ==> nVars == old(nVars) + |values1|
      ensures forall tau :: HoldsF(tau, clauses) <==>
        && HoldsF(tau, old(clauses))
        && Marked(tau, values1, values2, old(nVars), |values1|) && SomeMarked(tau, old(nVars), |values1|)
    {
      hide HoldsF, HoldsC, VarsBelow;
      var max := nVars;
      for i := 0 to |values1|
        invariant Valid() && max + i <= nVars
        invariant InRange(values1, max) && InRange(values2, max) ==> nVars == max + i
        invariant forall tau :: HoldsF(tau, clauses) <==>
          HoldsF(tau, old(clauses)) && Marked(tau, values1, values2, max, i)
      {
        MarkDifference(values1[i], values2[i], Place(i, max));
      }
      var tmp: seq<Lit> := [];
      ghost var mid, n := clauses, nVars;
      for i := 0 to |values1|
        invariant Valid() && |tmp| == i && nVars == n && clauses == mid
        invariant forall k :: 0 <= k < i ==> tmp[k] == SigLit(Place(k, max), true)
      {
        var l := GenLit(max + i, true);
        tmp := tmp + [l];
      }
      AuxiliariesBelow(tmp, max, nVars);
      AddClause(tmp);
      forall tau ensures HoldsC(tau, tmp) <==> SomeMarked(tau, max, |values1|)
      {
        SomeMarkedClause(tau, tmp, max);
      }
    }

    // The auxiliary is true exactly if the two signals differ.
    method MarkDifference(a: nat, b: nat, aux: nat)
      requires Valid() && aux <= nVars
      modifies this
      ensures Valid() && old(nVars) <= nVars && aux < nVars
      ensures a < old(nVars) && b < old(nVars) ==> nVars == if aux == old(nVars) then aux + 1 else old(nVars)
      ensures forall tau :: HoldsF(tau, clauses) <==> HoldsF(tau, old(clauses)) && (aux in tau <==> !Same(tau, a, b))
    {
      hide HoldsF, HoldsC;
      var p := GenLit(a, false);
      var q := GenLit(b, false);
      var r := GenLit(aux, false);
      var notA, notB, notR := SigLit(a, true), SigLit(b, true), SigLit(aux, true);
      AddClause([p, q, r]);
      AddClause([p, notB, notR]);
      AddClause([notA, notB, r]);
      AddClause([notA, q, notR]);
      forall tau ensures
        && HoldsC(tau, [p, q, r]) && HoldsC(tau, [p, notB, notR])
        && HoldsC(tau, [notA, notB, r]) && HoldsC(tau, [notA, q, notR])
        <==> (aux in tau <==> !Same(tau, a, b))
      {
        Holds3(tau, p, q, r);
        Holds3(tau, p, notB, notR);
        Holds3(tau, notA, notB, r);
        Holds3(tau, notA, q, notR);
      }
    }

    // If the flag is true, the signals are equal in pairs.
    method IfTrueThenEq(values1: seq<nat>, values2: seq<nat>, flag: nat)
      requires Valid() && |values1| == |values2|
      modifies this
      ensures Valid() && old(nVars) <= nVars && (|values1| > 0 ==> flag < nVars)
      ensures forall i :: 0 <= i < |values1| ==> values1[i] < nVars && values2[i] < nVars
      ensures forall tau :: HoldsF(tau, clauses) <==>
        HoldsF(tau, old(clauses)) && (flag in tau ==> AllSame(tau, values1, values2, |values1|))
    {
      hide HoldsF, VarsBelow;
      for i := 0 to |values1|
        invariant Valid() && old(nVars) <= nVars && (i > 0 ==> flag < nVars)
        invariant forall k :: 0 <= k < i ==> values1[k] < nVars && values2[k] < nVars
        invariant forall tau :: HoldsF(tau, clauses) <==>
          HoldsF(tau, old(clauses)) && (flag in tau ==> AllSame(tau, values1, values2, i))
      {
        SameUnderFlag(values1[i], values2[i], flag);
      }
    }

    method SameUnderFlag(a: nat, b: nat, flag: nat)
      requires Valid()
      modifies this
      ensures Valid() && old(nVars) <= nVars && flag < nVars && a < nVars && b < nVars
      ensures forall tau :: HoldsF(tau, clauses) <==> HoldsF(tau, old(clauses)) && (flag in tau ==> Same(tau, a, b))
    {
      hide HoldsF, HoldsC;
      var p := GenLit(a, true);
      var q := GenLit(b, false);
      var r := GenLit(flag, false);
      AddClause([p, q, r]);
      AddClause([SigLit(a, false), SigLit(b, true), r]);
      forall tau ensures
        && HoldsC(tau, [p, q, r]) && HoldsC(tau, [SigLit(a, false), SigLit(b, true), r])
        <==> (flag in tau ==> Same(tau, a, b))
      {
        Holds3(tau, p, q, r);
        Holds3(tau, SigLit(a, false), SigLit(b, true), r);
      }
    }
  }

  lemma AuxiliariesBelow(c: seq<Lit>, max: nat, n: nat)
    requires max + |c| <= n && forall k :: 0 <= k < |c| ==> c[k] == SigLit(Place(k, max), true)
    ensures VarsBelow(c, n)
  {
  }

  // Signals below `n`.
  ghost predicate InRange(s: seq<nat>, n: nat)
  {
    forall k :: 0 <= k < |s| ==> s[k] < n
  }

  // No signal is the auxiliary of a pair.
  ghost predicate AwayFrom(s: seq<nat>, max: nat, n: nat)
  {
    forall k :: 0 <= k < |s| ==> s[k] < max || s[k] >= max + n
  }

  // The auxiliaries set as the pairs ask for, everything else as in `tau`.
  ghost function WithMarks(tau: Model, v: seq<nat>, w: seq<nat>, max: nat): Model
    requires |v| == |w|
  {
    iset i: nat | if max <= i < max + |v| then !Same(tau, v[i - max], w[i - max]) else i in tau
  }

  // `now` differs from `tau` at most on auxiliaries that are no signals.
  ghost predicate KeepsSignals(now: Model, tau: Model, v: seq<nat>, w: seq<nat>, max: nat)
  {
    forall i: nat :: i in v || i in w || !(max <= i < max + |v|) ==> (i in now <==> i in tau)
  }

  // The auxiliaries can be chosen to satisfy the condition.
  ghost predicate Choosable(tau: Model, v: seq<nat>, w: seq<nat>, max: nat)
    requires |v| == |w|
  {
    exists now :: KeepsSignals(now, tau, v, w, max) && Marked(now, v, w, max, |v|) && SomeMarked(now, max, |v|)
  }

  // Whatever the signals are, the auxiliaries can be chosen exactly if some pair
  // differs. This is so exactly if no signal is an auxiliary, or the lists are equal.
  lemma DifferenceExact(v: seq<nat>, w: seq<nat>, max: nat)
    requires |v| == |w|
    ensures (forall tau :: Choosable(tau, v, w, max) <==> !AllSame(tau, v, w, |v|)) <==>
      (AwayFrom(v, max, |v|) && AwayFrom(w, max, |v|)) || v == w
  {
    hide Choosable, AllSame;
    if (AwayFrom(v, max, |v|) && AwayFrom(w, max, |v|)) || v == w {
      forall tau ensures Choosable(tau, v, w, max) <==> !AllSame(tau, v, w, |v|)
      {
        if Choosable(tau, v, w, max) {
          ChosenDiffer(tau, v, w, max);
        } else if !AllSame(tau, v, w, |v|) {
          NotEqualLists(tau, v, w);
          DifferenceChosen(tau, v, w, max);
        }
      }
    } else {
      var tau := Refused(v, w, max);
    }
  }

  lemma NotEqualLists(tau: Model, v: seq<nat>, w: seq<nat>)
    requires |v| == |w| && !AllSame(tau, v, w, |v|)
    ensures v != w
  {
  }

  // A choice makes some pair differ.
  lemma ChosenDiffer(tau: Model, v: seq<nat>, w: seq<nat>, max: nat)
    requires |v| == |w| && Choosable(tau, v, w, max)
    ensures !AllSame(tau, v, w, |v|)
  {
    hide KeepsSignals, Marked, SomeMarked;
    var now :| KeepsSignals(now, tau, v, w, max) && Marked(now, v, w, max, |v|) && SomeMarked(now, max, |v|);
    MarkedDiffer(now, v, w, max);
    var i: nat :| i < |v| && !Same(now, v[i], w[i]);
    assert v[i] in v && w[i] in w;
    SignalKept(now, tau, v, w, max, v[i]);
    SignalKept(now, tau, v, w, max, w[i]);
  }

  lemma MarkedDiffer(now: Model, v: seq<nat>, w: seq<nat>, max: nat)
    requires |v| == |w| && Marked(now, v, w, max, |v|) && SomeMarked(now, max, |v|)
    ensures exists i: nat :: i < |v| && !Same(now, v[i], w[i])
  {
    hide Same;
    var i: nat :| i < |v| && Place(i, max) in now;
    assert !Same(now, v[i], w[i]);
  }

  lemma SignalKept(now: Model, tau: Model, v: seq<nat>, w: seq<nat>, max: nat, i: nat)
    requires KeepsSignals(now, tau, v, w, max) && (i in v || i in w)
    ensures i in now <==> i in tau
  {
  }

  lemma DifferenceChosen(tau: Model, v: seq<nat>, w: seq<nat>, max: nat)
    requires |v| == |w| && AwayFrom(v, max, |v|) && AwayFrom(w, max, |v|) && !AllSame(tau, v, w, |v|)
    ensures Choosable(tau, v, w, max)
  {
    hide Marked, SomeMarked;
    DifferenceExtends(tau, v, w, max);
    assert KeepsSignals(WithMarks(tau, v, w, max), tau, v, w, max);
  }

  // If no signal is an auxiliary, the marks asked for are a choice.
  lemma DifferenceExtends(tau: Model, v: seq<nat>, w: seq<nat>, max: nat)
    requires |v| == |w| && AwayFrom(v, max, |v|) && AwayFrom(w, max, |v|)
    ensures Marked(WithMarks(tau, v, w, max), v, w, max, |v|)
    ensures SomeMarked(WithMarks(tau, v, w, max), max, |v|) <==> !AllSame(tau, v, w, |v|)
  {
    var now := WithMarks(tau, v, w, max);
    forall i | 0 <= i < |v| ensures Same(now, v[i], w[i]) <==> Same(tau, v[i], w[i])
    {
    }
    forall i | 0 <= i < |v| ensures Place(i, max) in now <==> !Same(tau, v[i], w[i])
    {
      assert Place(i, max) - max == i;
    }
    if !AllSame(tau, v, w, |v|) {
      var i :| 0 <= i < |v| && !Same(tau, v[i], w[i]);
      assert Place(i, max) in now;
    }
  }

  // Otherwise some pair differs in a valuation for which no choice exists: a signal
  // that is the auxiliary of a pair contradicts that pair.
  lemma Refused(v: seq<nat>, w: seq<nat>, max: nat) returns (tau: Model)
    requires |v| == |w| && v != w && !(AwayFrom(v, max, |v|) && AwayFrom(w, max, |v|))
    ensures !AllSame(tau, v, w, |v|) && !Choosable(tau, v, w, max)
  {
    var k :| 0 <= k < |v| && (max <= v[k] < max + |v| || max <= w[k] < max + |v|);
    var s := if max <= v[k] < max + |v| then v[k] else w[k];
    var j := s - max;
    assert s == Place(j, max) && (s in v || s in w);
    if v[j] != w[j] {
      tau := iset{if v[j] != s then v[j] else w[j]};
      assert !Same(tau, v[j], w[j]) && s !in tau;
    } else {
      var p :| 0 <= p < |v| && v[p] != w[p];
      tau := if s == w[p] then iset{s} else iset{s, v[p]};
      assert !Same(tau, v[p], w[p]) && s in tau;
    }
    AuxiliaryContradicts(tau, v, w, max, j);
  }

  lemma AuxiliaryContradicts(tau: Model, v: seq<nat>, w: seq<nat>, max: nat, j: nat)
    requires |v| == |w| && j < |v| && (Place(j, max) in v || Place(j, max) in w)
    requires Place(j, max) in tau <==> Same(tau, v[j], w[j])
    ensures !Choosable(tau, v, w, max)
  {
    hide SomeMarked, KeepsSignals;
    assert v[j] in v && w[j] in w;
    forall now | KeepsSignals(now, tau, v, w, max) ensures !Marked(now, v, w, max, |v|)
    {
      SignalKept(now, tau, v, w, max, v[j]);
      SignalKept(now, tau, v, w, max, w[j]);
      SignalKept(now, tau, v, w, max, Place(j, max));
      assert Place(j, max) in now <==> Same(now, v[j], w[j]);
    }
  }

  lemma SomeMarkedClause(tau: Model, c: seq<Lit>, max: nat)
    requires forall k :: 0 <= k < |c| ==> c[k] == SigLit(Place(k, max), true)
    ensures HoldsC(tau, c) <==> SomeMarked(tau, max, |c|)
  {
    if HoldsC(tau, c) {
      var l :| l in c && HoldsL(tau, l);
      var k :| 0 <= k < |c| && c[k] == l;
      assert Place(k, max) in tau;
    }
    if k: nat :| k < |c| && Place(k, max) in tau {
      assert c[k] in c && HoldsL(tau, c[k]);
    }
  }

  // The output occurs in the first clause of a gate.
  lemma OutInClause(g: Gate, off: nat)
    ensures |GateClauses(g, off)| > 0
    ensures exists l :: l in GateClauses(g, off)[0] && l.v == g.out + off
  {
    var c := GateClauses(g, off)[0];
    match g
    case Constant(o, b) => assert SigLit(o + off, b) in c;
    case Buffer(o, a) => assert SigLit(o + off, true) in c;
    case Inverter(o, a) => assert SigLit(o + off, false) in c;
    case Cube(o, a, b, la, lb, lo) => assert SigLit(o + off, lo) in c;
  }

  lemma NetClausesStep(net: Netlist, off: nat, i: nat)
    requires i < |net.gates|
    ensures NetClauses(Netlist(net.gates[..i + 1], net.n, net.rank), off) ==
      NetClauses(Netlist(net.gates[..i], net.n, net.rank), off) + set c | c in GateClauses(net.gates[i], off)
  {
    hide GateClauses;
    assert net.gates[..i + 1] == net.gates[..i] + [net.gates[i]];
    assert forall g :: g in net.gates[..i + 1] <==> g in net.gates[..i] || g == net.gates[i];
  }
}
