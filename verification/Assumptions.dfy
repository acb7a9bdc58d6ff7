// Solving under assumptions: decisions up to the number of assumptions are the
// assumptions themselves, and a conflict with one of them is explained by others.
module Assumptions {
  import opened SolverTypes
  import opened Assignments
  import opened Watches
  import opened ConflictAnalysis
  import opened SolverInvariant

  // Level k + 1 was opened for assumption k, which holds there or below.
  ghost predicate AssumptionsOk(asms: seq<Lit>, a: Assignment)
  {
    && (forall k :: 0 <= k < |asms| && k < |a.lim| ==> a.TrueBy(asms[k], k + 1))
    && (forall i :: 0 <= i < |a.trail| ==> DecisionOk(asms, a, i))
  }

  ghost predicate DecisionOk(asms: seq<Lit>, a: Assignment, i: nat)
    requires i < |a.trail|
  {
    var k := a.Lev(a.trail[i].v);
    a.Why(a.trail[i].v).None? && 0 < k <= |asms| ==> a.trail[i] == asms[k - 1]
  }

  lemma AssumptionsNone(asms: seq<Lit>, f: set<seq<Lit>>, ca: ClauseDb, ws: WatchLists, wb: WatchLists, dw: set<Lit>,
      db: set<Lit>, a: Assignment)
    requires Consistent(f, ca, ws, wb, dw, db, a) && |a.lim| == 0
    ensures AssumptionsOk(asms, a)
  {
    forall i | 0 <= i < |a.trail| ensures DecisionOk(asms, a, i)
    {
      LevelBounds(a, a.trail[i].v);
    }
  }

  lemma AssumptionsContinue(asms: seq<Lit>, f: set<seq<Lit>>, ca: ClauseDb, ws: WatchLists, wb: WatchLists,
      dw: set<Lit>, db: set<Lit>, a: Assignment, b: Assignment)
    requires Consistent(f, ca, ws, wb, dw, db, a) && AssumptionsOk(asms, a) && Continues(a, b)
    ensures AssumptionsOk(asms, b)
  {
    forall k | 0 <= k < |asms| && k < |b.lim| ensures b.TrueBy(asms[k], k + 1)
    {
      assert a.TrueBy(asms[k], k + 1);
      OnTrail(a, asms[k]);
    }
    forall i | 0 <= i < |b.trail| ensures DecisionOk(asms, b, i)
    {
      if i < |a.trail| {
        assert b.trail[i] == a.trail[i] && DecisionOk(asms, a, i);
      }
    }
  }

  lemma AssumptionsCut(asms: seq<Lit>, f: set<seq<Lit>>, ca: ClauseDb, ws: WatchLists, wb: WatchLists, dw: set<Lit>,
      db: set<Lit>, a: Assignment, b: Assignment, k: nat)
    requires Consistent(f, ca, ws, wb, dw, db, a) && AssumptionsOk(asms, a) && k < |a.lim| && CutTo(a, b, k)
    ensures AssumptionsOk(asms, b)
  {
    CutVals(a, b, k);
    forall j | 0 <= j < |asms| && j < |b.lim| ensures b.TrueBy(asms[j], j + 1)
    {
      assert a.TrueBy(asms[j], j + 1);
    }
    forall i | 0 <= i < |b.trail| ensures DecisionOk(asms, b, i)
    {
      assert b.trail[i] == a.trail[i] && DecisionOk(asms, a, i);
    }
  }

  // The same assignment, except that clauses are referred to differently.
  ghost predicate SameButReasons(a: Assignment, b: Assignment)
  {
    && b.assigns == a.assigns && b.trail == a.trail && b.lim == a.lim && b.pos == a.pos
    && |b.vardata| == |a.vardata| && (forall v :: 0 <= v < |a.vardata| ==> b.vardata[v].level == a.vardata[v].level)
    && forall l :: l in a.trail ==> (b.Why(l.v).None? <==> a.Why(l.v).None?)
  }

  lemma AssumptionsSame(asms: seq<Lit>, a: Assignment, b: Assignment)
    requires AssumptionsOk(asms, a) && SameButReasons(a, b)
    ensures AssumptionsOk(asms, b)
  {
    forall v ensures b.Lev(v) == a.Lev(v)
    {
    }
    forall k | 0 <= k < |asms| && k < |b.lim| ensures b.TrueBy(asms[k], k + 1)
    {
      assert a.TrueBy(asms[k], k + 1);
    }
    forall i | 0 <= i < |b.trail| ensures DecisionOk(asms, b, i)
    {
      assert DecisionOk(asms, a, i) && a.trail[i] in a.trail;
    }
  }

  // Opening a level whose assumption already holds.
  lemma AssumptionsDummy(asms: seq<Lit>, a: Assignment)
    requires AssumptionsOk(asms, a) && TrailOk(a)
    requires |a.lim| < |asms| ==> a.Val(asms[|a.lim|]) == LTrue
    ensures AssumptionsOk(asms, Opened(a))
  {
    var b := Opened(a);
    forall k | 0 <= k < |asms| && k < |b.lim| ensures b.TrueBy(asms[k], k + 1)
    {
      if k < |a.lim| {
        assert a.TrueBy(asms[k], k + 1);
      } else {
        LevelBounds(a, asms[k].v);
      }
    }
    forall i | 0 <= i < |b.trail| ensures DecisionOk(asms, b, i)
    {
      assert DecisionOk(asms, a, i);
    }
  }

  // Opening a level with its assumption, or with a free decision above them all.
  lemma AssumptionsDecide(asms: seq<Lit>, a: Assignment, p: Lit)
    requires AssumptionsOk(asms, a) && TrailOk(a) && p.v < |a.assigns| && a.Val(p) == LUndef
    requires |a.lim| < |asms| ==> p == asms[|a.lim|]
    ensures TrailOk(Opened(a))
    ensures AssumptionsOk(asms, Enqueued(Opened(a), p, None))
  {
    hide TrailOk, LevelOk;
    OpenTrail(a);
    var b := Opened(a);
    var c := Enqueued(b, p, None);
    EnqueueVals(b, p, None);
    forall k | 0 <= k < |asms| && k < |c.lim| ensures c.TrueBy(asms[k], k + 1)
    {
      if k < |a.lim| {
        assert a.TrueBy(asms[k], k + 1);
        assert b.TrueBy(asms[k], k + 1);
      }
    }
    forall i | 0 <= i < |c.trail| ensures DecisionOk(asms, c, i)
    {
      if i < |a.trail| {
        TrailTrue(a, i);
        assert c.trail[i] == a.trail[i] && DecisionOk(asms, a, i);
      }
    }
  }

  lemma TrailTrue(a: Assignment, i: nat)
    requires TrailOk(a) && i < |a.trail|
    ensures a.Val(a.trail[i]) == LTrue
  {
  }

  lemma OpenTrail(a: Assignment)
    requires TrailOk(a)
    ensures TrailOk(Opened(a)) && |a.assigns| == |a.vardata| == |a.pos|
  {
    forall i | 0 <= i < |a.trail| ensures LevelOk(Opened(a), i)
    {
      assert LevelOk(a, i);
    }
  }

  // A propagated literal, or a fact at level 0.
  lemma AssumptionsImplied(asms: seq<Lit>, a: Assignment, p: Lit, from: Option<CRef>)
    requires AssumptionsOk(asms, a) && TrailOk(a) && p.v < |a.assigns| && a.Val(p) == LUndef
    requires from.None? ==> |a.lim| == 0
    ensures AssumptionsOk(asms, Enqueued(a, p, from))
  {
    var c := Enqueued(a, p, from);
    EnqueueVals(a, p, from);
    forall k | 0 <= k < |asms| && k < |c.lim| ensures c.TrueBy(asms[k], k + 1)
    {
      assert a.TrueBy(asms[k], k + 1);
    }
    forall i | 0 <= i < |c.trail| ensures DecisionOk(asms, c, i)
    {
      if i < |a.trail| {
        assert c.trail[i] == a.trail[i] && DecisionOk(asms, a, i) && a.Val(a.trail[i]) == LTrue;
      }
    }
  }

  // ---- The final conflict ----

  // While walking down to trail position `end`: the marked variables lie below,
  // or are the variable of the refuted assumption.
  ghost predicate Explaining(f: set<seq<Lit>>, a: Assignment, asms: seq<Lit>, seen: seq<bool>, out: seq<Lit>, p: Lit,
      end: nat)
  {
    && |seen| == |a.assigns| && RefutedBut(f, a, seen, out)
    && (forall v :: 0 <= v < |seen| && seen[v] ==>
      v == p.v || (a.assigns[v] != LUndef && a.Lev(v) > 0 && a.Pos(v) < end))
    && (a.Val(p) == LTrue && (a.Lev(p.v) > 0 && a.Pos(p.v) >= end ==> p.v < |seen| && !seen[p.v]))
    && (forall l :: l in out ==> Neg(l) in asms)
  }

  lemma ExplainStart(f: set<seq<Lit>>, a: Assignment, asms: seq<Lit>, seen: seq<bool>, p: Lit)
    requires TrailOk(a) && a.Val(p) == LTrue && Neg(p) in asms
    requires |seen| == |a.assigns| && forall v :: 0 <= v < |seen| ==> !seen[v]
    ensures Explaining(f, a, asms, seen[p.v := true], [p], p, |a.trail|)
  {
    var marks := seen[p.v := true];
    forall tau | HoldsF(tau, f) ensures HoldsC(tau, [p]) || DisagreesOn(tau, a, marks)
    {
      TrueMeansAgree(tau, a, p);
      if HoldsL(tau, p) {
        assert p in [p];
      } else {
        assert marks[p.v] && !Agrees(tau, a, p.v);
      }
    }
  }

  lemma ExplainSkip(f: set<seq<Lit>>, a: Assignment, asms: seq<Lit>, seen: seq<bool>, out: seq<Lit>, p: Lit, i: nat)
    requires TrailOk(a) && i < |a.trail| && a.Lev(a.trail[i].v) > 0
    requires Explaining(f, a, asms, seen, out, p, i + 1) && !seen[a.trail[i].v]
    ensures Explaining(f, a, asms, seen, out, p, i)
  {
    forall v | 0 <= v < |seen| && seen[v] && v != p.v ensures a.Pos(v) < i
    {
      assert a.trail[a.Pos(v)].v == v;
    }
    assert a.trail[a.Pos(p.v)].v == p.v;
  }

  lemma ExplainDecision(f: set<seq<Lit>>, ca: ClauseDb, ws: WatchLists, wb: WatchLists, dw: set<Lit>, db: set<Lit>,
      a: Assignment, asms: seq<Lit>, seen: seq<bool>, out: seq<Lit>, p: Lit, i: nat)
    requires Consistent(f, ca, ws, wb, dw, db, a) && AssumptionsOk(asms, a) && |a.lim| <= |asms|
    requires i < |a.trail| && a.Lev(a.trail[i].v) > 0 && a.Why(a.trail[i].v).None?
    requires Explaining(f, a, asms, seen, out, p, i + 1)
    ensures a.trail[i].v < |seen|
    ensures Explaining(f, a, asms, seen[a.trail[i].v := false], out + [Neg(a.trail[i])], p, i)
  {
    var x := a.trail[i];
    assert a.Val(x) == LTrue && a.Pos(x.v) == i;
    LevelBounds(a, x.v);
    assert DecisionOk(asms, a, i);
    Unmark(f, a, seen, out, x);
    var marks := seen[x.v := false];
    forall v | 0 <= v < |marks| && marks[v] && v != p.v ensures a.Pos(v) < i
    {
      assert a.trail[a.Pos(v)].v == v;
    }
    OnTrail(a, p);
    assert Neg(Neg(x)) == x && x in asms;
  }

  lemma ExplainReason(f: set<seq<Lit>>, ca: ClauseDb, ws: WatchLists, wb: WatchLists, dw: set<Lit>, db: set<Lit>,
      a: Assignment, asms: seq<Lit>, seen: seq<bool>, after: seq<bool>, out: seq<Lit>, p: Lit, i: nat, cr: CRef)
    requires Consistent(f, ca, ws, wb, dw, db, a)
    requires i < |a.trail| && a.Lev(a.trail[i].v) > 0 && a.Why(a.trail[i].v) == Some(cr) && cr in ca
    requires Explaining(f, a, asms, seen, out, p, i + 1) && |after| == |seen|
    requires a.trail[i].v < |seen| && !after[a.trail[i].v]
    requires forall v :: 0 <= v < |seen| && v != a.trail[i].v ==>
      (after[v] <==> seen[v] || (a.Lev(v) > 0 && HasVar(ca[cr].lits, v)))
    ensures Explaining(f, a, asms, after, out, p, i)
  {
    hide LongOk, BinOk, WellFormedDb, SemUp, LevelOk, ReasonOk;
    var x := a.trail[i];
    assert a.Val(x) == LTrue && a.Pos(x.v) == i;
    ReasonFacts(f, ca, ws, wb, dw, db, a, x.v);
    assert x == TrailLit(a, x.v);
    Unmark(f, a, seen, out, x);
    forall q | q in ca[cr].lits && Some(q) != Some(x)
      ensures a.Val(q) == LFalse && a.Pos(q.v) < i && (a.Lev(q.v) == 0 || (q.v < |after| && after[q.v]))
    {
      assert HasVar(ca[cr].lits, q.v);
    }
    Resolve(f, ca, a, cr, Some(x), out, seen[x.v := false], after);
    ExplainMarks(f, a, asms, seen, after, out, p, i, ca[cr].lits);
  }

  // The marks after scanning the reason `c` of the literal at position `i`.
  lemma ExplainMarks(f: set<seq<Lit>>, a: Assignment, asms: seq<Lit>, seen: seq<bool>, after: seq<bool>, out: seq<Lit>,
      p: Lit, i: nat, c: seq<Lit>)
    requires TrailOk(a) && i < |a.trail| && Explaining(f, a, asms, seen, out, p, i + 1) && |after| == |seen|
    requires a.trail[i].v < |seen| && !after[a.trail[i].v]
    requires forall v :: 0 <= v < |seen| && v != a.trail[i].v ==>
      (after[v] <==> seen[v] || (a.Lev(v) > 0 && HasVar(c, v)))
    requires forall q :: q in c && q != a.trail[i] ==> a.Val(q) == LFalse && a.Pos(q.v) < i
    ensures forall v ::
      0 <= v < |after| && after[v] ==> v == p.v || (a.assigns[v] != LUndef && a.Lev(v) > 0 && a.Pos(v) < i)
    ensures a.Val(p) == LTrue && (a.Lev(p.v) > 0 && a.Pos(p.v) >= i ==> p.v < |after| && !after[p.v])
  {
    hide RefutedBut, LevelOk;
    forall v | 0 <= v < |after| && after[v] && v != p.v ensures a.assigns[v] != LUndef && a.Lev(v) > 0 && a.Pos(v) < i
    {
      if seen[v] {
        assert a.trail[a.Pos(v)].v == v;
      }
    }
    OnTrail(a, p);
    if a.Lev(p.v) > 0 && a.Pos(p.v) >= i && p.v != a.trail[i].v {
      assert a.trail[a.Pos(p.v)].v == p.v;
      assert !seen[p.v];
    }
  }

  // The walk is over: the collected clause is entailed.
  lemma ExplainDone(f: set<seq<Lit>>, ca: ClauseDb, ws: WatchLists, wb: WatchLists, dw: set<Lit>, db: set<Lit>,
      a: Assignment, asms: seq<Lit>, seen: seq<bool>, out: seq<Lit>, p: Lit, end: nat)
    requires Consistent(f, ca, ws, wb, dw, db, a) && end <= a.RootEnd()
    requires Explaining(f, a, asms, seen, out, p, end)
    ensures Entails(f, out) && forall l :: l in out ==> Neg(l) in asms
    ensures forall v :: 0 <= v < |seen| && v != p.v ==> !seen[v]
  {
    forall v | 0 <= v < |seen| && seen[v] ensures v == p.v && a.Lev(v) == 0
    {
      if a.assigns[v] != LUndef && a.Lev(v) > 0 {
        LevelBounds(a, v);
      }
    }
    forall tau | HoldsF(tau, f) ensures HoldsC(tau, out)
    {
      if DisagreesOn(tau, a, seen) {
        assert RootHolds(tau, a);
        var v :| 0 <= v < |seen| && seen[v] && !Agrees(tau, a, v);
        ValNeg(a, p);
        RootFalse(tau, a, Neg(p));
        TrueMeansAgree(tau, a, p);
      }
    }
  }

  // A true literal at level 0 follows from the formula.
  lemma RootEntailed(f: set<seq<Lit>>, ca: ClauseDb, ws: WatchLists, wb: WatchLists, dw: set<Lit>, db: set<Lit>,
      a: Assignment, p: Lit)
    requires Consistent(f, ca, ws, wb, dw, db, a) && |a.lim| == 0 && a.Val(p) == LTrue
    ensures Entails(f, [p])
  {
    forall tau | HoldsF(tau, f) ensures HoldsC(tau, [p])
    {
      assert RootHolds(tau, a);
      OnTrail(a, p);
      assert HoldsL(tau, a.trail[a.Pos(p.v)]);
      assert p in [p];
    }
  }

  lemma AboveRoot(f: set<seq<Lit>>, ca: ClauseDb, ws: WatchLists, wb: WatchLists, dw: set<Lit>, db: set<Lit>,
      a: Assignment, i: nat)
    requires Consistent(f, ca, ws, wb, dw, db, a) && |a.lim| > 0 && a.lim[0] <= i < |a.trail|
    ensures a.Lev(a.trail[i].v) > 0 && a.trail[i].v < |a.assigns| && a.assigns[a.trail[i].v] != LUndef
  {
    assert a.Val(a.trail[i]) == LTrue && a.Pos(a.trail[i].v) == i;
    LevelBounds(a, a.trail[i].v);
  }

  lemma ReasonShape(f: set<seq<Lit>>, ca: ClauseDb, ws: WatchLists, wb: WatchLists, dw: set<Lit>, db: set<Lit>,
      a: Assignment, v: nat, cr: CRef)
    requires Consistent(f, ca, ws, wb, dw, db, a)
    requires v < |a.assigns| && a.assigns[v] != LUndef && a.Lev(v) > 0 && a.Why(v) == Some(cr)
    ensures cr in ca && |ca[cr].lits| >= 2 && VarsBelow(ca[cr].lits, |a.assigns|)
    ensures |ca[cr].lits| > 2 ==> ca[cr].lits[0].v == v
  {
    ReasonFacts(f, ca, ws, wb, dw, db, a, v);
  }

  lemma HasVarAppend(c: seq<Lit>, x: Lit, v: nat)
    ensures HasVar(c + [x], v) <==> HasVar(c, v) || v == x.v
  {
    if HasVar(c, v) {
      var l :| l in c && l.v == v;
      assert l in c + [x];
    }
    if v == x.v {
      assert x in c + [x];
    }
  }

  // Once every assumption has its level, all of them hold.
  lemma AssumptionsHold(asms: seq<Lit>, f: set<seq<Lit>>, ca: ClauseDb, ws: WatchLists, wb: WatchLists, dw: set<Lit>,
      db: set<Lit>, a: Assignment, tau: Model)
    requires Consistent(f, ca, ws, wb, dw, db, a) && AssumptionsOk(asms, a) && |asms| <= |a.lim|
    requires forall v: nat :: v in tau <==> v < |a.assigns| && a.assigns[v] == LTrue
    ensures forall l :: l in asms ==> HoldsL(tau, l)
  {
    forall l | l in asms ensures HoldsL(tau, l)
    {
      var k :| 0 <= k < |asms| && asms[k] == l;
      assert a.TrueBy(asms[k], k + 1);
    }
  }
}
