// Adding and deleting clauses in terms of the engine's invariant.
module DatabaseSteps {
  import opened SolverTypes
  import opened Assignments
  import opened Watches
  import opened WatchEdits
  import opened SolverInvariant
  import opened AnalysisSteps

  // The watch lists after attaching clause `cr` to those of its size class.
  function LongAfter(ws: WatchLists, cr: CRef, c: seq<Lit>): WatchLists
    requires |c| >= 2 && Neg(c[0]) in ws && Neg(c[1]) in ws
  {
    if |c| > 2 then Attached(ws, cr, c) else ws
  }

  function BinAfter(wb: WatchLists, cr: CRef, c: seq<Lit>): WatchLists
    requires |c| >= 2 && Neg(c[0]) in wb && Neg(c[1]) in wb
  {
    if |c| == 2 then Attached(wb, cr, c) else wb
  }

  lemma AttachIndex(f: set<seq<Lit>>, ca: ClauseDb, ws: WatchLists, wb: WatchLists, dw: set<Lit>, db: set<Lit>,
      a: Assignment, c: seq<Lit>)
    requires Consistent(f, ca, ws, wb, dw, db, a) && VarsBelow(c, |a.assigns|) && |c| >= 2
    ensures Neg(c[0]) in ws && Neg(c[1]) in ws && Neg(c[0]) in wb && Neg(c[1]) in wb
  {
    AttachInLists(ws, |a.assigns|, c);
    AttachInLists(wb, |a.assigns|, c);
  }

  // Attaching keeps the list invariants and the drained part of the trail.
  lemma AttachConsistent(ca: ClauseDb, ws: WatchLists, wb: WatchLists, dw: set<Lit>, db: set<Lit>, a: Assignment,
      cr: CRef, c: Clause, k: nat)
    requires TrailOk(a) && WellFormedDb(ca, |a.assigns|)
    requires LongOk(ca, ws, dw, |a.assigns|) && BinOk(ca, wb, db, |a.assigns|)
    requires NewClause(ca, |a.assigns|, cr, c) && WatchableBy(a, c.lits)
    requires Neg(c.lits[0]) in ws && Neg(c.lits[1]) in ws && Neg(c.lits[0]) in wb && Neg(c.lits[1]) in wb
    requires Drained(ca, ws, wb, a, k, k)
    ensures WellFormedDb(ca[cr := c], |a.assigns|)
    ensures LongOk(ca[cr := c], LongAfter(ws, cr, c.lits), dw, |a.assigns|)
    ensures BinOk(ca[cr := c], BinAfter(wb, cr, c.lits), db, |a.assigns|)
    ensures Drained(ca[cr := c], LongAfter(ws, cr, c.lits), BinAfter(wb, cr, c.lits), a, k, k)
  {
    var n := |a.assigns|;
    AddOther(ca, ws, wb, dw, db, n, cr, c, a, k, k);
    if |c.lits| > 2 {
      AttachLong(ca, ws, dw, n, cr, c);
      AttachEntries(ca, ws, dw, n, cr, c, a, k);
    } else {
      AttachBin(ca, wb, db, n, cr, c);
      AttachBinEntries(ca, wb, db, n, cr, c, a, k);
    }
  }

  // What a learnt clause looks like after backtracking: its first literal is
  // unassigned, the others are false, the second at the current level.
  ghost predicate UnitAfterBacktrack(a: Assignment, c: seq<Lit>)
  {
    && |c| >= 2 && DistinctVars(c) && VarsBelow(c, |a.assigns|)
    && a.Val(c[0]) == LUndef
    && (forall l :: l in c && l != c[0] ==> a.Val(l) == LFalse)
    && a.Lev(c[1].v) == |a.lim|
  }

  // Storing, attaching and propagating a learnt clause.
  lemma LearnConsistent(f: set<seq<Lit>>, ca: ClauseDb, ws: WatchLists, wb: WatchLists, dw: set<Lit>, db: set<Lit>,
      a: Assignment, cr: CRef, c: Clause, k: nat)
    requires Consistent(f, ca, ws, wb, dw, db, a) && Drained(ca, ws, wb, a, k, k)
    requires cr !in ca && c.mark == 0 && c.learnt && UnitAfterBacktrack(a, c.lits) && Entails(f, c.lits)
    requires Neg(c.lits[0]) in ws && Neg(c.lits[1]) in ws && Neg(c.lits[0]) in wb && Neg(c.lits[1]) in wb
    requires c.lits[0].v < |a.assigns| == |a.vardata| == |a.pos|
    ensures Consistent(f, ca[cr := c], LongAfter(ws, cr, c.lits), BinAfter(wb, cr, c.lits), dw, db,
      Enqueued(a, c.lits[0], Some(cr)))
    ensures Drained(ca[cr := c], LongAfter(ws, cr, c.lits), BinAfter(wb, cr, c.lits), Enqueued(a, c.lits[0], Some(cr)),
      k, k)
  {
    hide LongOk, BinOk, TwoWatch, BinDone, WellFormedDb, SemDown, SemUp;
    var p := c.lits[0];
    var b := Enqueued(a, p, Some(cr));
    var cb := ca[cr := c];
    assert c.lits[0] in c.lits && c.lits[1] in c.lits;
    EnqueueVals(a, p, Some(cr));
    EnqueueTrail(a, p, Some(cr));
    EnqueueWatches(ca, ws, wb, a, p, Some(cr), k, k);
    AttachConsistent(ca, ws, wb, dw, db, b, cr, c, k);
    AddReasons(ca, a, cr, c);
    EnqueueReasons(cb, a, p, Some(cr));
    AddLearntSem(f, ca, a, cr, c);
    LearnSem(f, cb, a, cr);
  }

  lemma LearnSem(f: set<seq<Lit>>, ca: ClauseDb, a: Assignment, cr: CRef)
    requires TrailOk(a) && SemDown(f, ca, a) && SemUp(f, ca, a) && Live(ca, cr)
    requires UnitAfterBacktrack(a, ca[cr].lits) && ca[cr].lits[0].v < |a.assigns|
    ensures var b := Enqueued(a, ca[cr].lits[0], Some(cr)); SemDown(f, ca, b) && SemUp(f, ca, b)
  {
    var p := ca[cr].lits[0];
    if |a.lim| == 0 {
      RootUnit(f, ca, a, cr, p);
    }
    EnqueueSem(f, ca, a, p, Some(cr));
  }

  // ---- Problem clauses ----

  // `c` is what is left of clause `orig` after removing repeated literals and
  // literals false at level 0.
  ghost predicate SimplifiedTo(a: Assignment, orig: seq<Lit>, c: seq<Lit>)
  {
    && (forall l :: l in c ==> l in orig)
    && (forall l :: l in orig && l !in c ==> a.Val(l) == LFalse)
  }

  lemma SimplifiedMeaning(tau: Model, a: Assignment, orig: seq<Lit>, c: seq<Lit>)
    requires TrailOk(a) && |a.lim| == 0 && RootHolds(tau, a) && SimplifiedTo(a, orig, c)
    ensures HoldsC(tau, orig) <==> HoldsC(tau, c)
  {
    if HoldsC(tau, orig) {
      var l :| l in orig && HoldsL(tau, l);
      if l !in c {
        RootOnly(a, l);
        RootFalse(tau, a, l);
      }
      assert l in c;
    }
  }

  lemma AddProblemSem(f: set<seq<Lit>>, ca: ClauseDb, a: Assignment, cr: CRef, c: Clause, orig: seq<Lit>)
    requires SemDown(f, ca, a) && SemUp(f, ca, a) && TrailOk(a) && |a.lim| == 0
    requires cr !in ca && !c.learnt && c.mark == 0 && SimplifiedTo(a, orig, c.lits)
    ensures SemDown(f + {orig}, ca[cr := c], a) && SemUp(f + {orig}, ca[cr := c], a)
    ensures OverFormula(f, ca) ==> OverFormula(f + {orig}, ca[cr := c])
  {
    var cb := ca[cr := c];
    if OverFormula(f, ca) {
      OverMore(f, f + {orig}, ca);
      forall d: CRef, l | Live(cb, d) && !cb[d].learnt && l in cb[d].lits ensures OccursIn(f + {orig}, l.v)
      {
        if d == cr {
          assert orig in f + {orig} && l in orig;
        } else {
          assert Live(ca, d);
        }
      }
    }
    forall tau | HoldsF(tau, f + {orig})
      ensures DbHolds(tau, cb) && RootHolds(tau, a)
    {
      assert orig in f + {orig};
      assert HoldsF(tau, f) && HoldsC(tau, orig);
      assert DbHolds(tau, ca);
      SimplifiedMeaning(tau, a, orig, c.lits);
      forall d: CRef | Live(cb, d) ensures HoldsC(tau, cb[d].lits) { if d != cr { assert Live(ca, d); } }
    }
    forall tau | OrigHolds(tau, cb) && RootHolds(tau, a)
      ensures HoldsF(tau, f + {orig})
    {
      assert OrigHolds(tau, ca) by {
        forall d: CRef | Live(ca, d) && !ca[d].learnt ensures HoldsC(tau, ca[d].lits) { assert Live(cb, d); }
      }
      assert Live(cb, cr) && HoldsC(tau, cb[cr].lits);
      SimplifiedMeaning(tau, a, orig, c.lits);
    }
  }

  // Storing and attaching a problem clause with no assigned literal.
  lemma AddConsistent(f: set<seq<Lit>>, ca: ClauseDb, ws: WatchLists, wb: WatchLists, dw: set<Lit>, db: set<Lit>,
      a: Assignment, cr: CRef, c: Clause, orig: seq<Lit>, k: nat)
    requires Consistent(f, ca, ws, wb, dw, db, a) && Drained(ca, ws, wb, a, k, k) && |a.lim| == 0
    requires NewClause(ca, |a.assigns|, cr, c) && !c.learnt && SimplifiedTo(a, orig, c.lits)
    requires forall l :: l in c.lits ==> a.Val(l) == LUndef
    requires Neg(c.lits[0]) in ws && Neg(c.lits[1]) in ws && Neg(c.lits[0]) in wb && Neg(c.lits[1]) in wb
    ensures Consistent(f + {orig}, ca[cr := c], LongAfter(ws, cr, c.lits), BinAfter(wb, cr, c.lits), dw, db, a)
    ensures Drained(ca[cr := c], LongAfter(ws, cr, c.lits), BinAfter(wb, cr, c.lits), a, k, k)
  {
    assert c.lits[0] in c.lits && c.lits[1] in c.lits;
    AttachConsistent(ca, ws, wb, dw, db, a, cr, c, k);
    AddReasons(ca, a, cr, c);
    AddProblemSem(f, ca, a, cr, c, orig);
  }

  // A clause already true at level 0, or a tautology, adds nothing.
  lemma AddNothing(f: set<seq<Lit>>, ca: ClauseDb, a: Assignment, orig: seq<Lit>)
    requires SemDown(f, ca, a) && SemUp(f, ca, a) && TrailOk(a) && |a.lim| == 0
    requires (exists l :: l in orig && a.Val(l) == LTrue) || (exists l :: l in orig && Neg(l) in orig)
    ensures SemDown(f + {orig}, ca, a) && SemUp(f + {orig}, ca, a)
  {
    forall tau | HoldsF(tau, f + {orig}) ensures HoldsF(tau, f) {}
    forall tau | HoldsF(tau, f) && RootHolds(tau, a)
      ensures HoldsF(tau, f + {orig})
    {
      if l :| l in orig && a.Val(l) == LTrue {
        OnTrail(a, l);
        assert HoldsL(tau, a.trail[a.Pos(l.v)]);
      } else {
        var l :| l in orig && Neg(l) in orig;
        assert HoldsL(tau, l) || HoldsL(tau, Neg(l));
      }
    }
  }

  // A clause with one literal left makes that literal a fact.
  lemma AddUnitSem(f: set<seq<Lit>>, ca: ClauseDb, a: Assignment, orig: seq<Lit>, p: Lit)
    requires SemDown(f, ca, a) && SemUp(f, ca, a) && TrailOk(a) && |a.lim| == 0
    requires p.v < |a.assigns| && a.Val(p) == LUndef && SimplifiedTo(a, orig, [p])
    ensures SemDown(f + {orig}, ca, Enqueued(a, p, None)) && SemUp(f + {orig}, ca, Enqueued(a, p, None))
  {
    var b := Enqueued(a, p, None);
    forall tau | HoldsF(tau, f + {orig})
      ensures DbHolds(tau, ca) && RootHolds(tau, b)
    {
      assert orig in f + {orig};
      assert HoldsF(tau, f) && HoldsC(tau, orig);
      SimplifiedMeaning(tau, a, orig, [p]);
      assert HoldsL(tau, p);
    }
    forall tau | OrigHolds(tau, ca) && RootHolds(tau, b)
      ensures HoldsF(tau, f + {orig})
    {
      assert RootHolds(tau, a) by {
        forall i | 0 <= i < |a.trail| ensures HoldsL(tau, a.trail[i]) { assert b.trail[i] == a.trail[i]; }
      }
      assert b.trail[|a.trail|] == p && HoldsL(tau, p);
      assert p in [p];
      SimplifiedMeaning(tau, a, orig, [p]);
    }
  }

  lemma AddUnitConsistent(f: set<seq<Lit>>, ca: ClauseDb, ws: WatchLists, wb: WatchLists, dw: set<Lit>, db: set<Lit>,
      a: Assignment, orig: seq<Lit>, p: Lit, k: nat)
    requires Consistent(f, ca, ws, wb, dw, db, a) && Drained(ca, ws, wb, a, k, k) && |a.lim| == 0
    requires p.v < |a.assigns| && a.Val(p) == LUndef && SimplifiedTo(a, orig, [p])
    ensures Consistent(f + {orig}, ca, ws, wb, dw, db, Enqueued(a, p, None))
    ensures Drained(ca, ws, wb, Enqueued(a, p, None), k, k)
  {
    EnqueueTrail(a, p, None);
    EnqueueReasons(ca, a, p, None);
    AddUnitSem(f, ca, a, orig, p);
    OverMore(f, f + {orig}, ca);
    EnqueueWatches(ca, ws, wb, a, p, None, k, k);
  }

  // Nothing is left of the clause: the formula has no model.
  lemma AddEmpty(f: set<seq<Lit>>, ca: ClauseDb, a: Assignment, orig: seq<Lit>)
    requires SemDown(f, ca, a) && TrailOk(a) && |a.lim| == 0 && SimplifiedTo(a, orig, [])
    ensures !Satisfiable(f + {orig})
  {
    forall tau ensures !HoldsF(tau, f + {orig})
    {
      if HoldsF(tau, f + {orig}) {
        assert orig in f + {orig};
        assert HoldsF(tau, f) && HoldsC(tau, orig);
        SimplifiedMeaning(tau, a, orig, []);
      }
    }
  }

  // ---- Deleting ----

  // Deleting a clause that is no reason above level 0, and that is learnt or
  // true at level 0.
  lemma DeleteConsistent(f: set<seq<Lit>>, ca: ClauseDb, ws: WatchLists, wb: WatchLists, dw: set<Lit>, db: set<Lit>,
      ew: set<Lit>, eb: set<Lit>, a: Assignment, cr: CRef, l: Lit, k: nat)
    requires Consistent(f, ca, ws, wb, dw, db, a) && Drained(ca, ws, wb, a, k, k) && cr in ca
    requires dw <= ew && db <= eb
    requires |ca[cr].lits| > 2 ==> Neg(ca[cr].lits[0]) in ew && Neg(ca[cr].lits[1]) in ew
    requires |ca[cr].lits| == 2 ==> Neg(ca[cr].lits[0]) in eb && Neg(ca[cr].lits[1]) in eb
    requires forall v :: 0 <= v < |a.assigns| && a.assigns[v] != LUndef && a.Lev(v) > 0 ==> a.Why(v) != Some(cr)
    requires ca[cr].learnt || (l in ca[cr].lits && a.Val(l) == LTrue && a.Lev(l.v) == 0)
    ensures Consistent(f, Deleted(ca, cr), ws, wb, ew, eb, a)
    ensures Drained(Deleted(ca, cr), ws, wb, a, k, k)
  {
    DeleteLists(ca, ws, wb, dw, db, ew, eb, |a.assigns|, cr);
    DeleteEntries(ca, ws, wb, cr, a, k, k);
    DeleteSem(f, ca, a, cr, l);
    DeleteReasons(ca, a, cr);
  }

  lemma DeleteReasons(ca: ClauseDb, a: Assignment, cr: CRef)
    requires TrailOk(a) && ReasonsOk(ca, a) && cr in ca
    requires forall v :: 0 <= v < |a.assigns| && a.assigns[v] != LUndef && a.Lev(v) > 0 ==> a.Why(v) != Some(cr)
    ensures ReasonsOk(Deleted(ca, cr), a)
  {
    var cb := Deleted(ca, cr);
    forall i | 0 <= i < |a.trail| ensures ReasonOk(cb, a, i)
    {
      assert ReasonOk(ca, a, i) && a.Val(a.trail[i]) == LTrue;
    }
  }

  // The clause is recorded as the reason of its first literal, or of its second if
  // it is binary.
  ghost predicate LockedBy(c: seq<Lit>, a: Assignment, cr: CRef)
    requires |c| >= 2
  {
    || (a.Val(c[0]) == LTrue && a.Why(c[0].v) == Some(cr))
    || (|c| == 2 && a.Val(c[1]) == LTrue && a.Why(c[1].v) == Some(cr))
  }

  // A clause that is not locked is the reason of nothing above level 0.
  lemma NotLocked(f: set<seq<Lit>>, ca: ClauseDb, ws: WatchLists, wb: WatchLists, dw: set<Lit>, db: set<Lit>,
      a: Assignment, cr: CRef, v: nat)
    requires Consistent(f, ca, ws, wb, dw, db, a) && cr in ca && |ca[cr].lits| >= 2 && !LockedBy(ca[cr].lits, a, cr)
    requires v < |a.assigns| && a.assigns[v] != LUndef && a.Lev(v) > 0
    ensures a.Why(v) != Some(cr)
  {
    hide Consistent;
    ReasonFacts(f, ca, ws, wb, dw, db, a, v);
    if a.Why(v) == Some(cr) {
      var i :| 0 <= i < |ca[cr].lits| && ca[cr].lits[i] == TrailLit(a, v);
    }
  }

  // ---- From the conflict level to the backtrack level ----

  lemma BacktrackMakesUnit(a: Assignment, b: Assignment, c: seq<Lit>, btLevel: nat)
    requires TrailOk(a) && Asserting(a, c, btLevel) && btLevel < |a.lim| && CutTo(a, b, btLevel)
    ensures |c| == 1 ==> b.Val(c[0]) == LUndef && |b.lim| == 0
    ensures |c| > 1 ==> UnitAfterBacktrack(b, c)
    ensures c[0].v < |b.assigns| == |b.vardata| == |b.pos|
  {
    CutVals(a, b, btLevel);
    assert c[0] in c;
    if |c| > 1 {
      assert c[1] in c && c[1].v != c[0].v;
      forall l | l in c && l != c[0] ensures b.Val(l) == LFalse
      {
        var i :| 0 <= i < |c| && c[i] == l;
        assert i >= 1;
      }
    }
  }

  lemma AssertingLevel(a: Assignment, c: seq<Lit>, btLevel: nat)
    requires Asserting(a, c, btLevel) && |a.lim| > 0
    ensures btLevel < |a.lim| && |c| > 0
  {
    if |c| > 1 {
      assert c[1] in c && c[1].v != c[0].v;
    }
  }

  lemma LearntIndex(f: set<seq<Lit>>, ca: ClauseDb, ws: WatchLists, wb: WatchLists, dw: set<Lit>, db: set<Lit>,
      a: Assignment, c: seq<Lit>)
    requires Consistent(f, ca, ws, wb, dw, db, a) && VarsBelow(c, |a.assigns|) && |c| >= 2
    ensures c[0].v < |a.assigns| == |a.vardata| == |a.pos|
  {
    assert c[0] in c;
  }

  lemma LimBelow(f: set<seq<Lit>>, ca: ClauseDb, ws: WatchLists, wb: WatchLists, dw: set<Lit>, db: set<Lit>,
      a: Assignment, k: nat)
    requires Consistent(f, ca, ws, wb, dw, db, a) && k < |a.lim|
    ensures a.lim[k] <= a.LevelStart() <= |a.trail|
  {
    assert a.lim[k] <= a.lim[|a.lim| - 1];
  }

  lemma CutFacts(f: set<seq<Lit>>, ca: ClauseDb, ws: WatchLists, wb: WatchLists, dw: set<Lit>, db: set<Lit>,
      a: Assignment, b: Assignment, k: nat)
    requires Consistent(f, ca, ws, wb, dw, db, a) && k < |a.lim| && a.lim[k] <= |a.trail| && CutTo(a, b, k)
    ensures TrailOk(a) && b.lim == a.lim[..k] && |b.trail| == a.lim[k] && b.LevelStart() <= |b.trail|
    ensures |b.assigns| == |a.assigns|
  {
    if k > 0 {
      assert a.lim[k - 1] <= a.lim[k];
    }
  }

  lemma UnitFacts(a: Assignment, c: seq<Lit>)
    requires UnitAfterBacktrack(a, c)
    ensures |c| >= 2 && c[0].v < |a.assigns| && a.Val(c[0]) == LUndef && c[0] != c[1]
    ensures DistinctVars(c) && VarsBelow(c, |a.assigns|)
  {
    assert c[0] in c;
  }

  // A clause that is not locked, or any clause while only level 0 exists, is no
  // reason above level 0.
  lemma RemovalSafe(f: set<seq<Lit>>, ca: ClauseDb, ws: WatchLists, wb: WatchLists, dw: set<Lit>, db: set<Lit>,
      a: Assignment, cr: CRef)
    requires Consistent(f, ca, ws, wb, dw, db, a) && cr in ca
    requires |a.lim| == 0 || (|ca[cr].lits| >= 2 && !LockedBy(ca[cr].lits, a, cr))
    ensures forall v :: 0 <= v < |a.assigns| && a.assigns[v] != LUndef && a.Lev(v) > 0 ==> a.Why(v) != Some(cr)
  {
    forall v | 0 <= v < |a.assigns| && a.assigns[v] != LUndef && a.Lev(v) > 0 ensures a.Why(v) != Some(cr)
    {
      if |a.lim| == 0 {
        LevelBounds(a, v);
      } else {
        NotLocked(f, ca, ws, wb, dw, db, a, cr, v);
      }
    }
  }

  // A level-0 literal does not need its reason.
  lemma ForgetReason(f: set<seq<Lit>>, ca: ClauseDb, ws: WatchLists, wb: WatchLists, dw: set<Lit>, db: set<Lit>,
      a: Assignment, v: nat, k: nat)
    requires Consistent(f, ca, ws, wb, dw, db, a) && Drained(ca, ws, wb, a, k, k) && |a.lim| == 0 && v < |a.vardata|
    ensures var b := a.(vardata := a.vardata[v := VarData(None, a.vardata[v].level)]);
      Consistent(f, ca, ws, wb, dw, db, b) && Drained(ca, ws, wb, b, k, k)
  {
    hide WellFormedDb, LongOk, BinOk, DbHolds, OrigHolds, OverFormula, HoldsF;
    var b := a.(vardata := a.vardata[v := VarData(None, a.vardata[v].level)]);
    forall u ensures b.Lev(u) == a.Lev(u) && b.Pos(u) == a.Pos(u) {}
    forall i | 0 <= i < |b.trail| ensures LevelOk(b, i) && ReasonOk(ca, b, i)
    {
      assert LevelOk(a, i) && ReasonOk(ca, a, i);
    }
    forall i, w | 0 <= i < k && i < |b.trail| && b.trail[i] in ws && w in ws[b.trail[i]]
      ensures EntryOk(ca, b, b.trail[i], w)
    {
      assert EntryOk(ca, a, a.trail[i], w);
    }
    forall i, w | 0 <= i < k && i < |b.trail| && b.trail[i] in wb && w in wb[b.trail[i]]
      ensures BinEntryOk(ca, b, b.trail[i], w)
    {
      assert BinEntryOk(ca, a, a.trail[i], w);
    }
    assert SemDown(f, ca, b) && SemUp(f, ca, b) by {
      forall tau ensures RootHolds(tau, a) <==> RootHolds(tau, b) {}
    }
  }

  // ---- Growing by one variable ----

  function Grown(ws: WatchLists, v: nat): WatchLists
  {
    ws[Lit(v, false) := []][Lit(v, true) := []]
  }

  function GrownAssignment(a: Assignment): Assignment
  {
    Assignment(a.assigns + [LUndef], a.vardata + [VarData(None, 0)], a.trail, a.lim, a.pos + [0])
  }

  lemma GrowConsistent(f: set<seq<Lit>>, ca: ClauseDb, ws: WatchLists, wb: WatchLists, dw: set<Lit>, db: set<Lit>,
      a: Assignment, k: nat)
    requires Consistent(f, ca, ws, wb, dw, db, a) && Drained(ca, ws, wb, a, k, k)
    ensures Consistent(f, ca, Grown(ws, |a.assigns|), Grown(wb, |a.assigns|), dw, db, GrownAssignment(a))
    ensures Drained(ca, Grown(ws, |a.assigns|), Grown(wb, |a.assigns|), GrownAssignment(a), k, k)
  {
    hide WatchSound, BinSound, EntryOk, BinEntryOk, ReasonOk, LevelOk, WellFormedDb;
    var n := |a.assigns|;
    var b := GrownAssignment(a);
    GrowAssignment(ca, a, b);
    GrowLists(ca, ws, wb, dw, db, n);
    GrowEntries(ca, ws, wb, a, k);
    assert SemDown(f, ca, b) && SemUp(f, ca, b) by {
      forall tau ensures RootHolds(tau, a) <==> RootHolds(tau, b) {}
    }
  }

  lemma GrowEntries(ca: ClauseDb, ws: WatchLists, wb: WatchLists, a: Assignment, k: nat)
    requires TrailOk(a) && Drained(ca, ws, wb, a, k, k)
    ensures Drained(ca, Grown(ws, |a.assigns|), Grown(wb, |a.assigns|), GrownAssignment(a), k, k)
  {
    var n := |a.assigns|;
    var b := GrownAssignment(a);
    forall i | 0 <= i < |a.trail| ensures a.trail[i].v < n && b.Lev(a.trail[i].v) == a.Lev(a.trail[i].v)
    {
      assert a.Val(a.trail[i]) == LTrue;
    }
    forall l, m: nat | a.TrueBy(l, m) ensures b.TrueBy(l, m) {}
    forall i, w | 0 <= i < k && b.trail[i] in Grown(ws, n) && w in Grown(ws, n)[b.trail[i]]
      ensures EntryOk(ca, b, b.trail[i], w)
    {
      assert EntryOk(ca, a, a.trail[i], w);
    }
    forall i, w | 0 <= i < k && b.trail[i] in Grown(wb, n) && w in Grown(wb, n)[b.trail[i]]
      ensures BinEntryOk(ca, b, b.trail[i], w)
    {
      assert BinEntryOk(ca, a, a.trail[i], w);
    }
  }

  lemma GrowAssignment(ca: ClauseDb, a: Assignment, b: Assignment)
    requires TrailOk(a) && ReasonsOk(ca, a) && WellFormedDb(ca, |a.assigns|)
    requires b == GrownAssignment(a)
    ensures TrailOk(b) && ReasonsOk(ca, b)
  {
    forall l: Lit | l.v < |a.assigns|
      ensures b.Val(l) == a.Val(l) && b.Lev(l.v) == a.Lev(l.v) && b.Pos(l.v) == a.Pos(l.v)
      && b.Why(l.v) == a.Why(l.v) {}
    forall i | 0 <= i < |b.trail|
      ensures b.Val(b.trail[i]) == LTrue && b.Pos(b.trail[i].v) == i && LevelOk(b, i) && ReasonOk(ca, b, i)
    {
      assert a.Val(a.trail[i]) == LTrue && LevelOk(a, i) && ReasonOk(ca, a, i);
    }
    forall v | 0 <= v < |b.assigns| && b.assigns[v] != LUndef
      ensures b.Pos(v) < |b.trail| && b.trail[b.Pos(v)].v == v
    {
      assert a.assigns[v] != LUndef;
    }
  }

  lemma GrowLists(ca: ClauseDb, ws: WatchLists, wb: WatchLists, dw: set<Lit>, db: set<Lit>, n: nat)
    requires WellFormedDb(ca, n) && LongOk(ca, ws, dw, n) && BinOk(ca, wb, db, n)
    ensures WellFormedDb(ca, n + 1) && LongOk(ca, Grown(ws, n), dw, n + 1) && BinOk(ca, Grown(wb, n), db, n + 1)
  {
    forall p, cr | Watched(ws, p, cr) ensures Watched(Grown(ws, n), p, cr)
    {
      assert p.v < n;
    }
    forall p, cr | Watched(wb, p, cr) ensures Watched(Grown(wb, n), p, cr)
    {
      assert p.v < n;
    }
    forall p, w | p in Grown(ws, n) && w in Grown(ws, n)[p] ensures WatchSound(ca, p, w, dw)
    {
      assert p in ws && w in ws[p];
    }
    forall p, w | p in Grown(wb, n) && w in Grown(wb, n)[p] ensures BinSound(ca, p, w, db)
    {
      assert p in wb && w in wb[p];
    }
  }

  // ---- Answers ----

  lemma StillUnsat(f: set<seq<Lit>>, c: seq<Lit>)
    requires !Satisfiable(f)
    ensures !Satisfiable(f + {c})
  {
    forall tau ensures !HoldsF(tau, f + {c})
    {
      if HoldsF(tau, f + {c}) {
        assert HoldsF(tau, f);
      }
    }
  }

  lemma AddNothingConsistent(f: set<seq<Lit>>, ca: ClauseDb, ws: WatchLists, wb: WatchLists, dw: set<Lit>,
      db: set<Lit>, a: Assignment, orig: seq<Lit>)
    requires Consistent(f, ca, ws, wb, dw, db, a) && |a.lim| == 0
    requires (exists l :: l in orig && a.Val(l) == LTrue) || (exists l :: l in orig && Neg(l) in orig)
    ensures Consistent(f + {orig}, ca, ws, wb, dw, db, a)
  {
    AddNothing(f, ca, a, orig);
    OverMore(f, f + {orig}, ca);
  }

  lemma AddEmptyRefutes(f: set<seq<Lit>>, ca: ClauseDb, ws: WatchLists, wb: WatchLists, dw: set<Lit>, db: set<Lit>,
      a: Assignment, orig: seq<Lit>)
    requires Consistent(f, ca, ws, wb, dw, db, a) && |a.lim| == 0 && SimplifiedTo(a, orig, [])
    ensures !Satisfiable(f + {orig})
  {
    AddEmpty(f, ca, a, orig);
  }

  // A clause of negated assumptions entailed by the formula refutes them together.
  lemma UnsatEntails(f: set<seq<Lit>>, asms: seq<Lit>, conflict: seq<Lit>)
    requires if conflict == [] then !Satisfiable(f)
      else Entails(f, conflict) && forall l :: l in conflict ==> Neg(l) in asms
    ensures Entails(f, conflict)
    ensures forall tau :: HoldsF(tau, f) ==> exists l :: l in asms && !HoldsL(tau, l)
  {
    forall tau | HoldsF(tau, f)
      ensures HoldsC(tau, conflict) && exists l :: l in asms && !HoldsL(tau, l)
    {
      var l :| l in conflict && HoldsL(tau, l);
      assert Neg(l) in asms && !HoldsL(tau, Neg(l));
    }
  }

  // With all relevant variables decided and everything propagated, the
  // assignment satisfies the formula.
  lemma ModelHolds(f: set<seq<Lit>>, ca: ClauseDb, ws: WatchLists, wb: WatchLists, dw: set<Lit>, db: set<Lit>,
      a: Assignment, decision: seq<bool>, tau: Model)
    requires Consistent(f, ca, ws, wb, dw, db, a) && Drained(ca, ws, wb, a, |a.trail|, |a.trail|)
    requires |decision| == |a.assigns| && forall v :: 0 <= v < |a.assigns| && decision[v] ==> a.assigns[v] != LUndef
    requires forall v :: 0 <= v < |decision| && !decision[v] ==> !OccursIn(f, v)
    requires forall v: nat :: v in tau <==> v < |a.assigns| && a.assigns[v] == LTrue
    ensures HoldsF(tau, f)
  {
    hide Drained, TrailOk, WellFormedDb, ReasonsOk, LongOk, BinOk, SemDown, OverFormula, RootHolds;
    TrailHolds(a, tau);
    forall cr | Live(ca, cr) && !ca[cr].learnt ensures HoldsC(tau, ca[cr].lits)
    {
      DrainedMeansPropagated(f, ca, ws, wb, dw, db, a, cr);
      DecidedClause(f, ca, a, decision, tau, cr);
    }
  }

  // The trail holds in the model read off the assignment.
  lemma TrailHolds(a: Assignment, tau: Model)
    requires TrailOk(a) && forall v: nat :: v in tau <==> v < |a.assigns| && a.assigns[v] == LTrue
    ensures RootHolds(tau, a)
  {
    forall i | 0 <= i < |a.trail| ensures HoldsL(tau, a.trail[i])
    {
      assert a.Val(a.trail[i]) == LTrue;
    }
  }

  // A propagated problem clause without undecided variables is true.
  lemma DecidedClause(f: set<seq<Lit>>, ca: ClauseDb, a: Assignment, decision: seq<bool>, tau: Model, cr: CRef)
    requires WellFormedDb(ca, |a.assigns|) && OverFormula(f, ca) && Live(ca, cr) && !ca[cr].learnt
    requires FullyPropagated(a, ca[cr].lits)
    requires |decision| == |a.assigns| && forall v :: 0 <= v < |a.assigns| && decision[v] ==> a.assigns[v] != LUndef
    requires forall v :: 0 <= v < |decision| && !decision[v] ==> !OccursIn(f, v)
    requires forall v: nat :: v in tau <==> v < |a.assigns| && a.assigns[v] == LTrue
    ensures HoldsC(tau, ca[cr].lits)
  {
    hide OccursIn;
    var c := ca[cr].lits;
    forall i | 0 <= i < |c| ensures a.Val(c[i]) != LUndef
    {
      assert c[i] in c && OccursIn(f, c[i].v);
    }
    var l :| l in c && a.Val(l) == LTrue;
    assert HoldsL(tau, l);
  }
}
