// The assignment part of the solver state as a value: the trail, the level
// separators, and per variable its value, reason, level and trail position.
module Assignments {
  import opened SolverTypes

  datatype VarData = VarData(reason: Option<CRef>, level: nat)

  datatype Assignment = Assignment(
    assigns: seq<LBool>,
    vardata: seq<VarData>,
    trail: seq<Lit>,
    lim: seq<nat>,
    pos: seq<nat>)
  {
    function Val(l: Lit): LBool
    {
      if l.v >= |assigns| || assigns[l.v] == LUndef then LUndef
      else if (assigns[l.v] == LTrue) != l.s then LTrue
      else LFalse
    }

    function Lev(v: nat): nat
    {
      if v < |vardata| then vardata[v].level else 0
    }

    function Why(v: nat): Option<CRef>
    {
      if v < |vardata| then vardata[v].reason else None
    }

    function Pos(v: nat): nat
    {
      if v < |pos| then pos[v] else 0
    }

    function RootEnd(): nat
    {
      if |lim| > 0 then lim[0] else |trail|
    }

    // Where the current decision level starts on the trail.
    function LevelStart(): nat
    {
      if |lim| > 0 then lim[|lim| - 1] else 0
    }

    // `l` is true and was assigned at level `k` or lower.
    predicate TrueBy(l: Lit, k: nat)
    {
      Val(l) == LTrue && Lev(l.v) <= k
    }
  }

  // The trail lists exactly the assigned variables, once each, grouped by level.
  ghost predicate TrailOk(a: Assignment)
  {
    && |a.assigns| == |a.vardata| == |a.pos|
    && (forall i :: 0 <= i < |a.trail| ==> a.Val(a.trail[i]) == LTrue && a.Pos(a.trail[i].v) == i)
    && (forall v :: 0 <= v < |a.assigns| && a.assigns[v] != LUndef ==> a.Pos(v) < |a.trail| && a.trail[a.Pos(v)].v == v)
    && (forall k :: 0 <= k < |a.lim| ==> a.lim[k] <= |a.trail|)
    && (forall j, k :: 0 <= j <= k < |a.lim| ==> a.lim[j] <= a.lim[k])
    && (forall i :: 0 <= i < |a.trail| ==> LevelOk(a, i))
  }

  ghost predicate LevelOk(a: Assignment, i: nat)
    requires i < |a.trail|
  {
    var k := a.Lev(a.trail[i].v);
    && k <= |a.lim|
    && (k > 0 ==> a.lim[k - 1] <= i)
    && (k < |a.lim| ==> i < a.lim[k])
  }

  // `p` is where an implied literal belongs: in a long clause it comes first.
  ghost predicate InPlace(c: seq<Lit>, p: Lit)
  {
    p in c && (|c| > 2 ==> c[0] == p)
  }

  // `c` is a sound reason for the trail literal `p`: it has `p` in its place and
  // every other literal was false before `p`.
  ghost predicate ReasonFor(c: seq<Lit>, a: Assignment, p: Lit)
  {
    InPlace(c, p) && forall q :: q in c && q != p ==> a.Val(q) == LFalse && a.Pos(q.v) < a.Pos(p.v)
  }

  ghost predicate ReasonOk(ca: ClauseDb, a: Assignment, i: nat)
    requires i < |a.trail|
  {
    var p := a.trail[i];
    var k := a.Lev(p.v);
    match a.Why(p.v)
    case None => 0 < k <= |a.lim| ==> i == a.lim[k - 1]
    case Some(cr) => cr in ca && InPlace(ca[cr].lits, p) && (k > 0 ==> Live(ca, cr) && ReasonFor(ca[cr].lits, a, p))
  }

  // Above level 0 every trail literal is a decision opening its level or is
  // propagated by a live clause. At level 0 the clause may have been deleted.
  ghost predicate ReasonsOk(ca: ClauseDb, a: Assignment)
  {
    forall i :: 0 <= i < |a.trail| ==> ReasonOk(ca, a, i)
  }

  // The facts of decision level 0 hold in `tau`.
  ghost predicate RootHolds(tau: Model, a: Assignment)
  {
    forall i :: 0 <= i < a.RootEnd() && i < |a.trail| ==> HoldsL(tau, a.trail[i])
  }

  ghost predicate DbHolds(tau: Model, ca: ClauseDb)
  {
    forall cr :: Live(ca, cr) ==> HoldsC(tau, ca[cr].lits)
  }

  ghost predicate OrigHolds(tau: Model, ca: ClauseDb)
  {
    forall cr :: Live(ca, cr) && !ca[cr].learnt ==> HoldsC(tau, ca[cr].lits)
  }

  // Everything the solver holds follows from the input formula `f` ...
  ghost predicate SemDown(f: set<seq<Lit>>, ca: ClauseDb, a: Assignment)
  {
    forall tau :: HoldsF(tau, f) ==> DbHolds(tau, ca) && RootHolds(tau, a)
  }

  // ... and the problem clauses with the level-0 facts imply it.
  ghost predicate SemUp(f: set<seq<Lit>>, ca: ClauseDb, a: Assignment)
  {
    forall tau :: OrigHolds(tau, ca) && RootHolds(tau, a) ==> HoldsF(tau, f)
  }

  // Variable `v` occurs in the formula.
  ghost predicate OccursIn(f: set<seq<Lit>>, v: nat)
  {
    exists c, l :: c in f && l in c && l.v == v
  }

  // The problem clauses speak of variables of the formula only.
  ghost predicate OverFormula(f: set<seq<Lit>>, ca: ClauseDb)
  {
    forall cr, l :: Live(ca, cr) && !ca[cr].learnt && l in ca[cr].lits ==> OccursIn(f, l.v)
  }

  lemma OverMore(f: set<seq<Lit>>, g: set<seq<Lit>>, ca: ClauseDb)
    requires OverFormula(f, ca) && f <= g
    ensures OverFormula(g, ca)
  {
    forall cr, l | Live(ca, cr) && !ca[cr].learnt && l in ca[cr].lits ensures OccursIn(g, l.v)
    {
      assert OccursIn(f, l.v);
    }
  }

  lemma ValNeg(a: Assignment, l: Lit)
    ensures a.Val(Neg(l)) == LTrue <==> a.Val(l) == LFalse
    ensures a.Val(Neg(l)) == LFalse <==> a.Val(l) == LTrue
    ensures a.Val(Neg(l)) == LUndef <==> a.Val(l) == LUndef
  {
  }

  lemma OnTrail(a: Assignment, l: Lit)
    requires TrailOk(a) && a.Val(l) == LTrue
    ensures a.Pos(l.v) < |a.trail| && a.trail[a.Pos(l.v)] == l
  {
  }

  lemma LevelBounds(a: Assignment, v: nat)
    requires TrailOk(a) && v < |a.assigns| && a.assigns[v] != LUndef
    ensures a.Lev(v) <= |a.lim|
    ensures forall k :: 0 <= k < |a.lim| ==> (a.Pos(v) < a.lim[k] <==> a.Lev(v) <= k)
    ensures a.Lev(v) == 0 <==> a.Pos(v) < a.RootEnd()
  {
    var i := a.Pos(v);
    assert LevelOk(a, i);
    forall k | 0 <= k < |a.lim|
      ensures i < a.lim[k] <==> a.Lev(v) <= k
    {
      if a.Lev(v) <= k {
        assert a.lim[a.Lev(v)] <= a.lim[k];
      } else {
        assert a.lim[k] <= a.lim[a.Lev(v) - 1];
      }
    }
  }

  // Trail order agrees with level order.
  lemma LevelsMonotone(a: Assignment, u: nat, v: nat)
    requires TrailOk(a) && u < |a.assigns| && v < |a.assigns|
    requires a.assigns[u] != LUndef && a.assigns[v] != LUndef
    requires a.Pos(u) <= a.Pos(v)
    ensures a.Lev(u) <= a.Lev(v) <= |a.lim|
  {
    LevelBounds(a, u);
    LevelBounds(a, v);
    if a.Lev(v) < |a.lim| {
      assert a.Pos(v) < a.lim[a.Lev(v)];
    }
  }

  // ---- Enqueue ----

  function Enqueued(a: Assignment, p: Lit, from: Option<CRef>): Assignment
    requires p.v < |a.assigns| == |a.vardata| == |a.pos|
  {
    Assignment(
      a.assigns[p.v := if p.s then LFalse else LTrue],
      a.vardata[p.v := VarData(from, |a.lim|)],
      a.trail + [p],
      a.lim,
      a.pos[p.v := |a.trail|])
  }

  lemma EnqueueVals(a: Assignment, p: Lit, from: Option<CRef>)
    requires TrailOk(a) && p.v < |a.assigns| && a.Val(p) == LUndef
    ensures var b := Enqueued(a, p, from);
      && (forall l :: b.Val(l) == if l.v != p.v then a.Val(l) else if l == p then LTrue else LFalse)
      && (forall v :: v != p.v ==> b.Lev(v) == a.Lev(v) && b.Pos(v) == a.Pos(v) && b.Why(v) == a.Why(v))
      && b.Lev(p.v) == |a.lim| && b.Pos(p.v) == |a.trail| && b.Why(p.v) == from
      && (forall l, k: nat :: a.TrueBy(l, k) ==> b.TrueBy(l, k))
  {
  }

  lemma EnqueuedLonger(a: Assignment, p: Lit, from: Option<CRef>)
    requires p.v < |a.assigns| == |a.vardata| == |a.pos|
    ensures Enqueued(a, p, from).trail == a.trail + [p] && Enqueued(a, p, from).lim == a.lim
    ensures |Enqueued(a, p, from).assigns| == |a.assigns|
  {
  }

  lemma EnqueueTrail(a: Assignment, p: Lit, from: Option<CRef>)
    requires TrailOk(a) && p.v < |a.assigns| && a.Val(p) == LUndef
    ensures TrailOk(Enqueued(a, p, from))
  {
    var b := Enqueued(a, p, from);
    EnqueueVals(a, p, from);
    forall i | 0 <= i < |b.trail|
      ensures b.Val(b.trail[i]) == LTrue && b.Pos(b.trail[i].v) == i && LevelOk(b, i)
    {
      if i < |a.trail| {
        assert b.trail[i] == a.trail[i] && a.Val(a.trail[i]) == LTrue && LevelOk(a, i);
        assert a.trail[i].v != p.v;
      }
    }
    forall v | 0 <= v < |b.assigns| && b.assigns[v] != LUndef
      ensures b.Pos(v) < |b.trail| && b.trail[b.Pos(v)].v == v
    {
      if v != p.v {
        assert a.assigns[v] != LUndef;
      }
    }
  }

  lemma EnqueueReasons(ca: ClauseDb, a: Assignment, p: Lit, from: Option<CRef>)
    requires TrailOk(a) && p.v < |a.assigns| && a.Val(p) == LUndef
    requires ReasonsOk(ca, a)
    requires from.None? ==> |a.lim| > 0 ==> a.lim[|a.lim| - 1] == |a.trail|
    requires from.Some? ==> Live(ca, from.value) && p in ca[from.value].lits
    requires from.Some? ==> |ca[from.value].lits| > 2 ==> ca[from.value].lits[0] == p
    requires from.Some? ==> forall q :: q in ca[from.value].lits && q != p ==> a.Val(q) == LFalse
    ensures ReasonsOk(ca, Enqueued(a, p, from))
  {
    var b := Enqueued(a, p, from);
    EnqueueVals(a, p, from);
    forall i | 0 <= i < |b.trail|
      ensures ReasonOk(ca, b, i)
    {
      if i < |a.trail| {
        assert b.trail[i] == a.trail[i] && ReasonOk(ca, a, i);
        assert a.Val(a.trail[i]) == LTrue;
      }
    }
  }

  // At level 0 an enqueued literal has to follow from the formula.
  lemma EnqueueSem(f: set<seq<Lit>>, ca: ClauseDb, a: Assignment, p: Lit, from: Option<CRef>)
    requires TrailOk(a) && p.v < |a.assigns| && a.Val(p) == LUndef
    requires SemDown(f, ca, a) && SemUp(f, ca, a)
    requires |a.lim| == 0 ==> Entails(f, [p])
    ensures SemDown(f, ca, Enqueued(a, p, from)) && SemUp(f, ca, Enqueued(a, p, from))
  {
    var b := Enqueued(a, p, from);
    forall tau | HoldsF(tau, f)
      ensures RootHolds(tau, b)
    {
      assert RootHolds(tau, a);
      if |a.lim| == 0 {
        assert HoldsC(tau, [p]);
        assert HoldsL(tau, p);
      }
    }
    forall tau | RootHolds(tau, b)
      ensures RootHolds(tau, a)
    {
      forall i | 0 <= i < a.RootEnd() && i < |a.trail|
        ensures HoldsL(tau, a.trail[i])
      {
        assert b.trail[i] == a.trail[i];
      }
    }
  }

  // A literal false at level 0 is false in every model of the level-0 facts.
  lemma RootFalse(tau: Model, a: Assignment, l: Lit)
    requires TrailOk(a) && RootHolds(tau, a)
    requires a.Val(l) == LFalse && a.Lev(l.v) == 0
    ensures !HoldsL(tau, l)
  {
    ValNeg(a, l);
    OnTrail(a, Neg(l));
    LevelBounds(a, l.v);
    assert HoldsL(tau, a.trail[a.Pos(l.v)]);
  }

  // Without open levels everything is at level 0.
  lemma RootOnly(a: Assignment, l: Lit)
    requires TrailOk(a) && |a.lim| == 0 && a.Val(l) != LUndef
    ensures a.Lev(l.v) == 0
  {
    LevelBounds(a, l.v);
  }

  // A live clause whose literals other than `p` are false at level 0 forces `p`.
  lemma RootUnit(f: set<seq<Lit>>, ca: ClauseDb, a: Assignment, cr: CRef, p: Lit)
    requires TrailOk(a) && SemDown(f, ca, a) && |a.lim| == 0
    requires Live(ca, cr)
    requires forall q :: q in ca[cr].lits && q != p ==> a.Val(q) == LFalse
    ensures Entails(f, [p])
  {
    forall tau | HoldsF(tau, f)
      ensures HoldsC(tau, [p])
    {
      assert RootHolds(tau, a) && DbHolds(tau, ca);
      assert HoldsC(tau, ca[cr].lits);
      var l :| l in ca[cr].lits && HoldsL(tau, l);
      assert l == p by {
        if l != p {
          RootOnly(a, l);
          RootFalse(tau, a, l);
        }
      }
      assert p in [p];
    }
  }

  // A live clause falsified at level 0 refutes the formula.
  lemma RootConflict(f: set<seq<Lit>>, ca: ClauseDb, a: Assignment, cr: CRef)
    requires TrailOk(a) && SemDown(f, ca, a) && |a.lim| == 0
    requires Live(ca, cr)
    requires forall q :: q in ca[cr].lits ==> a.Val(q) == LFalse
    ensures !Satisfiable(f)
  {
    forall tau ensures !HoldsF(tau, f)
    {
      if HoldsF(tau, f) {
        forall l | l in ca[cr].lits ensures !HoldsL(tau, l)
        {
          RootOnly(a, l);
          RootFalse(tau, a, l);
        }
      }
    }
  }

  // ---- New decision level ----

  function Opened(a: Assignment): Assignment
  {
    a.(lim := a.lim + [|a.trail|])
  }

  lemma OpenLevel(f: set<seq<Lit>>, ca: ClauseDb, a: Assignment)
    requires TrailOk(a) && ReasonsOk(ca, a) && SemDown(f, ca, a) && SemUp(f, ca, a)
    ensures TrailOk(Opened(a)) && ReasonsOk(ca, Opened(a)) && SemDown(f, ca, Opened(a)) && SemUp(f, ca, Opened(a))
  {
    var b := Opened(a);
    forall i | 0 <= i < |b.trail|
      ensures LevelOk(b, i) && ReasonOk(ca, b, i)
    {
      assert LevelOk(a, i) && ReasonOk(ca, a, i);
    }
    forall tau ensures RootHolds(tau, a) <==> RootHolds(tau, b)
    {
      assert |a.lim| > 0 ==> b.lim[0] == a.lim[0];
    }
  }

  // ---- Backtracking ----

  // `b` is `a` with everything above level `k` undone.
  ghost predicate CutTo(a: Assignment, b: Assignment, k: nat)
    requires k < |a.lim| && a.lim[k] <= |a.trail|
  {
    && |b.assigns| == |a.assigns|
    && b.vardata == a.vardata && b.pos == a.pos
    && b.lim == a.lim[..k]
    && b.trail == a.trail[..a.lim[k]]
    && forall v :: 0 <= v < |a.assigns| ==>
      b.assigns[v] == if a.assigns[v] != LUndef && a.Pos(v) < a.lim[k] then a.assigns[v] else LUndef
  }

  lemma CutVals(a: Assignment, b: Assignment, k: nat)
    requires TrailOk(a) && k < |a.lim| && CutTo(a, b, k)
    ensures forall l :: b.Val(l) == if a.Val(l) != LUndef && a.Lev(l.v) <= k then a.Val(l) else LUndef
    ensures forall v: nat :: b.Lev(v) == a.Lev(v) && b.Pos(v) == a.Pos(v) && b.Why(v) == a.Why(v)
    ensures forall l, m: nat :: a.TrueBy(l, m) && m <= k ==> b.TrueBy(l, m)
  {
    forall l ensures b.Val(l) == if a.Val(l) != LUndef && a.Lev(l.v) <= k then a.Val(l) else LUndef
    {
      if l.v < |a.assigns| && a.assigns[l.v] != LUndef {
        LevelBounds(a, l.v);
      }
    }
  }

  lemma CutTrail(a: Assignment, b: Assignment, k: nat)
    requires TrailOk(a) && k < |a.lim| && CutTo(a, b, k)
    ensures TrailOk(b)
  {
    CutVals(a, b, k);
    forall i | 0 <= i < |b.trail|
      ensures b.Val(b.trail[i]) == LTrue && b.Pos(b.trail[i].v) == i && LevelOk(b, i)
    {
      assert b.trail[i] == a.trail[i] && a.Val(a.trail[i]) == LTrue && LevelOk(a, i);
      LevelBounds(a, a.trail[i].v);
    }
    forall v | 0 <= v < |b.assigns| && b.assigns[v] != LUndef
      ensures b.Pos(v) < |b.trail| && b.trail[b.Pos(v)].v == v
    {
      assert a.assigns[v] != LUndef;
    }
  }

  lemma CutReasons(ca: ClauseDb, a: Assignment, b: Assignment, k: nat)
    requires TrailOk(a) && ReasonsOk(ca, a) && k < |a.lim| && CutTo(a, b, k)
    ensures ReasonsOk(ca, b)
  {
    CutVals(a, b, k);
    forall i | 0 <= i < |b.trail|
      ensures ReasonOk(ca, b, i)
    {
      var p := a.trail[i];
      assert b.trail[i] == p && ReasonOk(ca, a, i) && a.Val(p) == LTrue;
      LevelBounds(a, p.v);
      if a.Why(p.v).Some? && a.Lev(p.v) > 0 {
        forall q | q in ca[a.Why(p.v).value].lits && q != p
          ensures b.Val(q) == LFalse
        {
          LevelsMonotone(a, q.v, p.v);
        }
      }
    }
  }

  lemma CutSem(f: set<seq<Lit>>, ca: ClauseDb, a: Assignment, b: Assignment, k: nat)
    requires TrailOk(a) && SemDown(f, ca, a) && SemUp(f, ca, a) && k < |a.lim| && CutTo(a, b, k)
    ensures SemDown(f, ca, b) && SemUp(f, ca, b)
  {
    forall tau ensures RootHolds(tau, a) <==> RootHolds(tau, b)
    {
      assert a.lim[0] <= a.lim[k];
      assert b.RootEnd() == a.RootEnd();
      assert forall i :: 0 <= i < a.RootEnd() ==> b.trail[i] == a.trail[i];
    }
  }

  // ---- Reordering literals inside clauses ----

  lemma ReorderSem(f: set<seq<Lit>>, ca: ClauseDb, cb: ClauseDb, a: Assignment)
    requires SemDown(f, ca, a) && SemUp(f, ca, a) && OverFormula(f, ca) && SameDb(ca, cb)
    ensures SemDown(f, cb, a) && SemUp(f, cb, a) && OverFormula(f, cb)
  {
    forall cr, l | Live(cb, cr) && !cb[cr].learnt && l in cb[cr].lits ensures OccursIn(f, l.v)
    {
      assert Live(ca, cr) && l in ca[cr].lits;
    }
    forall tau ensures DbHolds(tau, ca) ==> DbHolds(tau, cb)
      ensures OrigHolds(tau, cb) ==> OrigHolds(tau, ca)
    {
      if DbHolds(tau, ca) {
        forall cr | Live(cb, cr) ensures HoldsC(tau, cb[cr].lits)
        {
          assert Live(ca, cr);
          HoldsSame(tau, ca[cr].lits, cb[cr].lits);
        }
      }
      if OrigHolds(tau, cb) {
        forall cr | Live(ca, cr) && !ca[cr].learnt ensures HoldsC(tau, ca[cr].lits)
        {
          assert Live(cb, cr);
          HoldsSame(tau, ca[cr].lits, cb[cr].lits);
        }
      }
    }
  }

  // Reordering keeps reasons as long as a long clause that is a reason keeps
  // its first literal.
  lemma ReorderReasons(ca: ClauseDb, cb: ClauseDb, a: Assignment)
    requires ReasonsOk(ca, a) && SameDb(ca, cb)
    requires forall cr :: cr in ca && |ca[cr].lits| > 2 && a.Val(ca[cr].lits[0]) == LTrue ==>
      cb[cr].lits[0] == ca[cr].lits[0]
    requires TrailOk(a)
    ensures ReasonsOk(cb, a)
  {
    forall i | 0 <= i < |a.trail|
      ensures ReasonOk(cb, a, i)
    {
      assert ReasonOk(ca, a, i) && a.Val(a.trail[i]) == LTrue;
    }
  }
}
