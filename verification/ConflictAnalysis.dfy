// Why the clauses produced by conflict analysis follow from the formula.
module ConflictAnalysis {
  import opened SolverTypes
  import opened Assignments

  // `tau` gives variable `v` the value it has on the trail.
  ghost predicate Agrees(tau: Model, a: Assignment, v: nat)
  {
    v < |a.assigns| && a.assigns[v] != LUndef && ((v in tau) <==> a.assigns[v] == LTrue)
  }

  // Every model of `f` satisfies `extra` or disagrees with the trail on a
  // marked variable: the marked variables and `extra` form an entailed clause.
  ghost predicate RefutedBut(f: set<seq<Lit>>, a: Assignment, seen: seq<bool>, extra: seq<Lit>)
  {
    forall tau :: HoldsF(tau, f) ==> HoldsC(tau, extra) || DisagreesOn(tau, a, seen)
  }

  ghost predicate DisagreesOn(tau: Model, a: Assignment, seen: seq<bool>)
  {
    exists v :: 0 <= v < |seen| && seen[v] && !Agrees(tau, a, v)
  }

  ghost predicate MarksAssigned(a: Assignment, seen: seq<bool>)
  {
    |seen| == |a.assigns| && forall v :: 0 <= v < |seen| && seen[v] ==> a.assigns[v] != LUndef && a.Lev(v) > 0
  }

  lemma FalseMeansDisagree(tau: Model, a: Assignment, l: Lit)
    requires a.Val(l) == LFalse
    ensures HoldsL(tau, l) <==> !Agrees(tau, a, l.v)
  {
  }

  lemma TrueMeansAgree(tau: Model, a: Assignment, l: Lit)
    requires a.Val(l) == LTrue
    ensures HoldsL(tau, l) <==> Agrees(tau, a, l.v)
    ensures HoldsL(tau, Neg(l)) <==> !Agrees(tau, a, l.v)
  {
  }

  // Taking the mark off the variable of a true literal `p` moves the negation
  // of `p` into the explicit part of the clause.
  lemma Unmark(f: set<seq<Lit>>, a: Assignment, seen: seq<bool>, extra: seq<Lit>, p: Lit)
    requires RefutedBut(f, a, seen, extra)
    requires p.v < |seen| && a.Val(p) == LTrue
    ensures RefutedBut(f, a, seen[p.v := false], extra + [Neg(p)])
  {
    forall tau | HoldsF(tau, f)
      ensures HoldsC(tau, extra + [Neg(p)]) || DisagreesOn(tau, a, seen[p.v := false])
    {
      if HoldsC(tau, extra) {
        var l :| l in extra && HoldsL(tau, l);
        assert l in extra + [Neg(p)];
      } else {
        var v :| 0 <= v < |seen| && seen[v] && !Agrees(tau, a, v);
        if v == p.v {
          TrueMeansAgree(tau, a, p);
          assert Neg(p) in extra + [Neg(p)];
        } else {
          assert seen[p.v := false][v];
        }
      }
    }
  }

  // Resolving the negation of `p` away with its reason: all other literals of
  // the reason are false, and marked unless they are at level 0.
  lemma Resolve(f: set<seq<Lit>>, ca: ClauseDb, a: Assignment, cr: CRef, p: Option<Lit>, extra: seq<Lit>,
      before: seq<bool>, after: seq<bool>)
    requires TrailOk(a) && SemDown(f, ca, a) && Live(ca, cr)
    requires |before| == |after| == |a.assigns|
    requires forall v :: 0 <= v < |before| && before[v] ==> after[v]
    requires p.Some? ==> a.Val(p.value) == LTrue && RefutedBut(f, a, before, extra + [Neg(p.value)])
    requires forall q :: q in ca[cr].lits && Some(q) != p ==> a.Val(q) == LFalse && (a.Lev(q.v) == 0 || after[q.v])
    ensures RefutedBut(f, a, after, extra)
  {
    forall tau | HoldsF(tau, f)
      ensures HoldsC(tau, extra) || DisagreesOn(tau, a, after)
    {
      assert DbHolds(tau, ca) && RootHolds(tau, a);
      if p.Some? && (HoldsC(tau, extra) || DisagreesOn(tau, a, before)) {
        if !HoldsC(tau, extra) {
          var v :| 0 <= v < |before| && before[v] && !Agrees(tau, a, v);
          assert after[v];
        }
      } else {
        if p.Some? {
          TrueMeansAgree(tau, a, p.value);
          assert HoldsC(tau, extra + [Neg(p.value)]);
          var l :| l in extra + [Neg(p.value)] && HoldsL(tau, l);
          assert l !in extra;
          assert l == Neg(p.value);
        }
        var q :| q in ca[cr].lits && HoldsL(tau, q);
        assert Some(q) != p;
        FalseMeansDisagree(tau, a, q);
        if a.Lev(q.v) == 0 {
          RootFalse(tau, a, q);
        }
        assert after[q.v];
      }
    }
  }

  // ---- Clause minimisation ----

  // `v` was propagated by a clause whose other variables are marked or at level 0.
  ghost predicate Closed(ca: ClauseDb, a: Assignment, seen: seq<bool>, v: nat)
  {
    match a.Why(v)
    case None => false
    case Some(cr) => Live(ca, cr) && ReasonMarked(ca[cr].lits, a, seen, v)
  }

  ghost predicate ReasonMarked(c: seq<Lit>, a: Assignment, seen: seq<bool>, v: nat)
  {
    forall q :: q in c ==> q.v == v || a.Lev(q.v) == 0 || (q.v < |seen| && seen[q.v])
  }

  lemma ClosedMonotone(ca: ClauseDb, a: Assignment, before: seq<bool>, after: seq<bool>, v: nat)
    requires |before| == |after| && forall u :: 0 <= u < |before| && before[u] ==> after[u]
    requires Closed(ca, a, before, v)
    ensures Closed(ca, a, after, v)
  {
  }

  // A model that agrees with the trail on the kept variables agrees on every
  // marked variable, by following reasons backwards along the trail.
  lemma {:induction false} AgreeOnMarked(tau: Model, ca: ClauseDb, a: Assignment, seen: seq<bool>, kept: set<nat>,
      v: nat)
    requires TrailOk(a) && ReasonsOk(ca, a) && DbHolds(tau, ca) && RootHolds(tau, a)
    requires MarksAssigned(a, seen)
    requires forall u :: 0 <= u < |seen| && seen[u] ==> u in kept || Closed(ca, a, seen, u)
    requires forall u :: u in kept ==> Agrees(tau, a, u)
    requires v < |seen| && seen[v]
    ensures Agrees(tau, a, v)
    decreases a.Pos(v)
  {
    if v !in kept {
      assert Closed(ca, a, seen, v);
      var cr := a.Why(v).value;
      var c := ca[cr].lits;
      var p := a.trail[a.Pos(v)];
      assert ReasonOk(ca, a, a.Pos(v));
      assert ReasonFor(c, a, p);
      var q :| q in c && HoldsL(tau, q);
      if q != p {
        FalseMeansDisagree(tau, a, q);
        if a.Lev(q.v) == 0 {
          RootFalse(tau, a, q);
        } else if q.v != v {
          AgreeOnMarked(tau, ca, a, seen, kept, q.v);
        }
      }
      TrueMeansAgree(tau, a, p);
    }
  }

  // Dropping together every literal whose variable is closed leaves an
  // entailed clause.
  lemma MinimizedEntailed(f: set<seq<Lit>>, ca: ClauseDb, a: Assignment, before: seq<bool>, seen: seq<bool>,
      out: seq<Lit>)
    requires TrailOk(a) && ReasonsOk(ca, a) && SemDown(f, ca, a) && MarksAssigned(a, seen)
    requires |out| > 0 && |before| == |seen|
    requires RefutedBut(f, a, before, [out[0]])
    requires forall v :: 0 <= v < |before| && before[v] ==> seen[v]
    requires forall l :: l in out[1..] ==> a.Val(l) == LFalse
    requires forall v :: 0 <= v < |seen| && seen[v] ==> Closed(ca, a, seen, v) || exists l :: l in out[1..] && l.v == v
    ensures Entails(f, out)
  {
    var kept := set l | l in out[1..] :: l.v;
    forall tau | HoldsF(tau, f)
      ensures HoldsC(tau, out)
    {
      assert DbHolds(tau, ca) && RootHolds(tau, a);
      if l :| l in out[1..] && HoldsL(tau, l) {
        assert l in out;
      } else {
        forall u | u in kept ensures Agrees(tau, a, u)
        {
          var l :| l in out[1..] && l.v == u;
          FalseMeansDisagree(tau, a, l);
        }
        if DisagreesOn(tau, a, before) {
          var v :| 0 <= v < |before| && before[v] && !Agrees(tau, a, v);
          AgreeOnMarked(tau, ca, a, seen, kept, v);
        }
        assert HoldsC(tau, [out[0]]);
        assert out[0] in out;
      }
    }
  }

  // Removing literals `l` for which a live binary clause holds `out[0]` and the
  // negation of `l`.
  lemma BinaryMinimized(f: set<seq<Lit>>, ca: ClauseDb, a: Assignment, out: seq<Lit>, less: seq<Lit>)
    requires SemDown(f, ca, a) && Entails(f, out)
    requires |out| > 0 && out[0] in less
    requires forall l :: l in out ==> l in less || BinaryImplies(ca, out[0], l)
    ensures Entails(f, less)
  {
    forall tau | HoldsF(tau, f)
      ensures HoldsC(tau, less)
    {
      assert DbHolds(tau, ca);
      var l :| l in out && HoldsL(tau, l);
      if l !in less {
        assert BinaryImplies(ca, out[0], l);
        var cr :| BinaryClause(ca, cr, out[0], Neg(l));
        var q :| q in ca[cr].lits && HoldsL(tau, q);
        assert q == out[0];
      }
    }
  }

  ghost predicate BinaryClause(ca: ClauseDb, cr: CRef, x: Lit, y: Lit)
  {
    Live(ca, cr) && forall q :: q in ca[cr].lits ==> q == x || q == y
  }

  ghost predicate BinaryImplies(ca: ClauseDb, x: Lit, l: Lit)
  {
    exists cr :: BinaryClause(ca, cr, x, Neg(l))
  }

  // ---- Counting marks of the current level ----

  // The trail positions below `end` that are marked and at the current level.
  ghost function Current(a: Assignment, seen: seq<bool>, end: nat): set<nat>
    requires end <= |a.trail| && TrailOk(a) && |seen| == |a.assigns|
  {
    set i | 0 <= i < end && InCurrent(a, seen, i)
  }

  ghost predicate InCurrent(a: Assignment, seen: seq<bool>, i: nat)
    requires i < |a.trail|
  {
    a.trail[i].v < |seen| && seen[a.trail[i].v] && a.Lev(a.trail[i].v) == |a.lim|
  }

  lemma MarkCurrent(a: Assignment, seen: seq<bool>, end: nat, q: Lit)
    requires end <= |a.trail| && TrailOk(a) && |seen| == |a.assigns|
    requires a.Val(q) != LUndef && !seen[q.v] && a.Pos(q.v) < end
    ensures Current(a, seen[q.v := true], end) ==
      if a.Lev(q.v) == |a.lim| then Current(a, seen, end) + {a.Pos(q.v)} else Current(a, seen, end)
    ensures a.Pos(q.v) !in Current(a, seen, end)
  {
    var after := seen[q.v := true];
    forall i | 0 <= i < end
      ensures InCurrent(a, after, i) <==> InCurrent(a, seen, i) || (i == a.Pos(q.v) && a.Lev(q.v) == |a.lim|)
    {
      assert a.Val(a.trail[i]) == LTrue && a.Pos(a.trail[i].v) == i;
    }
  }

  lemma UnmarkCurrent(a: Assignment, seen: seq<bool>, i: nat)
    requires i < |a.trail| && TrailOk(a) && |seen| == |a.assigns|
    requires InCurrent(a, seen, i)
    ensures i in Current(a, seen, i + 1)
    ensures Current(a, seen[a.trail[i].v := false], i) == Current(a, seen, i + 1) - {i}
  {
    var p := a.trail[i];
    forall j | 0 <= j < i
      ensures a.trail[j].v != p.v
    {
      assert a.Pos(a.trail[j].v) == j && a.Pos(p.v) == i;
    }
  }

  // ---- The clause under construction ----

  // `out` collects the marked literals below the current level; the marked
  // variables of the current level sit on the trail before position `end`.
  ghost predicate Resolving(a: Assignment, seen: seq<bool>, out: seq<Lit>, end: nat)
  {
    && end <= |a.trail| && |seen| == |a.assigns| && TrailOk(a)
    && (forall v :: 0 <= v < |seen| && seen[v] ==> MarkedWell(a, out, end, v))
    && (forall l :: l in out ==> a.Val(l) == LFalse && 0 < a.Lev(l.v) < |a.lim| && l.v < |seen| && seen[l.v])
    && DistinctVars(out)
  }

  ghost predicate MarkedWell(a: Assignment, out: seq<Lit>, end: nat, v: nat)
  {
    && v < |a.assigns| && a.assigns[v] != LUndef && a.Lev(v) > 0
    && (if a.Lev(v) == |a.lim| then a.Pos(v) < end else HasVar(out, v))
  }

  lemma ResolvingMarks(a: Assignment, seen: seq<bool>, out: seq<Lit>, end: nat)
    requires Resolving(a, seen, out, end)
    ensures MarksAssigned(a, seen)
  {
    forall v | 0 <= v < |seen| && seen[v] ensures a.assigns[v] != LUndef && a.Lev(v) > 0
    {
      assert MarkedWell(a, out, end, v);
    }
  }

  // Marking one more false literal.
  lemma MarkOne(a: Assignment, seen: seq<bool>, out: seq<Lit>, end: nat, q: Lit)
    requires Resolving(a, seen, out, end)
    requires a.Val(q) == LFalse && 0 < a.Lev(q.v) && !seen[q.v] && a.Pos(q.v) < end
    ensures a.Lev(q.v) <= |a.lim|
    ensures Resolving(a, seen[q.v := true], if a.Lev(q.v) == |a.lim| then out else out + [q], end)
    ensures |Current(a, seen[q.v := true], end)| == |Current(a, seen, end)| + (if a.Lev(q.v) == |a.lim| then 1 else 0)
  {
    hide TrailOk, Current, DistinctVars, Val;
    LevelBounds(a, q.v);
    MarkCurrent(a, seen, end, q);
    var after := seen[q.v := true];
    var more := if a.Lev(q.v) == |a.lim| then out else out + [q];
    forall v | 0 <= v < |after| && after[v] ensures MarkedWell(a, more, end, v)
    {
      if v != q.v {
        MarkedMore(a, out, end, q, v);
      } else {
        assert a.Lev(v) != |a.lim| ==> q in more;
      }
    }
    if a.Lev(q.v) != |a.lim| {
      AppendDistinct(out, q);
    }
  }

  lemma MarkedMore(a: Assignment, out: seq<Lit>, end: nat, q: Lit, v: nat)
    requires MarkedWell(a, out, end, v)
    ensures MarkedWell(a, out + [q], end, v)
  {
    if HasVar(out, v) {
      var l :| l in out && l.v == v;
      assert l in out + [q];
    }
  }

  lemma AppendDistinct(out: seq<Lit>, q: Lit)
    requires DistinctVars(out) && forall l :: l in out ==> l.v != q.v
    ensures DistinctVars(out + [q])
  {
    forall i | 0 <= i < |out| ensures out[i].v != q.v
    {
      assert out[i] in out;
    }
  }

  // The highest marked trail position belongs to the current level.
  lemma HighestMarked(a: Assignment, seen: seq<bool>, out: seq<Lit>, end: nat, i: nat)
    requires Resolving(a, seen, out, end) && i < end && seen[a.trail[i].v]
    requires forall j :: i < j < end ==> !seen[a.trail[j].v]
    requires Current(a, seen, end) != {}
    ensures InCurrent(a, seen, i) && |a.lim| > 0
    ensures Current(a, seen, i + 1) == Current(a, seen, end)
  {
    var j :| j in Current(a, seen, end);
    assert InCurrent(a, seen, j) && j <= i;
    assert a.Val(a.trail[i]) == LTrue && a.Val(a.trail[j]) == LTrue;
    LevelsMonotone(a, a.trail[j].v, a.trail[i].v);
    assert MarkedWell(a, out, end, a.trail[i].v);
  }

  // Removing the highest mark of the current level.
  lemma UnmarkHighest(a: Assignment, seen: seq<bool>, out: seq<Lit>, end: nat, i: nat)
    requires Resolving(a, seen, out, end) && i < end && InCurrent(a, seen, i)
    requires forall j :: i < j < end ==> !seen[a.trail[j].v]
    ensures Resolving(a, seen[a.trail[i].v := false], out, i)
    ensures Current(a, seen[a.trail[i].v := false], i) == Current(a, seen, i + 1) - {i}
    ensures |Current(a, seen[a.trail[i].v := false], i)| == |Current(a, seen, i + 1)| - 1
  {
    UnmarkCurrent(a, seen, i);
    var p := a.trail[i];
    var after := seen[p.v := false];
    forall v | 0 <= v < |after| && after[v] ensures MarkedWell(a, out, i, v)
    {
      assert MarkedWell(a, out, end, v);
      if a.Lev(v) == |a.lim| {
        assert a.trail[a.Pos(v)].v == v;
      }
    }
  }

  // Once no mark of the current level is left, every mark is in `out`.
  lemma AllInOut(a: Assignment, seen: seq<bool>, out: seq<Lit>, end: nat)
    requires Resolving(a, seen, out, end) && Current(a, seen, end) == {}
    ensures forall v :: 0 <= v < |seen| && seen[v] ==> HasVar(out, v)
  {
    forall v | 0 <= v < |seen| && seen[v] ensures HasVar(out, v)
    {
      assert MarkedWell(a, out, end, v);
      if a.Lev(v) == |a.lim| {
        CurrentHas(a, seen, end, v);
      }
    }
  }

  lemma CurrentHas(a: Assignment, seen: seq<bool>, end: nat, v: nat)
    requires end <= |a.trail| && TrailOk(a) && |seen| == |a.assigns|
    requires v < |seen| && seen[v] && a.assigns[v] != LUndef && a.Lev(v) == |a.lim| && a.Pos(v) < end
    ensures a.Pos(v) in Current(a, seen, end)
  {
    assert a.trail[a.Pos(v)].v == v;
  }

  // ---- Counting unmarked variables ----

  ghost function Unmarked(seen: seq<bool>): set<nat>
  {
    set v: nat | v < |seen| && !seen[v]
  }

  lemma MarkCounts(seen: seq<bool>, v: nat)
    requires v < |seen| && !seen[v]
    ensures |Unmarked(seen[v := true])| == |Unmarked(seen)| - 1
  {
    assert Unmarked(seen[v := true]) == Unmarked(seen) - {v};
  }

  // ---- Distinct variables ----

  lemma {:induction false} CountVars(c: seq<Lit>)
    requires DistinctVars(c)
    ensures |VarsOf(c)| == |c|
  {
    if c != [] {
      var m := c[..|c| - 1];
      var x := c[|c| - 1];
      CountVars(m);
      assert c == m + [x];
      assert VarsOf(c) == VarsOf(m) + {x.v};
      forall i | 0 <= i < |m| ensures m[i].v != x.v
      {
        assert m[i] == c[i];
      }
    }
  }

  lemma ResolvingSize(a: Assignment, seen: seq<bool>, out: seq<Lit>, end: nat)
    requires Resolving(a, seen, out, end)
    ensures |seen| == |a.assigns| && end <= |a.trail| && TrailOk(a)
  {
  }

  // The order of the literals collected so far does not matter.
  lemma ResolvingReorder(a: Assignment, seen: seq<bool>, out: seq<Lit>, other: seq<Lit>, end: nat)
    requires Resolving(a, seen, out, end)
    requires exists x, y, q :: out == x + y + [q] && other == x + [q] + y
    ensures Resolving(a, seen, other, end)
  {
    hide DistinctVars, TrailOk, MarkedWell;
    var x, y, q :| out == x + y + [q] && other == x + [q] + y;
    SameMembers(x, y, q);
    ReorderDistinct(x, y, q);
    forall v | 0 <= v < |seen| && seen[v] ensures MarkedWell(a, other, end, v)
    {
      ReorderMarked(a, out, other, end, v);
    }
  }

  lemma SameMembers(x: seq<Lit>, y: seq<Lit>, q: Lit)
    ensures forall l :: l in x + y + [q] <==> l in x + [q] + y
  {
  }

  lemma ReorderDistinct(x: seq<Lit>, y: seq<Lit>, q: Lit)
    requires DistinctVars(x + y + [q])
    ensures DistinctVars(x + [q] + y)
  {
    var out, other := x + y + [q], x + [q] + y;
    forall i, j | 0 <= i < j < |other| ensures other[i].v != other[j].v
    {
      var i' := if i < |x| then i else if i == |x| then |out| - 1 else i - 1;
      var j' := if j < |x| then j else if j == |x| then |out| - 1 else j - 1;
      assert out[i'] == other[i] && out[j'] == other[j];
    }
  }

  lemma ReorderMarked(a: Assignment, out: seq<Lit>, other: seq<Lit>, end: nat, v: nat)
    requires MarkedWell(a, out, end, v) && forall l :: l in out <==> l in other
    ensures MarkedWell(a, other, end, v)
  {
    if HasVar(out, v) {
      var l :| l in out && l.v == v;
      assert l in other;
    }
  }
}
