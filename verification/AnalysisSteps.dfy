// The steps of conflict analysis in terms of the engine's invariant.
module AnalysisSteps {
  import opened SolverTypes
  import opened Assignments
  import opened Watches
  import opened ConflictAnalysis
  import opened SolverInvariant

  // Every literal of a falsified clause is on the trail.
  lemma FalseOnTrail(f: set<seq<Lit>>, ca: ClauseDb, ws: WatchLists, wb: WatchLists, dw: set<Lit>, db: set<Lit>,
      a: Assignment, q: Lit)
    requires Consistent(f, ca, ws, wb, dw, db, a) && a.Val(q) == LFalse
    ensures q.v < |a.assigns| && a.Pos(q.v) < |a.trail| && a.Lev(q.v) <= |a.lim|
  {
    LevelBounds(a, q.v);
  }

  // Starting point: the marked literals of a falsified clause.
  lemma ResolveConflict(f: set<seq<Lit>>, ca: ClauseDb, ws: WatchLists, wb: WatchLists, dw: set<Lit>, db: set<Lit>,
      a: Assignment, cr: CRef, seen: seq<bool>)
    requires Consistent(f, ca, ws, wb, dw, db, a) && Live(ca, cr) && |seen| == |a.assigns|
    requires forall q :: q in ca[cr].lits ==> a.Val(q) == LFalse && (a.Lev(q.v) == 0 || (q.v < |seen| && seen[q.v]))
    ensures RefutedBut(f, a, seen, [])
  {
    Resolve(f, ca, a, cr, None, [], seen, seen);
  }

  // One resolution with the reason of `v`.
  lemma ResolveReason(f: set<seq<Lit>>, ca: ClauseDb, ws: WatchLists, wb: WatchLists, dw: set<Lit>, db: set<Lit>,
      a: Assignment, v: nat, cr: CRef, extra: seq<Lit>, before: seq<bool>, after: seq<bool>)
    requires Consistent(f, ca, ws, wb, dw, db, a) && Live(ca, cr)
    requires |before| == |after| == |a.assigns|
    requires forall u :: 0 <= u < |before| && before[u] ==> after[u]
    requires a.Val(TrailLit(a, v)) == LTrue && LeadsTo(ca[cr].lits, a, v)
    requires RefutedBut(f, a, before, extra + [Neg(TrailLit(a, v))])
    requires forall i ::
      1 <= i < |ca[cr].lits| ==> a.Lev(ca[cr].lits[i].v) == 0 || (ca[cr].lits[i].v < |after| && after[ca[cr].lits[i].v])
    ensures RefutedBut(f, a, after, extra)
  {
    Resolve(f, ca, a, cr, Some(TrailLit(a, v)), extra, before, after);
  }

  // A marked variable of the current level keeps the count positive.
  lemma CountPositive(a: Assignment, seen: seq<bool>, out: seq<Lit>, end: nat, v: nat)
    requires Resolving(a, seen, out, end) && v < |seen| && seen[v] && a.Lev(v) == |a.lim|
    ensures a.Pos(v) in Current(a, seen, end) && |Current(a, seen, end)| > 0
    ensures a.Pos(v) < end && a.trail[a.Pos(v)].v == v
  {
    assert MarkedWell(a, out, end, v);
    CurrentHas(a, seen, end, v);
  }

  // Some trail literal below `end` is marked as long as the count is positive.
  lemma SomeMarked(a: Assignment, seen: seq<bool>, end: nat)
    requires end <= |a.trail| && TrailOk(a) && |seen| == |a.assigns| && |Current(a, seen, end)| > 0
    ensures exists i :: 0 <= i < end && a.trail[i].v < |seen| && seen[a.trail[i].v]
  {
    var i :| i in Current(a, seen, end);
    assert InCurrent(a, seen, i);
  }

  // Taking the highest marked literal out of the clause under construction.
  lemma TakeHighest(f: set<seq<Lit>>, a: Assignment, seen: seq<bool>, out: seq<Lit>, end: nat, i: nat)
    requires Resolving(a, seen, out, end) && i < end && a.trail[i].v < |seen| && seen[a.trail[i].v]
    requires forall j :: i < j < end ==> !(a.trail[j].v < |seen| && seen[a.trail[j].v])
    requires |Current(a, seen, end)| > 0
    requires RefutedBut(f, a, seen, [])
    ensures |a.lim| > 0
    ensures Resolving(a, seen[a.trail[i].v := false], out, i)
    ensures |Current(a, seen[a.trail[i].v := false], i)| == |Current(a, seen, end)| - 1
    ensures RefutedBut(f, a, seen[a.trail[i].v := false], [Neg(a.trail[i])])
    ensures a.Val(a.trail[i]) == LTrue && a.Lev(a.trail[i].v) == |a.lim| && a.Pos(a.trail[i].v) == i
    ensures a.trail[i] == TrailLit(a, a.trail[i].v)
  {
    var j :| j in Current(a, seen, end);
    HighestMarked(a, seen, out, end, i);
    UnmarkHighest(a, seen, out, end, i);
    Unmark(f, a, seen, [], a.trail[i]);
    assert [] + [Neg(a.trail[i])] == [Neg(a.trail[i])];
  }

  // While other literals of the current level remain, the highest one has a reason.
  lemma ReasonExists(f: set<seq<Lit>>, ca: ClauseDb, ws: WatchLists, wb: WatchLists, dw: set<Lit>, db: set<Lit>,
      a: Assignment, seen: seq<bool>, v: nat, i: nat)
    requires Consistent(f, ca, ws, wb, dw, db, a) && |seen| == |a.assigns|
    requires v < |a.assigns| && a.assigns[v] != LUndef && a.Lev(v) == |a.lim| > 0 && a.Pos(v) == i && i <= |a.trail|
    requires |Current(a, seen, i)| > 0
    ensures a.Why(v).Some?
  {
    var j :| j in Current(a, seen, i);
    assert InCurrent(a, seen, j);
    assert LevelOk(a, j);
    ReasonFacts(f, ca, ws, wb, dw, db, a, v);
  }

  // The literals of a leading reason were assigned before position `end`.
  lemma LeadsBefore(f: set<seq<Lit>>, ca: ClauseDb, ws: WatchLists, wb: WatchLists, dw: set<Lit>, db: set<Lit>,
      a: Assignment, c: seq<Lit>, v: nat)
    requires Consistent(f, ca, ws, wb, dw, db, a) && LeadsTo(c, a, v)
    ensures |c| >= 2
    ensures forall i :: 1 <= i < |c| ==>
      a.Val(c[i]) == LFalse && a.Pos(c[i].v) < a.Pos(v) && c[i].v < |a.assigns|
  {
  }

  lemma ResolvingStart(f: set<seq<Lit>>, ca: ClauseDb, ws: WatchLists, wb: WatchLists, dw: set<Lit>, db: set<Lit>,
      a: Assignment, seen: seq<bool>)
    requires Consistent(f, ca, ws, wb, dw, db, a) && |seen| == |a.assigns|
    requires forall v :: 0 <= v < |seen| ==> !seen[v]
    ensures Resolving(a, seen, [], |a.trail|) && Current(a, seen, |a.trail|) == {}
    ensures TrailOk(a)
  {
  }

  // ---- Redundant literals ----

  // Everything marked since `before`, and `root`, is closed or still on the stack.
  ghost predicate Justified(ca: ClauseDb, a: Assignment, before: seq<bool>, seen: seq<bool>, stack: seq<Lit>, root: nat)
  {
    && |before| == |seen|
    && forall v :: 0 <= v < |seen| && ((seen[v] && !before[v]) || v == root) ==>
      Closed(ca, a, seen, v) || HasVar(stack, v)
  }

  ghost predicate AllListed(seen: seq<bool>, l: seq<Lit>)
  {
    && (forall v :: 0 <= v < |seen| && seen[v] ==> HasVar(l, v))
    && (forall x :: x in l ==> x.v < |seen|)
  }

  // The variables marked since `before` are those of `l`, which were not marked.
  ghost predicate MarkedSince(before: seq<bool>, seen: seq<bool>, l: seq<Lit>)
  {
    && |before| == |seen|
    && (forall v :: 0 <= v < |seen| ==> (seen[v] <==> before[v] || HasVar(l, v)))
    && (forall x :: x in l ==> x.v < |before| && !before[x.v])
  }

  lemma ClosedReorder(ca: ClauseDb, cb: ClauseDb, a: Assignment, seen: seq<bool>, v: nat)
    requires SameDb(ca, cb) && Closed(ca, a, seen, v)
    ensures Closed(cb, a, seen, v)
  {
  }

  lemma JustifiedReorder(ca: ClauseDb, cb: ClauseDb, a: Assignment, before: seq<bool>, seen: seq<bool>,
      stack: seq<Lit>, root: nat)
    requires SameDb(ca, cb) && Justified(ca, a, before, seen, stack, root)
    ensures Justified(cb, a, before, seen, stack, root)
  {
    forall v | 0 <= v < |seen| && ((seen[v] && !before[v]) || v == root)
      ensures Closed(cb, a, seen, v) || HasVar(stack, v)
    {
      if Closed(ca, a, seen, v) {
        ClosedReorder(ca, cb, a, seen, v);
      }
    }
  }

  // After the reason of the popped literal `x` was scanned.
  lemma JustifiedScan(ca: ClauseDb, a: Assignment, before: seq<bool>, seen: seq<bool>, after: seq<bool>,
      stack: seq<Lit>, x: Lit, pushed: seq<Lit>, root: nat, cr: CRef)
    requires Justified(ca, a, before, seen, stack + [x], root) && MarkedSince(seen, after, pushed)
    requires Live(ca, cr) && a.Why(x.v) == Some(cr) && LeadsTo(ca[cr].lits, a, x.v)
    requires forall i ::
      1 <= i < |ca[cr].lits| ==> a.Lev(ca[cr].lits[i].v) == 0 || (ca[cr].lits[i].v < |after| && after[ca[cr].lits[i].v])
    ensures Justified(ca, a, before, after, stack + pushed, root)
  {
    forall v | 0 <= v < |after| && ((after[v] && !before[v]) || v == root)
      ensures Closed(ca, a, after, v) || HasVar(stack + pushed, v)
    {
      if v == x.v {
        assert ReasonMarked(ca[cr].lits, a, after, v);
      } else if (seen[v] && !before[v]) || v == root {
        if Closed(ca, a, seen, v) {
          ClosedMonotone(ca, a, seen, after, v);
        } else {
          var l :| l in stack + [x] && l.v == v;
          assert l in stack + pushed;
        }
      } else {
        var l :| l in pushed && l.v == v;
        assert l in stack + pushed;
      }
    }
  }

  lemma MarkedSinceNone(seen: seq<bool>)
    ensures MarkedSince(seen, seen, [])
  {
  }

  lemma MarkedSinceSize(before: seq<bool>, seen: seq<bool>, l: seq<Lit>)
    requires MarkedSince(before, seen, l)
    ensures |before| == |seen|
  {
  }

  lemma MarkedSinceOne(before: seq<bool>, seen: seq<bool>, l: seq<Lit>, q: Lit)
    requires MarkedSince(before, seen, l) && q.v < |seen| && !seen[q.v]
    ensures MarkedSince(before, seen[q.v := true], l + [q])
  {
    var after := seen[q.v := true];
    var more := l + [q];
    forall v | 0 <= v < |after| ensures after[v] <==> before[v] || HasVar(more, v)
    {
      if HasVar(l, v) {
        var x :| x in l && x.v == v;
        assert x in more;
      }
      if v == q.v {
        assert q in more;
      }
    }
    assert !before[q.v];
  }

  lemma MarkedSinceTrans(s0: seq<bool>, s1: seq<bool>, s2: seq<bool>, l: seq<Lit>, m: seq<Lit>)
    requires MarkedSince(s0, s1, l) && MarkedSince(s1, s2, m)
    ensures MarkedSince(s0, s2, l + m)
  {
    forall v | 0 <= v < |s2| ensures s2[v] <==> s0[v] || HasVar(l + m, v)
    {
      if HasVar(l, v) {
        var x :| x in l && x.v == v;
        assert x in l + m;
      }
      if HasVar(m, v) {
        var x :| x in m && x.v == v;
        assert x in l + m;
      }
    }
  }

  lemma ListedMore(before: seq<bool>, seen: seq<bool>, l: seq<Lit>, m: seq<Lit>)
    requires AllListed(before, l) && MarkedSince(before, seen, m)
    ensures AllListed(seen, l + m)
  {
    forall v | 0 <= v < |seen| && seen[v] ensures HasVar(l + m, v)
    {
      if before[v] {
        var x :| x in l && x.v == v;
        assert x in l + m;
      } else {
        var x :| x in m && x.v == v;
        assert x in l + m;
      }
    }
  }

  // Literals waiting on the stack can be expanded: they have a reason.
  ghost predicate Expandable(a: Assignment, stack: seq<Lit>)
  {
    forall l :: l in stack ==>
      l.v < |a.assigns| && a.assigns[l.v] != LUndef && a.Lev(l.v) > 0 && a.Why(l.v).Some?
  }

  lemma MarksMore(a: Assignment, before: seq<bool>, seen: seq<bool>, l: seq<Lit>)
    requires MarksAssigned(a, before) && MarkedSince(before, seen, l) && Expandable(a, l)
    ensures MarksAssigned(a, seen)
  {
  }

  lemma JustifiedStart(ca: ClauseDb, a: Assignment, seen: seq<bool>, p: Lit)
    ensures Justified(ca, a, seen, seen, [p], p.v)
  {
    assert p in [p];
  }

  lemma SinceGrows(before: seq<bool>, seen: seq<bool>, l: seq<Lit>)
    requires MarkedSince(before, seen, l)
    ensures forall v :: 0 <= v < |seen| && before[v] ==> seen[v]
  {
  }

  // Clearing the mark of one recorded literal.
  lemma ClearOne(seen: seq<bool>, before: seq<bool>, recent: seq<Lit>, j: nat)
    requires j < |recent| && |seen| == |before|
    requires recent[j].v < |before| && !before[recent[j].v]
    requires forall v :: 0 <= v < |seen| ==> seen[v] == (before[v] || (HasVar(recent, v) && !HasVar(recent[..j], v)))
    ensures forall v :: 0 <= v < |seen| ==>
      seen[recent[j].v := false][v] == (before[v] || (HasVar(recent, v) && !HasVar(recent[..j + 1], v)))
  {
    assert recent[..j + 1] == recent[..j] + [recent[j]];
    forall v | 0 <= v < |seen|
      ensures HasVar(recent[..j + 1], v) <==> HasVar(recent[..j], v) || v == recent[j].v
    {
      if HasVar(recent[..j], v) {
        var l :| l in recent[..j] && l.v == v;
        assert l in recent[..j + 1];
      }
      if v == recent[j].v {
        assert recent[j] in recent[..j + 1];
      }
    }
  }

  // ---- Shrinking the learnt clause ----

  ghost predicate Shrunk(before: seq<Lit>, after: seq<Lit>)
  {
    && |before| > 0 && |after| > 0 && after[0] == before[0]
    && DistinctVars(after)
    && forall l :: l in after ==> l in before
  }

  // The learnt clause before minimisation: its literals after the first are
  // exactly the marked variables, false and below the current level.
  ghost predicate Learning(f: set<seq<Lit>>, a: Assignment, seen: seq<bool>, learnt: seq<Lit>)
  {
    && |learnt| > 0 && DistinctVars(learnt)
    && MarksAssigned(a, seen) && RefutedBut(f, a, seen, [learnt[0]])
    && (forall l :: l in learnt[1..] ==> a.Val(l) == LFalse && l.v < |seen| && seen[l.v])
    && (forall v :: 0 <= v < |seen| && seen[v] ==> HasVar(learnt[1..], v))
  }

  // The first `i` literals were examined: `kept` are those not dropped, and the
  // variables of the dropped ones, like all variables marked since, are closed.
  ghost predicate Examined(ca: ClauseDb, a: Assignment, before: seq<bool>, seen: seq<bool>, learnt: seq<Lit>, i: nat,
      kept: seq<Lit>)
  {
    && 1 <= i <= |learnt| && Shrunk(learnt, kept) && |before| == |seen|
    && (forall l :: l in kept ==> l in learnt[..i])
    && (forall v :: 0 <= v < |seen| && before[v] ==> seen[v])
    && (forall v :: 0 <= v < |seen| && seen[v] && !before[v] ==> Closed(ca, a, seen, v))
    && (forall t :: 1 <= t < i ==> learnt[t] in kept[1..] || Closed(ca, a, seen, learnt[t].v))
  }

  lemma LearningMarks(f: set<seq<Lit>>, a: Assignment, seen: seq<bool>, learnt: seq<Lit>)
    requires Learning(f, a, seen, learnt)
    ensures |learnt| > 0 && MarksAssigned(a, seen)
  {
  }

  lemma ExaminedStart(f: set<seq<Lit>>, ca: ClauseDb, a: Assignment, seen: seq<bool>, learnt: seq<Lit>)
    requires Learning(f, a, seen, learnt)
    ensures Examined(ca, a, seen, seen, learnt, 1, learnt[..1])
  {
  }

  lemma ExaminedMarks(ca: ClauseDb, a: Assignment, before: seq<bool>, seen: seq<bool>, learnt: seq<Lit>, i: nat,
      kept: seq<Lit>)
    requires Examined(ca, a, before, seen, learnt, i, kept)
    ensures |before| == |seen| && forall v :: 0 <= v < |seen| && before[v] ==> seen[v]
  {
  }

  lemma ExaminedKeep(ca: ClauseDb, a: Assignment, before: seq<bool>, seen: seq<bool>, learnt: seq<Lit>, i: nat,
      kept: seq<Lit>)
    requires Examined(ca, a, before, seen, learnt, i, kept) && i < |learnt| && DistinctVars(learnt)
    ensures Examined(ca, a, before, seen, learnt, i + 1, kept + [learnt[i]])
  {
    var more := kept + [learnt[i]];
    assert learnt[..i + 1] == learnt[..i] + [learnt[i]];
    forall l | l in kept ensures l.v != learnt[i].v
    {
      assert l in learnt[..i];
      var t :| 0 <= t < i && learnt[..i][t] == l;
      assert learnt[t] == l;
    }
    AppendDistinct(kept, learnt[i]);
    assert more[1..] == kept[1..] + [learnt[i]];
    forall t | 1 <= t < i + 1 ensures learnt[t] in more[1..] || Closed(ca, a, seen, learnt[t].v)
    {
      if t < i && learnt[t] in kept[1..] {
        assert learnt[t] in more[1..];
      }
    }
  }

  lemma ExaminedReorder(ca: ClauseDb, cb: ClauseDb, a: Assignment, before: seq<bool>, seen: seq<bool>,
      learnt: seq<Lit>, i: nat, kept: seq<Lit>)
    requires SameDb(ca, cb) && Examined(ca, a, before, seen, learnt, i, kept)
    ensures Examined(cb, a, before, seen, learnt, i, kept)
  {
  }

  // Literal `i` is dropped: its variable and those marked for it are closed.
  lemma ExaminedDrop(ca: ClauseDb, a: Assignment, before: seq<bool>, marks: seq<bool>, seen: seq<bool>,
      learnt: seq<Lit>, i: nat, kept: seq<Lit>)
    requires Examined(ca, a, before, marks, learnt, i, kept) && i < |learnt| && |marks| == |seen|
    requires Justified(ca, a, marks, seen, [], learnt[i].v) && learnt[i].v < |seen|
    requires forall v :: 0 <= v < |seen| && marks[v] ==> seen[v]
    ensures Examined(ca, a, before, seen, learnt, i + 1, kept)
  {
    forall v | 0 <= v < |seen| && Closed(ca, a, marks, v) ensures Closed(ca, a, seen, v)
    {
      ClosedMonotone(ca, a, marks, seen, v);
    }
    forall v | 0 <= v < |seen| && seen[v] && !before[v] ensures Closed(ca, a, seen, v)
    {
      if !marks[v] {
        assert !HasVar([], v);
      }
    }
    assert !HasVar([], learnt[i].v);
    forall t | 1 <= t < i + 1 ensures learnt[t] in kept[1..] || Closed(ca, a, seen, learnt[t].v)
    {
      if t < i && learnt[t] !in kept[1..] {
        ClosedMonotone(ca, a, marks, seen, learnt[t].v);
      }
    }
    assert learnt[..i + 1] == learnt[..i] + [learnt[i]];
  }

  lemma ExaminedEntailed(f: set<seq<Lit>>, ca: ClauseDb, ws: WatchLists, wb: WatchLists, dw: set<Lit>, db: set<Lit>,
      a: Assignment, before: seq<bool>, seen: seq<bool>, learnt: seq<Lit>, kept: seq<Lit>)
    requires Consistent(f, ca, ws, wb, dw, db, a) && Learning(f, a, before, learnt)
    requires Examined(ca, a, before, seen, learnt, |learnt|, kept) && MarksAssigned(a, seen)
    ensures Entails(f, kept) && Shrunk(learnt, kept)
  {
    forall v | 0 <= v < |seen| && seen[v]
      ensures Closed(ca, a, seen, v) || exists l :: l in kept[1..] && l.v == v
    {
      if before[v] {
        var l :| l in learnt[1..] && l.v == v;
        var t :| 0 <= t < |learnt[1..]| && learnt[1..][t] == l;
        assert learnt[t + 1] == l;
      }
    }
    forall l | l in kept[1..] ensures a.Val(l) == LFalse
    {
      var t :| 0 <= t < |kept[1..]| && kept[1..][t] == l;
      assert kept[t + 1] == l && kept[t + 1].v != kept[0].v;
      assert l in learnt;
      var u :| 0 <= u < |learnt| && learnt[u] == l;
      assert learnt[1..][u - 1] == l;
    }
    MinimizedEntailed(f, ca, a, before, seen, kept);
  }

  // A literal whose reason is marked in full is closed without further marks.
  lemma DirectlyClosed(f: set<seq<Lit>>, ca: ClauseDb, ws: WatchLists, wb: WatchLists, dw: set<Lit>, db: set<Lit>,
      a: Assignment, seen: seq<bool>, v: nat, cr: CRef)
    requires Consistent(f, ca, ws, wb, dw, db, a)
    requires v < |a.assigns| && a.assigns[v] != LUndef && a.Lev(v) > 0 && a.Why(v) == Some(cr) && cr in ca
    requires forall i :: (if |ca[cr].lits| == 2 then 0 else 1) <= i < |ca[cr].lits| ==>
      a.Lev(ca[cr].lits[i].v) == 0 || (ca[cr].lits[i].v < |seen| && seen[ca[cr].lits[i].v])
    ensures Justified(ca, a, seen, seen, [], v)
  {
    hide Consistent;
    ReasonFacts(f, ca, ws, wb, dw, db, a, v);
    var c := ca[cr].lits;
    forall q | q in c ensures q.v == v || a.Lev(q.v) == 0 || (q.v < |seen| && seen[q.v])
    {
      var i :| 0 <= i < |c| && c[i] == q;
    }
  }

  lemma LearntLiteral(f: set<seq<Lit>>, a: Assignment, seen: seq<bool>, learnt: seq<Lit>, i: nat)
    requires Learning(f, a, seen, learnt) && 1 <= i < |learnt|
    ensures a.Val(learnt[i]) == LFalse && learnt[i].v < |seen| == |a.assigns|
    ensures a.assigns[learnt[i].v] != LUndef && a.Lev(learnt[i].v) > 0
    ensures MarksAssigned(a, seen) && DistinctVars(learnt)
  {
    assert learnt[1..][i - 1] == learnt[i];
  }

  lemma ShrunkTrans(a: seq<Lit>, b: seq<Lit>, c: seq<Lit>)
    requires Shrunk(a, b) && Shrunk(b, c)
    ensures Shrunk(a, c)
  {
  }

  lemma TailInside(b: seq<Lit>, c: seq<Lit>)
    requires Shrunk(b, c)
    ensures b[0] == c[0] && forall l :: l in c[1..] ==> l in b[1..] && l in c
  {
    forall l | l in c[1..] ensures l in b[1..] && l in c
    {
      var i :| 0 <= i < |c[1..]| && c[1..][i] == l;
      assert c[i + 1] == l && l.v != c[0].v && l in c;
      var k :| 0 <= k < |b| && b[k] == l;
      assert b[1..][k - 1] == l;
    }
  }

  lemma ShrunkSelf(c: seq<Lit>)
    requires |c| > 0 && DistinctVars(c)
    ensures Shrunk(c, c)
  {
  }

  lemma ListsIndex(f: set<seq<Lit>>, ca: ClauseDb, ws: WatchLists, wb: WatchLists, dw: set<Lit>, db: set<Lit>,
      a: Assignment, p: Lit)
    requires Consistent(f, ca, ws, wb, dw, db, a) && p.v < |a.assigns|
    ensures p in ws && p in wb
  {
  }

  // A binary watcher of the negated asserting literal whose blocker is true
  // implies the negation of a literal of the learnt clause.
  lemma BinaryStep(f: set<seq<Lit>>, ca: ClauseDb, ws: WatchLists, wb: WatchLists, dw: set<Lit>, a: Assignment,
      learnt: seq<Lit>, w: Watcher)
    requires Consistent(f, ca, ws, wb, dw, {}, a)
    requires |learnt| > 0 && Neg(learnt[0]) in wb && w in wb[Neg(learnt[0])]
    requires forall l :: l in learnt ==> a.Val(l) == LFalse
    requires a.Val(w.blocker) == LTrue
    ensures forall l :: l in learnt && l.v == w.blocker.v ==> BinaryImplies(ca, learnt[0], l)
  {
    assert BinSound(ca, Neg(learnt[0]), w, {});
    forall l | l in learnt && l.v == w.blocker.v ensures BinaryImplies(ca, learnt[0], l)
    {
      assert w.blocker == Neg(l);
      assert BinaryClause(ca, w.cref, learnt[0], Neg(l));
    }
  }

  lemma BinaryDone(f: set<seq<Lit>>, ca: ClauseDb, ws: WatchLists, wb: WatchLists, dw: set<Lit>, db: set<Lit>,
      a: Assignment, learnt: seq<Lit>, marked: set<nat>, less: seq<Lit>)
    requires Consistent(f, ca, ws, wb, dw, db, a) && Entails(f, learnt) && Shrunk(learnt, less)
    requires forall l :: l in learnt[1..] ==> l.v in marked || BinaryImplies(ca, learnt[0], l)
    requires forall l :: l in learnt[1..] ==> (l.v in marked <==> l in less)
    ensures Entails(f, less)
  {
    forall l | l in learnt ensures l in less || BinaryImplies(ca, learnt[0], l)
    {
      if l !in less {
        var i :| 0 <= i < |learnt| && learnt[i] == l;
        assert learnt[1..][i - 1] == l;
      }
    }
    BinaryMinimized(f, ca, a, learnt, less);
  }

  // ---- The shape of the learnt clause ----

  // All literals are false; the first is the only one of the current level.
  ghost predicate LearntShape(a: Assignment, c: seq<Lit>)
  {
    && |c| > 0 && DistinctVars(c)
    && (forall l :: l in c ==> a.Val(l) == LFalse && l.v < |a.assigns|)
    && a.Lev(c[0].v) == |a.lim|
    && (forall l :: l in c && l != c[0] ==> 0 < a.Lev(l.v) < |a.lim|)
  }

  // In addition the second literal has the highest level among the others,
  // which is the level to backtrack to.
  ghost predicate Asserting(a: Assignment, c: seq<Lit>, btLevel: nat)
  {
    && LearntShape(a, c)
    && (|c| == 1 ==> btLevel == 0)
    && (|c| > 1 ==> btLevel == a.Lev(c[1].v))
    && (forall i :: 1 <= i < |c| ==> a.Lev(c[i].v) <= btLevel)
  }

  lemma LearningStart(f: set<seq<Lit>>, a: Assignment, seen: seq<bool>, uip: Lit, out: seq<Lit>, sel: seq<Lit>)
    requires a.Val(uip) == LTrue && a.Lev(uip.v) == |a.lim| && uip.v < |a.assigns| && a.Pos(uip.v) <= |a.trail|
    requires Resolving(a, seen, out + sel, a.Pos(uip.v)) && |Current(a, seen, a.Pos(uip.v))| == 0
    requires RefutedBut(f, a, seen, [Neg(uip)])
    ensures var learnt := [Neg(uip)] + out + sel;
      && Learning(f, a, seen, learnt) && LearntShape(a, learnt) && AllListed(seen, learnt)
      && Shrunk(learnt, learnt)
  {
    var rest := out + sel;
    var learnt := [Neg(uip)] + out + sel;
    assert learnt == [Neg(uip)] + rest;
    assert learnt[1..] == rest;
    ResolvingMarks(a, seen, rest, a.Pos(uip.v));
    AllInOut(a, seen, rest, a.Pos(uip.v));
    ValNeg(a, uip);
    forall i, j | 0 <= i < j < |learnt| ensures learnt[i].v != learnt[j].v
    {
      assert learnt[j] == rest[j - 1] && rest[j - 1] in rest;
    }
    forall v | 0 <= v < |seen| && seen[v] ensures HasVar(learnt, v)
    {
      assert HasVar(rest, v);
      var l :| l in rest && l.v == v;
      assert l in learnt;
    }
  }

  lemma LearningEntailed(f: set<seq<Lit>>, a: Assignment, seen: seq<bool>, learnt: seq<Lit>)
    requires Learning(f, a, seen, learnt)
    ensures Entails(f, learnt)
  {
    forall tau | HoldsF(tau, f) ensures HoldsC(tau, learnt)
    {
      if HoldsC(tau, [learnt[0]]) {
        assert learnt[0] in learnt;
      } else {
        var v :| 0 <= v < |seen| && seen[v] && !Agrees(tau, a, v);
        var l :| l in learnt[1..] && l.v == v;
        FalseMeansDisagree(tau, a, l);
        assert l in learnt;
      }
    }
  }

  lemma ShrunkShape(a: Assignment, c: seq<Lit>, d: seq<Lit>)
    requires LearntShape(a, c) && Shrunk(c, d)
    ensures LearntShape(a, d)
  {
  }

  lemma LearntShapeFacts(a: Assignment, c: seq<Lit>)
    requires LearntShape(a, c)
    ensures |c| > 0 && DistinctVars(c) && c[0].v < |a.assigns|
    ensures forall l :: l in c ==> a.Val(l) == LFalse && l.v < |a.assigns|
  {
    assert c[0] in c;
  }

  lemma AssertingSwap(f: set<seq<Lit>>, a: Assignment, c: seq<Lit>, d: seq<Lit>, btLevel: nat)
    requires LearntShape(a, c) && Entails(f, c)
    requires d == c || exists m :: 1 < m < |c| && d == Swapped(c, 1, m)
    requires |c| == 1 ==> btLevel == 0
    requires |c| > 1 ==> btLevel == a.Lev(d[1].v)
    requires forall i :: 1 <= i < |d| ==> a.Lev(d[i].v) <= btLevel
    ensures Asserting(a, d, btLevel) && Entails(f, d)
  {
    forall tau | HoldsF(tau, f) ensures HoldsC(tau, d)
    {
      HoldsSame(tau, c, d);
    }
  }
}
