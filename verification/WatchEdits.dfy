// How attaching, deleting and reordering clauses and cleaning the lists act on
// the watch invariants.
module WatchEdits {
  import opened SolverTypes
  import opened Assignments
  import opened Watches

  // ---- Attaching ----

  function Pushed(ws: WatchLists, p: Lit, w: Watcher): WatchLists
    requires p in ws
  {
    ws[p := ws[p] + [w]]
  }

  function Attached(ws: WatchLists, cr: CRef, c: seq<Lit>): WatchLists
    requires |c| >= 2 && Neg(c[0]) in ws && Neg(c[1]) in ws
  {
    Pushed(Pushed(ws, Neg(c[0]), Watcher(cr, c[1])), Neg(c[1]), Watcher(cr, c[0]))
  }

  ghost predicate NewClause(ca: ClauseDb, n: nat, cr: CRef, c: Clause)
  {
    && cr !in ca && c.mark == 0
    && |c.lits| >= 2 && DistinctVars(c.lits) && VarsBelow(c.lits, n)
  }

  lemma AttachInLists(ws: WatchLists, n: nat, c: seq<Lit>)
    requires ListsFor(ws, n) && VarsBelow(c, n) && |c| >= 2
    ensures Neg(c[0]) in ws && Neg(c[1]) in ws
  {
    assert c[0] in c && c[1] in c;
  }

  lemma AttachedEntry(ws: WatchLists, n: nat, cr: CRef, c: seq<Lit>, p: Lit, w: Watcher)
    requires ListsFor(ws, n) && VarsBelow(c, n) && |c| >= 2 && c[0].v != c[1].v
    requires Neg(c[0]) in ws && Neg(c[1]) in ws
    requires p in Attached(ws, cr, c) && w in Attached(ws, cr, c)[p]
    ensures p in ws
    ensures w in ws[p] || (p == Neg(c[0]) && w == Watcher(cr, c[1])) || (p == Neg(c[1]) && w == Watcher(cr, c[0]))
  {
  }

  lemma AttachLong(ca: ClauseDb, ws: WatchLists, dirty: set<Lit>, n: nat, cr: CRef, c: Clause)
    requires LongOk(ca, ws, dirty, n) && NewClause(ca, n, cr, c) && |c.lits| > 2
    requires Neg(c.lits[0]) in ws && Neg(c.lits[1]) in ws
    ensures LongOk(ca[cr := c], Attached(ws, cr, c.lits), dirty, n)
  {
    var cb := ca[cr := c];
    var after := Attached(ws, cr, c.lits);
    forall p, w | p in after && w in after[p]
      ensures WatchSound(cb, p, w, dirty)
    {
      AttachedEntry(ws, n, cr, c.lits, p, w);
      if w in ws[p] {
        assert WatchSound(ca, p, w, dirty);
      } else {
        assert w.blocker in c.lits;
      }
    }
    forall p | p in after ensures UniqueRefs(after[p])
    {
      assert UniqueRefs(ws[p]);
      forall i | 0 <= i < |ws[p]| ensures ws[p][i].cref != cr
      {
        assert WatchSound(ca, p, ws[p][i], dirty);
      }
    }
    forall d | Live(cb, d) && |cb[d].lits| > 2
      ensures Watched(after, Neg(cb[d].lits[0]), d) && Watched(after, Neg(cb[d].lits[1]), d)
    {
      if d == cr {
        assert Watcher(cr, c.lits[1]) in after[Neg(c.lits[0])];
        assert Watcher(cr, c.lits[0]) in after[Neg(c.lits[1])];
      } else {
        assert Live(ca, d);
        AttachWatched(ws, cr, c.lits, Neg(ca[d].lits[0]), d);
        AttachWatched(ws, cr, c.lits, Neg(ca[d].lits[1]), d);
      }
    }
  }

  lemma AttachWatched(ws: WatchLists, cr: CRef, c: seq<Lit>, p: Lit, d: CRef)
    requires |c| >= 2 && Neg(c[0]) in ws && Neg(c[1]) in ws && Watched(ws, p, d)
    ensures Watched(Attached(ws, cr, c), p, d)
  {
    var w: Watcher :| w in ws[p] && w.cref == d;
    assert w in Attached(ws, cr, c)[p];
  }

  lemma AttachBin(ca: ClauseDb, wb: WatchLists, dirty: set<Lit>, n: nat, cr: CRef, c: Clause)
    requires BinOk(ca, wb, dirty, n) && NewClause(ca, n, cr, c) && |c.lits| == 2
    requires Neg(c.lits[0]) in wb && Neg(c.lits[1]) in wb
    ensures BinOk(ca[cr := c], Attached(wb, cr, c.lits), dirty, n)
  {
    var cb := ca[cr := c];
    var after := Attached(wb, cr, c.lits);
    forall p, w | p in after && w in after[p]
      ensures BinSound(cb, p, w, dirty)
    {
      AttachedEntry(wb, n, cr, c.lits, p, w);
      if w in wb[p] {
        assert BinSound(ca, p, w, dirty);
      }
    }
    forall d | Live(cb, d) && |cb[d].lits| == 2
      ensures Watched(after, Neg(cb[d].lits[0]), d) && Watched(after, Neg(cb[d].lits[1]), d)
    {
      if d == cr {
        assert Watcher(cr, c.lits[1]) in after[Neg(c.lits[0])];
        assert Watcher(cr, c.lits[0]) in after[Neg(c.lits[1])];
      } else {
        assert Live(ca, d);
        AttachWatched(wb, cr, c.lits, Neg(ca[d].lits[0]), d);
        AttachWatched(wb, cr, c.lits, Neg(ca[d].lits[1]), d);
      }
    }
  }

  // A new clause of the other size class leaves the lists alone.
  lemma AddOther(ca: ClauseDb, ws: WatchLists, wb: WatchLists, dw: set<Lit>, db: set<Lit>, n: nat, cr: CRef, c: Clause,
      a: Assignment, k: nat, m: nat)
    requires TwoWatch(ca, ws, a, k) && BinDone(ca, wb, a, m)
    requires LongOk(ca, ws, dw, n) && BinOk(ca, wb, db, n) && NewClause(ca, n, cr, c)
    ensures |c.lits| == 2 ==> LongOk(ca[cr := c], ws, dw, n)
    ensures |c.lits| > 2 ==> BinOk(ca[cr := c], wb, db, n)
    ensures TwoWatch(ca[cr := c], ws, a, k) && BinDone(ca[cr := c], wb, a, m)
  {
    var cb := ca[cr := c];
    forall p, w | p in ws && w in ws[p]
      ensures WatchSound(cb, p, w, dw) && w.cref != cr
    {
      assert WatchSound(ca, p, w, dw);
    }
    forall p, w | p in wb && w in wb[p]
      ensures BinSound(cb, p, w, db) && w.cref != cr
    {
      assert BinSound(ca, p, w, db);
    }
    forall d | Live(cb, d) && d != cr ensures Live(ca, d) {}
    forall i, w | 0 <= i < k && i < |a.trail| && a.trail[i] in ws && w in ws[a.trail[i]]
      ensures EntryOk(cb, a, a.trail[i], w)
    {
      assert EntryOk(ca, a, a.trail[i], w);
    }
    forall i, w | 0 <= i < m && i < |a.trail| && a.trail[i] in wb && w in wb[a.trail[i]]
      ensures BinEntryOk(cb, a, a.trail[i], w)
    {
      assert BinEntryOk(ca, a, a.trail[i], w);
    }
  }

  // The first two literals of a new clause decide whether its watchers are
  // settled: the first is not false, and the second is not false either or the
  // first is true at no higher level.
  ghost predicate WatchableBy(a: Assignment, c: seq<Lit>)
    requires |c| >= 2
  {
    && a.Val(c[0]) != LFalse
    && (a.Val(c[1]) == LFalse ==> a.TrueBy(c[0], a.Lev(c[1].v)))
  }

  lemma AttachEntries(ca: ClauseDb, ws: WatchLists, dirty: set<Lit>, n: nat, cr: CRef, c: Clause, a: Assignment, k: nat)
    requires TrailOk(a) && LongOk(ca, ws, dirty, n) && NewClause(ca, n, cr, c) && |c.lits| > 2
    requires Neg(c.lits[0]) in ws && Neg(c.lits[1]) in ws
    requires TwoWatch(ca, ws, a, k) && WatchableBy(a, c.lits)
    ensures TwoWatch(ca[cr := c], Attached(ws, cr, c.lits), a, k)
  {
    var cb := ca[cr := c];
    var after := Attached(ws, cr, c.lits);
    forall i, w | 0 <= i < k && i < |a.trail| && a.trail[i] in after && w in after[a.trail[i]]
      ensures EntryOk(cb, a, a.trail[i], w)
    {
      var p := a.trail[i];
      assert a.Val(p) == LTrue;
      AttachedEntry(ws, n, cr, c.lits, p, w);
      ValNeg(a, c.lits[0]);
      ValNeg(a, c.lits[1]);
      if w in ws[p] {
        assert WatchSound(ca, p, w, dirty) && EntryOk(ca, a, p, w);
      }
    }
  }

  lemma AttachBinEntries(ca: ClauseDb, wb: WatchLists, dirty: set<Lit>, n: nat, cr: CRef, c: Clause, a: Assignment,
      k: nat)
    requires TrailOk(a) && BinOk(ca, wb, dirty, n) && NewClause(ca, n, cr, c) && |c.lits| == 2
    requires Neg(c.lits[0]) in wb && Neg(c.lits[1]) in wb
    requires BinDone(ca, wb, a, k) && WatchableBy(a, c.lits)
    ensures BinDone(ca[cr := c], Attached(wb, cr, c.lits), a, k)
  {
    var cb := ca[cr := c];
    var after := Attached(wb, cr, c.lits);
    forall i, w | 0 <= i < k && i < |a.trail| && a.trail[i] in after && w in after[a.trail[i]]
      ensures BinEntryOk(cb, a, a.trail[i], w)
    {
      var p := a.trail[i];
      assert a.Val(p) == LTrue;
      AttachedEntry(wb, n, cr, c.lits, p, w);
      ValNeg(a, c.lits[0]);
      ValNeg(a, c.lits[1]);
      if w in wb[p] {
        assert BinSound(ca, p, w, dirty) && BinEntryOk(ca, a, p, w);
      }
    }
  }

  // ---- Deleting ----

  function Deleted(ca: ClauseDb, cr: CRef): ClauseDb
    requires cr in ca
  {
    ca[cr := ca[cr].(mark := 1)]
  }

  lemma DeleteLists(ca: ClauseDb, ws: WatchLists, wb: WatchLists, dw: set<Lit>, db: set<Lit>, ew: set<Lit>,
      eb: set<Lit>, n: nat, cr: CRef)
    requires WellFormedDb(ca, n) && LongOk(ca, ws, dw, n) && BinOk(ca, wb, db, n) && cr in ca
    requires dw <= ew && db <= eb
    requires |ca[cr].lits| > 2 ==> Neg(ca[cr].lits[0]) in ew && Neg(ca[cr].lits[1]) in ew
    requires |ca[cr].lits| == 2 ==> Neg(ca[cr].lits[0]) in eb && Neg(ca[cr].lits[1]) in eb
    ensures WellFormedDb(Deleted(ca, cr), n)
    ensures LongOk(Deleted(ca, cr), ws, ew, n) && BinOk(Deleted(ca, cr), wb, eb, n)
  {
    var cb := Deleted(ca, cr);
    forall p, w | p in ws && w in ws[p]
      ensures WatchSound(cb, p, w, ew)
    {
      assert WatchSound(ca, p, w, dw);
      assert p == Neg(Neg(p));
    }
    forall p, w | p in wb && w in wb[p]
      ensures BinSound(cb, p, w, eb)
    {
      assert BinSound(ca, p, w, db);
      assert p == Neg(Neg(p));
    }
    forall d | Live(cb, d) ensures Live(ca, d) && ca[d] == cb[d] {}
  }

  lemma DeleteEntries(ca: ClauseDb, ws: WatchLists, wb: WatchLists, cr: CRef, a: Assignment, k: nat, m: nat)
    requires cr in ca && TwoWatch(ca, ws, a, k) && BinDone(ca, wb, a, m)
    ensures TwoWatch(Deleted(ca, cr), ws, a, k) && BinDone(Deleted(ca, cr), wb, a, m)
  {
    var cb := Deleted(ca, cr);
    forall i, w | 0 <= i < k && i < |a.trail| && a.trail[i] in ws && w in ws[a.trail[i]]
      ensures EntryOk(cb, a, a.trail[i], w)
    {
      assert EntryOk(ca, a, a.trail[i], w);
    }
    forall i, w | 0 <= i < m && i < |a.trail| && a.trail[i] in wb && w in wb[a.trail[i]]
      ensures BinEntryOk(cb, a, a.trail[i], w)
    {
      assert BinEntryOk(ca, a, a.trail[i], w);
    }
  }

  // Deleting a learnt clause, or a problem clause true at level 0, keeps the
  // data base equivalent to the input formula.
  lemma DeleteSem(f: set<seq<Lit>>, ca: ClauseDb, a: Assignment, cr: CRef, l: Lit)
    requires TrailOk(a) && SemDown(f, ca, a) && SemUp(f, ca, a) && cr in ca
    requires ca[cr].learnt || (l in ca[cr].lits && a.Val(l) == LTrue && a.Lev(l.v) == 0)
    ensures SemDown(f, Deleted(ca, cr), a) && SemUp(f, Deleted(ca, cr), a)
    ensures OverFormula(f, ca) ==> OverFormula(f, Deleted(ca, cr))
  {
    var cb := Deleted(ca, cr);
    forall tau | HoldsF(tau, f)
      ensures DbHolds(tau, cb) && RootHolds(tau, a)
    {
      assert DbHolds(tau, ca);
      forall d | Live(cb, d) ensures HoldsC(tau, cb[d].lits) { assert Live(ca, d); }
    }
    forall tau | OrigHolds(tau, cb) && RootHolds(tau, a)
      ensures OrigHolds(tau, ca)
    {
      forall d | Live(ca, d) && !ca[d].learnt ensures HoldsC(tau, ca[d].lits)
      {
        if d == cr {
          OnTrail(a, l);
          LevelBounds(a, l.v);
          assert HoldsL(tau, a.trail[a.Pos(l.v)]);
        } else {
          assert Live(cb, d);
        }
      }
    }
  }

  // ---- Adding a clause: meaning ----

  lemma AddLearntSem(f: set<seq<Lit>>, ca: ClauseDb, a: Assignment, cr: CRef, c: Clause)
    requires SemDown(f, ca, a) && SemUp(f, ca, a) && cr !in ca && c.learnt && Entails(f, c.lits)
    ensures SemDown(f, ca[cr := c], a) && SemUp(f, ca[cr := c], a)
    ensures OverFormula(f, ca) ==> OverFormula(f, ca[cr := c])
  {
    var cb := ca[cr := c];
    forall tau | HoldsF(tau, f)
      ensures DbHolds(tau, cb) && RootHolds(tau, a)
    {
      assert DbHolds(tau, ca) && HoldsC(tau, c.lits);
      forall d | Live(cb, d) ensures HoldsC(tau, cb[d].lits) { if d != cr { assert Live(ca, d); } }
    }
    forall tau | OrigHolds(tau, cb) ensures OrigHolds(tau, ca)
    {
      forall d | Live(ca, d) && !ca[d].learnt ensures HoldsC(tau, ca[d].lits) { assert Live(cb, d); }
    }
  }

  lemma AddReasons(ca: ClauseDb, a: Assignment, cr: CRef, c: Clause)
    requires ReasonsOk(ca, a) && cr !in ca
    ensures ReasonsOk(ca[cr := c], a)
  {
    var cb := ca[cr := c];
    forall i | 0 <= i < |a.trail| ensures ReasonOk(cb, a, i)
    {
      assert ReasonOk(ca, a, i);
    }
  }

  // ---- Cleaning ----

  // `after` keeps of each list the watchers of live clauses; lists that are not
  // dirty are as they were.
  ghost predicate Cleaned(ca: ClauseDb, before: WatchLists, after: WatchLists, dirty: set<Lit>)
  {
    && before.Keys == after.Keys
    && (forall p :: p in before && p !in dirty ==> after[p] == before[p])
    && (forall p :: p in before && p in dirty ==> after[p] == LiveOnly(ca, before[p]))
  }

  function LiveOnly(ca: ClauseDb, l: seq<Watcher>): seq<Watcher>
  {
    if l == [] then [] else
      var x := l[|l| - 1];
      var kept := LiveOnly(ca, l[..|l| - 1]);
      if x.cref in ca && ca[x.cref].mark == 1 then kept else kept + [x]
  }

  lemma {:induction false} LiveOnlyMembers(ca: ClauseDb, l: seq<Watcher>)
    ensures forall w :: w in LiveOnly(ca, l) <==> w in l && !(w.cref in ca && ca[w.cref].mark == 1)
    ensures UniqueRefs(l) ==> UniqueRefs(LiveOnly(ca, l))
  {
    hide UniqueRefs;
    if l != [] {
      var m, x := l[..|l| - 1], l[|l| - 1];
      LiveOnlyMembers(ca, m);
      assert l == m + [x];
      UniqueShorter(m, LiveOnly(ca, m), x);
    } else {
      assert LiveOnly(ca, l) == l;
    }
  }

  // Appending to a part of a list keeps references unique if they are in the whole.
  lemma UniqueShorter(m: seq<Watcher>, kept: seq<Watcher>, x: Watcher)
    requires (UniqueRefs(m) ==> UniqueRefs(kept)) && forall w :: w in kept ==> w in m
    ensures UniqueRefs(m + [x]) ==> UniqueRefs(kept) && UniqueRefs(kept + [x])
  {
    if UniqueRefs(m + [x]) {
      var all := m + [x];
      assert forall i :: 0 <= i < |m| ==> all[i] == m[i];
      assert all[|m|] == x;
      assert forall i, j :: 0 <= i < j < |m| ==> all[i].cref != all[j].cref;
      forall i | 0 <= i < |kept| ensures kept[i].cref != x.cref
      {
        assert kept[i] in m;
        var k :| 0 <= k < |m| && m[k] == kept[i];
        assert all[k].cref != all[|m|].cref;
      }
    }
  }

  lemma CleanLong(ca: ClauseDb, before: WatchLists, after: WatchLists, dirty: set<Lit>, n: nat, a: Assignment, k: nat)
    requires TwoWatch(ca, before, a, k)
    requires LongOk(ca, before, dirty, n) && Cleaned(ca, before, after, dirty)
    ensures LongOk(ca, after, {}, n)
    ensures TwoWatch(ca, after, a, k)
  {
    forall p | p in after
      ensures UniqueRefs(after[p])
      ensures forall w :: w in after[p] <==> w in before[p] && !(w.cref in ca && ca[w.cref].mark == 1)
    {
      assert p in before && UniqueRefs(before[p]);
      LiveOnlyMembers(ca, before[p]);
      if p !in dirty {
        forall w | w in before[p] ensures Live(ca, w.cref)
        {
          assert WatchSound(ca, p, w, dirty);
        }
      }
    }
    forall p, w | p in after && w in after[p]
      ensures WatchSound(ca, p, w, {})
    {
      assert w in before[p];
      assert WatchSound(ca, p, w, dirty);
    }
    forall p, cr | Live(ca, cr) && Watched(before, p, cr)
      ensures Watched(after, p, cr)
    {
      var w :| w in before[p] && w.cref == cr;
      assert w in after[p];
    }
    forall i, w | 0 <= i < k && i < |a.trail| && a.trail[i] in after && w in after[a.trail[i]]
      ensures EntryOk(ca, a, a.trail[i], w)
    {
      assert w in before[a.trail[i]];
    }
  }

  lemma CleanBin(ca: ClauseDb, before: WatchLists, after: WatchLists, dirty: set<Lit>, n: nat, a: Assignment, k: nat)
    requires BinDone(ca, before, a, k)
    requires BinOk(ca, before, dirty, n) && Cleaned(ca, before, after, dirty)
    ensures BinOk(ca, after, {}, n)
    ensures BinDone(ca, after, a, k)
  {
    forall p | p in after
      ensures forall w :: w in after[p] <==> w in before[p] && !(w.cref in ca && ca[w.cref].mark == 1)
    {
      LiveOnlyMembers(ca, before[p]);
      if p !in dirty {
        forall w | w in before[p] ensures Live(ca, w.cref)
        {
          assert BinSound(ca, p, w, dirty);
        }
      }
    }
    forall p, w | p in after && w in after[p]
      ensures BinSound(ca, p, w, {})
    {
      assert w in before[p];
      assert BinSound(ca, p, w, dirty);
    }
    forall p, cr | Live(ca, cr) && Watched(before, p, cr)
      ensures Watched(after, p, cr)
    {
      var w :| w in before[p] && w.cref == cr;
      assert w in after[p];
    }
    forall i, w | 0 <= i < k && i < |a.trail| && a.trail[i] in after && w in after[a.trail[i]]
      ensures BinEntryOk(ca, a, a.trail[i], w)
    {
      assert w in before[a.trail[i]];
    }
  }

  // ---- Reordering a binary clause ----

  lemma SwapBinary(ca: ClauseDb, ws: WatchLists, wb: WatchLists, dw: set<Lit>, db: set<Lit>, n: nat, cr: CRef,
      a: Assignment, k: nat, m: nat)
    requires TwoWatch(ca, ws, a, k) && BinDone(ca, wb, a, m)
    requires WellFormedDb(ca, n) && LongOk(ca, ws, dw, n) && BinOk(ca, wb, db, n)
    requires cr in ca && |ca[cr].lits| == 2
    ensures var cb := ca[cr := ca[cr].(lits := Swapped(ca[cr].lits, 0, 1))];
      && WellFormedDb(cb, n) && LongOk(cb, ws, dw, n) && BinOk(cb, wb, db, n) && SameDb(ca, cb)
      && TwoWatch(cb, ws, a, k) && BinDone(cb, wb, a, m)
  {
    var cb := ca[cr := ca[cr].(lits := Swapped(ca[cr].lits, 0, 1))];
    forall p, w | p in ws && w in ws[p]
      ensures WatchSound(cb, p, w, dw) && w.cref != cr
    {
      assert WatchSound(ca, p, w, dw);
    }
    forall p, w | p in wb && w in wb[p]
      ensures BinSound(cb, p, w, db)
    {
      assert BinSound(ca, p, w, db);
    }
    forall d | Live(cb, d) ensures Live(ca, d) {}
    forall i, w | 0 <= i < k && i < |a.trail| && a.trail[i] in ws && w in ws[a.trail[i]]
      ensures EntryOk(cb, a, a.trail[i], w)
    {
      assert EntryOk(ca, a, a.trail[i], w);
    }
    forall i, w | 0 <= i < m && i < |a.trail| && a.trail[i] in wb && w in wb[a.trail[i]]
      ensures BinEntryOk(cb, a, a.trail[i], w)
    {
      assert BinEntryOk(ca, a, a.trail[i], w);
    }
  }
}
