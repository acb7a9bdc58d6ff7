// The invariant of the CDCL engine over plain values, and how the elementary
// steps of the search preserve it.
module SolverInvariant {
  import opened Sets
  import opened SolverTypes
  import opened Assignments
  import opened Watches
  import opened WatchEdits

  // Trail, reasons, clause data base, watch lists and meaning fit together.
  ghost predicate Consistent(f: set<seq<Lit>>, ca: ClauseDb, ws: WatchLists, wb: WatchLists, dw: set<Lit>,
      db: set<Lit>, a: Assignment)
  {
    && TrailOk(a)
    && WellFormedDb(ca, |a.assigns|)
    && ReasonsOk(ca, a)
    && LongOk(ca, ws, dw, |a.assigns|)
    && BinOk(ca, wb, db, |a.assigns|)
    && SemDown(f, ca, a)
    && SemUp(f, ca, a)
    && OverFormula(f, ca)
  }

  // The first `k` trail literals went through the long lists and the first `m`
  // through the binary lists.
  ghost predicate Drained(ca: ClauseDb, ws: WatchLists, wb: WatchLists, a: Assignment, k: nat, m: nat)
  {
    k <= |a.trail| && m <= |a.trail| && TwoWatch(ca, ws, a, k) && BinDone(ca, wb, a, m)
  }

  lemma CutConsistent(f: set<seq<Lit>>, ca: ClauseDb, ws: WatchLists, wb: WatchLists, dw: set<Lit>, db: set<Lit>,
      a: Assignment, b: Assignment, k: nat, m: nat)
    requires Consistent(f, ca, ws, wb, dw, db, a) && k < |a.lim| && CutTo(a, b, k)
    requires a.lim[k] <= m && Drained(ca, ws, wb, a, m, m)
    ensures Consistent(f, ca, ws, wb, dw, db, b) && Drained(ca, ws, wb, b, |b.trail|, |b.trail|)
  {
    CutTrail(a, b, k);
    CutReasons(ca, a, b, k);
    CutSem(f, ca, a, b, k);
    CutWatches(ca, ws, wb, a, b, k, m);
  }

  lemma OpenConsistent(f: set<seq<Lit>>, ca: ClauseDb, ws: WatchLists, wb: WatchLists, dw: set<Lit>, db: set<Lit>,
      a: Assignment, k: nat, m: nat)
    requires Consistent(f, ca, ws, wb, dw, db, a) && Drained(ca, ws, wb, a, k, m)
    ensures Consistent(f, ca, ws, wb, dw, db, Opened(a)) && Drained(ca, ws, wb, Opened(a), k, m)
  {
    OpenLevel(f, ca, a);
    forall i, w | 0 <= i < k && a.trail[i] in ws && w in ws[a.trail[i]]
      ensures EntryOk(ca, Opened(a), a.trail[i], w)
    {
      assert EntryOk(ca, a, a.trail[i], w);
    }
    forall i, w | 0 <= i < m && a.trail[i] in wb && w in wb[a.trail[i]]
      ensures BinEntryOk(ca, Opened(a), a.trail[i], w)
    {
      assert BinEntryOk(ca, a, a.trail[i], w);
    }
  }

  // A decision opens a level; a fact without reason at level 0 must be entailed.
  lemma DecideConsistent(f: set<seq<Lit>>, ca: ClauseDb, ws: WatchLists, wb: WatchLists, dw: set<Lit>, db: set<Lit>,
      a: Assignment, p: Lit, k: nat, m: nat)
    requires Consistent(f, ca, ws, wb, dw, db, a) && Drained(ca, ws, wb, a, k, m)
    requires p.v < |a.assigns| && a.Val(p) == LUndef
    requires if |a.lim| == 0 then Entails(f, [p]) else a.LevelStart() == |a.trail|
    ensures Consistent(f, ca, ws, wb, dw, db, Enqueued(a, p, None)) && Drained(ca, ws, wb, Enqueued(a, p, None), k, m)
  {
    EnqueueTrail(a, p, None);
    EnqueueReasons(ca, a, p, None);
    EnqueueSem(f, ca, a, p, None);
    EnqueueWatches(ca, ws, wb, a, p, None, k, m);
  }

  // A literal is propagated by a live clause all of whose other literals are false.
  ghost predicate UnitFor(ca: ClauseDb, a: Assignment, p: Lit, cr: CRef)
  {
    && Live(ca, cr)
    && p in ca[cr].lits
    && (|ca[cr].lits| > 2 ==> ca[cr].lits[0] == p)
    && forall q :: q in ca[cr].lits && q != p ==> a.Val(q) == LFalse
  }

  lemma PropagateConsistent(f: set<seq<Lit>>, ca: ClauseDb, ws: WatchLists, wb: WatchLists, dw: set<Lit>, db: set<Lit>,
      a: Assignment, p: Lit, cr: CRef, k: nat, m: nat)
    requires Consistent(f, ca, ws, wb, dw, db, a) && Drained(ca, ws, wb, a, k, m)
    requires p.v < |a.assigns| && a.Val(p) == LUndef && UnitFor(ca, a, p, cr)
    ensures Consistent(f, ca, ws, wb, dw, db, Enqueued(a, p, Some(cr)))
    ensures Drained(ca, ws, wb, Enqueued(a, p, Some(cr)), k, m)
  {
    EnqueueTrail(a, p, Some(cr));
    EnqueueReasons(ca, a, p, Some(cr));
    if |a.lim| == 0 {
      RootUnit(f, ca, a, cr, p);
    }
    EnqueueSem(f, ca, a, p, Some(cr));
    EnqueueWatches(ca, ws, wb, a, p, Some(cr), k, m);
  }

  // A live clause whose literals are all false, one of them at the current level.
  ghost predicate Falsified(ca: ClauseDb, a: Assignment, cr: CRef)
  {
    && Live(ca, cr)
    && (forall q :: q in ca[cr].lits ==> a.Val(q) == LFalse)
    && (exists q :: q in ca[cr].lits && a.Lev(q.v) == |a.lim|)
  }

  // With the queue empty no live clause is falsified or unit.
  lemma DrainedMeansPropagated(f: set<seq<Lit>>, ca: ClauseDb, ws: WatchLists, wb: WatchLists, dw: set<Lit>,
      db: set<Lit>, a: Assignment, cr: CRef)
    requires Consistent(f, ca, ws, wb, dw, db, a) && Drained(ca, ws, wb, a, |a.trail|, |a.trail|)
    requires Live(ca, cr)
    ensures FullyPropagated(a, ca[cr].lits)
  {
    WatchesMeanPropagated(ca, ws, wb, a, dw, db, |a.assigns|, cr);
  }

  // ---- Steps on one watcher ----

  // The clause database after exchanging the two watched literals of `cr`.
  function Flipped(ca: ClauseDb, cr: CRef): ClauseDb
    requires cr in ca && |ca[cr].lits| > 1
  {
    ca[cr := ca[cr].(lits := Swapped(ca[cr].lits, 0, 1))]
  }

  lemma FlipConsistent(f: set<seq<Lit>>, ca: ClauseDb, ws: WatchLists, wb: WatchLists, dw: set<Lit>, db: set<Lit>,
      a: Assignment, cr: CRef, k: nat, m: nat)
    requires Consistent(f, ca, ws, wb, dw, db, a) && Drained(ca, ws, wb, a, k, m)
    requires cr in ca && (|ca[cr].lits| > 2 ==> a.Val(ca[cr].lits[0]) != LTrue)
    ensures Consistent(f, Flipped(ca, cr), ws, wb, dw, db, a) && Drained(Flipped(ca, cr), ws, wb, a, k, m)
    ensures SameDb(ca, Flipped(ca, cr))
  {
    var n := |a.assigns|;
    var cb := Flipped(ca, cr);
    if |ca[cr].lits| == 2 {
      SwapBinary(ca, ws, wb, dw, db, n, cr, a, k, m);
    } else {
      SwapFront(ca, cb, ws, dw, n, cr);
      SwapFrontEntries(ca, cb, ws, dw, n, cr, a, k);
      LongOnlyBin(ca, cb, wb, db, n, cr, a, m);
    }
    ReorderSem(f, ca, cb, a);
    ReorderReasons(ca, cb, a);
  }

  // The binary lists do not depend on the order of literals in a long clause.
  lemma LongOnlyBin(ca: ClauseDb, cb: ClauseDb, wb: WatchLists, db: set<Lit>, n: nat, cr: CRef, a: Assignment, m: nat)
    requires BinOk(ca, wb, db, n) && BinDone(ca, wb, a, m) && SameDb(ca, cb)
    requires cr in ca && |ca[cr].lits| > 2 && forall d :: d in ca && d != cr ==> cb[d] == ca[d]
    ensures BinOk(cb, wb, db, n) && BinDone(cb, wb, a, m)
  {
    forall p, w | p in wb && w in wb[p]
      ensures BinSound(cb, p, w, db)
    {
      assert BinSound(ca, p, w, db);
    }
    forall d | Live(cb, d) ensures Live(ca, d) {}
    forall i, w | 0 <= i < m && i < |a.trail| && a.trail[i] in wb && w in wb[a.trail[i]]
      ensures BinEntryOk(cb, a, a.trail[i], w)
    {
      assert BinEntryOk(ca, a, a.trail[i], w);
    }
  }

  lemma MoveConsistent(f: set<seq<Lit>>, ca: ClauseDb, ws: WatchLists, wb: WatchLists, a: Assignment, p: Lit,
      kept: seq<Watcher>, w: Watcher, rest: seq<Watcher>, i: nat, k: nat, m: nat)
    requires p in ws && Consistent(f, ca, ws[p := kept + [w] + rest], wb, {}, {}, a)
    requires Drained(ca, ws[p := kept + [w] + rest], wb, a, k, m)
    requires k < |a.trail| && a.trail[k] == p
    requires Live(ca, w.cref) && 2 <= i < |ca[w.cref].lits| && ca[w.cref].lits[1] == Neg(p)
    requires a.Val(ca[w.cref].lits[i]) != LFalse && a.Val(ca[w.cref].lits[0]) != LTrue
    ensures MoveTo(ca, w, i) in ws && MoveTo(ca, w, i) != p
    ensures Consistent(f, Rewatched(ca, w.cref, i), Moved(ca, ws, p, kept, w, rest, i), wb, {}, {}, a)
    ensures Drained(Rewatched(ca, w.cref, i), Moved(ca, ws, p, kept, w, rest, i), wb, a, k, m)
    ensures SameDb(ca, Rewatched(ca, w.cref, i))
  {
    hide LongOk, OverFormula, SameDb, TrailOk, Moved, WellFormedDb, TwoWatch, BinOk;
    var n := |a.assigns|;
    var cb := Rewatched(ca, w.cref, i);
    MoveTarget(ca, ws, n, p, kept, w, rest, i);
    MoveWatch(ca, ws, n, p, kept, w, rest, i);
    MoveEntries(ca, ws, n, p, kept, w, rest, i, a, k);
    LongOnlyBin(ca, cb, wb, {}, n, w.cref, a, m);
    ReorderSem(f, ca, cb, a);
    ReorderReasons(ca, cb, a);
  }

  lemma ReblockConsistent(f: set<seq<Lit>>, ca: ClauseDb, ws: WatchLists, wb: WatchLists, a: Assignment, p: Lit,
      kept: seq<Watcher>, w: Watcher, x: Watcher, rest: seq<Watcher>, k: nat, m: nat)
    requires p in ws && Consistent(f, ca, ws[p := kept + [w] + rest], wb, {}, {}, a)
    requires Drained(ca, ws[p := kept + [w] + rest], wb, a, k, m)
    requires k < |a.trail| && a.trail[k] == p
    requires x.cref == w.cref && WatchSound(ca, p, x, {})
    ensures Consistent(f, ca, ws[p := kept + [x] + rest], wb, {}, {}, a)
    ensures Drained(ca, ws[p := kept + [x] + rest], wb, a, k, m)
  {
    Reblock(ca, ws, |a.assigns|, p, kept, w, x, rest);
    var before := ws[p := kept + [w] + rest];
    var after := ws[p := kept + [x] + rest];
    forall i, y | 0 <= i < k && a.trail[i] in after && y in after[a.trail[i]]
      ensures EntryOk(ca, a, a.trail[i], y)
    {
      assert a.trail[i] != p by { assert a.Pos(a.trail[i].v) == i && a.Pos(p.v) == k; }
      assert y in before[a.trail[i]];
    }
  }

  // ---- Watchers of the current literal that are settled ----

  ghost predicate Settled(ca: ClauseDb, a: Assignment, p: Lit, l: seq<Watcher>)
  {
    forall y :: y in l ==> EntryOk(ca, a, p, y)
  }

  lemma SettledEnqueue(ca: ClauseDb, a: Assignment, q: Lit, from: Option<CRef>, p: Lit, l: seq<Watcher>)
    requires TrailOk(a) && q.v < |a.assigns| && a.Val(q) == LUndef && a.Val(p) == LTrue
    requires Settled(ca, a, p, l)
    ensures Settled(ca, Enqueued(a, q, from), p, l)
  {
    EnqueueVals(a, q, from);
    forall y | y in l ensures EntryOk(ca, Enqueued(a, q, from), p, y)
    {
      assert EntryOk(ca, a, p, y);
    }
  }

  lemma SettledFlip(ca: ClauseDb, ws: WatchLists, dw: set<Lit>, n: nat, cr: CRef, a: Assignment, p: Lit,
      l: seq<Watcher>)
    requires LongOk(ca, ws, dw, n) && cr in ca && |ca[cr].lits| > 2 && DistinctVars(ca[cr].lits)
    requires p in ws && (forall y :: y in l ==> y in ws[p]) && Settled(ca, a, p, l)
    ensures Settled(Flipped(ca, cr), a, p, l)
  {
    forall y | y in l ensures EntryOk(Flipped(ca, cr), a, p, y)
    {
      assert EntryOk(ca, a, p, y) && WatchSound(ca, p, y, dw);
    }
  }

  // ---- What the invariant says about one binary watcher ----

  lemma BinaryWatcher(f: set<seq<Lit>>, ca: ClauseDb, ws: WatchLists, wb: WatchLists, a: Assignment, p: Lit, w: Watcher)
    requires Consistent(f, ca, ws, wb, {}, {}, a)
    requires p in wb && w in wb[p] && a.Val(p) == LTrue && a.Lev(p.v) == |a.lim|
    ensures Live(ca, w.cref) && w.blocker.v < |a.assigns| && |a.assigns| == |a.vardata| == |a.pos|
    ensures Neg(p) in ca[w.cref].lits && a.Val(Neg(p)) == LFalse
    ensures forall q :: q in ca[w.cref].lits <==> q == w.blocker || q == Neg(p)
    ensures a.Val(w.blocker) == LUndef ==> UnitFor(ca, a, w.blocker, w.cref)
    ensures a.Val(w.blocker) == LTrue ==> BinEntryOk(ca, a, p, w)
  {
    assert BinSound(ca, p, w, {});
    ValNeg(a, p);
    assert w.blocker in ca[w.cref].lits;
    if a.Val(w.blocker) == LTrue {
      LevelBounds(a, w.blocker.v);
    }
  }

  lemma BinaryEnqueued(f: set<seq<Lit>>, ca: ClauseDb, ws: WatchLists, wb: WatchLists, a: Assignment, p: Lit,
      w: Watcher)
    requires Consistent(f, ca, ws, wb, {}, {}, a)
    requires p in wb && w in wb[p] && a.Val(p) == LTrue && a.Lev(p.v) == |a.lim| && a.Val(w.blocker) == LUndef
    requires w.blocker.v < |a.assigns| == |a.vardata| == |a.pos|
    ensures var b := Enqueued(a, w.blocker, Some(w.cref));
      && BinEntryOk(ca, b, p, w)
      && (forall y :: BinEntryOk(ca, a, p, y) ==> BinEntryOk(ca, b, p, y))
      && b.Val(p) == LTrue && b.Lev(p.v) == a.Lev(p.v)
  {
    EnqueueVals(a, w.blocker, Some(w.cref));
  }

  // The list of the literal just dequeued is done: it joins the drained part.
  // The first `k` watchers of the list have their other literal true.
  ghost predicate BinVisited(ca: ClauseDb, a: Assignment, p: Lit, l: seq<Watcher>, k: nat)
  {
    k <= |l| && forall i :: 0 <= i < k ==> BinEntryOk(ca, a, p, l[i])
  }

  lemma NoneVisited(ca: ClauseDb, a: Assignment, p: Lit, l: seq<Watcher>)
    ensures BinVisited(ca, a, p, l, 0)
  {
  }

  // A watcher whose other literal is false gives a conflict.
  lemma BinaryConflict(f: set<seq<Lit>>, ca: ClauseDb, ws: WatchLists, wb: WatchLists, a: Assignment, p: Lit, k: nat)
    requires Consistent(f, ca, ws, wb, {}, {}, a) && p in wb && k < |wb[p]|
    requires a.Val(p) == LTrue && a.Lev(p.v) == |a.lim| && a.Val(wb[p][k].blocker) == LFalse
    ensures Falsified(ca, a, wb[p][k].cref) && Neg(p) in ca[wb[p][k].cref].lits
  {
    BinaryWatcher(f, ca, ws, wb, a, p, wb[p][k]);
    hide Consistent;
    assert a.Lev(Neg(p).v) == |a.lim|;
  }

  lemma BinaryKept(f: set<seq<Lit>>, ca: ClauseDb, ws: WatchLists, wb: WatchLists, a: Assignment, p: Lit, k: nat)
    requires Consistent(f, ca, ws, wb, {}, {}, a) && p in wb && k < |wb[p]|
    requires a.Val(p) == LTrue && a.Lev(p.v) == |a.lim| && BinVisited(ca, a, p, wb[p], k)
    ensures a.Val(wb[p][k].blocker) == LTrue ==> BinVisited(ca, a, p, wb[p], k + 1)
  {
    hide Consistent, BinEntryOk;
    BinaryWatcher(f, ca, ws, wb, a, p, wb[p][k]);
  }

  // An unassigned other literal is implied.
  lemma BinaryUnit(f: set<seq<Lit>>, ca: ClauseDb, ws: WatchLists, wb: WatchLists, a: Assignment, p: Lit, k: nat)
    requires Consistent(f, ca, ws, wb, {}, {}, a) && p in wb && k < |wb[p]|
    requires a.Val(p) == LTrue && a.Lev(p.v) == |a.lim| && BinVisited(ca, a, p, wb[p], k)
    requires a.Val(wb[p][k].blocker) == LUndef
    ensures wb[p][k].blocker.v < |a.assigns| == |a.vardata| == |a.pos|
    ensures UnitFor(ca, a, wb[p][k].blocker, wb[p][k].cref)
    ensures var b := Enqueued(a, wb[p][k].blocker, Some(wb[p][k].cref));
      BinVisited(ca, b, p, wb[p], k + 1) && b.Val(p) == LTrue && b.Lev(p.v) == a.Lev(p.v)
  {
    hide Consistent, BinEntryOk, UnitFor, Enqueued;
    BinaryWatcher(f, ca, ws, wb, a, p, wb[p][k]);
    BinaryEnqueued(f, ca, ws, wb, a, p, wb[p][k]);
  }

  lemma BinaryListDone(ca: ClauseDb, ws: WatchLists, wb: WatchLists, a: Assignment, p: Lit, k: nat)
    requires Drained(ca, ws, wb, a, k, k) && k < |a.trail| && a.trail[k] == p && p in wb
    requires BinVisited(ca, a, p, wb[p], |wb[p]|)
    ensures Drained(ca, ws, wb, a, k, k + 1)
  {
  }

  lemma TrailLiteral(f: set<seq<Lit>>, ca: ClauseDb, ws: WatchLists, wb: WatchLists, dw: set<Lit>, db: set<Lit>,
      a: Assignment, i: nat)
    requires Consistent(f, ca, ws, wb, dw, db, a) && i < |a.trail|
    ensures a.Val(a.trail[i]) == LTrue && a.trail[i].v < |a.assigns| && a.Pos(a.trail[i].v) == i
    ensures a.trail[i] in ws && a.trail[i] in wb
  {
  }

  lemma DrainedLess(ca: ClauseDb, ws: WatchLists, wb: WatchLists, a: Assignment, k: nat, m: nat, j: nat)
    requires Drained(ca, ws, wb, a, k, m) && j <= k && j <= m
    ensures Drained(ca, ws, wb, a, j, j)
  {
  }

  // `b` continues `a` by propagated literals of the current level only.
  ghost predicate Continues(a: Assignment, b: Assignment)
  {
    && |b.assigns| == |a.assigns| && b.lim == a.lim && a.trail <= b.trail
    && (forall i :: 0 <= i < |a.trail| ==>
      var v := a.trail[i].v; b.Lev(v) == a.Lev(v) && b.Why(v) == a.Why(v) && b.Val(a.trail[i]) == a.Val(a.trail[i]))
    && (forall i :: |a.trail| <= i < |b.trail| ==> var v := b.trail[i].v; b.Lev(v) == |b.lim| && b.Why(v).Some?)
  }

  lemma ContinuesTrans(a: Assignment, b: Assignment, c: Assignment)
    requires Continues(a, b) && Continues(b, c)
    ensures Continues(a, c)
  {
    forall i | 0 <= i < |a.trail| ensures a.trail[i] == b.trail[i] == c.trail[i] {}
  }

  lemma ContinuesEnqueue(f: set<seq<Lit>>, ca: ClauseDb, ws: WatchLists, wb: WatchLists, dw: set<Lit>, db: set<Lit>,
      a: Assignment, b: Assignment, p: Lit, cr: CRef)
    requires Consistent(f, ca, ws, wb, dw, db, b) && Continues(a, b)
    requires p.v < |b.assigns| == |b.vardata| == |b.pos| && b.Val(p) == LUndef
    ensures Continues(a, Enqueued(b, p, Some(cr)))
  {
    var c := Enqueued(b, p, Some(cr));
    EnqueueVals(b, p, Some(cr));
    forall i | 0 <= i < |b.trail| ensures c.trail[i] == b.trail[i] && b.Val(b.trail[i]) == LTrue {}
    assert Continues(b, c);
    ContinuesTrans(a, b, c);
  }

  // ---- What the invariant says about one long watcher ----

  lemma LongWatcher(f: set<seq<Lit>>, ca: ClauseDb, ws: WatchLists, wb: WatchLists, a: Assignment, p: Lit, w: Watcher)
    requires Consistent(f, ca, ws, wb, {}, {}, a)
    requires p in ws && w in ws[p] && a.Val(p) == LTrue && a.Lev(p.v) == |a.lim|
    ensures Live(ca, w.cref) && |ca[w.cref].lits| > 2
    ensures ca[w.cref].lits[0] == Neg(p) || ca[w.cref].lits[1] == Neg(p)
    ensures a.Val(Neg(p)) == LFalse
    ensures a.Val(w.blocker) == LTrue ==> EntryOk(ca, a, p, w)
  {
    assert WatchSound(ca, p, w, {});
    ValNeg(a, p);
    if a.Val(w.blocker) == LTrue {
      LevelBounds(a, w.blocker.v);
    }
  }

  // The clause has the negation of `p` in second place; `first` is its other watch.
  lemma LongFirst(f: set<seq<Lit>>, ca: ClauseDb, ws: WatchLists, wb: WatchLists, a: Assignment, p: Lit, w: Watcher,
      x: Watcher)
    requires Consistent(f, ca, ws, wb, {}, {}, a)
    requires p in ws && w in ws[p] && a.Val(p) == LTrue && a.Lev(p.v) == |a.lim|
    requires Live(ca, w.cref) && |ca[w.cref].lits| > 2 && ca[w.cref].lits[1] == Neg(p)
    requires x == Watcher(w.cref, ca[w.cref].lits[0])
    ensures WatchSound(ca, p, x, {}) && x.blocker.v < |a.assigns| == |a.vardata| == |a.pos|
    ensures a.Val(x.blocker) == LTrue ==> EntryOk(ca, a, p, x)
  {
    assert x.blocker in ca[w.cref].lits;
    if a.Val(x.blocker) == LTrue {
      LevelBounds(a, x.blocker.v);
    }
  }

  // No replacement watch exists: the clause is unit or falsified.
  lemma LongUnit(ca: ClauseDb, a: Assignment, p: Lit, cr: CRef)
    requires Live(ca, cr) && |ca[cr].lits| > 2 && ca[cr].lits[1] == Neg(p) && a.Val(Neg(p)) == LFalse
    requires forall i :: 2 <= i < |ca[cr].lits| ==> a.Val(ca[cr].lits[i]) == LFalse
    ensures UnitFor(ca, a, ca[cr].lits[0], cr)
    ensures a.Val(ca[cr].lits[0]) == LFalse ==> forall q :: q in ca[cr].lits ==> a.Val(q) == LFalse
    ensures Neg(p) in ca[cr].lits
  {
    var c := ca[cr].lits;
    forall q | q in c && q != c[0] ensures a.Val(q) == LFalse
    {
      var i :| 0 <= i < |c| && c[i] == q;
      assert i == 1 || i >= 2;
    }
  }

  lemma SettledUnit(ca: ClauseDb, a: Assignment, p: Lit, x: Watcher)
    requires TrailOk(a) && x.blocker.v < |a.assigns| && a.Val(x.blocker) == LUndef
    requires a.Val(p) == LTrue && a.Lev(p.v) == |a.lim|
    ensures EntryOk(ca, Enqueued(a, x.blocker, Some(x.cref)), p, x)
    ensures Enqueued(a, x.blocker, Some(x.cref)).Val(p) == LTrue
  {
    EnqueueVals(a, x.blocker, Some(x.cref));
  }

  // The whole list of `p` is settled: `p` joins the drained part.
  lemma LongListDone(ca: ClauseDb, ws: WatchLists, wb: WatchLists, a: Assignment, p: Lit, k: nat)
    requires Drained(ca, ws, wb, a, k, k + 1) && k < |a.trail| && a.trail[k] == p && p in ws
    requires Settled(ca, a, p, ws[p])
    ensures Drained(ca, ws, wb, a, k + 1, k + 1)
  {
  }

  lemma FlipSettled(f: set<seq<Lit>>, ca: ClauseDb, ws: WatchLists, wb: WatchLists, a: Assignment, cr: CRef, p: Lit,
      l: seq<Watcher>)
    requires Consistent(f, ca, ws, wb, {}, {}, a) && cr in ca && |ca[cr].lits| > 2
    requires p in ws && (forall y :: y in l ==> y in ws[p]) && Settled(ca, a, p, l)
    ensures Settled(Flipped(ca, cr), a, p, l)
  {
    SettledFlip(ca, ws, {}, |a.assigns|, cr, a, p, l);
  }

  lemma MoveSettled(f: set<seq<Lit>>, ca: ClauseDb, ws: WatchLists, wb: WatchLists, a: Assignment, p: Lit,
      kept: seq<Watcher>, w: Watcher, rest: seq<Watcher>, i: nat)
    requires p in ws && Consistent(f, ca, ws[p := kept + [w] + rest], wb, {}, {}, a)
    requires Live(ca, w.cref) && 2 <= i < |ca[w.cref].lits| && ca[w.cref].lits[1] == Neg(p)
    requires Settled(ca, a, p, kept)
    ensures Settled(Rewatched(ca, w.cref, i), a, p, kept)
  {
    MoveKept(ca, ws, |a.assigns|, p, kept, w, rest, i, a);
  }

  lemma SettledMore(ca: ClauseDb, a: Assignment, p: Lit, kept: seq<Watcher>, x: Watcher)
    requires Settled(ca, a, p, kept) && EntryOk(ca, a, p, x)
    ensures Settled(ca, a, p, kept + [x])
  {
  }

  lemma TrailOkOf(f: set<seq<Lit>>, ca: ClauseDb, ws: WatchLists, wb: WatchLists, dw: set<Lit>, db: set<Lit>,
      a: Assignment)
    requires Consistent(f, ca, ws, wb, dw, db, a)
    ensures TrailOk(a)
  {
  }

  // Every watcher refers to a clause.
  ghost predicate ListsRefer(ca: ClauseDb, ws: WatchLists)
  {
    forall p, w :: p in ws && w in ws[p] ==> w.cref in ca
  }

  lemma ListsReferToDb(f: set<seq<Lit>>, ca: ClauseDb, ws: WatchLists, wb: WatchLists, dw: set<Lit>, db: set<Lit>,
      a: Assignment)
    requires Consistent(f, ca, ws, wb, dw, db, a)
    ensures ListsRefer(ca, ws) && ListsRefer(ca, wb)
  {
    forall p, w | p in ws && w in ws[p] ensures w.cref in ca
    {
      assert WatchSound(ca, p, w, dw);
    }
    forall p, w | p in wb && w in wb[p] ensures w.cref in ca
    {
      assert BinSound(ca, p, w, db);
    }
  }

  lemma CleanConsistent(f: set<seq<Lit>>, ca: ClauseDb, ws: WatchLists, wb: WatchLists, wt: WatchLists, wu: WatchLists,
      dw: set<Lit>, db: set<Lit>, a: Assignment, k: nat)
    requires Consistent(f, ca, ws, wb, dw, db, a) && Drained(ca, ws, wb, a, k, k)
    requires Cleaned(ca, ws, wt, dw) && Cleaned(ca, wb, wu, db)
    ensures Consistent(f, ca, wt, wu, {}, {}, a) && Drained(ca, wt, wu, a, k, k)
  {
    CleanLong(ca, ws, wt, dw, |a.assigns|, a, k);
    CleanBin(ca, wb, wu, db, |a.assigns|, a, k);
  }

  lemma ContinuesSelf(a: Assignment)
    ensures Continues(a, a)
  {
  }

  lemma ContinuesLim(a: Assignment, b: Assignment)
    requires Continues(a, b)
    ensures a.lim == b.lim && a.trail <= b.trail && |a.assigns| == |b.assigns|
  {
  }

  lemma DrainedBounds(ca: ClauseDb, ws: WatchLists, wb: WatchLists, a: Assignment, k: nat, m: nat)
    requires Drained(ca, ws, wb, a, k, m)
    ensures k <= |a.trail| && m <= |a.trail|
  {
  }

  // Whatever waits in the queue belongs to the current level.
  lemma QueueLevel(f: set<seq<Lit>>, ca: ClauseDb, ws: WatchLists, wb: WatchLists, dw: set<Lit>, db: set<Lit>,
      a: Assignment, i: nat)
    requires Consistent(f, ca, ws, wb, dw, db, a) && a.LevelStart() <= i < |a.trail|
    ensures a.Lev(a.trail[i].v) == |a.lim|
    ensures |a.trail| <= |a.assigns|
  {
    assert LevelOk(a, i);
    LevelBounds(a, a.trail[i].v);
    TrailFits(a);
  }

  lemma TrailFits(a: Assignment)
    requires TrailOk(a)
    ensures |a.trail| <= |a.assigns|
  {
    var vars := set i | 0 <= i < |a.trail| :: a.trail[i].v;
    var all := Below(|a.assigns|);
    TrailVars(a, |a.trail|);
    assert vars <= all by {
      forall v | v in vars ensures v in all
      {
        var i :| 0 <= i < |a.trail| && a.trail[i].v == v;
        assert a.Val(a.trail[i]) == LTrue;
      }
    }
    SubsetSize(vars, all);
  }

  lemma {:induction false} TrailVars(a: Assignment, k: nat)
    requires TrailOk(a) && k <= |a.trail|
    ensures |set i | 0 <= i < k :: a.trail[i].v| == k
  {
    var vars := set i | 0 <= i < k :: a.trail[i].v;
    if k > 0 {
      TrailVars(a, k - 1);
      var less := set i | 0 <= i < k - 1 :: a.trail[i].v;
      assert vars == less + {a.trail[k - 1].v};
      assert a.trail[k - 1].v !in less by {
        assert a.Pos(a.trail[k - 1].v) == k - 1;
      }
    }
  }

  // ---- Reading reasons ----

  // The literal of an assigned variable on the trail.
  function TrailLit(a: Assignment, v: nat): Lit
  {
    Lit(v, !(v < |a.assigns| && a.assigns[v] == LTrue))
  }

  lemma ReasonFacts(f: set<seq<Lit>>, ca: ClauseDb, ws: WatchLists, wb: WatchLists, dw: set<Lit>, db: set<Lit>,
      a: Assignment, v: nat)
    requires Consistent(f, ca, ws, wb, dw, db, a)
    requires v < |a.assigns| && a.assigns[v] != LUndef && a.Lev(v) > 0
    ensures a.Pos(v) < |a.trail| && a.trail[a.Pos(v)] == TrailLit(a, v) && a.Val(TrailLit(a, v)) == LTrue
    ensures a.Lev(v) <= |a.lim|
    ensures a.Why(v).None? ==> a.Pos(v) == a.lim[a.Lev(v) - 1]
    ensures a.Why(v).Some? ==>
      Live(ca, a.Why(v).value) && ReasonFor(ca[a.Why(v).value].lits, a, TrailLit(a, v))
  {
    LevelBounds(a, v);
    assert ReasonOk(ca, a, a.Pos(v));
  }

  lemma ClauseShape(f: set<seq<Lit>>, ca: ClauseDb, ws: WatchLists, wb: WatchLists, dw: set<Lit>, db: set<Lit>,
      a: Assignment, cr: CRef)
    requires Consistent(f, ca, ws, wb, dw, db, a) && cr in ca
    ensures |ca[cr].lits| >= 2 && DistinctVars(ca[cr].lits) && VarsBelow(ca[cr].lits, |a.assigns|)
  {
  }

  // The clause lists the literal of `v` first and every other literal is false
  // and was assigned before it.
  ghost predicate LeadsTo(c: seq<Lit>, a: Assignment, v: nat)
  {
    && |c| >= 2 && c[0] == TrailLit(a, v)
    && forall i :: 1 <= i < |c| ==> c[i] != c[0] && a.Val(c[i]) == LFalse && a.Pos(c[i].v) < a.Pos(v)
  }

  lemma ReasonLeads(c: seq<Lit>, a: Assignment, v: nat)
    requires |c| >= 2 && DistinctVars(c) && ReasonFor(c, a, TrailLit(a, v)) && a.Val(TrailLit(a, v)) == LTrue
    ensures a.Val(c[0]) != LFalse ==> LeadsTo(c, a, v)
    ensures |c| > 2 ==> LeadsTo(c, a, v)
    ensures |c| == 2 && a.Val(c[0]) == LFalse ==> LeadsTo(Swapped(c, 0, 1), a, v)
  {
    var p := TrailLit(a, v);
    assert c[0] in c && c[1] in c;
    var i :| 0 <= i < |c| && c[i] == p;
    if a.Val(c[0]) != LFalse || |c| > 2 {
      assert c[0] == p;
      forall j | 1 <= j < |c| ensures c[j] != p && a.Val(c[j]) == LFalse && a.Pos(c[j].v) < a.Pos(v)
      {
        assert c[j] in c && c[j].v != c[0].v;
      }
    }
  }
}
