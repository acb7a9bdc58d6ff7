// The two-watched-literal scheme with blockers, kept in per-literal lists, and
// the separate lists for binary clauses.
module Watches {
  import opened SolverTypes
  import opened Assignments

  datatype Watcher = Watcher(cref: CRef, blocker: Lit)

  type WatchLists = map<Lit, seq<Watcher>>

  // A watcher in the list of `p` belongs to a long clause watching the negation
  // of `p`; lists that may hold watchers of deleted clauses are marked dirty.
  ghost predicate WatchSound(ca: ClauseDb, p: Lit, w: Watcher, dirty: set<Lit>)
  {
    && w.cref in ca
    && |ca[w.cref].lits| > 2
    && (Live(ca, w.cref) ==>
      && (ca[w.cref].lits[0] == Neg(p) || ca[w.cref].lits[1] == Neg(p))
      && w.blocker in ca[w.cref].lits
      && w.blocker != Neg(p))
    && (!Live(ca, w.cref) ==> p in dirty)
  }

  ghost predicate UniqueRefs(l: seq<Watcher>)
  {
    forall i, j :: 0 <= i < j < |l| ==> l[i].cref != l[j].cref
  }

  ghost predicate Watched(ws: WatchLists, p: Lit, cr: CRef)
  {
    p in ws && exists w :: w in ws[p] && w.cref == cr
  }

  ghost predicate ListsFor(ws: WatchLists, n: nat)
  {
    forall p :: p in ws <==> p.v < n
  }

  ghost predicate LongOk(ca: ClauseDb, ws: WatchLists, dirty: set<Lit>, n: nat)
  {
    && ListsFor(ws, n)
    && (forall p, w :: p in ws && w in ws[p] ==> WatchSound(ca, p, w, dirty))
    && (forall p :: p in ws ==> UniqueRefs(ws[p]))
    && (forall cr :: Live(ca, cr) && |ca[cr].lits| > 2 ==>
      Watched(ws, Neg(ca[cr].lits[0]), cr) && Watched(ws, Neg(ca[cr].lits[1]), cr))
  }

  // The watched literal of `c` other than the negation of `p`.
  function Other(c: seq<Lit>, p: Lit): Lit
    requires |c| > 1
  {
    if c[0] == Neg(p) then c[1] else c[0]
  }

  // What processing a true literal `p` leaves behind for one of its watchers:
  // the blocker or the other watch is true, at no higher level than `p`.
  ghost predicate EntryOk(ca: ClauseDb, a: Assignment, p: Lit, w: Watcher)
  {
    Live(ca, w.cref) && |ca[w.cref].lits| > 1 ==>
      a.TrueBy(w.blocker, a.Lev(p.v)) || a.TrueBy(Other(ca[w.cref].lits, p), a.Lev(p.v))
  }

  // The watch invariant for the first `k` literals of the trail.
  ghost predicate TwoWatch(ca: ClauseDb, ws: WatchLists, a: Assignment, k: nat)
  {
    forall i, w :: 0 <= i < k && i < |a.trail| && a.trail[i] in ws && w in ws[a.trail[i]] ==>
      EntryOk(ca, a, a.trail[i], w)
  }

  ghost predicate BinSound(ca: ClauseDb, p: Lit, w: Watcher, dirty: set<Lit>)
  {
    && w.cref in ca
    && |ca[w.cref].lits| == 2
    && (Live(ca, w.cref) ==>
      (ca[w.cref].lits[0] == Neg(p) && ca[w.cref].lits[1] == w.blocker)
      || (ca[w.cref].lits[1] == Neg(p) && ca[w.cref].lits[0] == w.blocker))
    && (!Live(ca, w.cref) ==> p in dirty)
  }

  ghost predicate BinOk(ca: ClauseDb, wb: WatchLists, dirty: set<Lit>, n: nat)
  {
    && ListsFor(wb, n)
    && (forall p, w :: p in wb && w in wb[p] ==> BinSound(ca, p, w, dirty))
    && (forall cr :: Live(ca, cr) && |ca[cr].lits| == 2 ==>
      Watched(wb, Neg(ca[cr].lits[0]), cr) && Watched(wb, Neg(ca[cr].lits[1]), cr))
  }

  ghost predicate BinEntryOk(ca: ClauseDb, a: Assignment, p: Lit, w: Watcher)
  {
    Live(ca, w.cref) ==> a.TrueBy(w.blocker, a.Lev(p.v))
  }

  ghost predicate BinDone(ca: ClauseDb, wb: WatchLists, a: Assignment, k: nat)
  {
    forall i, w :: 0 <= i < k && i < |a.trail| && a.trail[i] in wb && w in wb[a.trail[i]] ==>
      BinEntryOk(ca, a, a.trail[i], w)
  }

  // ---- Assignment changes ----

  lemma EnqueueWatches(ca: ClauseDb, ws: WatchLists, wb: WatchLists, a: Assignment, p: Lit, from: Option<CRef>, k: nat,
      m: nat)
    requires TrailOk(a) && p.v < |a.assigns| && a.Val(p) == LUndef
    requires k <= |a.trail| && TwoWatch(ca, ws, a, k)
    requires m <= |a.trail| && BinDone(ca, wb, a, m)
    ensures TwoWatch(ca, ws, Enqueued(a, p, from), k)
    ensures BinDone(ca, wb, Enqueued(a, p, from), m)
  {
    var b := Enqueued(a, p, from);
    EnqueueVals(a, p, from);
    forall i, w | 0 <= i < k && b.trail[i] in ws && w in ws[b.trail[i]]
      ensures EntryOk(ca, b, b.trail[i], w)
    {
      assert b.trail[i] == a.trail[i] && a.Val(a.trail[i]) == LTrue;
      assert EntryOk(ca, a, a.trail[i], w);
    }
    forall i, w | 0 <= i < m && b.trail[i] in wb && w in wb[b.trail[i]]
      ensures BinEntryOk(ca, b, b.trail[i], w)
    {
      assert b.trail[i] == a.trail[i] && a.Val(a.trail[i]) == LTrue;
      assert BinEntryOk(ca, a, a.trail[i], w);
    }
  }

  lemma CutWatches(ca: ClauseDb, ws: WatchLists, wb: WatchLists, a: Assignment, b: Assignment, k: nat, m: nat)
    requires TrailOk(a) && k < |a.lim| && CutTo(a, b, k)
    requires a.lim[k] <= m && TwoWatch(ca, ws, a, m) && BinDone(ca, wb, a, m)
    ensures TwoWatch(ca, ws, b, a.lim[k]) && BinDone(ca, wb, b, a.lim[k])
  {
    CutVals(a, b, k);
    forall i, w | 0 <= i < a.lim[k] && b.trail[i] in ws && w in ws[b.trail[i]]
      ensures EntryOk(ca, b, b.trail[i], w)
    {
      assert b.trail[i] == a.trail[i];
      assert EntryOk(ca, a, a.trail[i], w) && LevelOk(a, i) && a.Val(a.trail[i]) == LTrue;
      LevelBounds(a, a.trail[i].v);
    }
    forall i, w | 0 <= i < a.lim[k] && b.trail[i] in wb && w in wb[b.trail[i]]
      ensures BinEntryOk(ca, b, b.trail[i], w)
    {
      assert b.trail[i] == a.trail[i];
      assert BinEntryOk(ca, a, a.trail[i], w) && LevelOk(a, i) && a.Val(a.trail[i]) == LTrue;
      LevelBounds(a, a.trail[i].v);
    }
  }

  // ---- Reading the invariants when the queue is empty ----

  // A clause is propagated in full: it is not falsified, and if only one of
  // its literals is not false, that literal is true.
  ghost predicate FullyPropagated(a: Assignment, c: seq<Lit>)
  {
    || (exists l :: l in c && a.Val(l) == LTrue)
    || (exists i, j :: 0 <= i < j < |c| && a.Val(c[i]) == LUndef && a.Val(c[j]) == LUndef)
  }

  lemma WatchesMeanPropagated(ca: ClauseDb, ws: WatchLists, wb: WatchLists, a: Assignment, dw: set<Lit>, db: set<Lit>,
      n: nat, cr: CRef)
    requires TrailOk(a) && WellFormedDb(ca, n)
    requires LongOk(ca, ws, dw, n) && BinOk(ca, wb, db, n)
    requires TwoWatch(ca, ws, a, |a.trail|) && BinDone(ca, wb, a, |a.trail|)
    requires Live(ca, cr)
    ensures FullyPropagated(a, ca[cr].lits)
  {
    var c := ca[cr].lits;
    if a.Val(c[0]) == LFalse {
      WatchedOnTrail(a, c[0]);
      OneWatchFalse(ca, ws, wb, a, dw, db, n, cr, c[0], |a.trail|);
    } else if a.Val(c[1]) == LFalse {
      WatchedOnTrail(a, c[1]);
      OneWatchFalse(ca, ws, wb, a, dw, db, n, cr, c[1], |a.trail|);
    } else if a.Val(c[0]) == LUndef && a.Val(c[1]) == LUndef {
    } else {
      assert c[0] in c && c[1] in c;
    }
  }

  lemma WatchedOnTrail(a: Assignment, l: Lit)
    requires TrailOk(a) && a.Val(l) == LFalse
    ensures a.Pos(l.v) < |a.trail|
  {
  }

  // The other watch of the clause, or the blocker its watcher records, is true at
  // level `k` or lower.
  ghost predicate Covered(ca: ClauseDb, lists: WatchLists, a: Assignment, cr: CRef, l: Lit, k: nat)
    requires cr in ca && |ca[cr].lits| > 1
  {
    || a.TrueBy(Other(ca[cr].lits, Neg(l)), k)
    || (Neg(l) in lists
      && exists w ::
        && w in lists[Neg(l)] && w.cref == cr && w.blocker in ca[cr].lits
        && w.blocker != l && a.TrueBy(w.blocker, k))
  }

  // A watched literal made false within the drained part of the trail is covered at
  // its own level.
  lemma OneWatchFalse(ca: ClauseDb, ws: WatchLists, wb: WatchLists, a: Assignment, dw: set<Lit>, db: set<Lit>, n: nat,
      cr: CRef, l: Lit, k: nat)
    requires TrailOk(a) && WellFormedDb(ca, n)
    requires LongOk(ca, ws, dw, n) && BinOk(ca, wb, db, n)
    requires TwoWatch(ca, ws, a, k) && BinDone(ca, wb, a, k)
    requires Live(ca, cr) && (l == ca[cr].lits[0] || l == ca[cr].lits[1])
    requires a.Val(l) == LFalse && a.Pos(l.v) < k
    ensures Covered(ca, if |ca[cr].lits| > 2 then ws else wb, a, cr, l, a.Lev(l.v))
    ensures exists q :: q in ca[cr].lits && q != l && a.TrueBy(q, a.Lev(l.v))
  {
    var c := ca[cr].lits;
    var p := Neg(l);
    ValNeg(a, l);
    OnTrail(a, p);
    var i := a.Pos(p.v);
    if |c| > 2 {
      assert Watched(ws, p, cr);
      var w :| w in ws[p] && w.cref == cr;
      assert WatchSound(ca, p, w, dw) && EntryOk(ca, a, a.trail[i], w);
      assert Other(c, p) in c && Other(c, p) != l;
    } else {
      assert Watched(wb, p, cr);
      var w :| w in wb[p] && w.cref == cr;
      assert BinSound(ca, p, w, db) && BinEntryOk(ca, a, a.trail[i], w);
      assert w.blocker in c && w.blocker != l;
    }
  }

  // ---- Steps of long propagation ----

  // Swapping the two watched literals changes nothing the lists speak about.
  lemma SwapFront(ca: ClauseDb, cb: ClauseDb, ws: WatchLists, dirty: set<Lit>, n: nat, cr: CRef)
    requires LongOk(ca, ws, dirty, n) && WellFormedDb(ca, n)
    requires cr in ca && |ca[cr].lits| > 2
    requires cb == ca[cr := ca[cr].(lits := Swapped(ca[cr].lits, 0, 1))]
    ensures LongOk(cb, ws, dirty, n) && WellFormedDb(cb, n) && SameDb(ca, cb)
  {
    forall p, w | p in ws && w in ws[p]
      ensures WatchSound(cb, p, w, dirty)
    {
      assert WatchSound(ca, p, w, dirty);
    }
    forall d | Live(cb, d) && |cb[d].lits| > 2
      ensures Watched(ws, Neg(cb[d].lits[0]), d) && Watched(ws, Neg(cb[d].lits[1]), d)
    {
      assert Live(ca, d);
    }
  }

  lemma SwapFrontEntries(ca: ClauseDb, cb: ClauseDb, ws: WatchLists, dirty: set<Lit>, n: nat, cr: CRef, a: Assignment,
      k: nat)
    requires LongOk(ca, ws, dirty, n) && WellFormedDb(ca, n)
    requires cr in ca && |ca[cr].lits| > 2
    requires cb == ca[cr := ca[cr].(lits := Swapped(ca[cr].lits, 0, 1))]
    requires TwoWatch(ca, ws, a, k)
    ensures TwoWatch(cb, ws, a, k)
    ensures forall p, w :: p in ws && w in ws[p] && EntryOk(ca, a, p, w) ==> EntryOk(cb, a, p, w)
  {
    forall p, w | p in ws && w in ws[p] && EntryOk(ca, a, p, w)
      ensures EntryOk(cb, a, p, w)
    {
      assert WatchSound(ca, p, w, dirty);
    }
  }

  // Giving a watcher a new blocker.
  lemma Reblock(ca: ClauseDb, ws: WatchLists, n: nat, p: Lit, kept: seq<Watcher>, w: Watcher, x: Watcher,
      rest: seq<Watcher>)
    requires p in ws && LongOk(ca, ws[p := kept + [w] + rest], {}, n)
    requires x.cref == w.cref && WatchSound(ca, p, x, {})
    ensures LongOk(ca, ws[p := kept + [x] + rest], {}, n)
  {
    var before := ws[p := kept + [w] + rest];
    var after := ws[p := kept + [x] + rest];
    forall q, y | q in after && y in after[q]
      ensures WatchSound(ca, q, y, {})
    {
      if q != p || y != x {
        assert q in before && y in before[q];
      }
    }
    assert UniqueRefs(after[p]) by {
      assert UniqueRefs(before[p]);
      forall i, j | 0 <= i < j < |after[p]|
        ensures after[p][i].cref != after[p][j].cref
      {
        assert before[p][i].cref == after[p][i].cref && before[p][j].cref == after[p][j].cref;
      }
    }
    forall q | q in after ensures UniqueRefs(after[q])
    {
      if q != p {
        assert UniqueRefs(before[q]) && before[q] == after[q];
      }
    }
    forall d, q | Watched(before, q, d)
      ensures Watched(after, q, d)
    {
      var y: Watcher :| y in before[q] && y.cref == d;
      if q == p && y == w {
        assert x in after[q];
      } else {
        assert y in after[q];
      }
    }
  }

  // A list without repeated clauses stays so when one watcher is taken out, and
  // no remaining watcher names its clause.
  lemma TakeOut(kept: seq<Watcher>, w: Watcher, rest: seq<Watcher>)
    requires UniqueRefs(kept + [w] + rest)
    ensures UniqueRefs(kept + rest)
    ensures forall y :: y in kept + rest ==> y.cref != w.cref
  {
    var l := kept + [w] + rest;
    forall i, j | 0 <= i < j < |kept + rest|
      ensures (kept + rest)[i].cref != (kept + rest)[j].cref
    {
      var i' := if i < |kept| then i else i + 1;
      var j' := if j < |kept| then j else j + 1;
      assert l[i'] == (kept + rest)[i] && l[j'] == (kept + rest)[j];
    }
    forall y | y in kept + rest ensures y.cref != w.cref
    {
      var i :| 0 <= i < |kept + rest| && (kept + rest)[i] == y;
      if i < |kept| {
        assert l[i] == y && l[|kept|] == w;
      } else {
        assert l[i + 1] == y && l[|kept|] == w;
      }
    }
  }

  // What is known when the watch of `w` in the list of `p` moves to index `m`.
  ghost predicate CanMove(ca: ClauseDb, ws: WatchLists, n: nat, p: Lit, kept: seq<Watcher>, w: Watcher,
      rest: seq<Watcher>, m: nat)
  {
    && WellFormedDb(ca, n)
    && p in ws
    && LongOk(ca, ws[p := kept + [w] + rest], {}, n)
    && Live(ca, w.cref)
    && 2 <= m < |ca[w.cref].lits|
    && ca[w.cref].lits[1] == Neg(p)
  }

  // The literal whose list receives the moved watcher, and the lists after it.
  function MoveTo(ca: ClauseDb, w: Watcher, m: nat): Lit
    requires w.cref in ca && m < |ca[w.cref].lits|
  {
    Neg(ca[w.cref].lits[m])
  }

  function Moved(ca: ClauseDb, ws: WatchLists, p: Lit, kept: seq<Watcher>, w: Watcher, rest: seq<Watcher>,
      m: nat): WatchLists
    requires w.cref in ca && 0 <= m < |ca[w.cref].lits| && MoveTo(ca, w, m) in ws
  {
    var t := MoveTo(ca, w, m);
    ws[t := ws[t] + [Watcher(w.cref, ca[w.cref].lits[0])]][p := kept + rest]
  }

  function Rewatched(ca: ClauseDb, cr: CRef, m: nat): ClauseDb
    requires cr in ca && 1 < |ca[cr].lits| && m < |ca[cr].lits|
  {
    ca[cr := ca[cr].(lits := Swapped(ca[cr].lits, 1, m))]
  }

  lemma MoveTarget(ca: ClauseDb, ws: WatchLists, n: nat, p: Lit, kept: seq<Watcher>, w: Watcher, rest: seq<Watcher>,
      m: nat)
    requires CanMove(ca, ws, n, p, kept, w, rest, m)
    ensures MoveTo(ca, w, m) in ws && MoveTo(ca, w, m).v != p.v
    ensures MoveTo(ca, w, m).v != ca[w.cref].lits[0].v
    ensures forall y :: y in ws[MoveTo(ca, w, m)] ==> y.cref != w.cref
  {
    var c := ca[w.cref].lits;
    var t := MoveTo(ca, w, m);
    var before := ws[p := kept + [w] + rest];
    assert c[m] in c;
    assert t in before;
    assert c[m].v != c[0].v && c[m].v != c[1].v;
    forall y | y in ws[t] ensures y.cref != w.cref
    {
      assert y in before[t];
      assert WatchSound(ca, t, y, {});
    }
  }

  // The only other list naming the moved clause is that of its other watch.
  lemma MoveOther(ca: ClauseDb, ws: WatchLists, n: nat, p: Lit, kept: seq<Watcher>, w: Watcher, rest: seq<Watcher>,
      q: Lit, y: Watcher, m: nat)
    requires CanMove(ca, ws, n, p, kept, w, rest, m)
    requires q in ws && q != p && y in ws[q] && y.cref == w.cref
    ensures q == Neg(ca[w.cref].lits[0])
  {
    var before := ws[p := kept + [w] + rest];
    assert y in before[q];
    assert WatchSound(ca, q, y, {});
  }

  lemma MoveSound(ca: ClauseDb, ws: WatchLists, n: nat, p: Lit, kept: seq<Watcher>, w: Watcher, rest: seq<Watcher>,
      m: nat, q: Lit, y: Watcher)
    requires CanMove(ca, ws, n, p, kept, w, rest, m) && MoveTo(ca, w, m) in ws
    requires q in Moved(ca, ws, p, kept, w, rest, m) && y in Moved(ca, ws, p, kept, w, rest, m)[q]
    ensures WatchSound(Rewatched(ca, w.cref, m), q, y, {})
  {
    var before := ws[p := kept + [w] + rest];
    var cb := Rewatched(ca, w.cref, m);
    MoveTarget(ca, ws, n, p, kept, w, rest, m);
    assert UniqueRefs(before[p]);
    TakeOut(kept, w, rest);
    var t := MoveTo(ca, w, m);
    if q == t && y !in ws[t] {
      assert y == Watcher(w.cref, ca[w.cref].lits[0]);
      assert cb[w.cref].lits[1] == Neg(q) && y.blocker == cb[w.cref].lits[0];
    } else {
      assert y in before[q];
      assert WatchSound(ca, q, y, {});
      if y.cref == w.cref {
        MoveOther(ca, ws, n, p, kept, w, rest, q, y, m);
        assert cb[w.cref].lits[0] == Neg(q);
      }
    }
  }

  lemma MoveUnique(ca: ClauseDb, ws: WatchLists, n: nat, p: Lit, kept: seq<Watcher>, w: Watcher, rest: seq<Watcher>,
      m: nat, q: Lit)
    requires CanMove(ca, ws, n, p, kept, w, rest, m) && MoveTo(ca, w, m) in ws
    requires q in ws
    ensures UniqueRefs(Moved(ca, ws, p, kept, w, rest, m)[q])
  {
    var before := ws[p := kept + [w] + rest];
    MoveTarget(ca, ws, n, p, kept, w, rest, m);
    assert UniqueRefs(before[p]) && UniqueRefs(before[q]);
    TakeOut(kept, w, rest);
    if q == MoveTo(ca, w, m) {
      var l := ws[q] + [Watcher(w.cref, ca[w.cref].lits[0])];
      forall i | 0 <= i < |ws[q]| ensures l[i].cref != w.cref
      {
        assert l[i] in ws[q];
      }
    }
  }

  lemma MoveWatched(ca: ClauseDb, ws: WatchLists, n: nat, p: Lit, kept: seq<Watcher>, w: Watcher, rest: seq<Watcher>,
      m: nat, q: Lit, e: CRef)
    requires CanMove(ca, ws, n, p, kept, w, rest, m) && MoveTo(ca, w, m) in ws
    requires Watched(ws[p := kept + [w] + rest], q, e)
    requires e != w.cref || q != p
    ensures Watched(Moved(ca, ws, p, kept, w, rest, m), q, e)
  {
    var before := ws[p := kept + [w] + rest];
    MoveTarget(ca, ws, n, p, kept, w, rest, m);
    var y: Watcher :| y in before[q] && y.cref == e;
    assert y in Moved(ca, ws, p, kept, w, rest, m)[q];
  }

  // Replacing the watch on the negation of `p` by the literal at index `m`.
  lemma MoveWatch(ca: ClauseDb, ws: WatchLists, n: nat, p: Lit, kept: seq<Watcher>, w: Watcher, rest: seq<Watcher>,
      m: nat)
    requires CanMove(ca, ws, n, p, kept, w, rest, m) && MoveTo(ca, w, m) in ws
    ensures LongOk(Rewatched(ca, w.cref, m), Moved(ca, ws, p, kept, w, rest, m), {}, n)
    ensures WellFormedDb(Rewatched(ca, w.cref, m), n) && SameDb(ca, Rewatched(ca, w.cref, m))
  {
    hide LongOk, WellFormedDb, SameDb, CanMove;
    MoveDb(ca, ws, n, p, kept, w, rest, m);
    MoveLong(ca, ws, n, p, kept, w, rest, m);
  }

  lemma MoveDb(ca: ClauseDb, ws: WatchLists, n: nat, p: Lit, kept: seq<Watcher>, w: Watcher, rest: seq<Watcher>, m: nat)
    requires CanMove(ca, ws, n, p, kept, w, rest, m)
    ensures WellFormedDb(Rewatched(ca, w.cref, m), n) && SameDb(ca, Rewatched(ca, w.cref, m))
  {
    hide LongOk;
  }

  lemma MoveLong(ca: ClauseDb, ws: WatchLists, n: nat, p: Lit, kept: seq<Watcher>, w: Watcher, rest: seq<Watcher>,
      m: nat)
    requires CanMove(ca, ws, n, p, kept, w, rest, m) && MoveTo(ca, w, m) in ws
    ensures LongOk(Rewatched(ca, w.cref, m), Moved(ca, ws, p, kept, w, rest, m), {}, n)
  {
    hide WellFormedDb, WatchSound, UniqueRefs, Watched;
    var cb := Rewatched(ca, w.cref, m);
    var after := Moved(ca, ws, p, kept, w, rest, m);
    forall q, y | q in after && y in after[q]
      ensures WatchSound(cb, q, y, {})
    {
      MoveSound(ca, ws, n, p, kept, w, rest, m, q, y);
    }
    forall q | q in after ensures UniqueRefs(after[q])
    {
      MoveUnique(ca, ws, n, p, kept, w, rest, m, q);
    }
    forall e | Live(cb, e) && |cb[e].lits| > 2
      ensures Watched(after, Neg(cb[e].lits[0]), e) && Watched(after, Neg(cb[e].lits[1]), e)
    {
      MoveBoth(ca, ws, n, p, kept, w, rest, m, e);
    }
  }

  // A long clause is still watched by its first two literals.
  lemma MoveBoth(ca: ClauseDb, ws: WatchLists, n: nat, p: Lit, kept: seq<Watcher>, w: Watcher, rest: seq<Watcher>,
      m: nat, e: CRef)
    requires CanMove(ca, ws, n, p, kept, w, rest, m) && MoveTo(ca, w, m) in ws
    requires Live(Rewatched(ca, w.cref, m), e) && |Rewatched(ca, w.cref, m)[e].lits| > 2
    ensures var c := Rewatched(ca, w.cref, m)[e].lits;
      && Watched(Moved(ca, ws, p, kept, w, rest, m), Neg(c[0]), e)
      && Watched(Moved(ca, ws, p, kept, w, rest, m), Neg(c[1]), e)
  {
    hide WellFormedDb, WatchSound, UniqueRefs;
    var before := ws[p := kept + [w] + rest];
    MoveTarget(ca, ws, n, p, kept, w, rest, m);
    assert Live(ca, e);
    assert Watched(before, Neg(ca[e].lits[0]), e);
    if e == w.cref {
      FirstNotMoved(ca, n, w.cref);
    }
    MoveWatched(ca, ws, n, p, kept, w, rest, m, Neg(ca[e].lits[0]), e);
    if e == w.cref {
      assert Watcher(w.cref, ca[w.cref].lits[0]) in Moved(ca, ws, p, kept, w, rest, m)[MoveTo(ca, w, m)];
    } else {
      assert Watched(before, Neg(ca[e].lits[1]), e);
      MoveWatched(ca, ws, n, p, kept, w, rest, m, Neg(ca[e].lits[1]), e);
    }
  }

  lemma FirstNotMoved(ca: ClauseDb, n: nat, cr: CRef)
    requires WellFormedDb(ca, n) && cr in ca && |ca[cr].lits| >= 2
    ensures Neg(ca[cr].lits[0]) != Neg(ca[cr].lits[1])
  {
  }

  // Moving a watch to a literal that is not false keeps the entries already
  // settled for earlier trail literals.
  lemma MoveEntries(ca: ClauseDb, ws: WatchLists, n: nat, p: Lit, kept: seq<Watcher>, w: Watcher, rest: seq<Watcher>,
      m: nat, a: Assignment, k: nat)
    requires CanMove(ca, ws, n, p, kept, w, rest, m) && MoveTo(ca, w, m) in ws
    requires TrailOk(a) && k < |a.trail| && a.trail[k] == p
    requires a.Val(ca[w.cref].lits[m]) != LFalse
    requires TwoWatch(ca, ws[p := kept + [w] + rest], a, k)
    ensures TwoWatch(Rewatched(ca, w.cref, m), Moved(ca, ws, p, kept, w, rest, m), a, k)
  {
    var c := ca[w.cref].lits;
    var t := MoveTo(ca, w, m);
    var cb := Rewatched(ca, w.cref, m);
    ValNeg(a, c[m]);
    ValNeg(a, c[1]);
    var before := ws[p := kept + [w] + rest];
    var after := Moved(ca, ws, p, kept, w, rest, m);
    forall i, y | 0 <= i < k && a.trail[i] in after && y in after[a.trail[i]]
      ensures EntryOk(cb, a, a.trail[i], y)
    {
      var q := a.trail[i];
      assert a.Val(q) == LTrue && q != t;
      assert q != p by { assert a.Pos(q.v) == i && a.Pos(p.v) == k; }
      assert y in before[q];
      assert EntryOk(ca, a, q, y);
      if y.cref == w.cref {
        MoveOther(ca, ws, n, p, kept, w, rest, q, y, m);
        assert Other(c, q) == c[1] && a.Val(c[1]) != LTrue;
      }
    }
  }

  // The watchers of `p` settled so far are not touched by the move.
  lemma MoveKept(ca: ClauseDb, ws: WatchLists, n: nat, p: Lit, kept: seq<Watcher>, w: Watcher, rest: seq<Watcher>,
      m: nat, a: Assignment)
    requires CanMove(ca, ws, n, p, kept, w, rest, m)
    requires forall y :: y in kept ==> EntryOk(ca, a, p, y)
    ensures forall y :: y in kept ==> EntryOk(Rewatched(ca, w.cref, m), a, p, y)
  {
    assert UniqueRefs(ws[p := kept + [w] + rest][p]);
    TakeOut(kept, w, rest);
    forall y | y in kept ensures EntryOk(Rewatched(ca, w.cref, m), a, p, y)
    {
      assert y in kept + rest;
      assert EntryOk(ca, a, p, y);
    }
  }
}
