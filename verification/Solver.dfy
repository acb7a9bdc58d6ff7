// The CDCL engine: one object whose methods update the trail, the watch lists
// and the clause data base.
module SolverCore {
  import opened SolverTypes
  import opened Assignments
  import opened Watches
  import opened WatchEdits
  import opened ConflictAnalysis
  import opened SearchProgress
  import opened SolverInvariant
  import opened AnalysisSteps
  import opened LearntClauses
  import opened ReasonPaths
  import opened Assumptions
  import opened DatabaseSteps
  import opened LiteralOrder
  import ClauseAllocating
  import Collections
  import Sets

  // A list of clause references without repetitions, all live and all learnt
  // or all problem clauses.
  ghost predicate RefsOk(ca: ClauseDb, refs: seq<CRef>, learnt: bool)
  {
    && (forall i, j :: 0 <= i < j < |refs| ==> refs[i] != refs[j])
    && (forall cr :: cr in refs ==> Live(ca, cr) && ca[cr].learnt == learnt)
  }

  // The same references with the same literals.
  ghost predicate SameText(ca: ClauseDb, cb: ClauseDb)
  {
    cb.Keys == ca.Keys && forall cr :: cr in ca ==> cb[cr].lits == ca[cr].lits
  }

  lemma SameTextRefl(ca: ClauseDb)
    ensures SameText(ca, ca)
  {
  }

  lemma SameTextTrans(ca: ClauseDb, cb: ClauseDb, cc: ClauseDb)
    requires SameText(ca, cb) && SameText(cb, cc)
    ensures SameText(ca, cc)
  {
  }

  lemma SameTextAt(ca: ClauseDb, cb: ClauseDb, cr: CRef)
    requires SameText(ca, cb)
    ensures cr in ca <==> cr in cb
    ensures cr in ca ==> cb[cr].lits == ca[cr].lits
  {
  }

  ghost predicate AllClear(seen: seq<bool>)
  {
    forall v :: 0 <= v < |seen| ==> !seen[v]
  }

  // Every unassigned decision variable is in the order heap.
  ghost predicate HeapCovers(assigns: seq<LBool>, decision: seq<bool>, orderHeap: set<nat>)
  {
    && |decision| == |assigns|
    && (forall v :: v in orderHeap ==> v < |assigns|)
    && (forall v :: 0 <= v < |assigns| && decision[v] && assigns[v] == LUndef ==> v in orderHeap)
  }

  ghost predicate BooksOk(ca: ClauseDb, caSize: nat, clauses: seq<CRef>, learnts: seq<CRef>, assigns: seq<LBool>,
      decision: seq<bool>, polarity: seq<bool>, orderHeap: set<nat>)
  {
    && |polarity| == |assigns|
    && (forall cr :: cr in ca ==> cr < caSize)
    && RefsOk(ca, clauses, false)
    && RefsOk(ca, learnts, true)
    && HeapCovers(assigns, decision, orderHeap)
  }

  // Reordering literals does not concern the reference lists.
  lemma ReorderBooks(ca: ClauseDb, cb: ClauseDb, caSize: nat, clauses: seq<CRef>, learnts: seq<CRef>,
      assigns: seq<LBool>, decision: seq<bool>, polarity: seq<bool>, orderHeap: set<nat>)
    requires BooksOk(ca, caSize, clauses, learnts, assigns, decision, polarity, orderHeap) && SameDb(ca, cb)
    ensures BooksOk(cb, caSize, clauses, learnts, assigns, decision, polarity, orderHeap)
  {
  }

  lemma EnqueueBooks(ca: ClauseDb, caSize: nat, clauses: seq<CRef>, learnts: seq<CRef>, assigns: seq<LBool>,
      decision: seq<bool>, polarity: seq<bool>, orderHeap: set<nat>, v: nat, x: LBool)
    requires BooksOk(ca, caSize, clauses, learnts, assigns, decision, polarity, orderHeap)
    requires v < |assigns| && x != LUndef
    ensures BooksOk(ca, caSize, clauses, learnts, assigns[v := x], decision, polarity, orderHeap)
  {
  }

  lemma StoreBooks(ca: ClauseDb, caSize: nat, clauses: seq<CRef>, learnts: seq<CRef>, assigns: seq<LBool>,
      decision: seq<bool>, polarity: seq<bool>, orderHeap: set<nat>, c: Clause, size: nat)
    requires BooksOk(ca, caSize, clauses, learnts, assigns, decision, polarity, orderHeap)
    requires caSize < size && c.mark == 0
    ensures caSize !in ca
    ensures c.learnt ==>
      BooksOk(ca[caSize := c], size, clauses, learnts + [caSize], assigns, decision, polarity, orderHeap)
    ensures !c.learnt ==>
      BooksOk(ca[caSize := c], size, clauses + [caSize], learnts, assigns, decision, polarity, orderHeap)
  {
    RefsStore(ca, clauses, false, caSize, c);
    RefsStore(ca, learnts, true, caSize, c);
  }

  // The books after storing a learnt clause and assigning its first literal.
  lemma LearntBooks(ca: ClauseDb, caSize: nat, clauses: seq<CRef>, learnts: seq<CRef>, assigns: seq<LBool>,
      decision: seq<bool>, polarity: seq<bool>, orderHeap: set<nat>, c: seq<Lit>)
    requires BooksOk(ca, caSize, clauses, learnts, assigns, decision, polarity, orderHeap)
    requires |c| > 0 && c[0].v < |assigns|
    ensures caSize !in ca
    ensures BooksOk(ca[caSize := Clause(c, true, 0)], caSize + 3 + |c| + 1, clauses, learnts + [caSize],
      assigns[c[0].v := if c[0].s then LFalse else LTrue], decision, polarity, orderHeap)
  {
    StoreBooks(ca, caSize, clauses, learnts, assigns, decision, polarity, orderHeap, Clause(c, true, 0),
      caSize + 3 + |c| + 1);
  }

  // Storing a learnt clause and asserting its first literal keeps the invariants.
  lemma LearnedState(f: set<seq<Lit>>, ca: ClauseDb, ws: WatchLists, wb: WatchLists, dw: set<Lit>, db: set<Lit>,
      a: Assignment, caSize: nat, clauses: seq<CRef>, learnts: seq<CRef>, decision: seq<bool>, polarity: seq<bool>,
      orderHeap: set<nat>, c: seq<Lit>, k: nat)
    requires Consistent(f, ca, ws, wb, dw, db, a) && Drained(ca, ws, wb, a, k, k)
    requires BooksOk(ca, caSize, clauses, learnts, a.assigns, decision, polarity, orderHeap)
    requires Entails(f, c) && UnitAfterBacktrack(a, c)
    ensures |c| >= 2 && c[0] != c[1] && c[0].v < |a.assigns| == |a.vardata| == |a.pos|
    ensures Neg(c[0]) in ws && Neg(c[1]) in ws && Neg(c[0]) in wb && Neg(c[1]) in wb
    ensures Consistent(f, ca[caSize := Clause(c, true, 0)], LongAfter(ws, caSize, c), BinAfter(wb, caSize, c), dw, db,
      Enqueued(a, c[0], Some(caSize)))
    ensures Drained(ca[caSize := Clause(c, true, 0)], LongAfter(ws, caSize, c), BinAfter(wb, caSize, c),
      Enqueued(a, c[0], Some(caSize)), k, k)
    ensures BooksOk(ca[caSize := Clause(c, true, 0)], caSize + 3 + |c| + 1, clauses, learnts + [caSize],
      a.assigns[c[0].v := if c[0].s then LFalse else LTrue], decision, polarity, orderHeap)
  {
    hide *;
    UnitFacts(a, c);
    AttachIndex(f, ca, ws, wb, dw, db, a, c);
    LearntBooks(ca, caSize, clauses, learnts, a.assigns, decision, polarity, orderHeap, c);
    LearntIndex(f, ca, ws, wb, dw, db, a, c);
    LearnConsistent(f, ca, ws, wb, dw, db, a, caSize, Clause(c, true, 0), k);
  }

  // The books after a collection.
  lemma RenameBooks(ren: Collections.Renaming, ca: ClauseDb, cb: ClauseDb, caSize: nat, size: nat, clauses: seq<CRef>,
      clauses': seq<CRef>, learnts: seq<CRef>, learnts': seq<CRef>, assigns: seq<LBool>, decision: seq<bool>,
      polarity: seq<bool>, orderHeap: set<nat>)
    requires BooksOk(ca, caSize, clauses, learnts, assigns, decision, polarity, orderHeap)
    requires Collections.Renames(ren, ca, cb) && Collections.Below(cb, size)
    requires Collections.RefsRenamed(ren, clauses, clauses') && Collections.RefsRenamed(ren, learnts, learnts')
    ensures BooksOk(cb, size, clauses', learnts', assigns, decision, polarity, orderHeap)
  {
    hide Collections.Renames, Collections.RefsRenamed, RefsOk, HeapCovers;
    RenameRefs(ren, ca, cb, clauses, clauses', false);
    RenameRefs(ren, ca, cb, learnts, learnts', true);
  }

  lemma RenameRefs(ren: Collections.Renaming, ca: ClauseDb, cb: ClauseDb, refs: seq<CRef>, refs': seq<CRef>,
      learnt: bool)
    requires Collections.Renames(ren, ca, cb) && Collections.RefsRenamed(ren, refs, refs') && RefsOk(ca, refs, learnt)
    ensures RefsOk(cb, refs', learnt)
  {
    forall t | t in refs' ensures Live(cb, t) && cb[t].learnt == learnt
    {
      var i :| 0 <= i < |refs'| && refs'[i] == t;
      assert refs[i] in refs;
    }
  }

  lemma BooksInside(ca: ClauseDb, caSize: nat, clauses: seq<CRef>, learnts: seq<CRef>, assigns: seq<LBool>,
      decision: seq<bool>, polarity: seq<bool>, orderHeap: set<nat>)
    requires BooksOk(ca, caSize, clauses, learnts, assigns, decision, polarity, orderHeap)
    ensures Collections.ListedExist(ca, learnts, clauses)
  {
  }

  lemma RefsStore(ca: ClauseDb, refs: seq<CRef>, learnt: bool, cr: CRef, c: Clause)
    requires RefsOk(ca, refs, learnt) && cr !in ca && c.mark == 0
    ensures RefsOk(ca[cr := c], refs, learnt)
    ensures c.learnt == learnt ==> RefsOk(ca[cr := c], refs + [cr], learnt)
  {
    forall d | d in refs ensures d != cr && Live(ca[cr := c], d)
    {
      assert Live(ca, d);
    }
    forall i | 0 <= i < |refs| ensures refs[i] != cr
    {
      assert refs[i] in refs;
    }
  }

  // Taking the reference of a deleted clause out of its list.
  lemma TakeRef(ca: ClauseDb, caSize: nat, clauses: seq<CRef>, learnts: seq<CRef>, refs: seq<CRef>, cr: CRef,
      rest: seq<CRef>, learnt: bool, assigns: seq<LBool>, decision: seq<bool>, polarity: seq<bool>, orderHeap: set<nat>)
    requires BooksOk(ca, caSize, if learnt then clauses else refs + [cr] + rest, if learnt then refs + [cr] + rest
      else learnts, assigns, decision, polarity, orderHeap)
    ensures Live(ca, cr) && ca[cr].learnt == learnt
    ensures BooksOk(Deleted(ca, cr), caSize, if learnt then clauses else refs + rest, if learnt then refs + rest
      else learnts, assigns, decision, polarity, orderHeap)
  {
    var all := refs + [cr] + rest;
    assert all[|refs|] == cr && cr in all;
    assert Live(ca, cr);
    TakeRefOut(ca, refs, cr, rest, learnt);
    KeepRefs(ca, if learnt then clauses else learnts, cr, !learnt);
  }

  lemma TakeRefOut(ca: ClauseDb, refs: seq<CRef>, cr: CRef, rest: seq<CRef>, learnt: bool)
    requires RefsOk(ca, refs + [cr] + rest, learnt) && cr in ca
    ensures RefsOk(Deleted(ca, cr), refs + rest, learnt)
  {
    var all := refs + [cr] + rest;
    forall i | 0 <= i < |refs + rest|
      ensures (refs + rest)[i] == all[if i < |refs| then i else i + 1]
      ensures (refs + rest)[i] != cr
    {
      assert all[|refs|] == cr;
    }
    forall d | d in refs + rest ensures d != cr && Live(Deleted(ca, cr), d)
    {
      assert d in all;
      assert Live(ca, d);
    }
  }

  lemma NothingTaken(cs: seq<CRef>)
    ensures [] + cs[0..] == cs
  {
  }

  lemma TakeNext(kept: seq<CRef>, cs: seq<CRef>, i: nat)
    requires i < |cs|
    ensures kept + cs[i..] == kept + [cs[i]] + cs[i + 1..]
  {
  }

  lemma AllTaken(kept: seq<CRef>, cs: seq<CRef>)
    ensures kept + cs[|cs|..] == kept
  {
  }

  lemma KeepRefs(ca: ClauseDb, refs: seq<CRef>, cr: CRef, learnt: bool)
    requires RefsOk(ca, refs, learnt) && cr in ca && ca[cr].learnt != learnt
    ensures RefsOk(Deleted(ca, cr), refs, learnt)
  {
    forall d | d in refs ensures d != cr && Live(Deleted(ca, cr), d)
    {
      assert Live(ca, d);
    }
  }

  lemma RefsLive(ca: ClauseDb, caSize: nat, clauses: seq<CRef>, learnts: seq<CRef>, assigns: seq<LBool>,
      decision: seq<bool>, polarity: seq<bool>, orderHeap: set<nat>, cr: CRef)
    requires BooksOk(ca, caSize, clauses, learnts, assigns, decision, polarity, orderHeap)
    ensures cr in clauses || cr in learnts ==> Live(ca, cr)
    ensures |decision| == |assigns|
  {
  }

  lemma HeapBooks(ca: ClauseDb, caSize: nat, clauses: seq<CRef>, learnts: seq<CRef>, assigns: seq<LBool>,
      decision: seq<bool>, polarity: seq<bool>, before: set<nat>, after: set<nat>)
    requires BooksOk(ca, caSize, clauses, learnts, assigns, decision, polarity, before)
      && HeapCovers(assigns, decision, after)
    ensures BooksOk(ca, caSize, clauses, learnts, assigns, decision, polarity, after)
  {
  }

  lemma HeapMore(ca: ClauseDb, caSize: nat, clauses: seq<CRef>, learnts: seq<CRef>, assigns: seq<LBool>,
      decision: seq<bool>, polarity: seq<bool>, heap: set<nat>, v: nat)
    requires BooksOk(ca, caSize, clauses, learnts, assigns, decision, polarity, heap) && v < |assigns|
    ensures BooksOk(ca, caSize, clauses, learnts, assigns, decision, polarity, heap + {v})
  {
  }

  lemma BooksHeap(ca: ClauseDb, caSize: nat, clauses: seq<CRef>, learnts: seq<CRef>, assigns: seq<LBool>,
      decision: seq<bool>, polarity: seq<bool>, heap: set<nat>)
    requires BooksOk(ca, caSize, clauses, learnts, assigns, decision, polarity, heap)
    ensures HeapCovers(assigns, decision, heap) && |polarity| == |assigns|
  {
  }

  // A variable missing from the heap may be missing once it is assigned.
  lemma DecideBooks(ca: ClauseDb, caSize: nat, clauses: seq<CRef>, learnts: seq<CRef>, assigns: seq<LBool>,
      decision: seq<bool>, polarity: seq<bool>, heap: set<nat>, v: nat, x: LBool)
    requires BooksOk(ca, caSize, clauses, learnts, assigns, decision, polarity, heap + {v})
    requires v < |assigns| && x != LUndef
    ensures BooksOk(ca, caSize, clauses, learnts, assigns[v := x], decision, polarity, heap)
  {
  }

  lemma GrowBooks(ca: ClauseDb, caSize: nat, clauses: seq<CRef>, learnts: seq<CRef>, assigns: seq<LBool>,
      decision: seq<bool>, polarity: seq<bool>, heap: set<nat>, sign: bool, dvar: bool)
    requires BooksOk(ca, caSize, clauses, learnts, assigns, decision, polarity, heap)
    ensures BooksOk(ca, caSize, clauses, learnts, assigns + [LUndef], decision + [dvar], polarity + [sign], if dvar
      then heap + {|assigns|} else heap)
    ensures |decision| == |assigns|
  {
  }

  // The two words have a bit in common.
  predicate Meets(x: bv32, y: bv32)
  {
    x & y != 0
  }

  function With(levels: bv32, level: bv32): bv32
  {
    levels | level
  }

  // With a level added, exactly the words that met the others or meet it meet the whole.
  lemma LevelAdded(x: bv32, levels: bv32, y: bv32)
    ensures Meets(x, With(levels, y)) <==> Meets(x, levels) || Meets(x, y)
  {
    assert x & (levels | y) == (x & levels) | (x & y);
    assert (x & levels) | (x & y) == 0 ==> (x & levels) == 0 && (x & y) == 0;
  }

  lemma NothingMeets(x: bv32)
    ensures !Meets(x, 0)
  {
  }

  lemma TwoBits(j: nat, k: nat)
    requires j < 32 && k < 32
    ensures Meets((1 as bv32) << j, (1 as bv32) << k) <==> j == k
  {
  }

  class Solver {
    // ---- Solver state ----
    var ok: bool
    var ca: ClauseDb
    var caSize: nat
    var clauses: seq<CRef>
    var learnts: seq<CRef>
    var watches: WatchLists
    var watchesBin: WatchLists
    var dirty: set<Lit>
    var dirtyBin: set<Lit>
    var assigns: seq<LBool>
    var vardata: seq<VarData>
    var trail: seq<Lit>
    var trailLim: seq<nat>
    var qhead: nat
    var polarity: seq<bool>
    var decision: seq<bool>
    var orderHeap: set<nat>
    var seen: seq<bool>
    var analyzeToClear: seq<Lit>
    var assumptions: seq<Lit>
    var model: seq<LBool>
    var conflict: seq<Lit>

    // ---- Options ----
    var incremental: bool
    var nbVarsInitialFormula: nat
    var ccminMode: nat
    var phaseSaving: nat
    var removeSatisfiedClauses: bool
    var lbSizeMinimizingClause: nat
    var lbLbdMinimizingClause: nat
    var reduceOnSize: bool
    var reduceOnSizeSize: nat

    // The clauses given to the solver so far, and per variable its trail position.
    ghost var formula: set<seq<Lit>>
    ghost var pos: seq<nat>

    ghost function A(): Assignment
      reads this
    {
      Assignment(assigns, vardata, trail, trailLim, pos)
    }

    // The invariant of every reachable state, with the long watch lists given
    // explicitly so that it can be stated while one of them is being rewritten.
    ghost predicate CoreWith(ws: WatchLists)
      reads this
    {
      && Consistent(formula, ca, ws, watchesBin, dirty, dirtyBin, A())
      && Bookkeeping()
      && |seen| == |assigns|
    }

    ghost predicate Bookkeeping()
      reads this
    {
      BooksOk(ca, caSize, clauses, learnts, assigns, decision, polarity, orderHeap)
    }

    ghost predicate Core()
      reads this
    {
      CoreWith(watches)
    }

    // The first `k` trail literals have been propagated through both kinds of list.
    ghost predicate Processed(k: nat)
      reads this
    {
      Drained(ca, watches, watchesBin, A(), k, k)
    }

    ghost predicate SeenClear()
      reads this
    {
      AllClear(seen)
    }

    // The state between calls: the queue holds only literals of the current level.
    ghost predicate Stable()
      reads this
    {
      Core() && SeenClear() && A().LevelStart() <= qhead && Processed(qhead)
    }

    ghost predicate Valid()
      reads this
    {
      if ok then Stable() else !Satisfiable(formula)
    }

    function Value(l: Lit): LBool
      reads this`assigns
    {
      if l.v >= |assigns| || assigns[l.v] == LUndef then LUndef
      else if (assigns[l.v] == LTrue) != l.s then LTrue
      else LFalse
    }

    function DecisionLevel(): nat
      reads this
    {
      |trailLim|
    }

    function Level(v: nat): nat
      reads this`vardata
    {
      if v < |vardata| then vardata[v].level else 0
    }

    function Reason(v: nat): Option<CRef>
      reads this`vardata
    {
      if v < |vardata| then vardata[v].reason else None
    }

    predicate IsSelector(v: nat)
      reads this`incremental, this`nbVarsInitialFormula
    {
      incremental && v > nbVarsInitialFormula
    }

    // ---- Trail ----

    method UncheckedEnqueue(p: Lit, from: Option<CRef>)
      requires p.v < |assigns| == |vardata| == |pos|
      modifies this`assigns, this`vardata, this`trail, this`pos
      ensures A() == Enqueued(old(A()), p, from)
      ensures assigns == old(assigns)[p.v := if p.s then LFalse else LTrue]
    {
      assigns := assigns[p.v := if p.s then LFalse else LTrue];
      vardata := vardata[p.v := VarData(from, |trailLim|)];
      pos := pos[p.v := |trail|];
      trail := trail + [p];
    }

    method NewDecisionLevel()
      modifies this`trailLim
      ensures A() == Opened(old(A()))
    {
      trailLim := trailLim + [|trail|];
    }

    method InsertVarOrder(x: nat)
      requires x < |decision|
      modifies this`orderHeap
      ensures orderHeap == if decision[x] then old(orderHeap) + {x} else old(orderHeap)
    {
      if x !in orderHeap && decision[x] {
        orderHeap := orderHeap + {x};
      }
    }

    // Unassigns the trail from position `start` on, newest first, saving phases
    // and returning the variables to the order heap.
    method Unassign(start: nat)
      requires TrailOk(A()) && HeapCovers(assigns, decision, orderHeap) && |polarity| == |assigns| && start <= |trail|
        && |trailLim| > 0
      modifies this`assigns, this`polarity, this`orderHeap
      ensures |assigns| == old(|assigns|) && |polarity| == |assigns| && HeapCovers(assigns, decision, orderHeap)
      ensures forall v :: 0 <= v < |assigns| ==>
        assigns[v] == if old(assigns)[v] != LUndef && pos[v] >= start then LUndef else old(assigns)[v]
    {
      ghost var a := A();
      var c := |trail|;
      while c > start
        invariant start <= c <= |trail|
        invariant |assigns| == |a.assigns| && |polarity| == |assigns|
        invariant forall v :: 0 <= v < |assigns| ==>
          assigns[v] == if a.assigns[v] != LUndef && pos[v] >= c then LUndef else a.assigns[v]
        invariant HeapCovers(assigns, decision, orderHeap)
      {
        c := c - 1;
        var x := trail[c].v;
        assert a.Val(a.trail[c]) == LTrue && a.Pos(x) == c;
        assert forall v :: 0 <= v < |assigns| && a.assigns[v] != LUndef && pos[v] == c ==> v == x;
        assigns := assigns[x := LUndef];
        if phaseSaving > 1 || (phaseSaving == 1 && c > trailLim[|trailLim| - 1]) {
          polarity := polarity[x := trail[c].s];
        }
        InsertVarOrder(x);
      }
    }

    // Undoes everything above `level`; all invariants survive, and what was
    // propagated below stays propagated.
    method CancelUntil(level: nat, ghost done: nat)
      requires Core() && Processed(done)
      requires level < |trailLim| ==> trailLim[level] <= done
      modifies this`assigns, this`polarity, this`orderHeap, this`qhead, this`trail, this`trailLim
      ensures Core()
      ensures old(|trailLim|) <= level ==> unchanged(this)
      ensures level < old(|trailLim|) ==>
        CutTo(old(A()), A(), level) && qhead == |trail| && Processed(qhead)
    {
      if |trailLim| > level {
        ghost var a := A();
        var start := trailLim[level];
        Unassign(start);
        qhead := start;
        trail := trail[..start];
        trailLim := trailLim[..level];
        assert CutTo(a, A(), level);
        CutConsistent(formula, ca, watches, watchesBin, dirty, dirtyBin, a, A(), level, done);
      }
    }

    // ---- Propagation ----

    // The state while the watchers of `p`, the last dequeued literal, are visited.
    ghost predicate Visiting(p: Lit, ws: WatchLists, m: nat)
      reads this
    {
      && CoreWith(ws) && dirty == {} && dirtyBin == {}
      && 0 < qhead <= |trail| && trail[qhead - 1] == p && Level(p.v) == |trailLim|
      && Drained(ca, ws, watchesBin, A(), qhead - 1, m)
    }

    // Enqueues a literal propagated by clause `cr`.
    method Propagated(p: Lit, cr: CRef, ghost start: Assignment, ghost ws: WatchLists, ghost k: nat, ghost m: nat)
      requires CoreWith(ws) && Drained(ca, ws, watchesBin, A(), k, m) && Continues(start, A())
      requires p.v < |assigns| == |vardata| == |pos| && Value(p) == LUndef && UnitFor(ca, A(), p, cr)
      modifies this`assigns, this`vardata, this`trail, this`pos
      ensures CoreWith(ws) && Drained(ca, ws, watchesBin, A(), k, m) && Continues(start, A())
      ensures A() == Enqueued(old(A()), p, Some(cr))
    {
      hide Consistent, Drained, Continues, BooksOk;
      ghost var a := A();
      EnqueueBooks(ca, caSize, clauses, learnts, assigns, decision, polarity, orderHeap, p.v, if p.s then LFalse
        else LTrue);
      PropagateConsistent(formula, ca, ws, watchesBin, dirty, dirtyBin, a, p, cr, k, m);
      ContinuesEnqueue(formula, ca, ws, watchesBin, dirty, dirtyBin, start, a, p, cr);
      UncheckedEnqueue(p, Some(cr));
    }

    // A clause all of whose literals are false, one of them at the current level.
    ghost predicate Conflicting(cr: CRef)
      reads this
    {
      Falsified(ca, A(), cr)
    }

    // A conflict found while the watchers of `p` were visited: the clause contains
    // the negation of `p`.
    ghost predicate ConflictOn(p: Lit, cr: CRef)
      reads this
    {
      Conflicting(cr) && Neg(p) in ca[cr].lits
    }

    // Binary clauses: the blocker is the whole rest of the clause. A conflict
    // returns at once, leaving the queue as it is.
    method PropagateBinary(p: Lit, ghost start: Assignment) returns (confl: Option<CRef>)
      requires 0 < qhead && Visiting(p, watches, qhead - 1) && Continues(start, A())
      modifies this`assigns, this`vardata, this`trail, this`pos
      ensures Continues(start, A())
      ensures Visiting(p, watches, if confl.None? then qhead else qhead - 1)
      ensures confl.Some? ==> ConflictOn(p, confl.value)
    {
      hide Consistent, Drained, BooksOk, BinVisited, UnitFor, Continues, Falsified;
      TrailLiteral(formula, ca, watches, watchesBin, dirty, dirtyBin, A(), qhead - 1);
      var wbin := watchesBin[p];
      var k := 0;
      NoneVisited(ca, A(), p, wbin);
      while k < |wbin|
        invariant 0 <= k <= |wbin|
        invariant Continues(start, A())
        invariant Visiting(p, watches, qhead - 1) && Value(p) == LTrue
        invariant BinVisited(ca, A(), p, wbin, k)
      {
        var imp := wbin[k].blocker;
        if Value(imp) == LFalse {
          BinaryConflict(formula, ca, watches, watchesBin, A(), p, k);
          return Some(wbin[k].cref);
        }
        if Value(imp) == LUndef {
          BinaryUnit(formula, ca, watches, watchesBin, A(), p, k);
          Propagated(imp, wbin[k].cref, start, watches, qhead - 1, qhead - 1);
        } else {
          BinaryKept(formula, ca, watches, watchesBin, A(), p, k);
        }
        k := k + 1;
      }
      BinaryListDone(ca, watches, watchesBin, A(), p, qhead - 1);
      return None;
    }

    // While assumptions are being decided, incremental mode prefers literals that are
    // true or no selectors.
    predicate Preferred(l: Lit)
      reads this
    {
      !incremental || DecisionLevel() > |assumptions| || Value(l) == LTrue || !IsSelector(l.v)
    }

    // Looks for a literal from index 2 on that is not false; 0 when there is none.
    // In incremental mode the choice prefers true literals and non-selectors
    // while assumptions are still being made.
    method FindWatch(c: seq<Lit>) returns (k: nat)
      requires |c| > 2
      ensures k == 0 ==> forall i :: 2 <= i < |c| ==> Value(c[i]) == LFalse
      ensures k != 0 ==> 2 <= k < |c| && Value(c[k]) != LFalse
      ensures k != 0 && Preferred(c[k]) ==> forall i :: 2 <= i < k ==> Value(c[i]) == LFalse || !Preferred(c[i])
      ensures k != 0 && !Preferred(c[k]) ==>
        forall i :: 2 <= i < |c| ==> Value(c[i]) == LFalse || (!Preferred(c[i]) && i <= k)
    {
      k := 0;
      var i := 2;
      while i < |c|
        invariant 2 <= i <= |c|
        invariant k == 0 ==> forall j :: 2 <= j < i ==> Value(c[j]) == LFalse
        invariant k != 0 ==> 2 <= k < i && Value(c[k]) != LFalse && !Preferred(c[k])
        invariant forall j :: 2 <= j < i ==> Value(c[j]) == LFalse || (!Preferred(c[j]) && j <= k)
      {
        if Value(c[i]) != LFalse {
          k := i;
          if Preferred(c[i]) {
            return;
          }
        }
        i := i + 1;
      }
    }

    // The state while the list of `p` consists of the watchers `kept`, already
    // settled, and `todo`.
    ghost predicate VisitingLong(p: Lit, kept: seq<Watcher>, todo: seq<Watcher>)
      reads this
    {
      && p in watches && p in watchesBin && Value(p) == LTrue
      && Visiting(p, watches[p := kept + todo], qhead)
      && Settled(ca, A(), p, kept)
    }

    // Makes sure the false literal is in second place.
    method OrderWatches(p: Lit, w: Watcher, ghost kept: seq<Watcher>, ghost rest: seq<Watcher>)
      requires VisitingLong(p, kept, [w] + rest)
      requires w.cref in ca && |ca[w.cref].lits| > 2 && Value(Neg(p)) == LFalse && Live(ca, w.cref)
      requires ca[w.cref].lits[0] == Neg(p) || ca[w.cref].lits[1] == Neg(p)
      modifies this`ca
      ensures VisitingLong(p, kept, [w] + rest)
      ensures Live(ca, w.cref) && |ca[w.cref].lits| > 2 && ca[w.cref].lits[1] == Neg(p)
    {
      hide Consistent, Drained, Settled, BooksOk;
      if ca[w.cref].lits[0] == Neg(p) {
        ghost var ws := watches[p := kept + ([w] + rest)];
        FlipConsistent(formula, ca, ws, watchesBin, dirty, dirtyBin, A(), w.cref, qhead - 1, qhead);
        FlipSettled(formula, ca, ws, watchesBin, A(), w.cref, p, kept);
        ReorderBooks(ca, Flipped(ca, w.cref), caSize, clauses, learnts, assigns, decision, polarity, orderHeap);
        ca := Flipped(ca, w.cref);
      }
    }

    // Visits one watcher `w` of `p`: keeps it with a new blocker, moves it to
    // another list, propagates the clause, or finds it falsified.
    method VisitLong(p: Lit, w: Watcher, ghost start: Assignment, ghost kept: seq<Watcher>, ghost rest: seq<Watcher>)
      returns (x: Watcher, keep: bool, confl: Option<CRef>)
      requires VisitingLong(p, kept, [w] + rest) && Continues(start, A())
      modifies this`ca, this`watches, this`assigns, this`vardata, this`trail, this`pos
      ensures Continues(start, A())
      ensures confl.None? ==> VisitingLong(p, if keep then kept + [x] else kept, rest)
      ensures confl.Some? ==>
        p in watches && Visiting(p, watches[p := kept + [x] + rest], qhead) && ConflictOn(p, confl.value)
    {
      hide Consistent, Drained, Settled, BooksOk, Continues, EntryOk, WatchSound, UnitFor, Falsified;
      ghost var ws := watches[p := kept + ([w] + rest)];
      assert kept + ([w] + rest) == kept + [w] + rest;
      assert w in ws[p];
      LongWatcher(formula, ca, ws, watchesBin, A(), p, w);
      if Value(w.blocker) == LTrue {
        SettledMore(ca, A(), p, kept, w);
        return w, true, None;
      }
      OrderWatches(p, w, kept, rest);
      x, keep, confl := VisitClause(p, w, start, kept, rest);
    }

    // The clause of the watcher, with the false literal in second place.
    method VisitClause(p: Lit, w: Watcher, ghost start: Assignment, ghost kept: seq<Watcher>, ghost rest: seq<Watcher>)
      returns (x: Watcher, keep: bool, confl: Option<CRef>)
      requires VisitingLong(p, kept, [w] + rest) && Continues(start, A()) && Level(Neg(p).v) == |trailLim|
      requires Live(ca, w.cref) && |ca[w.cref].lits| > 2 && ca[w.cref].lits[1] == Neg(p) && Value(Neg(p)) == LFalse
      requires Value(w.blocker) != LTrue
      modifies this`ca, this`watches, this`assigns, this`vardata, this`trail, this`pos
      ensures Continues(start, A())
      ensures confl.None? ==> VisitingLong(p, if keep then kept + [x] else kept, rest)
      ensures confl.Some? ==>
        p in watches && Visiting(p, watches[p := kept + [x] + rest], qhead) && ConflictOn(p, confl.value)
    {
      hide Consistent, Drained, Settled, BooksOk, Continues, EntryOk, WatchSound, UnitFor, Falsified;
      ghost var ws := watches[p := kept + ([w] + rest)];
      assert kept + ([w] + rest) == kept + [w] + rest;
      assert w in ws[p];
      var first := ca[w.cref].lits[0];
      x := Watcher(w.cref, first);
      LongFirst(formula, ca, ws, watchesBin, A(), p, w, x);
      if first != w.blocker && Value(first) == LTrue {
        ReblockConsistent(formula, ca, watches, watchesBin, A(), p, kept, w, x, rest, qhead - 1, qhead);
        SettledMore(ca, A(), p, kept, x);
        return x, true, None;
      }
      var k := FindWatch(ca[w.cref].lits);
      if k != 0 {
        MoveWatchTo(p, w, kept, rest, k);
        return x, false, None;
      }
      confl := VisitUnit(p, w, start, kept, rest);
      return x, true, confl;
    }

    // No other watch was found: the clause is unit or falsified.
    method VisitUnit(p: Lit, w: Watcher, ghost start: Assignment, ghost kept: seq<Watcher>, ghost rest: seq<Watcher>)
      returns (confl: Option<CRef>)
      requires VisitingLong(p, kept, [w] + rest) && Continues(start, A()) && Level(Neg(p).v) == |trailLim|
      requires Live(ca, w.cref) && |ca[w.cref].lits| > 2 && ca[w.cref].lits[1] == Neg(p) && Value(Neg(p)) == LFalse
      requires forall i :: 2 <= i < |ca[w.cref].lits| ==> Value(ca[w.cref].lits[i]) == LFalse
      requires Value(ca[w.cref].lits[0]) != LTrue
      modifies this`assigns, this`vardata, this`trail, this`pos
      ensures Continues(start, A())
      ensures confl.None? ==> VisitingLong(p, kept + [Watcher(w.cref, ca[w.cref].lits[0])], rest)
      ensures confl.Some? ==> ConflictOn(p, confl.value)
      ensures confl.Some? ==> Visiting(p, watches[p := kept + [Watcher(w.cref, ca[w.cref].lits[0])] + rest], qhead)
    {
      hide Consistent, Drained, Settled, BooksOk, Continues, EntryOk, WatchSound, UnitFor;
      var first := ca[w.cref].lits[0];
      ghost var x := Watcher(w.cref, first);
      assert kept + ([w] + rest) == kept + [w] + rest;
      assert w in watches[p := kept + [w] + rest][p];
      LongFirst(formula, ca, watches[p := kept + [w] + rest], watchesBin, A(), p, w, x);
      ReblockConsistent(formula, ca, watches, watchesBin, A(), p, kept, w, x, rest, qhead - 1, qhead);
      LongUnit(ca, A(), p, w.cref);
      if Value(first) == LFalse {
        return Some(w.cref);
      }
      TrailOkOf(formula, ca, watches[p := kept + [x] + rest], watchesBin, dirty, dirtyBin, A());
      SettledEnqueue(ca, A(), first, Some(w.cref), p, kept);
      SettledUnit(ca, A(), p, x);
      Propagated(first, w.cref, start, watches[p := kept + [x] + rest], qhead - 1, qhead);
      SettledMore(ca, A(), p, kept, x);
      return None;
    }

    // Makes the literal at index `k` the watch in place of the negation of `p`.
    method MoveWatchTo(p: Lit, w: Watcher, ghost kept: seq<Watcher>, ghost rest: seq<Watcher>, k: nat)
      requires VisitingLong(p, kept, [w] + rest)
      requires Live(ca, w.cref) && ca[w.cref].lits[1] == Neg(p) && Value(ca[w.cref].lits[0]) != LTrue
      requires 2 <= k < |ca[w.cref].lits| && Value(ca[w.cref].lits[k]) != LFalse
      modifies this`ca, this`watches
      ensures VisitingLong(p, kept, rest)
    {
      hide Consistent, Drained, Settled, BooksOk;
      ghost var before := watches[p := kept + ([w] + rest)];
      assert kept + ([w] + rest) == kept + [w] + rest;
      MoveConsistent(formula, ca, watches, watchesBin, A(), p, kept, w, rest, k, qhead - 1, qhead);
      MoveSettled(formula, ca, watches, watchesBin, A(), p, kept, w, rest, k);
      ReorderBooks(ca, Rewatched(ca, w.cref, k), caSize, clauses, learnts, assigns, decision, polarity, orderHeap);
      var t := Neg(ca[w.cref].lits[k]);
      watches := watches[t := watches[t] + [Watcher(w.cref, ca[w.cref].lits[0])]];
      ca := ca[w.cref := ca[w.cref].(lits := Swapped(ca[w.cref].lits, 1, k))];
    }

    // Visits the whole list of `p`, compacting it in place: entries up to `j`
    // are kept, entries from `i` on are still to be visited.
    method PropagateLong(p: Lit, ghost start: Assignment) returns (confl: Option<CRef>)
      requires 0 < qhead && Visiting(p, watches, qhead) && Continues(start, A())
      modifies this`ca, this`watches, this`assigns, this`vardata, this`trail, this`pos, this`qhead
      ensures Continues(start, A()) && Core() && dirty == {} && dirtyBin == {} && qhead >= old(qhead)
      ensures confl.None? ==> qhead == old(qhead) && Processed(qhead)
      ensures confl.Some? ==> qhead == |trail| && ConflictOn(p, confl.value) && Processed(old(qhead) - 1)
      ensures old(qhead) <= |trail| && trail[old(qhead) - 1] == p
    {
      hide Consistent, Drained, Settled, BooksOk, Continues, Falsified;
      TrailLiteral(formula, ca, watches, watchesBin, dirty, dirtyBin, A(), qhead - 1);
      var kept;
      kept, confl := VisitList(p, start);
      ghost var q := qhead;
      watches := watches[p := kept];
      if confl.Some? {
        qhead := |trail|;
        DrainedLess(ca, watches, watchesBin, A(), q - 1, q, q - 1);
      } else {
        LongListDone(ca, watches, watchesBin, A(), p, q - 1);
      }
    }

    // The loop over the list of `p`; returns what the list becomes.
    method VisitList(p: Lit, ghost start: Assignment) returns (kept: seq<Watcher>, confl: Option<CRef>)
      requires 0 < qhead && Visiting(p, watches, qhead) && Continues(start, A())
      requires p in watches && p in watchesBin && Value(p) == LTrue
      modifies this`ca, this`watches, this`assigns, this`vardata, this`trail, this`pos
      ensures Continues(start, A()) && p in watches && Visiting(p, watches[p := kept], qhead)
      ensures confl.None? ==> Settled(ca, A(), p, kept)
      ensures confl.Some? ==> ConflictOn(p, confl.value)
    {
      hide Consistent, Drained, Settled, BooksOk, Continues, Falsified, VisitingLong, Visiting, ConflictOn;
      var ws := watches[p];
      var i, j := 0, 0;
      confl := None;
      VisitStart(p, ws);
      assert ws[..0] == [] && ws[0..] == ws;
      while i < |ws| && confl.None?
        invariant 0 <= j <= i <= |ws| && Continues(start, A())
        invariant confl.None? ==> VisitingLong(p, ws[..j], ws[i..])
        invariant confl.Some? ==>
          p in watches && Visiting(p, watches[p := ws[..j] + ws[i..]], qhead) && ConflictOn(p, confl.value)
        decreases |ws| - i
      {
        ghost var before, rest := ws[..j], ws[i + 1..];
        assert ws[i..] == [ws[i]] + rest;
        var x, keep;
        x, keep, confl := VisitLong(p, ws[i], start, before, rest);
        i := i + 1;
        if keep || confl.Some? {
          ws := ws[j := x];
          j := j + 1;
          assert ws[..j] == before + [x];
        }
        assert ws[i..] == rest;
      }
      if confl.Some? {
        ws, j := CopyRest(ws, i, j);
      } else {
        assert ws[i..] == [];
        VisitEnd(p, ws[..j]);
      }
      kept := ws[..j];
    }

    lemma VisitStart(p: Lit, ws: seq<Watcher>)
      requires Visiting(p, watches, qhead) && p in watches && p in watchesBin && Value(p) == LTrue && ws == watches[p]
      ensures VisitingLong(p, [], ws)
    {
      assert [] + ws == ws;
      assert watches[p := ws] == watches;
    }

    lemma VisitEnd(p: Lit, kept: seq<Watcher>)
      requires VisitingLong(p, kept, [])
      ensures p in watches && Visiting(p, watches[p := kept], qhead) && Settled(ca, A(), p, kept)
    {
      assert kept + [] == kept;
    }

    // Moves the entries from `i` on down to position `j`.
    method CopyRest(l: seq<Watcher>, i0: nat, j0: nat) returns (r: seq<Watcher>, j: nat)
      requires j0 <= i0 <= |l|
      ensures |r| == |l| && j <= |r| && r[..j] == l[..j0] + l[i0..]
    {
      var i := i0;
      r, j := l, j0;
      while i < |r|
        invariant j <= i <= |r| == |l| && i0 <= i && r[i..] == l[i..]
        invariant r[..j] == l[..j0] + l[i0..i]
      {
        assert r[i] == r[i..][0] == l[i] && r[i + 1..] == r[i..][1..];
        ghost var before := r;
        r := r[j := r[i]];
        i := i + 1;
        j := j + 1;
        assert r[..j] == before[..j - 1] + [l[i - 1]];
        assert l[i0..i] == l[i0..i - 1] + [l[i - 1]];
        assert r[i..] == before[i..];
      }
      assert l[i0..|l|] == l[i0..];
    }

    // Removes the watchers of deleted clauses from one list.
    method CleanList(l: seq<Watcher>) returns (r: seq<Watcher>)
      requires forall w :: w in l ==> w.cref in ca
      ensures r == LiveOnly(ca, l)
    {
      r := [];
      var i := 0;
      while i < |l|
        invariant 0 <= i <= |l| && r == LiveOnly(ca, l[..i])
      {
        assert l[..i + 1][..i] == l[..i];
        assert l[i] in l;
        if ca[l[i].cref].mark != 1 {
          r := r + [l[i]];
        }
        i := i + 1;
      }
      assert l[..|l|] == l;
    }

    // Cleans every dirty list.
    method CleanDirty(lists: WatchLists, marked: set<Lit>) returns (r: WatchLists)
      requires ListsRefer(ca, lists)
      ensures Cleaned(ca, lists, r, marked)
    {
      r := lists;
      var todo := marked;
      while todo != {}
        invariant todo <= marked && r.Keys == lists.Keys
        invariant forall p :: p in lists ==> r[p] == if p in marked - todo then LiveOnly(ca, lists[p]) else lists[p]
        decreases todo
      {
        var p :| p in todo;
        if p in r {
          var l := CleanList(r[p]);
          r := r[p := l];
        }
        todo := todo - {p};
      }
    }

    // Cleans the dirty lists of both kinds.
    method CleanAll(ghost k: nat)
      requires Core() && Processed(k)
      modifies this`watches, this`watchesBin, this`dirty, this`dirtyBin
      ensures Core() && Processed(k) && dirty == {} && dirtyBin == {}
    {
      hide Consistent, Drained, BooksOk, Cleaned, ListsRefer;
      ghost var a := A();
      ListsReferToDb(formula, ca, watches, watchesBin, dirty, dirtyBin, a);
      var ws := CleanDirty(watches, dirty);
      var wb := CleanDirty(watchesBin, dirtyBin);
      CleanConsistent(formula, ca, watches, watchesBin, ws, wb, dirty, dirtyBin, a, k);
      watches, watchesBin, dirty, dirtyBin := ws, wb, {}, {};
      assert A() == a;
    }

    // Unit propagation to a fixpoint or a conflict.
    method Propagate() returns (confl: Option<CRef>)
      requires Core() && Processed(qhead) && A().LevelStart() <= qhead
      modifies this`ca, this`watches, this`watchesBin, this`dirty, this`dirtyBin
      modifies this`assigns, this`vardata, this`trail, this`pos, this`qhead
      ensures Core() && Continues(old(A()), A())
      ensures dirty == {} && dirtyBin == {} && A().LevelStart() <= qhead
      ensures confl.None? ==> qhead == |trail| && Processed(qhead)
      ensures confl.Some? ==> Conflicting(confl.value) && Processed(A().LevelStart())
      ensures confl.Some? ==>
        exists k :: A().LevelStart() <= k < |trail| && Processed(k) && ConflictOn(trail[k], confl.value)
    {
      hide Consistent, Drained, BooksOk, Continues, Falsified;
      ghost var start := A();
      ContinuesSelf(start);
      CleanAll(qhead);
      DrainedBounds(ca, watches, watchesBin, A(), qhead, qhead);
      while qhead < |trail|
        invariant Core() && Processed(qhead) && dirty == {} && dirtyBin == {}
        invariant Continues(start, A()) && A().LevelStart() <= qhead <= |trail|
        decreases |start.assigns| - qhead
      {
        ghost var k := qhead;
        ContinuesLim(start, A());
        QueueLevel(formula, ca, watches, watchesBin, dirty, dirtyBin, A(), qhead);
        confl := PropagateNext(start);
        ContinuesLim(start, A());
        if confl.Some? {
          DrainedLess(ca, watches, watchesBin, A(), k, k, A().LevelStart());
          assert ConflictOn(trail[k], confl.value);
          return;
        }
        DrainedBounds(ca, watches, watchesBin, A(), qhead, qhead);
      }
      return None;
    }

    // Dequeues one literal and visits its binary and its long watchers.
    method PropagateNext(ghost start: Assignment) returns (confl: Option<CRef>)
      requires Core() && Processed(qhead) && dirty == {} && dirtyBin == {} && Continues(start, A())
      requires qhead < |trail| && Level(trail[qhead].v) == |trailLim|
      modifies this`ca, this`watches, this`assigns, this`vardata, this`trail, this`pos, this`qhead
      ensures Core() && dirty == {} && dirtyBin == {} && Continues(start, A()) && qhead > old(qhead)
      ensures confl.None? ==> qhead == old(qhead) + 1 && Processed(qhead)
      ensures confl.Some? ==> ConflictOn(old(trail[qhead]), confl.value) && Processed(old(qhead))
      ensures old(qhead) < |trail| && trail[old(qhead)] == old(trail[qhead])
    {
      hide Consistent, Drained, BooksOk, Continues, Falsified;
      var p := trail[qhead];
      qhead := qhead + 1;
      confl := PropagateBinary(p, start);
      if confl.None? {
        ContinuesLim(start, A());
        confl := PropagateLong(p, start);
      }
    }

    // ---- Conflict analysis ----

    // What analysis keeps: the invariant, and the drained part of the trail.
    ghost predicate Analyzing(k: nat)
      reads this
    {
      Core() && Processed(k)
    }

    // Puts the implied literal of the reason `cr` of `v` first; only a binary
    // reason can have it in second place.
    method OrderReason(v: nat, cr: CRef, ghost k: nat)
      requires Analyzing(k)
      requires v < |assigns| && assigns[v] != LUndef && Level(v) > 0 && Reason(v) == Some(cr)
      modifies this`ca
      ensures Analyzing(k) && SameDb(old(ca), ca)
      ensures Live(ca, cr) && LeadsTo(ca[cr].lits, A(), v)
      ensures DistinctVars(ca[cr].lits) && VarsBelow(ca[cr].lits, |assigns|)
    {
      hide Consistent, Drained, BooksOk, LeadsTo, ReasonFor;
      ReasonFacts(formula, ca, watches, watchesBin, dirty, dirtyBin, A(), v);
      ClauseShape(formula, ca, watches, watchesBin, dirty, dirtyBin, A(), cr);
      ReasonLeads(ca[cr].lits, A(), v);
      if |ca[cr].lits| == 2 && Value(ca[cr].lits[0]) == LFalse {
        FlipConsistent(formula, ca, watches, watchesBin, dirty, dirtyBin, A(), cr, k, k);
        ReorderBooks(ca, Flipped(ca, cr), caSize, clauses, learnts, assigns, decision, polarity, orderHeap);
        ca := Flipped(ca, cr);
      }
    }

    // Marks the literals of clause `c` from index `from` on: those of the current
    // level are counted, lower ones join the clause under construction, selectors
    // apart from the others.
    method MarkClause(c: seq<Lit>, from: nat, ghost end: nat, out0: seq<Lit>, sel0: seq<Lit>, count0: nat)
      returns (out: seq<Lit>, sel: seq<Lit>, count: nat)
      requires from <= |c| && Resolving(A(), seen, out0 + sel0, end) && count0 == |Current(A(), seen, end)|
      requires forall i :: from <= i < |c| ==> Value(c[i]) == LFalse && A().Pos(c[i].v) < end
      modifies this`seen
      ensures Resolving(A(), seen, out + sel, end) && count == |Current(A(), seen, end)|
      ensures |seen| == |old(seen)| && count0 <= count
      ensures forall v :: 0 <= v < |seen| && old(seen)[v] ==> seen[v]
      ensures forall i :: from <= i < |c| ==> Level(c[i].v) == 0 || seen[c[i].v]
    {
      hide Resolving, TrailOk;
      ResolvingSize(A(), seen, out0 + sel0, end);
      out, sel, count := out0, sel0, count0;
      var j := from;
      while j < |c|
        invariant from <= j <= |c| && |seen| == |assigns| == |old(seen)| && count0 <= count
        invariant Resolving(A(), seen, out + sel, end) && count == |Current(A(), seen, end)|
        invariant forall v :: 0 <= v < |seen| && old(seen)[v] ==> seen[v]
        invariant forall i :: from <= i < j ==> Level(c[i].v) == 0 || (c[i].v < |seen| && seen[c[i].v])
      {
        var q := c[j];
        if !seen[q.v] && Level(q.v) > 0 {
          MarkOne(A(), seen, out + sel, end, q);
          if Level(q.v) >= DecisionLevel() {
            count := count + 1;
          } else if IsSelector(q.v) {
            assert out + sel + [q] == out + (sel + [q]);
            sel := sel + [q];
          } else {
            ResolvingReorder(A(), seen[q.v := true], out + sel + [q], out + [q] + sel, end);
            out := out + [q];
          }
          seen := seen[q.v := true];
        }
        j := j + 1;
      }
    }

    // `p` is true at the current level, was implied by clause `cr`, and is the
    // only literal the clause under construction has left to resolve at `index`.
    ghost predicate Resolvent(p: Lit, cr: CRef, index: nat)
      reads this
    {
      && Value(p) == LTrue && p == TrailLit(A(), p.v) && p.v < |assigns|
      && Level(p.v) == DecisionLevel() > 0 && A().Pos(p.v) == index && Reason(p.v) == Some(cr)
      && RefutedBut(formula, A(), seen, [Neg(p)])
    }

    // The first turn: some literal of the falsified clause is of the current level.
    method MarkFalsified(cr: CRef, out0: seq<Lit>, sel0: seq<Lit>, count0: nat, ghost k: nat)
      returns (out: seq<Lit>, sel: seq<Lit>, count: nat)
      requires Analyzing(k) && Resolving(A(), seen, out0 + sel0, |trail|) && Conflicting(cr)
      requires count0 == |Current(A(), seen, |trail|)| && DecisionLevel() > 0
      modifies this`seen
      ensures Analyzing(k)
      ensures Resolving(A(), seen, out + sel, |trail|) && count == |Current(A(), seen, |trail|)| && count > 0
      ensures RefutedBut(formula, A(), seen, [])
    {
      hide Consistent, Drained, BooksOk, Resolving, RefutedBut, TrailOk;
      forall q | q in ca[cr].lits ensures Value(q) == LFalse && q.v < |assigns| && A().Pos(q.v) < |trail|
      {
        assert A().Val(q) == LFalse;
        FalseOnTrail(formula, ca, watches, watchesBin, dirty, dirtyBin, A(), q);
      }
      out, sel, count := MarkClause(ca[cr].lits, 0, |trail|, out0, sel0, count0);
      ResolveConflict(formula, ca, watches, watchesBin, dirty, dirtyBin, A(), cr, seen);
      var q :| q in ca[cr].lits && Level(q.v) == |trailLim|;
      FalseOnTrail(formula, ca, watches, watchesBin, dirty, dirtyBin, A(), q);
      var i :| 0 <= i < |ca[cr].lits| && ca[cr].lits[i] == q;
      CountPositive(A(), seen, out + sel, |trail|, q.v);
    }

    // One turn of the resolution loop: marks the literals of `cr`, the falsified
    // clause at first and later the reason of the literal `p` just taken out.
    method ResolveClause(p: Option<Lit>, cr: CRef, ghost index: nat, out0: seq<Lit>, sel0: seq<Lit>, count0: nat,
        ghost k: nat)
      returns (out: seq<Lit>, sel: seq<Lit>, count: nat)
      requires Analyzing(k) && Resolving(A(), seen, out0 + sel0, index) && count0 == |Current(A(), seen, index)|
      requires DecisionLevel() > 0
      requires p.None? ==> Conflicting(cr) && index == |trail|
      requires p.Some? ==> Resolvent(p.value, cr, index) && count0 > 0
      modifies this`ca, this`seen
      ensures Analyzing(k) && SameDb(old(ca), ca)
      ensures Resolving(A(), seen, out + sel, index) && count == |Current(A(), seen, index)| && count > 0
      ensures RefutedBut(formula, A(), seen, [])
    {
      hide Consistent, Drained, BooksOk, Resolving, RefutedBut, TrailOk, LeadsTo;
      ghost var marks := seen;
      if p.Some? {
        OrderReason(p.value.v, cr, k);
        LeadsBefore(formula, ca, watches, watchesBin, dirty, dirtyBin, A(), ca[cr].lits, p.value.v);
        out, sel, count := MarkClause(ca[cr].lits, 1, index, out0, sel0, count0);
        assert [] + [Neg(p.value)] == [Neg(p.value)];
        ResolveReason(formula, ca, watches, watchesBin, dirty, dirtyBin, A(), p.value.v, cr, [], marks, seen);
      } else {
        out, sel, count := MarkFalsified(cr, out0, sel0, count0, k);
      }
    }

    // Finds the marked literal highest on the trail and takes its mark off.
    method TakeMarked(end: nat, ghost out: seq<Lit>, ghost count: nat) returns (uip: Lit, index: nat)
      requires Resolving(A(), seen, out, end) && count == |Current(A(), seen, end)| && count > 0
      requires RefutedBut(formula, A(), seen, [])
      modifies this`seen
      ensures index < end <= |trail| && DecisionLevel() > 0 && |seen| == |old(seen)|
      ensures Resolving(A(), seen, out, index) && |Current(A(), seen, index)| == count - 1
      ensures RefutedBut(formula, A(), seen, [Neg(uip)])
      ensures Value(uip) == LTrue && uip == TrailLit(A(), uip.v) && uip.v < |assigns|
      ensures Level(uip.v) == DecisionLevel() && A().Pos(uip.v) == index
    {
      hide Resolving, RefutedBut, TrailOk;
      ResolvingSize(A(), seen, out, end);
      SomeMarked(A(), seen, end);
      index := end;
      while index > 0 && !(trail[index - 1].v < |seen| && seen[trail[index - 1].v])
        invariant index <= end
        invariant exists i :: 0 <= i < index && trail[i].v < |seen| && seen[trail[i].v]
        invariant forall j :: index <= j < end ==> !(trail[j].v < |seen| && seen[trail[j].v])
      {
        index := index - 1;
      }
      index := index - 1;
      uip := trail[index];
      TakeHighest(formula, A(), seen, out, end, index);
      seen := seen[uip.v := false];
    }

    // Resolves backwards along the trail from clause `confl` to the first unique
    // implication point `uip`; `out` and `sel` are the other literals of the
    // learnt clause, all marked.
    method FirstUip(confl: CRef, ghost k: nat) returns (uip: Lit, out: seq<Lit>, sel: seq<Lit>)
      requires Analyzing(k) && SeenClear() && Conflicting(confl) && DecisionLevel() > 0
      modifies this`ca, this`seen
      ensures Analyzing(k) && SameDb(old(ca), ca)
      ensures Value(uip) == LTrue && Level(uip.v) == DecisionLevel() && uip == TrailLit(A(), uip.v)
      ensures A().Pos(uip.v) < |trail| && Resolving(A(), seen, out + sel, A().Pos(uip.v))
      ensures |Current(A(), seen, A().Pos(uip.v))| == 0
      ensures RefutedBut(formula, A(), seen, [Neg(uip)])
    {
      hide Consistent, Drained, BooksOk, Resolving, RefutedBut, TrailOk, Current, Falsified;
      var cr, count := confl, 0;
      var p: Option<Lit> := None;
      var index: nat := |trail|;
      out, sel := [], [];
      ResolvingStart(formula, ca, watches, watchesBin, dirty, dirtyBin, A(), seen);
      assert out + sel == [];
      while true
        invariant Analyzing(k) && SameDb(old(ca), ca)
        invariant TrailOk(A()) && index <= |trail|
        invariant Resolving(A(), seen, out + sel, index) && count == |Current(A(), seen, index)|
        invariant p.None? ==> Conflicting(cr) && index == |trail|
        invariant p.Some? ==> Resolvent(p.value, cr, index) && count > 0
        decreases index
      {
        out, sel, count := ResolveClause(p, cr, index, out, sel, count, k);
        uip, index := TakeMarked(index, out + sel, count);
        count := count - 1;
        if count == 0 {
          return;
        }
        ReasonExists(formula, ca, watches, watchesBin, dirty, dirtyBin, A(), seen, uip.v, index);
        p, cr := Some(uip), Reason(uip.v).value;
      }
    }

    // ---- Minimisation of the learnt clause ----

    // The levels of the learnt clause are abstracted to a 32-bit set.
    function AbstractLevel(v: nat): bv32
      reads this`vardata
    {
      (1 as bv32) << (Level(v) % 32)
    }

    // The level of the variable is possibly one of the abstracted ones.
    predicate InLevels(v: nat, abstractLevels: bv32)
      reads this`vardata
    {
      Meets(AbstractLevel(v), abstractLevels)
    }

    // Scans the reason `c` of a literal: its unmarked variables above level 0 are
    // marked and pushed, unless one has no reason or a level outside the learnt
    // clause, which ends the scan.
    method ScanReason(c: seq<Lit>, abstractLevels: bv32) returns (pushed: seq<Lit>, complete: bool)
      requires |seen| == |assigns|
      requires forall i :: 1 <= i < |c| ==> Value(c[i]) == LFalse
      modifies this`seen, this`analyzeToClear
      ensures MarkedSince(old(seen), seen, pushed) && Expandable(A(), pushed)
      ensures forall q :: q in pushed ==> InLevels(q.v, abstractLevels)
      ensures analyzeToClear == old(analyzeToClear) + pushed
      ensures |pushed| + |Unmarked(seen)| == |Unmarked(old(seen))|
      ensures complete ==> forall i :: 1 <= i < |c| ==> Level(c[i].v) == 0 || (c[i].v < |seen| && seen[c[i].v])
      ensures |c| > 0 ==> Scan(c, A(), old(seen), pushed, complete, Open(abstractLevels))
    {
      hide MarkedSince, InLevels;
      pushed := [];
      MarkedSinceNone(seen);
      var i := 1;
      while i < |c|
        invariant 1 <= i && |seen| == |assigns|
        invariant MarkedSince(old(seen), seen, pushed) && Expandable(A(), pushed)
        invariant forall q :: q in pushed ==> InLevels(q.v, abstractLevels)
        invariant analyzeToClear == old(analyzeToClear) + pushed
        invariant |pushed| + |Unmarked(seen)| == |Unmarked(old(seen))|
        invariant |c| > 0 ==> forall q :: q in pushed ==> q in c[1..]
        invariant forall j :: 1 <= j < i && j < |c| ==> Level(c[j].v) == 0 || (c[j].v < |seen| && seen[c[j].v])
      {
        var p := c[i];
        assert c[1..][i - 1] == p;
        if !seen[p.v] && Level(p.v) > 0 {
          if Reason(p.v).Some? && InLevels(p.v, abstractLevels) {
            MarkedSinceOne(old(seen), seen, pushed, p);
            MarkCounts(seen, p.v);
            seen := seen[p.v := true];
            analyzeToClear := analyzeToClear + [p];
            pushed := pushed + [p];
          } else {
            MarkedSinceFresh(old(seen), seen, pushed);
            assert Fresh(A(), old(seen), p) && (A().Why(p.v).None? || p.v !in Open(abstractLevels));
            return pushed, false;
          }
        }
        i := i + 1;
      }
      MarkedSinceFresh(old(seen), seen, pushed);
      return pushed, true;
    }

    // The variables whose level is possibly one of the abstracted ones.
    ghost function Open(abstractLevels: bv32): iset<nat>
      reads this`vardata
    {
      iset v: nat | InLevels(v, abstractLevels)
    }

    // Replaces a literal `x` taken off the stack by the unmarked ones of its reason.
    method ExpandReason(x: Lit, abstractLevels: bv32, ghost before: seq<bool>, ghost stack: seq<Lit>, ghost root: nat,
        ghost k: nat)
      returns (pushed: seq<Lit>, complete: bool)
      requires Analyzing(k) && Expandable(A(), [x]) && Justified(ca, A(), before, seen, stack + [x], root)
      requires |before| == |seen| && forall v :: 0 <= v < |before| && before[v] ==> seen[v]
      modifies this`ca, this`seen, this`analyzeToClear
      ensures Analyzing(k) && SameDb(old(ca), ca)
      ensures MarkedSince(old(seen), seen, pushed) && Expandable(A(), pushed)
      ensures analyzeToClear == old(analyzeToClear) + pushed
      ensures |pushed| + |Unmarked(seen)| == |Unmarked(old(seen))|
      ensures complete ==> Justified(ca, A(), before, seen, stack + pushed, root)
      ensures ScanFound(ca, A(), before, x.v, pushed, complete, Open(abstractLevels))
    {
      hide Consistent, Drained, BooksOk, Justified, MarkedSince, LeadsTo, Unmarked, Scan, ScanFound;
      ghost var marks, cb := seen, ca;
      assert x in [x];
      var cr := Reason(x.v).value;
      OrderReason(x.v, cr, k);
      JustifiedReorder(cb, ca, A(), before, seen, stack + [x], root);
      LeadsBefore(formula, ca, watches, watchesBin, dirty, dirtyBin, A(), ca[cr].lits, x.v);
      LeadsFirst(ca[cr].lits, A(), x.v);
      pushed, complete := ScanReason(ca[cr].lits, abstractLevels);
      ScanSteps(ca, A(), marks, before, x.v, pushed, complete, Open(abstractLevels));
      if complete {
        JustifiedScan(ca, A(), before, marks, seen, stack, x, pushed, root, cr);
      }
      MarkedSinceSize(marks, seen, pushed);
    }

    // Can `p` be dropped from the learnt clause? On success every variable marked
    // on the way is implied by marked ones; on failure the marks are rolled back.
    method LitRedundant(p: Lit, abstractLevels: bv32, ghost k: nat) returns (redundant: bool)
      requires Analyzing(k) && MarksAssigned(A(), seen) && Expandable(A(), [p])
      requires AllListed(seen, analyzeToClear)
      modifies this`ca, this`seen, this`analyzeToClear
      ensures Analyzing(k) && SameDb(old(ca), ca)
      ensures MarksAssigned(A(), seen) && AllListed(seen, analyzeToClear)
      ensures redundant ==> Justified(ca, A(), old(seen), seen, [], p.v)
      ensures redundant ==> forall v :: 0 <= v < |seen| && old(seen)[v] ==> seen[v]
      ensures !redundant ==> seen == old(seen) && Irredundant(ca, A(), seen, p.v, Open(abstractLevels))
    {
      hide Consistent, Drained, BooksOk, Justified, MarkedSince, LeadsTo, MarksAssigned, AllListed, SameDb, Unmarked,
        AllReached, ScanFound, Stuck, Reached;
      var stack := [p];
      var top := |analyzeToClear|;
      ghost var recent: seq<Lit> := [];
      ghost var before, listed := seen, analyzeToClear;
      SameDbRefl(ca);
      MarkedSinceNone(seen);
      JustifiedStart(ca, A(), seen, p);
      ReachedSelf(ca, A(), seen, p);
      while |stack| > 0
        invariant Analyzing(k) && SameDb(old(ca), ca)
        invariant MarksAssigned(A(), seen) && Expandable(A(), stack)
        invariant analyzeToClear == listed + recent && MarkedSince(before, seen, recent)
        invariant Justified(ca, A(), before, seen, stack, p.v)
        invariant AllReached(ca, A(), before, p.v, stack)
        decreases |Unmarked(seen)| + |stack|
      {
        var x := stack[|stack| - 1];
        assert stack == stack[..|stack| - 1] + [x];
        stack := stack[..|stack| - 1];
        ghost var marks, cb := seen, ca;
        SinceGrows(before, seen, recent);
        var pushed, scanned := ExpandReason(x, abstractLevels, before, stack, p.v, k);
        SameDbTrans(old(ca), cb, ca);
        AllReachedStays(cb, ca, A(), before, p.v, stack + [x]);
        StackPushed(ca, A(), before, p.v, stack, x, pushed, scanned, Open(abstractLevels));
        MarkedSinceTrans(before, marks, seen, recent, pushed);
        recent := recent + pushed;
        if !scanned {
          UndoMarks(before, listed, recent, top);
          return false;
        }
        MarksMore(A(), marks, seen, pushed);
        stack := stack + pushed;
      }
      ListedMore(before, seen, listed, recent);
      SinceGrows(before, seen, recent);
      return true;
    }

    // Clears the marks recorded from position `top` on and forgets them.
    method UndoMarks(ghost before: seq<bool>, ghost listed: seq<Lit>, ghost recent: seq<Lit>, top: nat)
      requires analyzeToClear == listed + recent && top == |listed| && MarkedSince(before, seen, recent)
      modifies this`seen, this`analyzeToClear
      ensures seen == before && analyzeToClear == listed
    {
      var j := top;
      while j < |analyzeToClear|
        invariant top <= j <= |analyzeToClear| && |seen| == |before|
        invariant analyzeToClear == listed + recent
        invariant forall v :: 0 <= v < |seen| ==>
          seen[v] == (before[v] || (HasVar(recent, v) && !HasVar(recent[..j - top], v)))
      {
        var q := analyzeToClear[j];
        assert q == recent[j - top] && q in recent;
        ClearOne(seen, before, recent, j - top);
        seen := seen[q.v := false];
        j := j + 1;
      }
      analyzeToClear := analyzeToClear[..top];
      assert recent[..|recent|] == recent;
      assert seen == before;
    }

    // Some literal from 1 to before `n` has the level of the variable, up to the width
    // of the abstraction.
    ghost predicate SharesLevel(c: seq<Lit>, n: nat, v: nat)
      reads this`vardata
    {
      exists k :: 1 <= k < n && k < |c| && Level(c[k].v) % 32 == Level(v) % 32
    }

    ghost predicate ExactLevels(c: seq<Lit>, n: nat, levels: bv32)
      reads this`vardata
    {
      forall v: nat :: InLevels(v, levels) <==> SharesLevel(c, n, v)
    }

    // The variables with such a level.
    ghost function LevelMates(c: seq<Lit>): iset<nat>
      reads this`vardata
    {
      iset v: nat | SharesLevel(c, |c|, v)
    }

    lemma ExactMore(c: seq<Lit>, n: nat, levels: bv32)
      requires 1 <= n < |c| && ExactLevels(c, n, levels)
      ensures ExactLevels(c, n + 1, With(levels, AbstractLevel(c[n].v)))
    {
      hide AbstractLevel, InLevels, SharesLevel, With;
      var more := With(levels, AbstractLevel(c[n].v));
      forall v: nat ensures InLevels(v, more) <==> SharesLevel(c, n + 1, v)
      {
        assert InLevels(v, levels) <==> SharesLevel(c, n, v);
        OneMoreLevel(v, levels, c[n].v);
        SharesMore(c, n, v);
      }
    }

    lemma OneMoreLevel(v: nat, levels: bv32, w: nat)
      ensures InLevels(v, With(levels, AbstractLevel(w))) <==> InLevels(v, levels) || Level(v) % 32 == Level(w) % 32
    {
      hide AbstractLevel, Meets, With;
      LevelsMeet(v, w);
      LevelAdded(AbstractLevel(v), levels, AbstractLevel(w));
    }

    lemma SharesMore(c: seq<Lit>, n: nat, v: nat)
      requires 1 <= n < |c|
      ensures SharesLevel(c, n + 1, v) <==> SharesLevel(c, n, v) || Level(c[n].v) % 32 == Level(v) % 32
    {
      if SharesLevel(c, n + 1, v) {
        var k :| 1 <= k < n + 1 && k < |c| && Level(c[k].v) % 32 == Level(v) % 32;
      }
    }

    lemma LevelsMeet(v: nat, w: nat)
      ensures Meets(AbstractLevel(v), AbstractLevel(w)) <==> Level(v) % 32 == Level(w) % 32
    {
      hide Meets;
      TwoBits(Level(v) % 32, Level(w) % 32);
    }

    // The abstraction of the levels of all literals but the first.
    method AbstractLevels(c: seq<Lit>) returns (levels: bv32)
      requires |c| > 0
      ensures ExactLevels(c, |c|, levels)
    {
      hide ExactLevels, AbstractLevel;
      levels := 0;
      NothingCovered(c, levels);
      for i := 1 to |c|
        invariant ExactLevels(c, i, levels)
      {
        ExactMore(c, i, levels);
        levels := With(levels, AbstractLevel(c[i].v));
      }
    }

    lemma NothingCovered(c: seq<Lit>, levels: bv32)
      requires levels == 0
      ensures ExactLevels(c, 1, levels)
    {
      hide AbstractLevel, Meets;
      forall v: nat ensures !Meets(AbstractLevel(v), levels)
      {
        NothingMeets(AbstractLevel(v));
      }
    }

    lemma OpenExact(c: seq<Lit>, levels: bv32)
      requires ExactLevels(c, |c|, levels)
      ensures Open(levels) == LevelMates(c)
    {
      hide InLevels, SharesLevel;
    }

    // Deep minimisation: drops in place every literal that is redundant. From each one
    // kept, reasons lead to a decision or to a level not in the clause.
    method MinimizeDeep(learnt0: seq<Lit>, ghost k: nat) returns (learnt: seq<Lit>)
      requires Analyzing(k) && Learning(formula, A(), seen, learnt0) && AllListed(seen, analyzeToClear)
      modifies this`ca, this`seen, this`analyzeToClear
      ensures Analyzing(k) && SameDb(old(ca), ca) && AllListed(seen, analyzeToClear)
      ensures Entails(formula, learnt) && Shrunk(learnt0, learnt)
      ensures AllNeeded(ca, A(), old(seen), learnt, LevelMates(learnt0))
    {
      hide Consistent, Drained, BooksOk, Learning, AllListed, Examined, MarksAssigned, Entails, Shrunk, ExactLevels,
        SameDb, AllNeeded, Needed, LevelMates;
      LearningMarks(formula, A(), seen, learnt0);
      SameDbRefl(ca);
      ghost var before := seen;
      var abstractLevels := AbstractLevels(learnt0);
      OpenExact(learnt0, abstractLevels);
      learnt := learnt0;
      var i, j := 1, 1;
      ExaminedStart(formula, ca, A(), seen, learnt0);
      NoneKept(ca, A(), before, learnt[..1], LevelMates(learnt0));
      while i < |learnt|
        invariant 1 <= j <= i <= |learnt| == |learnt0| && learnt[i..] == learnt0[i..]
        invariant AllNeeded(ca, A(), before, learnt[..j], LevelMates(learnt0))
        invariant Analyzing(k) && SameDb(old(ca), ca) && AllListed(seen, analyzeToClear) && MarksAssigned(A(), seen)
        invariant Examined(ca, A(), before, seen, learnt0, i, learnt[..j])
      {
        var l := learnt[i];
        assert l == learnt[i..][0] == learnt0[i];
        assert learnt[i + 1..] == learnt0[i + 1..];
        ghost var cb := ca;
        var drop := ExamineLiteral(l, abstractLevels, k, learnt0, i, learnt[..j], before);
        SameDbTrans(old(ca), cb, ca);
        OneNeeded(cb, ca, A(), before, learnt[..j], l, drop, LevelMates(learnt0));
        if !drop {
          learnt := learnt[j := l];
          assert learnt[..j + 1] == learnt[..j] + [l];
          j := j + 1;
        }
        i := i + 1;
      }
      ExaminedEntailed(formula, ca, watches, watchesBin, dirty, dirtyBin, A(), before, seen, learnt0, learnt[..j]);
      learnt := learnt[..|learnt| - (i - j)];
    }

    // Whether literal `i` can be dropped; if not it is kept.
    method ExamineLiteral(l: Lit, abstractLevels: bv32, ghost k: nat, ghost learnt0: seq<Lit>, ghost i: nat,
        ghost kept: seq<Lit>, ghost before: seq<bool>) returns (drop: bool)
      requires Analyzing(k) && Learning(formula, A(), before, learnt0) && 1 <= i < |learnt0| && l == learnt0[i]
      requires AllListed(seen, analyzeToClear) && MarksAssigned(A(), seen)
        && Examined(ca, A(), before, seen, learnt0, i, kept)
      modifies this`ca, this`seen, this`analyzeToClear
      ensures Analyzing(k) && SameDb(old(ca), ca) && AllListed(seen, analyzeToClear) && MarksAssigned(A(), seen)
      ensures Examined(ca, A(), before, seen, learnt0, i + 1, if drop then kept else kept + [l])
      ensures !drop ==> Needed(ca, A(), before, l.v, Open(abstractLevels))
    {
      hide Consistent, Drained, BooksOk, Justified, AllListed, Examined, MarksAssigned, Entails, Shrunk, RefutedBut,
        Irredundant;
      ghost var marks, cb := seen, ca;
      LearntLiteral(formula, A(), before, learnt0, i);
      drop := false;
      if Reason(l.v).Some? {
        drop := LitRedundant(l, abstractLevels, k);
      }
      ExaminedReorder(cb, ca, A(), before, marks, learnt0, i, kept);
      if !drop {
        ExaminedMarks(cb, A(), before, marks, learnt0, i, kept);
        SameDbRefl(ca);
        NeededStays(ca, ca, A(), marks, before, l.v, Open(abstractLevels));
      }
      if drop {
        ExaminedDrop(ca, A(), before, marks, seen, learnt0, i, kept);
      } else {
        ExaminedKeep(ca, A(), before, seen, learnt0, i, kept);
      }
    }

    // Are all literals of the reason `c` marked or at level 0?
    method AllMarked(c: seq<Lit>) returns (all: bool)
      requires forall l :: l in c ==> l.v < |seen|
      ensures all <==> forall i :: (if |c| == 2 then 0 else 1) <= i < |c| ==> Level(c[i].v) == 0 || seen[c[i].v]
    {
      var i := if |c| == 2 then 0 else 1;
      while i < |c|
        invariant (if |c| == 2 then 0 else 1) <= i
        invariant forall j :: (if |c| == 2 then 0 else 1) <= j < i && j < |c| ==> Level(c[j].v) == 0 || seen[c[j].v]
      {
        assert c[i] in c;
        if !seen[c[i].v] && Level(c[i].v) > 0 {
          return false;
        }
        i := i + 1;
      }
      return true;
    }

    // Basic minimisation: drops in place every literal whose reason is marked in full.
    method MinimizeBasic(learnt0: seq<Lit>, ghost k: nat) returns (learnt: seq<Lit>)
      requires Analyzing(k) && Learning(formula, A(), seen, learnt0)
      ensures Entails(formula, learnt) && Shrunk(learnt0, learnt)
      ensures AllUncovered(ca, A(), seen, learnt)
    {
      hide Consistent, Drained, BooksOk, Justified, Examined, MarksAssigned, Entails, Shrunk, RefutedBut, Uncovered;
      learnt := learnt0;
      var i, j := 1, 1;
      ExaminedStart(formula, ca, A(), seen, learnt0);
      while i < |learnt|
        invariant 1 <= j <= i <= |learnt| == |learnt0| && learnt[i..] == learnt0[i..]
        invariant Examined(ca, A(), seen, seen, learnt0, i, learnt[..j])
        invariant forall t :: 1 <= t < j ==> Uncovered(ca, A(), seen, learnt[t].v)
      {
        var l := learnt[i];
        assert l == learnt[i..][0] == learnt0[i];
        assert learnt[i + 1..] == learnt0[i + 1..];
        LearntLiteral(formula, A(), seen, learnt0, i);
        var drop := CoveredBy(l, k);
        if drop {
          ExaminedDrop(ca, A(), seen, seen, seen, learnt0, i, learnt[..j]);
        } else {
          ExaminedKeep(ca, A(), seen, seen, learnt0, i, learnt[..j]);
          learnt := learnt[j := l];
          assert learnt[..j + 1] == learnt[..j] + [l];
          j := j + 1;
        }
        i := i + 1;
      }
      ExaminedEntailed(formula, ca, watches, watchesBin, dirty, dirtyBin, A(), seen, seen, learnt0, learnt[..j]);
      learnt := learnt[..|learnt| - (i - j)];
    }

    // Whether the reason of a marked literal is marked in full.
    method CoveredBy(l: Lit, ghost k: nat) returns (drop: bool)
      requires Analyzing(k) && MarksAssigned(A(), seen) && l.v < |seen| && Value(l) == LFalse && Level(l.v) > 0
      requires seen[l.v]
      ensures drop ==> Justified(ca, A(), seen, seen, [], l.v)
      ensures !drop ==> Uncovered(ca, A(), seen, l.v)
    {
      hide Consistent, Drained, BooksOk, Justified, MarksAssigned;
      if Reason(l.v).None? {
        return false;
      }
      var cr := Reason(l.v).value;
      ReasonFacts(formula, ca, watches, watchesBin, dirty, dirtyBin, A(), l.v);
      ClauseShape(formula, ca, watches, watchesBin, dirty, dirtyBin, A(), cr);
      drop := AllMarked(ca[cr].lits);
      if drop {
        DirectlyClosed(formula, ca, watches, watchesBin, dirty, dirtyBin, A(), seen, l.v, cr);
      } else {
        ghost var c := ca[cr].lits;
        ghost var i :| (if |c| == 2 then 0 else 1) <= i < |c| && Level(c[i].v) != 0 && !seen[c[i].v];
        NotCovered(ca, A(), seen, l.v, i);
      }
    }

    ghost function LevelsOf(c: seq<Lit>): set<nat>
      reads this`vardata
    {
      set l | l in c :: Level(l.v)
    }

    lemma LevelsMore(c: seq<Lit>, l: Lit)
      ensures LevelsOf([]) == {}
      ensures LevelsOf(c + [l]) == LevelsOf(c) + {Level(l.v)}
    {
      assert forall k :: k in c + [l] <==> k in c || k == l;
    }

    // The literals of `c` on variables that are no selectors, in order.
    function NonSelectors(c: seq<Lit>): (r: seq<Lit>)
      reads this`incremental, this`nbVarsInitialFormula
      ensures |r| <= |c|
    {
      if c == [] then []
      else
        var l := c[|c| - 1];
        NonSelectors(c[..|c| - 1]) + if IsSelector(l.v) then [] else [l]
    }

    lemma NonSelectorsStep(c: seq<Lit>, i: nat)
      requires i < |c|
      ensures NonSelectors(c[..i + 1]) == if IsSelector(c[i].v) then NonSelectors(c[..i])
        else NonSelectors(c[..i]) + [c[i]]
    {
      assert c[..i + 1][..i] == c[..i];
    }

    lemma {:induction false} NonSelectorsPrefix(c: seq<Lit>, i: nat)
      requires i <= |c|
      ensures NonSelectors([]) == [] && NonSelectors(c[..i]) <= NonSelectors(c)
      decreases |c| - i
    {
      if i < |c| {
        NonSelectorsStep(c, i);
        NonSelectorsPrefix(c, i + 1);
      } else {
        assert c[..i] == c;
      }
    }

    // The literals that count: all of them, but in incremental mode only the first
    // `end` (-1 for no bound) that are no selectors.
    function Counted(c: seq<Lit>, end: int): seq<Lit>
      requires end >= -1
      reads this`incremental, this`nbVarsInitialFormula
    {
      if !incremental then c
      else
        var s := NonSelectors(c);
        if end == -1 || end >= |s| then s else s[..end]
    }

    // The scan stopped at the end or at the bound.
    lemma CountedAll(c: seq<Lit>, end: int, i: nat)
      requires end >= -1 && i <= |c| && incremental
      requires end != -1 ==> |NonSelectors(c[..i])| <= end
      requires i == |c| || (end != -1 && |NonSelectors(c[..i])| >= end)
      ensures NonSelectors(c[..i]) == Counted(c, end)
    {
      assert c[..|c|] == c;
      NonSelectorsPrefix(c, i);
    }

    ghost function LbdOf(c: seq<Lit>, end: int): nat
      requires end >= -1
      reads this`incremental, this`nbVarsInitialFormula, this`vardata, this`reduceOnSize, this`reduceOnSizeSize
    {
      if !reduceOnSize then |LevelsOf(Counted(c, end))|
      else if |c| < reduceOnSizeSize then |c|
      else |c| + |LevelsOf(Counted(c, end))|
    }

    // The number of decision levels among the literals that count.
    method ComputeLbd(c: seq<Lit>, end: int) returns (n: nat)
      requires end >= -1
      ensures !reduceOnSize ==> n == |LevelsOf(Counted(c, end))|
      ensures reduceOnSize && |c| < reduceOnSizeSize ==> n == |c|
      ensures reduceOnSize && |c| >= reduceOnSizeSize ==> n == |c| + |LevelsOf(Counted(c, end))|
      ensures n == LbdOf(c, end)
    {
      if incremental {
        n := ComputeLbdIncremental(c, end);
      } else {
        n := ComputeLbdDefault(c);
      }
      if reduceOnSize {
        n := if |c| < reduceOnSizeSize then |c| else |c| + n;
      }
    }

    method ComputeLbdDefault(c: seq<Lit>) returns (n: nat)
      ensures n == |LevelsOf(c)|
    {
      hide LevelsOf;
      LevelsMore([], Lit(0, false));
      var levels: set<nat> := {};
      n := 0;
      for i := 0 to |c|
        invariant n == |levels| && levels == LevelsOf(c[..i])
      {
        assert c[..i + 1] == c[..i] + [c[i]];
        LevelsMore(c[..i], c[i]);
        if Level(c[i].v) !in levels {
          levels := levels + {Level(c[i].v)};
          n := n + 1;
        }
      }
      assert c[..|c|] == c;
    }

    method ComputeLbdIncremental(c: seq<Lit>, end: int) returns (n: nat)
      requires end >= -1 && incremental
      ensures n == |LevelsOf(Counted(c, end))|
    {
      hide *;
      LevelsMore([], Lit(0, false));
      NonSelectorsPrefix(c, 0);
      var levels: set<nat> := {};
      n := 0;
      var nbDone := 0;
      var i := 0;
      while i < |c|
        invariant 0 <= i <= |c| && n == |levels| && levels == LevelsOf(NonSelectors(c[..i]))
        invariant nbDone == |NonSelectors(c[..i])| && (end != -1 ==> nbDone <= end)
      {
        if end != -1 && nbDone >= end {
          break;
        }
        NonSelectorsStep(c, i);
        if !IsSelector(c[i].v) {
          LevelsMore(NonSelectors(c[..i]), c[i]);
          nbDone := nbDone + 1;
          if Level(c[i].v) !in levels {
            levels := levels + {Level(c[i].v)};
            n := n + 1;
          }
        }
        i := i + 1;
      }
      CountedAll(c, end, i);
    }

    // Drops the literals whose negation is implied, through a binary clause, by
    // the negation of the asserting literal.
    method MinimisationWithBinaryResolution(learnt0: seq<Lit>) returns (learnt: seq<Lit>)
      requires Core() && dirtyBin == {} && Entails(formula, learnt0)
      requires |learnt0| > 0 && DistinctVars(learnt0) && learnt0[0].v < |assigns|
      requires forall l :: l in learnt0 ==> Value(l) == LFalse
      ensures Entails(formula, learnt) && Shrunk(learnt0, learnt)
      ensures if LbdOf(learnt0, -1) > lbLbdMinimizingClause then learnt == learnt0
        else forall l :: l in learnt0[1..] ==> (l in learnt <==> !WatchImplies(Neg(learnt0[0]), l.v))
    {
      hide Consistent, BooksOk, Entails, LbdOf, WatchImplies, BinaryImplies;
      learnt := learnt0;
      var lbd := ComputeLbd(learnt, -1);
      if lbd <= lbLbdMinimizingClause {
        var p := Neg(learnt[0]);
        var marked := MarkRest(learnt);
        var nb;
        marked, nb := DropImplied(learnt, p, marked);
        if nb == 0 {
          Sets.SubsetSize(marked, VarsOf(learnt0[1..]));
          RestMarked(learnt0);
        } else {
          learnt := Partition(learnt, marked, nb);
          assert forall l :: l in learnt0[1..] ==> (l in learnt <==> l.v in marked);
          BinaryDone(formula, ca, watches, watchesBin, dirty, dirtyBin, A(), learnt0, marked, learnt);
        }
      }
      ShrunkSelf(learnt0);
    }

    // Takes off the marks of variables implied by `p` through a binary clause.
    method DropImplied(learnt0: seq<Lit>, p: Lit, marked0: set<nat>) returns (marked: set<nat>, nb: nat)
      requires Core() && dirtyBin == {} && |learnt0| > 0 && learnt0[0].v < |assigns| && p == Neg(learnt0[0])
      requires marked0 == VarsOf(learnt0[1..]) && |marked0| == |learnt0| - 1 && DistinctVars(learnt0)
      requires forall l :: l in learnt0 ==> Value(l) == LFalse
      ensures marked <= VarsOf(learnt0[1..]) && |marked| + nb == |learnt0| - 1
      ensures forall l :: l in learnt0[1..] ==> l.v in marked || BinaryImplies(ca, learnt0[0], l)
      ensures forall l :: l in learnt0[1..] ==> (l.v in marked <==> !WatchImplies(p, l.v))
    {
      hide Consistent, BooksOk, VarsOf, BinaryImplies, Val, DistinctVars;
      ListsIndex(formula, ca, watches, watchesBin, dirty, dirtyBin, A(), p);
      var wbin := watchesBin[p];
      marked, nb := marked0, 0;
      RestMarked(learnt0);
      var k := 0;
      while k < |wbin|
        invariant 0 <= k <= |wbin|
        invariant marked <= VarsOf(learnt0[1..]) && |marked| + nb == |learnt0| - 1
        invariant forall l :: l in learnt0[1..] ==> l.v in marked || BinaryImplies(ca, learnt0[0], l)
        invariant forall l :: l in learnt0[1..] ==> (l.v in marked <==> !ImpliedUpTo(wbin, k, l.v))
      {
        var imp := wbin[k].blocker;
        ImpliedMore(wbin, k);
        if imp.v in marked && Value(imp) == LTrue {
          BinaryStep(formula, ca, watches, watchesBin, dirty, A(), learnt0, wbin[k]);
          nb := nb + 1;
          marked := marked - {imp.v};
        }
        k := k + 1;
      }
    }

    ghost predicate ImpliedUpTo(wbin: seq<Watcher>, k: nat, v: nat)
      reads this
    {
      exists j :: 0 <= j < k && j < |wbin| && wbin[j].blocker.v == v && Value(wbin[j].blocker) == LTrue
    }

    lemma ImpliedMore(wbin: seq<Watcher>, k: nat)
      requires k < |wbin|
      ensures forall v :: ImpliedUpTo(wbin, k + 1, v) <==>
        ImpliedUpTo(wbin, k, v) || (wbin[k].blocker.v == v && Value(wbin[k].blocker) == LTrue)
    {
      forall v | ImpliedUpTo(wbin, k + 1, v)
        ensures ImpliedUpTo(wbin, k, v) || (wbin[k].blocker.v == v && Value(wbin[k].blocker) == LTrue)
      {
        var j :| 0 <= j < k + 1 && j < |wbin| && wbin[j].blocker.v == v && Value(wbin[j].blocker) == LTrue;
      }
    }

    // A binary clause watched by the literal has a true literal of the variable.
    ghost predicate WatchImplies(p: Lit, v: nat)
      reads this
    {
      p in watchesBin && ImpliedUpTo(watchesBin[p], |watchesBin[p]|, v)
    }

    lemma RestMarked(c: seq<Lit>)
      requires |c| > 0
      ensures forall l :: l in c[1..] ==> l.v in VarsOf(c[1..]) && l in c
    {
    }

    method MarkRest(c: seq<Lit>) returns (marked: set<nat>)
      requires |c| > 0 && DistinctVars(c)
      ensures marked == VarsOf(c[1..]) && |marked| == |c| - 1
    {
      marked := {};
      var i := 1;
      while i < |c|
        invariant 1 <= i <= |c| && marked == VarsOf(c[1..i])
      {
        assert c[1..i + 1] == c[1..i] + [c[i]];
        marked := marked + {c[i].v};
        i := i + 1;
      }
      assert c[1..|c|] == c[1..];
      VarsSlice(c, 1, |c|);
    }

    // Clears all marks recorded in `analyzeToClear`.
    method ClearSeen()
      requires |seen| == |assigns| && AllListed(seen, analyzeToClear)
      modifies this`seen
      ensures |seen| == |assigns| && SeenClear()
    {
      var j := 0;
      while j < |analyzeToClear|
        invariant 0 <= j <= |analyzeToClear| && |seen| == |assigns|
        invariant forall v :: 0 <= v < |seen| && seen[v] ==> HasVar(analyzeToClear[j..], v)
      {
        assert analyzeToClear[j..] == [analyzeToClear[j]] + analyzeToClear[j + 1..];
        assert analyzeToClear[j] in analyzeToClear;
        seen := seen[analyzeToClear[j].v := false];
        j := j + 1;
      }
    }

    // Swaps a literal of the highest level among those after the first to index 1
    // and returns that level.
    method FindBtLevel(learnt0: seq<Lit>) returns (learnt: seq<Lit>, btLevel: nat)
      requires LearntShape(A(), learnt0) && Entails(formula, learnt0)
      ensures Asserting(A(), learnt, btLevel) && Entails(formula, learnt)
    {
      hide LearntShape, Asserting, Entails;
      LearntShapeFacts(A(), learnt0);
      learnt := learnt0;
      if |learnt| == 1 {
        AssertingSwap(formula, A(), learnt0, learnt, 0);
        return learnt, 0;
      }
      var max := 1;
      var i := 2;
      while i < |learnt|
        invariant 1 <= max < i <= |learnt|
        invariant forall j :: 1 <= j < i ==> Level(learnt[j].v) <= Level(learnt[max].v)
      {
        if Level(learnt[i].v) > Level(learnt[max].v) {
          max := i;
        }
        i := i + 1;
      }
      learnt := Swapped(learnt, 1, max);
      btLevel := Level(learnt[1].v);
      AssertingSwap(formula, A(), learnt0, learnt, btLevel);
    }

    // Minimises the learnt clause in the configured mode, and then, outside
    // incremental mode, short clauses by binary resolution.
    method Minimize(learnt0: seq<Lit>, ghost k: nat) returns (learnt: seq<Lit>)
      requires Analyzing(k) && Learning(formula, A(), seen, learnt0) && AllListed(seen, analyzeToClear)
      requires LearntShape(A(), learnt0) && Shrunk(learnt0, learnt0) && dirtyBin == {}
      modifies this`ca, this`seen, this`analyzeToClear
      ensures Analyzing(k) && SameDb(old(ca), ca) && AllListed(seen, analyzeToClear)
      ensures Entails(formula, learnt) && LearntShape(A(), learnt) && Shrunk(learnt0, learnt)
      ensures ccminMode == 2 ==> AllNeeded(ca, A(), old(seen), learnt, LevelMates(learnt0))
      ensures ccminMode == 1 ==> AllUncovered(ca, A(), old(seen), learnt)
      ensures !incremental && |learnt0| <= lbSizeMinimizingClause ==>
        LbdOf(learnt, -1) > lbLbdMinimizingClause
        || forall l :: l in learnt[1..] ==> !WatchImplies(Neg(learnt[0]), l.v)
    {
      hide Consistent, Drained, BooksOk, Learning, AllListed, Entails, Shrunk, LearntShape, RefutedBut, AllNeeded,
        AllUncovered, LevelMates, WatchImplies, LbdOf;
      if ccminMode == 2 {
        learnt := MinimizeDeep(learnt0, k);
      } else if ccminMode == 1 {
        learnt := MinimizeBasic(learnt0, k);
      } else {
        learnt := learnt0;
        LearningEntailed(formula, A(), seen, learnt);
      }
      ShrunkShape(A(), learnt0, learnt);
      LearntShapeFacts(A(), learnt0);
      ShrunkShorter(learnt0, learnt);
      if !incremental && |learnt| <= lbSizeMinimizingClause {
        ghost var before := learnt;
        LearntShapeFacts(A(), learnt);
        learnt := MinimisationWithBinaryResolution(learnt);
        ShrunkShape(A(), before, learnt);
        FewerNeeded(ca, A(), old(seen), before, learnt, LevelMates(learnt0));
        ShrunkTrans(learnt0, before, learnt);
        TailInside(before, learnt);
      }
    }

    // Derives the learnt clause and the backtrack level from a conflict.
    method Analyze(confl: CRef, ghost k: nat) returns (learnt: seq<Lit>, btLevel: nat)
      requires Analyzing(k) && SeenClear() && dirtyBin == {}
      requires Conflicting(confl) && DecisionLevel() > 0
      modifies this`ca, this`seen, this`analyzeToClear
      ensures Analyzing(k) && SeenClear() && SameDb(old(ca), ca)
      ensures Asserting(A(), learnt, btLevel)
      ensures Entails(formula, learnt)
    {
      hide Consistent, Drained, BooksOk, Resolving, RefutedBut, Learning, AllListed, Entails, Shrunk, LearntShape,
        Asserting, Falsified;
      var uip, out, sel := FirstUip(confl, k);
      learnt := [Neg(uip)] + out + sel;
      analyzeToClear := learnt;
      LearningStart(formula, A(), seen, uip, out, sel);
      learnt := Minimize(learnt, k);
      learnt, btLevel := FindBtLevel(learnt);
      ClearSeen();
    }

    // ---- Storing clauses ----

    // Allocates a clause at the end of the clause region: three header words, the
    // literals, and an extra word for learnt clauses.
    method Alloc(c: seq<Lit>, learnt: bool) returns (cr: CRef)
      modifies this`ca, this`caSize
      ensures cr == old(caSize) && caSize == cr + 3 + |c| + (if learnt then 1 else 0)
      ensures ca == old(ca)[cr := Clause(c, learnt, 0)]
    {
      cr := caSize;
      ca := ca[cr := Clause(c, learnt, 0)];
      caSize := caSize + 3 + |c| + (if learnt then 1 else 0);
    }

    method AttachClause(cr: CRef)
      requires cr in ca && |ca[cr].lits| >= 2
      requires Neg(ca[cr].lits[0]) in watches && Neg(ca[cr].lits[1]) in watches
      requires Neg(ca[cr].lits[0]) in watchesBin && Neg(ca[cr].lits[1]) in watchesBin
      requires ca[cr].lits[0] != ca[cr].lits[1]
      modifies this`watches, this`watchesBin
      ensures watches == LongAfter(old(watches), cr, ca[cr].lits)
      ensures watchesBin == BinAfter(old(watchesBin), cr, ca[cr].lits)
    {
      var c := ca[cr].lits;
      if |c| == 2 {
        watchesBin := watchesBin[Neg(c[0]) := watchesBin[Neg(c[0])] + [Watcher(cr, c[1])]];
        watchesBin := watchesBin[Neg(c[1]) := watchesBin[Neg(c[1])] + [Watcher(cr, c[0])]];
      } else {
        watches := watches[Neg(c[0]) := watches[Neg(c[0])] + [Watcher(cr, c[1])]];
        watches := watches[Neg(c[1]) := watches[Neg(c[1])] + [Watcher(cr, c[0])]];
      }
    }

    // Allocates a clause, appends it to its reference list and attaches it.
    method StoreClause(c: seq<Lit>, learnt: bool) returns (cr: CRef)
      requires |c| >= 2 && c[0] != c[1]
      requires Neg(c[0]) in watches && Neg(c[1]) in watches && Neg(c[0]) in watchesBin && Neg(c[1]) in watchesBin
      modifies this`ca, this`caSize, this`clauses, this`learnts, this`watches, this`watchesBin
      ensures cr == old(caSize) && caSize == cr + 3 + |c| + (if learnt then 1 else 0)
      ensures ca == old(ca)[cr := Clause(c, learnt, 0)]
      ensures clauses == (if learnt then old(clauses) else old(clauses) + [cr])
      ensures learnts == (if learnt then old(learnts) + [cr] else old(learnts))
      ensures watches == LongAfter(old(watches), cr, c) && watchesBin == BinAfter(old(watchesBin), cr, c)
    {
      hide LongAfter, BinAfter;
      cr := Alloc(c, learnt);
      if learnt {
        learnts := learnts + [cr];
      } else {
        clauses := clauses + [cr];
      }
      AttachClause(cr);
    }

    // Stores a learnt clause of two or more literals, attaches it and asserts its
    // first literal.
    method LearnClause(learnt: seq<Lit>)
      requires Core() && Processed(qhead) && Entails(formula, learnt) && UnitAfterBacktrack(A(), learnt)
      modifies this`ca, this`caSize, this`clauses, this`learnts, this`watches, this`watchesBin
      modifies this`assigns, this`vardata, this`trail, this`pos
      ensures Core() && Processed(qhead)
      ensures A() == Enqueued(old(A()), learnt[0], Some(old(caSize)))
    {
      hide Consistent, Drained, BooksOk, Entails, LongAfter, BinAfter, UnitAfterBacktrack, Enqueued, Neg;
      LearnedState(formula, ca, watches, watchesBin, dirty, dirtyBin, A(), caSize, clauses, learnts, decision, polarity,
        orderHeap, learnt, qhead);
      var cr := StoreClause(learnt, true);
      UncheckedEnqueue(learnt[0], Some(cr));
    }

    // ---- Conflict handling in the search loop ----

    // What one conflict does: analyse, backtrack, learn and assert.
    method HandleConflict(confl: CRef)
      requires Core() && SeenClear() && dirtyBin == {} && Conflicting(confl) && DecisionLevel() > 0
      requires Processed(A().LevelStart()) && AssumptionsOk(assumptions, A())
      modifies this`ca, this`caSize, this`clauses, this`learnts, this`watches, this`watchesBin, this`seen,
        this`analyzeToClear
      modifies this`assigns, this`vardata, this`trail, this`pos, this`trailLim, this`polarity, this`orderHeap,
        this`qhead
      ensures Stable() && AssumptionsOk(assumptions, A()) && |assigns| == old(|assigns|)
      ensures Backjumped(old(trailLim), trailLim, |trail|)
    {
      hide Consistent, Drained, BooksOk, Entails, Asserting, AssumptionsOk, Falsified, CutTo, UnitAfterBacktrack,
        Enqueued, SameDb, VarsBelow;
      var learnt, btLevel := Analyze(confl, A().LevelStart());
      AssertingLevel(A(), learnt, btLevel);
      ghost var a, cb, ws, wb := A(), ca, watches, watchesBin;
      LimBelow(formula, ca, watches, watchesBin, dirty, dirtyBin, A(), btLevel);
      CancelUntil(btLevel, A().LevelStart());
      CutFacts(formula, cb, ws, wb, dirty, dirtyBin, a, A(), btLevel);
      BacktrackMakesUnit(a, A(), learnt, btLevel);
      AssumptionsCut(assumptions, formula, cb, ws, wb, dirty, dirtyBin, a, A(), btLevel);
      StoreLearnt(learnt);
    }

    // After backtracking: a unit clause becomes a fact, a longer one is stored.
    method StoreLearnt(learnt: seq<Lit>)
      requires Core() && Processed(qhead) && SeenClear() && A().LevelStart() <= qhead && Entails(formula, learnt)
      requires AssumptionsOk(assumptions, A()) && |learnt| > 0 && learnt[0].v < |assigns| == |vardata| == |pos|
      requires |learnt| == 1 ==> Value(learnt[0]) == LUndef && |trailLim| == 0
      requires |learnt| > 1 ==> UnitAfterBacktrack(A(), learnt)
      modifies this`ca, this`caSize, this`clauses, this`learnts, this`watches, this`watchesBin
      modifies this`assigns, this`vardata, this`trail, this`pos
      ensures Stable() && AssumptionsOk(assumptions, A()) && |assigns| == old(|assigns|)
      ensures trail == old(trail) + [learnt[0]]
    {
      hide Consistent, Drained, BooksOk, Entails, AssumptionsOk, UnitAfterBacktrack;
      TrailOkOf(formula, ca, watches, watchesBin, dirty, dirtyBin, A());
      if |learnt| == 1 {
        assert learnt == [learnt[0]];
        AssumptionsImplied(assumptions, A(), learnt[0], None);
        AssertFact(learnt[0]);
      } else {
        UnitFacts(A(), learnt);
        AssumptionsImplied(assumptions, A(), learnt[0], Some(caSize));
        LearnClause(learnt);
      }
    }

    // Adds an entailed literal at level 0.
    method AssertFact(p: Lit)
      requires Core() && Processed(qhead) && |trailLim| == 0 && Entails(formula, [p])
      requires p.v < |assigns| == |vardata| == |pos| && Value(p) == LUndef
      modifies this`assigns, this`vardata, this`trail, this`pos
      ensures Core() && Processed(qhead)
      ensures A() == Enqueued(old(A()), p, None)
    {
      hide Consistent, Drained, BooksOk, Entails;
      DecideConsistent(formula, ca, watches, watchesBin, dirty, dirtyBin, A(), p, qhead, qhead);
      EnqueueBooks(ca, caSize, clauses, learnts, assigns, decision, polarity, orderHeap, p.v, if p.s then LFalse
        else LTrue);
      UncheckedEnqueue(p, None);
    }

    // Marks the variables above level 0 of a reason clause; a binary reason is
    // scanned from the start because its implied literal can be second.
    method MarkReason(c: seq<Lit>, x: nat)
      requires |seen| == |assigns| && VarsBelow(c, |assigns|) && x < |assigns|
      requires |c| >= 2 && (|c| > 2 ==> c[0].v == x)
      modifies this`seen
      ensures |seen| == |assigns| && !seen[x]
      ensures forall v :: 0 <= v < |seen| && v != x ==>
        (seen[v] <==> old(seen)[v] || (Level(v) > 0 && HasVar(c, v)))
    {
      var j := if |c| == 2 then 0 else 1;
      while j < |c|
        invariant (if |c| == 2 then 0 else 1) <= j <= |c| && |seen| == |assigns|
        invariant forall v :: 0 <= v < |seen| && v != x ==>
          (seen[v] <==> old(seen)[v] || (Level(v) > 0 && HasVar(c[..j], v)))
      {
        assert c[j] in c;
        assert c[..j + 1] == c[..j] + [c[j]];
        forall v | 0 <= v < |seen| ensures HasVar(c[..j + 1], v) <==> HasVar(c[..j], v) || v == c[j].v
        {
          HasVarAppend(c[..j], c[j], v);
        }
        if Level(c[j].v) > 0 {
          seen := seen[c[j].v := true];
        }
        j := j + 1;
      }
      assert c[..|c|] == c;
      seen := seen[x := false];
    }

    // Expresses the refutation of an assumption by other assumptions: `p` is the
    // negation of the assumption and true now.
    method AnalyzeFinal(p: Lit)
      requires Core() && SeenClear() && AssumptionsOk(assumptions, A()) && DecisionLevel() <= |assumptions|
      requires Value(p) == LTrue && p.v < |assigns| && Neg(p) in assumptions
      modifies this`seen, this`conflict
      ensures |seen| == |assigns| && SeenClear()
      ensures conflict != [] && Entails(formula, conflict) && forall l :: l in conflict ==> Neg(l) in assumptions
    {
      hide Consistent, BooksOk, Entails, Explaining, AssumptionsOk, TrailOk, Val, HasVar, VarsBelow, Neg;
      conflict := [p];
      TrailOkOf(formula, ca, watches, watchesBin, dirty, dirtyBin, A());
      if DecisionLevel() == 0 {
        RootEntailed(formula, ca, watches, watchesBin, dirty, dirtyBin, A(), p);
        return;
      }
      ExplainStart(formula, A(), assumptions, seen, p);
      seen := seen[p.v := true];
      var i := |trail|;
      LimBelow(formula, ca, watches, watchesBin, dirty, dirtyBin, A(), 0);
      while i > trailLim[0]
        invariant trailLim[0] <= i <= |trail| && |seen| == |assigns| && conflict != []
        invariant Explaining(formula, A(), assumptions, seen, conflict, p, i)
      {
        i := i - 1;
        var x := trail[i].v;
        AboveRoot(formula, ca, watches, watchesBin, dirty, dirtyBin, A(), i);
        if seen[x] {
          if Reason(x).None? {
            ExplainDecision(formula, ca, watches, watchesBin, dirty, dirtyBin, A(), assumptions, seen, conflict, p, i);
            conflict := conflict + [Neg(trail[i])];
            seen := seen[x := false];
          } else {
            var cr := Reason(x).value;
            ghost var marks := seen;
            ReasonShape(formula, ca, watches, watchesBin, dirty, dirtyBin, A(), x, cr);
            MarkReason(ca[cr].lits, x);
            ExplainReason(formula, ca, watches, watchesBin, dirty, dirtyBin, A(), assumptions, marks, seen, conflict,
              p, i, cr);
          }
        } else {
          ExplainSkip(formula, A(), assumptions, seen, conflict, p, i);
        }
      }
      ExplainDone(formula, ca, watches, watchesBin, dirty, dirtyBin, A(), assumptions, seen, conflict, p, i);
      seen := seen[p.v := false];
    }

    // ---- Clause data base reduction ----

    // Is the clause the reason of a current assignment?
    function Locked(cr: CRef): bool
      reads this
      requires cr in ca && |ca[cr].lits| >= 2
    {
      var c := ca[cr].lits;
      || (Value(c[0]) == LTrue && Reason(c[0].v) == Some(cr))
      || (|c| == 2 && Value(c[1]) == LTrue && Reason(c[1].v) == Some(cr))
    }

    // Detaches lazily: the lists of the watched literals become dirty.
    method DetachClause(cr: CRef)
      requires cr in ca && |ca[cr].lits| >= 2
      modifies this`dirty, this`dirtyBin
      ensures dirty == if |ca[cr].lits| > 2 then old(dirty) + {Neg(ca[cr].lits[0]), Neg(ca[cr].lits[1])} else old(dirty)
      ensures dirtyBin == if |ca[cr].lits| == 2 then old(dirtyBin) + {Neg(ca[cr].lits[0]), Neg(ca[cr].lits[1])}
        else old(dirtyBin)
    {
      var c := ca[cr].lits;
      if |c| == 2 {
        dirtyBin := dirtyBin + {Neg(c[0]), Neg(c[1])};
      } else {
        dirty := dirty + {Neg(c[0]), Neg(c[1])};
      }
    }

    // Detaches a clause and marks it deleted. A locked clause gives up being the
    // reason of its first literal; for a binary clause locked through its second
    // literal that is the wrong one, which is harmless at level 0, the only level
    // where locked clauses are removed.
    method RemoveClause(cr: CRef, ghost l: Lit, ghost learnt: bool, ghost refs: seq<CRef>, ghost rest: seq<CRef>)
      requires RemovableState(learnt, refs + [cr] + rest) && Processed(qhead)
      requires learnt || (cr in ca && l in ca[cr].lits && Value(l) == LTrue && Level(l.v) == 0)
      requires cr in ca && |ca[cr].lits| >= 2 && (|trailLim| == 0 || (!Locked(cr) && |ca[cr].lits| > 2))
      modifies this`ca, this`dirty, this`dirtyBin, this`vardata
      ensures RemovableState(learnt, refs + rest) && Processed(qhead)
      ensures vardata == if old(Locked(cr)) then Forgotten(old(vardata), old(ca)[cr].lits[0].v) else old(vardata)
      ensures ca == Deleted(old(ca), cr) && |vardata| == |old(vardata)|
    {
      hide Consistent, Drained, BooksOk;
      TakeRef(ca, caSize, clauses, learnts, refs, cr, rest, learnt, assigns, decision, polarity, orderHeap);
      Detach(cr, l);
      Unlock(cr, Deleted(ca, cr));
      ca := ca[cr := ca[cr].(mark := 1)];
    }

    // Marks the lists of a clause dirty; from here on it can be taken as deleted.
    method Detach(cr: CRef, ghost l: Lit)
      requires Consistent(formula, ca, watches, watchesBin, dirty, dirtyBin, A()) && Processed(qhead) && cr in ca
      requires ca[cr].learnt || (l in ca[cr].lits && Value(l) == LTrue && Level(l.v) == 0)
      requires |ca[cr].lits| >= 2 && (|trailLim| == 0 || (!Locked(cr) && |ca[cr].lits| > 2))
      modifies this`dirty, this`dirtyBin
      ensures Consistent(formula, Deleted(ca, cr), watches, watchesBin, dirty, dirtyBin, A())
      ensures Drained(Deleted(ca, cr), watches, watchesBin, A(), qhead, qhead)
      ensures VarsBelow(ca[cr].lits, |assigns|) && |vardata| == |assigns|
    {
      hide Consistent, Drained;
      ClauseShape(formula, ca, watches, watchesBin, dirty, dirtyBin, A(), cr);
      TrailOkOf(formula, ca, watches, watchesBin, dirty, dirtyBin, A());
      ghost var dw, db := dirty, dirtyBin;
      DetachClause(cr);
      RemovalSafe(formula, ca, watches, watchesBin, dw, db, A(), cr);
      DeleteConsistent(formula, ca, watches, watchesBin, dw, db, dirty, dirtyBin, A(), cr, l, qhead);
    }

    // The variable keeps its level but no reason.
    function Forgotten(data: seq<VarData>, v: nat): (r: seq<VarData>)
      ensures |r| == |data|
    {
      if v < |data| then data[v := VarData(None, data[v].level)] else data
    }

    // A locked clause stops being the reason of its first literal.
    method Unlock(cr: CRef, ghost gone: ClauseDb)
      requires cr in ca && |ca[cr].lits| >= 2 && VarsBelow(ca[cr].lits, |assigns|) && |vardata| == |assigns|
      requires Consistent(formula, gone, watches, watchesBin, dirty, dirtyBin, A())
      requires Drained(gone, watches, watchesBin, A(), qhead, qhead)
      requires Locked(cr) ==> |trailLim| == 0
      modifies this`vardata
      ensures Consistent(formula, gone, watches, watchesBin, dirty, dirtyBin, A())
      ensures Drained(gone, watches, watchesBin, A(), qhead, qhead)
      ensures vardata == if old(Locked(cr)) then Forgotten(old(vardata), ca[cr].lits[0].v) else old(vardata)
    {
      hide Consistent, Drained;
      if Locked(cr) {
        var v := ca[cr].lits[0].v;
        assert ca[cr].lits[0] in ca[cr].lits;
        ForgetReason(formula, gone, watches, watchesBin, dirty, dirtyBin, A(), v, qhead);
        vardata := vardata[v := VarData(None, vardata[v].level)];
      }
    }

    // The invariant with `refs` in place of the list of learnt or problem clauses.
    ghost predicate RemovableState(learnt: bool, refs: seq<CRef>)
      reads this
    {
      && Consistent(formula, ca, watches, watchesBin, dirty, dirtyBin, A())
      && BooksOk(ca, caSize, if learnt then clauses else refs, if learnt then refs
        else learnts, assigns, decision, polarity, orderHeap)
      && |seen| == |assigns|
    }

    // ---- Garbage collection ----

    // Moves the clauses to a new region, which renames all references to them.
    method GarbageCollect() returns (ghost ren: Collections.Renaming)
      requires Core() && Processed(qhead)
      modifies this`ca, this`caSize, this`clauses, this`learnts, this`watches, this`watchesBin, this`dirty,
        this`dirtyBin, this`vardata
      ensures Core() && Processed(qhead) && dirty == {} && dirtyBin == {}
      ensures Collections.Renames(ren, old(ca), ca) && Collections.ReasonsRenamed(ren, old(A()), A())
      ensures Collections.RefsRenamed(ren, old(clauses), clauses) && Collections.RefsRenamed(ren, old(learnts), learnts)
    {
      hide Consistent, Drained, BooksOk, Collections.Renames, Collections.ReasonsRenamed, Collections.RefsRenamed,
        Collections.Represents, Collections.WithReasons, Collections.ListedExist, Collections.Below,
        Collections.StateOf;
      ghost var a := A();
      var visible := Assignment(assigns, vardata, trail, trailLim, []);
      var st := Collections.StateOf(watches, watchesBin, dirty, dirtyBin, visible, learnts, clauses);
      BooksInside(ca, caSize, clauses, learnts, assigns, decision, polarity, orderHeap);
      Collections.StateRepresents(watches, watchesBin, dirty, dirtyBin, a, visible, learnts, clauses);
      var cb, size, st';
      cb, size, st', ren := Collections.Collect(formula, ca, caSize, st, a, qhead);
      RenameBooks(ren, ca, cb, caSize, size, clauses, st'.clauses, learnts, st'.learnts, assigns, decision, polarity,
        orderHeap);
      Collections.SameData(a, visible, st'.reasons);
      Install(cb, size, st', Collections.WithReasons(visible, st'.reasons).vardata);
    }

    // The new region takes the place of the old one, with the references into it.
    method Install(cb: ClauseDb, size: nat, st: ClauseAllocating.References, data: seq<VarData>)
      modifies this`ca, this`caSize, this`clauses, this`learnts, this`watches, this`watchesBin, this`dirty,
        this`dirtyBin, this`vardata
      ensures ca == cb && caSize == size && clauses == st.clauses && learnts == st.learnts
      ensures watches == st.watches && watchesBin == st.watchesBin && dirty == {} && dirtyBin == {}
      ensures vardata == data
    {
      ca, caSize, clauses, learnts := cb, size, st.clauses, st.learnts;
      watches, watchesBin, dirty, dirtyBin := st.watches, st.watchesBin, {}, {};
      vardata := data;
    }

    // Collects when enough of the region is wasted.
    method CheckGarbage()
      requires Core() && Processed(qhead)
      modifies this`ca, this`caSize, this`clauses, this`learnts, this`watches, this`watchesBin, this`dirty,
        this`dirtyBin, this`vardata
      ensures Core() && Processed(qhead) && SameButReasons(old(A()), A())
      ensures (old(NoneTrue(learnts)) ==> NoneTrue(learnts)) && (old(NoneTrue(clauses)) ==> NoneTrue(clauses))
    {
      hide Consistent, Drained, BooksOk, Collections.Renames, Collections.RefsRenamed, LooksTrue;
      var wasteful: bool := *;
      if wasteful {
        ghost var a := A();
        ghost var ren := GarbageCollect();
        Collections.RenamedSame(ren, a, A());
        if old(NoneTrue(learnts)) {
          RenamedNoneTrue(ren, old(ca), old(learnts), learnts);
        }
        if old(NoneTrue(clauses)) {
          RenamedNoneTrue(ren, old(ca), old(clauses), clauses);
        }
      }
    }

    // Deletes some of the long learnt clauses that are not locked. Which ones is
    // left open: the source sorts by quality and deletes the worse half.
    method DeleteUnlocked()
      requires Core() && Processed(qhead)
      modifies this`ca, this`dirty, this`dirtyBin, this`vardata, this`learnts
      ensures Core() && Processed(qhead) && A() == old(A())
    {
      hide Consistent, Drained, BooksOk;
      var cs := learnts;
      var kept: seq<CRef> := [];
      var i := 0;
      assert cs == kept + cs[0..];
      while i < |cs|
        invariant 0 <= i <= |cs|
        invariant RemovableState(true, kept + cs[i..]) && Processed(qhead) && A() == old(A())
      {
        var cr := cs[i];
        assert kept + cs[i..] == kept + [cr] + cs[i + 1..];
        RefsLive(ca, caSize, clauses, kept + cs[i..], assigns, decision, polarity, orderHeap, cr);
        assert (kept + cs[i..])[|kept|] == cr;
        ClauseShape(formula, ca, watches, watchesBin, dirty, dirtyBin, A(), cr);
        var poor: bool := *;
        if |ca[cr].lits| > 2 && !Locked(cr) && poor {
          RemoveUnlocked(cr, kept, cs[i + 1..]);
        } else {
          assert kept + [cr] + cs[i + 1..] == (kept + [cr]) + cs[i + 1..];
          kept := kept + [cr];
        }
        i := i + 1;
      }
      assert kept + cs[i..] == kept;
      learnts := kept;
    }

    // Deletes learnt clauses, and collects if that leaves enough garbage.
    method ReduceDb()
      requires Core() && Processed(qhead)
      modifies this`ca, this`caSize, this`clauses, this`learnts, this`watches, this`watchesBin, this`dirty,
        this`dirtyBin, this`vardata
      ensures Core() && Processed(qhead) && SameButReasons(old(A()), A())
    {
      hide Consistent, Drained, BooksOk, SameButReasons;
      DeleteUnlocked();
      CheckGarbage();
    }

    // Removing an unlocked long learnt clause leaves the assignment alone.
    method RemoveUnlocked(cr: CRef, ghost refs: seq<CRef>, ghost rest: seq<CRef>)
      requires RemovableState(true, refs + [cr] + rest) && Processed(qhead)
      requires cr in ca && |ca[cr].lits| > 2 && !Locked(cr)
      modifies this`ca, this`dirty, this`dirtyBin, this`vardata
      ensures RemovableState(true, refs + rest) && Processed(qhead) && A() == old(A())
    {
      hide Consistent, Drained, BooksOk;
      RemoveClause(cr, Lit(0, false), true, refs, rest);
    }

    // The clause has a true literal, in incremental mode among the first two.
    ghost predicate LooksTrue(c: seq<Lit>)
      reads this`assigns, this`incremental
    {
      if incremental && |c| >= 2 then Value(c[0]) == LTrue || Value(c[1]) == LTrue
      else exists l :: l in c && Value(l) == LTrue
    }

    // Is the clause true now? Incremental mode looks at the two watches only.
    method Satisfied(c: seq<Lit>) returns (b: bool)
      requires |c| >= 2
      ensures b ==> exists l :: l in c && Value(l) == LTrue
      ensures !incremental && !b ==> forall l :: l in c ==> Value(l) != LTrue
      ensures b <==> LooksTrue(c)
    {
      if incremental {
        b := Value(c[0]) == LTrue || Value(c[1]) == LTrue;
        assert c[0] in c && c[1] in c;
        return;
      }
      var i := 0;
      while i < |c|
        invariant 0 <= i <= |c|
        invariant forall j :: 0 <= j < i ==> Value(c[j]) != LTrue
      {
        if Value(c[i]) == LTrue {
          assert c[i] in c;
          return true;
        }
        i := i + 1;
      }
      return false;
    }

    // Deletes a clause if it is true; everything assigned is at level 0.
    method RemoveIfSatisfied(cr: CRef, learnt: bool, ghost refs: seq<CRef>, ghost rest: seq<CRef>)
        returns (removed: bool)
      requires RemovableState(learnt, refs + [cr] + rest) && Processed(qhead) && |trailLim| == 0
      modifies this`ca, this`dirty, this`dirtyBin, this`vardata
      ensures RemovableState(learnt, if removed then refs + rest else refs + [cr] + rest) && Processed(qhead)
      ensures removed ==> old(cr in ca && exists l :: l in ca[cr].lits && Value(l) == LTrue)
      ensures removed <==> old(cr in ca && LooksTrue(ca[cr].lits))
      ensures SameText(old(ca), ca)
    {
      hide Consistent, Drained, BooksOk;
      ghost var all := refs + [cr] + rest;
      assert all[|refs|] == cr;
      RefsLive(ca, caSize, if learnt then clauses else all, if learnt then all
        else learnts, assigns, decision, polarity, orderHeap, cr);
      ClauseShape(formula, ca, watches, watchesBin, dirty, dirtyBin, A(), cr);
      removed := Satisfied(ca[cr].lits);
      if removed {
        ghost var l :| l in ca[cr].lits && Value(l) == LTrue;
        TrailOkOf(formula, ca, watches, watchesBin, dirty, dirtyBin, A());
        RootOnly(A(), l);
        RemoveClause(cr, l, learnt, refs, rest);
      }
    }

    // Deletes the clauses of a list that are true at level 0 and compacts the list.
    method RemoveSatisfied(cs: seq<CRef>, learnt: bool) returns (kept: seq<CRef>)
      requires RemovableState(learnt, cs) && Processed(qhead) && |trailLim| == 0
      modifies this`ca, this`dirty, this`dirtyBin, this`vardata
      ensures RemovableState(learnt, kept) && Processed(qhead)
      ensures forall cr :: cr in kept <==> cr in cs && !(cr in old(ca) && LooksTrue(old(ca)[cr].lits))
      ensures SameText(old(ca), ca)
    {
      hide Consistent, Drained, BooksOk, LooksTrue, SameText, RemovableState;
      kept := [];
      var i := 0;
      NothingTaken(cs);
      SameTextRefl(ca);
      while i < |cs|
        invariant 0 <= i <= |cs|
        invariant RemovableState(learnt, kept + cs[i..]) && Processed(qhead)
        invariant SameText(old(ca), ca)
        invariant forall cr :: cr in kept <==> cr in cs[..i] && !(cr in old(ca) && LooksTrue(old(ca)[cr].lits))
      {
        TakeNext(kept, cs, i);
        ghost var cb := ca;
        SameTextAt(old(ca), cb, cs[i]);
        assert cs[..i + 1] == cs[..i] + [cs[i]];
        var removed := RemoveIfSatisfied(cs[i], learnt, kept, cs[i + 1..]);
        SameTextTrans(old(ca), cb, ca);
        if !removed {
          kept := kept + [cs[i]];
        }
        i := i + 1;
      }
      assert cs[..i] == cs;
      AllTaken(kept, cs);
    }

    // Refills the order heap with the unassigned decision variables.
    method RebuildOrderHeap()
      requires |decision| == |assigns|
      modifies this`orderHeap
      ensures HeapCovers(assigns, decision, orderHeap)
      ensures forall v :: v in orderHeap ==> v < |assigns| && decision[v] && assigns[v] == LUndef
    {
      orderHeap := {};
      var v := 0;
      while v < |assigns|
        invariant 0 <= v <= |assigns|
        invariant forall u: nat :: u in orderHeap <==> u < v && decision[u] && assigns[u] == LUndef
      {
        if decision[v] && assigns[v] == LUndef {
          orderHeap := orderHeap + {v};
        }
        v := v + 1;
      }
    }

    // Propagates at level 0 and, now and then, deletes satisfied clauses.
    method Simplify() returns (res: bool)
      requires Valid() && |trailLim| == 0
      modifies this`ok, this`ca, this`caSize, this`watches, this`watchesBin, this`dirty, this`dirtyBin, this`vardata
      modifies this`assigns, this`trail, this`pos, this`qhead, this`learnts, this`clauses, this`orderHeap
      ensures Valid() && res == ok
      ensures res ==> qhead == |trail|
      ensures |assigns| == old(|assigns|) && old(|trail|) <= |trail|
    {
      hide Consistent, Drained, BooksOk, Falsified, Satisfiable, Core, Continues, NoneTrue, Conflicting, Processed;
      if !ok {
        return false;
      }
      var confl := Propagate();
      ContinuesLim(old(A()), A());
      if confl.Some? {
        ConflictAtRoot(confl.value);
        ok := false;
        return false;
      }
      var skip: bool := *;
      if skip {
        return true;
      }
      DeleteSatisfied();
      return true;
    }

    // None of the clauses looks true.
    ghost predicate NoneTrue(refs: seq<CRef>)
      reads this`ca, this`assigns, this`incremental
    {
      forall cr :: cr in refs && cr in ca ==> !LooksTrue(ca[cr].lits)
    }

    lemma RenamedNoneTrue(ren: Collections.Renaming, ca0: ClauseDb, refs: seq<CRef>, refs': seq<CRef>)
      requires Collections.Renames(ren, ca0, ca) && Collections.RefsRenamed(ren, refs, refs')
      requires forall cr :: cr in refs && cr in ca0 ==> !LooksTrue(ca0[cr].lits)
      ensures NoneTrue(refs')
    {
      hide LooksTrue;
      forall t | t in refs' && t in ca ensures !LooksTrue(ca[t].lits)
      {
        var i :| 0 <= i < |refs'| && refs'[i] == t;
        assert refs[i] in refs && ca[t] == ca0[refs[i]];
      }
    }

    // Deletes satisfied clauses from both lists and rebuilds the order heap.
    method DeleteSatisfied()
      requires Core() && Processed(qhead) && |trailLim| == 0
      modifies this`ca, this`caSize, this`clauses, this`learnts, this`watches, this`watchesBin, this`dirty,
        this`dirtyBin, this`vardata, this`orderHeap
      ensures Core() && Processed(qhead) && NoneTrue(learnts) && (removeSatisfiedClauses ==> NoneTrue(clauses))
      ensures forall v :: v in orderHeap ==> v < |assigns| == |decision| && decision[v] && assigns[v] == LUndef
    {
      hide Consistent, Drained, BooksOk, NoneTrue;
      DeleteFromLists();
      CheckGarbage();
      RenewHeap();
    }

    method DeleteFromLists()
      requires Core() && Processed(qhead) && |trailLim| == 0
      modifies this`ca, this`clauses, this`learnts, this`dirty, this`dirtyBin, this`vardata
      ensures Core() && Processed(qhead) && NoneTrue(learnts) && (removeSatisfiedClauses ==> NoneTrue(clauses))
    {
      hide Consistent, Drained, BooksOk, NoneTrue, SameText, LooksTrue;
      ghost var ca0 := ca;
      var ls := RemoveSatisfied(learnts, true);
      NoneTrueAfter(ca0, ls);
      learnts := ls;
      if removeSatisfiedClauses {
        ghost var ca1 := ca;
        var cs := RemoveSatisfied(clauses, false);
        NoneTrueAfter(ca1, cs);
        SameTextTrans(ca0, ca1, ca);
        NoneTrueAfter(ca0, ls);
        clauses := cs;
      }
    }

    lemma NoneTrueAfter(ca0: ClauseDb, kept: seq<CRef>)
      requires SameText(ca0, ca) && forall cr :: cr in kept ==> !(cr in ca0 && LooksTrue(ca0[cr].lits))
      ensures NoneTrue(kept)
    {
    }

    // Rebuilds the order heap, keeping the invariant.
    method RenewHeap()
      requires Core() && Processed(qhead)
      modifies this`orderHeap
      ensures Core() && Processed(qhead)
      ensures forall v :: v in orderHeap ==> v < |assigns| == |decision| && decision[v] && assigns[v] == LUndef
    {
      hide Consistent, Drained, BooksOk;
      RefsLive(ca, caSize, clauses, learnts, assigns, decision, polarity, orderHeap, 0);
      ghost var heap := orderHeap;
      RebuildOrderHeap();
      HeapBooks(ca, caSize, clauses, learnts, assigns, decision, polarity, heap, orderHeap);
    }

    lemma ConflictAtRoot(cr: CRef)
      requires Core() && Conflicting(cr) && |trailLim| == 0
      ensures !Satisfiable(formula)
    {
      RootConflict(formula, ca, A(), cr);
    }

    // The next decision: some unassigned decision variable with a phase, chosen
    // at random from the heap or by taking variables off the heap. The source
    // takes the most active one; any order is covered here.
    method PickBranchLit() returns (next: Option<Lit>)
      requires HeapCovers(assigns, decision, orderHeap) && |polarity| == |assigns|
      modifies this`orderHeap
      ensures next.Some? ==> next.value.v < |assigns| && Value(next.value) == LUndef
      ensures next.Some? ==> HeapCovers(assigns, decision, orderHeap + {next.value.v})
      ensures next.None? ==> HeapCovers(assigns, decision, orderHeap)
      ensures next.None? ==> forall v :: 0 <= v < |assigns| && decision[v] ==> assigns[v] != LUndef
    {
      var v: Option<nat> := None;
      var random: bool := *;
      if random && orderHeap != {} {
        var x :| x in orderHeap;
        v := Some(x);
      }
      while v.None? || assigns[v.value] != LUndef || !decision[v.value]
        invariant v.Some? ==> v.value < |assigns|
        invariant HeapCovers(assigns, decision, if v.Some? then orderHeap + {v.value} else orderHeap)
        invariant forall x :: x in orderHeap ==> x < |assigns|
        decreases orderHeap
      {
        if orderHeap == {} {
          return None;
        }
        var x :| x in orderHeap;
        orderHeap := orderHeap - {x};
        v := Some(x);
      }
      var flip: bool := *;
      return Some(Lit(v.value, if flip then !polarity[v.value] else polarity[v.value]));
    }

    // ---- Search ----

    method OpenLevel()
      requires Core() && Processed(qhead) && qhead == |trail|
      modifies this`trailLim
      ensures Core() && Processed(qhead) && A() == Opened(old(A()))
    {
      hide Consistent, Drained, BooksOk;
      OpenConsistent(formula, ca, watches, watchesBin, dirty, dirtyBin, A(), qhead, qhead);
      NewDecisionLevel();
    }

    // The invariant when variable `v` was taken off the heap but is not assigned yet.
    ghost predicate CoreWithout(v: nat)
      reads this
    {
      && Consistent(formula, ca, watches, watchesBin, dirty, dirtyBin, A())
      && BooksOk(ca, caSize, clauses, learnts, assigns, decision, polarity, orderHeap + {v})
      && |seen| == |assigns|
    }

    // Opens a decision level with literal `next`.
    method Decide(next: Lit)
      requires CoreWithout(next.v) && Processed(qhead) && qhead == |trail| && SeenClear()
      requires next.v < |assigns| && Value(next) == LUndef
      requires AssumptionsOk(assumptions, A()) && (|trailLim| < |assumptions| ==> next == assumptions[|trailLim|])
      modifies this`trailLim, this`assigns, this`vardata, this`trail, this`pos
      ensures Stable() && AssumptionsOk(assumptions, A()) && |assigns| == old(|assigns|)
      ensures trailLim == old(trailLim) + [old(|trail|)] && trail == old(trail) + [next]
    {
      hide Consistent, Drained, BooksOk, AssumptionsOk, TrailOk, Enqueued, Entails, Val;
      ghost var a := A();
      TrailOkOf(formula, ca, watches, watchesBin, dirty, dirtyBin, a);
      OpenConsistent(formula, ca, watches, watchesBin, dirty, dirtyBin, a, qhead, qhead);
      AssumptionsDecide(assumptions, a, next);
      DecideConsistent(formula, ca, watches, watchesBin, dirty, dirtyBin, Opened(a), next, qhead, qhead);
      DecideBooks(ca, caSize, clauses, learnts, assigns, decision, polarity, orderHeap, next.v, if next.s then LFalse
        else LTrue);
      NewDecisionLevel();
      EnqueuedLonger(A(), next, None);
      UncheckedEnqueue(next, None);
    }

    // An assumption that is false gives the final conflict.
    method RefuteAssumption(p: Lit)
      requires Stable() && AssumptionsOk(assumptions, A()) && DecisionLevel() <= |assumptions|
      requires Value(p) == LFalse && p.v < |assigns| && p in assumptions
      modifies this`seen, this`conflict
      ensures Stable() && Refuted() && conflict != []
    {
      hide Consistent, Drained, BooksOk, AssumptionsOk, Entails, AllClear;
      assert Neg(Neg(p)) == p;
      AnalyzeFinal(Neg(p));
    }

    // Makes the next decision: pending assumptions first, then a free choice.
    // LTrue: nothing is left to decide. LFalse: an assumption is refuted.
    method NextDecision() returns (answer: LBool)
      requires Deciding()
      modifies this`trailLim, this`assigns, this`vardata, this`trail, this`pos, this`orderHeap, this`seen, this`conflict
      ensures Stable() && |assigns| == old(|assigns|)
      ensures answer == LUndef ==> Deeper(old(trailLim), old(|trail|), trailLim) && Inhabited()
      ensures answer == LUndef ==> AssumptionsOk(assumptions, A()) && conflict == []
      ensures answer == LTrue ==> ModelFound() && conflict == []
      ensures answer == LFalse ==> Refuted() && conflict != []
    {
      hide Consistent, Drained, BooksOk, AssumptionsOk, Entails, ModelFound, Refuted, AllClear, Leveled, Deeper,
        VarsBelow;
      var next := PendingAssumptions();
      if next.Some? {
        return next.value;
      }
      DeeperOpen(old(trailLim), |trail|, trailLim);
      answer := FreeDecision();
    }

    // Everything is propagated, and the assumptions hold as far as levels are open.
    ghost predicate Deciding()
      reads this
    {
      && Stable() && qhead == |trail| && AssumptionsOk(assumptions, A()) && conflict == []
      && VarsBelow(assumptions, |assigns|) && Inhabited()
    }

    // Takes the assumptions in turn, up to a decision, a refutation, or their end (None).
    method PendingAssumptions() returns (answer: Option<LBool>)
      requires Deciding()
      modifies this`trailLim, this`assigns, this`vardata, this`trail, this`pos, this`seen, this`conflict
      ensures Stable() && |assigns| == old(|assigns|) && answer != Some(LTrue)
      ensures answer == None ==> Deciding() && |assumptions| <= |trailLim| && |trail| == old(|trail|)
      ensures answer == None ==> trailLim == old(trailLim) || Deeper(old(trailLim), old(|trail|), trailLim)
      ensures answer == Some(LUndef) ==>
        AssumptionsOk(assumptions, A()) && conflict == [] && Inhabited()
        && Deeper(old(trailLim), old(|trail|), trailLim)
      ensures answer == Some(LFalse) ==> Refuted() && conflict != []
    {
      hide Consistent, Drained, BooksOk, AssumptionsOk, Entails, Refuted, AllClear, Leveled, Deeper, VarsBelow;
      answer := None;
      while answer == None && DecisionLevel() < |assumptions|
        invariant Stable() && |assigns| == old(|assigns|) && answer != Some(LTrue)
        invariant answer == None ==> Deciding() && |trail| == old(|trail|)
        invariant answer == None ==> trailLim == old(trailLim) || Deeper(old(trailLim), old(|trail|), trailLim)
        invariant answer == Some(LUndef) ==>
          AssumptionsOk(assumptions, A()) && conflict == [] && Inhabited()
          && Deeper(old(trailLim), old(|trail|), trailLim)
        invariant answer == Some(LFalse) ==> Refuted() && conflict != []
        decreases answer == None, |assumptions| - |trailLim|
      {
        DeeperOpen(old(trailLim), |trail|, trailLim);
        answer := NextAssumption();
      }
    }

    // The assumption of the next level: a level without literal if it is true already
    // (None), a decision, or a refutation.
    method NextAssumption() returns (answer: Option<LBool>)
      requires Deciding() && |trailLim| < |assumptions|
      modifies this`trailLim, this`assigns, this`vardata, this`trail, this`pos, this`seen, this`conflict
      ensures Stable() && |assigns| == old(|assigns|)
        && (answer == None || answer == Some(LUndef) || answer == Some(LFalse))
      ensures answer != Some(LFalse) ==> trailLim == old(trailLim) + [old(|trail|)]
      ensures answer == None ==> Deciding() && |trail| == old(|trail|) && old(Value(assumptions[|trailLim|])) == LTrue
      ensures answer == Some(LUndef) ==> AssumptionsOk(assumptions, A()) && conflict == [] && Inhabited()
      ensures answer == Some(LUndef) ==> trail == old(trail) + [assumptions[old(|trailLim|)]]
      ensures answer == Some(LFalse) ==> Refuted() && conflict != []
    {
      hide Consistent, Drained, BooksOk, AssumptionsOk, Entails, Refuted, AllClear, Neg, TrailOk, Leveled;
      var p := assumptions[DecisionLevel()];
      assert p in assumptions;
      TrailOkOf(formula, ca, watches, watchesBin, dirty, dirtyBin, A());
      if Value(p) == LTrue {
        AssumptionsDummy(assumptions, A());
        LeveledDummy(trailLim, |trail|, |assumptions|);
        OpenLevel();
        return None;
      } else if Value(p) == LFalse {
        RefuteAssumption(p);
        return Some(LFalse);
      }
      HeapMore(ca, caSize, clauses, learnts, assigns, decision, polarity, orderHeap, p.v);
      LeveledDecide(trailLim, |trail|, |assumptions|);
      Decide(p);
      answer := Some(LUndef);
    }

    // A decision beyond the assumptions, or the end of the search.
    method FreeDecision() returns (answer: LBool)
      requires Deciding() && |assumptions| <= |trailLim|
      modifies this`trailLim, this`assigns, this`vardata, this`trail, this`pos, this`orderHeap
      ensures Stable() && AssumptionsOk(assumptions, A()) && |assigns| == old(|assigns|)
      ensures answer == LUndef ==> trailLim == old(trailLim) + [old(|trail|)] && Inhabited()
      ensures answer == LUndef || (answer == LTrue && ModelFound())
    {
      hide Consistent, Drained, BooksOk, AssumptionsOk, Leveled;
      BooksHeap(ca, caSize, clauses, learnts, assigns, decision, polarity, orderHeap);
      ghost var heap := orderHeap;
      var next := PickBranchLit();
      if next.None? {
        HeapBooks(ca, caSize, clauses, learnts, assigns, decision, polarity, heap, orderHeap);
        return LTrue;
      }
      HeapBooks(ca, caSize, clauses, learnts, assigns, decision, polarity, heap, orderHeap + {next.value.v});
      LeveledDecide(trailLim, |trail|, |assumptions|);
      Decide(next.value);
      return LUndef;
    }

    // Every level but those of the assumptions has a literal of its own.
    ghost predicate Inhabited()
      reads this
    {
      Leveled(trailLim, |trail|, |assumptions|)
    }

    // How many turns of the search loop are left until the next restart.
    ghost function TurnBound(): nat
      reads this
    {
      TurnsLeft(trailLim, |trail|, |assumptions|, |assigns|)
    }

    // All decision variables are assigned, everything is propagated, and the
    // assumptions are in force.
    ghost predicate ModelFound()
      reads this
    {
      && Stable() && qhead == |trail| && AssumptionsOk(assumptions, A()) && |assumptions| <= |trailLim|
      && |decision| == |assigns| && forall v :: 0 <= v < |assigns| && decision[v] ==> assigns[v] != LUndef
    }

    // The conflict clause follows from the formula and consists of negated assumptions.
    ghost predicate Refuted()
      reads this
    {
      conflict != [] && Entails(formula, conflict) && forall l :: l in conflict ==> Neg(l) in assumptions
    }

    // Searches until an answer or, if one is allowed, a restart. Restarts,
    // simplification and reduction happen at arbitrary moments.
    method Search(mayRestart: bool) returns (status: LBool)
      requires ok && Stable() && AssumptionsOk(assumptions, A()) && conflict == []
      requires VarsBelow(assumptions, |assigns|) && Inhabited()
      modifies this`ok, this`ca, this`caSize, this`clauses, this`learnts, this`watches, this`watchesBin, this`dirty,
        this`dirtyBin
      modifies this`assigns, this`vardata, this`trail, this`pos, this`trailLim, this`qhead, this`polarity,
        this`orderHeap
      modifies this`seen, this`analyzeToClear, this`conflict
      ensures |assigns| == old(|assigns|)
      ensures status == LUndef ==> mayRestart
      ensures status == LUndef ==> ok && Stable() && AssumptionsOk(assumptions, A()) && conflict == [] && Inhabited()
      ensures status == LTrue ==> ok && ModelFound() && conflict == []
      ensures status == LFalse ==>
        if conflict == [] then |trailLim| == 0 && !Satisfiable(formula) else ok && Stable() && Refuted()
    {
      hide Consistent, Drained, BooksOk, AssumptionsOk, Falsified, Satisfiable, Leveled, TurnsLeft;
      while true
        invariant |assigns| == old(|assigns|) && Inhabited()
        invariant ok && Stable() && AssumptionsOk(assumptions, A()) && conflict == []
        decreases TurnBound()
      {
        var answer := SearchStep(mayRestart);
        if answer != None {
          return answer.value;
        }
      }
    }

    // The part of a turn after propagation without conflict.
    method AfterPropagation(mayRestart: bool) returns (answer: Option<LBool>)
      requires ok && Stable() && qhead == |trail| && AssumptionsOk(assumptions, A()) && conflict == []
      requires VarsBelow(assumptions, |assigns|) && Inhabited()
      modifies this`ok, this`ca, this`caSize, this`clauses, this`learnts, this`watches, this`watchesBin, this`dirty,
        this`dirtyBin
      modifies this`assigns, this`vardata, this`trail, this`pos, this`trailLim, this`qhead, this`polarity,
        this`orderHeap
      modifies this`seen, this`conflict
      ensures |assigns| == old(|assigns|)
      ensures answer == None || answer == Some(LUndef) ==>
        ok && Stable() && AssumptionsOk(assumptions, A()) && conflict == [] && Inhabited()
      ensures answer == None ==> Deeper(old(trailLim), old(|trail|), trailLim)
      ensures answer == Some(LUndef) ==> mayRestart
      ensures answer == Some(LTrue) ==> ok && ModelFound() && conflict == []
      ensures answer == Some(LFalse) ==>
        if conflict == [] then |trailLim| == 0 && !Satisfiable(formula) else ok && Stable() && Refuted()
    {
      hide Consistent, Drained, BooksOk, AssumptionsOk, Satisfiable, ModelFound, Refuted, Leveled;
      var restart: bool := *;
      if mayRestart && restart {
        Restart();
        return Some(LUndef);
      }
      if DecisionLevel() == 0 {
        var res := Simplify();
        if !res {
          return Some(LFalse);
        }
        AssumptionsNone(assumptions, formula, ca, watches, watchesBin, dirty, dirtyBin, A());
        LeveledNone(trailLim, |trail|, |assumptions|);
      }
      answer := ReduceAndDecide();
    }

    method ReduceAndDecide() returns (answer: Option<LBool>)
      requires ok && Stable() && qhead == |trail| && AssumptionsOk(assumptions, A()) && conflict == []
      requires VarsBelow(assumptions, |assigns|) && Inhabited()
      modifies this`ca, this`caSize, this`clauses, this`learnts, this`watches, this`watchesBin, this`dirty,
        this`dirtyBin
      modifies this`assigns, this`vardata, this`trail, this`pos, this`trailLim, this`orderHeap, this`seen, this`conflict
      ensures ok && Stable() && |assigns| == old(|assigns|) && answer != Some(LUndef)
      ensures answer == None ==> AssumptionsOk(assumptions, A()) && conflict == []
      ensures answer == None ==> Deeper(old(trailLim), old(|trail|), trailLim) && Inhabited()
      ensures answer == Some(LTrue) ==> ModelFound() && conflict == []
      ensures answer == Some(LFalse) ==> Refuted() && conflict != []
    {
      hide Consistent, Drained, BooksOk, AssumptionsOk, ModelFound, Refuted, SameButReasons, AllClear, Leveled, Deeper;
      var reduce: bool := *;
      if reduce {
        ghost var a := A();
        ReduceDb();
        AssumptionsSame(assumptions, a, A());
      }
      var r := NextDecision();
      answer := if r == LUndef then None else Some(r);
    }

    // Backtracks to level 0, or in incremental mode to the assumptions.
    method Restart()
      requires Stable() && qhead == |trail| && AssumptionsOk(assumptions, A()) && Inhabited()
      modifies this`assigns, this`polarity, this`orderHeap, this`qhead, this`trail, this`trailLim
      ensures Stable() && AssumptionsOk(assumptions, A()) && |assigns| == old(|assigns|) && Inhabited()
      ensures |trailLim| <= if incremental then |assumptions| else 0
    {
      hide Consistent, Drained, BooksOk, AssumptionsOk, Leveled;
      var bt := if !incremental then 0 else if DecisionLevel() < |assumptions| then DecisionLevel() else |assumptions|;
      BacktrackTo(bt);
      if bt < old(|trailLim|) {
        LeveledCut(old(trailLim), old(|trail|), |assumptions|, bt, |trail|);
      }
    }

    method BacktrackTo(bt: nat)
      requires Stable() && AssumptionsOk(assumptions, A())
      modifies this`assigns, this`polarity, this`orderHeap, this`qhead, this`trail, this`trailLim
      ensures Stable() && AssumptionsOk(assumptions, A()) && |assigns| == old(|assigns|)
      ensures old(|trailLim|) <= bt ==> trailLim == old(trailLim) && trail == old(trail)
      ensures bt < old(|trailLim|) ==> trailLim == old(trailLim)[..bt] && |trail| == old(trailLim[bt])
    {
      hide Consistent, Drained, BooksOk, AssumptionsOk, CutTo;
      ghost var a := A();
      if bt < |trailLim| {
        LimBelow(formula, ca, watches, watchesBin, dirty, dirtyBin, a, bt);
      }
      CancelUntil(bt, qhead);
      if bt < |a.lim| {
        CutFacts(formula, ca, watches, watchesBin, dirty, dirtyBin, a, A(), bt);
        AssumptionsCut(assumptions, formula, ca, watches, watchesBin, dirty, dirtyBin, a, A(), bt);
      }
    }

    // One turn of the search loop; None means that the search goes on.
    method SearchStep(mayRestart: bool) returns (answer: Option<LBool>)
      requires ok && Stable() && AssumptionsOk(assumptions, A()) && conflict == []
      requires VarsBelow(assumptions, |assigns|) && Inhabited()
      modifies this`ok, this`ca, this`caSize, this`clauses, this`learnts, this`watches, this`watchesBin, this`dirty,
        this`dirtyBin
      modifies this`assigns, this`vardata, this`trail, this`pos, this`trailLim, this`qhead, this`polarity,
        this`orderHeap
      modifies this`seen, this`analyzeToClear, this`conflict
      ensures |assigns| == old(|assigns|)
      ensures answer == None || answer == Some(LUndef) ==>
        ok && Stable() && AssumptionsOk(assumptions, A()) && conflict == [] && Inhabited()
      ensures answer == None ==> TurnBound() < old(TurnBound())
      ensures answer == Some(LUndef) ==> mayRestart
      ensures answer == Some(LTrue) ==> ok && ModelFound() && conflict == []
      ensures answer == Some(LFalse) ==>
        if conflict == [] then |trailLim| == 0 && !Satisfiable(formula) else ok && Stable() && Refuted()
    {
      hide Consistent, Drained, BooksOk, AssumptionsOk, Falsified, Satisfiable, Continues, Leveled, TurnsLeft, Before,
        Deeper, Backjumped, Ends;
      ghost var a, cb, ws, wb, dw, db := A(), ca, watches, watchesBin, dirty, dirtyBin;
      TrailWithin(a);
      var confl := Propagate();
      ContinuesLim(a, A());
      AssumptionsContinue(assumptions, formula, cb, ws, wb, dw, db, a, A());
      if confl.Some? {
        if DecisionLevel() == 0 {
          ConflictAtRoot(confl.value);
          return Some(LFalse);
        }
        ghost var size := |trail|;
        HandleConflict(confl.value);
        ConflictProgress(a.lim, |a.trail|, size);
        return None;
      }
      LeveledMore(a.lim, |a.trail|, |trail|, |assumptions|);
      ghost var size := |trail|;
      answer := AfterPropagation(mayRestart);
      if answer == None {
        DecisionProgress(a.lim, |a.trail|, size);
      }
    }

    lemma TrailWithin(a: Assignment)
      requires Consistent(formula, ca, watches, watchesBin, dirty, dirtyBin, a)
      ensures Within(a.lim, |a.trail|, |a.assigns|)
    {
      hide SemDown, SemUp, OverFormula, LongOk, BinOk, ReasonsOk;
      TrailFits(a);
    }

    lemma ConflictProgress(lim: seq<nat>, size: nat, more: nat)
      requires Core() && Within(lim, size, |assigns|) && size <= more && Leveled(lim, size, |assumptions|)
      requires Backjumped(lim, trailLim, |trail|)
      ensures Inhabited() && TurnBound() < TurnsLeft(lim, size, |assumptions|, |assigns|)
    {
      hide Consistent, BooksOk, TurnsLeft, Before;
      TrailWithin(A());
      LeveledCut(lim, size, |assumptions|, |trailLim|, |trail|);
      BackjumpIsLater(lim, size, trailLim, |trail|);
      TurnsShrink(lim, size, trailLim, |trail|, |assumptions|, |assigns|);
    }

    lemma DecisionProgress(lim: seq<nat>, size: nat, more: nat)
      requires Core() && Within(lim, size, |assigns|) && size <= more && Inhabited()
      requires Deeper(lim, more, trailLim)
      ensures TurnBound() < TurnsLeft(lim, size, |assumptions|, |assigns|)
    {
      hide Consistent, BooksOk, TurnsLeft, Before, Leveled;
      TrailWithin(A());
      DeeperIsLater(lim, more, trailLim, |trail|);
      LongerIsLater(lim, size, more, Ends(trailLim, |trail|));
      TurnsShrink(lim, size, trailLim, |trail|, |assumptions|, |assigns|);
    }

    // ---- Public interface ----

    constructor ()
      ensures Valid() && ok && |trailLim| == 0 && assigns == [] && decision == [] && formula == {}
    {
      ok := true;
      ca, caSize, clauses, learnts := map[], 0, [], [];
      watches, watchesBin, dirty, dirtyBin := map[], map[], {}, {};
      assigns, vardata, trail, trailLim, qhead := [], [], [], [], 0;
      polarity, decision, orderHeap := [], [], {};
      seen, analyzeToClear, assumptions, model, conflict := [], [], [], [], [];
      incremental, nbVarsInitialFormula := false, 0x7FFF_FFFF;
      ccminMode, phaseSaving, removeSatisfiedClauses := 2, 2, true;
      lbSizeMinimizingClause, lbLbdMinimizingClause := 30, 6;
      reduceOnSize, reduceOnSizeSize := false, 12;
      formula, pos := {}, [];
    }

    method SetIncrementalMode()
      requires Valid()
      modifies this`incremental
      ensures Valid() && incremental
    {
      hide Consistent, Drained, BooksOk, Satisfiable;
      incremental := true;
    }

    // A new variable, unassigned and watched by nothing.
    method NewVar(sign: bool, dvar: bool) returns (v: nat)
      requires Valid() && |trailLim| == 0
      modifies this`watches, this`watchesBin, this`assigns, this`vardata, this`pos, this`seen
      modifies this`polarity, this`decision, this`orderHeap
      ensures Valid() && |trailLim| == 0
      ensures v == old(|assigns|) && assigns == old(assigns) + [LUndef] && decision == old(decision) + [dvar]
      ensures watches == Grown(old(watches), v) && watchesBin == Grown(old(watchesBin), v)
      ensures A() == GrownAssignment(old(A()))
    {
      hide Consistent, Drained, BooksOk, Satisfiable, Grown, GrownAssignment, AllClear;
      v := |assigns|;
      if ok {
        GrowConsistent(formula, ca, watches, watchesBin, dirty, dirtyBin, A(), qhead);
        GrowBooks(ca, caSize, clauses, learnts, assigns, decision, polarity, orderHeap, sign, dvar);
      }
      GrowState(v, sign, dvar);
    }

    method GrowState(v: nat, sign: bool, dvar: bool)
      requires v == |assigns|
      modifies this`watches, this`watchesBin
      modifies this`assigns, this`vardata, this`pos, this`seen, this`polarity, this`decision, this`orderHeap
      ensures watches == Grown(old(watches), v) && watchesBin == Grown(old(watchesBin), v)
      ensures A() == GrownAssignment(old(A())) && assigns == old(assigns) + [LUndef]
      ensures seen == old(seen) + [false] && (old(SeenClear()) ==> SeenClear())
      ensures polarity == old(polarity) + [sign] && decision == old(decision) + [dvar]
      ensures orderHeap == if dvar then old(orderHeap) + {v} else old(orderHeap)
    {
      watches := watches[Lit(v, false) := []][Lit(v, true) := []];
      watchesBin := watchesBin[Lit(v, false) := []][Lit(v, true) := []];
      GrowVars(sign, dvar);
    }

    method GrowVars(sign: bool, dvar: bool)
      modifies this`assigns, this`vardata, this`pos, this`seen, this`polarity, this`decision, this`orderHeap
      ensures assigns == old(assigns) + [LUndef] && vardata == old(vardata) + [VarData(None, 0)]
        && pos == old(pos) + [0]
      ensures seen == old(seen) + [false] && polarity == old(polarity) + [sign] && decision == old(decision) + [dvar]
      ensures orderHeap == if dvar then old(orderHeap) + {old(|assigns|)} else old(orderHeap)
    {
      assigns := assigns + [LUndef];
      vardata := vardata + [VarData(None, 0)];
      pos := pos + [0];
      seen := seen + [false];
      polarity := polarity + [sign];
      decision := decision + [dvar];
      if dvar {
        orderHeap := orderHeap + {|assigns| - 1};
      }
    }

    // Makes a variable eligible or not for decisions.
    method SetDecisionVar(v: nat, b: bool)
      requires Valid() && |trailLim| == 0 && v < |decision|
      modifies this`decision, this`orderHeap
      ensures Valid() && decision == old(decision)[v := b]
    {
      decision := decision[v := b];
      InsertVarOrder(v);
    }

    // Adds a clause to the formula. Repeated literals and literals false at level
    // 0 are dropped first; a tautology or a clause true at level 0 is not stored.
    method AddClause(ps: seq<Lit>) returns (res: bool)
      requires Valid() && |trailLim| == 0 && VarsBelow(ps, |assigns|)
      modifies this`ok, this`ca, this`caSize, this`clauses, this`learnts, this`watches, this`watchesBin, this`dirty,
        this`dirtyBin
      modifies this`assigns, this`vardata, this`trail, this`pos, this`qhead, this`formula
      ensures Valid() && res == ok && |trailLim| == 0 && |assigns| == old(|assigns|)
      ensures formula == old(formula) + {ps}
    {
      hide Consistent, Drained, BooksOk, SimplifiedTo, Satisfiable;
      ghost var f := formula;
      formula := formula + {ps};
      if !ok {
        StillUnsat(f, ps);
        return false;
      }
      var trivial, c := SimplifyClause(ps);
      if trivial {
        AddNothingConsistent(f, ca, watches, watchesBin, dirty, dirtyBin, A(), ps);
        return true;
      }
      if |c| == 0 {
        AddEmptyRefutes(f, ca, watches, watchesBin, dirty, dirtyBin, A(), ps);
        ok := false;
      } else if |c| == 1 {
        assert c == [c[0]] && c[0] in c;
        AddUnit(f, ps, c[0]);
      } else {
        StoreProblemClause(f, ps, c);
      }
      return ok;
    }

    // Enqueues a fact and propagates it.
    method AddUnit(ghost f: set<seq<Lit>>, ghost ps: seq<Lit>, p: Lit)
      requires ok && formula == f + {ps} && |trailLim| == 0 && SeenClear() && |seen| == |assigns| && Processed(qhead)
      requires Consistent(f, ca, watches, watchesBin, dirty, dirtyBin, A()) && Bookkeeping()
      requires p.v < |assigns| && Value(p) == LUndef && SimplifiedTo(A(), ps, [p])
      modifies this`ok, this`ca, this`watches, this`watchesBin, this`dirty, this`dirtyBin
      modifies this`assigns, this`vardata, this`trail, this`pos, this`qhead
      ensures Valid() && |assigns| == old(|assigns|)
    {
      hide Consistent, Drained, BooksOk, SimplifiedTo, Satisfiable, Falsified;
      TrailOkOf(f, ca, watches, watchesBin, dirty, dirtyBin, A());
      AddUnitConsistent(f, ca, watches, watchesBin, dirty, dirtyBin, A(), ps, p, qhead);
      EnqueueBooks(ca, caSize, clauses, learnts, assigns, decision, polarity, orderHeap, p.v, if p.s then LFalse
        else LTrue);
      UncheckedEnqueue(p, None);
      ghost var a := A();
      var confl := Propagate();
      ContinuesLim(a, A());
      if confl.Some? {
        ConflictAtRoot(confl.value);
        ok := false;
      }
    }

    // Stores and attaches a clause all of whose literals are unassigned.
    method StoreProblemClause(ghost f: set<seq<Lit>>, ghost ps: seq<Lit>, c: seq<Lit>)
      requires formula == f + {ps} && |trailLim| == 0 && SeenClear() && |seen| == |assigns| && Processed(qhead)
      requires Consistent(f, ca, watches, watchesBin, dirty, dirtyBin, A()) && Bookkeeping()
      requires |c| >= 2 && DistinctVars(c) && VarsBelow(c, |assigns|) && SimplifiedTo(A(), ps, c)
      requires forall l :: l in c ==> Value(l) == LUndef
      modifies this`ca, this`caSize, this`clauses, this`learnts, this`watches, this`watchesBin
      ensures Stable()
    {
      hide Consistent, Drained, BooksOk, SimplifiedTo, LongAfter, BinAfter;
      AttachIndex(f, ca, watches, watchesBin, dirty, dirtyBin, A(), c);
      StoreBooks(ca, caSize, clauses, learnts, assigns, decision, polarity, orderHeap, Clause(c, false, 0),
        caSize + 3 + |c|);
      AddConsistent(f, ca, watches, watchesBin, dirty, dirtyBin, A(), caSize, Clause(c, false, 0), ps, qhead);
      var cr := StoreClause(c, false);
    }

    method SimplifyClause(ps: seq<Lit>) returns (trivial: bool, c: seq<Lit>)
      requires VarsBelow(ps, |assigns|)
      ensures trivial ==> (exists l :: l in ps && Value(l) == LTrue) || (exists l :: l in ps && Neg(l) in ps)
      ensures !trivial ==> SimplifiedTo(A(), ps, c) && DistinctVars(c) && VarsBelow(c, |assigns|)
      ensures !trivial ==> forall l :: l in c ==> Value(l) == LUndef
    {
      trivial, c := SimplifyLits(assigns, ps);
    }

    // The satisfying assignment recorded by the last successful call.
    ghost function ModelSet(): Model
      reads this
    {
      iset v: nat | v < |model| && model[v] == LTrue
    }

    // Every variable of the formula may be decided on. Solving changes neither the
    // formula nor the decision flags.
    ghost predicate DecisionsCover()
      reads this`formula, this`decision
    {
      forall v :: 0 <= v < |decision| && !decision[v] ==> !OccursIn(formula, v)
    }

    // Solves under assumptions, restarting at most `restarts` times. There always is
    // an answer: a positive one comes with a model of the formula and the assumptions
    // that gives a value to every decision variable, a negative one with a clause of
    // negated assumptions entailed by the formula, empty when the formula has no model.
    method Solve(asms: seq<Lit>, restarts: nat) returns (status: LBool)
      requires Valid() && |trailLim| == 0 && VarsBelow(asms, |assigns|)
      modifies this`ok, this`ca, this`caSize, this`clauses, this`learnts, this`watches, this`watchesBin
      modifies this`dirty, this`dirtyBin, this`assigns, this`vardata, this`trail, this`pos, this`trailLim, this`qhead
      modifies this`polarity, this`orderHeap, this`seen, this`analyzeToClear, this`assumptions, this`model,
        this`conflict
      ensures Valid() && |trailLim| == 0 && |assigns| == old(|assigns|)
      ensures status != LUndef
      ensures status == LTrue ==>
        |model| == |decision| == |assigns| && (forall l :: l in asms ==> HoldsL(ModelSet(), l))
      ensures status == LTrue ==> forall v :: 0 <= v < |decision| && decision[v] ==> model[v] != LUndef
      ensures status == LTrue && DecisionsCover() ==> HoldsF(ModelSet(), formula)
      ensures status == LFalse ==> Entails(formula, conflict) && forall l :: l in conflict ==> Neg(l) in asms
      ensures status == LFalse && conflict == [] ==> !ok && !Satisfiable(formula)
      ensures status == LFalse ==> forall tau :: HoldsF(tau, formula) ==> exists l :: l in asms && !HoldsL(tau, l)
    {
      hide Consistent, Drained, BooksOk, AssumptionsOk, Satisfiable, Entails, DecisionsCover;
      model, conflict := [], [];
      if !ok {
        UnsatEntails(formula, asms, conflict);
        return LFalse;
      }
      assumptions := asms;
      AssumptionsNone(assumptions, formula, ca, watches, watchesBin, dirty, dirtyBin, A());
      LeveledNone(trailLim, |trail|, |assumptions|);
      status := RunSearch(restarts);
      Finish(status);
    }

    // Searches from restart to restart until there is an answer.
    method RunSearch(restarts: nat) returns (status: LBool)
      requires ok && Stable() && AssumptionsOk(assumptions, A()) && conflict == []
      requires VarsBelow(assumptions, |assigns|) && Inhabited()
      modifies this`ok, this`ca, this`caSize, this`clauses, this`learnts, this`watches, this`watchesBin, this`dirty,
        this`dirtyBin
      modifies this`assigns, this`vardata, this`trail, this`pos, this`trailLim, this`qhead, this`polarity,
        this`orderHeap
      modifies this`seen, this`analyzeToClear, this`conflict
      ensures |assigns| == old(|assigns|) && status != LUndef
      ensures status == LTrue ==> ok && ModelFound() && conflict == []
      ensures status == LFalse ==>
        if conflict == [] then |trailLim| == 0 && !Satisfiable(formula) else ok && Stable() && Refuted()
    {
      hide Consistent, Drained, BooksOk, AssumptionsOk, Satisfiable, Entails, ModelFound, Refuted, Leveled;
      status := LUndef;
      var left := restarts;
      while status == LUndef
        invariant |assigns| == old(|assigns|)
        invariant status == LUndef ==>
          ok && Stable() && AssumptionsOk(assumptions, A()) && conflict == [] && Inhabited()
        invariant status == LTrue ==> ok && ModelFound() && conflict == []
        invariant status == LFalse ==>
          if conflict == [] then |trailLim| == 0 && !Satisfiable(formula) else ok && Stable() && Refuted()
        decreases left, status == LUndef
      {
        status := Search(left > 0);
        if status == LUndef {
          left := left - 1;
        }
      }
    }

    // Records the model or the refutation and returns to level 0.
    method Finish(status: LBool)
      requires VarsBelow(assumptions, |assigns|) && status != LUndef
      requires status == LTrue ==> ok && ModelFound() && conflict == []
      requires status == LFalse ==>
        if conflict == [] then |trailLim| == 0 && !Satisfiable(formula) else ok && Stable() && Refuted()
      modifies this`model, this`ok, this`assigns, this`polarity, this`orderHeap, this`qhead, this`trail, this`trailLim
      ensures Valid() && |trailLim| == 0 && |assigns| == old(|assigns|)
      ensures status == LTrue ==>
        |model| == |decision| == |assigns| && (forall l :: l in assumptions ==> HoldsL(ModelSet(), l))
      ensures status == LTrue ==> forall v :: 0 <= v < |decision| && decision[v] ==> model[v] != LUndef
      ensures status == LTrue && DecisionsCover() ==> HoldsF(ModelSet(), formula)
      ensures status == LFalse ==> Entails(formula, conflict) && forall l :: l in conflict ==> Neg(l) in assumptions
      ensures status == LFalse && conflict == [] ==> !ok && !Satisfiable(formula)
      ensures status == LFalse ==>
        forall tau :: HoldsF(tau, formula) ==> exists l :: l in assumptions && !HoldsL(tau, l)
    {
      hide Consistent, Drained, BooksOk, AssumptionsOk, Satisfiable, Entails;
      if status == LTrue {
        model := assigns;
        AssumptionsHold(assumptions, formula, ca, watches, watchesBin, dirty, dirtyBin, A(), ModelSet());
        if DecisionsCover() {
          ModelHolds(formula, ca, watches, watchesBin, dirty, dirtyBin, A(), decision, ModelSet());
        }
      } else if status == LFalse {
        UnsatEntails(formula, assumptions, conflict);
        if conflict == [] {
          ok := false;
        }
      }
      if ok {
        if status == LFalse {
          CancelToRoot();
        } else {
          BacktrackTo(0);
        }
      }
    }

    method CancelToRoot()
      requires Stable()
      modifies this`assigns, this`polarity, this`orderHeap, this`qhead, this`trail, this`trailLim
      ensures Stable() && |trailLim| == 0 && |assigns| == old(|assigns|)
    {
      hide Consistent, Drained, BooksOk, CutTo;
      ghost var a := A();
      if 0 < |trailLim| {
        LimBelow(formula, ca, watches, watchesBin, dirty, dirtyBin, a, 0);
      }
      CancelUntil(0, qhead);
      if 0 < |a.lim| {
        CutFacts(formula, ca, watches, watchesBin, dirty, dirtyBin, a, A(), 0);
      }
    }
  }
}
