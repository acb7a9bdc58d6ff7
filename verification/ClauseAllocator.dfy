// The clause region and its copying collector: references are forwarded through
// the first word of a clause that was already copied.
module ClauseAllocating {
  import opened SolverTypes
  import opened Assignments
  import opened Watches
  import opened WatchEdits

  // A clause in the region. Once it was copied its first literal is overwritten
  // with the new reference.
  datatype Cell =
    | Stored(lits: seq<Lit>, learnt: bool, mark: nat, lbd: nat, extra: nat)
    | Moved(rel: CRef, words: nat)

  // Header, literals and extra words.
  function WordSize(c: Cell): nat
  {
    match c
    case Stored(lits, _, _, _, extra) => 3 + |lits| + extra
    case Moved(_, words) => words
  }

  type Region = map<CRef, Cell>

  // Clauses lie below the end of the region and do not overlap.
  ghost predicate LaidOut(m: Region, size: nat)
  {
    && (forall r :: r in m ==> r < r + WordSize(m[r]) <= size)
    && (forall r, s :: r in m && s in m && r < s ==> r + WordSize(m[r]) <= s)
  }

  // `d` is a faithful copy of `c`.
  ghost predicate CopyOf(c: Cell, d: Cell)
  {
    && c.Stored? && d.Stored? && d.lits == c.lits && d.learnt == c.learnt && d.mark == c.mark
    && (c.learnt ==> d.lbd == c.lbd) && (d.extra > 1 <==> c.extra > 1)
  }

  // The state of a collection that started from region `orig`: some clauses were
  // copied to `target`, which holds nothing else, each to a place of its own. Only
  // the wanted ones are ever copied.
  ghost predicate Collecting(orig: Region, source: Region, target: Region, wanted: set<CRef>)
  {
    && source.Keys == orig.Keys && wanted <= orig.Keys
    && (forall r :: r in source && source[r].Moved? ==> r in wanted)
    && (forall r :: r in orig ==>
      orig[r].Stored? && (source[r] == orig[r] || (source[r].Moved? && source[r].words == WordSize(orig[r]))))
    && (forall r :: r in source && source[r].Moved? ==>
      source[r].rel in target && CopyOf(orig[r], target[source[r].rel]))
    && (forall r, s ::
      r in source && s in source && source[r].Moved? && source[s].Moved? && source[r].rel == source[s].rel ==> r == s)
    && (forall t :: t in target ==> exists r :: r in source && source[r].Moved? && source[r].rel == t)
  }

  // Copied clauses stay where they are.
  ghost predicate Later(source: Region, source': Region)
  {
    && source.Keys == source'.Keys
    && forall r :: r in source && source[r].Moved? ==> source'[r] == source[r]
  }

  lemma MoveStep(orig: Region, source: Region, target: Region, wanted: set<CRef>, size: nat, r: CRef, d: Cell,
      words: nat)
    requires Collecting(orig, source, target, wanted) && LaidOut(target, size)
    requires r in wanted && source[r].Stored? && CopyOf(source[r], d) && words == WordSize(source[r])
    ensures Collecting(orig, source[r := Moved(size, words)], target[size := d], wanted)
    ensures Later(source, source[r := Moved(size, words)]) && LaidOut(target[size := d], size + WordSize(d))
  {
    hide Collecting, LaidOut;
    assert size !in target by {
      AboveNothing(target, size);
    }
    MoveCollecting(orig, source, target, wanted, size, r, d, words);
    AppendLaidOut(target, size, d);
    MoveLater(orig, source, target, wanted, r, Moved(size, words));
  }

  lemma MoveCollecting(orig: Region, source: Region, target: Region, wanted: set<CRef>, size: nat, r: CRef, d: Cell,
      words: nat)
    requires Collecting(orig, source, target, wanted) && size !in target
    requires r in wanted && source[r].Stored? && CopyOf(source[r], d) && words == WordSize(source[r])
    ensures Collecting(orig, source[r := Moved(size, words)], target[size := d], wanted)
  {
    hide CopyOf, WordSize;
    var source' := source[r := Moved(size, words)];
    var target' := target[size := d];
    assert source[r] == orig[r];
    forall t | t in target' ensures exists q :: q in source' && source'[q].Moved? && source'[q].rel == t
    {
      if t != size {
        var q :| q in source && source[q].Moved? && source[q].rel == t;
        assert source'[q] == source[q];
      } else {
        assert source'[r].Moved?;
      }
    }
  }

  lemma AboveNothing(m: Region, size: nat)
    requires LaidOut(m, size)
    ensures size !in m
  {
  }

  lemma AppendLaidOut(m: Region, size: nat, d: Cell)
    requires LaidOut(m, size) && d.Stored?
    ensures LaidOut(m[size := d], size + WordSize(d))
  {
  }

  lemma MoveLater(orig: Region, source: Region, target: Region, wanted: set<CRef>, r: CRef, d: Cell)
    requires Collecting(orig, source, target, wanted) && r in wanted && source[r].Stored?
    ensures Later(source, source[r := d])
  {
  }

  class ClauseAllocator {
    var cells: Region
    var size: nat
    var extraClauseField: bool

    constructor ()
      ensures Valid() && cells == map[] && size == 0 && !extraClauseField
    {
      cells, size, extraClauseField := map[], 0, false;
    }

    // The region that holds the clauses of a data base.
    constructor Holding(ca: ClauseDb, size: nat, extraClauseField: bool)
      ensures cells == RegionOf(ca) && this.size == size && this.extraClauseField == extraClauseField
    {
      cells, this.size, this.extraClauseField := RegionOf(ca), size, extraClauseField;
    }

    ghost predicate Valid()
      reads this
    {
      LaidOut(cells, size)
    }

    // Room for a new clause at the end of the region.
    method Alloc(ps: seq<Lit>, learnt: bool, imported: bool) returns (cid: CRef)
      requires Valid()
      modifies this`cells, this`size
      ensures Valid() && cid == old(size) && cid !in old(cells)
      ensures cells ==
        old(cells)[cid := Stored(ps, learnt, 0, 0, if imported then 3 else if learnt || extraClauseField then 1 else 0)]
      ensures size == cid + WordSize(cells[cid])
    {
      var useExtra := learnt || extraClauseField;
      var extraSize := if imported then 3 else if useExtra then 1 else 0;
      cid := size;
      cells := cells[cid := Stored(ps, learnt, 0, 0, extraSize)];
      size := size + 3 + |ps| + extraSize;
    }

    // The new reference of a clause, which is copied when it is first asked for.
    method Reloc(cr: CRef, to: ClauseAllocator, ghost orig: Region, ghost wanted: set<CRef>) returns (r: CRef)
      requires to != this && cr in wanted && Collecting(orig, cells, to.cells, wanted) && to.Valid()
      modifies this`cells, to`cells, to`size
      ensures Collecting(orig, cells, to.cells, wanted) && to.Valid() && Later(old(cells), cells)
      ensures cr in cells && cells[cr] == Moved(r, WordSize(orig[cr]))
    {
      hide Collecting, LaidOut;
      StoredUnchanged(orig, cells, to.cells, wanted, cr);
      LaterRefl(cells);
      var c := cells[cr];
      if c.Moved? {
        return c.rel;
      }
      ghost var target, size0, source := to.cells, to.size, cells;
      var words := WordSize(c);
      r := to.CopyClause(c);
      cells := cells[cr := Moved(r, words)];
      MoveStep(orig, source, target, wanted, size0, cr, to.cells[r], words);
    }

    // Allocates a copy of a clause, with its mark, and its other data if learnt.
    method CopyClause(c: Cell) returns (r: CRef)
      requires Valid() && c.Stored?
      modifies this`cells, this`size
      ensures r == old(size) && r in cells && cells == old(cells)[r := cells[r]] && CopyOf(c, cells[r])
      ensures size == r + WordSize(cells[r])
    {
      r := Alloc(c.lits, c.learnt, c.extra > 1);
      cells := cells[r := cells[r].(mark := c.mark)];
      if cells[r].learnt {
        cells := cells[r := cells[r].(lbd := c.lbd)];
      }
    }

    // Forwards every reference in a list.
    method RelocRefs(refs: seq<CRef>, to: ClauseAllocator, ghost orig: Region, ghost wanted: set<CRef>)
        returns (refs': seq<CRef>)
      requires to != this && (forall r :: r in refs ==> r in wanted) && Collecting(orig, cells, to.cells, wanted)
        && to.Valid()
      modifies this`cells, to`cells, to`size
      ensures Collecting(orig, cells, to.cells, wanted) && to.Valid() && Later(old(cells), cells)
      ensures Forwarded(cells, refs, refs')
    {
      hide Collecting, LaidOut;
      refs' := refs;
      ghost var done: seq<CRef> := [];
      for i := 0 to |refs|
        invariant Collecting(orig, cells, to.cells, wanted) && to.Valid() && Later(old(cells), cells)
        invariant |refs'| == |refs| && Forwarded(cells, refs[..i], refs'[..i])
        invariant forall k :: i <= k < |refs| ==> refs'[k] == refs[k]
      {
        assert refs[i] in refs;
        ghost var was := cells;
        var r := Reloc(refs'[i], to, orig, wanted);
        ForwardedLater(was, cells, refs[..i], refs'[..i]);
        refs' := refs'[i := r];
        ForwardedStep(cells, refs, refs', i);
      }
      assert refs[..|refs|] == refs && refs'[..|refs|] == refs';
    }

    // Forwards the references of one list of watchers.
    method RelocWatchers(ws: seq<Watcher>, to: ClauseAllocator, ghost orig: Region, ghost wanted: set<CRef>)
        returns (ws': seq<Watcher>)
      requires to != this && (forall w :: w in ws ==> w.cref in wanted) && Collecting(orig, cells, to.cells, wanted)
        && to.Valid()
      modifies this`cells, to`cells, to`size
      ensures Collecting(orig, cells, to.cells, wanted) && to.Valid() && Later(old(cells), cells)
      ensures WatchersForwarded(cells, ws, ws')
    {
      hide Collecting, LaidOut;
      ws' := ws;
      for j := 0 to |ws|
        invariant Collecting(orig, cells, to.cells, wanted) && to.Valid() && Later(old(cells), cells)
        invariant |ws'| == |ws| && WatchersForwarded(cells, ws[..j], ws'[..j])
        invariant forall k :: j <= k < |ws| ==> ws'[k] == ws[k]
      {
        assert ws[j] in ws;
        ghost var was := cells;
        var r := Reloc(ws'[j].cref, to, orig, wanted);
        WatchersLater(was, cells, ws[..j], ws'[..j]);
        ws' := ws'[j := ws'[j].(cref := r)];
        WatchersStep(cells, ws, ws', j);
      }
      assert ws[..|ws|] == ws && ws'[..|ws|] == ws';
    }

    // Forwards the references of the list of `p`.
    method RelocList(ws: WatchLists, p: Lit, ghost done: set<Lit>, ghost was: WatchLists, to: ClauseAllocator,
        ghost orig: Region, ghost wanted: set<CRef>) returns (ws': WatchLists)
      requires to != this && ListsInside(was, wanted) && Collecting(orig, cells, to.cells, wanted) && to.Valid()
      requires ListsForwarded(cells, was, ws, done) && p !in done
      modifies this`cells, to`cells, to`size
      ensures Collecting(orig, cells, to.cells, wanted) && to.Valid() && Later(old(cells), cells)
      ensures ListsForwarded(cells, was, ws', done + {p})
    {
      hide Collecting, LaidOut, WatchersForwarded;
      ws' := ws;
      ghost var before := cells;
      if p in ws {
        var l := RelocWatchers(ws[p], to, orig, wanted);
        ws' := ws'[p := l];
      }
      LaterRefl(cells);
      ListsStep(before, cells, was, ws, ws', done, p);
    }

    // Forwards the references of all watcher lists, literal by literal.
    method RelocLists(ws: WatchLists, wb: WatchLists, n: nat, to: ClauseAllocator, ghost orig: Region,
        ghost wanted: set<CRef>) returns (ws': WatchLists, wb': WatchLists)
      requires to != this && ListsInside(ws, wanted) && ListsInside(wb, wanted)
        && Collecting(orig, cells, to.cells, wanted) && to.Valid()
      requires (forall p :: p in ws ==> p.v < n) && forall p :: p in wb ==> p.v < n
      modifies this`cells, to`cells, to`size
      ensures Collecting(orig, cells, to.cells, wanted) && to.Valid() && Later(old(cells), cells)
      ensures ListsForwarded(cells, ws, ws', ws.Keys) && ListsForwarded(cells, wb, wb', wb.Keys)
    {
      hide Collecting, LaidOut, ListsForwarded, ListsInside;
      ws', wb' := ws, wb;
      ghost var done: set<Lit> := {};
      NoneDone(cells, ws);
      NoneDone(cells, wb);
      for v := 0 to n
        invariant Collecting(orig, cells, to.cells, wanted) && to.Valid() && Later(old(cells), cells)
        invariant ListsForwarded(cells, ws, ws', done) && ListsForwarded(cells, wb, wb', done)
        invariant forall p :: p in done <==> p.v < v
      {
        ws', wb' := RelocLiteral(ws', wb', Lit(v, false), done, ws, wb, to, orig, wanted);
        done := done + {Lit(v, false)};
        ws', wb' := RelocLiteral(ws', wb', Lit(v, true), done, ws, wb, to, orig, wanted);
        done := done + {Lit(v, true)};
        forall p ensures p in done <==> p.v < v + 1
        {
          assert p.v == v ==> p == Lit(v, p.s);
        }
      }
      AllDone(cells, ws, ws', done);
      AllDone(cells, wb, wb', done);
    }

    method RelocLiteral(ws: WatchLists, wb: WatchLists, p: Lit, ghost done: set<Lit>, ghost was: WatchLists,
        ghost wab: WatchLists, to: ClauseAllocator, ghost orig: Region, ghost wanted: set<CRef>)
        returns (ws': WatchLists, wb': WatchLists)
      requires to != this && ListsInside(was, wanted) && ListsInside(wab, wanted)
        && Collecting(orig, cells, to.cells, wanted) && to.Valid()
      requires ListsForwarded(cells, was, ws, done) && ListsForwarded(cells, wab, wb, done) && p !in done
      modifies this`cells, to`cells, to`size
      ensures Collecting(orig, cells, to.cells, wanted) && to.Valid() && Later(old(cells), cells)
      ensures ListsForwarded(cells, was, ws', done + {p}) && ListsForwarded(cells, wab, wb', done + {p})
    {
      hide Collecting, LaidOut, ListsForwarded;
      ghost var before := cells;
      ws' := RelocList(ws, p, done, was, to, orig, wanted);
      ListsLater(before, cells, wab, wb, done);
      ghost var mid := cells;
      wb' := RelocList(wb, p, done, wab, to, orig, wanted);
      ListsLater(mid, cells, was, ws', done + {p});
    }

    // Forwards the reasons of the trail. A reason is left alone only if its clause
    // was deleted before, so that nothing refers to it any more.
    method RelocReasons(trail: seq<Lit>, assigns: PModel, reasons: seq<Option<CRef>>, to: ClauseAllocator,
        ghost orig: Region, ghost wanted: set<CRef>) returns (reasons': seq<Option<CRef>>)
      requires to != this && Collecting(orig, cells, to.cells, wanted) && to.Valid()
      requires DistinctVars(trail) && forall l :: l in trail ==> l.v < |reasons| && Val(assigns, l) == LTrue
      requires forall l :: l in trail && reasons[l.v].Some? ==> reasons[l.v].value in wanted
      requires forall r :: r in orig ==> |LitsOf(orig[r])| >= 2
      modifies this`cells, to`cells, to`size
      ensures Collecting(orig, cells, to.cells, wanted) && to.Valid() && Later(old(cells), cells)
      ensures |reasons'| == |reasons|
      ensures forall v ::
        0 <= v < |reasons| ==> ReasonForwarded(cells, reasons[v], reasons'[v]) || reasons'[v] == reasons[v]
      ensures forall l ::
        l in trail && NeedsReason(orig, old(cells), assigns, reasons[l.v], l) ==>
        ReasonForwarded(cells, reasons[l.v], reasons'[l.v])
    {
      hide Collecting, LaidOut, ReasonsDone, NeedsReason, ReasonForwarded, DistinctVars, Later;
      reasons' := reasons;
      LaterRefl(cells);
      NoReasonsDone(orig, cells, trail, assigns, reasons);
      for i := 0 to |trail|
        invariant Collecting(orig, cells, to.cells, wanted) && to.Valid() && Later(old(cells), cells)
        invariant |reasons'| == |reasons|
        invariant forall k :: i <= k < |trail| ==> reasons'[trail[k].v] == reasons[trail[k].v]
        invariant ReasonsDone(orig, old(cells), cells, trail, assigns, reasons, reasons', i)
      {
        assert trail[i] in trail;
        var v := trail[i].v;
        ghost var before := cells;
        if reasons'[v].Some? {
          var cr := reasons'[v].value;
          StoredUnchanged(orig, cells, to.cells, wanted, cr);
          if cells[cr].Moved? || Locked(cells[cr], cr, assigns, reasons') {
            var r := Reloc(cr, to, orig, wanted);
            LaterTrans(old(cells), before, cells);
            ReasonMoved(orig, old(cells), before, cells, trail, assigns, reasons, reasons', i, r);
            OthersStay(trail, reasons, reasons', i, Some(r));
            reasons' := reasons'[v := Some(r)];
          } else {
            ReasonLeft(orig, old(cells), cells, trail, assigns, reasons, reasons', i);
          }
        } else {
          ReasonLeft(orig, old(cells), cells, trail, assigns, reasons, reasons', i);
        }
      }
      AllReasonsDone(orig, old(cells), cells, trail, assigns, reasons, reasons');
    }

    // Removes the watchers of deleted clauses from one list.
    method CleanList(l: seq<Watcher>) returns (r: seq<Watcher>)
      requires forall w :: w in l ==> w.cref in cells && cells[w.cref].Stored?
      ensures r == LiveOnly(Db(cells), l)
    {
      r := [];
      for i := 0 to |l|
        invariant r == LiveOnly(Db(cells), l[..i])
      {
        assert l[..i + 1][..i] == l[..i] && l[i] in l;
        if cells[l[i].cref].mark != 1 {
          r := r + [l[i]];
        }
      }
      assert l[..|l|] == l;
    }

    // Cleans every dirty list.
    method CleanDirty(lists: WatchLists, dirty: set<Lit>) returns (r: WatchLists)
      requires forall p, w :: p in lists && w in lists[p] ==> w.cref in cells && cells[w.cref].Stored?
      ensures r == CleanLists(cells, lists, dirty)
    {
      r := lists;
      var todo := dirty;
      while todo != {}
        invariant todo <= dirty && r == CleanLists(cells, lists, dirty - todo)
        decreases todo
      {
        var p :| p in todo;
        if p in r {
          var l := CleanList(lists[p]);
          r := r[p := l];
        }
        todo := todo - {p};
      }
    }

    // Forwards everything that refers to clauses, once the dirty lists are clean.
    method RelocAll(st: References, to: ClauseAllocator, ghost orig: Region) returns (st': References)
      requires to != this && cells == orig && to.Valid() && to.cells == map[] && st.Inside(orig)
      modifies this`cells, to`cells, to`size
      ensures Collecting(orig, cells, to.cells, st.Clean(orig).Wanted()) && to.Valid()
      ensures ReferencesForwarded(cells, orig, st.Clean(orig), st')
    {
      hide Collecting, LaidOut, ReferencesForwarded, References.Wanted, References.Inside, CleanLists;
      st.CleanInside(orig);
      st.WatchersStored(orig);
      var ws := CleanDirty(st.watches, st.dirty);
      var wb := CleanDirty(st.watchesBin, st.dirtyBin);
      st' := RelocClean(st.(watches := ws, watchesBin := wb, dirty := {}, dirtyBin := {}), to, orig);
    }

    method RelocClean(st: References, to: ClauseAllocator, ghost orig: Region) returns (st': References)
      requires to != this && cells == orig && to.Valid() && to.cells == map[] && st.Inside(orig)
      modifies this`cells, to`cells, to`size
      ensures Collecting(orig, cells, to.cells, st.Wanted()) && to.Valid()
      ensures ReferencesForwarded(cells, orig, st, st')
    {
      hide Collecting, LaidOut, ListsForwarded, ListsInside, Forwarded, References.Wanted, References.Inside, Later,
        InUse, ReasonForwarded, NeedsReason, DistinctVars, ReferencesForwarded;
      ghost var wanted := st.Wanted();
      st.WantedInside(orig);
      st.Collectable(orig);
      var ws, wb := RelocLists(st.watches, st.watchesBin, st.n, to, orig, wanted);
      ghost var c1 := cells;
      SameKeys(orig, c1, to.cells, wanted);
      var reasons := RelocReasons(st.trail, st.assigns, st.reasons, to, orig, wanted);
      ghost var c2 := cells;
      var learnts := RelocRefs(st.learnts, to, orig, wanted);
      ghost var c3 := cells;
      var clauses := RelocRefs(st.clauses, to, orig, wanted);
      st' := st.(watches := ws, watchesBin := wb, reasons := reasons, learnts := learnts, clauses := clauses);
      ForwardedAll(orig, c1, c2, c3, cells, st, st');
    }

    // Copies the clauses in use to a new region, which takes the place of this one.
    // `source` tells where each clause went.
    method GarbageCollect(st: References) returns (st': References, ghost source: Region)
      requires st.Inside(cells)
      modifies this
      ensures Valid() && extraClauseField == old(extraClauseField)
      ensures Collecting(old(cells), source, cells, st.Clean(old(cells)).Wanted())
      ensures ReferencesForwarded(source, old(cells), st.Clean(old(cells)), st')
      ensures st.ReasonsInPlace(old(cells)) ==> st'.Inside(cells) && st'.ReasonsInPlace(cells)
    {
      hide Collecting, LaidOut, References.Inside, References.Wanted, References.Clean, ReferencesForwarded,
        References.ReasonsInPlace;
      var to := new ClauseAllocator();
      to.extraClauseField := extraClauseField;
      ghost var orig := cells;
      st' := RelocAll(st, to, orig);
      source := cells;
      cells, size := to.cells, to.size;
      if st.ReasonsInPlace(orig) {
        st.CleanInside(orig);
        CollectedInside(orig, source, cells, st.Clean(orig), st');
      }
    }
  }

  function RegionOf(ca: ClauseDb): Region
  {
    map r | r in ca :: Stored(ca[r].lits, ca[r].learnt, ca[r].mark, 0, if ca[r].learnt then 1 else 0)
  }

  // The clauses of a region.
  function Db(m: Region): ClauseDb
  {
    map r | r in m && m[r].Stored? :: Clause(m[r].lits, m[r].learnt, m[r].mark)
  }

  // The dirty lists without the watchers of deleted clauses.
  ghost function CleanLists(m: Region, lists: WatchLists, dirty: set<Lit>): WatchLists
  {
    map p | p in lists :: if p in dirty then LiveOnly(Db(m), lists[p]) else lists[p]
  }

  // Everything in the solver that refers to clauses, with what decides whether a
  // reason is in use.
  datatype References = References(
    watches: WatchLists,
    watchesBin: WatchLists,
    dirty: set<Lit>,
    dirtyBin: set<Lit>,
    trail: seq<Lit>,
    assigns: PModel,
    reasons: seq<Option<CRef>>,
    learnts: seq<CRef>,
    clauses: seq<CRef>,
    n: nat)
  {
    ghost function Wanted(): set<CRef>
    {
      (set p, w | p in watches && w in watches[p] :: w.cref)
      + (set p, w | p in watchesBin && w in watchesBin[p] :: w.cref)
      + (set l | l in trail && l.v < |reasons| && reasons[l.v].Some? :: reasons[l.v].value)
      + (set r | r in learnts) + (set r | r in clauses)
    }

    // References lead to clauses, the trail lists assigned variables once.
    ghost predicate Inside(m: Region)
    {
      && Wanted() <= m.Keys && (forall r :: r in m ==> m[r].Stored? && |m[r].lits| >= 2)
      && (forall p :: p in watches ==> p.v < n) && (forall p :: p in watchesBin ==> p.v < n)
      && DistinctVars(trail) && forall l :: l in trail ==> l.v < |reasons| && Val(assigns, l) == LTrue
    }

    // Every reason of a trail literal has the literal where an implied one belongs.
    ghost predicate ReasonsInPlace(m: Region)
    {
      forall l :: l in trail && l.v < |reasons| && reasons[l.v].Some? ==>
        reasons[l.v].value in m && InPlace(LitsOf(m[reasons[l.v].value]), l)
    }

    ghost function Clean(m: Region): References
    {
      this.(watches := CleanLists(m, watches, dirty), watchesBin := CleanLists(m, watchesBin, dirtyBin), dirty := {},
        dirtyBin := {})
    }

    lemma CleanInside(m: Region)
      requires Inside(m)
      ensures Clean(m).Inside(m) && (ReasonsInPlace(m) ==> Clean(m).ReasonsInPlace(m))
    {
      hide CleanLists, DistinctVars, WatchedSomewhere;
      forall r ensures r in Clean(m).Wanted() ==> r in Wanted()
      {
        WantedMeans(this, r);
        WantedMeans(Clean(m), r);
        StillWatched(m, watches, dirty, r);
        StillWatched(m, watchesBin, dirtyBin, r);
      }
      SameLists(m, watches, dirty);
      SameLists(m, watchesBin, dirtyBin);
    }

    lemma WatchersStored(m: Region)
      requires Inside(m)
      ensures forall p, w :: p in watches && w in watches[p] ==> w.cref in m && m[w.cref].Stored?
      ensures forall p, w :: p in watchesBin && w in watchesBin[p] ==> w.cref in m && m[w.cref].Stored?
    {
      hide DistinctVars;
      forall p, w | p in watches && w in watches[p] ensures w.cref in Wanted()
      {
      }
      forall p, w | p in watchesBin && w in watchesBin[p] ensures w.cref in Wanted()
      {
      }
    }

    lemma Collectable(m: Region)
      requires Inside(m)
      ensures Collecting(m, m, map[], Wanted())
      ensures (forall p :: p in watches ==> p.v < n) && (forall p :: p in watchesBin ==> p.v < n)
      ensures DistinctVars(trail) && forall l :: l in trail ==> l.v < |reasons| && Val(assigns, l) == LTrue
      ensures forall r :: r in m ==> |LitsOf(m[r])| >= 2
    {
      hide Wanted, DistinctVars;
      NothingMoved(m, Wanted());
    }

    // A list that is not dirty watches the deleted clause, it is the reason of a trail
    // literal, or it is still listed.
    ghost predicate StillInUse(r: CRef)
    {
      || (exists p, w :: p in watches && p !in dirty && w in watches[p] && w.cref == r)
      || (exists p, w :: p in watchesBin && p !in dirtyBin && w in watchesBin[p] && w.cref == r)
      || (exists l :: l in trail && l.v < |reasons| && reasons[l.v] == Some(r))
      || r in learnts || r in clauses
    }

    lemma DeletedWanted(m: Region, r: CRef)
      requires r in m && m[r].Stored? && m[r].mark == 1
      ensures r in Clean(m).Wanted() <==> StillInUse(r)
    {
      DeletedWatched(m, watches, dirty, r);
      DeletedWatched(m, watchesBin, dirtyBin, r);
      WantedMeans(Clean(m), r);
    }

    lemma WantedInside(m: Region)
      requires Inside(m)
      ensures ListsInside(watches, Wanted()) && ListsInside(watchesBin, Wanted())
      ensures (forall r :: r in learnts ==> r in Wanted()) && (forall r :: r in clauses ==> r in Wanted())
      ensures forall l :: l in trail && l.v < |reasons| && reasons[l.v].Some? ==> reasons[l.v].value in Wanted()
    {
    }
  }

  // Every reference was forwarded; a reason was, too, if its clause is watched or
  // it belongs to the literal it is the reason of, and otherwise may be as it was.
  ghost predicate ReferencesForwarded(source: Region, orig: Region, st: References, st': References)
  {
    && ListsForwarded(source, st.watches, st'.watches, st.watches.Keys)
    && ListsForwarded(source, st.watchesBin, st'.watchesBin, st.watchesBin.Keys)
    && Forwarded(source, st.learnts, st'.learnts) && Forwarded(source, st.clauses, st'.clauses)
    && |st'.reasons| == |st.reasons|
    && (forall v :: 0 <= v < |st.reasons| ==>
      ReasonForwarded(source, st.reasons[v], st'.reasons[v]) || st'.reasons[v] == st.reasons[v])
    && (forall l :: l in st.trail && InUse(orig, st, l) ==>
      l.v < |st.reasons| && ReasonForwarded(source, st.reasons[l.v], st'.reasons[l.v]))
    && st'.trail == st.trail && st'.assigns == st.assigns && st'.n == st.n
    && st'.dirty == st.dirty && st'.dirtyBin == st.dirtyBin
  }

  // The reason of trail literal `l` is a watched clause or has `l` in its place.
  ghost predicate InUse(orig: Region, st: References, l: Lit)
  {
    && l.v < |st.reasons| && st.reasons[l.v].Some?
    && (WatchedSomewhere(st.watches, st.reasons[l.v].value) || WatchedSomewhere(st.watchesBin, st.reasons[l.v].value)
      || (st.reasons[l.v].value in orig && InPlace(LitsOf(orig[st.reasons[l.v].value]), l)))
  }

  ghost predicate WatchedSomewhere(ws: WatchLists, cr: CRef)
  {
    exists p, w :: p in ws && w in ws[p] && w.cref == cr
  }

  ghost predicate Deleted(m: Region, w: Watcher)
  {
    w.cref in m && m[w.cref].Stored? && m[w.cref].mark == 1
  }

  // Cleaning keeps exactly the watchers that are not of deleted clauses.
  lemma CleanWatcher(m: Region, lists: WatchLists, dirty: set<Lit>, p: Lit, w: Watcher)
    requires p in lists
    ensures p in CleanLists(m, lists, dirty)
    ensures w in CleanLists(m, lists, dirty)[p] <==> w in lists[p] && !(p in dirty && Deleted(m, w))
  {
    hide LiveOnly;
    LiveOnlyMembers(Db(m), lists[p]);
    assert w in LiveOnly(Db(m), lists[p]) <==> w in lists[p] && !Deleted(m, w);
  }

  lemma SameLists(m: Region, lists: WatchLists, dirty: set<Lit>)
    ensures CleanLists(m, lists, dirty).Keys == lists.Keys
  {
  }

  lemma StillWatched(m: Region, lists: WatchLists, dirty: set<Lit>, r: CRef)
    ensures WatchedSomewhere(CleanLists(m, lists, dirty), r) ==> WatchedSomewhere(lists, r)
  {
    hide LiveOnly, CleanLists, Deleted;
    SameLists(m, lists, dirty);
    if p, w :| p in CleanLists(m, lists, dirty) && w in CleanLists(m, lists, dirty)[p] && w.cref == r {
      CleanWatcher(m, lists, dirty, p, w);
    }
  }

  lemma DeletedWatched(m: Region, lists: WatchLists, dirty: set<Lit>, r: CRef)
    requires r in m && m[r].Stored? && m[r].mark == 1
    ensures WatchedSomewhere(CleanLists(m, lists, dirty), r) <==>
      exists p, w :: p in lists && p !in dirty && w in lists[p] && w.cref == r
  {
    hide LiveOnly, CleanLists;
    SameLists(m, lists, dirty);
    if WatchedSomewhere(CleanLists(m, lists, dirty), r) {
      var p, w :| p in CleanLists(m, lists, dirty) && w in CleanLists(m, lists, dirty)[p] && w.cref == r;
      CleanWatcher(m, lists, dirty, p, w);
    }
    if p, w :| p in lists && p !in dirty && w in lists[p] && w.cref == r {
      CleanWatcher(m, lists, dirty, p, w);
    }
  }

  lemma WantedMeans(st: References, r: CRef)
    ensures r in st.Wanted() <==>
      || WatchedSomewhere(st.watches, r) || WatchedSomewhere(st.watchesBin, r)
      || (exists l :: l in st.trail && l.v < |st.reasons| && st.reasons[l.v] == Some(r))
      || r in st.learnts || r in st.clauses
  {
  }

  // ---- A collection can be repeated ----

  // If all reasons are in place, every one of them was forwarded, and the clauses
  // copied are exactly those wanted.
  lemma AllForwarded(orig: Region, source: Region, target: Region, st: References, st': References)
    requires st.Inside(orig) && st.ReasonsInPlace(orig)
    requires Collecting(orig, source, target, st.Wanted()) && ReferencesForwarded(source, orig, st, st')
    ensures |st'.reasons| == |st.reasons| && forall l :: l in st.trail ==> l.v < |st.reasons|
    ensures forall l :: l in st.trail ==> ReasonForwarded(source, st.reasons[l.v], st'.reasons[l.v])
    ensures forall r :: r in source ==> (source[r].Moved? <==> r in st.Wanted())
  {
    hide DistinctVars, References.Wanted, ListsForwarded, Forwarded, WatchedSomewhere, InPlace;
    forall l | l in st.trail ensures ReasonForwarded(source, st.reasons[l.v], st'.reasons[l.v])
    {
      if st.reasons[l.v].Some? {
        assert InUse(orig, st, l);
      }
    }
    forall r | r in source && r in st.Wanted() ensures source[r].Moved?
    {
      WantedMeans(st, r);
      WantedMoved(source, st, st', r);
    }
  }

  lemma WantedMoved(source: Region, st: References, st': References, r: CRef)
    requires ListsForwarded(source, st.watches, st'.watches, st.watches.Keys)
    requires ListsForwarded(source, st.watchesBin, st'.watchesBin, st.watchesBin.Keys)
    requires Forwarded(source, st.learnts, st'.learnts) && Forwarded(source, st.clauses, st'.clauses)
    requires |st'.reasons| == |st.reasons| && forall l :: l in st.trail ==> l.v < |st.reasons|
    requires forall l :: l in st.trail ==> ReasonForwarded(source, st.reasons[l.v], st'.reasons[l.v])
    requires WatchedSomewhere(st.watches, r) || WatchedSomewhere(st.watchesBin, r)
      || (exists l :: l in st.trail && l.v < |st.reasons| && st.reasons[l.v] == Some(r))
      || r in st.learnts || r in st.clauses
    ensures r in source && source[r].Moved?
  {
    hide ListsForwarded, WatchedSomewhere;
    if WatchedSomewhere(st.watches, r) {
      WatchedMoved(source, st.watches, st'.watches, r);
    } else if WatchedSomewhere(st.watchesBin, r) {
      WatchedMoved(source, st.watchesBin, st'.watchesBin, r);
    } else if r in st.learnts {
      var i :| 0 <= i < |st.learnts| && st.learnts[i] == r;
    } else if r in st.clauses {
      var i :| 0 <= i < |st.clauses| && st.clauses[i] == r;
    }
  }

  // A deleted clause is copied only if it is still in use, and if all reasons are in
  // place, exactly then.
  lemma DeletedKept(orig: Region, source: Region, target: Region, st: References, st': References, r: CRef)
    requires st.Inside(orig) && r in orig && orig[r].mark == 1
    requires Collecting(orig, source, target, st.Clean(orig).Wanted())
    requires ReferencesForwarded(source, orig, st.Clean(orig), st')
    ensures source[r].Moved? ==> st.StillInUse(r)
    ensures st.ReasonsInPlace(orig) ==> (source[r].Moved? <==> st.StillInUse(r))
  {
    hide References.Wanted, References.Clean, References.StillInUse, References.ReasonsInPlace, ReferencesForwarded;
    st.DeletedWanted(orig, r);
    if st.ReasonsInPlace(orig) {
      st.CleanInside(orig);
      AllForwarded(orig, source, target, st.Clean(orig), st');
    }
  }

  // What a forwarded list or vector holds are the new references of its old ones.
  lemma ListsLead(source: Region, ws: WatchLists, ws': WatchLists, r: CRef)
    requires ListsForwarded(source, ws, ws', ws.Keys) && WatchedSomewhere(ws', r)
    ensures exists q :: q in source && source[q].Moved? && source[q].rel == r
  {
    var p, w :| p in ws' && w in ws'[p] && w.cref == r;
    assert WatchersForwarded(source, ws[p], ws'[p]);
    var j :| 0 <= j < |ws'[p]| && ws'[p][j] == w;
    assert source[ws[p][j].cref].rel == r;
  }

  lemma ReferencesLead(source: Region, refs: seq<CRef>, refs': seq<CRef>, r: CRef)
    requires Forwarded(source, refs, refs') && r in refs'
    ensures exists q :: q in source && source[q].Moved? && source[q].rel == r
  {
    var i :| 0 <= i < |refs'| && refs'[i] == r;
    assert source[refs[i]].rel == r;
  }

  lemma NewWanted(source: Region, st: References, st': References, r: CRef)
    requires ListsForwarded(source, st.watches, st'.watches, st.watches.Keys)
    requires ListsForwarded(source, st.watchesBin, st'.watchesBin, st.watchesBin.Keys)
    requires Forwarded(source, st.learnts, st'.learnts) && Forwarded(source, st.clauses, st'.clauses)
    requires |st'.reasons| == |st.reasons| && st'.trail == st.trail && forall l :: l in st.trail ==> l.v < |st.reasons|
    requires forall l :: l in st.trail ==> ReasonForwarded(source, st.reasons[l.v], st'.reasons[l.v])
    requires r in st'.Wanted()
    ensures exists q :: q in source && source[q].Moved? && source[q].rel == r
  {
    hide ListsForwarded, WatchedSomewhere, References.Wanted, Forwarded;
    WantedMeans(st', r);
    if WatchedSomewhere(st'.watches, r) {
      ListsLead(source, st.watches, st'.watches, r);
    } else if WatchedSomewhere(st'.watchesBin, r) {
      ListsLead(source, st.watchesBin, st'.watchesBin, r);
    } else if r in st'.learnts {
      ReferencesLead(source, st.learnts, st'.learnts, r);
    } else if r in st'.clauses {
      ReferencesLead(source, st.clauses, st'.clauses, r);
    } else {
      var l :| l in st'.trail && l.v < |st'.reasons| && st'.reasons[l.v] == Some(r);
      assert source[st.reasons[l.v].value].rel == r;
    }
  }

  // The new references lead into the new region, with all reasons in place again.
  lemma CollectedInside(orig: Region, source: Region, target: Region, st: References, st': References)
    requires st.Inside(orig) && st.ReasonsInPlace(orig)
    requires Collecting(orig, source, target, st.Wanted()) && ReferencesForwarded(source, orig, st, st')
    ensures st'.Inside(target) && st'.ReasonsInPlace(target)
  {
    AllForwarded(orig, source, target, st, st');
    hide DistinctVars, References.Wanted, WatchersForwarded, Forwarded, InPlace, InUse;
    forall r | r in st'.Wanted() ensures r in target
    {
      NewWanted(source, st, st', r);
    }
    forall t | t in target ensures target[t].Stored? && |target[t].lits| >= 2
    {
      var q :| q in source && source[q].Moved? && source[q].rel == t;
      assert CopyOf(orig[q], target[t]);
    }
    forall l | l in st'.trail && st'.reasons[l.v].Some?
      ensures st'.reasons[l.v].value in target && InPlace(LitsOf(target[st'.reasons[l.v].value]), l)
    {
      var q := st.reasons[l.v].value;
      assert ReasonForwarded(source, st.reasons[l.v], st'.reasons[l.v]);
      assert CopyOf(orig[q], target[source[q].rel]);
    }
  }

  lemma NothingMoved(orig: Region, wanted: set<CRef>)
    requires wanted <= orig.Keys && forall r :: r in orig ==> orig[r].Stored?
    ensures Collecting(orig, orig, map[], wanted)
  {
  }

  lemma ReasonsLater(source: Region, source': Region, rs: seq<Option<CRef>>, rs': seq<Option<CRef>>)
    requires Later(source, source') && |rs| == |rs'|
    ensures forall v ::
      0 <= v < |rs| && ReasonForwarded(source, rs[v], rs'[v]) ==> ReasonForwarded(source', rs[v], rs'[v])
  {
  }

  lemma ForwardedAll(orig: Region, c1: Region, c2: Region, c3: Region, source: Region, st: References, st': References)
    requires st.Inside(orig) && c1.Keys == orig.Keys && Later(c1, c2) && Later(c2, c3) && Later(c3, source)
    requires ListsForwarded(c1, st.watches, st'.watches, st.watches.Keys)
    requires ListsForwarded(c1, st.watchesBin, st'.watchesBin, st.watchesBin.Keys)
    requires |st'.reasons| == |st.reasons|
    requires forall v ::
      0 <= v < |st.reasons| ==> ReasonForwarded(c2, st.reasons[v], st'.reasons[v]) || st'.reasons[v] == st.reasons[v]
    requires forall l ::
      l in st.trail && l.v < |st.reasons| && NeedsReason(orig, c1, st.assigns, st.reasons[l.v], l) ==>
      ReasonForwarded(c2, st.reasons[l.v], st'.reasons[l.v])
    requires Forwarded(c3, st.learnts, st'.learnts) && Forwarded(source, st.clauses, st'.clauses)
    requires st'.trail == st.trail && st'.assigns == st.assigns && st'.n == st.n
    requires st'.dirty == st.dirty && st'.dirtyBin == st.dirtyBin
    ensures ReferencesForwarded(source, orig, st, st')
  {
    hide ListsForwarded, Forwarded, ReasonForwarded;
    assert Later(c1, source) && Later(c2, source);
    ListsLater(c1, source, st.watches, st'.watches, st.watches.Keys);
    ListsLater(c1, source, st.watchesBin, st'.watchesBin, st.watchesBin.Keys);
    ReasonsLater(c2, source, st.reasons, st'.reasons);
    ForwardedLater(c3, source, st.learnts, st'.learnts);
    forall l | l in st.trail && InUse(orig, st, l) ensures ReasonForwarded(source, st.reasons[l.v], st'.reasons[l.v])
    {
      ReasonInUse(orig, c1, st, st'.watches, st'.watchesBin, l);
    }
  }

  lemma ReasonInUse(orig: Region, source: Region, st: References, ws: WatchLists, wb: WatchLists, l: Lit)
    requires st.Inside(orig) && source.Keys == orig.Keys && InUse(orig, st, l)
    requires ListsForwarded(source, st.watches, ws, st.watches.Keys)
      && ListsForwarded(source, st.watchesBin, wb, st.watchesBin.Keys)
    ensures NeedsReason(orig, source, st.assigns, st.reasons[l.v], l)
  {
    hide ListsForwarded;
    var cr := st.reasons[l.v].value;
    if WatchedSomewhere(st.watches, cr) {
      WatchedMoved(source, st.watches, ws, cr);
    }
    if WatchedSomewhere(st.watchesBin, cr) {
      WatchedMoved(source, st.watchesBin, wb, cr);
    }
  }

  lemma WatchedMoved(source: Region, ws: WatchLists, ws': WatchLists, cr: CRef)
    requires ListsForwarded(source, ws, ws', ws.Keys) && WatchedSomewhere(ws, cr)
    ensures cr in source && source[cr].Moved?
  {
    var p, w :| p in ws && w in ws[p] && w.cref == cr;
    assert WatchersForwarded(source, ws[p], ws'[p]);
    var j :| 0 <= j < |ws[p]| && ws[p][j] == w;
  }

  function LitsOf(c: Cell): seq<Lit>
  {
    if c.Stored? then c.lits else []
  }

  // The clause is the reason of its first literal or, when binary, of either.
  predicate Locked(c: Cell, cr: CRef, assigns: PModel, reasons: seq<Option<CRef>>)
    requires c.Stored? && |c.lits| >= 2
  {
    || ReasonOf(c.lits[0], cr, assigns, reasons)
    || (|c.lits| == 2 && ReasonOf(c.lits[1], cr, assigns, reasons))
  }

  predicate ReasonOf(l: Lit, cr: CRef, assigns: PModel, reasons: seq<Option<CRef>>)
  {
    Val(assigns, l) == LTrue && l.v < |reasons| && reasons[l.v] == Some(cr)
  }

  ghost predicate ReasonForwarded(source: Region, r: Option<CRef>, r': Option<CRef>)
  {
    match r
    case None => r' == None
    case Some(cr) => cr in source && source[cr].Moved? && r' == Some(source[cr].rel)
  }

  // The trail literal `l` has a reason whose clause was already copied, or that
  // has `l` where an implied literal belongs.
  ghost predicate NeedsReason(orig: Region, source: Region, assigns: PModel, r: Option<CRef>, l: Lit)
  {
    && r.Some? && r.value in orig && r.value in source
    && (source[r.value].Moved? || InPlace(LitsOf(orig[r.value]), l))
  }

  // The reasons of the first `i` trail literals have been visited.
  ghost predicate ReasonsDone(orig: Region, first: Region, source: Region, trail: seq<Lit>, assigns: PModel,
      reasons: seq<Option<CRef>>, reasons': seq<Option<CRef>>, i: nat)
  {
    && |reasons'| == |reasons| && i <= |trail| && (forall l :: l in trail ==> l.v < |reasons|)
    && (forall v :: 0 <= v < |reasons| ==>
      ReasonForwarded(source, reasons[v], reasons'[v]) || reasons'[v] == reasons[v])
    && (forall k :: 0 <= k < i && NeedsReason(orig, first, assigns, reasons[trail[k].v], trail[k]) ==>
      ReasonForwarded(source, reasons[trail[k].v], reasons'[trail[k].v]))
  }

  lemma NoReasonsDone(orig: Region, first: Region, trail: seq<Lit>, assigns: PModel, reasons: seq<Option<CRef>>)
    requires forall l :: l in trail ==> l.v < |reasons|
    ensures ReasonsDone(orig, first, first, trail, assigns, reasons, reasons, 0)
  {
  }

  lemma AllReasonsDone(orig: Region, first: Region, source: Region, trail: seq<Lit>, assigns: PModel,
      reasons: seq<Option<CRef>>, reasons': seq<Option<CRef>>)
    requires ReasonsDone(orig, first, source, trail, assigns, reasons, reasons', |trail|)
    ensures forall v ::
      0 <= v < |reasons| ==> ReasonForwarded(source, reasons[v], reasons'[v]) || reasons'[v] == reasons[v]
    ensures forall l :: l in trail && l.v < |reasons| && NeedsReason(orig, first, assigns, reasons[l.v], l) ==>
      ReasonForwarded(source, reasons[l.v], reasons'[l.v])
  {
    hide NeedsReason, ReasonForwarded;
  }

  // The reason at `i` leads to the copy.
  lemma ReasonMoved(orig: Region, first: Region, was: Region, source: Region, trail: seq<Lit>, assigns: PModel,
      reasons: seq<Option<CRef>>, reasons': seq<Option<CRef>>, i: nat, r: CRef)
    requires ReasonsDone(orig, first, was, trail, assigns, reasons, reasons', i) && Later(was, source) && i < |trail|
    requires trail[i].v < |reasons| && reasons'[trail[i].v] == reasons[trail[i].v]
    requires reasons[trail[i].v].Some? && DistinctVars(trail)
    requires var cr := reasons[trail[i].v].value; cr in source && source[cr].Moved? && source[cr].rel == r
    ensures ReasonsDone(orig, first, source, trail, assigns, reasons, reasons'[trail[i].v := Some(r)], i + 1)
  {
    hide NeedsReason, DistinctVars, Later;
    ReasonsLater(was, source, reasons, reasons');
  }

  lemma OthersStay(trail: seq<Lit>, reasons: seq<Option<CRef>>, reasons': seq<Option<CRef>>, i: nat, r: Option<CRef>)
    requires DistinctVars(trail) && i < |trail| && |reasons'| == |reasons| && forall l :: l in trail ==> l.v < |reasons|
    requires forall k :: i <= k < |trail| ==> reasons'[trail[k].v] == reasons[trail[k].v]
    ensures forall k :: i < k < |trail| ==> reasons'[trail[i].v := r][trail[k].v] == reasons[trail[k].v]
  {
  }

  // A reason that is neither copied nor locked is not in need.
  lemma ReasonLeft(orig: Region, first: Region, source: Region, trail: seq<Lit>, assigns: PModel,
      reasons: seq<Option<CRef>>, reasons': seq<Option<CRef>>, i: nat)
    requires ReasonsDone(orig, first, source, trail, assigns, reasons, reasons', i) && Later(first, source)
    requires i < |trail| && trail[i].v < |reasons| && Val(assigns, trail[i]) == LTrue
    requires reasons'[trail[i].v] == reasons[trail[i].v]
    requires reasons[trail[i].v].Some? ==>
      var cr := reasons[trail[i].v].value;
      cr in source && cr in orig && source[cr].Stored? && source[cr] == orig[cr] && |LitsOf(source[cr])| >= 2
      && !Locked(source[cr], cr, assigns, reasons')
    ensures ReasonsDone(orig, first, source, trail, assigns, reasons, reasons', i + 1)
  {
    assert !NeedsReason(orig, first, assigns, reasons[trail[i].v], trail[i]);
    hide NeedsReason, ReasonForwarded;
  }

  lemma StoredUnchanged(orig: Region, source: Region, target: Region, wanted: set<CRef>, r: CRef)
    requires Collecting(orig, source, target, wanted) && r in wanted
    ensures r in orig && r in source && orig[r].Stored?
      && if source[r].Stored? then source[r] == orig[r] else source[r].words == WordSize(orig[r])
  {
  }

  lemma SameKeys(orig: Region, source: Region, target: Region, wanted: set<CRef>)
    requires Collecting(orig, source, target, wanted)
    ensures source.Keys == orig.Keys
  {
  }

  lemma LaterRefl(m: Region)
    ensures Later(m, m)
  {
  }

  lemma LaterTrans(m: Region, m': Region, m'': Region)
    requires Later(m, m') && Later(m', m'')
    ensures Later(m, m'')
  {
  }

  lemma ForwardedStep(source: Region, refs: seq<CRef>, refs': seq<CRef>, i: nat)
    requires i < |refs| == |refs'| && Forwarded(source, refs[..i], refs'[..i])
    requires refs[i] in source && source[refs[i]].Moved? && refs'[i] == source[refs[i]].rel
    ensures Forwarded(source, refs[..i + 1], refs'[..i + 1])
  {
    forall k | 0 <= k < i ensures refs[..i][k] == refs[k] && refs'[..i][k] == refs'[k]
    {
    }
  }

  // The watchers of a list with their references replaced, nothing else changed.
  ghost predicate WatchersForwarded(source: Region, ws: seq<Watcher>, ws': seq<Watcher>)
  {
    |ws'| == |ws| && forall j ::
      0 <= j < |ws| ==>
      ws[j].cref in source && source[ws[j].cref].Moved? && ws'[j] == Watcher(source[ws[j].cref].rel, ws[j].blocker)
  }

  lemma WatchersStep(source: Region, ws: seq<Watcher>, ws': seq<Watcher>, i: nat)
    requires i < |ws| == |ws'| && WatchersForwarded(source, ws[..i], ws'[..i])
    requires ws[i].cref in source && source[ws[i].cref].Moved?
      && ws'[i] == Watcher(source[ws[i].cref].rel, ws[i].blocker)
    ensures WatchersForwarded(source, ws[..i + 1], ws'[..i + 1])
  {
    forall k | 0 <= k < i ensures ws[..i][k] == ws[k] && ws'[..i][k] == ws'[k]
    {
    }
  }

  lemma WatchersLater(source: Region, source': Region, ws: seq<Watcher>, ws': seq<Watcher>)
    requires WatchersForwarded(source, ws, ws') && Later(source, source')
    ensures WatchersForwarded(source', ws, ws')
  {
  }

  ghost predicate ListsInside(ws: WatchLists, wanted: set<CRef>)
  {
    forall p :: p in ws ==> forall w :: w in ws[p] ==> w.cref in wanted
  }

  // The lists of the literals in `done` with their references replaced.
  ghost predicate ListsForwarded(source: Region, ws: WatchLists, ws': WatchLists, done: set<Lit>)
  {
    && ws'.Keys == ws.Keys
    && forall p :: p in ws ==> if p in done then WatchersForwarded(source, ws[p], ws'[p]) else ws'[p] == ws[p]
  }

  lemma NoneDone(source: Region, ws: WatchLists)
    ensures ListsForwarded(source, ws, ws, {})
  {
  }

  lemma AllDone(source: Region, ws: WatchLists, ws': WatchLists, done: set<Lit>)
    requires ListsForwarded(source, ws, ws', done) && forall p :: p in ws ==> p in done
    ensures ListsForwarded(source, ws, ws', ws.Keys)
  {
  }

  lemma ListsStep(was: Region, source: Region, ws: WatchLists, ws1: WatchLists, ws2: WatchLists, done: set<Lit>, p: Lit)
    requires Later(was, source) && ListsForwarded(was, ws, ws1, done) && ws2.Keys == ws.Keys
    requires forall q :: q in ws && q != p ==> ws2[q] == ws1[q]
    requires p in ws ==> WatchersForwarded(source, ws[p], ws2[p])
    ensures ListsForwarded(source, ws, ws2, done + {p})
  {
    hide WatchersForwarded, Later;
    forall q | q in ws && q in done && q != p ensures WatchersForwarded(source, ws[q], ws2[q])
    {
      WatchersLater(was, source, ws[q], ws1[q]);
    }
  }

  lemma ListsLater(was: Region, source: Region, ws: WatchLists, ws': WatchLists, done: set<Lit>)
    requires Later(was, source) && ListsForwarded(was, ws, ws', done)
    ensures ListsForwarded(source, ws, ws', done)
  {
    forall q | q in ws && q in done ensures WatchersForwarded(source, ws[q], ws'[q])
    {
      WatchersLater(was, source, ws[q], ws'[q]);
    }
  }

  // ---- What forwarding a whole set of references gives ----

  // Every reference was replaced by that of its copy.
  ghost predicate Forwarded(source: Region, refs: seq<CRef>, refs': seq<CRef>)
  {
    |refs'| == |refs|
      && forall i :: 0 <= i < |refs| ==> refs[i] in source && source[refs[i]].Moved? && refs'[i] == source[refs[i]].rel
  }

  lemma ForwardedLater(source: Region, source': Region, refs: seq<CRef>, refs': seq<CRef>)
    requires Forwarded(source, refs, refs') && Later(source, source')
    ensures Forwarded(source', refs, refs')
  {
  }

  // Forwarding is an isomorphism: two references are equal afterwards exactly if
  // they were before, and they denote clauses with the same literals and marks.
  lemma ForwardingIsomorphism(orig: Region, source: Region, target: Region, wanted: set<CRef>, r: CRef, s: CRef)
    requires Collecting(orig, source, target, wanted) && r in source && s in source && source[r].Moved?
      && source[s].Moved?
    ensures source[r].rel == source[s].rel <==> r == s
    ensures source[r].rel in target && CopyOf(orig[r], target[source[r].rel])
  {
  }

  // The new region holds copies of wanted clauses only.
  lemma NothingElseKept(orig: Region, source: Region, target: Region, wanted: set<CRef>, t: CRef)
    requires Collecting(orig, source, target, wanted) && t in target
    ensures exists r ::
      r in wanted && r in source && source[r].Moved? && source[r].rel == t && CopyOf(orig[r], target[t])
  {
    var r :| r in source && source[r].Moved? && source[r].rel == t;
    assert r in wanted;
  }
}
