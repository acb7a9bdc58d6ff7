// What a collection of the clause region does to the solver: all references are
// renamed, and the invariants hold of the renamed state.
module Collections {
  import opened SolverTypes
  import opened Assignments
  import opened Watches
  import opened WatchEdits
  import opened SolverInvariant
  import opened Assumptions
  import opened ClauseAllocating

  type Renaming = map<CRef, CRef>

  // `cb` holds exactly the renamed clauses, under different references, and every live
  // clause is renamed.
  ghost predicate Renames(ren: Renaming, ca: ClauseDb, cb: ClauseDb)
  {
    && (forall r :: r in ren ==> r in ca && ren[r] in cb && cb[ren[r]] == ca[r])
    && (forall r, s :: r in ren && s in ren && ren[r] == ren[s] ==> r == s)
    && (forall t :: t in cb ==> exists r :: r in ren && ren[r] == t)
    && (forall r :: Live(ca, r) ==> r in ren)
  }

  ghost predicate ListsRenamed(ren: Renaming, ws: WatchLists, ws': WatchLists)
  {
    ws'.Keys == ws.Keys && forall p :: p in ws ==> ListRenamed(ren, ws[p], ws'[p])
  }

  ghost predicate ListRenamed(ren: Renaming, l: seq<Watcher>, l': seq<Watcher>)
  {
    |l'| == |l| && forall j :: 0 <= j < |l| ==> l[j].cref in ren && l'[j] == Watcher(ren[l[j].cref], l[j].blocker)
  }

  ghost predicate RefsRenamed(ren: Renaming, refs: seq<CRef>, refs': seq<CRef>)
  {
    |refs'| == |refs| && forall i :: 0 <= i < |refs| ==> refs[i] in ren && refs'[i] == ren[refs[i]]
  }

  // The assignments differ in the reasons only; those of trail literals are renamed.
  ghost predicate ReasonsRenamed(ren: Renaming, a: Assignment, b: Assignment)
  {
    && b.assigns == a.assigns && b.trail == a.trail && b.lim == a.lim && b.pos == a.pos
    && |b.vardata| == |a.vardata| && (forall v :: 0 <= v < |a.vardata| ==> b.vardata[v].level == a.vardata[v].level)
    && forall l :: l in a.trail ==> ReasonRenamed(ren, a.Why(l.v), b.Why(l.v))
  }

  ghost predicate ReasonRenamed(ren: Renaming, r: Option<CRef>, r': Option<CRef>)
  {
    match r
    case None => r' == None
    case Some(cr) => cr in ren && r' == Some(ren[cr])
  }

  lemma RenamedSame(ren: Renaming, a: Assignment, b: Assignment)
    requires ReasonsRenamed(ren, a, b)
    ensures SameButReasons(a, b)
  {
    forall l | l in a.trail ensures b.Why(l.v).None? <==> a.Why(l.v).None?
    {
      assert ReasonRenamed(ren, a.Why(l.v), b.Why(l.v));
    }
  }

  // ---- Renaming keeps the invariants ----

  lemma SameLevels(ren: Renaming, a: Assignment, b: Assignment)
    requires ReasonsRenamed(ren, a, b)
    ensures (forall v :: b.Lev(v) == a.Lev(v)) && (forall v :: b.Pos(v) == a.Pos(v)) && forall l :: b.Val(l) == a.Val(l)
    ensures forall l, k: nat :: b.TrueBy(l, k) <==> a.TrueBy(l, k)
  {
  }

  lemma RenameTrail(ren: Renaming, a: Assignment, b: Assignment)
    requires ReasonsRenamed(ren, a, b) && TrailOk(a)
    ensures TrailOk(b)
  {
    SameLevels(ren, a, b);
    forall i | 0 <= i < |b.trail| ensures LevelOk(b, i)
    {
      assert LevelOk(a, i);
    }
  }

  lemma RenameDb(ren: Renaming, ca: ClauseDb, cb: ClauseDb, n: nat)
    requires Renames(ren, ca, cb) && WellFormedDb(ca, n)
    ensures WellFormedDb(cb, n)
  {
  }

  lemma RenameReasons(ren: Renaming, ca: ClauseDb, cb: ClauseDb, a: Assignment, b: Assignment)
    requires Renames(ren, ca, cb) && ReasonsRenamed(ren, a, b) && ReasonsOk(ca, a)
    ensures ReasonsOk(cb, b)
  {
    hide InPlace;
    SameLevels(ren, a, b);
    forall i | 0 <= i < |b.trail| ensures ReasonOk(cb, b, i)
    {
      assert ReasonOk(ca, a, i) && a.trail[i] in a.trail;
      assert ReasonRenamed(ren, a.Why(a.trail[i].v), b.Why(a.trail[i].v));
    }
  }

  // Renamed lists hold the renamed watchers.
  lemma RenamedWatcher(ren: Renaming, l: seq<Watcher>, l': seq<Watcher>, w: Watcher)
    requires ListRenamed(ren, l, l') && w in l'
    ensures exists x :: x in l && x.cref in ren && w == Watcher(ren[x.cref], x.blocker)
  {
    var j :| 0 <= j < |l'| && l'[j] == w;
    assert l[j] in l;
  }

  lemma RenamedWatched(ren: Renaming, ws: WatchLists, ws': WatchLists, p: Lit, r: CRef)
    requires ListsRenamed(ren, ws, ws') && Watched(ws, p, r)
    ensures r in ren && Watched(ws', p, ren[r])
  {
    var w :| w in ws[p] && w.cref == r;
    assert ListRenamed(ren, ws[p], ws'[p]);
    var j :| 0 <= j < |ws[p]| && ws[p][j] == w;
    assert ws'[p][j] in ws'[p];
  }

  lemma RenamedLive(ren: Renaming, ca: ClauseDb, cb: ClauseDb, t: CRef) returns (r: CRef)
    requires Renames(ren, ca, cb) && Live(cb, t)
    ensures r in ren && ren[r] == t && Live(ca, r) && ca[r] == cb[t]
  {
    r :| r in ren && ren[r] == t;
  }

  lemma RenameUnique(ren: Renaming, ca: ClauseDb, cb: ClauseDb, l: seq<Watcher>, l': seq<Watcher>)
    requires Renames(ren, ca, cb) && ListRenamed(ren, l, l') && UniqueRefs(l)
    ensures UniqueRefs(l')
  {
  }

  lemma RenameLong(ren: Renaming, ca: ClauseDb, cb: ClauseDb, ws: WatchLists, ws': WatchLists, n: nat)
    requires Renames(ren, ca, cb) && ListsRenamed(ren, ws, ws') && LongOk(ca, ws, {}, n)
    ensures LongOk(cb, ws', {}, n)
  {
    hide Renames, ListRenamed, UniqueRefs, WatchSound, Watched;
    forall p, w | p in ws' && w in ws'[p] ensures WatchSound(cb, p, w, {})
    {
      RenamedWatcher(ren, ws[p], ws'[p], w);
      var x :| x in ws[p] && x.cref in ren && w == Watcher(ren[x.cref], x.blocker);
      RenameSound(ren, ca, cb, p, x);
    }
    forall p | p in ws' ensures UniqueRefs(ws'[p])
    {
      RenameUnique(ren, ca, cb, ws[p], ws'[p]);
    }
    forall t | Live(cb, t) && |cb[t].lits| > 2
      ensures Watched(ws', Neg(cb[t].lits[0]), t) && Watched(ws', Neg(cb[t].lits[1]), t)
    {
      var r := RenamedLive(ren, ca, cb, t);
      RenamedWatched(ren, ws, ws', Neg(ca[r].lits[0]), r);
      RenamedWatched(ren, ws, ws', Neg(ca[r].lits[1]), r);
    }
  }

  lemma RenameSound(ren: Renaming, ca: ClauseDb, cb: ClauseDb, p: Lit, x: Watcher)
    requires Renames(ren, ca, cb) && x.cref in ren
    ensures WatchSound(ca, p, x, {}) ==> WatchSound(cb, p, Watcher(ren[x.cref], x.blocker), {})
    ensures BinSound(ca, p, x, {}) ==> BinSound(cb, p, Watcher(ren[x.cref], x.blocker), {})
  {
  }

  lemma RenameBin(ren: Renaming, ca: ClauseDb, cb: ClauseDb, wb: WatchLists, wb': WatchLists, n: nat)
    requires Renames(ren, ca, cb) && ListsRenamed(ren, wb, wb') && BinOk(ca, wb, {}, n)
    ensures BinOk(cb, wb', {}, n)
  {
    hide Renames, ListRenamed, BinSound, Watched;
    forall p, w | p in wb' && w in wb'[p] ensures BinSound(cb, p, w, {})
    {
      RenamedWatcher(ren, wb[p], wb'[p], w);
      var x :| x in wb[p] && x.cref in ren && w == Watcher(ren[x.cref], x.blocker);
      RenameSound(ren, ca, cb, p, x);
    }
    forall t | Live(cb, t) && |cb[t].lits| == 2
      ensures Watched(wb', Neg(cb[t].lits[0]), t) && Watched(wb', Neg(cb[t].lits[1]), t)
    {
      var r := RenamedLive(ren, ca, cb, t);
      RenamedWatched(ren, wb, wb', Neg(ca[r].lits[0]), r);
      RenamedWatched(ren, wb, wb', Neg(ca[r].lits[1]), r);
    }
  }

  // The live clauses say the same.
  lemma RenameHolds(ren: Renaming, ca: ClauseDb, cb: ClauseDb, tau: Model)
    requires Renames(ren, ca, cb)
    ensures DbHolds(tau, cb) <==> DbHolds(tau, ca)
    ensures OrigHolds(tau, cb) <==> OrigHolds(tau, ca)
  {
    hide Renames, HoldsC;
    forall t | Live(cb, t) ensures exists r :: Live(ca, r) && ca[r] == cb[t]
    {
      var r := RenamedLive(ren, ca, cb, t);
    }
    forall r | Live(ca, r) ensures exists t :: Live(cb, t) && cb[t] == ca[r]
    {
      LiveRenamed(ren, ca, cb, r);
    }
  }

  lemma LiveRenamed(ren: Renaming, ca: ClauseDb, cb: ClauseDb, r: CRef)
    requires Renames(ren, ca, cb) && Live(ca, r)
    ensures r in ren && Live(cb, ren[r]) && cb[ren[r]] == ca[r]
  {
  }

  lemma RenameSem(ren: Renaming, f: set<seq<Lit>>, ca: ClauseDb, cb: ClauseDb, a: Assignment, b: Assignment)
    requires Renames(ren, ca, cb) && ReasonsRenamed(ren, a, b) && SemDown(f, ca, a) && SemUp(f, ca, a)
    requires OverFormula(f, ca)
    ensures SemDown(f, cb, b) && SemUp(f, cb, b) && OverFormula(f, cb)
  {
    hide Renames, DbHolds, OrigHolds, OccursIn, HoldsF;
    forall tau ensures RootHolds(tau, b) <==> RootHolds(tau, a)
    {
    }
    forall tau ensures (DbHolds(tau, cb) <==> DbHolds(tau, ca)) && (OrigHolds(tau, cb) <==> OrigHolds(tau, ca))
    {
      RenameHolds(ren, ca, cb, tau);
    }
    forall t, l | Live(cb, t) && !cb[t].learnt && l in cb[t].lits ensures OccursIn(f, l.v)
    {
      var r := RenamedLive(ren, ca, cb, t);
    }
  }

  // What was propagated stays propagated.
  lemma RenameDrained(ren: Renaming, ca: ClauseDb, cb: ClauseDb, ws: WatchLists, ws': WatchLists, wb: WatchLists,
      wb': WatchLists, a: Assignment, b: Assignment, k: nat, m: nat)
    requires Renames(ren, ca, cb) && ReasonsRenamed(ren, a, b)
    requires ListsRenamed(ren, ws, ws') && ListsRenamed(ren, wb, wb') && Drained(ca, ws, wb, a, k, m)
    ensures Drained(cb, ws', wb', b, k, m)
  {
    hide Renames, ListRenamed, EntryOk, BinEntryOk, ReasonsRenamed;
    assert b.trail == a.trail by {
      SameTrail(ren, a, b);
    }
    forall i, w | 0 <= i < k && i < |b.trail| && b.trail[i] in ws' && w in ws'[b.trail[i]]
      ensures EntryOk(cb, b, b.trail[i], w)
    {
      var p := a.trail[i];
      RenamedWatcher(ren, ws[p], ws'[p], w);
      var x :| x in ws[p] && x.cref in ren && w == Watcher(ren[x.cref], x.blocker);
      assert EntryOk(ca, a, p, x);
      RenameEntry(ren, ca, cb, a, b, p, x);
    }
    forall i, w | 0 <= i < m && i < |b.trail| && b.trail[i] in wb' && w in wb'[b.trail[i]]
      ensures BinEntryOk(cb, b, b.trail[i], w)
    {
      var p := a.trail[i];
      RenamedWatcher(ren, wb[p], wb'[p], w);
      var x :| x in wb[p] && x.cref in ren && w == Watcher(ren[x.cref], x.blocker);
      assert BinEntryOk(ca, a, p, x);
      RenameEntry(ren, ca, cb, a, b, p, x);
    }
  }

  lemma SameTrail(ren: Renaming, a: Assignment, b: Assignment)
    requires ReasonsRenamed(ren, a, b)
    ensures b.trail == a.trail && b.assigns == a.assigns && b.lim == a.lim && b.pos == a.pos
  {
  }

  lemma RenameEntry(ren: Renaming, ca: ClauseDb, cb: ClauseDb, a: Assignment, b: Assignment, p: Lit, x: Watcher)
    requires Renames(ren, ca, cb) && ReasonsRenamed(ren, a, b) && x.cref in ren
    ensures EntryOk(ca, a, p, x) ==> EntryOk(cb, b, p, Watcher(ren[x.cref], x.blocker))
    ensures BinEntryOk(ca, a, p, x) ==> BinEntryOk(cb, b, p, Watcher(ren[x.cref], x.blocker))
  {
    SameLevels(ren, a, b);
  }

  // The renamed state is consistent and as far propagated as before.
  lemma RenameConsistent(ren: Renaming, f: set<seq<Lit>>, ca: ClauseDb, cb: ClauseDb, ws: WatchLists, ws': WatchLists,
      wb: WatchLists, wb': WatchLists, a: Assignment, b: Assignment, k: nat, m: nat)
    requires Consistent(f, ca, ws, wb, {}, {}, a) && Drained(ca, ws, wb, a, k, m)
    requires Renames(ren, ca, cb) && ReasonsRenamed(ren, a, b)
    requires ListsRenamed(ren, ws, ws') && ListsRenamed(ren, wb, wb')
    ensures Consistent(f, cb, ws', wb', {}, {}, b) && Drained(cb, ws', wb', b, k, m)
  {
    hide Renames, ReasonsRenamed, ListsRenamed, TrailOk, WellFormedDb, ReasonsOk, LongOk, BinOk, SemDown, SemUp,
      OverFormula, Drained;
    SameTrail(ren, a, b);
    RenameTrail(ren, a, b);
    RenameDb(ren, ca, cb, |a.assigns|);
    RenameReasons(ren, ca, cb, a, b);
    RenameLong(ren, ca, cb, ws, ws', |a.assigns|);
    RenameBin(ren, ca, cb, wb, wb', |a.assigns|);
    RenameSem(ren, f, ca, cb, a, b);
    RenameDrained(ren, ca, cb, ws, ws', wb, wb', a, b, k, m);
  }

  // ---- The collector renames ----

  // Where each copied clause went.
  ghost function RenamingOf(source: Region): Renaming
  {
    map r | r in source && source[r].Moved? :: source[r].rel
  }

  // Every listed clause exists.
  ghost predicate ListedExist(ca: ClauseDb, learnts: seq<CRef>, clauses: seq<CRef>)
  {
    forall r :: r in learnts || r in clauses ==> r in ca
  }

  // The clauses lie below the end of the region.
  ghost predicate Below(ca: ClauseDb, size: nat)
  {
    forall r :: r in ca ==> r < size
  }

  // The references are those of the solver state.
  ghost predicate Represents(st: References, a: Assignment)
  {
    && st.trail == a.trail && st.assigns == a.assigns && st.n == |a.assigns| && |st.reasons| == |a.vardata|
    && forall v :: 0 <= v < |a.vardata| ==> st.reasons[v] == a.vardata[v].reason
  }

  // The assignment with other reasons.
  function WithReasons(a: Assignment, reasons: seq<Option<CRef>>): Assignment
    requires |reasons| == |a.vardata|
  {
    a.(vardata := seq(|a.vardata|, v requires 0 <= v < |a.vardata| => VarData(reasons[v], a.vardata[v].level)))
  }

  lemma RegionDb(ca: ClauseDb)
    ensures Db(RegionOf(ca)) == ca
  {
  }

  // All references of a consistent state lead to clauses, with the reasons in place.
  lemma StateInside(f: set<seq<Lit>>, ca: ClauseDb, a: Assignment, st: References)
    requires Consistent(f, ca, st.watches, st.watchesBin, st.dirty, st.dirtyBin, a) && Represents(st, a)
    requires ListedExist(ca, st.learnts, st.clauses)
    ensures st.Inside(RegionOf(ca)) && st.ReasonsInPlace(RegionOf(ca))
  {
    hide SemDown, SemUp, OverFormula, InPlace, UniqueRefs, Watched, DistinctVars, References.Wanted;
    forall r | r in st.Wanted() ensures r in ca
    {
      WantedStored(f, ca, a, st, r);
    }
    forall l | l in st.trail ensures l.v < |st.reasons| && SolverTypes.Val(st.assigns, l) == LTrue
    {
      var i :| 0 <= i < |a.trail| && a.trail[i] == l;
      assert a.Val(l) == LTrue;
    }
    TrailDistinct(a);
    forall l | l in st.trail && st.reasons[l.v].Some?
      ensures st.reasons[l.v].value in ca && InPlace(ca[st.reasons[l.v].value].lits, l)
    {
      var i :| 0 <= i < |a.trail| && a.trail[i] == l;
      assert ReasonOk(ca, a, i);
    }
  }

  lemma TrailDistinct(a: Assignment)
    requires TrailOk(a)
    ensures DistinctVars(a.trail)
  {
    forall i, j | 0 <= i < j < |a.trail| ensures a.trail[i].v != a.trail[j].v
    {
      assert a.Pos(a.trail[i].v) == i && a.Pos(a.trail[j].v) == j;
    }
  }

  lemma WantedStored(f: set<seq<Lit>>, ca: ClauseDb, a: Assignment, st: References, r: CRef)
    requires Consistent(f, ca, st.watches, st.watchesBin, st.dirty, st.dirtyBin, a) && Represents(st, a)
    requires ListedExist(ca, st.learnts, st.clauses) && r in st.Wanted()
    ensures r in ca
  {
    hide SemDown, SemUp, OverFormula, InPlace, UniqueRefs, Watched, DistinctVars, References.Wanted;
    WantedMeans(st, r);
    if WatchedSomewhere(st.watches, r) {
      var p, w :| p in st.watches && w in st.watches[p] && w.cref == r;
      assert WatchSound(ca, p, w, st.dirty);
    } else if WatchedSomewhere(st.watchesBin, r) {
      var p, w :| p in st.watchesBin && w in st.watchesBin[p] && w.cref == r;
      assert BinSound(ca, p, w, st.dirtyBin);
    } else if l :| l in st.trail && l.v < |st.reasons| && st.reasons[l.v] == Some(r) {
      var i :| 0 <= i < |a.trail| && a.trail[i] == l;
      assert ReasonOk(ca, a, i);
    }
  }

  // Live clauses are watched, so they are copied.
  lemma LiveWanted(ca: ClauseDb, st: References, n: nat, r: CRef)
    requires LongOk(ca, st.watches, {}, n) && BinOk(ca, st.watchesBin, {}, n) && Live(ca, r) && |ca[r].lits| >= 2
    ensures r in st.Wanted()
  {
    hide WatchSound, BinSound, UniqueRefs, References.Wanted;
    WantedMeans(st, r);
    if |ca[r].lits| > 2 {
      assert Watched(st.watches, Neg(ca[r].lits[0]), r);
    } else {
      assert Watched(st.watchesBin, Neg(ca[r].lits[0]), r);
    }
  }

  lemma CollectingRenames(ca: ClauseDb, source: Region, target: Region, st: References, st': References, n: nat)
    requires st.Inside(RegionOf(ca)) && st.ReasonsInPlace(RegionOf(ca))
    requires Collecting(RegionOf(ca), source, target, st.Wanted())
    requires ReferencesForwarded(source, RegionOf(ca), st, st')
    requires LongOk(ca, st.watches, {}, n) && BinOk(ca, st.watchesBin, {}, n) && WellFormedDb(ca, n)
    ensures Renames(RenamingOf(source), ca, Db(target))
  {
    hide LongOk, BinOk, References.Wanted, References.Inside, References.ReasonsInPlace, ReferencesForwarded;
    AllForwarded(RegionOf(ca), source, target, st, st');
    forall r | Live(ca, r) ensures r in RenamingOf(source)
    {
      LiveWanted(ca, st, n, r);
    }
    forall t | t in Db(target) ensures exists r :: r in RenamingOf(source) && RenamingOf(source)[r] == t
    {
      var r :| r in source && source[r].Moved? && source[r].rel == t;
      assert RenamingOf(source)[r] == t;
    }
  }

  lemma ForwardedRenames(source: Region, orig: Region, st: References, st': References)
    requires ReferencesForwarded(source, orig, st, st')
    ensures ListsRenamed(RenamingOf(source), st.watches, st'.watches)
    ensures ListsRenamed(RenamingOf(source), st.watchesBin, st'.watchesBin)
    ensures RefsRenamed(RenamingOf(source), st.learnts, st'.learnts)
    ensures RefsRenamed(RenamingOf(source), st.clauses, st'.clauses)
  {
    hide InUse;
    forall p | p in st.watches ensures ListRenamed(RenamingOf(source), st.watches[p], st'.watches[p])
    {
      assert WatchersForwarded(source, st.watches[p], st'.watches[p]);
    }
    forall p | p in st.watchesBin ensures ListRenamed(RenamingOf(source), st.watchesBin[p], st'.watchesBin[p])
    {
      assert WatchersForwarded(source, st.watchesBin[p], st'.watchesBin[p]);
    }
  }

  lemma NewReasons(source: Region, st: References, st': References, a: Assignment)
    requires Represents(st, a) && |st'.reasons| == |st.reasons| && forall l :: l in st.trail ==> l.v < |st.reasons|
    requires forall l :: l in st.trail ==> ReasonForwarded(source, st.reasons[l.v], st'.reasons[l.v])
    ensures ReasonsRenamed(RenamingOf(source), a, WithReasons(a, st'.reasons))
  {
    var b := WithReasons(a, st'.reasons);
    forall l | l in a.trail ensures ReasonRenamed(RenamingOf(source), a.Why(l.v), b.Why(l.v))
    {
      assert ReasonForwarded(source, st.reasons[l.v], st'.reasons[l.v]);
    }
  }

  // Collecting keeps the solver's invariants: the renamed clauses, lists and reasons
  // are consistent, as far propagated as before, and nothing is dirty.
  lemma CollectionConsistent(f: set<seq<Lit>>, ca: ClauseDb, source: Region, target: Region, st: References,
      st': References, a: Assignment, k: nat)
    requires Consistent(f, ca, st.watches, st.watchesBin, st.dirty, st.dirtyBin, a) && Represents(st, a)
    requires Drained(ca, st.watches, st.watchesBin, a, k, k)
    requires ListedExist(ca, st.learnts, st.clauses)
    requires Collecting(RegionOf(ca), source, target, st.Clean(RegionOf(ca)).Wanted())
    requires ReferencesForwarded(source, RegionOf(ca), st.Clean(RegionOf(ca)), st')
    ensures |st'.reasons| == |a.vardata| && ReasonsRenamed(RenamingOf(source), a, WithReasons(a, st'.reasons))
    ensures Renames(RenamingOf(source), ca, Db(target))
    ensures RefsRenamed(RenamingOf(source), st.learnts, st'.learnts)
    ensures RefsRenamed(RenamingOf(source), st.clauses, st'.clauses)
    ensures Consistent(f, Db(target), st'.watches, st'.watchesBin, {}, {}, WithReasons(a, st'.reasons))
    ensures Drained(Db(target), st'.watches, st'.watchesBin, WithReasons(a, st'.reasons), k, k)
  {
    hide Consistent, Drained, References.Wanted, References.Inside, References.ReasonsInPlace, References.Clean,
      ReferencesForwarded, RefsRenamed, ListsRenamed, Renames, ReasonsRenamed, Represents, Cleaned, WithReasons;
    var orig, ren := RegionOf(ca), RenamingOf(source);
    var cl := st.Clean(orig);
    StateInside(f, ca, a, st);
    st.CleanInside(orig);
    CleanRepresents(ca, st, a);
    CleanConsistent(f, ca, st.watches, st.watchesBin, cl.watches, cl.watchesBin, st.dirty, st.dirtyBin, a, k);
    AllForwarded(orig, source, target, cl, st');
    ConsistentLists(f, ca, cl.watches, cl.watchesBin, a);
    CollectingRenames(ca, source, target, cl, st', |a.assigns|);
    ForwardedRenames(source, orig, cl, st');
    NewReasons(source, cl, st', a);
    RenameConsistent(ren, f, ca, Db(target), cl.watches, st'.watches, cl.watchesBin, st'.watchesBin, a,
      WithReasons(a, st'.reasons), k, k);
  }

  lemma CleanRepresents(ca: ClauseDb, st: References, a: Assignment)
    requires Represents(st, a)
    ensures var cl := st.Clean(RegionOf(ca));
      && Represents(cl, a) && cl.learnts == st.learnts && cl.clauses == st.clauses && |cl.reasons| == |a.vardata|
      && Cleaned(ca, st.watches, cl.watches, st.dirty) && Cleaned(ca, st.watchesBin, cl.watchesBin, st.dirtyBin)
  {
    RegionDb(ca);
  }

  lemma ConsistentLists(f: set<seq<Lit>>, ca: ClauseDb, ws: WatchLists, wb: WatchLists, a: Assignment)
    requires Consistent(f, ca, ws, wb, {}, {}, a)
    ensures LongOk(ca, ws, {}, |a.assigns|) && BinOk(ca, wb, {}, |a.assigns|) && WellFormedDb(ca, |a.assigns|)
  {
  }

  // Runs the collector on the region of the clauses.
  method Collect(ghost f: set<seq<Lit>>, ca: ClauseDb, caSize: nat, st: References, ghost a: Assignment, ghost k: nat)
    returns (cb: ClauseDb, size: nat, st': References, ghost ren: Renaming)
    requires Consistent(f, ca, st.watches, st.watchesBin, st.dirty, st.dirtyBin, a) && Represents(st, a)
    requires Drained(ca, st.watches, st.watchesBin, a, k, k)
    requires ListedExist(ca, st.learnts, st.clauses)
    ensures |st'.reasons| == |a.vardata| && ReasonsRenamed(ren, a, WithReasons(a, st'.reasons))
    ensures Renames(ren, ca, cb) && Below(cb, size)
    ensures RefsRenamed(ren, st.learnts, st'.learnts) && RefsRenamed(ren, st.clauses, st'.clauses)
    ensures Consistent(f, cb, st'.watches, st'.watchesBin, {}, {}, WithReasons(a, st'.reasons))
    ensures Drained(cb, st'.watches, st'.watchesBin, WithReasons(a, st'.reasons), k, k)
  {
    hide Consistent, Drained, Represents, Renames, ReasonsRenamed, RefsRenamed, WithReasons, Collecting,
      ReferencesForwarded, References.Inside, References.Wanted, References.ReasonsInPlace, References.Clean,
      ListedExist;
    StateInside(f, ca, a, st);
    var alloc := new ClauseAllocator.Holding(ca, caSize, false);
    ghost var source;
    st', source := alloc.GarbageCollect(st);
    CollectionConsistent(f, ca, source, alloc.cells, st, st', a, k);
    cb, size, ren := Db(alloc.cells), alloc.size, RenamingOf(source);
  }

  // The state that refers to clauses.
  function StateOf(ws: WatchLists, wb: WatchLists, dw: set<Lit>, db: set<Lit>, a: Assignment, learnts: seq<CRef>,
      clauses: seq<CRef>): References
  {
    References(ws, wb, dw, db, a.trail, a.assigns,
      seq(|a.vardata|, v requires 0 <= v < |a.vardata| => a.vardata[v].reason), learnts, clauses, |a.assigns|)
  }

  lemma StateRepresents(ws: WatchLists, wb: WatchLists, dw: set<Lit>, db: set<Lit>, a: Assignment, b: Assignment,
      learnts: seq<CRef>, clauses: seq<CRef>)
    requires b == a.(pos := [])
    ensures var st := StateOf(ws, wb, dw, db, b, learnts, clauses);
      && Represents(st, a) && st.watches == ws && st.watchesBin == wb && st.dirty == dw && st.dirtyBin == db
      && st.learnts == learnts && st.clauses == clauses
  {
  }

  lemma SameData(a: Assignment, b: Assignment, reasons: seq<Option<CRef>>)
    requires |reasons| == |a.vardata| && b.vardata == a.vardata
    ensures WithReasons(a, reasons) == a.(vardata := WithReasons(b, reasons).vardata)
  {
  }
}
