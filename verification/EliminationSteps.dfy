// The steps of eliminating one variable over plain values: the two sides, the
// table of resolvents, and the removal of the old clauses.
module EliminationSteps {
  import opened SolverTypes
  import opened Vectors
  import opened Elimination
  import opened Resolution
  import opened ClauseLists
  import opened Recovery
  import opened PreprocessingSteps

  // `list` holds exactly the live clauses containing literal `d`.
  ghost predicate SideList(ca: SDb, list: seq<CRef>, d: Lit)
  {
    forall cr: CRef :: cr in list <==> Alive(ca, cr) && d in ca[cr].lits
  }

  ghost predicate SidesOk(ca: SDb, pos: seq<CRef>, neg: seq<CRef>, v: nat)
  {
    SideList(ca, pos, Lit(v, false)) && SideList(ca, neg, Lit(v, true))
  }

  lemma SplitDone(ca: SDb, cls: seq<CRef>, pos: seq<CRef>, neg: seq<CRef>, v: nat, eliminated: seq<bool>)
    requires ListOk(ca, cls, false, v) && SDbOk(ca, eliminated, -1)
    requires forall cr: CRef :: cr in pos <==> cr in cls && Lit(v, false) in ca[cr].lits
    requires forall cr: CRef :: cr in neg <==> cr in cls && Lit(v, false) !in ca[cr].lits
    ensures SidesOk(ca, pos, neg, v)
  {
    hide HashOf, NoRepeats, Kept, DistinctVars;
    forall cr: CRef | Alive(ca, cr) ensures Lit(v, true) in ca[cr].lits ==> Lit(v, false) !in ca[cr].lits
    {
      assert ClauseOk(ca[cr], eliminated, -1);
      if Lit(v, true) in ca[cr].lits {
        OnlySide(ca[cr].lits, Lit(v, true));
      }
    }
    forall cr: CRef | cr in cls ensures Lit(v, true) in ca[cr].lits || Lit(v, false) in ca[cr].lits
    {
      var l :| l in ca[cr].lits && l.v == v;
      assert l == Lit(v, l.s);
    }
  }

  // ---- Counting the resolvents ----

  // The clauses a list of references stands for.
  ghost function LitsOf(ca: SDb, list: seq<CRef>): (r: seq<seq<Lit>>)
    requires forall cr :: cr in list ==> cr in ca
    ensures |r| == |list|
  {
    seq(|list|, i requires 0 <= i < |list| => assert list[i] in list; ca[list[i]].lits)
  }

  lemma SameLitsOf(ca: SDb, cb: SDb, list: seq<CRef>)
    requires forall cr :: cr in list ==> cr in ca && cr in cb && cb[cr] == ca[cr]
    ensures LitsOf(cb, list) == LitsOf(ca, list)
  {
    forall i | 0 <= i < |list| ensures LitsOf(cb, list)[i] == LitsOf(ca, list)[i]
    {
      assert list[i] in list;
    }
  }

  // How many clauses of `qs` have a resolvent with `p` that is no tautology.
  ghost function RowCount(p: seq<Lit>, qs: seq<seq<Lit>>, v: nat): nat
  {
    if qs == [] then 0 else RowCount(p, qs[..|qs| - 1], v) + if Clash(p, qs[|qs| - 1], v) then 0 else 1
  }

  ghost function TableCount(ps: seq<seq<Lit>>, qs: seq<seq<Lit>>, v: nat): nat
  {
    if ps == [] then 0 else TableCount(ps[..|ps| - 1], qs, v) + RowCount(ps[|ps| - 1], qs, v)
  }

  lemma {:induction false} RowCountGrows(p: seq<Lit>, qs: seq<seq<Lit>>, v: nat, j: nat)
    requires j <= |qs|
    ensures RowCount(p, qs[..j], v) <= RowCount(p, qs, v)
    decreases |qs|
  {
    if j < |qs| {
      assert qs[..|qs| - 1][..j] == qs[..j];
      RowCountGrows(p, qs[..|qs| - 1], v, j);
    } else {
      assert qs[..j] == qs;
    }
  }

  lemma {:induction false} TableCountGrows(ps: seq<seq<Lit>>, qs: seq<seq<Lit>>, v: nat, i: nat)
    requires i <= |ps|
    ensures TableCount(ps[..i], qs, v) <= TableCount(ps, qs, v)
    decreases |ps|
  {
    if i < |ps| {
      assert ps[..|ps| - 1][..i] == ps[..i];
      TableCountGrows(ps[..|ps| - 1], qs, v, i);
    } else {
      assert ps[..i] == ps;
    }
  }

  lemma CountStart(ps: seq<seq<Lit>>, qs: seq<seq<Lit>>, v: nat)
    ensures TableCount(ps[..0], qs, v) == 0
    ensures forall p :: RowCount(p, qs[..0], v) == 0
  {
  }

  lemma RowCountStep(p: seq<Lit>, qs: seq<seq<Lit>>, v: nat, j: nat)
    requires j < |qs|
    ensures RowCount(p, qs[..j + 1], v) == RowCount(p, qs[..j], v) + if Clash(p, qs[j], v) then 0 else 1
  {
    assert qs[..j + 1][..j] == qs[..j];
  }

  lemma TableCountStep(ps: seq<seq<Lit>>, qs: seq<seq<Lit>>, v: nat, i: nat)
    requires i < |ps|
    ensures TableCount(ps[..i + 1], qs, v) == TableCount(ps[..i], qs, v) + RowCount(ps[i], qs, v)
  {
    assert ps[..i + 1][..i] == ps[..i];
  }

  // The cells counted before cell (i, j) are no more than all of them.
  lemma CountedSoFar(ps: seq<seq<Lit>>, qs: seq<seq<Lit>>, v: nat, i: nat, j: nat)
    requires i < |ps| && j <= |qs|
    ensures TableCount(ps[..i], qs, v) + RowCount(ps[i], qs[..j], v) <= TableCount(ps, qs, v)
  {
    TableCountStep(ps, qs, v, i);
    RowCountGrows(ps[i], qs, v, j);
    TableCountGrows(ps, qs, v, i + 1);
  }

  ghost predicate TooManyResolvents(ps: seq<seq<Lit>>, qs: seq<seq<Lit>>, v: nat, limit: int)
  {
    TableCount(ps, qs, v) > 0 && TableCount(ps, qs, v) > limit
  }

  // Some resolvent of the pair is longer than the limit allows.
  ghost predicate TooLong(p: seq<Lit>, q: seq<Lit>, v: nat, clauseLim: int)
  {
    clauseLim != -1 && exists r :: Resolvent(r, p, q, v) && |r| > clauseLim
  }

  ghost predicate SomeTooLong(ps: seq<seq<Lit>>, qs: seq<seq<Lit>>, v: nat, clauseLim: int)
  {
    exists i, j :: 0 <= i < |ps| && 0 <= j < |qs| && !Clash(ps[i], qs[j], v) && TooLong(ps[i], qs[j], v, clauseLim)
  }

  // ---- Storing one side ----

  ghost function RecordsOf(cs: seq<seq<Lit>>, v: nat): (r: seq<Record>)
    requires forall c :: c in cs ==> exists l :: l in c && l.v == v
    ensures |r| == |cs|
  {
    seq(|cs|, i requires 0 <= i < |cs| => assert cs[i] in cs; RecordOf(cs[i], v))
  }

  lemma FirstLiteral(c: seq<Lit>, d: Lit)
    requires DistinctVars(c) && d in c
    ensures exists l :: l in c && l.v == d.v
    ensures RecordOf(c, d.v)[0] == d && DistinctVars(RecordOf(c, d.v))
  {
    var i :| 0 <= i < |c| && c[i] == d;
    OneIndex(c, d.v, i);
  }

  lemma SideStored(ca: SDb, list: seq<CRef>, d: Lit, eliminated: seq<bool>, x: int, n: nat)
    requires SideList(ca, list, d) && SDbOk(ca, eliminated, x) && n == |eliminated|
    requires (forall cr :: cr in list ==> cr in ca) && d.v < n
    requires forall c :: c in LitsOf(ca, list) ==> exists l :: l in c && l.v == d.v
    ensures StoresSide(RecordsOf(LitsOf(ca, list), d.v), Side(ca, d), d)
    ensures RecordsOk(RecordsOf(LitsOf(ca, list), d.v), n)
    ensures forall r :: r in RecordsOf(LitsOf(ca, list), d.v) ==> |r| > 0 && r[0] == d
  {
    hide SDbOk, SideList, Side, LitsOf, RecordsOf, RecordOf, FromSide, Stored, SameLits, DistinctVars, VarsBelow;
    var rs := RecordsOf(LitsOf(ca, list), d.v);
    forall r | r in rs ensures |r| > 0 && r[0] == d && DistinctVars(r) && FromSide(r, Side(ca, d)) && VarsBelow(r, n)
    {
      var i :| 0 <= i < |rs| && rs[i] == r;
      RecordStored(ca, list, d, eliminated, x, n, i);
    }
    forall c | c in Side(ca, d) ensures Stored(c, rs)
    {
      ClauseStored(ca, list, d, c);
    }
  }

  // The record at `i` is a clause of the side with the variable's literal first.
  lemma RecordStored(ca: SDb, list: seq<CRef>, d: Lit, eliminated: seq<bool>, x: int, n: nat, i: nat)
    requires SideList(ca, list, d) && SDbOk(ca, eliminated, x) && n == |eliminated| && i < |list|
    requires (forall cr :: cr in list ==> cr in ca) && d.v < n
    requires forall c :: c in LitsOf(ca, list) ==> exists l :: l in c && l.v == d.v
    ensures var r := RecordsOf(LitsOf(ca, list), d.v)[i];
      |r| > 0 && r[0] == d && DistinctVars(r) && FromSide(r, Side(ca, d)) && VarsBelow(r, n)
  {
    hide SDbOk, HashOf, RecordOf;
    assert list[i] in list;
    var c := ca[list[i]].lits;
    assert LitsOf(ca, list)[i] == c && d in c;
    AliveOk(ca, list[i], eliminated, x);
    FirstLiteral(c, d);
    RecordLits(c, d.v);
    assert c in Side(ca, d);
  }

  lemma RecordLits(c: seq<Lit>, v: nat)
    requires exists l :: l in c && l.v == v
    ensures |RecordOf(c, v)| > 0 && SameLits(c, RecordOf(c, v))
  {
  }

  lemma ClauseStored(ca: SDb, list: seq<CRef>, d: Lit, c: seq<Lit>)
    requires SideList(ca, list, d) && (forall cr :: cr in list ==> cr in ca) && c in Side(ca, d)
    requires forall e :: e in LitsOf(ca, list) ==> exists l :: l in e && l.v == d.v
    ensures Stored(c, RecordsOf(LitsOf(ca, list), d.v))
  {
    hide RecordOf, SameLits;
    var rs := RecordsOf(LitsOf(ca, list), d.v);
    var cr :| cr in ca && Alive(ca, cr) && d in ca[cr].lits && ca[cr].lits == c;
    var i :| 0 <= i < |list| && list[i] == cr;
    assert LitsOf(ca, list)[i] == c && rs[i] == RecordOf(c, d.v);
    RecordLits(c, d.v);
    assert rs[i] in rs && SameLits(c, rs[i]);
  }

  lemma OverVarLits(ca: SDb, list: seq<CRef>, v: nat)
    requires OverVar(ca, list, v)
    ensures forall c :: c in LitsOf(ca, list) ==> exists l :: l in c && l.v == v
  {
    var cs := LitsOf(ca, list);
    forall c | c in cs ensures exists l :: l in c && l.v == v
    {
      var i :| 0 <= i < |cs| && cs[i] == c;
      assert list[i] in list && HasVar(c, v);
    }
  }

  lemma PackNone()
    ensures Pack([]) == []
  {
  }

  lemma PackOne(rs: seq<Record>, i: nat)
    requires i < |rs|
    ensures Pack(rs[..i + 1]) == Pack(rs[..i]) + (Codes(rs[i]) + [|rs[i]|])
  {
    hide Codes;
    assert rs[..i + 1][..i] == rs[..i];
  }

  lemma ListKept(occ: seq<seq<CRef>>, occ': seq<seq<CRef>>, ps: seq<Lit>, v: nat)
    requires OtherLists(occ, occ', ps) && v < |occ| && !HasVar(ps, v)
    ensures v < |occ'| && occ'[v] == occ[v]
  {
  }

  // ---- The table of resolvents ----

  // Old clauses are as they were, nothing is claimed that did not follow, and
  // everything old without `v` still follows without the clauses on `v`.
  ghost predicate Enriched(ca: SDb, tr: seq<Lit>, cb: SDb, tr': seq<Lit>, v: nat)
  {
    && Preserved(ca, cb) && tr <= tr'
    && (forall tau :: HoldsS(tau, ca, tr, -1) ==> HoldsS(tau, cb, tr', -1))
    && (forall tau :: HoldsS(tau, cb, tr', v) ==> HoldsS(tau, ca, tr, v))
  }

  lemma EnrichedRefl(ca: SDb, tr: seq<Lit>, v: nat)
    ensures Enriched(ca, tr, ca, tr, v)
  {
  }

  lemma EnrichedTrans(ca: SDb, tr: seq<Lit>, cb: SDb, tr1: seq<Lit>, cc: SDb, tr2: seq<Lit>, v: nat)
    requires Enriched(ca, tr, cb, tr1, v) && Enriched(cb, tr1, cc, tr2, v)
    ensures Enriched(ca, tr, cc, tr2, v)
  {
    hide HoldsS;
  }

  lemma EnrichedRefuted(ca: SDb, tr: seq<Lit>, cb: SDb, tr': seq<Lit>, v: nat)
    requires Enriched(ca, tr, cb, tr', v) && forall tau :: !HoldsS(tau, cb, tr', -1)
    ensures forall tau :: !HoldsS(tau, ca, tr, -1)
  {
    hide HoldsS;
  }

  // The resolvents of `p` with `qs[..j]` follow without the clauses on `v`.
  ghost predicate RowDone(ca: SDb, tr: seq<Lit>, p: seq<Lit>, qs: seq<seq<Lit>>, j: nat, v: nat)
    requires j <= |qs|
  {
    forall k :: 0 <= k < j ==> Resolved(ca, tr, p, qs[k], v, v)
  }

  ghost predicate TableDone(ca: SDb, tr: seq<Lit>, ps: seq<seq<Lit>>, i: nat, qs: seq<seq<Lit>>, v: nat)
    requires i <= |ps|
  {
    forall k :: 0 <= k < i ==> RowDone(ca, tr, ps[k], qs, |qs|, v)
  }

  lemma RowStays(ca: SDb, tr: seq<Lit>, cb: SDb, tr': seq<Lit>, p: seq<Lit>, qs: seq<seq<Lit>>, j: nat, v: nat)
    requires Enriched(ca, tr, cb, tr', v) && j <= |qs| && RowDone(ca, tr, p, qs, j, v)
    ensures RowDone(cb, tr', p, qs, j, v)
  {
    hide HoldsS, Resolved;
    forall k | 0 <= k < j ensures Resolved(cb, tr', p, qs[k], v, v)
    {
      ResolvedLater(ca, tr, cb, tr', p, qs[k], v, v, v);
    }
  }

  lemma TableStays(ca: SDb, tr: seq<Lit>, cb: SDb, tr': seq<Lit>, ps: seq<seq<Lit>>, i: nat, qs: seq<seq<Lit>>, v: nat)
    requires Enriched(ca, tr, cb, tr', v) && i <= |ps| && TableDone(ca, tr, ps, i, qs, v)
    ensures TableDone(cb, tr', ps, i, qs, v)
  {
    hide Enriched, RowDone;
    forall k | 0 <= k < i ensures RowDone(cb, tr', ps[k], qs, |qs|, v)
    {
      RowStays(ca, tr, cb, tr', ps[k], qs, |qs|, v);
    }
  }

  lemma ResolventKept(r: seq<Lit>, p: seq<Lit>, q: seq<Lit>, v: nat, eliminated: seq<bool>)
    requires Resolvent(r, p, q, v) && Kept(p, eliminated, v) && Kept(q, eliminated, v)
    ensures Kept(r, eliminated, -1) && !Mentions(r, v) && !HasVar(r, v)
  {
  }

  // What adding one resolvent achieves.
  lemma ResolventAdded(ca: SDb, tr: seq<Lit>, cb: SDb, tr': seq<Lit>, r: seq<Lit>, p: CRef, q: CRef, v: nat)
    requires Alive(ca, p) && Alive(ca, q) && Resolvent(r, ca[p].lits, ca[q].lits, v)
    requires DistinctVars(ca[p].lits) && DistinctVars(ca[q].lits)
    requires Lit(v, false) in ca[p].lits && Lit(v, true) in ca[q].lits
    requires Preserved(ca, cb) && tr <= tr'
    ensures Absorbs(ca, tr, cb, tr', r) ==> Enriched(ca, tr, cb, tr', v)
    ensures Lasting(cb, tr', r) ==> Resolved(cb, tr', ca[p].lits, ca[q].lits, v, v)
    ensures Refuted(ca, tr, r) ==> forall tau :: !HoldsS(tau, ca, tr, -1)
  {
    hide Preserved;
    assert !Mentions(r, v);
    forall tau | HoldsS(tau, ca, tr, -1) ensures HoldsC(tau, r)
    {
      NeverMentioned(ca[p].lits);
      NeverMentioned(ca[q].lits);
      ResolventSound(tau, r, ca[p].lits, ca[q].lits, v, Lit(v, false));
    }
    hide HoldsS, Mentions, HoldsC, Resolvent, DistinctVars;
    if Lasting(cb, tr', r) {
      assert Follows(cb, tr', r, v);
    }
  }

  lemma RowStart(ca: SDb, tr: seq<Lit>, p: seq<Lit>, qs: seq<seq<Lit>>, v: nat)
    ensures RowDone(ca, tr, p, qs, 0, v)
  {
  }

  lemma RowGrows(ca: SDb, tr: seq<Lit>, p: seq<Lit>, qs: seq<seq<Lit>>, j: nat, v: nat)
    requires j < |qs| && RowDone(ca, tr, p, qs, j, v) && Resolved(ca, tr, p, qs[j], v, v)
    ensures RowDone(ca, tr, p, qs, j + 1, v)
  {
    hide Resolved;
  }

  lemma TableStart(ca: SDb, tr: seq<Lit>, ps: seq<seq<Lit>>, qs: seq<seq<Lit>>, v: nat)
    ensures TableDone(ca, tr, ps, 0, qs, v)
  {
  }

  lemma TableGrows(ca: SDb, tr: seq<Lit>, ps: seq<seq<Lit>>, i: nat, qs: seq<seq<Lit>>, v: nat)
    requires i < |ps| && TableDone(ca, tr, ps, i, qs, v) && RowDone(ca, tr, ps[i], qs, |qs|, v)
    ensures TableDone(ca, tr, ps, i + 1, qs, v)
  {
    hide RowDone;
  }

  // Live clauses that contain literal `d`.
  ghost predicate InSide(ca: SDb, list: seq<CRef>, d: Lit)
  {
    forall cr: CRef :: cr in list ==> Alive(ca, cr) && d in ca[cr].lits
  }

  lemma InSideAlive(ca: SDb, list: seq<CRef>, d: Lit)
    requires InSide(ca, list, d)
    ensures forall cr: CRef :: cr in list ==> Alive(ca, cr) && d in ca[cr].lits
  {
  }

  lemma InSideStays(ca: SDb, tr: seq<Lit>, cb: SDb, tr': seq<Lit>, list: seq<CRef>, d: Lit, v: nat)
    requires InSide(ca, list, d) && Enriched(ca, tr, cb, tr', v)
    ensures InSide(cb, list, d)
    ensures forall cr: CRef :: cr in list ==> Alive(cb, cr) && d in cb[cr].lits && cb[cr] == ca[cr]
  {
    hide HoldsS;
  }

  lemma InSideOne(ca: SDb, list: seq<CRef>, i: nat, d: Lit)
    requires i < |list| && InSide(ca, list, d)
    ensures InSide(ca, [list[i]], d)
  {
    assert list[i] in list;
  }

  lemma ListFacts(ca: SDb, occ: seq<CRef>, v: nat)
    requires ListOk(ca, occ, false, v)
    ensures NoRepeats(occ) && forall cr: CRef :: cr in occ ==> Alive(ca, cr)
  {
  }

  // ---- Removing the old clauses ----

  // `cb` is `ca` with the clauses `cls[..k]` deleted.
  ghost predicate Deleted(ca: SDb, cb: SDb, cls: seq<CRef>, k: nat)
    requires k <= |cls|
  {
    && ca.Keys == cb.Keys
    && (forall cr: CRef :: Alive(cb, cr) <==> Alive(ca, cr) && cr !in cls[..k])
    && (forall cr: CRef :: cr in ca ==> cb[cr].lits == ca[cr].lits)
  }

  lemma DeletedStep(ca: SDb, cb: SDb, cls: seq<CRef>, k: nat)
    requires k < |cls| && Deleted(ca, cb, cls, k) && cls[k] in cb
    ensures Deleted(ca, Marked(cb, cls[k]), cls, k + 1)
  {
    assert cls[..k + 1] == cls[..k] + [cls[k]];
    var cc := Marked(cb, cls[k]);
    forall cr: CRef ensures Alive(cc, cr) <==> Alive(cb, cr) && cr != cls[k]
    {
    }
  }

  lemma DeletedStart(ca: SDb, cls: seq<CRef>)
    ensures Deleted(ca, ca, cls, 0)
  {
  }

  lemma StillThere(cls: seq<CRef>, k: nat)
    requires NoRepeats(cls) && k < |cls|
    ensures cls[k] !in cls[..k]
  {
  }

  // With every clause on `v` gone, exempting `v` makes no difference.
  lemma NoneLeft(ca: SDb, cb: SDb, cls: seq<CRef>, occ: seq<CRef>, v: nat, tr: seq<Lit>)
    requires Deleted(ca, cb, cls, |cls|) && cls == occ && ListOk(ca, occ, false, v)
    ensures forall cr: CRef :: Alive(cb, cr) ==> !HasVar(cb[cr].lits, v)
    ensures forall tau :: HoldsS(tau, cb, tr, -1) <==> HoldsS(tau, ca, tr, v)
  {
    assert cls[..|cls|] == cls;
    forall cr: CRef | Alive(cb, cr) ensures !HasVar(cb[cr].lits, v)
    {
    }
    assert forall c :: Mentions(c, v) <==> HasVar(c, v);
    assert forall c :: !Mentions(c, -1);
    hide HasVar, Mentions, NoRepeats, HoldsC;
    forall tau ensures HoldsS(tau, cb, tr, -1) <==> HoldsS(tau, ca, tr, v)
    {
      if HoldsS(tau, cb, tr, -1) {
        forall cr: CRef | Alive(ca, cr) && !Mentions(ca[cr].lits, v) ensures HoldsC(tau, ca[cr].lits)
        {
          assert Alive(cb, cr);
        }
      }
      if HoldsS(tau, ca, tr, v) {
        forall cr: CRef | Alive(cb, cr) ensures HoldsC(tau, cb[cr].lits)
        {
          assert Alive(ca, cr);
        }
      }
    }
  }

  lemma NoLongerExempt(ca: SDb, eliminated: seq<bool>, v: nat)
    requires SDbOk(ca, eliminated, v) && forall cr: CRef :: Alive(ca, cr) ==> !HasVar(ca[cr].lits, v)
    ensures SDbOk(ca, eliminated, -1)
  {
    hide HashOf;
    forall cr: CRef | Alive(ca, cr) ensures ClauseOk(ca[cr], eliminated, -1)
    {
      assert ClauseOk(ca[cr], eliminated, v);
    }
  }

  lemma EmptyListOk(ca: SDb, occurs: seq<seq<CRef>>, dirty: seq<bool>, v: nat)
    requires ListsOk(ca, occurs, dirty) && v < |occurs|
    requires forall cr: CRef :: Alive(ca, cr) ==> !HasVar(ca[cr].lits, v)
    ensures ListsOk(ca, occurs[v := []], dirty)
  {
    hide HasVar;
    assert ListOk(ca, [], dirty[v], v);
    hide ListOk;
  }

  lemma NowExempt(ca: SDb, eliminated: seq<bool>, v: nat)
    requires SDbOk(ca, eliminated, -1) && v < |eliminated|
    ensures SDbOk(ca, eliminated[v := true], v)
  {
    hide HashOf;
    forall cr: CRef | Alive(ca, cr) ensures ClauseOk(ca[cr], eliminated[v := true], v)
    {
      assert ClauseOk(ca[cr], eliminated, -1);
    }
  }

  // A list whose clauses all have a literal of `v` once.
  ghost predicate OverVar(ca: SDb, list: seq<CRef>, v: nat)
  {
    forall cr :: cr in list ==> cr in ca && DistinctVars(ca[cr].lits) && HasVar(ca[cr].lits, v)
  }

  lemma SidesOverVar(ca: SDb, pos: seq<CRef>, neg: seq<CRef>, v: nat, eliminated: seq<bool>, x: int)
    requires SidesOk(ca, pos, neg, v) && SDbOk(ca, eliminated, x)
    ensures OverVar(ca, pos, v) && OverVar(ca, neg, v)
  {
    hide HashOf;
    forall cr: CRef | cr in pos || cr in neg ensures cr in ca && DistinctVars(ca[cr].lits) && HasVar(ca[cr].lits, v)
    {
      AliveOk(ca, cr, eliminated, x);
    }
  }

  // ---- One elimination as a whole ----

  lemma PackSide(rs: seq<Record>, side: seq<Record>, u: Lit)
    ensures Pack(rs + (side + [[u]])) == Pack(rs) + Pack(side) + [ToInt(u), 1]
  {
    PackAppend(rs, side + [[u]]);
    PackAppend(side, [[u]]);
    assert [[u]][..0] == [];
    assert Codes([u]) == [ToInt(u)];
  }

  lemma UnassignedOffTrail(m: PModel, trail: seq<Lit>, v: nat)
    requires TrailMatches(m, trail) && v < |m| && m[v] == LUndef
    ensures forall l :: l in trail ==> l.v != v
  {
    forall l | l in trail ensures l.v != v
    {
      assert Val(m, l) == LTrue;
    }
  }

  lemma CleanList(ca: SDb, occurs: seq<seq<CRef>>, dirty: seq<bool>, v: nat)
    requires ListsOk(ca, occurs, dirty) && v < |occurs| && !dirty[v]
    ensures ListOk(ca, occurs[v], false, v)
  {
  }

  lemma ListStays(ca: SDb, tr: seq<Lit>, cb: SDb, tr': seq<Lit>, occurs: seq<seq<CRef>>, dirty: seq<bool>, v: nat)
    requires ListsOk(cb, occurs, dirty) && v < |occurs|
    requires ListOk(ca, occurs[v], false, v) && Enriched(ca, tr, cb, tr', v)
    ensures ListOk(cb, occurs[v], false, v)
  {
    hide HoldsS, NoRepeats, HasVar;
    assert ListOk(cb, occurs[v], dirty[v], v);
  }

  lemma StackGrows(rs: seq<Record>, side: seq<Record>, d: Lit, eliminated: seq<bool>)
    requires RecordsFor(rs, eliminated) && d.v < |eliminated| && RecordsOk(side, |eliminated|)
    requires forall r :: r in side ==> |r| > 0 && r[0] == d
    ensures RecordsFor(rs + (side + [[Neg(d)]]), eliminated[d.v := true])
    ensures RecordsOk(side + [[Neg(d)]], |eliminated|)
    ensures forall r: Record :: r in side + [[Neg(d)]] ==> r[0].v == d.v
  {
  }

  lemma SidesIn(ca: SDb, pos: seq<CRef>, neg: seq<CRef>, v: nat)
    requires SidesOk(ca, pos, neg, v)
    ensures InSide(ca, pos, Lit(v, false)) && InSide(ca, neg, Lit(v, true))
  {
  }

  lemma RefutesFormula(f: set<seq<Lit>>, ca: SDb, tr: seq<Lit>)
    requires Sound(f, ca, tr) && forall tau :: !HoldsS(tau, ca, tr, -1)
    ensures !Satisfiable(f)
  {
    hide HoldsS, HoldsF;
  }

  lemma SoundStep(f: set<seq<Lit>>, ca: SDb, tr: seq<Lit>, cb: SDb, tr': seq<Lit>)
    requires Sound(f, ca, tr) && SameMeaning(ca, tr, cb, tr')
    ensures Sound(f, cb, tr')
    ensures forall tau :: HoldsS(tau, cb, tr', -1) ==> HoldsS(tau, ca, tr, -1)
  {
    hide HoldsS, HoldsF;
  }

  lemma ExemptMore(tau: Model, ca: SDb, tr: seq<Lit>, v: int)
    requires HoldsS(tau, ca, tr, -1)
    ensures HoldsS(tau, ca, tr, v)
  {
    hide HoldsC;
    assert forall c :: !Mentions(c, -1);
  }

  lemma EliminatedSound(f: set<seq<Lit>>, ca: SDb, tr: seq<Lit>, cb: SDb, tr': seq<Lit>, cc: SDb, v: nat)
    requires Sound(f, ca, tr) && Enriched(ca, tr, cb, tr', v)
    requires forall tau :: HoldsS(tau, cc, tr', -1) <==> HoldsS(tau, cb, tr', v)
    ensures Sound(f, cc, tr')
  {
    hide HoldsS, HoldsF;
    forall tau | HoldsF(tau, f) ensures HoldsS(tau, cc, tr', -1)
    {
      ExemptMore(tau, cb, tr', v);
    }
  }

  lemma ResolvedSym(ca: SDb, tr: seq<Lit>, p: seq<Lit>, q: seq<Lit>, v: nat, w: int)
    requires Resolved(ca, tr, p, q, v, w)
    ensures Resolved(ca, tr, q, p, v, w)
  {
    if l :| l in p && Neg(l) in q && l.v != v {
      assert Neg(Neg(l)) == l;
      assert Clash(q, p, v);
    } else {
      var r :| Resolvent(r, p, q, v) && Follows(ca, tr, r, w);
      assert Resolvent(r, q, p, v);
    }
  }

  // Every pair of clauses from the two sides is covered by the table.
  lemma TableCovers(ca: SDb, pos: seq<CRef>, neg: seq<CRef>, v: nat, cb: SDb, tr: seq<Lit>, cc: SDb, p: seq<Lit>,
      q: seq<Lit>)
    requires SidesOk(ca, pos, neg, v) && (forall cr :: cr in pos ==> cr in ca) && (forall cr :: cr in neg ==> cr in ca)
    requires TableDone(cb, tr, LitsOf(ca, pos), |pos|, LitsOf(ca, neg), v)
    requires forall tau :: HoldsS(tau, cc, tr, -1) <==> HoldsS(tau, cb, tr, v)
    requires p in Side(ca, Lit(v, false)) && q in Side(ca, Lit(v, true))
    ensures Resolved(cc, tr, p, q, v, -1) && Resolved(cc, tr, q, p, v, -1)
  {
    hide HoldsS, Resolved;
    var pr :| pr in ca && Alive(ca, pr) && Lit(v, false) in ca[pr].lits && ca[pr].lits == p;
    var qr :| qr in ca && Alive(ca, qr) && Lit(v, true) in ca[qr].lits && ca[qr].lits == q;
    var i :| 0 <= i < |pos| && pos[i] == pr;
    var j :| 0 <= j < |neg| && neg[j] == qr;
    var ps, qs := LitsOf(ca, pos), LitsOf(ca, neg);
    assert RowDone(cb, tr, ps[i], qs, |qs|, v);
    assert ps[i] == p && qs[j] == q;
    ResolvedLater(cb, tr, cc, tr, p, q, v, v, -1);
    ResolvedSym(cc, tr, p, q, v, -1);
  }

  lemma SidesInDb(ca: SDb, pos: seq<CRef>, neg: seq<CRef>, v: nat)
    requires SidesOk(ca, pos, neg, v)
    ensures (forall cr :: cr in pos ==> cr in ca) && forall cr :: cr in neg ==> cr in ca
  {
  }

  lemma EliminatedRestores(ca: SDb, tr: seq<Lit>, cb: SDb, tr': seq<Lit>, cc: SDb, eliminated: seq<bool>,
      pos: seq<CRef>, neg: seq<CRef>, side: seq<Record>, d: Lit)
    requires SDbOk(ca, eliminated, -1) && d.v < |eliminated| && !eliminated[d.v] && RecordsOk(side, |eliminated|)
    requires forall l :: l in tr ==> l.v != d.v
    requires SidesOk(ca, pos, neg, d.v) && StoresSide(side, Side(ca, d), d) && Enriched(ca, tr, cb, tr', d.v)
    requires (forall cr :: cr in pos ==> cr in ca) && (forall cr :: cr in neg ==> cr in ca)
    requires TableDone(cb, tr', LitsOf(ca, pos), |pos|, LitsOf(ca, neg), d.v)
    requires forall tau :: HoldsS(tau, cc, tr', -1) <==> HoldsS(tau, cb, tr', d.v)
    ensures RecordsOk(side + [[Neg(d)]], |eliminated|)
    ensures Restores(ca, tr, cc, tr', eliminated, d.v, side + [[Neg(d)]])
  {
    hide SDbOk, SidesOk, StoresSide, TableDone, HoldsS, Restores, Resolved, Side, Preserved;
    assert forall l :: l in tr ==> l in tr';
    forall p, q | p in Side(ca, d) && q in Side(ca, Neg(d)) ensures Resolved(cc, tr', p, q, d.v, -1)
    {
      if d.s {
        TableCovers(ca, pos, neg, d.v, cb, tr', cc, q, p);
      } else {
        TableCovers(ca, pos, neg, d.v, cb, tr', cc, p, q);
      }
    }
    ElimRestores(ca, tr, cc, tr', eliminated, side, d);
  }

  // A variable is eliminated exactly if neither the number of resolvents nor their
  // length passes the limits, counted over the clauses of its two sides.
  ghost predicate EliminationLimits(ca: SDb, v: nat, grow: int, clauseLim: int, eliminated: bool)
  {
    exists pos: seq<CRef>, neg: seq<CRef> :: LimitsFor(ca, v, pos, neg, grow, clauseLim, eliminated)
  }

  ghost predicate LimitsFor(ca: SDb, v: nat, pos: seq<CRef>, neg: seq<CRef>, grow: int, clauseLim: int,
      eliminated: bool)
  {
    && SidesOk(ca, pos, neg, v) && NoRepeats(pos) && NoRepeats(neg)
    && (forall cr :: cr in pos ==> cr in ca) && (forall cr :: cr in neg ==> cr in ca)
    && var ps, qs := LitsOf(ca, pos), LitsOf(ca, neg);
      eliminated <==> !TooManyResolvents(ps, qs, v, |ps| + |qs| + grow) && !SomeTooLong(ps, qs, v, clauseLim)
  }

  // The records for `v`: one side, the smaller, and the unit that makes the clauses of
  // the other side true by default.
  ghost predicate TopFor(ca: SDb, v: nat, pos: seq<CRef>, neg: seq<CRef>, top: seq<Record>)
  {
    var d := Lit(v, |pos| > |neg|);
    exists side :: StoresSide(side, Side(ca, d), d) && top == side + [[Neg(d)]]
  }

  ghost predicate StoresSmaller(ca: SDb, v: nat, top: seq<Record>)
  {
    exists pos: seq<CRef>, neg: seq<CRef> ::
      SidesOk(ca, pos, neg, v) && NoRepeats(pos) && NoRepeats(neg) && TopFor(ca, v, pos, neg, top)
  }

  lemma LimitsDecided(ca: SDb, v: nat, pos: seq<CRef>, neg: seq<CRef>, grow: int, clauseLim: int, eliminated: bool)
    requires SidesOk(ca, pos, neg, v) && NoRepeats(pos) && NoRepeats(neg)
    requires (forall cr :: cr in pos ==> cr in ca) && (forall cr :: cr in neg ==> cr in ca)
    requires eliminated <==>
      !(TooManyResolvents(LitsOf(ca, pos), LitsOf(ca, neg), v, |pos| + |neg| + grow)
      || SomeTooLong(LitsOf(ca, pos), LitsOf(ca, neg), v, clauseLim))
    ensures EliminationLimits(ca, v, grow, clauseLim, eliminated)
  {
    hide SidesOk, NoRepeats, TooManyResolvents, SomeTooLong;
    assert LimitsFor(ca, v, pos, neg, grow, clauseLim, eliminated);
  }

  // ---- The preprocessor as a whole ----

  lemma EmptyState(ca: SDb, tr: seq<Lit>, occurs: seq<seq<CRef>>, dirty: seq<bool>, m: PModel, eliminated: seq<bool>)
    requires ca.Keys == {TmpUnit} && tr == [] && |occurs| == |dirty| == |m| == |eliminated|
    requires (forall v :: 0 <= v < |occurs| ==> occurs[v] == []) && forall v :: 0 <= v < |m| ==> m[v] == LUndef
    ensures SDbOk(ca, eliminated, -1) && ListsOk(ca, occurs, dirty) && TrailMatches(m, tr)
    ensures Sound({}, ca, tr) && Recoverable(ca, tr, eliminated, [], {})
  {
    forall v: nat | v < |occurs| ensures ListOk(ca, occurs[v], dirty[v], v)
    {
    }
  }

  lemma StillUnsatisfiable(f: set<seq<Lit>>, ps: seq<Lit>)
    requires !Satisfiable(f)
    ensures !Satisfiable(f + {ps})
  {
    forall tau ensures !HoldsF(tau, f + {ps})
    {
      if HoldsF(tau, f + {ps}) {
        assert HoldsF(tau, f);
      }
    }
  }

  lemma AddedSound(f: set<seq<Lit>>, ca: SDb, tr: seq<Lit>, cb: SDb, tr': seq<Lit>, ps: seq<Lit>)
    requires Sound(f, ca, tr) && Absorbs(ca, tr, cb, tr', ps)
    ensures Sound(f + {ps}, cb, tr')
  {
    hide HoldsS, HoldsC;
    forall tau | HoldsF(tau, f + {ps}) ensures HoldsS(tau, cb, tr', -1)
    {
      assert HoldsF(tau, f);
    }
  }

  lemma AbsorbedBy(ca: SDb, tr: seq<Lit>, cb: SDb, tr': seq<Lit>, ps: seq<Lit>)
    requires Absorbs(ca, tr, cb, tr', ps)
    ensures forall tau :: HoldsS(tau, cb, tr', -1) ==> HoldsS(tau, ca, tr, -1) && HoldsC(tau, ps)
  {
    hide HoldsS, HoldsC;
  }

  lemma AddedRefutes(f: set<seq<Lit>>, ca: SDb, tr: seq<Lit>, ps: seq<Lit>)
    requires Sound(f, ca, tr) && Refuted(ca, tr, ps)
    ensures !Satisfiable(f + {ps})
  {
    hide HoldsS, HoldsC;
    forall tau ensures !HoldsF(tau, f + {ps})
    {
      assert HoldsF(tau, f + {ps}) ==> HoldsF(tau, f) && HoldsC(tau, ps);
    }
  }

  lemma SameAfterPropagation(ca: SDb, tr: seq<Lit>, tr': seq<Lit>)
    requires tr <= tr' && forall tau :: HoldsS(tau, ca, tr, -1) ==> HoldsS(tau, ca, tr', -1)
    ensures SameMeaning(ca, tr, ca, tr')
  {
    hide HoldsS;
    forall tau | HoldsS(tau, ca, tr', -1) ensures HoldsS(tau, ca, tr, -1)
    {
      HoldsPrefix(tau, ca, tr, tr', -1);
    }
  }

  // Eliminated variables stay so, and frozen ones are not eliminated.
  ghost predicate FrozenKept(was: seq<bool>, now: seq<bool>, frozen: seq<bool>)
  {
    |now| == |was| && forall v: nat :: v < |was| && (was[v] || (v < |frozen| && frozen[v])) ==> now[v] == was[v]
  }

  lemma FrozenSame(was: seq<bool>, frozen: seq<bool>)
    ensures FrozenKept(was, was, frozen)
  {
  }

  lemma FrozenTrans(a: seq<bool>, b: seq<bool>, c: seq<bool>, frozen: seq<bool>)
    requires FrozenKept(a, b, frozen) && FrozenKept(b, c, frozen)
    ensures FrozenKept(a, c, frozen)
  {
  }

  // ---- The redundancy check ----

  // The clause is the resolvent on `v` of two live clauses.
  ghost predicate HasParents(ca: SDb, r: seq<Lit>, v: int)
  {
    v >= 0 && exists p, q: CRef ::
      && Alive(ca, p) && Alive(ca, q) && DistinctVars(ca[p].lits) && DistinctVars(ca[q].lits)
      && Lit(v, false) in ca[p].lits && Lit(v, true) in ca[q].lits && Resolvent(r, ca[p].lits, ca[q].lits, v)
  }

  // Assuming a resolvent false and propagating to a fixpoint runs into a conflict
  // while both parents are there.
  lemma ParentsConflict(ca: SDb, m: PModel, r: seq<Lit>, v: int)
    requires HasParents(ca, r, v) && Saturated(m, ca)
    ensures !forall l :: l in r ==> Val(m, l) == LFalse
  {
    if forall l :: l in r ==> Val(m, l) == LFalse {
      var p, q: CRef :|
        && Alive(ca, p) && Alive(ca, q) && DistinctVars(ca[p].lits) && DistinctVars(ca[q].lits)
        && Lit(v, false) in ca[p].lits && Lit(v, true) in ca[q].lits && Resolvent(r, ca[p].lits, ca[q].lits, v);
      ResolventsLookImplied(m, r, ca[p].lits, ca[q].lits, Lit(v, false));
      if UnitOrFalse(m, ca[p].lits) {
        NotSaturated(m, ca[p].lits);
      } else {
        NotSaturated(m, ca[q].lits);
      }
    }
  }

  lemma NotSaturated(m: PModel, c: seq<Lit>)
    requires UnitOrFalse(m, c)
    ensures AllFalse(m, c) || Unit(m, c)
  {
    if !AllFalse(m, c) {
      var l :| l in c && Val(m, l) != LFalse;
      assert UnitIn(m, c, l);
    }
  }

  // A clause with literals left after dropping the false ones is neither true nor a
  // tautology.
  lemma NotTrivial(m: PModel, ps: seq<Lit>, c: seq<Lit>)
    requires Reduced(m, ps, c) && DistinctVars(c)
    ensures forall l :: l in ps ==> Val(m, l) != LTrue && Neg(l) !in ps
  {
    forall l | l in ps ensures Val(m, l) != LTrue && Neg(l) !in ps
    {
      if Neg(l) in ps {
        assert l in c && Neg(l) in c;
        NotTheVar(c, l, Neg(l));
      }
    }
  }

  lemma TheParents(ca: SDb, r: seq<Lit>, p: CRef, q: CRef, v: nat)
    requires Alive(ca, p) && Alive(ca, q) && DistinctVars(ca[p].lits) && DistinctVars(ca[q].lits)
    requires Lit(v, false) in ca[p].lits && Lit(v, true) in ca[q].lits && Resolvent(r, ca[p].lits, ca[q].lits, v)
    ensures HasParents(ca, r, v)
  {
    hide DistinctVars, Resolvent;
  }

  // The check accepts every resolvent that is not dropped for another reason.
  lemma ResolventImplied(ca: SDb, m: PModel, r: seq<Lit>, c: seq<Lit>, v: int)
    requires NotImplied(ca, m, r) && Reduced(m, r, c) && DistinctVars(c)
    ensures !HasParents(ca, r, v)
  {
    hide Saturated, HasParents;
    NotTrivial(m, r, c);
    if HasParents(ca, r, v) {
      var m' :| Saturated(m', ca) && forall l :: l in r ==> Val(m', l) == LFalse;
      ParentsConflict(ca, m', r, v);
    }
  }

  // Every resolvent of the two sides of `v` that is no tautology follows from the
  // trail and the clauses that do not mention `v`.
  ghost predicate ResolventsFollow(ca: SDb, tr: seq<Lit>, v: nat)
  {
    forall p, q :: p in Side(ca, Lit(v, false)) && q in Side(ca, Lit(v, true)) ==> Resolved(ca, tr, p, q, v, v)
  }

  // Whatever was added, if the resolvents followed before they follow now.
  lemma FollowStays(ca: SDb, tr: seq<Lit>, cb: SDb, tr': seq<Lit>, pos: seq<CRef>, neg: seq<CRef>, v: nat)
    requires ResolventsFollow(ca, tr, v) && Enriched(ca, tr, cb, tr', v) && SidesOk(ca, pos, neg, v)
    requires (forall cr :: cr in pos ==> cr in ca) && (forall cr :: cr in neg ==> cr in ca)
    ensures TableDone(cb, tr', LitsOf(ca, pos), |pos|, LitsOf(ca, neg), v)
  {
    hide HoldsS, Resolved, Preserved;
    var ps, qs := LitsOf(ca, pos), LitsOf(ca, neg);
    forall i, j | 0 <= i < |pos| && 0 <= j < |neg| ensures Resolved(cb, tr', ps[i], qs[j], v, v)
    {
      assert pos[i] in pos && neg[j] in neg;
      assert ps[i] in Side(ca, Lit(v, false)) && qs[j] in Side(ca, Lit(v, true));
      ResolvedLater(ca, tr, cb, tr', ps[i], qs[j], v, v, v);
    }
  }

  // A walk that changes only `v` cannot restore both sides unless the resolvents
  // follow from what is left.
  lemma RestoringMeansFollowing(ca: SDb, tr: seq<Lit>, cb: SDb, tr': seq<Lit>, eliminated: seq<bool>, v: nat,
      top: seq<Record>)
    requires SDbOk(ca, eliminated, -1) && v < |eliminated| && SDbOk(cb, eliminated[v := true], -1)
    requires RecordsOk(top, |eliminated|) && forall r: Record :: r in top ==> r[0].v == v
    requires forall l :: l in tr' ==> l.v < |eliminated|
    requires forall tau :: HoldsS(tau, cb, tr', -1) <==> HoldsS(tau, ca, tr, v)
    requires Restores(ca, tr, cb, tr', eliminated, v, top)
    ensures ResolventsFollow(ca, tr, v)
  {
    hide HoldsS, Restores, Extend, SDbOk, RecordsOk, Side;
    forall p, q | p in Side(ca, Lit(v, false)) && q in Side(ca, Lit(v, true)) ensures Resolved(ca, tr, p, q, v, v)
    {
      SidesDistinct(ca, eliminated, p, q, v);
      if !Clash(p, q, v) {
        var r := SomeResolvent(p, q, v);
        forall tau | HoldsS(tau, ca, tr, v) ensures HoldsC(tau, r)
        {
          RestoredResolvent(tau, ca, tr, cb, tr', eliminated, v, top, p, q, r);
        }
        assert Follows(ca, tr, r, v);
      }
    }
  }

  // With every resolvent dropped, storing one side and the default for the other
  // restores the clauses exactly if the resolvents followed from the clauses without
  // the variable.
  lemma DroppedResolvents(ca: SDb, tr: seq<Lit>, cb: SDb, tr': seq<Lit>, eliminated: seq<bool>, side: seq<Record>,
      d: Lit)
    requires SDbOk(ca, eliminated, -1) && d.v < |eliminated| && !eliminated[d.v]
    requires SDbOk(cb, eliminated[d.v := true], -1) && forall l :: l in tr' ==> l.v < |eliminated|
    requires forall l :: l in tr ==> l in tr' && l.v != d.v
    requires StoresSide(side, Side(ca, d), d) && RecordsOk(side, |eliminated|)
    requires forall tau :: HoldsS(tau, cb, tr', -1) <==> HoldsS(tau, ca, tr, d.v)
    ensures RecordsOk(side + [[Neg(d)]], |eliminated|)
    ensures Restores(ca, tr, cb, tr', eliminated, d.v, side + [[Neg(d)]]) <==> ResolventsFollow(ca, tr, d.v)
  {
    var top := side + [[Neg(d)]];
    HeadsOfVar(side, d, ca, |eliminated|);
    hide SDbOk, StoresSide, HoldsS, Restores, Resolved, Side, RecordsOk;
    if ResolventsFollow(ca, tr, d.v) {
      forall p, q | p in Side(ca, d) && q in Side(ca, Neg(d)) ensures Resolved(cb, tr', p, q, d.v, -1)
      {
        if d.s {
          ResolvedLater(ca, tr, cb, tr', q, p, d.v, d.v, -1);
          ResolvedSym(cb, tr', q, p, d.v, -1);
        } else {
          ResolvedLater(ca, tr, cb, tr', p, q, d.v, d.v, -1);
        }
      }
      ElimRestores(ca, tr, cb, tr', eliminated, side, d);
    }
    if Restores(ca, tr, cb, tr', eliminated, d.v, top) {
      RestoringMeansFollowing(ca, tr, cb, tr', eliminated, d.v, top);
    }
  }

  lemma HeadsOfVar(side: seq<Record>, d: Lit, ca: SDb, n: nat)
    requires StoresSide(side, Side(ca, d), d) && RecordsOk(side, n) && d.v < n
    ensures RecordsOk(side + [[Neg(d)]], n) && forall r: Record :: r in side + [[Neg(d)]] ==> r[0].v == d.v
  {
  }

  lemma SidesDistinct(ca: SDb, eliminated: seq<bool>, p: seq<Lit>, q: seq<Lit>, v: nat)
    requires SDbOk(ca, eliminated, -1) && p in Side(ca, Lit(v, false)) && q in Side(ca, Lit(v, true))
    ensures DistinctVars(p) && DistinctVars(q) && Lit(v, false) in p && Lit(v, true) in q && HasVar(p, v)
    ensures VarsBelow(p, |eliminated|) && VarsBelow(q, |eliminated|)
  {
    hide HashOf;
    var pr :| pr in ca && Alive(ca, pr) && Lit(v, false) in ca[pr].lits && ca[pr].lits == p;
    var qr :| qr in ca && Alive(ca, qr) && Lit(v, true) in ca[qr].lits && ca[qr].lits == q;
    assert ClauseOk(ca[pr], eliminated, -1) && ClauseOk(ca[qr], eliminated, -1);
  }

  lemma RestoredResolvent(tau: Model, ca: SDb, tr: seq<Lit>, cb: SDb, tr': seq<Lit>, eliminated: seq<bool>, v: nat,
      top: seq<Record>, p: seq<Lit>, q: seq<Lit>, r: seq<Lit>)
    requires v < |eliminated| && SDbOk(cb, eliminated[v := true], -1) && (forall l :: l in tr' ==> l.v < |eliminated|)
    requires RecordsOk(top, |eliminated|) && (forall c: Record :: c in top ==> c[0].v == v)
    requires HoldsS(tau, cb, tr', -1) && Restores(ca, tr, cb, tr', eliminated, v, top)
    requires p in Side(ca, Lit(v, false)) && q in Side(ca, Lit(v, true)) && Resolvent(r, p, q, v)
    requires DistinctVars(p) && DistinctVars(q) && Lit(v, false) in p && Lit(v, true) in q
    requires VarsBelow(p, |eliminated|) && VarsBelow(q, |eliminated|)
    ensures HoldsC(tau, r)
  {
    hide HoldsS, SDbOk;
    var n := |eliminated|;
    var m := ModelOf(tau, n);
    ModelSat(tau, cb, tr', eliminated[v := true]);
    var w := Extend(m, top);
    OnlyThatVar(m, top, v);
    assert SatS(w, ca, tr);
    assert SatC(w, p) && SatC(w, q);
    hide SatS, Side, Extend, RecordsOk, Restores;
    SatTotal(w, p);
    SatTotal(w, q);
    ResolventSound(Total(w), r, p, q, v, Lit(v, false));
    var l :| l in r && HoldsL(Total(w), l);
    assert l.v < n && l.v != v;
    assert HoldsL(tau, l);
  }

  // Records for `v` change only `v`.
  lemma {:induction false} OnlyThatVar(m: PModel, rs: seq<Record>, v: nat)
    requires RecordsOk(rs, |m|) && forall r: Record :: r in rs ==> r[0].v == v
    ensures forall u: nat :: u < |m| && u != v ==> Extend(m, rs)[u] == m[u]
    decreases |rs|
  {
    if rs != [] {
      var r := rs[|rs| - 1];
      assert r in rs && r[0] in r;
      OnlyThatVar(Applied(m, r), rs[..|rs| - 1], v);
    }
  }
}
