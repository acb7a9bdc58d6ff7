// Why models of the preprocessed clauses can be turned into models of the
// original formula, and why every step of preprocessing keeps that.
module Recovery {
  import opened SolverTypes
  import opened Elimination
  import opened Resolution
  import opened ClauseLists

  // Every variable that was not eliminated has a value.
  ghost predicate Complete(m: PModel, eliminated: seq<bool>)
  {
    |m| == |eliminated| && forall v: nat :: v < |m| && !eliminated[v] ==> m[v] != LUndef
  }

  ghost predicate SatS(m: PModel, ca: SDb, trail: seq<Lit>)
  {
    && (forall l :: l in trail ==> Val(m, l) == LTrue)
    && (forall cr: CRef :: Alive(ca, cr) ==> SatC(m, ca[cr].lits))
  }

  ghost predicate RecordsFor(rs: seq<Record>, eliminated: seq<bool>)
  {
    forall r: Record :: r in rs ==> |r| > 0 && VarsBelow(r, |eliminated|) && r[0].v < |eliminated| && eliminated[r[0].v]
  }

  lemma RecordsForOk(rs: seq<Record>, eliminated: seq<bool>)
    requires RecordsFor(rs, eliminated)
    ensures RecordsOk(rs, |eliminated|)
  {
  }

  // Walking the records over any complete model of the current clauses and trail
  // yields a model of `f`.
  ghost predicate Recoverable(ca: SDb, trail: seq<Lit>, eliminated: seq<bool>, rs: seq<Record>, f: set<seq<Lit>>)
  {
    && RecordsOk(rs, |eliminated|)
    && forall m | Complete(m, eliminated) && SatS(m, ca, trail) :: SatF(Extend(m, rs), f)
  }

  // Every model of `f` satisfies the current clauses and trail.
  ghost predicate Sound(f: set<seq<Lit>>, ca: SDb, trail: seq<Lit>)
  {
    forall tau :: HoldsF(tau, f) ==> HoldsS(tau, ca, trail, -1)
  }

  ghost function Total(m: PModel): Model
  {
    iset v: nat | v < |m| && m[v] == LTrue
  }

  lemma SatTotal(m: PModel, c: seq<Lit>)
    requires SatC(m, c)
    ensures HoldsC(Total(m), c)
  {
    var l :| l in c && Val(m, l) == LTrue;
    assert HoldsL(Total(m), l);
  }

  lemma SatSTotal(m: PModel, ca: SDb, trail: seq<Lit>, v: int)
    requires SatS(m, ca, trail)
    ensures HoldsS(Total(m), ca, trail, v)
  {
    hide SatC, HoldsC;
    forall l | l in trail ensures HoldsL(Total(m), l)
    {
      assert Val(m, l) == LTrue;
    }
    forall cr: CRef | Alive(ca, cr) ensures HoldsC(Total(m), ca[cr].lits)
    {
      SatTotal(m, ca[cr].lits);
    }
  }

  lemma TotalSat(m: PModel, eliminated: seq<bool>, c: seq<Lit>, x: int)
    requires Complete(m, eliminated) && Kept(c, eliminated, x) && !Mentions(c, x)
    requires HoldsC(Total(m), c)
    ensures SatC(m, c)
  {
    var l :| l in c && HoldsL(Total(m), l);
    assert Val(m, l) == LTrue;
  }

  lemma NeverMentioned(c: seq<Lit>)
    ensures !Mentions(c, -1)
  {
  }

  // Equivalence of the clauses carries over to complete models.
  lemma RecoverStep(ca: SDb, trail: seq<Lit>, cb: SDb, trail': seq<Lit>, eliminated: seq<bool>, rs: seq<Record>,
      f: set<seq<Lit>>)
    requires SDbOk(ca, eliminated, -1) && Recoverable(ca, trail, eliminated, rs, f)
    requires forall l :: l in trail ==> l in trail'
    requires forall tau :: HoldsS(tau, cb, trail', -1) ==> HoldsS(tau, ca, trail, -1)
    ensures Recoverable(cb, trail', eliminated, rs, f)
  {
    hide SatS, HoldsS, SDbOk, SatF, Extend, RecordsOk;
    forall m | Complete(m, eliminated) && SatS(m, cb, trail') ensures SatS(m, ca, trail)
    {
      SatBack(m, ca, trail, cb, trail', eliminated);
    }
  }

  // A complete model of clauses that imply others is a model of those.
  lemma SatBack(m: PModel, ca: SDb, trail: seq<Lit>, cb: SDb, trail': seq<Lit>, eliminated: seq<bool>)
    requires SDbOk(ca, eliminated, -1) && Complete(m, eliminated) && SatS(m, cb, trail')
    requires forall l :: l in trail ==> l in trail'
    requires forall tau :: HoldsS(tau, cb, trail', -1) ==> HoldsS(tau, ca, trail, -1)
    ensures SatS(m, ca, trail)
  {
    hide SatC, HoldsC, Kept, HashOf;
    SatSTotal(m, cb, trail', -1);
    assert HoldsS(Total(m), ca, trail, -1);
    forall cr: CRef | Alive(ca, cr) ensures SatC(m, ca[cr].lits)
    {
      NeverMentioned(ca[cr].lits);
      assert ClauseOk(ca[cr], eliminated, -1);
      TotalSat(m, eliminated, ca[cr].lits, -1);
    }
  }

  // The walk only touches eliminated variables.
  lemma {:induction false} ExtendKeeps(m: PModel, rs: seq<Record>, eliminated: seq<bool>)
    requires |m| == |eliminated| && RecordsFor(rs, eliminated)
    ensures RecordsOk(rs, |m|)
    ensures forall v: nat :: v < |m| && !eliminated[v] ==> Extend(m, rs)[v] == m[v]
    decreases |rs|
  {
    if rs != [] {
      var r := rs[|rs| - 1];
      assert r in rs;
      ExtendKeeps(Applied(m, r), rs[..|rs| - 1], eliminated);
    }
  }

  // A new original clause over variables not yet eliminated.
  lemma RecoverNewClause(ca: SDb, trail: seq<Lit>, cb: SDb, trail': seq<Lit>, eliminated: seq<bool>, rs: seq<Record>,
      f: set<seq<Lit>>, ps: seq<Lit>)
    requires SDbOk(ca, eliminated, -1) && Recoverable(ca, trail, eliminated, rs, f) && RecordsFor(rs, eliminated)
    requires Kept(ps, eliminated, -1) && forall l :: l in trail ==> l in trail'
    requires forall tau :: HoldsS(tau, cb, trail', -1) ==> HoldsS(tau, ca, trail, -1) && HoldsC(tau, ps)
    ensures Recoverable(cb, trail', eliminated, rs, f + {ps})
  {
    hide SatC, HoldsC, Kept, SDbOk, Extend, RecordsOk;
    RecoverStep(ca, trail, cb, trail', eliminated, rs, f);
    forall m | Complete(m, eliminated) && SatS(m, cb, trail') ensures SatC(Extend(m, rs), ps)
    {
      SatSTotal(m, cb, trail', -1);
      NeverMentioned(ps);
      TotalSat(m, eliminated, ps, -1);
      ExtendKeeps(m, rs, eliminated);
      KeptSat(m, Extend(m, rs), eliminated, ps);
    }
  }

  lemma KeptSat(m: PModel, r: PModel, eliminated: seq<bool>, c: seq<Lit>)
    requires SatC(m, c) && Kept(c, eliminated, -1) && |r| == |m| == |eliminated|
    requires forall v: nat :: v < |m| && !eliminated[v] ==> r[v] == m[v]
    ensures SatC(r, c)
  {
    var l :| l in c && Val(m, l) == LTrue;
    assert Val(r, l) == LTrue;
  }

  // ---- Eliminating one variable ----

  ghost function Side(ca: SDb, d: Lit): set<seq<Lit>>
  {
    set cr | cr in ca && Alive(ca, cr) && d in ca[cr].lits :: ca[cr].lits
  }

  // The resolvent of `p` and `q` on `v` is a tautology or follows from the
  // clauses without `w` and the trail.
  ghost predicate Resolved(ca: SDb, trail: seq<Lit>, p: seq<Lit>, q: seq<Lit>, v: nat, w: int)
  {
    Clash(p, q, v) || exists r :: Resolvent(r, p, q, v) && Follows(ca, trail, r, w)
  }

  ghost predicate Follows(ca: SDb, trail: seq<Lit>, r: seq<Lit>, w: int)
  {
    forall tau :: HoldsS(tau, ca, trail, w) ==> HoldsC(tau, r)
  }

  lemma ResolvedLater(ca: SDb, trail: seq<Lit>, cb: SDb, trail': seq<Lit>, p: seq<Lit>, q: seq<Lit>, v: nat, w: int,
      w': int)
    requires Resolved(ca, trail, p, q, v, w)
    requires forall tau :: HoldsS(tau, cb, trail', w') ==> HoldsS(tau, ca, trail, w)
    ensures Resolved(cb, trail', p, q, v, w')
  {
    hide HoldsS, HoldsC, Clash, Resolvent;
    if !Clash(p, q, v) {
      var r :| Resolvent(r, p, q, v) && Follows(ca, trail, r, w);
      assert Follows(cb, trail', r, w');
    }
  }

  lemma ResolvedHolds(m: PModel, ca: SDb, trail: seq<Lit>, eliminated: seq<bool>, p: seq<Lit>, q: seq<Lit>, v: nat)
    requires Resolved(ca, trail, p, q, v, -1) && SatS(m, ca, trail)
    requires DefinedBut(m, p, v) && DefinedBut(m, q, v)
    ensures ResolventHolds(m, p, q, v)
  {
    hide SatS, HoldsS;
    SatSTotal(m, ca, trail, -1);
    if Clash(p, q, v) {
      var l :| l in p && Neg(l) in q && l.v != v;
      assert Val(m, l) == LTrue || Val(m, Neg(l)) == LTrue;
    } else {
      var r :| Resolvent(r, p, q, v) && Follows(ca, trail, r, -1);
      var l :| l in r && HoldsL(Total(m), l);
      assert Val(m, l) == LTrue;
    }
  }

  lemma CompleteDefines(m: PModel, eliminated: seq<bool>, c: seq<Lit>, v: nat)
    requires v < |eliminated| && Complete(m, eliminated[v := true]) && Kept(c, eliminated, -1)
    ensures DefinedBut(m, c, v)
  {
  }

  // A model of what remains after eliminating `d.v`, walked over the stored side
  // and the default, satisfies the clauses there were before.
  lemma WalkRestores(ca: SDb, trail: seq<Lit>, cb: SDb, trail': seq<Lit>, eliminated: seq<bool>, side: seq<Record>,
      d: Lit, m: PModel)
    requires SDbOk(ca, eliminated, -1) && d.v < |eliminated| && !eliminated[d.v]
    requires (forall l :: l in trail ==> l in trail' && l.v != d.v) && RecordsOk(side, |eliminated|)
    requires StoresSide(side, Side(ca, d), d)
    requires forall tau :: HoldsS(tau, cb, trail', -1) ==> HoldsS(tau, ca, trail, d.v)
    requires forall p, q :: p in Side(ca, d) && q in Side(ca, Neg(d)) ==> Resolved(cb, trail', p, q, d.v, -1)
    requires Complete(m, eliminated[d.v := true]) && SatS(m, cb, trail')
    ensures RecordsOk(side + [[Neg(d)]], |m|)
    ensures Complete(Extend(m, side + [[Neg(d)]]), eliminated)
    ensures SatS(Extend(m, side + [[Neg(d)]]), ca, trail)
  {
    hide SDbOk, StoresSide, Side, Resolved, HoldsS, RecordsOk, Extend, SatC, Alive, DefinedBut, ResolventHolds;
    SidesDefined(ca, eliminated, d, m);
    SidesResolve(ca, cb, trail', eliminated, d, m);
    EliminationExtends(m, side, d, Side(ca, d), Side(ca, Neg(d)));
    var r := Extend(m, side + [[Neg(d)]]);
    StillHold(ca, trail, cb, trail', d.v, m);
    RestoredClauses(ca, trail, eliminated, d, m, r);
    forall l | l in trail ensures Val(r, l) == LTrue
    {
      SetsOnlyVal(m, r, d.v, l);
    }
  }

  lemma StillHold(ca: SDb, trail: seq<Lit>, cb: SDb, trail': seq<Lit>, v: nat, m: PModel)
    requires SatS(m, cb, trail') && forall tau :: HoldsS(tau, cb, trail', -1) ==> HoldsS(tau, ca, trail, v)
    ensures HoldsS(Total(m), ca, trail, v)
  {
    hide SatS, HoldsS;
    SatSTotal(m, cb, trail', -1);
  }

  lemma SidesDefined(ca: SDb, eliminated: seq<bool>, d: Lit, m: PModel)
    requires SDbOk(ca, eliminated, -1) && d.v < |eliminated| && Complete(m, eliminated[d.v := true])
    ensures forall c :: c in Side(ca, d) || c in Side(ca, Neg(d)) ==> DefinedBut(m, c, d.v)
    ensures forall c :: c in Side(ca, d) ==> d in c
    ensures forall c :: c in Side(ca, Neg(d)) ==> Neg(d) in c
  {
    hide Complete, Kept, DefinedBut, HashOf;
    forall c | c in Side(ca, d) || c in Side(ca, Neg(d)) ensures DefinedBut(m, c, d.v)
    {
      var cr :| cr in ca && Alive(ca, cr) && ca[cr].lits == c;
      assert ClauseOk(ca[cr], eliminated, -1);
      CompleteDefines(m, eliminated, c, d.v);
    }
  }

  lemma SidesResolve(ca: SDb, cb: SDb, trail': seq<Lit>, eliminated: seq<bool>, d: Lit, m: PModel)
    requires SatS(m, cb, trail')
    requires forall c :: c in Side(ca, d) || c in Side(ca, Neg(d)) ==> DefinedBut(m, c, d.v)
    requires forall p, q :: p in Side(ca, d) && q in Side(ca, Neg(d)) ==> Resolved(cb, trail', p, q, d.v, -1)
    ensures forall p, q :: p in Side(ca, d) && q in Side(ca, Neg(d)) ==> ResolventHolds(m, p, q, d.v)
  {
    hide Side, DefinedBut, Resolved, ResolventHolds, SatS;
    forall p, q | p in Side(ca, d) && q in Side(ca, Neg(d)) ensures ResolventHolds(m, p, q, d.v)
    {
      ResolvedHolds(m, cb, trail', eliminated, p, q, d.v);
    }
  }

  lemma RestoredClauses(ca: SDb, trail: seq<Lit>, eliminated: seq<bool>, d: Lit, m: PModel, r: PModel)
    requires SDbOk(ca, eliminated, -1) && d.v < |eliminated| && Complete(m, eliminated[d.v := true])
    requires HoldsS(Total(m), ca, trail, d.v) && SetsOnly(m, r, d.v)
    requires forall c :: c in Side(ca, d) || c in Side(ca, Neg(d)) ==> SatC(r, c)
    ensures forall cr: CRef :: Alive(ca, cr) ==> SatC(r, ca[cr].lits)
  {
    hide SatC, HashOf, Complete, SetsOnly;
    forall cr: CRef | Alive(ca, cr) ensures SatC(r, ca[cr].lits)
    {
      var c := ca[cr].lits;
      assert ClauseOk(ca[cr], eliminated, -1);
      if Mentions(c, d.v) {
        var l :| l in c && l.v == d.v;
        assert l == d || l == Neg(d);
        assert c in Side(ca, l);
      } else {
        hide HoldsC;
        KeptStill(c, eliminated, d.v);
        TotalSat(m, eliminated[d.v := true], c, d.v);
        UntouchedSat(m, r, d.v, c);
      }
    }
  }

  lemma KeptStill(c: seq<Lit>, eliminated: seq<bool>, v: nat)
    requires v < |eliminated| && Kept(c, eliminated, -1)
    ensures Kept(c, eliminated[v := true], v)
  {
  }

  lemma UntouchedSat(m: PModel, r: PModel, v: nat, c: seq<Lit>)
    requires SatC(m, c) && SetsOnly(m, r, v) && !Mentions(c, v)
    ensures SatC(r, c)
  {
    var l :| l in c && Val(m, l) == LTrue;
    SetsOnlyVal(m, r, v, l);
  }

  // The walk over the records `top` turns any complete model of the clauses left
  // after eliminating `v` into one of the clauses there were before.
  ghost predicate Restores(ca: SDb, trail: seq<Lit>, cb: SDb, trail': seq<Lit>, eliminated: seq<bool>, v: nat,
      top: seq<Record>)
    requires v < |eliminated| && RecordsOk(top, |eliminated|)
  {
    forall m | Complete(m, eliminated[v := true]) && SatS(m, cb, trail') ::
      Complete(Extend(m, top), eliminated) && SatS(Extend(m, top), ca, trail)
  }

  // It does if one side and the default for the other are stored, and every
  // resolvent is a tautology or follows from what is left.
  lemma ElimRestores(ca: SDb, trail: seq<Lit>, cb: SDb, trail': seq<Lit>, eliminated: seq<bool>, side: seq<Record>,
      d: Lit)
    requires SDbOk(ca, eliminated, -1) && d.v < |eliminated| && !eliminated[d.v]
    requires (forall l :: l in trail ==> l in trail' && l.v != d.v) && RecordsOk(side, |eliminated|)
    requires StoresSide(side, Side(ca, d), d)
    requires forall tau :: HoldsS(tau, cb, trail', -1) ==> HoldsS(tau, ca, trail, d.v)
    requires forall p, q :: p in Side(ca, d) && q in Side(ca, Neg(d)) ==> Resolved(cb, trail', p, q, d.v, -1)
    ensures RecordsOk(side + [[Neg(d)]], |eliminated|)
    ensures Restores(ca, trail, cb, trail', eliminated, d.v, side + [[Neg(d)]])
  {
    hide SDbOk, StoresSide, Resolved, SatS, HoldsS, Side, Extend;
    var top := side + [[Neg(d)]];
    assert RecordsOk(top, |eliminated|);
    forall m | Complete(m, eliminated[d.v := true]) && SatS(m, cb, trail')
      ensures Complete(Extend(m, top), eliminated) && SatS(Extend(m, top), ca, trail)
    {
      WalkRestores(ca, trail, cb, trail', eliminated, side, d, m);
    }
  }

  // A walk that restores the clauses can be put on top of the walks before.
  lemma RecoverElim(ca: SDb, trail: seq<Lit>, cb: SDb, trail': seq<Lit>, eliminated: seq<bool>, v: nat,
      top: seq<Record>, rs: seq<Record>, f: set<seq<Lit>>)
    requires v < |eliminated| && RecordsOk(top, |eliminated|)
    requires Restores(ca, trail, cb, trail', eliminated, v, top) && Recoverable(ca, trail, eliminated, rs, f)
    ensures Recoverable(cb, trail', eliminated[v := true], rs + top, f)
  {
    hide SatS, SatF, Extend;
    assert RecordsOk(rs + top, |eliminated|);
    forall m | Complete(m, eliminated[v := true]) && SatS(m, cb, trail') ensures SatF(Extend(m, rs + top), f)
    {
      ExtendAppend(m, rs, top);
    }
  }

  // Restoring only depends on what the clauses left over mean.
  lemma RestoresLater(ca: SDb, trail: seq<Lit>, cb: SDb, trail': seq<Lit>, cc: SDb, trail'': seq<Lit>,
      eliminated: seq<bool>, v: nat, top: seq<Record>)
    requires v < |eliminated| && RecordsOk(top, |eliminated|)
    requires SDbOk(cb, eliminated[v := true], -1) && forall l :: l in trail' ==> l in trail''
    requires forall tau :: HoldsS(tau, cc, trail'', -1) ==> HoldsS(tau, cb, trail', -1)
    requires Restores(ca, trail, cb, trail', eliminated, v, top)
    ensures Restores(ca, trail, cc, trail'', eliminated, v, top)
  {
    hide SatS, HoldsS, SDbOk, Extend, RecordsOk, Complete;
    forall m | Complete(m, eliminated[v := true]) && SatS(m, cc, trail'') ensures SatS(m, cb, trail')
    {
      SatBack(m, cb, trail', cc, trail'', eliminated[v := true]);
    }
  }

  // ---- Equisatisfiability ----

  ghost function ModelOf(tau: Model, n: nat): (m: PModel)
    ensures |m| == n
  {
    seq(n, i => if i in tau then LTrue else LFalse)
  }

  // What remains is satisfiable exactly if the original formula is.
  lemma SameSatisfiability(f: set<seq<Lit>>, ca: SDb, trail: seq<Lit>, eliminated: seq<bool>, rs: seq<Record>)
    requires Sound(f, ca, trail) && Recoverable(ca, trail, eliminated, rs, f) && SDbOk(ca, eliminated, -1)
    requires forall l :: l in trail ==> l.v < |eliminated|
    ensures Satisfiable(f) <==> exists tau :: HoldsS(tau, ca, trail, -1)
  {
    if tau :| HoldsS(tau, ca, trail, -1) {
      var m := ModelOf(tau, |eliminated|);
      ModelSat(tau, ca, trail, eliminated);
      var r := Extend(m, rs);
      assert SatF(r, f);
      forall c | c in f ensures HoldsC(Total(r), c)
      {
        SatTotal(r, c);
      }
      assert HoldsF(Total(r), f);
    }
  }

  lemma ModelSat(tau: Model, ca: SDb, trail: seq<Lit>, eliminated: seq<bool>)
    requires HoldsS(tau, ca, trail, -1) && SDbOk(ca, eliminated, -1)
    requires forall l :: l in trail ==> l.v < |eliminated|
    ensures Complete(ModelOf(tau, |eliminated|), eliminated)
    ensures SatS(ModelOf(tau, |eliminated|), ca, trail)
  {
    hide HashOf;
    var m := ModelOf(tau, |eliminated|);
    forall l: Lit | l.v < |eliminated| && HoldsL(tau, l) ensures Val(m, l) == LTrue
    {
    }
    forall cr: CRef | Alive(ca, cr) ensures SatC(m, ca[cr].lits)
    {
      NeverMentioned(ca[cr].lits);
      assert ClauseOk(ca[cr], eliminated, -1);
      var l :| l in ca[cr].lits && HoldsL(tau, l);
    }
  }

  // ---- The redundancy check ----

  // No literal of `c` is true, and at most one is not false.
  ghost predicate UnitOrFalse(m: PModel, c: seq<Lit>)
  {
    && (forall l :: l in c ==> Val(m, l) != LTrue)
    && (forall k, l :: k in c && l in c && Val(m, k) == LUndef && Val(m, l) == LUndef ==> k == l)
  }

  // Unit propagation that has falsified a whole resolvent always has its parents
  // to work on: it can only stop at a conflict. So the check that a clause is
  // already implied accepts every resolvent while its parents are still there.
  lemma ResolventsLookImplied(m: PModel, r: seq<Lit>, p: seq<Lit>, q: seq<Lit>, d: Lit)
    requires Resolvent(r, p, q, d.v) && d in p && Neg(d) in q && DistinctVars(p) && DistinctVars(q)
    requires forall l :: l in r ==> Val(m, l) == LFalse
    ensures UnitOrFalse(m, p) || UnitOrFalse(m, q)
  {
    forall l | l in p && l != d ensures Val(m, l) == LFalse
    {
      NotTheVar(p, d, l);
      assert l in r;
    }
    forall l | l in q && l != Neg(d) ensures Val(m, l) == LFalse
    {
      NotTheVar(q, Neg(d), l);
      assert l in r;
    }
  }
}
