// A formula on which elimination with the check for implied clauses loses models:
// two clauses with one variable in common, which neither subsumption nor
// strengthening touches.
module RedundancyCheck {
  import opened SolverTypes
  import opened Vectors
  import opened Elimination
  import opened Resolution
  import opened ClauseLists
  import opened Recovery
  import opened PreprocessingSteps
  import opened EliminationSteps
  import opened Preprocessing

  const FIRST: seq<Lit> := [Lit(0, false), Lit(1, false), Lit(2, false)]
  const SECOND: seq<Lit> := [Lit(0, true), Lit(3, false), Lit(4, false)]

  lemma TheLiterals()
    ensures forall l :: l in FIRST <==> l == Lit(0, false) || l == Lit(1, false) || l == Lit(2, false)
    ensures forall l :: l in SECOND <==> l == Lit(0, true) || l == Lit(3, false) || l == Lit(4, false)
    ensures DistinctVars(FIRST) && DistinctVars(SECOND)
  {
    assert FIRST[0] in FIRST && FIRST[1] in FIRST && FIRST[2] in FIRST;
    assert SECOND[0] in SECOND && SECOND[1] in SECOND && SECOND[2] in SECOND;
  }

  // Neither clause subsumes or strengthens the other.
  lemma NothingToSubsume(p: Lit)
    ensures !Subset(FIRST, SECOND) && !Subset(SECOND, FIRST)
    ensures !SubsetFlipping(FIRST, SECOND, p) && !SubsetFlipping(SECOND, FIRST, p)
  {
    TheLiterals();
    assert Lit(1, false) in FIRST && Lit(2, false) in FIRST && Lit(3, false) in SECOND && Lit(4, false) in SECOND;
  }

  // The live clauses are the two, under `c` and `d`, in any order of literals.
  ghost predicate TheTwo(ca: SDb, c: CRef, d: CRef)
  {
    && c != d && Alive(ca, c) && Alive(ca, d) && (forall cr: CRef :: Alive(ca, cr) ==> cr == c || cr == d)
    && SameLits(FIRST, ca[c].lits) && SameLits(SECOND, ca[d].lits)
  }

  lemma TwoStored(ca: SDb, c: CRef, cb: SDb, d: CRef, cc: SDb)
    requires ca.Keys == {TmpUnit} && c > TmpUnit && d > TmpUnit && forall cr :: cr in cb ==> cr < d
    requires Stores(ca, c, cb, FIRST) && Stores(cb, d, cc, SECOND)
    ensures TheTwo(cc, c, d)
  {
    hide SameLits;
    assert Alive(cb, c) && Alive(cc, d);
    assert c < d && cc[c] == cb[c];
    forall cr: CRef | Alive(cc, cr) ensures cr == c || cr == d
    {
      if cr != d {
        assert Alive(cb, cr);
      }
    }
  }

  lemma TheSides(ca: SDb, c: CRef, d: CRef, pos: seq<CRef>, neg: seq<CRef>)
    requires TheTwo(ca, c, d) && SidesOk(ca, pos, neg, 0) && NoRepeats(pos) && NoRepeats(neg)
    ensures pos == [c] && neg == [d]
  {
    TheLiterals();
    assert c in pos && d in neg;
    OnlyOne(pos, c);
    OnlyOne(neg, d);
  }

  lemma OnlyOne(s: seq<CRef>, c: CRef)
    requires NoRepeats(s) && c in s && forall x :: x in s ==> x == c
    ensures s == [c]
  {
    hide NoRepeats;
    forall i | 0 <= i < |s| ensures s[i] == c
    {
      assert s[i] in s;
    }
    if |s| > 1 {
      FirstTwo(s);
    }
  }

  lemma FirstTwo(s: seq<CRef>)
    requires NoRepeats(s) && |s| > 1
    ensures s[0] != s[1]
  {
  }

  // Variable 0 may be eliminated within the limits the source starts with.
  lemma WithinLimits(ca: SDb, c: CRef, d: CRef, eliminated: bool)
    requires TheTwo(ca, c, d) && EliminationLimits(ca, 0, 0, 20, eliminated)
    ensures eliminated
  {
    hide TheTwo, SidesOk, NoRepeats, Clash, Resolvent, TableCount, SameLits, LitsOf;
    var pos: seq<CRef>, neg: seq<CRef> :| LimitsFor(ca, 0, pos, neg, 0, 20, eliminated);
    TheSides(ca, c, d, pos, neg);
    var ps, qs := LitsOf(ca, pos), LitsOf(ca, neg);
    TheirLits(ca, c, d);
    OneCell(ps, qs);
    forall r | Resolvent(r, ps[0], qs[0], 0) ensures |r| <= 20
    {
      ShortResolvent(r, ps[0], qs[0]);
    }
  }

  lemma TheirLits(ca: SDb, c: CRef, d: CRef)
    requires TheTwo(ca, c, d)
    ensures c in ca && SameLits(FIRST, LitsOf(ca, [c])[0])
    ensures d in ca && SameLits(SECOND, LitsOf(ca, [d])[0])
  {
  }

  lemma OneCell(ps: seq<seq<Lit>>, qs: seq<seq<Lit>>)
    requires |ps| == |qs| == 1
    ensures TableCount(ps, qs, 0) <= 1
  {
    hide Clash;
    assert ps[..0] == [] && qs[..0] == [];
    assert RowCount(ps[0], [], 0) == 0 && TableCount([], qs, 0) == 0;
    assert RowCount(ps[0], qs, 0) <= 1;
  }

  lemma ShortResolvent(r: seq<Lit>, p: seq<Lit>, q: seq<Lit>)
    requires Resolvent(r, p, q, 0) && SameLits(FIRST, p) && SameLits(SECOND, q)
    ensures |r| <= 4
  {
    TheLiterals();
    VarSetSize(r);
    forall x | x in VarsOf(r) ensures x in {1, 2, 3, 4}
    {
      var k :| 0 <= k < |r| && r[k].v == x;
      assert r[k] in r;
    }
    Sets.SubsetSize(VarsOf(r), {1, 2, 3, 4});
  }

  // No variable is true.
  ghost function AllFalseModel(): Model
  {
    iset{}
  }

  lemma NothingFollows(ca: SDb, c: seq<Lit>)
    requires (forall cr: CRef :: Alive(ca, cr) ==> SameLits(FIRST, ca[cr].lits))
    requires c == FIRST ==> forall cr: CRef :: !Alive(ca, cr)
    requires c == FIRST || c == SECOND
    ensures !FollowsAll(ca, [], c)
  {
    TheLiterals();
    var tau: Model := if c == FIRST then iset{} else iset{0, 1};
    forall cr: CRef | Alive(ca, cr) ensures HoldsC(tau, ca[cr].lits)
    {
      assert Lit(1, false) in ca[cr].lits && HoldsL(tau, Lit(1, false));
    }
    assert HoldsS(tau, ca, [], -1) && !HoldsC(tau, c);
  }

  // The walk over the records, from all variables false: the default makes variable 0
  // false, the stored first clause makes it true again, and the second clause is lost.
  lemma SecondClauseLost(ca: SDb, c: CRef, d: CRef, top: seq<Record>, m: PModel)
    requires TheTwo(ca, c, d) && StoresSmaller(ca, 0, top) && m == ModelOf(AllFalseModel(), 5)
    requires RecordsOk(top, 5)
    ensures Extend(m, top) == m[0 := LTrue]
    ensures !SatC(Extend(m, top), SECOND)
  {
    hide *;
    var side := TheTop(ca, c, d, top);
    WalkFromFalse(ca, c, d, side, m);
    SecondFalse(m);
  }

  lemma TheTop(ca: SDb, c: CRef, d: CRef, top: seq<Record>) returns (side: seq<Record>)
    requires TheTwo(ca, c, d) && StoresSmaller(ca, 0, top)
    ensures StoresSide(side, Side(ca, Lit(0, false)), Lit(0, false)) && top == side + [[Neg(Lit(0, false))]]
  {
    hide TheTwo, SidesOk, StoresSide, Side, NoRepeats;
    var pos: seq<CRef>, neg: seq<CRef> :|
      SidesOk(ca, pos, neg, 0) && NoRepeats(pos) && NoRepeats(neg) && TopFor(ca, 0, pos, neg, top);
    TheSides(ca, c, d, pos, neg);
    side :| StoresSide(side, Side(ca, Lit(0, false)), Lit(0, false)) && top == side + [[Neg(Lit(0, false))]];
  }

  lemma SecondFalse(m: PModel)
    requires m == ModelOf(AllFalseModel(), 5)
    ensures !SatC(m[0 := LTrue], SECOND)
  {
    TheLiterals();
  }

  lemma WalkFromFalse(ca: SDb, c: CRef, d: CRef, side: seq<Record>, m: PModel)
    requires TheTwo(ca, c, d) && m == ModelOf(AllFalseModel(), 5)
    requires var l := Lit(0, false); StoresSide(side, Side(ca, l), l) && RecordsOk(side + [[Neg(l)]], 5)
    ensures Extend(m, side + [[Neg(Lit(0, false))]]) == m[0 := LTrue]
  {
    var l := Lit(0, false);
    RestIsFalse(ca, c, m);
    SideBelow(side, [[Neg(l)]]);
    hide *;
    var m0, w := SideWalk(m, side, l, Side(ca, l));
    OnlyFirstSet(m, w);
  }

  lemma SideBelow(side: seq<Record>, rest: seq<Record>)
    requires RecordsOk(side + rest, 5)
    ensures RecordsOk(side, 5)
  {
    forall r | r in side ensures r in side + rest
    {
    }
  }

  lemma RestIsFalse(ca: SDb, c: CRef, m: PModel)
    requires Alive(ca, c) && SameLits(FIRST, ca[c].lits) && m == ModelOf(AllFalseModel(), 5)
    ensures exists x :: x in Side(ca, Lit(0, false)) && RestFalse(m, x, 0)
  {
    TheLiterals();
    var x := ca[c].lits;
    assert Lit(0, false) in x;
    assert x in Side(ca, Lit(0, false));
    assert RestFalse(m, x, 0);
  }

  lemma OnlyFirstSet(m: PModel, w: PModel)
    requires |m| == 5 && SetsOnly(m, w, 0) && Val(w, Lit(0, false)) == LTrue
    ensures w == m[0 := LTrue]
  {
  }

  lemma BothSatisfiable()
    ensures Satisfiable({FIRST, SECOND}) && FIRST != SECOND
  {
    TheLiterals();
    var tau: Model := iset{1, 3};
    assert HoldsL(tau, Lit(1, false)) && HoldsL(tau, Lit(3, false));
    assert HoldsF(tau, {FIRST, SECOND});
  }

  lemma KeptBoth(eliminated: seq<bool>)
    requires |eliminated| == 5 && forall v :: 0 <= v < 5 ==> !eliminated[v]
    ensures Kept(FIRST, eliminated, -1) && Kept(SECOND, eliminated, -1)
  {
    TheLiterals();
  }

  lemma NothingAssigned(m: PModel)
    requires TrailMatches(m, [])
    ensures forall v :: 0 <= v < |m| ==> m[v] == LUndef
  {
    forall v | 0 <= v < |m| ensures m[v] == LUndef
    {
      assert Val(m, Lit(v, false)) != LTrue;
    }
  }

  lemma FirstUnknown(ca: SDb, m: PModel)
    requires ca.Keys == {TmpUnit} && TrailMatches(m, [])
    ensures Unknown(ca, [], m, FIRST)
  {
    TheLiterals();
    NothingFollows(ca, FIRST);
    forall l ensures Val(m, l) == LUndef
    {
      TrueOnTrail(m, [], l);
    }
  }

  lemma SecondUnknown(ca: SDb, c: CRef, cb: SDb, m: PModel)
    requires ca.Keys == {TmpUnit} && Stores(ca, c, cb, FIRST) && TrailMatches(m, [])
    ensures Unknown(cb, [], m, SECOND)
  {
    TheLiterals();
    NothingFollows(cb, SECOND);
    forall l ensures Val(m, l) == LUndef
    {
      TrueOnTrail(m, [], l);
    }
  }

  // Without the two clauses nothing is left to satisfy, so their resolvent does not
  // follow, and every model will do.
  lemma NothingLeft(ca: SDb, c: CRef, d: CRef, cb: SDb, trail: seq<Lit>, eliminated: seq<bool>)
    requires TheTwo(ca, c, d) && SDbOk(cb, eliminated, -1) && |eliminated| == 5
    requires forall l :: l in trail ==> l.v < 5
    requires forall tau :: HoldsS(tau, cb, trail, -1) <==> HoldsS(tau, ca, [], 0)
    ensures Complete(ModelOf(AllFalseModel(), 5), eliminated) && SatS(ModelOf(AllFalseModel(), 5), cb, trail)
    ensures !ResolventsFollow(ca, [], 0)
  {
    TheLiterals();
    var none := AllFalseModel();
    assert ca[c].lits in Side(ca, Lit(0, false)) && ca[d].lits in Side(ca, Lit(0, true));
    assert HoldsS(none, ca, [], 0);
    ModelSat(none, cb, trail, eliminated);
    NotResolved(ca, ca[c].lits, ca[d].lits, none);
    NotAllResolved(ca, ca[c].lits, ca[d].lits);
  }

  lemma NotResolved(ca: SDb, p: seq<Lit>, q: seq<Lit>, tau: Model)
    requires SameLits(FIRST, p) && SameLits(SECOND, q) && HoldsS(tau, ca, [], 0) && tau == AllFalseModel()
    ensures !Resolved(ca, [], p, q, 0, 0)
  {
    TheLiterals();
    hide HoldsS;
    assert !Clash(p, q, 0);
    forall r | Resolvent(r, p, q, 0) ensures !Follows(ca, [], r, 0)
    {
      assert !HoldsC(tau, r);
    }
  }

  lemma NotAllResolved(ca: SDb, p: seq<Lit>, q: seq<Lit>)
    requires p in Side(ca, Lit(0, false)) && q in Side(ca, Lit(0, true)) && !Resolved(ca, [], p, q, 0, 0)
    ensures !ResolventsFollow(ca, [], 0)
  {
    hide Resolved, Side;
  }

  // With the other variables false, no value of variable 0 satisfies both clauses.
  lemma NeitherValue(w: PModel)
    requires |w| == 5 && forall i :: 0 <= i < 4 ==> w[1..][i] == LFalse
    ensures !SatF(w, {FIRST, SECOND})
  {
    TheLiterals();
    forall i | 1 <= i < 5 ensures w[i] == LFalse
    {
      assert w[1..][i - 1] == w[i];
    }
    assert FIRST in {FIRST, SECOND} && SECOND in {FIRST, SECOND};
  }

  // All variables but variable 0 are frozen, as by a call with assumptions on them, so
  // that variable 0 is the only one an elimination round can take.
  method Frozen() returns (s: SimpSolver)
    ensures fresh(s) && s.Valid() && s.ok && s.useRcheck && s.fullPropagation && s.grow == 0 && s.clauseLim == 20
    ensures s.formula == {} && s.trail == [] && s.records == [] && s.ca.Keys == {TmpUnit}
    ensures |s.eliminated| == |s.assigns| == |s.frozen| == 5
    ensures forall v :: 0 <= v < 5 ==> !s.eliminated[v] && (s.frozen[v] <==> v != 0)
  {
    hide SDbOk, ListsOk, TrailMatches, Sound, Recoverable, RecordsFor, Satisfiable;
    s := new SimpSolver(5, 0, 20, 1000, true, true);
    for v := 1 to 5
      invariant fresh(s) && s.Valid() && s.ok && s.useRcheck && s.fullPropagation && s.grow == 0 && s.clauseLim == 20
      invariant s.formula == {} && s.trail == [] && s.records == [] && s.ca.Keys == {TmpUnit}
      invariant |s.eliminated| == |s.assigns| == |s.frozen| == 5
      invariant forall u :: 0 <= u < 5 ==> !s.eliminated[u] && (s.frozen[u] <==> 0 < u < v)
    {
      s.SetFrozen(v, true);
    }
  }

  // The solver with the two clauses, the check on and propagation to a fixpoint.
  method AddBoth() returns (s: SimpSolver, ghost c: CRef, ghost d: CRef)
    ensures s.Valid() && s.ok && s.useRcheck && s.fullPropagation && s.grow == 0 && s.clauseLim == 20
    ensures s.formula == {FIRST, SECOND} && s.trail == [] && s.records == [] && TheTwo(s.ca, c, d)
    ensures |s.eliminated| == |s.assigns| == 5
    ensures forall v :: 0 <= v < 5 ==> !s.eliminated[v] && (s.frozen[v] <==> v != 0) && s.assigns[v] == LUndef
    ensures fresh(s)
  {
    hide SDbOk, ListsOk, TrailMatches, Sound, Recoverable, RecordsFor, Satisfiable, Unknown, Stores, Kept, TheTwo;
    s := Frozen();
    KeptBoth(s.eliminated);
    ghost var ca0 := s.ca;
    c := s.caSize;
    FirstUnknown(s.ca, s.assigns);
    var ok := s.AddClause(FIRST);
    ghost var ca1 := s.ca;
    d := s.caSize;
    SecondUnknown(ca0, c, s.ca, s.assigns);
    ok := s.AddClause(SECOND);
    TwoStored(ca0, c, ca1, d, s.ca);
    NothingAssigned(s.assigns);
    assert s.formula == {FIRST, SECOND};
  }

  // The resolvent of the two clauses is dropped with them. The model in which nothing is
  // true satisfies what is left, and from it the walk over the records ends with the
  // second clause false; indeed the formula has no model with these values for the
  // frozen variables.
  method LoseModel(interrupts: bool) returns (s: SimpSolver, m: PModel)
    ensures s.Valid() && s.ok && s.useRcheck && s.formula == {FIRST, SECOND}
    ensures |s.eliminated| == |s.frozen| == 5 && s.eliminated[0] && !s.lossless
    ensures forall v :: 0 <= v < 5 ==> (s.frozen[v] <==> v != 0)
    ensures Complete(m, s.eliminated) && SatS(m, s.ca, s.trail)
    ensures RecordsOk(s.records, |m|) && Extend(m, s.records) == m[0 := LTrue]
    ensures !SatF(Extend(m, s.records), s.formula)
    ensures |m| == 5 && forall w: PModel :: |w| == 5 && w[1..] == m[1..] ==> !SatF(w, s.formula)
  {
    hide SDbOk, ListsOk, TrailMatches, Sound, Recoverable, RecordsFor, Satisfiable, SatS, SatC, Extend, StoresSmaller,
      EliminationLimits, HoldsS, ResolventsFollow, Complete, RecordsOk, TheTwo;
    BothSatisfiable();
    ghost var c, d;
    s, c, d := AddBoth();
    ghost var ca2 := s.ca;
    ghost var top;
    var ok;
    ok, top := s.EliminateVar(0, interrupts);
    WithinLimits(ca2, c, d, s.eliminated[0]);
    assert [] + top == top;
    m := seq(5, i => LFalse);
    assert m == ModelOf(AllFalseModel(), 5);
    SecondClauseLost(ca2, c, d, top, m);
    TrailVars(s.assigns, s.trail);
    NothingLeft(ca2, c, d, s.ca, s.trail, s.eliminated);
    forall w: PModel | |w| == 5 && w[1..] == m[1..] ensures !SatF(w, s.formula)
    {
      NeitherValue(w);
    }
  }
}
