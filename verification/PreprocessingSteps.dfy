// The preprocessor's steps over plain values: level 0 propagation, what a
// strengthened or subsumed clause means, and the candidates still to be scanned.
module PreprocessingSteps {
  import opened SolverTypes
  import opened Vectors
  import opened Elimination
  import opened Resolution
  import opened ClauseLists
  import opened Recovery

  // Structural invariant of the clause data base, its lists and the trail. While
  // variable `x` is being eliminated, clauses may still mention it.
  ghost predicate StateOk(ca: SDb, caSize: nat, assigns: PModel, trail: seq<Lit>, occurs: seq<seq<CRef>>,
      dirty: seq<bool>, eliminated: seq<bool>, queue: seq<CRef>, x: int)
  {
    && |assigns| == |occurs| == |eliminated|
    && (forall cr :: cr in ca ==> cr < caSize) && TmpUnit < caSize && TmpUnit in ca && ca[TmpUnit].mark == 0
    && SDbOk(ca, eliminated, x) && ListsOk(ca, occurs, dirty) && TrailMatches(assigns, trail)
    && (forall cr :: cr in queue ==> cr in ca)
  }

  // ---- Level 0 propagation ----

  predicate AllFalse(m: PModel, c: seq<Lit>)
  {
    forall l :: l in c ==> Val(m, l) == LFalse
  }

  predicate UnitIn(m: PModel, c: seq<Lit>, l: Lit)
  {
    l in c && Val(m, l) == LUndef && forall k :: k in c && k != l ==> Val(m, k) == LFalse
  }

  lemma UnitFollows(tau: Model, ca: SDb, cr: CRef, m: PModel, trail: seq<Lit>, l: Lit)
    requires Alive(ca, cr) && UnitIn(m, ca[cr].lits, l) && TrailMatches(m, trail)
    requires HoldsS(tau, ca, trail, -1)
    ensures HoldsL(tau, l)
  {
    NeverMentioned(ca[cr].lits);
    var k :| k in ca[cr].lits && HoldsL(tau, k);
    if k != l {
      TrueOnTrail(m, trail, k);
    }
  }

  lemma ConflictFollows(tau: Model, ca: SDb, cr: CRef, m: PModel, trail: seq<Lit>)
    requires Alive(ca, cr) && AllFalse(m, ca[cr].lits) && TrailMatches(m, trail)
    ensures !HoldsS(tau, ca, trail, -1)
  {
    if HoldsS(tau, ca, trail, -1) {
      NeverMentioned(ca[cr].lits);
      var k :| k in ca[cr].lits && HoldsL(tau, k);
      TrueOnTrail(m, trail, k);
    }
  }

  lemma HoldsPush(tau: Model, ca: SDb, trail: seq<Lit>, l: Lit, v: int)
    ensures HoldsS(tau, ca, trail + [l], v) <==> HoldsS(tau, ca, trail, v) && HoldsL(tau, l)
  {
    hide HoldsL, HoldsC, Mentions;
    assert forall k :: k in trail + [l] <==> k in trail || k == l;
  }

  predicate Unit(m: PModel, c: seq<Lit>)
  {
    exists l :: l in c && UnitIn(m, c, l)
  }

  // No live clause is falsified or unit.
  ghost predicate Saturated(m: PModel, ca: SDb)
  {
    forall cr: CRef :: Alive(ca, cr) ==> !AllFalse(m, ca[cr].lits) && !Unit(m, ca[cr].lits)
  }

  function Undefined(m: PModel): set<nat>
  {
    set v | 0 <= v < |m| && m[v] == LUndef
  }

  // Unit propagation in any order, to a fixpoint if `full`, otherwise for any number
  // of steps.
  method PropagateFrom(ca: SDb, m0: PModel, tr0: seq<Lit>, full: bool) returns (conflict: bool, m: PModel, tr: seq<Lit>)
    requires TrailMatches(m0, tr0) && forall cr: CRef :: Alive(ca, cr) ==> VarsBelow(ca[cr].lits, |m0|)
    ensures TrailMatches(m, tr) && |m| == |m0| && tr0 <= tr
    ensures forall tau :: HoldsS(tau, ca, tr0, -1) ==> HoldsS(tau, ca, tr, -1)
    ensures conflict ==> forall tau :: !HoldsS(tau, ca, tr, -1)
    ensures full && !conflict ==> Saturated(m, ca)
  {
    hide HoldsS, TrailMatches, Assigned, AllFalse, UnitIn, Undefined, Mentions;
    m, tr := m0, tr0;
    var more: bool := *;
    while full || more
      invariant TrailMatches(m, tr) && |m| == |m0| && tr0 <= tr
      invariant forall tau :: HoldsS(tau, ca, tr0, -1) ==> HoldsS(tau, ca, tr, -1)
      decreases Undefined(m)
    {
      if cr :| cr in ca && Alive(ca, cr) && AllFalse(m, ca[cr].lits) {
        forall tau ensures !HoldsS(tau, ca, tr, -1)
        {
          ConflictFollows(tau, ca, cr, m, tr);
        }
        return true, m, tr;
      } else if cr :| cr in ca && Alive(ca, cr) && Unit(m, ca[cr].lits) {
        var l :| l in ca[cr].lits && UnitIn(m, ca[cr].lits, l);
        forall tau | HoldsS(tau, ca, tr, -1) ensures HoldsS(tau, ca, tr + [l], -1)
        {
          UnitFollows(tau, ca, cr, m, tr, l);
          HoldsPush(tau, ca, tr, l, -1);
        }
        UnitUndefined(m, ca[cr].lits, l);
        TrailMatchesPush(m, tr, l);
        AssignedLength(m, l);
        m, tr := Assigned(m, l), tr + [l];
      } else {
        return false, m, tr;
      }
      more := *;
    }
    conflict := false;
  }

  lemma UnitUndefined(m: PModel, c: seq<Lit>, l: Lit)
    requires UnitIn(m, c, l) && VarsBelow(c, |m|)
    ensures l.v < |m| && Val(m, l) == LUndef && Undefined(Assigned(m, l)) < Undefined(m)
  {
    assert l.v in Undefined(m) && l.v !in Undefined(Assigned(m, l));
  }

  lemma AssignedLength(m: PModel, l: Lit)
    requires l.v < |m|
    ensures |Assigned(m, l)| == |m|
  {
  }

  lemma DbVarsBelow(ca: SDb, eliminated: seq<bool>, x: int)
    requires SDbOk(ca, eliminated, x)
    ensures forall cr: CRef :: Alive(ca, cr) ==> VarsBelow(ca[cr].lits, |eliminated|)
  {
    forall cr: CRef | Alive(ca, cr) ensures VarsBelow(ca[cr].lits, |eliminated|)
    {
      assert ClauseOk(ca[cr], eliminated, x);
    }
  }

  lemma HoldsPrefix(tau: Model, ca: SDb, tr: seq<Lit>, tr': seq<Lit>, v: int)
    requires tr <= tr' && HoldsS(tau, ca, tr', v)
    ensures HoldsS(tau, ca, tr, v)
  {
    hide HoldsL, HoldsC, Mentions;
    assert forall l :: l in tr ==> l in tr';
  }

  // The clause data base and trail after strengthening mean the old ones plus
  // the shorter clause.
  ghost predicate Gains(ca: SDb, tr: seq<Lit>, cb: SDb, tr': seq<Lit>, c: seq<Lit>)
  {
    forall tau :: HoldsS(tau, cb, tr', -1) <==> HoldsS(tau, ca, tr, -1) && HoldsC(tau, c)
  }

  ghost predicate Refuted(ca: SDb, tr: seq<Lit>, c: seq<Lit>)
  {
    forall tau :: !(HoldsS(tau, ca, tr, -1) && HoldsC(tau, c))
  }

  ghost predicate SameMeaning(ca: SDb, tr: seq<Lit>, cb: SDb, tr': seq<Lit>)
  {
    forall tau :: HoldsS(tau, cb, tr', -1) <==> HoldsS(tau, ca, tr, -1)
  }

  lemma UnitHolds(tau: Model, p: Lit)
    ensures HoldsC(tau, [p]) <==> HoldsL(tau, p)
  {
    assert p in [p];
  }

  // Replacing a binary clause by a fact.
  lemma BinaryToUnit(ca: SDb, cr: CRef, l: Lit, abs: bv32, tr: seq<Lit>)
    requires Alive(ca, cr) && DistinctVars(ca[cr].lits) && |ca[cr].lits| == 2 && l in ca[cr].lits
    ensures |RemoveFirst(ca[cr].lits, l)| == 1
    ensures var w := RemoveFirst(ca[cr].lits, l);
      forall tau :: HoldsS(tau, Marked(ca, cr)[cr := SClause(w, 1, abs)], tr, -1) && HoldsL(tau, w[0]) <==>
        HoldsS(tau, ca, tr, -1) && HoldsC(tau, w)
  {
    hide HoldsS;
    var w := RemoveFirst(ca[cr].lits, l);
    RemoveLiteral(ca[cr].lits, l);
    var cb := Marked(ca, cr)[cr := SClause(w, 1, abs)];
    OnlyAliveMatters(Marked(ca, cr), cb);
    assert w == [w[0]] && w[0] in ca[cr].lits;
    forall tau ensures HoldsS(tau, cb, tr, -1) && HoldsL(tau, w[0]) <==> HoldsS(tau, ca, tr, -1) && HoldsC(tau, w)
    {
      UnitHolds(tau, w[0]);
      MarkedHolds(tau, ca, cr, tr, -1);
    }
  }

  // A clause that may subsume others: live, or the dummy holding a trail literal.
  ghost predicate Subsumer(ca: SDb, trail: seq<Lit>, cr: CRef)
  {
    && cr in ca && |ca[cr].lits| > 0 && DistinctVars(ca[cr].lits) && HashOf(ca[cr].abs, ca[cr].lits)
    && (Alive(ca, cr) || (exists l :: l in trail && ca[cr].lits == [l]))
  }

  lemma SubsumerHolds(tau: Model, ca: SDb, trail: seq<Lit>, cr: CRef)
    requires Subsumer(ca, trail, cr) && HoldsS(tau, ca, trail, -1)
    ensures HoldsC(tau, ca[cr].lits)
  {
    NeverMentioned(ca[cr].lits);
    if !Alive(ca, cr) {
      var l :| l in trail && ca[cr].lits == [l];
      UnitHolds(tau, l);
    }
  }

  lemma SubsumerStays(ca: SDb, tr: seq<Lit>, cb: SDb, tr': seq<Lit>, cr: CRef)
    requires Subsumer(ca, tr, cr) && cr in cb && cb[cr] == ca[cr] && tr <= tr'
    ensures Subsumer(cb, tr', cr)
  {
    if l :| l in tr && ca[cr].lits == [l] {
      assert l in tr';
    }
  }

  lemma SubsumedSame(ca: SDb, tr: seq<Lit>, cr: CRef, dr: CRef)
    requires Subsumer(ca, tr, cr) && Alive(ca, dr) && cr != dr && Subset(ca[cr].lits, ca[dr].lits)
    ensures SameMeaning(ca, tr, Marked(ca, dr), tr)
  {
    hide HoldsS;
    SubsumerStays(ca, tr, Marked(ca, dr), tr, cr);
    forall tau ensures HoldsS(tau, Marked(ca, dr), tr, -1) <==> HoldsS(tau, ca, tr, -1)
    {
      MarkedHolds(tau, ca, dr, tr, -1);
      if HoldsS(tau, Marked(ca, dr), tr, -1) {
        SubsumerHolds(tau, Marked(ca, dr), tr, cr);
      }
    }
  }

  lemma StrengthenedSame(ca: SDb, tr: seq<Lit>, cb: SDb, tr': seq<Lit>, cr: CRef, dr: CRef, p: Lit)
    requires Subsumer(ca, tr, cr) && Alive(ca, dr) && DistinctVars(ca[dr].lits)
      && SubsetFlipping(ca[cr].lits, ca[dr].lits, p)
    ensures Gains(ca, tr, cb, tr', RemoveFirst(ca[dr].lits, Neg(p))) ==> SameMeaning(ca, tr, cb, tr')
    ensures Refuted(ca, tr, RemoveFirst(ca[dr].lits, Neg(p))) ==> forall tau :: !HoldsS(tau, ca, tr, -1)
  {
    forall tau | HoldsS(tau, ca, tr, -1) ensures HoldsC(tau, RemoveFirst(ca[dr].lits, Neg(p)))
    {
      SubsumerHolds(tau, ca, tr, cr);
      NeverMentioned(ca[dr].lits);
      StrengthenedHolds(tau, ca[cr].lits, ca[dr].lits, p);
    }
  }

  lemma ListInDb(ca: SDb, occurs: seq<seq<CRef>>, dirty: seq<bool>, v: nat)
    requires ListsOk(ca, occurs, dirty) && v < |occurs|
    ensures forall cr :: cr in occurs[v] ==> cr in ca && cr != TmpUnit
  {
    assert ListOk(ca, occurs[v], dirty[v], v);
  }

  lemma AliveOnlyNone(ca: SDb, s: seq<CRef>)
    ensures AliveOnly(ca, s[..0]) == []
  {
  }

  // How often the candidates in `s` are still live.
  function LiveCount(ca: SDb, s: seq<CRef>): nat
  {
    if s == [] then 0 else (if Alive(ca, s[0]) then 1 else 0) + LiveCount(ca, s[1..])
  }

  lemma {:induction false} LiveCountDrops(ca: SDb, cb: SDb, s: seq<CRef>)
    requires forall cr: CRef :: Alive(cb, cr) ==> Alive(ca, cr)
    ensures LiveCount(cb, s) <= LiveCount(ca, s)
  {
    if s != [] {
      LiveCountDrops(ca, cb, s[1..]);
    }
  }

  // The candidates at `j` and later shrink, or one of them dies.
  lemma CandidateGone(ca: SDb, cb: SDb, was: seq<CRef>, now: seq<CRef>, j: nat)
    requires j < |was| && NoRepeats(was) && (forall cr: CRef :: Alive(cb, cr) ==> Alive(ca, cr))
    requires now == RemoveFirst(was, was[j]) || (now == was && Alive(ca, was[j]) && !Alive(cb, was[j]))
    ensures j <= |now|
    ensures |now| - j + LiveCount(cb, now[j..]) < |was| - j + LiveCount(ca, was[j..])
  {
    assert was[j..][1..] == was[j + 1..];
    LiveCountDrops(ca, cb, was[j + 1..]);
    RemoveFirstAt(was, was[j], j);
    if now == was {
      assert now[j..][0] == was[j] && now[j..][1..] == was[j + 1..];
    } else {
      assert now[j..] == was[j + 1..];
    }
  }

  // The candidates behind place `j` are still in the list.
  lemma CandidatesLeft(ca: SDb, occ: seq<seq<CRef>>, cb: SDb, occ': seq<seq<CRef>>, best: nat, j: nat,
      r: Subsumption)
    requires best < |occ| && j < |occ[best]| && NoRepeats(occ[best])
    requires !r.Strengthens? ==> occ' == occ
    requires r.Strengthens? ==> StruckOut(ca, occ, cb, occ', occ[best][j], r.p.v)
    ensures |occ'| == |occ|
    ensures var i := if r.Strengthens? && r.p.v == best then j else j + 1;
      i <= |occ'[best]| && forall d :: d in occ[best][j + 1..] ==> d in occ'[best][i..]
  {
    assert occ[best][j..] == [occ[best][j]] + occ[best][j + 1..];
    RemoveFirstAt(occ[best], occ[best][j], j);
  }

  lemma NextCandidate(ca: SDb, cb: SDb, was: seq<CRef>, j: nat)
    requires j < |was| && forall cr: CRef :: Alive(cb, cr) ==> Alive(ca, cr)
    ensures LiveCount(cb, was[j + 1..]) <= LiveCount(ca, was[j..])
  {
    assert was[j..][1..] == was[j + 1..];
    LiveCountDrops(ca, cb, was[j + 1..]);
  }

  lemma SameMeaningTrans(ca: SDb, tr: seq<Lit>, cb: SDb, tr1: seq<Lit>, cc: SDb, tr2: seq<Lit>)
    requires SameMeaning(ca, tr, cb, tr1) && SameMeaning(cb, tr1, cc, tr2)
    ensures SameMeaning(ca, tr, cc, tr2)
  {
    hide HoldsS;
  }

  lemma SameMeaningRefl(ca: SDb, tr: seq<Lit>)
    ensures SameMeaning(ca, tr, ca, tr)
  {
  }

  lemma NoModelBefore(ca: SDb, tr: seq<Lit>, cb: SDb, tr': seq<Lit>)
    requires SameMeaning(ca, tr, cb, tr') && forall tau :: !HoldsS(tau, cb, tr', -1)
    ensures forall tau :: !HoldsS(tau, ca, tr, -1)
  {
    hide HoldsS;
  }

  // Clause `dr` lost its literal of variable `v`: it left the list of `v`, or died.
  ghost predicate StruckOut(ca: SDb, occ: seq<seq<CRef>>, cb: SDb, occ': seq<seq<CRef>>, dr: CRef, v: nat)
  {
    && v < |occ| && Alive(ca, dr)
    && ((occ' == occ && !Alive(cb, dr)) || occ' == occ[v := RemoveFirst(occ[v], dr)])
  }

  lemma StruckLiteral(c: seq<Lit>, d: seq<Lit>, p: Lit, n: nat)
    requires SubsetFlipping(c, d, p) && VarsBelow(d, n)
    ensures Neg(p) in d && p.v < n
  {
    assert Neg(p).v < n;
  }

  lemma SubsumerSize(ca: SDb, trail: seq<Lit>, cr: CRef)
    requires Subsumer(ca, trail, cr)
    ensures cr in ca && |ca[cr].lits| > 0
  {
  }

  lemma CandidateInDb(ca: SDb, occurs: seq<seq<CRef>>, dirty: seq<bool>, v: nat, j: nat)
    requires ListsOk(ca, occurs, dirty) && v < |occurs| && j < |occurs[v]|
    ensures occurs[v][j] in ca && occurs[v][j] != TmpUnit && NoRepeats(occurs[v])
  {
    assert ListOk(ca, occurs[v], dirty[v], v);
  }

  // Either the candidate is gone from place `j`, or the next one can be looked at.
  lemma CandidateProgress(ca: SDb, occ: seq<seq<CRef>>, cb: SDb, occ': seq<seq<CRef>>, best: nat, j: nat,
      r: Subsumption)
    requires best < |occ| && j < |occ[best]| && NoRepeats(occ[best])
    requires Alive(ca, occ[best][j]) && occ[best][j] in cb && cb == ca[occ[best][j] := cb[occ[best][j]]]
    requires !r.Strengthens? ==> occ' == occ
    requires r.Strengthens? ==> StruckOut(ca, occ, cb, occ', occ[best][j], r.p.v)
    ensures |occ'| == |occ| && j <= |occ'[best]|
    ensures var i := if r.Strengthens? && r.p.v == best then j else j + 1;
      && i <= |occ'[best]|
      && |occ'[best]| - i + LiveCount(cb, occ'[best][i..]) < |occ[best]| - j + LiveCount(ca, occ[best][j..])
  {
    hide NoRepeats;
    forall cr: CRef | Alive(cb, cr) ensures Alive(ca, cr)
    {
    }
    if r.Strengthens? && r.p.v == best {
      CandidateGone(ca, cb, occ[best], occ'[best], j);
    } else {
      NextCandidate(ca, cb, occ[best], j);
    }
  }

  lemma QueueTail(queue: seq<CRef>)
    requires |queue| > 0 && (|queue| == 1 || forall q :: q in queue ==> q != TmpUnit)
    ensures forall q :: q in queue[1..] ==> q != TmpUnit
  {
    forall q | q in queue[1..] ensures q != TmpUnit
    {
      assert q in queue;
    }
  }

  lemma TrailVars(m: PModel, trail: seq<Lit>)
    requires TrailMatches(m, trail)
    ensures forall l :: l in trail ==> l.v < |m| && VarsBelow([l], |m|)
  {
    forall l | l in trail ensures l.v < |m| && VarsBelow([l], |m|)
    {
      assert Val(m, l) == LTrue;
    }
  }

  // ---- Adding a clause ----

  // What adding clause `ps` achieves: the clauses and trail afterwards mean the old
  // ones and `ps`, and the old ones still follow variable by variable.
  ghost predicate Absorbs(ca: SDb, tr: seq<Lit>, cb: SDb, tr': seq<Lit>, ps: seq<Lit>)
  {
    && Gains(ca, tr, cb, tr', ps)
    && forall tau, v: int :: HoldsS(tau, cb, tr', v) ==> HoldsS(tau, ca, tr, v)
  }

  // The clause follows even without the clauses on a variable that it does not mention.
  ghost predicate Lasting(ca: SDb, tr: seq<Lit>, ps: seq<Lit>)
  {
    forall v: int :: !Mentions(ps, v) ==> Follows(ca, tr, ps, v)
  }

  ghost predicate FollowsAll(ca: SDb, tr: seq<Lit>, ps: seq<Lit>)
  {
    forall tau :: HoldsS(tau, ca, tr, -1) ==> HoldsC(tau, ps)
  }

  lemma AbsorbsImplied(ca: SDb, tr: seq<Lit>, ps: seq<Lit>)
    requires FollowsAll(ca, tr, ps)
    ensures Absorbs(ca, tr, ca, tr, ps)
  {
    hide HoldsS;
  }

  lemma AbsorbsTrivial(ca: SDb, tr: seq<Lit>, m: PModel, ps: seq<Lit>)
    requires TrailMatches(m, tr)
    requires (exists l :: l in ps && Val(m, l) == LTrue) || (exists l :: l in ps && Neg(l) in ps)
    ensures Absorbs(ca, tr, ca, tr, ps) && Lasting(ca, tr, ps)
  {
    forall tau, v: int | HoldsS(tau, ca, tr, v) ensures HoldsC(tau, ps)
    {
      if l :| l in ps && Val(m, l) == LTrue {
        TrueOnTrail(m, tr, l);
      } else {
        var l :| l in ps && Neg(l) in ps;
        assert HoldsL(tau, l) || HoldsL(tau, Neg(l));
      }
    }
  }

  // `c` is `ps` without false literals.
  ghost predicate Reduced(m: PModel, ps: seq<Lit>, c: seq<Lit>)
  {
    && (forall l :: l in c ==> l in ps && Val(m, l) == LUndef)
    && (forall l :: l in ps && l !in c ==> Val(m, l) == LFalse)
  }

  lemma ReducedHolds(tau: Model, ca: SDb, tr: seq<Lit>, m: PModel, ps: seq<Lit>, c: seq<Lit>, v: int)
    requires TrailMatches(m, tr) && Reduced(m, ps, c) && HoldsS(tau, ca, tr, v)
    ensures HoldsC(tau, ps) <==> HoldsC(tau, c)
    ensures !Mentions(ps, v) ==> !Mentions(c, v)
  {
    if HoldsC(tau, ps) {
      var l :| l in ps && HoldsL(tau, l);
      if l !in c {
        TrueOnTrail(m, tr, l);
      }
    }
  }

  lemma AbsorbsEmpty(ca: SDb, tr: seq<Lit>, m: PModel, ps: seq<Lit>)
    requires TrailMatches(m, tr) && Reduced(m, ps, [])
    ensures Refuted(ca, tr, ps)
  {
    forall tau | HoldsS(tau, ca, tr, -1) ensures !HoldsC(tau, ps)
    {
      ReducedHolds(tau, ca, tr, m, ps, [], -1);
    }
  }

  lemma AbsorbsUnit(ca: SDb, tr: seq<Lit>, m: PModel, ps: seq<Lit>, p: Lit, tr': seq<Lit>)
    requires TrailMatches(m, tr) && Reduced(m, ps, [p]) && tr + [p] <= tr'
    requires forall tau :: HoldsS(tau, ca, tr + [p], -1) ==> HoldsS(tau, ca, tr', -1)
    ensures Absorbs(ca, tr, ca, tr', ps) && Lasting(ca, tr', ps)
    ensures (forall tau :: !HoldsS(tau, ca, tr', -1)) ==> Refuted(ca, tr, ps)
  {
    hide TrailMatches, Reduced, HoldsS;
    forall tau, v: int | HoldsS(tau, ca, tr', v) ensures HoldsS(tau, ca, tr, v) && HoldsC(tau, ps)
    {
      HoldsPrefix(tau, ca, tr + [p], tr', v);
      HoldsPush(tau, ca, tr, p, v);
      ReducedHolds(tau, ca, tr, m, ps, [p], v);
      UnitHolds(tau, p);
    }
    forall tau | HoldsS(tau, ca, tr, -1) && HoldsC(tau, ps) ensures HoldsS(tau, ca, tr', -1)
    {
      ReducedHolds(tau, ca, tr, m, ps, [p], -1);
      UnitHolds(tau, p);
      HoldsPush(tau, ca, tr, p, -1);
    }
  }

  lemma AbsorbsClause(ca: SDb, tr: seq<Lit>, m: PModel, ps: seq<Lit>, cr: CRef, c: SClause)
    requires TrailMatches(m, tr) && Reduced(m, ps, c.lits) && cr !in ca && cr != TmpUnit && c.mark != 1
    ensures Absorbs(ca, tr, ca[cr := c], tr, ps) && Lasting(ca[cr := c], tr, ps)
  {
    hide TrailMatches, Reduced, HoldsS, Mentions, HoldsC;
    forall tau, v: int | HoldsS(tau, ca[cr := c], tr, v)
      ensures HoldsS(tau, ca, tr, v) && (!Mentions(ps, v) ==> HoldsC(tau, ps))
    {
      AddedHolds(tau, ca, cr, c, tr, v);
      ReducedHolds(tau, ca, tr, m, ps, c.lits, v);
    }
    NeverMentioned(ps);
    forall tau | HoldsS(tau, ca, tr, -1) && HoldsC(tau, ps) ensures HoldsS(tau, ca[cr := c], tr, -1)
    {
      AddedHolds(tau, ca, cr, c, tr, -1);
      ReducedHolds(tau, ca, tr, m, ps, c.lits, -1);
    }
  }

  lemma ReducedKept(m: PModel, ps: seq<Lit>, c: seq<Lit>, eliminated: seq<bool>, x: int)
    requires Reduced(m, ps, c) && Kept(ps, eliminated, -1)
    ensures Kept(c, eliminated, x)
  {
  }

  // Old clauses are as they were.
  ghost predicate Preserved(ca: SDb, cb: SDb)
  {
    forall cr: CRef :: cr in ca ==> cr in cb && cb[cr] == ca[cr]
  }

  // The lists of variables not in `ps` are as they were.
  ghost predicate OtherLists(occ: seq<seq<CRef>>, occ': seq<seq<CRef>>, ps: seq<Lit>)
  {
    |occ'| == |occ| && forall v: nat :: v < |occ| && !HasVar(ps, v) ==> occ'[v] == occ[v]
  }

  lemma PushedOthers(now: seq<seq<CRef>>, was: seq<seq<CRef>>, cr: CRef, c: seq<Lit>, m: PModel, ps: seq<Lit>)
    requires Pushed(now, was, cr, c, |c|) && Reduced(m, ps, c)
    ensures OtherLists(was, now, ps)
  {
    assert c[..|c|] == c;
  }

  // The literals assumed false for the check hold exactly if the clause does not.
  lemma Assumed(tau: Model, ca: SDb, tr: seq<Lit>, c: seq<Lit>, l: Lit)
    requires l in c && HoldsS(tau, ca, tr, -1) && !HoldsC(tau, c)
    ensures HoldsS(tau, ca, tr + [Neg(l)], -1)
  {
    HoldsPush(tau, ca, tr, Neg(l), -1);
  }

  lemma AreReduced(m: PModel, ps: seq<Lit>, c: seq<Lit>)
    requires forall l :: l in c ==> l in ps && Val(m, l) == LUndef
    requires forall l :: l in ps && l !in c ==> Val(m, l) == LFalse
    ensures Reduced(m, ps, c)
  {
  }

  // Two or more unassigned literals that do not follow together.
  ghost predicate Unknown(ca: SDb, tr: seq<Lit>, m: PModel, ps: seq<Lit>)
  {
    |ps| >= 2 && DistinctVars(ps) && (forall l :: l in ps ==> Val(m, l) == LUndef) && !FollowsAll(ca, tr, ps)
  }

  // The clause is stored under `cr`, perhaps with its literals in another order.
  ghost predicate Stores(ca: SDb, cr: CRef, cb: SDb, ps: seq<Lit>)
  {
    exists c, a :: SameLits(ps, c) && cb == ca[cr := SClause(c, 0, a)]
  }

  lemma UnknownNotImplied(ca: SDb, tr: seq<Lit>, m: PModel, ps: seq<Lit>)
    requires FollowsAll(ca, tr, ps)
    ensures !Unknown(ca, tr, m, ps)
  {
  }

  lemma UnknownNotTrivial(ca: SDb, tr: seq<Lit>, m: PModel, ps: seq<Lit>)
    requires (exists l :: l in ps && Val(m, l) == LTrue) || (exists l :: l in ps && Neg(l) in ps)
    ensures !Unknown(ca, tr, m, ps)
  {
    if l :| l in ps && Neg(l) in ps {
      var i :| 0 <= i < |ps| && ps[i] == l;
      var j :| 0 <= j < |ps| && ps[j] == Neg(l);
    }
  }

  lemma UnknownKept(ca: SDb, tr: seq<Lit>, m: PModel, ps: seq<Lit>, c: seq<Lit>)
    requires Reduced(m, ps, c) && DistinctVars(c)
    ensures Unknown(ca, tr, m, ps) ==> SameLits(ps, c) && |c| >= 2
  {
    if Unknown(ca, tr, m, ps) {
      SameSize(ps, c);
    }
  }

  lemma SameVars(ps: seq<Lit>, c: seq<Lit>)
    requires forall l :: l in ps ==> l in c
    ensures VarsOf(ps) <= VarsOf(c)
  {
    forall x | x in VarsOf(ps) ensures x in VarsOf(c)
    {
      var k :| 0 <= k < |ps| && ps[k].v == x;
      assert ps[k] in c;
      var j :| 0 <= j < |c| && c[j] == ps[k];
    }
  }

  lemma SameSize(ps: seq<Lit>, c: seq<Lit>)
    requires DistinctVars(ps) && DistinctVars(c) && forall l :: l in ps <==> l in c
    ensures |ps| == |c|
  {
    VarSetSize(ps);
    VarSetSize(c);
    SameVars(ps, c);
    SameVars(c, ps);
    assert VarsOf(ps) == VarsOf(c);
  }

  // ---- The check for implied clauses ----

  // `m` is `m0` with `c[..i]` assumed false.
  ghost predicate AssumedFalse(m0: PModel, m: PModel, c: seq<Lit>, i: nat)
    requires i <= |c|
  {
    && |m| == |m0|
    && (forall k :: 0 <= k < i ==> Val(m, c[k]) == LFalse)
    && (forall l :: Val(m, l) == LTrue ==> Val(m0, l) == LTrue || Neg(l) in c)
  }

  // Why the check does not accept `c`: it is true or a tautology, or its literals can
  // all be false with nothing left to propagate.
  ghost predicate NotImplied(ca: SDb, m0: PModel, c: seq<Lit>)
  {
    || (exists l :: l in c && Val(m0, l) == LTrue)
    || (exists l :: l in c && Neg(l) in c)
    || (exists m :: Saturated(m, ca) && forall l :: l in c ==> Val(m, l) == LFalse)
  }

  lemma AssumedStart(m: PModel, c: seq<Lit>)
    ensures AssumedFalse(m, m, c, 0)
  {
  }

  lemma ValCases(m: PModel, l: Lit)
    ensures Val(m, Neg(l)) == LUndef <==> Val(m, l) == LUndef
    ensures Val(m, Neg(l)) == LTrue <==> Val(m, l) == LFalse
    ensures Val(m, l) == LTrue || Val(m, l) == LFalse || Val(m, l) == LUndef
  {
  }

  lemma AssumedTrue(ca: SDb, m0: PModel, m: PModel, c: seq<Lit>, i: nat)
    requires i < |c| && AssumedFalse(m0, m, c, i) && Val(m, c[i]) == LTrue
    ensures NotImplied(ca, m0, c)
  {
    hide Saturated;
    assert c[i] in c;
  }

  lemma AssumedMore(m0: PModel, m: PModel, c: seq<Lit>, i: nat)
    requires i < |c| && AssumedFalse(m0, m, c, i) && c[i].v < |m| && Val(m, c[i]) == LUndef
    ensures AssumedFalse(m0, Assigned(m, Neg(c[i])), c, i + 1)
  {
    var now := Assigned(m, Neg(c[i]));
    forall l | Val(now, l) == LTrue ensures Val(m0, l) == LTrue || Neg(l) in c
    {
      if l.v == c[i].v {
        assert Neg(l) == c[i] && c[i] in c;
      } else {
        assert Val(m, l) == LTrue;
      }
    }
  }

  lemma AssumedAlready(m0: PModel, m: PModel, c: seq<Lit>, i: nat)
    requires i < |c| && AssumedFalse(m0, m, c, i) && Val(m, c[i]) == LFalse
    ensures AssumedFalse(m0, m, c, i + 1)
  {
  }

  lemma AssumedStuck(ca: SDb, m0: PModel, m1: PModel, tr1: seq<Lit>, m: PModel, tr: seq<Lit>, c: seq<Lit>)
    requires AssumedFalse(m0, m1, c, |c|) && TrailMatches(m1, tr1) && TrailMatches(m, tr) && tr1 <= tr
    requires Saturated(m, ca)
    ensures NotImplied(ca, m0, c)
  {
    hide Saturated;
    forall l | l in c ensures Val(m, l) == LFalse
    {
      var k :| 0 <= k < |c| && c[k] == l;
      assert Val(m1, l) == LFalse;
      TrueOnTrail(m1, tr1, l);
      TrueOnTrail(m, tr, l);
    }
  }
}
