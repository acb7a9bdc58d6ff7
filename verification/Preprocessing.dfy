// The preprocessor: adding and strengthening clauses, backward subsumption and
// variable elimination, with models extended at the end.
module Preprocessing {
  import opened SolverTypes
  import opened Vectors
  import opened LiteralOrder
  import opened Elimination
  import opened Resolution
  import opened ClauseLists
  import opened Recovery
  import opened PreprocessingSteps
  import opened SubsumptionSteps
  import opened EliminationOrder
  import Sets
  import opened EliminationSteps

  class SimpSolver {
    var ca: SDb
    var caSize: nat
    var assigns: PModel
    var trail: seq<Lit>
    var occurs: seq<seq<CRef>>
    var dirty: seq<bool>
    var frozen: seq<bool>
    var eliminated: seq<bool>
    var decision: seq<bool>
    var elimclauses: seq<nat>
    var subsumptionQueue: seq<CRef>
    var bwdsubAssigns: nat
    // Variables of clauses added since clauses were gathered last.
    var touched: set<nat>
    // Variables to be tried for elimination; the source orders them by occurrences.
    var elimHeap: set<nat>
    var asynchInterrupt: bool
    var ok: bool
    var model: PModel
    const grow: int
    const clauseLim: int
    const subsumptionLim: int
    const useRcheck: bool
    // Whether propagation runs to a fixpoint. In the source it does, unless a clause
    // was strengthened that watches a literal already false.
    const fullPropagation: bool
    ghost var formula: set<seq<Lit>>
    ghost var records: seq<Record>
    // Every variable was eliminated without the redundancy check, or with resolvents
    // that followed from the other clauses anyway.
    ghost var lossless: bool
    // The variable taken off the heap (-1 for none), and the clauses there were when a
    // variable was refused.
    ghost var trying: int
    ghost var refused: map<nat, SDb>
    // An interrupt dropped the queue or the heap.
    ghost var cut: bool

    ghost predicate Structure(x: int)
      reads this
    {
      StateOk(ca, caSize, assigns, trail, occurs, dirty, eliminated, subsumptionQueue, x) && HeapFine()
    }

    // Unless the user interrupted, every live clause is queued, will be gathered, or
    // has been used up, and facts before `bwdsubAssigns` are in no candidate.
    ghost predicate Covered()
      reads this
    {
      !cut ==>
        Watchful(ca, subsumptionQueue, touched, subsumptionLim)
        && FactsUsed(ca, trail, 0, bwdsubAssigns, subsumptionLim)
    }

    // No variable is forgotten unless the user interrupted.
    ghost predicate HeapFine()
      reads this
    {
      !cut ==> HeapOk(ca, elimHeap, trying, refused, frozen, eliminated, assigns, grow, clauseLim)
    }

    // The packed vector holds the records of the eliminated variables.
    ghost predicate Stacked()
      reads this
    {
      && |frozen| == |decision| == |eliminated|
      && elimclauses == Pack(records) && RecordsFor(records, eliminated)
      && (!useRcheck ==> lossless) && NotDecided(eliminated, decision)
    }

    // While the solver is `ok`: the clauses and trail follow from the formula, and
    // models of them extend to models of the formula. Otherwise the formula has none.
    // With the redundancy check on, models may be lost: see `EliminateVar`.
    ghost predicate Valid()
      reads this
    {
      && Stacked()
      && (ok ==> Structure(-1) && QueueOk() && Covered() && Sound(formula, ca, trail))
      && (ok && lossless ==> Recoverable(ca, trail, eliminated, records, formula))
      && (!ok ==> !Satisfiable(formula))
    }

    // The dummy clause is queued only to be taken off at once.
    ghost predicate QueueOk()
      reads this
    {
      && bwdsubAssigns <= |trail|
      && forall cr :: cr in subsumptionQueue ==> cr != TmpUnit
    }

    method Propagate(ghost x: int) returns (conflict: bool)
      requires Structure(x)
      modifies this`assigns, this`trail
      ensures Structure(x) && old(trail) <= trail
      ensures forall tau :: HoldsS(tau, ca, old(trail), -1) ==> HoldsS(tau, ca, trail, -1)
      ensures conflict ==> forall tau :: !HoldsS(tau, ca, trail, -1)
    {
      hide SDbOk, ListsOk, TrailMatches, HoldsS, HeapOk, Eligible;
      DbVarsBelow(ca, eliminated, x);
      ghost var m0, tr0 := assigns, trail;
      conflict, assigns, trail := PropagateFrom(ca, assigns, trail, fullPropagation);
      MoreAssigned(m0, tr0, assigns, trail, frozen, eliminated);
      HeapAssigned(m0);
    }

    method UncheckedEnqueue(l: Lit, ghost x: int)
      requires Structure(x) && l.v < |assigns| && Val(assigns, l) == LUndef
      modifies this`assigns, this`trail
      ensures Structure(x) && trail == old(trail) + [l]
    {
      hide SDbOk, ListsOk, TrailMatches, HeapOk, Eligible;
      TrailMatchesPush(assigns, trail, l);
      AssignedLength(assigns, l);
      ghost var m0, tr0 := assigns, trail;
      assigns, trail := assigns[l.v := if l.s then LFalse else LTrue], trail + [l];
      MoreAssigned(m0, tr0, assigns, trail, frozen, eliminated);
      HeapAssigned(m0);
    }

    lemma HeapAssigned(m0: PModel)
      requires !cut ==> HeapOk(ca, elimHeap, trying, refused, frozen, eliminated, m0, grow, clauseLim)
      requires forall v: nat :: Eligible(frozen, eliminated, assigns, v) ==> Eligible(frozen, eliminated, m0, v)
      ensures HeapFine()
    {
      hide HeapOk, Eligible;
      if !cut {
        HeapKept(ca, ca, elimHeap, trying, refused, frozen, eliminated, m0, assigns, eliminated, grow, clauseLim);
      }
    }

    // Live clauses are as they were.
    lemma HeapSame(ca0: SDb)
      requires !cut ==> HeapOk(ca0, elimHeap, trying, refused, frozen, eliminated, assigns, grow, clauseLim)
      requires forall cr: CRef :: Alive(ca0, cr) ==> Alive(ca, cr) && ca[cr].lits == ca0[cr].lits
      ensures HeapFine()
    {
      hide HeapOk, Eligible;
      if !cut {
        HeapKept(ca0, ca, elimHeap, trying, refused, frozen, eliminated, assigns, assigns, eliminated, grow, clauseLim);
      }
    }

    // Puts the variable back into the heap if it may be eliminated.
    method UpdateElimHeap(v: nat)
      modifies this`elimHeap
      ensures elimHeap == old(elimHeap) + if Eligible(frozen, eliminated, assigns, v) then {v} else {}
    {
      if v in elimHeap || Eligible(frozen, eliminated, assigns, v) {
        elimHeap := elimHeap + {v};
      }
    }

    // Makes `l` a fact, unless it is false already.
    method EnqueueAndPropagate(l: Lit, ghost x: int) returns (res: bool)
      requires Structure(x) && l.v < |assigns|
      modifies this`assigns, this`trail
      ensures Structure(x) && old(trail) <= trail
      ensures res ==> l in trail
      ensures res ==> forall tau :: HoldsS(tau, ca, trail, -1) <==> HoldsS(tau, ca, old(trail), -1) && HoldsL(tau, l)
      ensures !res ==> forall tau :: !(HoldsS(tau, ca, old(trail), -1) && HoldsL(tau, l))
    {
      hide SDbOk, ListsOk, TrailMatches;
      TrueOnTrail(assigns, trail, l);
      ghost var tr := trail;
      assert HoldsOnTrail: forall tau, k :: HoldsS(tau, ca, tr, -1) && k in tr ==> HoldsL(tau, k);
      if Val(assigns, l) != LUndef {
        ValCases(assigns, l);
        res := Val(assigns, l) != LFalse;
        if !res {
          assert forall tau :: HoldsS(tau, ca, tr, -1) ==> HoldsL(tau, Neg(l));
        }
      } else {
        UncheckedEnqueue(l, x);
        ghost var tr' := trail;
        var conflict := Propagate(x);
        res := !conflict;
        assert tr'[|tr|] == l && trail[|tr|] == l;
        forall tau ensures HoldsS(tau, ca, trail, -1) <==> HoldsS(tau, ca, tr, -1) && HoldsL(tau, l)
        {
          HoldsPush(tau, ca, tr, l, -1);
          if HoldsS(tau, ca, trail, -1) {
            HoldsPrefix(tau, ca, tr', trail, -1);
          }
        }
      }
    }

    // Deletes a clause; the lists it is in are cleaned later.
    method RemoveClause(cr: CRef, ghost x: int)
      requires Structure(x) && Alive(ca, cr) && bwdsubAssigns <= |trail|
      modifies this`ca, this`dirty
      modifies this`elimHeap
      ensures Structure(x) && ca == Marked(old(ca), cr) && (old(Covered()) ==> Covered())
    {
      hide TrailMatches, ClauseOk, ListOk, HeapOk, Eligible, Updated, Watchful, FactsUsed;
      var c := ca[cr].lits;
      AliveOk(ca, cr, eliminated, x);
      SmudgedStart(dirty, c);
      UpdatedNone(elimHeap, c, frozen, eliminated, assigns);
      ghost var was, heap := dirty, elimHeap;
      for i := 0 to |c|
        invariant ca == old(ca) && Smudged(dirty, was, c, i)
        invariant elimHeap == Updated(heap, c[..i], frozen, eliminated, assigns)
      {
        assert c[i] in c;
        SmudgedStep(dirty, was, c, i);
        UpdatedStep(heap, c, i, frozen, eliminated, assigns);
        UpdateElimHeap(c[i].v);
        dirty := dirty[c[i].v := true];
      }
      assert c[..|c|] == c;
      MarkedOk(ca, cr, eliminated, x);
      MarkedLists(ca, cr, occurs, was, dirty);
      if !cut {
        HeapRemoved(ca, Marked(ca, cr), cr, heap, elimHeap, trying, refused, frozen, eliminated, assigns, grow,
          clauseLim);
      }
      CoveredMarked(cr);
      ca := ca[cr := ca[cr].(mark := 1)];
    }

    lemma CoveredMarked(cr: CRef)
      requires cr in ca && cr != TmpUnit && bwdsubAssigns <= |trail|
      ensures Watchful(ca, subsumptionQueue, touched, subsumptionLim) ==>
        Watchful(Marked(ca, cr), subsumptionQueue, touched, subsumptionLim)
      ensures FactsUsed(ca, trail, 0, bwdsubAssigns, subsumptionLim) ==>
        FactsUsed(Marked(ca, cr), trail, 0, bwdsubAssigns, subsumptionLim)
    {
      hide Watchful, FactsUsed;
      var lim := subsumptionLim;
      assert Shrinks(ca, Marked(ca, cr), lim);
      if Watchful(ca, subsumptionQueue, touched, lim) {
        WatchfulLess(ca, subsumptionQueue, Marked(ca, cr), touched, lim);
      }
      if FactsUsed(ca, trail, 0, bwdsubAssigns, lim) {
        FactsStay(ca, Marked(ca, cr), trail, trail, 0, bwdsubAssigns, lim);
      }
    }

    // Deletes literal `l` from a clause; a binary clause becomes a fact.
    method StrengthenClause(cr: CRef, l: Lit, ghost x: int) returns (res: bool)
      requires Structure(x) && Alive(ca, cr) && l in ca[cr].lits && bwdsubAssigns <= |trail|
      modifies this`ca, this`dirty, this`occurs, this`assigns, this`trail, this`subsumptionQueue
      modifies this`elimHeap
      ensures Structure(x) && old(trail) <= trail && cr in ca && ca == old(ca)[cr := ca[cr]]
      ensures subsumptionQueue == old(subsumptionQueue) + [cr]
      ensures ca[cr].mark == if |old(ca[cr].lits)| == 2 then 1 else old(ca[cr].mark)
      ensures ca[cr].lits == RemoveFirst(old(ca[cr].lits), l)
      ensures res && |old(ca[cr].lits)| == 2 ==> forall k :: k in ca[cr].lits ==> k in trail
      ensures occurs == if |old(ca[cr].lits)| == 2 then old(occurs)
        else old(occurs)[l.v := RemoveFirst(old(occurs)[l.v], cr)]
      ensures res ==> Gains(old(ca), old(trail), ca, trail, RemoveFirst(old(ca[cr].lits), l))
      ensures !res ==> Refuted(old(ca), old(trail), RemoveFirst(old(ca[cr].lits), l))
    {
      hide TrailMatches, SDbOk, ListsOk, HoldsS, HoldsC, HoldsL, DistinctVars, HashOf, RemoveFirst, HeapOk, Kept,
        Eligible, Refuted, ClauseOk;
      ghost var ca0, tr0 := ca, trail;
      var c := ca[cr].lits;
      AliveOk(ca, cr, eliminated, x);
      subsumptionQueue := subsumptionQueue + [cr];
      var w := Remove(c, l);
      var abstraction := CalcAbstraction(w);
      if |c| == 2 {
        res := ReplaceByFact(cr, l, w, abstraction, x);
      } else {
        ShrunkOk(ca, cr, l, abstraction, eliminated, x);
        ShrunkLists(ca, cr, l, abstraction, occurs, dirty);
        forall tau ensures HoldsS(tau, Shrunk(ca, cr, l, abstraction), trail, -1) <==>
          HoldsS(tau, ca, trail, -1) && HoldsC(tau, w)
        {
          ShrunkHolds(tau, ca, cr, l, abstraction, trail);
        }
        Listed(ca, cr, occurs, dirty, l);
        ca := ca[cr := SClause(w, ca[cr].mark, abstraction)];
        var list := Remove(occurs[l.v], cr);
        occurs := occurs[l.v := list];
        RemoveLiteral(c, l);
        ghost var heap := elimHeap;
        UpdateElimHeap(l.v);
        HeapAfterStrike(ca0, cr, l, heap);
        res := true;
      }
    }

    lemma HeapAfterStrike(ca0: SDb, cr: CRef, l: Lit, heap: set<nat>)
      requires !cut ==> HeapOk(ca0, heap, trying, refused, frozen, eliminated, assigns, grow, clauseLim)
      requires elimHeap == heap + if Eligible(frozen, eliminated, assigns, l.v) then {l.v} else {}
      requires cr in ca0 && cr in ca && ca == ca0[cr := ca[cr]] && ca[cr].mark == ca0[cr].mark
      requires forall k :: k in ca[cr].lits <==> k in ca0[cr].lits && k != l
      ensures HeapFine()
    {
      hide HeapOk, Eligible;
      if !cut {
        assert elimHeap == Updated(heap, [l], frozen, eliminated, assigns);
        HeapStruck(ca0, ca, cr, l, heap, elimHeap, trying, refused, frozen, eliminated, assigns, grow, clauseLim);
      }
    }

    // A binary clause becomes the fact that is left of it.
    method ReplaceByFact(cr: CRef, l: Lit, w: seq<Lit>, abstraction: bv32, ghost x: int) returns (res: bool)
      requires Structure(x) && Alive(ca, cr) && l in ca[cr].lits && |ca[cr].lits| == 2 && DistinctVars(ca[cr].lits)
      requires bwdsubAssigns <= |trail|
      requires w == RemoveFirst(ca[cr].lits, l) && Kept(ca[cr].lits, eliminated, x)
      modifies this`ca, this`dirty, this`assigns, this`trail
      modifies this`elimHeap
      ensures Structure(x) && old(trail) <= trail && ca == old(ca)[cr := SClause(w, 1, abstraction)]
      ensures res ==> forall k :: k in w ==> k in trail
      ensures res ==> Gains(old(ca), old(trail), ca, trail, w)
      ensures !res ==> Refuted(old(ca), old(trail), w)
    {
      hide TrailMatches, SDbOk, ListsOk, HoldsS, HoldsC, HoldsL, DistinctVars, HashOf;
      BinaryToUnit(ca, cr, l, abstraction, trail);
      RemoveLiteral(ca[cr].lits, l);
      assert w[0] in ca[cr].lits;
      RemoveClause(cr, x);
      DeadChange(ca, cr, SClause(w, 1, abstraction), occurs, dirty, eliminated, x);
      ghost var ca1 := ca;
      ca := ca[cr := SClause(w, 1, abstraction)];
      HeapSame(ca1);
      res := EnqueueAndPropagate(w[0], x);
    }

    // The list of a variable, without the clauses deleted since it was last cleaned.
    method Lookup(v: nat, ghost x: int)
      requires Structure(x) && v < |occurs|
      modifies this`occurs, this`dirty
      ensures Structure(x) && !dirty[v]
      ensures occurs == old(occurs)[v := occurs[v]]
    {
      hide TrailMatches, SDbOk;
      if dirty[v] {
        CleanedLists(ca, occurs, dirty, v);
        var list := Cleaned(v, x);
        occurs, dirty := occurs[v := list], dirty[v := false];
      }
    }

    method Cleaned(v: nat, ghost x: int) returns (list: seq<CRef>)
      requires Structure(x) && v < |occurs|
      ensures list == AliveOnly(ca, occurs[v])
    {
      hide TrailMatches, SDbOk, ListsOk, ListOk, AliveOnly;
      list := occurs[v];
      ghost var was := list;
      ListInDb(ca, occurs, dirty, v);
      AliveOnlyNone(ca, was);
      var i, j := 0, 0;
      while i < |list|
        invariant 0 <= j <= i <= |list| == |was|
        invariant list[..j] == AliveOnly(ca, was[..i])
        invariant forall k :: i <= k < |was| ==> list[k] == was[k]
      {
        AliveOnlyStep(ca, was, i);
        assert list[i] == was[i] && was[i] in was;
        if ca[list[i]].mark != 1 {
          list := list[j := list[i]];
          j := j + 1;
        }
        i := i + 1;
      }
      assert was[..|was|] == was;
      list := list[..j];
    }

    // The variable of `c` with the shortest list.
    method BestVar(c: seq<Lit>) returns (best: nat)
      requires |c| > 0 && VarsBelow(c, |occurs|)
      ensures best < |occurs| && HasVar(c, best)
      ensures forall l :: l in c ==> |occurs[best]| <= |occurs[l.v]|
    {
      assert c[0] in c;
      best := c[0].v;
      for i := 1 to |c|
        invariant best < |occurs| && HasVar(c, best)
        invariant forall k :: 0 <= k < i ==> |occurs[best]| <= |occurs[c[k].v]|
      {
        assert c[i] in c;
        if |occurs[c[i].v]| < |occurs[best]| {
          best := c[i].v;
        }
      }
    }

    // Uses clause `cr` on one candidate: deletes it, deletes one of its literals,
    // or leaves it.
    method TryCandidate(cr: CRef, dr: CRef) returns (res: bool, r: Subsumption)
      requires Structure(-1) && QueueOk() && Subsumer(ca, trail, cr) && Alive(ca, dr) && cr != dr
      modifies this`ca, this`dirty, this`occurs, this`assigns, this`trail, this`subsumptionQueue
      modifies this`elimHeap
      ensures Structure(-1) && QueueOk() && old(trail) <= trail && Subsumer(ca, trail, cr)
      ensures dr in ca && ca == old(ca)[dr := ca[dr]]
      ensures res ==> SameMeaning(old(ca), old(trail), ca, trail)
      ensures !res ==> forall tau :: !HoldsS(tau, old(ca), old(trail), -1)
      ensures r == Subsumed <==> old(Subset(ca[cr].lits, ca[dr].lits))
      ensures forall p :: r == Strengthens(p) <==> old(SubsetFlipping(ca[cr].lits, ca[dr].lits, p))
      ensures Outcome(old(ca), old(trail), old(subsumptionQueue), dr, r, ca, trail, subsumptionQueue, res)
      ensures !r.Strengthens? ==> occurs == old(occurs)
      ensures r.Strengthens? ==> StruckOut(old(ca), old(occurs), ca, occurs, dr, r.p.v)
    {
      hide TrailMatches, SDbOk, ListsOk, HoldsS, HoldsC, HoldsL, DistinctVars, HashOf, Subset, SubsetFlipping,
        SameMeaning, Gains, Refuted;
      AliveOk(ca, dr, eliminated, -1);
      ghost var ca0, tr0 := ca, trail;
      res := true;
      SameMeaningRefl(ca, trail);
      r := Subsumes(ca[cr].lits, ca[cr].abs, ca[dr].lits, ca[dr].abs);
      if r.Subsumed? {
        SubsumedSame(ca, trail, cr, dr);
        RemoveClause(dr, -1);
      } else if r.Strengthens? {
        StruckLiteral(ca[cr].lits, ca[dr].lits, r.p, |eliminated|);
        res := StrengthenClause(dr, Neg(r.p), -1);
        StrengthenedSame(ca0, tr0, ca, trail, cr, dr, r.p);
      }
      SubsumerStays(ca0, tr0, ca, trail, cr);
    }

    // Backward subsumption with one clause, over the shortest list of its variables.
    // After a literal of that variable was struck out the candidate at the same
    // place is looked at again. In the end the clause subsumes and strengthens no
    // candidate any more.
    method ScanCandidates(cr: CRef) returns (res: bool)
      requires Structure(-1) && QueueOk() && Subsumer(ca, trail, cr) && VarsBelow(ca[cr].lits, |occurs|)
      requires ca[cr].mark == 0
      modifies this`ca, this`dirty, this`occurs, this`assigns, this`trail, this`subsumptionQueue
      modifies this`elimHeap
      ensures Structure(-1) && QueueOk() && old(trail) <= trail
      ensures res ==> SameMeaning(old(ca), old(trail), ca, trail)
      ensures res ==> cr in ca && ca[cr] == old(ca[cr]) && UsedUp(ca, ca[cr].lits, cr, subsumptionLim)
      ensures res ==> Scanned(old(ca), old(trail), old(subsumptionQueue))
      ensures !res ==> forall tau :: !HoldsS(tau, old(ca), old(trail), -1)
    {
      hide TrailMatches, SDbOk, Subsumer, SameMeaning, HoldsS, ListOk, NoRepeats, Pending, UsedUp, Scanned, HasVar,
        LiveCount, VarsBelow, Related, ListsOk, StruckOut;
      assert |ca[cr].lits| > 0 by {
        SubsumerSize(ca, trail, cr);
      }
      var best := BestVar(ca[cr].lits);
      Lookup(best, -1);
      SameMeaningRefl(ca, trail);
      ScannedRefl();
      AllListed(ca, ca[cr].lits, cr, subsumptionLim, occurs, dirty, best);
      var j: int := 0;
      while j < |occurs[best]|
        invariant Structure(-1) && QueueOk() && best < |occurs| && old(trail) <= trail && Subsumer(ca, trail, cr)
        invariant SameMeaning(old(ca), old(trail), ca, trail)
        invariant 0 <= j <= |occurs[best]| && cr in ca && ca[cr] == old(ca[cr])
        invariant Pending(ca, ca[cr].lits, cr, subsumptionLim, occurs[best], j)
        invariant Scanned(old(ca), old(trail), old(subsumptionQueue))
        decreases |occurs[best]| - j + LiveCount(ca, occurs[best][j..])
      {
        if ca[cr].mark != 0 {
          break;
        }
        ghost var ca0, tr0, occ0 := ca, trail, occurs;
        var dr := occurs[best][j];
        CandidateInDb(ca, occurs, dirty, best, j);
        if ca[dr].mark == 0 && dr != cr && (subsumptionLim == -1 || |ca[dr].lits| < subsumptionLim) {
          var r;
          res, r := UseOn(cr, dr, old(ca), old(trail), old(subsumptionQueue));
          if !res {
            NoModelBefore(old(ca), old(trail), ca0, tr0);
            return;
          }
          SameMeaningTrans(old(ca), old(trail), ca0, tr0, ca, trail);
          CandidateProgress(ca0, occ0, ca, occurs, best, j, r);
          CandidatesLeft(ca0, occ0, ca, occurs, best, j, r);
          PendingStep(ca0, ca, ca[cr].lits, cr, subsumptionLim, occ0[best], occurs[best], j,
            if r.Strengthens? && r.p.v == best then j else j + 1);
          if r.Strengthens? && r.p.v == best {
            j := j - 1;
          }
        } else {
          NextCandidate(ca, ca, occurs[best], j);
          PendingStep(ca, ca, ca[cr].lits, cr, subsumptionLim, occurs[best], occurs[best], j, j + 1);
        }
        j := j + 1;
      }
      PendingNone(ca, ca[cr].lits, cr, subsumptionLim, occurs[best]);
      res := true;
    }

    // What has happened since an earlier state: clauses only got shorter and are queued
    // again then, and there are fewer literals unless nothing happened.
    ghost predicate Scanned(ca0: SDb, tr0: seq<Lit>, queue0: seq<CRef>)
      reads this`ca, this`trail, this`subsumptionQueue
    {
      && Shrinks(ca0, ca, subsumptionLim) && Requeued(ca0, ca, subsumptionQueue) && queue0 <= subsumptionQueue
      && (Occurrences(ca) < Occurrences(ca0) || (ca == ca0 && trail == tr0 && subsumptionQueue == queue0))
    }

    lemma ScannedRefl()
      ensures Scanned(ca, trail, subsumptionQueue)
    {
      ShrinksRefl(ca, subsumptionLim);
    }

    // Uses the clause on a candidate; afterwards they are not related.
    method UseOn(cr: CRef, dr: CRef, ghost ca0: SDb, ghost tr0: seq<Lit>, ghost queue0: seq<CRef>)
        returns (res: bool, r: Subsumption)
      requires Structure(-1) && QueueOk() && Subsumer(ca, trail, cr) && Alive(ca, dr) && cr != dr
      requires Candidate(ca, dr, subsumptionLim) && Scanned(ca0, tr0, queue0)
      modifies this`ca, this`dirty, this`occurs, this`assigns, this`trail, this`subsumptionQueue
      modifies this`elimHeap
      ensures Structure(-1) && QueueOk() && old(trail) <= trail && Subsumer(ca, trail, cr)
      ensures dr in ca && ca == old(ca)[dr := ca[dr]]
      ensures ca[dr].mark == 0 ==> !Related(ca[cr].lits, ca[dr].lits)
      ensures res ==> SameMeaning(old(ca), old(trail), ca, trail) && Scanned(ca0, tr0, queue0)
      ensures !res ==> forall tau :: !HoldsS(tau, old(ca), old(trail), -1)
      ensures !r.Strengthens? ==> occurs == old(occurs)
      ensures r.Strengthens? ==> StruckOut(old(ca), old(occurs), ca, occurs, dr, r.p.v)
    {
      hide TrailMatches, SDbOk, ListsOk, HoldsS, DistinctVars, HashOf, Subset, SubsetFlipping, SameMeaning, Outcome,
        Subsumer, StruckOut, Shrinks, Requeued, Related, Occurrences;
      ghost var ca1, tr1, queue1 := ca, trail, subsumptionQueue;
      SubsumerSize(ca, trail, cr);
      AliveOk(ca, dr, eliminated, -1);
      res, r := TryCandidate(cr, dr);
      if r.Strengthens? {
        StruckLiteral(ca1[cr].lits, ca1[dr].lits, r.p, |eliminated|);
      }
      OutcomeUnrelated(ca1, tr1, queue1, ca1[cr].lits, dr, r, ca, trail, subsumptionQueue, res);
      OutcomeShrinks(ca1, tr1, queue1, dr, r, ca, trail, subsumptionQueue, res, subsumptionLim);
      ShrinksTrans(ca0, ca1, ca, subsumptionLim, queue1, subsumptionQueue);
    }

    // Writes the next trail literal into the dummy clause and queues it.
    method QueueTrailLiteral()
      requires Structure(-1) && bwdsubAssigns < |trail|
      modifies this`ca, this`subsumptionQueue, this`bwdsubAssigns
      ensures Structure(-1) && SameMeaning(old(ca), trail, ca, trail) && bwdsubAssigns == old(bwdsubAssigns) + 1
      ensures TmpUnit in ca && ca[TmpUnit].lits == [trail[old(bwdsubAssigns)]] && ca == old(ca)[TmpUnit := ca[TmpUnit]]
      ensures HashOf(ca[TmpUnit].abs, ca[TmpUnit].lits) && subsumptionQueue == old(subsumptionQueue) + [TmpUnit]
    {
      hide TrailMatches, SDbOk, ListsOk, HashOf, HoldsS;
      var l := trail[bwdsubAssigns];
      bwdsubAssigns := bwdsubAssigns + 1;
      var abstraction := CalcAbstraction([l]);
      var c := SClause([l], ca[TmpUnit].mark, abstraction);
      TmpChange(ca, c, occurs, dirty, eliminated, -1);
      assert SameMeaning(ca, trail, ca[TmpUnit := c], trail);
      ghost var ca0 := ca;
      ca := ca[TmpUnit := c];
      HeapSame(ca0);
      subsumptionQueue := subsumptionQueue + [TmpUnit];
    }

    // Backward subsumption until the queue and the trail are used up. If the user may
    // interrupt, the queue can be dropped at any moment. Without that every clause that
    // was queued, or was used up before, subsumes and strengthens no candidate any more,
    // and no candidate has a variable of a new trail literal.
    method BackwardSubsumptionCheck(interrupts: bool) returns (res: bool)
      requires Structure(-1) && QueueOk()
      modifies this`ca, this`dirty, this`occurs, this`assigns, this`trail, this`subsumptionQueue, this`bwdsubAssigns
      modifies this`elimHeap, this`asynchInterrupt, this`cut
      ensures Structure(-1) && old(trail) <= trail && (res ==> QueueOk() && subsumptionQueue == [])
      ensures res ==> SameMeaning(old(ca), old(trail), ca, trail) && Shrinks(old(ca), ca, subsumptionLim)
      ensures res && !asynchInterrupt ==>
        QueuedOrUsed(Pool(old(ca), old(subsumptionQueue), subsumptionLim), old(ca), ca, [], subsumptionLim)
      ensures res && !asynchInterrupt ==> FactsUsed(ca, trail, old(bwdsubAssigns), |trail|, subsumptionLim)
      ensures res && !asynchInterrupt ==> forall i, d: CRef ::
        old(bwdsubAssigns) <= i < |trail| && Candidate(ca, d, subsumptionLim) ==> !HasVar(ca[d].lits, trail[i].v)
      ensures res ==> bwdsubAssigns == |trail|
      ensures Steady(interrupts)
      ensures old(Covered()) && res ==> Covered()
      ensures res ==>
        Occurrences(ca) < old(Occurrences(ca)) || (Occurrences(ca) == old(Occurrences(ca)) && trail == old(trail))
      ensures !res ==> forall tau :: !HoldsS(tau, old(ca), old(trail), -1)
    {
      hide TrailMatches, SDbOk, ListsOk, SameMeaning, HoldsS, QueuedOrUsed, FactsUsed, Shrinks, Pool, HasVar,
        Candidate, Occurrences, Watchful, Structure, Valid;
      ghost var was, lim, from := ca, subsumptionLim, bwdsubAssigns;
      ghost var pool := Pool(ca, subsumptionQueue, lim);
      PoolStart(ca, subsumptionQueue, lim);
      SameMeaningRefl(ca, trail);
      ShrinksRefl(ca, lim);
      FactsNone(ca, trail, from, lim);
      while |subsumptionQueue| > 0 || bwdsubAssigns < |trail|
        invariant Structure(-1) && QueueOk() && old(trail) <= trail
        invariant SameMeaning(old(ca), old(trail), ca, trail) && Shrinks(old(ca), ca, lim)
        invariant QueuedOrUsed(pool, was, ca, subsumptionQueue, lim) && cut == old(cut)
        invariant (old(asynchInterrupt) ==> asynchInterrupt)
          && (!interrupts ==> asynchInterrupt == old(asynchInterrupt))
        invariant from <= bwdsubAssigns && FactsUsed(ca, trail, from, bwdsubAssigns, lim)
        invariant Occurrences(ca) < old(Occurrences(ca))
          || (Occurrences(ca) == old(Occurrences(ca)) && trail == old(trail))
        decreases Occurrences(ca), if bwdsubAssigns < |trail| then |trail| - bwdsubAssigns else 0, |subsumptionQueue|
      {
        Interrupt(interrupts);
        if asynchInterrupt {
          DropQueue();
          break;
        }
        ghost var ca0, tr0 := ca, trail;
        res := SubsumeWithNext(pool, was, from);
        if !res {
          NoModelBefore(old(ca), old(trail), ca0, tr0);
          return;
        }
        SameMeaningTrans(old(ca), old(trail), ca0, tr0, ca, trail);
        ShrinksOn(old(ca), ca0, ca, lim);
      }
      if !asynchInterrupt {
        FactsGone(ca, trail, from, bwdsubAssigns, lim);
      }
      if old(Covered()) && !cut {
        WatchfulAfterCheck(was, old(subsumptionQueue), ca, touched, lim);
        FactsStay(was, ca, old(trail), trail, 0, from, lim);
        FactsJoin(ca, trail, from, bwdsubAssigns, lim);
      }
      res := true;
    }

    // An interrupt stays, and there is none unless the user may interrupt. Without it
    // nothing is dropped.
    twostate predicate Steady(interrupts: bool)
      reads this
    {
      && (old(asynchInterrupt) ==> asynchInterrupt) && (!interrupts ==> asynchInterrupt == old(asynchInterrupt))
      && (old(cut) ==> cut) && (!asynchInterrupt ==> cut == old(cut))
    }

    // The user may interrupt at any moment.
    method Interrupt(interrupts: bool)
      modifies this`asynchInterrupt
      ensures Steady(interrupts) && (old(Valid()) ==> Valid()) && (old(Structure(-1)) ==> Structure(-1))
    {
      hide StateOk, HeapOk, Watchful, FactsUsed, Sound, Recoverable, RecordsFor, Satisfiable;
      var now: bool := *;
      if interrupts && now {
        asynchInterrupt := true;
      }
    }

    // An interrupt drops the queue.
    method DropQueue()
      requires Structure(-1)
      modifies this`cut, this`subsumptionQueue, this`bwdsubAssigns
      ensures Structure(-1) && QueueOk() && Covered() && cut && subsumptionQueue == [] && bwdsubAssigns == |trail|
    {
      hide SDbOk, ListsOk, TrailMatches, HeapOk;
      cut := true;
      subsumptionQueue := [];
      bwdsubAssigns := |trail|;
    }

    // Takes one clause off the queue, or a trail literal, and uses it.
    method SubsumeWithNext(ghost pool: set<CRef>, ghost was: SDb, ghost from: nat) returns (res: bool)
      requires Structure(-1) && QueueOk() && (|subsumptionQueue| > 0 || bwdsubAssigns < |trail|)
      requires QueuedOrUsed(pool, was, ca, subsumptionQueue, subsumptionLim)
      requires from <= bwdsubAssigns && FactsUsed(ca, trail, from, bwdsubAssigns, subsumptionLim)
      modifies this`ca, this`dirty, this`occurs, this`assigns, this`trail, this`subsumptionQueue, this`bwdsubAssigns
      modifies this`elimHeap
      ensures Structure(-1) && old(trail) <= trail && (res ==> QueueOk()) && from <= bwdsubAssigns
      ensures res ==> SameMeaning(old(ca), old(trail), ca, trail) && Shrinks(old(ca), ca, subsumptionLim)
      ensures res ==> QueuedOrUsed(pool, was, ca, subsumptionQueue, subsumptionLim)
      ensures res ==> FactsUsed(ca, trail, from, bwdsubAssigns, subsumptionLim)
      ensures res ==>
        Occurrences(ca) < old(Occurrences(ca))
        || (Occurrences(ca) == old(Occurrences(ca)) && trail == old(trail)
          && if old(|subsumptionQueue|) > 0
            then bwdsubAssigns == old(bwdsubAssigns) && |subsumptionQueue| < old(|subsumptionQueue|)
            else old(bwdsubAssigns) < bwdsubAssigns <= |trail|)
      ensures !res ==> forall tau :: !HoldsS(tau, old(ca), old(trail), -1)
    {
      hide TrailMatches, SDbOk, ListsOk, SameMeaning, HoldsS, HashOf, QueuedOrUsed, FactsUsed, Shrinks, UsedUp,
        Occurrences;
      ghost var ca0, tr0, n := ca, trail, bwdsubAssigns;
      SameMeaningRefl(ca, trail);
      ShrinksRefl(ca, subsumptionLim);
      if |subsumptionQueue| == 0 && bwdsubAssigns < |trail| {
        assert subsumptionQueue == [];
        QueueTrailLiteral();
        TmpQueued(pool, was, ca0, ca[TmpUnit], subsumptionLim);
        assert ca[TmpUnit].lits[0] in trail;
        assert Subsumer(ca, trail, TmpUnit);
        assert subsumptionQueue == [TmpUnit];
      }
      FactsStay(ca0, ca, trail, trail, from, n, subsumptionLim);
      ghost var ca1 := ca;
      assert subsumptionQueue[0] in subsumptionQueue;
      res := UseFirst(pool, was);
      if !res {
        NoModelBefore(ca0, tr0, ca1, tr0);
        return;
      }
      SameMeaningTrans(ca0, tr0, ca1, tr0, ca, trail);
      ShrinksOn(ca0, ca1, ca, subsumptionLim);
      FactsStay(ca1, ca, tr0, trail, from, n, subsumptionLim);
      if n < bwdsubAssigns {
        FactsMore(ca, trail, from, n, subsumptionLim);
      }
    }

    // The clause to be used next: the dummy with a trail literal only if it is alone.
    ghost predicate FirstOk()
      reads this
    {
      && |subsumptionQueue| > 0 && bwdsubAssigns <= |trail| && (|subsumptionQueue| == 1 || QueueOk())
      && (subsumptionQueue[0] == TmpUnit ==> Subsumer(ca, trail, TmpUnit) && |subsumptionQueue| == 1)
    }

    // Takes the first clause off the queue and uses it, if it is still there.
    method UseFirst(ghost pool: set<CRef>, ghost was: SDb) returns (res: bool)
      requires Structure(-1) && FirstOk() && QueuedOrUsed(pool, was, ca, subsumptionQueue, subsumptionLim)
      modifies this`ca, this`dirty, this`occurs, this`assigns, this`trail, this`subsumptionQueue
      modifies this`elimHeap
      ensures Structure(-1) && old(trail) <= trail && (res ==> QueueOk())
      ensures res ==> SameMeaning(old(ca), old(trail), ca, trail) && Shrinks(old(ca), ca, subsumptionLim)
      ensures res ==> QueuedOrUsed(pool, was, ca, subsumptionQueue, subsumptionLim)
      ensures res && old(ca[subsumptionQueue[0]].mark) == 0 ==>
        UsedUp(ca, old(ca[subsumptionQueue[0]].lits), old(subsumptionQueue[0]), subsumptionLim)
      ensures res ==>
        Occurrences(ca) < old(Occurrences(ca))
        || (ca == old(ca) && trail == old(trail) && subsumptionQueue == old(subsumptionQueue[1..]))
      ensures !res ==> forall tau :: !HoldsS(tau, old(ca), old(trail), -1)
    {
      hide TrailMatches, SDbOk, ListsOk, SameMeaning, HoldsS, HashOf, QueuedOrUsed, Shrinks, UsedUp, Occurrences,
        Requeued;
      SameMeaningRefl(ca, trail);
      QueueTail(subsumptionQueue);
      ghost var ca0, queue := ca, subsumptionQueue;
      var cr := subsumptionQueue[0];
      assert cr in subsumptionQueue;
      subsumptionQueue := subsumptionQueue[1..];
      if ca[cr].mark != 0 {
        ScannedRefl();
        TurnDone(pool, was, ca, queue, ca, subsumptionQueue, cr, subsumptionLim);
        return true;
      }
      if cr != TmpUnit {
        AliveOk(ca, cr, eliminated, -1);
      }
      TrailVars(assigns, trail);
      res := ScanCandidates(cr);
      if res {
        TurnDone(pool, was, ca0, queue, ca, subsumptionQueue, cr, subsumptionLim);
      }
    }

    // Assumes the clause false and propagates: a conflict shows that it follows. The
    // assumptions are undone afterwards. Without a conflict the clause is true or a
    // tautology, or propagation could not go on with its literals false.
    method Implied(c: seq<Lit>, ghost x: int) returns (result: bool)
      requires Structure(x) && VarsBelow(c, |assigns|)
      ensures result ==> FollowsAll(ca, trail, c)
      ensures !result && fullPropagation ==> NotImplied(ca, assigns, c)
    {
      hide SDbOk, ListsOk, TrailMatches, HoldsS, HoldsC, Assigned, Val, Saturated;
      var m, tr := assigns, trail;
      AssumedStart(assigns, c);
      for i := 0 to |c|
        invariant TrailMatches(m, tr) && |m| == |assigns| && AssumedFalse(assigns, m, c, i)
        invariant forall tau :: HoldsS(tau, ca, trail, -1) && !HoldsC(tau, c) ==> HoldsS(tau, ca, tr, -1)
      {
        assert c[i] in c;
        if Val(m, c[i]) == LTrue {
          AssumedTrue(ca, assigns, m, c, i);
          return false;
        } else if Val(m, c[i]) != LFalse {
          forall tau | HoldsS(tau, ca, trail, -1) && !HoldsC(tau, c) ensures HoldsS(tau, ca, tr + [Neg(c[i])], -1)
          {
            Assumed(tau, ca, tr, c, c[i]);
          }
          ValCases(m, c[i]);
          TrailMatchesPush(m, tr, Neg(c[i]));
          AssignedLength(m, Neg(c[i]));
          AssumedMore(assigns, m, c, i);
          m, tr := Assigned(m, Neg(c[i])), tr + [Neg(c[i])];
        } else {
          AssumedAlready(assigns, m, c, i);
        }
      }
      DbVarsBelow(ca, eliminated, x);
      ghost var m0, tr0 := m, tr;
      result, m, tr := PropagateFrom(ca, m, tr, fullPropagation);
      if !result && fullPropagation {
        AssumedStuck(ca, assigns, m0, tr0, m, tr, c);
      }
    }

    // Adds a clause over variables not eliminated. It is dropped if it is already
    // implied (when that check is switched on), true or a tautology. With the check
    // on and full propagation a resolvent with both parents there is always dropped.
    method AddClauseCore(ps: seq<Lit>, ghost x: int) returns (res: bool)
      requires Structure(x) && QueueOk() && Kept(ps, eliminated, -1)
      modifies this`ca, this`caSize, this`assigns, this`trail, this`occurs, this`subsumptionQueue
      modifies this`touched
      ensures Structure(x) && QueueOk() && old(trail) <= trail && Preserved(old(ca), ca)
      ensures (old(Covered()) ==> Covered()) && (old(Orderly()) ==> Orderly())
      ensures OtherLists(old(occurs), occurs, ps)
      ensures res ==> Absorbs(old(ca), old(trail), ca, trail, ps)
      ensures res && !useRcheck ==> Lasting(ca, trail, ps)
      ensures useRcheck && fullPropagation && HasParents(old(ca), ps, x) ==> res && ca == old(ca) && trail == old(trail)
      ensures Unknown(old(ca), old(trail), old(assigns), ps) ==>
        res && trail == old(trail) && Stores(old(ca), old(caSize), ca, ps)
      ensures !res ==> Refuted(old(ca), old(trail), ps)
    {
      hide SDbOk, ListsOk, TrailMatches, HoldsS, HoldsC, Absorbs, Refuted, Mentions, Lasting, HasParents, NotImplied,
        Reduced, Unknown, Watchful, FactsUsed;
      if useRcheck {
        var implied := Implied(ps, x);
        if implied {
          AbsorbsImplied(ca, trail, ps);
          UnknownNotImplied(ca, trail, assigns, ps);
          return true;
        }
      }
      var trivial, c := SimplifyLits(assigns, ps);
      if trivial {
        AbsorbsTrivial(ca, trail, assigns, ps);
        UnknownNotTrivial(ca, trail, assigns, ps);
        return true;
      }
      AreReduced(assigns, ps, c);
      if useRcheck && fullPropagation {
        ResolventImplied(ca, assigns, ps, c, x);
      }
      UnknownKept(ca, trail, assigns, ps, c);
      if |c| == 0 {
        AbsorbsEmpty(ca, trail, assigns, ps);
        res := false;
      } else if |c| == 1 {
        assert c == [c[0]];
        res := AddUnit(ps, c[0], x);
      } else {
        StoreClause(ps, c, x);
        res := true;
      }
    }

    // What is left of the clause is one literal, which becomes a fact.
    method AddUnit(ghost ps: seq<Lit>, l: Lit, ghost x: int) returns (res: bool)
      requires Structure(x) && Reduced(assigns, ps, [l]) && Kept(ps, eliminated, -1)
      modifies this`assigns, this`trail
      ensures Structure(x) && old(trail) <= trail && (bwdsubAssigns <= |old(trail)| && old(Covered()) ==> Covered())
      ensures res ==> Absorbs(ca, old(trail), ca, trail, ps) && Lasting(ca, trail, ps)
      ensures !res ==> Refuted(ca, old(trail), ps)
    {
      hide SDbOk, ListsOk, TrailMatches, HoldsS, HoldsC, Absorbs, Refuted, Mentions, Lasting, Watchful, FactsUsed;
      assert l in [l] && l in ps;
      ghost var m0, tr0 := assigns, trail;
      UncheckedEnqueue(l, x);
      var conflict := Propagate(x);
      AbsorbsUnit(ca, tr0, m0, ps, l, trail);
      CoveredLonger(tr0);
      res := !conflict;
    }

    lemma CoveredLonger(tr0: seq<Lit>)
      requires tr0 <= trail
      ensures bwdsubAssigns <= |tr0| && FactsUsed(ca, tr0, 0, bwdsubAssigns, subsumptionLim) ==>
        FactsUsed(ca, trail, 0, bwdsubAssigns, subsumptionLim)
    {
      if bwdsubAssigns <= |tr0| && FactsUsed(ca, tr0, 0, bwdsubAssigns, subsumptionLim) {
        FactsLonger(ca, tr0, trail, 0, bwdsubAssigns, subsumptionLim);
      }
    }

    // Stores the clause under the next reference, in the lists of its variables, which
    // are touched, and in the queue.
    method StoreClause(ghost ps: seq<Lit>, c: seq<Lit>, ghost x: int)
      requires Structure(x) && QueueOk() && Kept(ps, eliminated, -1)
      requires |c| >= 2 && DistinctVars(c) && Reduced(assigns, ps, c)
      modifies this`ca, this`caSize, this`occurs, this`subsumptionQueue
      modifies this`touched
      ensures Structure(x) && QueueOk() && Preserved(old(ca), ca) && OtherLists(old(occurs), occurs, ps)
      ensures Absorbs(old(ca), trail, ca, trail, ps) && Lasting(ca, trail, ps)
      ensures (old(Covered()) ==> Covered()) && Orderly()
      ensures exists a :: ca == old(ca)[old(caSize) := SClause(c, 0, a)]
    {
      hide SDbOk, ListsOk, TrailMatches, Absorbs, Lasting, Reduced, HashOf, DistinctVars, OtherLists, HeapOk, Eligible,
        Watchful, FactsUsed, Pushed;
      var abstraction := CalcAbstraction(c);
      var cr := caSize;
      var clause := SClause(c, 0, abstraction);
      AbsorbsClause(ca, trail, assigns, ps, cr, clause);
      ReducedKept(assigns, ps, c, eliminated, x);
      AddedOk(ca, cr, clause, eliminated, x);
      CoveredAdd(ps, cr, clause, x);
      ghost var was := occurs;
      assert c[0] in c;
      PushOccurrences(cr, c);
      assert c[0].v in touched;
      AddedLists(ca, cr, clause, was, dirty, occurs);
      PushedOthers(occurs, was, cr, c, assigns, ps);
      subsumptionQueue := subsumptionQueue + [cr];
      ghost var ca0 := ca;
      ca := ca[cr := clause];
      caSize := cr + 1;
      HeapSame(ca0);
    }

    method PushOccurrences(cr: CRef, c: seq<Lit>)
      requires DistinctVars(c) && VarsBelow(c, |occurs|)
      modifies this`occurs, this`touched
      ensures Pushed(occurs, old(occurs), cr, c, |c|) && touched == old(touched) + VarsOf(c)
    {
      PushedStart(occurs, cr, c);
      for i := 0 to |c|
        invariant Pushed(occurs, old(occurs), cr, c, i) && touched == old(touched) + VarsOf(c[..i])
      {
        assert c[i] in c;
        PushedStep(occurs, old(occurs), cr, c, i);
        occurs := occurs[c[i].v := occurs[c[i].v] + [cr]];
        TouchedStep(c, i);
        touched := touched + {c[i].v};
      }
      assert c[..|c|] == c;
    }

    lemma CoveredAdd(ps: seq<Lit>, cr: CRef, c: SClause, x: int)
      requires Structure(x) && cr !in ca && Reduced(assigns, ps, c.lits)
      ensures Watchful(ca, subsumptionQueue, touched, subsumptionLim) ==>
        Watchful(ca[cr := c], subsumptionQueue + [cr], touched + VarsOf(c.lits), subsumptionLim)
      ensures FactsUsed(ca, trail, 0, bwdsubAssigns, subsumptionLim) ==>
        FactsUsed(ca[cr := c], trail, 0, bwdsubAssigns, subsumptionLim)
    {
      hide ListsOk, HeapOk, Watchful, FactsUsed;
      if Watchful(ca, subsumptionQueue, touched, subsumptionLim) {
        WatchfulAdd(ca, subsumptionQueue, touched, cr, c, subsumptionLim);
      }
      forall l | l in trail ensures !HasVar(c.lits, l.v)
      {
        assert Val(assigns, l) == LTrue;
      }
      if FactsUsed(ca, trail, 0, bwdsubAssigns, subsumptionLim) {
        FactsAdd(ca, trail, 0, bwdsubAssigns, cr, c, subsumptionLim);
      }
    }

    // ---- Variable elimination ----

    // Splits the clauses over `v` by the sign of its literal.
    method SplitOccurrences(v: nat) returns (pos: seq<CRef>, neg: seq<CRef>)
      requires Structure(-1) && v < |occurs| && !dirty[v]
      ensures SidesOk(ca, pos, neg, v) && |pos| + |neg| == |occurs[v]| && NoRepeats(pos) && NoRepeats(neg)
    {
      hide TrailMatches, SDbOk;
      var cls := occurs[v];
      assert ListOk(ca, cls, false, v);
      pos, neg := [], [];
      for i := 0 to |cls|
        invariant |pos| + |neg| == i && NoRepeats(pos) && NoRepeats(neg)
        invariant forall cr :: cr in pos <==> cr in cls[..i] && Lit(v, false) in ca[cr].lits
        invariant forall cr :: cr in neg ==> cr in cls[..i]
        invariant forall cr :: cr in cls[..i] && cr !in pos ==> cr in neg
        invariant forall cr :: cr in neg ==> Lit(v, false) !in ca[cr].lits
      {
        assert cls[..i + 1] == cls[..i] + [cls[i]];
        assert cls[i] in cls;
        StillThere(cls, i);
        var found := Find(ca[cls[i]].lits, Lit(v, false));
        if found {
          pos := pos + [cls[i]];
        } else {
          neg := neg + [cls[i]];
        }
      }
      assert cls[..|cls|] == cls;
      SplitDone(ca, cls, pos, neg, v, eliminated);
    }

    // Whether eliminating the variable would add too many clauses or too long ones.
    method CountResolvents(pos: seq<CRef>, neg: seq<CRef>, v: nat, n: nat) returns (tooMany: bool)
      requires OverVar(ca, pos, v) && OverVar(ca, neg, v)
      ensures tooMany <==>
        TooManyResolvents(LitsOf(ca, pos), LitsOf(ca, neg), v, n + grow)
        || SomeTooLong(LitsOf(ca, pos), LitsOf(ca, neg), v, clauseLim)
    {
      hide Clash, Resolvent, TableCount, RowCount, DistinctVars, HasVar;
      ghost var ps, qs := LitsOf(ca, pos), LitsOf(ca, neg);
      var cnt := 0;
      CountStart(ps, qs, v);
      for i := 0 to |pos|
        invariant cnt == TableCount(ps[..i], qs, v) && (cnt > 0 ==> cnt <= n + grow)
        invariant forall a, b ::
          0 <= a < i && 0 <= b < |qs| && !Clash(ps[a], qs[b], v) ==> !TooLong(ps[a], qs[b], v, clauseLim)
      {
        assert pos[i] in pos;
        for j := 0 to |neg|
          invariant cnt == TableCount(ps[..i], qs, v) + RowCount(ps[i], qs[..j], v) && (cnt > 0 ==> cnt <= n + grow)
          invariant forall b :: 0 <= b < j && !Clash(ps[i], qs[b], v) ==> !TooLong(ps[i], qs[b], v, clauseLim)
        {
          assert neg[j] in neg;
          RowCountStep(ps[i], qs, v, j);
          var ok, clauseSize := MergeSize(ca[pos[i]].lits, ca[neg[j]].lits, v);
          if ok {
            cnt := cnt + 1;
            if cnt > n + grow || (clauseLim != -1 && clauseSize > clauseLim) {
              CountedSoFar(ps, qs, v, i, j + 1);
              return true;
            }
          }
        }
        assert qs[..|neg|] == qs;
        TableCountStep(ps, qs, v, i);
      }
      assert ps[..|pos|] == ps;
      tooMany := false;
    }

    // Appends the clauses of one side to the reconstruction stack.
    method StoreSide(list: seq<CRef>, v: nat)
      requires OverVar(ca, list, v)
      modifies this`elimclauses
      ensures forall c :: c in LitsOf(ca, list) ==> exists l :: l in c && l.v == v
      ensures elimclauses == old(elimclauses) + Pack(RecordsOf(LitsOf(ca, list), v))
    {
      hide DistinctVars, Codes, RecordOf, Pack;
      ghost var cs := LitsOf(ca, list);
      OverVarLits(ca, list, v);
      ghost var rs := RecordsOf(cs, v);
      PackNone();
      for i := 0 to |list|
        invariant elimclauses == old(elimclauses) + Pack(rs[..i])
      {
        assert list[i] in list && cs[i] in cs;
        PackOne(rs, i);
        elimclauses := MkElimClause(elimclauses, v, ca[list[i]].lits);
      }
      assert rs[..|list|] == rs;
    }

    // Adds the resolvent of two clauses unless it is a tautology.
    method AddResolvent(p: CRef, q: CRef, v: nat) returns (res: bool)
      requires Structure(v) && QueueOk() && v < |eliminated| && Alive(ca, p) && Alive(ca, q)
      requires Lit(v, false) in ca[p].lits && Lit(v, true) in ca[q].lits
      modifies this`ca, this`caSize, this`assigns, this`trail, this`occurs, this`subsumptionQueue
      modifies this`touched
      ensures Structure(v) && QueueOk() && occurs[v] == old(occurs[v]) && (old(Covered()) ==> Covered())
      ensures res ==> Enriched(old(ca), old(trail), ca, trail, v)
      ensures res && !useRcheck ==> Resolved(ca, trail, old(ca[p].lits), old(ca[q].lits), v, v)
      ensures useRcheck && fullPropagation ==> res && ca == old(ca) && trail == old(trail)
      ensures !res ==> forall tau :: !HoldsS(tau, old(ca), old(trail), -1)
    {
      hide SDbOk, ListsOk, TrailMatches, HoldsS, HashOf, Kept, Clash, DistinctVars, Enriched, Resolvent, OtherLists,
        Absorbs, Lasting, Refuted, HasParents, HasVar, Watchful, FactsUsed;
      ghost var ca0, tr0 := ca, trail;
      AliveOk(ca, p, eliminated, v);
      AliveOk(ca, q, eliminated, v);
      EnrichedRefl(ca, trail, v);
      var ok, resolvent := Merge(ca[p].lits, ca[q].lits, v);
      if !ok {
        return true;
      }
      ResolventKept(resolvent, ca[p].lits, ca[q].lits, v, eliminated);
      TheParents(ca, resolvent, p, q, v);
      ghost var occ0 := occurs;
      res := AddClauseCore(resolvent, v);
      ListKept(occ0, occurs, resolvent, v);
      ResolventAdded(ca0, tr0, ca, trail, resolvent, p, q, v);
    }

    // Adds the resolvents of one clause with all clauses of the other side.
    method AddRow(p: CRef, neg: seq<CRef>, v: nat) returns (res: bool)
      requires Structure(v) && QueueOk() && v < |eliminated|
      requires InSide(ca, [p], Lit(v, false)) && InSide(ca, neg, Lit(v, true))
      modifies this`ca, this`caSize, this`assigns, this`trail, this`occurs, this`subsumptionQueue
      modifies this`touched
      ensures Structure(v) && QueueOk() && occurs[v] == old(occurs[v]) && (old(Covered()) ==> Covered())
      ensures res ==> Enriched(old(ca), old(trail), ca, trail, v)
      ensures res && !useRcheck ==> RowDone(ca, trail, old(ca[p].lits), LitsOf(old(ca), neg), |neg|, v)
      ensures useRcheck && fullPropagation ==> res && ca == old(ca) && trail == old(trail)
      ensures !res ==> forall tau :: !HoldsS(tau, old(ca), old(trail), -1)
    {
      hide SDbOk, ListsOk, TrailMatches, HoldsS, Enriched, RowDone, InSide, Watchful, FactsUsed;
      InSideAlive(ca, neg, Lit(v, true));
      InSideAlive(ca, [p], Lit(v, false));
      assert p in [p];
      ghost var ca0, tr0, pl, qs := ca, trail, ca[p].lits, LitsOf(ca, neg);
      EnrichedRefl(ca, trail, v);
      RowStart(ca, trail, pl, qs, v);
      for j := 0 to |neg|
        invariant Structure(v) && QueueOk() && occurs[v] == old(occurs[v]) && (old(Covered()) ==> Covered())
        invariant Enriched(ca0, tr0, ca, trail, v)
        invariant !useRcheck ==> RowDone(ca, trail, pl, qs, j, v)
        invariant useRcheck && fullPropagation ==> ca == ca0 && trail == tr0
      {
        InSideStays(ca0, tr0, ca, trail, [p], Lit(v, false), v);
        InSideStays(ca0, tr0, ca, trail, neg, Lit(v, true), v);
        assert neg[j] in neg && p in [p];
        ghost var ca1, tr1 := ca, trail;
        res := AddResolvent(p, neg[j], v);
        if !res {
          EnrichedRefuted(ca0, tr0, ca1, tr1, v);
          return;
        }
        EnrichedTrans(ca0, tr0, ca1, tr1, ca, trail, v);
        if !useRcheck {
          RowStays(ca1, tr1, ca, trail, pl, qs, j, v);
          RowGrows(ca, trail, pl, qs, j, v);
        }
      }
      res := true;
    }

    // Adds all resolvents of the two sides.
    method AddResolvents(pos: seq<CRef>, neg: seq<CRef>, v: nat) returns (res: bool)
      requires Structure(v) && QueueOk() && v < |eliminated|
      requires InSide(ca, pos, Lit(v, false)) && InSide(ca, neg, Lit(v, true))
      modifies this`ca, this`caSize, this`assigns, this`trail, this`occurs, this`subsumptionQueue
      modifies this`touched
      ensures Structure(v) && QueueOk() && occurs[v] == old(occurs[v]) && (old(Covered()) ==> Covered())
      ensures res ==> Enriched(old(ca), old(trail), ca, trail, v)
      ensures res && !useRcheck ==> TableDone(ca, trail, LitsOf(old(ca), pos), |pos|, LitsOf(old(ca), neg), v)
      ensures useRcheck && fullPropagation ==> res && ca == old(ca) && trail == old(trail)
      ensures !res ==> forall tau :: !HoldsS(tau, old(ca), old(trail), -1)
    {
      hide SDbOk, ListsOk, TrailMatches, HoldsS, Enriched, RowDone, TableDone, InSide, Watchful, FactsUsed;
      InSideAlive(ca, pos, Lit(v, false));
      InSideAlive(ca, neg, Lit(v, true));
      ghost var ca0, tr0, ps, qs := ca, trail, LitsOf(ca, pos), LitsOf(ca, neg);
      EnrichedRefl(ca, trail, v);
      TableStart(ca, trail, ps, qs, v);
      for i := 0 to |pos|
        invariant Structure(v) && QueueOk() && occurs[v] == old(occurs[v]) && (old(Covered()) ==> Covered())
        invariant Enriched(ca0, tr0, ca, trail, v)
        invariant !useRcheck ==> TableDone(ca, trail, ps, i, qs, v)
        invariant useRcheck && fullPropagation ==> ca == ca0 && trail == tr0
      {
        InSideStays(ca0, tr0, ca, trail, pos, Lit(v, false), v);
        InSideStays(ca0, tr0, ca, trail, neg, Lit(v, true), v);
        InSideOne(ca, pos, i, Lit(v, false));
        ghost var ca1, tr1 := ca, trail;
        assert pos[i] in pos && ca1[pos[i]].lits == ps[i];
        SameLitsOf(ca0, ca1, neg);
        res := AddRow(pos[i], neg, v);
        if !res {
          EnrichedRefuted(ca0, tr0, ca1, tr1, v);
          return;
        }
        EnrichedTrans(ca0, tr0, ca1, tr1, ca, trail, v);
        if !useRcheck {
          TableStays(ca1, tr1, ca, trail, ps, i, qs, v);
          TableGrows(ca, trail, ps, i, qs, v);
        }
      }
      res := true;
    }

    // Deletes the old clauses over `v` and frees its list.
    method RemoveOccurrences(v: nat)
      requires Structure(v) && v < |occurs| && ListOk(ca, occurs[v], false, v) && bwdsubAssigns <= |trail|
      modifies this`ca, this`dirty, this`occurs
      modifies this`elimHeap
      ensures Structure(-1) && (old(Covered()) ==> Covered())
      ensures forall tau :: HoldsS(tau, ca, trail, -1) <==> HoldsS(tau, old(ca), trail, v)
    {
      hide SDbOk, ListsOk, TrailMatches, HoldsS, ListOk, Watchful, FactsUsed, HeapOk;
      var cls := occurs[v];
      ListFacts(ca, cls, v);
      ghost var ca0 := ca;
      DeletedStart(ca, cls);
      for i := 0 to |cls|
        invariant Structure(v) && occurs == old(occurs) && Deleted(ca0, ca, cls, i) && (old(Covered()) ==> Covered())
      {
        assert cls[i] in cls;
        StillThere(cls, i);
        DeletedStep(ca0, ca, cls, i);
        RemoveClause(cls[i], v);
      }
      NoneLeft(ca0, ca, cls, occurs[v], v, trail);
      NoLongerExempt(ca, eliminated, v);
      EmptyListOk(ca, occurs, dirty, v);
      occurs := occurs[v := []];
    }

    // Stores the smaller side, and the unit that makes the other side true by default.
    method StoreClauses(pos: seq<CRef>, neg: seq<CRef>, v: nat) returns (ghost side: seq<Record>, ghost d: Lit)
      requires Structure(-1) && v < |eliminated| && SidesOk(ca, pos, neg, v) && elimclauses == Pack(records)
      modifies this`elimclauses, this`records
      ensures d == Lit(v, |pos| > |neg|)
      ensures records == old(records) + (side + [[Neg(d)]]) && elimclauses == Pack(records)
      ensures StoresSide(side, Side(ca, d), d) && RecordsOk(side, |eliminated|)
      ensures forall r :: r in side ==> |r| > 0 && r[0] == d
    {
      hide ListsOk, TrailMatches, HashOf, SDbOk, OverVar, StoresSide, Pack, RecordsOf;
      SidesOverVar(ca, pos, neg, v, eliminated, -1);
      OverVarLits(ca, pos, v);
      OverVarLits(ca, neg, v);
      if |pos| > |neg| {
        d := Lit(v, true);
        StoreSide(neg, v);
        SideStored(ca, neg, d, eliminated, -1, |eliminated|);
        side := RecordsOf(LitsOf(ca, neg), v);
        elimclauses := elimclauses + [ToInt(Lit(v, false)), 1];
      } else {
        d := Lit(v, false);
        StoreSide(pos, v);
        SideStored(ca, pos, d, eliminated, -1, |eliminated|);
        side := RecordsOf(LitsOf(ca, pos), v);
        elimclauses := elimclauses + [ToInt(Lit(v, true)), 1];
      }
      PackSide(records, side, Neg(d));
      records := records + (side + [[Neg(d)]]);
    }

    // What is known once `v` was eliminated: the walk over the new records restores
    // the old clauses if the check was off or the resolvents followed anyway, and
    // with full propagation only then.
    ghost predicate EliminatedAs(ca0: SDb, tr0: seq<Lit>, elim0: seq<bool>, recs0: seq<Record>, v: nat,
        top: seq<Record>)
      reads this`ca, this`trail, this`records
      requires v < |elim0|
    {
      && records == recs0 + top && RecordsOk(top, |elim0|)
      && (!useRcheck || ResolventsFollow(ca0, tr0, v) ==> Restores(ca0, tr0, ca, trail, elim0, v, top))
      && (fullPropagation && Restores(ca0, tr0, ca, trail, elim0, v, top) ==>
        !useRcheck || ResolventsFollow(ca0, tr0, v))
    }

    ghost predicate SameState(ca0: SDb, tr0: seq<Lit>, touched0: set<nat>, queue0: seq<CRef>, bwd0: nat)
      reads this
    {
      ca == ca0 && trail == tr0 && touched == touched0 && subsumptionQueue == queue0 && bwdsubAssigns == bwd0
    }

    // Replaces the clauses over `v` by their resolvents, unless that is too many.
    // With the redundancy check on and full propagation no resolvent is added at all:
    // what is left means no more than the clauses without `v`.
    method EliminateVar(v: nat, interrupts: bool) returns (res: bool, ghost top: seq<Record>)
      requires Valid() && ok && v < |eliminated| && !frozen[v] && !eliminated[v] && assigns[v] == LUndef
      modifies this`ca, this`caSize, this`assigns, this`trail, this`occurs, this`dirty, this`eliminated, this`decision
      modifies this`touched, this`elimHeap, this`asynchInterrupt, this`cut
      modifies this`elimclauses, this`records, this`subsumptionQueue, this`bwdsubAssigns, this`lossless
      ensures Stacked() && eliminated == old(eliminated)[v := eliminated[v]]
      ensures EliminationLimits(old(ca), v, grow, clauseLim, eliminated[v])
      ensures res ==> Valid()
      ensures Steady(interrupts) && (res && eliminated[v] ==> subsumptionQueue == [] && bwdsubAssigns == |trail|)
      ensures !eliminated[v] ==> res && elimHeap == old(elimHeap) && assigns == old(assigns)
      ensures !eliminated[v] ==>
        SameState(old(ca), old(trail), old(touched), old(subsumptionQueue), old(bwdsubAssigns))
      ensures eliminated[v] ==> StoresSmaller(old(ca), v, top)
      ensures res && eliminated[v] ==> EliminatedAs(old(ca), old(trail), old(eliminated), old(records), v, top)
      ensures res && eliminated[v] && useRcheck && fullPropagation ==>
        forall tau :: HoldsS(tau, ca, trail, -1) <==> HoldsS(tau, old(ca), old(trail), v)
      ensures lossless == (old(lossless) && (eliminated[v] ==> !useRcheck || ResolventsFollow(old(ca), old(trail), v)))
      ensures !res ==> !Satisfiable(formula)
    {
      hide SDbOk, ListsOk, TrailMatches, Sound, Recoverable, RecordsFor, Satisfiable, Restores, ResolventsFollow,
        HoldsS, SidesOk, TopFor;
      Lookup(v, -1);
      var cls := occurs[v];
      var pos, neg := SplitOccurrences(v);
      SidesOverVar(ca, pos, neg, v, eliminated, -1);
      var tooMany := CountResolvents(pos, neg, v, |cls|);
      LimitsDecided(ca, v, pos, neg, grow, clauseLim, !tooMany);
      top := [];
      if tooMany {
        return true, top;
      }
      res, top := ReplaceAndSubsume(pos, neg, v, interrupts);
    }

    // The elimination proper, followed by backward subsumption.
    method ReplaceAndSubsume(pos: seq<CRef>, neg: seq<CRef>, v: nat, interrupts: bool)
        returns (res: bool, ghost top: seq<Record>)
      requires Valid() && ok && v < |eliminated| && !eliminated[v] && assigns[v] == LUndef
      requires SidesOk(ca, pos, neg, v) && !dirty[v]
      modifies this`ca, this`caSize, this`assigns, this`trail, this`occurs, this`dirty, this`eliminated, this`decision
      modifies this`touched, this`elimHeap, this`asynchInterrupt, this`cut
      modifies this`elimclauses, this`records, this`subsumptionQueue, this`bwdsubAssigns, this`lossless
      ensures Stacked() && eliminated == old(eliminated)[v := true]
      ensures TopFor(old(ca), v, pos, neg, top)
      ensures Steady(interrupts) && (res ==> subsumptionQueue == [] && bwdsubAssigns == |trail|)
      ensures res ==> Valid() && EliminatedAs(old(ca), old(trail), old(eliminated), old(records), v, top)
      ensures res && useRcheck && fullPropagation ==>
        forall tau :: HoldsS(tau, ca, trail, -1) <==> HoldsS(tau, old(ca), old(trail), v)
      ensures lossless == (old(lossless) && (!useRcheck || ResolventsFollow(old(ca), old(trail), v)))
      ensures !res ==> !Satisfiable(formula)
    {
      hide StateOk, SDbOk, HeapOk, Watchful, FactsUsed, Stacked, Occurrences, Sound, Recoverable, RecordsFor,
        Satisfiable, Restores, ResolventsFollow, HoldsS, SidesOk, SameMeaning, RecordsOk, TopFor;
      ghost var ca0, tr0, elim0 := ca, trail, eliminated;
      DbOk();
      res, top := ReplaceClauses(pos, neg, v);
      if !res {
        return;
      }
      ghost var ca1, tr1 := ca, trail;
      DbOk();
      res := KeepSubsuming(interrupts);
      if !res {
        return;
      }
      Restored(ca0, tr0, elim0, ca1, tr1, v, top);
    }

    lemma DbOk()
      requires Structure(-1)
      ensures SDbOk(ca, eliminated, -1)
    {
    }

    // What backward subsumption leaves of the effect of an elimination.
    lemma Restored(ca0: SDb, tr0: seq<Lit>, elim0: seq<bool>, ca1: SDb, tr1: seq<Lit>, v: nat, top: seq<Record>)
      requires Structure(-1) && v < |elim0| && eliminated == elim0[v := true] && SDbOk(ca0, elim0, -1)
      requires SDbOk(ca1, eliminated, -1) && SameMeaning(ca1, tr1, ca, trail) && tr1 <= trail
      requires RecordsOk(top, |elim0|) && forall r: Record :: r in top ==> r[0].v == v
      requires !useRcheck || ResolventsFollow(ca0, tr0, v) ==> Restores(ca0, tr0, ca1, tr1, elim0, v, top)
      requires useRcheck && fullPropagation ==> forall tau :: HoldsS(tau, ca1, tr1, -1) <==> HoldsS(tau, ca0, tr0, v)
      ensures !useRcheck || ResolventsFollow(ca0, tr0, v) ==> Restores(ca0, tr0, ca, trail, elim0, v, top)
      ensures useRcheck && fullPropagation ==> forall tau :: HoldsS(tau, ca, trail, -1) <==> HoldsS(tau, ca0, tr0, v)
      ensures useRcheck && fullPropagation && Restores(ca0, tr0, ca, trail, elim0, v, top) ==>
        ResolventsFollow(ca0, tr0, v)
    {
      hide SDbOk, ListsOk, TrailMatches, HoldsS, Restores, ResolventsFollow, RecordsOk;
      if !useRcheck || ResolventsFollow(ca0, tr0, v) {
        assert forall l :: l in tr1 ==> l in trail;
        RestoresLater(ca0, tr0, ca1, tr1, ca, trail, elim0, v, top);
      }
      if useRcheck && fullPropagation {
        RestoredOnlyIf(ca0, tr0, elim0, v, top);
      }
    }

    // If a walk restores the old clauses, their resolvents followed.
    lemma RestoredOnlyIf(ca0: SDb, tr0: seq<Lit>, elim0: seq<bool>, v: nat, top: seq<Record>)
      requires Structure(-1) && v < |elim0| && eliminated == elim0[v := true] && SDbOk(ca0, elim0, -1)
      requires RecordsOk(top, |elim0|) && forall r: Record :: r in top ==> r[0].v == v
      requires forall tau :: HoldsS(tau, ca, trail, -1) <==> HoldsS(tau, ca0, tr0, v)
      ensures Restores(ca0, tr0, ca, trail, elim0, v, top) ==> ResolventsFollow(ca0, tr0, v)
    {
      hide SDbOk, ListsOk, TrailMatches, HoldsS, Restores, ResolventsFollow, RecordsOk;
      TrailVars(assigns, trail);
      if Restores(ca0, tr0, ca, trail, elim0, v, top) {
        RestoringMeansFollowing(ca0, tr0, ca, trail, elim0, v, top);
      }
    }

    // Backward subsumption, which changes neither what the clauses mean nor how
    // models are extended.
    method KeepSubsuming(interrupts: bool) returns (res: bool)
      requires Valid() && ok
      modifies this`ca, this`dirty, this`occurs, this`assigns, this`trail, this`subsumptionQueue, this`bwdsubAssigns
      modifies this`elimHeap, this`asynchInterrupt, this`cut
      ensures Stacked()
      ensures res ==> Valid() && SameMeaning(old(ca), old(trail), ca, trail) && old(trail) <= trail
      ensures Steady(interrupts) && (res ==> subsumptionQueue == [] && bwdsubAssigns == |trail|)
      ensures res ==>
        Occurrences(ca) < old(Occurrences(ca)) || (Occurrences(ca) == old(Occurrences(ca)) && trail == old(trail))
      ensures !res ==> !Satisfiable(formula)
    {
      hide SDbOk, ListsOk, TrailMatches, HoldsS, Sound, Recoverable, RecordsFor, Satisfiable, SameMeaning;
      ghost var ca0, tr0 := ca, trail;
      res := BackwardSubsumptionCheck(interrupts);
      if !res {
        RefutesFormula(formula, ca0, tr0);
        return;
      }
      SoundStep(formula, ca0, tr0, ca, trail);
      if lossless {
        assert forall l :: l in tr0 ==> l in trail;
        RecoverStep(ca0, tr0, ca, trail, eliminated, records, formula);
      }
    }

    // Stores the smaller side, adds the resolvents and deletes both sides.
    method ReplaceClauses(pos: seq<CRef>, neg: seq<CRef>, v: nat) returns (res: bool, ghost top: seq<Record>)
      requires Valid() && ok && v < |eliminated| && !eliminated[v] && assigns[v] == LUndef
      requires SidesOk(ca, pos, neg, v) && !dirty[v]
      modifies this`ca, this`caSize, this`assigns, this`trail, this`occurs, this`dirty, this`eliminated, this`decision
      modifies this`touched, this`elimHeap
      modifies this`elimclauses, this`records, this`subsumptionQueue, this`lossless
      ensures Stacked() && eliminated == old(eliminated)[v := true]
      ensures records == old(records) + top && RecordsOk(top, |eliminated|) && TopFor(old(ca), v, pos, neg, top)
      ensures forall r: Record :: r in top ==> r[0].v == v
      ensures res ==> Valid()
      ensures res && (!useRcheck || ResolventsFollow(old(ca), old(trail), v)) ==>
        Restores(old(ca), old(trail), ca, trail, old(eliminated), v, top)
      ensures res && useRcheck && fullPropagation ==>
        forall tau :: HoldsS(tau, ca, trail, -1) <==> HoldsS(tau, old(ca), old(trail), v)
      ensures lossless == (old(lossless) && (!useRcheck || ResolventsFollow(old(ca), old(trail), v)))
      ensures !res ==> !Satisfiable(formula)
    {
      hide SDbOk, ListsOk, TrailMatches, HoldsS, Sound, Recoverable, RecordsFor, TableDone, Satisfiable, StoresSide,
        Enriched, ListOk, Restores, ResolventsFollow, SidesOk, RecordsOk, Pack, Side;
      ghost var ca0, tr0, elim0, recs0 := ca, trail, eliminated, records;
      ghost var side, d := StoreAndMark(pos, neg, v);
      top := side + [[Neg(d)]];
      ghost var ca2;
      res, ca2 := ResolveAndRemove(pos, neg, v);
      if !res {
        RefutesFormula(formula, ca0, tr0);
        return;
      }
      EliminatedSound(formula, ca0, tr0, ca2, trail, ca, v);
      if !useRcheck || ResolventsFollow(ca0, tr0, v) {
        if useRcheck {
          FollowStays(ca0, tr0, ca2, trail, pos, neg, v);
        }
        EliminatedRestores(ca0, tr0, ca2, trail, ca, elim0, pos, neg, side, d);
        if lossless {
          RecoverElim(ca0, tr0, ca, trail, elim0, v, top, recs0, formula);
        }
      }
    }

    // Stores the clauses of one side and marks the variable as eliminated.
    method StoreAndMark(pos: seq<CRef>, neg: seq<CRef>, v: nat) returns (ghost side: seq<Record>, ghost d: Lit)
      requires Valid() && ok && v < |eliminated| && !eliminated[v] && assigns[v] == LUndef
      requires SidesOk(ca, pos, neg, v) && !dirty[v]
      modifies this`eliminated, this`decision, this`elimclauses, this`records, this`lossless
      ensures Stacked() && Structure(v) && eliminated == old(eliminated)[v := true]
      ensures d == Lit(v, |pos| > |neg|)
      ensures records == old(records) + (side + [[Neg(d)]]) && RecordsOk(side + [[Neg(d)]], |eliminated|)
      ensures RecordsOk(side, |eliminated|) && StoresSide(side, Side(ca, d), d)
      ensures forall r: Record :: r in side + [[Neg(d)]] ==> r[0].v == v
      ensures lossless == (old(lossless) && (!useRcheck || ResolventsFollow(ca, trail, v)))
      ensures ListOk(ca, occurs[v], false, v) && SDbOk(ca, old(eliminated), -1)
      ensures (forall cr :: cr in pos ==> cr in ca) && (forall cr :: cr in neg ==> cr in ca)
      ensures forall l :: l in trail ==> l.v != v
    {
      hide SDbOk, ListsOk, TrailMatches, Sound, Recoverable, RecordsFor, Satisfiable, StoresSide, ListOk,
        ResolventsFollow, SidesOk, RecordsOk, Pack, Side, HeapOk, Watchful, FactsUsed, NotDecided;
      NotDecidedMore(eliminated, decision, v);
      ghost var recs0 := records;
      UnassignedOffTrail(assigns, trail, v);
      CleanList(ca, occurs, dirty, v);
      NowExempt(ca, eliminated, v);
      SidesInDb(ca, pos, neg, v);
      side, d := StoreClauses(pos, neg, v);
      StackGrows(recs0, side, d, eliminated);
      ghost var elim0 := eliminated;
      eliminated := eliminated[v := true];
      HeapEliminated(elim0);
      decision := decision[v := false];
      lossless := lossless && (!useRcheck || ResolventsFollow(ca, trail, v));
    }

    lemma HeapEliminated(elim0: seq<bool>)
      requires !cut ==> HeapOk(ca, elimHeap, trying, refused, frozen, elim0, assigns, grow, clauseLim)
      requires forall v: nat :: v < |eliminated| && !eliminated[v] ==> v < |elim0| && !elim0[v]
      ensures HeapFine()
    {
      if !cut {
        HeapKept(ca, ca, elimHeap, trying, refused, frozen, elim0, assigns, assigns, eliminated, grow, clauseLim);
      }
    }

    // Adds the resolvents and deletes both sides; `ca2` is the data base in between.
    method ResolveAndRemove(pos: seq<CRef>, neg: seq<CRef>, v: nat) returns (res: bool, ghost ca2: SDb)
      requires Structure(v) && QueueOk() && v < |eliminated|
      requires SidesOk(ca, pos, neg, v) && ListOk(ca, occurs[v], false, v)
      modifies this`ca, this`caSize, this`assigns, this`trail, this`occurs, this`dirty, this`subsumptionQueue
      modifies this`touched, this`elimHeap
      ensures res ==> Structure(-1) && QueueOk() && Enriched(old(ca), old(trail), ca2, trail, v)
      ensures res && old(Covered()) ==> Covered()
      ensures res ==> forall tau :: HoldsS(tau, ca, trail, -1) <==> HoldsS(tau, ca2, trail, v)
      ensures forall cr :: cr in pos || cr in neg ==> cr in old(ca)
      ensures res && !useRcheck ==> TableDone(ca2, trail, LitsOf(old(ca), pos), |pos|, LitsOf(old(ca), neg), v)
      ensures useRcheck && fullPropagation ==> res && ca2 == old(ca) && trail == old(trail)
      ensures !res ==> forall tau :: !HoldsS(tau, old(ca), old(trail), -1)
    {
      hide SDbOk, ListsOk, TrailMatches, HoldsS, TableDone, Enriched, ListOk, SidesOk, InSide, Watchful, FactsUsed;
      SidesIn(ca, pos, neg, v);
      SidesInDb(ca, pos, neg, v);
      ghost var ca0, tr0 := ca, trail;
      res := AddResolvents(pos, neg, v);
      ca2 := ca;
      if !res {
        return;
      }
      ListStays(ca0, tr0, ca, trail, occurs, dirty, v);
      RemoveOccurrences(v);
    }

    // ---- The whole preprocessor ----

    // A solver over `n` variables and no clauses.
    constructor (n: nat, grow: int, clauseLim: int, subsumptionLim: int, useRcheck: bool, fullPropagation: bool)
      ensures Valid() && ok && lossless && formula == {} && |eliminated| == |assigns| == n
      ensures trying == -1 && Orderly() && !asynchInterrupt && !cut
      ensures trail == [] && records == [] && ca.Keys == {TmpUnit} && subsumptionQueue == []
      ensures this.grow == grow && this.clauseLim == clauseLim && this.subsumptionLim == subsumptionLim
      ensures this.useRcheck == useRcheck && this.fullPropagation == fullPropagation
      ensures forall v :: 0 <= v < n ==> !eliminated[v] && !frozen[v] && assigns[v] == LUndef
    {
      ca, caSize := map[TmpUnit := SClause([], 0, 0)], TmpUnit + 1;
      assigns, trail := seq(n, i => LUndef), [];
      occurs, dirty := seq(n, i => []), seq(n, i => false);
      frozen, eliminated, decision := seq(n, i => false), seq(n, i => false), seq(n, i => true);
      elimclauses, subsumptionQueue, bwdsubAssigns := [], [], 0;
      ok, model := true, [];
      this.grow, this.clauseLim, this.subsumptionLim := grow, clauseLim, subsumptionLim;
      this.useRcheck, this.fullPropagation := useRcheck, fullPropagation;
      touched, elimHeap, asynchInterrupt := {}, Sets.Below(n), false;
      formula, records, lossless := {}, [], true;
      trying, refused, cut := -1, map[], false;
      new;
      EmptyState(ca, trail, occurs, dirty, assigns, eliminated);
    }

    method SetFrozen(v: nat, b: bool)
      requires Valid() && v < |frozen|
      modifies this`frozen
      modifies this`elimHeap
      ensures Valid() && frozen == old(frozen)[v := b]
    {
      hide SDbOk, ListsOk, TrailMatches, Sound, Recoverable, RecordsFor, Satisfiable;
      frozen := frozen[v := b];
      if !b {
        UpdateElimHeap(v);
      }
    }

    // Adds a clause to the formula. Its variables must not be eliminated.
    method AddClause(ps: seq<Lit>) returns (res: bool)
      requires Valid() && Kept(ps, eliminated, -1)
      modifies this`ca, this`caSize, this`assigns, this`trail, this`occurs, this`subsumptionQueue, this`ok, this`formula
      modifies this`touched
      ensures Valid() && res == ok && formula == old(formula) + {ps} && (old(Orderly()) ==> Orderly())
      ensures old(ok) && Unknown(old(ca), old(trail), old(assigns), ps) ==>
        ok && trail == old(trail) && Stores(old(ca), old(caSize), ca, ps)
    {
      hide StateOk, HeapOk, Watchful, FactsUsed, HoldsS, Sound, Recoverable, RecordsFor, Satisfiable, Absorbs, Refuted,
        Kept, Preserved, Stores, Lasting, Unknown, OtherLists, HoldsC, HasParents;
      ghost var f := formula;
      formula := formula + {ps};
      if !ok {
        StillUnsatisfiable(f, ps);
        return false;
      }
      ghost var ca0, tr0 := ca, trail;
      DbOk();
      res := AddClauseCore(ps, -1);
      ok := res;
      if res {
        AddedSound(f, ca0, tr0, ca, trail, ps);
        if lossless {
          assert forall l :: l in tr0 ==> l in trail;
          AbsorbedBy(ca0, tr0, ca, trail, ps);
          RecoverNewClause(ca0, tr0, ca, trail, eliminated, records, f, ps);
        }
      } else {
        AddedRefutes(f, ca0, tr0, ps);
      }
    }

    // Queues the live clauses with a touched variable that are not queued yet.
    method GatherTouchedClauses()
      requires Valid() && ok
      modifies this`subsumptionQueue, this`touched, this`occurs, this`dirty
      ensures Valid() && touched == {} && old(subsumptionQueue) <= subsumptionQueue
      ensures forall cr :: cr in subsumptionQueue <==> cr in old(subsumptionQueue) || Gathered(cr, old(touched))
    {
      hide SDbOk, ListsOk, TrailMatches, Sound, Recoverable, RecordsFor, Satisfiable, HeapOk, Watchful, FactsUsed,
        Gathered, NotDecided;
      ghost var queue := subsumptionQueue;
      QueueTouched();
      if !cut {
        CoveredGathered(queue);
      }
      touched := {};
    }

    method QueueTouched()
      requires Structure(-1) && QueueOk()
      modifies this`subsumptionQueue, this`occurs, this`dirty
      ensures Structure(-1) && QueueOk() && old(subsumptionQueue) <= subsumptionQueue
      ensures forall cr :: cr in subsumptionQueue <==> cr in old(subsumptionQueue) || Gathered(cr, touched)
    {
      hide Structure, QueueOk, Gathered;
      ghost var queue := subsumptionQueue;
      GatheredNone(queue);
      for v := 0 to |occurs|
        invariant Structure(-1) && QueueOk() && |occurs| == |old(occurs)|
        invariant queue <= subsumptionQueue && GatheredUpTo(queue, subsumptionQueue, v)
      {
        ghost var before := subsumptionQueue;
        if v in touched {
          GatherFrom(v);
        }
        GatheredMore(queue, before, subsumptionQueue, v);
      }
      GatheredAll(queue, subsumptionQueue);
    }

    lemma CoveredGathered(queue: seq<CRef>)
      requires Watchful(ca, queue, touched, subsumptionLim)
      requires forall cr :: cr in subsumptionQueue <==> cr in queue || Gathered(cr, touched)
      ensures Watchful(ca, subsumptionQueue, {}, subsumptionLim)
    {
      hide Watchful;
      assert forall cr :: Gathered(cr, touched) ==> cr in subsumptionQueue;
      WatchfulGathered(ca, queue, touched, subsumptionQueue, subsumptionLim);
    }

    // A live clause with one of the variables.
    ghost predicate Gathered(cr: CRef, vars: set<nat>)
      reads this`ca
    {
      cr in ca && cr != TmpUnit && ca[cr].mark == 0 && TouchedBy(ca[cr].lits, vars)
    }

    // `queue` with the clauses of the touched variables before `v`.
    ghost predicate GatheredUpTo(queue: seq<CRef>, now: seq<CRef>, v: nat)
      reads this`ca, this`touched
    {
      forall cr :: cr in now <==> cr in queue || Gathered(cr, touched * Sets.Below(v))
    }

    lemma GatheredNone(queue: seq<CRef>)
      ensures GatheredUpTo(queue, queue, 0)
    {
    }

    lemma GatheredMore(queue: seq<CRef>, before: seq<CRef>, now: seq<CRef>, v: nat)
      requires GatheredUpTo(queue, before, v)
      requires forall cr :: cr in now <==> cr in before || (v in touched && Gathered(cr, {v}))
      ensures GatheredUpTo(queue, now, v + 1)
    {
      hide Gathered;
      forall cr ensures cr in now <==> cr in queue || Gathered(cr, touched * Sets.Below(v + 1))
      {
        OneMoreVar(cr, v);
      }
    }

    lemma OneMoreVar(cr: CRef, v: nat)
      ensures Gathered(cr, touched * Sets.Below(v + 1)) <==>
        Gathered(cr, touched * Sets.Below(v)) || (v in touched && Gathered(cr, {v}))
    {
      if Gathered(cr, touched * Sets.Below(v + 1)) {
        var l :| l in ca[cr].lits && l.v in touched * Sets.Below(v + 1);
        assert l.v in touched * Sets.Below(v) || (l.v == v && l.v in {v});
      }
      if Gathered(cr, touched * Sets.Below(v)) {
        var l :| l in ca[cr].lits && l.v in touched * Sets.Below(v);
        assert l.v in touched * Sets.Below(v + 1);
      }
      if v in touched && Gathered(cr, {v}) {
        var l :| l in ca[cr].lits && l.v in {v};
        assert l.v in touched * Sets.Below(v + 1);
      }
    }

    // Clauses have no variables beyond the lists.
    lemma GatheredAll(queue: seq<CRef>, now: seq<CRef>)
      requires Structure(-1) && GatheredUpTo(queue, now, |occurs|)
      ensures forall cr :: cr in now <==> cr in queue || Gathered(cr, touched)
    {
      hide ListsOk, TrailMatches, HeapOk, Gathered;
      forall cr ensures Gathered(cr, touched * Sets.Below(|occurs|)) <==> Gathered(cr, touched)
      {
        InsideLists(cr);
      }
    }

    lemma InsideLists(cr: CRef)
      requires Structure(-1)
      ensures Gathered(cr, touched * Sets.Below(|occurs|)) <==> Gathered(cr, touched)
    {
      hide ListsOk, TrailMatches, HeapOk;
      if Gathered(cr, touched) {
        var l :| l in ca[cr].lits && l.v in touched;
        assert ClauseOk(ca[cr], eliminated, -1);
        assert l.v in touched * Sets.Below(|occurs|);
      }
      if Gathered(cr, touched * Sets.Below(|occurs|)) {
        var l :| l in ca[cr].lits && l.v in touched * Sets.Below(|occurs|);
      }
    }

    // Queues the live clauses over one variable.
    method GatherFrom(v: nat)
      requires Structure(-1) && QueueOk() && v < |occurs|
      modifies this`subsumptionQueue, this`occurs, this`dirty
      ensures Structure(-1) && QueueOk() && |occurs| == |old(occurs)| && old(subsumptionQueue) <= subsumptionQueue
      ensures forall cr :: cr in subsumptionQueue <==> cr in old(subsumptionQueue) || Gathered(cr, {v})
    {
      hide SDbOk, TrailMatches, HeapOk;
      Lookup(v, -1);
      var cs := occurs[v];
      ghost var queue := subsumptionQueue;
      assert ListOk(ca, cs, false, v);
      hide ListsOk;
      for j := 0 to |cs|
        invariant Structure(-1) && QueueOk() && queue <= subsumptionQueue
        invariant forall cr :: cr in subsumptionQueue <==> cr in queue || (cr in cs[..j] && ca[cr].mark == 0)
      {
        assert cs[j] in cs && cs[..j + 1] == cs[..j] + [cs[j]];
        if ca[cs[j]].mark == 0 && cs[j] !in subsumptionQueue {
          subsumptionQueue := subsumptionQueue + [cs[j]];
        }
      }
      assert cs[..|cs|] == cs;
      forall cr ensures cr in cs && ca[cr].mark == 0 <==> Gathered(cr, {v})
      {
        OverOneVar(cr, cs, v);
      }
    }

    lemma OverOneVar(cr: CRef, cs: seq<CRef>, v: nat)
      requires ListOk(ca, cs, false, v)
      ensures cr in cs && ca[cr].mark == 0 <==> Gathered(cr, {v})
    {
      if cr in cs && ca[cr].mark == 0 {
        var l :| l in ca[cr].lits && l.v == v;
        assert l.v in {v};
      }
    }

    // Nothing is left to be gathered, subsumed with or eliminated: no live clause
    // subsumes or strengthens a candidate, no candidate has a variable with a value,
    // and every variable that may be eliminated was refused and has kept its clauses.
    ghost predicate Finished()
      reads this
    {
      && AllUsedUp(ca, subsumptionLim)
      && (forall i, d: CRef :: 0 <= i < |trail| && Candidate(ca, d, subsumptionLim) ==> !HasVar(ca[d].lits, trail[i].v))
      && forall v: nat :: Eligible(frozen, eliminated, assigns, v) ==>
        v in refused && Refused(refused[v], ca, v, grow, clauseLim)
    }

    // Clauses that are queued wait for the next gathering.
    predicate Orderly()
      reads this
    {
      subsumptionQueue == [] || touched != {}
    }

    // Variables not eliminated.
    ghost function Remaining(): set<nat>
      reads this`eliminated
    {
      RemainingOf(eliminated)
    }

    // Alternates backward subsumption with eliminating variables in any order, until
    // nothing is left to do or the user interrupts.
    method Eliminate(interrupts: bool) returns (res: bool)
      requires Valid() && trying == -1 && Orderly()
      modifies this`ca, this`caSize, this`assigns, this`trail, this`occurs, this`dirty, this`eliminated, this`decision
      modifies this`touched, this`elimHeap, this`asynchInterrupt, this`cut, this`trying, this`refused
      modifies this`elimclauses, this`records, this`subsumptionQueue, this`bwdsubAssigns, this`lossless, this`ok
      ensures Valid() && trying == -1 && Steady(interrupts)
      ensures res == ok && FrozenKept(old(eliminated), eliminated, frozen)
      ensures res && !asynchInterrupt && !cut ==>
        Finished() && subsumptionQueue == [] && touched == {} && elimHeap == {}
    {
      hide StateOk, HeapOk, HoldsS, Sound, Recoverable, RecordsFor, Satisfiable, Watchful, FactsUsed, Occurrences,
        Finished, FrozenKept, RemainingOf;
      FrozenSame(eliminated, frozen);
      if !ok {
        return false;
      }
      res := PropagateUnits();
      if res {
        res := EliminateAll(interrupts);
      }
      ok := res;
      if res && !asynchInterrupt && !cut {
        NothingLeft();
      }
    }

    // Round after round.
    method EliminateAll(interrupts: bool) returns (res: bool)
      requires Valid() && ok && trying == -1 && Orderly()
      modifies this`ca, this`caSize, this`assigns, this`trail, this`occurs, this`dirty, this`eliminated, this`decision
      modifies this`touched, this`elimHeap, this`asynchInterrupt, this`cut, this`trying, this`refused
      modifies this`elimclauses, this`records, this`subsumptionQueue, this`bwdsubAssigns, this`lossless
      ensures Stacked() && trying == -1 && Steady(interrupts) && FrozenKept(old(eliminated), eliminated, frozen)
      ensures (res ==> Valid()) && (!res ==> !Satisfiable(formula))
      ensures res && !asynchInterrupt ==> !Busy() && subsumptionQueue == []
    {
      hide Valid, Stacked, Occurrences, FrozenKept, RemainingOf, Satisfiable;
      ValidParts();
      FrozenSame(eliminated, frozen);
      res := true;
      while Busy()
        invariant res && Valid() && Stacked() && Orderly() && trying == -1 && Steady(interrupts)
        invariant FrozenKept(old(eliminated), eliminated, frozen)
        decreases !asynchInterrupt, Remaining(), Occurrences(ca), Busy()
      {
        ghost var elim0 := eliminated;
        var stop;
        res, stop := EliminateRound(interrupts);
        FrozenTrans(old(eliminated), elim0, eliminated, frozen);
        if stop || !res {
          return;
        }
      }
    }

    // Whether there is anything to gather, to subsume with, or to eliminate.
    predicate Busy()
      reads this
    {
      touched != {} || bwdsubAssigns < |trail| || elimHeap != {}
    }

    // Gathers and subsumes, and then tries the variables in the heap. An interrupt stops
    // the whole elimination.
    method EliminateRound(interrupts: bool) returns (res: bool, stop: bool)
      requires Valid() && ok && trying == -1
      modifies this`ca, this`caSize, this`assigns, this`trail, this`occurs, this`dirty, this`eliminated, this`decision
      modifies this`touched, this`elimHeap, this`asynchInterrupt, this`cut, this`trying, this`refused
      modifies this`elimclauses, this`records, this`subsumptionQueue, this`bwdsubAssigns, this`lossless
      ensures Stacked() && trying == -1 && Steady(interrupts) && FrozenKept(old(eliminated), eliminated, frozen)
      ensures (res ==> Valid() && subsumptionQueue == []) && (!res ==> !Satisfiable(formula))
      ensures (stop ==> asynchInterrupt && cut) && (old(asynchInterrupt) && res ==> stop)
      ensures Remaining() < old(Remaining())
        || (Remaining() == old(Remaining())
          && (!res || stop || asynchInterrupt || Occurrences(ca) < old(Occurrences(ca))
            || (Occurrences(ca) == old(Occurrences(ca)) && !Busy())))
    {
      hide Valid, Stacked, Occurrences, FrozenKept, RemainingOf, Satisfiable;
      stop := false;
      FrozenSame(eliminated, frozen);
      res := GatherAndSubsume(interrupts);
      if !res {
        return;
      }
      if asynchInterrupt {
        DropHeap({});
        ValidParts();
        return true, true;
      }
      res := EliminateSome(interrupts);
    }

    lemma NothingLeft()
      requires Valid() && ok && !cut && trying == -1
      requires subsumptionQueue == [] && touched == {} && elimHeap == {} && bwdsubAssigns >= |trail|
      ensures Finished()
    {
      hide SDbOk, ListsOk, TrailMatches, Sound, Recoverable, RecordsFor, Satisfiable, Watchful, FactsUsed, AllUsedUp;
      WatchfulDone(ca, subsumptionLim);
      FactsGone(ca, trail, 0, bwdsubAssigns, subsumptionLim);
    }

    // Gathers clauses and subsumes with them.
    method GatherAndSubsume(interrupts: bool) returns (res: bool)
      requires Valid() && ok
      modifies this`ca, this`dirty, this`occurs, this`assigns, this`trail, this`subsumptionQueue, this`bwdsubAssigns
      modifies this`touched, this`elimHeap, this`asynchInterrupt, this`cut
      ensures Stacked() && Steady(interrupts) && (!res ==> !Satisfiable(formula))
      ensures res ==> Valid() && touched == {} && subsumptionQueue == [] && bwdsubAssigns == |trail|
      ensures res ==>
        Occurrences(ca) < old(Occurrences(ca)) || (Occurrences(ca) == old(Occurrences(ca)) && trail == old(trail))
    {
      hide SDbOk, ListsOk, TrailMatches, HoldsS, Sound, Recoverable, RecordsFor, Satisfiable, HeapOk, Watchful,
        FactsUsed, Occurrences;
      GatherTouchedClauses();
      res := true;
      if |subsumptionQueue| > 0 || bwdsubAssigns < |trail| {
        res := KeepSubsuming(interrupts);
      }
    }

    // Level 0 propagation before anything else.
    method PropagateUnits() returns (res: bool)
      requires Valid() && ok
      modifies this`assigns, this`trail
      ensures Stacked()
      ensures res ==> Valid()
      ensures !res ==> !Satisfiable(formula)
    {
      hide SDbOk, ListsOk, TrailMatches, HoldsS, Sound, Recoverable, RecordsFor, Satisfiable;
      ghost var tr0 := trail;
      var conflict := Propagate(-1);
      SameAfterPropagation(ca, tr0, trail);
      SoundStep(formula, ca, tr0, ca, trail);
      if lossless {
        assert forall l :: l in tr0 ==> l in trail;
        RecoverStep(ca, tr0, ca, trail, eliminated, records, formula);
      }
      if conflict {
        RefutesFormula(formula, ca, trail);
      }
      res := !conflict;
    }

    // Takes variables off the heap in any order and tries to eliminate them; assigned,
    // frozen and eliminated ones are passed over.
    method EliminateSome(interrupts: bool) returns (res: bool)
      requires Valid() && ok && trying == -1 && subsumptionQueue == [] && bwdsubAssigns == |trail|
      modifies this`ca, this`caSize, this`assigns, this`trail, this`occurs, this`dirty, this`eliminated, this`decision
      modifies this`touched, this`elimHeap, this`asynchInterrupt, this`cut, this`trying, this`refused
      modifies this`elimclauses, this`records, this`subsumptionQueue, this`bwdsubAssigns, this`lossless
      ensures Stacked() && FrozenKept(old(eliminated), eliminated, frozen) && trying == -1 && Steady(interrupts)
      ensures res ==> Valid() && subsumptionQueue == [] && bwdsubAssigns == |trail|
      ensures res && !asynchInterrupt ==> elimHeap == {}
      ensures Remaining() < old(Remaining())
        || (res && Remaining() == old(Remaining())
          && SameState(old(ca), old(trail), old(touched), old(subsumptionQueue), old(bwdsubAssigns)))
      ensures !res ==> !Satisfiable(formula)
    {
      hide Valid, Stacked, RemainingOf, FrozenKept, Satisfiable;
      ValidParts();
      FrozenSame(eliminated, frozen);
      res := true;
      while res && elimHeap != {}
        invariant res ==> Valid() && subsumptionQueue == [] && bwdsubAssigns == |trail|
        invariant Stacked() && (!res ==> !Satisfiable(formula)) && trying == -1 && Steady(interrupts)
        invariant FrozenKept(old(eliminated), eliminated, frozen)
        invariant Remaining() < old(Remaining())
          || (res && Remaining() == old(Remaining())
            && SameState(old(ca), old(trail), old(touched), old(subsumptionQueue), old(bwdsubAssigns)))
        decreases Remaining(), elimHeap
      {
        var elim :| elim in elimHeap;
        Interrupt(interrupts);
        if asynchInterrupt {
          DropHeap(elimHeap - {elim});
          ValidParts();
          break;
        }
        ghost var elim0 := eliminated;
        res := TryVariable(elim, interrupts);
        FrozenTrans(old(eliminated), elim0, eliminated, frozen);
      }
    }

    // Takes one variable off the heap and tries to eliminate it.
    method TryVariable(elim: nat, interrupts: bool) returns (res: bool)
      requires Valid() && ok && trying == -1 && elim in elimHeap && subsumptionQueue == [] && bwdsubAssigns == |trail|
      modifies this`ca, this`caSize, this`assigns, this`trail, this`occurs, this`dirty, this`eliminated, this`decision
      modifies this`touched, this`elimHeap, this`asynchInterrupt, this`cut, this`trying, this`refused
      modifies this`elimclauses, this`records, this`subsumptionQueue, this`bwdsubAssigns, this`lossless
      ensures Stacked() && trying == -1 && Steady(interrupts) && |eliminated| == |old(eliminated)|
      ensures res ==> Valid() && subsumptionQueue == [] && bwdsubAssigns == |trail|
      ensures !res ==> !Satisfiable(formula)
      ensures FrozenKept(old(eliminated), eliminated, frozen)
      ensures Remaining() < old(Remaining())
        || (res && Remaining() == old(Remaining()) && elimHeap == old(elimHeap) - {elim}
          && SameState(old(ca), old(trail), old(touched), old(subsumptionQueue), old(bwdsubAssigns)))
    {
      hide Valid, Stacked, EliminationLimits, FrozenKept, HoldsS, EliminatedAs, StoresSmaller, ResolventsFollow,
        RemainingOf, Satisfiable;
      FrozenSame(eliminated, frozen);
      PopHeap(elim);
      ValidParts();
      res := true;
      if elim < |eliminated| && !eliminated[elim] && assigns[elim] == LUndef && !frozen[elim] {
        ghost var elim0 := eliminated;
        ghost var top;
        res, top := EliminateVar(elim, interrupts);
        VariableTried(elim0, elim);
      }
      EndTry(elim, res);
    }

    lemma VariableTried(elim0: seq<bool>, v: nat)
      requires v < |elim0| == |eliminated| == |frozen| && !elim0[v] && !frozen[v]
        && eliminated == elim0[v := eliminated[v]]
      ensures FrozenKept(elim0, eliminated, frozen)
      ensures if eliminated[v] then Remaining() < RemainingOf(elim0) else eliminated == elim0
    {
      if eliminated[v] {
        assert v in RemainingOf(elim0) && v !in Remaining();
      } else {
        assert eliminated == elim0;
      }
    }

    // A variable that is still eligible was refused.
    method EndTry(elim: nat, res: bool)
      requires Stacked() && trying == elim && (res ==> Valid() && ok)
      requires res && Eligible(frozen, eliminated, assigns, elim) ==>
        EliminationLimits(ca, elim, grow, clauseLim, false)
      modifies this`trying, this`refused
      ensures Stacked() && trying == -1 && (res ==> Valid())
    {
      hide SDbOk, ListsOk, TrailMatches, HeapOk, EliminationLimits, Eligible, Sound, Recoverable, RecordsFor,
        Satisfiable, Watchful, FactsUsed;
      if res && !cut {
        HeapTried(ca, elimHeap, trying, refused, frozen, eliminated, assigns, grow, clauseLim, elim);
      }
      refused := refused[elim := ca];
      trying := -1;
    }

    // An interrupt drops the heap, or at least the variable taken off it.
    method DropHeap(rest: set<nat>)
      requires Valid() && ok
      modifies this`elimHeap, this`cut
      ensures Valid() && cut && elimHeap == rest
    {
      hide StateOk, Sound, Recoverable, RecordsFor, Satisfiable;
      elimHeap := rest;
      cut := true;
    }

    lemma ValidParts()
      requires Valid() && ok
      ensures Stacked() && Structure(-1) && |eliminated| == |assigns| == |frozen| && bwdsubAssigns <= |trail|
    {
      hide SDbOk, ListsOk, TrailMatches, HeapOk, Watchful, FactsUsed, Sound, Recoverable, RecordsFor, Satisfiable;
    }

    method PopHeap(elim: nat)
      requires Valid() && ok && trying == -1
      modifies this`elimHeap, this`trying
      ensures Valid() && trying == elim && elimHeap == old(elimHeap) - {elim}
    {
      hide SDbOk, ListsOk, TrailMatches, Sound, Recoverable, RecordsFor, Satisfiable, Watchful, FactsUsed;
      elimHeap := elimHeap - {elim};
      trying := elim;
    }

    // Turns a model of the remaining clauses into one of the original formula. Only
    // eliminated variables change.
    method ExtendModel()
      requires Valid() && ok && lossless
      requires Complete(model, eliminated) && SatS(model, ca, trail)
      modifies this`model
      ensures SatF(model, formula) && |model| == |old(model)|
      ensures forall v: nat :: v < |model| && !eliminated[v] ==> model[v] == old(model)[v]
    {
      hide SDbOk, ListsOk, TrailMatches, Sound, SatS, SatF, RecordsFor, Extend, Pack;
      RecordsForOk(records, eliminated);
      ExtendKeeps(model, records, eliminated);
      model := WalkRecords(model, elimclauses, records);
    }

    // What remains is satisfiable exactly if the original formula is.
    lemma Equisatisfiable()
      requires Valid() && ok && lossless
      ensures Satisfiable(formula) <==> exists tau :: HoldsS(tau, ca, trail, -1)
    {
      TrailVars(assigns, trail);
      SameSatisfiability(formula, ca, trail, eliminated, records);
    }
  }
}
