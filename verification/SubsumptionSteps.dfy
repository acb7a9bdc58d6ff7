// What backward subsumption has achieved: clauses that were used up subsume and
// strengthen no other clause any more, and each turn leaves fewer literals or less work.
module SubsumptionSteps {
  import opened SolverTypes
  import opened Vectors
  import opened Resolution
  import opened ClauseLists

  // A clause that may be subsumed or strengthened; -1 stands for no limit on its length.
  predicate Candidate(ca: SDb, d: CRef, lim: int)
  {
    d in ca && d != TmpUnit && ca[d].mark == 0 && (lim == -1 || |ca[d].lits| < lim)
  }

  // `c` subsumes `d`, or strengthens it.
  ghost predicate Related(c: seq<Lit>, d: seq<Lit>)
  {
    Subset(c, d) || exists p :: SubsetFlipping(c, d, p)
  }

  // Literals `c` subsume and strengthen no candidate but `cr`.
  ghost predicate UsedUp(ca: SDb, c: seq<Lit>, cr: CRef, lim: int)
  {
    forall d: CRef :: Candidate(ca, d, lim) && d != cr ==> !Related(c, ca[d].lits)
  }

  // The candidates that `c` still acts on are in the list from place `j` on.
  ghost predicate Pending(ca: SDb, c: seq<Lit>, cr: CRef, lim: int, list: seq<CRef>, j: nat)
    requires j <= |list|
  {
    forall d: CRef :: Candidate(ca, d, lim) && d != cr && Related(c, ca[d].lits) ==> d in list[j..]
  }

  // Clauses disappear or lose literals, the latter only as candidates.
  ghost predicate Shrinks(ca: SDb, cb: SDb, lim: int)
  {
    forall d: CRef :: d in cb && d != TmpUnit && cb[d].mark == 0 ==>
      d in ca && ca[d].mark == 0
      && (cb[d].lits == ca[d].lits || (Candidate(ca, d, lim) && Subset(cb[d].lits, ca[d].lits)
        && |cb[d].lits| < |ca[d].lits|))
  }

  // A clause that lost literals is queued again.
  ghost predicate Requeued(ca: SDb, cb: SDb, queue: seq<CRef>)
  {
    forall d: CRef :: d in cb && d in ca && d != TmpUnit && cb[d].mark == 0 && cb[d].lits != ca[d].lits ==> d in queue
  }

  // What one use of a clause does to candidate `dr`.
  ghost predicate Outcome(ca: SDb, tr: seq<Lit>, queue: seq<CRef>, dr: CRef, r: Subsumption, cb: SDb, tr': seq<Lit>,
      queue': seq<CRef>, res: bool)
    requires dr in ca
  {
    match r
    case Unrelated => res && cb == ca && tr' == tr && queue' == queue
    case Subsumed => res && cb == Marked(ca, dr) && tr' == tr && queue' == queue
    case Strengthens(p) =>
      && dr in cb && cb == ca[dr := cb[dr]] && queue' == queue + [dr]
      && cb[dr].lits == RemoveFirst(ca[dr].lits, Neg(p))
      && cb[dr].mark == (if |ca[dr].lits| == 2 then 1 else ca[dr].mark)
      && (res && |ca[dr].lits| == 2 ==> forall l :: l in cb[dr].lits ==> l in tr')
  }

  // The literals of live clauses.
  function Occurrences(ca: SDb): set<(CRef, Lit)>
  {
    set cr, l | cr in ca && Alive(ca, cr) && l in ca[cr].lits :: (cr, l)
  }

  // ---- One candidate ----

  // What the clause was used on is not related to it any more, and the rest is as it was.
  lemma OutcomeUnrelated(ca: SDb, tr: seq<Lit>, queue: seq<CRef>, c: seq<Lit>, dr: CRef, r: Subsumption, cb: SDb,
      tr': seq<Lit>, queue': seq<CRef>, res: bool)
    requires dr in ca && Outcome(ca, tr, queue, dr, r, cb, tr', queue', res) && DistinctVars(ca[dr].lits)
    requires (r == Subsumed <==> Subset(c, ca[dr].lits))
      && forall p :: r == Strengthens(p) <==> SubsetFlipping(c, ca[dr].lits, p)
    ensures dr in cb && (cb[dr].mark == 0 ==> !Related(c, cb[dr].lits))
    ensures cb == ca[dr := cb[dr]]
  {
    if r.Strengthens? {
      RemoveLiteral(ca[dr].lits, Neg(r.p));
      forall l | l in cb[dr].lits ensures l.v != r.p.v
      {
        NotTheVar(ca[dr].lits, Neg(r.p), l);
      }
    }
  }

  lemma OutcomeShrinks(ca: SDb, tr: seq<Lit>, queue: seq<CRef>, dr: CRef, r: Subsumption, cb: SDb, tr': seq<Lit>,
      queue': seq<CRef>, res: bool, lim: int)
    requires Candidate(ca, dr, lim) && Outcome(ca, tr, queue, dr, r, cb, tr', queue', res)
    requires DistinctVars(ca[dr].lits) && |ca[dr].lits| > 0 && (r.Strengthens? ==> Neg(r.p) in ca[dr].lits)
    ensures Shrinks(ca, cb, lim) && Requeued(ca, cb, queue') && queue <= queue'
    ensures Occurrences(cb) < Occurrences(ca) || (cb == ca && tr' == tr && queue' == queue)
  {
    if r.Strengthens? {
      RemoveLiteral(ca[dr].lits, Neg(r.p));
      assert (dr, Neg(r.p)) in Occurrences(ca) && (dr, Neg(r.p)) !in Occurrences(cb);
    } else if r.Subsumed? {
      var l := ca[dr].lits[0];
      assert (dr, l) in Occurrences(ca) && (dr, l) !in Occurrences(cb);
    }
    forall cr: CRef, l | (cr, l) in Occurrences(cb) ensures (cr, l) in Occurrences(ca)
    {
    }
  }

  // ---- The candidates in turn ----

  // At first every related candidate is in the list of any variable of `c`.
  lemma AllListed(ca: SDb, c: seq<Lit>, cr: CRef, lim: int, occurs: seq<seq<CRef>>, dirty: seq<bool>, best: nat)
    requires ListsOk(ca, occurs, dirty) && best < |occurs| && HasVar(c, best)
    ensures Pending(ca, c, cr, lim, occurs[best], 0)
  {
    assert ListOk(ca, occurs[best], dirty[best], best);
    assert occurs[best][0..] == occurs[best];
    forall d: CRef | Candidate(ca, d, lim) && Related(c, ca[d].lits) ensures d in occurs[best]
    {
      var l :| l in c && l.v == best;
      if p :| SubsetFlipping(c, ca[d].lits, p) && p == l {
        assert Neg(l) in ca[d].lits;
      } else {
        assert l in ca[d].lits;
      }
      assert HasVar(ca[d].lits, best);
    }
  }

  // The candidate at place `j` was dealt with.
  lemma PendingStep(ca: SDb, cb: SDb, c: seq<Lit>, cr: CRef, lim: int, was: seq<CRef>, now: seq<CRef>, j: nat, i: nat)
    requires j < |was| && i <= |now| && Pending(ca, c, cr, lim, was, j)
    requires forall d :: d in was[j + 1..] ==> d in now[i..]
    requires was[j] in cb && cb == ca[was[j] := cb[was[j]]]
    requires Candidate(cb, was[j], lim) && was[j] != cr ==> !Related(c, cb[was[j]].lits)
    ensures Pending(cb, c, cr, lim, now, i)
  {
    hide Related;
    forall d: CRef | Candidate(cb, d, lim) && d != cr && Related(c, cb[d].lits) ensures d in now[i..]
    {
      assert d != was[j] && Candidate(ca, d, lim);
      assert was[j..] == [was[j]] + was[j + 1..];
    }
  }

  lemma PendingNone(ca: SDb, c: seq<Lit>, cr: CRef, lim: int, list: seq<CRef>)
    requires Pending(ca, c, cr, lim, list, |list|)
    ensures UsedUp(ca, c, cr, lim)
  {
    hide Related;
    assert list[|list|..] == [];
  }

  // ---- Whole turns ----

  lemma ShrinksRefl(ca: SDb, lim: int)
    ensures Shrinks(ca, ca, lim)
  {
  }

  lemma ShrinksOn(ca: SDb, cb: SDb, cc: SDb, lim: int)
    requires Shrinks(ca, cb, lim) && Shrinks(cb, cc, lim)
    ensures Shrinks(ca, cc, lim)
  {
  }

  lemma ShrinksTrans(ca: SDb, cb: SDb, cc: SDb, lim: int, q1: seq<CRef>, q2: seq<CRef>)
    requires Shrinks(ca, cb, lim) && Shrinks(cb, cc, lim)
    requires Requeued(ca, cb, q1) && Requeued(cb, cc, q2) && q1 <= q2
    ensures Shrinks(ca, cc, lim) && Requeued(ca, cc, q2)
  {
    assert forall x :: x in q1 ==> x in q2;
  }

  // What was used up stays so while clauses shrink.
  lemma UsedUpStays(ca: SDb, cb: SDb, c: seq<Lit>, cr: CRef, lim: int)
    requires UsedUp(ca, c, cr, lim) && Shrinks(ca, cb, lim)
    ensures UsedUp(cb, c, cr, lim)
  {
    forall d: CRef | Candidate(cb, d, lim) && d != cr ensures !Related(c, cb[d].lits)
    {
      assert Candidate(ca, d, lim);
      if Related(c, cb[d].lits) {
        RelatedMore(c, cb[d].lits, ca[d].lits);
      }
    }
  }

  lemma RelatedMore(c: seq<Lit>, d: seq<Lit>, e: seq<Lit>)
    requires Related(c, d) && Subset(d, e)
    ensures Related(c, e)
  {
    if p :| SubsetFlipping(c, d, p) {
      assert SubsetFlipping(c, e, p);
    }
  }

  // Every live clause is queued or used up, or it is as it was and not of the pool.
  ghost predicate QueuedOrUsed(pool: set<CRef>, was: SDb, ca: SDb, queue: seq<CRef>, lim: int)
  {
    forall cr :: cr in ca && cr != TmpUnit && ca[cr].mark == 0 ==>
      cr in queue || UsedUp(ca, ca[cr].lits, cr, lim)
      || (cr !in pool && cr in was && was[cr].mark == 0 && was[cr].lits == ca[cr].lits)
  }

  // Trail literals from place `from` up to `upto` are in no candidate, nor are their
  // negations.
  ghost predicate FactsUsed(ca: SDb, trail: seq<Lit>, from: nat, upto: nat, lim: int)
  {
    forall i :: from <= i < upto && i < |trail| ==> UsedUp(ca, [trail[i]], TmpUnit, lim)
  }

  lemma FactUsed(ca: SDb, l: Lit, lim: int)
    ensures UsedUp(ca, [l], TmpUnit, lim) <==> forall d: CRef :: Candidate(ca, d, lim) ==> !HasVar(ca[d].lits, l.v)
  {
    forall d: CRef | Candidate(ca, d, lim) ensures Related([l], ca[d].lits) <==> HasVar(ca[d].lits, l.v)
    {
      if k :| k in ca[d].lits && k.v == l.v {
        assert k == l || k == Neg(l);
        assert l in [l];
        assert k == l ==> Subset([l], ca[d].lits);
        assert k == Neg(l) ==> SubsetFlipping([l], ca[d].lits, l);
      }
      if Related([l], ca[d].lits) {
        assert l in [l];
        assert l in ca[d].lits || Neg(l) in ca[d].lits;
      }
    }
  }

  lemma FactsStay(ca: SDb, cb: SDb, tr: seq<Lit>, tr': seq<Lit>, from: nat, upto: nat, lim: int)
    requires FactsUsed(ca, tr, from, upto, lim) && Shrinks(ca, cb, lim) && tr <= tr' && upto <= |tr|
    ensures FactsUsed(cb, tr', from, upto, lim)
  {
    hide UsedUp, Shrinks;
    forall i | from <= i < upto && i < |tr'| ensures UsedUp(cb, [tr'[i]], TmpUnit, lim)
    {
      UsedUpStays(ca, cb, [tr[i]], TmpUnit, lim);
    }
  }

  // The clauses that are queued or were used up before.
  ghost function Pool(ca: SDb, queue: seq<CRef>, lim: int): set<CRef>
  {
    set cr | cr in ca && cr != TmpUnit && (cr in queue || UsedUp(ca, ca[cr].lits, cr, lim))
  }

  lemma PoolStart(ca: SDb, queue: seq<CRef>, lim: int)
    ensures QueuedOrUsed(Pool(ca, queue, lim), ca, ca, queue, lim)
  {
    hide UsedUp;
  }

  // One turn: clause `c0` left the queue and was used on all candidates.
  lemma TurnDone(pool: set<CRef>, was: SDb, ca: SDb, queue: seq<CRef>, cb: SDb, queue': seq<CRef>, c0: CRef, lim: int)
    requires QueuedOrUsed(pool, was, ca, queue, lim) && Shrinks(ca, cb, lim) && Requeued(ca, cb, queue')
    requires |queue| > 0 && queue[0] == c0 && queue[1..] <= queue'
    requires c0 in cb && c0 != TmpUnit && cb[c0].mark == 0 ==> UsedUp(cb, cb[c0].lits, c0, lim)
    ensures QueuedOrUsed(pool, was, cb, queue', lim)
  {
    hide UsedUp;
    forall cr | cr in cb && cr != TmpUnit && cb[cr].mark == 0
      ensures cr in queue' || UsedUp(cb, cb[cr].lits, cr, lim)
        || (cr !in pool && cr in was && was[cr].mark == 0 && was[cr].lits == cb[cr].lits)
    {
      if cr != c0 && cr in queue {
        assert queue == [c0] + queue[1..];
        assert cr in queue[1..];
        var k :| 0 <= k < |queue[1..]| && queue[1..][k] == cr;
        assert queue'[k] == cr;
      } else if cr != c0 && cb[cr].lits == ca[cr].lits && UsedUp(ca, ca[cr].lits, cr, lim) {
        UsedUpStays(ca, cb, ca[cr].lits, cr, lim);
      }
    }
  }

  // The dummy clause is no candidate and in no pool.
  lemma TmpQueued(pool: set<CRef>, was: SDb, ca: SDb, c: SClause, lim: int)
    requires QueuedOrUsed(pool, was, ca, [], lim)
    ensures QueuedOrUsed(pool, was, ca[TmpUnit := c], [TmpUnit], lim)
    ensures Shrinks(ca, ca[TmpUnit := c], lim) && Occurrences(ca[TmpUnit := c]) == Occurrences(ca)
  {
    var cb := ca[TmpUnit := c];
    forall cr | cr in cb && cr != TmpUnit && cb[cr].mark == 0
      ensures UsedUp(ca, ca[cr].lits, cr, lim) ==> UsedUp(cb, cb[cr].lits, cr, lim)
    {
      if UsedUp(ca, ca[cr].lits, cr, lim) {
        UsedUpStays(ca, cb, ca[cr].lits, cr, lim);
      }
    }
  }

  lemma FactsNone(ca: SDb, trail: seq<Lit>, from: nat, lim: int)
    ensures FactsUsed(ca, trail, from, from, lim)
  {
  }

  lemma FactsMore(ca: SDb, trail: seq<Lit>, from: nat, n: nat, lim: int)
    requires FactsUsed(ca, trail, from, n, lim) && n < |trail| && UsedUp(ca, [trail[n]], TmpUnit, lim)
    ensures FactsUsed(ca, trail, from, n + 1, lim)
  {
    hide UsedUp;
  }

  lemma FactsGone(ca: SDb, trail: seq<Lit>, from: nat, upto: nat, lim: int)
    requires FactsUsed(ca, trail, from, upto, lim) && |trail| <= upto
    ensures forall i, d: CRef :: from <= i < |trail| && Candidate(ca, d, lim) ==> !HasVar(ca[d].lits, trail[i].v)
  {
    hide UsedUp, HasVar;
    forall i | from <= i < |trail|
      ensures forall d: CRef :: Candidate(ca, d, lim) ==> !HasVar(ca[d].lits, trail[i].v)
    {
      FactUsed(ca, trail[i], lim);
    }
  }

  // ---- Over all operations ----

  // Every live clause is queued or used up, or has a touched variable and will be
  // queued by the next gathering.
  ghost predicate Watchful(ca: SDb, queue: seq<CRef>, touched: set<nat>, lim: int)
  {
    forall cr :: cr in ca && cr != TmpUnit && ca[cr].mark == 0 ==>
      cr in queue || TouchedBy(ca[cr].lits, touched) || UsedUp(ca, ca[cr].lits, cr, lim)
  }

  predicate TouchedBy(c: seq<Lit>, touched: set<nat>)
  {
    exists l :: l in c && l.v in touched
  }

  // No live clause subsumes or strengthens a candidate any more.
  ghost predicate AllUsedUp(ca: SDb, lim: int)
  {
    forall cr, d: CRef :: cr in ca && cr != TmpUnit && ca[cr].mark == 0 && Candidate(ca, d, lim) && d != cr ==>
      !Related(ca[cr].lits, ca[d].lits)
  }

  lemma WatchfulDone(ca: SDb, lim: int)
    requires Watchful(ca, [], {}, lim)
    ensures AllUsedUp(ca, lim)
  {
    hide Related;
    forall cr | cr in ca && cr != TmpUnit && ca[cr].mark == 0 ensures UsedUp(ca, ca[cr].lits, cr, lim)
    {
      assert !TouchedBy(ca[cr].lits, {});
    }
  }

  lemma WatchfulAfterCheck(was: SDb, queue: seq<CRef>, ca: SDb, touched: set<nat>, lim: int)
    requires Watchful(was, queue, touched, lim) && QueuedOrUsed(Pool(was, queue, lim), was, ca, [], lim)
    ensures Watchful(ca, [], touched, lim)
  {
    hide UsedUp, TouchedBy;
  }

  // A new clause is queued and touches its variables.
  lemma WatchfulAdd(ca: SDb, queue: seq<CRef>, touched: set<nat>, cr: CRef, c: SClause, lim: int)
    requires Watchful(ca, queue, touched, lim) && cr !in ca
    requires forall d: CRef :: d in ca && d != TmpUnit && ca[d].mark == 0 ==> |ca[d].lits| > 0
    ensures Watchful(ca[cr := c], queue + [cr], touched + VarsOf(c.lits), lim)
  {
    hide Related, UsedUp;
    var cb := ca[cr := c];
    forall d | d in cb && d != TmpUnit && cb[d].mark == 0
      ensures d in queue + [cr] || TouchedBy(cb[d].lits, touched + VarsOf(c.lits)) || UsedUp(cb, cb[d].lits, d, lim)
    {
      if d != cr {
        if TouchedBy(ca[d].lits, touched) {
          var l :| l in ca[d].lits && l.v in touched;
          assert l.v in touched + VarsOf(c.lits);
        } else if UsedUp(ca, ca[d].lits, d, lim) {
          if Related(ca[d].lits, c.lits) {
            RelatedShares(ca[d].lits, c.lits);
            assert ca[d].lits[0] in ca[d].lits;
          } else {
            UsedUpAdd(ca, ca[d].lits, d, cr, c, lim);
          }
        }
      }
    }
  }

  lemma UsedUpAdd(ca: SDb, lits: seq<Lit>, d: CRef, cr: CRef, c: SClause, lim: int)
    requires UsedUp(ca, lits, d, lim) && !Related(lits, c.lits)
    ensures UsedUp(ca[cr := c], lits, d, lim)
  {
    hide Related;
    var cb := ca[cr := c];
    forall e: CRef | Candidate(cb, e, lim) && e != d ensures !Related(lits, cb[e].lits)
    {
      assert e == cr || Candidate(ca, e, lim);
    }
  }

  lemma RelatedShares(c: seq<Lit>, d: seq<Lit>)
    requires Related(c, d)
    ensures forall l :: l in c ==> l.v in VarsOf(d)
  {
  }

  // Nothing changes for the clauses left when others are removed.
  lemma WatchfulLess(ca: SDb, queue: seq<CRef>, cb: SDb, touched: set<nat>, lim: int)
    requires Watchful(ca, queue, touched, lim) && Shrinks(ca, cb, lim)
    requires forall d: CRef :: d in cb && d != TmpUnit && cb[d].mark == 0 ==> d in ca && cb[d].lits == ca[d].lits
    ensures Watchful(cb, queue, touched, lim)
  {
    hide UsedUp, TouchedBy, Shrinks;
    forall cr | cr in cb && cr != TmpUnit && cb[cr].mark == 0
      ensures cr in queue || TouchedBy(cb[cr].lits, touched) || UsedUp(cb, cb[cr].lits, cr, lim)
    {
      assert ca[cr].mark == 0 by {
        ShrinksLive(ca, cb, cr, lim);
      }
      if UsedUp(ca, ca[cr].lits, cr, lim) {
        UsedUpStays(ca, cb, ca[cr].lits, cr, lim);
      }
    }
  }

  lemma ShrinksLive(ca: SDb, cb: SDb, cr: CRef, lim: int)
    requires Shrinks(ca, cb, lim) && cr in cb && cr != TmpUnit && cb[cr].mark == 0
    ensures cr in ca && ca[cr].mark == 0
  {
  }

  // The clauses with a touched variable were queued.
  lemma WatchfulGathered(ca: SDb, queue: seq<CRef>, touched: set<nat>, queue': seq<CRef>, lim: int)
    requires Watchful(ca, queue, touched, lim) && (forall cr :: cr in queue ==> cr in queue')
    requires forall cr ::
      cr in ca && cr != TmpUnit && ca[cr].mark == 0 && TouchedBy(ca[cr].lits, touched) ==> cr in queue'
    ensures Watchful(ca, queue', {}, lim)
  {
    hide UsedUp;
  }

  // A clause without variables of the facts.
  lemma FactsAdd(ca: SDb, trail: seq<Lit>, from: nat, upto: nat, cr: CRef, c: SClause, lim: int)
    requires FactsUsed(ca, trail, from, upto, lim) && cr !in ca
    requires forall l :: l in trail ==> !HasVar(c.lits, l.v)
    ensures FactsUsed(ca[cr := c], trail, from, upto, lim)
  {
    hide UsedUp, HasVar, Candidate;
    var cb := ca[cr := c];
    forall i | from <= i < upto && i < |trail| ensures UsedUp(cb, [trail[i]], TmpUnit, lim)
    {
      FactUsed(ca, trail[i], lim);
      FactUsed(cb, trail[i], lim);
      assert trail[i] in trail;
      forall d: CRef | Candidate(cb, d, lim) ensures d in cb && !HasVar(cb[d].lits, trail[i].v)
      {
        CandidateAdd(ca, cr, c, d, lim);
      }
    }
  }

  lemma CandidateAdd(ca: SDb, cr: CRef, c: SClause, d: CRef, lim: int)
    requires Candidate(ca[cr := c], d, lim)
    ensures d == cr || Candidate(ca, d, lim)
    ensures d in ca[cr := c]
  {
  }

  lemma FactsLonger(ca: SDb, tr: seq<Lit>, tr': seq<Lit>, from: nat, upto: nat, lim: int)
    requires FactsUsed(ca, tr, from, upto, lim) && tr <= tr' && upto <= |tr|
    ensures FactsUsed(ca, tr', from, upto, lim)
  {
    hide UsedUp;
    forall i | from <= i < upto && i < |tr'| ensures UsedUp(ca, [tr'[i]], TmpUnit, lim)
    {
      assert tr'[i] == tr[i];
    }
  }

  lemma FactsJoin(ca: SDb, trail: seq<Lit>, from: nat, upto: nat, lim: int)
    requires FactsUsed(ca, trail, 0, from, lim) && FactsUsed(ca, trail, from, upto, lim)
    ensures FactsUsed(ca, trail, 0, upto, lim)
  {
    hide UsedUp;
  }
}
