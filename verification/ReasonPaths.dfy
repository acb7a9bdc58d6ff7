// Why a literal of the learnt clause stays: ways through reasons that end outside it.
module ReasonPaths {
  import opened SolverTypes
  import opened Assignments
  import opened SolverInvariant
  import opened AnalysisSteps

  // Replacing `v` by its reason brings in `w`, not marked and above level 0.
  ghost predicate ReasonStep(ca: ClauseDb, a: Assignment, marks: seq<bool>, v: nat, w: nat)
  {
    && a.Why(v).Some? && a.Why(v).value in ca && w != v && HasVar(ca[a.Why(v).value].lits, w)
    && a.Lev(w) > 0 && !(w < |marks| && marks[w])
  }

  ghost predicate Path(ca: ClauseDb, a: Assignment, marks: seq<bool>, path: seq<nat>)
  {
    |path| > 0 && forall i :: 0 <= i < |path| - 1 ==> ReasonStep(ca, a, marks, path[i], path[i + 1])
  }

  ghost predicate Reached(ca: ClauseDb, a: Assignment, marks: seq<bool>, u: nat, w: nat)
  {
    exists path: seq<nat> :: Path(ca, a, marks, path) && path[0] == u && path[|path| - 1] == w
  }

  // The reason of `w` brings in a decision, or a variable outside `open`.
  ghost predicate Stuck(ca: ClauseDb, a: Assignment, marks: seq<bool>, w: nat, open: iset<nat>)
  {
    exists z: nat :: ReasonStep(ca, a, marks, w, z) && (a.Why(z).None? || z !in open)
  }

  // Reasons lead from `u` through unmarked variables to one that cannot be replaced.
  ghost predicate Irredundant(ca: ClauseDb, a: Assignment, marks: seq<bool>, u: nat, open: iset<nat>)
  {
    exists w: nat :: Reached(ca, a, marks, u, w) && Stuck(ca, a, marks, w, open)
  }

  // Why the literal of variable `v` is kept.
  ghost predicate Needed(ca: ClauseDb, a: Assignment, marks: seq<bool>, v: nat, open: iset<nat>)
  {
    a.Why(v).None? || Irredundant(ca, a, marks, v, open)
  }

  ghost predicate AllReached(ca: ClauseDb, a: Assignment, marks: seq<bool>, u: nat, stack: seq<Lit>)
  {
    forall l :: l in stack ==> Reached(ca, a, marks, u, l.v)
  }

  lemma ReachedSelf(ca: ClauseDb, a: Assignment, marks: seq<bool>, p: Lit)
    ensures AllReached(ca, a, marks, p.v, [p])
  {
    assert Path(ca, a, marks, [p.v]);
  }

  lemma ReachedOne(ca: ClauseDb, a: Assignment, marks: seq<bool>, u: nat, v: nat, w: nat)
    requires Reached(ca, a, marks, u, v) && ReasonStep(ca, a, marks, v, w)
    ensures Reached(ca, a, marks, u, w)
  {
    hide ReasonStep;
    var path: seq<nat> :| Path(ca, a, marks, path) && path[0] == u && path[|path| - 1] == v;
    var longer := path + [w];
    forall i | 0 <= i < |longer| - 1 ensures ReasonStep(ca, a, marks, longer[i], longer[i + 1])
    {
      if i < |path| - 1 {
        assert ReasonStep(ca, a, marks, path[i], path[i + 1]);
      }
    }
    assert Path(ca, a, marks, longer);
  }

  // Fewer marks, or literals in another order, leave every step in place.
  lemma StepStays(ca: ClauseDb, cb: ClauseDb, a: Assignment, more: seq<bool>, marks: seq<bool>, v: nat, w: nat)
    requires SameDb(ca, cb) && |marks| == |more| && forall x :: 0 <= x < |marks| && marks[x] ==> more[x]
    requires ReasonStep(ca, a, more, v, w)
    ensures ReasonStep(cb, a, marks, v, w)
  {
    var c, d := ca[a.Why(v).value].lits, cb[a.Why(v).value].lits;
    assert SameLits(c, d);
    var l :| l in c && l.v == w;
    assert l in d;
  }

  lemma ReachedStays(ca: ClauseDb, cb: ClauseDb, a: Assignment, more: seq<bool>, marks: seq<bool>, u: nat, w: nat)
    requires SameDb(ca, cb) && |marks| == |more| && forall x :: 0 <= x < |marks| && marks[x] ==> more[x]
    requires Reached(ca, a, more, u, w)
    ensures Reached(cb, a, marks, u, w)
  {
    hide SameDb, ReasonStep;
    var path: seq<nat> :| Path(ca, a, more, path) && path[0] == u && path[|path| - 1] == w;
    forall i | 0 <= i < |path| - 1 ensures ReasonStep(cb, a, marks, path[i], path[i + 1])
    {
      StepStays(ca, cb, a, more, marks, path[i], path[i + 1]);
    }
    assert Path(cb, a, marks, path);
  }

  lemma NeededStays(ca: ClauseDb, cb: ClauseDb, a: Assignment, more: seq<bool>, marks: seq<bool>, v: nat,
      open: iset<nat>)
    requires SameDb(ca, cb) && |marks| == |more| && forall x :: 0 <= x < |marks| && marks[x] ==> more[x]
    requires Needed(ca, a, more, v, open)
    ensures Needed(cb, a, marks, v, open)
  {
    hide SameDb, ReasonStep, Reached;
    if a.Why(v).Some? {
      var w: nat :| Reached(ca, a, more, v, w) && Stuck(ca, a, more, w, open);
      ReachedStays(ca, cb, a, more, marks, v, w);
      var z: nat :| ReasonStep(ca, a, more, w, z) && (a.Why(z).None? || z !in open);
      StepStays(ca, cb, a, more, marks, w, z);
      assert Stuck(cb, a, marks, w, open);
    }
  }

  lemma AllReachedStays(ca: ClauseDb, cb: ClauseDb, a: Assignment, marks: seq<bool>, u: nat, stack: seq<Lit>)
    requires SameDb(ca, cb) && AllReached(ca, a, marks, u, stack)
    ensures AllReached(cb, a, marks, u, stack)
  {
    hide SameDb, Reached;
    forall l | l in stack ensures Reached(cb, a, marks, u, l.v)
    {
      ReachedStays(ca, cb, a, marks, marks, u, l.v);
    }
  }

  // The literals pushed for `x` are one step further.
  lemma PushedReached(ca: ClauseDb, a: Assignment, marks: seq<bool>, u: nat, stack: seq<Lit>, x: Lit, pushed: seq<Lit>)
    requires AllReached(ca, a, marks, u, stack + [x])
    requires forall q :: q in pushed ==> ReasonStep(ca, a, marks, x.v, q.v)
    ensures AllReached(ca, a, marks, u, stack + pushed) && Reached(ca, a, marks, u, x.v)
  {
    hide Reached, ReasonStep;
    var all := stack + [x];
    assert all[|stack|] == x;
    assert x in all;
    forall l | l in stack + pushed ensures Reached(ca, a, marks, u, l.v)
    {
      if l in stack {
        assert l in all;
      } else {
        ReachedOne(ca, a, marks, u, x.v, l.v);
      }
    }
  }

  // A literal above level 0 that is not marked.
  ghost predicate Fresh(a: Assignment, marks: seq<bool>, l: Lit)
  {
    a.Lev(l.v) > 0 && !(l.v < |marks| && marks[l.v])
  }

  // What scanning clause `c` after its first literal finds: fresh literals, and if it
  // stops, one that cannot be replaced.
  ghost predicate Scan(c: seq<Lit>, a: Assignment, marks: seq<bool>, pushed: seq<Lit>, complete: bool, open: iset<nat>)
  {
    && |c| > 0 && (forall q :: q in pushed ==> q in c[1..] && Fresh(a, marks, q))
    && (!complete ==> exists q :: q in c[1..] && Fresh(a, marks, q) && (a.Why(q.v).None? || q.v !in open))
  }

  // The same in terms of steps.
  ghost predicate ScanFound(ca: ClauseDb, a: Assignment, marks: seq<bool>, v: nat, pushed: seq<Lit>, complete: bool,
      open: iset<nat>)
  {
    && (forall q :: q in pushed ==> ReasonStep(ca, a, marks, v, q.v))
    && (!complete ==> Stuck(ca, a, marks, v, open))
  }

  lemma ScanSteps(ca: ClauseDb, a: Assignment, more: seq<bool>, marks: seq<bool>, v: nat, pushed: seq<Lit>,
      complete: bool, open: iset<nat>)
    requires a.Why(v).Some? && a.Why(v).value in ca && Scan(ca[a.Why(v).value].lits, a, more, pushed, complete, open)
    requires ca[a.Why(v).value].lits[0].v == v && DistinctVars(ca[a.Why(v).value].lits)
    requires |marks| == |more| && forall x :: 0 <= x < |marks| && marks[x] ==> more[x]
    ensures ScanFound(ca, a, marks, v, pushed, complete, open)
  {
    var c := ca[a.Why(v).value].lits;
    forall q | q in c[1..] && Fresh(a, more, q) ensures ReasonStep(ca, a, marks, v, q.v)
    {
      var i :| 0 <= i < |c[1..]| && c[1..][i] == q;
      assert c[i + 1] == q && q in c;
    }
  }

  // One turn of the walk over the stack.
  lemma StackPushed(ca: ClauseDb, a: Assignment, marks: seq<bool>, u: nat, stack: seq<Lit>, x: Lit, pushed: seq<Lit>,
      complete: bool, open: iset<nat>)
    requires AllReached(ca, a, marks, u, stack + [x]) && ScanFound(ca, a, marks, x.v, pushed, complete, open)
    ensures AllReached(ca, a, marks, u, stack + pushed)
    ensures !complete ==> Irredundant(ca, a, marks, u, open)
  {
    hide AllReached, Reached, Stuck;
    PushedReached(ca, a, marks, u, stack, x, pushed);
  }

  lemma MarkedSinceFresh(before: seq<bool>, seen: seq<bool>, l: seq<Lit>)
    requires MarkedSince(before, seen, l)
    ensures |before| == |seen| && forall v :: 0 <= v < |seen| && before[v] ==> seen[v]
    ensures forall x :: x in l ==> x.v < |before| && !before[x.v]
  {
  }

  lemma LeadsFirst(c: seq<Lit>, a: Assignment, v: nat)
    requires LeadsTo(c, a, v)
    ensures |c| >= 2 && c[0].v == v
  {
  }

  // All literals after the first are kept for a reason.
  ghost predicate AllNeeded(ca: ClauseDb, a: Assignment, marks: seq<bool>, kept: seq<Lit>, open: iset<nat>)
  {
    forall t :: 1 <= t < |kept| ==> Needed(ca, a, marks, kept[t].v, open)
  }

  lemma NoneKept(ca: ClauseDb, a: Assignment, marks: seq<bool>, kept: seq<Lit>, open: iset<nat>)
    requires |kept| <= 1
    ensures AllNeeded(ca, a, marks, kept, open)
  {
  }

  lemma OneNeeded(ca: ClauseDb, cb: ClauseDb, a: Assignment, marks: seq<bool>, kept: seq<Lit>, l: Lit, drop: bool,
      open: iset<nat>)
    requires SameDb(ca, cb) && AllNeeded(ca, a, marks, kept, open) && (!drop ==> Needed(cb, a, marks, l.v, open))
    ensures AllNeeded(cb, a, marks, if drop then kept else kept + [l], open)
  {
    hide SameDb, Needed;
    forall t | 1 <= t < |kept| ensures Needed(cb, a, marks, kept[t].v, open)
    {
      NeededStays(ca, cb, a, marks, marks, kept[t].v, open);
    }
  }

  lemma NotCovered(ca: ClauseDb, a: Assignment, marks: seq<bool>, v: nat, i: nat)
    requires a.Why(v).Some? && a.Why(v).value in ca && i < |ca[a.Why(v).value].lits|
    requires Fresh(a, marks, ca[a.Why(v).value].lits[i]) && ca[a.Why(v).value].lits[i].v != v
    ensures Uncovered(ca, a, marks, v)
  {
    assert ca[a.Why(v).value].lits[i] in ca[a.Why(v).value].lits;
    assert ReasonStep(ca, a, marks, v, ca[a.Why(v).value].lits[i].v);
  }

  // The reason of the variable, if it has one, brings in another variable.
  ghost predicate Uncovered(ca: ClauseDb, a: Assignment, marks: seq<bool>, v: nat)
  {
    a.Why(v).None? || exists z: nat :: ReasonStep(ca, a, marks, v, z)
  }

  lemma FewerNeeded(ca: ClauseDb, a: Assignment, marks: seq<bool>, kept: seq<Lit>, less: seq<Lit>, open: iset<nat>)
    requires Shrunk(kept, less)
    ensures AllNeeded(ca, a, marks, kept, open) ==> AllNeeded(ca, a, marks, less, open)
    ensures AllUncovered(ca, a, marks, kept) ==> AllUncovered(ca, a, marks, less)
  {
    hide Needed, Uncovered;
    forall t | 1 <= t < |less| ensures exists s :: 1 <= s < |kept| && kept[s] == less[t]
    {
      assert less[t] in less && less[t].v != less[0].v;
      var s :| 0 <= s < |kept| && kept[s] == less[t];
    }
  }

  ghost predicate AllUncovered(ca: ClauseDb, a: Assignment, marks: seq<bool>, kept: seq<Lit>)
  {
    forall t :: 1 <= t < |kept| ==> Uncovered(ca, a, marks, kept[t].v)
  }
}
