// Which variables elimination still has to try: the rest were refused, and since then
// no clause over them has gone or lost their literal.
module EliminationOrder {
  import opened SolverTypes
  import opened Vectors
  import opened Elimination
  import opened Resolution
  import opened ClauseLists
  import opened EliminationSteps
  import Sets

  // The clauses over `v` at the time `was` are still there, some perhaps shorter.
  ghost predicate StillOver(was: SDb, ca: SDb, v: nat)
  {
    forall cr: CRef :: Alive(was, cr) && HasVar(was[cr].lits, v) ==>
      Alive(ca, cr) && HasVar(ca[cr].lits, v) && Subset(ca[cr].lits, was[cr].lits)
  }

  // Eliminating `v` was beyond the limits then.
  ghost predicate Refused(was: SDb, ca: SDb, v: nat, grow: int, clauseLim: int)
  {
    EliminationLimits(was, v, grow, clauseLim, false) && StillOver(was, ca, v)
  }

  // Variables that may be eliminated.
  predicate Eligible(frozen: seq<bool>, eliminated: seq<bool>, assigns: PModel, v: nat)
  {
    && v < |frozen| && v < |eliminated| && v < |assigns|
    && !frozen[v] && !eliminated[v] && assigns[v] == LUndef
  }

  // Every variable that may be eliminated is in the heap, is being tried, or was refused.
  ghost predicate HeapOk(ca: SDb, heap: set<nat>, trying: int, refused: map<nat, SDb>, frozen: seq<bool>,
      eliminated: seq<bool>, assigns: PModel, grow: int, clauseLim: int)
  {
    forall v: nat :: Eligible(frozen, eliminated, assigns, v) && v !in heap && v != trying ==>
      v in refused && Refused(refused[v], ca, v, grow, clauseLim)
  }

  // The heap once the variables of `c` were updated: those there stay, and those that
  // may be eliminated join.
  ghost function Updated(heap: set<nat>, c: seq<Lit>, frozen: seq<bool>, eliminated: seq<bool>, assigns: PModel):
      (r: set<nat>)
  {
    heap + set l | l in c && Eligible(frozen, eliminated, assigns, l.v) :: l.v
  }

  // A clause was removed, and the heap updated for its variables.
  lemma HeapRemoved(ca: SDb, cb: SDb, cr: CRef, heap: set<nat>, heap': set<nat>, trying: int, refused: map<nat, SDb>,
      frozen: seq<bool>, eliminated: seq<bool>, assigns: PModel, grow: int, clauseLim: int)
    requires HeapOk(ca, heap, trying, refused, frozen, eliminated, assigns, grow, clauseLim) && cr in ca
    requires heap' == Updated(heap, ca[cr].lits, frozen, eliminated, assigns)
    requires cb.Keys == ca.Keys && forall d :: d in ca && d != cr ==> cb[d] == ca[d]
    ensures HeapOk(cb, heap', trying, refused, frozen, eliminated, assigns, grow, clauseLim)
  {
    assert forall l :: l in ca[cr].lits && Eligible(frozen, eliminated, assigns, l.v) ==> l.v in heap';
    forall v: nat | Eligible(frozen, eliminated, assigns, v) && v !in heap' && v != trying
      ensures v in refused && Refused(refused[v], cb, v, grow, clauseLim)
    {
      assert !HasVar(ca[cr].lits, v);
      assert StillOver(refused[v], cb, v);
    }
  }

  // A literal was struck out, and the heap updated for its variable.
  lemma HeapStruck(ca: SDb, cb: SDb, cr: CRef, l: Lit, heap: set<nat>, heap': set<nat>, trying: int,
      refused: map<nat, SDb>, frozen: seq<bool>, eliminated: seq<bool>, assigns: PModel, grow: int, clauseLim: int)
    requires HeapOk(ca, heap, trying, refused, frozen, eliminated, assigns, grow, clauseLim) && cr in ca
    requires heap' == Updated(heap, [l], frozen, eliminated, assigns)
    requires cb.Keys == ca.Keys && (forall d :: d in ca && d != cr ==> cb[d] == ca[d])
    requires cb[cr].mark == ca[cr].mark && forall k :: k in cb[cr].lits <==> k in ca[cr].lits && k != l
    ensures HeapOk(cb, heap', trying, refused, frozen, eliminated, assigns, grow, clauseLim)
  {
    assert l in [l];
    assert Eligible(frozen, eliminated, assigns, l.v) ==> l.v in heap';
    forall v: nat | Eligible(frozen, eliminated, assigns, v) && v !in heap' && v != trying
      ensures v in refused && Refused(refused[v], cb, v, grow, clauseLim)
    {
      assert HasVar(ca[cr].lits, v) ==> HasVar(cb[cr].lits, v) by {
        if k :| k in ca[cr].lits && k.v == v {
          assert k in cb[cr].lits;
        }
      }
      assert StillOver(refused[v], cb, v);
    }
  }

  // Other changes concern no clause over variables.
  lemma HeapKept(ca: SDb, cb: SDb, heap: set<nat>, trying: int, refused: map<nat, SDb>, frozen: seq<bool>,
      eliminated: seq<bool>, assigns: PModel, assigns': PModel, eliminated': seq<bool>, grow: int, clauseLim: int)
    requires HeapOk(ca, heap, trying, refused, frozen, eliminated, assigns, grow, clauseLim)
    requires forall cr: CRef :: Alive(ca, cr) ==> Alive(cb, cr) && cb[cr].lits == ca[cr].lits
    requires forall v: nat :: Eligible(frozen, eliminated', assigns', v) ==> Eligible(frozen, eliminated, assigns, v)
    ensures HeapOk(cb, heap, trying, refused, frozen, eliminated', assigns', grow, clauseLim)
  {
    forall v: nat | Eligible(frozen, eliminated', assigns', v) && v !in heap && v != trying
      ensures v in refused && Refused(refused[v], cb, v, grow, clauseLim)
    {
      assert StillOver(refused[v], cb, v);
    }
  }

  // A variable was tried: it is refused, eliminated, or was not eligible.
  lemma HeapTried(ca: SDb, heap: set<nat>, trying: int, refused: map<nat, SDb>, frozen: seq<bool>,
      eliminated: seq<bool>, assigns: PModel, grow: int, clauseLim: int, v: nat)
    requires HeapOk(ca, heap, trying, refused, frozen, eliminated, assigns, grow, clauseLim) && trying == v
    requires Eligible(frozen, eliminated, assigns, v) ==> EliminationLimits(ca, v, grow, clauseLim, false)
    ensures HeapOk(ca, heap, -1, refused[v := ca], frozen, eliminated, assigns, grow, clauseLim)
  {
    forall w: nat | Eligible(frozen, eliminated, assigns, w) && w !in heap && w != -1
      ensures w in refused[v := ca] && Refused(refused[v := ca][w], ca, w, grow, clauseLim)
    {
      if w == v {
        assert StillOver(ca, ca, v);
      }
    }
  }

  lemma MoreAssigned(m: PModel, trail: seq<Lit>, m': PModel, trail': seq<Lit>, frozen: seq<bool>,
      eliminated: seq<bool>)
    requires TrailMatches(m, trail) && TrailMatches(m', trail') && trail <= trail' && |m'| == |m|
    ensures forall v: nat :: Eligible(frozen, eliminated, m', v) ==> Eligible(frozen, eliminated, m, v)
  {
    forall v: nat | v < |m| && m[v] != LUndef ensures m'[v] != LUndef
    {
      assert Lit(v, m[v] == LFalse) in trail';
      assert Val(m', Lit(v, m[v] == LFalse)) == LTrue;
    }
  }

  lemma UpdatedStep(heap: set<nat>, c: seq<Lit>, i: nat, frozen: seq<bool>, eliminated: seq<bool>, assigns: PModel)
    requires i < |c|
    ensures Updated(heap, c[..i + 1], frozen, eliminated, assigns) ==
      Updated(heap, c[..i], frozen, eliminated, assigns)
      + if Eligible(frozen, eliminated, assigns, c[i].v) then {c[i].v} else {}
  {
    assert c[..i + 1] == c[..i] + [c[i]];
  }

  lemma UpdatedNone(heap: set<nat>, c: seq<Lit>, frozen: seq<bool>, eliminated: seq<bool>, assigns: PModel)
    ensures Updated(heap, c[..0], frozen, eliminated, assigns) == heap
  {
  }

  lemma TouchedStep(c: seq<Lit>, i: nat)
    requires i < |c|
    ensures VarsOf(c[..i + 1]) == VarsOf(c[..i]) + {c[i].v}
  {
    assert c[..i + 1] == c[..i] + [c[i]];
    assert c[i] in c[..i + 1];
    forall v | v in VarsOf(c[..i]) ensures v in VarsOf(c[..i + 1])
    {
      var l :| l in c[..i] && l.v == v;
      assert l in c[..i + 1];
    }
  }

  ghost function RemainingOf(eliminated: seq<bool>): set<nat>
  {
    set v | v in Sets.Below(|eliminated|) && !eliminated[v]
  }

  // No decision is made on an eliminated variable.
  ghost predicate NotDecided(eliminated: seq<bool>, decision: seq<bool>)
  {
    |decision| == |eliminated| && forall v :: 0 <= v < |eliminated| && eliminated[v] ==> !decision[v]
  }

  lemma NotDecidedMore(eliminated: seq<bool>, decision: seq<bool>, v: nat)
    requires NotDecided(eliminated, decision) && v < |eliminated|
    ensures NotDecided(eliminated[v := true], decision[v := false])
  {
  }
}
