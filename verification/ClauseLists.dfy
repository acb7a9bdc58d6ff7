// The preprocessor's clause data base and occurrence lists as plain values:
// what they mean, and what removing, shrinking and adding a clause keep.
module ClauseLists {
  import opened SolverTypes
  import opened Vectors
  import opened Elimination
  import opened Resolution

  datatype SClause = SClause(lits: seq<Lit>, mark: nat, abs: bv32)

  type SDb = map<CRef, SClause>

  // The dummy clause allocated first, into which trail literals are written.
  const TmpUnit: CRef := 0

  predicate Alive(ca: SDb, cr: CRef)
  {
    cr in ca && cr != TmpUnit && ca[cr].mark != 1
  }

  ghost predicate Kept(c: seq<Lit>, eliminated: seq<bool>, x: int)
  {
    forall l :: l in c ==> l.v < |eliminated| && (eliminated[l.v] ==> l.v == x)
  }

  ghost predicate ClauseOk(c: SClause, eliminated: seq<bool>, x: int)
  {
    |c.lits| >= 2 && DistinctVars(c.lits) && HashOf(c.abs, c.lits) && Kept(c.lits, eliminated, x)
  }

  // Live clauses are well formed and mention no eliminated variable, except `x`
  // while it is being eliminated.
  ghost predicate SDbOk(ca: SDb, eliminated: seq<bool>, x: int)
  {
    forall cr: CRef :: Alive(ca, cr) ==> ClauseOk(ca[cr], eliminated, x)
  }

  // The list of variable `v` holds each live clause over `v` once; a dead clause
  // may remain only while the list is dirty.
  ghost predicate ListOk(ca: SDb, occ: seq<CRef>, dirty: bool, v: nat)
  {
    && NoRepeats(occ)
    && (forall cr :: cr in occ ==> cr in ca && cr != TmpUnit)
    && (forall cr :: cr in occ ==> (ca[cr].mark != 1 ==> HasVar(ca[cr].lits, v)) && (!dirty ==> ca[cr].mark != 1))
    && (forall cr: CRef :: Alive(ca, cr) && HasVar(ca[cr].lits, v) ==> cr in occ)
  }

  ghost predicate ListsOk(ca: SDb, occurs: seq<seq<CRef>>, dirty: seq<bool>)
  {
    && |dirty| == |occurs|
    && forall v: nat :: v < |occurs| ==> ListOk(ca, occurs[v], dirty[v], v)
  }

  ghost predicate TrailMatches(assigns: PModel, trail: seq<Lit>)
  {
    && (forall l :: l in trail ==> Val(assigns, l) == LTrue)
    && (forall v: nat :: v < |assigns| && assigns[v] != LUndef ==> Lit(v, assigns[v] == LFalse) in trail)
  }

  // `tau` satisfies the trail and the live clauses not mentioning `v`.
  ghost predicate HoldsS(tau: Model, ca: SDb, trail: seq<Lit>, v: int)
  {
    && (forall l :: l in trail ==> HoldsL(tau, l))
    && (forall cr: CRef :: Alive(ca, cr) && !Mentions(ca[cr].lits, v) ==> HoldsC(tau, ca[cr].lits))
  }

  ghost predicate Mentions(c: seq<Lit>, v: int)
  {
    exists l :: l in c && l.v == v
  }

  lemma TrueOnTrail(assigns: PModel, trail: seq<Lit>, l: Lit)
    requires TrailMatches(assigns, trail)
    ensures Val(assigns, l) == LTrue <==> l in trail
    ensures Val(assigns, l) == LFalse <==> Neg(l) in trail
  {
    assert Val(assigns, Neg(l)) == LTrue <==> Val(assigns, l) == LFalse;
  }

  lemma TrailMatchesPush(assigns: PModel, trail: seq<Lit>, l: Lit)
    requires TrailMatches(assigns, trail) && l.v < |assigns| && Val(assigns, l) == LUndef
    ensures TrailMatches(Assigned(assigns, l), trail + [l])
  {
    var b := Assigned(assigns, l);
    forall k | k in trail + [l] ensures Val(b, k) == LTrue
    {
    }
    forall v: nat | v < |b| && b[v] != LUndef ensures Lit(v, b[v] == LFalse) in trail + [l]
    {
    }
  }

  // ---- Removing a clause ----

  function Marked(ca: SDb, cr: CRef): SDb
    requires cr in ca
  {
    ca[cr := ca[cr].(mark := 1)]
  }

  lemma MarkedHolds(tau: Model, ca: SDb, cr: CRef, trail: seq<Lit>, v: int)
    requires cr in ca
    ensures HoldsS(tau, ca, trail, v) ==> HoldsS(tau, Marked(ca, cr), trail, v)
    ensures HoldsS(tau, Marked(ca, cr), trail, v) && HoldsC(tau, ca[cr].lits) ==> HoldsS(tau, ca, trail, v)
    ensures cr != TmpUnit && Mentions(ca[cr].lits, v) ==>
      (HoldsS(tau, Marked(ca, cr), trail, v) <==> HoldsS(tau, ca, trail, v))
  {
    hide HoldsC, Mentions;
    assert forall x: CRef :: Alive(Marked(ca, cr), x) <==> Alive(ca, x) && x != cr;
    if HoldsS(tau, Marked(ca, cr), trail, v) && (HoldsC(tau, ca[cr].lits) || Mentions(ca[cr].lits, v)) {
      forall x: CRef | Alive(ca, x) && !Mentions(ca[x].lits, v) ensures HoldsC(tau, ca[x].lits)
      {
        assert x == cr || Alive(Marked(ca, cr), x);
      }
    }
  }

  lemma MarkedOk(ca: SDb, cr: CRef, eliminated: seq<bool>, x: int)
    requires cr in ca && SDbOk(ca, eliminated, x)
    ensures SDbOk(Marked(ca, cr), eliminated, x)
  {
    hide ClauseOk;
  }

  // `dirty` with the variables of `c[..k]` set.
  ghost predicate Smudged(dirty: seq<bool>, was: seq<bool>, c: seq<Lit>, k: nat)
    requires k <= |c|
  {
    && |dirty| == |was|
    && forall v: nat :: v < |dirty| ==> dirty[v] == (was[v] || HasVar(c[..k], v))
  }

  lemma SmudgedStep(dirty: seq<bool>, was: seq<bool>, c: seq<Lit>, k: nat)
    requires k < |c| && Smudged(dirty, was, c, k) && c[k].v < |dirty|
    ensures Smudged(dirty[c[k].v := true], was, c, k + 1)
  {
    assert c[..k + 1] == c[..k] + [c[k]];
    assert c[k] in c[..k + 1];
    forall v: nat | v < |dirty| ensures HasVar(c[..k + 1], v) <==> HasVar(c[..k], v) || c[k].v == v
    {
      if HasVar(c[..k], v) {
        var l :| l in c[..k] && l.v == v;
        assert l in c[..k + 1];
      }
    }
  }

  lemma SmudgedStart(dirty: seq<bool>, c: seq<Lit>)
    ensures Smudged(dirty, dirty, c, 0)
  {
  }

  lemma MarkedList(ca: SDb, cr: CRef, occ: seq<CRef>, dirty: bool, v: nat)
    requires Alive(ca, cr) && ListOk(ca, occ, dirty, v)
    ensures ListOk(Marked(ca, cr), occ, dirty || HasVar(ca[cr].lits, v), v)
  {
    hide HasVar;
  }

  lemma MarkedLists(ca: SDb, cr: CRef, occurs: seq<seq<CRef>>, dirty: seq<bool>, now: seq<bool>)
    requires Alive(ca, cr) && ListsOk(ca, occurs, dirty) && Smudged(now, dirty, ca[cr].lits, |ca[cr].lits|)
    ensures ListsOk(Marked(ca, cr), occurs, now)
  {
    hide ListOk;
    var c := ca[cr].lits;
    assert c[..|c|] == c;
    forall v: nat | v < |occurs| ensures ListOk(Marked(ca, cr), occurs[v], now[v], v)
    {
      MarkedList(ca, cr, occurs[v], dirty[v], v);
    }
  }

  lemma AliveOk(ca: SDb, cr: CRef, eliminated: seq<bool>, x: int)
    requires SDbOk(ca, eliminated, x) && Alive(ca, cr)
    ensures ClauseOk(ca[cr], eliminated, x) && DistinctVars(ca[cr].lits) && HashOf(ca[cr].abs, ca[cr].lits)
    ensures |ca[cr].lits| >= 2 && Kept(ca[cr].lits, eliminated, x)
  {
  }

  // ---- Shrinking a clause ----

  function Shrunk(ca: SDb, cr: CRef, l: Lit, abs: bv32): SDb
    requires cr in ca
  {
    ca[cr := SClause(RemoveFirst(ca[cr].lits, l), ca[cr].mark, abs)]
  }

  lemma ShrunkHolds(tau: Model, ca: SDb, cr: CRef, l: Lit, abs: bv32, trail: seq<Lit>)
    requires Alive(ca, cr) && DistinctVars(ca[cr].lits) && l in ca[cr].lits
    ensures HoldsS(tau, Shrunk(ca, cr, l, abs), trail, -1) <==>
      HoldsS(tau, ca, trail, -1) && HoldsC(tau, RemoveFirst(ca[cr].lits, l))
  {
    RemoveLiteral(ca[cr].lits, l);
    var cb := Shrunk(ca, cr, l, abs);
    assert HoldsC(tau, cb[cr].lits) ==> HoldsC(tau, ca[cr].lits);
    hide HoldsC;
    assert forall c :: !Mentions(c, -1);
    assert forall x: CRef :: Alive(cb, x) <==> Alive(ca, x);
    if HoldsS(tau, cb, trail, -1) {
      assert Alive(cb, cr);
      forall x: CRef | Alive(ca, x) ensures HoldsC(tau, ca[x].lits)
      {
        assert Alive(cb, x);
      }
    }
  }

  lemma ShrunkOk(ca: SDb, cr: CRef, l: Lit, abs: bv32, eliminated: seq<bool>, x: int)
    requires Alive(ca, cr) && SDbOk(ca, eliminated, x) && l in ca[cr].lits && |ca[cr].lits| > 2
    requires HashOf(abs, RemoveFirst(ca[cr].lits, l))
    ensures SDbOk(Shrunk(ca, cr, l, abs), eliminated, x)
  {
    hide HashOf;
    RemoveLiteral(ca[cr].lits, l);
    var cb := Shrunk(ca, cr, l, abs);
    assert ClauseOk(ca[cr], eliminated, x);
    assert ClauseOk(cb[cr], eliminated, x);
    hide ClauseOk;
    forall r: CRef | Alive(cb, r) ensures ClauseOk(cb[r], eliminated, x)
    {
      assert Alive(ca, r);
    }
  }

  lemma ShrunkVar(c: seq<Lit>, l: Lit, v: nat)
    requires DistinctVars(c) && l in c
    ensures HasVar(RemoveFirst(c, l), v) <==> HasVar(c, v) && v != l.v
    ensures HasVar(c, l.v)
  {
    RemoveLiteral(c, l);
    if HasVar(c, v) && v != l.v {
      var k :| k in c && k.v == v;
      assert k in RemoveFirst(c, l);
    }
    if HasVar(RemoveFirst(c, l), v) {
      var k :| k in RemoveFirst(c, l) && k.v == v;
      NotTheVar(c, l, k);
    }
  }

  lemma ShrunkList(ca: SDb, cr: CRef, l: Lit, abs: bv32, occ: seq<CRef>, dirty: bool, v: nat)
    requires Alive(ca, cr) && DistinctVars(ca[cr].lits) && l in ca[cr].lits && ListOk(ca, occ, dirty, v)
    ensures ListOk(Shrunk(ca, cr, l, abs), if v == l.v then RemoveFirst(occ, cr) else occ, dirty, v)
  {
    hide HasVar, DistinctVars, NoRepeats, RemoveFirst;
    ShrunkVar(ca[cr].lits, l, v);
    if v == l.v {
      RemoveFirstMeaning(occ, cr);
    }
    var cb := Shrunk(ca, cr, l, abs);
    forall r: CRef ensures Alive(cb, r) <==> Alive(ca, r)
    {
    }
  }

  lemma ShrunkLists(ca: SDb, cr: CRef, l: Lit, abs: bv32, occurs: seq<seq<CRef>>, dirty: seq<bool>)
    requires Alive(ca, cr) && DistinctVars(ca[cr].lits) && l in ca[cr].lits && ListsOk(ca, occurs, dirty)
    requires l.v < |occurs|
    ensures ListsOk(Shrunk(ca, cr, l, abs), occurs[l.v := RemoveFirst(occurs[l.v], cr)], dirty)
  {
    hide ListOk;
    var now := occurs[l.v := RemoveFirst(occurs[l.v], cr)];
    forall v: nat | v < |occurs| ensures ListOk(Shrunk(ca, cr, l, abs), now[v], dirty[v], v)
    {
      ShrunkList(ca, cr, l, abs, occurs[v], dirty[v], v);
    }
  }

  // A dead clause may change in any way.
  lemma DeadChange(ca: SDb, cr: CRef, c: SClause, occurs: seq<seq<CRef>>, dirty: seq<bool>, eliminated: seq<bool>,
      x: int)
    requires cr in ca && cr != TmpUnit && ca[cr].mark == 1 && c.mark == 1
    requires ListsOk(ca, occurs, dirty) && SDbOk(ca, eliminated, x)
    ensures ListsOk(ca[cr := c], occurs, dirty) && SDbOk(ca[cr := c], eliminated, x)
    ensures forall tau, trail, v :: HoldsS(tau, ca[cr := c], trail, v) <==> HoldsS(tau, ca, trail, v)
  {
    hide ClauseOk, HasVar, HoldsS, NoRepeats;
    OnlyAliveMatters(ca, ca[cr := c]);
    forall v: nat | v < |occurs| ensures ListOk(ca[cr := c], occurs[v], dirty[v], v)
    {
      assert ListOk(ca, occurs[v], dirty[v], v);
    }
  }

  ghost predicate SameAlive(ca: SDb, cb: SDb)
  {
    && (forall r: CRef :: Alive(ca, r) <==> Alive(cb, r))
    && (forall r: CRef :: Alive(ca, r) ==> ca[r] == cb[r])
  }

  lemma OnlyAliveMatters(ca: SDb, cb: SDb)
    requires SameAlive(ca, cb)
    ensures forall tau, trail, v :: HoldsS(tau, cb, trail, v) <==> HoldsS(tau, ca, trail, v)
  {
    hide HoldsC, Mentions;
  }

  // The dummy clause may change in any way.
  lemma TmpChange(ca: SDb, c: SClause, occurs: seq<seq<CRef>>, dirty: seq<bool>, eliminated: seq<bool>, x: int)
    requires ListsOk(ca, occurs, dirty) && SDbOk(ca, eliminated, x)
    ensures ListsOk(ca[TmpUnit := c], occurs, dirty) && SDbOk(ca[TmpUnit := c], eliminated, x)
    ensures forall tau, trail, v :: HoldsS(tau, ca[TmpUnit := c], trail, v) <==> HoldsS(tau, ca, trail, v)
  {
    hide ClauseOk, HasVar, HoldsS, NoRepeats;
    OnlyAliveMatters(ca, ca[TmpUnit := c]);
    forall v: nat | v < |occurs| ensures ListOk(ca[TmpUnit := c], occurs[v], dirty[v], v)
    {
      assert ListOk(ca, occurs[v], dirty[v], v);
    }
  }

  lemma Listed(ca: SDb, cr: CRef, occurs: seq<seq<CRef>>, dirty: seq<bool>, l: Lit)
    requires ListsOk(ca, occurs, dirty) && Alive(ca, cr) && l in ca[cr].lits && l.v < |occurs|
    ensures cr in occurs[l.v]
  {
    assert ListOk(ca, occurs[l.v], dirty[l.v], l.v);
    assert HasVar(ca[cr].lits, l.v);
  }

  // ---- Adding a clause ----

  lemma AddedHolds(tau: Model, ca: SDb, cr: CRef, c: SClause, trail: seq<Lit>, v: int)
    requires cr !in ca && cr != TmpUnit && c.mark != 1
    ensures HoldsS(tau, ca[cr := c], trail, v) <==>
      HoldsS(tau, ca, trail, v) && (Mentions(c.lits, v) || HoldsC(tau, c.lits))
  {
    hide HoldsC, Mentions;
    var cb := ca[cr := c];
    assert forall x: CRef :: Alive(cb, x) <==> Alive(ca, x) || x == cr;
    if HoldsS(tau, cb, trail, v) {
      assert Alive(cb, cr);
      forall x: CRef | Alive(ca, x) && !Mentions(ca[x].lits, v) ensures HoldsC(tau, ca[x].lits)
      {
        assert Alive(cb, x);
      }
    }
  }

  lemma AddedOk(ca: SDb, cr: CRef, c: SClause, eliminated: seq<bool>, x: int)
    requires SDbOk(ca, eliminated, x) && ClauseOk(c, eliminated, x)
    ensures SDbOk(ca[cr := c], eliminated, x)
  {
    hide ClauseOk;
    var cb := ca[cr := c];
    forall r: CRef | Alive(cb, r) ensures ClauseOk(cb[r], eliminated, x)
    {
      if r != cr {
        assert Alive(ca, r);
      }
    }
  }

  // The lists once `cr` was pushed for the variables of `c[..k]`.
  ghost predicate Pushed(now: seq<seq<CRef>>, was: seq<seq<CRef>>, cr: CRef, c: seq<Lit>, k: nat)
    requires k <= |c|
  {
    && |now| == |was|
    && forall v: nat :: v < |now| ==> now[v] == if HasVar(c[..k], v) then was[v] + [cr] else was[v]
  }

  lemma PushedStep(now: seq<seq<CRef>>, was: seq<seq<CRef>>, cr: CRef, c: seq<Lit>, k: nat)
    requires k < |c| && Pushed(now, was, cr, c, k) && DistinctVars(c) && c[k].v < |now|
    ensures Pushed(now[c[k].v := now[c[k].v] + [cr]], was, cr, c, k + 1)
  {
    assert c[..k + 1] == c[..k] + [c[k]];
    assert c[k] in c[..k + 1];
    assert !HasVar(c[..k], c[k].v) by {
      forall l | l in c[..k] ensures l.v != c[k].v
      {
        var i :| 0 <= i < k && c[i] == l;
      }
    }
    forall v: nat | v < |now| ensures HasVar(c[..k + 1], v) <==> HasVar(c[..k], v) || c[k].v == v
    {
      if HasVar(c[..k], v) {
        var l :| l in c[..k] && l.v == v;
        assert l in c[..k + 1];
      }
    }
  }

  lemma PushedStart(was: seq<seq<CRef>>, cr: CRef, c: seq<Lit>)
    ensures Pushed(was, was, cr, c, 0)
  {
  }

  lemma AddedList(ca: SDb, cr: CRef, c: SClause, occ: seq<CRef>, dirty: bool, v: nat)
    requires ListOk(ca, occ, dirty, v) && cr !in ca && cr != TmpUnit && c.mark != 1
    ensures ListOk(ca[cr := c], if HasVar(c.lits, v) then occ + [cr] else occ, dirty, v)
  {
    hide HasVar;
    var cb := ca[cr := c];
    assert cr !in occ;
    forall r: CRef ensures Alive(cb, r) <==> Alive(ca, r) || r == cr
    {
    }
  }

  lemma AddedLists(ca: SDb, cr: CRef, c: SClause, occurs: seq<seq<CRef>>, dirty: seq<bool>, now: seq<seq<CRef>>)
    requires ListsOk(ca, occurs, dirty) && cr !in ca && cr != TmpUnit && c.mark != 1
    requires Pushed(now, occurs, cr, c.lits, |c.lits|)
    ensures ListsOk(ca[cr := c], now, dirty)
  {
    hide ListOk;
    assert c.lits[..|c.lits|] == c.lits;
    forall v: nat | v < |occurs| ensures ListOk(ca[cr := c], now[v], dirty[v], v)
    {
      AddedList(ca, cr, c, occurs[v], dirty[v], v);
    }
  }

  // ---- Cleaning a list ----

  function AliveOnly(ca: SDb, s: seq<CRef>): (r: seq<CRef>)
  {
    if s == [] then []
    else AliveOnly(ca, s[..|s| - 1]) + if Alive(ca, s[|s| - 1]) then [s[|s| - 1]] else []
  }

  lemma AliveOnlyStep(ca: SDb, s: seq<CRef>, i: nat)
    requires i < |s|
    ensures AliveOnly(ca, s[..i + 1]) == AliveOnly(ca, s[..i]) + if Alive(ca, s[i]) then [s[i]] else []
  {
    assert s[..i + 1][..i] == s[..i];
  }

  lemma {:induction false} AliveOnlyMeaning(ca: SDb, s: seq<CRef>)
    ensures forall x :: x in AliveOnly(ca, s) <==> x in s && Alive(ca, x)
    ensures NoRepeats(s) ==> NoRepeats(AliveOnly(ca, s))
  {
    if s != [] {
      var t := s[..|s| - 1];
      AliveOnlyMeaning(ca, t);
      assert s == t + [s[|s| - 1]];
      assert forall x :: x in s <==> x in t || x == s[|s| - 1];
    }
  }

  lemma CleanedLists(ca: SDb, occurs: seq<seq<CRef>>, dirty: seq<bool>, v: nat)
    requires ListsOk(ca, occurs, dirty) && v < |occurs|
    ensures ListsOk(ca, occurs[v := AliveOnly(ca, occurs[v])], dirty[v := false])
  {
    hide HasVar, NoRepeats;
    AliveOnlyMeaning(ca, occurs[v]);
    assert ListOk(ca, occurs[v], dirty[v], v);
    assert ListOk(ca, AliveOnly(ca, occurs[v]), false, v);
  }
}
