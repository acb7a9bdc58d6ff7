// Operations on single clauses used by preprocessing: the variable hash, the
// subsumption test, strengthening, and the two forms of merging on a variable.
module Resolution {
  import opened SolverTypes
  import opened Sets
  import opened Vectors

  // ---- The variable hash ----

  function Bit(v: nat): bv32
  {
    1 << (v % 32)
  }

  // No bit of `a` is missing in `b`.
  predicate Inside(a: bv32, b: bv32)
  {
    a & !b == 0
  }

  // Mask `a` has the bit of every literal of `c`.
  ghost predicate Covers(a: bv32, c: seq<Lit>)
  {
    forall l :: l in c ==> Inside(Bit(l.v), a)
  }

  // `a` is the least mask that covers `c`: the or of its bits, in any order.
  ghost predicate HashOf(a: bv32, c: seq<Lit>)
  {
    Covers(a, c) && forall x: bv32 | Covers(x, c) :: Inside(a, x)
  }

  lemma OrLeast(a: bv32, b: bv32, x: bv32)
    requires Inside(a, x) && Inside(b, x)
    ensures Inside(a | b, x)
  {
  }

  lemma ZeroInside()
    ensures forall x: bv32 :: Inside(0, x)
  {
  }

  lemma OrCovers(a: bv32, b: bv32)
    ensures Inside(b, a | b)
  {
  }

  lemma OrGrows(a: bv32, x: bv32, b: bv32)
    requires Inside(a, x)
    ensures Inside(a, x | b)
  {
  }

  method CalcAbstraction(c: seq<Lit>) returns (abstraction: bv32)
    ensures HashOf(abstraction, c)
  {
    hide Bit, Inside;
    abstraction := 0;
    ZeroInside();
    for i := 0 to |c|
      invariant HashOf(abstraction, c[..i])
    {
      HashStep(abstraction, c[..i], c[i]);
      assert c[..i + 1] == c[..i] + [c[i]];
      abstraction := abstraction | Bit(c[i].v);
    }
    assert c[..|c|] == c;
  }

  lemma CoversStep(x: bv32, c: seq<Lit>, l: Lit)
    ensures Covers(x, c + [l]) <==> Covers(x, c) && Inside(Bit(l.v), x)
  {
    hide Bit, Inside;
    assert forall k :: k in c + [l] <==> k in c || k == l;
  }

  lemma CoversGrows(x: bv32, c: seq<Lit>, b: bv32)
    requires Covers(x, c)
    ensures Covers(x | b, c)
  {
    hide Bit, Inside;
    forall k | k in c ensures Inside(Bit(k.v), x | b)
    {
      OrGrows(Bit(k.v), x, b);
    }
  }

  lemma LeastStep(a: bv32, c: seq<Lit>, l: Lit, x: bv32)
    requires HashOf(a, c) && Covers(x, c + [l])
    ensures Inside(a | Bit(l.v), x)
  {
    hide Bit, Inside, Covers;
    CoversStep(x, c, l);
    OrLeast(a, Bit(l.v), x);
  }

  lemma HashStep(a: bv32, c: seq<Lit>, l: Lit)
    requires HashOf(a, c)
    ensures HashOf(a | Bit(l.v), c + [l])
  {
    hide Bit, Inside, Covers;
    CoversGrows(a, c, Bit(l.v));
    OrCovers(a, Bit(l.v));
    CoversStep(a | Bit(l.v), c, l);
    forall x: bv32 | Covers(x, c + [l]) ensures Inside(a | Bit(l.v), x)
    {
      LeastStep(a, c, l, x);
    }
  }

  // The hash test never rejects a clause all of whose variables occur in the other.
  lemma HashNeverRejects(a: bv32, c: seq<Lit>, b: bv32, d: seq<Lit>)
    requires HashOf(a, c) && HashOf(b, d)
    requires forall l :: l in c ==> l in d || Neg(l) in d
    ensures Inside(a, b)
  {
    hide Bit, Inside;
    forall l | l in c ensures Inside(Bit(l.v), b)
    {
      if l !in d {
        assert Inside(Bit(Neg(l).v), b);
      }
    }
  }

  // ---- Subsumption ----

  datatype Subsumption = Subsumed | Strengthens(p: Lit) | Unrelated

  ghost predicate Subset(c: seq<Lit>, d: seq<Lit>)
  {
    forall l :: l in c ==> l in d
  }

  // `c` is contained in `d` once literal `p` of `c` is negated.
  ghost predicate SubsetFlipping(c: seq<Lit>, d: seq<Lit>, p: Lit)
  {
    p in c && Neg(p) in d && forall l :: l in c && l != p ==> l in d
  }

  // For clauses without repeated variables the nested search decides exactly
  // between containment, containment up to one negation, and neither.
  method Subsumes(c: seq<Lit>, ca: bv32, d: seq<Lit>, da: bv32) returns (r: Subsumption)
    requires DistinctVars(c) && DistinctVars(d) && HashOf(ca, c) && HashOf(da, d)
    ensures r == Subsumed <==> Subset(c, d)
    ensures forall p :: r == Strengthens(p) <==> SubsetFlipping(c, d, p)
  {
    hide DistinctVars, HashOf, Subset, SubsetFlipping, Inside;
    if |d| < |c| || !Inside(ca, da) {
      RejectedEarly(c, ca, d, da);
      return Unrelated;
    }
    r := Subsumed;
    for i := 0 to |c|
      invariant r == Subsumed ==> forall k :: 0 <= k < i ==> c[k] in d
      invariant r.Strengthens? ==> exists k :: 0 <= k < i && c[k] == r.p
      invariant r.Strengthens? ==> Neg(r.p) in d && forall k :: 0 <= k < i && c[k] != r.p ==> c[k] in d
      invariant r != Unrelated
    {
      var found := false;
      var j := 0;
      ghost var r0 := r;
      while j < |d| && !found
        invariant 0 <= j <= |d| && r0 != Unrelated
        invariant !found ==>
          r == r0 && forall k :: 0 <= k < j ==> d[k] != c[i] && (r0 == Subsumed ==> d[k] != Neg(c[i]))
        invariant found ==> (r == r0 && c[i] in d) || (r0 == Subsumed && r == Strengthens(c[i]) && Neg(c[i]) in d)
      {
        if c[i] == d[j] {
          found := true;
        } else if r == Subsumed && c[i] == Neg(d[j]) {
          r := Strengthens(c[i]);
          found := true;
        }
        j := j + 1;
      }
      if !found {
        NotSubsumed(c, d, r, i);
        return Unrelated;
      }
    }
    SubsumptionFound(c, d, r);
  }

  lemma OnlySide(d: seq<Lit>, l: Lit)
    requires DistinctVars(d) && l in d
    ensures Neg(l) !in d
  {
  }

  lemma FlippingUnique(c: seq<Lit>, d: seq<Lit>, p: Lit)
    requires DistinctVars(c) && DistinctVars(d) && SubsetFlipping(c, d, p)
    ensures !Subset(c, d)
    ensures forall q :: SubsetFlipping(c, d, q) ==> q == p
  {
    OnlySide(d, Neg(p));
  }

  lemma SubsumptionFound(c: seq<Lit>, d: seq<Lit>, r: Subsumption)
    requires DistinctVars(c) && DistinctVars(d) && r != Unrelated
    requires r == Subsumed ==> forall k :: 0 <= k < |c| ==> c[k] in d
    requires r.Strengthens? ==> exists k :: 0 <= k < |c| && c[k] == r.p
    requires r.Strengthens? ==> Neg(r.p) in d && forall k :: 0 <= k < |c| && c[k] != r.p ==> c[k] in d
    ensures r == Subsumed <==> Subset(c, d)
    ensures forall p :: r == Strengthens(p) <==> SubsetFlipping(c, d, p)
  {
    hide DistinctVars;
    assert r == Subsumed ==> Subset(c, d);
    assert r.Strengthens? ==> SubsetFlipping(c, d, r.p);
    forall p | SubsetFlipping(c, d, p) ensures r == Strengthens(p)
    {
      FlippingUnique(c, d, p);
    }
    if r.Strengthens? {
      FlippingUnique(c, d, r.p);
    }
  }

  lemma NotSubsumed(c: seq<Lit>, d: seq<Lit>, r: Subsumption, i: nat)
    requires DistinctVars(c) && DistinctVars(d) && i < |c| && c[i] !in d && r != Unrelated
    requires r == Subsumed ==> Neg(c[i]) !in d
    requires r.Strengthens? ==> Neg(r.p) in d && exists k :: 0 <= k < i && c[k] == r.p
    ensures !Subset(c, d)
    ensures forall p :: !SubsetFlipping(c, d, p)
  {
    assert c[i] in c;
    if r.Strengthens? {
      var k :| 0 <= k < i && c[k] == r.p;
      OnlySide(d, Neg(r.p));
      assert c[k] in c && c[k] !in d && c[k] != c[i];
    }
  }

  lemma {:induction false} VarSetSize(c: seq<Lit>)
    requires DistinctVars(c)
    ensures |VarsOf(c)| == |c|
  {
    if c != [] {
      var d := c[..|c| - 1];
      VarSetSize(d);
      assert VarsOf(c) == VarsOf(d) + {c[|c| - 1].v};
    }
  }

  lemma RejectedEarly(c: seq<Lit>, a: bv32, d: seq<Lit>, b: bv32)
    requires DistinctVars(c) && DistinctVars(d) && HashOf(a, c) && HashOf(b, d)
    requires |d| < |c| || !Inside(a, b)
    ensures !Subset(c, d)
    ensures forall p :: !SubsetFlipping(c, d, p)
  {
    hide HashOf;
    if forall l :: l in c ==> l in d || Neg(l) in d {
      HashNeverRejects(a, c, b, d);
      VarSetSize(c);
      VarSetSize(d);
      forall x | x in VarsOf(c) ensures x in VarsOf(d)
      {
        var k :| 0 <= k < |c| && c[k].v == x;
        assert c[k] in c;
        if c[k] in d {
          var j :| 0 <= j < |d| && d[j] == c[k];
        } else {
          var j :| 0 <= j < |d| && d[j] == Neg(c[k]);
        }
      }
      SubsetSize(VarsOf(c), VarsOf(d));
    }
  }

  // ---- Strengthening ----

  lemma RemoveLiteral(c: seq<Lit>, p: Lit)
    requires DistinctVars(c) && p in c
    ensures |RemoveFirst(c, p)| == |c| - 1 && DistinctVars(RemoveFirst(c, p))
    ensures forall l :: l in RemoveFirst(c, p) <==> l in c && l != p
  {
    RemoveFirstMeaning(c, p);
    var w := RemoveFirst(c, p);
    forall i, j | 0 <= i < j < |w| ensures w[i].v != w[j].v
    {
      assert w[i] in c && w[j] in c;
      NotTheVar(c, w[i], w[j]);
    }
  }

  // Self-subsuming resolution: with both clauses true the flipped literal can go.
  lemma StrengthenedHolds(tau: Model, c: seq<Lit>, d: seq<Lit>, p: Lit)
    requires SubsetFlipping(c, d, p) && DistinctVars(c) && DistinctVars(d)
    requires HoldsC(tau, c)
    ensures HoldsC(tau, d) <==> HoldsC(tau, RemoveFirst(d, Neg(p)))
  {
    RemoveLiteral(d, Neg(p));
    var w := RemoveFirst(d, Neg(p));
    if HoldsC(tau, d) {
      var l :| l in d && HoldsL(tau, l);
      if l == Neg(p) {
        var k :| k in c && HoldsL(tau, k);
        assert k in w;
      } else {
        assert l in w;
      }
    }
  }

  // ---- Merging two clauses on a variable ----

  // The two clauses contain opposite literals of some variable other than `v`.
  ghost predicate Clash(p: seq<Lit>, q: seq<Lit>, v: nat)
  {
    exists l :: l in p && Neg(l) in q && l.v != v
  }

  // `r` is the resolvent of `p` and `q` on `v`, with each literal once.
  ghost predicate Resolvent(r: seq<Lit>, p: seq<Lit>, q: seq<Lit>, v: nat)
  {
    DistinctVars(r) && forall l :: l in r <==> (l in p || l in q) && l.v != v
  }

  // Looks for the variable of `l` in `ps`.
  method FindVar(ps: seq<Lit>, l: Lit) returns (j: nat)
    ensures j <= |ps| && (j < |ps| ==> ps[j].v == l.v)
    ensures forall k :: 0 <= k < j ==> ps[k].v != l.v
  {
    j := 0;
    while j < |ps| && ps[j].v != l.v
      invariant j <= |ps| && forall k :: 0 <= k < j ==> ps[k].v != l.v
    {
      j := j + 1;
    }
  }

  // The literals of `qs[..i]` that go into the resolvent before those of `ps`.
  ghost predicate NewLits(out: seq<Lit>, qs: seq<Lit>, i: nat, ps: seq<Lit>, v: nat)
    requires i <= |qs|
  {
    && DistinctVars(out)
    && forall l :: l in out <==> l in qs[..i] && l.v != v && !HasVar(ps, l.v)
  }

  lemma NewLitsStep(out: seq<Lit>, qs: seq<Lit>, i: nat, ps: seq<Lit>, v: nat)
    requires i < |qs| && NewLits(out, qs, i, ps, v) && DistinctVars(qs)
    ensures NewLits(if qs[i].v != v && !HasVar(ps, qs[i].v) then out + [qs[i]] else out, qs, i + 1, ps, v)
  {
    var x := qs[i];
    var next := if x.v != v && !HasVar(ps, x.v) then out + [x] else out;
    assert qs[..i + 1] == qs[..i] + [x];
    forall l | l in out ensures l.v != x.v
    {
      var k :| 0 <= k < i && qs[k] == l;
    }
  }

  ghost predicate NoClashUpTo(ps: seq<Lit>, qs: seq<Lit>, i: nat, v: nat)
    requires i <= |qs|
  {
    forall k :: 0 <= k < i && qs[k].v != v ==> Neg(qs[k]) !in ps
  }

  lemma FoundVar(ps: seq<Lit>, l: Lit, j: nat)
    requires DistinctVars(ps) && j <= |ps| && (j < |ps| ==> ps[j].v == l.v)
    requires forall k :: 0 <= k < j ==> ps[k].v != l.v
    ensures HasVar(ps, l.v) <==> j < |ps|
    ensures Neg(l) in ps <==> j < |ps| && ps[j] == Neg(l)
  {
    if j < |ps| {
      assert ps[j] in ps;
    }
  }

  lemma ClashFound(ps: seq<Lit>, qs: seq<Lit>, i: nat, v: nat)
    requires i < |qs| && qs[i].v != v && Neg(qs[i]) in ps
    ensures Clash(ps, qs, v) && Clash(qs, ps, v)
  {
    assert qs[i] in qs && Neg(Neg(qs[i])) == qs[i];
  }

  lemma NoClash(ps: seq<Lit>, qs: seq<Lit>, v: nat)
    requires NoClashUpTo(ps, qs, |qs|, v)
    ensures !Clash(ps, qs, v) && !Clash(qs, ps, v)
  {
    forall l | l in ps && l.v != v ensures Neg(l) !in qs
    {
      assert forall k :: 0 <= k < |qs| && qs[k] == Neg(l) ==> Neg(qs[k]) == l;
    }
    forall l | l in qs && l.v != v ensures Neg(l) !in ps
    {
      var k :| 0 <= k < |qs| && qs[k] == l;
    }
  }

  // Builds the resolvent, or reports that it would be a tautology.
  method Merge(c: seq<Lit>, d: seq<Lit>, v: nat) returns (ok: bool, out_clause: seq<Lit>)
    requires DistinctVars(c) && DistinctVars(d)
    ensures ok <==> !Clash(c, d, v)
    ensures ok ==> Resolvent(out_clause, c, d, v)
  {
    hide Clash, Resolvent, NewLits, NoClashUpTo, HasVar;
    var ps_smallest := |c| < |d|;
    var ps := if ps_smallest then d else c;
    var qs := if ps_smallest then c else d;
    out_clause := [];
    NoNewLits(qs, ps, v);
    for i := 0 to |qs|
      invariant NewLits(out_clause, qs, i, ps, v) && NoClashUpTo(ps, qs, i, v)
    {
      var j := FindVar(ps, qs[i]);
      FoundVar(ps, qs[i], j);
      NewLitsStep(out_clause, qs, i, ps, v);
      if qs[i].v != v {
        if j < |ps| {
          if ps[j] == Neg(qs[i]) {
            ClashFound(ps, qs, i, v);
            return false, out_clause;
          }
        } else {
          out_clause := out_clause + [qs[i]];
        }
      }
      NoClashStep(ps, qs, i, v);
    }
    NoClash(ps, qs, v);
    ok := true;
    ghost var added := out_clause;
    AllNew(added, qs, ps, v);
    for i := 0 to |ps|
      invariant Resolvent(out_clause, ps[..i], added, v)
    {
      ResolventStep(out_clause, ps, i, added, v);
      if ps[i].v != v {
        out_clause := out_clause + [ps[i]];
      }
    }
    assert ps[..|ps|] == ps;
    ResolventWhole(out_clause, ps, qs, added, v);
  }

  lemma NoClashStep(ps: seq<Lit>, qs: seq<Lit>, i: nat, v: nat)
    requires i < |qs| && NoClashUpTo(ps, qs, i, v) && (qs[i].v != v ==> Neg(qs[i]) !in ps)
    ensures NoClashUpTo(ps, qs, i + 1, v)
  {
  }

  lemma NoNewLits(qs: seq<Lit>, ps: seq<Lit>, v: nat)
    ensures NewLits([], qs, 0, ps, v) && NoClashUpTo(ps, qs, 0, v)
  {
  }

  lemma AllNew(added: seq<Lit>, qs: seq<Lit>, ps: seq<Lit>, v: nat)
    requires NewLits(added, qs, |qs|, ps, v)
    ensures Resolvent(added, ps[..0], added, v)
    ensures forall l :: l in added ==> !HasVar(ps, l.v)
  {
  }

  lemma ResolventStep(out: seq<Lit>, ps: seq<Lit>, i: nat, added: seq<Lit>, v: nat)
    requires i < |ps| && DistinctVars(ps) && Resolvent(out, ps[..i], added, v)
    requires forall l :: l in added ==> !HasVar(ps, l.v)
    ensures Resolvent(if ps[i].v != v then out + [ps[i]] else out, ps[..i + 1], added, v)
  {
    assert ps[..i + 1] == ps[..i] + [ps[i]];
    forall l | l in out ensures l.v != ps[i].v || l.v == v
    {
      if l in ps[..i] {
        var k :| 0 <= k < i && ps[k] == l;
      } else {
        assert ps[i] in ps;
      }
    }
  }

  lemma ResolventWhole(out: seq<Lit>, ps: seq<Lit>, qs: seq<Lit>, added: seq<Lit>, v: nat)
    requires Resolvent(out, ps, added, v) && NewLits(added, qs, |qs|, ps, v)
    requires !Clash(ps, qs, v)
    ensures Resolvent(out, ps, qs, v) && Resolvent(out, qs, ps, v)
  {
    assert qs[..|qs|] == qs;
    forall l | l in qs && l.v != v ensures l in out
    {
      if HasVar(ps, l.v) {
        var k :| k in ps && k.v == l.v;
        assert k == l || k == Neg(l);
        assert Neg(Neg(l)) == l;
      } else {
        assert l in added;
      }
    }
  }

  // The counting form gives the same verdict and the length of the same resolvent.
  method MergeSize(c: seq<Lit>, d: seq<Lit>, v: nat) returns (ok: bool, size: nat)
    requires DistinctVars(c) && DistinctVars(d) && HasVar(c, v) && HasVar(d, v)
    ensures ok <==> !Clash(c, d, v)
    ensures ok ==> forall r :: Resolvent(r, c, d, v) ==> |r| == size
    ensures ok ==> exists r :: Resolvent(r, c, d, v)
  {
    hide Clash, Resolvent, NewLits, NoClashUpTo, HasVar;
    var ps_smallest := |c| < |d|;
    var ps := if ps_smallest then d else c;
    var qs := if ps_smallest then c else d;
    HasVarLength(ps, v);
    size := |ps| - 1;
    NoNewLits(qs, ps, v);
    ghost var added: seq<Lit> := [];
    for i := 0 to |qs|
      invariant NewLits(added, qs, i, ps, v) && NoClashUpTo(ps, qs, i, v)
      invariant size == |ps| - 1 + |added|
    {
      var j := FindVar(ps, qs[i]);
      FoundVar(ps, qs[i], j);
      NewLitsStep(added, qs, i, ps, v);
      if qs[i].v != v {
        if j < |ps| {
          if ps[j] == Neg(qs[i]) {
            ClashFound(ps, qs, i, v);
            return false, size;
          }
        } else {
          size := size + 1;
          added := added + [qs[i]];
        }
      }
      NoClashStep(ps, qs, i, v);
    }
    NoClash(ps, qs, v);
    ok := true;
    ResolventExists(ps, qs, added, v);
    forall r | Resolvent(r, c, d, v) ensures |r| == size
    {
      ResolventSize(r, ps, qs, added, v);
    }
  }

  lemma HasVarLength(c: seq<Lit>, v: nat)
    requires HasVar(c, v)
    ensures |c| > 0
  {
  }

  lemma ResolventSize(r: seq<Lit>, ps: seq<Lit>, qs: seq<Lit>, added: seq<Lit>, v: nat)
    requires Resolvent(r, ps, qs, v) || Resolvent(r, qs, ps, v)
    requires NewLits(added, qs, |qs|, ps, v) && !Clash(ps, qs, v) && DistinctVars(ps) && HasVar(ps, v)
    ensures |r| == |ps| - 1 + |added|
  {
    var p :| p in ps && p.v == v;
    RemoveLiteral(ps, p);
    var w := RemoveFirst(ps, p);
    var s := w + added;
    assert qs[..|qs|] == qs;
    ResolventVars(r, ps, qs, added, v, p);
    VarSetSize(r);
    VarSetSize(s);
  }

  lemma ResolventExists(ps: seq<Lit>, qs: seq<Lit>, added: seq<Lit>, v: nat)
    requires NewLits(added, qs, |qs|, ps, v) && !Clash(ps, qs, v) && DistinctVars(ps) && HasVar(ps, v)
    ensures exists r :: Resolvent(r, ps, qs, v) && Resolvent(r, qs, ps, v)
  {
    var p :| p in ps && p.v == v;
    RemoveLiteral(ps, p);
    var w := RemoveFirst(ps, p);
    var r := w + added;
    forall l | l in w ensures l.v != v
    {
      NotTheVar(ps, p, l);
    }
    forall i, j | 0 <= i < j < |r| ensures r[i].v != r[j].v
    {
      if i < |w| && j >= |w| {
        assert w[i] in ps && added[j - |w|] in added;
      }
    }
    assert forall l :: l in w <==> l in ps && l.v != v;
    assert Resolvent(r, ps, added, v);
    ResolventWhole(r, ps, qs, added, v);
  }

  lemma {:induction false} SomeNewLits(qs: seq<Lit>, i: nat, ps: seq<Lit>, v: nat) returns (added: seq<Lit>)
    requires i <= |qs| && DistinctVars(qs)
    ensures NewLits(added, qs, i, ps, v)
  {
    hide NewLits, DistinctVars, HasVar;
    if i == 0 {
      added := [];
      NoNewLits(qs, ps, v);
    } else {
      added := SomeNewLits(qs, i - 1, ps, v);
      NewLitsStep(added, qs, i - 1, ps, v);
      added := if qs[i - 1].v != v && !HasVar(ps, qs[i - 1].v) then added + [qs[i - 1]] else added;
    }
  }

  // Two clauses that do not clash have a resolvent.
  lemma SomeResolvent(p: seq<Lit>, q: seq<Lit>, v: nat) returns (r: seq<Lit>)
    requires DistinctVars(p) && DistinctVars(q) && HasVar(p, v) && !Clash(p, q, v)
    ensures Resolvent(r, p, q, v)
  {
    var added := SomeNewLits(q, |q|, p, v);
    ResolventExists(p, q, added, v);
    r :| Resolvent(r, p, q, v);
  }

  lemma ResolventVars(r: seq<Lit>, ps: seq<Lit>, qs: seq<Lit>, added: seq<Lit>, v: nat, p: Lit)
    requires Resolvent(r, ps, qs, v) || Resolvent(r, qs, ps, v)
    requires NewLits(added, qs, |qs|, ps, v) && DistinctVars(ps) && p in ps && p.v == v
    ensures DistinctVars(RemoveFirst(ps, p) + added) && VarsOf(RemoveFirst(ps, p) + added) == VarsOf(r)
  {
    RemoveLiteral(ps, p);
    var w := RemoveFirst(ps, p);
    var s := w + added;
    assert qs[..|qs|] == qs;
    forall i, j | 0 <= i < j < |s| ensures s[i].v != s[j].v
    {
      if i < |w| && j >= |w| {
        assert w[i] in ps && added[j - |w|] in added;
      }
    }
    forall x | x in VarsOf(s) ensures x in VarsOf(r)
    {
      var i :| 0 <= i < |s| && s[i].v == x;
      assert s[i] in w || s[i] in added;
      NotTheVar(ps, p, s[i]);
      assert s[i] in r;
    }
    forall x | x in VarsOf(r) ensures x in VarsOf(s)
    {
      var i :| 0 <= i < |r| && r[i].v == x;
      assert r[i] in r;
      ResolventVarCovered(r[i], ps, qs, added, w, v, p);
    }
  }

  lemma NotTheVar(ps: seq<Lit>, p: Lit, l: Lit)
    requires DistinctVars(ps) && p in ps
    ensures l in ps && l != p ==> l.v != p.v
  {
  }

  lemma ResolventVarCovered(l: Lit, ps: seq<Lit>, qs: seq<Lit>, added: seq<Lit>, w: seq<Lit>, v: nat, p: Lit)
    requires (l in ps || l in qs) && l.v != v && p.v == v
    requires NewLits(added, qs, |qs|, ps, v) && forall k :: k in w <==> k in ps && k != p
    ensures l.v in VarsOf(w + added)
  {
    assert qs[..|qs|] == qs;
    var s := w + added;
    var k := l;
    if HasVar(ps, l.v) {
      k :| k in ps && k.v == l.v;
      assert k in w;
    } else {
      assert l in added;
    }
    assert k in s;
    var i :| 0 <= i < |s| && s[i] == k;
  }

  // A resolvent follows from its parents.
  lemma ResolventSound(tau: Model, r: seq<Lit>, p: seq<Lit>, q: seq<Lit>, v: nat, pv: Lit)
    requires Resolvent(r, p, q, v) && pv.v == v
    requires DistinctVars(p) && DistinctVars(q) && pv in p && Neg(pv) in q
    requires HoldsC(tau, p) && HoldsC(tau, q)
    ensures HoldsC(tau, r)
  {
    var a :| a in p && HoldsL(tau, a);
    var b :| b in q && HoldsL(tau, b);
    NotTheVar(p, pv, a);
    NotTheVar(q, Neg(pv), b);
    if a != pv {
      assert a in r;
    } else {
      assert b in r;
    }
  }
}
