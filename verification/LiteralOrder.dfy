// Sorting the literals of a clause, and dropping the ones that do not matter
// under a level 0 assignment.
module LiteralOrder {
  import opened SolverTypes

  // ---- Sorting literals ----

  ghost predicate SortedLits(c: seq<Lit>)
  {
    forall i, j :: 0 <= i <= j < |c| ==> ToInt(c[i]) <= ToInt(c[j])
  }

  lemma SameOrHigherVar(p: Lit, q: Lit)
    requires ToInt(p) <= ToInt(q) && p != q && q != Neg(p)
    ensures p.v < q.v
  {
  }

  lemma InsertedSorted(qs: seq<Lit>, j: nat, l: Lit)
    requires SortedLits(qs) && j <= |qs|
    requires j > 0 ==> ToInt(qs[j - 1]) <= ToInt(l)
    requires j < |qs| ==> ToInt(l) <= ToInt(qs[j])
    ensures SortedLits(qs[..j] + [l] + qs[j..])
  {
    hide ToInt;
    var rs := qs[..j] + [l] + qs[j..];
    forall a, b | 0 <= a <= b < |rs| ensures ToInt(rs[a]) <= ToInt(rs[b])
    {
      if a < j {
        assert ToInt(qs[a]) <= ToInt(qs[j - 1]);
      }
      if b > j {
        assert ToInt(qs[j]) <= ToInt(qs[b - 1]);
      }
    }
  }

  lemma InsertedSame(qs: seq<Lit>, j: nat, l: Lit)
    requires j <= |qs|
    ensures multiset(qs[..j] + [l] + qs[j..]) == multiset(qs) + multiset{l}
  {
    assert qs == qs[..j] + qs[j..];
  }

  method InsertSorted(qs: seq<Lit>, l: Lit) returns (rs: seq<Lit>)
    requires SortedLits(qs)
    ensures SortedLits(rs) && multiset(rs) == multiset(qs) + multiset{l}
  {
    var j := |qs|;
    while j > 0 && ToInt(qs[j - 1]) > ToInt(l)
      invariant 0 <= j <= |qs|
      invariant j < |qs| ==> ToInt(l) <= ToInt(qs[j])
    {
      j := j - 1;
    }
    InsertedSorted(qs, j, l);
    InsertedSame(qs, j, l);
    rs := qs[..j] + [l] + qs[j..];
  }

  // Insertion sort by the integer encoding.
  method SortLits(ps: seq<Lit>) returns (qs: seq<Lit>)
    ensures SortedLits(qs) && multiset(qs) == multiset(ps)
    ensures forall l :: l in qs <==> l in ps
  {
    qs := [];
    var i := 0;
    while i < |ps|
      invariant 0 <= i <= |ps|
      invariant SortedLits(qs) && multiset(qs) == multiset(ps[..i])
    {
      assert ps[..i + 1] == ps[..i] + [ps[i]];
      qs := InsertSorted(qs, ps[i]);
      i := i + 1;
    }
    assert ps[..|ps|] == ps;
    forall l ensures l in qs <==> l in ps
    {
      assert l in qs <==> l in multiset(qs);
    }
  }

  // Sorts the literals and drops repeated and false ones; reports clauses that
  // are true at level 0 or tautologies.
  method SimplifyLits(m: PModel, ps: seq<Lit>) returns (trivial: bool, c: seq<Lit>)
    ensures trivial ==> (exists l :: l in ps && Val(m, l) == LTrue) || (exists l :: l in ps && Neg(l) in ps)
    ensures !trivial ==> DistinctVars(c) && forall l :: l in c ==> l in ps && Val(m, l) == LUndef
    ensures !trivial ==> forall l :: l in ps && l !in c ==> Val(m, l) == LFalse
  {
    hide ToInt;
    var qs := SortLits(ps);
    c := [];
    var i := 0;
    while i < |qs|
      invariant 0 <= i <= |qs|
      invariant forall l :: l in c ==> l in ps && Val(m, l) == LUndef
      invariant forall j, k :: 0 <= j < k < |c| ==> c[j].v < c[k].v
      invariant forall j :: 0 <= j < i ==> qs[j] in c || Val(m, qs[j]) == LFalse
      invariant c != [] ==> i > 0 && ToInt(c[|c| - 1]) <= ToInt(qs[i - 1])
    {
      var l := qs[i];
      assert l in qs;
      if Val(m, l) == LTrue || (c != [] && l == Neg(c[|c| - 1])) {
        if Val(m, l) != LTrue {
          assert Neg(l) == c[|c| - 1] && c[|c| - 1] in c;
        }
        return true, [];
      }
      if Val(m, l) != LFalse && (c == [] || l != c[|c| - 1]) {
        if c != [] {
          SameOrHigherVar(c[|c| - 1], l);
        }
        c := c + [l];
      }
      i := i + 1;
    }
    forall l | l in ps && l !in c ensures Val(m, l) == LFalse
    {
      assert l in qs;
      var j :| 0 <= j < |qs| && qs[j] == l;
    }
    return false, c;
  }
}
