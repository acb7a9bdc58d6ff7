// Variable elimination over plain values: resolvents, the packed stack of
// removed clauses, and the walk that extends a model over it.
module Elimination {
  import opened SolverTypes

  // What a three-valued model satisfies.
  ghost predicate SatC(m: PModel, c: seq<Lit>)
  {
    exists l :: l in c && Val(m, l) == LTrue
  }

  ghost predicate SatF(m: PModel, f: set<seq<Lit>>)
  {
    forall c :: c in f ==> SatC(m, c)
  }

  function Assigned(m: PModel, l: Lit): PModel
    requires l.v < |m|
  {
    m[l.v := if l.s then LFalse else LTrue]
  }

  // ---- The reconstruction stack ----

  // A record is a literal to be set, followed by literals that must all be false
  // for it to be set.
  type Record = seq<Lit>

  function Codes(c: seq<Lit>): (r: seq<nat>)
    ensures |r| == |c|
  {
    seq(|c|, i requires 0 <= i < |c| => ToInt(c[i]))
  }

  // Each record is stored as its literals followed by its length.
  function Pack(rs: seq<Record>): seq<nat>
  {
    if rs == [] then []
    else Pack(rs[..|rs| - 1]) + Codes(rs[|rs| - 1]) + [|rs[|rs| - 1]|]
  }

  ghost predicate RecordsOk(rs: seq<Record>, n: nat)
  {
    forall r :: r in rs ==> |r| > 0 && VarsBelow(r, n)
  }

  function Applied(m: PModel, r: Record): PModel
    requires |r| > 0 && r[0].v < |m|
  {
    if forall i :: 1 <= i < |r| ==> Val(m, r[i]) == LFalse then Assigned(m, r[0]) else m
  }

  // The model after walking the records backwards.
  function Extend(m: PModel, rs: seq<Record>): (r: PModel)
    requires RecordsOk(rs, |m|)
    ensures |r| == |m|
    decreases |rs|
  {
    if rs == [] then m
    else
      assert rs[|rs| - 1] in rs && rs[|rs| - 1][0] in rs[|rs| - 1];
      assert RecordsOk(rs[..|rs| - 1], |m|);
      Extend(Applied(m, rs[|rs| - 1]), rs[..|rs| - 1])
  }

  lemma {:induction false} PackAppend(rs: seq<Record>, ss: seq<Record>)
    ensures Pack(rs + ss) == Pack(rs) + Pack(ss)
  {
    hide Codes;
    if ss == [] {
      assert rs + ss == rs;
    } else {
      var last := ss[|ss| - 1];
      assert (rs + ss)[..|rs + ss| - 1] == rs + ss[..|ss| - 1] && (rs + ss)[|rs + ss| - 1] == last;
      PackAppend(rs, ss[..|ss| - 1]);
      PackLast(ss);
      PackLast(rs + ss);
      assert Pack(rs + ss) == Pack(rs) + Pack(ss[..|ss| - 1]) + Codes(last) + [|last|];
    }
  }

  lemma {:induction false} ExtendAppend(m: PModel, rs: seq<Record>, ss: seq<Record>)
    requires RecordsOk(rs, |m|) && RecordsOk(ss, |m|)
    ensures RecordsOk(rs + ss, |m|)
    ensures Extend(m, rs + ss) == Extend(Extend(m, ss), rs)
    decreases |ss|
  {
    if ss == [] {
      assert rs + ss == rs;
    } else {
      var last := ss[|ss| - 1];
      assert last in ss && last[0] in last;
      assert (rs + ss)[..|rs + ss| - 1] == rs + ss[..|ss| - 1];
      ExtendAppend(Applied(m, last), rs, ss[..|ss| - 1]);
    }
  }

  // Reads the last record backwards from its last literal at index `i0`, while
  // literals are false; `j` counts the literals not read, the first included.
  method ReadRecord(m: PModel, elimclauses: seq<nat>, i0: nat, j0: nat, ghost r: Record) returns (i: nat, j: nat)
    requires |r| == j0 > 0 && j0 - 1 <= i0 < |elimclauses|
    requires forall k :: 0 <= k < |r| ==> elimclauses[i0 + 1 - j0 + k] == ToInt(r[k])
    ensures 1 <= j <= j0 && i == i0 - (j0 - j)
    ensures j == 1 <==> forall k :: 1 <= k < |r| ==> Val(m, r[k]) == LFalse
    ensures elimclauses[i] == ToInt(r[j - 1])
  {
    i, j := i0, j0;
    while j > 1
      invariant 1 <= j <= j0 && i == i0 - (j0 - j)
      invariant forall k :: j <= k < |r| ==> Val(m, r[k]) == LFalse
    {
      assert elimclauses[i] == ToInt(r[j - 1]);
      LitEncoding(r[j - 1], 0);
      if Val(m, ToLit(elimclauses[i])) != LFalse {
        return;
      }
      j := j - 1;
      i := i - 1;
    }
  }

  // The backward walk over the packed vector. `i - j` steps over the literals of a
  // record that were not read.
  method WalkRecords(model: PModel, elimclauses: seq<nat>, ghost rs: seq<Record>) returns (m: PModel)
    requires elimclauses == Pack(rs) && RecordsOk(rs, |model|)
    ensures m == Extend(model, rs)
  {
    hide Pack, RecordsOk, Extend, RecordAt;
    m := model;
    var i: int := |elimclauses| - 1;
    ghost var left := rs;
    while i > 0
      invariant RecordsOk(left, |m|) && |m| == |model|
      invariant -1 <= i < |elimclauses| && elimclauses[..i + 1] == Pack(left)
      invariant Extend(model, rs) == Extend(m, left)
      decreases |left|
    {
      NonEmptyStack(left);
      ghost var r := left[|left| - 1];
      LastStep(m, left);
      StackTop(elimclauses, i, left);
      var j := elimclauses[i];
      var k: int;
      k, j := ReadRecord(m, elimclauses, i - 1, j, r);
      if j == 1 {
        LitEncoding(r[0], 0);
        var x := ToLit(elimclauses[k]);
        m := m[x.v := if x.s then LFalse else LTrue];
      }
      i := k - j;
      left := left[..|left| - 1];
    }
    WalkDone(m, left, i);
  }

  lemma WalkDone(m: PModel, rs: seq<Record>, i: int)
    requires RecordsOk(rs, |m|) && |Pack(rs)| == i + 1 && i <= 0
    ensures Extend(m, rs) == m
  {
    EmptyStack(rs, i);
  }

  // The last record is applied first.
  lemma LastStep(m: PModel, rs: seq<Record>)
    requires rs != [] && RecordsOk(rs, |m|)
    ensures var r := rs[|rs| - 1];
      && |r| > 0 && r[0].v < |m| && RecordsOk(rs[..|rs| - 1], |m|)
      && Extend(m, rs) == Extend(Applied(m, r), rs[..|rs| - 1])
  {
    var r := rs[|rs| - 1];
    assert r in rs && r[0] in r;
  }

  // The last record lies below its length, at place `i`.
  lemma StackTop(ec: seq<nat>, i: nat, rs: seq<Record>)
    requires i < |ec| && rs != [] && rs[|rs| - 1] != [] && ec[..i + 1] == Pack(rs)
    ensures var r := rs[|rs| - 1];
      && ec[i] == |r| <= i && (forall k :: 0 <= k < |r| ==> ec[i - |r| + k] == ToInt(r[k]))
      && ec[..i - |r|] == Pack(rs[..|rs| - 1])
  {
    hide Pack;
    var top := ec[..i + 1];
    LastRecord(top, rs);
    assert forall k :: 0 <= k < |top| ==> top[k] == ec[k];
    var start := |Pack(rs[..|rs| - 1])|;
    assert top[..start] == ec[..start];
  }

  lemma Concat3(e: seq<nat>, p: seq<nat>, c: seq<nat>, n: nat)
    requires e == p + c + [n]
    ensures |e| == |p| + |c| + 1 && e[..|p|] == p && e[|p| + |c|] == n
  {
  }

  lemma Middle(e: seq<nat>, p: seq<nat>, c: seq<nat>, n: nat, k: nat)
    requires e == p + c + [n] && k < |c|
    ensures |p| + k < |e| && e[|p| + k] == c[k]
  {
  }

  lemma PackLast(rs: seq<Record>)
    requires rs != []
    ensures Pack(rs) == Pack(rs[..|rs| - 1]) + Codes(rs[|rs| - 1]) + [|rs[|rs| - 1]|]
  {
    hide Codes;
  }

  lemma CodesAt(c: seq<Lit>)
    ensures |Codes(c)| == |c| && forall k :: 0 <= k < |c| ==> Codes(c)[k] == ToInt(c[k])
  {
    hide ToInt;
  }

  // Record `r` lies at `start` in the packed vector, with its length after it.
  ghost predicate RecordAt(ec: seq<nat>, start: nat, r: Record)
  {
    && |ec| == start + |r| + 1 && ec[start + |r|] == |r|
    && forall k :: 0 <= k < |r| ==> ec[start + k] == ToInt(r[k])
  }

  lemma RecordTail(ec: seq<nat>, p: seq<nat>, c: seq<nat>, r: Record)
    requires ec == p + c + [|r|] && |c| == |r| && forall k :: 0 <= k < |r| ==> c[k] == ToInt(r[k])
    ensures RecordAt(ec, |p|, r) && ec[..|p|] == p
  {
    Concat3(ec, p, c, |r|);
    forall k | 0 <= k < |r| ensures ec[|p| + k] == ToInt(r[k])
    {
      Middle(ec, p, c, |r|, k);
    }
  }

  lemma LastRecord(ec: seq<nat>, rs: seq<Record>)
    requires ec == Pack(rs) && rs != []
    ensures var start := |Pack(rs[..|rs| - 1])|;
      RecordAt(ec, start, rs[|rs| - 1]) && ec[..start] == Pack(rs[..|rs| - 1])
  {
    PackLast(rs);
    CodesAt(rs[|rs| - 1]);
    RecordTail(ec, Pack(rs[..|rs| - 1]), Codes(rs[|rs| - 1]), rs[|rs| - 1]);
  }

  lemma NonEmptyStack(rs: seq<Record>)
    requires |Pack(rs)| > 0
    ensures rs != [] && rs[|rs| - 1] in rs
  {
  }

  lemma EmptyStack(rs: seq<Record>, i: int)
    requires |Pack(rs)| == i + 1 && i <= 0 && forall r :: r in rs ==> |r| > 0
    ensures rs == []
  {
    if rs != [] {
      PackLength(rs);
    }
  }

  lemma PackLength(rs: seq<Record>)
    requires rs != []
    ensures |Pack(rs)| > |rs[|rs| - 1]|
    ensures rs[|rs| - 1] in rs
  {
  }

  // ---- Storing a clause ----

  function VarIndex(c: seq<Lit>, v: nat): (i: nat)
    requires exists l :: l in c && l.v == v
    ensures i < |c| && c[i].v == v
  {
    if c[0].v == v then 0 else
      assert c == [c[0]] + c[1..];
      1 + VarIndex(c[1..], v)
  }

  // The clause with the literal of `v` exchanged with the first one.
  function RecordOf(c: seq<Lit>, v: nat): (r: Record)
    requires exists l :: l in c && l.v == v
    ensures |r| == |c| && r[0].v == v && SameLits(c, r)
  {
    Swapped(c, 0, VarIndex(c, v))
  }

  lemma OneIndex(c: seq<Lit>, v: nat, i: nat)
    requires DistinctVars(c) && i < |c| && c[i].v == v
    ensures VarIndex(c, v) == i
  {
    assert c[i] in c;
  }

  method MkElimClause(elimclauses: seq<nat>, v: nat, c: seq<Lit>) returns (r: seq<nat>)
    requires DistinctVars(c) && exists l :: l in c && l.v == v
    ensures r == elimclauses + Codes(RecordOf(c, v)) + [|c|]
  {
    hide VarIndex, SameLits, ToInt, DistinctVars;
    var first := |elimclauses|;
    var pos := first;
    r := elimclauses;
    for i := 0 to |c|
      invariant r == elimclauses + Codes(c[..i])
      invariant first <= pos < first + |c|
      invariant (exists k :: 0 <= k < i && c[k].v == v) ==> c[pos - first].v == v && pos < first + i
    {
      assert Codes(c[..i + 1]) == Codes(c[..i]) + [ToInt(c[i])];
      r := r + [ToInt(c[i])];
      if c[i].v == v {
        pos := i + first;
      }
    }
    assert c[..|c|] == c;
    ghost var l :| l in c && l.v == v;
    ghost var k :| 0 <= k < |c| && c[k] == l;
    OneIndex(c, v, pos - first);
    r := r[pos := r[first]][first := r[pos]];
    assert r == elimclauses + Codes(RecordOf(c, v));
    r := r + [|c|];
  }

  // ---- What elimination of one variable stores ----

  // The records hold exactly the clauses of one side, all containing `d`.
  ghost predicate StoresSide(rs: seq<Record>, side: set<seq<Lit>>, d: Lit)
  {
    && (forall r :: r in rs ==> |r| > 0 && r[0] == d && DistinctVars(r) && FromSide(r, side))
    && (forall c :: c in side ==> Stored(c, rs))
  }

  ghost predicate FromSide(r: Record, side: set<seq<Lit>>)
  {
    exists c :: c in side && SameLits(c, r)
  }

  ghost predicate Stored(c: seq<Lit>, rs: seq<Record>)
  {
    exists r :: r in rs && SameLits(c, r)
  }

  // Literals other than that of `v` are defined in `m`.
  ghost predicate DefinedBut(m: PModel, c: seq<Lit>, v: nat)
  {
    forall l :: l in c && l.v != v ==> l.v < |m| && Val(m, l) != LUndef
  }

  ghost predicate RestFalse(m: PModel, c: seq<Lit>, v: nat)
  {
    forall l :: l in c && l.v != v ==> Val(m, l) == LFalse
  }

  // Some literal other than that of `v` is true in one of the two clauses.
  ghost predicate ResolventHolds(m: PModel, p: seq<Lit>, q: seq<Lit>, v: nat)
  {
    exists l :: (l in p || l in q) && l.v != v && Val(m, l) == LTrue
  }

  // `m` and `r` differ at most on `v`, which is defined in `r`.
  ghost predicate SetsOnly(m: PModel, r: PModel, v: nat)
  {
    && |m| == |r| && v < |r| && r[v] != LUndef
    && forall u :: 0 <= u < |m| && u != v ==> r[u] == m[u]
  }

  lemma RestFalseSame(m: PModel, r: PModel, c: seq<Lit>, d: seq<Lit>, v: nat)
    requires SetsOnly(m, r, v) && SameLits(c, d)
    ensures RestFalse(m, c, v) <==> RestFalse(r, d, v)
  {
    if RestFalse(m, c, v) {
      forall l | l in d && l.v != v ensures Val(r, l) == LFalse
      {
        assert l in c;
      }
    }
    if RestFalse(r, d, v) {
      forall l | l in c && l.v != v ensures Val(m, l) == LFalse
      {
        assert l in d;
      }
    }
  }

  // Walking the records of one side sets `d` true exactly if the rest of some
  // stored clause is false.
  lemma {:induction false} WalkSide(m: PModel, rs: seq<Record>, d: Lit)
    requires RecordsOk(rs, |m|) && d.v < |m| && m[d.v] != LUndef
    requires forall r :: r in rs ==> r[0] == d && DistinctVars(r)
    ensures SetsOnly(m, Extend(m, rs), d.v)
    ensures Extend(m, rs)[d.v] == if exists r ::
      r in rs && RestFalse(m, r, d.v) then (if d.s then LFalse else LTrue) else m[d.v]
    decreases |rs|
  {
    if rs != [] {
      var r := rs[|rs| - 1];
      var rest := rs[..|rs| - 1];
      assert r in rs && rs == rest + [r];
      var m' := Applied(m, r);
      OthersAreRest(m, r, d);
      assert SetsOnly(m, m', d.v);
      assert forall x :: x in rest ==> x in rs;
      WalkSide(m', rest, d);
      forall x | x in rest ensures RestFalse(m, x, d.v) <==> RestFalse(m', x, d.v)
      {
        RestFalseSame(m, m', x, x, d.v);
      }
      assert forall x :: x in rs <==> x in rest || x == r;
    }
  }

  lemma OthersAreRest(m: PModel, r: Record, d: Lit)
    requires |r| > 0 && r[0] == d && DistinctVars(r)
    ensures (forall i :: 1 <= i < |r| ==> Val(m, r[i]) == LFalse) <==> RestFalse(m, r, d.v)
  {
    if forall i :: 1 <= i < |r| ==> Val(m, r[i]) == LFalse {
      forall l | l in r && l.v != d.v ensures Val(m, l) == LFalse
      {
        var i :| 0 <= i < |r| && r[i] == l;
      }
    }
    if RestFalse(m, r, d.v) {
      forall i | 1 <= i < |r| ensures Val(m, r[i]) == LFalse
      {
        assert r[i] in r && r[i].v != r[0].v;
      }
    }
  }

  // The default unit is walked first.
  lemma ExtendDefault(m: PModel, rs: seq<Record>, u: Lit)
    requires RecordsOk(rs, |m|) && u.v < |m|
    ensures RecordsOk(rs + [[u]], |m|)
    ensures SetsOnly(m, Assigned(m, u), u.v)
    ensures Extend(m, rs + [[u]]) == Extend(Assigned(m, u), rs)
  {
    var one: seq<Record> := [[u]];
    assert RecordsOk(one, |m|);
    assert one[..0] == [];
    ExtendAppend(m, rs, one);
    assert Extend(m, one) == Assigned(m, u);
  }

  lemma SetsOnlyVal(m: PModel, r: PModel, v: nat, l: Lit)
    requires SetsOnly(m, r, v) && l.v != v
    ensures Val(m, l) == Val(r, l)
  {
  }

  // Some stored clause needs its literal `d`: the other side must hold without it.
  lemma OtherSideHolds(m: PModel, r: PModel, d: Lit, c: seq<Lit>, other: set<seq<Lit>>)
    requires SetsOnly(m, r, d.v) && RestFalse(m, c, d.v)
    requires forall q :: q in other ==> ResolventHolds(m, c, q, d.v)
    ensures forall q :: q in other ==> SatC(r, q)
  {
    forall q | q in other ensures SatC(r, q)
    {
      var l :| (l in c || l in q) && l.v != d.v && Val(m, l) == LTrue;
      SetsOnlyVal(m, r, d.v, l);
    }
  }

  // No stored clause needs its literal: each holds by another one.
  lemma StoredSideHolds(m: PModel, r: PModel, d: Lit, side: set<seq<Lit>>)
    requires SetsOnly(m, r, d.v)
    requires forall c :: c in side ==> DefinedBut(m, c, d.v) && !RestFalse(m, c, d.v)
    ensures forall c :: c in side ==> SatC(r, c)
  {
    forall c | c in side ensures SatC(r, c)
    {
      var l :| l in c && l.v != d.v && Val(m, l) != LFalse;
      SetsOnlyVal(m, r, d.v, l);
    }
  }

  lemma StoredRests(m: PModel, m0: PModel, rs: seq<Record>, d: Lit, side: set<seq<Lit>>)
    requires SetsOnly(m, m0, d.v) && StoresSide(rs, side, d)
    ensures (exists rc :: rc in rs && RestFalse(m0, rc, d.v)) <==> exists c :: c in side && RestFalse(m, c, d.v)
  {
    hide SameLits, RestFalse, SetsOnly, DistinctVars;
    if rc :| rc in rs && RestFalse(m0, rc, d.v) {
      assert FromSide(rc, side);
      var c :| c in side && SameLits(c, rc);
      RestFalseSame(m, m0, c, rc, d.v);
    }
    if c :| c in side && RestFalse(m, c, d.v) {
      assert Stored(c, rs);
      var rc :| rc in rs && SameLits(c, rc);
      RestFalseSame(m, m0, c, rc, d.v);
    }
  }

  // The heart of variable elimination: a model of all resolvents, extended over
  // the records of one side and the default for the other, satisfies both sides.
  lemma EliminationExtends(m: PModel, rs: seq<Record>, d: Lit, side: set<seq<Lit>>, other: set<seq<Lit>>)
    requires RecordsOk(rs, |m|) && d.v < |m| && StoresSide(rs, side, d)
    requires forall c :: c in side ==> d in c && DefinedBut(m, c, d.v)
    requires forall c :: c in other ==> Neg(d) in c
    requires forall p, q :: p in side && q in other ==> ResolventHolds(m, p, q, d.v)
    ensures RecordsOk(rs + [[Neg(d)]], |m|)
    ensures SetsOnly(m, Extend(m, rs + [[Neg(d)]]), d.v)
    ensures forall c :: c in side || c in other ==> SatC(Extend(m, rs + [[Neg(d)]]), c)
  {
    hide Extend, RecordsOk, StoresSide, DefinedBut, RestFalse, ResolventHolds, SetsOnly, Assigned, Val;
    var m0, r := SideWalk(m, rs, d, side);
    if c :| c in side && RestFalse(m, c, d.v) {
      assert forall x :: x in side ==> d in x;
      forall x | x in side ensures SatC(r, x) {}
      OtherSideHolds(m, r, d, c, other);
    } else {
      StoredSideHolds(m, r, d, side);
      forall c | c in other ensures SatC(r, c) {
        assert Neg(d) in c;
      }
    }
  }

  lemma SideWalk(m: PModel, rs: seq<Record>, d: Lit, side: set<seq<Lit>>) returns (m0: PModel, r: PModel)
    requires RecordsOk(rs, |m|) && d.v < |m| && StoresSide(rs, side, d)
    ensures RecordsOk(rs + [[Neg(d)]], |m|)
    ensures r == Extend(m, rs + [[Neg(d)]]) && SetsOnly(m, r, d.v)
    ensures (exists c :: c in side && RestFalse(m, c, d.v)) ==> Val(r, d) == LTrue
    ensures !(exists c :: c in side && RestFalse(m, c, d.v)) ==> Val(r, Neg(d)) == LTrue
  {
    hide Extend, RestFalse, FromSide, Stored, DistinctVars;
    ExtendDefault(m, rs, Neg(d));
    m0 := Assigned(m, Neg(d));
    r := Extend(m0, rs);
    WalkSide(m0, rs, d);
    StoredRests(m, m0, rs, d, side);
  }
}
