// Literals, lifted booleans, clauses and what it means for a propositional
// assignment to satisfy them.
module SolverTypes {

  // A literal: variable `v`, negated when `s` (the source's sign bit) is set.
  datatype Lit = Lit(v: nat, s: bool)

  datatype LBool = LTrue | LFalse | LUndef

  datatype Option<+T> = None | Some(value: T)

  type CRef = nat

  // A partial assignment, one value per variable.
  type PModel = seq<LBool>

  function Val(m: PModel, l: Lit): LBool
  {
    if l.v >= |m| || m[l.v] == LUndef then LUndef
    else if (m[l.v] == LTrue) != l.s then LTrue
    else LFalse
  }

  // `mark == 1` means deleted, as in the source.
  datatype Clause = Clause(lits: seq<Lit>, learnt: bool, mark: nat)

  type ClauseDb = map<CRef, Clause>

  function Neg(l: Lit): (r: Lit)
  {
    Lit(l.v, !l.s)
  }

  // The source stores a literal as 2 * variable + sign.
  function ToInt(l: Lit): nat
  {
    2 * l.v + (if l.s then 1 else 0)
  }

  function ToLit(x: nat): Lit
  {
    Lit(x / 2, x % 2 == 1)
  }

  // The encoding is a bijection in which negation flips the lowest bit, so a
  // literal and its negation are adjacent in the order used by sorting.
  lemma LitEncoding(l: Lit, x: nat)
    ensures ToLit(ToInt(l)) == l
    ensures ToInt(ToLit(x)) == x
    ensures ToInt(Neg(l)) == if ToInt(l) % 2 == 0 then ToInt(l) + 1 else ToInt(l) - 1
    ensures ToInt(l) / 2 == l.v
  {
    if l.s {
      assert ToInt(l) == 2 * l.v + 1;
    } else {
      assert ToInt(l) == 2 * l.v;
    }
  }

  // A total propositional assignment, given by its set of true variables.
  type Model = iset<nat>

  ghost predicate HoldsL(tau: Model, l: Lit)
  {
    (l.v in tau) != l.s
  }

  ghost predicate HoldsC(tau: Model, c: seq<Lit>)
  {
    exists l :: l in c && HoldsL(tau, l)
  }

  ghost predicate HoldsF(tau: Model, f: set<seq<Lit>>)
  {
    forall c :: c in f ==> HoldsC(tau, c)
  }

  ghost predicate Satisfiable(f: set<seq<Lit>>)
  {
    exists tau :: HoldsF(tau, f)
  }

  // Every model of `f` satisfies clause `c`.
  ghost predicate Entails(f: set<seq<Lit>>, c: seq<Lit>)
  {
    forall tau :: HoldsF(tau, f) ==> HoldsC(tau, c)
  }

  ghost predicate Live(ca: ClauseDb, cr: CRef)
  {
    cr in ca && ca[cr].mark != 1
  }

  ghost predicate DistinctVars(c: seq<Lit>)
  {
    forall i, j :: 0 <= i < j < |c| ==> c[i].v != c[j].v
  }

  // Two clauses with the same literals in a possibly different order.
  ghost predicate SameLits(c: seq<Lit>, d: seq<Lit>)
  {
    |c| == |d| && (forall l :: l in c <==> l in d)
  }

  // The data base only changed the order of literals within clauses.
  ghost predicate SameDb(ca: ClauseDb, cb: ClauseDb)
  {
    && ca.Keys == cb.Keys
    && forall cr :: cr in ca ==>
      SameLits(ca[cr].lits, cb[cr].lits) && ca[cr].learnt == cb[cr].learnt && ca[cr].mark == cb[cr].mark
  }

  lemma SameDbRefl(ca: ClauseDb)
    ensures SameDb(ca, ca)
  {
  }

  lemma SameDbTrans(ca: ClauseDb, cb: ClauseDb, cc: ClauseDb)
    requires SameDb(ca, cb) && SameDb(cb, cc)
    ensures SameDb(ca, cc)
  {
  }

  ghost predicate WellFormedDb(ca: ClauseDb, n: nat)
  {
    forall cr :: cr in ca ==>
      |ca[cr].lits| >= 2 && DistinctVars(ca[cr].lits) && VarsBelow(ca[cr].lits, n)
  }

  ghost predicate HasVar(c: seq<Lit>, v: nat)
  {
    exists l :: l in c && l.v == v
  }

  function VarsOf(c: seq<Lit>): set<nat>
  {
    set l | l in c :: l.v
  }

  ghost predicate VarsBelow(c: seq<Lit>, n: nat)
  {
    forall l :: l in c ==> l.v < n
  }

  function Swapped(c: seq<Lit>, i: nat, j: nat): (d: seq<Lit>)
    requires i < |c| && j < |c|
    ensures SameLits(c, d)
    ensures DistinctVars(c) ==> DistinctVars(d)
    ensures forall k :: 0 <= k < |c| ==> d[k] == c[if k == i then j else if k == j then i else k]
  {
    var d := c[i := c[j]][j := c[i]];
    assert forall l :: l in c ==> l in d by {
      forall l | l in c ensures l in d {
        var k :| 0 <= k < |c| && c[k] == l;
        assert d[if k == i then j else if k == j then i else k] == l;
      }
    }
    d
  }

  lemma HoldsSame(tau: Model, c: seq<Lit>, d: seq<Lit>)
    requires SameLits(c, d)
    ensures HoldsC(tau, c) == HoldsC(tau, d)
  {
  }
}
