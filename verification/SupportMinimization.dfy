// Replacing support variables of a function by constants under a condition that
// is an OR of literals.
module SupportMinimizing {
  import opened Aigs

  type Vec = seq<bool>

  // ---- Truth tables ----

  type Table = Vec -> bool

  function AllVecs(n: nat): (s: set<Vec>)
  {
    if n == 0 then {[]} else
      (set v | v in AllVecs(n - 1) :: v + [false]) + (set v | v in AllVecs(n - 1) :: v + [true])
  }

  lemma {:induction false} AllVecsMeaning(n: nat, v: Vec)
    ensures v in AllVecs(n) <==> |v| == n
  {
    if n > 0 {
      var shorter := AllVecs(n - 1);
      AllVecsSplit(n, v);
      forall w: Vec | w in shorter ensures |w| == n - 1
      {
        AllVecsMeaning(n - 1, w);
      }
      if |v| == n {
        AllVecsMeaning(n - 1, v[..n - 1]);
        assert v == Extended(v[..n - 1], v[n - 1]);
      }
      hide AllVecs;
    }
  }

  lemma AllVecsSplit(n: nat, v: Vec)
    requires n > 0
    ensures v in AllVecs(n) <==> exists w, b :: w in AllVecs(n - 1) && Extended(w, b) == v
  {
    if w, b :| w in AllVecs(n - 1) && Extended(w, b) == v {
      assert v == if b then w + [true] else w + [false];
    }
    if v in AllVecs(n) {
      var w :| w in AllVecs(n - 1) && (v == w + [false] || v == w + [true]);
      assert Extended(w, v == w + [true]) == v;
    }
  }

  function Extended(w: Vec, b: bool): Vec
  {
    w + [b]
  }

  function Cofactor(f: Table, i: nat, b: bool): Table
  {
    v => i < |v| && f(v[i := b])
  }

  predicate EqualWithCare(f: Table, g: Table, care: Table, n: nat)
  {
    forall v | v in AllVecs(n) :: care(v) ==> f(v) == g(v)
  }

  // ---- Constants for support variables ----

  // Variable `i` is to be replaced by `b`.
  datatype Choice = Choice(i: nat, b: bool)

  predicate Chosen(f: Table, care: Table, n: nat, c: Choice)
  {
    c.i < n && EqualWithCare(Cofactor(f, c.i, false), Cofactor(f, c.i, true), Cofactor(care, c.i, !c.b), n)
  }

  // The values with all choices made at once.
  function Replaced(v: Vec, cs: seq<Choice>): (r: Vec)
    requires forall c :: c in cs ==> c.i < |v|
    ensures |r| == |v|
    decreases |cs|
  {
    if cs == [] then v else assert cs[0] in cs; Replaced(v[cs[0].i := cs[0].b], cs[1..])
  }

  // The care set is an OR of literals of the variables: literal `i` is positive or
  // negative as in the gate.
  ghost predicate IsOr(care: Table, gate: seq<Choice>, n: nat)
  {
    && (forall c :: c in gate ==> c.i < n)
    && forall v :: |v| == n ==> (care(v) <==> exists c :: c in gate && c.i < n && v[c.i] == c.b)
  }

  ghost predicate Independent(f: Table, i: nat, n: nat)
  {
    forall v: Vec, b: bool :: |v| == n && i < n ==> f(SetTo(v, i, b)) == f(v)
  }

  function SetTo(v: Vec, i: nat, b: bool): Vec
  {
    if i < |v| then v[i := b] else v
  }

  // Setting the variable never leaves the care set.
  ghost predicate StaysInCare(care: Table, c: Choice, n: nat)
  {
    forall v :: |v| == n && c.i < n && care(v) ==> care(v[c.i := c.b])
  }

  lemma ChosenMeaning(f: Table, care: Table, n: nat, c: Choice, v: Vec)
    requires Chosen(f, care, n, c) && |v| == n && care(v[c.i := !c.b])
    ensures f(v[c.i := false]) == f(v[c.i := true])
  {
    AllVecsMeaning(n, v);
    assert Cofactor(care, c.i, !c.b)(v);
    assert Cofactor(f, c.i, false)(v) == Cofactor(f, c.i, true)(v);
  }

  lemma SetBoth(v: Vec, i: nat, b: bool)
    requires i < |v|
    ensures v[i := b] == v || v[i := !b] == v
  {
    if v[i] == b {
      assert v[i := b] == v;
    } else {
      assert v[i := !b] == v;
    }
  }

  // A choice either keeps the care set, or is about a variable that does not matter
  // at all: setting it the other way would make the condition true by itself.
  lemma ChoiceKind(f: Table, care: Table, gate: seq<Choice>, n: nat, c: Choice)
    requires IsOr(care, gate, n) && Chosen(f, care, n, c)
    ensures Independent(f, c.i, n) || StaysInCare(care, c, n)
  {
    if Choice(c.i, !c.b) in gate {
      forall v: Vec, b: bool | |v| == n ensures f(SetTo(v, c.i, b)) == f(v)
      {
        var w := v[c.i := !c.b];
        assert w[c.i] == !c.b;
        assert care(w);
        ChosenMeaning(f, care, n, c, v);
        SetBoth(v, c.i, b);
      }
    } else {
      forall v | |v| == n && care(v) ensures care(v[c.i := c.b])
      {
        var w := v[c.i := c.b];
        var d :| d in gate && d.i < n && v[d.i] == d.b;
        if d.i == c.i {
          assert d == Choice(c.i, d.b);
        }
        assert w[d.i] == d.b;
      }
    }
  }

  // In the care set a single choice is right.
  lemma OneChoice(f: Table, care: Table, n: nat, c: Choice, v: Vec)
    requires Chosen(f, care, n, c) && |v| == n && care(v)
    ensures f(v[c.i := c.b]) == f(v)
  {
    if v[c.i] == c.b {
      assert v[c.i := c.b] == v;
    } else {
      assert v[c.i := !c.b] == v;
      ChosenMeaning(f, care, n, c, v);
    }
  }

  ghost predicate DistinctChoices(cs: seq<Choice>)
  {
    forall a, b :: 0 <= a < b < |cs| ==> cs[a].i != cs[b].i
  }

  // Setting one more variable first or last makes no difference.
  lemma {:induction false} ReplacedLast(v: Vec, i: nat, b: bool, cs: seq<Choice>)
    requires i < |v| && forall c :: c in cs ==> c.i < |v| && c.i != i
    ensures Replaced(v[i := b], cs) == Replaced(v, cs)[i := b]
    decreases |cs|
  {
    if cs != [] {
      var c := cs[0];
      assert c in cs;
      assert v[i := b][c.i := c.b] == v[c.i := c.b][i := b];
      ReplacedLast(v[c.i := c.b], i, b, cs[1..]);
    }
  }

  // All choices together are right in the care set, though each was made alone.
  lemma {:induction false} ChoicesTogether(f: Table, care: Table, gate: seq<Choice>, n: nat, cs: seq<Choice>, v: Vec)
    requires IsOr(care, gate, n) && DistinctChoices(cs) && forall c :: c in cs ==> Chosen(f, care, n, c)
    requires |v| == n && care(v)
    ensures forall c :: c in cs ==> c.i < n
    ensures f(Replaced(v, cs)) == f(v)
    decreases |cs|
  {
    if cs != [] {
      var c, rest := cs[0], cs[1..];
      assert c in cs && cs == [c] + rest;
      assert forall d :: d in rest ==> d in cs;
      ChoiceKind(f, care, gate, n, c);
      if StaysInCare(care, c, n) {
        OneChoice(f, care, n, c, v);
        ChoicesTogether(f, care, gate, n, rest, v[c.i := c.b]);
      } else {
        ChoicesTogether(f, care, gate, n, rest, v);
        RestAvoids(cs);
        ReplacedLast(v, c.i, c.b, rest);
        assert f(SetTo(Replaced(v, rest), c.i, c.b)) == f(Replaced(v, rest));
      }
    }
  }

  lemma RestAvoids(cs: seq<Choice>)
    requires DistinctChoices(cs) && cs != []
    ensures forall d :: d in cs[1..] ==> d.i != cs[0].i
  {
    forall d | d in cs[1..] ensures d.i != cs[0].i
    {
      var k :| 0 <= k < |cs| - 1 && cs[1..][k] == d;
      assert cs[k + 1] == d;
    }
  }

  // ---- Cones ----

  ghost function OrValue(g: Graph, gate: seq<Edge>, x: seq<bool>): bool
    requires WellFormed(g) && forall e :: e in gate ==> Inside(g, e)
  {
    exists e :: e in gate && EdgeValue(g, e, x)
  }

  // Nodes in topological order; a child in the cone comes before its parents, all
  // other children are in the support.
  ghost predicate Cone(g: Graph, nodes: seq<nat>, supp: seq<nat>)
  {
    && (forall id :: id in supp ==> 0 < id < |g| && id !in nodes)
    && (forall a, b :: 0 <= a < b < |supp| ==> supp[a] != supp[b])
    && (forall k :: 0 <= k < |nodes| ==> nodes[k] < |g| && g[nodes[k]].And?)
    && (forall k :: 0 <= k < |nodes| ==> g[nodes[k]].child0.id in nodes[..k] || g[nodes[k]].child0.id in supp)
    && (forall k :: 0 <= k < |nodes| ==> g[nodes[k]].child1.id in nodes[..k] || g[nodes[k]].child1.id in supp)
  }

  function Index(s: seq<nat>, id: nat): (k: nat)
    requires id in s
    ensures k < |s| && s[k] == id
  {
    if s[0] == id then 0 else assert s == [s[0]] + s[1..]; 1 + Index(s[1..], id)
  }

  // The value of a node of the cone when the support has values `v`.
  ghost function ConeValue(g: Graph, nodes: seq<nat>, supp: seq<nat>, id: nat, v: Vec): bool
    requires WellFormed(g) && Cone(g, nodes, supp) && (id in nodes || id in supp) && |v| == |supp|
    decreases id
  {
    if id in supp then v[Index(supp, id)]
    else
      var k := Index(nodes, id);
      var a, b := g[nodes[k]].child0, g[nodes[k]].child1;
      ChildrenInCone(g, nodes, supp, k);
      (ConeValue(g, nodes, supp, a.id, v) != a.compl) && (ConeValue(g, nodes, supp, b.id, v) != b.compl)
  }

  lemma ChildrenInCone(g: Graph, nodes: seq<nat>, supp: seq<nat>, k: nat)
    requires WellFormed(g) && Cone(g, nodes, supp) && k < |nodes|
    ensures nodes[k] < |g| && g[nodes[k]].And?
    ensures g[nodes[k]].child0.id < nodes[k] && (g[nodes[k]].child0.id in nodes || g[nodes[k]].child0.id in supp)
    ensures g[nodes[k]].child1.id < nodes[k] && (g[nodes[k]].child1.id in nodes || g[nodes[k]].child1.id in supp)
  {
    assert forall id :: id in nodes[..k] ==> id in nodes;
  }

  lemma ConeNode(g: Graph, nodes: seq<nat>, supp: seq<nat>, k: nat)
    requires Cone(g, nodes, supp) && k < |nodes|
    ensures nodes[k] < |g| && g[nodes[k]].And? && nodes[k] !in supp
    ensures g[nodes[k]].child0.id in nodes[..k] || g[nodes[k]].child0.id in supp
    ensures g[nodes[k]].child1.id in nodes[..k] || g[nodes[k]].child1.id in supp
  {
    assert nodes[k] in nodes;
  }

  // The values of the support for an assignment of the inputs.
  ghost function Leaves(g: Graph, supp: seq<nat>, x: seq<bool>): (v: Vec)
    requires WellFormed(g) && forall id :: id in supp ==> id < |g|
    ensures |v| == |supp|
  {
    seq(|supp|, k requires 0 <= k < |supp| => assert supp[k] in supp; Value(g, supp[k], x))
  }

  // A node of the cone is a function of the support.
  lemma {:induction false} ConeIsFunction(g: Graph, nodes: seq<nat>, supp: seq<nat>, id: nat, x: seq<bool>)
    requires WellFormed(g) && Cone(g, nodes, supp) && (id in nodes || id in supp)
    ensures id < |g| && ConeValue(g, nodes, supp, id, Leaves(g, supp, x)) == Value(g, id, x)
    decreases id
  {
    if id !in supp {
      var k := Index(nodes, id);
      ChildrenInCone(g, nodes, supp, k);
      ConeIsFunction(g, nodes, supp, g[id].child0.id, x);
      ConeIsFunction(g, nodes, supp, g[id].child1.id, x);
    }
  }

  // ---- Truth tables of a cone ----

  ghost predicate TableOf(g: Graph, nodes: seq<nat>, supp: seq<nat>, id: nat, t: Table)
    requires WellFormed(g) && Cone(g, nodes, supp)
  {
    (id in nodes || id in supp) && forall v :: |v| == |supp| ==> t(v) == ConeValue(g, nodes, supp, id, v)
  }

  function AndPhase(t0: Table, t1: Table, c0: bool, c1: bool): Table
  {
    v => (t0(v) != c0) && (t1(v) != c1)
  }

  function Projection(i: nat): Table
  {
    v => i < |v| && v[i]
  }

  // The tables of the support are the projections.
  method SupportTables(g: Graph, nodes: seq<nat>, supp: seq<nat>) returns (data: map<nat, Table>)
    requires WellFormed(g) && Cone(g, nodes, supp)
    ensures forall id :: id in supp ==> id in data && TableOf(g, nodes, supp, id, data[id])
  {
    hide TableOf;
    data := map[];
    for i := 0 to |supp|
      invariant forall k :: 0 <= k < i ==> supp[k] in data && TableOf(g, nodes, supp, supp[k], data[supp[k]])
    {
      data := data[supp[i] := Projection(i)];
      ProjectionOf(g, nodes, supp, i);
    }
    forall id | id in supp ensures id in data && TableOf(g, nodes, supp, id, data[id])
    {
      var k :| 0 <= k < |supp| && supp[k] == id;
    }
  }

  // Computes the tables of the support and of the nodes in order.
  method ComputeTables(g: Graph, nodes: seq<nat>, supp: seq<nat>) returns (data: map<nat, Table>)
    requires WellFormed(g) && Cone(g, nodes, supp)
    ensures forall id :: id in nodes || id in supp ==> id in data && TableOf(g, nodes, supp, id, data[id])
  {
    hide TableOf, Cone, WellFormed;
    data := SupportTables(g, nodes, supp);
    for i := 0 to |nodes|
      invariant forall id :: id in nodes[..i] || id in supp ==> id in data && TableOf(g, nodes, supp, id, data[id])
    {
      assert nodes[..i + 1] == nodes[..i] + [nodes[i]] && nodes[i] in nodes;
      ConeNode(g, nodes, supp, i);
      var n := g[nodes[i]];
      var t := AndPhase(data[n.child0.id], data[n.child1.id], n.child0.compl, n.child1.compl);
      AndPhaseOf(g, nodes, supp, i, data[n.child0.id], data[n.child1.id]);
      data := data[nodes[i] := t];
    }
    assert nodes[..|nodes|] == nodes;
  }

  lemma ProjectionOf(g: Graph, nodes: seq<nat>, supp: seq<nat>, i: nat)
    requires WellFormed(g) && Cone(g, nodes, supp) && i < |supp|
    ensures TableOf(g, nodes, supp, supp[i], Projection(i))
  {
    assert supp[i] in supp;
    assert Index(supp, supp[i]) == i;
  }

  lemma AndPhaseOf(g: Graph, nodes: seq<nat>, supp: seq<nat>, k: nat, t0: Table, t1: Table)
    requires WellFormed(g) && Cone(g, nodes, supp) && k < |nodes| && nodes[k] < |g| && g[nodes[k]].And?
    requires TableOf(g, nodes, supp, g[nodes[k]].child0.id, t0) && TableOf(g, nodes, supp, g[nodes[k]].child1.id, t1)
    ensures TableOf(g, nodes, supp, nodes[k], AndPhase(t0, t1, g[nodes[k]].child0.compl, g[nodes[k]].child1.compl))
  {
    assert nodes[k] in nodes;
    assert nodes[k] !in supp;
  }

  // The gate as literals of support variables.
  ghost function GateChoices(supp: seq<nat>, gate: seq<Edge>): (cs: seq<Choice>)
    requires forall e :: e in gate ==> e.id in supp
    ensures |cs| == |gate|
  {
    seq(|gate|, k requires 0 <= k < |gate| => assert gate[k] in gate; Choice(Index(supp, gate[k].id), !gate[k].compl))
  }

  // The care set: some literal of the gate is true.
  predicate CareAt(data: map<nat, Table>, gate: seq<Edge>, v: Vec)
    requires forall e :: e in gate ==> e.id in data
  {
    exists k :: 0 <= k < |gate| && data[gate[k].id](v) != gate[k].compl
  }

  function CareTable(data: map<nat, Table>, gate: seq<Edge>): Table
    requires forall e :: e in gate ==> e.id in data
  {
    v => CareAt(data, gate, v)
  }

  lemma CareIsOr(g: Graph, nodes: seq<nat>, supp: seq<nat>, data: map<nat, Table>, gate: seq<Edge>)
    requires WellFormed(g) && Cone(g, nodes, supp) && forall e :: e in gate ==> e.id in supp
    requires forall id :: id in nodes || id in supp ==> id in data && TableOf(g, nodes, supp, id, data[id])
    ensures IsOr(CareTable(data, gate), GateChoices(supp, gate), |supp|)
  {
    var cs := GateChoices(supp, gate);
    forall v: Vec | |v| == |supp|
      ensures CareTable(data, gate)(v) <==> exists c :: c in cs && c.i < |supp| && v[c.i] == c.b
    {
      forall k | 0 <= k < |gate| ensures data[gate[k].id](v) != gate[k].compl <==> v[cs[k].i] == cs[k].b
      {
        assert gate[k] in gate;
        assert TableOf(g, nodes, supp, gate[k].id, data[gate[k].id]);
      }
      if CareAt(data, gate, v) {
        var k :| 0 <= k < |gate| && data[gate[k].id](v) != gate[k].compl;
        assert cs[k] in cs;
      }
    }
  }

  // The gate is true for an assignment exactly if the support values are in the
  // care set.
  lemma CareMeaning(g: Graph, nodes: seq<nat>, supp: seq<nat>, data: map<nat, Table>, gate: seq<Edge>, x: seq<bool>)
    requires WellFormed(g) && Cone(g, nodes, supp) && forall e :: e in gate ==> e.id in supp
    requires forall id :: id in nodes || id in supp ==> id in data && TableOf(g, nodes, supp, id, data[id])
    ensures (forall e :: e in gate ==> Inside(g, e))
      && (OrValue(g, gate, x) <==> CareAt(data, gate, Leaves(g, supp, x)))
  {
    var v := Leaves(g, supp, x);
    forall k | 0 <= k < |gate| ensures Inside(g, gate[k])
      && (data[gate[k].id](v) != gate[k].compl <==> EdgeValue(g, gate[k], x))
    {
      assert gate[k] in gate;
      ConeIsFunction(g, nodes, supp, gate[k].id, x);
      assert TableOf(g, nodes, supp, gate[k].id, data[gate[k].id]);
    }
    if e :| e in gate && EdgeValue(g, e, x) {
      var k :| 0 <= k < |gate| && gate[k] == e;
    }
  }

  // Some literal of the gate is true for these values of the support.
  ghost predicate GateTrue(supp: seq<nat>, edges: set<Edge>, v: Vec)
    requires |v| == |supp|
  {
    exists e :: e in edges && e.id in supp && v[Index(supp, e.id)] != e.compl
  }

  // The two cofactors of the cone agree wherever the other value of the variable makes
  // the gate true.
  ghost predicate Replaceable(g: Graph, nodes: seq<nat>, supp: seq<nat>, root: nat, edges: set<Edge>, c: Choice)
    requires WellFormed(g) && Cone(g, nodes, supp) && root in nodes
  {
    c.i < |supp| && forall v: Vec :: |v| == |supp| && GateTrue(supp, edges, v[c.i := !c.b]) ==>
      ConeValue(g, nodes, supp, root, v[c.i := false]) == ConeValue(g, nodes, supp, root, v[c.i := true])
  }

  lemma GateTrueIs(g: Graph, nodes: seq<nat>, supp: seq<nat>, data: map<nat, Table>, gate: seq<Edge>, v: Vec)
    requires WellFormed(g) && Cone(g, nodes, supp) && (forall e :: e in gate ==> e.id in supp) && |v| == |supp|
    requires forall id :: id in nodes || id in supp ==> id in data && TableOf(g, nodes, supp, id, data[id])
    ensures CareTable(data, gate)(v) <==> GateTrue(supp, (set e | e in gate), v)
  {
    forall k | 0 <= k < |gate|
      ensures data[gate[k].id](v) == v[Index(supp, gate[k].id)]
    {
      assert gate[k] in gate;
      assert TableOf(g, nodes, supp, gate[k].id, data[gate[k].id]);
    }
    if GateTrue(supp, (set e | e in gate), v) {
      var e :| e in gate && e.id in supp && v[Index(supp, e.id)] != e.compl;
      var k :| 0 <= k < |gate| && gate[k] == e;
    }
    if CareAt(data, gate, v) {
      var k :| 0 <= k < |gate| && data[gate[k].id](v) != gate[k].compl;
      assert gate[k] in gate;
    }
  }

  // The test on the tables says exactly this.
  lemma ChosenIsReplaceable(g: Graph, nodes: seq<nat>, supp: seq<nat>, data: map<nat, Table>, gate: seq<Edge>,
      root: nat, c: Choice)
    requires WellFormed(g) && Cone(g, nodes, supp) && (forall e :: e in gate ==> e.id in supp) && root in nodes
    requires forall id :: id in nodes || id in supp ==> id in data && TableOf(g, nodes, supp, id, data[id])
    ensures Chosen(data[root], CareTable(data, gate), |supp|, c) <==>
      Replaceable(g, nodes, supp, root, (set e | e in gate), c)
  {
    hide CareTable, GateTrue, ConeValue, Cone;
    var f, care, n, edges := data[root], CareTable(data, gate), |supp|, set e | e in gate;
    assert TableOf(g, nodes, supp, root, f);
    if c.i < n {
      forall v: Vec | |v| == n
        ensures v in AllVecs(n) && (Cofactor(care, c.i, !c.b)(v) <==> GateTrue(supp, edges, v[c.i := !c.b]))
        ensures Cofactor(f, c.i, false)(v) == ConeValue(g, nodes, supp, root, v[c.i := false])
        ensures Cofactor(f, c.i, true)(v) == ConeValue(g, nodes, supp, root, v[c.i := true])
      {
        AllVecsMeaning(n, v);
        GateTrueIs(g, nodes, supp, data, gate, v[c.i := !c.b]);
      }
      forall v: Vec | v in AllVecs(n) ensures |v| == n
      {
        AllVecsMeaning(n, v);
      }
    }
  }

  // Tries each support variable in both polarities.
  method Perform(f: Table, care: Table, n: nat) returns (cs: seq<Choice>)
    ensures DistinctChoices(cs) && forall c :: c in cs ==> Chosen(f, care, n, c)
    ensures forall i ::
      0 <= i < n && (Chosen(f, care, n, Choice(i, false)) || Chosen(f, care, n, Choice(i, true))) ==>
      exists c :: c in cs && c.i == i
  {
    hide Chosen;
    cs := [];
    for i := 0 to n
      invariant DistinctChoices(cs) && forall c :: c in cs ==> c.i < i && Chosen(f, care, n, c)
      invariant forall k ::
        0 <= k < i && (Chosen(f, care, n, Choice(k, false)) || Chosen(f, care, n, Choice(k, true))) ==>
        exists c :: c in cs && c.i == k
    {
      ghost var was := cs;
      if Chosen(f, care, n, Choice(i, false)) {
        cs := cs + [Choice(i, false)];
        assert Choice(i, false) in cs;
      } else if Chosen(f, care, n, Choice(i, true)) {
        cs := cs + [Choice(i, true)];
        assert Choice(i, true) in cs;
      }
      assert forall c :: c in was ==> c in cs;
    }
  }

  // ---- Building the new node ----

  // `e` stands for node `id` of the cone with the choices made.
  ghost predicate StandsFor(g: Graph, h: Graph, nodes: seq<nat>, supp: seq<nat>, cs: seq<Choice>, id: nat, e: Edge)
    requires WellFormed(g) && WellFormed(h) && Cone(g, nodes, supp) && forall c :: c in cs ==> c.i < |supp|
  {
    && (id in nodes || id in supp) && Inside(h, e)
    && forall x :: EdgeValue(h, e, x) == ConeValue(g, nodes, supp, id, Replaced(Leaves(g, supp, x), cs))
  }

  lemma {:induction false} ReplacedAt(v: Vec, cs: seq<Choice>, i: nat)
    requires (forall c :: c in cs ==> c.i < |v|) && DistinctChoices(cs) && i < |v|
    ensures (forall c :: c in cs ==> c.i != i) ==> Replaced(v, cs)[i] == v[i]
    ensures forall c :: c in cs && c.i == i ==> Replaced(v, cs)[i] == c.b
    decreases |cs|
  {
    if cs != [] {
      assert cs == [cs[0]] + cs[1..] && cs[0] in cs;
      assert forall c :: c in cs[1..] ==> c in cs;
      RestAvoids(cs);
      TailDistinct(cs);
      ReplacedAt(v[cs[0].i := cs[0].b], cs[1..], i);
    }
  }

  lemma TailDistinct(cs: seq<Choice>)
    requires DistinctChoices(cs) && cs != []
    ensures DistinctChoices(cs[1..])
  {
    var t := cs[1..];
    forall a, b | 0 <= a < b < |t| ensures t[a].i != t[b].i
    {
      assert t[a] == cs[a + 1] && t[b] == cs[b + 1];
    }
  }

  // The support: the nodes themselves, or the constants chosen.
  method StartCopies(g: Graph, nodes: seq<nat>, supp: seq<nat>, cs: seq<Choice>) returns (data: map<nat, Edge>)
    requires WellFormed(g) && Cone(g, nodes, supp) && DistinctChoices(cs) && forall c :: c in cs ==> c.i < |supp|
    ensures forall id :: id in supp ==> id in data && StandsFor(g, g, nodes, supp, cs, id, data[id])
  {
    data := map[];
    for i := 0 to |supp|
      invariant forall k :: 0 <= k < i ==> supp[k] in data && data[supp[k]] == Edge(supp[k], false)
    {
      data := data[supp[i] := Edge(supp[i], false)];
    }
    for i := 0 to |cs|
      invariant forall k :: 0 <= k < |supp| ==> supp[k] in data && data[supp[k]] == ChosenEdge(supp, cs[..i], k)
    {
      assert cs[i] in cs && cs[..i + 1] == cs[..i] + [cs[i]];
      data := data[supp[cs[i].i] := Edge(0, !cs[i].b)];
      ChosenEdgeStep(supp, cs, i);
    }
    assert cs[..|cs|] == cs;
    forall id | id in supp ensures id in data && StandsFor(g, g, nodes, supp, cs, id, data[id])
    {
      ChosenStands(g, nodes, supp, cs, Index(supp, id));
    }
  }

  ghost function ChosenEdge(supp: seq<nat>, cs: seq<Choice>, k: nat): Edge
    requires k < |supp|
    decreases |cs|
  {
    if cs == [] then Edge(supp[k], false)
    else if cs[|cs| - 1].i == k then Edge(0, !cs[|cs| - 1].b)
    else ChosenEdge(supp, cs[..|cs| - 1], k)
  }

  lemma ChosenEdgeStep(supp: seq<nat>, cs: seq<Choice>, i: nat)
    requires i < |cs|
    ensures forall k ::
      0 <= k < |supp| ==>
      ChosenEdge(supp, cs[..i + 1], k) == if cs[i].i == k then Edge(0, !cs[i].b) else ChosenEdge(supp, cs[..i], k)
  {
    var now := cs[..i + 1];
    assert now[..|now| - 1] == cs[..i] && now[|now| - 1] == cs[i];
    forall k: nat | k < |supp| ensures ChosenEdge(supp, now, k) == if cs[i].i == k then Edge(0, !cs[i].b)
      else ChosenEdge(supp, cs[..i], k)
    {
    }
  }

  lemma {:induction false} ChosenEdgeMeaning(supp: seq<nat>, cs: seq<Choice>, k: nat)
    requires k < |supp| && DistinctChoices(cs)
    ensures (forall c :: c in cs ==> c.i != k) ==> ChosenEdge(supp, cs, k) == Edge(supp[k], false)
    ensures forall c :: c in cs && c.i == k ==> ChosenEdge(supp, cs, k) == Edge(0, !c.b)
    decreases |cs|
  {
    if cs != [] {
      var n := |cs| - 1;
      assert cs == cs[..n] + [cs[n]] && cs[n] in cs;
      ChosenEdgeMeaning(supp, cs[..n], k);
      assert forall c :: c in cs ==> c in cs[..n] || c == cs[n];
    }
  }

  lemma ChosenStands(g: Graph, nodes: seq<nat>, supp: seq<nat>, cs: seq<Choice>, k: nat)
    requires WellFormed(g) && Cone(g, nodes, supp) && DistinctChoices(cs) && (forall c :: c in cs ==> c.i < |supp|)
      && k < |supp|
    ensures StandsFor(g, g, nodes, supp, cs, supp[k], ChosenEdge(supp, cs, k))
  {
    assert supp[k] in supp && Index(supp, supp[k]) == k;
    var e := ChosenEdge(supp, cs, k);
    ChosenEdgeMeaning(supp, cs, k);
    forall x ensures Inside(g, e)
      && EdgeValue(g, e, x) == ConeValue(g, nodes, supp, supp[k], Replaced(Leaves(g, supp, x), cs))
    {
      ReplacedAt(Leaves(g, supp, x), cs, k);
      if c :| c in cs && c.i == k {
        assert e == Edge(0, !c.b);
      }
    }
  }

  // Rebuilds the cone over the support with the constants in place.
  method Reconstruct(g: Graph, nodes: seq<nat>, supp: seq<nat>, cs: seq<Choice>) returns (h: Graph, e: Edge)
    requires WellFormed(g) && Cone(g, nodes, supp) && DistinctChoices(cs) && (forall c :: c in cs ==> c.i < |supp|)
      && |nodes| > 0
    ensures WellFormed(h) && g <= h && StandsFor(g, h, nodes, supp, cs, nodes[|nodes| - 1], e)
  {
    hide StandsFor, Cone, WellFormed, EdgeValue, DistinctChoices;
    var data: map<nat, Edge> := StartCopies(g, nodes, supp, cs);
    h := g;
    assert CopiesOk(g, h, nodes, supp, cs, data, 0);
    for i := 0 to |nodes|
      invariant WellFormed(h) && g <= h && CopiesOk(g, h, nodes, supp, cs, data, i)
    {
      CopiesAt(g, h, nodes, supp, cs, data, i);
      var n := g[nodes[i]];
      ghost var before := h;
      var r;
      h, r := MakeAnd(h, NotCond(data[n.child0.id], n.child0.compl), NotCond(data[n.child1.id], n.child1.compl));
      CopiesStep(g, before, h, nodes, supp, cs, data, i, r);
      data := data[nodes[i] := r];
    }
    CopiesLast(g, h, nodes, supp, cs, data);
    e := data[nodes[|nodes| - 1]];
  }

  // The support and the first `i` nodes have their copies.
  ghost predicate CopiesOk(g: Graph, h: Graph, nodes: seq<nat>, supp: seq<nat>, cs: seq<Choice>, data: map<nat, Edge>,
      i: nat)
    requires WellFormed(g) && WellFormed(h) && Cone(g, nodes, supp) && (forall c :: c in cs ==> c.i < |supp|)
      && i <= |nodes|
  {
    forall id :: id in nodes[..i] || id in supp ==> id in data && StandsFor(g, h, nodes, supp, cs, id, data[id])
  }

  lemma CopiesAt(g: Graph, h: Graph, nodes: seq<nat>, supp: seq<nat>, cs: seq<Choice>, data: map<nat, Edge>, i: nat)
    requires WellFormed(g) && WellFormed(h) && Cone(g, nodes, supp) && (forall c :: c in cs ==> c.i < |supp|)
      && i < |nodes|
    requires CopiesOk(g, h, nodes, supp, cs, data, i)
    ensures nodes[i] < |g| && g[nodes[i]].And? && g[nodes[i]].child0.id in data && g[nodes[i]].child1.id in data
    ensures StandsFor(g, h, nodes, supp, cs, g[nodes[i]].child0.id, data[g[nodes[i]].child0.id])
    ensures StandsFor(g, h, nodes, supp, cs, g[nodes[i]].child1.id, data[g[nodes[i]].child1.id])
    ensures Inside(h, data[g[nodes[i]].child0.id]) && Inside(h, data[g[nodes[i]].child1.id])
  {
    hide StandsFor, Cone;
    ConeNode(g, nodes, supp, i);
    StandsInside(g, h, nodes, supp, cs, g[nodes[i]].child0.id, data[g[nodes[i]].child0.id]);
    StandsInside(g, h, nodes, supp, cs, g[nodes[i]].child1.id, data[g[nodes[i]].child1.id]);
  }

  lemma CopiesStep(g: Graph, h: Graph, h': Graph, nodes: seq<nat>, supp: seq<nat>, cs: seq<Choice>, data: map<nat,
      Edge>, i: nat, r: Edge)
    requires WellFormed(g) && WellFormed(h) && WellFormed(h') && h <= h' && Cone(g, nodes, supp)
      && (forall c :: c in cs ==> c.i < |supp|)
    requires i < |nodes| && CopiesOk(g, h, nodes, supp, cs, data, i) && Inside(h', r)
    requires nodes[i] < |g| && g[nodes[i]].And? && g[nodes[i]].child0.id in data && g[nodes[i]].child1.id in data
    requires StandsFor(g, h, nodes, supp, cs, g[nodes[i]].child0.id, data[g[nodes[i]].child0.id])
    requires StandsFor(g, h, nodes, supp, cs, g[nodes[i]].child1.id, data[g[nodes[i]].child1.id])
    requires Inside(h, data[g[nodes[i]].child0.id]) && Inside(h, data[g[nodes[i]].child1.id])
    requires forall x ::
      EdgeValue(h', r, x) ==
      (EdgeValue(h, NotCond(data[g[nodes[i]].child0.id], g[nodes[i]].child0.compl), x)
      && EdgeValue(h, NotCond(data[g[nodes[i]].child1.id], g[nodes[i]].child1.compl), x))
    ensures CopiesOk(g, h', nodes, supp, cs, data[nodes[i] := r], i + 1)
  {
    hide StandsFor, Cone, WellFormed, EdgeValue;
    ConeNode(g, nodes, supp, i);
    StandsAnd(g, h, h', nodes, supp, cs, i, data[g[nodes[i]].child0.id], data[g[nodes[i]].child1.id], r);
    assert nodes[..i + 1] == nodes[..i] + [nodes[i]];
    forall id | id in nodes[..i] || id in supp ensures id in data && StandsFor(g, h', nodes, supp, cs, id, data[id])
    {
      StandsLater(g, h, h', nodes, supp, cs, id, data[id]);
    }
  }

  lemma CopiesLast(g: Graph, h: Graph, nodes: seq<nat>, supp: seq<nat>, cs: seq<Choice>, data: map<nat, Edge>)
    requires WellFormed(g) && WellFormed(h) && Cone(g, nodes, supp) && (forall c :: c in cs ==> c.i < |supp|)
      && |nodes| > 0
    requires CopiesOk(g, h, nodes, supp, cs, data, |nodes|)
    ensures nodes[|nodes| - 1] in data && StandsFor(g, h, nodes, supp, cs, nodes[|nodes| - 1], data[nodes[|nodes| - 1]])
  {
    hide StandsFor;
    assert nodes[..|nodes|] == nodes && nodes[|nodes| - 1] in nodes;
  }

  lemma StandsInside(g: Graph, h: Graph, nodes: seq<nat>, supp: seq<nat>, cs: seq<Choice>, id: nat, e: Edge)
    requires WellFormed(g) && WellFormed(h) && Cone(g, nodes, supp) && forall c :: c in cs ==> c.i < |supp|
    requires StandsFor(g, h, nodes, supp, cs, id, e)
    ensures Inside(h, e)
  {
  }

  lemma StandsLater(g: Graph, h: Graph, h': Graph, nodes: seq<nat>, supp: seq<nat>, cs: seq<Choice>, id: nat, e: Edge)
    requires WellFormed(g) && WellFormed(h) && WellFormed(h') && h <= h' && Cone(g, nodes, supp)
      && forall c :: c in cs ==> c.i < |supp|
    requires StandsFor(g, h, nodes, supp, cs, id, e)
    ensures StandsFor(g, h', nodes, supp, cs, id, e)
  {
    forall x ensures EdgeValue(h', e, x) == ConeValue(g, nodes, supp, id, Replaced(Leaves(g, supp, x), cs))
    {
      ValueKept(h, h', e.id, x);
    }
  }

  lemma StandsAnd(g: Graph, h: Graph, h': Graph, nodes: seq<nat>, supp: seq<nat>, cs: seq<Choice>, i: nat, a: Edge,
      b: Edge, r: Edge)
    requires WellFormed(g) && WellFormed(h) && WellFormed(h') && Cone(g, nodes, supp)
      && forall c :: c in cs ==> c.i < |supp|
    requires i < |nodes| && nodes[i] < |g| && g[nodes[i]].And? && nodes[i] !in supp
    requires StandsFor(g, h, nodes, supp, cs, g[nodes[i]].child0.id, a)
      && StandsFor(g, h, nodes, supp, cs, g[nodes[i]].child1.id, b)
    requires Inside(h', r)
    requires forall x ::
      EdgeValue(h', r, x) ==
      (EdgeValue(h, NotCond(a, g[nodes[i]].child0.compl), x) && EdgeValue(h, NotCond(b, g[nodes[i]].child1.compl), x))
    ensures StandsFor(g, h', nodes, supp, cs, nodes[i], r)
  {
    assert nodes[i] in nodes;
    forall x ensures EdgeValue(h', r, x) == ConeValue(g, nodes, supp, nodes[i], Replaced(Leaves(g, supp, x), cs))
    {
      assert EdgeValue(h, a, x) == ConeValue(g, nodes, supp, g[nodes[i]].child0.id, Replaced(Leaves(g, supp, x), cs));
    }
  }
}
