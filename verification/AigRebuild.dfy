// Rebuilding a cone bottom-up with a memo: composition with a function, and the
// factoring of one output under the condition that another has a fixed value.
module AigRebuilding {
  import opened SolverTypes
  import opened Aigs

  type Vec = seq<bool>

  // Pairs of assignments: one for the new graph, one for the old.
  type Relation = iset<(Vec, Vec)>

  // Edge `e` of the new graph has, at `x`, the value node `id` has at `y`.
  ghost predicate Stands(g: Graph, h: Graph, rel: Relation, id: nat, e: Edge)
    requires WellFormed(g) && WellFormed(h)
  {
    id < |g| && Inside(h, e) && forall x, y | (x, y) in rel :: EdgeValue(h, e, x) == Value(g, id, y)
  }

  lemma StandsLater(g: Graph, h: Graph, h': Graph, rel: Relation, id: nat, e: Edge)
    requires WellFormed(g) && WellFormed(h) && WellFormed(h') && h <= h' && Stands(g, h, rel, id, e)
    ensures Stands(g, h', rel, id, e)
  {
    forall x, y | (x, y) in rel ensures EdgeValue(h', e, x) == Value(g, id, y)
    {
      ValueKept(h, h', e.id, x);
    }
  }

  lemma StandsAnd(g: Graph, h: Graph, h': Graph, rel: Relation, id: nat, a: Edge, b: Edge, r: Edge)
    requires WellFormed(g) && WellFormed(h) && WellFormed(h') && id < |g| && g[id].And?
    requires Stands(g, h, rel, g[id].child0.id, a) && Stands(g, h, rel, g[id].child1.id, b) && Inside(h', r)
    requires forall x ::
      EdgeValue(h', r, x) ==
      (EdgeValue(h, NotCond(a, g[id].child0.compl), x) && EdgeValue(h, NotCond(b, g[id].child1.compl), x))
    ensures Stands(g, h', rel, id, r)
  {
    forall x, y | (x, y) in rel ensures EdgeValue(h', r, x) == Value(g, id, y)
    {
      assert EdgeValue(h, a, x) == Value(g, g[id].child0.id, y);
      assert EdgeValue(h, b, x) == Value(g, g[id].child1.id, y);
    }
  }

  // Everything in the memo stands for its node.
  ghost predicate MemoOk(g: Graph, h: Graph, rel: Relation, data: map<nat, Edge>)
    requires WellFormed(g) && WellFormed(h)
  {
    forall id :: id in data ==> Stands(g, h, rel, id, data[id])
  }

  lemma MemoLater(g: Graph, h: Graph, h': Graph, rel: Relation, data: map<nat, Edge>)
    requires WellFormed(g) && WellFormed(h) && WellFormed(h') && h <= h' && MemoOk(g, h, rel, data)
    ensures MemoOk(g, h', rel, data)
  {
    hide Stands;
    forall id | id in data ensures Stands(g, h', rel, id, data[id])
    {
      StandsLater(g, h, h', rel, id, data[id]);
    }
  }

  // The And nodes below and including `id`.
  ghost function ConeOf(g: Graph, id: nat): (s: set<nat>)
    requires WellFormed(g) && id < |g|
    ensures forall k :: k in s ==> k <= id && g[k].And?
    decreases id
  {
    if g[id].And? then {id} + ConeOf(g, g[id].child0.id) + ConeOf(g, g[id].child1.id) else {}
  }

  lemma ConeStep(g: Graph, id: nat)
    requires WellFormed(g) && id < |g| && g[id].And?
    ensures g[id].child0.id < id && g[id].child1.id < id
    ensures ConeOf(g, id) == {id} + ConeOf(g, g[id].child0.id) + ConeOf(g, g[id].child1.id)
  {
  }

  // The cones of marked nodes are marked.
  ghost predicate Closed(g: Graph, marks: set<nat>)
    requires WellFormed(g)
  {
    forall k :: k in marks ==> k < |g| && g[k].And? && ConeOf(g, k) <= marks
  }

  // Within the cone of `id`, everything below an unmarked node is unmarked.
  ghost predicate Cleared(g: Graph, id: nat, marks: set<nat>)
    requires WellFormed(g) && id < |g|
  {
    forall k :: k in ConeOf(g, id) && k !in marks ==> ConeOf(g, k) !! marks
  }

  lemma {:induction false} ConeInside(g: Graph, id: nat, k: nat)
    requires WellFormed(g) && id < |g| && k in ConeOf(g, id)
    ensures ConeOf(g, k) <= ConeOf(g, id)
    decreases id
  {
    if k != id {
      if k in ConeOf(g, g[id].child0.id) {
        ConeInside(g, g[id].child0.id, k);
      } else {
        ConeInside(g, g[id].child1.id, k);
      }
    }
  }

  // No two inputs read the same variable.
  ghost predicate DistinctInputs(g: Graph)
  {
    forall i, j :: 0 <= i < |g| && 0 <= j < |g| && g[i].Ci? && g[j].Ci? && g[i].k == g[j].k ==> i == j
  }

  // The assignment with variable `k` given the value of the function.
  ghost function Composition(g: Graph, func: Edge, k: nat): Relation
    requires WellFormed(g) && Inside(g, func)
  {
    iset x: Vec, y: Vec | k < |x| && y == x[k := EdgeValue(g, func, x)] :: (x, y)
  }

  class Composer {
    var g: Graph
    var markA: set<nat>
    var data: map<nat, Edge>

    constructor (g: Graph)
      ensures this.g == g && markA == {} && data == map[]
    {
      this.g, markA, data := g, {}, map[];
    }

    // Rebuilds a node whose children have been composed.
    method ComposeNode(id: nat, ghost func: Edge, ghost g0: Graph, ghost k: nat)
      requires WellFormed(g0) && WellFormed(g) && g0 <= g && id < |g0| && g0[id].And? && Inside(g0, func)
      requires MemoOk(g0, g, Composition(g0, func, k), data) && g0[id].child0.id in data && g0[id].child1.id in data
      modifies this`g, this`data
      ensures WellFormed(g) && old(g) <= g && MemoOk(g0, g, Composition(g0, func, k), data)
      ensures data.Keys == old(data.Keys) + {id}
    {
      hide MemoOk, Composition;
      ghost var rel, h := Composition(g0, func, k), g;
      var a, b := g[id].child0, g[id].child1;
      MemoInside(g0, g, rel, data);
      var r;
      g, r := MakeAnd(g, NotCond(data[a.id], a.compl), NotCond(data[b.id], b.compl));
      RebuiltNode(g0, h, g, rel, data, id, r);
      data := data[id := r];
    }

    // Rebuilds the cone of `id` in the same graph, which only grows; nodes done are
    // marked.
    method ComposeRec(id: nat, func: Edge, pVar: nat, ghost g0: Graph, ghost k: nat)
      requires WellFormed(g0) && WellFormed(g) && g0 <= g && id < |g0| && Inside(g0, func)
      requires pVar < |g0| && g0[pVar] == Ci(k) && DistinctInputs(g0)
      requires MemoOk(g0, g, Composition(g0, func, k), data) && markA <= data.Keys && Closed(g0, markA)
      modifies this
      ensures WellFormed(g) && old(g) <= g && MemoOk(g0, g, Composition(g0, func, k), data)
      ensures markA == old(markA) + ConeOf(g0, id) && markA <= data.Keys && old(data.Keys) <= data.Keys && id in data
        && Closed(g0, markA)
      decreases id
    {
      hide MemoOk, Closed, DistinctInputs, Composition, ConeOf, WellFormed, Inside;
      if id in markA {
        ConeMarked(g0, markA, id);
        return;
      }
      if !g[id].And? {
        ComposeLeaf(id, func, pVar, g0, k);
        return;
      }
      ConeStep(g0, id);
      ComposeRec(g[id].child0.id, func, pVar, g0, k);
      ComposeRec(g[id].child1.id, func, pVar, g0, k);
      ComposeNode(id, func, g0, k);
      markA := markA + {id};
      ClosedMore(g0, markA, id);
    }

    // An input stands for itself, or for the function if it is the variable.
    method ComposeLeaf(id: nat, func: Edge, pVar: nat, ghost g0: Graph, ghost k: nat)
      requires WellFormed(g0) && WellFormed(g) && g0 <= g && id < |g0| && !g0[id].And? && Inside(g0, func)
      requires pVar < |g0| && g0[pVar] == Ci(k) && DistinctInputs(g0)
      requires MemoOk(g0, g, Composition(g0, func, k), data)
      modifies this`data
      ensures MemoOk(g0, g, Composition(g0, func, k), data) && data.Keys == old(data.Keys) + {id}
      ensures ConeOf(g0, id) == {}
    {
      LeafStands(g0, g, func, k, pVar, id);
      data := data[id := if id == pVar then func else Edge(id, false)];
    }

    // Clears the marks of a cone.
    method ConeUnmarkRec(id: nat, ghost g0: Graph)
      requires WellFormed(g0) && g0 <= g && id < |g0| && Cleared(g0, id, markA)
      modifies this`markA
      ensures markA == old(markA) - ConeOf(g0, id)
      decreases id
    {
      if !g[id].And? || id !in markA {
        return;
      }
      ghost var m0 := markA;
      ClearedBelow(g0, id, markA);
      ConeUnmarkRec(g[id].child0.id, g0);
      ClearedNext(g0, id, m0, markA);
      ConeUnmarkRec(g[id].child1.id, g0);
      markA := markA - {id};
    }

    // An edge that evaluates as the root with variable `iVar` replaced by the function,
    // unless there is no such variable.
    method Compose(root: Edge, func: Edge, iVar: nat) returns (res: Option<Edge>)
      requires WellFormed(g) && DistinctInputs(g) && Inside(g, root) && Inside(g, func) && markA == {}
      modifies this
      ensures WellFormed(g) && old(g) <= g && markA == {}
      ensures res.Some? <==> Ci(iVar) in old(g)
      ensures res.Some? ==> Inside(g, res.value)
      ensures res.Some? ==>
        forall x :: iVar < |x| ==>
        EdgeValue(g, res.value, x) == EdgeValue(old(g), root, x[iVar := EdgeValue(old(g), func, x)])
    {
      if pVar :| 0 <= pVar < |g| && g[pVar] == Ci(iVar) {
        data := map[];
        ghost var g0 := g;
        ComposeRec(root.id, func, pVar, g0, iVar);
        AllMarked(g0, root.id, markA);
        ConeUnmarkRec(root.id, g0);
        res := Some(NotCond(data[root.id], root.compl));
        ghost var rel := Composition(g0, func, iVar);
        assert Stands(g0, g, rel, root.id, data[root.id]);
        forall x: Vec | iVar < |x| ensures EdgeValue(g, res.value, x) ==
          EdgeValue(g0, root, x[iVar := EdgeValue(g0, func, x)])
        {
          assert (x, x[iVar := EdgeValue(g0, func, x)]) in rel;
        }
      } else {
        res := None;
      }
    }
  }

  lemma LeafStands(g: Graph, h: Graph, func: Edge, k: nat, pVar: nat, id: nat)
    requires WellFormed(g) && WellFormed(h) && g <= h && Inside(g, func) && id < |g| && !g[id].And?
    requires pVar < |g| && g[pVar] == Ci(k) && DistinctInputs(g)
    ensures Stands(g, h, Composition(g, func, k), id, if id == pVar then func else Edge(id, false))
  {
    var e := if id == pVar then func else Edge(id, false);
    forall x: Vec, y: Vec | (x, y) in Composition(g, func, k) ensures EdgeValue(h, e, x) == Value(g, id, y)
    {
      ValueKept(g, h, func.id, x);
      ValueKept(g, h, id, x);
      if id != pVar && g[id].Ci? {
        assert g[id].k != k;
      }
    }
  }

  lemma RebuiltNode(g: Graph, h: Graph, h': Graph, rel: Relation, data: map<nat, Edge>, id: nat, r: Edge)
    requires WellFormed(g) && WellFormed(h) && WellFormed(h') && h <= h' && id < |g| && g[id].And?
    requires MemoOk(g, h, rel, data) && g[id].child0.id in data && g[id].child1.id in data && Inside(h', r)
    ensures Inside(h, data[g[id].child0.id]) && Inside(h, data[g[id].child1.id])
    ensures (forall x ::
      EdgeValue(h', r, x) ==
      (EdgeValue(h, NotCond(data[g[id].child0.id], g[id].child0.compl), x)
      && EdgeValue(h, NotCond(data[g[id].child1.id], g[id].child1.compl), x)))
      ==> MemoOk(g, h', rel, data[id := r])
  {
    MemoLater(g, h, h', rel, data);
    assert Stands(g, h, rel, g[id].child0.id, data[g[id].child0.id]);
    assert Stands(g, h, rel, g[id].child1.id, data[g[id].child1.id]);
    if forall x ::
      EdgeValue(h', r, x) ==
      (EdgeValue(h, NotCond(data[g[id].child0.id], g[id].child0.compl), x)
      && EdgeValue(h, NotCond(data[g[id].child1.id], g[id].child1.compl), x)) {
      StandsAnd(g, h, h', rel, id, data[g[id].child0.id], data[g[id].child1.id], r);
    }
  }

  lemma MemoInside(g0: Graph, g: Graph, rel: Relation, data: map<nat, Edge>)
    requires WellFormed(g0) && WellFormed(g) && MemoOk(g0, g, rel, data)
    ensures forall id :: id in data ==> Inside(g, data[id])
  {
  }

  lemma ConeMarked(g: Graph, marks: set<nat>, id: nat)
    requires WellFormed(g) && id < |g| && id in marks && Closed(g, marks)
    ensures marks == marks + ConeOf(g, id)
  {
  }

  lemma ClosedMore(g: Graph, marks: set<nat>, id: nat)
    requires WellFormed(g) && id < |g| && g[id].And? && id in marks && Closed(g, marks - {id})
    requires ConeOf(g, g[id].child0.id) <= marks && ConeOf(g, g[id].child1.id) <= marks
    ensures Closed(g, marks)
  {
    forall k | k in marks ensures k < |g| && g[k].And? && ConeOf(g, k) <= marks
    {
      if k != id {
        assert k in marks - {id};
      }
    }
  }

  lemma AllMarked(g: Graph, id: nat, marks: set<nat>)
    requires WellFormed(g) && id < |g| && marks == ConeOf(g, id)
    ensures Cleared(g, id, marks) && marks - ConeOf(g, id) == {}
  {
  }

  lemma ClearedBelow(g: Graph, id: nat, marks: set<nat>)
    requires WellFormed(g) && id < |g| && g[id].And? && Cleared(g, id, marks)
    ensures Cleared(g, g[id].child0.id, marks) && Cleared(g, g[id].child1.id, marks)
  {
  }

  lemma ClearedNext(g: Graph, id: nat, marks: set<nat>, now: set<nat>)
    requires WellFormed(g) && id < |g| && g[id].And? && Cleared(g, id, marks)
      && now == marks - ConeOf(g, g[id].child0.id)
    ensures Cleared(g, g[id].child1.id, now)
  {
    forall k | k in ConeOf(g, g[id].child1.id) && k !in now ensures ConeOf(g, k) !! now
    {
      if k in marks {
        ConeInside(g, g[id].child0.id, k);
      }
    }
  }

  // ---- Factoring under a fixed value ----

  // All edges of the list are true.
  ghost predicate AllTrue(g: Graph, implics: seq<Edge>, x: Vec)
    requires WellFormed(g) && forall e :: e in implics ==> Inside(g, e)
  {
    forall e :: e in implics ==> EdgeValue(g, e, x)
  }

  // The value of a node with some nodes set to constants.
  ghost function FixedValue(g: Graph, fix: map<nat, bool>, id: nat, x: Vec): bool
    requires WellFormed(g) && id < |g|
    decreases id
  {
    if id in fix then fix[id]
    else match g[id]
      case Const1 => true
      case Ci(k) => k < |x| && x[k]
      case And(a, b) => (FixedValue(g, fix, a.id, x) != a.compl) && (FixedValue(g, fix, b.id, x) != b.compl)
  }

  // Setting nodes to the values they have changes nothing.
  lemma {:induction false} FixedAgrees(g: Graph, fix: map<nat, bool>, id: nat, x: Vec)
    requires WellFormed(g) && id < |g| && forall k :: k in fix ==> k < |g| && fix[k] == Value(g, k, x)
    ensures FixedValue(g, fix, id, x) == Value(g, id, x)
    decreases id
  {
    if id !in fix && g[id].And? {
      FixedAgrees(g, fix, g[id].child0.id, x);
      FixedAgrees(g, fix, g[id].child1.id, x);
    }
  }

  // Every node of the edges is set so that one of them is true.
  ghost predicate FixesEdges(fix: map<nat, bool>, edges: set<Edge>)
  {
    && (forall e :: e in edges ==> e.id in fix)
    && forall k :: k in fix ==> Edge(k, !fix[k]) in edges
  }

  // Edge `e` of the new graph has the value of node `id` with the constants in place.
  ghost predicate FixedStands(g: Graph, h: Graph, fix: map<nat, bool>, id: nat, e: Edge)
    requires WellFormed(g) && WellFormed(h)
  {
    id < |g| && Inside(h, e) && forall x :: EdgeValue(h, e, x) == FixedValue(g, fix, id, x)
  }

  // Edge `r` has on every assignment the value of `e` with the constants in place.
  ghost predicate FixedAs(g: Graph, h: Graph, fix: map<nat, bool>, e: Edge, r: Edge)
    requires WellFormed(g) && WellFormed(h) && Inside(g, e)
  {
    Inside(h, r) && forall x :: EdgeValue(h, r, x) == (FixedValue(g, fix, e.id, x) != e.compl)
  }

  // `r` is `e` with every node that the truth of `a` fixes set to its constant.
  ghost predicate Factored(g: Graph, h: Graph, a: Edge, e: Edge, r: Edge)
    requires WellFormed(g) && WellFormed(h) && Inside(g, a) && Inside(g, e)
  {
    exists fix :: FixesEdges(fix, LeafEdges(g, a)) && FixedAs(g, h, fix, e, r)
  }

  ghost predicate FixedMemo(g: Graph, h: Graph, fix: map<nat, bool>, data: map<nat, Edge>)
    requires WellFormed(g) && WellFormed(h)
  {
    forall id :: id in data ==> FixedStands(g, h, fix, id, data[id])
  }

  lemma NothingFixed(implics: seq<Edge>)
    ensures FixesEdges(map[], set e | e in implics[..0])
  {
  }

  lemma OneMoreFixed(fix: map<nat, bool>, implics: seq<Edge>, more: seq<Edge>, e: Edge)
    requires FixesEdges(fix, set l | l in implics) && more == implics + [e]
    ensures FixesEdges(fix[e.id := !e.compl], set l | l in more)
  {
  }

  lemma ConstantsStand(g: Graph, fix: map<nat, bool>, data: map<nat, Edge>)
    requires WellFormed(g) && |g| > 0 && fix.Keys == data.Keys
    requires forall k :: k in data ==> data[k] == Edge(0, !fix[k]) && k < |g|
    ensures FixedMemo(g, g, fix, data)
  {
  }

  lemma FixedLater(g: Graph, h: Graph, h': Graph, fix: map<nat, bool>, data: map<nat, Edge>)
    requires WellFormed(g) && WellFormed(h) && WellFormed(h') && h <= h' && FixedMemo(g, h, fix, data)
    ensures FixedMemo(g, h', fix, data)
  {
    forall id | id in data ensures FixedStands(g, h', fix, id, data[id])
    {
      assert FixedStands(g, h, fix, id, data[id]);
      forall x ensures EdgeValue(h', data[id], x) == FixedValue(g, fix, id, x)
      {
        ValueKept(h, h', data[id].id, x);
      }
    }
  }

  lemma FixedChildren(g: Graph, h: Graph, fix: map<nat, bool>, data: map<nat, Edge>, id: nat)
    requires WellFormed(g) && WellFormed(h) && FixedMemo(g, h, fix, data) && id < |g| && g[id].And?
    requires g[id].child0.id in data && g[id].child1.id in data
    ensures Inside(h, data[g[id].child0.id]) && Inside(h, data[g[id].child1.id])
  {
  }

  lemma FixedNode(g: Graph, h: Graph, h': Graph, fix: map<nat, bool>, data: map<nat, Edge>, id: nat, r: Edge)
    requires WellFormed(g) && WellFormed(h) && WellFormed(h') && h <= h' && id < |g| && g[id].And? && id !in fix
    requires FixedMemo(g, h, fix, data) && g[id].child0.id in data && g[id].child1.id in data && Inside(h', r)
    requires Inside(h, data[g[id].child0.id]) && Inside(h, data[g[id].child1.id])
    requires forall x ::
      EdgeValue(h', r, x) ==
      (EdgeValue(h, NotCond(data[g[id].child0.id], g[id].child0.compl), x)
      && EdgeValue(h, NotCond(data[g[id].child1.id], g[id].child1.compl), x))
    ensures FixedMemo(g, h', fix, data[id := r])
  {
    FixedLater(g, h, h', fix, data);
    assert FixedStands(g, h, fix, g[id].child0.id, data[g[id].child0.id]);
    assert FixedStands(g, h, fix, g[id].child1.id, data[g[id].child1.id]);
    assert FixedStands(g, h', fix, id, r);
  }

  // All nodes below and including `id`, inputs too.
  ghost function NodesOf(g: Graph, id: nat): (s: set<nat>)
    requires WellFormed(g) && id < |g|
    ensures id in s && forall k :: k in s ==> k <= id
    decreases id
  {
    if g[id].And? then {id} + NodesOf(g, g[id].child0.id) + NodesOf(g, g[id].child1.id) else {id}
  }

  // The edges at the leaves of the tree of ANDs: they are all true exactly if the
  // edge is.
  method FindImplicationsRec(g: Graph, e: Edge, implics: seq<Edge>) returns (r: seq<Edge>)
    requires WellFormed(g) && Inside(g, e) && 0 < e.id && forall l :: l in implics ==> Inside(g, l) && 0 < l.id
    ensures forall l :: l in r ==> Inside(g, l) && 0 < l.id
    ensures forall x :: AllTrue(g, r, x) <==> AllTrue(g, implics, x) && EdgeValue(g, e, x)
    ensures forall l :: l in r <==> l in implics || l in LeafEdges(g, e)
    decreases e.id
  {
    if e.compl || g[e.id].Ci? {
      if e in implics {
        r := implics;
      } else {
        r := implics + [e];
      }
      assert forall l :: l in r <==> l in implics || l == e;
      return;
    }
    hide AllTrue;
    r := FindImplicationsRec(g, g[e.id].child0, implics);
    r := FindImplicationsRec(g, g[e.id].child1, r);
  }

  class Factorer {
    var g: Graph
    var current: set<nat>
    var data: map<nat, Edge>

    constructor (g: Graph)
      ensures this.g == g && current == {} && data == map[]
    {
      this.g, current, data := g, {}, map[];
    }

    // Whether the cone meets the implied nodes. Nodes visited without meeting one are
    // marked.
    method FindConeOverlapRec(id: nat, implied: set<nat>) returns (r: bool)
      requires WellFormed(g) && id < |g| && current !! implied
      requires forall k :: k in current && k <= id ==> NodesOf(g, k) !! implied
      modifies this`current
      ensures r <==> !(NodesOf(g, id) !! implied)
      ensures current !! implied && old(current) <= current
      ensures !r ==> forall k :: k in current ==> k in old(current) || (k <= id && NodesOf(g, k) !! implied)
      decreases id
    {
      if id in implied {
        return true;
      }
      if id in current {
        return false;
      }
      current := current + {id};
      if !g[id].And? {
        return false;
      }
      r := FindConeOverlapRec(g[id].child0.id, implied);
      if r {
        return true;
      }
      r := FindConeOverlapRec(g[id].child1.id, implied);
    }

    // Rebuilds the cone with constants for the implied nodes.
    method DeriveNewConeRec(id: nat, ghost g0: Graph, ghost fix: map<nat, bool>) returns (r: Edge)
      requires WellFormed(g0) && WellFormed(g) && g0 <= g && 0 < id < |g0|
      requires FixedMemo(g0, g, fix, data) && fix.Keys <= current && forall k :: k in current && k <= id ==> k in data
      modifies this
      ensures WellFormed(g) && old(g) <= g && FixedMemo(g0, g, fix, data) && old(current) <= current
      ensures id in data && r == data[id] && old(data.Keys) <= data.Keys
      ensures forall k :: k in current ==> k in old(current) || k in data
      decreases id
    {
      if id in current {
        return data[id];
      }
      current := current + {id};
      if g[id].Ci? {
        InputFixed(g0, g, fix, id);
        hide FixedStands;
        r := Edge(id, false);
        data := data[id := r];
        return;
      }
      hide FixedMemo;
      var a, b := g[id].child0, g[id].child1;
      var unused := DeriveNewConeRec(a.id, g0, fix);
      unused := DeriveNewConeRec(b.id, g0, fix);
      ghost var h := g;
      FixedChildren(g0, g, fix, data, id);
      g, r := MakeAnd(g, NotCond(data[a.id], a.compl), NotCond(data[b.id], b.compl));
      FixedNode(g0, h, g, fix, data, id, r);
      data := data[id := r];
    }

    // The cone with the nodes of the implied edges set to the constants that make these
    // true.
    method DeriveNewCone(implics: seq<Edge>, id: nat) returns (r: Edge, ghost fix: map<nat, bool>)
      requires WellFormed(g) && 0 < id < |g| && forall e :: e in implics ==> Inside(g, e) && 0 < e.id
      modifies this
      ensures WellFormed(g) && old(g) <= g && Inside(g, r) && FixesEdges(fix, set e | e in implics)
      ensures forall x :: EdgeValue(g, r, x) == FixedValue(old(g), fix, id, x)
    {
      hide FixesEdges;
      ghost var g0 := g;
      fix := SetConstants(implics);
      r := DeriveNewConeRec(id, g0, fix);
      assert FixedStands(g0, g, fix, id, r);
    }

    // Each implied node is marked and has the constant that makes its edge true.
    method SetConstants(implics: seq<Edge>) returns (ghost fix: map<nat, bool>)
      requires WellFormed(g) && |g| > 0 && forall e :: e in implics ==> Inside(g, e) && 0 < e.id
      modifies this`current, this`data
      ensures FixesEdges(fix, set e | e in implics) && fix.Keys == current == data.Keys
      ensures FixedMemo(g, g, fix, data)
    {
      hide FixesEdges, FixedMemo;
      current, data, fix := {}, map[], map[];
      NothingFixed(implics);
      for i := 0 to |implics|
        invariant FixesEdges(fix, set e | e in implics[..i]) && fix.Keys == current == data.Keys
        invariant forall k :: k in data ==> data[k] == Edge(0, !fix[k]) && k < |g|
      {
        var e := implics[i];
        OneMoreFixed(fix, implics[..i], implics[..i + 1], e);
        current := current + {e.id};
        data := data[e.id := Edge(0, e.compl)];
        fix := fix[e.id := !e.compl];
      }
      assert implics[..|implics|] == implics;
      ConstantsStand(g, fix, data);
    }

    // An edge equal to B wherever A has the given value: B with every node that this
    // fixes set to its constant. There is none if the cone of B has no such node.
    method FactorAlgebraic(poA: Edge, poB: Edge, value: bool) returns (res: Option<Edge>)
      requires WellFormed(g) && Inside(g, poA) && Inside(g, poB)
      modifies this
      ensures WellFormed(g) && old(g) <= g
      ensures res.Some? ==> Inside(g, res.value)
      ensures res.Some? ==>
        forall x :: EdgeValue(old(g), poA, x) == value ==> EdgeValue(g, res.value, x) == EdgeValue(old(g), poB, x)
      ensures res.Some? ==> Factored(old(g), g, NotCond(poA, !value), poB, res.value)
      ensures res.None? ==> g == old(g)
      ensures res.None? <==>
        old(g)[poA.id].Const1? || !old(g)[poB.id].And?
        || forall e :: e in LeafEdges(old(g), NotCond(poA, !value)) ==> e.id !in NodesOf(old(g), poB.id)
    {
      if g[poA.id].Const1? || g[poB.id].Const1? || g[poB.id].Ci? {
        return None;
      }
      ghost var g0 := g;
      var nodeA := NotCond(poA, !value);
      var implics := FindImplicationsRec(g, nodeA, []);
      var implied := set e | e in implics :: e.id;
      current := {};
      var overlap := FindConeOverlapRec(poB.id, implied);
      if !overlap {
        return None;
      }
      var c; ghost var fix;
      c, fix := DeriveNewCone(implics, poB.id);
      assert LeafEdges(g0, nodeA) == set e | e in implics;
      res := Some(NotCond(c, poB.compl));
      assert FixedAs(g0, g, fix, poB, res.value);
      FactorAgrees(g0, g, poA, value, implics, fix, poB, res.value);
    }
  }

  // Where A has the value, the constants are the values of their nodes.
  lemma FactorAgrees(g: Graph, h: Graph, poA: Edge, value: bool, implics: seq<Edge>, fix: map<nat, bool>, poB: Edge,
      r: Edge)
    requires WellFormed(g) && WellFormed(h) && g <= h && Inside(g, poA) && Inside(g, poB)
    requires forall e :: e in implics ==> Inside(g, e)
    requires forall x :: EdgeValue(g, NotCond(poA, !value), x) <==> AllTrue(g, implics, x)
    requires FixesEdges(fix, set e | e in implics) && FixedAs(g, h, fix, poB, r)
    ensures forall x :: EdgeValue(g, poA, x) == value ==> EdgeValue(h, r, x) == EdgeValue(g, poB, x)
  {
    forall x | EdgeValue(g, poA, x) == value ensures EdgeValue(h, r, x) == EdgeValue(g, poB, x)
    {
      assert EdgeValue(g, NotCond(poA, !value), x);
      assert AllTrue(g, implics, x);
      forall k | k in fix ensures k < |g| && fix[k] == Value(g, k, x)
      {
        assert Edge(k, !fix[k]) in implics;
      }
      FixedAgrees(g, fix, poB.id, x);
    }
  }

  lemma InputFixed(g: Graph, h: Graph, fix: map<nat, bool>, id: nat)
    requires WellFormed(g) && WellFormed(h) && g <= h && id < |g| && g[id].Ci? && id !in fix
    ensures FixedStands(g, h, fix, id, Edge(id, false))
  {
    forall x: Vec ensures EdgeValue(h, Edge(id, false), x) == FixedValue(g, fix, id, x)
    {
      ValueKept(g, h, id, x);
    }
  }
}
