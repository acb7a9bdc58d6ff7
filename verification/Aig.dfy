// And-inverter graphs: nodes in topological order, edges that may complement, and
// what a node evaluates to.
module Aigs {

  datatype Edge = Edge(id: nat, compl: bool)

  datatype Node = Const1 | Ci(k: nat) | And(child0: Edge, child1: Edge)

  type Graph = seq<Node>

  // Children come before their parents and are never the constant.
  ghost predicate WellFormed(g: Graph)
  {
    && |g| > 0 && g[0] == Const1
    && (forall i :: 0 <= i < |g| && g[i].And? ==> 0 < g[i].child0.id < i && 0 < g[i].child1.id < i)
    && (forall i :: 0 < i < |g| ==> g[i] != Const1)
  }

  ghost predicate Inside(g: Graph, e: Edge)
  {
    e.id < |g|
  }

  function Not(e: Edge): Edge
  {
    Edge(e.id, !e.compl)
  }

  function NotCond(e: Edge, c: bool): Edge
  {
    Edge(e.id, e.compl != c)
  }

  // The value of a node for an assignment of the inputs.
  ghost function Value(g: Graph, id: nat, x: seq<bool>): bool
    requires WellFormed(g) && id < |g|
    decreases id
  {
    match g[id]
    case Const1 => true
    case Ci(k) => k < |x| && x[k]
    case And(a, b) => (Value(g, a.id, x) != a.compl) && (Value(g, b.id, x) != b.compl)
  }

  ghost function EdgeValue(g: Graph, e: Edge, x: seq<bool>): bool
    requires WellFormed(g) && Inside(g, e)
  {
    Value(g, e.id, x) != e.compl
  }

  // The edges at the leaves of the tree of ANDs below an edge.
  ghost function LeafEdges(g: Graph, e: Edge): (s: set<Edge>)
    requires WellFormed(g) && Inside(g, e)
    ensures forall l :: l in s ==> Inside(g, l)
    decreases e.id
  {
    if e.compl || !g[e.id].And? then {e} else LeafEdges(g, g[e.id].child0) + LeafEdges(g, g[e.id].child1)
  }

  // Adding nodes does not change the values of the old ones.
  lemma {:induction false} ValueKept(g: Graph, h: Graph, id: nat, x: seq<bool>)
    requires WellFormed(g) && WellFormed(h) && g <= h && id < |g|
    ensures Value(h, id, x) == Value(g, id, x)
    decreases id
  {
    if g[id].And? {
      ValueKept(g, h, g[id].child0.id, x);
      ValueKept(g, h, g[id].child1.id, x);
    }
  }

  // A node for the conjunction of two edges: a constant or one of the edges where
  // that is enough, a node there already, or a new one.
  method MakeAnd(g: Graph, a: Edge, b: Edge) returns (h: Graph, e: Edge)
    requires WellFormed(g) && Inside(g, a) && Inside(g, b)
    ensures WellFormed(h) && g <= h && Inside(h, e)
    ensures forall x :: EdgeValue(h, e, x) == (EdgeValue(g, a, x) && EdgeValue(g, b, x))
  {
    h := g;
    if a == b || b == Edge(0, false) {
      e := a;
    } else if a == Edge(0, false) {
      e := b;
    } else if a == Not(b) || a.id == 0 || b.id == 0 {
      e := Edge(0, true);
    } else if i :| 0 <= i < |g| && (g[i] == And(a, b) || g[i] == And(b, a)) {
      e := Edge(i, false);
    } else {
      h := g + [And(a, b)];
      e := Edge(|g|, false);
      forall x ensures EdgeValue(h, e, x) == (EdgeValue(g, a, x) && EdgeValue(g, b, x))
      {
        ValueKept(g, h, a.id, x);
        ValueKept(g, h, b.id, x);
      }
    }
  }
}
