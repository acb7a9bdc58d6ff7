// Support minimisation on a graph with traversal marks: the cone between the
// function and the condition, its support, and the replacement.
module AigManaging {
  import opened Aigs
  import opened SupportMinimizing
  import opened SupportCones
  import opened Vectors

  // Cone nodes, each once, listed after their children as far as those are in `inside`.
  ghost predicate Ordered(g: Graph, nodes: seq<nat>, inside: set<nat>)
  {
    && (forall k :: 0 <= k < |nodes| ==> nodes[k] in inside && nodes[k] < |g| && g[nodes[k]].And?)
    && (forall j, k :: 0 <= j < k < |nodes| ==> nodes[j] != nodes[k])
    && (forall k :: 0 <= k < |nodes| && g[nodes[k]].child0.id in inside ==> g[nodes[k]].child0.id in nodes[..k])
    && (forall k :: 0 <= k < |nodes| && g[nodes[k]].child1.id in inside ==> g[nodes[k]].child1.id in nodes[..k])
  }

  lemma OrderedPush(g: Graph, nodes: seq<nat>, inside: set<nat>, id: nat)
    requires Ordered(g, nodes, inside) && id in inside && id !in nodes && id < |g| && g[id].And?
    requires (g[id].child0.id in inside ==> g[id].child0.id in nodes)
      && (g[id].child1.id in inside ==> g[id].child1.id in nodes)
    ensures Ordered(g, nodes + [id], inside)
  {
    var now := nodes + [id];
    forall k | 0 <= k < |now| ensures now[..k] == nodes[..k]
    {
    }
    assert nodes[..|nodes|] == nodes;
  }

  class AigMan {
    var g: Graph
    var travId: seq<nat>
    var travIds: nat

    ghost predicate Valid()
      reads this
    {
      WellFormed(g) && |travId| == |g| && forall i :: 0 <= i < |travId| ==> travId[i] <= travIds
    }

    predicate IsCurrent(id: nat)
      reads this
    {
      id < |travId| && travId[id] == travIds
    }

    predicate IsPrevious(id: nat)
      reads this
    {
      id < |travId| && travId[id] + 1 == travIds
    }

    method IncrementTravId()
      requires Valid()
      modifies this`travIds
      ensures Valid() && travIds == old(travIds) + 1
    {
      travIds := travIds + 1;
    }

    // ---- The condition as a wide OR gate ----

    // Collects the leaves of the tree of ANDs below an edge, complemented.
    method CollectSuperRec(e: Edge, super: seq<Edge>) returns (r: seq<Edge>)
      requires WellFormed(g) && Inside(g, e) && 0 < e.id && forall l :: l in super ==> Inside(g, l) && 0 < l.id
      ensures forall l :: l in r ==> Inside(g, l) && 0 < l.id
      ensures forall x :: OrValue(g, r, x) <==> OrValue(g, super, x) || !EdgeValue(g, e, x)
      ensures forall l :: l in r <==> l in super || Not(l) in LeafEdges(g, e)
      ensures NoRepeats(super) ==> NoRepeats(r)
      ensures |r| > 0
      decreases e.id
    {
      if e.compl || g[e.id].Ci? {
        if Not(e) in super {
          r := super;
        } else {
          r := super + [Not(e)];
        }
        assert Not(e) in r && forall l: Edge :: Not(l) == e <==> l == Not(e);
        forall x ensures OrValue(g, r, x) <==> OrValue(g, super, x) || !EdgeValue(g, e, x)
        {
          assert EdgeValue(g, Not(e), x) == !EdgeValue(g, e, x);
          assert forall l :: l in r <==> l in super || l == Not(e);
        }
        return;
      }
      hide OrValue;
      r := CollectSuperRec(g[e.id].child0, super);
      r := CollectSuperRec(g[e.id].child1, r);
    }

    method CollectSuper(id: nat) returns (super: seq<Edge>)
      requires WellFormed(g) && id < |g| && g[id].And?
      ensures |super| > 0 && forall l :: l in super ==> Inside(g, l) && 0 < l.id
      ensures forall x :: OrValue(g, super, x) <==> !Value(g, id, x)
      ensures NoRepeats(super) && GateEdges(g, id) == Members(super)
    {
      super := CollectSuperRec(g[id].child0, []);
      assert forall x :: !OrValue(g, [], x);
      hide OrValue;
      super := CollectSuperRec(g[id].child1, super);
      assert forall l: Edge :: Not(Not(l)) == l;
    }

    // ---- Marking the cone ----

    // Marks the nodes that lead to the gate, marked at first; others that are reached
    // are marked as visited only.
    method HighlightConeRec(id: nat, ghost gate: set<nat>) returns (r: bool)
      requires Valid() && 0 < id < |g| && travIds >= 1 && Walked(g, gate, travId, travIds, id)
      modifies this`travId
      ensures Valid() && WalkedFrom(g, gate, old(travId), travId, travIds, id)
      ensures (r <==> Leads(g, gate, id)) && (r ==> IsCurrent(id))
      decreases id
    {
      hide Walked, WalkedFrom, Leads, Reach;
      if IsCurrent(id) {
        AlreadyWalked(g, gate, travId, travIds, id);
        return true;
      }
      if IsPrevious(id) {
        AlreadyWalked(g, gate, travId, travIds, id);
        return false;
      }
      ghost var t := travId;
      WalkStart(g, gate, t, travIds, id);
      travId := travId[id := travIds - 1];
      if g[id].Ci? {
        return false;
      }
      StartedBelow(g, gate, t, travIds, id);
      var a := HighlightConeRec(g[id].child0.id, gate);
      ghost var t1 := travId;
      SecondChild(g, gate, t, t1, travIds, id);
      var b := HighlightConeRec(g[id].child1.id, gate);
      WalkEnd(g, gate, t, t1, travId, travIds, id);
      InnerNode(g, gate, id);
      r := a || b;
      if r {
        travId := travId[id := travIds];
      }
    }

    // Marks the nodes between the root and the gate, the gate excluded.
    method HighlightCone(root: nat, gate: seq<Edge>) returns (r: bool)
      requires Valid() && 0 < root < |g| && forall e :: e in gate ==> Inside(g, e) && 0 < e.id
      modifies this`travId, this`travIds
      ensures Valid() && (r <==> Leads(g, GateIds(gate), root))
      ensures forall k :: 0 <= k < |g| ==> (IsCurrent(k) <==> k in Inner(g, GateIds(gate), root))
    {
      hide Walked, WalkedFrom, Leads, Reach, Inner, Visited, GateIds;
      IncrementTravId();
      IncrementTravId();
      ghost var ids := GateIds(gate);
      MarkGate(gate);
      WalkBegin(g, ids, travId, travIds, root);
      ghost var t := travId;
      r := HighlightConeRec(root, ids);
      WalkedInner(g, ids, t, travId, travIds, root);
      InnerOutside(g, ids, root);
      UnmarkGate(gate);
    }

    method MarkGate(gate: seq<Edge>)
      requires Valid() && travIds >= 2 && forall e :: e in gate ==> Inside(g, e)
      requires forall k :: 0 <= k < |g| ==> travId[k] <= travIds - 2
      modifies this`travId
      ensures Valid()
      ensures forall k :: 0 <= k < |g| ==> (travId[k] == travIds <==> k in GateIds(gate)) && travId[k] + 1 != travIds
      ensures forall k :: k in GateIds(gate) ==> k < |g|
    {
      for i := 0 to |gate|
        invariant Valid()
        invariant forall j :: 0 <= j < i ==> IsCurrent(gate[j].id)
        invariant forall k :: 0 <= k < |g| ==> (IsCurrent(k) && k in GateIds(gate)) || travId[k] <= travIds - 2
      {
        assert gate[i] in gate;
        travId := travId[gate[i].id := travIds];
      }
      GateListed(gate);
    }

    method UnmarkGate(gate: seq<Edge>)
      requires Valid() && travIds >= 1 && forall e :: e in gate ==> Inside(g, e)
      modifies this`travId
      ensures Valid()
      ensures forall k :: 0 <= k < |g| ==> (IsCurrent(k) <==> old(IsCurrent(k)) && k !in GateIds(gate))
    {
      for i := 0 to |gate|
        invariant Valid()
        invariant forall k :: 0 <= k < |g| && k !in GateIds(gate) ==> travId[k] == old(travId)[k]
        invariant forall k :: 0 <= k < |g| && IsCurrent(k) ==> old(IsCurrent(k))
        invariant forall j :: 0 <= j < i ==> !IsCurrent(gate[j].id)
      {
        assert gate[i] in gate;
        travId := travId[gate[i].id := travIds - 1];
      }
      GateListed(gate);
    }

    // ---- Collecting the cone ----

    method CollectConeRec(id: nat, nodes: seq<nat>, ghost inside: set<nat>) returns (r: seq<nat>)
      requires Valid() && id < |g| && Walking(g, travId, travIds, nodes, inside, id) && Ordered(g, nodes, inside)
      modifies this`travId
      ensures Valid() && Walking(g, travId, travIds, r, inside, id) && Ordered(g, r, inside) && nodes <= r
      ensures id in inside ==> id in r && (id !in nodes ==> r[|r| - 1] == id)
      ensures id !in inside ==> r == nodes
      ensures forall k :: k in r ==> k in nodes || k <= id
      ensures NewMarks(old(travId), travId, travIds, r)
      decreases id, 1
    {
      hide Walking, Ordered;
      r := nodes;
      WalkingAt(g, travId, travIds, nodes, inside, id);
      NoNewMarks(travId, travIds, r);
      if IsCurrent(id) {
        return;
      }
      if !IsPrevious(id) {
        return;
      }
      ghost var t0 := travId;
      NotListed(g, travId, travIds, nodes, inside, id);
      travId := travId[id := travIds];
      r := CollectChildren(id, r, inside, t0);
      OrderedPush(g, r, inside, id);
      r := r + [id];
    }

    // The cones of both children of a node just marked.
    method CollectChildren(id: nat, nodes: seq<nat>, ghost inside: set<nat>, ghost t0: seq<nat>) returns (r: seq<nat>)
      requires Valid() && id < |g| && g[id].And? && |t0| == |g| && t0[id] + 1 == travIds && travId == t0[id := travIds]
      requires Walking(g, t0, travIds, nodes, inside, id) && Ordered(g, nodes, inside)
      modifies this`travId
      ensures Valid() && Ordered(g, r, inside) && nodes <= r
      ensures forall k :: k in r ==> k in nodes || k < id
      ensures (g[id].child0.id in inside ==> g[id].child0.id in r)
        && (g[id].child1.id in inside ==> g[id].child1.id in r)
      ensures Walking(g, travId, travIds, r + [id], inside, id) && NewMarks(t0, travId, travIds, r + [id])
      decreases id, 0
    {
      hide Walking, Ordered, NewMarks;
      var a, b := g[id].child0.id, g[id].child1.id;
      WalkDown(g, t0, travId, travIds, nodes, nodes, inside, id, a);
      r := CollectConeRec(a, nodes, inside);
      ghost var t1, r1 := travId, r;
      WalkDown(g, t0, t1, travIds, nodes, r, inside, id, b);
      r := CollectConeRec(b, r, inside);
      WalkDone(g, t0, t1, travId, travIds, nodes, r1, r, inside, id);
    }

    // The marked nodes below the root, children first.
    method CollectCone(root: nat) returns (nodes: seq<nat>, ghost inside: set<nat>)
      requires Valid() && root < |g| && forall k :: 0 <= k < |g| && IsCurrent(k) ==> g[k].And?
      modifies this`travId, this`travIds
      ensures Valid() && Ordered(g, nodes, inside) && (forall k :: 0 <= k < |g| ==> (IsCurrent(k) <==> k in nodes))
      ensures inside == set k | 0 <= k < |g| && old(IsCurrent(k))
      ensures if root in inside then nodes != [] && nodes[|nodes| - 1] == root else nodes == []
    {
      inside := set k | 0 <= k < |g| && IsCurrent(k);
      IncrementTravId();
      ghost var t := travId;
      assert Walking(g, travId, travIds, [], inside, root);
      nodes := CollectConeRec(root, [], inside);
      forall k | 0 <= k < |g| ensures IsCurrent(k) <==> k in nodes
      {
        assert t[k] != travIds;
      }
    }

    // The children of cone nodes that are outside the cone, each once.
    method CollectSupport(nodes: seq<nat>, ghost inside: set<nat>) returns (supp: seq<nat>)
      requires Valid() && Ordered(g, nodes, inside) && forall k :: 0 <= k < |g| ==> (IsCurrent(k) <==> k in nodes)
      modifies this`travId
      ensures Valid() && Cone(g, nodes, supp) && (nodes == [] ==> supp == [])
      ensures forall id :: id in supp <==> id !in nodes && ChildOf(g, nodes, id)
    {
      hide SupportSoFar, Cone, ChildOf, Ordered, WellFormed, IsCurrent;
      supp := [];
      SupportNone(g, nodes, inside);
      for i := 0 to |nodes|
        invariant Valid() && SupportSoFar(g, nodes, supp, i) && (i == 0 ==> supp == [])
        invariant forall id :: id in supp ==> ChildOf(g, nodes, id)
        invariant forall k :: 0 <= k < |g| ==> (IsCurrent(k) <==> k in nodes || k in supp)
      {
        OrderedAt(g, nodes, inside, i);
        ChildrenOf(g, nodes, i);
        supp := AddSupport(g[nodes[i]].child0.id, nodes, supp, i);
        supp := AddSupport(g[nodes[i]].child1.id, nodes, supp, i);
        SupportStep(g, nodes, supp, i);
      }
      SupportDone(g, nodes, supp, inside);
      SupportIsAll(g, nodes, supp);
    }

    method AddSupport(fanin: nat, ghost nodes: seq<nat>, supp: seq<nat>, ghost i: nat) returns (r: seq<nat>)
      requires Valid() && 0 < fanin < |g| && SupportSoFar(g, nodes, supp, i)
      requires forall k :: 0 <= k < |g| ==> (IsCurrent(k) <==> k in nodes || k in supp)
      modifies this`travId
      ensures Valid() && SupportSoFar(g, nodes, r, i) && supp <= r && (fanin in nodes || fanin in r)
      ensures forall id :: id in r ==> id in supp || id == fanin
      ensures forall k :: 0 <= k < |g| ==> (IsCurrent(k) <==> k in nodes || k in r)
    {
      r := supp;
      if !IsCurrent(fanin) {
        SupportMore(g, nodes, supp, i, fanin);
        travId := travId[fanin := travIds];
        r := supp + [fanin];
      }
    }

    method GateIsInSupport(gate: seq<Edge>, supp: seq<nat>) returns (r: bool)
      requires Valid() && (forall e :: e in gate ==> Inside(g, e)) && forall id :: id in supp ==> id < |g|
      modifies this`travId, this`travIds
      ensures Valid() && (r <==> forall e :: e in gate ==> e.id in supp)
    {
      IncrementTravId();
      for i := 0 to |supp|
        invariant Valid() && travIds == old(travIds) + 1
        invariant forall k :: 0 <= k < |g| ==> (IsCurrent(k) <==> k in supp[..i])
      {
        assert supp[i] in supp && supp[..i + 1] == supp[..i] + [supp[i]];
        travId := travId[supp[i] := travIds];
      }
      assert supp[..|supp|] == supp;
      for i := 0 to |gate|
        invariant forall k :: 0 <= k < i ==> gate[k].id in supp
      {
        assert gate[i] in gate;
        if !IsCurrent(gate[i].id) {
          return false;
        }
      }
      r := true;
    }

    // An edge equal to `func` wherever `cond` holds, with every support variable that
    // allows it replaced by a constant. The status says why there is none: the
    // condition is no OR; the function is no node, the gate or the support too large,
    // or the cone does not meet the gate; a literal of the gate is not in the support,
    // or no variable can be replaced.
    method SupportMinimization(cond: Edge, func: Edge) returns (status: int, res: Edge)
      requires Valid() && Inside(g, cond) && Inside(g, func)
      modifies this
      ensures Valid() && old(g) <= g && (status == 0 || status == -1 || status == -2 || status == -3)
      ensures status == 0 ==>
        Inside(g, res) && forall x :: EdgeValue(g, cond, x) ==> EdgeValue(g, res, x) == EdgeValue(g, func, x)
      ensures status == 0 ==> exists nodes, supp, cs :: Minimized(old(g), g, cond.id, func, res, nodes, supp, cs)
      ensures status != 0 ==> g == old(g)
      ensures status == -1 <==> !cond.compl || old(g)[cond.id].Ci? || old(g)[cond.id].Const1?
      ensures status == -2 <==> status != -1 && NoCone(old(g), cond.id, func.id)
      ensures status == -3 ==> NothingGained(old(g), cond.id, func.id)
    {
      hide Cone, Minimized, OrValue, Leads, Inner, Around, LeafEdges, GateEdges, NoRepeats;
      var nSuppMax := 16;
      res := func;
      if !cond.compl || g[cond.id].Ci? || g[cond.id].Const1? {
        return -1, res;
      }
      if !g[func.id].And? {
        return -2, res;
      }
      var gate := CollectSuper(cond.id);
      GateSize(g, cond.id, gate);
      if |gate| > nSuppMax {
        return -2, res;
      }
      ghost var g0 := g;
      var status', nodes, supp := LimitedCone(func.id, gate, nSuppMax);
      if status' != 0 {
        return status', res;
      }
      var changed, h, e := Replace(gate, nodes, supp, cond.id, func);
      if !changed {
        return -3, res;
      }
      res := NotCond(e, func.compl);
      g := h;
      travId := travId + seq(|h| - |travId|, i => 0);
      status := 0;
      forall x | EdgeValue(g, cond, x) ensures EdgeValue(g, res, x) == EdgeValue(g, func, x)
      {
        ValueKept(g0, g, cond.id, x);
        ValueKept(g0, g, func.id, x);
      }
    }

    // Replaces support variables of the cone by constants where the gate allows it.
    method Replace(gate: seq<Edge>, nodes: seq<nat>, supp: seq<nat>, ghost cond: nat, ghost func: Edge)
        returns (changed: bool, h: Graph, e: Edge)
      requires WellFormed(g) && nodes != [] && nodes[|nodes| - 1] == func.id && Inside(g, func)
      requires cond < |g| && g[cond].And? && GateEdges(g, cond) == Members(gate)
      requires ConeIs(g, GateIds(gate), func.id, nodes, supp) && forall l :: l in gate ==> l.id in supp
      ensures changed ==> WellFormed(h) && g <= h && Inside(h, e) && forall l :: l in gate ==> Inside(g, l)
      ensures changed ==> forall x :: OrValue(g, gate, x) ==> EdgeValue(h, e, x) == Value(g, func.id, x)
      ensures changed ==> exists cs :: Minimized(g, h, cond, func, NotCond(e, func.compl), nodes, supp, cs)
      ensures !changed ==> NothingGained(g, cond, func.id)
    {
      hide Cone, TableOf, StandsFor, OrValue, Chosen, DistinctChoices, EdgeValue, Replaceable, GateEdges, CareTable,
        Inner, Around;
      h, e := g, Edge(0, false);
      LastInCone(nodes);
      var data := ComputeTables(g, nodes, supp);
      var f := data[nodes[|nodes| - 1]];
      var care := CareTable(data, gate);
      var cs := Perform(f, care, |supp|);
      ghost var edges := set e | e in gate;
      forall c ensures Chosen(f, care, |supp|, c) <==> Replaceable(g, nodes, supp, func.id, edges, c)
      {
        ChosenIsReplaceable(g, nodes, supp, data, gate, func.id, c);
      }
      GateIdsOf(g, cond, gate);
      AllListed(f, care, |supp|, cs);
      assert edges == GateEdges(g, cond);
      if |cs| == 0 {
        assert NoneReplaceable(g, cond, func.id, nodes, supp);
        return false, h, e;
      }
      ChosenInside(f, care, |supp|, cs);
      h, e := Reconstruct(g, nodes, supp, cs);
      StandsInside(g, h, nodes, supp, cs, func.id, e);
      MinimizedRight(g, h, nodes, supp, cs, data, gate, e);
      assert NotCond(NotCond(e, func.compl), func.compl) == e;
      assert Minimized(g, h, cond, func, NotCond(e, func.compl), nodes, supp, cs);
      changed := true;
    }

    // The cone of the function down to the gate, with its support.
    method LimitedCone(root: nat, gate: seq<Edge>, nSuppMax: nat) returns (status: int, nodes: seq<nat>, supp: seq<nat>)
      requires Valid() && 0 < root < |g| && |gate| > 0 && forall e :: e in gate ==> Inside(g, e) && 0 < e.id
      modifies this`travId, this`travIds
      ensures Valid() && (status == 0 || status == -2 || status == -3)
      ensures status == 0 ==> Cone(g, nodes, supp) && |supp| <= nSuppMax && (forall e :: e in gate ==> e.id in supp)
      ensures status == 0 ==> nodes != [] && nodes[|nodes| - 1] == root && ConeIs(g, GateIds(gate), root, nodes, supp)
      ensures status == -2 <==>
        !Leads(g, GateIds(gate), root) || |Around(g, Inner(g, GateIds(gate), root))| > nSuppMax
      ensures status == -3 ==> !(GateIds(gate) <= Around(g, Inner(g, GateIds(gate), root)))
    {
      hide Ordered, Cone, WellFormed, Inside, GateIds, Leads, Inner, Around;
      nodes, supp := [], [];
      var overlap := HighlightCone(root, gate);
      if !overlap {
        return -2, nodes, supp;
      }
      nodes, supp := CollectLimited(root, gate);
      if |supp| > nSuppMax {
        return -2, nodes, supp;
      }
      SupportIn(g, nodes, supp);
      var covered := GateIsInSupport(gate, supp);
      GateCovered(gate, supp);
      if !covered {
        return -3, nodes, supp;
      }
      assert gate[0] in gate;
      status := 0;
    }

    // Collects the marked cone and its support.
    method CollectLimited(root: nat, ghost gate: seq<Edge>) returns (nodes: seq<nat>, supp: seq<nat>)
      requires Valid() && 0 < root < |g| && Leads(g, GateIds(gate), root)
      requires forall k :: 0 <= k < |g| ==> (IsCurrent(k) <==> k in Inner(g, GateIds(gate), root))
      modifies this`travId, this`travIds
      ensures Valid() && ConeIs(g, GateIds(gate), root, nodes, supp)
      ensures |supp| == |Around(g, Inner(g, GateIds(gate), root))|
      ensures if nodes == [] then supp == [] else nodes[|nodes| - 1] == root
    {
      hide Ordered, Cone, GateIds, Leads, Inner, Around, ChildOf;
      InnerOutside(g, GateIds(gate), root);
      ghost var inside;
      nodes, inside := CollectCone(root);
      assert inside == Inner(g, GateIds(gate), root);
      supp := CollectSupport(nodes, inside);
      ConeFound(g, GateIds(gate), root, nodes, inside, supp);
    }
  }

  // The literals of the wide OR that a complemented node is.
  ghost function GateEdges(g: Graph, id: nat): (s: set<Edge>)
    requires WellFormed(g) && id < |g| && g[id].And?
  {
    set l | l in LeafEdges(g, g[id].child0) + LeafEdges(g, g[id].child1) :: Not(l)
  }

  ghost function Members<T>(s: seq<T>): set<T>
  {
    set x | x in s
  }

  lemma {:induction false} MembersSize<T>(s: seq<T>)
    requires NoRepeats(s)
    ensures |Members(s)| == |s|
  {
    if s != [] {
      var n := |s| - 1;
      MembersSize(s[..n]);
      assert s[n] !in s[..n];
      assert Members(s) == Members(s[..n]) + {s[n]};
    }
  }

  lemma GateSize(g: Graph, id: nat, gate: seq<Edge>)
    requires WellFormed(g) && id < |g| && g[id].And? && NoRepeats(gate) && GateEdges(g, id) == Members(gate)
    ensures |gate| == |GateEdges(g, id)| && GateIds(gate) == EdgeIds(GateEdges(g, id))
  {
    MembersSize(gate);
    GateIdsOf(g, id, gate);
  }

  ghost function EdgeIds(edges: set<Edge>): set<nat>
  {
    set e | e in edges :: e.id
  }

  lemma GateIdsOf(g: Graph, id: nat, gate: seq<Edge>)
    requires WellFormed(g) && id < |g| && g[id].And? && GateEdges(g, id) == Members(gate)
    ensures GateIds(gate) == EdgeIds(GateEdges(g, id))
  {
    hide GateEdges;
    forall k ensures k in GateIds(gate) <==> k in EdgeIds(GateEdges(g, id))
    {
      if k in GateIds(gate) {
        var e :| e in gate && e.id == k;
        assert e in GateEdges(g, id);
      }
      if k in EdgeIds(GateEdges(g, id)) {
        var e :| e in GateEdges(g, id) && e.id == k;
        assert e in gate;
      }
    }
  }

  // The cone between the root and the gate, and what it is a function of.
  ghost predicate ConeIs(g: Graph, gate: set<nat>, root: nat, nodes: seq<nat>, supp: seq<nat>)
    requires WellFormed(g) && root < |g|
  {
    && Cone(g, nodes, supp) && Members(nodes) == Inner(g, gate, root)
    && Members(supp) == Around(g, Inner(g, gate, root))
  }

  lemma ConeFound(g: Graph, gate: set<nat>, root: nat, nodes: seq<nat>, inside: set<nat>, supp: seq<nat>)
    requires WellFormed(g) && root < |g| && inside == Inner(g, gate, root) && Ordered(g, nodes, inside)
    requires if root in inside then nodes != [] && nodes[|nodes| - 1] == root else nodes == []
    requires Cone(g, nodes, supp) && forall id :: id in supp <==> id !in nodes && ChildOf(g, nodes, id)
    requires Leads(g, gate, root)
    ensures ConeIs(g, gate, root, nodes, supp) && |supp| == |Around(g, Inner(g, gate, root))|
  {
    hide Leads, Reach, Ordered, Cone, Inner, Around, ChildOf;
    NodesAll(g, gate, root, nodes, inside);
    SuppIsAround(g, nodes, supp);
    SuppDistinct(g, nodes, supp);
  }

  lemma SuppDistinct(g: Graph, nodes: seq<nat>, supp: seq<nat>)
    requires Cone(g, nodes, supp)
    ensures |Members(supp)| == |supp|
  {
    MembersSize(supp);
  }

  lemma SuppIsAround(g: Graph, nodes: seq<nat>, supp: seq<nat>)
    requires WellFormed(g) && forall id :: id in supp <==> id !in nodes && ChildOf(g, nodes, id)
    ensures Members(supp) == Around(g, Members(nodes))
  {
    var all := Members(nodes);
    forall id | id in Around(g, all) ensures id in supp
    {
      var n :| n in all && n < |g| && g[n].And? && (g[n].child0.id == id || g[n].child1.id == id);
      assert ChildOf(g, nodes, id);
    }
    forall id | id in supp ensures id in Around(g, all)
    {
      var n :| n in nodes && n < |g| && g[n].And? && (g[n].child0.id == id || g[n].child1.id == id);
      assert n in all && id !in all;
    }
  }

  lemma NodesAll(g: Graph, gate: set<nat>, root: nat, nodes: seq<nat>, inside: set<nat>)
    requires WellFormed(g) && root < |g| && inside == Inner(g, gate, root) && Ordered(g, nodes, inside)
    requires if root in inside then nodes != [] && nodes[|nodes| - 1] == root else nodes == []
    requires Leads(g, gate, root)
    ensures Members(nodes) == inside
  {
    var all := Members(nodes);
    if root in inside {
      assert root in all;
      forall n | n in all ensures n < |g| && g[n].And? && n in inside
        && (g[n].child0.id in inside ==> g[n].child0.id in all) && (g[n].child1.id in inside ==> g[n].child1.id in all)
      {
        var k :| 0 <= k < |nodes| && nodes[k] == n;
      }
      forall k | k in inside ensures k in all
      {
        InnerAll(g, gate, root, all, root, k);
      }
    } else {
      assert root in gate;
      assert inside == {};
    }
  }

  lemma GateCovered(gate: seq<Edge>, supp: seq<nat>)
    ensures (forall e :: e in gate ==> e.id in supp) <==> GateIds(gate) <= Members(supp)
  {
    if GateIds(gate) <= Members(supp) {
      forall e | e in gate ensures e.id in supp
      {
        assert e.id in GateIds(gate);
      }
    }
  }

  lemma GateListed(gate: seq<Edge>)
    ensures forall k :: k in GateIds(gate) ==> exists j :: 0 <= j < |gate| && gate[j].id == k
  {
    forall k | k in GateIds(gate) ensures exists j :: 0 <= j < |gate| && gate[j].id == k
    {
      var e :| e in gate && e.id == k;
      var j :| 0 <= j < |gate| && gate[j] == e;
    }
  }

  lemma InnerOutside(g: Graph, gate: set<nat>, root: nat)
    requires WellFormed(g) && root < |g|
    ensures forall k :: k in Inner(g, gate, root) ==> k < |g| && k !in gate && g[k].And?
  {
  }

  lemma SecondChild(g: Graph, gate: set<nat>, t: seq<nat>, t1: seq<nat>, now: nat, id: nat)
    requires WellFormed(g) && 0 < id < |g| && g[id].And? && |t| == |g| && now >= 1
    requires Walked(g, gate, t[id := now - 1], now, id - 1)
    requires WalkedFrom(g, gate, t[id := now - 1], t1, now, g[id].child0.id)
    ensures Walked(g, gate, t1, now, g[id].child1.id)
  {
    WalkedOn(g, gate, t[id := now - 1], t1, now, g[id].child0.id, id - 1);
  }

  // Why there is no cone to work on.
  ghost predicate NoCone(g: Graph, cond: nat, root: nat)
    requires WellFormed(g) && cond < |g| && g[cond].And? && root < |g|
  {
    var gate := EdgeIds(GateEdges(g, cond));
    || !g[root].And? || |GateEdges(g, cond)| > 16 || !Leads(g, gate, root)
    || |Around(g, Inner(g, gate, root))| > 16
  }

  // Why no variable is replaced: a literal of the gate is not in the support, or none
  // passes the test.
  ghost predicate NothingGained(g: Graph, cond: nat, root: nat)
    requires WellFormed(g) && cond < |g| && g[cond].And? && root < |g|
  {
    var gate := EdgeIds(GateEdges(g, cond));
    || !(gate <= Around(g, Inner(g, gate, root)))
    || exists nodes, supp :: NoneReplaceable(g, cond, root, nodes, supp)
  }

  ghost predicate NoneReplaceable(g: Graph, cond: nat, root: nat, nodes: seq<nat>, supp: seq<nat>)
    requires WellFormed(g) && cond < |g| && g[cond].And? && root < |g|
  {
    && ConeIs(g, EdgeIds(GateEdges(g, cond)), root, nodes, supp) && root in nodes
    && forall c :: !Replaceable(g, nodes, supp, root, GateEdges(g, cond), c)
  }

  // `res` computes the function of the cone with exactly the replaceable support
  // variables set to constants, at least one.
  ghost predicate Minimized(g: Graph, h: Graph, cond: nat, func: Edge, res: Edge, nodes: seq<nat>, supp: seq<nat>,
      cs: seq<Choice>)
  {
    && WellFormed(g) && WellFormed(h) && cond < |g| && g[cond].And? && Inside(g, func)
    && ConeIs(g, EdgeIds(GateEdges(g, cond)), func.id, nodes, supp) && nodes != [] && nodes[|nodes| - 1] == func.id
    && cs != [] && DistinctChoices(cs) && (forall c :: c in cs ==> c.i < |supp|)
    && (forall c :: c in cs ==> Replaceable(g, nodes, supp, func.id, GateEdges(g, cond), c))
    && (forall c :: Replaceable(g, nodes, supp, func.id, GateEdges(g, cond), c) ==> exists d :: d in cs && d.i == c.i)
    && StandsFor(g, h, nodes, supp, cs, func.id, NotCond(res, func.compl))
  }

  lemma LastInCone(nodes: seq<nat>)
    requires nodes != []
    ensures nodes[|nodes| - 1] in nodes
  {
  }

  // What passes the test is about a listed variable.
  lemma AllListed(f: Table, care: Table, n: nat, cs: seq<Choice>)
    requires forall i ::
      0 <= i < n && (Chosen(f, care, n, Choice(i, false)) || Chosen(f, care, n, Choice(i, true))) ==>
      exists c :: c in cs && c.i == i
    ensures forall c :: Chosen(f, care, n, c) ==> exists d :: d in cs && d.i == c.i
  {
    forall c | Chosen(f, care, n, c) ensures exists d :: d in cs && d.i == c.i
    {
      assert c.i < n && c == Choice(c.i, c.b);
      assert c.b == false || c.b == true;
    }
  }

  lemma ChosenInside(f: Table, care: Table, n: nat, cs: seq<Choice>)
    requires forall c :: c in cs ==> Chosen(f, care, n, c)
    ensures forall c :: c in cs ==> c.i < n
  {
  }

  // The rebuilt cone has the value of the old one where the gate is true.
  lemma MinimizedRight(g: Graph, h: Graph, nodes: seq<nat>, supp: seq<nat>, cs: seq<Choice>, data: map<nat, Table>,
      gate: seq<Edge>, e: Edge)
    requires WellFormed(g) && WellFormed(h) && Cone(g, nodes, supp) && nodes != []
      && forall l :: l in gate ==> l.id in supp
    requires forall id :: id in nodes || id in supp ==> id in data && TableOf(g, nodes, supp, id, data[id])
    requires DistinctChoices(cs) && (forall c :: c in cs ==> c.i < |supp|)
    requires forall c ::
      c in cs ==> nodes[|nodes| - 1] in data && Chosen(data[nodes[|nodes| - 1]], CareTable(data, gate), |supp|, c)
    requires StandsFor(g, h, nodes, supp, cs, nodes[|nodes| - 1], e)
    ensures (forall l :: l in gate ==> Inside(g, l)) && nodes[|nodes| - 1] < |g|
    ensures forall x :: OrValue(g, gate, x) ==> EdgeValue(h, e, x) == Value(g, nodes[|nodes| - 1], x)
  {
    var root := nodes[|nodes| - 1];
    assert root in nodes;
    var f, care := data[root], CareTable(data, gate);
    CareIsOr(g, nodes, supp, data, gate);
    var n := |supp|;
    forall l | l in gate ensures Inside(g, l)
    {
      CareMeaning(g, nodes, supp, data, gate, []);
    }
    forall x | OrValue(g, gate, x) ensures EdgeValue(h, e, x) == Value(g, root, x)
    {
      var v := Leaves(g, supp, x);
      CareMeaning(g, nodes, supp, data, gate, x);
      ChoicesTogether(f, care, GateChoices(supp, gate), n, cs, v);
      ConeIsFunction(g, nodes, supp, root, x);
      assert TableOf(g, nodes, supp, root, f);
    }
  }

  // ---- Collecting the support ----

  lemma SupportIn(g: Graph, nodes: seq<nat>, supp: seq<nat>)
    requires Cone(g, nodes, supp)
    ensures forall id :: id in supp ==> id < |g|
  {
  }

  ghost predicate SupportSoFar(g: Graph, nodes: seq<nat>, supp: seq<nat>, i: nat)
  {
    && (forall k :: 0 <= k < |nodes| ==> nodes[k] < |g| && g[nodes[k]].And?)
    && (forall id :: id in supp ==> 0 < id < |g| && id !in nodes)
    && (forall a, b :: 0 <= a < b < |supp| ==> supp[a] != supp[b])
    && (forall k :: 0 <= k < i && k < |nodes| ==> g[nodes[k]].child0.id in nodes || g[nodes[k]].child0.id in supp)
    && (forall k :: 0 <= k < i && k < |nodes| ==> g[nodes[k]].child1.id in nodes || g[nodes[k]].child1.id in supp)
  }

  lemma SupportNone(g: Graph, nodes: seq<nat>, inside: set<nat>)
    requires Ordered(g, nodes, inside)
    ensures SupportSoFar(g, nodes, [], 0)
  {
  }

  lemma SupportMore(g: Graph, nodes: seq<nat>, supp: seq<nat>, i: nat, id: nat)
    requires SupportSoFar(g, nodes, supp, i) && 0 < id < |g| && id !in nodes && id !in supp
    ensures SupportSoFar(g, nodes, supp + [id], i)
  {
    assert forall x :: x in supp + [id] <==> x in supp || x == id;
  }

  lemma SupportStep(g: Graph, nodes: seq<nat>, supp: seq<nat>, i: nat)
    requires SupportSoFar(g, nodes, supp, i) && i < |nodes|
    requires g[nodes[i]].child0.id in nodes || g[nodes[i]].child0.id in supp
    requires g[nodes[i]].child1.id in nodes || g[nodes[i]].child1.id in supp
    ensures SupportSoFar(g, nodes, supp, i + 1)
  {
  }

  lemma OrderedAt(g: Graph, nodes: seq<nat>, inside: set<nat>, i: nat)
    requires WellFormed(g) && i < |nodes| && Ordered(g, nodes, inside)
    ensures nodes[i] < |g| && g[nodes[i]].And? && 0 < g[nodes[i]].child0.id < |g| && 0 < g[nodes[i]].child1.id < |g|
  {
  }

  lemma SupportDone(g: Graph, nodes: seq<nat>, supp: seq<nat>, inside: set<nat>)
    requires SupportSoFar(g, nodes, supp, |nodes|) && Ordered(g, nodes, inside)
    ensures Cone(g, nodes, supp)
  {
  }

  ghost function GateIds(gate: seq<Edge>): set<nat>
  {
    set e | e in gate :: e.id
  }

  // Marked nodes are those collected so far and, above `id`, those still being
  // worked on; all others in `inside` wait with the previous mark.
  ghost predicate Walking(g: Graph, t: seq<nat>, now: nat, nodes: seq<nat>, inside: set<nat>, id: nat)
  {
    && |t| == |g|
    && (forall k :: k in inside ==> k < |g| && g[k].And? && (t[k] == now || t[k] + 1 == now))
    && (forall k :: 0 <= k < |g| && (t[k] == now || t[k] + 1 == now) ==> k in inside)
    && (forall k :: k in nodes ==> k < |g| && t[k] == now)
    && (forall k :: 0 <= k <= id && k < |g| && t[k] == now ==> k in nodes)
  }

  lemma NotListed(g: Graph, t: seq<nat>, now: nat, nodes: seq<nat>, inside: set<nat>, id: nat)
    requires Walking(g, t, now, nodes, inside, id) && id < |t| && t[id] != now
    ensures id !in nodes
  {
  }

  // A child of one of the nodes.
  ghost predicate ChildOf(g: Graph, nodes: seq<nat>, id: nat)
  {
    exists n :: n in nodes && n < |g| && g[n].And? && (g[n].child0.id == id || g[n].child1.id == id)
  }

  lemma ChildrenOf(g: Graph, nodes: seq<nat>, i: nat)
    requires i < |nodes| && nodes[i] < |g| && g[nodes[i]].And?
    ensures ChildOf(g, nodes, g[nodes[i]].child0.id) && ChildOf(g, nodes, g[nodes[i]].child1.id)
  {
    assert nodes[i] in nodes;
  }

  lemma SupportIsAll(g: Graph, nodes: seq<nat>, supp: seq<nat>)
    requires SupportSoFar(g, nodes, supp, |nodes|) && forall id :: id in supp ==> ChildOf(g, nodes, id)
    ensures forall id :: id in supp <==> id !in nodes && ChildOf(g, nodes, id)
  {
    forall id | id !in nodes && ChildOf(g, nodes, id) ensures id in supp
    {
      var n :| n in nodes && n < |g| && g[n].And? && (g[n].child0.id == id || g[n].child1.id == id);
      var k :| 0 <= k < |nodes| && nodes[k] == n;
    }
  }

  // Every node marked since `t` is in `r`, and no mark was lost.
  ghost predicate NewMarks(t: seq<nat>, t': seq<nat>, now: nat, r: seq<nat>)
  {
    |t'| == |t| && forall k ::
      0 <= k < |t| ==> (t'[k] == now ==> t[k] == now || k in r) && (t[k] == now ==> t'[k] == now)
  }

  lemma NoNewMarks(t: seq<nat>, now: nat, r: seq<nat>)
    ensures NewMarks(t, t, now, r)
  {
  }

  lemma WalkingAt(g: Graph, t: seq<nat>, now: nat, nodes: seq<nat>, inside: set<nat>, id: nat)
    requires Walking(g, t, now, nodes, inside, id) && id < |g|
    ensures id in inside <==> t[id] == now || t[id] + 1 == now
    ensures id in inside ==> g[id].And?
    ensures t[id] == now ==> id in nodes
    ensures t[id] != now ==> id !in nodes
  {
  }

  // Going down to a child of a node just marked.
  lemma WalkDown(g: Graph, t0: seq<nat>, t: seq<nat>, now: nat, nodes: seq<nat>, r: seq<nat>, inside: set<nat>,
      id: nat, child: nat)
    requires Walking(g, t0, now, nodes, inside, id) && id < |g| && t0[id] + 1 == now && child < id && nodes <= r
    requires (t == t0[id := now] && r == nodes)
      || (NewMarks(t0[id := now], t, now, r) && exists c: nat :: Walking(g, t, now, r, inside, c))
    ensures Walking(g, t, now, r, inside, child)
  {
    forall k | 0 <= k <= child && k < |g| && t[k] == now ensures k in r
    {
      assert t0[id := now][k] == t0[k];
    }
  }

  lemma WalkDone(g: Graph, t0: seq<nat>, t1: seq<nat>, t: seq<nat>, now: nat, nodes: seq<nat>, r1: seq<nat>,
      r: seq<nat>, inside: set<nat>, id: nat)
    requires Walking(g, t0, now, nodes, inside, id) && id < |g| && t0[id] + 1 == now && nodes <= r1 <= r
    requires NewMarks(t0[id := now], t1, now, r1) && NewMarks(t1, t, now, r)
    requires exists c: nat :: Walking(g, t, now, r, inside, c)
    ensures Walking(g, t, now, r + [id], inside, id) && NewMarks(t0, t, now, r + [id])
  {
    var r' := r + [id];
    assert forall k :: k in r1 ==> k in r;
    assert forall k :: k in nodes ==> k in r;
    assert forall k :: k in r' <==> k in r || k == id;
    var u := t0[id := now];
    forall k | 0 <= k < |g| && k != id ensures u[k] == t0[k]
    {
    }
    assert u[id] == now;
    forall k | 0 <= k <= id && k < |g| && t[k] == now ensures k in r'
    {
    }
  }
}
