// The part of a cone that leads to a given set of nodes, and what is reached from it.
module SupportCones {
  import opened Aigs

  // Whether the node is in the gate or a way down from it leads there.
  ghost predicate Leads(g: Graph, gate: set<nat>, id: nat)
    requires WellFormed(g) && id < |g|
    decreases id
  {
    id in gate || (g[id].And? && (Leads(g, gate, g[id].child0.id) || Leads(g, gate, g[id].child1.id)))
  }

  // The nodes on the ways down, which end at the gate.
  ghost function Reach(g: Graph, gate: set<nat>, id: nat): (s: set<nat>)
    requires WellFormed(g) && id < |g|
    ensures id in s && forall k :: k in s ==> k <= id
    decreases id
  {
    if id in gate || !g[id].And? then {id}
    else {id} + Reach(g, gate, g[id].child0.id) + Reach(g, gate, g[id].child1.id)
  }

  // The nodes between the root and the gate, the gate excluded.
  ghost function Inner(g: Graph, gate: set<nat>, root: nat): (s: set<nat>)
    requires WellFormed(g) && root < |g|
  {
    set k | k in Reach(g, gate, root) && k !in gate && Leads(g, gate, k)
  }

  // The children of these nodes that are not among them.
  ghost function Around(g: Graph, nodes: set<nat>): (s: set<nat>)
    requires WellFormed(g)
  {
    (set k | k in nodes && k < |g| && g[k].And? && g[k].child0.id !in nodes :: g[k].child0.id)
    + (set k | k in nodes && k < |g| && g[k].And? && g[k].child1.id !in nodes :: g[k].child1.id)
  }

  lemma {:induction false} ReachInside(g: Graph, gate: set<nat>, root: nat, id: nat)
    requires WellFormed(g) && root < |g| && id in Reach(g, gate, root)
    ensures Reach(g, gate, id) <= Reach(g, gate, root)
    decreases root
  {
    if id != root {
      var a, b := g[root].child0.id, g[root].child1.id;
      if id in Reach(g, gate, a) {
        ReachInside(g, gate, a, id);
      } else {
        ReachInside(g, gate, b, id);
      }
    }
  }

  lemma {:induction false} ReachLeads(g: Graph, gate: set<nat>, root: nat, id: nat)
    requires WellFormed(g) && root < |g| && id in Reach(g, gate, root) && Leads(g, gate, id)
    ensures Leads(g, gate, root)
    decreases root
  {
    if id != root {
      var a, b := g[root].child0.id, g[root].child1.id;
      if id in Reach(g, gate, a) {
        ReachLeads(g, gate, a, id);
      } else {
        ReachLeads(g, gate, b, id);
      }
    }
  }

  // A set of inner nodes that holds the root, and with each node its inner children,
  // holds all inner nodes.
  lemma {:induction false} InnerAll(g: Graph, gate: set<nat>, root: nat, nodes: set<nat>, id: nat, k: nat)
    requires WellFormed(g) && root < |g| && id in nodes && id in Inner(g, gate, root)
    requires forall n :: n in nodes ==> n < |g| && g[n].And?
    requires forall n :: n in nodes && g[n].child0.id in Inner(g, gate, root) ==> g[n].child0.id in nodes
    requires forall n :: n in nodes && g[n].child1.id in Inner(g, gate, root) ==> g[n].child1.id in nodes
    requires k in Reach(g, gate, id) && k in Inner(g, gate, root)
    ensures k in nodes
    decreases id
  {
    if k != id {
      var a, b := g[id].child0.id, g[id].child1.id;
      var c := if k in Reach(g, gate, a) then a else b;
      ReachLeads(g, gate, c, k);
      ReachInside(g, gate, root, id);
      assert c in Reach(g, gate, root);
      InnerAll(g, gate, root, nodes, c, k);
    }
  }

  // ---- The marks while the cone is walked ----

  ghost function Visited(g: Graph, t: seq<nat>, now: nat): set<nat>
  {
    set k | 0 <= k < |g| && k < |t| && (t[k] == now || t[k] + 1 == now)
  }

  // Current marks are on nodes that lead to the gate. Up to `id`, previous ones are on
  // nodes that do not, and below visited nodes everything is visited.
  ghost predicate Walked(g: Graph, gate: set<nat>, t: seq<nat>, now: nat, id: nat)
    requires WellFormed(g)
  {
    && |t| == |g| && now >= 1 && (forall k :: k in gate ==> k < |g| && t[k] == now)
    && (forall k :: 0 <= k < |g| && t[k] == now ==> Leads(g, gate, k))
    && (forall k :: 0 <= k <= id && k < |g| && t[k] + 1 == now ==> !Leads(g, gate, k))
    && (forall k :: 0 <= k <= id && k in Visited(g, t, now) ==> Reach(g, gate, k) <= Visited(g, t, now))
  }

  // What the walk from node `c` changes.
  ghost predicate WalkedFrom(g: Graph, gate: set<nat>, t: seq<nat>, t': seq<nat>, now: nat, c: nat)
    requires WellFormed(g) && c < |g|
  {
    && |t'| == |t| == |g| && Walked(g, gate, t', now, c)
    && Visited(g, t', now) == Visited(g, t, now) + Reach(g, gate, c)
    && forall k :: 0 <= k < |t| && k in Visited(g, t, now) ==> t'[k] == t[k]
  }

  // Nothing above the node is disturbed.
  lemma WalkedOn(g: Graph, gate: set<nat>, t: seq<nat>, t': seq<nat>, now: nat, c: nat, m: nat)
    requires WellFormed(g) && c < |g| && Walked(g, gate, t, now, m) && WalkedFrom(g, gate, t, t', now, c)
    ensures Walked(g, gate, t', now, m)
  {
    hide Leads, Reach;
    forall k | 0 <= k <= m && k < |g| && t'[k] + 1 == now ensures !Leads(g, gate, k)
    {
      assert k in Visited(g, t', now);
      if k in Visited(g, t, now) {
        assert t'[k] == t[k];
      } else {
        assert k in Reach(g, gate, c);
      }
    }
    forall k | 0 <= k <= m && k in Visited(g, t', now) ensures Reach(g, gate, k) <= Visited(g, t', now)
    {
      if k !in Visited(g, t, now) {
        assert k in Reach(g, gate, c);
      }
    }
  }

  // A node that was visited before.
  lemma AlreadyWalked(g: Graph, gate: set<nat>, t: seq<nat>, now: nat, id: nat)
    requires WellFormed(g) && id < |g| && Walked(g, gate, t, now, id) && id in Visited(g, t, now)
    ensures WalkedFrom(g, gate, t, t, now, id) && (t[id] == now <==> Leads(g, gate, id))
  {
    assert Visited(g, t, now) == Visited(g, t, now) + Reach(g, gate, id);
  }

  lemma WalkStart(g: Graph, gate: set<nat>, t: seq<nat>, now: nat, id: nat)
    requires WellFormed(g) && 0 < id < |g| && Walked(g, gate, t, now, id) && id !in Visited(g, t, now) && now >= 1
    ensures id !in gate
    ensures g[id].And? ==> Walked(g, gate, t[id := now - 1], now, g[id].child0.id)
    ensures Visited(g, t[id := now - 1], now) == Visited(g, t, now) + {id}
    ensures !g[id].And? ==> !Leads(g, gate, id) && WalkedFrom(g, gate, t, t[id := now - 1], now, id)
  {
    hide Leads, Reach;
    var u := t[id := now - 1];
    assert Visited(g, u, now) == Visited(g, t, now) + {id};
    if !g[id].And? {
      assert !Leads(g, gate, id) && Reach(g, gate, id) == {id} by {
        LeafNode(g, gate, id);
      }
    }
  }

  lemma LeafNode(g: Graph, gate: set<nat>, id: nat)
    requires WellFormed(g) && id < |g| && !g[id].And? && id !in gate
    ensures !Leads(g, gate, id) && Reach(g, gate, id) == {id}
  {
  }

  lemma InnerNode(g: Graph, gate: set<nat>, id: nat)
    requires WellFormed(g) && id < |g| && g[id].And? && id !in gate
    ensures Leads(g, gate, id) <==> Leads(g, gate, g[id].child0.id) || Leads(g, gate, g[id].child1.id)
    ensures Reach(g, gate, id) == {id} + Reach(g, gate, g[id].child0.id) + Reach(g, gate, g[id].child1.id)
  {
  }

  // Both children have been walked, and the node gets its mark.
  lemma WalkEnd(g: Graph, gate: set<nat>, t: seq<nat>, t1: seq<nat>, t2: seq<nat>, now: nat, id: nat)
    requires WellFormed(g) && 0 < id < |g| && g[id].And? && id !in gate && now >= 1
    requires |t| == |g| && Walked(g, gate, t, now, id) && id !in Visited(g, t, now)
    requires WalkedFrom(g, gate, t[id := now - 1], t1, now, g[id].child0.id)
    requires WalkedFrom(g, gate, t1, t2, now, g[id].child1.id)
    ensures WalkedFrom(g, gate, t, if Leads(g, gate, id) then t2[id := now] else t2, now, id)
  {
    hide Leads, Reach, Walked;
    var u := t[id := now - 1];
    var a, b := g[id].child0.id, g[id].child1.id;
    InnerNode(g, gate, id);
    assert Visited(g, u, now) == Visited(g, t, now) + {id};
    var r := if Leads(g, gate, id) then t2[id := now] else t2;
    assert t2[id] == t1[id] == u[id];
    assert Visited(g, r, now) == Visited(g, t2, now);
    assert Visited(g, r, now) == Visited(g, t, now) + Reach(g, gate, id);
    WalkedUp(g, gate, t, t1, t2, now, id);
    assert forall k :: 0 <= k < |t| && k in Visited(g, t, now) ==> k != id && t[k] == u[k];
  }

  lemma WalkedUp(g: Graph, gate: set<nat>, t: seq<nat>, t1: seq<nat>, t2: seq<nat>, now: nat, id: nat)
    requires WellFormed(g) && 0 < id < |g| && g[id].And? && id !in gate && now >= 1
    requires |t| == |g| && Walked(g, gate, t, now, id) && id !in Visited(g, t, now)
    requires WalkedFrom(g, gate, t[id := now - 1], t1, now, g[id].child0.id)
    requires WalkedFrom(g, gate, t1, t2, now, g[id].child1.id)
    ensures Walked(g, gate, if Leads(g, gate, id) then t2[id := now] else t2, now, id)
  {
    var u := t[id := now - 1];
    var a, b := g[id].child0.id, g[id].child1.id;
    StartedBelow(g, gate, t, now, id);
    hide Leads, Reach, Walked, Visited;
    WalkedOn(g, gate, u, t1, now, a, id - 1);
    WalkedOn(g, gate, t1, t2, now, b, id - 1);
    assert t2[id] == t1[id] == u[id];
    MarkTop(g, gate, t2, now, id);
  }

  lemma StartedBelow(g: Graph, gate: set<nat>, t: seq<nat>, now: nat, id: nat)
    requires WellFormed(g) && 0 < id < |g| && Walked(g, gate, t, now, id) && id !in Visited(g, t, now)
    ensures |t| == |g| && now >= 1 && Walked(g, gate, t[id := now - 1], now, id - 1)
    ensures Visited(g, t[id := now - 1], now) == Visited(g, t, now) + {id}
  {
    hide Leads, Reach;
    assert Visited(g, t[id := now - 1], now) == Visited(g, t, now) + {id};
  }

  lemma MarkTop(g: Graph, gate: set<nat>, t: seq<nat>, now: nat, id: nat)
    requires WellFormed(g) && 0 < id < |g| == |t| && g[id].And? && id !in gate && now >= 1 && t[id] + 1 == now
    requires Walked(g, gate, t, now, id - 1)
    requires Reach(g, gate, g[id].child0.id) + Reach(g, gate, g[id].child1.id) <= Visited(g, t, now)
    ensures Walked(g, gate, if Leads(g, gate, id) then t[id := now] else t, now, id)
  {
    hide Leads, Reach;
    InnerNode(g, gate, id);
    var r := if Leads(g, gate, id) then t[id := now] else t;
    assert Visited(g, r, now) == Visited(g, t, now);
  }

  // From the gate alone to the whole cone.
  lemma WalkBegin(g: Graph, gate: set<nat>, t: seq<nat>, now: nat, id: nat)
    requires WellFormed(g) && |t| == |g| && now >= 1 && (forall k :: k in gate ==> k < |g|)
    requires forall k :: 0 <= k < |g| ==> (t[k] == now <==> k in gate) && t[k] + 1 != now
    ensures Walked(g, gate, t, now, id) && Visited(g, t, now) == gate
  {
  }

  lemma WalkedInner(g: Graph, gate: set<nat>, t: seq<nat>, t': seq<nat>, now: nat, root: nat)
    requires WellFormed(g) && root < |g| && WalkedFrom(g, gate, t, t', now, root) && Visited(g, t, now) == gate
    ensures forall k :: 0 <= k < |g| ==> (t'[k] == now <==> k in gate || k in Inner(g, gate, root))
  {
    hide Leads, Reach;
    forall k | 0 <= k < |g| ensures t'[k] == now <==> k in gate || k in Inner(g, gate, root)
    {
      if k in Reach(g, gate, root) && Leads(g, gate, k) {
        assert k in Visited(g, t', now);
      }
      if t'[k] == now {
        assert k in Visited(g, t', now);
      }
    }
  }
}
