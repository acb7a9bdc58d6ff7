// Clusters of nodes: a partition of the gates of a circuit that is merged step by
// step, and the graph of the clusters, which must stay free of cycles.
module Clusters {
  import opened SolverTypes
  import opened Vectors
  import Sets

  // Primary inputs have no fanins; fanouts are the transpose of the fanins.
  datatype Net = Net(isInput: seq<bool>, inputs: seq<seq<nat>>, outputs: seq<seq<nat>>)

  ghost predicate NetOk(net: Net)
  {
    && |net.inputs| == |net.outputs| == |net.isInput|
    && (forall n: nat, i: nat {:trigger i in net.inputs[n]} ::
      n < |net.inputs| && i in net.inputs[n] ==> i < |net.inputs| && n in net.outputs[i])
    && (forall n: nat, o: nat {:trigger o in net.outputs[n]} ::
      n < |net.outputs| && o in net.outputs[n] ==> o < |net.inputs| && n in net.inputs[o])
    && (forall n: nat :: n < |net.inputs| && net.isInput[n] ==> net.inputs[n] == [])
  }

  lemma NetRange(net: Net, n: nat)
    requires NetOk(net) && n < |net.inputs|
    ensures |net.outputs| == |net.isInput| == |net.inputs|
    ensures forall i: nat :: i in net.inputs[n] ==> i < |net.inputs|
    ensures forall o: nat :: o in net.outputs[n] ==> o < |net.inputs| && n in net.inputs[o]
  {
  }

  // The clusters in use, the nodes and the input nodes of each, and for each node its
  // cluster.
  datatype Clustering = Clustering(owner: seq<nat>, nodes: seq<seq<nat>>, ins: seq<set<nat>>, all: set<nat>)

  // The fanins of the nodes that are not among them.
  ghost function OutsideFanins(net: Net, ns: seq<nat>): set<nat>
  {
    set n, i | n in ns && n < |net.inputs| && i in net.inputs[n] && i !in ns :: i
  }

  ghost predicate ClusterOk(net: Net, k: Clustering, c: nat)
  {
    && c < |k.nodes| == |k.ins| && NoRepeats(k.nodes[c])
    && (forall n :: n in k.nodes[c] ==>
      n < |net.inputs| && n < |net.isInput| && !net.isInput[n] && n < |k.owner| && k.owner[n] == c)
    && k.ins[c] == OutsideFanins(net, k.nodes[c])
  }

  // Every gate lies in exactly the cluster recorded for it, and input nodes are the
  // fanins from outside.
  ghost predicate Partition(net: Net, k: Clustering)
  {
    && |k.owner| == |net.inputs|
    && (forall c :: c in k.all ==> ClusterOk(net, k, c))
    && (forall n :: 0 <= n < |net.inputs| && n < |net.isInput| && !net.isInput[n] ==>
      k.owner[n] in k.all && InCluster(k, n, k.owner[n]))
  }

  ghost predicate InCluster(k: Clustering, n: nat, c: nat)
  {
    c < |k.nodes| && n in k.nodes[c]
  }

  // Some node of `d` has a fanin in `c`.
  ghost predicate Feeds(net: Net, k: Clustering, c: nat, d: nat)
  {
    c in k.all && d in k.all && exists n: nat, i: nat :: FeedsBy(net, k, c, d, n, i)
  }

  ghost predicate FeedsBy(net: Net, k: Clustering, c: nat, d: nat, n: nat, i: nat)
  {
    && InCluster(k, n, d) && n < |net.inputs| && i in net.inputs[n]
    && i < |k.owner| && i < |net.isInput| && !net.isInput[i] && k.owner[i] == c
  }

  // ---- Cycles ----

  ghost predicate Ranked(net: Net, k: Clustering, rank: seq<nat>)
  {
    forall c: nat, d: nat :: Feeds(net, k, c, d) && c != d ==> c < |rank| && d < |rank| && rank[c] < rank[d]
  }

  // The clusters can be ordered so that each is fed only by earlier ones.
  ghost predicate Acyclic(net: Net, k: Clustering)
  {
    exists rank: seq<nat> :: Ranked(net, k, rank)
  }

  ghost predicate Path(net: Net, k: Clustering, p: seq<nat>)
  {
    |p| > 0 && forall i :: 0 <= i < |p| - 1 ==> Feeds(net, k, p[i], p[i + 1])
  }

  ghost predicate PathFromTo(net: Net, k: Clustering, p: seq<nat>, c: nat, d: nat)
  {
    Path(net, k, p) && p[0] == c && p[|p| - 1] == d
  }

  // `d` depends on `c`, possibly through other clusters.
  ghost predicate Reaches(net: Net, k: Clustering, c: nat, d: nat)
  {
    exists p: seq<nat> :: PathFromTo(net, k, p, c, d)
  }

  lemma ReachesSelf(net: Net, k: Clustering, c: nat)
    ensures Reaches(net, k, c, c)
  {
    assert PathFromTo(net, k, [c], c, c);
  }

  lemma ReachesBefore(net: Net, k: Clustering, c: nat, d: nat, e: nat)
    requires Feeds(net, k, c, d) && Reaches(net, k, d, e)
    ensures Reaches(net, k, c, e)
  {
    var p: seq<nat> :| PathFromTo(net, k, p, d, e);
    var q := [c] + p;
    forall i | 0 <= i < |q| - 1 ensures Feeds(net, k, q[i], q[i + 1])
    {
      if i > 0 {
        assert Feeds(net, k, p[i - 1], p[i]);
      }
    }
    assert PathFromTo(net, k, q, c, e);
  }

  lemma ReachesAfter(net: Net, k: Clustering, c: nat, d: nat, e: nat)
    requires Reaches(net, k, c, d) && Feeds(net, k, d, e)
    ensures Reaches(net, k, c, e)
  {
    var p: seq<nat> :| PathFromTo(net, k, p, c, d);
    var q := p + [e];
    forall i | 0 <= i < |q| - 1 ensures Feeds(net, k, q[i], q[i + 1])
    {
      if i < |p| - 1 {
        assert Feeds(net, k, p[i], p[i + 1]);
      }
    }
    assert PathFromTo(net, k, q, c, e);
  }

  lemma TailPath(net: Net, k: Clustering, p: seq<nat>)
    requires Path(net, k, p) && |p| > 1
    ensures Path(net, k, p[1..])
  {
    var q := p[1..];
    forall i | 0 <= i < |q| - 1 ensures Feeds(net, k, q[i], q[i + 1])
    {
      assert Feeds(net, k, p[i + 1], p[i + 2]);
    }
  }

  lemma FrontPath(net: Net, k: Clustering, p: seq<nat>)
    requires Path(net, k, p) && |p| > 1
    ensures Path(net, k, p[..|p| - 1])
  {
    var q := p[..|p| - 1];
    forall i | 0 <= i < |q| - 1 ensures Feeds(net, k, q[i], q[i + 1])
    {
      assert Feeds(net, k, p[i], p[i + 1]);
    }
  }

  // A set that contains the end of a path and everything feeding its elements contains
  // the whole path.
  lemma {:induction false} ClosedBefore(net: Net, k: Clustering, s: set<nat>, p: seq<nat>)
    requires Path(net, k, p) && p[|p| - 1] in s
    requires forall c: nat, d: nat :: Feeds(net, k, c, d) && d in s ==> c in s
    ensures p[0] in s
    decreases |p|
  {
    if |p| > 1 {
      assert Feeds(net, k, p[|p| - 2], p[|p| - 1]);
      var q := p[..|p| - 1];
      FrontPath(net, k, p);
      ClosedBefore(net, k, s, q);
    }
  }

  lemma {:induction false} ClosedAfter(net: Net, k: Clustering, s: set<nat>, p: seq<nat>)
    requires Path(net, k, p) && p[0] in s
    requires forall c: nat, d: nat :: Feeds(net, k, c, d) && c in s ==> d in s
    ensures p[|p| - 1] in s
    decreases |p|
  {
    if |p| > 1 {
      assert Feeds(net, k, p[0], p[1]);
      var q := p[1..];
      TailPath(net, k, p);
      ClosedAfter(net, k, s, q);
    }
  }

  // ---- Merging two clusters ----

  // `k'` is `k` with the nodes of `b` moved to `a`.
  ghost predicate MergedInto(k: Clustering, k': Clustering, a: nat, b: nat)
  {
    && a in k.all && b in k.all && a != b && a < |k.nodes| && b < |k.nodes|
    && k'.all == k.all - {b} && |k'.owner| == |k.owner| && |k'.nodes| == |k.nodes|
    && k'.nodes[a] == k.nodes[a] + k.nodes[b]
    && (forall c :: 0 <= c < |k.nodes| && c != a ==> k'.nodes[c] == k.nodes[c])
    && (forall n :: 0 <= n < |k.owner| ==> k'.owner[n] == if n in k.nodes[b] then a else k.owner[n])
  }

  function Renamed(c: nat, a: nat, b: nat): nat
  {
    if c == b then a else c
  }

  // Edges between clusters are those there were, with `b` renamed to `a`.
  lemma FeedsForth(net: Net, k: Clustering, k': Clustering, a: nat, b: nat, c: nat, d: nat)
    requires Partition(net, k) && MergedInto(k, k', a, b) && Feeds(net, k, c, d)
    ensures Feeds(net, k', Renamed(c, a, b), Renamed(d, a, b))
  {
    var n: nat, i: nat :| FeedsBy(net, k, c, d, n, i);
    assert ClusterOk(net, k, d) && k.owner[i] in k.all && InCluster(k, i, k.owner[i]);
    assert FeedsBy(net, k', Renamed(c, a, b), Renamed(d, a, b), n, i);
  }

  lemma FeedsBack(net: Net, k: Clustering, k': Clustering, a: nat, b: nat, c: nat, d: nat) returns (c0: nat, d0: nat)
    requires Partition(net, k) && MergedInto(k, k', a, b) && Feeds(net, k', c, d)
    ensures Feeds(net, k, c0, d0) && c == Renamed(c0, a, b) && d == Renamed(d0, a, b)
  {
    var n: nat, i: nat :| FeedsBy(net, k', c, d, n, i);
    c0 := k.owner[i];
    assert c0 in k.all && InCluster(k, i, c0);
    d0 := if d == a && n in k.nodes[b] then b else d;
    assert FeedsBy(net, k, c0, d0, n, i);
  }

  // Cluster `x` lies on a way from `a` to `b`.
  ghost predicate OnTheWay(net: Net, k: Clustering, a: nat, x: nat, b: nat)
  {
    x != a && x != b && Reaches(net, k, a, x) && Reaches(net, k, x, b)
  }

  // Some third cluster lies on a way from one of the two to the other.
  ghost predicate Between(net: Net, k: Clustering, a: nat, b: nat)
  {
    exists x: nat :: OnTheWay(net, k, a, x, b) || OnTheWay(net, k, b, x, a)
  }

  // The clusters that lead to one of the two.
  ghost function Leading(net: Net, k: Clustering, a: nat, b: nat): set<nat>
  {
    set c | c in k.all && c != a && c != b && (Reaches(net, k, c, a) || Reaches(net, k, c, b))
  }

  // An order for the merged clusters: those leading to one of the two, then the merged
  // one, then the rest.
  ghost function MergedRank(net: Net, k: Clustering, rank: seq<nat>, top: nat, a: nat, b: nat): seq<nat>
  {
    seq(|rank| + a + 1, c requires 0 <= c =>
      var r := if c < |rank| then rank[c] else 0;
      if c in Leading(net, k, a, b) then r else if c == a then top else top + 1 + r)
  }

  ghost function Bound(rank: seq<nat>): (top: nat)
    ensures forall i :: 0 <= i < |rank| ==> rank[i] < top
  {
    if rank == [] then 0
    else
      var rest := Bound(rank[..|rank| - 1]);
      if rank[|rank| - 1] < rest then rest else rank[|rank| - 1] + 1
  }

  // Along a path ranks rise.
  lemma {:induction false} RanksRise(net: Net, k: Clustering, rank: seq<nat>, p: seq<nat>)
    requires Ranked(net, k, rank) && Path(net, k, p)
    ensures p[0] != p[|p| - 1] ==> p[0] < |rank| && p[|p| - 1] < |rank| && rank[p[0]] < rank[p[|p| - 1]]
    decreases |p|
  {
    if |p| > 1 {
      assert Feeds(net, k, p[0], p[1]);
      var q := p[1..];
      TailPath(net, k, p);
      RanksRise(net, k, rank, q);
    }
  }

  // In an acyclic graph two clusters never reach each other.
  lemma OneWay(net: Net, k: Clustering, c: nat, d: nat)
    requires Acyclic(net, k) && Reaches(net, k, c, d) && Reaches(net, k, d, c)
    ensures c == d
  {
    var rank: seq<nat> :| Ranked(net, k, rank);
    var p: seq<nat> :| PathFromTo(net, k, p, c, d);
    var q: seq<nat> :| PathFromTo(net, k, q, d, c);
    RanksRise(net, k, rank, p);
    RanksRise(net, k, rank, q);
  }

  // Ways through the clusters survive the merge, up to renaming.
  lemma {:induction false} PathForth(net: Net, k: Clustering, k': Clustering, a: nat, b: nat, p: seq<nat>)
    requires Partition(net, k) && MergedInto(k, k', a, b) && Path(net, k, p)
    ensures Reaches(net, k', Renamed(p[0], a, b), Renamed(p[|p| - 1], a, b))
    decreases |p|
  {
    hide Feeds, Partition, MergedInto, Reaches;
    if |p| > 1 {
      assert Feeds(net, k, p[0], p[1]);
      var q := p[1..];
      TailPath(net, k, p);
      PathForth(net, k, k', a, b, q);
      FeedsForth(net, k, k', a, b, p[0], p[1]);
      ReachesBefore(net, k', Renamed(p[0], a, b), Renamed(p[1], a, b), Renamed(p[|p| - 1], a, b));
    } else {
      ReachesSelf(net, k', Renamed(p[0], a, b));
    }
  }

  lemma ReachesForth(net: Net, k: Clustering, k': Clustering, a: nat, b: nat, c: nat, d: nat)
    requires Partition(net, k) && MergedInto(k, k', a, b) && Reaches(net, k, c, d)
    ensures Reaches(net, k', Renamed(c, a, b), Renamed(d, a, b))
  {
    hide Partition, MergedInto;
    var p: seq<nat> :| PathFromTo(net, k, p, c, d);
    PathForth(net, k, k', a, b, p);
  }

  // What feeds a leading cluster leads too, and what feeds one of the two leads or is
  // one of them.
  lemma LeadingClosed(net: Net, k: Clustering, a: nat, b: nat, c: nat, d: nat)
    requires Acyclic(net, k) && !Between(net, k, a, b) && Feeds(net, k, c, d) && c != d
    ensures d in Leading(net, k, a, b) ==> c in Leading(net, k, a, b)
    ensures d == a || d == b ==> c in Leading(net, k, a, b) || c == a || c == b
  {
    hide Acyclic, Reaches;
    assert c in k.all;
    ReachesSelf(net, k, c);
    ReachesSelf(net, k, d);
    ReachesBefore(net, k, c, d, d);
    if d in Leading(net, k, a, b) {
      if Reaches(net, k, d, a) {
        ReachesBefore(net, k, c, d, a);
      } else {
        ReachesBefore(net, k, c, d, b);
      }
      LeadingIsThird(net, k, a, b, c, d);
    }
  }

  lemma Lies(net: Net, k: Clustering, a: nat, x: nat, b: nat)
    requires OnTheWay(net, k, a, x, b)
    ensures Between(net, k, a, b) && Between(net, k, b, a)
  {
  }

  // Neither of the two feeds a cluster that leads to one of them.
  lemma LeadingIsThird(net: Net, k: Clustering, a: nat, b: nat, c: nat, d: nat)
    requires Acyclic(net, k) && !Between(net, k, a, b) && Reaches(net, k, c, d) && d in Leading(net, k, a, b)
    ensures c != a && c != b
  {
    hide Acyclic, Reaches;
    if c == a || c == b {
      var other := if c == a then b else a;
      if Reaches(net, k, d, c) {
        OneWay(net, k, c, d);
      } else {
        Lies(net, k, c, d, other);
      }
    }
  }

  lemma MergedRanked(net: Net, k: Clustering, k': Clustering, a: nat, b: nat, rank: seq<nat>)
    requires Partition(net, k) && MergedInto(k, k', a, b) && Ranked(net, k, rank) && !Between(net, k, a, b)
    ensures Ranked(net, k', MergedRank(net, k, rank, Bound(rank), a, b))
  {
    hide Partition, MergedInto, Feeds, Leading, Bound;
    var top := Bound(rank);
    var now := MergedRank(net, k, rank, top, a, b);
    BoundAbove(rank);
    forall c: nat, d: nat | Feeds(net, k', c, d) && c != d ensures c < |now| && d < |now| && now[c] < now[d]
    {
      var c0, d0 := FeedsBack(net, k, k', a, b, c, d);
      LeadingClosed(net, k, a, b, c0, d0);
      NotLeading(net, k, a, b);
    }
  }

  lemma NotLeading(net: Net, k: Clustering, a: nat, b: nat)
    ensures a !in Leading(net, k, a, b) && b !in Leading(net, k, a, b)
  {
  }

  lemma BoundAbove(rank: seq<nat>)
    ensures forall i :: 0 <= i < |rank| ==> rank[i] < Bound(rank)
  {
  }

  // Merging keeps the graph acyclic exactly if no third cluster lies between the two.
  lemma MergeAcyclic(net: Net, k: Clustering, k': Clustering, a: nat, b: nat)
    requires Partition(net, k) && MergedInto(k, k', a, b)
    ensures Acyclic(net, k) ==> (Acyclic(net, k') <==> !Between(net, k, a, b))
  {
    hide Partition, MergedInto, Ranked, Reaches, MergedRank, Bound;
    if !Acyclic(net, k) {
    } else if !Between(net, k, a, b) {
      var rank: seq<nat> :| Ranked(net, k, rank);
      MergedRanked(net, k, k', a, b, rank);
    } else {
      var x: nat :| OnTheWay(net, k, a, x, b) || OnTheWay(net, k, b, x, a);
      var c, d := if OnTheWay(net, k, a, x, b) then a else b, if OnTheWay(net, k, a, x, b) then b else a;
      ReachesForth(net, k, k', a, b, c, x);
      ReachesForth(net, k, k', a, b, x, d);
      if Acyclic(net, k') {
        OneWay(net, k', a, x);
      }
    }
  }

  // ---- The worklists ----

  // The clusters that `c` depends on, without itself.
  ghost function FaninCone(net: Net, k: Clustering, c: nat): set<nat>
  {
    set d | d in k.all && d != c && Reaches(net, k, d, c)
  }

  ghost function FanoutCone(net: Net, k: Clustering, c: nat): set<nat>
  {
    set d | d in k.all && d != c && Reaches(net, k, c, d)
  }

  // The state of the backward walk: what was processed reaches `c`, and so does what
  // is still to be processed, which includes everything feeding the former.
  ghost predicate WalkingBack(net: Net, k: Clustering, c: nat, cone: set<nat>, todo: seq<nat>)
  {
    && (forall d :: d in cone || d in todo ==> d in k.all && Reaches(net, k, d, c))
    && (forall d: nat, x: nat :: d in cone && Feeds(net, k, x, d) ==> x in cone || x in todo)
    && (c in cone || c in todo)
  }

  ghost predicate WalkingForth(net: Net, k: Clustering, c: nat, cone: set<nat>, todo: seq<nat>)
  {
    && (forall d :: d in cone || d in todo ==> d in k.all && Reaches(net, k, c, d))
    && (forall d: nat, x: nat :: d in cone && Feeds(net, k, d, x) ==> x in cone || x in todo)
    && (c in cone || c in todo)
  }

  lemma BackStep(net: Net, k: Clustering, c: nat, cone: set<nat>, todo: seq<nat>, x: nat, more: seq<nat>)
    requires WalkingBack(net, k, c, cone, todo + [x])
    requires forall y: nat :: Feeds(net, k, y, x) ==> y in cone + {x} || y in more
    requires todo <= more && forall y: nat :: y in more ==> y in todo || Feeds(net, k, y, x)
    ensures WalkingBack(net, k, c, cone + {x}, more)
  {
    hide Feeds, Reaches;
    assert x in todo + [x];
    forall y: nat | y in more ensures y in k.all && Reaches(net, k, y, c)
    {
      if y in todo {
        assert y in todo + [x];
      } else {
        FeedsInside(net, k, y, x);
        ReachesBefore(net, k, y, x, c);
      }
    }
  }

  lemma ForthStep(net: Net, k: Clustering, c: nat, cone: set<nat>, todo: seq<nat>, x: nat, more: seq<nat>)
    requires WalkingForth(net, k, c, cone, todo + [x])
    requires forall y: nat :: Feeds(net, k, x, y) ==> y in cone + {x} || y in more
    requires todo <= more && forall y: nat :: y in more ==> y in todo || Feeds(net, k, x, y)
    ensures WalkingForth(net, k, c, cone + {x}, more)
  {
    hide Feeds, Reaches;
    assert x in todo + [x];
    forall y: nat | y in more ensures y in k.all && Reaches(net, k, c, y)
    {
      if y in todo {
        assert y in todo + [x];
      } else {
        FeedsInside(net, k, x, y);
        ReachesAfter(net, k, c, x, y);
      }
    }
  }

  lemma FeedsInside(net: Net, k: Clustering, c: nat, d: nat)
    requires Feeds(net, k, c, d)
    ensures c in k.all && d in k.all
  {
  }

  lemma WalkedBack(net: Net, k: Clustering, c: nat, cone: set<nat>)
    requires WalkingBack(net, k, c, cone, [])
    ensures cone - {c} == FaninCone(net, k, c)
  {
    hide Feeds;
    forall d | d in k.all && Reaches(net, k, d, c) ensures d in cone
    {
      var p: seq<nat> :| PathFromTo(net, k, p, d, c);
      ClosedBefore(net, k, cone, p);
    }
  }

  lemma WalkedForth(net: Net, k: Clustering, c: nat, cone: set<nat>)
    requires WalkingForth(net, k, c, cone, [])
    ensures cone - {c} == FanoutCone(net, k, c)
  {
    hide Feeds;
    forall d | d in k.all && Reaches(net, k, c, d) ensures d in cone
    {
      var p: seq<nat> :| PathFromTo(net, k, p, c, d);
      ClosedAfter(net, k, cone, p);
    }
  }

  // The clusters of the gates among the fanins of `n`.
  ghost predicate FaninOwner(net: Net, k: Clustering, n: nat, c: nat)
  {
    exists i: nat :: IsFaninOwner(net, k, n, i, c)
  }

  ghost predicate IsFaninOwner(net: Net, k: Clustering, n: nat, i: nat, c: nat)
  {
    n < |net.inputs| && i in net.inputs[n] && i < |k.owner| && i < |net.isInput| && !net.isInput[i] && k.owner[i] == c
  }

  // The clusters of the fanouts of `n`.
  ghost predicate FanoutOwner(net: Net, k: Clustering, n: nat, c: nat)
  {
    exists o: nat :: n < |net.outputs| && o in net.outputs[n] && o < |k.owner| && k.owner[o] == c
  }

  lemma FeedsByNode(net: Net, k: Clustering, c: nat, d: nat)
    requires Partition(net, k) && d in k.all
    ensures Feeds(net, k, c, d) <==> exists n: nat :: InCluster(k, n, d) && FaninOwner(net, k, n, c)
  {
    assert ClusterOk(net, k, d);
    if n: nat :| InCluster(k, n, d) && FaninOwner(net, k, n, c) {
      var i: nat :| IsFaninOwner(net, k, n, i, c);
      assert FeedsBy(net, k, c, d, n, i);
    }
    if Feeds(net, k, c, d) {
      var n: nat, i: nat :| FeedsBy(net, k, c, d, n, i);
      assert IsFaninOwner(net, k, n, i, c);
    }
  }

  lemma FeedsByFanout(net: Net, k: Clustering, c: nat, d: nat)
    requires NetOk(net) && Partition(net, k) && c in k.all
    ensures Feeds(net, k, c, d) <==> exists n: nat :: InCluster(k, n, c) && FanoutOwner(net, k, n, d)
  {
    assert ClusterOk(net, k, c);
    if n: nat :| InCluster(k, n, c) && FanoutOwner(net, k, n, d) {
      var o: nat :| n < |net.outputs| && o in net.outputs[n] && o < |k.owner| && k.owner[o] == d;
      assert !net.isInput[o] && InCluster(k, o, k.owner[o]);
      assert FeedsBy(net, k, c, d, o, n);
    }
    if Feeds(net, k, c, d) {
      var n: nat, i: nat :| FeedsBy(net, k, c, d, n, i);
      assert InCluster(k, i, k.owner[i]) && ClusterOk(net, k, d);
      assert n in net.outputs[i] && k.owner[n] == d;
      assert FanoutOwner(net, k, i, d);
    }
  }

  lemma ClusterFacts(net: Net, k: Clustering, c: nat)
    requires Partition(net, k) && c in k.all
    ensures c < |k.nodes| == |k.ins| && |k.owner| == |net.inputs|
    ensures forall n :: n in k.nodes[c] ==> n < |net.inputs|
    ensures NoRepeats(k.nodes[c]) && k.ins[c] == OutsideFanins(net, k.nodes[c])
  {
    assert ClusterOk(net, k, c);
  }

  // The clustering after the first `j` nodes of `moved` were added to cluster `a`.
  ghost predicate Moving(net: Net, k: Clustering, now: Clustering, a: nat, moved: seq<nat>, j: nat)
    requires a < |k.nodes| == |k.ins| && j <= |moved|
  {
    && now.nodes == k.nodes[a := k.nodes[a] + moved[..j]]
    && |now.ins| == |k.ins| && now.ins == k.ins[a := now.ins[a]]
    && |now.owner| == |k.owner|
    && (forall n :: 0 <= n < |k.owner| ==> now.owner[n] == if n in moved[..j] then a else k.owner[n])
    && (forall i :: i in now.ins[a] <==>
      (i in k.ins[a] || FaninOfFirst(net, moved, j, i)) && i !in k.nodes[a] && i !in moved[..j])
  }

  ghost predicate FaninOfFirst(net: Net, moved: seq<nat>, j: nat, i: nat)
    requires j <= |moved|
  {
    exists g :: 0 <= g < j && moved[g] < |net.inputs| && i in net.inputs[moved[g]]
  }

  lemma MovingStart(net: Net, k: Clustering, now: Clustering, a: nat, moved: seq<nat>)
    requires a < |k.nodes| == |k.ins| && now.nodes == k.nodes && now.ins == k.ins && now.owner == k.owner
    requires k.ins[a] == OutsideFanins(net, k.nodes[a])
    ensures Moving(net, k, now, a, moved, 0)
  {
    assert k.nodes[a] + moved[..0] == k.nodes[a];
  }

  lemma MovingStep(net: Net, k: Clustering, was: Clustering, now: Clustering, a: nat, moved: seq<nat>, j: nat)
    requires a < |k.nodes| == |k.ins| && j < |moved| && Moving(net, k, was, a, moved, j)
    requires moved[j] < |net.inputs| && moved[j] < |k.owner|
    requires now.nodes == was.nodes[a := was.nodes[a] + [moved[j]]] && now.owner == was.owner[moved[j] := a]
    requires |now.ins| == |was.ins| && now.ins == was.ins[a := now.ins[a]]
    requires forall i :: i in now.ins[a] <==> (i in was.ins[a] || i in net.inputs[moved[j]]) && i !in now.nodes[a]
    ensures Moving(net, k, now, a, moved, j + 1)
  {
    assert moved[..j + 1] == moved[..j] + [moved[j]];
    assert k.nodes[a] + moved[..j] + [moved[j]] == k.nodes[a] + moved[..j + 1];
    forall i ensures FaninOfFirst(net, moved, j + 1, i) <==> FaninOfFirst(net, moved, j, i) || i in net.inputs[moved[j]]
    {
      if FaninOfFirst(net, moved, j + 1, i) {
        var g :| 0 <= g < j + 1 && moved[g] < |net.inputs| && i in net.inputs[moved[g]];
        assert g < j || i in net.inputs[moved[j]];
      }
      if FaninOfFirst(net, moved, j, i) {
        var g :| 0 <= g < j && moved[g] < |net.inputs| && i in net.inputs[moved[g]];
        assert g < j + 1;
      }
    }
    hide FaninOfFirst;
    forall i ensures i in now.nodes[a] <==> i in k.nodes[a] || i in moved[..j + 1]
    {
    }
  }

  lemma MovedAll(net: Net, k: Clustering, now: Clustering, a: nat, b: nat, moved: seq<nat>)
    requires a in k.all && b in k.all && a != b && a < |k.nodes| == |k.ins| && b < |k.nodes|
    requires moved == k.nodes[b] && Moving(net, k, now, a, moved, |moved|) && now.all == k.all - {b}
    ensures MergedInto(k, now, a, b) && now.ins == k.ins[a := now.ins[a]]
    ensures forall i :: i in now.ins[a] <==>
      (i in k.ins[a] || FaninOfFirst(net, moved, |moved|, i)) && i !in now.nodes[a]
  {
    assert moved[..|moved|] == moved;
  }

  lemma MergedPartition(net: Net, k: Clustering, now: Clustering, a: nat, b: nat)
    requires Partition(net, k) && MergedInto(k, now, a, b) && |k.ins| == |k.nodes|
    requires |now.ins| == |k.ins| && now.ins == k.ins[a := now.ins[a]]
    requires forall i :: i in now.ins[a] <==>
      (i in k.ins[a] || FaninOfFirst(net, k.nodes[b], |k.nodes[b]|, i)) && i !in now.nodes[a]
    ensures Partition(net, now)
  {
    MergedCluster(net, k, now, a, b);
    forall c | c in now.all ensures ClusterOk(net, now, c)
    {
      assert ClusterOk(net, k, c) && ClusterOk(net, k, b);
    }
    forall n | 0 <= n < |net.inputs| && n < |net.isInput| && !net.isInput[n]
      ensures now.owner[n] in now.all && InCluster(now, n, now.owner[n])
    {
      assert k.owner[n] in k.all && InCluster(k, n, k.owner[n]);
      assert ClusterOk(net, k, b);
    }
  }

  lemma MergedCluster(net: Net, k: Clustering, now: Clustering, a: nat, b: nat)
    requires Partition(net, k) && MergedInto(k, now, a, b) && |k.ins| == |k.nodes|
    requires |now.ins| == |k.ins| && now.ins == k.ins[a := now.ins[a]]
    requires forall i :: i in now.ins[a] <==>
      (i in k.ins[a] || FaninOfFirst(net, k.nodes[b], |k.nodes[b]|, i)) && i !in now.nodes[a]
    ensures ClusterOk(net, now, a)
  {
    assert ClusterOk(net, k, a) && ClusterOk(net, k, b);
    var na, nb := k.nodes[a], k.nodes[b];
    forall i, j | 0 <= i < j < |na + nb| ensures (na + nb)[i] != (na + nb)[j]
    {
      if i < |na| && j >= |na| {
        assert na[i] in na && nb[j - |na|] in nb;
      }
    }
    forall i ensures i in now.ins[a] <==> i in OutsideFanins(net, na + nb)
    {
      if i in OutsideFanins(net, na + nb) {
        var n :| n in na + nb && n < |net.inputs| && i in net.inputs[n];
        if n in nb {
          var g :| 0 <= g < |nb| && nb[g] == n;
          assert FaninOfFirst(net, nb, |nb|, i);
        } else {
          assert i in OutsideFanins(net, na);
        }
      }
    }
  }

  // A cluster that neither depends on the seed nor leads to it.
  ghost predicate Candidate(net: Net, k: Clustering, seed: nat, c: nat)
  {
    c in k.all && c != seed && !Reaches(net, k, seed, c) && !Reaches(net, k, c, seed)
  }

  function Joined(k: Clustering, c: nat, d: nat): set<nat>
  {
    if c < |k.ins| && d < |k.ins| then k.ins[c] + k.ins[d] else {}
  }

  lemma {:induction false} PathTrans(net: Net, k: Clustering, p: seq<nat>, e: nat)
    requires Path(net, k, p) && Reaches(net, k, p[|p| - 1], e)
    ensures Reaches(net, k, p[0], e)
    decreases |p|
  {
    hide Feeds, Reaches;
    if |p| > 1 {
      TailPath(net, k, p);
      PathTrans(net, k, p[1..], e);
      assert Feeds(net, k, p[0], p[1]);
      ReachesBefore(net, k, p[0], p[1], e);
    }
  }

  lemma CandidateApart(net: Net, k: Clustering, seed: nat, c: nat)
    requires Candidate(net, k, seed, c)
    ensures !Between(net, k, seed, c)
  {
    hide Feeds;
    if x: nat :| OnTheWay(net, k, seed, x, c) || OnTheWay(net, k, c, x, seed) {
      var a, b := if OnTheWay(net, k, seed, x, c) then seed else c, if OnTheWay(net, k, seed, x, c) then c else seed;
      var p: seq<nat> :| PathFromTo(net, k, p, a, x);
      PathTrans(net, k, p, b);
    }
  }

  lemma FewerInputs(net: Net, k: Clustering, now: Clustering, a: nat, b: nat)
    requires Partition(net, k) && Partition(net, now) && MergedInto(k, now, a, b)
    ensures a in now.all && a < |now.ins| && now.ins[a] <= Joined(k, a, b)
  {
    assert ClusterOk(net, k, a) && ClusterOk(net, k, b) && ClusterOk(net, now, a);
  }

  // The order puts the fanins of every gate before it.
  ghost predicate InOrder(net: Net, order: seq<nat>)
  {
    && |order| == |net.inputs|
    && forall n: nat, i: nat :: n < |net.inputs| && i in net.inputs[n] && i < |order| ==> order[i] < order[n]
  }

  // The gates among the first `m` nodes have a cluster each, and there are no others.
  ghost predicate Singles(net: Net, k: Clustering, m: nat)
  {
    && |k.owner| == |net.inputs| && |k.nodes| == |k.ins| && m <= |net.inputs|
    && (forall c: nat :: c in k.all <==> c < |k.nodes|)
    && (forall c: nat :: c < |k.nodes| ==> SingleAt(net, k, c, m))
    && (forall n: nat :: n < m && n < |net.isInput| && !net.isInput[n] ==>
      k.owner[n] < |k.nodes| && k.nodes[k.owner[n]] == [n])
  }

  ghost predicate SingleAt(net: Net, k: Clustering, c: nat, m: nat)
    requires c < |k.nodes| == |k.ins| && |k.owner| == |net.inputs|
  {
    && |k.nodes[c]| == 1
    && var n := k.nodes[c][0];
      n < m && n < |net.inputs| && n < |net.isInput| && !net.isInput[n] && k.owner[n] == c
        && k.ins[c] == OutsideFanins(net, [n])
  }

  lemma SinglesStep(net: Net, k: Clustering, now: Clustering, n: nat)
    requires Singles(net, k, n) && n < |net.inputs| && n < |net.isInput| && !net.isInput[n]
    requires now.owner == k.owner[n := |k.nodes|] && now.all == k.all + {|k.nodes|}
    requires now.nodes == k.nodes + [[n]] && |now.ins| == |k.ins| + 1 && now.ins[..|k.ins|] == k.ins
    requires forall i :: i in now.ins[|k.ins|] <==> i in net.inputs[n] && i !in [n]
    ensures Singles(net, now, n + 1)
  {
    assert now.ins[|k.ins|] == OutsideFanins(net, [n]);
    var m := n + 1;
    forall c: nat | c < |now.nodes| ensures SingleAt(net, now, c, m)
    {
      if c < |k.nodes| {
        assert SingleAt(net, k, c, n);
        assert now.ins[c] == now.ins[..|k.ins|][c];
      }
    }
  }

  lemma SinglesDone(net: Net, k: Clustering)
    requires NetOk(net) && Singles(net, k, |net.inputs|)
    ensures Partition(net, k)
    ensures (exists order: seq<nat> :: InOrder(net, order)) ==> Acyclic(net, k)
    ensures forall c: nat :: c in k.all ==> c < |k.nodes| && |k.nodes[c]| == 1
  {
    forall c | c in k.all ensures ClusterOk(net, k, c)
    {
      assert SingleAt(net, k, c, |net.inputs|);
      assert k.nodes[c] == [k.nodes[c][0]];
    }
    forall c: nat | c in k.all ensures c < |k.nodes| && |k.nodes[c]| == 1
    {
      assert SingleAt(net, k, c, |net.inputs|);
    }
    if order: seq<nat> :| InOrder(net, order) {
      SinglesOrdered(net, k, order);
    }
  }

  lemma SinglesSkip(net: Net, k: Clustering, n: nat)
    requires Singles(net, k, n) && n < |net.inputs| && (n < |net.isInput| ==> net.isInput[n])
    ensures Singles(net, k, n + 1)
  {
    var m := n + 1;
    forall c: nat | c < |k.nodes| ensures SingleAt(net, k, c, m)
    {
      assert SingleAt(net, k, c, n);
    }
  }

  ghost function OrderRank(k: Clustering, order: seq<nat>): (rank: seq<nat>)
    ensures |rank| == |k.nodes|
    ensures forall c: nat ::
      c < |k.nodes| && |k.nodes[c]| == 1 && k.nodes[c][0] < |order| ==> rank[c] == order[k.nodes[c][0]]
  {
    seq(|k.nodes|, c requires 0 <= c < |k.nodes| =>
      if |k.nodes[c]| == 1 && k.nodes[c][0] < |order| then order[k.nodes[c][0]] else 0)
  }

  lemma SinglesOrdered(net: Net, k: Clustering, order: seq<nat>)
    requires NetOk(net) && Singles(net, k, |net.inputs|) && InOrder(net, order)
    ensures Acyclic(net, k)
  {
    var rank := OrderRank(k, order);
    forall c: nat, d: nat | Feeds(net, k, c, d) && c != d ensures c < |rank| && d < |rank| && rank[c] < rank[d]
    {
      var n: nat, i: nat :| FeedsBy(net, k, c, d, n, i);
      assert SingleAt(net, k, c, |net.inputs|) && SingleAt(net, k, d, |net.inputs|);
      assert k.nodes[d] == [n] && k.nodes[c] == [i];
    }
    assert Ranked(net, k, rank);
  }

  class Circuit {
    const net: Net
    // For each node its cluster, for each cluster its nodes and input nodes, and the
    // clusters in use.
    var myCluster: seq<nat>
    var nodesC: seq<seq<nat>>
    var inputNodes: seq<set<nat>>
    var allClusters: set<nat>

    ghost function K(): Clustering
      reads this
    {
      Clustering(myCluster, nodesC, inputNodes, allClusters)
    }

    ghost predicate Valid()
      reads this
    {
      NetOk(net) && Partition(net, K())
    }

    // A cluster of its own for every gate. If the circuit has no cycle the clusters
    // have none.
    constructor (net: Net)
      requires NetOk(net)
      ensures Valid() && this.net == net
      ensures (exists order: seq<nat> :: InOrder(net, order)) ==> Acyclic(net, K())
      ensures forall c: nat :: c in allClusters ==> c < |nodesC| && |nodesC[c]| == 1
    {
      this.net := net;
      myCluster := seq(|net.inputs|, i => 0);
      nodesC, inputNodes, allClusters := [], [], {};
      new;
      for n := 0 to |net.inputs|
        invariant Singles(net, K(), n)
        modifies this
      {
        if !net.isInput[n] {
          ghost var k := K();
          var c := |nodesC|;
          nodesC, inputNodes := nodesC + [[]], inputNodes + [{}];
          Append(c, n);
          allClusters := allClusters + {c};
          assert nodesC[c] == [] + [n] == [n];
          assert nodesC == k.nodes + [[n]] && inputNodes[..c] == k.ins;
          SinglesStep(net, k, K(), n);
        } else {
          SinglesSkip(net, K(), n);
        }
      }
      SinglesDone(net, K());
    }

    // Pushes the clusters of the fanins of `n` that were not processed.
    method PushFanins(n: nat, cone: set<nat>, todo: seq<nat>) returns (more: seq<nat>)
      requires Valid() && n < |net.inputs|
      ensures todo <= more
      ensures forall y: nat :: y in more[|todo|..] ==> y !in cone && FaninOwner(net, K(), n, y)
      ensures forall y: nat :: FaninOwner(net, K(), n, y) ==> y in cone || y in more
    {
      more := todo;
      for j := 0 to |net.inputs[n]|
        invariant todo <= more
        invariant forall y: nat :: y in more[|todo|..] ==> y !in cone && FaninOwner(net, K(), n, y)
        invariant forall h, y: nat ::
          0 <= h < j && IsFaninOwner(net, K(), n, net.inputs[n][h], y) ==> y in cone || y in more
      {
        var i := net.inputs[n][j];
        assert i in net.inputs[n];
        NetRange(net, n);
        if !net.isInput[i] {
          var y := myCluster[i];
          if y !in cone {
            assert IsFaninOwner(net, K(), n, i, y);
            more := more + [y];
          }
        }
      }
    }

    // Pushes the clusters feeding cluster `c` that were not processed.
    method PushFeeding(c: nat, cone: set<nat>, todo: seq<nat>) returns (more: seq<nat>)
      requires Valid() && c in allClusters
      ensures todo <= more
      ensures forall y: nat :: y in more[|todo|..] ==> y !in cone && Feeds(net, K(), y, c)
      ensures forall y: nat :: Feeds(net, K(), y, c) ==> y in cone || y in more
    {
      hide Feeds, FaninOwner;
      more := todo;
      ghost var k := K();
      assert ClusterOk(net, k, c);
      forall y: nat ensures Feeds(net, k, y, c) <==> exists n: nat :: InCluster(k, n, c) && FaninOwner(net, k, n, y)
      {
        FeedsByNode(net, k, y, c);
      }
      for h := 0 to |nodesC[c]|
        invariant todo <= more
        invariant forall y: nat :: y in more[|todo|..] ==> y !in cone && Feeds(net, k, y, c)
        invariant forall g, y: nat :: 0 <= g < h && FaninOwner(net, k, nodesC[c][g], y) ==> y in cone || y in more
      {
        var n := nodesC[c][h];
        assert n in nodesC[c] && InCluster(k, n, c);
        ghost var before := more;
        more := PushFanins(n, cone, more);
        assert more[|todo|..] == before[|todo|..] + more[|before|..];
      }
    }

    // Pushes the clusters of the fanouts of `n` that were not processed.
    method PushFanouts(n: nat, cone: set<nat>, todo: seq<nat>) returns (more: seq<nat>)
      requires Valid() && n < |net.outputs|
      ensures todo <= more
      ensures forall y: nat :: y in more[|todo|..] ==> y !in cone && FanoutOwner(net, K(), n, y)
      ensures forall y: nat :: FanoutOwner(net, K(), n, y) ==> y in cone || y in more
    {
      more := todo;
      for j := 0 to |net.outputs[n]|
        invariant todo <= more
        invariant forall y: nat :: y in more[|todo|..] ==> y !in cone && FanoutOwner(net, K(), n, y)
        invariant forall h :: 0 <= h < j && net.outputs[n][h] < |myCluster| ==>
          myCluster[net.outputs[n][h]] in cone || myCluster[net.outputs[n][h]] in more
      {
        var o := net.outputs[n][j];
        assert o in net.outputs[n];
        NetRange(net, n);
        var y := myCluster[o];
        if y !in cone {
          more := more + [y];
        }
      }
    }

    // Pushes the clusters fed by cluster `c` that were not processed.
    method PushFed(c: nat, cone: set<nat>, todo: seq<nat>) returns (more: seq<nat>)
      requires Valid() && c in allClusters
      ensures todo <= more
      ensures forall y: nat :: y in more[|todo|..] ==> y !in cone && Feeds(net, K(), c, y)
      ensures forall y: nat :: Feeds(net, K(), c, y) ==> y in cone || y in more
    {
      hide Feeds, FanoutOwner;
      more := todo;
      ghost var k := K();
      assert ClusterOk(net, k, c);
      forall y: nat ensures Feeds(net, k, c, y) <==> exists n: nat :: InCluster(k, n, c) && FanoutOwner(net, k, n, y)
      {
        FeedsByFanout(net, k, c, y);
      }
      for h := 0 to |nodesC[c]|
        invariant todo <= more
        invariant forall y: nat :: y in more[|todo|..] ==> y !in cone && Feeds(net, k, c, y)
        invariant forall g, y: nat :: 0 <= g < h && FanoutOwner(net, k, nodesC[c][g], y) ==> y in cone || y in more
      {
        var n := nodesC[c][h];
        assert n in nodesC[c] && InCluster(k, n, c);
        ghost var before := more;
        more := PushFanouts(n, cone, more);
        assert more[|todo|..] == before[|todo|..] + more[|before|..];
      }
    }

    // All clusters that `c` depends on. A cluster may wait more than once; the last
    // one waiting is taken first, so waiting ones already processed run out.
    method GetFaninCone(c: nat) returns (cone: set<nat>)
      requires Valid() && c in allClusters
      ensures cone == FaninCone(net, K(), c)
    {
      hide Feeds, Reaches, Partition, NetOk;
      ghost var k := K();
      var notProcessed := [c];
      cone := {};
      ReachesSelf(net, k, c);
      while |notProcessed| > 0
        invariant WalkingBack(net, k, c, cone, notProcessed)
        decreases allClusters - cone,
          if |notProcessed| > 0 && notProcessed[|notProcessed| - 1] in cone then 1 else 0, |notProcessed|
      {
        var current := notProcessed[|notProcessed| - 1];
        assert current in notProcessed;
        assert notProcessed == notProcessed[..|notProcessed| - 1] + [current];
        ghost var was, before := notProcessed, cone;
        notProcessed := notProcessed[..|notProcessed| - 1];
        cone := cone + {current};
        ghost var rest := notProcessed;
        notProcessed := PushFeeding(current, cone, notProcessed);
        assert notProcessed == rest + notProcessed[|rest|..];
        BackStep(net, k, c, before, rest, current, notProcessed);
        assert |notProcessed| > |rest| ==> notProcessed[|notProcessed| - 1] in notProcessed[|rest|..];
      }
      assert notProcessed == [];
      WalkedBack(net, k, c, cone);
      cone := cone - {c};
    }

    // All clusters that depend on `c`.
    method GetFanoutCone(c: nat) returns (cone: set<nat>)
      requires Valid() && c in allClusters
      ensures cone == FanoutCone(net, K(), c)
    {
      hide Feeds, Reaches, Partition, NetOk;
      ghost var k := K();
      var notProcessed := [c];
      cone := {};
      ReachesSelf(net, k, c);
      while |notProcessed| > 0
        invariant WalkingForth(net, k, c, cone, notProcessed)
        decreases allClusters - cone,
          if |notProcessed| > 0 && notProcessed[|notProcessed| - 1] in cone then 1 else 0, |notProcessed|
      {
        var current := notProcessed[|notProcessed| - 1];
        assert current in notProcessed;
        assert notProcessed == notProcessed[..|notProcessed| - 1] + [current];
        ghost var was, before := notProcessed, cone;
        notProcessed := notProcessed[..|notProcessed| - 1];
        cone := cone + {current};
        ghost var rest := notProcessed;
        notProcessed := PushFed(current, cone, notProcessed);
        assert notProcessed == rest + notProcessed[|rest|..];
        ForthStep(net, k, c, before, rest, current, notProcessed);
        assert |notProcessed| > |rest| ==> notProcessed[|notProcessed| - 1] in notProcessed[|rest|..];
      }
      assert notProcessed == [];
      WalkedForth(net, k, c, cone);
      cone := cone - {c};
    }

    // Adds a node to a cluster; its fanins become input nodes, except those inside.
    method Append(c: nat, n: nat)
      requires c < |nodesC| == |inputNodes| && n < |net.inputs| && n < |myCluster|
      modifies this`nodesC, this`inputNodes, this`myCluster
      ensures nodesC == old(nodesC)[c := old(nodesC[c]) + [n]] && myCluster == old(myCluster)[n := c]
      ensures |inputNodes| == |old(inputNodes)| && inputNodes == old(inputNodes)[c := inputNodes[c]]
      ensures forall i :: i in inputNodes[c] <==> (i in old(inputNodes[c]) || i in net.inputs[n]) && i !in nodesC[c]
    {
      nodesC := nodesC[c := nodesC[c] + [n]];
      var ins := inputNodes[c] + (set i | i in net.inputs[n]);
      myCluster := myCluster[n := c];
      ins := EraseNodes(nodesC[c], ins);
      inputNodes := inputNodes[c := ins];
    }

    // Takes the nodes of the cluster out of its input nodes.
    static method EraseNodes(ns: seq<nat>, ins: set<nat>) returns (r: set<nat>)
      ensures r == set i | i in ins && i !in ns
    {
      r := ins;
      for j := 0 to |ns|
        invariant r == set i | i in ins && i !in ns[..j]
      {
        assert ns[..j + 1] == ns[..j] + [ns[j]];
        r := r - {ns[j]};
      }
      assert ns[..|ns|] == ns;
    }

    // Moves the nodes of `clu2` to `clu1`. The clusters stay a partition with the
    // right input nodes, and their graph stays acyclic exactly if no third cluster
    // lies between the two.
    method Merge(clu1: nat, clu2: nat)
      requires Valid() && clu1 in allClusters && clu2 in allClusters && clu1 != clu2
      modifies this`nodesC, this`inputNodes, this`myCluster, this`allClusters
      ensures Valid() && MergedInto(old(K()), K(), clu1, clu2)
      ensures |inputNodes| == |old(inputNodes)|
      ensures forall c :: 0 <= c < |inputNodes| && c != clu1 ==> inputNodes[c] == old(inputNodes)[c]
      ensures old(Acyclic(net, K())) ==> (Acyclic(net, K()) <==> !Between(net, old(K()), clu1, clu2))
    {
      hide Partition, NetOk, Acyclic, Between;
      ghost var k := K();
      ClusterFacts(net, k, clu1);
      ClusterFacts(net, k, clu2);
      allClusters := allClusters - {clu2};
      var moved := nodesC[clu2];
      MovingStart(net, k, K(), clu1, moved);
      for j := 0 to |moved|
        invariant allClusters == k.all - {clu2} && Moving(net, k, K(), clu1, moved, j)
      {
        assert moved[j] in moved;
        ghost var before := K();
        Append(clu1, moved[j]);
        MovingStep(net, k, before, K(), clu1, moved, j);
      }
      MovedAll(net, k, K(), clu1, clu2, moved);
      var ins := EraseNodes(nodesC[clu1], inputNodes[clu1]);
      assert ins == inputNodes[clu1];
      inputNodes := inputNodes[clu1 := ins];
      MergedPartition(net, k, K(), clu1, clu2);
      MergeAcyclic(net, k, K(), clu1, clu2);
    }

    // One merge by fewest input nodes: among the clusters that neither depend on the
    // seed nor lead to it, the one with which it has the fewest inputs together, if
    // those are within the limit.
    method QuickMergeStep(seed: nat, limitIn: nat) returns (selected: Option<nat>)
      requires Valid() && seed in allClusters && Acyclic(net, K())
      modifies this`nodesC, this`inputNodes, this`myCluster, this`allClusters
      ensures Valid() && Acyclic(net, K())
      ensures selected.None? ==>
        unchanged(this) && forall c: nat :: Candidate(net, K(), seed, c) ==> |Joined(K(), seed, c)| > limitIn
      ensures selected.Some? ==>
        Candidate(net, old(K()), seed, selected.value) && MergedInto(old(K()), K(), seed, selected.value)
      ensures selected.Some? ==> seed in allClusters && seed < |inputNodes| && |inputNodes[seed]| <= limitIn
      ensures selected.Some? ==> forall c: nat :: Candidate(net, old(K()), seed, c) ==>
        |Joined(old(K()), seed, selected.value)| <= |Joined(old(K()), seed, c)|
    {
      hide Partition, NetOk, Acyclic, Between, Reaches, MergedInto;
      ghost var k := K();
      var tfo := GetFanoutCone(seed);
      var tfi := GetFaninCone(seed);
      var cands := allClusters - tfo - tfi - {seed};
      assert forall c: nat :: c in cands <==> Candidate(net, k, seed, c);
      selected := FewestInputs(seed, cands, limitIn + 1);
      if selected.Some? {
        CandidateApart(net, k, seed, selected.value);
        ghost var joined := Joined(k, seed, selected.value);
        Merge(seed, selected.value);
        FewerInputs(net, k, K(), seed, selected.value);
        Sets.SubsetSize(inputNodes[seed], joined);
      }
    }

    // The cluster with which the seed has the fewest inputs, fewer than `bound`.
    method FewestInputs(seed: nat, cands: set<nat>, bound: nat) returns (selected: Option<nat>)
      requires Valid() && seed in allClusters && cands <= allClusters
      ensures selected.None? ==> forall c :: c in cands ==> |Joined(K(), seed, c)| >= bound
      ensures selected.Some? ==> selected.value in cands && |Joined(K(), seed, selected.value)| < bound
      ensures selected.Some? ==>
        forall c :: c in cands ==> |Joined(K(), seed, selected.value)| <= |Joined(K(), seed, c)|
    {
      hide NetOk, Partition, OutsideFanins;
      ghost var k := K();
      forall c | c in allClusters ensures c < |inputNodes|
      {
        ClusterFacts(net, k, c);
      }
      selected := None;
      var min := bound;
      var todo := cands;
      while todo != {}
        invariant todo <= cands && min <= bound
        invariant selected.None? ==> min == bound
        invariant selected.Some? ==> selected.value in cands && |Joined(k, seed, selected.value)| == min < bound
        invariant forall c :: c in cands - todo ==> min <= |Joined(k, seed, c)|
        decreases todo
      {
        var c :| c in todo;
        var inputs := inputNodes[seed] + inputNodes[c];
        if |inputs| < min {
          selected, min := Some(c), |inputs|;
        }
        todo := todo - {c};
      }
    }
  }
}
