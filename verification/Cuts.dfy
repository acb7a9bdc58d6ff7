// Priority cuts: merging two leaf lists, filtering dominated cuts in the slots of a
// node, and what a cut says about the value of its node.
module Cuts {
  import opened Aigs
  import opened Sets

  // Leaves in increasing order, and a mask with the lowest five bits of each leaf;
  // no leaves means that the slot is free.
  datatype Cut = Cut(fanins: seq<nat>, sign: set<nat>, cost: int)

  ghost predicate Increasing(s: seq<nat>)
  {
    forall i, j :: 0 <= i < j < |s| ==> s[i] < s[j]
  }

  ghost function LeafSet(s: seq<nat>): set<nat>
  {
    set l | l in s
  }

  function Sign(s: seq<nat>): set<nat>
  {
    set l | l in s :: l % 32
  }

  // ---- Sizes ----

  lemma {:induction false} LeafCount(s: seq<nat>)
    requires Increasing(s)
    ensures |LeafSet(s)| == |s|
  {
    if s != [] {
      var t := s[..|s| - 1];
      LeafCount(t);
      assert LeafSet(s) == LeafSet(t) + {s[|s| - 1]};
    }
  }

  ghost function Residues(s: set<nat>): set<nat>
  {
    set l | l in s :: l % 32
  }

  lemma ResiduesAdd(s: set<nat>, l: nat)
    ensures Residues(s + {l}) == Residues(s) + {l % 32}
  {
    var t := Residues(s + {l});
    assert l in s + {l} && l % 32 in t;
    forall x | x in Residues(s) ensures x in t
    {
      var k :| k in s && k % 32 == x;
      assert k in s + {l};
    }
    forall x | x in t ensures x in Residues(s) + {l % 32}
    {
      var k :| k in s + {l} && k % 32 == x;
    }
  }

  lemma {:induction false} ResidueCount(s: set<nat>)
    ensures |Residues(s)| <= |s|
  {
    if l :| l in s {
      ResidueCount(s - {l});
      ResiduesAdd(s - {l}, l);
      assert s == (s - {l}) + {l};
    } else {
      assert s == {};
      assert Residues(s) == {};
    }
  }

  lemma SignIsResidues(s: seq<nat>)
    ensures Sign(s) == Residues(LeafSet(s))
  {
    forall x | x in Sign(s) ensures x in Residues(LeafSet(s))
    {
      var k :| k in s && k % 32 == x;
      assert k in LeafSet(s);
    }
    forall x | x in Residues(LeafSet(s)) ensures x in Sign(s)
    {
      var k :| k in LeafSet(s) && k % 32 == x;
    }
  }

  lemma ResiduesUnion(s: set<nat>, t: set<nat>)
    ensures Residues(s + t) == Residues(s) + Residues(t)
  {
    forall x | x in Residues(s) + Residues(t) ensures x in Residues(s + t)
    {
      var k :| (k in s || k in t) && k % 32 == x;
      assert k in s + t;
    }
    forall x | x in Residues(s + t) ensures x in Residues(s) + Residues(t)
    {
      var k :| k in s + t && k % 32 == x;
    }
  }

  // The masks together have no more bits than there are leaves, so counting them
  // never rules out a union that fits.
  lemma SignCount(s: seq<nat>, t: seq<nat>)
    ensures |Sign(s) + Sign(t)| <= |LeafSet(s) + LeafSet(t)|
  {
    SignIsResidues(s);
    SignIsResidues(t);
    ResiduesUnion(LeafSet(s), LeafSet(t));
    ResidueCount(LeafSet(s) + LeafSet(t));
  }

  // The mask of a smaller leaf set is contained, so comparing masks never misses a
  // containment.
  lemma SignContained(s: seq<nat>, t: seq<nat>)
    requires LeafSet(s) <= LeafSet(t)
    ensures Sign(s) <= Sign(t)
  {
    forall x | x in Sign(s) ensures x in Sign(t)
    {
      var k :| k in s && k % 32 == x;
      assert k in LeafSet(s);
    }
  }

  lemma LeafAppend(s: seq<nat>, x: nat)
    ensures LeafSet(s + [x]) == LeafSet(s) + {x}
  {
  }

  lemma {:induction false} SameSetSame(s: seq<nat>, t: seq<nat>)
    requires Increasing(s) && Increasing(t) && LeafSet(s) == LeafSet(t)
    ensures s == t
  {
    LeafCount(s);
    LeafCount(t);
    if s != [] {
      var n := |s| - 1;
      assert s[n] in LeafSet(t) && t[n] in LeafSet(s);
      assert s[n] == t[n];
      forall l ensures l in s[..n] <==> l in LeafSet(s) && l != s[n]
      {
      }
      forall l ensures l in t[..n] <==> l in LeafSet(t) && l != t[n]
      {
      }
      assert LeafSet(s[..n]) == LeafSet(t[..n]);
      SameSetSame(s[..n], t[..n]);
    }
  }

  // ---- Merging ----

  // The sorted union, if it has at most `max` elements.
  ghost predicate Merged(c0: seq<nat>, c1: seq<nat>, max: nat, ok: bool, c: seq<nat>)
  {
    && (ok <==> |LeafSet(c0) + LeafSet(c1)| <= max)
    && (ok ==> Increasing(c) && LeafSet(c) == LeafSet(c0) + LeafSet(c1) && |c| <= max)
  }

  // What is merged so far: everything before `i` and `k`, below everything after.
  ghost predicate MergedSoFar(c0: seq<nat>, c1: seq<nat>, i: nat, k: nat, c: seq<nat>)
    requires i <= |c0| && k <= |c1|
  {
    && Increasing(c) && LeafSet(c) == LeafSet(c0[..i]) + LeafSet(c1[..k])
    && (forall l, j :: l in c && i <= j < |c0| ==> l < c0[j])
    && (forall l, j :: l in c && k <= j < |c1| ==> l < c1[j])
  }

  lemma MergeTake0(c0: seq<nat>, c1: seq<nat>, i: nat, k: nat, c: seq<nat>)
    requires Increasing(c0) && Increasing(c1) && i < |c0| && k <= |c1| && MergedSoFar(c0, c1, i, k, c)
    requires k < |c1| ==> c0[i] < c1[k]
    ensures MergedSoFar(c0, c1, i + 1, k, c + [c0[i]])
  {
    var d := c + [c0[i]];
    assert c0[..i + 1] == c0[..i] + [c0[i]];
    assert forall l :: l in d <==> l in c || l == c0[i];
    forall j | 0 <= j < |c| ensures c[j] < c0[i]
    {
      assert c[j] in c;
    }
    LeafAppend(c, c0[i]);
    LeafAppend(c0[..i], c0[i]);
  }

  lemma MergeTake1(c0: seq<nat>, c1: seq<nat>, i: nat, k: nat, c: seq<nat>)
    requires Increasing(c0) && Increasing(c1) && i <= |c0| && k < |c1| && MergedSoFar(c0, c1, i, k, c)
    requires i < |c0| ==> c1[k] < c0[i]
    ensures MergedSoFar(c0, c1, i, k + 1, c + [c1[k]])
  {
    var d := c + [c1[k]];
    assert c1[..k + 1] == c1[..k] + [c1[k]];
    assert forall l :: l in d <==> l in c || l == c1[k];
    forall j | 0 <= j < |c| ensures c[j] < c1[k]
    {
      assert c[j] in c;
    }
    LeafAppend(c, c1[k]);
    LeafAppend(c1[..k], c1[k]);
  }

  lemma MergeTakeBoth(c0: seq<nat>, c1: seq<nat>, i: nat, k: nat, c: seq<nat>)
    requires Increasing(c0) && Increasing(c1) && i < |c0| && k < |c1| && c0[i] == c1[k] && MergedSoFar(c0, c1, i, k, c)
    ensures MergedSoFar(c0, c1, i + 1, k + 1, c + [c0[i]])
  {
    var d := c + [c0[i]];
    assert c0[..i + 1] == c0[..i] + [c0[i]] && c1[..k + 1] == c1[..k] + [c1[k]];
    assert forall l :: l in d <==> l in c || l == c0[i];
    forall j | 0 <= j < |c| ensures c[j] < c0[i]
    {
      assert c[j] in c;
    }
    LeafAppend(c, c0[i]);
    LeafAppend(c0[..i], c0[i]);
    LeafAppend(c1[..k], c1[k]);
  }

  lemma MergeEnd(c0: seq<nat>, c1: seq<nat>, i: nat, k: nat, c: seq<nat>, max: nat)
    requires Increasing(c0) && Increasing(c1) && i <= |c0| && k <= |c1| && MergedSoFar(c0, c1, i, k, c) && |c| <= max
    requires |c| < max ==> i == |c0| && k == |c1|
    ensures Merged(c0, c1, max, i == |c0| && k == |c1|, c)
  {
    LeafCount(c);
    if i == |c0| && k == |c1| {
      assert c0[..i] == c0 && c1[..k] == c1;
    } else {
      MergeOverflows(c0, c1, i, k, c);
    }
  }

  // With something left over the union is larger than what was merged.
  lemma MergeOverflows(c0: seq<nat>, c1: seq<nat>, i: nat, k: nat, c: seq<nat>)
    requires i <= |c0| && k <= |c1| && (i < |c0| || k < |c1|) && MergedSoFar(c0, c1, i, k, c)
    ensures |LeafSet(c0) + LeafSet(c1)| > |LeafSet(c)|
  {
    hide Increasing;
    var l := if i < |c0| then c0[i] else c1[k];
    assert l !in LeafSet(c) && LeafSet(c) == LeafSet(c0[..i]) + LeafSet(c1[..k]);
    PrefixLeaves(c0, i);
    PrefixLeaves(c1, k);
    SubsetSize(LeafSet(c) + {l}, LeafSet(c0) + LeafSet(c1));
  }

  lemma PrefixLeaves(s: seq<nat>, i: nat)
    requires i <= |s|
    ensures LeafSet(s[..i]) <= LeafSet(s) && (i < |s| ==> s[i] in LeafSet(s))
  {
    forall x | x in s[..i] ensures x in s
    {
    }
  }

  // Both lists have the largest size: their union fits only if they are equal.
  lemma BothLargest(c0: seq<nat>, c1: seq<nat>, max: nat)
    requires Increasing(c0) && Increasing(c1) && |c0| == max && |c1| == max
    ensures Merged(c0, c1, max, c0 == c1, c0)
  {
    OneLargest(c0, c1, max);
    LeafCount(c1);
    if LeafSet(c1) <= LeafSet(c0) {
      LeafCount(c0);
      SubsetSize(LeafSet(c1), LeafSet(c0));
      SameSetSame(c0, c1);
    }
  }

  // The first list has the largest size: the union fits only if it is that list.
  lemma OneLargest(c0: seq<nat>, c1: seq<nat>, max: nat)
    requires Increasing(c0) && Increasing(c1) && |c0| == max
    ensures Merged(c0, c1, max, LeafSet(c1) <= LeafSet(c0), c0)
  {
    LeafCount(c0);
    SubsetSize(LeafSet(c0), LeafSet(c0) + LeafSet(c1));
    if LeafSet(c1) <= LeafSet(c0) {
      assert LeafSet(c0) + LeafSet(c1) == LeafSet(c0);
    }
  }

  method MergeOrdered(c0: seq<nat>, c1: seq<nat>, nLeafMax: nat) returns (ok: bool, c: seq<nat>)
    requires |c0| >= |c1| && |c0| <= nLeafMax && Increasing(c0) && Increasing(c1)
    ensures Merged(c0, c1, nLeafMax, ok, c)
  {
    c := [];
    if |c0| == nLeafMax && |c1| == nLeafMax {
      BothLargest(c0, c1, nLeafMax);
      for i := 0 to |c0|
        invariant c0[..i] == c1[..i]
      {
        if c0[i] != c1[i] {
          return false, c;
        }
      }
      assert c0[..|c0|] == c0 && c1[..|c0|] == c1;
      return true, c0;
    }
    if |c0| == nLeafMax {
      OneLargest(c0, c1, nLeafMax);
      for i := 0 to |c1|
        invariant forall j :: 0 <= j < i ==> c1[j] in c0
      {
        var k: int := |c0| - 1;
        while k >= 0 && c0[k] != c1[i]
          invariant -1 <= k < |c0| && forall j :: k < j < |c0| ==> c0[j] != c1[i]
        {
          k := k - 1;
        }
        if k == -1 {
          assert c1[i] in LeafSet(c1) && c1[i] !in LeafSet(c0);
          return false, c;
        }
      }
      assert LeafSet(c1) <= LeafSet(c0);
      return true, c0;
    }
    ok, c := MergeLoop(c0, c1, nLeafMax);
  }

  // Takes the smaller of the two next leaves at most `nLeafMax` times.
  method MergeLoop(c0: seq<nat>, c1: seq<nat>, nLeafMax: nat) returns (ok: bool, c: seq<nat>)
    requires Increasing(c0) && Increasing(c1)
    ensures Merged(c0, c1, nLeafMax, ok, c)
  {
    hide Increasing, LeafSet, Merged, MergedSoFar;
    c := [];
    var i, k := 0, 0;
    NothingMerged(c0, c1);
    while |c| < nLeafMax
      invariant i <= |c0| && k <= |c1| && |c| <= nLeafMax && MergedSoFar(c0, c1, i, k, c)
      decreases nLeafMax - |c|
    {
      if k == |c1| {
        if i == |c0| {
          MergeEnd(c0, c1, i, k, c, nLeafMax);
          return true, c;
        }
        MergeTake0(c0, c1, i, k, c);
        c, i := c + [c0[i]], i + 1;
      } else if i == |c0| {
        MergeTake1(c0, c1, i, k, c);
        c, k := c + [c1[k]], k + 1;
      } else if c0[i] < c1[k] {
        MergeTake0(c0, c1, i, k, c);
        c, i := c + [c0[i]], i + 1;
      } else if c0[i] > c1[k] {
        MergeTake1(c0, c1, i, k, c);
        c, k := c + [c1[k]], k + 1;
      } else {
        MergeTakeBoth(c0, c1, i, k, c);
        c, i, k := c + [c0[i]], i + 1, k + 1;
      }
    }
    MergeEnd(c0, c1, i, k, c, nLeafMax);
    ok := !(i < |c0| || k < |c1|);
  }

  lemma NothingMerged(c0: seq<nat>, c1: seq<nat>)
    ensures MergedSoFar(c0, c1, 0, 0, [])
  {
  }

  method CutMerge(c0: Cut, c1: Cut, nLeafMax: nat) returns (ok: bool, c: Cut)
    requires Increasing(c0.fanins) && Increasing(c1.fanins) && c0.sign == Sign(c0.fanins) && c1.sign == Sign(c1.fanins)
    requires |c0.fanins| <= nLeafMax && |c1.fanins| <= nLeafMax
    ensures Merged(c0.fanins, c1.fanins, nLeafMax, ok, c.fanins)
    ensures ok ==> c.sign == Sign(c.fanins)
  {
    var fanins;
    if |c0.fanins| < |c1.fanins| {
      ok, fanins := MergeOrdered(c1.fanins, c0.fanins, nLeafMax);
      assert LeafSet(c0.fanins) + LeafSet(c1.fanins) == LeafSet(c1.fanins) + LeafSet(c0.fanins);
    } else {
      ok, fanins := MergeOrdered(c0.fanins, c1.fanins, nLeafMax);
    }
    c := Cut(fanins, c0.sign + c1.sign, 0);
    if ok {
      SignOfUnion(c0.fanins, c1.fanins, fanins);
    }
  }

  lemma SignOfUnion(s: seq<nat>, t: seq<nat>, u: seq<nat>)
    requires LeafSet(u) == LeafSet(s) + LeafSet(t)
    ensures Sign(u) == Sign(s) + Sign(t)
  {
    SignIsResidues(s);
    SignIsResidues(t);
    SignIsResidues(u);
    ResiduesUnion(LeafSet(s), LeafSet(t));
  }

  // ---- The cuts of a node ----

  // The values of the leaves decide the value of the node.
  ghost predicate Determines(g: Graph, leaves: seq<nat>, id: nat)
    requires WellFormed(g)
  {
    && id < |g| && (forall l :: l in leaves ==> l < |g|)
    && forall x, y | SameOn(g, leaves, x, y) :: Value(g, id, x) == Value(g, id, y)
  }

  ghost predicate SameOn(g: Graph, leaves: seq<nat>, x: seq<bool>, y: seq<bool>)
    requires WellFormed(g)
  {
    forall l :: l in leaves && l < |g| ==> Value(g, l, x) == Value(g, l, y)
  }

  // Every way from the node down to the inputs meets a leaf.
  ghost predicate CutsOff(g: Graph, id: nat, leaves: set<nat>)
    requires WellFormed(g) && id < |g|
    decreases id
  {
    id in leaves || (g[id].And? && CutsOff(g, g[id].child0.id, leaves) && CutsOff(g, g[id].child1.id, leaves))
  }

  lemma {:induction false} CutsOffMore(g: Graph, id: nat, s: set<nat>, t: set<nat>)
    requires WellFormed(g) && id < |g| && CutsOff(g, id, s) && s <= t
    ensures CutsOff(g, id, t)
    decreases id
  {
    if id !in s {
      CutsOffMore(g, g[id].child0.id, s, t);
      CutsOffMore(g, g[id].child1.id, s, t);
    }
  }

  ghost predicate CutOk(g: Graph, id: nat, c: Cut, nLeafMax: nat)
    requires WellFormed(g) && id < |g|
  {
    && 0 < |c.fanins| <= nLeafMax && Increasing(c.fanins) && c.sign == Sign(c.fanins)
    && Determines(g, c.fanins, id) && CutsOff(g, id, LeafSet(c.fanins))
  }

  ghost predicate SlotsOk(g: Graph, id: nat, slots: seq<Cut>, nLeafMax: nat)
    requires WellFormed(g) && id < |g|
  {
    forall i :: 0 <= i < |slots| && slots[i].fanins != [] ==> CutOk(g, id, slots[i], nLeafMax)
  }

  // No stored cut of two or more leaves contains another, leaving slot `j` aside.
  ghost predicate AntichainBut(slots: seq<Cut>, j: int)
  {
    forall a, b :: 0 <= a < |slots| && 0 <= b < |slots| && a != b && a != j && b != j && |slots[a].fanins| >= 2
      && |slots[b].fanins| >= 2
      ==> !(LeafSet(slots[a].fanins) <= LeafSet(slots[b].fanins))
  }

  lemma TrivialDetermines(g: Graph, id: nat)
    requires WellFormed(g) && id < |g|
    ensures Determines(g, [id], id)
  {
    forall x, y | SameOn(g, [id], x, y) ensures Value(g, id, x) == Value(g, id, y)
    {
      assert id in [id];
    }
  }

  // Merging cuts of the children gives a cut of the node.
  lemma MergeDetermines(g: Graph, id: nat, c0: seq<nat>, c1: seq<nat>, c: seq<nat>)
    requires WellFormed(g) && id < |g| && g[id].And? && LeafSet(c) == LeafSet(c0) + LeafSet(c1)
    requires Determines(g, c0, g[id].child0.id) && Determines(g, c1, g[id].child1.id)
    ensures Determines(g, c, id)
  {
    assert forall l :: (l in c0 || l in c1) <==> l in LeafSet(c0) + LeafSet(c1);
    assert forall l :: l in c <==> l in LeafSet(c);
    forall x, y | SameOn(g, c, x, y) ensures Value(g, id, x) == Value(g, id, y)
    {
      assert SameOn(g, c0, x, y) && SameOn(g, c1, x, y);
    }
  }

  method CheckDominance(dom: Cut, cut: Cut) returns (r: bool)
    ensures r <==> LeafSet(dom.fanins) <= LeafSet(cut.fanins)
  {
    for i := 0 to |dom.fanins|
      invariant forall j :: 0 <= j < i ==> dom.fanins[j] in cut.fanins
    {
      var k := 0;
      while k < |cut.fanins| && dom.fanins[i] != cut.fanins[k]
        invariant k <= |cut.fanins| && forall j :: 0 <= j < k ==> cut.fanins[j] != dom.fanins[i]
      {
        k := k + 1;
      }
      if k == |cut.fanins| {
        assert dom.fanins[i] in LeafSet(dom.fanins) && dom.fanins[i] !in LeafSet(cut.fanins);
        return false;
      }
    }
    forall l | l in LeafSet(dom.fanins) ensures l in LeafSet(cut.fanins)
    {
    }
    r := true;
  }

  // Slot `i` holds a cut of two or more leaves, no more than slot `j` has, all among
  // those of slot `j`.
  ghost predicate Dominates(slots: seq<Cut>, i: nat, j: nat)
    requires i < |slots| && j < |slots|
  {
    i != j && 2 <= |slots[i].fanins| <= |slots[j].fanins| && LeafSet(slots[i].fanins) <= LeafSet(slots[j].fanins)
  }

  // Slot `i` holds a larger cut that contains the leaves of slot `j`.
  ghost predicate Dominated(slots: seq<Cut>, i: nat, j: nat)
    requires i < |slots| && j < |slots|
  {
    i != j && |slots[i].fanins| >= 2 && |slots[i].fanins| > |slots[j].fanins|
      && LeafSet(slots[j].fanins) <= LeafSet(slots[i].fanins)
  }

  // The slots once the first `n` were compared with slot `j`.
  ghost predicate FilteredTo(slots: seq<Cut>, was: seq<Cut>, j: nat, n: nat)
    requires j < |was| && n <= |was|
  {
    && |slots| == |was|
    && forall i :: 0 <= i < |was| ==>
      slots[i] == if i < n && Dominated(was, i, j) then was[i].(fanins := []) else was[i]
  }

  // Compares the cut in slot `j` with all others: it is freed if it contains one of
  // them, and otherwise those that contain it are.
  method Filter(was: seq<Cut>, j: nat) returns (dominated: bool, slots: seq<Cut>)
    requires j < |was| && was[j].fanins != [] && AntichainBut(was, j)
    requires forall i ::
      0 <= i < |was| && was[i].fanins != [] ==> Increasing(was[i].fanins) && was[i].sign == Sign(was[i].fanins)
    ensures dominated <==> exists i :: 0 <= i < |was| && Dominates(was, i, j)
    ensures dominated ==> slots == was[j := was[j].(fanins := [])]
    ensures !dominated ==> FilteredTo(slots, was, j, |was|)
  {
    hide LeafSet, Sign, Increasing, AntichainBut, CutOk;
    slots := was;
    for i := 0 to |was|
      invariant FilteredTo(slots, was, j, i)
      invariant forall k :: 0 <= k < i ==> !Dominates(was, k, j)
    {
      if |slots[i].fanins| < 2 || i == j {
        continue;
      }
      if |slots[i].fanins| > |slots[j].fanins| {
        if slots[j].sign <= slots[i].sign {
          var contained := CheckDominance(slots[j], slots[i]);
          if contained {
            slots := slots[i := slots[i].(fanins := [])];
          }
        } else {
          NotContained(was[j].fanins, was[i].fanins);
        }
      } else {
        if slots[i].sign <= slots[j].sign {
          var contained := CheckDominance(slots[i], slots[j]);
          if contained {
            assert Dominates(was, i, j);
            NoneRemoved(slots, was, i, j);
            return true, slots[j := slots[j].(fanins := [])];
          }
        } else {
          NotContained(was[i].fanins, was[j].fanins);
        }
      }
    }
    dominated := false;
  }

  lemma NotContained(s: seq<nat>, t: seq<nat>)
    ensures LeafSet(s) <= LeafSet(t) ==> Sign(s) <= Sign(t)
  {
    if LeafSet(s) <= LeafSet(t) {
      SignContained(s, t);
    }
  }

  // A cut that contains a stored one has no stored cut above it.
  lemma NoneRemoved(slots: seq<Cut>, was: seq<Cut>, i: nat, j: nat)
    requires j < |was| && i < |was| && FilteredTo(slots, was, j, i) && Dominates(was, i, j) && AntichainBut(was, j)
    ensures slots == was
  {
    forall k | 0 <= k < |was| ensures !Dominated(was, k, j)
    {
      assert LeafSet(was[j].fanins) <= LeafSet(was[k].fanins) ==> LeafSet(was[i].fanins) <= LeafSet(was[k].fanins);
    }
  }

  // With the new cut filtered, all slots are an antichain again.
  lemma FilteredAntichain(slots: seq<Cut>, was: seq<Cut>, j: nat)
    requires j < |was| && was[j].fanins != [] && AntichainBut(was, j) && FilteredTo(slots, was, j, |was|)
    requires forall i :: 0 <= i < |was| ==> !Dominates(was, i, j)
    requires forall i :: 0 <= i < |was| && was[i].fanins != [] ==> Increasing(was[i].fanins)
    ensures AntichainBut(slots, -1)
  {
    forall a, b | 0 <= a < |slots| && 0 <= b < |slots| && a != b && |slots[a].fanins| >= 2 && |slots[b].fanins| >= 2
      ensures !(LeafSet(slots[a].fanins) <= LeafSet(slots[b].fanins))
    {
      assert slots[a] == was[a] && slots[b] == was[b];
      assert !Dominates(was, a, j) && !Dominates(was, b, j) && !Dominated(was, a, j) && !Dominated(was, b, j);
      LeafCount(was[a].fanins);
      LeafCount(was[b].fanins);
      if LeafSet(was[a].fanins) <= LeafSet(was[b].fanins) {
        SubsetSize(LeafSet(was[a].fanins), LeafSet(was[b].fanins));
      }
    }
  }

  lemma FreedAntichain(slots: seq<Cut>, j: nat)
    requires j < |slots| && slots[j].fanins == [] && AntichainBut(slots, j)
    ensures AntichainBut(slots, -1)
  {
  }

  lemma AsideAntichain(slots: seq<Cut>, j: nat, c: Cut)
    requires j < |slots| && AntichainBut(slots, -1)
    ensures AntichainBut(slots[j := c], j)
  {
  }

  // Slot `j` is the first free one, or if there is none the first with the most costly
  // cut, which is thrown out.
  ghost predicate Freed(was: seq<Cut>, j: nat, slots: seq<Cut>)
  {
    && j < |was| && slots == was[j := was[j].(fanins := [])]
    && (HasFree(was) ==> was[j].fanins == [] && forall i :: 0 <= i < j ==> was[i].fanins != [])
    && (!HasFree(was) ==> forall i :: 0 <= i < |was| ==>
      was[i].cost <= was[j].cost && (i < j ==> was[i].cost < was[j].cost))
  }

  ghost predicate HasFree(slots: seq<Cut>)
  {
    exists i :: 0 <= i < |slots| && slots[i].fanins == []
  }

  // A free slot, or else the most costly cut, which is thrown out.
  method FindFree(was: seq<Cut>) returns (j: nat, slots: seq<Cut>)
    requires |was| > 0
    ensures Freed(was, j, slots)
  {
    var max := -1;
    for i := 0 to |was|
      invariant forall k :: 0 <= k < i ==> was[k].fanins != []
      invariant if i == 0 then max == -1 else 0 <= max < i && forall k :: 0 <= k < i ==> was[k].cost <= was[max].cost
      invariant forall k :: 0 <= k < max ==> was[k].cost < was[max].cost
    {
      if was[i].fanins == [] {
        assert was[i].(fanins := []) == was[i];
        return i, was;
      }
      if max == -1 || was[max].cost < was[i].cost {
        max := i;
      }
    }
    j, slots := max, was[max := was[max].(fanins := [])];
  }

  // Some stored cut has all its leaves in `leaves`.
  ghost predicate Represented(slots: seq<Cut>, leaves: set<nat>)
  {
    exists i :: 0 <= i < |slots| && slots[i].fanins != [] && LeafSet(slots[i].fanins) <= leaves
  }

  // ---- One pair of cuts of the children ----

  // The merged cut `c` in slot `j`: it goes again if a stored cut is within it, and
  // otherwise the stored cuts that contain it go.
  ghost predicate Settled(base: seq<Cut>, j: nat, c: Cut, slots: seq<Cut>)
    requires j < |base|
  {
    var before := base[j := c];
    if exists i :: 0 <= i < |before| && Dominates(before, i, j) then slots == before[j := c.(fanins := [])]
    else FilteredTo(slots, before, j, |before|)
  }

  // What one pair does to the slots. A slot is freed before the union is known to fit,
  // unless the masks show already that it does not.
  ghost predicate PairStep(was: seq<Cut>, c0: Cut, c1: Cut, slots: seq<Cut>, nLeafMax: nat)
  {
    var union := LeafSet(c0.fanins) + LeafSet(c1.fanins);
    if |c0.sign + c1.sign| > nLeafMax then slots == was
    else exists j: nat, c: Cut {:trigger Placed(was, j, c, slots, union, nLeafMax)} ::
      Placed(was, j, c, slots, union, nLeafMax)
  }

  ghost predicate Placed(was: seq<Cut>, j: nat, c: Cut, slots: seq<Cut>, union: set<nat>, nLeafMax: nat)
  {
    && j < |was|
    && var base := was[j := was[j].(fanins := [])];
      && Freed(was, j, base)
      && if |union| > nLeafMax then slots == base
        else LeafSet(c.fanins) == union && Settled(base, j, c, slots)
  }

  // While there is a free slot, what is represented stays so, and the pair is if it fits.
  lemma StepKeeps(was: seq<Cut>, c0: Cut, c1: Cut, slots: seq<Cut>, nLeafMax: nat, leaves: set<nat>)
    requires PairStep(was, c0, c1, slots, nLeafMax) && HasFree(was) && Represented(was, leaves) && c0.fanins != []
    ensures Represented(slots, leaves)
  {
    if |c0.sign + c1.sign| <= nLeafMax {
      var union := LeafSet(c0.fanins) + LeafSet(c1.fanins);
      var j: nat, c: Cut :| Placed(was, j, c, slots, union, nLeafMax);
      var i :| 0 <= i < |was| && was[i].fanins != [] && LeafSet(was[i].fanins) <= leaves;
      if |union| <= nLeafMax {
        assert c0.fanins[0] in LeafSet(c.fanins);
        PlacedKeeps(was[j := was[j].(fanins := [])], j, c, slots, i, leaves);
      } else {
        assert slots[i] == was[i];
      }
    }
  }

  lemma PlacedKeeps(base: seq<Cut>, j: nat, c: Cut, slots: seq<Cut>, i: nat, leaves: set<nat>)
    requires j < |base| && i < |base| && i != j && Settled(base, j, c, slots) && c.fanins != []
    requires base[i].fanins != [] && LeafSet(base[i].fanins) <= leaves
    ensures Represented(slots, leaves)
  {
    var before := base[j := c];
    if (forall k :: 0 <= k < |before| ==> !Dominates(before, k, j)) && Dominated(before, i, j) {
      assert slots[j] == before[j];
    } else {
      assert slots[i] == before[i];
    }
  }

  lemma StepFinds(was: seq<Cut>, c0: Cut, c1: Cut, slots: seq<Cut>, nLeafMax: nat)
    requires PairStep(was, c0, c1, slots, nLeafMax) && c0.fanins != []
    requires |c0.sign + c1.sign| <= |LeafSet(c0.fanins) + LeafSet(c1.fanins)| <= nLeafMax
    ensures Represented(slots, LeafSet(c0.fanins) + LeafSet(c1.fanins))
  {
    var union := LeafSet(c0.fanins) + LeafSet(c1.fanins);
    var j: nat, c: Cut :| Placed(was, j, c, slots, union, nLeafMax);
    var before := was[j := was[j].(fanins := [])][j := c];
    assert c0.fanins[0] in LeafSet(c.fanins);
    if i :| 0 <= i < |before| && Dominates(before, i, j) {
      assert slots[i] == before[i];
    } else {
      assert slots[j] == before[j];
    }
  }

  // How many cuts are stored.
  ghost function Stored(slots: seq<Cut>): nat
  {
    if slots == [] then 0 else Stored(slots[..|slots| - 1]) + if slots[|slots| - 1].fanins != [] then 1 else 0
  }

  lemma StoredLast(s: seq<Cut>)
    ensures Stored(s) == if s == [] then 0
      else Stored(s[..|s| - 1]) + if s[|s| - 1].fanins != [] then 1 else 0
  {
  }

  lemma {:induction false} StoredLess(s: seq<Cut>, t: seq<Cut>)
    requires |s| == |t| && forall i :: 0 <= i < |s| && s[i].fanins != [] ==> t[i].fanins != []
    ensures Stored(s) <= Stored(t)
  {
    if s != [] {
      StoredLess(s[..|s| - 1], t[..|t| - 1]);
    }
  }

  lemma {:induction false} StoredOne(s: seq<Cut>, t: seq<Cut>, j: nat)
    requires |s| == |t| && j < |s| && forall i :: 0 <= i < |s| && i != j && s[i].fanins != [] ==> t[i].fanins != []
    ensures Stored(s) <= Stored(t) + 1
  {
    var n := |s| - 1;
    if j == n {
      StoredLess(s[..n], t[..n]);
    } else {
      StoredOne(s[..n], t[..n], j);
    }
  }

  lemma {:induction false} StoredFull(s: seq<Cut>)
    requires !HasFree(s)
    ensures Stored(s) == |s|
  {
    if s != [] {
      var n := |s| - 1;
      assert forall i :: 0 <= i < n ==> s[..n][i] == s[i];
      StoredFull(s[..n]);
    }
  }

  lemma StepStored(was: seq<Cut>, c0: Cut, c1: Cut, slots: seq<Cut>, nLeafMax: nat)
    requires PairStep(was, c0, c1, slots, nLeafMax)
    ensures |slots| == |was| && Stored(slots) <= Stored(was) + 1
  {
    if |c0.sign + c1.sign| <= nLeafMax {
      var union := LeafSet(c0.fanins) + LeafSet(c1.fanins);
      var j: nat, c: Cut :| Placed(was, j, c, slots, union, nLeafMax);
      StoredOne(slots, was, j);
    }
  }

  // ---- All pairs of cuts of the children ----

  // The pairs of stored cuts, in the order of the loops.
  ghost function RowPairs(c: Cut, s: seq<Cut>): seq<(Cut, Cut)>
  {
    if s == [] then [] else RowPairs(c, s[..|s| - 1]) + if s[|s| - 1].fanins != [] then [(c, s[|s| - 1])] else []
  }

  ghost function PairsOf(s: seq<Cut>, t: seq<Cut>): seq<(Cut, Cut)>
  {
    if s == [] then []
    else PairsOf(s[..|s| - 1], t) + if s[|s| - 1].fanins != [] then RowPairs(s[|s| - 1], t) else []
  }

  // The slots after each pair, from the first state on.
  ghost predicate Traced(trace: seq<seq<Cut>>, pairs: seq<(Cut, Cut)>, nLeafMax: nat)
  {
    && |trace| == |pairs| + 1
    && forall p :: 0 <= p < |pairs| ==> PairStep(trace[p], pairs[p].0, pairs[p].1, trace[p + 1], nLeafMax)
  }

  lemma PairsNone(s: seq<Cut>, t: seq<Cut>)
    ensures PairsOf(s[..0], t) == []
  {
  }

  lemma RowNone(c: Cut, t: seq<Cut>)
    ensures RowPairs(c, t[..0]) == []
  {
  }

  lemma RowStep(c: Cut, t: seq<Cut>, k: nat)
    requires k < |t|
    ensures RowPairs(c, t[..k + 1]) == RowPairs(c, t[..k]) + if t[k].fanins != [] then [(c, t[k])] else []
  {
    assert t[..k + 1][..k] == t[..k];
  }

  lemma PairsStep(s: seq<Cut>, t: seq<Cut>, i: nat)
    requires i < |s|
    ensures PairsOf(s[..i + 1], t) == PairsOf(s[..i], t) + if s[i].fanins != [] then RowPairs(s[i], t) else []
  {
    assert s[..i + 1][..i] == s[..i];
  }

  lemma {:induction false} RowHas(c: Cut, t: seq<Cut>, k: nat)
    requires k < |t| && t[k].fanins != []
    ensures (c, t[k]) in RowPairs(c, t)
  {
    if k < |t| - 1 {
      RowHas(c, t[..|t| - 1], k);
    }
  }

  // Every pair of stored cuts has its turn.
  lemma {:induction false} PairsHave(s: seq<Cut>, t: seq<Cut>, i: nat, k: nat)
    requires i < |s| && s[i].fanins != [] && k < |t| && t[k].fanins != []
    ensures (s[i], t[k]) in PairsOf(s, t)
  {
    if i < |s| - 1 {
      PairsHave(s[..|s| - 1], t, i, k);
    } else {
      RowHas(s[i], t, k);
    }
  }

  lemma {:induction false} RowStored(c: Cut, t: seq<Cut>)
    ensures |RowPairs(c, t)| == Stored(t)
      && forall p :: p in RowPairs(c, t) ==> p.0 == c && p.1 in t && p.1.fanins != []
  {
    if t != [] {
      RowStored(c, t[..|t| - 1]);
    }
  }

  lemma {:induction false} PairsStored(s: seq<Cut>, t: seq<Cut>)
    ensures |PairsOf(s, t)| == Stored(s) * Stored(t)
    ensures forall p :: p in PairsOf(s, t) ==> p.0 in s && p.1 in t && p.0.fanins != [] && p.1.fanins != []
  {
    hide Stored, RowPairs;
    StoredLast(s);
    if s != [] {
      var n := |s| - 1;
      PairsStored(s[..n], t);
      RowStored(s[n], t);
      assert (Stored(s[..n]) + 1) * Stored(t) == Stored(s[..n]) * Stored(t) + Stored(t);
    }
  }

  // From the trivial cut through all pairs to the slots of the node.
  ghost predicate Computed(id: nat, fTriv: bool, s: seq<Cut>, t: seq<Cut>, slots: seq<Cut>, nCutsMax: nat,
      nLeafMax: nat)
  {
    exists trace :: ComputedBy(trace, id, fTriv, s, t, slots, nCutsMax, nLeafMax)
  }

  ghost predicate ComputedBy(trace: seq<seq<Cut>>, id: nat, fTriv: bool, s: seq<Cut>, t: seq<Cut>, slots: seq<Cut>,
      nCutsMax: nat, nLeafMax: nat)
  {
    && Traced(trace, PairsOf(s, t), nLeafMax) && trace[|PairsOf(s, t)|] == slots
    && nCutsMax > 0 && trace[0] == FirstSlots(id, fTriv, nCutsMax)
  }

  // Free slots, the first with the trivial cut if asked for.
  function FirstSlots(id: nat, fTriv: bool, nCutsMax: nat): (slots: seq<Cut>)
    requires nCutsMax > 0
    ensures |slots| == nCutsMax
  {
    seq(nCutsMax, i => if fTriv && i == 0 then Cut([id], {id % 32}, 0) else Cut([], {}, 0))
  }

  lemma FirstStored(id: nat, fTriv: bool, nCutsMax: nat)
    requires nCutsMax > 0
    ensures Stored(FirstSlots(id, fTriv, nCutsMax)) <= 1
    ensures fTriv ==> Represented(FirstSlots(id, fTriv, nCutsMax), {id})
  {
    var none := seq(nCutsMax, i => Cut([], {}, 0));
    NoneStored(none);
    StoredOne(FirstSlots(id, fTriv, nCutsMax), none, 0);
    if fTriv {
      assert FirstSlots(id, fTriv, nCutsMax)[0].fanins == [id];
    }
  }

  lemma {:induction false} NoneStored(s: seq<Cut>)
    requires forall i :: 0 <= i < |s| ==> s[i].fanins == []
    ensures Stored(s) == 0
  {
    if s != [] {
      NoneStored(s[..|s| - 1]);
    }
  }

  lemma {:induction false} TraceRoom(trace: seq<seq<Cut>>, pairs: seq<(Cut, Cut)>, nLeafMax: nat, p: nat)
    requires Traced(trace, pairs, nLeafMax) && p <= |pairs| && Stored(trace[0]) <= 1
    ensures |trace[p]| == |trace[0]| && Stored(trace[p]) <= p + 1
  {
    hide PairStep, Stored;
    if p > 0 {
      TraceRoom(trace, pairs, nLeafMax, p - 1);
      StepStored(trace[p - 1], pairs[p - 1].0, pairs[p - 1].1, trace[p], nLeafMax);
    }
  }

  // Until the slots are full, nothing that is represented is lost.
  lemma {:induction false} TraceKeeps(trace: seq<seq<Cut>>, pairs: seq<(Cut, Cut)>, nLeafMax: nat, p: nat, q: nat,
      leaves: set<nat>)
    requires Traced(trace, pairs, nLeafMax) && p <= q <= |pairs| && Represented(trace[p], leaves)
    requires forall k :: 0 <= k < |pairs| ==> HasFree(trace[k]) && pairs[k].0.fanins != []
    ensures Represented(trace[q], leaves)
  {
    hide PairStep, HasFree, Represented;
    if p < q {
      TraceKeeps(trace, pairs, nLeafMax, p, q - 1, leaves);
      StepKeeps(trace[q - 1], pairs[q - 1].0, pairs[q - 1].1, trace[q], nLeafMax, leaves);
    }
  }

  // There is room for all pairs and the trivial cut.
  ghost predicate Roomy(s: seq<Cut>, t: seq<Cut>, nCutsMax: nat)
  {
    Stored(s) * Stored(t) < nCutsMax
  }

  lemma RoomyTrace(trace: seq<seq<Cut>>, id: nat, fTriv: bool, s: seq<Cut>, t: seq<Cut>, slots: seq<Cut>, nCutsMax: nat,
      nLeafMax: nat)
    requires ComputedBy(trace, id, fTriv, s, t, slots, nCutsMax, nLeafMax) && Roomy(s, t, nCutsMax)
    ensures forall k :: 0 <= k < |PairsOf(s, t)| ==> HasFree(trace[k]) && PairsOf(s, t)[k].0.fanins != []
  {
    hide PairsOf, Stored, HasFree, PairStep;
    var pairs := PairsOf(s, t);
    PairsStored(s, t);
    FirstStored(id, fTriv, nCutsMax);
    forall k | 0 <= k < |pairs| ensures HasFree(trace[k]) && pairs[k].0.fanins != []
    {
      assert pairs[k] in pairs;
      TraceRoom(trace, pairs, nLeafMax, k);
      if !HasFree(trace[k]) {
        StoredFull(trace[k]);
      }
    }
  }

  // With room, the trivial cut and every pair that fits are represented.
  lemma RoomyFinds(id: nat, fTriv: bool, s: seq<Cut>, t: seq<Cut>, slots: seq<Cut>, nCutsMax: nat, nLeafMax: nat,
      i: nat, k: nat)
    requires Computed(id, fTriv, s, t, slots, nCutsMax, nLeafMax) && Roomy(s, t, nCutsMax)
    requires i < |s| && s[i].fanins != [] && k < |t| && t[k].fanins != []
    requires s[i].sign == Sign(s[i].fanins) && t[k].sign == Sign(t[k].fanins)
    requires |LeafSet(s[i].fanins) + LeafSet(t[k].fanins)| <= nLeafMax
    ensures Represented(slots, LeafSet(s[i].fanins) + LeafSet(t[k].fanins))
  {
    hide PairsOf, PairStep, HasFree, Represented, Sign, LeafSet, Roomy;
    var trace :| ComputedBy(trace, id, fTriv, s, t, slots, nCutsMax, nLeafMax);
    var pairs := PairsOf(s, t);
    RoomyTrace(trace, id, fTriv, s, t, slots, nCutsMax, nLeafMax);
    PairsHave(s, t, i, k);
    var p :| 0 <= p < |pairs| && pairs[p] == (s[i], t[k]);
    SignCount(s[i].fanins, t[k].fanins);
    StepFinds(trace[p], s[i], t[k], trace[p + 1], nLeafMax);
    TraceKeeps(trace, pairs, nLeafMax, p + 1, |pairs|, LeafSet(s[i].fanins) + LeafSet(t[k].fanins));
  }

  lemma RoomyTrivial(id: nat, fTriv: bool, s: seq<Cut>, t: seq<Cut>, slots: seq<Cut>, nCutsMax: nat, nLeafMax: nat)
    requires Computed(id, fTriv, s, t, slots, nCutsMax, nLeafMax) && Roomy(s, t, nCutsMax) && fTriv
    ensures Represented(slots, {id})
  {
    hide PairsOf, PairStep, HasFree, Represented, Roomy;
    var trace :| ComputedBy(trace, id, fTriv, s, t, slots, nCutsMax, nLeafMax);
    RoomyTrace(trace, id, fTriv, s, t, slots, nCutsMax, nLeafMax);
    FirstStored(id, fTriv, nCutsMax);
    TraceKeeps(trace, PairsOf(s, t), nLeafMax, 0, |PairsOf(s, t)|, {id});
  }

  lemma RepresentedMore(slots: seq<Cut>, s: set<nat>, t: set<nat>)
    requires Represented(slots, s) && s <= t
    ensures Represented(slots, t)
  {
  }

  class CutManager {
    const g: Graph
    const nCutsMax: nat
    const nLeafMax: nat
    // The slots of every node; none before its cuts are computed.
    var cuts: seq<seq<Cut>>

    constructor (g: Graph, nCutsMax: nat, nLeafMax: nat)
      requires WellFormed(g)
      ensures Valid() && this.g == g && this.nCutsMax == nCutsMax && this.nLeafMax == nLeafMax
      ensures forall id :: 0 <= id < |g| ==> cuts[id] == []
    {
      this.g, this.nCutsMax, this.nLeafMax := g, nCutsMax, nLeafMax;
      cuts := seq(|g|, i => []);
    }

    ghost predicate Valid()
      reads this
    {
      && WellFormed(g) && |cuts| == |g|
      && forall id :: 0 <= id < |g| ==> SlotsOk(g, id, cuts[id], nLeafMax) && AntichainBut(cuts[id], -1)
    }

    // Free slots, the first with the trivial cut if asked for.
    method PrepareCuts(id: nat, fTriv: bool) returns (slots: seq<Cut>)
      requires WellFormed(g) && id < |g| && nCutsMax > 0 && nLeafMax > 0
      ensures |slots| == nCutsMax && SlotsOk(g, id, slots, nLeafMax) && AntichainBut(slots, -1)
      ensures slots == FirstSlots(id, fTriv, nCutsMax)
    {
      slots := seq(nCutsMax, i => Cut([], {}, 0));
      if fTriv {
        TrivialDetermines(g, id);
        assert id in [id];
        assert Sign([id]) == {id % 32};
        slots := slots[0 := Cut([id], {id % 32}, 0)];
      }
    }

    // Tries to store the merged cut of two cuts of the children. If it is not too
    // large, it is stored, or a cut within it was stored before.
    method TryPair(id: nat, c0: Cut, c1: Cut, was: seq<Cut>) returns (slots: seq<Cut>)
      requires WellFormed(g) && id < |g| && g[id].And? && |was| > 0
      requires CutOk(g, g[id].child0.id, c0, nLeafMax) && CutOk(g, g[id].child1.id, c1, nLeafMax)
      requires SlotsOk(g, id, was, nLeafMax) && AntichainBut(was, -1)
      ensures |slots| == |was| && SlotsOk(g, id, slots, nLeafMax) && AntichainBut(slots, -1)
      ensures |LeafSet(c0.fanins) + LeafSet(c1.fanins)| <= nLeafMax ==>
        Represented(slots, LeafSet(c0.fanins) + LeafSet(c1.fanins))
      ensures PairStep(was, c0, c1, slots, nLeafMax)
    {
      hide LeafSet, Increasing, Determines, AntichainBut, Sign, HasFree;
      ghost var union := LeafSet(c0.fanins) + LeafSet(c1.fanins);
      SignCount(c0.fanins, c1.fanins);
      if |c0.sign + c1.sign| > nLeafMax {
        return was;
      }
      var j;
      j, slots := FindFree(was);
      AsideAntichain(was, j, slots[j]);
      FreedAntichain(slots, j);
      var ok, c := CutMerge(c0, c1, nLeafMax);
      if !ok {
        assert Placed(was, j, c, slots, union, nLeafMax);
        return;
      }
      MergedOk(g, id, c0, c1, c, nLeafMax);
      var cost: int := *;
      var before := slots[j := c.(cost := cost)];
      AsideAntichain(was, j, before[j]);
      assert before == was[j := before[j]];
      var dominated;
      dominated, slots := Filter(before, j);
      if dominated {
        ghost var i :| 0 <= i < |before| && Dominates(before, i, j);
        assert slots[i] == before[i];
        AsideAntichain(was, j, slots[j]);
        assert slots == was[j := slots[j]];
        FreedAntichain(slots, j);
        assert Placed(was, j, before[j], slots, union, nLeafMax);
        return;
      }
      FilteredAntichain(slots, before, j);
      assert slots[j] == before[j];
      assert Placed(was, j, before[j], slots, union, nLeafMax);
    }

    // The cuts of a node from those of its children.
    method ObjComputeCuts(id: nat, fTriv: bool)
      requires Valid() && id < |g| && g[id].And? && nCutsMax > 0 && nLeafMax > 0
      modifies this`cuts
      ensures Valid() && |cuts[id]| == nCutsMax && cuts == old(cuts)[id := cuts[id]]
      ensures Computed(id, fTriv, old(cuts[g[id].child0.id]), old(cuts[g[id].child1.id]), cuts[id], nCutsMax, nLeafMax)
    {
      hide Tracing, CutOk, AntichainBut, PairsOf;
      var slots := PrepareCuts(id, fTriv);
      var slots0, slots1 := cuts[g[id].child0.id], cuts[g[id].child1.id];
      ghost var trace, pairs: seq<(Cut, Cut)> := [slots], [];
      TraceStart(slots, id, fTriv);
      PairsNone(slots0, slots1);
      for i := 0 to |slots0|
        invariant cuts == old(cuts) && pairs == PairsOf(slots0[..i], slots1)
        invariant |slots| == nCutsMax && SlotsOk(g, id, slots, nLeafMax) && AntichainBut(slots, -1)
        invariant Tracing(trace, pairs, slots, id, fTriv)
      {
        PairsStep(slots0, slots1, i);
        if |slots0[i].fanins| > 0 {
          slots, trace, pairs := TryRow(id, fTriv, slots0[i], slots1, slots, trace, pairs);
        }
      }
      assert slots0[..|slots0|] == slots0;
      TraceEnd(trace, id, fTriv, slots0, slots1, slots);
      cuts := cuts[id := slots];
    }

    // One cut of the first child with all cuts of the second.
    method TryRow(id: nat, ghost fTriv: bool, c0: Cut, slots1: seq<Cut>, was: seq<Cut>, ghost trace0: seq<seq<Cut>>,
        ghost pairs0: seq<(Cut, Cut)>)
      returns (slots: seq<Cut>, ghost trace: seq<seq<Cut>>, ghost pairs: seq<(Cut, Cut)>)
      requires Valid() && id < |g| && g[id].And? && |was| == nCutsMax > 0 && c0.fanins != []
      requires CutOk(g, g[id].child0.id, c0, nLeafMax) && SlotsOk(g, g[id].child1.id, slots1, nLeafMax)
      requires SlotsOk(g, id, was, nLeafMax) && AntichainBut(was, -1) && Tracing(trace0, pairs0, was, id, fTriv)
      ensures |slots| == nCutsMax && SlotsOk(g, id, slots, nLeafMax) && AntichainBut(slots, -1)
      ensures pairs == pairs0 + RowPairs(c0, slots1) && Tracing(trace, pairs, slots, id, fTriv)
    {
      hide PairStep, CutOk, AntichainBut, Tracing, RowPairs;
      slots, trace, pairs := was, trace0, pairs0;
      RowNone(c0, slots1);
      for k := 0 to |slots1|
        invariant pairs == pairs0 + RowPairs(c0, slots1[..k])
        invariant |slots| == nCutsMax && SlotsOk(g, id, slots, nLeafMax) && AntichainBut(slots, -1)
        invariant Tracing(trace, pairs, slots, id, fTriv)
      {
        RowStep(c0, slots1, k);
        if |slots1[k].fanins| > 0 {
          ghost var before := slots;
          slots := TryPair(id, c0, slots1[k], slots);
          TraceStep(trace, pairs, before, c0, slots1[k], slots, id, fTriv);
          trace, pairs := trace + [slots], pairs + [(c0, slots1[k])];
        }
      }
      assert slots1[..|slots1|] == slots1;
    }

    lemma TraceStart(slots: seq<Cut>, id: nat, fTriv: bool)
      requires nCutsMax > 0 && slots == FirstSlots(id, fTriv, nCutsMax)
      ensures Tracing([slots], [], slots, id, fTriv)
    {
    }

    lemma TraceStep(trace: seq<seq<Cut>>, pairs: seq<(Cut, Cut)>, was: seq<Cut>, c0: Cut, c1: Cut, slots: seq<Cut>,
        id: nat, fTriv: bool)
      requires Tracing(trace, pairs, was, id, fTriv) && PairStep(was, c0, c1, slots, nLeafMax)
      ensures Tracing(trace + [slots], pairs + [(c0, c1)], slots, id, fTriv)
    {
      hide PairStep;
    }

    lemma TraceEnd(trace: seq<seq<Cut>>, id: nat, fTriv: bool, s: seq<Cut>, t: seq<Cut>, slots: seq<Cut>)
      requires Tracing(trace, PairsOf(s, t), slots, id, fTriv)
      ensures Computed(id, fTriv, s, t, slots, nCutsMax, nLeafMax)
    {
      assert ComputedBy(trace, id, fTriv, s, t, slots, nCutsMax, nLeafMax);
    }

    ghost predicate Tracing(trace: seq<seq<Cut>>, pairs: seq<(Cut, Cut)>, slots: seq<Cut>, id: nat, fTriv: bool)
    {
      && Traced(trace, pairs, nLeafMax) && |trace| == |pairs| + 1 && trace[|pairs|] == slots
      && nCutsMax > 0 && trace[0] == FirstSlots(id, fTriv, nCutsMax)
    }

    // Trivial cuts at the inputs, then the nodes in order.
    method ComputeCuts()
      requires Valid() && nCutsMax > 0 && nLeafMax > 0
      modifies this`cuts
      ensures Valid() && AllComputed(g, cuts, |g|, nCutsMax, nLeafMax)
      ensures forall id :: 0 < id < |g| ==> |cuts[id]| == nCutsMax
    {
      hide SlotsOk, AntichainBut, Computed, FirstSlots;
      PrepareInputs();
      for id := 1 to |g|
        invariant Valid() && AllComputed(g, cuts, id, nCutsMax, nLeafMax)
      {
        hide AllComputed;
        ghost var cuts0 := cuts;
        if g[id].And? {
          ObjComputeCuts(id, true);
        }
        ComputedMore(g, cuts0, cuts, id, nCutsMax, nLeafMax);
      }
    }

    method PrepareInputs()
      requires Valid() && nCutsMax > 0 && nLeafMax > 0
      modifies this`cuts
      ensures Valid() && AllComputed(g, cuts, 1, nCutsMax, nLeafMax)
    {
      hide SlotsOk, AntichainBut, Computed, FirstSlots;
      for id := 1 to |g|
        invariant Valid() && forall k :: 0 < k < id && g[k].Ci? ==> cuts[k] == FirstSlots(k, true, nCutsMax)
      {
        if g[id].Ci? {
          var slots := PrepareCuts(id, true);
          cuts := cuts[id := slots];
        }
      }
    }
  }

  // The inputs have their trivial cuts, and the nodes below `n` what comes from their
  // children.
  ghost predicate AllComputed(g: Graph, cuts: seq<seq<Cut>>, n: nat, nCutsMax: nat, nLeafMax: nat)
  {
    && WellFormed(g) && |cuts| == |g| && n <= |g| && nCutsMax > 0
    && (forall id :: 0 < id < |g| && g[id].Ci? ==> cuts[id] == FirstSlots(id, true, nCutsMax))
    && forall id :: 0 < id < n && g[id].And? ==>
      |cuts[id]| == nCutsMax
      && Computed(id, true, cuts[g[id].child0.id], cuts[g[id].child1.id], cuts[id], nCutsMax, nLeafMax)
  }

  lemma ComputedMore(g: Graph, cuts: seq<seq<Cut>>, cuts': seq<seq<Cut>>, id: nat, nCutsMax: nat, nLeafMax: nat)
    requires AllComputed(g, cuts, id, nCutsMax, nLeafMax) && 0 < id < |g| && |cuts'| == |g|
    requires cuts' == if g[id].And? then cuts[id := cuts'[id]] else cuts
    requires g[id].And? ==> |cuts'[id]| == nCutsMax
    requires g[id].And? ==>
      Computed(id, true, cuts[g[id].child0.id], cuts[g[id].child1.id], cuts'[id], nCutsMax, nLeafMax)
    ensures AllComputed(g, cuts', id + 1, nCutsMax, nLeafMax)
  {
    hide Computed, FirstSlots;
  }

  // There is room at every node up to `id`.
  ghost predicate RoomyTo(g: Graph, cuts: seq<seq<Cut>>, id: nat, nCutsMax: nat)
    requires WellFormed(g) && |cuts| == |g|
  {
    forall k :: 0 < k <= id && k < |g| && g[k].And? ==>
      Roomy(cuts[g[k].child0.id], cuts[g[k].child1.id], nCutsMax)
  }

  lemma ChildCuts(g: Graph, cuts: seq<seq<Cut>>, id: nat, leaves: set<nat>, nLeafMax: nat) returns (i: nat)
    requires WellFormed(g) && id < |g| == |cuts| && SlotsOk(g, id, cuts[id], nLeafMax) && Represented(cuts[id], leaves)
    ensures i < |cuts[id]| && cuts[id][i].fanins != [] && LeafSet(cuts[id][i].fanins) <= leaves
    ensures cuts[id][i].sign == Sign(cuts[id][i].fanins)
  {
    i :| 0 <= i < |cuts[id]| && cuts[id][i].fanins != [] && LeafSet(cuts[id][i].fanins) <= leaves;
    assert CutOk(g, id, cuts[id][i], nLeafMax);
  }

  // The enumeration is complete: with room for all pairs, a set of leaves within the
  // size limit cuts a node off from the inputs exactly if a stored cut lies within it.
  lemma {:induction false} CutsComplete(g: Graph, cuts: seq<seq<Cut>>, nCutsMax: nat, nLeafMax: nat, id: nat,
      leaves: set<nat>)
    requires AllComputed(g, cuts, |g|, nCutsMax, nLeafMax) && 0 < id < |g|
    requires forall k :: 0 <= k < |g| ==> SlotsOk(g, k, cuts[k], nLeafMax)
    requires RoomyTo(g, cuts, id, nCutsMax) && |leaves| <= nLeafMax
    ensures Represented(cuts[id], leaves) <==> CutsOff(g, id, leaves)
    decreases id
  {
    hide SlotsOk, Represented, Computed, Roomy, FirstSlots, Sign;
    if Represented(cuts[id], leaves) {
      StoredCutsOff(g, cuts, nLeafMax, id, leaves);
    }
    if CutsOff(g, id, leaves) {
      if id in leaves {
        if g[id].And? {
          RoomyTrivial(id, true, cuts[g[id].child0.id], cuts[g[id].child1.id], cuts[id], nCutsMax, nLeafMax);
        } else {
          FirstStored(id, true, nCutsMax);
        }
        RepresentedMore(cuts[id], {id}, leaves);
      } else {
        var a, b := g[id].child0.id, g[id].child1.id;
        CutsComplete(g, cuts, nCutsMax, nLeafMax, a, leaves);
        CutsComplete(g, cuts, nCutsMax, nLeafMax, b, leaves);
        var i := ChildCuts(g, cuts, a, leaves, nLeafMax);
        var k := ChildCuts(g, cuts, b, leaves, nLeafMax);
        var union := LeafSet(cuts[a][i].fanins) + LeafSet(cuts[b][k].fanins);
        SubsetSize(union, leaves);
        RoomyFinds(id, true, cuts[a], cuts[b], cuts[id], nCutsMax, nLeafMax, i, k);
        RepresentedMore(cuts[id], union, leaves);
      }
    }
  }

  lemma StoredCutsOff(g: Graph, cuts: seq<seq<Cut>>, nLeafMax: nat, id: nat, leaves: set<nat>)
    requires WellFormed(g) && id < |g| == |cuts| && SlotsOk(g, id, cuts[id], nLeafMax) && Represented(cuts[id], leaves)
    ensures CutsOff(g, id, leaves)
  {
    var i :| 0 <= i < |cuts[id]| && cuts[id][i].fanins != [] && LeafSet(cuts[id][i].fanins) <= leaves;
    assert CutOk(g, id, cuts[id][i], nLeafMax);
    CutsOffMore(g, id, LeafSet(cuts[id][i].fanins), leaves);
  }

  lemma MergedOk(g: Graph, id: nat, c0: Cut, c1: Cut, c: Cut, nLeafMax: nat)
    requires WellFormed(g) && id < |g| && g[id].And?
    requires CutOk(g, g[id].child0.id, c0, nLeafMax) && CutOk(g, g[id].child1.id, c1, nLeafMax)
    requires Merged(c0.fanins, c1.fanins, nLeafMax, true, c.fanins) && c.sign == Sign(c.fanins)
    ensures CutOk(g, id, c, nLeafMax)
  {
    MergeDetermines(g, id, c0.fanins, c1.fanins, c.fanins);
    CutsOffMore(g, g[id].child0.id, LeafSet(c0.fanins), LeafSet(c.fanins));
    CutsOffMore(g, g[id].child1.id, LeafSet(c1.fanins), LeafSet(c.fanins));
    assert c0.fanins[0] in LeafSet(c.fanins);
  }
}
