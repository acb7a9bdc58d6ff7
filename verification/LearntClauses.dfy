// Work on the learnt clause as a plain vector: its level count, the in-place
// partition used by binary minimisation and the choice of the second watch.
module LearntClauses {
  import opened SolverTypes
  import opened ConflictAnalysis
  import opened AnalysisSteps
  import Sets

  lemma VarsSlice(c: seq<Lit>, i: nat, j: nat)
    requires DistinctVars(c) && i <= j <= |c|
    ensures |VarsOf(c[i..j])| == j - i
    ensures forall k :: 0 <= k < |c| && !(i <= k < j) ==> c[k].v !in VarsOf(c[i..j])
  {
    CountVars(c[i..j]);
    forall k | 0 <= k < |c| && !(i <= k < j) ensures c[k].v !in VarsOf(c[i..j])
    {
      forall t | i <= t < j ensures c[t].v != c[k].v {}
    }
  }

  lemma ShrunkShorter(a: seq<Lit>, b: seq<Lit>)
    requires Shrunk(a, b) && DistinctVars(a)
    ensures |b| <= |a|
  {
    CountVars(a);
    CountVars(b);
    Sets.SubsetSize(VarsOf(b), VarsOf(a));
  }

  lemma SameRest(c: seq<Lit>, d: seq<Lit>)
    requires SameLits(c, d) && |c| > 0 && c[0] == d[0] && DistinctVars(c) && DistinctVars(d)
    ensures VarsOf(c[1..]) == VarsOf(d[1..])
  {
    RestIn(c, d);
    RestIn(d, c);
  }

  lemma RestIn(c: seq<Lit>, d: seq<Lit>)
    requires SameLits(c, d) && |c| > 0 && c[0] == d[0] && DistinctVars(c)
    ensures VarsOf(c[1..]) <= VarsOf(d[1..])
  {
    forall v | v in VarsOf(c[1..]) ensures v in VarsOf(d[1..])
    {
      var l :| l in c[1..] && l.v == v;
      var i :| 0 <= i < |c[1..]| && c[1..][i] == l;
      assert c[i + 1] == l && l in c && l in d;
      var j :| 0 <= j < |d| && d[j] == l;
      assert d[1..][j - 1] == l;
    }
  }

  // While the head up to `i` is marked, the tail after `l` is not, and the literal
  // at `i` is unmarked, there is room for it before the tail.
  lemma PartitionRoom(c: seq<Lit>, marked: set<nat>, nb: nat, i: nat, l: nat)
    requires DistinctVars(c) && 1 <= i < |c| - nb && l < |c| && i <= l + 1
    requires marked <= VarsOf(c[1..]) && |marked| + nb == |c| - 1
    requires forall k :: l < k < |c| ==> c[k].v !in marked
    ensures i <= l
  {
    hide VarsOf, DistinctVars;
    VarsSlice(c, 1, |c|);
    VarsSlice(c, l + 1, |c|);
    assert c[1..|c|] == c[1..];
    UnmarkedTail(c, marked, l);
    FewerLeft(VarsOf(c[1..]), marked, VarsOf(c[l + 1..|c|]));
  }

  lemma FewerLeft<T>(all: set<T>, marked: set<T>, tail: set<T>)
    requires marked <= all && tail <= all - marked
    ensures |tail| <= |all| - |marked|
  {
    Sets.SubsetSize(tail, all - marked);
  }

  lemma UnmarkedTail(c: seq<Lit>, marked: set<nat>, l: nat)
    requires l < |c| && forall k :: l < k < |c| ==> c[k].v !in marked
    ensures VarsOf(c[l + 1..|c|]) <= VarsOf(c[1..]) - marked
  {
    forall v | v in VarsOf(c[l + 1..|c|]) ensures v in VarsOf(c[1..]) && v !in marked
    {
      var k :| 0 <= k < |c[l + 1..|c|]| && c[l + 1..|c|][k].v == v;
      assert c[1..][l + k] == c[l + 1 + k];
      assert c[1..][l + k] in c[1..];
    }
  }

  lemma PartitionDone(c: seq<Lit>, marked: set<nat>, nb: nat, k: nat)
    requires DistinctVars(c) && nb < |c| && 1 <= k < |c|
    requires marked <= VarsOf(c[1..]) && |marked| + nb == |c| - 1
    requires forall i :: 1 <= i < |c| - nb ==> c[i].v in marked
    requires c[k].v in marked
    ensures k < |c| - nb
  {
    VarsSlice(c, 1, |c| - nb);
    var head := VarsOf(c[1..|c| - nb]);
    assert head <= marked;
    EqualBySize(head, marked);
  }

  lemma EqualBySize<T>(s: set<T>, t: set<T>)
    requires s <= t && |s| == |t|
    ensures s == t
  {
    Sets.SubsetSize(s, t);
    if x :| x in t && x !in s {
      Sets.SubsetSize(s, t - {x});
    }
  }

  // Moves the literals with unmarked variables to the end, in place, and cuts
  // them off; there are `nb` of them.
  method Partition(learnt0: seq<Lit>, marked: set<nat>, nb: nat) returns (learnt: seq<Lit>)
    requires |learnt0| > 0 && DistinctVars(learnt0)
    requires marked <= VarsOf(learnt0[1..]) && |marked| + nb == |learnt0| - 1
    ensures Shrunk(learnt0, learnt) && |learnt| == |learnt0| - nb
    ensures forall l :: l in learnt0[1..] ==> (l.v in marked <==> l in learnt)
  {
    learnt := learnt0;
    var l := |learnt| - 1;
    var i := 1;
    while i < |learnt| - nb
      invariant 1 <= i <= |learnt| - nb && i <= l + 1 <= |learnt| == |learnt0|
      invariant SameLits(learnt0, learnt) && DistinctVars(learnt) && learnt[0] == learnt0[0]
      invariant forall k :: 1 <= k < i ==> learnt[k].v in marked
      invariant forall k :: l < k < |learnt| ==> learnt[k].v !in marked
      decreases l - i
    {
      if learnt[i].v !in marked {
        SameRest(learnt0, learnt);
        PartitionRoom(learnt, marked, nb, i, l);
        learnt := Swapped(learnt, i, l);
        l := l - 1;
      } else {
        i := i + 1;
      }
    }
    SameRest(learnt0, learnt);
    forall k | 1 <= k < |learnt| && learnt[k].v in marked ensures k < |learnt| - nb
    {
      PartitionDone(learnt, marked, nb, k);
    }
    PartitionKept(learnt0, learnt, marked, nb);
    learnt := learnt[..|learnt| - nb];
  }

  lemma PartitionKept(learnt0: seq<Lit>, c: seq<Lit>, marked: set<nat>, nb: nat)
    requires |learnt0| > 0 && SameLits(learnt0, c) && DistinctVars(c) && c[0] == learnt0[0] && nb < |c|
    requires DistinctVars(learnt0)
    requires forall k :: 1 <= k < |c| ==> (c[k].v in marked <==> k < |c| - nb)
    ensures Shrunk(learnt0, c[..|c| - nb])
    ensures forall l :: l in learnt0[1..] ==> (l.v in marked <==> l in c[..|c| - nb])
  {
    var d := c[..|c| - nb];
    forall l | l in learnt0[1..] ensures l.v in marked <==> l in d
    {
      var t :| 0 <= t < |learnt0[1..]| && learnt0[1..][t] == l;
      assert learnt0[t + 1] == l && l.v != learnt0[0].v && l in learnt0 && l in c;
      var k :| 0 <= k < |c| && c[k] == l;
      if l in d {
        var j :| 0 <= j < |d| && d[j] == l;
        assert c[j] == l;
      }
      if k < |c| - nb {
        assert d[k] == l;
      }
    }
  }
}
