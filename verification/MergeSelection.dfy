// The counterexample-guided search for clusters whose inputs suffice to realise
// the target.
module MergeSelecting {
  import opened SolverTypes
  import opened BitVectors
  import opened SetCovering
  import opened PatchDesign

  // The constraint solver over two input vectors: `x` needs target value 0 and `y`
  // needs 1. `in0` and `in1` are the patterns blocked for `x` and `y`.
  predicate Query(d: Design, x: Vec, y: Vec, equal: set<nat>, in0: seq<Vec>, in1: seq<Vec>, noIn0: bool, noIn1: bool)
  {
    && d.Wants(x, false) && d.Wants(y, true) && d.Agree(x, y, equal)
    && (forall p :: p in in0 ==> ClauseHolds(d.signals(x), p, noIn0))
    && (forall p :: p in in1 ==> ClauseHolds(d.signals(y), p, noIn1))
  }

  // The answer of the solver: a pair of vectors, or the news that there is none.
  method Solve(d: Design, equal: set<nat>, in0: seq<Vec>, in1: seq<Vec>, noIn0: bool, noIn1: bool)
      returns (res: Option<(Vec, Vec)>)
    ensures res.Some? ==>
      res.value.0 in d.inputs && res.value.1 in d.inputs
      && Query(d, res.value.0, res.value.1, equal, in0, in1, noIn0, noIn1)
    ensures res.None? ==>
      forall x, y :: x in d.inputs && y in d.inputs ==> !Query(d, x, y, equal, in0, in1, noIn0, noIn1)
  {
    if x, y :| x in d.inputs && y in d.inputs && Query(d, x, y, equal, in0, in1, noIn0, noIn1) {
      return Some((x, y));
    }
    return None;
  }

  // Where two patterns differ.
  function Difference(p: Vec, q: Vec): (r: seq<bool>)
    requires |p| == |q|
    ensures |r| == |p|
  {
    seq(|p|, i requires 0 <= i < |p| => p[i] != q[i])
  }

  // Every pair of recorded cases has its row.
  ghost predicate RowsCover(rows: Matrix, in0: seq<Vec>, in1: seq<Vec>)
  {
    forall p, q :: p in in0 && q in in1 && |p| == |q| ==> Difference(p, q) in rows
  }

  // Rows stand for recorded pairs only.
  ghost predicate RowsFrom(rows: Matrix, in0: seq<Vec>, in1: seq<Vec>)
  {
    forall r :: r in rows ==> exists p, q :: p in in0 && q in in1 && |p| == |q| && r == Difference(p, q)
  }

  // Cases are patterns of inputs that need value `t`.
  ghost predicate CasesOk(d: Design, cases: seq<Vec>, t: bool)
  {
    forall p :: p in cases ==> exists x :: x in d.inputs && d.Wants(x, t) && d.signals(x) == p
  }

  // Every recorded pair differs on a signal in `s`.
  ghost predicate PairsHit(in0: seq<Vec>, in1: seq<Vec>, s: set<nat>)
  {
    forall p, q :: p in in0 && q in in1 ==> exists k :: k in s && k < |p| && k < |q| && p[k] != q[k]
  }

  // Conflicting inputs that agree on `s` have patterns among the recorded ones.
  ghost predicate Explained(d: Design, s: set<nat>, cases: seq<Vec>, t: bool)
  {
    forall x, y :: x in d.inputs && y in d.inputs && d.Wants(x, false) && d.Wants(y, true) && d.Agree(x, y, s) ==>
      (if t then d.signals(y) else d.signals(x)) in cases
  }

  lemma UnsatExplains(d: Design, s: set<nat>, in0: seq<Vec>, in1: seq<Vec>, noIn0: bool, noIn1: bool)
    requires d.WellFormed() && d.width > 0 && CasesOk(d, in0, false) && CasesOk(d, in1, true)
    requires forall x, y :: x in d.inputs && y in d.inputs ==> !Query(d, x, y, s, in0, in1, noIn0, noIn1)
    ensures noIn1 ==> Explained(d, s, in0, false)
    ensures noIn0 ==> Explained(d, s, in1, true)
  {
    forall x, y | x in d.inputs && y in d.inputs && d.Wants(x, false) && d.Wants(y, true) && d.Agree(x, y, s)
      ensures noIn1 ==> d.signals(x) in in0
      ensures noIn0 ==> d.signals(y) in in1
    {
      if noIn1 && d.signals(x) !in in0 {
        BlocksHold(d, x, in0, noIn0, false);
        BlocksHold(d, y, in1, noIn1, true);
      }
      if noIn0 && d.signals(y) !in in1 {
        BlocksHold(d, x, in0, noIn0, false);
        BlocksHold(d, y, in1, noIn1, true);
      }
    }
  }

  lemma BlocksHold(d: Design, x: Vec, cases: seq<Vec>, en: bool, t: bool)
    requires d.WellFormed() && d.width > 0 && x in d.inputs && CasesOk(d, cases, t)
    ensures (en || d.signals(x) !in cases) <==> forall p :: p in cases ==> ClauseHolds(d.signals(x), p, en)
  {
    forall p | p in cases ensures ClauseHolds(d.signals(x), p, en) <==> d.signals(x) != p || en
    {
      ClauseMeaning(d.signals(x), p, en);
    }
  }

  // Both configurations were answered negatively for the same selection.
  lemma NoConflictLeft(d: Design, s: set<nat>, in0: seq<Vec>, in1: seq<Vec>)
    requires d.WellFormed() && Explained(d, s, in0, false) && Explained(d, s, in1, true) && PairsHit(in0, in1, s)
    ensures d.Separated(s)
  {
    forall x, y | x in d.inputs && y in d.inputs && d.Wants(x, false) && d.Wants(y, true) ensures !d.Agree(x, y, s)
    {
    }
  }

  // ---- What a new pair of cases adds ----

  // Patterns of the design not recorded yet.
  ghost function Remaining(d: Design, cases: seq<Vec>): set<Vec>
  {
    d.Patterns() - set p | p in cases
  }

  lemma NewCase(d: Design, cases: seq<Vec>, x: Vec, t: bool)
    requires d.WellFormed() && d.width > 0 && x in d.inputs && d.Wants(x, t) && CasesOk(d, cases, t)
    requires forall p :: p in cases ==> ClauseHolds(d.signals(x), p, false)
    ensures CasesOk(d, cases + [d.signals(x)], t)
    ensures |Remaining(d, cases + [d.signals(x)])| < |Remaining(d, cases)|
  {
    BlocksHold(d, x, cases, false, t);
    var p := d.signals(x);
    assert p in d.Patterns();
    assert forall q :: q in cases + [p] <==> q in cases || q == p;
    assert Remaining(d, cases + [p]) == Remaining(d, cases) - {p};
  }

  lemma FirstCase(d: Design, x: Vec, t: bool)
    requires d.WellFormed() && x in d.inputs && d.Wants(x, t)
    ensures CasesOk(d, [d.signals(x)], t) && |Remaining(d, [d.signals(x)])| < |Remaining(d, [])|
  {
    var p := d.signals(x);
    assert p in d.Patterns();
    assert Remaining(d, [p]) == Remaining(d, []) - {p};
  }

  lemma CaseWidths(d: Design, cases: seq<Vec>, t: bool)
    requires d.WellFormed() && CasesOk(d, cases, t)
    ensures forall p :: p in cases ==> |p| == d.width
  {
  }

  // The differences of `p` from all the cases, and nothing else.
  ghost predicate RowsAgainst(rows: Matrix, p: Vec, cases: seq<Vec>)
  {
    && (forall q :: q in cases && |q| == |p| ==> Difference(p, q) in rows && Difference(q, p) in rows)
    && (forall r :: r in rows ==>
      exists q :: q in cases && |q| == |p| && r == Difference(p, q) && r == Difference(q, p))
  }

  // The rows of a new 0-case against all 1-cases, or the other way round.
  method DifferenceRows(p: Vec, cases: seq<Vec>) returns (rows: Matrix)
    requires forall q :: q in cases ==> |q| == |p|
    ensures RowsAgainst(rows, p, cases)
    ensures Sized(rows, |rows|, |p|) && |rows| == |cases|
  {
    rows := [];
    for i := 0 to |cases|
      invariant |rows| == i && forall k :: 0 <= k < i ==> cases[k] in cases && rows[k] == Difference(p, cases[k])
    {
      assert cases[i] in cases;
      rows := rows + [Difference(p, cases[i])];
    }
    forall q | q in cases ensures Difference(p, q) == Difference(q, p)
    {
    }
    forall q | q in cases ensures Difference(p, q) in rows
    {
      var k :| 0 <= k < |cases| && cases[k] == q;
      assert rows[k] == Difference(p, q);
    }
  }

  lemma RowsAdd0(d: Design, rows: Matrix, added: Matrix, in0: seq<Vec>, in1: seq<Vec>, p: Vec)
    requires RowsCover(rows, in0, in1) && RowsFrom(rows, in0, in1)
    requires RowsAgainst(added, p, in1)
    ensures RowsCover(rows + added, in0 + [p], in1) && RowsFrom(rows + added, in0 + [p], in1)
  {
    assert forall x :: x in in0 + [p] <==> x in in0 || x == p;
    assert forall r :: r in rows + added <==> r in rows || r in added;
  }

  lemma RowsAdd1(d: Design, rows: Matrix, added: Matrix, in0: seq<Vec>, in1: seq<Vec>, q: Vec)
    requires RowsCover(rows, in0, in1) && RowsFrom(rows, in0, in1)
    requires RowsAgainst(added, q, in0)
    ensures RowsCover(rows + added, in0, in1 + [q]) && RowsFrom(rows + added, in0, in1 + [q])
  {
    assert forall x :: x in in1 + [q] <==> x in in1 || x == q;
    assert forall r :: r in rows + added <==> r in rows || r in added;
  }

  // A cover of the rows hits every recorded pair.
  lemma CoverHitsPairs(d: Design, rows: Matrix, clusters: seq<seq<nat>>, selected: seq<nat>, in0: seq<Vec>,
      in1: seq<Vec>)
    requires d.WellFormed() && CasesOk(d, in0, false) && CasesOk(d, in1, true)
    requires RowsCover(rows, in0, in1) && CoversAll(rows, clusters, selected)
    ensures PairsHit(in0, in1, InputsOf(clusters, selected))
  {
    var s := InputsOf(clusters, selected);
    forall p, q | p in in0 && q in in1 ensures exists k :: k in s && k < |p| && k < |q| && p[k] != q[k]
    {
      var r := Difference(p, q);
      var i :| 0 <= i < |rows| && rows[i] == r;
      assert HitBySome(rows[i], clusters, selected);
      var c :| c in selected && c < |clusters| && Hits(r, clusters[c]);
      var k :| k in clusters[c] && k < |r| && r[k];
      assert k in s && p[k] != q[k];
    }
  }

  // A row that no cluster hits: two inputs that need different values and agree on
  // the inputs of every cluster, so that no selection can be right.
  lemma NoSelectionHelps(d: Design, rows: Matrix, clusters: seq<seq<nat>>, in0: seq<Vec>, in1: seq<Vec>,
      selected: seq<nat>)
    requires d.WellFormed() && CasesOk(d, in0, false) && CasesOk(d, in1, true) && RowsFrom(rows, in0, in1)
    requires RowMissed(rows, clusters)
    ensures !d.Separated(InputsOf(clusters, selected))
  {
    var i :| 0 <= i < |rows| && forall c :: 0 <= c < |clusters| ==> !Hits(rows[i], clusters[c]);
    var r := rows[i];
    assert r in rows;
    var p, q :| p in in0 && q in in1 && |p| == |q| && r == Difference(p, q);
    var x :| x in d.inputs && d.Wants(x, false) && d.signals(x) == p;
    var y :| y in d.inputs && d.Wants(y, true) && d.signals(y) == q;
    var s := InputsOf(clusters, selected);
    forall k | k in s && k < |p| && k < |q| ensures p[k] == q[k]
    {
      var c, j :| c in selected && 0 <= c < |clusters| && j in clusters[c] && j == k;
      assert !Hits(r, clusters[c]);
      assert !r[k];
    }
    assert d.Agree(x, y, s);
  }

  lemma SizedConcat(m: Matrix, n: Matrix, width: nat)
    requires Sized(m, |m|, width) && Sized(n, |n|, width)
    ensures Sized(m + n, |m + n|, width)
  {
  }

  // ---- What a refusal means ----

  // No selection of clusters separates the inputs that need different values.
  ghost predicate NoneSeparates(d: Design, clusters: seq<seq<nat>>)
  {
    forall selected: seq<nat> :: !d.Separated(InputsOf(clusters, selected))
  }

  // Rows that stand for pairs of inputs that need different values.
  ghost predicate PairRows(d: Design, rows: Matrix, in0: seq<Vec>, in1: seq<Vec>)
  {
    CasesOk(d, in0, false) && CasesOk(d, in1, true) && RowsFrom(rows, in0, in1)
  }

  // For some such rows the greedy choice of clusters does not end within the limit.
  ghost predicate LimitPassed(d: Design, clusters: seq<seq<nat>>, limit: nat)
  {
    exists rows, in0, in1 :: PairRows(d, rows, in0, in1) && GreedyExceeds(rows, clusters, limit)
  }

  // A selection that separates the inputs hits every row.
  lemma SeparatingCovers(d: Design, rows: Matrix, clusters: seq<seq<nat>>, in0: seq<Vec>, in1: seq<Vec>,
      selected: seq<nat>)
    requires d.WellFormed() && PairRows(d, rows, in0, in1) && d.Separated(InputsOf(clusters, selected))
    ensures CoversAll(rows, clusters, selected)
  {
    forall i | 0 <= i < |rows| ensures HitBySome(rows[i], clusters, selected)
    {
      assert rows[i] in rows;
      var p, q :| p in in0 && q in in1 && |p| == |q| && rows[i] == Difference(p, q);
      var x :| x in d.inputs && d.Wants(x, false) && d.signals(x) == p;
      var y :| y in d.inputs && d.Wants(y, true) && d.signals(y) == q;
      assert !d.Agree(x, y, InputsOf(clusters, selected));
      var k :| k in InputsOf(clusters, selected) && k < |p| && k < |q| && p[k] != q[k];
      var c :| c in selected && 0 <= c < |clusters| && k in clusters[c];
      assert Hits(rows[i], clusters[c]);
    }
  }

  // The limit is passed neither when it admits all clusters nor, unless it is 0, when
  // one cluster alone separates the inputs.
  lemma LimitPassedMeans(d: Design, clusters: seq<seq<nat>>, limit: nat)
    requires d.WellFormed() && LimitPassed(d, clusters, limit)
    ensures |clusters| > limit
    ensures limit >= 1 ==> forall c: nat :: c < |clusters| ==> !d.Separated(InputsOf(clusters, [c]))
  {
    hide PairRows, GreedyExceeds, CoversAll, RowMissed;
    var rows, in0, in1 :| PairRows(d, rows, in0, in1) && GreedyExceeds(rows, clusters, limit);
    if |clusters| <= limit {
      LimitEnough(rows, clusters, limit);
    }
    forall c: nat | limit >= 1 && c < |clusters| ensures !d.Separated(InputsOf(clusters, [c]))
    {
      if d.Separated(InputsOf(clusters, [c])) {
        SeparatingCovers(d, rows, clusters, in0, in1, [c]);
        OneSuffices(rows, clusters, c, limit);
      }
    }
  }

  class MergeSelection {
    const d: Design
    const clusters: seq<seq<nat>>
    const limit: nat
    var in0cases: seq<Vec>
    var in1cases: seq<Vec>
    var solutionC: seq<nat>
    var solutionInputs: set<nat>

    constructor (d: Design, clusters: seq<seq<nat>>, limit: nat)
      ensures this.d == d && this.clusters == clusters && this.limit == limit
      ensures in0cases == [] && in1cases == [] && solutionC == [] && solutionInputs == {}
    {
      this.d, this.clusters, this.limit := d, clusters, limit;
      in0cases, in1cases, solutionC, solutionInputs := [], [], [], {};
    }

    ghost predicate Cases(rows: Matrix)
      reads this
    {
      && CasesOk(d, in0cases, false) && CasesOk(d, in1cases, true)
      && RowsCover(rows, in0cases, in1cases) && RowsFrom(rows, in0cases, in1cases)
    }

    // Records a new 0-case with its rows against all 1-cases.
    method RecordCase0(x: Vec, pending: Matrix, ghost base: Matrix) returns (rows: Matrix)
      requires d.WellFormed() && Cases(base + pending) && Sized(pending, |pending|, d.width) && x in d.inputs
        && d.Wants(x, false) && (in0cases != [] ==> d.width > 0)
      requires forall p :: p in in0cases ==> ClauseHolds(d.signals(x), p, false)
      modifies this`in0cases
      ensures Cases(base + rows) && Sized(rows, |rows|, d.width) && |rows| == |pending| + |in1cases|
      ensures in0cases == old(in0cases) + [d.signals(x)]
      ensures |Remaining(d, in0cases)| < |Remaining(d, old(in0cases))|
    {
      hide CasesOk, RowsCover, RowsFrom, Remaining, ClauseHolds, RowsAgainst, Sized, Difference;
      var in0case := d.signals(x);
      CaseWidths(d, in1cases, true);
      var added := DifferenceRows(in0case, in1cases);
      RowsAdd0(d, base + pending, added, in0cases, in1cases, in0case);
      SizedConcat(pending, added, d.width);
      rows := pending + added;
      assert base + rows == (base + pending) + added;
      CaseAdded(d, in0cases, x, false);
      in0cases := in0cases + [in0case];
    }

    // Records a new 1-case with its rows against all 0-cases.
    method RecordCase1(y: Vec, pending: Matrix, ghost base: Matrix) returns (rows: Matrix)
      requires d.WellFormed() && Cases(base + pending) && Sized(pending, |pending|, d.width) && y in d.inputs
        && d.Wants(y, true) && (in1cases != [] ==> d.width > 0)
      requires forall p :: p in in1cases ==> ClauseHolds(d.signals(y), p, false)
      modifies this`in1cases
      ensures Cases(base + rows) && Sized(rows, |rows|, d.width) && |rows| == |pending| + |in0cases|
      ensures in1cases == old(in1cases) + [d.signals(y)]
      ensures |Remaining(d, in1cases)| < |Remaining(d, old(in1cases))|
    {
      hide CasesOk, RowsCover, RowsFrom, Remaining, ClauseHolds, RowsAgainst, Sized, Difference;
      var in1case := d.signals(y);
      CaseWidths(d, in0cases, false);
      var added := DifferenceRows(in1case, in0cases);
      RowsAdd1(d, base + pending, added, in0cases, in1cases, in1case);
      SizedConcat(pending, added, d.width);
      rows := pending + added;
      assert base + rows == (base + pending) + added;
      CaseAdded(d, in1cases, y, true);
      in1cases := in1cases + [in1case];
    }

    // Records the cases of a pair, as far as they are asked for, with their rows.
    method RecordPair(x: Vec, y: Vec, noIn0: bool, noIn1: bool, ghost base: Matrix) returns (rows: Matrix)
      requires d.WellFormed() && Cases(base) && !(noIn0 && noIn1)
      requires x in d.inputs && y in d.inputs && Query(d, x, y, solutionInputs, in0cases, in1cases, noIn0, noIn1)
      requires in0cases != [] || in1cases != [] ==> d.width > 0
      requires (in0cases == [] <==> in1cases == []) && (in0cases == [] ==> !noIn0 && !noIn1)
      modifies this`in0cases, this`in1cases
      ensures Cases(base + rows) && Sized(rows, |rows|, d.width)
      ensures |Remaining(d, in0cases)| + |Remaining(d, in1cases)| < |Remaining(d, old(in0cases))| + |Remaining(d,
        old(in1cases))|
      ensures in0cases != [] && in1cases != [] && rows != []
    {
      hide CasesOk, RowsCover, RowsFrom, Remaining, Query, ClauseHolds;
      QueryParts(d, x, y, solutionInputs, in0cases, in1cases, noIn0, noIn1);
      rows := [];
      assert base + rows == base;
      if !noIn0 {
        rows := RecordCase0(x, rows, base);
      }
      if !noIn1 {
        rows := RecordCase1(y, rows, base);
      }
    }

    // What is known of the current selection.
    ghost predicate Selection()
      reads this
    {
      && in0cases != [] && in1cases != [] && d.width > 0
      && PairsHit(in0cases, in1cases, solutionInputs)
      && 0 < |solutionC| <= limit && solutionInputs == InputsOf(clusters, solutionC)
    }

    // Asks the solver for a pair of inputs that the selection cannot tell apart,
    // records it and selects again, until there is none. Before giving an answer
    // the solver is asked with new cases demanded for either side in turn.
    method SolveC() returns (outcome: Outcome)
      requires d.WellFormed() && forall c :: c in clusters ==> forall j :: j in c ==> j < d.width
      requires in0cases == [] && in1cases == [] && solutionC == [] && solutionInputs == {}
      modifies this
      ensures outcome == Constant ==> solutionC == [] && solutionInputs == {} && d.Separated({})
      ensures outcome == Found ==>
        Selection() && d.Separated(solutionInputs) && CasesOk(d, in0cases, false) && CasesOk(d, in1cases, true)
      ensures outcome == NoCover ==> solutionC == [] && solutionInputs == {}
      ensures outcome == NoCover ==> NoneSeparates(d, clusters) || LimitPassed(d, clusters, limit)
    {
      hide CasesOk, RowsCover, RowsFrom, PairsHit, Explained, Remaining, Query, InputsOf, CoversAll;
      var noIn0, noIn1 := false, false;
      var flag: bool := *;
      var firstIteration := true;
      var cover := new SetCover(clusters, d.width);
      NoCases(d);
      while true
        invariant fresh(cover) && cover.Valid() && cover.clusters == clusters && cover.colSize == d.width
          && Cases(cover.rows)
        invariant firstIteration ==>
          in0cases == [] && in1cases == [] && solutionC == [] && solutionInputs == {} && !noIn0 && !noIn1
        invariant !firstIteration ==> Selection()
        invariant !(noIn0 && noIn1)
        invariant !firstIteration && !noIn0 && !noIn1 ==> !flag
        invariant !firstIteration && flag && noIn0 ==> Explained(d, solutionInputs, in0cases, false)
        invariant !firstIteration && flag && noIn1 ==> Explained(d, solutionInputs, in1cases, true)
        decreases |Remaining(d, in0cases)| + |Remaining(d, in1cases)|, if !noIn0
          && !noIn1 then 2 else if !flag then 1 else 0
      {
        var rows: Matrix := [];
        var res := Solve(d, solutionInputs, in0cases, in1cases, noIn0, noIn1);
        if res.Some? {
          flag := false;
          firstIteration := false;
          rows := RecordPair(res.value.0, res.value.1, noIn0, noIn1, cover.rows);
        } else {
          if firstIteration {
            NoneAtAll(d);
            return Constant;
          }
          UnsatExplains(d, solutionInputs, in0cases, in1cases, noIn0, noIn1);
          if flag {
            NoConflictLeft(d, solutionInputs, in0cases, in1cases);
            return Found;
          }
          if !noIn1 {
            if !noIn0 {
              noIn1 := true;
              continue;
            }
            noIn1, noIn0, flag := true, false, true;
            continue;
          } else if !noIn0 {
            noIn0, noIn1, flag := true, false, true;
            continue;
          }
        }
        var ok := SelectAgain(cover, rows);
        if |solutionC| == 0 {
          return NoCover;
        }
      }
    }

    // Adds the rows to the cover and selects clusters.
    method SelectAgain(cover: SetCover, rows: Matrix) returns (ok: bool)
      requires d.WellFormed() && cover.Valid() && cover.clusters == clusters && cover.colSize == d.width
      requires Sized(rows, |rows|, d.width) && Cases(cover.rows + rows)
      requires in0cases != [] && in1cases != []
      modifies this`solutionC, this`solutionInputs, cover
      ensures cover.Valid() && cover.rows == old(cover.rows) + rows
      ensures |solutionC| > 0 ==> Selection()
      ensures |solutionC| == 0 ==> solutionInputs == {}
      ensures |solutionC| == 0 ==> NoneSeparates(d, clusters) || LimitPassed(d, clusters, limit)
    {
      hide CasesOk, RowsCover, RowsFrom, PairsHit, InputsOf, CoversAll, RowMissed, Greedy, GreedyExceeds;
      cover.AddRows(rows);
      ghost var all := cover.rows;
      solutionC, solutionInputs, ok := cover.Select(limit);
      if ok {
        SelectionNonEmpty(d, all, clusters, solutionC, in0cases, in1cases);
        CoverHitsPairs(d, all, clusters, solutionC, in0cases, in1cases);
      } else if RowMissed(all, clusters) {
        forall selected: seq<nat> ensures !d.Separated(InputsOf(clusters, selected))
        {
          NoSelectionHelps(d, all, clusters, in0cases, in1cases, selected);
        }
      } else {
        assert PairRows(d, all, in0cases, in1cases);
      }
    }
  }

  // `Constant`: one value of the target repairs every input. `NoCover`: the clusters
  // do not suffice, or not within the limit.
  datatype Outcome = Constant | Found | NoCover

  lemma NoCases(d: Design)
    ensures CasesOk(d, [], false) && CasesOk(d, [], true) && RowsCover([], [], []) && RowsFrom([], [], [])
  {
  }

  // Without recorded cases the question was about all conflicting inputs.
  lemma NoneAtAll(d: Design)
    requires forall x, y :: x in d.inputs && y in d.inputs ==> !Query(d, x, y, {}, [], [], false, false)
    ensures d.Separated({})
  {
    forall x, y | x in d.inputs && y in d.inputs && d.Wants(x, false) && d.Wants(y, true) ensures !d.Agree(x, y, {})
    {
      assert !Query(d, x, y, {}, [], [], false, false);
    }
  }

  // A recorded pair has a row, which only a cluster with columns can hit.
  lemma SelectionNonEmpty(d: Design, rows: Matrix, clusters: seq<seq<nat>>, selected: seq<nat>, in0: seq<Vec>,
      in1: seq<Vec>)
    requires d.WellFormed() && CasesOk(d, in0, false) && CasesOk(d, in1, true) && in0 != [] && in1 != []
    requires RowsCover(rows, in0, in1) && CoversAll(rows, clusters, selected)
    ensures selected != [] && d.width > 0
  {
    var p, q := in0[0], in1[0];
    assert p in in0 && q in in1;
    CaseWidths(d, in0, false);
    CaseWidths(d, in1, true);
    var r := Difference(p, q);
    var i :| 0 <= i < |rows| && rows[i] == r;
    assert HitBySome(rows[i], clusters, selected);
    var c :| c in selected && c < |clusters| && Hits(r, clusters[c]);
    var k :| k in clusters[c] && k < |r| && r[k];
  }

  lemma QueryParts(d: Design, x: Vec, y: Vec, equal: set<nat>, in0: seq<Vec>, in1: seq<Vec>, noIn0: bool, noIn1: bool)
    requires Query(d, x, y, equal, in0, in1, noIn0, noIn1)
    ensures d.Wants(x, false) && d.Wants(y, true)
    ensures !noIn0 ==> forall p :: p in in0 ==> ClauseHolds(d.signals(x), p, false)
    ensures !noIn1 ==> forall p :: p in in1 ==> ClauseHolds(d.signals(y), p, false)
  {
  }

  lemma CaseAdded(d: Design, cases: seq<Vec>, x: Vec, t: bool)
    requires d.WellFormed() && x in d.inputs && d.Wants(x, t) && CasesOk(d, cases, t) && (cases != [] ==> d.width > 0)
    requires forall p :: p in cases ==> ClauseHolds(d.signals(x), p, false)
    ensures CasesOk(d, cases + [d.signals(x)], t)
    ensures |Remaining(d, cases + [d.signals(x)])| < |Remaining(d, cases)|
  {
    if cases == [] {
      FirstCase(d, x, t);
      assert cases + [d.signals(x)] == [d.signals(x)];
    } else {
      NewCase(d, cases, x, t);
    }
  }
}
