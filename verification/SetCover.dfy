// The greedy covering of rows by clusters of columns.
module SetCovering {
  import opened Vectors
  import opened BitVectors
  import opened WordCounting

  type Matrix = seq<seq<bool>>

  // Row `r` has a bit set in a column of `inputs`.
  ghost predicate Hits(r: seq<bool>, inputs: seq<nat>)
  {
    exists j :: j in inputs && j < |r| && r[j]
  }

  ghost predicate HitBySome(r: seq<bool>, clusters: seq<seq<nat>>, selected: seq<nat>)
  {
    exists c :: c in selected && c < |clusters| && Hits(r, clusters[c])
  }

  ghost predicate CoversAll(rows: Matrix, clusters: seq<seq<nat>>, selected: seq<nat>)
  {
    forall i :: 0 <= i < |rows| ==> HitBySome(rows[i], clusters, selected)
  }

  // Some row is hit by no cluster at all.
  ghost predicate RowMissed(rows: Matrix, clusters: seq<seq<nat>>)
  {
    exists i :: 0 <= i < |rows| && forall c :: 0 <= c < |clusters| ==> !Hits(rows[i], clusters[c])
  }

  // Which rows `inputs` hits.
  ghost function HitBits(rows: Matrix, inputs: seq<nat>): (b: seq<bool>)
    ensures |b| == |rows|
  {
    seq(|rows|, i requires 0 <= i < |rows| => Hits(rows[i], inputs))
  }

  // Which rows the selected clusters hit.
  ghost function CoveredBits(rows: Matrix, clusters: seq<seq<nat>>, selected: seq<nat>): (b: seq<bool>)
    ensures |b| == |rows|
  {
    seq(|rows|, i requires 0 <= i < |rows| => HitBySome(rows[i], clusters, selected))
  }

  ghost predicate Holds(vs: seq<BitVector>, m: Matrix, width: nat)
  {
    |vs| == |m| && forall i :: 0 <= i < |m| ==> vs[i].Valid() && vs[i].bsize == width && vs[i].Bits() == m[i]
  }

  ghost predicate Sized(m: Matrix, height: nat, width: nat)
  {
    |m| == height && forall i :: 0 <= i < height ==> |m[i]| == width
  }

  // The columns of matrix `m`.
  ghost function Transpose(m: Matrix, width: nat): (t: Matrix)
    requires Sized(m, |m|, width)
    ensures Sized(t, width, |m|)
    ensures forall i, j :: 0 <= i < |m| && 0 <= j < width ==> t[j][i] == m[i][j]
  {
    seq(width, j requires 0 <= j < width => seq(|m|, i requires 0 <= i < |m| => m[i][j]))
  }

  function NoBits(n: nat): (b: seq<bool>)
    ensures |b| == n
  {
    seq(n, i => false)
  }

  // `col` extended by the bits of column `j` of the new rows.
  lemma ColumnGrows(m: Matrix, n: Matrix, width: nat, j: nat)
    requires Sized(m, |m|, width) && Sized(n, |n|, width) && j < width
    ensures Sized(m + n, |m| + |n|, width)
    ensures Transpose(m + n, width)[j] == Transpose(m, width)[j] + Transpose(n, width)[j]
  {
  }

  class SetCover {
    const clusters: seq<seq<nat>>
    const colSize: nat
    var rowSize: nat
    var pvaluesRow: seq<BitVector>
    var pvaluesCol: seq<BitVector>
    var mask: BitVector
    // Every row ever added.
    ghost var rows: Matrix

    constructor (clusters: seq<seq<nat>>, colSize: nat)
      requires forall c :: c in clusters ==> forall j :: j in c ==> j < colSize
      ensures Valid() && rows == []
      ensures this.clusters == clusters && this.colSize == colSize
    {
      this.clusters := clusters;
      this.colSize := colSize;
      rowSize := 0;
      pvaluesRow := [];
      pvaluesCol := [];
      rows := [];
      var m := SizedVector(0);
      mask := m;
    }

    // The two matrices hold the rows and are transposes of one another.
    ghost predicate Valid()
      reads this
    {
      && Sized(rows, rowSize, colSize)
      && Holds(pvaluesRow, rows, colSize)
      && (rowSize > 0 ==> Holds(pvaluesCol, Transpose(rows, colSize), rowSize))
      && mask.Valid() && mask.bsize == rowSize
      && (forall c :: c in clusters ==> forall j :: j in c ==> j < colSize)
    }

    // Makes room for `n` more rows, empty at first.
    method GrowMatrices(n: nat)
      requires Valid()
      modifies this`rowSize, this`pvaluesRow, this`pvaluesCol, this`rows
      ensures rowSize == old(rowSize) + n && rows == old(rows) + seq(n, i => NoBits(colSize))
      ensures Sized(rows, rowSize, colSize) && Holds(pvaluesRow, rows, colSize)
      ensures Holds(pvaluesCol, Transpose(rows, colSize), rowSize)
    {
      var prowSize := rowSize;
      rowSize := rowSize + n;
      ghost var added := seq(n, i => NoBits(colSize));
      rows := rows + added;
      for i := prowSize to rowSize
        invariant rowSize == prowSize + n && rows == old(rows) + added && pvaluesCol == old(pvaluesCol)
        invariant |pvaluesRow| == i && Holds(pvaluesRow, rows[..i], colSize)
      {
        var v := SizedVector(colSize);
        pvaluesRow := pvaluesRow + [v];
      }
      assert rows[..rowSize] == rows;
      hide Holds;
      if rowSize == n {
        NewColumns(n);
      } else {
        LongerColumns(old(rows), n);
      }
    }

    // The first rows: columns are made from nothing.
    method NewColumns(n: nat)
      requires rowSize == n && rows == seq(n, i => NoBits(colSize))
      modifies this`pvaluesCol
      ensures Holds(pvaluesCol, Transpose(rows, colSize), rowSize)
    {
      pvaluesCol := [];
      for j := 0 to colSize
        invariant |pvaluesCol| == j && Holds(pvaluesCol, Transpose(rows, colSize)[..j], rowSize)
      {
        var v := SizedVector(rowSize);
        assert v.Bits() == Transpose(rows, colSize)[j];
        pvaluesCol := pvaluesCol + [v];
      }
      assert Transpose(rows, colSize)[..colSize] == Transpose(rows, colSize);
    }

    // More rows: columns are lengthened.
    method LongerColumns(ghost was: Matrix, n: nat)
      requires Sized(was, |was|, colSize) && Holds(pvaluesCol, Transpose(was, colSize), |was|)
      requires rowSize == |was| + n && rows == was + seq(n, i => NoBits(colSize))
      modifies this`pvaluesCol
      ensures Holds(pvaluesCol, Transpose(rows, colSize), rowSize)
    {
      for j := 0 to colSize
        invariant |pvaluesCol| == colSize
        invariant Holds(pvaluesCol[..j], Transpose(rows, colSize)[..j], rowSize)
        invariant Holds(pvaluesCol[j..], Transpose(was, colSize)[j..], |was|)
      {
        ColumnGrows(was, seq(n, i => NoBits(colSize)), colSize, j);
        assert pvaluesCol[j] == pvaluesCol[j..][0];
        var v := pvaluesCol[j].Resize(rowSize);
        assert v.Bits() == Transpose(rows, colSize)[j];
        HoldsStep(pvaluesCol, v, Transpose(rows, colSize), rowSize, Transpose(was, colSize), |was|, j);
        pvaluesCol := pvaluesCol[j := v];
      }
      assert pvaluesCol[..colSize] == pvaluesCol;
      assert Transpose(rows, colSize)[..colSize] == Transpose(rows, colSize);
    }

    // Enters the bits of one row, empty before, in both matrices.
    method FillRow(i: nat, row: seq<bool>)
      requires InBoth(pvaluesRow, pvaluesCol, rows, colSize) && i < |rows| && |row| == colSize
        && rows[i] == NoBits(colSize)
      modifies this`pvaluesRow, this`pvaluesCol, this`rows
      ensures rows == old(rows)[i := row] && InBoth(pvaluesRow, pvaluesCol, rows, colSize)
    {
      hide InBoth, Transpose, Holds, Sized;
      FilledStart(rows, i, row);
      for j := 0 to colSize
        invariant rows == old(rows)[i := Filled(row, j)]
        invariant InBoth(pvaluesRow, pvaluesCol, rows, colSize)
      {
        FilledStep(row, j);
        if row[j] {
          CellInside(pvaluesRow, pvaluesCol, rows, colSize, i, j);
          var c := pvaluesCol[j].Set(i);
          var r := pvaluesRow[i].Set(j);
          CellEntered(pvaluesRow, pvaluesCol, rows, colSize, i, j, c, r);
          pvaluesCol := pvaluesCol[j := c];
          pvaluesRow := pvaluesRow[i := r];
        }
        rows := rows[i := Filled(row, j + 1)];
      }
      FilledEnd(row);
    }

    // Adds rows and clears the mask.
    method AddRows(newRows: Matrix)
      requires Valid() && Sized(newRows, |newRows|, colSize)
      modifies this
      ensures Valid() && rows == old(rows) + newRows && mask.Bits() == NoBits(rowSize)
    {
      hide Holds;
      var prowSize := rowSize;
      GrowMatrices(|newRows|);
      for i := prowSize to rowSize
        invariant rowSize == prowSize + |newRows|
        invariant rows == old(rows) + newRows[..i - prowSize] + seq(rowSize - i, k => NoBits(colSize))
        invariant InBoth(pvaluesRow, pvaluesCol, rows, colSize)
      {
        FillRow(i, newRows[i - prowSize]);
      }
      mask := SizedVector(rowSize);
    }

    // The rows that the columns of `inputs` hit.
    method GenOr(inputs: seq<nat>) returns (maskTmp: BitVector)
      requires Valid() && forall j :: j in inputs ==> j < colSize
      ensures maskTmp.Valid() && maskTmp.bsize == rowSize && maskTmp.Bits() == HitBits(rows, inputs)
    {
      maskTmp := SizedVector(rowSize);
      for k := 0 to |inputs|
        invariant maskTmp.Valid() && maskTmp.bsize == rowSize && maskTmp.Bits() == HitBits(rows, inputs[..k])
      {
        if rowSize > 0 {
          assert inputs[k] in inputs;
          HitBitsStep(rows, colSize, inputs, k);
          maskTmp := maskTmp.OrCount(pvaluesCol[inputs[k]]);
        }
      }
      assert inputs[..|inputs|] == inputs;
    }

    // The rows that `inputs` hits outside the mask, counted.
    method GainOf(inputs: seq<nat>) returns (maskTmp: BitVector)
      requires Valid() && forall j :: j in inputs ==> j < colSize
      ensures maskTmp.Valid() && maskTmp.bsize == rowSize && maskTmp.Bits() == Minus(HitBits(rows, inputs), mask.Bits())
      ensures maskTmp.counter == Gain(rows, inputs, mask.Bits())
    {
      hide Holds, Sized, Transpose, Hits, Count;
      maskTmp := GenOr(inputs);
      maskTmp := maskTmp.MaskCount(mask);
      maskTmp.CountBits();
    }

    // Selects a cluster that hits the most rows not hit yet, if any hits one.
    method SelectOnce(selected: seq<nat>) returns (ok: bool, sel: nat)
      requires Valid() && mask.Bits() == CoveredBits(rows, clusters, selected)
      modifies this`mask
      ensures Valid()
      ensures ok ==> sel < |clusters| && sel !in selected
      ensures ok ==> mask.Bits() == CoveredBits(rows, clusters, selected + [sel])
      ensures ok ==> Count(old(mask.Bits())) < Count(mask.Bits())
      ensures ok ==> FirstBest(rows, clusters, old(mask.Bits()), sel)
      ensures !ok ==> mask == old(mask)
      ensures !ok ==>
        forall i, c :: 0 <= i < |rows| && 0 <= c < |clusters| && Hits(rows[i], clusters[c]) ==> mask.Bits()[i]
    {
      var maxCover, maskSelected;
      maxCover, maskSelected, sel := BestCluster();
      ok := maxCover > 0;
      if ok {
        GainSelected(rows, clusters, selected, sel, mask.Bits());
        mask := mask.OrCount(maskSelected);
      } else {
        NoGain(rows, clusters, mask.Bits());
      }
    }

    // The first cluster of largest gain, with the rows it would add.
    method BestCluster() returns (maxCover: nat, maskSelected: BitVector, sel: nat)
      requires Valid()
      ensures maxCover > 0 ==> sel < |clusters| && maxCover == Gain(rows, clusters[sel], mask.Bits())
      ensures maxCover > 0 ==>
        maskSelected.Valid() && maskSelected.bsize == rowSize
        && maskSelected.Bits() == Minus(HitBits(rows, clusters[sel]), mask.Bits())
      ensures maxCover > 0 ==> forall d :: 0 <= d < sel ==> Gain(rows, clusters[d], mask.Bits()) < maxCover
      ensures forall d :: 0 <= d < |clusters| ==> Gain(rows, clusters[d], mask.Bits()) <= maxCover
    {
      hide Holds, Transpose, Hits, HitBySome, Count, Gain, Minus, HitBits, CoveredBits;
      maxCover, maskSelected, sel := 0, mask, 0;
      for c := 0 to |clusters|
        invariant maxCover > 0 ==> sel < c && maxCover == Gain(rows, clusters[sel], mask.Bits())
        invariant maxCover > 0 ==>
          maskSelected.Valid() && maskSelected.bsize == rowSize
          && maskSelected.Bits() == Minus(HitBits(rows, clusters[sel]), mask.Bits())
        invariant maxCover > 0 ==> forall d :: 0 <= d < sel ==> Gain(rows, clusters[d], mask.Bits()) < maxCover
        invariant forall d :: 0 <= d < c ==> Gain(rows, clusters[d], mask.Bits()) <= maxCover
      {
        assert clusters[c] in clusters;
        var maskTmp := GainOf(clusters[c]);
        if maskTmp.counter > maxCover {
          maxCover := maskTmp.counter;
          maskSelected := maskTmp;
          sel := c;
        }
      }
    }

    // Selects clusters until every row is hit. It gives up when no cluster helps, or
    // when more than `limit` are selected: it succeeds exactly if the greedy choices
    // cover all rows within the limit.
    method Select(limit: nat) returns (selected: seq<nat>, inputs: set<nat>, ok: bool)
      requires Valid() && mask.Bits() == NoBits(rowSize)
      modifies this`mask
      ensures Valid()
      ensures ok ==> CoversAll(rows, clusters, selected) && |selected| <= limit && NoRepeats(selected)
      ensures ok ==> (forall c :: c in selected ==> c < |clusters|) && inputs == InputsOf(clusters, selected)
      ensures !ok ==> selected == [] && inputs == {}
      ensures ok ==> Greedy(rows, clusters, selected)
      ensures ok <==> GreedyCovers(rows, clusters, limit)
      ensures !ok ==> RowMissed(rows, clusters) || GreedyExceeds(rows, clusters, limit)
    {
      selected, inputs := [], {};
      SelectStart(rows, clusters);
      assert mask.Bits() == CoveredBits(rows, clusters, selected);
      hide Holds, Sized, Transpose, Hits, Gain, HitBySome, CoversAll, InputsOf, NoRepeats, CoveredBits, Count, Greedy,
        FirstBest, RowMissed, GreedyCovers;
      mask.CountBits();
      while mask.counter != rowSize
        invariant Valid() && mask.Bits() == CoveredBits(rows, clusters, selected)
        invariant |selected| <= limit && NoRepeats(selected) && forall c :: c in selected ==> c < |clusters|
        invariant inputs == InputsOf(clusters, selected) && Greedy(rows, clusters, selected)
        invariant mask.counter == Count(mask.Bits())
        decreases rowSize - Count(mask.Bits())
      {
        ghost var before := mask.Bits();
        var more, c := SelectOnce(selected);
        if more {
          CountAll(mask.Bits());
          mask.CountBits();
          inputs := inputs + set j | j in clusters[c];
          InputsGrow(clusters, selected, c);
          GreedyStep(rows, clusters, selected, c);
          selected := selected + [c];
        }
        if !more || |selected| > limit {
          if !more {
            NoneHelps(rows, clusters, before);
          }
          Refused(rows, clusters, limit, selected);
          return [], {}, false;
        }
      }
      AllCovered(rows, clusters, selected);
      Accepted(rows, clusters, limit, selected);
      ok := true;
    }
  }

  // ---- Greedy choices ----

  // Cluster `c` hits a row outside `m`, and is the first of those that hit most.
  ghost predicate FirstBest(rows: Matrix, clusters: seq<seq<nat>>, m: seq<bool>, c: nat)
    requires |m| == |rows|
  {
    && c < |clusters| && Gain(rows, clusters[c], m) > 0
    && (forall d :: 0 <= d < |clusters| ==> Gain(rows, clusters[d], m) <= Gain(rows, clusters[c], m))
    && forall d :: 0 <= d < c ==> Gain(rows, clusters[d], m) < Gain(rows, clusters[c], m)
  }

  // Each cluster is the best one for the rows its predecessors leave.
  ghost predicate Greedy(rows: Matrix, clusters: seq<seq<nat>>, s: seq<nat>)
  {
    forall k :: 0 <= k < |s| ==> FirstBest(rows, clusters, CoveredBits(rows, clusters, s[..k]), s[k])
  }

  ghost predicate GreedyCovers(rows: Matrix, clusters: seq<seq<nat>>, limit: nat)
  {
    exists s: seq<nat> :: Greedy(rows, clusters, s) && CoversAll(rows, clusters, s) && |s| <= limit
  }

  // The greedy choice needs one cluster more than the limit: the last one still hits a
  // row that the others leave.
  ghost predicate GreedyExceeds(rows: Matrix, clusters: seq<seq<nat>>, limit: nat)
  {
    exists s: seq<nat> :: Greedy(rows, clusters, s) && NoRepeats(s) && |s| == limit + 1
  }

  lemma GreedyStep(rows: Matrix, clusters: seq<seq<nat>>, s: seq<nat>, c: nat)
    requires Greedy(rows, clusters, s) && FirstBest(rows, clusters, CoveredBits(rows, clusters, s), c)
    ensures Greedy(rows, clusters, s + [c])
  {
    var t := s + [c];
    assert t[..|s|] == s;
    forall k | 0 <= k < |t| ensures FirstBest(rows, clusters, CoveredBits(rows, clusters, t[..k]), t[k])
    {
      if k < |s| {
        assert t[..k] == s[..k];
      }
    }
  }

  // Greedy choices are determined: the shorter of two such sequences starts the longer.
  lemma {:induction false} GreedyUnique(rows: Matrix, clusters: seq<seq<nat>>, s: seq<nat>, t: seq<nat>)
    requires Greedy(rows, clusters, s) && Greedy(rows, clusters, t) && |s| <= |t|
    ensures t[..|s|] == s
  {
    hide CoveredBits;
    if s != [] {
      var n := |s| - 1;
      assert Greedy(rows, clusters, s[..n]) by {
        forall k | 0 <= k < n ensures FirstBest(rows, clusters, CoveredBits(rows, clusters, s[..n][..k]), s[..n][k])
        {
          assert s[..n][..k] == s[..k];
        }
      }
      GreedyUnique(rows, clusters, s[..n], t);
      assert FirstBest(rows, clusters, CoveredBits(rows, clusters, s[..n]), s[n]);
      assert FirstBest(rows, clusters, CoveredBits(rows, clusters, t[..n]), t[n]);
    }
  }

  // Once all rows are hit, no cluster gains.
  lemma CoveredNoGain(rows: Matrix, clusters: seq<seq<nat>>, s: seq<nat>, c: nat)
    requires CoversAll(rows, clusters, s) && c < |clusters|
    ensures Gain(rows, clusters[c], CoveredBits(rows, clusters, s)) == 0
  {
    CountZero(Minus(HitBits(rows, clusters[c]), CoveredBits(rows, clusters, s)));
  }

  lemma Refused(rows: Matrix, clusters: seq<seq<nat>>, limit: nat, s: seq<nat>)
    requires Greedy(rows, clusters, s) && NoRepeats(s) && (RowMissed(rows, clusters) || |s| == limit + 1)
    ensures !GreedyCovers(rows, clusters, limit)
    ensures RowMissed(rows, clusters) || GreedyExceeds(rows, clusters, limit)
  {
    hide CoversAll, Greedy, NoRepeats, RowMissed;
    forall t: seq<nat> | Greedy(rows, clusters, t) && |t| <= limit ensures !CoversAll(rows, clusters, t)
    {
      if RowMissed(rows, clusters) {
        MissedUncovered(rows, clusters, t);
      } else if CoversAll(rows, clusters, t) {
        GreedyEnds(rows, clusters, t, s);
        assert false;
      }
    }
  }

  lemma MissedUncovered(rows: Matrix, clusters: seq<seq<nat>>, t: seq<nat>)
    requires RowMissed(rows, clusters)
    ensures !CoversAll(rows, clusters, t)
  {
    hide Hits;
    var i :| 0 <= i < |rows| && forall c :: 0 <= c < |clusters| ==> !Hits(rows[i], clusters[c]);
    assert !HitBySome(rows[i], clusters, t);
  }

  // Greedy choices end when all rows are hit.
  lemma GreedyEnds(rows: Matrix, clusters: seq<seq<nat>>, s: seq<nat>, t: seq<nat>)
    requires Greedy(rows, clusters, s) && CoversAll(rows, clusters, s) && Greedy(rows, clusters, t)
    ensures |t| <= |s|
  {
    hide CoversAll, CoveredBits, Gain;
    if |t| > |s| {
      GreedyUnique(rows, clusters, s, t);
      assert FirstBest(rows, clusters, CoveredBits(rows, clusters, t[..|s|]), t[|s|]);
      CoveredNoGain(rows, clusters, s, t[|s|]);
      assert false;
    }
  }

  lemma Accepted(rows: Matrix, clusters: seq<seq<nat>>, limit: nat, s: seq<nat>)
    requires Greedy(rows, clusters, s) && CoversAll(rows, clusters, s) && |s| <= limit
    ensures GreedyCovers(rows, clusters, limit)
  {
  }

  // If some selection covers all rows, the best cluster hits at least its share of the
  // rows left.
  lemma GreedyShare(rows: Matrix, clusters: seq<seq<nat>>, m: seq<bool>, c: nat, other: seq<nat>)
    requires |m| == |rows| && CoversAll(rows, clusters, other)
    requires c < |clusters|
      && forall d :: 0 <= d < |clusters| ==> Gain(rows, clusters[d], m) <= Gain(rows, clusters[c], m)
    ensures |rows| - Count(m) <= |other| * Gain(rows, clusters[c], m)
  {
    hide HitBySome, Gain;
    var all := CoveredBits(rows, clusters, other);
    assert forall i :: 0 <= i < |rows| ==> all[i];
    CountAll(Or(m, all));
    CountOr(m, all);
    SharesBound(rows, clusters, m, Gain(rows, clusters[c], m), other);
  }

  lemma {:induction false} SharesBound(rows: Matrix, clusters: seq<seq<nat>>, m: seq<bool>, most: nat, other: seq<nat>)
    requires |m| == |rows| && forall d :: 0 <= d < |clusters| ==> Gain(rows, clusters[d], m) <= most
    ensures Count(Minus(CoveredBits(rows, clusters, other), m)) <= |other| * most
  {
    hide Hits, Count;
    if other == [] {
      CountZero(Minus(CoveredBits(rows, clusters, other), m));
    } else {
      var n := |other| - 1;
      SharesBound(rows, clusters, m, most, other[..n]);
      ShareAdded(rows, clusters, m, other[..n], other[n]);
      assert other == other[..n] + [other[n]];
      assert |other| * most == n * most + most;
    }
  }

  lemma ShareAdded(rows: Matrix, clusters: seq<seq<nat>>, m: seq<bool>, other: seq<nat>, c: nat)
    requires |m| == |rows|
    ensures Count(Minus(CoveredBits(rows, clusters, other + [c]), m)) <=
      Count(Minus(CoveredBits(rows, clusters, other), m)) + if c < |clusters| then Gain(rows, clusters[c], m) else 0
  {
    hide Hits, Count;
    var s := Minus(CoveredBits(rows, clusters, other), m);
    forall i | 0 <= i < |rows| ensures HitBySome(rows[i], clusters, other + [c]) <==>
      HitBySome(rows[i], clusters, other) || (c < |clusters| && Hits(rows[i], clusters[c]))
    {
      assert forall x :: x in other + [c] <==> x in other || x == c;
    }
    if c < |clusters| {
      var g := Minus(HitBits(rows, clusters[c]), m);
      assert Minus(CoveredBits(rows, clusters, other + [c]), m) == Or(s, g);
      CountOr(s, g);
      CountLess(Minus(g, s), g);
    } else {
      assert Minus(CoveredBits(rows, clusters, other + [c]), m) == s;
    }
  }

  // One cluster that hits every row is enough for the greedy choice.
  lemma OneSuffices(rows: Matrix, clusters: seq<seq<nat>>, c: nat, limit: nat)
    requires CoversAll(rows, clusters, [c]) && limit >= 1
    ensures !RowMissed(rows, clusters) && !GreedyExceeds(rows, clusters, limit)
  {
    hide Gain, NoRepeats, CoveredBits, CoversAll, RowMissed;
    if RowMissed(rows, clusters) {
      MissedUncovered(rows, clusters, [c]);
    }
    if GreedyExceeds(rows, clusters, limit) {
      var s: seq<nat> :| Greedy(rows, clusters, s) && NoRepeats(s) && |s| == limit + 1;
      var none := CoveredBits(rows, clusters, s[..0]);
      assert FirstBest(rows, clusters, none, s[0]);
      GreedyShare(rows, clusters, none, s[0], [c]);
      FirstCovers(rows, clusters, s);
      assert FirstBest(rows, clusters, CoveredBits(rows, clusters, s[..1]), s[1]);
      CoveredNoGain(rows, clusters, s[..1], s[1]);
      assert false;
    }
  }

  lemma FirstCovers(rows: Matrix, clusters: seq<seq<nat>>, s: seq<nat>)
    requires s != [] && s[0] < |clusters|
    requires |rows| - Count(CoveredBits(rows, clusters, s[..0])) <= Gain(rows, clusters[s[0]],
      CoveredBits(rows, clusters, s[..0]))
    ensures CoversAll(rows, clusters, s[..1])
  {
    var none := CoveredBits(rows, clusters, s[..0]);
    CountZero(none);
    CountAll(Minus(HitBits(rows, clusters[s[0]]), none));
    forall i | 0 <= i < |rows| ensures HitBySome(rows[i], clusters, s[..1])
    {
      assert Minus(HitBits(rows, clusters[s[0]]), none)[i];
      assert s[0] in s[..1];
    }
  }

  lemma CountSix(s: seq<bool>)
    requires |s| == 6
    ensures Count(s) == One(s[0]) + One(s[1]) + One(s[2]) + One(s[3]) + One(s[4]) + One(s[5])
  {
    hide Count, One;
    CountNone(s, 0);
    CountNext(s, 0, 0);
    CountNext(s, 0, 1);
    CountNext(s, 0, 2);
    CountNext(s, 0, 3);
    CountNext(s, 0, 4);
    CountNext(s, 0, 5);
    assert s[0..6] == s;
  }

  // Which rows of the example the clusters hit.
  ghost predicate SixRows(rows: Matrix, clusters: seq<seq<nat>>)
  {
    && |rows| == 6 && |clusters| == 3
    && HitBits(rows, clusters[0]) == [true, true, true, false, false, false]
    && HitBits(rows, clusters[1]) == [false, false, false, true, true, true]
    && HitBits(rows, clusters[2]) == [false, true, true, true, true, false]
  }

  lemma SixGain(rows: Matrix, clusters: seq<seq<nat>>, c: nat, m: seq<bool>)
    requires SixRows(rows, clusters) && c < 3 && |m| == 6
    ensures var h := HitBits(rows, clusters[c]);
      Gain(rows, clusters[c], m) == One(h[0] && !m[0]) + One(h[1] && !m[1]) + One(h[2] && !m[2])
        + One(h[3] && !m[3]) + One(h[4] && !m[4]) + One(h[5] && !m[5])
  {
    CountSix(Minus(HitBits(rows, clusters[c]), m));
  }

  lemma SixBest(rows: Matrix, clusters: seq<seq<nat>>, m: seq<bool>, c: nat)
    requires SixRows(rows, clusters)
    requires (m == [false, false, false, false, false, false] && c == 2)
      || (m == [false, true, true, true, true, false] && c == 0)
      || (m == [true, true, true, true, true, false] && c == 1)
    ensures FirstBest(rows, clusters, m, c)
  {
    hide Gain, HitBits;
    SixGain(rows, clusters, 0, m);
    SixGain(rows, clusters, 1, m);
    SixGain(rows, clusters, 2, m);
  }

  lemma CoveredMore(rows: Matrix, clusters: seq<seq<nat>>, s: seq<nat>, c: nat)
    requires c < |clusters|
    ensures CoveredBits(rows, clusters, s + [c]) == Or(CoveredBits(rows, clusters, s), HitBits(rows, clusters[c]))
  {
    hide Hits;
    assert forall x :: x in s + [c] <==> x in s || x == c;
    forall i | 0 <= i < |rows| ensures HitBySome(rows[i], clusters, s + [c]) <==>
      HitBySome(rows[i], clusters, s) || Hits(rows[i], clusters[c])
    {
    }
  }

  lemma SixGreedy(rows: Matrix, clusters: seq<seq<nat>>)
    requires SixRows(rows, clusters)
    ensures Greedy(rows, clusters, [2, 0, 1])
    ensures CoveredBits(rows, clusters, [0, 1]) == [true, true, true, true, true, true]
  {
    hide CoveredBits, HitBits, FirstBest;
    var none: seq<nat> := [];
    SelectStart(rows, clusters);
    assert NoBits(6) == [false, false, false, false, false, false];
    SixBest(rows, clusters, CoveredBits(rows, clusters, none), 2);
    GreedyStep(rows, clusters, none, 2);
    CoveredMore(rows, clusters, none, 2);
    assert none + [2] == [2] && [2] + [0] == [2, 0] && [2, 0] + [1] == [2, 0, 1] && none + [0] == [0]
      && [0] + [1] == [0, 1];
    SixBest(rows, clusters, CoveredBits(rows, clusters, [2]), 0);
    GreedyStep(rows, clusters, [2], 0);
    CoveredMore(rows, clusters, [2], 0);
    SixBest(rows, clusters, CoveredBits(rows, clusters, [2, 0]), 1);
    GreedyStep(rows, clusters, [2, 0], 1);
    CoveredMore(rows, clusters, none, 0);
    CoveredMore(rows, clusters, [0], 1);
  }

  // The greedy choice can refuse although two clusters would do: of six rows the third
  // cluster hits four, and the rows it leaves need both others.
  lemma GreedyCanMiss() returns (rows: Matrix, clusters: seq<seq<nat>>)
    ensures CoversAll(rows, clusters, [0, 1]) && !GreedyCovers(rows, clusters, 2)
  {
    var a, b, ac, bc := [true, false, false], [false, true, false], [true, false, true], [false, true, true];
    rows, clusters := [a, ac, ac, bc, bc, b], [[0], [1], [2]];
    forall i, j | 0 <= i < 6 && 0 <= j < 3 ensures Hits(rows[i], clusters[j]) <==> rows[i][j]
    {
      assert clusters[j] == [j];
    }
    SixGreedy(rows, clusters);
    CountSix(CoveredBits(rows, clusters, [0, 1]));
    AllCovered(rows, clusters, [0, 1]);
    Refused(rows, clusters, 2, [2, 0, 1]);
  }

  // With as many clusters allowed as there are, the limit is never exceeded.
  lemma LimitEnough(rows: Matrix, clusters: seq<seq<nat>>, limit: nat)
    requires |clusters| <= limit
    ensures !GreedyExceeds(rows, clusters, limit)
  {
    hide Gain, NoRepeats, CoveredBits;
    if GreedyExceeds(rows, clusters, limit) {
      var s: seq<nat> :| Greedy(rows, clusters, s) && NoRepeats(s) && |s| == limit + 1;
      forall c | c in s ensures c < |clusters|
      {
        var k :| 0 <= k < |s| && s[k] == c;
        assert FirstBest(rows, clusters, CoveredBits(rows, clusters, s[..k]), s[k]);
      }
      SelectionBounded(s, |clusters|);
      assert false;
    }
  }

  lemma SelectStart(rows: Matrix, clusters: seq<seq<nat>>)
    ensures CoveredBits(rows, clusters, []) == NoBits(|rows|) && InputsOf(clusters, []) == {}
    ensures Greedy(rows, clusters, []) && NoRepeats<nat>([])
  {
  }

  lemma AllCovered(rows: Matrix, clusters: seq<seq<nat>>, selected: seq<nat>)
    requires Count(CoveredBits(rows, clusters, selected)) == |rows|
    ensures CoversAll(rows, clusters, selected)
  {
    CountAll(CoveredBits(rows, clusters, selected));
    forall i | 0 <= i < |rows| ensures HitBySome(rows[i], clusters, selected)
    {
      assert CoveredBits(rows, clusters, selected)[i];
    }
  }

  lemma NoneHelps(rows: Matrix, clusters: seq<seq<nat>>, m: seq<bool>)
    requires |m| == |rows| && Count(m) != |rows|
    requires forall i, c :: 0 <= i < |rows| && 0 <= c < |clusters| && Hits(rows[i], clusters[c]) ==> m[i]
    ensures RowMissed(rows, clusters)
  {
    hide Hits;
    CountAll(m);
    var i :| 0 <= i < |m| && !m[i];
    assert forall c :: 0 <= c < |clusters| ==> !Hits(rows[i], clusters[c]);
  }

  ghost function InputsOf(clusters: seq<seq<nat>>, selected: seq<nat>): (r: set<nat>)
  {
    set c, j | c in selected && 0 <= c < |clusters| && j in clusters[c] :: j
  }

  lemma InputsGrow(clusters: seq<seq<nat>>, selected: seq<nat>, c: nat)
    requires c < |clusters| && c !in selected && NoRepeats(selected) && forall d :: d in selected ==> d < |clusters|
    ensures NoRepeats(selected + [c]) && forall d :: d in selected + [c] ==> d < |clusters|
    ensures InputsOf(clusters, selected + [c]) == InputsOf(clusters, selected) + set j | j in clusters[c]
  {
    var t := InputsOf(clusters, selected + [c]);
    assert forall x :: x in selected + [c] <==> x in selected || x == c;
    assert forall j :: j in clusters[c] ==> j in t;
    assert forall j :: j in InputsOf(clusters, selected) ==> j in t;
  }

  // How many rows outside `m` the columns of `inputs` hit.
  ghost function Gain(rows: Matrix, inputs: seq<nat>, m: seq<bool>): nat
    requires |m| == |rows|
  {
    Count(Minus(HitBits(rows, inputs), m))
  }

  lemma HitBitsStep(rows: Matrix, width: nat, inputs: seq<nat>, k: nat)
    requires k < |inputs| && Sized(rows, |rows|, width) && inputs[k] < width
    ensures HitBits(rows, inputs[..k + 1]) == Or(HitBits(rows, inputs[..k]), Transpose(rows, width)[inputs[k]])
  {
    assert inputs[..k + 1] == inputs[..k] + [inputs[k]];
    var col := Transpose(rows, width)[inputs[k]];
    forall i | 0 <= i < |rows| ensures Hits(rows[i], inputs[..k + 1]) <==> Hits(rows[i], inputs[..k]) || col[i]
    {
      assert col[i] == rows[i][inputs[k]];
    }
  }

  lemma GainSelected(rows: Matrix, clusters: seq<seq<nat>>, selected: seq<nat>, sel: nat, m: seq<bool>)
    requires sel < |clusters| && m == CoveredBits(rows, clusters, selected) && Gain(rows, clusters[sel], m) > 0
    ensures sel !in selected
    ensures Or(m, Minus(HitBits(rows, clusters[sel]), m)) == CoveredBits(rows, clusters, selected + [sel])
    ensures Count(m) < Count(Or(m, Minus(HitBits(rows, clusters[sel]), m)))
  {
    var gain := Minus(HitBits(rows, clusters[sel]), m);
    CountZero(gain);
    var i :| 0 <= i < |rows| && gain[i];
    assert Hits(rows[i], clusters[sel]) && !HitBySome(rows[i], clusters, selected);
    CountOr(m, gain);
    assert Minus(gain, m) == gain;
    forall k | 0 <= k < |rows| ensures HitBySome(rows[k], clusters, selected + [sel]) <==>
      HitBySome(rows[k], clusters, selected) || Hits(rows[k], clusters[sel])
    {
      assert forall x :: x in selected + [sel] <==> x in selected || x == sel;
      assert sel in selected + [sel];
    }
  }

  lemma NoGain(rows: Matrix, clusters: seq<seq<nat>>, m: seq<bool>)
    requires |m| == |rows| && forall c :: 0 <= c < |clusters| ==> Gain(rows, clusters[c], m) == 0
    ensures forall i, c :: 0 <= i < |rows| && 0 <= c < |clusters| && Hits(rows[i], clusters[c]) ==> m[i]
  {
    forall i, c | 0 <= i < |rows| && 0 <= c < |clusters| && Hits(rows[i], clusters[c]) ensures m[i]
    {
      assert Gain(rows, clusters[c], m) == 0;
      CountZero(Minus(HitBits(rows, clusters[c]), m));
      assert !Minus(HitBits(rows, clusters[c]), m)[i];
    }
  }

  // Distinct indices below `n` are at most `n`.
  lemma {:induction false} SelectionBounded(s: seq<nat>, n: nat)
    requires NoRepeats(s) && forall x :: x in s ==> x < n
    ensures |s| <= n
    decreases n
  {
    if s != [] {
      assert s[0] in s;
      if n - 1 in s {
        RemoveFirstMeaning<nat>(s, n - 1);
        SelectionBounded(RemoveFirst<nat>(s, n - 1), n - 1);
      } else {
        SelectionBounded(s, n - 1);
      }
    }
  }

  // Row and column vectors hold the matrix and its transpose.
  ghost predicate InBoth(vr: seq<BitVector>, vc: seq<BitVector>, m: Matrix, width: nat)
  {
    Sized(m, |m|, width) && Holds(vr, m, width) && Holds(vc, Transpose(m, width), |m|)
  }

  // The first `j` bits of a row.
  ghost function Filled(row: seq<bool>, j: nat): (r: seq<bool>)
    requires j <= |row|
    ensures |r| == |row|
  {
    seq(|row|, k requires 0 <= k < |row| => k < j && row[k])
  }

  lemma FilledStart(m: Matrix, i: nat, row: seq<bool>)
    requires i < |m| && m[i] == NoBits(|row|)
    ensures m[i := Filled(row, 0)] == m
  {
    assert Filled(row, 0) == NoBits(|row|);
  }

  lemma FilledStep(row: seq<bool>, j: nat)
    requires j < |row|
    ensures Filled(row, j + 1) == if row[j] then Filled(row, j)[j := true] else Filled(row, j)
  {
  }

  lemma FilledEnd(row: seq<bool>)
    ensures Filled(row, |row|) == row
  {
  }

  lemma CellInside(vr: seq<BitVector>, vc: seq<BitVector>, m: Matrix, width: nat, i: nat, j: nat)
    requires InBoth(vr, vc, m, width) && i < |m| && j < width
    ensures i < |vr| && j < |vc| && vr[i].Valid() && vc[j].Valid() && vr[i].bsize == width && vc[j].bsize == |m|
  {
  }

  lemma CellEntered(vr: seq<BitVector>, vc: seq<BitVector>, m: Matrix, width: nat, i: nat, j: nat, c: BitVector,
      r: BitVector)
    requires InBoth(vr, vc, m, width) && i < |m| && j < width
    requires i < |vr| && j < |vc| && vr[i].Valid() && vc[j].Valid() && vr[i].bsize == width && vc[j].bsize == |m|
    requires c.Valid() && c.bsize == |m| && c.Bits() == vc[j].Bits()[i := true]
    requires r.Valid() && r.bsize == width && r.Bits() == vr[i].Bits()[j := true]
    ensures |m[i]| == width && InBoth(vr[i := r], vc[j := c], m[i := m[i][j := true]], width)
  {
    hide Transpose;
    CellSet(m, width, i, j, true);
    assert vc[j].Bits() == Transpose(m, width)[j];
  }

  lemma CellSet(m: Matrix, width: nat, i: nat, j: nat, b: bool)
    requires Sized(m, |m|, width) && i < |m| && j < width
    ensures var n := m[i := m[i][j := b]];
      Sized(n, |m|, width) && Transpose(n, width) == Transpose(m, width)[j := Transpose(m, width)[j][i := b]]
  {
    var n := m[i := m[i][j := b]];
    var t, u := Transpose(n, width), Transpose(m, width)[j := Transpose(m, width)[j][i := b]];
    forall k | 0 <= k < width ensures t[k] == u[k]
    {
      assert |t[k]| == |u[k]|;
      forall a | 0 <= a < |m| ensures t[k][a] == u[k][a]
      {
        assert t[k][a] == n[a][k];
      }
    }
  }

  lemma HoldsStep(vs: seq<BitVector>, v: BitVector, now: Matrix, width: nat, was: Matrix, before: nat, j: nat)
    requires j < |vs| == |now| == |was| && v.Valid() && v.bsize == width && v.Bits() == now[j]
    requires Holds(vs[..j], now[..j], width) && Holds(vs[j..], was[j..], before)
    ensures Holds(vs[j := v][..j + 1], now[..j + 1], width)
    ensures Holds(vs[j := v][j + 1..], was[j + 1..], before)
  {
    assert vs[j := v][..j + 1] == vs[..j] + [v];
    assert vs[j := v][j + 1..] == vs[j..][1..];
    assert was[j + 1..] == was[j..][1..];
  }
}
