// Why the search ends between two restarts: compared level by level, the trail grows.
module SearchProgress {

  // Where the levels end on the trail; the current one ends with it.
  function Ends(lim: seq<nat>, size: nat): seq<nat>
  {
    lim + [size]
  }

  // The first level that differs has grown, or a level was opened.
  ghost predicate Before(e: seq<nat>, f: seq<nat>)
  {
    exists k: nat :: GrowsAt(e, f, k)
  }

  ghost predicate GrowsAt(e: seq<nat>, f: seq<nat>, k: nat)
  {
    k <= |e| && k < |f| && e[..k] == f[..k] && (k < |e| ==> e[k] < f[k])
  }

  // Levels were opened after the trail had reached at least `size`.
  ghost predicate Deeper(lim: seq<nat>, size: nat, lim': seq<nat>)
  {
    |lim| < |lim'| && lim'[..|lim|] == lim && size <= lim'[|lim|]
  }

  // A level was taken back to, and one literal added to it.
  ghost predicate Backjumped(lim: seq<nat>, lim': seq<nat>, size': nat)
  {
    |lim'| < |lim| && lim' == lim[..|lim'|] && size' == lim[|lim'|] + 1
  }

  // Beyond the first `m` levels, which can be empty, every level has a literal.
  ghost predicate Leveled(lim: seq<nat>, size: nat, m: nat)
  {
    forall i :: m <= i < |lim| ==> lim[i] < Ends(lim, size)[i + 1]
  }

  ghost predicate Within(lim: seq<nat>, size: nat, n: nat)
  {
    size <= n && forall i :: 0 <= i < |lim| ==> lim[i] <= n
  }

  // ---- Every turn moves forward ----

  lemma DeeperIsLater(lim: seq<nat>, size: nat, lim': seq<nat>, size': nat)
    requires Deeper(lim, size, lim')
    ensures Before(Ends(lim, size), Ends(lim', size'))
  {
    var e, f := Ends(lim, size), Ends(lim', size');
    assert e[..|lim|] == lim == f[..|lim|];
    if size < lim'[|lim|] {
      assert GrowsAt(e, f, |lim|);
    } else {
      assert f[..|lim| + 1] == lim'[..|lim| + 1] == e;
      assert GrowsAt(e, f, |lim| + 1);
    }
  }

  lemma DeeperOpen(lim: seq<nat>, size: nat, lim': seq<nat>)
    requires lim' == lim || Deeper(lim, size, lim')
    ensures Deeper(lim, size, lim' + [size])
  {
  }

  lemma BackjumpIsLater(lim: seq<nat>, size: nat, lim': seq<nat>, size': nat)
    requires Backjumped(lim, lim', size')
    ensures Before(Ends(lim, size), Ends(lim', size'))
  {
    var e, f := Ends(lim, size), Ends(lim', size');
    assert e[..|lim'|] == lim' == f[..|lim'|];
    assert GrowsAt(e, f, |lim'|);
  }

  lemma LongerIsLater(lim: seq<nat>, size: nat, more: nat, f: seq<nat>)
    requires size <= more && Before(Ends(lim, more), f)
    ensures Before(Ends(lim, size), f)
  {
    var e, g := Ends(lim, size), Ends(lim, more);
    var k: nat :| GrowsAt(g, f, k);
    if k <= |lim| {
      assert e[..k] == lim[..k] == g[..k];
      assert GrowsAt(e, f, k);
    } else {
      assert g == f[..k] && f[|lim|] == more;
      assert e[..|lim|] == lim == f[..|lim|];
      if size < more {
        assert GrowsAt(e, f, |lim|);
      } else {
        assert GrowsAt(e, f, k);
      }
    }
  }

  // ---- Levels stay inhabited ----

  lemma LeveledNone(lim: seq<nat>, size: nat, m: nat)
    requires |lim| == 0
    ensures Leveled(lim, size, m)
  {
  }

  lemma LeveledMore(lim: seq<nat>, size: nat, more: nat, m: nat)
    requires Leveled(lim, size, m) && size <= more
    ensures Leveled(lim, more, m)
  {
  }

  lemma LeveledCut(lim: seq<nat>, size: nat, m: nat, k: nat, size': nat)
    requires Leveled(lim, size, m) && k < |lim| && lim[k] <= size'
    ensures Leveled(lim[..k], size', m)
  {
    forall i | m <= i < k ensures lim[..k][i] < Ends(lim[..k], size')[i + 1]
    {
      assert lim[i] < Ends(lim, size)[i + 1];
    }
  }

  lemma LeveledDecide(lim: seq<nat>, size: nat, m: nat)
    requires Leveled(lim, size, m)
    ensures Leveled(lim + [size], size + 1, m)
  {
    forall i | m <= i <= |lim| ensures (lim + [size])[i] < Ends(lim + [size], size + 1)[i + 1]
    {
      if i < |lim| {
        assert lim[i] < Ends(lim, size)[i + 1];
      }
    }
  }

  lemma LeveledDummy(lim: seq<nat>, size: nat, m: nat)
    requires |lim| < m
    ensures Leveled(lim + [size], size, m)
  {
  }

  // So there are at most `m` levels more than trail literals.
  lemma LevelsBounded(lim: seq<nat>, size: nat, m: nat, n: nat)
    requires Leveled(lim, size, m) && Within(lim, size, n)
    ensures |Ends(lim, size)| <= n + m + 1
  {
    if m <= |lim| {
      LevelsReach(lim, size, m, |lim|);
    }
  }

  lemma {:induction false} LevelsReach(lim: seq<nat>, size: nat, m: nat, k: nat)
    requires Leveled(lim, size, m) && m <= k <= |lim|
    ensures k - m <= Ends(lim, size)[k]
  {
    if k > m {
      LevelsReach(lim, size, m, k - 1);
      assert lim[k - 1] < Ends(lim, size)[k];
    }
  }

  // ---- Counting down ----

  function Power(base: nat, n: nat): (r: nat)
    ensures base > 0 ==> r > 0
  {
    if n == 0 then 1 else base * Power(base, n - 1)
  }

  // The ends as digits, the lowest level first; levels not open count 0.
  function Rank(e: seq<nat>, width: nat, base: nat): nat
  {
    if width == 0 then 0
    else
      (if e == [] then 0 else e[0] + 1) * Power(base, width - 1)
      + Rank(if e == [] then [] else e[1..], width - 1, base)
  }

  ghost predicate Digits(e: seq<nat>, base: nat)
  {
    forall i :: 0 <= i < |e| ==> e[i] + 1 < base
  }

  lemma {:induction false} RankBelow(e: seq<nat>, width: nat, base: nat)
    requires Digits(e, base) && base > 0
    ensures Rank(e, width, base) < Power(base, width)
  {
    if width > 0 {
      RankBelow(if e == [] then [] else e[1..], width - 1, base);
      var d := if e == [] then 0 else e[0] + 1;
      Distribute(d, base, Power(base, width - 1));
    }
  }

  lemma Distribute(d: nat, b: nat, p: nat)
    requires d < b
    ensures d * p + p <= b * p
  {
    assert (d + 1) * p <= b * p;
  }

  lemma {:induction false} RankGrows(e: seq<nat>, f: seq<nat>, width: nat, base: nat)
    requires Before(e, f) && Digits(e, base) && Digits(f, base) && base > 0 && |f| <= width
    ensures Rank(e, width, base) < Rank(f, width, base)
    decreases width
  {
    var k: nat :| GrowsAt(e, f, k);
    var p := Power(base, width - 1);
    if k == 0 {
      var d := if e == [] then 0 else e[0] + 1;
      RankBelow(if e == [] then [] else e[1..], width - 1, base);
      Distribute(d, f[0] + 1, p);
    } else {
      assert e[0] == e[..k][0] == f[..k][0] == f[0];
      assert e[1..][..k - 1] == e[..k][1..] && f[1..][..k - 1] == f[..k][1..];
      assert GrowsAt(e[1..], f[1..], k - 1);
      RankGrows(e[1..], f[1..], width - 1, base);
    }
  }

  // How many turns the search can still take at most.
  function TurnsLeft(lim: seq<nat>, size: nat, m: nat, n: nat): nat
  {
    var rank := Rank(Ends(lim, size), n + m + 1, n + 2);
    if rank < Power(n + 2, n + m + 1) then Power(n + 2, n + m + 1) - rank else 0
  }

  // Each turn leaves fewer.
  lemma TurnsShrink(lim: seq<nat>, size: nat, lim': seq<nat>, size': nat, m: nat, n: nat)
    requires Before(Ends(lim, size), Ends(lim', size'))
    requires Within(lim, size, n) && Within(lim', size', n) && Leveled(lim', size', m)
    ensures TurnsLeft(lim', size', m, n) < TurnsLeft(lim, size, m, n)
  {
    hide Before, Rank, Power, Leveled;
    LevelsBounded(lim', size', m, n);
    RankGrows(Ends(lim, size), Ends(lim', size'), n + m + 1, n + 2);
    RankBelow(Ends(lim, size), n + m + 1, n + 2);
    RankBelow(Ends(lim', size'), n + m + 1, n + 2);
  }
}
