// The indexed binary heap that orders variables by priority.
module Heaps {
  import opened Vectors

  function Left(i: nat): nat { 2 * i + 1 }

  function Right(i: nat): nat { 2 * (i + 1) }

  function Parent(i: nat): (p: nat)
    requires i > 0
    ensures p < i && (Left(p) == i || Right(p) == i)
  {
    (i - 1) / 2
  }

  // A strict order in which being incomparable is an equivalence.
  ghost predicate StrictWeak(lt: (nat, nat) -> bool)
  {
    && (forall a :: !lt(a, a)) && (forall a, b :: lt(a, b) ==> !lt(b, a))
    && (forall a, b, c :: !lt(a, b) && !lt(b, c) ==> !lt(a, c))
  }

  // Element `j` is not smaller than the one above it.
  ghost predicate InOrder(h: seq<nat>, lt: (nat, nat) -> bool, j: nat)
    requires 0 < j < |h|
  {
    !lt(h[j], h[Parent(j)])
  }

  ghost predicate HeapOrder(h: seq<nat>, lt: (nat, nat) -> bool)
  {
    forall j :: 0 < j < |h| ==> InOrder(h, lt, j)
  }

  // In order below and from `lo` on, except around element `i`, whose own
  // neighbours are in order with one another.
  ghost predicate OrderBut(h: seq<nat>, lt: (nat, nat) -> bool, i: nat, lo: nat)
  {
    && (forall j :: 0 < j < |h| && Parent(j) >= lo && j != i && Parent(j) != i ==> InOrder(h, lt, j))
    && (forall j :: 0 < j < |h| && Parent(j) == i && 0 < i && Parent(i) >= lo ==> !lt(h[j], h[Parent(i)]))
  }

  ghost predicate AboveOk(h: seq<nat>, lt: (nat, nat) -> bool, i: nat, lo: nat)
  {
    0 < i < |h| && Parent(i) >= lo ==> InOrder(h, lt, i)
  }

  ghost predicate BelowOk(h: seq<nat>, lt: (nat, nat) -> bool, i: nat)
  {
    forall j :: 0 < j < |h| && Parent(j) == i ==> InOrder(h, lt, j)
  }

  ghost predicate OrderFrom(h: seq<nat>, lt: (nat, nat) -> bool, lo: nat)
  {
    forall j :: 0 < j < |h| && Parent(j) >= lo ==> InOrder(h, lt, j)
  }

  // `indices` is the inverse of `heap`, and -1 for everything not in the heap.
  ghost predicate Inverse(h: seq<nat>, ind: seq<int>)
  {
    && (forall i :: 0 <= i < |h| ==> h[i] < |ind| && ind[h[i]] == i)
    && (forall n :: 0 <= n < |ind| ==> ind[n] == -1 || (0 <= ind[n] < |h| && h[ind[n]] == n))
  }

  ghost function Elements(h: seq<nat>): set<nat>
  {
    set x | x in h
  }

  // The root of a heap is a minimum.
  lemma {:induction false} RootIsLeast(h: seq<nat>, lt: (nat, nat) -> bool, i: nat)
    requires StrictWeak(lt) && HeapOrder(h, lt) && i < |h|
    ensures !lt(h[i], h[0])
  {
    if i > 0 {
      RootIsLeast(h, lt, Parent(i));
      assert InOrder(h, lt, i);
    }
  }

  lemma WholeOrder(h: seq<nat>, lt: (nat, nat) -> bool, i: nat, lo: nat)
    requires OrderBut(h, lt, i, lo) && AboveOk(h, lt, i, lo) && BelowOk(h, lt, i)
    ensures OrderFrom(h, lt, lo)
  {
  }

  // Exchanging `i` with the larger element above it.
  lemma MoveUp(h: seq<nat>, lt: (nat, nat) -> bool, i: nat)
    requires StrictWeak(lt) && 0 < i < |h| && OrderBut(h, lt, i, 0) && lt(h[i], h[Parent(i)])
    ensures var g := h[i := h[Parent(i)]][Parent(i) := h[i]];
      OrderBut(g, lt, Parent(i), 0) && BelowOk(g, lt, Parent(i))
  {
    var p := Parent(i);
    var g := h[i := h[p]][p := h[i]];
    forall j | 0 < j < |g| && Parent(j) == p ensures InOrder(g, lt, j) && (0 < p ==> !lt(g[j], g[Parent(p)]))
    {
      if j != i {
        assert InOrder(h, lt, j);
      }
      if 0 < p {
        assert InOrder(h, lt, p);
      }
    }
    forall j | 0 < j < |g| && j != p && Parent(j) != p ensures InOrder(g, lt, j)
    {
      if Parent(j) != i {
        assert InOrder(h, lt, j);
      }
    }
  }

  // Exchanging `i` with its smallest child `c`, which is smaller than it.
  lemma MoveDown(h: seq<nat>, lt: (nat, nat) -> bool, i: nat, c: nat, lo: nat)
    requires StrictWeak(lt) && lo <= i && OrderBut(h, lt, i, lo) && AboveOk(h, lt, i, lo)
    requires 0 < c < |h| && Parent(c) == i && lt(h[c], h[i])
    requires forall j :: 0 < j < |h| && Parent(j) == i ==> !lt(h[j], h[c])
    ensures var g := h[i := h[c]][c := h[i]];
      OrderBut(g, lt, c, lo) && AboveOk(g, lt, c, lo)
  {
    var g := h[i := h[c]][c := h[i]];
    forall j | 0 < j < |g| && Parent(j) >= lo && j != c && Parent(j) != c ensures InOrder(g, lt, j)
    {
      if j != i && Parent(j) != i {
        assert InOrder(h, lt, j);
      }
    }
    forall j | 0 < j < |g| && Parent(j) == c ensures !lt(g[j], g[Parent(c)])
    {
      assert InOrder(h, lt, j);
    }
  }

  class Heap {
    var lt: (nat, nat) -> bool
    var heap: seq<nat>
    var indices: seq<int>

    ghost predicate Valid()
      reads this
    {
      StrictWeak(lt) && Inverse(heap, indices) && HeapOrder(heap, lt)
    }

    constructor (lt: (nat, nat) -> bool)
      requires StrictWeak(lt)
      ensures Valid() && heap == [] && this.lt == lt
    {
      this.lt, heap, indices := lt, [], [];
    }

    predicate InHeap(n: nat)
      reads this
    {
      n < |indices| && indices[n] >= 0
    }

    // Moves the element at `i0` up while it is smaller than the one above.
    method PercolateUp(i0: nat)
      requires StrictWeak(lt) && i0 < |heap| && Inverse(heap, indices) && OrderBut(heap, lt, i0, 0)
      modifies this`heap, this`indices
      ensures Inverse(heap, indices) && |heap| == old(|heap|) && |indices| == old(|indices|)
      ensures Elements(heap) == old(Elements(heap)) && 0 <= indices[old(heap[i0])] < |heap|
      ensures OrderBut(heap, lt, indices[old(heap[i0])], 0) && AboveOk(heap, lt, indices[old(heap[i0])], 0)
      ensures old(BelowOk(heap, lt, i0)) ==> HeapOrder(heap, lt)
    {
      hide StrictWeak, Inverse, OrderBut, AboveOk, BelowOk, HeapOrder, Placed, Elements;
      var i := i0;
      var x := heap[i];
      ghost var below := BelowOk(heap, lt, i0);
      ghost var v := heap;
      PlacedStart(heap, indices, i);
      while i != 0 && lt(x, heap[Parent(i)])
        invariant i < |heap| == |v| == old(|heap|) && |indices| == old(|indices|)
        invariant v == heap[i := x] && Placed(heap, indices, i, x) && Elements(v) == old(Elements(heap))
        invariant OrderBut(v, lt, i, 0) && (below ==> BelowOk(v, lt, i))
      {
        var p := Parent(i);
        MoveUp(v, lt, i);
        ExchangedElements(v, i, p);
        PlacedStep(heap, indices, i, p, x);
        v := v[i := v[p]][p := x];
        indices := indices[heap[p] := i];
        heap := heap[i := heap[p]];
        i := p;
      }
      PlacedEnd(heap, indices, i, x);
      heap := heap[i := x];
      indices := indices[x := i];
      StoppedUp(heap, lt, i);
      if below {
        WholeOrder(heap, lt, i, 0);
        FromRoot(heap, lt);
      }
    }

    // Moves the element at `i0` down while a child is smaller.
    method PercolateDown(i0: nat, ghost lo: nat)
      requires StrictWeak(lt) && lo <= i0 < |heap| && Inverse(heap, indices)
      requires OrderBut(heap, lt, i0, lo) && AboveOk(heap, lt, i0, lo)
      modifies this`heap, this`indices
      ensures Inverse(heap, indices) && |heap| == old(|heap|) && |indices| == old(|indices|)
      ensures Elements(heap) == old(Elements(heap)) && OrderFrom(heap, lt, lo)
    {
      hide StrictWeak, Inverse, OrderBut, AboveOk, BelowOk, OrderFrom, Placed, Elements, Sinking;
      var i := i0;
      var x := heap[i];
      ghost var elems := Elements(heap);
      SinkingStart(heap, indices, lt, i, lo);
      ghost var stopped := false;
      while Left(i) < |heap|
        invariant lo <= i < |heap| == old(|heap|) && |indices| == old(|indices|) && !stopped
        invariant Sinking(heap, indices, lt, i, x, lo, elems)
        decreases |heap| - i
      {
        var child := if Right(i) < |heap| && lt(heap[Right(i)], heap[Left(i)]) then Right(i) else Left(i);
        if !lt(heap[child], x) {
          SinkingStops(heap, indices, lt, i, x, lo, elems, child);
          stopped := true;
          break;
        }
        SinkingStep(heap, indices, lt, i, x, lo, elems, child);
        heap := heap[i := heap[child]];
        indices := indices[heap[i] := i];
        i := child;
      }
      if !stopped {
        NoChild(heap[i := x], lt, i);
      }
      SinkingEnd(heap, indices, lt, i, x, lo, elems);
      heap := heap[i := x];
      indices := indices[x := i];
    }

    method Insert(n: nat)
      requires Valid() && !InHeap(n)
      modifies this`heap, this`indices
      ensures Valid() && Elements(heap) == old(Elements(heap)) + {n}
    {
      hide Inverse, OrderBut, AboveOk, BelowOk, HeapOrder, Elements;
      if |indices| < n + 1 {
        GrowInverse(heap, indices, n + 1);
        indices := indices + seq(n + 1 - |indices|, i => -1);
      }
      InsertLast(heap, indices, lt, n);
      ghost var was := heap;
      indices := indices[n := |heap|];
      heap := heap + [n];
      PercolateUp(indices[n]);
    }

    // Takes the root, which is a minimum.
    method RemoveMin() returns (x: nat)
      requires Valid() && |heap| > 0
      modifies this`heap, this`indices
      ensures Valid() && x in old(Elements(heap)) && Elements(heap) == old(Elements(heap)) - {x} && !InHeap(x)
      ensures forall y :: y in old(Elements(heap)) ==> !lt(y, x)
    {
      x := heap[0];
      ghost var was, ind := heap, indices;
      RootLeast(heap, lt);
      LastToRoot(heap, indices, lt);
      heap := heap[0 := heap[|heap| - 1]];
      indices := indices[heap[0] := 0];
      indices := indices[x := -1];
      heap := heap[..|heap| - 1];
      hide Inverse, OrderBut, AboveOk, BelowOk, HeapOrder, OrderFrom, Elements;
      if |heap| > 1 {
        PercolateDown(0, 0);
        FromRoot(heap, lt);
      }
      OutOfHeap(heap, indices, x);
    }

    // The priority of `n` changed in its favour.
    method Decrease(n: nat, priority: (nat, nat) -> bool)
      requires Valid() && InHeap(n) && StrictWeak(priority) && Promoted(lt, priority, n)
      modifies this
      ensures Valid() && lt == priority && Elements(heap) == old(Elements(heap))
    {
      hide Inverse, OrderBut, AboveOk, BelowOk, HeapOrder, Elements, Promoted;
      PromotedOrder(heap, indices, lt, priority, n);
      lt := priority;
      PercolateUp(indices[n]);
    }

    // The priority of `n` changed to its disadvantage.
    method Increase(n: nat, priority: (nat, nat) -> bool)
      requires Valid() && InHeap(n) && StrictWeak(priority) && Promoted(priority, lt, n)
      modifies this
      ensures Valid() && lt == priority && Elements(heap) == old(Elements(heap))
    {
      hide Inverse, OrderBut, AboveOk, BelowOk, HeapOrder, OrderFrom, Elements, Promoted;
      DemotedOrder(heap, indices, lt, priority, n);
      lt := priority;
      PercolateDown(indices[n], 0);
      FromRoot(heap, lt);
    }

    // The priority of `n` changed in any way, or `n` is new.
    method Update(n: nat, priority: (nat, nat) -> bool)
      requires Valid() && StrictWeak(priority) && SameElsewhere(lt, priority, n)
      modifies this
      ensures Valid() && lt == priority && Elements(heap) == old(Elements(heap)) + {n}
    {
      hide OrderBut, AboveOk, BelowOk, HeapOrder, OrderFrom, Elements, SameElsewhere;
      ChangedOrder(heap, indices, lt, priority, n);
      lt := priority;
      if !InHeap(n) {
        Insert(n);
      } else {
        PercolateUp(indices[n]);
        PercolateDown(indices[n], 0);
        FromRoot(heap, lt);
      }
    }

    // Makes a heap of the elements of `ns`, whatever was in it.
    method Build(ns: seq<nat>)
      requires StrictWeak(lt) && Inverse(heap, indices) && NoRepeats(ns) && forall n :: n in ns ==> n < |indices|
      modifies this`heap, this`indices
      ensures Valid() && Elements(heap) == Elements(ns)
    {
      hide Inverse, OrderBut, AboveOk, BelowOk, HeapOrder, OrderFrom, Elements;
      Clear();
      for i := 0 to |ns|
        invariant heap == ns[..i] && |indices| == old(|indices|) && Inverse(heap, indices)
      {
        assert ns[i] in ns;
        FreshElement(ns, i, indices);
        indices := indices[ns[i] := i];
        heap := heap + [ns[i]];
        assert ns[..i + 1] == ns[..i] + [ns[i]];
      }
      assert ns[..|ns|] == ns;
      LeavesOk(heap, lt);
      var i := |heap| / 2 - 1;
      while i >= 0
        invariant -1 <= i < |heap| && |heap| == |ns|
        invariant Inverse(heap, indices) && Elements(heap) == Elements(ns) && OrderFrom(heap, lt, i + 1)
      {
        AddRoot(heap, lt, i);
        PercolateDown(i, i);
        i := i - 1;
      }
      FromRoot(heap, lt);
    }

    method Clear()
      requires Inverse(heap, indices)
      modifies this`heap, this`indices
      ensures heap == [] && Inverse(heap, indices) && |indices| == old(|indices|)
    {
      ghost var was := indices;
      for i := 0 to |heap|
        invariant heap == old(heap) && |indices| == |was|
        invariant forall n :: 0 <= n < |was| ==> indices[n] == if 0 <= was[n] < i then -1 else was[n]
      {
        indices := indices[heap[i] := -1];
      }
      heap := [];
    }
  }

  // Only comparisons with `n` may have changed.
  ghost predicate SameElsewhere(lt: (nat, nat) -> bool, now: (nat, nat) -> bool, n: nat)
  {
    forall a, b :: a != n && b != n ==> now(a, b) == lt(a, b)
  }

  // Moreover `n` did not get larger.
  ghost predicate Promoted(lt: (nat, nat) -> bool, now: (nat, nat) -> bool, n: nat)
  {
    SameElsewhere(lt, now, n) && forall a :: (lt(n, a) ==> now(n, a)) && (now(a, n) ==> lt(a, n))
  }

  lemma GrowInverse(h: seq<nat>, ind: seq<int>, n: nat)
    requires Inverse(h, ind) && |ind| <= n
    ensures Inverse(h, ind + seq(n - |ind|, i => -1))
  {
  }

  lemma InsertLast(h: seq<nat>, ind: seq<int>, lt: (nat, nat) -> bool, n: nat)
    requires Inverse(h, ind) && n < |ind| && ind[n] < 0 && HeapOrder(h, lt)
    ensures Inverse(h + [n], ind[n := |h|]) && Elements(h + [n]) == Elements(h) + {n}
    ensures OrderBut(h + [n], lt, |h|, 0) && BelowOk(h + [n], lt, |h|)
  {
    var g := h + [n];
    forall j | 0 < j < |g| && j != |h| ensures InOrder(g, lt, j)
    {
      assert InOrder(h, lt, j);
    }
  }

  lemma RootLeast(h: seq<nat>, lt: (nat, nat) -> bool)
    requires StrictWeak(lt) && HeapOrder(h, lt) && |h| > 0
    ensures forall y :: y in h ==> !lt(y, h[0])
  {
    forall y | y in h ensures !lt(y, h[0])
    {
      var i :| 0 <= i < |h| && h[i] == y;
      RootIsLeast(h, lt, i);
    }
  }

  lemma LastToRoot(h: seq<nat>, ind: seq<int>, lt: (nat, nat) -> bool)
    requires Inverse(h, ind) && HeapOrder(h, lt) && |h| > 0
    ensures var n := |h| - 1; var g := h[0 := h[n]][..n]; var ind' := ind[h[n] := 0][h[0] := -1];
      Inverse(g, ind') && Elements(g) == Elements(h) - {h[0]} && ind'[h[0]] == -1
      && OrderBut(g, lt, 0, 0) && AboveOk(g, lt, 0, 0) && (n <= 1 ==> HeapOrder(g, lt))
  {
    var n := |h| - 1;
    var g := h[0 := h[n]][..n];
    forall x | x in h && x != h[0] ensures x in g
    {
      var k :| 0 <= k < |h| && h[k] == x;
      assert g[if k == n then 0 else k] == x;
    }
    forall x | x in g ensures x in h && x != h[0]
    {
      var k :| 0 <= k < |g| && g[k] == x;
      assert x == h[if k == 0 then n else k];
      assert ind[h[if k == 0 then n else k]] == if k == 0 then n else k;
    }
    forall j | 0 < j < |g| && Parent(j) != 0 ensures InOrder(g, lt, j)
    {
      assert InOrder(h, lt, j);
    }
  }

  lemma OutOfHeap(h: seq<nat>, ind: seq<int>, x: nat)
    requires Inverse(h, ind) && x !in Elements(h)
    ensures x < |ind| ==> ind[x] == -1
  {
  }

  lemma PromotedOrder(h: seq<nat>, ind: seq<int>, lt: (nat, nat) -> bool, now: (nat, nat) -> bool, n: nat)
    requires StrictWeak(lt) && Inverse(h, ind) && HeapOrder(h, lt) && n < |ind| && ind[n] >= 0 && Promoted(lt, now, n)
    ensures ind[n] < |h| && OrderBut(h, now, ind[n], 0) && BelowOk(h, now, ind[n])
  {
    ChangedOrder(h, ind, lt, now, n);
    forall j | 0 < j < |h| && Parent(j) == ind[n] ensures InOrder(h, now, j)
    {
      assert InOrder(h, lt, j);
    }
  }

  lemma DemotedOrder(h: seq<nat>, ind: seq<int>, lt: (nat, nat) -> bool, now: (nat, nat) -> bool, n: nat)
    requires StrictWeak(lt) && Inverse(h, ind) && HeapOrder(h, lt) && n < |ind| && ind[n] >= 0 && Promoted(now, lt, n)
    ensures ind[n] < |h| && OrderBut(h, now, ind[n], 0) && AboveOk(h, now, ind[n], 0)
  {
    ChangedOrder(h, ind, lt, now, n);
    var i := ind[n];
    if i > 0 {
      assert InOrder(h, lt, i);
    }
  }

  lemma ChangedOrder(h: seq<nat>, ind: seq<int>, lt: (nat, nat) -> bool, now: (nat, nat) -> bool, n: nat)
    requires StrictWeak(lt) && Inverse(h, ind) && HeapOrder(h, lt) && SameElsewhere(lt, now, n)
    ensures n < |ind| && ind[n] >= 0 ==> ind[n] < |h| && OrderBut(h, now, ind[n], 0)
    ensures !(n < |ind| && ind[n] >= 0) ==> HeapOrder(h, now) && n !in h
    ensures n < |ind| && ind[n] >= 0 ==> n in Elements(h)
  {
    forall j | 0 < j < |h| ensures !lt(h[j], h[Parent(j)]) && (h[j] != n && h[Parent(j)] != n ==> InOrder(h, now, j))
    {
      assert InOrder(h, lt, j);
    }
    forall i | 0 <= i < |h| && h[i] == n ensures i == ind[n]
    {
    }
    if n < |ind| && ind[n] >= 0 {
      var i := ind[n];
      forall j | 0 < j < |h| && Parent(j) == i && 0 < i ensures !now(h[j], h[Parent(i)])
      {
        assert !lt(h[j], h[i]) && !lt(h[i], h[Parent(i)]);
        assert h[j] != n && h[Parent(i)] != n;
      }
    }
  }

  lemma FreshElement(ns: seq<nat>, i: nat, ind: seq<int>)
    requires NoRepeats(ns) && i < |ns| && Inverse(ns[..i], ind) && ns[i] < |ind|
    ensures Inverse(ns[..i + 1], ind[ns[i] := i])
  {
    var h := ns[..i];
    var g := ns[..i + 1];
    forall k | 0 <= k < i ensures h[k] == g[k] && g[k] != ns[i]
    {
    }
  }

  lemma LeavesOk(h: seq<nat>, lt: (nat, nat) -> bool)
    ensures OrderFrom(h, lt, |h| / 2)
  {
  }

  lemma AddRoot(h: seq<nat>, lt: (nat, nat) -> bool, i: nat)
    requires OrderFrom(h, lt, i + 1) && i < |h|
    ensures OrderBut(h, lt, i, i) && AboveOk(h, lt, i, i)
  {
  }

  // `indices` is the inverse of the heap once `x` is put back at place `i`.
  ghost predicate Placed(h: seq<nat>, ind: seq<int>, i: nat, x: nat)
    requires i < |h|
  {
    && x < |ind| && ind[x] != -1
    && Inverse(h[i := x], ind[x := i])
  }

  lemma ExchangedElements(v: seq<nat>, i: nat, j: nat)
    requires i < |v| && j < |v|
    ensures Elements(v[i := v[j]][j := v[i]]) == Elements(v)
  {
    var w := v[i := v[j]][j := v[i]];
    forall x | x in v ensures x in w
    {
      var k :| 0 <= k < |v| && v[k] == x;
      assert w[if k == i then j else if k == j then i else k] == x;
    }
  }

  lemma SmallestChild(h: seq<nat>, lt: (nat, nat) -> bool, i: nat, c: nat)
    requires StrictWeak(lt) && Left(i) < |h|
    requires c == if Right(i) < |h| && lt(h[Right(i)], h[Left(i)]) then Right(i) else Left(i)
    ensures 0 < c < |h| && Parent(c) == i && forall j :: 0 < j < |h| && Parent(j) == i ==> !lt(h[j], h[c])
  {
  }

  // The heap while `x`, taken out of place `i`, sinks.
  ghost predicate Sinking(h: seq<nat>, ind: seq<int>, lt: (nat, nat) -> bool, i: nat, x: nat, lo: nat, elems: set<nat>)
    requires i < |h|
  {
    && Placed(h, ind, i, x) && Elements(h[i := x]) == elems
    && OrderBut(h[i := x], lt, i, lo) && AboveOk(h[i := x], lt, i, lo)
  }

  lemma SinkingStart(h: seq<nat>, ind: seq<int>, lt: (nat, nat) -> bool, i: nat, lo: nat)
    requires Inverse(h, ind) && i < |h| && OrderBut(h, lt, i, lo) && AboveOk(h, lt, i, lo)
    ensures Sinking(h, ind, lt, i, h[i], lo, Elements(h))
  {
    hide Inverse, OrderBut, AboveOk, Placed, Elements;
    PlacedStart(h, ind, i);
  }

  lemma SinkingStep(h: seq<nat>, ind: seq<int>, lt: (nat, nat) -> bool, i: nat, x: nat, lo: nat, elems: set<nat>,
      c: nat)
    requires StrictWeak(lt) && lo <= i && Left(i) < |h| && Sinking(h, ind, lt, i, x, lo, elems)
    requires c == (if Right(i) < |h| && lt(h[Right(i)], h[Left(i)]) then Right(i) else Left(i)) && lt(h[c], x)
    ensures i < c < |h| && h[c] < |ind| && Sinking(h[i := h[c]], ind[h[c] := i], lt, c, x, lo, elems)
  {
    hide StrictWeak, Inverse, OrderBut, AboveOk, Placed, Elements;
    var v := h[i := x];
    SmallestChild(v, lt, i, c);
    MoveDown(v, lt, i, c, lo);
    ExchangedElements(v, i, c);
    PlacedStep(h, ind, i, c, x);
  }

  lemma SinkingStops(h: seq<nat>, ind: seq<int>, lt: (nat, nat) -> bool, i: nat, x: nat, lo: nat, elems: set<nat>,
      c: nat)
    requires StrictWeak(lt) && Left(i) < |h| && Sinking(h, ind, lt, i, x, lo, elems)
    requires c == (if Right(i) < |h| && lt(h[Right(i)], h[Left(i)]) then Right(i) else Left(i)) && !lt(h[c], x)
    ensures BelowOk(h[i := x], lt, i)
  {
    hide StrictWeak, Inverse, OrderBut, AboveOk, Placed, Elements;
    SmallestChild(h[i := x], lt, i, c);
    SmallestNotSmaller(h[i := x], lt, i, c);
  }

  lemma SinkingEnd(h: seq<nat>, ind: seq<int>, lt: (nat, nat) -> bool, i: nat, x: nat, lo: nat, elems: set<nat>)
    requires i < |h| && Sinking(h, ind, lt, i, x, lo, elems) && BelowOk(h[i := x], lt, i)
    ensures x < |ind| && Inverse(h[i := x], ind[x := i]) && Elements(h[i := x]) == elems && OrderFrom(h[i := x], lt, lo)
  {
    hide Inverse, OrderBut, AboveOk, BelowOk, Placed, Elements;
    PlacedEnd(h, ind, i, x);
    WholeOrder(h[i := x], lt, i, lo);
  }

  lemma SmallestNotSmaller(h: seq<nat>, lt: (nat, nat) -> bool, i: nat, c: nat)
    requires StrictWeak(lt) && 0 < c < |h| && Parent(c) == i && !lt(h[c], h[i])
    requires forall j :: 0 < j < |h| && Parent(j) == i ==> !lt(h[j], h[c])
    ensures BelowOk(h, lt, i)
  {
  }

  lemma NoChild(h: seq<nat>, lt: (nat, nat) -> bool, i: nat)
    requires Left(i) >= |h|
    ensures BelowOk(h, lt, i)
  {
  }

  lemma StoppedUp(h: seq<nat>, lt: (nat, nat) -> bool, i: nat)
    requires i < |h| && (i == 0 || !lt(h[i], h[Parent(i)]))
    ensures AboveOk(h, lt, i, 0)
  {
  }

  lemma FromRoot(h: seq<nat>, lt: (nat, nat) -> bool)
    ensures OrderFrom(h, lt, 0) <==> HeapOrder(h, lt)
  {
  }

  lemma PlacedStart(h: seq<nat>, ind: seq<int>, i: nat)
    requires Inverse(h, ind) && i < |h|
    ensures Placed(h, ind, i, h[i]) && h[i := h[i]] == h
  {
    assert ind[h[i] := i] == ind;
  }

  lemma PlacedStep(h: seq<nat>, ind: seq<int>, i: nat, p: nat, x: nat)
    requires i < |h| && p < |h| && p != i && Placed(h, ind, i, x)
    ensures h[p] < |ind| && Placed(h[i := h[p]], ind[h[p] := i], p, x)
    ensures h[i := h[p]][p := x] == h[i := x][i := h[p]][p := x]
  {
    var g := h[i := x];
    assert g[p] == h[p] && g[i] == x;
    var g' := h[i := h[p]][p := x];
    var ind' := ind[h[p] := i][x := p];
    forall k | 0 <= k < |g'| ensures g'[k] < |ind'| && ind'[g'[k]] == k
    {
      if k != i && k != p {
        assert g[k] == h[k] && ind[x := i][g[k]] == k;
      }
    }
    forall n | 0 <= n < |ind'| ensures ind'[n] == -1 || (0 <= ind'[n] < |g'| && g'[ind'[n]] == n)
    {
      if n != x && n != h[p] {
        assert ind[x := i][n] == ind[n];
      }
    }
  }

  lemma PlacedEnd(h: seq<nat>, ind: seq<int>, i: nat, x: nat)
    requires i < |h| && Placed(h, ind, i, x)
    ensures x < |ind| && Inverse(h[i := x], ind[x := i])
  {
  }
}
