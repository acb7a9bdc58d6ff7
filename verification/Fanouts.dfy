// Fanout lists of all objects in one flat array: for each object the first fanout,
// and for each of its two edges as a fanout the previous and the next one.
module Fanouts {
  import opened Vectors

  // A fanout is an object and which of its two fanins is meant.
  function FanoutCreate(fanId: nat, num: nat): nat
    requires num < 2
  {
    2 * fanId + num
  }

  function ObjSlot(objId: nat): nat { 5 * objId }

  function PrevSlot(iFan: nat): nat { 5 * (iFan / 2) + 1 + iFan % 2 }

  function NextSlot(iFan: nat): nat { 5 * (iFan / 2) + 3 + iFan % 2 }

  lemma SlotsDistinct(a: nat, b: nat)
    ensures PrevSlot(a) == PrevSlot(b) <==> a == b
    ensures NextSlot(a) == NextSlot(b) <==> a == b
    ensures ObjSlot(a) == ObjSlot(b) <==> a == b
    ensures PrevSlot(a) != NextSlot(b) && PrevSlot(a) != ObjSlot(b) && NextSlot(a) != ObjSlot(b)
  {
    SlotParts(a);
    SlotParts(b);
    assert ObjSlot(b) / 5 == b && ObjSlot(b) % 5 == 0;
  }

  lemma SlotParts(a: nat)
    ensures PrevSlot(a) / 5 == NextSlot(a) / 5 == a / 2
    ensures PrevSlot(a) % 5 == 1 + a % 2 && NextSlot(a) % 5 == 3 + a % 2
  {
  }

  lemma SlotInside(a: nat, n: nat)
    requires a / 2 < n
    ensures PrevSlot(a) < 5 * n && NextSlot(a) < 5 * n
  {
  }

  type Data = seq<nat>

  function First(d: Data, o: nat): nat
  {
    if ObjSlot(o) < |d| then d[ObjSlot(o)] else 0
  }

  function Prev(d: Data, f: nat): nat
  {
    if PrevSlot(f) < |d| then d[PrevSlot(f)] else 0
  }

  function Next(d: Data, f: nat): nat
  {
    if NextSlot(f) < |d| then d[NextSlot(f)] else 0
  }

  lemma SetFirst(d: Data, o: nat, v: nat)
    requires ObjSlot(o) < |d|
    ensures var e := d[ObjSlot(o) := v];
      First(e, o) == v && (forall p :: p != o ==> First(e, p) == First(d, p)) && (forall f :: Prev(e, f) == Prev(d, f))
        && forall f :: Next(e, f) == Next(d, f)
  {
    var e := d[ObjSlot(o) := v];
    forall p | p != o ensures First(e, p) == First(d, p)
    {
      SlotsDistinct(o, p);
    }
    forall f ensures Prev(e, f) == Prev(d, f) && Next(e, f) == Next(d, f)
    {
      SlotsDistinct(f, o);
    }
  }

  lemma SetPrev(d: Data, f: nat, v: nat)
    requires PrevSlot(f) < |d|
    ensures var e := d[PrevSlot(f) := v];
      Prev(e, f) == v && (forall g :: g != f ==> Prev(e, g) == Prev(d, g)) && (forall g :: Next(e, g) == Next(d, g))
        && forall o :: First(e, o) == First(d, o)
  {
    var e := d[PrevSlot(f) := v];
    forall g ensures (g != f ==> Prev(e, g) == Prev(d, g)) && Next(e, g) == Next(d, g) && First(e, g) == First(d, g)
    {
      SlotsDistinct(f, g);
    }
  }

  lemma SetNext(d: Data, f: nat, v: nat)
    requires NextSlot(f) < |d|
    ensures var e := d[NextSlot(f) := v];
      Next(e, f) == v && (forall g :: g != f ==> Next(e, g) == Next(d, g)) && (forall g :: Prev(e, g) == Prev(d, g))
        && forall o :: First(e, o) == First(d, o)
  {
    var e := d[NextSlot(f) := v];
    forall g ensures (g != f ==> Next(e, g) == Next(d, g)) && Prev(e, g) == Prev(d, g) && First(e, g) == First(d, g)
    {
      SlotsDistinct(f, g);
      SlotsDistinct(g, f);
    }
  }

  // ---- Rings ----

  function After(k: nat, n: nat): (j: nat)
    requires k < n
    ensures j < n
  {
    if k + 1 == n then 0 else k + 1
  }

  function Before(k: nat, n: nat): (j: nat)
    requires k < n
    ensures j < n
  {
    if k == 0 then n - 1 else k - 1
  }

  // The fanouts in `l` are linked in a circle, in order, in both directions.
  ghost predicate Linked(d: Data, l: seq<nat>)
  {
    && (forall k :: 0 <= k < |l| ==> Next(d, l[k]) == l[After(k, |l|)])
    && (forall k :: 0 <= k < |l| ==> Prev(d, l[k]) == l[Before(k, |l|)])
  }

  // The list of object `o` is `l`, and its first element is recorded.
  ghost predicate Ring(d: Data, o: nat, l: seq<nat>, n: nat)
  {
    && NoRepeats(l) && Linked(d, l) && First(d, o) == (if l == [] then 0 else l[0])
    && forall f :: f in l ==> 0 < f / 2 < n
  }

  // All lists are rings without common elements, and edges in no list are unlinked.
  ghost predicate Rings(d: Data, lists: seq<seq<nat>>)
  {
    && |d| == 5 * |lists|
    && (forall o :: 0 <= o < |lists| ==> Ring(d, o, lists[o], |lists|))
    && (forall o, p :: 0 <= o < |lists| && 0 <= p < |lists| && o != p ==> Apart(lists[o], lists[p]))
  }

  ghost predicate Apart(l: seq<nat>, m: seq<nat>)
  {
    forall f :: f in l ==> f !in m
  }

  // Only the links of `changed` and the first fanout of `o` differ.
  ghost predicate SameBut(d: Data, e: Data, o: nat, changed: set<nat>)
  {
    && |e| == |d|
    && (forall p :: p != o ==> First(e, p) == First(d, p))
    && (forall f :: f !in changed ==> Prev(e, f) == Prev(d, f) && Next(e, f) == Next(d, f))
  }

  lemma RingStays(d: Data, e: Data, o: nat, changed: set<nat>, p: nat, l: seq<nat>, n: nat)
    requires Ring(d, p, l, n) && SameBut(d, e, o, changed) && p != o && forall f :: f in l ==> f !in changed
    ensures Ring(e, p, l, n)
  {
    forall k | 0 <= k < |l| ensures Next(e, l[k]) == Next(d, l[k]) && Prev(e, l[k]) == Prev(d, l[k])
    {
      assert l[k] in l;
    }
  }

  // Changing the ring of `o` to `l` by relinking elements of the old and new list.
  lemma RingsChange(d: Data, e: Data, lists: seq<seq<nat>>, o: nat, l: seq<nat>, changed: set<nat>)
    requires Rings(d, lists) && o < |lists| && SameBut(d, e, o, changed) && Ring(e, o, l, |lists|)
    requires forall p :: 0 <= p < |lists| && p != o ==> Apart(l, lists[p])
    requires forall f :: f in changed ==> f in l || f in lists[o]
    ensures Rings(e, lists[o := l])
  {
    hide Ring;
    forall p | 0 <= p < |lists| && p != o ensures Ring(e, p, lists[p], |lists|) && Apart(lists[p], l)
    {
      assert Apart(lists[o], lists[p]) && Apart(l, lists[p]);
      RingStays(d, e, o, changed, p, lists[p], |lists|);
    }
  }

  // ---- Adding ----

  lemma FirstFanout(d: Data, e: Data, o: nat, f: nat, n: nat)
    requires Ring(d, o, [], n) && 0 < f / 2 < n
    requires First(e, o) == f && Prev(e, f) == f && Next(e, f) == f
    ensures Ring(e, o, [f], n)
  {
  }

  lemma EndsInside(d: Data, o: nat, l: seq<nat>, n: nat)
    requires Ring(d, o, l, n) && l != []
    ensures l[0] / 2 < n && l[|l| - 1] / 2 < n && l[0] in l && l[|l| - 1] in l
  {
    hide NoRepeats, Linked, First;
    assert l[0] in l && l[|l| - 1] in l;
  }

  lemma LastFanout(d: Data, e: Data, o: nat, l: seq<nat>, f: nat, n: nat)
    requires Ring(d, o, l, n) && l != [] && f !in l && 0 < f / 2 < n
    requires First(e, o) == First(d, o) && Prev(e, f) == l[|l| - 1] && Next(e, f) == l[0]
    requires Prev(e, l[0]) == f && Next(e, l[|l| - 1]) == f
    requires forall g :: g != f && g != l[0] ==> Prev(e, g) == Prev(d, g)
    requires forall g :: g != f && g != l[|l| - 1] ==> Next(e, g) == Next(d, g)
    ensures Ring(e, o, l + [f], n)
  {
    var m := l + [f];
    hide Linked;
    AppendRepeats(l, f);
    forall k | 0 <= k < |m| ensures Next(e, m[k]) == m[After(k, |m|)] && Prev(e, m[k]) == m[Before(k, |m|)]
    {
      LastLinks(d, e, l, f, k);
    }
    LinkedAll(e, m);
  }

  lemma AppendRepeats(l: seq<nat>, f: nat)
    requires NoRepeats(l) && f !in l
    ensures NoRepeats(l + [f])
  {
    forall k | 0 <= k < |l| ensures l[k] != f
    {
      assert l[k] in l;
    }
  }

  lemma LastLinks(d: Data, e: Data, l: seq<nat>, f: nat, k: nat)
    requires NoRepeats(l) && Linked(d, l) && l != [] && f !in l && k <= |l|
    requires Prev(e, f) == l[|l| - 1] && Next(e, f) == l[0] && Prev(e, l[0]) == f && Next(e, l[|l| - 1]) == f
    requires forall g :: g != f && g != l[0] ==> Prev(e, g) == Prev(d, g)
    requires forall g :: g != f && g != l[|l| - 1] ==> Next(e, g) == Next(d, g)
    ensures Next(e, (l + [f])[k]) == (l + [f])[After(k, |l| + 1)]
      && Prev(e, (l + [f])[k]) == (l + [f])[Before(k, |l| + 1)]
  {
    hide Linked, NoRepeats;
    if k < |l| {
      assert l[k] in l;
      LinkedAt(d, l, k);
      Distinct(l, k, 0);
      Distinct(l, k, |l| - 1);
    }
  }

  // Room for more objects: their lists are empty.
  lemma RingsGrow(d: Data, lists: seq<seq<nat>>, n: nat)
    requires Rings(d, lists) && |lists| <= n
    ensures Rings(d + seq(5 * n - |d|, i => 0), lists + seq(n - |lists|, i => []))
  {
    var e, more := d + seq(5 * n - |d|, i => 0), lists + seq(n - |lists|, i => []);
    forall o ensures First(e, o) == First(d, o) && Prev(e, o) == Prev(d, o) && Next(e, o) == Next(d, o)
    {
    }
    forall o | 0 <= o < n ensures Ring(e, o, more[o], n)
    {
      if o >= |lists| {
        assert First(d, o) == 0;
      }
    }
    forall o, p | 0 <= o < n && 0 <= p < n && o != p ensures Apart(more[o], more[p])
    {
      if o < |lists| && p < |lists| {
        assert Apart(lists[o], lists[p]);
      }
    }
  }

  // ---- Removing ----

  function Dropped(l: seq<nat>, k: nat): seq<nat>
    requires k < |l|
  {
    l[..k] + l[k + 1..]
  }

  lemma OnlyFanout(d: Data, e: Data, o: nat, f: nat, n: nat)
    requires Ring(d, o, [f], n) && First(e, o) == 0
    ensures Ring(e, o, [], n)
  {
  }

  lemma LinkedAt(d: Data, l: seq<nat>, k: nat)
    requires Linked(d, l) && k < |l|
    ensures Next(d, l[k]) == l[After(k, |l|)] && Prev(d, l[k]) == l[Before(k, |l|)]
  {
  }

  // The neighbours of place `j` once place `k` of `n` is dropped.
  lemma AfterDropped(j: nat, k: nat, n: nat)
    requires n > 1 && k < n && j < n - 1
    ensures var i := if j < k then j else j + 1; var p := After(j, n - 1);
      (if p < k then p else p + 1) == (if After(i, n) == k then After(k, n) else After(i, n))
        && (After(i, n) == k <==> i == Before(k, n))
  {
  }

  lemma BeforeDropped(j: nat, k: nat, n: nat)
    requires n > 1 && k < n && j < n - 1
    ensures var i := if j < k then j else j + 1; var p := Before(j, n - 1);
      (if p < k then p else p + 1) == (if Before(i, n) == k then Before(k, n) else Before(i, n))
        && (Before(i, n) == k <==> i == After(k, n))
  {
  }

  lemma DroppedAt(l: seq<nat>, k: nat, j: nat)
    requires k < |l| && j < |l| - 1
    ensures |Dropped(l, k)| == |l| - 1 && Dropped(l, k)[j] == l[if j < k then j else j + 1]
  {
  }

  lemma Distinct(l: seq<nat>, i: nat, j: nat)
    requires NoRepeats(l) && i < |l| && j < |l|
    ensures l[i] == l[j] <==> i == j
  {
  }

  lemma NextDropped(l: seq<nat>, k: nat, j: nat)
    requires k < |l| && |l| > 1 && j < |l| - 1
    ensures var i, n := if j < k then j else j + 1, |l|;
      && |Dropped(l, k)| == n - 1 && Dropped(l, k)[j] == l[i] && i < n && i != k
      && Dropped(l, k)[After(j, n - 1)] == if i == Before(k, n) then l[After(k, n)] else l[After(i, n)]
  {
    hide Dropped, Before, After;
    DroppedAt(l, k, j);
    DroppedAt(l, k, After(j, |l| - 1));
    AfterDropped(j, k, |l|);
  }

  lemma PrevDropped(l: seq<nat>, k: nat, j: nat)
    requires k < |l| && |l| > 1 && j < |l| - 1
    ensures var i, n := if j < k then j else j + 1, |l|;
      && |Dropped(l, k)| == n - 1 && Dropped(l, k)[j] == l[i] && i < n && i != k
      && Dropped(l, k)[Before(j, n - 1)] == if i == After(k, n) then l[Before(k, n)] else l[Before(i, n)]
  {
    hide Dropped, Before, After;
    DroppedAt(l, k, j);
    DroppedAt(l, k, Before(j, |l| - 1));
    BeforeDropped(j, k, |l|);
  }

  lemma UnlinkNext(d: Data, e: Data, l: seq<nat>, k: nat, j: nat)
    requires NoRepeats(l) && Linked(d, l) && k < |l| && |l| > 1 && j < |l| - 1
    requires Next(e, l[Before(k, |l|)]) == l[After(k, |l|)]
    requires forall g :: g != l[k] && g != l[Before(k, |l|)] ==> Next(e, g) == Next(d, g)
    ensures |Dropped(l, k)| == |l| - 1 && Next(e, Dropped(l, k)[j]) == Dropped(l, k)[After(j, |l| - 1)]
  {
    hide *;
    NextDropped(l, k, j);
    RelinkedNext(d, e, l, k, if j < k then j else j + 1);
  }

  lemma RelinkedNext(d: Data, e: Data, l: seq<nat>, k: nat, i: nat)
    requires NoRepeats(l) && Linked(d, l) && k < |l| && |l| > 1 && i < |l| && i != k
    requires Next(e, l[Before(k, |l|)]) == l[After(k, |l|)]
    requires forall g :: g != l[k] && g != l[Before(k, |l|)] ==> Next(e, g) == Next(d, g)
    ensures Next(e, l[i]) == if i == Before(k, |l|) then l[After(k, |l|)] else l[After(i, |l|)]
  {
    Distinct(l, i, k);
    Distinct(l, i, Before(k, |l|));
    LinkedAt(d, l, i);
  }

  lemma UnlinkPrev(d: Data, e: Data, l: seq<nat>, k: nat, j: nat)
    requires NoRepeats(l) && Linked(d, l) && k < |l| && |l| > 1 && j < |l| - 1
    requires Prev(e, l[After(k, |l|)]) == l[Before(k, |l|)]
    requires forall g :: g != l[k] && g != l[After(k, |l|)] ==> Prev(e, g) == Prev(d, g)
    ensures |Dropped(l, k)| == |l| - 1 && Prev(e, Dropped(l, k)[j]) == Dropped(l, k)[Before(j, |l| - 1)]
  {
    hide *;
    PrevDropped(l, k, j);
    RelinkedPrev(d, e, l, k, if j < k then j else j + 1);
  }

  lemma RelinkedPrev(d: Data, e: Data, l: seq<nat>, k: nat, i: nat)
    requires NoRepeats(l) && Linked(d, l) && k < |l| && |l| > 1 && i < |l| && i != k
    requires Prev(e, l[After(k, |l|)]) == l[Before(k, |l|)]
    requires forall g :: g != l[k] && g != l[After(k, |l|)] ==> Prev(e, g) == Prev(d, g)
    ensures Prev(e, l[i]) == if i == After(k, |l|) then l[Before(k, |l|)] else l[Before(i, |l|)]
  {
    Distinct(l, i, k);
    Distinct(l, i, After(k, |l|));
    LinkedAt(d, l, i);
  }

  lemma UnlinkLinked(d: Data, e: Data, l: seq<nat>, k: nat)
    requires NoRepeats(l) && Linked(d, l) && k < |l| && |l| > 1
    requires Prev(e, l[After(k, |l|)]) == l[Before(k, |l|)] && Next(e, l[Before(k, |l|)]) == l[After(k, |l|)]
    requires forall g :: g != l[k] && g != l[After(k, |l|)] ==> Prev(e, g) == Prev(d, g)
    requires forall g :: g != l[k] && g != l[Before(k, |l|)] ==> Next(e, g) == Next(d, g)
    ensures Linked(e, Dropped(l, k))
  {
    hide NoRepeats, Linked, Dropped, Before, After, Prev, Next;
    var m := Dropped(l, k);
    UnlinkNext(d, e, l, k, 0);
    forall j | 0 <= j < |m| ensures Next(e, m[j]) == m[After(j, |m|)] && Prev(e, m[j]) == m[Before(j, |m|)]
    {
      UnlinkNext(d, e, l, k, j);
      UnlinkPrev(d, e, l, k, j);
    }
    LinkedAll(e, m);
  }

  lemma DroppedRing(l: seq<nat>, k: nat)
    requires NoRepeats(l) && k < |l| && |l| > 1
    ensures NoRepeats(Dropped(l, k)) && |Dropped(l, k)| == |l| - 1
    ensures Dropped(l, k)[0] == (if k == 0 then l[1] else l[0])
    ensures forall f :: f in Dropped(l, k) ==> f in l
  {
    DroppedKeeps(l, k);
    RemoveFirstMeaning(l, l[k]);
  }

  lemma UnlinkFanout(d: Data, e: Data, o: nat, l: seq<nat>, k: nat, n: nat)
    requires Ring(d, o, l, n) && k < |l| && |l| > 1
    requires First(e, o) == (if k == 0 then l[1] else l[0])
    requires Prev(e, l[After(k, |l|)]) == l[Before(k, |l|)] && Next(e, l[Before(k, |l|)]) == l[After(k, |l|)]
    requires forall g :: g != l[k] && g != l[After(k, |l|)] ==> Prev(e, g) == Prev(d, g)
    requires forall g :: g != l[k] && g != l[Before(k, |l|)] ==> Next(e, g) == Next(d, g)
    ensures Ring(e, o, Dropped(l, k), n)
  {
    hide NoRepeats, Linked, Dropped, Before, After, First, Prev, Next;
    UnlinkLinked(d, e, l, k);
    DroppedRing(l, k);
  }

  lemma LinkedAll(d: Data, l: seq<nat>)
    requires forall k :: 0 <= k < |l| ==> Next(d, l[k]) == l[After(k, |l|)] && Prev(d, l[k]) == l[Before(k, |l|)]
    ensures Linked(d, l)
  {
  }

  lemma DroppedKeeps(l: seq<nat>, k: nat)
    requires NoRepeats(l) && k < |l|
    ensures Dropped(l, k) == RemoveFirst(l, l[k])
    ensures forall f :: f in Dropped(l, k) <==> f in l && f != l[k]
  {
    RemoveFirstAt(l, l[k], k);
    RemoveFirstMeaning(l, l[k]);
  }

  class FanoutTable {
    var pFanData: array<nat>
    var nFansAlloc: nat
    // The fanouts of every object, oldest first.
    ghost var lists: seq<seq<nat>>

    ghost predicate Valid()
      reads this, pFanData
    {
      pFanData.Length == 5 * nFansAlloc && |lists| == nFansAlloc && Rings(pFanData[..], lists)
    }

    ghost function ListOf(o: nat): seq<nat>
      reads this
    {
      if o < |lists| then lists[o] else []
    }

    // Room for `n` objects, none of which has fanouts.
    constructor (n: nat)
      ensures Valid() && fresh(pFanData) && forall o :: ListOf(o) == []
    {
      var alloc := if 2 * n < 4096 then 4096 else 2 * n;
      nFansAlloc := alloc;
      pFanData := new nat[5 * alloc](i => 0);
      lists := seq(alloc, i => []);
      new;
      forall o | 0 <= o < alloc ensures Ring(pFanData[..], o, [], alloc)
      {
      }
    }

    // Makes room for object `id`.
    method Grow(id: nat)
      requires Valid() && id > 0 && id >= nFansAlloc
      modifies this`pFanData, this`nFansAlloc, this`lists
      ensures Valid() && fresh(pFanData) && id < nFansAlloc && forall o :: ListOf(o) == old(ListOf(o))
    {
      hide Rings;
      var alloc := 2 * id;
      ghost var d := pFanData[..];
      var data := new nat[5 * alloc](i => 0);
      forall i | 0 <= i < pFanData.Length {
        data[i] := pFanData[i];
      }
      assert data[..] == d + seq(5 * alloc - |d|, i => 0);
      RingsGrow(d, lists, alloc);
      lists := lists + seq(alloc - |lists|, i => []);
      pFanData := data;
      nFansAlloc := alloc;
    }

    // Appends the edge to the list of the object.
    method AddFanout(objId: nat, fanoutId: nat, whatFanin: nat)
      requires Valid() && fanoutId > 0 && whatFanin < 2
      requires forall o :: FanoutCreate(fanoutId, whatFanin) !in ListOf(o)
      modifies this, pFanData
      ensures Valid() && (pFanData == old(pFanData) || fresh(pFanData))
      ensures ListOf(objId) == old(ListOf(objId)) + [FanoutCreate(fanoutId, whatFanin)]
      ensures forall o :: o != objId ==> ListOf(o) == old(ListOf(o))
    {
      if objId >= nFansAlloc || fanoutId >= nFansAlloc {
        Grow(if objId > fanoutId then objId else fanoutId);
      }
      var iFan := FanoutCreate(fanoutId, whatFanin);
      Append(objId, iFan);
    }

    method Append(objId: nat, iFan: nat)
      requires Valid() && objId < nFansAlloc && 0 < iFan / 2 < nFansAlloc && forall o :: iFan !in ListOf(o)
      modifies pFanData, this`lists
      ensures Valid() && lists == old(lists)[objId := old(lists)[objId] + [iFan]]
    {
      ghost var d, l := pFanData[..], lists[objId];
      assert Ring(d, objId, l, nFansAlloc);
      hide Rings, Ring;
      forall p | 0 <= p < |lists| ensures iFan !in lists[p]
      {
        assert ListOf(p) == lists[p];
      }
      SlotInside(iFan, nFansAlloc);
      var pFirst := ObjSlot(objId);
      FirstOf(d, objId, l, nFansAlloc);
      ghost var changed := {iFan};
      if pFanData[pFirst] == 0 {
        pFanData[pFirst] := iFan;
        SetFirst(d, objId, iFan);
        ghost var d1 := pFanData[..];
        pFanData[PrevSlot(iFan)] := iFan;
        SetPrev(d1, iFan, iFan);
        ghost var d2 := pFanData[..];
        pFanData[NextSlot(iFan)] := iFan;
        SetNext(d2, iFan, iFan);
        FirstFanout(d, pFanData[..], objId, iFan, nFansAlloc);
      } else {
        var first := pFanData[pFirst];
        LastOf(d, objId, l, nFansAlloc);
        SlotInside(first, nFansAlloc);
        var last := pFanData[PrevSlot(first)];
        SlotInside(last, nFansAlloc);
        AppendLinks(d, l, objId, iFan, first, last);
        changed := {iFan, first, last};
      }
      AppendApart(d, lists, objId, iFan);
      RingsChange(d, pFanData[..], lists, objId, l + [iFan], changed);
      lists := lists[objId := l + [iFan]];
    }

    method AppendLinks(ghost d: Data, ghost l: seq<nat>, ghost objId: nat, iFan: nat, first: nat, last: nat)
      requires pFanData.Length == 5 * nFansAlloc && pFanData[..] == d && Ring(d, objId, l, nFansAlloc) && l != []
      requires iFan !in l && 0 < iFan / 2 < nFansAlloc && first == l[0] && last == l[|l| - 1]
      modifies pFanData
      ensures Ring(pFanData[..], objId, l + [iFan], nFansAlloc) && SameBut(d, pFanData[..], objId, {iFan, first, last})
    {
      hide Ring, PrevSlot, NextSlot, Prev, Next, First;
      EndsInside(d, objId, l, nFansAlloc);
      SlotInside(iFan, nFansAlloc);
      SlotInside(first, nFansAlloc);
      SlotInside(last, nFansAlloc);
      pFanData[PrevSlot(iFan)] := last;
      SetPrev(d, iFan, last);
      ghost var d1 := pFanData[..];
      pFanData[NextSlot(iFan)] := first;
      SetNext(d1, iFan, first);
      ghost var d2 := pFanData[..];
      pFanData[PrevSlot(first)] := iFan;
      SetPrev(d2, first, iFan);
      ghost var d3 := pFanData[..];
      pFanData[NextSlot(last)] := iFan;
      SetNext(d3, last, iFan);
      LastFanout(d, pFanData[..], objId, l, iFan, nFansAlloc);
    }

    // Takes the edge out of the list of the object.
    method RemoveFanout(objId: nat, fanoutId: nat, whatFanin: nat)
      requires Valid() && fanoutId > 0 && whatFanin < 2 && FanoutCreate(fanoutId, whatFanin) in ListOf(objId)
      modifies pFanData, this`lists
      ensures Valid() && ListOf(objId) == RemoveFirst(old(ListOf(objId)), FanoutCreate(fanoutId, whatFanin))
      ensures forall o :: o != objId ==> ListOf(o) == old(ListOf(o))
    {
      Detach(objId, FanoutCreate(fanoutId, whatFanin));
    }

    method Detach(objId: nat, iFan: nat)
      requires Valid() && objId < nFansAlloc && iFan in lists[objId]
      modifies pFanData, this`lists
      ensures Valid() && lists == old(lists)[objId := RemoveFirst(old(lists)[objId], iFan)]
    {
      hide Linked, NoRepeats, Ring, SameBut, Dropped, RemoveFirst, PrevSlot, NextSlot, Before, After;
      ghost var d, l := pFanData[..], lists[objId];
      assert Ring(d, objId, l, nFansAlloc);
      ghost var k := Place(l, iFan);
      RingAt(d, objId, l, k, nFansAlloc);
      var before, after := pFanData[PrevSlot(iFan)], pFanData[NextSlot(iFan)];
      Unlink(d, l, k, objId, iFan, before, after);
      RingsDrop(d, pFanData[..], lists, objId, k);
      lists := lists[objId := Dropped(l, k)];
    }

    method Unlink(ghost d: Data, ghost l: seq<nat>, ghost k: nat, objId: nat, iFan: nat, before: nat, after: nat)
      requires pFanData.Length == 5 * nFansAlloc && pFanData[..] == d && Ring(d, objId, l, nFansAlloc)
        && objId < nFansAlloc
      requires k < |l| && l[k] == iFan && before == l[Before(k, |l|)] && after == l[After(k, |l|)]
      modifies pFanData
      ensures Ring(pFanData[..], objId, Dropped(l, k), nFansAlloc)
        && SameBut(d, pFanData[..], objId, {iFan, before, after})
      ensures Dropped(l, k) == RemoveFirst(l, iFan)
    {
      hide Ring, Linked, NoRepeats, Dropped, RemoveFirst, First, Prev, Next, ObjSlot, PrevSlot, NextSlot, Before,
        After;
      UnlinkStart(d, objId, l, k, nFansAlloc);
      if pFanData[ObjSlot(objId)] == iFan && after == iFan {
        UnlinkLast(d, l, objId, iFan);
        return;
      }
      AdvanceFirst(d, objId, iFan, after);
      ghost var d1 := pFanData[..];
      UnlinkLinks(d1, iFan, before, after);
      UnlinkFanout(d, pFanData[..], objId, l, k, nFansAlloc);
    }

    // If the fanout is the first of the object, the next one becomes the first.
    method AdvanceFirst(ghost d: Data, objId: nat, iFan: nat, after: nat)
      requires pFanData[..] == d && ObjSlot(objId) < pFanData.Length
      modifies pFanData
      ensures var e := pFanData[..];
        && (forall o :: First(e, o) == if o == objId && First(d, o) == iFan then after else First(d, o))
        && forall f :: Prev(e, f) == Prev(d, f) && Next(e, f) == Next(d, f)
    {
      if pFanData[ObjSlot(objId)] == iFan {
        pFanData[ObjSlot(objId)] := after;
        SetFirst(d, objId, after);
      }
    }

    // The only fanout: its links and the record of the object are cleared.
    method UnlinkLast(ghost d: Data, ghost l: seq<nat>, objId: nat, iFan: nat)
      requires pFanData.Length == 5 * nFansAlloc && pFanData[..] == d && objId < nFansAlloc && iFan / 2 < nFansAlloc
      requires l == [iFan] && Ring(d, objId, l, nFansAlloc)
      modifies pFanData
      ensures Ring(pFanData[..], objId, Dropped(l, 0), nFansAlloc) && SameBut(d, pFanData[..], objId, {iFan})
    {
      SlotInside(iFan, nFansAlloc);
      pFanData[ObjSlot(objId)] := 0;
      SetFirst(d, objId, 0);
      ghost var d1 := pFanData[..];
      pFanData[PrevSlot(iFan)] := 0;
      SetPrev(d1, iFan, 0);
      ghost var d2 := pFanData[..];
      pFanData[NextSlot(iFan)] := 0;
      SetNext(d2, iFan, 0);
      OnlyFanout(d, pFanData[..], objId, iFan, nFansAlloc);
      assert Dropped(l, 0) == [];
    }

    method UnlinkLinks(ghost d: Data, iFan: nat, before: nat, after: nat)
      requires pFanData.Length == 5 * nFansAlloc && pFanData[..] == d && iFan != before && iFan != after
      requires iFan / 2 < nFansAlloc && before / 2 < nFansAlloc && after / 2 < nFansAlloc
      modifies pFanData
      ensures var e := pFanData[..];
        Prev(e, after) == before && Next(e, before) == after && Prev(e, iFan) == 0 && Next(e, iFan) == 0
        && (forall g :: g != iFan && g != after ==> Prev(e, g) == Prev(d, g))
        && (forall g :: g != iFan && g != before ==> Next(e, g) == Next(d, g))
        && forall o :: First(e, o) == First(d, o)
    {
      SlotInside(iFan, nFansAlloc);
      SlotInside(before, nFansAlloc);
      SlotInside(after, nFansAlloc);
      pFanData[PrevSlot(after)] := before;
      SetPrev(d, after, before);
      ghost var d1 := pFanData[..];
      pFanData[NextSlot(before)] := after;
      SetNext(d1, before, after);
      ghost var d2 := pFanData[..];
      pFanData[PrevSlot(iFan)] := 0;
      SetPrev(d2, iFan, 0);
      ghost var d3 := pFanData[..];
      pFanData[NextSlot(iFan)] := 0;
      SetNext(d3, iFan, 0);
    }

    // Follows the links from the first fanout for as many steps as there are fanouts.
    method EnumerateFanouts(objId: nat, refs: nat) returns (fans: seq<nat>)
      requires Valid() && objId < nFansAlloc && refs == |ListOf(objId)|
      ensures fans == ListOf(objId)
    {
      ghost var d, l := pFanData[..], lists[objId];
      assert Ring(d, objId, l, nFansAlloc);
      hide Rings;
      fans := [];
      var iFan := 0;
      for i := 0 to refs
        invariant fans == l[..i] && (i > 0 ==> iFan == l[i - 1])
      {
        if i > 0 {
          RingAt(d, objId, l, i - 1, nFansAlloc);
          SlotInside(iFan, nFansAlloc);
          iFan := pFanData[NextSlot(iFan)];
        } else {
          FirstOf(d, objId, l, nFansAlloc);
          iFan := pFanData[ObjSlot(objId)];
        }
        fans := fans + [iFan];
      }
      assert l[..refs] == l;
    }
  }

  lemma RingAt(d: Data, o: nat, l: seq<nat>, k: nat, n: nat)
    requires Ring(d, o, l, n) && |d| == 5 * n && k < |l|
    ensures 0 < l[k] / 2 < n && PrevSlot(l[k]) < |d| && NextSlot(l[k]) < |d|
    ensures d[PrevSlot(l[k])] == l[Before(k, |l|)] && d[NextSlot(l[k])] == l[After(k, |l|)]
  {
    assert l[k] in l;
    SlotInside(l[k], n);
    assert Prev(d, l[k]) == l[Before(k, |l|)] && Next(d, l[k]) == l[After(k, |l|)];
  }

  lemma RingsDrop(d: Data, e: Data, lists: seq<seq<nat>>, o: nat, k: nat)
    requires Rings(d, lists) && o < |lists| && k < |lists[o]|
    requires Ring(e, o, Dropped(lists[o], k), |lists|)
    requires SameBut(d, e, o, {lists[o][k], lists[o][Before(k, |lists[o]|)], lists[o][After(k, |lists[o]|)]})
    ensures Rings(e, lists[o := Dropped(lists[o], k)])
  {
    var l := lists[o];
    DroppedApart(d, lists, o, k);
    RingsChange(d, e, lists, o, Dropped(l, k), {l[k], l[Before(k, |l|)], l[After(k, |l|)]});
  }

  lemma Place(l: seq<nat>, f: nat) returns (k: nat)
    requires f in l
    ensures k < |l| && l[k] == f
  {
    k :| k < |l| && l[k] == f;
  }

  lemma UnlinkStart(d: Data, o: nat, l: seq<nat>, k: nat, n: nat)
    requires Ring(d, o, l, n) && |d| == 5 * n && o < n && k < |l|
    ensures l[k] / 2 < n && l[Before(k, |l|)] / 2 < n && l[After(k, |l|)] / 2 < n
    ensures ObjSlot(o) < |d| && d[ObjSlot(o)] == l[0] && First(d, o) == l[0] && (l[0] == l[k] <==> k == 0)
    ensures Dropped(l, k) == RemoveFirst(l, l[k])
    ensures if |l| == 1 then k == 0 && l == [l[k]] && l[After(k, |l|)] == l[k]
      else l[After(k, |l|)] != l[k] && l[Before(k, |l|)] != l[k]
    ensures k == 0 && |l| > 1 ==> l[After(k, |l|)] == l[1]
  {
    hide Linked;
    RingAt(d, o, l, k, n);
    RingAt(d, o, l, Before(k, |l|), n);
    RingAt(d, o, l, After(k, |l|), n);
    FirstOf(d, o, l, n);
    DroppedKeeps(l, k);
    OneOrMore(l, k);
    FirstIndex(l, k);
  }

  lemma OneOrMore(l: seq<nat>, k: nat)
    requires NoRepeats(l) && k < |l|
    ensures |l| == 1 ==> k == 0 && l == [l[k]]
    ensures |l| > 1 ==> l[After(k, |l|)] != l[k] && l[Before(k, |l|)] != l[k]
  {
  }

  lemma FirstIndex(l: seq<nat>, k: nat)
    requires NoRepeats(l) && k < |l|
    ensures l[0] == l[k] <==> k == 0
  {
  }

  lemma DroppedApart(d: Data, lists: seq<seq<nat>>, o: nat, k: nat)
    requires Rings(d, lists) && o < |lists| && k < |lists[o]|
    ensures forall p :: 0 <= p < |lists| && p != o ==> Apart(Dropped(lists[o], k), lists[p])
  {
    forall p | 0 <= p < |lists| && p != o ensures Apart(Dropped(lists[o], k), lists[p])
    {
      assert Apart(lists[o], lists[p]);
      forall f | f in Dropped(lists[o], k) ensures f in lists[o]
      {
      }
    }
  }

  lemma FirstOf(d: Data, o: nat, l: seq<nat>, n: nat)
    requires Ring(d, o, l, n) && |d| == 5 * n && o < n
    ensures d[ObjSlot(o)] == (if l == [] then 0 else l[0]) && (l != [] ==> l[0] > 0)
  {
    assert l != [] ==> l[0] in l;
  }

  lemma LastOf(d: Data, o: nat, l: seq<nat>, n: nat)
    requires Ring(d, o, l, n) && |d| == 5 * n && l != []
    ensures l[0] / 2 < n && l[|l| - 1] / 2 < n && PrevSlot(l[0]) < |d| && d[PrevSlot(l[0])] == l[|l| - 1]
  {
    assert l[0] in l && l[|l| - 1] in l;
    SlotInside(l[0], n);
    assert Prev(d, l[0]) == l[Before(0, |l|)];
  }

  lemma AppendApart(d: Data, lists: seq<seq<nat>>, o: nat, f: nat)
    requires Rings(d, lists) && o < |lists| && forall p :: 0 <= p < |lists| ==> f !in lists[p]
    ensures forall p :: 0 <= p < |lists| && p != o ==> Apart(lists[o] + [f], lists[p])
  {
    forall p | 0 <= p < |lists| && p != o ensures Apart(lists[o] + [f], lists[p])
    {
      assert Apart(lists[o], lists[p]);
    }
  }
}
