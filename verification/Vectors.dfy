// Searching and removing in vectors.
module Vectors {

  ghost predicate NoRepeats<T>(s: seq<T>)
  {
    forall i, j :: 0 <= i < j < |s| ==> s[i] != s[j]
  }

  // `s` without the first occurrence of `x`, the rest in order.
  function RemoveFirst<T(==)>(s: seq<T>, x: T): (r: seq<T>)
  {
    if s == [] then []
    else if s[0] == x then s[1..]
    else [s[0]] + RemoveFirst(s[1..], x)
  }

  lemma {:induction false} RemoveFirstMeaning<T>(s: seq<T>, x: T)
    requires NoRepeats(s) && x in s
    ensures NoRepeats(RemoveFirst(s, x)) && |RemoveFirst(s, x)| == |s| - 1
    ensures forall y :: y in RemoveFirst(s, x) <==> y in s && y != x
  {
    var rest := s[1..];
    assert s == [s[0]] + rest;
    assert NoRepeats(rest) by {
      forall i, j | 0 <= i < j < |rest| ensures rest[i] != rest[j]
      {
        assert s[i + 1] != s[j + 1];
      }
    }
    assert s[0] !in rest by {
      forall i | 0 <= i < |rest| ensures rest[i] != s[0]
      {
        assert s[i + 1] != s[0];
      }
    }
    if s[0] != x {
      RemoveFirstMeaning(rest, x);
      var w := RemoveFirst(rest, x);
      assert s[0] !in w;
      assert RemoveFirst(s, x) == [s[0]] + w;
      assert forall y :: y in [s[0]] + w <==> y == s[0] || y in w;
      assert NoRepeats([s[0]] + w) by {
        forall i, j | 0 <= i < j < |w| + 1 ensures ([s[0]] + w)[i] != ([s[0]] + w)[j]
        {
          assert w[j - 1] in w;
        }
      }
    } else {
      assert RemoveFirst(s, x) == rest;
    }
  }

  lemma {:induction false} RemoveFirstAt<T>(s: seq<T>, x: T, j: nat)
    requires j < |s| && s[j] == x && forall k :: 0 <= k < j ==> s[k] != x
    ensures RemoveFirst(s, x) == s[..j] + s[j + 1..]
  {
    if j > 0 {
      RemoveFirstAt(s[1..], x, j - 1);
      assert s[..j] == [s[0]] + s[1..][..j - 1];
      assert s[j + 1..] == s[1..][j..];
    }
  }

  // Finds the element, moves the rest down by one place, and drops the last place.
  method Remove<T(==)>(v: seq<T>, t: T) returns (ts: seq<T>)
    requires t in v
    ensures ts == RemoveFirst(v, t)
  {
    hide RemoveFirst;
    ts := v;
    var j := 0;
    while j < |ts| && ts[j] != t
      invariant j <= |v| && forall k :: 0 <= k < j ==> v[k] != t
    {
      j := j + 1;
    }
    ghost var first := j;
    RemoveFirstAt(v, t, first);
    while j < |ts| - 1
      invariant first <= j < |v| == |ts|
      invariant ts[..j] == RemoveFirst(v, t)[..j]
      invariant ts[j..] == v[j..]
    {
      ts := ts[j := ts[j + 1]];
      j := j + 1;
    }
    ts := ts[..|ts| - 1];
  }

  method Find<T(==)>(ts: seq<T>, t: T) returns (found: bool)
    ensures found <==> t in ts
  {
    var j := 0;
    while j < |ts| && ts[j] != t
      invariant j <= |ts| && forall k :: 0 <= k < j ==> ts[k] != t
    {
      j := j + 1;
    }
    found := j < |ts|;
  }
}
