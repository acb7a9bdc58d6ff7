// Enumerating the patterns of the chosen signals on which the target matters, and
// installing them as the new function of the target.
module DontCares {
  import opened SolverTypes
  import opened PatchDesign

  // The values of the chosen signals.
  function Pattern(d: Design, signals: seq<nat>, x: Vec): (p: Vec)
    ensures |p| == |signals|
  {
    seq(|signals|, k requires 0 <= k < |signals| => signals[k] < |d.signals(x)| && d.signals(x)[signals[k]])
  }

  // ---- Keys of recorded cases ----

  // The bits of a case as a 32-bit integer, first signal highest.
  function Key(p: Vec): (k: nat)
    ensures k < 0x1_0000_0000
  {
    if p == [] then 0
    else (2 * Key(p[..|p| - 1]) + if p[|p| - 1] then 1 else 0) % 0x1_0000_0000
  }

  function Value(p: Vec): nat
  {
    if p == [] then 0 else 2 * Value(p[..|p| - 1]) + if p[|p| - 1] then 1 else 0
  }

  function Pow2(n: nat): (r: nat)
    ensures r > 0
  {
    if n == 0 then 1 else 2 * Pow2(n - 1)
  }

  lemma {:induction false} ValueBound(p: Vec)
    ensures Value(p) < Pow2(|p|)
  {
    if p != [] {
      ValueBound(p[..|p| - 1]);
    }
  }

  lemma {:induction false} ValueInjective(p: Vec, q: Vec)
    requires |p| == |q| && Value(p) == Value(q)
    ensures p == q
  {
    if p != [] {
      var n := |p| - 1;
      assert Value(p) % 2 == if p[n] then 1 else 0;
      assert Value(q) % 2 == if q[n] then 1 else 0;
      ValueInjective(p[..n], q[..n]);
      assert p == p[..n] + [p[n]] && q == q[..n] + [q[n]];
    }
  }

  lemma {:induction false} KeyIsValue(p: Vec)
    ensures Key(p) == Value(p) % 0x1_0000_0000
  {
    if p != [] {
      KeyIsValue(p[..|p| - 1]);
      DoubleMod(Value(p[..|p| - 1]), if p[|p| - 1] then 1 else 0);
    }
  }

  lemma DoubleMod(v: nat, b: nat)
    ensures (2 * (v % 0x1_0000_0000) + b) % 0x1_0000_0000 == (2 * v + b) % 0x1_0000_0000
  {
  }

  lemma Pow32()
    ensures Pow2(32) == 0x1_0000_0000
  {
    assert Pow2(16) == 0x1_0000 by {
      assert Pow2(8) == 0x100;
      assert Pow2(12) == 0x1000;
    }
    assert Pow2(20) == 0x10_0000;
    assert Pow2(24) == 0x100_0000;
    assert Pow2(28) == 0x1000_0000;
  }

  lemma {:induction false} Pow2Grows(m: nat, n: nat)
    requires m <= n
    ensures Pow2(m) <= Pow2(n)
  {
    if m < n {
      Pow2Grows(m, n - 1);
    }
  }

  function Low(n: nat, b: bool): (p: Vec)
    ensures |p| == n
  {
    seq(n, i => b && i == 0)
  }

  lemma {:induction false} ZeroValue(p: Vec)
    requires forall i :: 0 <= i < |p| ==> !p[i]
    ensures Value(p) == 0
  {
    if p != [] {
      ZeroValue(p[..|p| - 1]);
    }
  }

  lemma {:induction false} HighBit(n: nat)
    requires n > 0
    ensures Value(Low(n, true)) == Pow2(n - 1)
  {
    var p := Low(n, true);
    if n > 1 {
      HighBit(n - 1);
      assert p[..n - 1] == Low(n - 1, true);
    } else {
      assert p[..0] == [];
    }
  }

  lemma {:induction false} HighBitsVanish(n: nat)
    requires n >= 32
    ensures Pow2(n) % 0x1_0000_0000 == 0
  {
    Pow32();
    if n > 32 {
      HighBitsVanish(n - 1);
    }
  }

  lemma KeyInjective(p: Vec, q: Vec)
    requires |p| == |q| <= 32 && Key(p) == Key(q)
    ensures p == q
  {
    hide Key, Value, Pow2;
    Pow32();
    Pow2Grows(|p|, 32);
    ValueBound(p);
    ValueBound(q);
    KeyIsValue(p);
    KeyIsValue(q);
    ValueInjective(p, q);
  }

  lemma KeyCollision(n: nat)
    requires n > 32
    ensures Key(Low(n, true)) == Key(Low(n, false)) && Low(n, true) != Low(n, false)
  {
    var p, q := Low(n, true), Low(n, false);
    KeyIsValue(p);
    KeyIsValue(q);
    HighBit(n);
    HighBitsVanish(n - 1);
    ZeroValue(q);
    assert p[0] != q[0];
  }

  // Two cases of `n` signals never share a key, exactly if there are at most 32.
  lemma KeysDistinct(n: nat)
    ensures n <= 32 <==> forall p: Vec, q: Vec :: |p| == |q| == n && Key(p) == Key(q) ==> p == q
  {
    hide Key;
    if n <= 32 {
      forall p: Vec, q: Vec | |p| == |q| == n && Key(p) == Key(q) ensures p == q
      {
        KeyInjective(p, q);
      }
    } else {
      KeyCollision(n);
      assert |Low(n, true)| == |Low(n, false)| == n;
    }
  }

  // ---- The enumeration ----

  // The first solver: an input on which the target matters, with a new pattern.
  predicate MainQuery(d: Design, signals: seq<nat>, x: Vec, blocked: seq<Vec>)
  {
    d.Toggles(x) && forall p :: p in blocked ==> ClauseHolds(Pattern(d, signals, x), p, false)
  }

  method MainSolve(d: Design, signals: seq<nat>, blocked: seq<Vec>) returns (res: Option<Vec>)
    ensures res.Some? ==> res.value in d.inputs && MainQuery(d, signals, res.value, blocked)
    ensures res.None? ==> forall x :: x in d.inputs ==> !MainQuery(d, signals, x, blocked)
  {
    if x :| x in d.inputs && MainQuery(d, signals, x, blocked) {
      return Some(x);
    }
    return None;
  }

  // The second solver: a target value that repairs the input.
  method CheckSolve(d: Design, x: Vec) returns (res: Option<bool>)
    ensures res.Some? ==> d.Repairs(x, res.value)
    ensures res.None? ==> forall t :: !d.Repairs(x, t)
  {
    if t :| d.Repairs(x, t) {
      return Some(t);
    }
    return None;
  }

  // Every case is the pattern of an input that needs target value `t`.
  ghost predicate NeededBy(d: Design, signals: seq<nat>, cases: seq<Vec>, t: bool)
  {
    forall p :: p in cases ==> exists x :: x in d.inputs && d.Wants(x, t) && Pattern(d, signals, x) == p
  }

  ghost predicate Recorded(in1cases: seq<Vec>, in2cases: seq<Vec>, removed: set<nat>, blocked: seq<Vec>)
  {
    && (forall p :: p in blocked <==> p in in1cases || p in in2cases)
    && (forall k :: k in removed <==> exists p :: p in blocked && Key(p) == k)
  }

  // Different recorded patterns have different keys.
  ghost predicate KeysApart(blocked: seq<Vec>)
  {
    forall p, q :: p in blocked && q in blocked && Key(p) == Key(q) ==> p == q
  }

  // Two inputs on which the target matters have different patterns with one key.
  ghost predicate KeyClash(d: Design, signals: seq<nat>)
  {
    exists x, y :: x in d.inputs && y in d.inputs && d.Toggles(x) && d.Toggles(y)
      && Pattern(d, signals, x) != Pattern(d, signals, y) && Key(Pattern(d, signals, x)) == Key(Pattern(d, signals, y))
  }

  // Up to 32 signals there is no such pair.
  lemma ClashNeedsMany(d: Design, signals: seq<nat>)
    requires KeyClash(d, signals)
    ensures |signals| > 32
  {
    hide Key;
    var x, y :| x in d.inputs && y in d.inputs && d.Toggles(x) && d.Toggles(y)
      && Pattern(d, signals, x) != Pattern(d, signals, y) && Key(Pattern(d, signals, x)) == Key(Pattern(d, signals, y));
    if |signals| <= 32 {
      KeyInjective(Pattern(d, signals, x), Pattern(d, signals, y));
    }
  }

  // Every recorded pattern is that of an input on which the target matters.
  lemma BlockedToggles(d: Design, signals: seq<nat>, in1: seq<Vec>, in2: seq<Vec>, removed: set<nat>,
      blocked: seq<Vec>, p: Vec)
    requires NeededBy(d, signals, in1, false) && NeededBy(d, signals, in2, true)
    requires Recorded(in1, in2, removed, blocked) && p in blocked
    ensures exists x :: x in d.inputs && d.Toggles(x) && Pattern(d, signals, x) == p
  {
    hide Key, Pattern;
    var t := p in in2;
    var x :| x in d.inputs && d.Wants(x, t) && Pattern(d, signals, x) == p;
    assert d.Toggles(x);
  }

  // A new pattern with a known key clashes with the recorded one.
  lemma KnownKeyClashes(d: Design, signals: seq<nat>, in1: seq<Vec>, in2: seq<Vec>, removed: set<nat>,
      blocked: seq<Vec>, x: Vec)
    requires NeededBy(d, signals, in1, false) && NeededBy(d, signals, in2, true)
    requires Recorded(in1, in2, removed, blocked) && x in d.inputs && d.Toggles(x)
    requires Pattern(d, signals, x) !in blocked && Key(Pattern(d, signals, x)) in removed
    ensures KeyClash(d, signals)
  {
    hide Key, Pattern, NeededBy;
    var q :| q in blocked && Key(q) == Key(Pattern(d, signals, x));
    BlockedToggles(d, signals, in1, in2, removed, blocked, q);
  }

  // If every pattern on which the target matters is recorded, no two of them clash.
  lemma AllRecordedApart(d: Design, signals: seq<nat>, blocked: seq<Vec>)
    requires KeysApart(blocked)
    requires forall x :: x in d.inputs && d.Toggles(x) ==> Pattern(d, signals, x) in blocked
    ensures !KeyClash(d, signals)
  {
    hide Key, Pattern;
  }

  lemma RecordKey(in1: seq<Vec>, in2: seq<Vec>, removed: set<nat>, blocked: seq<Vec>, p: Vec)
    requires Recorded(in1, in2, removed, blocked) && KeysApart(blocked) && Key(p) !in removed
    ensures KeysApart(blocked + [p])
  {
    hide Key;
    assert forall q :: q in blocked + [p] <==> q in blocked || q == p;
  }

  class GetDC {
    const d: Design
    const signals: seq<nat>
    var in1cases: seq<Vec>
    var in2cases: seq<Vec>
    var removedCases: set<nat>
    var blocked: seq<Vec>

    constructor (d: Design, signals: seq<nat>)
      ensures Valid() && in1cases == [] && in2cases == [] && blocked == [] && this.d == d && this.signals == signals
    {
      this.d, this.signals := d, signals;
      in1cases, in2cases, removedCases, blocked := [], [], {}, [];
    }

    // Keys and blocking clauses stand for the recorded cases, which are of inputs
    // needing target value 0 and 1 and have different keys.
    ghost predicate Valid()
      reads this
    {
      && NeededBy(d, signals, in1cases, false) && NeededBy(d, signals, in2cases, true)
      && Recorded(in1cases, in2cases, removedCases, blocked) && KeysApart(blocked)
    }

    // Records a case and blocks its pattern, unless its key was seen before.
    method RemoveCase(x: Vec, t: bool)
      requires Valid() && x in d.inputs && d.Wants(x, t)
      modifies this`in1cases, this`in2cases, this`removedCases, this`blocked
      ensures Valid()
      ensures Key(Pattern(d, signals, x)) in old(removedCases) ==>
        in1cases == old(in1cases) && in2cases == old(in2cases) && blocked == old(blocked)
      ensures Key(Pattern(d, signals, x)) !in old(removedCases) ==>
        in1cases == old(in1cases) + (if t then [] else [Pattern(d, signals, x)])
      ensures Key(Pattern(d, signals, x)) !in old(removedCases) ==>
        in2cases == old(in2cases) + (if t then [Pattern(d, signals, x)] else [])
      ensures Key(Pattern(d, signals, x)) !in old(removedCases) ==> blocked == old(blocked) + [Pattern(d, signals, x)]
    {
      var folder := Pattern(d, signals, x);
      var curCase := Key(folder);
      if curCase in removedCases {
        return;
      }
      RecordKey(in1cases, in2cases, removedCases, blocked, folder);
      removedCases := removedCases + {curCase};
      if t {
        in2cases := in2cases + [folder];
      } else {
        in1cases := in1cases + [folder];
      }
      ghost var was := blocked;
      blocked := blocked + [folder];
      assert forall p :: p in blocked <==> p in was || p == folder;
    }

    // Takes in an input on which the target matters, with a new pattern. If its key is
    // known it is not blocked, and `left` repetitions of this are allowed.
    method Meet(x: Vec, t: bool, left: nat) returns (more: bool, left': nat)
      requires Valid() && PatternLengths(blocked, |signals|)
      requires x in d.inputs && MainQuery(d, signals, x, blocked) && d.Repairs(x, t)
      modifies this`in1cases, this`in2cases, this`removedCases, this`blocked
      ensures Valid() && PatternLengths(blocked, |signals|) && (!more ==> KeyClash(d, signals) && left == 0)
      ensures more ==>
        || |NewPatterns(d, signals, blocked)| < |NewPatterns(d, signals, old(blocked))|
        || (blocked == old(blocked) && left' < left)
    {
      hide Key, NeededBy, Recorded, KeysApart, NewPatterns, PatternLengths, Pattern, MainQuery, KeyClash;
      PatternIsNew(d, signals, x, blocked);
      QueryToggles(d, signals, x, blocked);
      ToggleWants(d, x, t);
      left' := left;
      if Key(Pattern(d, signals, x)) in removedCases {
        if left == 0 {
          KnownKeyClashes(d, signals, in1cases, in2cases, removedCases, blocked, x);
          return false, left;
        }
        left' := left - 1;
      }
      RemoveCase(x, t);
      more := true;
    }

    // Finds all patterns on which the target matters, sorted by the value they
    // need. It fails on an input that no target value repairs. A new case with a known
    // key is not blocked, and the source meets it again and again; here `retries`
    // times, which leaves the enumeration open (`done` is false). This happens only if
    // patterns clash, and if they do, the enumeration never completes.
    method Solve(retries: nat) returns (res: bool, done: bool)
      requires Valid() && blocked == []
      modifies this`in1cases, this`in2cases, this`removedCases, this`blocked
      ensures Valid()
      ensures !done ==> KeyClash(d, signals)
      ensures done && res ==> !KeyClash(d, signals) && EveryRecorded(d, signals, in1cases, in2cases)
      ensures done && !res ==> Unrepaired(d)
    {
      hide Key, NeededBy, Recorded, KeysApart, NewPatterns, PatternLengths, Pattern, MainQuery, KeyClash,
        EveryRecorded;
      NoLengths(|signals|);
      var left := retries;
      while true
        invariant Valid() && PatternLengths(blocked, |signals|)
        decreases |NewPatterns(d, signals, blocked)|, left
      {
        var found := MainSolve(d, signals, blocked);
        if found.None? {
          AllRecorded(d, signals, in1cases, in2cases, removedCases, blocked);
          return true, true;
        }
        var x := found.value;
        var control := CheckSolve(d, x);
        if control.None? {
          QueryToggles(d, signals, x, blocked);
          return false, true;
        }
        var more;
        more, left := Meet(x, control.value, left);
        if !more {
          return false, false;
        }
      }
    }
  }

  // Every pattern on which the target matters is recorded.
  ghost predicate EveryRecorded(d: Design, signals: seq<nat>, in1: seq<Vec>, in2: seq<Vec>)
  {
    forall x :: x in d.inputs && d.Toggles(x) ==> Pattern(d, signals, x) in in1 || Pattern(d, signals, x) in in2
  }

  // No target value repairs some input on which the target matters.
  ghost predicate Unrepaired(d: Design)
  {
    exists x :: x in d.inputs && d.Toggles(x) && forall t :: !d.Repairs(x, t)
  }

  // Without a new pattern the enumeration is complete.
  lemma AllRecorded(d: Design, signals: seq<nat>, in1: seq<Vec>, in2: seq<Vec>, removed: set<nat>, blocked: seq<Vec>)
    requires Recorded(in1, in2, removed, blocked) && KeysApart(blocked) && PatternLengths(blocked, |signals|)
    requires forall x :: x in d.inputs ==> !MainQuery(d, signals, x, blocked)
    ensures !KeyClash(d, signals) && EveryRecorded(d, signals, in1, in2)
  {
    hide Key, Pattern, PatternLengths, KeysApart, MainQuery, KeyClash;
    AllBlocked(d, signals, blocked);
    AllRecordedApart(d, signals, blocked);
  }

  ghost predicate PatternLengths(cases: seq<Vec>, n: nat)
  {
    forall p :: p in cases ==> |p| == n
  }

  ghost function NewPatterns(d: Design, signals: seq<nat>, blocked: seq<Vec>): set<Vec>
  {
    (set x | x in d.inputs :: Pattern(d, signals, x)) - set p | p in blocked
  }

  lemma NoLengths(n: nat)
    ensures PatternLengths([], n)
  {
  }

  lemma QueryToggles(d: Design, signals: seq<nat>, x: Vec, blocked: seq<Vec>)
    requires MainQuery(d, signals, x, blocked)
    ensures d.Toggles(x)
  {
  }

  // Where the target matters, a value that repairs is the one needed.
  lemma ToggleWants(d: Design, x: Vec, t: bool)
    requires d.Toggles(x) && d.Repairs(x, t)
    ensures d.Wants(x, t)
  {
  }

  lemma PatternIsNew(d: Design, signals: seq<nat>, x: Vec, blocked: seq<Vec>)
    requires x in d.inputs && MainQuery(d, signals, x, blocked) && PatternLengths(blocked, |signals|)
    ensures Pattern(d, signals, x) !in blocked && PatternLengths(blocked + [Pattern(d, signals, x)], |signals|)
    ensures |NewPatterns(d, signals, blocked + [Pattern(d, signals, x)])| < |NewPatterns(d, signals, blocked)|
  {
    var p := Pattern(d, signals, x);
    forall q | q in blocked ensures q != p && |q| > 0
    {
      ClauseMeaning(p, q, false);
    }
    assert forall q :: q in blocked + [p] <==> q in blocked || q == p;
    assert NewPatterns(d, signals, blocked + [p]) == NewPatterns(d, signals, blocked) - {p};
    assert p in NewPatterns(d, signals, blocked);
  }

  lemma AllBlocked(d: Design, signals: seq<nat>, blocked: seq<Vec>)
    requires PatternLengths(blocked, |signals|) && forall x :: x in d.inputs ==> !MainQuery(d, signals, x, blocked)
    ensures forall x :: x in d.inputs && d.Toggles(x) ==> Pattern(d, signals, x) in blocked
  {
    forall x | x in d.inputs && d.Toggles(x) ensures Pattern(d, signals, x) in blocked
    {
      var p := Pattern(d, signals, x);
      var q :| q in blocked && !ClauseHolds(p, q, false);
      ClauseMeaning(p, q, false);
    }
  }

  // ---- An enumeration that never completes ----

  // The vector of `n` bits with bit `k` set, if there is one.
  function Unit(n: nat, k: nat): (x: Vec)
    ensures |x| == n
  {
    seq(n, i => i == k)
  }

  // The inputs have at most one bit set, and the target should say whether they have.
  function Clashing(n: nat): Design
  {
    Design(set k | 0 <= k <= n :: Unit(n, k), (x, t) => [t], x => [true in x], x => x, n)
  }

  lemma ClashingOk(n: nat)
    ensures Clashing(n).WellFormed() && Clashing(n).Repairable()
    ensures forall x :: Clashing(n).Toggles(x)
  {
    var d := Clashing(n);
    forall x | x in d.inputs ensures exists t :: d.Repairs(x, t)
    {
      assert d.Repairs(x, true in x);
    }
    assert forall x :: d.impl(x, false)[0] != d.impl(x, true)[0];
  }

  lemma UnitPattern(n: nat, signals: seq<nat>, k: nat)
    requires |signals| > 0 && forall i :: 0 <= i < |signals| ==> signals[i] < n
    requires k == n || (k == signals[0] && forall i :: 0 < i < |signals| ==> signals[i] != k)
    ensures Pattern(Clashing(n), signals, Unit(n, k)) == Low(|signals|, k < n)
  {
  }

  // In whatever order more than 32 of the signals are listed, two patterns clash.
  lemma ClashingClashes(n: nat, signals: seq<nat>)
    requires |signals| > 32 && forall i :: 0 <= i < |signals| ==> signals[i] < n
    requires forall i, j :: 0 <= i < j < |signals| ==> signals[i] != signals[j]
    ensures KeyClash(Clashing(n), signals)
  {
    hide Key, Pattern;
    var x, y := Unit(n, signals[0]), Unit(n, n);
    UnitPattern(n, signals, signals[0]);
    UnitPattern(n, signals, n);
    KeyCollision(|signals|);
    ClashingOk(n);
    assert x in Clashing(n).inputs && y in Clashing(n).inputs;
  }

  // However often it retries, the enumeration does not complete.
  method NeverCompletes(n: nat, signals: seq<nat>, retries: nat) returns (dc: GetDC, res: bool, done: bool)
    requires |signals| > 32 && forall i :: 0 <= i < |signals| ==> signals[i] < n
    requires forall i, j :: 0 <= i < j < |signals| ==> signals[i] != signals[j]
    ensures !done
  {
    ClashingOk(n);
    ClashingClashes(n, signals);
    hide KeyClash, Pattern, Key;
    dc := new GetDC(Clashing(n), signals);
    res, done := dc.Solve(retries);
  }
}
