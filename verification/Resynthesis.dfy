// Replacing the function of a target: select signals, enumerate the on-set, and
// install it as a sum of minterms.
module Resynthesis {
  import opened SolverTypes
  import opened SetCovering
  import opened PatchDesign
  import opened MergeSelecting
  import opened DontCares

  // ---- The cover of the target ----

  function LineText(p: Vec): (r: string)
    ensures |r| == |p| + 3
  {
    seq(|p|, i requires 0 <= i < |p| => if p[i] then '1' else '0') + " 1\n"
  }

  function CubeText(cases: seq<Vec>): string
  {
    if cases == [] then "" else LineText(cases[0]) + CubeText(cases[1..])
  }

  // Whether a line of the cover matches the input values.
  predicate Matches(line: string, v: Vec)
    requires |line| == |v|
  {
    forall i :: 0 <= i < |v| ==> line[i] == '-' || line[i] == if v[i] then '1' else '0'
  }

  // Some line of the cover matches: input columns, a blank, the output column and the
  // end of the line.
  predicate SomeLine(cube: string, v: Vec)
  {
    |cube| >= |v| + 3 && (Matches(cube[..|v|], v) || SomeLine(cube[|v| + 3..], v))
  }

  // The lines list where the function is false.
  predicate OffSet(cube: string, n: nat)
  {
    |cube| >= n + 3 && (cube[n + 1] == '0' || cube[n + 1] == 'n')
  }

  // The function a cover stands for. The output column says which value the lines give.
  predicate EvalCube(cube: string, v: Vec)
  {
    if OffSet(cube, |v|) then !SomeLine(cube, v) else SomeLine(cube, v)
  }

  predicate IsLine(line: string, n: nat, out: char)
  {
    && |line| == n + 3 && (forall i :: 0 <= i < n ==> line[i] == '0' || line[i] == '1' || line[i] == '-')
    && line[n] == ' ' && line[n + 1] == out && line[n + 2] == '\n'
  }

  // Every line is over `n` inputs, and all have the same output.
  predicate IsCover(cube: string, n: nat, out: char)
  {
    cube == "" || (|cube| >= n + 3 && IsLine(cube[..n + 3], n, out) && IsCover(cube[n + 3..], n, out))
  }

  predicate OfWidth(cases: seq<Vec>, n: nat)
  {
    forall p :: p in cases ==> |p| == n
  }

  // The installed cover is well formed, and the sum of the minterms it was made from.
  lemma CubeMeaning(cases: seq<Vec>, v: Vec)
    requires OfWidth(cases, |v|)
    ensures IsCover(CubeText(cases), |v|, '1')
    ensures EvalCube(CubeText(cases), v) <==> v in cases
  {
    LinesMatch(cases, v);
    if cases != [] {
      assert cases[0] in cases;
      assert CubeText(cases)[..|v| + 3] == LineText(cases[0]);
      assert CubeText(cases)[|v| + 1] == LineText(cases[0])[|v| + 1];
    }
  }

  lemma {:induction false} LinesMatch(cases: seq<Vec>, v: Vec)
    requires OfWidth(cases, |v|)
    ensures IsCover(CubeText(cases), |v|, '1')
    ensures SomeLine(CubeText(cases), v) <==> v in cases
  {
    if cases != [] {
      var p := cases[0];
      var text := CubeText(cases);
      assert p in cases && cases == [p] + cases[1..];
      assert text[..|v| + 3] == LineText(p);
      assert text[..|v|] == LineText(p)[..|v|];
      assert text[|v| + 3..] == CubeText(cases[1..]);
      LinesMatch(cases[1..], v);
      LineMatches(p, v);
    }
  }

  lemma LineMatches(p: Vec, v: Vec)
    requires |p| == |v|
    ensures IsLine(LineText(p), |v|, '1')
    ensures Matches(LineText(p)[..|v|], v) <==> p == v
  {
    var line := LineText(p)[..|v|];
    assert forall i :: 0 <= i < |v| ==> line[i] == if p[i] then '1' else '0';
  }

  // Writes the cover, one line for each case. The inputs of the target are taken
  // from the first case, so there must be one: without any, nothing is installed.
  method Restruct(in2cases: seq<Vec>) returns (cube: Option<string>)
    ensures cube.None? <==> in2cases == []
    ensures cube.Some? ==> cube.value == CubeText(in2cases)
    ensures forall v: Vec :: cube.Some? && OfWidth(in2cases, |v|) ==>
      IsCover(cube.value, |v|, '1') && (EvalCube(cube.value, v) <==> v in in2cases)
  {
    hide EvalCube, IsCover;
    if |in2cases| == 0 {
      return None;
    }
    var text := "";
    for i := 0 to |in2cases|
      invariant text + CubeText(in2cases[i..]) == CubeText(in2cases)
    {
      var in2case := in2cases[i];
      ghost var before := text;
      for k := 0 to |in2case|
        invariant text == before + LineText(in2case)[..k]
      {
        text := text + if in2case[k] then "1" else "0";
        assert LineText(in2case)[..k + 1] == LineText(in2case)[..k] + [if in2case[k] then '1' else '0'];
      }
      text := text + " 1\n";
      assert LineText(in2case)[..|in2case|] + " 1\n" == LineText(in2case);
      assert in2cases[i..][1..] == in2cases[i + 1..];
      assert text == before + LineText(in2case);
    }
    forall v: Vec | OfWidth(in2cases, |v|)
      ensures IsCover(CubeText(in2cases), |v|, '1') && (EvalCube(CubeText(in2cases), v) <==> v in in2cases)
    {
      CubeMeaning(in2cases, v);
    }
    cube := Some(text);
  }

  // ---- The patch is right ----

  // The implementation with the target computed by the cover over the signals.
  function Patched(d: Design, signals: seq<nat>, cube: string, x: Vec): Vec
  {
    d.impl(x, EvalCube(cube, Pattern(d, signals, x)))
  }

  function Elements(signals: seq<nat>): set<nat>
  {
    set k | k in signals
  }

  lemma SamePatternAgrees(d: Design, signals: seq<nat>, x: Vec, y: Vec)
    requires Pattern(d, signals, x) == Pattern(d, signals, y)
    ensures d.Agree(x, y, Elements(signals))
  {
    forall k | k in Elements(signals) && k < |d.signals(x)| && k < |d.signals(y)|
      ensures d.signals(x)[k] == d.signals(y)[k]
    {
      var i :| 0 <= i < |signals| && signals[i] == k;
      assert Pattern(d, signals, x)[i] == Pattern(d, signals, y)[i];
    }
  }

  // The recorded value of a pattern is the one its inputs need.
  lemma CasesDecide(d: Design, signals: seq<nat>, in1: seq<Vec>, in2: seq<Vec>, x: Vec, t: bool)
    requires d.Separated(Elements(signals)) && NeededBy(d, signals, in1, false) && NeededBy(d, signals, in2, true)
    requires x in d.inputs && d.Wants(x, t)
    ensures t ==> Pattern(d, signals, x) !in in1
    ensures !t ==> Pattern(d, signals, x) !in in2
  {
    var p := Pattern(d, signals, x);
    if t && p in in1 {
      var y :| y in d.inputs && d.Wants(y, false) && Pattern(d, signals, y) == p;
      SamePatternAgrees(d, signals, y, x);
    }
    if !t && p in in2 {
      var y :| y in d.inputs && d.Wants(y, true) && Pattern(d, signals, y) == p;
      SamePatternAgrees(d, signals, x, y);
    }
  }

  // The patched circuit is right on exactly the inputs that some target value repairs.
  lemma PatchedRight(d: Design, signals: seq<nat>, in1: seq<Vec>, in2: seq<Vec>, x: Vec)
    requires d.Separated(Elements(signals)) && NeededBy(d, signals, in1, false) && NeededBy(d, signals, in2, true)
    requires EveryRecorded(d, signals, in1, in2)
    requires x in d.inputs
    ensures IsCover(CubeText(in2), |signals|, '1')
    ensures Patched(d, signals, CubeText(in2), x) == d.spec(x) <==> exists t :: d.Repairs(x, t)
  {
    hide EvalCube, IsCover;
    var p := Pattern(d, signals, x);
    CaseLengths(d, signals, in2, true);
    CubeMeaning(in2, p);
    var b := EvalCube(CubeText(in2), p);
    if t :| d.Repairs(x, t) {
      if d.Toggles(x) {
        ToggleWants(d, x, t);
        CasesDecide(d, signals, in1, in2, x, t);
      }
    } else {
      assert !d.Repairs(x, b);
    }
  }

  lemma CaseLengths(d: Design, signals: seq<nat>, cases: seq<Vec>, t: bool)
    requires NeededBy(d, signals, cases, t)
    ensures OfWidth(cases, |signals|)
  {
  }

  // ---- One target from end to end ----

  // `Stuck`: the enumeration of patterns keeps meeting cases with known keys.
  datatype Result =
    | Patch(signals: seq<nat>, cube: string)
    | Kept(outcome: Outcome)
    | Unrepairable
    | Stuck(signals: seq<nat>)

  method SetToSeq(s: set<nat>) returns (r: seq<nat>)
    ensures Elements(r) == s && |r| == |s|
  {
    r := [];
    var rest := s;
    while rest != {}
      invariant rest <= s && Elements(r) == s - rest && |r| + |rest| == |s|
    {
      var k :| k in rest;
      rest := rest - {k};
      ghost var was := r;
      r := r + [k];
      assert Elements(r) == Elements(was) + {k};
    }
  }

  // Tries to replace the function of the target. A patch is right on every input
  // that can be repaired at all; a refusal names its reason.
  method Resynthesize(d: Design, clusters: seq<seq<nat>>, limit: nat, retries: nat) returns (r: Result)
    requires d.WellFormed() && forall c :: c in clusters ==> forall j :: j in c ==> j < d.width
    ensures r.Patch? ==> IsCover(r.cube, |r.signals|, '1')
    ensures r.Patch? ==>
      forall x :: x in d.inputs ==> (Patched(d, r.signals, r.cube, x) == d.spec(x) <==> exists t :: d.Repairs(x, t))
    ensures r.Patch? || r.Stuck? ==>
      exists selected: seq<nat> :: 0 < |selected| <= limit && Elements(r.signals) == InputsOf(clusters, selected)
    ensures r == Unrepairable ==> !d.Repairable()
    ensures (r.Stuck? ==> KeyClash(d, r.signals)) && (r.Patch? ==> !KeyClash(d, r.signals))
    ensures r == Kept(Constant) ==> d.Separated({})
    ensures r == Kept(NoCover) ==> NoneSeparates(d, clusters) || LimitPassed(d, clusters, limit)
    ensures r == Kept(NoCover) && |clusters| <= limit ==> NoneSeparates(d, clusters)
    ensures r == Kept(NoCover) && limit >= 1 ==>
      forall c: nat :: c < |clusters| ==> !d.Separated(InputsOf(clusters, [c]))
    ensures r != Kept(Found)
  {
    hide PairsHit, CasesOk, IsCover, EvalCube;
    var ms := new MergeSelection(d, clusters, limit);
    var outcome := ms.SolveC();
    if outcome != Found {
      if LimitPassed(d, clusters, limit) {
        LimitPassedMeans(d, clusters, limit);
      }
      return Kept(outcome);
    }
    r := BuildPatch(d, ms.solutionInputs, ms.in1cases, retries);
  }

  // The new function over signals that separate the inputs needing different values.
  method BuildPatch(d: Design, inputs: set<nat>, ghost cases: seq<Vec>, retries: nat) returns (r: Result)
    requires d.Separated(inputs) && cases != [] && CasesOk(d, cases, true)
    ensures (r == Unrepairable && !d.Repairable()) || r.Stuck? || r.Patch?
    ensures r.Patch? || r.Stuck? ==> Elements(r.signals) == inputs
    ensures (r.Stuck? ==> KeyClash(d, r.signals)) && (r.Patch? ==> !KeyClash(d, r.signals))
    ensures r.Patch? ==> IsCover(r.cube, |r.signals|, '1')
    ensures r.Patch? ==>
      forall x :: x in d.inputs ==> (Patched(d, r.signals, r.cube, x) == d.spec(x) <==> exists t :: d.Repairs(x, t))
  {
    hide CasesOk, NeededBy, Recorded, KeysApart, KeyClash, IsCover, EvalCube;
    var signals := SetToSeq(inputs);
    var dc := new GetDC(d, signals);
    var res, done := dc.Solve(retries);
    if !done {
      return Stuck(signals);
    }
    if !res {
      return Unrepairable;
    }
    OnSetNonEmpty(d, signals, cases, dc.in1cases, dc.in2cases);
    CaseLengths(d, signals, dc.in2cases, true);
    var cube := Restruct(dc.in2cases);
    assert dc.in2cases[0] in dc.in2cases;
    forall x | x in d.inputs ensures Patched(d, signals, cube.value, x) == d.spec(x) <==> exists t :: d.Repairs(x, t)
    {
      PatchedRight(d, signals, dc.in1cases, dc.in2cases, x);
    }
    r := Patch(signals, cube.value);
  }

  // The search recorded an input that needs value 1, so the on-set has a case.
  lemma OnSetNonEmpty(d: Design, signals: seq<nat>, cases: seq<Vec>, in1: seq<Vec>, in2: seq<Vec>)
    requires cases != [] && CasesOk(d, cases, true) && d.Separated(Elements(signals))
    requires NeededBy(d, signals, in1, false) && NeededBy(d, signals, in2, true)
    requires EveryRecorded(d, signals, in1, in2)
    ensures in2 != []
  {
    assert cases[0] in cases;
    var y :| y in d.inputs && d.Wants(y, true) && d.signals(y) == cases[0];
    CasesDecide(d, signals, in1, in2, y, true);
    assert Pattern(d, signals, y) in in2;
  }
}
