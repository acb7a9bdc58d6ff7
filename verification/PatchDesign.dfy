// What resynthesis works on: an implementation with one target signal, the
// specification, and candidate signals that do not depend on the target.
module PatchDesign {

  type Vec = seq<bool>

  // `inputs` are the primary input vectors; `impl` gives the outputs for an input
  // vector and a value of the target.
  datatype Design = Design(
    inputs: set<Vec>,
    impl: (Vec, bool) -> Vec,
    spec: Vec -> Vec,
    signals: Vec -> Vec,
    width: nat)
  {
    ghost predicate WellFormed()
    {
      forall x :: x in inputs ==> |signals(x)| == width
    }

    // Target value `t` repairs input `x`.
    predicate Repairs(x: Vec, t: bool)
    {
      impl(x, t) == spec(x)
    }

    // Input `x` needs target value `t`: the other one is wrong.
    predicate Wants(x: Vec, t: bool)
    {
      Repairs(x, t) && !Repairs(x, !t)
    }

    // The target matters for input `x`.
    predicate Toggles(x: Vec)
    {
      impl(x, false) != impl(x, true)
    }

    // Vectors `x` and `y` have the same values on the signals in `s`.
    predicate Agree(x: Vec, y: Vec, s: set<nat>)
    {
      forall k :: k in s && k < |signals(x)| && k < |signals(y)| ==> signals(x)[k] == signals(y)[k]
    }

    // No two inputs that agree on `s` need different target values.
    ghost predicate Separated(s: set<nat>)
    {
      forall x, y :: x in inputs && y in inputs && Wants(x, false) && Wants(y, true) ==> !Agree(x, y, s)
    }

    // Every input has a target value that repairs it.
    ghost predicate Repairable()
    {
      forall x :: x in inputs ==> exists t :: Repairs(x, t)
    }

    // All values of the candidate signals.
    ghost function Patterns(): set<Vec>
    {
      set x | x in inputs :: signals(x)
    }
  }

  // A blocking clause: for every signal the literal saying that it differs from
  // the recorded value, and the enabling literal. Without signals it is empty.
  predicate ClauseHolds(v: Vec, p: Vec, en: bool)
  {
    exists i :: 0 <= i < |p| && i < |v| && (v[i] != p[i] || en)
  }

  lemma ClauseMeaning(v: Vec, p: Vec, en: bool)
    requires |v| == |p|
    ensures ClauseHolds(v, p, en) <==> |p| > 0 && (v != p || en)
  {
    if |p| > 0 && v != p {
      var i :| 0 <= i < |p| && v[i] != p[i];
    }
    if |p| > 0 && en {
      assert 0 <= 0 < |p| && (v[0] != p[0] || en);
    }
  }
}
