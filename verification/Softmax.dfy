/** Online softmax against two-pass softmax, over the reals, for one output component. */
module Softmax {

  predicate Adds(a: real, b: real, c: real) { a + b == c }

  /** What is needed of the exponential function: positive, and sums become products. */
  ghost predicate IsExp(exp: real -> real) {
    && (forall a :: exp(a) > 0.0)
    && (forall a, b, c {:trigger Adds(a, b, c)} | Adds(a, b, c) :: exp(c) == exp(a) * exp(b))
  }

  /** It takes the value 1 only at 0. */
  ghost predicate Separates(exp: real -> real) {
    forall a :: exp(a) == 1.0 ==> a == 0.0
  }

  function Max(a: real, b: real): real { if a >= b then a else b }

  /** The kernel's initial maximum. */
  const FLOOR: real := -100000000000000000000.0

  // ---- The two-pass reference -----------------------------------------------

  function MaxScore(xs: seq<real>): real
    requires xs != []
  {
    var n := |xs| - 1;
    if n == 0 then xs[0] else Max(MaxScore(xs[..n]), xs[n])
  }

  /** The sum of `exp(x - m)`. */
  function ExpSum(exp: real -> real, xs: seq<real>, m: real): real {
    if xs == [] then 0.0
    else ExpSum(exp, xs[..|xs| - 1], m) + exp(xs[|xs| - 1] - m)
  }

  /** A normalised weight. */
  function Weight(exp: real -> real, x: real, m: real, z: real): real
    requires z != 0.0
  {
    exp(x - m) / z
  }

  function Times(weight: real, v: real): real { weight * v }

  /** The sum of `exp(x - m) / z * v`. */
  function Weighted(exp: real -> real, xs: seq<real>, vs: seq<real>, m: real, z: real): real
    requires |xs| == |vs| && z != 0.0
  {
    if xs == [] then 0.0
    else
      var n := |xs| - 1;
      Weighted(exp, xs[..n], vs[..n], m, z) + Times(Weight(exp, xs[n], m, z), vs[n])
  }

  /** One component of attention_scalar's output. */
  function TwoPass(exp: real -> real, xs: seq<real>, vs: seq<real>): real
    requires IsExp(exp) && |xs| == |vs|
  {
    if xs == [] then 0.0
    else
      var m := MaxScore(xs);
      ExpSumPositive(exp, xs, m);
      Weighted(exp, xs, vs, m, ExpSum(exp, xs, m))
  }

  lemma {:induction false} ExpSumPositive(exp: real -> real, xs: seq<real>, m: real)
    requires IsExp(exp)
    ensures ExpSum(exp, xs, m) >= 0.0
    ensures xs != [] ==> ExpSum(exp, xs, m) > 0.0
  {
    if xs != [] {
      ExpSumPositive(exp, xs[..|xs| - 1], m);
      assert exp(xs[|xs| - 1] - m) > 0.0;
    }
  }

  lemma {:induction false} TwoPassUnfold(exp: real -> real, xs: seq<real>, vs: seq<real>)
    requires IsExp(exp) && |xs| == |vs| && xs != []
    ensures var m := MaxScore(xs); var z := ExpSum(exp, xs, m);
            z > 0.0 && TwoPass(exp, xs, vs) == Weighted(exp, xs, vs, m, z)
  {
    ExpSumPositive(exp, xs, MaxScore(xs));
  }

  lemma {:induction false} MaxScoreIsLargest(xs: seq<real>, i: nat)
    requires i < |xs|
    ensures xs[i] <= MaxScore(xs) && MaxScore(xs) in xs
  {
    var n := |xs| - 1;
    if n > 0 {
      MaxScoreIsLargest(xs[..n], if i < n then i else 0);
    }
  }

  lemma {:induction false} MaxScoreAppend(xs: seq<real>, x: real)
    ensures MaxScore(xs + [x]) == if xs == [] then x else Max(MaxScore(xs), x)
  {
    assert (xs + [x])[..|xs|] == xs;
  }

  // ---- The online recurrence ------------------------------------------------

  /** The running maximum, from the floor. */
  function RunMax(xs: seq<real>): real {
    if xs == [] then FLOOR else Max(RunMax(xs[..|xs| - 1]), xs[|xs| - 1])
  }

  /** One update of the sum when the maximum moves from `m` to `m'`. */
  function NextSum(exp: real -> real, z: real, m: real, m': real, x: real): real {
    z * exp(m - m') + exp(x - m')
  }

  /** Lane 0's running sum. */
  function OnlineSum(exp: real -> real, xs: seq<real>): real {
    if xs == [] then 0.0
    else
      var n := |xs| - 1;
      NextSum(exp, OnlineSum(exp, xs[..n]), RunMax(xs[..n]), RunMax(xs), xs[n])
  }

  /** One update of a component; only lane 0 rescales what it has so far. */
  function NextAcc(exp: real -> real, acc: real, m: real, m': real, x: real, v: real, rescale: bool): real {
    (if rescale then acc * exp(m - m') else acc) + exp(x - m') * v
  }

  /** A lane's running component. */
  function OnlineAcc(exp: real -> real, xs: seq<real>, vs: seq<real>, rescale: bool): real
    requires |xs| == |vs|
  {
    if xs == [] then 0.0
    else
      var n := |xs| - 1;
      NextAcc(exp, OnlineAcc(exp, xs[..n], vs[..n], rescale), RunMax(xs[..n]), RunMax(xs), xs[n], vs[n], rescale)
  }

  /** Multiplying with the inverse of the sum, if there is one. */
  function Normalise(acc: real, z: real): real { acc * (if z > 0.0 then 1.0 / z else 0.0) }

  /** The component a lane writes. */
  function OnlineOut(exp: real -> real, xs: seq<real>, vs: seq<real>, rescale: bool): real
    requires |xs| == |vs|
  {
    Normalise(OnlineAcc(exp, xs, vs, rescale), OnlineSum(exp, xs))
  }

  lemma {:induction false} ExpSplit(exp: real -> real, a: real, b: real, c: real)
    requires IsExp(exp)
    ensures exp(a - c) == exp(a - b) * exp(b - c)
  {
    assert Adds(a - b, b - c, a - c);
  }

  lemma {:induction false} OwnSquare(e: real)
    requires e > 0.0 && e == e * e
    ensures e == 1.0
  {
    assert e * (e - 1.0) == 0.0;
  }

  lemma {:induction false} ExpZero(exp: real -> real)
    requires IsExp(exp)
    ensures exp(0.0) == 1.0
  {
    assert Adds(0.0, 0.0, 0.0);
    OwnSquare(exp(0.0));
  }

  /** The sum of `exp(x - m) * v`. */
  function Numerator(exp: real -> real, xs: seq<real>, vs: seq<real>, m: real): real
    requires |xs| == |vs|
  {
    if xs == [] then 0.0
    else
      var n := |xs| - 1;
      Numerator(exp, xs[..n], vs[..n], m) + exp(xs[n] - m) * vs[n]
  }

  lemma {:induction false} Factor(a: real, e: real, v: real, c: real)
    ensures a * c + (e * c) * v == (a + e * v) * c
  {
  }

  /** Changing the reference point scales the sums. */
  lemma {:induction false} ExpSumShift(exp: real -> real, xs: seq<real>, m: real, m': real)
    requires IsExp(exp)
    ensures ExpSum(exp, xs, m') == ExpSum(exp, xs, m) * exp(m - m')
  {
    if xs != [] {
      var n := |xs| - 1;
      ExpSumShift(exp, xs[..n], m, m');
      ExpSplit(exp, xs[n], m, m');
      Factor(ExpSum(exp, xs[..n], m), exp(xs[n] - m), 1.0, exp(m - m'));
    }
  }

  lemma {:induction false} NumeratorShift(exp: real -> real, xs: seq<real>, vs: seq<real>, m: real, m': real)
    requires IsExp(exp) && |xs| == |vs|
    ensures Numerator(exp, xs, vs, m') == Numerator(exp, xs, vs, m) * exp(m - m')
  {
    if xs != [] {
      var n := |xs| - 1;
      NumeratorShift(exp, xs[..n], vs[..n], m, m');
      ExpSplit(exp, xs[n], m, m');
      Factor(Numerator(exp, xs[..n], vs[..n], m), exp(xs[n] - m), vs[n], exp(m - m'));
    }
  }

  /** One online step moves both sums to the new reference point. */
  lemma {:induction false} SumStep(exp: real -> real, xs: seq<real>, x: real, m: real, m': real, z: real)
    requires IsExp(exp) && z == ExpSum(exp, xs, m)
    ensures NextSum(exp, z, m, m', x) == ExpSum(exp, xs + [x], m')
  {
    assert (xs + [x])[..|xs|] == xs;
    ExpSumShift(exp, xs, m, m');
  }

  lemma {:induction false} AccStep(exp: real -> real, xs: seq<real>, vs: seq<real>, x: real, v: real, m: real,
                                   m': real, acc: real)
    requires IsExp(exp) && |xs| == |vs| && acc == Numerator(exp, xs, vs, m)
    ensures NextAcc(exp, acc, m, m', x, v, true) == Numerator(exp, xs + [x], vs + [v], m')
  {
    assert (xs + [x])[..|xs|] == xs && (vs + [v])[..|vs|] == vs;
    NumeratorShift(exp, xs, vs, m, m');
  }

  lemma {:induction false} OnlineSumIsExpSum(exp: real -> real, xs: seq<real>)
    requires IsExp(exp)
    ensures OnlineSum(exp, xs) == ExpSum(exp, xs, RunMax(xs))
  {
    if xs != [] {
      var n := |xs| - 1;
      OnlineSumIsExpSum(exp, xs[..n]);
      SumStep(exp, xs[..n], xs[n], RunMax(xs[..n]), RunMax(xs), OnlineSum(exp, xs[..n]));
      assert xs[..n] + [xs[n]] == xs;
    }
  }

  lemma {:induction false} OnlineAccIsNumerator(exp: real -> real, xs: seq<real>, vs: seq<real>)
    requires IsExp(exp) && |xs| == |vs|
    ensures OnlineAcc(exp, xs, vs, true) == Numerator(exp, xs, vs, RunMax(xs))
  {
    if xs != [] {
      var n := |xs| - 1;
      OnlineAccIsNumerator(exp, xs[..n], vs[..n]);
      AccStep(exp, xs[..n], vs[..n], xs[n], vs[n], RunMax(xs[..n]), RunMax(xs), OnlineAcc(exp, xs[..n], vs[..n], true));
      assert xs[..n] + [xs[n]] == xs && vs[..n] + [vs[n]] == vs;
    }
  }

  lemma {:induction false} AddQuotients(a: real, e: real, v: real, z: real)
    requires z != 0.0
    ensures a / z + e / z * v == (a + e * v) / z
  {
    var x, y := a / z, e / z;
    assert a == x * z && e == y * z;
    assert a + e * v == (x + y * v) * z;
  }

  /** Normalising the weights or the sum is the same. */
  lemma {:induction false} WeightedIsQuotient(exp: real -> real, xs: seq<real>, vs: seq<real>, m: real, z: real)
    requires |xs| == |vs| && z != 0.0
    ensures Weighted(exp, xs, vs, m, z) == Numerator(exp, xs, vs, m) / z
  {
    if xs != [] {
      var n := |xs| - 1;
      WeightedIsQuotient(exp, xs[..n], vs[..n], m, z);
      AddQuotients(Numerator(exp, xs[..n], vs[..n], m), exp(xs[n] - m), vs[n], z);
    }
  }

  lemma {:induction false} SameQuotient(a: real, z: real, c: real)
    requires z > 0.0 && c > 0.0
    ensures z * c > 0.0
    ensures (a * c) * (1.0 / (z * c)) == a / z
  {
    var y := a / z;
    assert a == y * z;
    assert a * c == y * (z * c);
    TimesInverse(y, z * c);
  }

  lemma {:induction false} TimesInverse(y: real, d: real)
    requires d > 0.0
    ensures (y * d) * (1.0 / d) == y
  {
    assert d * (1.0 / d) == 1.0;
    assert (y * d) * (1.0 / d) == y * (d * (1.0 / d));
  }

  /** Two sums taken at two reference points have the same quotient. */
  lemma {:induction false} QuotientAtAnyPoint(exp: real -> real, xs: seq<real>, vs: seq<real>, m: real, m': real)
    requires IsExp(exp) && |xs| == |vs| && xs != []
    ensures ExpSum(exp, xs, m) > 0.0 && ExpSum(exp, xs, m') > 0.0
    ensures Numerator(exp, xs, vs, m') * (1.0 / ExpSum(exp, xs, m')) ==
            Numerator(exp, xs, vs, m) / ExpSum(exp, xs, m)
  {
    ExpSumPositive(exp, xs, m);
    ExpSumShift(exp, xs, m, m');
    NumeratorShift(exp, xs, vs, m, m');
    SameQuotient(Numerator(exp, xs, vs, m), ExpSum(exp, xs, m), exp(m - m'));
  }

  /** Lane 0: for any scores and values the online recurrence gives the two-pass result. */
  lemma {:induction false} OnlineEqualsTwoPass(exp: real -> real, xs: seq<real>, vs: seq<real>)
    requires IsExp(exp) && |xs| == |vs|
    ensures OnlineOut(exp, xs, vs, true) == TwoPass(exp, xs, vs)
  {
    if xs != [] {
      var m, m' := MaxScore(xs), RunMax(xs);
      OnlineSumIsExpSum(exp, xs);
      OnlineAccIsNumerator(exp, xs, vs);
      QuotientAtAnyPoint(exp, xs, vs, m, m');
      WeightedIsQuotient(exp, xs, vs, m, ExpSum(exp, xs, m));
    }
  }

  lemma {:induction false} OnlineAppend(exp: real -> real, xs: seq<real>, vs: seq<real>, x: real, v: real,
                                        rescale: bool)
    requires |xs| == |vs|
    ensures RunMax(xs + [x]) == Max(RunMax(xs), x)
    ensures OnlineSum(exp, xs + [x]) == NextSum(exp, OnlineSum(exp, xs), RunMax(xs), RunMax(xs + [x]), x)
    ensures OnlineAcc(exp, xs + [x], vs + [v], rescale) ==
            NextAcc(exp, OnlineAcc(exp, xs, vs, rescale), RunMax(xs), RunMax(xs + [x]), x, v, rescale)
  {
    assert (xs + [x])[..|xs|] == xs && (vs + [v])[..|vs|] == vs;
  }

  // ---- What both compute ----------------------------------------------------

  /** The sum of `exp(x)` from `i` on, with no reference point. */
  function Mass(exp: real -> real, xs: seq<real>, i: nat): real
    decreases |xs| - i
  {
    if i >= |xs| then 0.0 else exp(xs[i]) + Mass(exp, xs, i + 1)
  }

  /** The sum of `exp(x) * v` from `i` on. */
  function Moment(exp: real -> real, xs: seq<real>, vs: seq<real>, i: nat): real
    requires |xs| == |vs|
    decreases |xs| - i
  {
    if i >= |xs| then 0.0 else exp(xs[i]) * vs[i] + Moment(exp, xs, vs, i + 1)
  }

  lemma {:induction false} MassFromBack(exp: real -> real, xs: seq<real>, i: nat)
    requires i <= |xs|
    ensures ExpSum(exp, xs[..i], 0.0) + Mass(exp, xs, i) == ExpSum(exp, xs, 0.0)
    decreases |xs| - i
  {
    if i < |xs| {
      MassFromBack(exp, xs, i + 1);
      assert xs[..i + 1][..i] == xs[..i];
      assert xs[i] - 0.0 == xs[i];
    } else {
      assert xs[..i] == xs;
    }
  }

  lemma {:induction false} MomentFromBack(exp: real -> real, xs: seq<real>, vs: seq<real>, i: nat)
    requires |xs| == |vs| && i <= |xs|
    ensures Numerator(exp, xs[..i], vs[..i], 0.0) + Moment(exp, xs, vs, i) == Numerator(exp, xs, vs, 0.0)
    decreases |xs| - i
  {
    if i < |xs| {
      MomentFromBack(exp, xs, vs, i + 1);
      assert xs[..i + 1][..i] == xs[..i] && vs[..i + 1][..i] == vs[..i];
      assert xs[i] - 0.0 == xs[i];
    } else {
      assert xs[..i] == xs && vs[..i] == vs;
    }
  }

  lemma {:induction false} InverseIsQuotient(a: real, z: real)
    requires z > 0.0
    ensures a * (1.0 / z) == a / z
  {
    TimesInverse(a / z, z);
    assert (a / z) * z == a;
  }

  /** The two-pass result is the softmax average of the values: subtracting the largest score
      changes nothing. */
  lemma {:induction false} TwoPassIsSoftmax(exp: real -> real, xs: seq<real>, vs: seq<real>)
    requires IsExp(exp) && |xs| == |vs| && xs != []
    ensures Mass(exp, xs, 0) > 0.0
    ensures TwoPass(exp, xs, vs) == Moment(exp, xs, vs, 0) / Mass(exp, xs, 0)
  {
    var m := MaxScore(xs);
    assert xs[..0] == [] && vs[..0] == [];
    MassFromBack(exp, xs, 0);
    MomentFromBack(exp, xs, vs, 0);
    ExpSumPositive(exp, xs, m);
    WeightedIsQuotient(exp, xs, vs, m, ExpSum(exp, xs, m));
    QuotientAtAnyPoint(exp, xs, vs, m, 0.0);
    InverseIsQuotient(Moment(exp, xs, vs, 0), Mass(exp, xs, 0));
  }

  // ---- Lanes that do not rescale --------------------------------------------

  /** No later score exceeds the first one (or the floor). */
  predicate FirstIsLargest(xs: seq<real>) {
    xs != [] ==> forall i | 0 <= i < |xs| :: xs[i] <= xs[0] || xs[i] <= -100000000000000000000.0
  }

  lemma {:induction false} RunMaxBounds(xs: seq<real>, i: nat)
    requires i < |xs|
    ensures xs[i] <= RunMax(xs) && FLOOR <= RunMax(xs)
  {
    var n := |xs| - 1;
    if n > 0 {
      RunMaxBounds(xs[..n], if i < n then i else 0);
    }
  }

  lemma {:induction false} RunMaxIsFirst(xs: seq<real>)
    requires xs != [] && FirstIsLargest(xs)
    ensures RunMax(xs) == Max(FLOOR, xs[0])
  {
    var n := |xs| - 1;
    assert xs[n] <= Max(FLOOR, xs[0]);
    if n > 0 {
      RunMaxIsFirst(xs[..n]);
    }
  }

  lemma {:induction false} SameMaxNeedsNoRescale(exp: real -> real, acc: real, m: real, x: real, v: real)
    requires IsExp(exp)
    ensures NextAcc(exp, acc, m, m, x, v, false) == NextAcc(exp, acc, m, m, x, v, true)
  {
    assert m - m == 0.0;
    ExpZero(exp);
    assert acc * 1.0 == acc;
  }

  lemma {:induction false} UnscaledAgrees(exp: real -> real, xs: seq<real>, vs: seq<real>)
    requires IsExp(exp) && |xs| == |vs| && FirstIsLargest(xs)
    ensures OnlineAcc(exp, xs, vs, false) == OnlineAcc(exp, xs, vs, true)
  {
    if |xs| > 1 {
      var n := |xs| - 1;
      UnscaledAgrees(exp, xs[..n], vs[..n]);
      RunMaxIsFirst(xs);
      RunMaxIsFirst(xs[..n]);
      SameMaxNeedsNoRescale(exp, OnlineAcc(exp, xs[..n], vs[..n], true), RunMax(xs), xs[n], vs[n]);
    } else if |xs| == 1 {
      assert xs[..0] == [] && vs[..0] == [];
    }
  }

  /** All weight on the first token. */
  function OnlyFirst(n: nat): seq<real> { seq(n, i => if i == 0 then 1.0 else 0.0) }

  lemma {:induction false} UnscaledOnlyFirst(exp: real -> real, xs: seq<real>)
    requires xs != []
    ensures OnlineAcc(exp, xs, OnlyFirst(|xs|), false) == exp(xs[0] - RunMax(xs[..1]))
  {
    var n := |xs| - 1;
    assert OnlyFirst(|xs|)[..n] == OnlyFirst(n);
    if n > 0 {
      UnscaledOnlyFirst(exp, xs[..n]);
      assert xs[..n][..1] == xs[..1];
    } else {
      assert xs[..1] == xs;
    }
  }

  lemma {:induction false} NumeratorOnlyFirst(exp: real -> real, xs: seq<real>, m: real)
    requires xs != []
    ensures Numerator(exp, xs, OnlyFirst(|xs|), m) == exp(xs[0] - m)
  {
    var n := |xs| - 1;
    assert OnlyFirst(|xs|)[..n] == OnlyFirst(n);
    if n > 0 {
      NumeratorOnlyFirst(exp, xs[..n], m);
    }
  }

  /** A factor other than one changes a positive number. */
  lemma {:induction false} FactorMatters(a: real, b: real, c: real)
    requires a > 0.0 && b == a * c && a == b
    ensures c == 1.0
  {
    assert a * (c - 1.0) == 0.0;
  }

  lemma {:induction false} ExpInjective(exp: real -> real, x: real, m: real, m': real)
    requires IsExp(exp) && Separates(exp) && exp(x - m) == exp(x - m')
    ensures m == m'
  {
    ExpSplit(exp, x, m, m');
    FactorMatters(exp(x - m), exp(x - m'), exp(m - m'));
  }

  lemma {:induction false} OnlyFirstTellsApart(exp: real -> real, xs: seq<real>)
    requires IsExp(exp) && Separates(exp) && xs != []
    requires OnlineAcc(exp, xs, OnlyFirst(|xs|), false) == OnlineAcc(exp, xs, OnlyFirst(|xs|), true)
    ensures RunMax(xs[..1]) == RunMax(xs)
  {
    UnscaledOnlyFirst(exp, xs);
    OnlineAccIsNumerator(exp, xs, OnlyFirst(|xs|));
    NumeratorOnlyFirst(exp, xs, RunMax(xs));
    ExpInjective(exp, xs[0], RunMax(xs[..1]), RunMax(xs));
  }

  lemma {:induction false} EqualOutputs(a: real, b: real, z: real)
    requires z > 0.0 && a * (1.0 / z) == b * (1.0 / z)
    ensures a == b
  {
    TimesInverse(a * (1.0 / z), z);
    assert (a * (1.0 / z)) * z == a * ((1.0 / z) * z);
    assert (b * (1.0 / z)) * z == b * ((1.0 / z) * z);
    assert (1.0 / z) * z == 1.0;
  }

  /** The lanes other than 0 skip the rescaling. Their components are right for all values
      exactly when the first scored token has the largest score. */
  lemma {:induction false} UnscaledRightIff(exp: real -> real, xs: seq<real>)
    requires IsExp(exp) && Separates(exp)
    ensures (forall vs: seq<real> | |vs| == |xs| :: OnlineOut(exp, xs, vs, false) == TwoPass(exp, xs, vs)) <==>
            FirstIsLargest(xs)
  {
    if FirstIsLargest(xs) {
      forall vs: seq<real> | |vs| == |xs| ensures OnlineOut(exp, xs, vs, false) == TwoPass(exp, xs, vs) {
        UnscaledAgrees(exp, xs, vs);
        OnlineEqualsTwoPass(exp, xs, vs);
      }
    }
    if (forall vs: seq<real> | |vs| == |xs| :: OnlineOut(exp, xs, vs, false) == TwoPass(exp, xs, vs)) && xs != [] {
      RightMeansFirstIsLargest(exp, xs);
    }
  }

  lemma {:induction false} SameOutSameAcc(exp: real -> real, xs: seq<real>, vs: seq<real>)
    requires IsExp(exp) && |xs| == |vs| && xs != []
    requires OnlineOut(exp, xs, vs, false) == OnlineOut(exp, xs, vs, true)
    ensures OnlineAcc(exp, xs, vs, false) == OnlineAcc(exp, xs, vs, true)
  {
    OnlineSumIsExpSum(exp, xs);
    ExpSumPositive(exp, xs, RunMax(xs));
    EqualOutputs(OnlineAcc(exp, xs, vs, false), OnlineAcc(exp, xs, vs, true), OnlineSum(exp, xs));
  }

  lemma {:induction false} RightMeansFirstIsLargest(exp: real -> real, xs: seq<real>)
    requires IsExp(exp) && Separates(exp) && xs != []
    requires OnlineOut(exp, xs, OnlyFirst(|xs|), false) == TwoPass(exp, xs, OnlyFirst(|xs|))
    ensures FirstIsLargest(xs)
  {
    OnlineEqualsTwoPass(exp, xs, OnlyFirst(|xs|));
    SameOutSameAcc(exp, xs, OnlyFirst(|xs|));
    OnlyFirstTellsApart(exp, xs);
    assert RunMax(xs[..1]) == Max(FLOOR, xs[0]) by {
      assert xs[..1][..0] == [];
    }
    forall i | 0 <= i < |xs| ensures xs[i] <= Max(FLOOR, xs[0]) {
      RunMaxBounds(xs, i);
    }
  }

  /** Scores on which an unscaled lane is wrong: the second token outranks the first. */
  lemma {:induction false} UnscaledWrong(exp: real -> real, xs: seq<real>, vs: seq<real>)
    requires IsExp(exp) && Separates(exp) && xs == [0.0, 1.0] && vs == [1.0, 0.0]
    ensures OnlineOut(exp, xs, vs, false) != TwoPass(exp, xs, vs)
  {
    assert OnlyFirst(|xs|) == vs;
    assert xs[1] > Max(FLOOR, xs[0]);
    if OnlineOut(exp, xs, vs, false) == TwoPass(exp, xs, vs) {
      RightMeansFirstIsLargest(exp, xs);
    }
  }
}
