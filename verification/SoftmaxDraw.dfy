/** The random draw of sample_temperature for finite logits, over the reals: the softmax at a
    temperature, its cumulative sums, and which token a draw selects. */
module SoftmaxDraw {
  import opened Softmax
  import Sampling

  /** The exponential of a logit divided by the temperature. */
  function Tempered(exp: real -> real, temperature: real): real -> real
    requires temperature > 0.0
  {
    x => exp(x / temperature)
  }

  lemma {:induction false} DivideSum(a: real, b: real, t: real)
    requires t > 0.0
    ensures a / t + b / t == (a + b) / t
  {
  }

  lemma {:induction false} TemperedSum(exp: real -> real, temperature: real, a: real, b: real, c: real)
    requires IsExp(exp) && temperature > 0.0 && Adds(a, b, c)
    ensures exp(c / temperature) == exp(a / temperature) * exp(b / temperature)
  {
    DivideSum(a, b, temperature);
    assert Adds(a / temperature, b / temperature, c / temperature);
  }

  lemma {:induction false} TemperedIsExp(exp: real -> real, temperature: real)
    requires IsExp(exp) && temperature > 0.0
    ensures IsExp(Tempered(exp, temperature))
  {
    var e := Tempered(exp, temperature);
    forall a, b, c {:trigger Adds(a, b, c)} | Adds(a, b, c) ensures e(c) == e(a) * e(b) {
      TemperedSum(exp, temperature, a, b, c);
    }
  }

  // ---- The reference: softmax without a reference point ---------------------

  /** The sum of `e(x)` over the first `n` logits. */
  function Head(e: real -> real, xs: seq<real>, n: nat): real
    requires n <= |xs|
  {
    if n == 0 then 0.0 else Head(e, xs, n - 1) + e(xs[n - 1])
  }

  /** The part of the total that the first `n` logits make up. */
  ghost function Portion(e: real -> real, xs: seq<real>, n: nat): real
    requires n <= |xs| && IsExp(e) && xs != []
    ensures Head(e, xs, |xs|) > 0.0
  {
    HeadGrows(e, xs, 0, |xs|);
    Head(e, xs, n) / Head(e, xs, |xs|)
  }

  lemma {:induction false} Positive(e: real -> real, x: real)
    requires IsExp(e)
    ensures e(x) > 0.0
  {
  }

  lemma {:induction false} HeadGrows(e: real -> real, xs: seq<real>, m: nat, n: nat)
    requires m <= n <= |xs| && IsExp(e)
    ensures Head(e, xs, m) <= Head(e, xs, n)
    ensures m < n ==> Head(e, xs, m) < Head(e, xs, n)
    decreases n
  {
    if m < n {
      HeadGrows(e, xs, m, n - 1);
      Positive(e, xs[n - 1]);
    }
  }

  // ---- What the code adds up ------------------------------------------------

  /** The sum of the first `n` normalised weights, taken at reference point `m`. */
  function Cumulative(e: real -> real, xs: seq<real>, m: real, z: real, n: nat): real
    requires n <= |xs| && z != 0.0
  {
    if n == 0 then 0.0 else Cumulative(e, xs, m, z, n - 1) + Weight(e, xs[n - 1], m, z)
  }

  lemma {:induction false} HeadIsExpSum(e: real -> real, xs: seq<real>, n: nat)
    requires n <= |xs|
    ensures Head(e, xs, n) == ExpSum(e, xs[..n], 0.0)
  {
    if n > 0 {
      HeadIsExpSum(e, xs, n - 1);
      assert xs[..n][..n - 1] == xs[..n - 1];
      assert xs[n - 1] - 0.0 == xs[n - 1];
    }
  }

  lemma {:induction false} AddParts(a: real, b: real, z: real)
    requires z > 0.0
    ensures a / z + b / z == (a + b) / z
  {
  }

  lemma {:induction false} CumulativeIsQuotient(e: real -> real, xs: seq<real>, m: real, z: real, n: nat)
    requires n <= |xs| && z > 0.0
    ensures Cumulative(e, xs, m, z, n) == ExpSum(e, xs[..n], m) / z
  {
    if n > 0 {
      CumulativeIsQuotient(e, xs, m, z, n - 1);
      assert xs[..n][..n - 1] == xs[..n - 1];
      AddParts(ExpSum(e, xs[..n - 1], m), e(xs[n - 1] - m), z);
    }
  }

  lemma {:induction false} CommonFactor(a: real, z: real, c: real, part: real, whole: real)
    requires z > 0.0 && c > 0.0 && part == Times(a, c) && whole == Times(z, c)
    ensures whole > 0.0 && part / whole == a / z
  {
    SameQuotient(a, z, c);
    InverseIsQuotient(part, whole);
  }

  lemma {:induction false} HeadShift(e: real -> real, xs: seq<real>, m: real, n: nat)
    requires IsExp(e) && n <= |xs|
    ensures Head(e, xs, n) == Times(ExpSum(e, xs[..n], m), e(m))
  {
    HeadIsExpSum(e, xs, n);
    ExpSumShift(e, xs[..n], m, 0.0);
    assert m - 0.0 == m;
  }

  /** Whatever the reference point, the cumulative sums are the portions of the softmax. */
  lemma {:induction false} CumulativeIsPortion(e: real -> real, xs: seq<real>, m: real, n: nat)
    requires IsExp(e) && xs != [] && n <= |xs|
    ensures ExpSum(e, xs, m) > 0.0
    ensures Cumulative(e, xs, m, ExpSum(e, xs, m), n) == Portion(e, xs, n)
  {
    ExpSumPositive(e, xs, m);
    CumulativeIsQuotient(e, xs, m, ExpSum(e, xs, m), n);
    PortionShift(e, xs, m, n);
  }

  lemma {:induction false} PortionShift(e: real -> real, xs: seq<real>, m: real, n: nat)
    requires IsExp(e) && xs != [] && n <= |xs| && ExpSum(e, xs, m) > 0.0
    ensures Portion(e, xs, n) == ExpSum(e, xs[..n], m) / ExpSum(e, xs, m)
  {
    var part, whole := Head(e, xs, n), Head(e, xs, |xs|);
    HeadShift(e, xs, m, n);
    HeadShift(e, xs, m, |xs|);
    assert xs[..|xs|] == xs;
    Positive(e, m);
    CommonFactor(ExpSum(e, xs[..n], m), ExpSum(e, xs, m), e(m), part, whole);
    assert Portion(e, xs, n) == part / whole;
  }

  lemma {:induction false} Quotients(a: real, b: real, z: real)
    requires a < b && z > 0.0
    ensures a / z < b / z
  {
  }

  lemma {:induction false} WholeAndNothing(z: real)
    requires z > 0.0
    ensures 0.0 / z == 0.0 && z / z == 1.0
  {
  }

  /** The portions start at 0, grow with every logit and end at 1. */
  lemma {:induction false} PortionsGrow(e: real -> real, xs: seq<real>, n: nat)
    requires IsExp(e) && n < |xs|
    ensures Portion(e, xs, 0) == 0.0 && Portion(e, xs, |xs|) == 1.0
    ensures Portion(e, xs, n) < Portion(e, xs, n + 1)
    ensures Portion(e, xs, n + 1) - Portion(e, xs, n) == e(xs[n]) / Head(e, xs, |xs|)
  {
    HeadGrows(e, xs, 0, |xs|);
    HeadGrows(e, xs, n, n + 1);
    var z := Head(e, xs, |xs|);
    Quotients(Head(e, xs, n), Head(e, xs, n + 1), z);
    AddParts(Head(e, xs, n), e(xs[n]), z);
    WholeAndNothing(z);
  }

  lemma {:induction false} PortionsMonotone(e: real -> real, xs: seq<real>, m: nat, n: nat)
    requires IsExp(e) && m <= n <= |xs| && xs != []
    ensures Portion(e, xs, m) <= Portion(e, xs, n)
    decreases n
  {
    if m < n {
      PortionsMonotone(e, xs, m, n - 1);
      PortionsGrow(e, xs, n - 1);
    }
  }

  /** The draw `r` is at most the sum of the first `i + 1` probabilities. */
  ghost function Reached(e: real -> real, xs: seq<real>, r: real): nat -> bool
    requires IsExp(e) && xs != []
  {
    (i: nat) => i < |xs| && r <= Portion(e, xs, i + 1)
  }

  /** A draw from 0 to 1 selects token `t` exactly when it lies in an interval as long as the
      softmax probability of `t`: above the portion before `t` (or anywhere for the first token)
      and not above the portion up to it. The last token is never selected by default. */
  lemma {:induction false} DrawSelects(e: real -> real, xs: seq<real>, r: real, t: nat)
    requires IsExp(e) && 0.0 <= r <= 1.0 && t < |xs|
    ensures Sampling.IsDrawn(Reached(e, xs, r), |xs|, t) <==>
            (t == 0 || Portion(e, xs, t) < r) && r <= Portion(e, xs, t + 1)
    ensures Portion(e, xs, t + 1) - Portion(e, xs, t) == e(xs[t]) / Head(e, xs, |xs|)
    ensures exists i: nat :: i < |xs| && Reached(e, xs, r)(i)
  {
    var reached := Reached(e, xs, r);
    PortionsGrow(e, xs, t);
    assert reached(|xs| - 1);
    if Portion(e, xs, t) < r {
      forall i: nat | i < t ensures !reached(i) {
        PortionsMonotone(e, xs, i + 1, t);
      }
    }
    if t > 0 && (forall i: nat | i < t :: !reached(i)) {
      assert !reached(t - 1);
    }
  }

  // ---- The loops ------------------------------------------------------------

  /** The largest logit. */
  method Largest(xs: seq<real>) returns (m: real)
    requires xs != []
    ensures m in xs && forall i | 0 <= i < |xs| :: xs[i] <= m
  {
    m := xs[0];
    for i := 1 to |xs|
      invariant m in xs && forall j | 0 <= j < i :: xs[j] <= m
    {
      if xs[i] > m {
        m := xs[i];
      }
    }
  }

  /** The exponentials and their sum. */
  method Exponentials(exp: real -> real, xs: seq<real>, temperature: real, m: real, probs: array<real>)
    returns (sum: real)
    requires temperature > 0.0 && probs.Length == |xs|
    modifies probs
    ensures sum == ExpSum(Tempered(exp, temperature), xs, m)
    ensures forall i | 0 <= i < |xs| :: probs[i] == Tempered(exp, temperature)(xs[i] - m)
  {
    ghost var e := Tempered(exp, temperature);
    sum := 0.0;
    for i := 0 to |xs|
      invariant sum == ExpSum(e, xs[..i], m)
      invariant forall j | 0 <= j < i :: probs[j] == e(xs[j] - m)
    {
      probs[i] := exp((xs[i] - m) / temperature);
      sum := sum + probs[i];
      assert xs[..i + 1][..i] == xs[..i];
    }
    assert xs[..|xs|] == xs;
  }

  /** Division by the sum. */
  method NormaliseAll(ghost e: real -> real, ghost xs: seq<real>, ghost m: real, probs: array<real>, sum: real)
    requires probs.Length == |xs| && sum != 0.0 && forall i | 0 <= i < |xs| :: probs[i] == e(xs[i] - m)
    modifies probs
    ensures forall i | 0 <= i < |xs| :: probs[i] == Weight(e, xs[i], m, sum)
  {
    for i := 0 to probs.Length
      invariant forall j | 0 <= j < i :: probs[j] == Weight(e, xs[j], m, sum)
      invariant forall j | i <= j < |xs| :: probs[j] == e(xs[j] - m)
    {
      probs[i] := probs[i] / sum;
    }
  }

  lemma {:induction false} ReachedIs(e: real -> real, xs: seq<real>, m: real, r: real, i: nat)
    requires IsExp(e) && i < |xs|
    ensures ExpSum(e, xs, m) > 0.0
    ensures Reached(e, xs, r)(i) <==> r <= Cumulative(e, xs, m, ExpSum(e, xs, m), i + 1)
  {
    CumulativeIsPortion(e, xs, m, i + 1);
  }

  /** The loop over the cumulative sum. */
  method Scan(ghost e: real -> real, ghost xs: seq<real>, ghost m: real, probs: array<real>, r: real)
    returns (token: nat)
    requires IsExp(e) && xs != [] && probs.Length == |xs| && ExpSum(e, xs, m) > 0.0
    requires forall i | 0 <= i < |xs| :: probs[i] == Weight(e, xs[i], m, ExpSum(e, xs, m))
    ensures token < |xs| && Sampling.IsDrawn(Reached(e, xs, r), |xs|, token)
  {
    ghost var z := ExpSum(e, xs, m);
    var cumsum := 0.0;
    token := probs.Length - 1;
    var i := 0;
    while i < probs.Length
      invariant 0 <= i <= |xs| && cumsum == Cumulative(e, xs, m, z, i)
      invariant forall j: nat | j < i :: !Reached(e, xs, r)(j)
    {
      cumsum := cumsum + probs[i];
      ReachedIs(e, xs, m, r, i);
      if r <= cumsum {
        return i;
      }
      i := i + 1;
    }
  }

  /** The sampling part of sample_temperature: softmax at the temperature, then the draw. */
  method DrawToken(exp: real -> real, xs: seq<real>, temperature: real, r: real) returns (token: nat)
    requires IsExp(exp) && temperature > 0.0 && xs != []
    ensures IsExp(Tempered(exp, temperature)) && token < |xs|
    ensures Sampling.IsDrawn(Reached(Tempered(exp, temperature), xs, r), |xs|, token)
  {
    ghost var e := Tempered(exp, temperature);
    TemperedIsExp(exp, temperature);
    var m := Largest(xs);
    var probs := new real[|xs|];
    var sum := Exponentials(exp, xs, temperature, m, probs);
    ExpSumPositive(e, xs, m);
    NormaliseAll(e, xs, m, probs, sum);
    token := Scan(e, xs, m, probs, r);
  }
}
