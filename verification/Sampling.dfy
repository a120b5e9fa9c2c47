/** Token selection from logits: greedy, the top-k scan, and their agreement. */
module Sampling {

  /** A float as far as comparisons go. */
  datatype Logit = NaN | NegInf | Fin(value: real) | PosInf

  /** The C comparison `a > b`: false whenever a NaN is involved. */
  predicate Gt(a: Logit, b: Logit) {
    match (a, b)
    case (PosInf, NegInf) => true
    case (PosInf, Fin(_)) => true
    case (Fin(_), NegInf) => true
    case (Fin(x), Fin(y)) => x > y
    case _ => false
  }

  /** An entry a scan that starts from minus infinity can pick. */
  predicate Candidate(a: Logit) { Gt(a, NegInf) }

  predicate IsCandidate(logits: seq<Logit>, i: int) {
    0 <= i < |logits| && Candidate(logits[i])
  }

  /** Descending by value, ascending by index among equals. */
  predicate Before(logits: seq<Logit>, i: int, j: int)
    requires 0 <= i < |logits| && 0 <= j < |logits|
  {
    Gt(logits[i], logits[j]) || (logits[i] == logits[j] && i < j)
  }

  // ---- Greedy ---------------------------------------------------------------

  /** The lowest index with the largest value among the first `n` entries that exceed minus
      infinity; index 0 if there is none. */
  ghost predicate IsGreedy(logits: seq<Logit>, n: int, g: int) {
    if exists i :: i < n && IsCandidate(logits, i) then
      && g < n && IsCandidate(logits, g)
      && forall i | i < n && i != g && IsCandidate(logits, i) :: Before(logits, g, i)
    else g == 0
  }

  lemma {:induction false} GreedyUnique(logits: seq<Logit>, n: int, g: int, h: int)
    requires n <= |logits| && IsGreedy(logits, n, g) && IsGreedy(logits, n, h)
    ensures g == h
  {
  }

  /** sample_greedy */
  method SampleGreedy(logits: seq<Logit>) returns (maxIdx: nat)
    ensures IsGreedy(logits, |logits|, maxIdx)
  {
    var maxVal := NegInf;
    maxIdx := 0;
    var i := 0;
    while i < |logits|
      invariant 0 <= i <= |logits|
      invariant IsGreedy(logits, i, maxIdx)
      invariant maxVal == if maxIdx < i && IsCandidate(logits, maxIdx) then logits[maxIdx] else NegInf
      invariant (exists j :: j < i && IsCandidate(logits, j)) <==> maxVal != NegInf
    {
      if Gt(logits[i], maxVal) {
        assert IsCandidate(logits, i);
        maxVal := logits[i];
        maxIdx := i;
      }
      i := i + 1;
    }
  }

  // ---- Top-k ----------------------------------------------------------------

  /** `top` lists, in order, the first `k` candidates among the first `n` entries: all of
      them if there are at most `k`. */
  ghost predicate IsTopK(logits: seq<Logit>, n: int, k: nat, top: seq<int>) {
    && n <= |logits|
    && |top| <= k
    && (forall a | 0 <= a < |top| :: top[a] < n && IsCandidate(logits, top[a]))
    && (forall a, b | 0 <= a < b < |top| :: Before(logits, top[a], top[b]))
    && (forall c | c < n && IsCandidate(logits, c) && c !in top ::
          |top| == k && forall a | 0 <= a < |top| :: Before(logits, top[a], c))
  }

  /** `i` put in front of position `p`. */
  function Longer(top: seq<int>, p: nat, i: int): (r: seq<int>)
    requires p <= |top|
    ensures |r| == |top| + 1 && r[p] == i
    ensures forall a | 0 <= a < p :: r[a] == top[a]
    ensures forall a | p < a <= |top| :: r[a] == top[a - 1]
  {
    top[..p] + [i] + top[p..]
  }

  function Inserted(top: seq<int>, p: nat, i: int, k: nat): seq<int>
    requires p <= |top|
  {
    var longer := Longer(top, p, i);
    if |longer| <= k then longer else longer[..k]
  }

  /** Candidates, each before the next. */
  ghost predicate Ordered(logits: seq<Logit>, xs: seq<int>) {
    && (forall a | 0 <= a < |xs| :: IsCandidate(logits, xs[a]))
    && (forall a, b | 0 <= a < b < |xs| :: Before(logits, xs[a], xs[b]))
  }

  /** Everything before position `p` is not smaller than entry `n`, everything after is. */
  ghost predicate Splits(logits: seq<Logit>, n: int, top: seq<int>, p: nat) {
    && 0 <= n < |logits| && Candidate(logits[n]) && p <= |top|
    && (forall a | 0 <= a < |top| :: 0 <= top[a] < n)
    && (forall a | 0 <= a < p :: !Gt(logits[n], logits[top[a]]))
    && (forall a | p <= a < |top| :: Gt(logits[n], logits[top[a]]))
  }

  lemma {:induction false} LongerOrdered(logits: seq<Logit>, n: int, top: seq<int>, p: nat)
    requires Splits(logits, n, top, p) && Ordered(logits, top)
    ensures Ordered(logits, Longer(top, p, n))
  {
    var longer := Longer(top, p, n);
    forall a | 0 <= a < |longer| ensures IsCandidate(logits, longer[a]) {
      assert a < p ==> IsCandidate(logits, top[a]);
      assert a > p ==> IsCandidate(logits, top[a - 1]);
    }
    forall a, b | 0 <= a < b < |longer| ensures Before(logits, longer[a], longer[b]) {
      var a', b' := if a < p then a else a - 1, if b < p then b else b - 1;
      assert a != p && b != p ==> Before(logits, top[a'], top[b']);
    }
  }

  /** Inserting the next entry behind everything that is not smaller keeps the list right. */
  lemma {:induction false} InsertKeepsTopK(logits: seq<Logit>, n: int, k: nat, top: seq<int>, p: nat)
    requires Splits(logits, n, top, p) && IsTopK(logits, n, k, top) && p < k
    ensures IsTopK(logits, n + 1, k, Inserted(top, p, n, k))
  {
    LongerOrdered(logits, n, top, p);
    var longer, result := Longer(top, p, n), Inserted(top, p, n, k);
    forall a | 0 <= a < |result| ensures result[a] == longer[a] && result[a] < n + 1 {
    }
    forall c | c < n + 1 && IsCandidate(logits, c) && c !in result
      ensures |result| == k && forall a | 0 <= a < |result| :: Before(logits, result[a], c)
    {
      LeftOutIsAfter(logits, n, k, top, p, c);
    }
  }

  lemma {:induction false} LeftOutIsAfter(logits: seq<Logit>, n: int, k: nat, top: seq<int>, p: nat, c: int)
    requires Splits(logits, n, top, p) && IsTopK(logits, n, k, top) && p < k
    requires Ordered(logits, Longer(top, p, n))
    requires c < n + 1 && IsCandidate(logits, c) && c !in Inserted(top, p, n, k)
    ensures |Inserted(top, p, n, k)| == k
    ensures forall a | 0 <= a < k :: Before(logits, Inserted(top, p, n, k)[a], c)
  {
    var longer, result := Longer(top, p, n), Inserted(top, p, n, k);
    assert result[p] == n;
    if c in top {
      var j :| 0 <= j < |top| && top[j] == c;
      var j' := if j < p then j else j + 1;
      assert longer[j'] == c;
      assert forall a | 0 <= a < |result| :: result[a] == longer[a];
    } else {
      forall a | 0 <= a < k ensures Before(logits, result[a], c) {
        assert Before(logits, top[if a <= p then a else a - 1], c);
      }
    }
  }

  /** The scan's two arrays: the list with its values, padded with (minus infinity, 0). */
  ghost predicate Holds(logits: seq<Logit>, top: seq<int>, vals: seq<Logit>, idxs: seq<int>) {
    && |top| <= |vals| == |idxs|
    && (forall a | 0 <= a < |top| :: 0 <= top[a] < |logits| && idxs[a] == top[a] && vals[a] == logits[top[a]])
    && (forall a | |top| <= a < |vals| :: idxs[a] == 0 && vals[a] == NegInf)
  }

  ghost predicate Descending(vals: seq<Logit>) {
    && (forall a | 0 <= a < |vals| :: vals[a] != NaN)
    && (forall a, b | 0 <= a < b < |vals| :: !Gt(vals[b], vals[a]))
  }

  lemma {:induction false} HoldsDescending(logits: seq<Logit>, n: int, k: nat, top: seq<int>, vals: seq<Logit>,
                                           idxs: seq<int>)
    requires IsTopK(logits, n, k, top) && Holds(logits, top, vals, idxs)
    ensures Descending(vals)
  {
    forall a, b | 0 <= a < b < |vals| ensures !Gt(vals[b], vals[a]) {
      if b < |top| {
        assert Before(logits, top[a], top[b]);
      }
    }
  }

  lemma {:induction false} FrontDescending(logits: seq<Logit>, n: int, k: nat, top: seq<int>, v: seq<Logit>,
                                           d: seq<int>,
                                           last: Logit, lastIdx: int)
    requires IsTopK(logits, n, k, top) && Holds(logits, top, v + [last], d + [lastIdx])
    ensures Descending(v)
  {
    HoldsDescending(logits, n, k, top, v + [last], d + [lastIdx]);
    assert forall a | 0 <= a < |v| :: (v + [last])[a] == v[a];
  }

  /** Element `a` of `v` with `x` put in front of position `p`. */
  function Placed<T>(v: seq<T>, x: T, p: nat, a: nat): T
    requires p <= |v| && a <= |v|
  {
    if a < p then v[a] else if a == p then x else v[a - 1]
  }

  lemma {:induction false} NotGtChain(x: Logit, v: seq<Logit>, a: int, b: int)
    requires 0 <= a <= b < |v| && Descending(v) && !Gt(x, v[b])
    ensures !Gt(x, v[a])
  {
  }

  /** The bubble loop: the last element moves up past everything smaller; the others keep
      their order, and value and index travel together. */
  method BubbleUp(vals: array<Logit>, idxs: array<int>, ghost x: Logit, ghost i: int, ghost v: seq<Logit>,
                  ghost d: seq<int>)
    returns (ghost p: nat)
    requires vals.Length == idxs.Length == |v| + 1 == |d| + 1 && Descending(v)
    requires forall a | 0 <= a <= |v| :: vals[a] == Placed(v, x, |v|, a) && idxs[a] == Placed(d, i, |v|, a)
    modifies vals, idxs
    ensures p <= |v|
    ensures forall a | 0 <= a <= |v| :: vals[a] == Placed(v, x, p, a) && idxs[a] == Placed(d, i, p, a)
    ensures forall a | 0 <= a < p :: !Gt(x, v[a])
    ensures forall a | p <= a < |v| :: Gt(x, v[a])
  {
    p := vals.Length - 1;
    var j := vals.Length - 2;
    while j >= 0
      invariant -1 <= j <= |v| - 1 && j < p <= |v|
      invariant forall a | 0 <= a <= |v| :: vals[a] == Placed(v, x, p, a) && idxs[a] == Placed(d, i, p, a)
      invariant forall a | p <= a < |v| :: Gt(x, v[a])
      invariant p == j + 1 || !Gt(x, v[p - 1])
    {
      if Gt(vals[j + 1], vals[j]) {
        vals[j], vals[j + 1] := vals[j + 1], vals[j];
        idxs[j], idxs[j + 1] := idxs[j + 1], idxs[j];
        p := j;
      }
      j := j - 1;
    }
    forall a | 0 <= a < p ensures !Gt(x, v[a]) {
      NotGtChain(x, v, a, p - 1);
    }
  }

  /** Placing the new entry in the arrays is placing it in the list. */
  lemma {:induction false} PlacedHolds(logits: seq<Logit>, n: int, top: seq<int>, v: seq<Logit>, d: seq<int>, p: nat,
                                       vals: seq<Logit>, idxs: seq<int>, last: Logit, lastIdx: int)
    requires 0 <= n < |logits| && |v| == |d| && p <= |v| && p <= |top|
    requires Holds(logits, top, v + [last], d + [lastIdx])
    requires |vals| == |idxs| == |v| + 1
    requires forall a | 0 <= a <= |v| :: vals[a] == Placed(v, logits[n], p, a) && idxs[a] == Placed(d, n, p, a)
    ensures Holds(logits, Inserted(top, p, n, |vals|), vals, idxs)
  {
    var k := |vals|;
    var result := Inserted(top, p, n, k);
    forall a | 0 <= a < k
      ensures if a < |result| then 0 <= result[a] < |logits| && idxs[a] == result[a] && vals[a] == logits[result[a]]
              else idxs[a] == 0 && vals[a] == NegInf
    {
      var b := if a < p then a else a - 1;
      if a != p {
        assert v[b] == (v + [last])[b] && d[b] == (d + [lastIdx])[b];
      }
    }
  }

  /** The selection loop of sample_top_k, on two arrays of length `k`. */
  method TopKScan(logits: seq<Logit>, k: nat) returns (vals: array<Logit>, idxs: array<int>, ghost top: seq<int>)
    requires k > 0
    ensures vals.Length == idxs.Length == k
    ensures IsTopK(logits, |logits|, k, top) && Holds(logits, top, vals[..], idxs[..])
  {
    vals := new Logit[k](_ => NegInf);
    idxs := new int[k](_ => 0);
    top := [];
    var i := 0;
    while i < |logits|
      invariant 0 <= i <= |logits|
      invariant IsTopK(logits, i, k, top) && Holds(logits, top, vals[..], idxs[..])
    {
      if Gt(logits[i], vals[k - 1]) {
        top := PlaceNext(logits, i, k, vals, idxs, top);
      } else {
        SkipKeepsTopK(logits, i, k, top, vals[..], idxs[..]);
      }
      i := i + 1;
    }
  }

  lemma {:induction false} SkipKeepsTopK(logits: seq<Logit>, n: int, k: nat, top: seq<int>, vals: seq<Logit>,
                                         idxs: seq<int>)
    requires 0 <= n < |logits| && k == |vals| > 0 && IsTopK(logits, n, k, top) && Holds(logits, top, vals, idxs)
    requires !Gt(logits[n], vals[k - 1])
    ensures IsTopK(logits, n + 1, k, top)
  {
    if Candidate(logits[n]) {
      HoldsDescending(logits, n, k, top, vals, idxs);
      forall a | 0 <= a < |top| ensures Before(logits, top[a], n) {
        NotGtChain(logits[n], vals, a, k - 1);
      }
    }
  }

  /** Overwrites the last place with entry `i` and bubbles it up. */
  method PlaceNext(logits: seq<Logit>, i: nat, k: nat, vals: array<Logit>, idxs: array<int>, ghost top: seq<int>)
    returns (ghost top': seq<int>)
    requires i < |logits| && vals.Length == idxs.Length == k > 0
    requires IsTopK(logits, i, k, top) && Holds(logits, top, vals[..], idxs[..])
    requires Gt(logits[i], vals[k - 1])
    modifies vals, idxs
    ensures IsTopK(logits, i + 1, k, top') && Holds(logits, top', vals[..], idxs[..])
  {
    ghost var v, d, last, lastIdx := vals[..k - 1], idxs[..k - 1], vals[k - 1], idxs[k - 1];
    assert vals[..] == v + [last] && idxs[..] == d + [lastIdx];
    FrontDescending(logits, i, k, top, v, d, last, lastIdx);
    vals[k - 1] := logits[i];
    idxs[k - 1] := i;
    ghost var p := BubbleUp(vals, idxs, logits[i], i, v, d);
    top' := PlacedKeepsTopK(logits, i, k, top, v, d, last, lastIdx, p, vals[..], idxs[..]);
  }

  lemma {:induction false} PlacedKeepsTopK(logits: seq<Logit>, n: int, k: nat, top: seq<int>, v: seq<Logit>,
                                           d: seq<int>,
                                           last: Logit, lastIdx: int, p: nat, vals: seq<Logit>, idxs: seq<int>)
    returns (top': seq<int>)
    requires 0 <= n < |logits| && IsTopK(logits, n, k, top) && |v| == |d| == k - 1 && p <= |v|
    requires Holds(logits, top, v + [last], d + [lastIdx]) && Gt(logits[n], last)
    requires forall a | 0 <= a < p :: !Gt(logits[n], v[a])
    requires forall a | p <= a < |v| :: Gt(logits[n], v[a])
    requires |vals| == |idxs| == k
    requires forall a | 0 <= a <= |v| :: vals[a] == Placed(v, logits[n], p, a) && idxs[a] == Placed(d, n, p, a)
    ensures IsTopK(logits, n + 1, k, top') && Holds(logits, top', vals, idxs)
  {
    PositionInList(logits, n, k, top, v, d, last, lastIdx, p);
    PlacedHolds(logits, n, top, v, d, p, vals, idxs, last, lastIdx);
    InsertKeepsTopK(logits, n, k, top, p);
    top' := Inserted(top, p, n, k);
  }

  /** The place found in the padded arrays is the place in the list. */
  lemma {:induction false} PositionInList(logits: seq<Logit>, n: int, k: nat, top: seq<int>, v: seq<Logit>, d: seq<int>,
                                          last: Logit, lastIdx: int, p: nat)
    requires 0 <= n < |logits| && IsTopK(logits, n, k, top) && |v| == |d| == k - 1 && p <= |v|
    requires Holds(logits, top, v + [last], d + [lastIdx]) && Gt(logits[n], last)
    requires forall a | 0 <= a < p :: !Gt(logits[n], v[a])
    requires forall a | p <= a < |v| :: Gt(logits[n], v[a])
    ensures p < k && Splits(logits, n, top, p)
  {
    var w := v + [last];
    assert forall a | 0 <= a < |v| :: w[a] == v[a];
    assert w[|v|] == last;
    assert |top| < |w| ==> w[|top|] == NegInf;
  }

  // ---- The first k of a stable sort -----------------------------------------

  /** `order` lists every index once, descending by value and stable. */
  ghost predicate IsStableSort(logits: seq<Logit>, order: seq<int>) {
    && (forall a | 0 <= a < |order| :: 0 <= order[a] < |logits|)
    && (forall i | 0 <= i < |logits| :: i in order)
    && (forall a, b | 0 <= a < b < |order| :: Before(logits, order[a], order[b]))
  }

  /** Behind the first `a` of the list, its next element comes before every other candidate. */
  lemma {:induction false} TopRestIsAfter(logits: seq<Logit>, k: nat, top: seq<int>, a: nat, i: int)
    requires IsTopK(logits, |logits|, k, top) && a < |top|
    requires IsCandidate(logits, i) && i !in top[..a] && i != top[a]
    ensures Before(logits, top[a], i)
  {
    assert forall e | 0 <= e < a :: top[e] in top[..a];
    if i in top {
      var e :| 0 <= e < |top| && top[e] == i;
    }
  }

  lemma {:induction false} SortRestIsAfter(logits: seq<Logit>, order: seq<int>, a: nat, i: int)
    requires IsStableSort(logits, order) && a < |order|
    requires 0 <= i < |logits| && i !in order[..a] && i != order[a]
    ensures Before(logits, order[a], i)
  {
    assert forall e | 0 <= e < a :: order[e] in order[..a];
    assert i in order;
    var e :| 0 <= e < |order| && order[e] == i;
  }

  /** The list is the first part of a stable descending sort of the whole vocabulary. */
  lemma {:induction false} TopKIsSortPrefix(logits: seq<Logit>, k: nat, top: seq<int>, order: seq<int>, n: nat)
    requires forall i | 0 <= i < |logits| :: logits[i] != NaN
    requires IsTopK(logits, |logits|, k, top) && IsStableSort(logits, order) && n <= |top|
    ensures n <= |order| && top[..n] == order[..n]
  {
    if n > 0 {
      var a := n - 1;
      TopKIsSortPrefix(logits, k, top, order, a);
      assert top[a] in order && IsCandidate(logits, top[a]);
      assert top[a] !in top[..a];
      assert order[..a] != order;
      assert order[a] !in order[..a];
      if top[a] != order[a] {
        SortRestIsAfter(logits, order, a, top[a]);
        TopRestIsAfter(logits, k, top, a, order[a]);
      }
      assert top[..n] == top[..a] + [top[a]] && order[..n] == order[..a] + [order[a]];
    }
  }

  function Elements(s: seq<int>): set<int> { set x | x in s }

  lemma {:induction false} ElementsAtMost(s: seq<int>)
    ensures |Elements(s)| <= |s|
  {
    if s != [] {
      ElementsAtMost(s[1..]);
      assert Elements(s) == Elements(s[1..]) + {s[0]};
    }
  }

  /** With at least `k` entries above minus infinity the list is full. */
  lemma {:induction false} EnoughCandidates(logits: seq<Logit>, k: nat, top: seq<int>, some: set<int>)
    requires IsTopK(logits, |logits|, k, top) && |some| >= k
    requires forall i | i in some :: IsCandidate(logits, i)
    ensures |top| == k
  {
    if i :| i in some && i !in top {
      assert IsCandidate(logits, i);
    } else {
      assert forall i | i in some :: i in top;
      assert Elements(top) == some + (Elements(top) - some);
      ElementsAtMost(top);
    }
  }

  // ---- Sampling methods -----------------------------------------------------

  datatype SamplingMethod = UseGreedy | UseTopK | UseTopP | UseTemperature

  /** The loop over the cumulative probabilities: `reached(i)` says whether the draw is at most
      their sum up to `i`. The first such index, else the last; without logits `n - 1` wraps. */
  ghost predicate IsDrawn(reached: nat -> bool, n: nat, token: nat) {
    if exists i: nat :: i < n && reached(i) then token < n && reached(token) && forall i: nat | i < token :: !reached(i)
    else token == if n == 0 then 0xFFFF_FFFF else n - 1
  }

  /** sample_temperature. `reached` stands for the random draw against the softmax of the
      logits; `allocOk` says whether the buffer could be allocated. */
  method SampleTemperature(logits: seq<Logit>, temperature: real, reached: nat -> bool, allocOk: bool)
    returns (token: nat)
    ensures temperature <= 0.0 || !allocOk ==> IsGreedy(logits, |logits|, token)
    ensures temperature > 0.0 && allocOk ==> IsDrawn(reached, |logits|, token)
    ensures logits != [] ==> token < |logits|
  {
    if temperature <= 0.0 {
      token := SampleGreedy(logits);
      return;
    }
    if !allocOk {
      token := SampleGreedy(logits);
      return;
    }
    token := if |logits| == 0 then 0xFFFF_FFFF else |logits| - 1;
    var i := 0;
    while i < |logits|
      invariant 0 <= i <= |logits|
      invariant forall j: nat | j < i :: !reached(j)
    {
      if reached(i) {
        token := i;
        return;
      }
      i := i + 1;
    }
  }

  /** The greedy choice from a descending list is its first place. */
  lemma {:induction false} GreedyOfDescending(vals: seq<Logit>, g: int)
    requires Descending(vals) && IsGreedy(vals, |vals|, g)
    ensures g == 0
  {
    forall j | IsCandidate(vals, j) ensures IsCandidate(vals, 0) {
      assert j > 0 ==> !Gt(vals[j], vals[0]);
    }
    assert forall b | 0 < b < |vals| :: !Gt(vals[b], vals[0]);
  }

  lemma {:induction false} FirstOfTopIsGreedy(logits: seq<Logit>, k: nat, top: seq<int>, vals: seq<Logit>,
                                              idxs: seq<int>)
    requires k == |vals| > 0 && IsTopK(logits, |logits|, k, top) && Holds(logits, top, vals, idxs)
    ensures IsGreedy(logits, |logits|, idxs[0])
  {
    if top != [] {
      forall c | c < |logits| && c != top[0] && IsCandidate(logits, c) ensures Before(logits, top[0], c) {
        if c in top {
          var a :| 0 <= a < |top| && top[a] == c;
          assert Before(logits, top[0], top[a]);
        }
      }
      assert IsCandidate(logits, top[0]);
    }
  }

  /** The entry of the first `k` candidates at the drawn position; beyond their end the list is
      padded with index 0. */
  ghost predicate IsDrawnFromTop(logits: seq<Logit>, k: nat, reached: nat -> bool, token: int) {
    exists top: seq<int>, position: nat ::
      && IsTopK(logits, |logits|, k, top) && IsDrawn(reached, k, position)
      && token == if position < |top| then top[position] else 0
  }

  /** sample_top_k. `topOk` says whether its own two buffers could be allocated, `allocOk` whether
      the one inside sample_temperature could. */
  method SampleTopK(logits: seq<Logit>, k: nat, temperature: real, reached: nat -> bool, topOk: bool, allocOk: bool)
    returns (token: int)
    ensures temperature <= 0.0 || !allocOk || (0 < k < |logits| && !topOk) ==> IsGreedy(logits, |logits|, token)
    ensures temperature > 0.0 && allocOk && 0 < k < |logits| && topOk ==> IsDrawnFromTop(logits, k, reached, token)
    ensures temperature > 0.0 && allocOk && (k == 0 || k >= |logits|) ==>
              token >= 0 && IsDrawn(reached, |logits|, token)
    ensures logits != [] ==> 0 <= token < |logits|
  {
    if k == 0 || k >= |logits| {
      token := SampleTemperature(logits, temperature, reached, allocOk);
      return;
    }
    if !topOk {
      token := SampleGreedy(logits);
      return;
    }
    var vals, idxs;
    ghost var top;
    vals, idxs, top := TopKScan(logits, k);
    HoldsDescending(logits, |logits|, k, top, vals[..], idxs[..]);
    FirstOfTopIsGreedy(logits, k, top, vals[..], idxs[..]);
    var result := SampleTemperature(vals[..], temperature, reached, allocOk);
    if temperature <= 0.0 || !allocOk {
      GreedyOfDescending(vals[..], result);
    }
    var pick := if result < k then result else 0;
    token := idxs[pick];
    assert token == if result < |top| then top[result] else 0;
  }

  /** sample_token. At temperature zero or below, and when sample_temperature gets no memory, every
      method returns the greedy token; above it temperature and top-p return the index drawn from
      all logits, top-k the one drawn from the first `k` candidates. */
  method SampleToken(logits: seq<Logit>, how: SamplingMethod, k: nat, p: real, temperature: real, reached: nat -> bool,
                     topOk: bool, allocOk: bool)
    returns (token: int)
    ensures temperature <= 0.0 || how == UseGreedy || !allocOk ==> IsGreedy(logits, |logits|, token)
    ensures temperature > 0.0 && allocOk && (how == UseTemperature || how == UseTopP) ==>
              token >= 0 && IsDrawn(reached, |logits|, token)
    ensures temperature > 0.0 && allocOk && how == UseTopK ==>
              if k == 0 || k >= |logits| then token >= 0 && IsDrawn(reached, |logits|, token)
              else if topOk then IsDrawnFromTop(logits, k, reached, token)
              else IsGreedy(logits, |logits|, token)
    ensures logits != [] ==> 0 <= token < |logits|
  {
    match how
    case UseGreedy =>
      token := SampleGreedy(logits);
    case UseTemperature =>
      token := SampleTemperature(logits, temperature, reached, allocOk);
    case UseTopK =>
      token := SampleTopK(logits, k, temperature, reached, topOk, allocOk);
    case UseTopP =>
      token := SampleTemperature(logits, temperature, reached, allocOk);
  }

  /** The draw decides the token. */
  lemma {:induction false} DrawnUnique(reached: nat -> bool, n: nat, a: nat, b: nat)
    requires IsDrawn(reached, n, a) && IsDrawn(reached, n, b)
    ensures a == b
  {
    if i: nat :| i < n && reached(i) {
      assert !(a < b) && !(b < a);
    }
  }
}
