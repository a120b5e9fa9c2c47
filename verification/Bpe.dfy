/** Byte-pair encoding on sequences: the leftmost-lowest-rank merging of the eBPF
    program, the rank-ordered sweep of the reference tokenizer, and their equality. */
module Bpe {

  import opened Common

  datatype MergeVal = MergeVal(merged: Token, priority: nat)

  /** The BPF hash map: (left, right) to merged token and rank. */
  type MergeTable = map<(Token, Token), MergeVal>

  /** One entry of the reference tokenizer's merge list. */
  datatype Merge = Merge(left: Token, right: Token, result: Token, priority: nat)

  /** The scan starts from rank `~0U` and accepts only smaller ranks. */
  const NO_PRIORITY: nat := 0xFFFF_FFFF

  predicate Mergeable(t: MergeTable, s: seq<Token>, i: int) {
    && 0 <= i < |s| - 1
    && (s[i], s[i + 1]) in t
    && t[(s[i], s[i + 1])].priority < NO_PRIORITY
  }

  function Rank(t: MergeTable, s: seq<Token>, i: int): nat
    requires Mergeable(t, s, i)
  {
    t[(s[i], s[i + 1])].priority
  }

  /** The scan passes over pairs of rank 2^32 - 1 and over no others. */
  lemma {:induction false} OnlyTopRankIgnored(t: MergeTable, l: Token, r: Token)
    ensures Best(t, [l, r], 2) == 0 <==> (l, r) in t && t[(l, r)].priority < 0xFFFF_FFFF
    ensures (l, r) !in t || t[(l, r)].priority >= 0xFFFF_FFFF ==> Best(t, [l, r], 2) == -1
  {
    assert Best(t, [l, r], 1) == if Mergeable(t, [l, r], 0) then 0 else -1;
    assert !Mergeable(t, [l, r], 1);
  }

  /** Position `p` holds the leftmost pair of lowest rank among the pairs before `n`. */
  ghost predicate IsBestBelow(t: MergeTable, s: seq<Token>, n: int, p: int) {
    && p < n
    && Mergeable(t, s, p)
    && forall i | i < n && Mergeable(t, s, i) ::
         && Rank(t, s, p) <= Rank(t, s, i)
         && (i < p ==> Rank(t, s, p) < Rank(t, s, i))
  }

  /** Nothing can be merged before position `n`. */
  ghost predicate NoneBelow(t: MergeTable, s: seq<Token>, n: int) {
    forall i | i < n :: !Mergeable(t, s, i)
  }

  /** Nothing can be merged anywhere. */
  ghost predicate Stuck(t: MergeTable, s: seq<Token>) {
    NoneBelow(t, s, |s|)
  }

  /** The position the scan ends with, or -1. */
  ghost function Best(t: MergeTable, s: seq<Token>, n: nat): (p: int)
    ensures p < 0 ==> p == -1 && NoneBelow(t, s, n)
    ensures p >= 0 ==> IsBestBelow(t, s, n, p)
  {
    if n == 0 then -1
    else
      var p := Best(t, s, n - 1);
      if Mergeable(t, s, n - 1) && (p < 0 || Rank(t, s, n - 1) < Rank(t, s, p)) then n - 1 else p
  }

  /** Replaces the pair at `p` by its merged token. */
  function MergeAt(t: MergeTable, s: seq<Token>, p: int): (r: seq<Token>)
    requires Mergeable(t, s, p)
    ensures |r| == |s| - 1
  {
    s[..p] + [t[(s[p], s[p + 1])].merged] + s[p + 2..]
  }

  /** At most `passes` merges, each of the leftmost pair of lowest rank. */
  ghost function Merged(t: MergeTable, s: seq<Token>, passes: nat): seq<Token>
    decreases passes
  {
    var p := Best(t, s, |s|);
    if passes == 0 || p < 0 then s else Merged(t, MergeAt(t, s, p), passes - 1)
  }

  /** How many merges it takes until nothing can be merged. */
  ghost function MergesNeeded(t: MergeTable, s: seq<Token>): nat
    decreases |s|
  {
    var p := Best(t, s, |s|);
    if p < 0 then 0 else 1 + MergesNeeded(t, MergeAt(t, s, p))
  }

  /** Merging until nothing is left to merge. */
  ghost function FullyMerged(t: MergeTable, s: seq<Token>): seq<Token> {
    Merged(t, s, MergesNeeded(t, s))
  }

  // ---- The pass bound -------------------------------------------------------

  /** Each pass removes one token until no pair is left: the run ends stuck, or after
      exactly `passes` merges. */
  lemma {:induction false} PassesOrStuck(t: MergeTable, s: seq<Token>, passes: nat)
    ensures MergesNeeded(t, s) <= passes ==>
              Stuck(t, Merged(t, s, passes)) && Merged(t, s, passes) == FullyMerged(t, s)
    ensures MergesNeeded(t, s) > passes ==> !Stuck(t, Merged(t, s, passes))
    ensures |Merged(t, s, passes)| ==
            |s| - (if MergesNeeded(t, s) <= passes then MergesNeeded(t, s) else passes)
    decreases passes
  {
    var p := Best(t, s, |s|);
    if p >= 0 && passes > 0 {
      PassesOrStuck(t, MergeAt(t, s, p), passes - 1);
    } else if p >= 0 {
      assert Mergeable(t, s, p);
    }
  }

  /** A sequence of `n` tokens needs fewer than `n` merges. */
  lemma {:induction false} FewerMergesThanTokens(t: MergeTable, s: seq<Token>)
    ensures MergesNeeded(t, s) < |s| || |s| == MergesNeeded(t, s) == 0
    decreases |s|
  {
    var p := Best(t, s, |s|);
    if p >= 0 {
      FewerMergesThanTokens(t, MergeAt(t, s, p));
    }
  }

  // ---- The reference sweep --------------------------------------------------

  /** One left-to-right sweep that merges non-overlapping occurrences of one pair. */
  function Sweep(m: Merge, s: seq<Token>): (r: seq<Token>)
    ensures |r| <= |s|
  {
    if |s| < 2 then s
    else if s[0] == m.left && s[1] == m.right then [m.result] + Sweep(m, s[2..])
    else [s[0]] + Sweep(m, s[1..])
  }

  /** The sweeps for `ms[k..]`, in list order. */
  function SweepFrom(ms: seq<Merge>, k: nat, s: seq<Token>): (r: seq<Token>)
    requires k <= |ms|
    ensures |r| <= |s|
    decreases |ms| - k
  {
    if k == |ms| then s else SweepFrom(ms, k + 1, Sweep(ms[k], s))
  }

  /** The merge list and the hash map describe the same merges; the list is in rank
      order; and no merge produces an operand of itself or of an earlier merge. */
  ghost predicate WellFormed(t: MergeTable, ms: seq<Merge>) {
    && (forall k | 0 <= k < |ms| :: Listed(t, ms[k]))
    && (forall l, r {:trigger InList(ms, l, r)} | (l, r) in t :: InList(ms, l, r))
    && (forall j, k | 0 <= j < k < |ms| :: ms[j].priority < ms[k].priority)
    && (forall j, k | 0 <= k <= j < |ms| :: !IsOperand(ms[k], ms[j].result))
  }

  predicate Listed(t: MergeTable, m: Merge) {
    && (m.left, m.right) in t
    && t[(m.left, m.right)] == MergeVal(m.result, m.priority)
    && m.priority < NO_PRIORITY
  }

  predicate IsPair(m: Merge, l: Token, r: Token) { m.left == l && m.right == r }

  ghost predicate InList(ms: seq<Merge>, l: Token, r: Token) {
    exists k :: 0 <= k < |ms| && IsPair(ms[k], l, r)
  }

  predicate IsOperand(m: Merge, x: Token) { x == m.left || x == m.right }

  /** The pair of `m` stands at position `i`. */
  predicate Occurs(m: Merge, s: seq<Token>, i: int) {
    0 <= i < |s| - 1 && IsPair(m, s[i], s[i + 1])
  }

  /** No pair of the first `k` merges occurs in `s`. */
  ghost predicate Clear(ms: seq<Merge>, k: int, s: seq<Token>)
    requires k <= |ms|
  {
    forall j, i | 0 <= j < k :: !Occurs(ms[j], s, i)
  }

  ghost predicate FirstAt(m: Merge, s: seq<Token>, p: int) {
    Occurs(m, s, p) && forall i | i < p :: !Occurs(m, s, i)
  }

  /** A sweep finds nothing exactly when its pair does not occur. */
  lemma {:induction false} SweepWithoutPair(m: Merge, s: seq<Token>)
    requires forall i :: !Occurs(m, s, i)
    ensures Sweep(m, s) == s
  {
    if |s| >= 2 {
      assert !Occurs(m, s, 0);
      forall i ensures !Occurs(m, s[1..], i) {
        assert !Occurs(m, s, i + 1);
      }
      SweepWithoutPair(m, s[1..]);
    }
  }

  /** Merging the first occurrence beforehand does not change what a sweep returns. */
  lemma {:induction false} SweepAbsorbsFirst(m: Merge, s: seq<Token>, p: int)
    requires FirstAt(m, s, p) && !IsOperand(m, m.result)
    ensures Sweep(m, s[..p] + [m.result] + s[p + 2..]) == Sweep(m, s)
    decreases p
  {
    var s' := s[..p] + [m.result] + s[p + 2..];
    if p == 0 {
      assert s'[1..] == s[2..];
    } else {
      assert !Occurs(m, s, 0);
      assert Occurs(m, s[1..], p - 1);
      forall i | i < p - 1 ensures !Occurs(m, s[1..], i) {
        assert !Occurs(m, s, i + 1);
      }
      SweepAbsorbsFirst(m, s[1..], p - 1);
      assert s'[1..] == s[1..][..p - 1] + [m.result] + s[1..][p + 1..];
    }
  }

  /** Merging an occurrence of merge `k` brings back no earlier pair. */
  lemma {:induction false} MergeKeepsClear(t: MergeTable, ms: seq<Merge>, k: nat, s: seq<Token>, p: int)
    requires WellFormed(t, ms) && k < |ms| && Clear(ms, k, s) && Occurs(ms[k], s, p)
    ensures Mergeable(t, s, p) && MergeAt(t, s, p) == s[..p] + [ms[k].result] + s[p + 2..]
    ensures Clear(ms, k, MergeAt(t, s, p))
  {
    assert Listed(t, ms[k]);
    var s' := MergeAt(t, s, p);
    forall j, i | 0 <= j < k
      ensures !Occurs(ms[j], s', i)
    {
      assert !IsOperand(ms[j], ms[k].result);
      assert !Occurs(ms[j], s, i) && !Occurs(ms[j], s, i + 1);
    }
  }

  /** When the earlier pairs are gone, the scan picks the first occurrence of merge `k`. */
  lemma {:induction false} ScanPicksFirst(t: MergeTable, ms: seq<Merge>, k: nat, s: seq<Token>, p: int)
    requires WellFormed(t, ms) && k < |ms| && Clear(ms, k, s) && FirstAt(ms[k], s, p)
    ensures Best(t, s, |s|) == p
  {
    assert Listed(t, ms[k]);
    assert Mergeable(t, s, p);
    var b := Best(t, s, |s|);
    assert Mergeable(t, s, b);
    assert InList(ms, s[b], s[b + 1]);
    var j :| 0 <= j < |ms| && IsPair(ms[j], s[b], s[b + 1]);
    assert Listed(t, ms[j]);
    assert Occurs(ms[j], s, b);
    assert j <= k;
  }

  ghost function FirstOccurrence(m: Merge, s: seq<Token>, n: nat): (p: int)
    ensures p < 0 ==> forall i | i < n :: !Occurs(m, s, i)
    ensures p >= 0 ==> p < n && FirstAt(m, s, p)
  {
    if n == 0 then -1
    else
      var p := FirstOccurrence(m, s, n - 1);
      if p >= 0 then p else if Occurs(m, s, n - 1) then n - 1 else -1
  }

  lemma {:induction false} MergedEqualsSweepFrom(t: MergeTable, ms: seq<Merge>, k: nat, s: seq<Token>)
    requires WellFormed(t, ms) && k <= |ms| && Clear(ms, k, s)
    ensures FullyMerged(t, s) == SweepFrom(ms, k, s)
    decreases |ms| - k, |s|
  {
    if k == |ms| {
      forall i ensures !Mergeable(t, s, i) {
        if Mergeable(t, s, i) {
          assert InList(ms, s[i], s[i + 1]);
          var j :| 0 <= j < |ms| && IsPair(ms[j], s[i], s[i + 1]);
          assert Occurs(ms[j], s, i);
        }
      }
      assert Best(t, s, |s|) == -1;
    } else {
      var p := FirstOccurrence(ms[k], s, |s|);
      if p < 0 {
        SweepWithoutPair(ms[k], s);
        MergedEqualsSweepFrom(t, ms, k + 1, s);
      } else {
        ScanPicksFirst(t, ms, k, s, p);
        MergeKeepsClear(t, ms, k, s, p);
        MergedEqualsSweepFrom(t, ms, k, MergeAt(t, s, p));
        assert !IsOperand(ms[k], ms[k].result);
        SweepAbsorbsFirst(ms[k], s, p);
      }
    }
  }

  /** The two tokenizers agree: for every well-formed merge table and every token
      sequence, `passes` leftmost-lowest-rank merges give what the rank-ordered sweeps
      give if and only if that many merges are enough. */
  lemma {:induction false} MergedEqualsSweepIff(t: MergeTable, ms: seq<Merge>, s: seq<Token>, passes: nat)
    requires WellFormed(t, ms)
    ensures Merged(t, s, passes) == SweepFrom(ms, 0, s) <==> MergesNeeded(t, s) <= passes
    ensures MergesNeeded(t, s) == |s| - |SweepFrom(ms, 0, s)|
  {
    MergedEqualsSweepFrom(t, ms, 0, s);
    PassesOrStuck(t, s, passes);
    PassesOrStuck(t, s, MergesNeeded(t, s));
  }

  // ---- Bytes ----------------------------------------------------------------

  /** The bytes a token sequence stands for. */
  function Expand(expansion: Token -> seq<nat>, s: seq<Token>): seq<nat> {
    if s == [] then [] else expansion(s[0]) + Expand(expansion, s[1..])
  }

  /** Every merged token expands to what its two operands expand to. */
  ghost predicate TableAgrees(t: MergeTable, expansion: Token -> seq<nat>) {
    forall l, r | (l, r) in t :: expansion(t[(l, r)].merged) == expansion(l) + expansion(r)
  }

  lemma {:induction false} ExpandConcat(expansion: Token -> seq<nat>, a: seq<Token>, b: seq<Token>)
    ensures Expand(expansion, a + b) == Expand(expansion, a) + Expand(expansion, b)
  {
    if a == [] {
      assert a + b == b;
    } else {
      ExpandConcat(expansion, a[1..], b);
      assert (a + b)[1..] == a[1..] + b;
      Associate(expansion(a[0]), Expand(expansion, a[1..]), Expand(expansion, b));
    }
  }

  lemma {:induction false} Associate(x: seq<nat>, y: seq<nat>, z: seq<nat>)
    ensures x + (y + z) == (x + y) + z
  {
  }

  lemma {:induction false} MergeAtPreservesBytes(t: MergeTable, expansion: Token -> seq<nat>, s: seq<Token>, p: int)
    requires TableAgrees(t, expansion) && Mergeable(t, s, p)
    ensures Expand(expansion, MergeAt(t, s, p)) == Expand(expansion, s)
  {
    var l, r, x := s[p], s[p + 1], t[(s[p], s[p + 1])].merged;
    assert expansion(x) == expansion(l) + expansion(r);
    assert s == s[..p] + ([l, r] + s[p + 2..]);
    assert MergeAt(t, s, p) == s[..p] + ([x] + s[p + 2..]);
    ExpandConcat(expansion, s[..p], [l, r] + s[p + 2..]);
    ExpandConcat(expansion, s[..p], [x] + s[p + 2..]);
    ExpandConcat(expansion, [l, r], s[p + 2..]);
    ExpandConcat(expansion, [x], s[p + 2..]);
    ExpandConcat(expansion, [l], [r]);
    assert [l] + [r] == [l, r];
  }

  /** Merging never changes the bytes a sequence stands for. */
  lemma {:induction false} MergedPreservesBytes(t: MergeTable, expansion: Token -> seq<nat>, s: seq<Token>, passes: nat)
    requires TableAgrees(t, expansion)
    ensures Expand(expansion, Merged(t, s, passes)) == Expand(expansion, s)
    decreases passes
  {
    var p := Best(t, s, |s|);
    if p >= 0 && passes > 0 {
      MergeAtPreservesBytes(t, expansion, s, p);
      MergedPreservesBytes(t, expansion, MergeAt(t, s, p), passes - 1);
    }
  }

  /** The merge list that the benchmark builds: "He", "ll", "lo". */
  predicate IsBenchmarkTable(t: MergeTable, ms: seq<Merge>) {
    && ms == [Merge(72, 101, 256, 0), Merge(108, 108, 257, 1), Merge(108, 111, 258, 2)]
    && t.Keys == {(72, 101), (108, 108), (108, 111)}
    && Listed(t, ms[0]) && Listed(t, ms[1]) && Listed(t, ms[2])
  }

  lemma {:induction false} BenchmarkTableIsWellFormed(t: MergeTable, ms: seq<Merge>)
    requires IsBenchmarkTable(t, ms)
    ensures WellFormed(t, ms)
  {
    forall l, r | (l, r) in t ensures InList(ms, l, r) {
      assert IsPair(ms[0], l, r) || IsPair(ms[1], l, r) || IsPair(ms[2], l, r);
    }
  }

  function Repeated(x: Token, n: nat): (s: seq<Token>)
    ensures |s| == n && forall i | 0 <= i < n :: s[i] == x
  {
    if n == 0 then [] else [x] + Repeated(x, n - 1)
  }

  lemma {:induction false} SweepOfRepeated(m: Merge, x: Token, n: nat)
    requires IsPair(m, x, x)
    ensures Sweep(m, Repeated(x, 2 * n)) == Repeated(m.result, n)
  {
    if n > 0 {
      SweepOfRepeated(m, x, n - 1);
      assert Repeated(x, 2 * n)[2..] == Repeated(x, 2 * (n - 1));
    }
  }

  /** The benchmark's sweeps halve an even run of the letter l. */
  lemma {:induction false} BenchmarkSweepsOfL(t: MergeTable, ms: seq<Merge>, n: nat)
    requires IsBenchmarkTable(t, ms)
    ensures SweepFrom(ms, 0, Repeated(108, 2 * n)) == Repeated(257, n)
  {
    SweepWithoutPair(ms[0], Repeated(108, 2 * n));
    SweepOfRepeated(ms[1], 108, n);
    SweepWithoutPair(ms[2], Repeated(257, n));
    assert SweepFrom(ms, 3, Repeated(257, n)) == Repeated(257, n);
    assert SweepFrom(ms, 2, Repeated(257, n)) == Repeated(257, n);
    assert SweepFrom(ms, 1, Repeated(108, 2 * n)) == Repeated(257, n);
  }

  /** The order condition on results is needed: here merge 1 produces an operand of
      merge 0. The scan then merges 1 and 2 as well; the sweep for that pair is over. */
  lemma {:induction false} ResultOrderIsNeeded(t: MergeTable, ms: seq<Merge>)
    requires ms == [Merge(1, 2, 9, 0), Merge(3, 4, 1, 1)]
    requires t.Keys == {(1, 2), (3, 4)} && Listed(t, ms[0]) && Listed(t, ms[1])
    ensures FullyMerged(t, [3, 4, 2]) == [9]
    ensures SweepFrom(ms, 0, [3, 4, 2]) == [1, 2]
  {
    assert Mergeable(t, [3, 4, 2], 0) && !Mergeable(t, [3, 4, 2], 1);
    assert MergeAt(t, [3, 4, 2], 0) == [1, 2] && Best(t, [3, 4, 2], 3) == 0;
    assert MergeAt(t, [1, 2], 0) == [9] && Best(t, [1, 2], 2) == 0;
    assert Best(t, [9], 1) == -1;
    calc {
      FullyMerged(t, [3, 4, 2]);
      FullyMerged(t, [1, 2]);
      FullyMerged(t, [9]);
      [9];
    }
    SweepWithoutPair(ms[0], [3, 4, 2]);
    assert [3, 4, 2][2..] == [2];
    assert Sweep(ms[1], [3, 4, 2]) == [1, 2];
    assert SweepFrom(ms, 2, [1, 2]) == SweepFrom(ms, 1, [3, 4, 2]);
  }
}
