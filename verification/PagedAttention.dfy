/** The GPU paged attention kernel, one warp simulated in lockstep, and the scalar
    two-pass attention it is compared with. */
module PagedAttention {
  import opened Bits
  import opened WarpDot
  import opened Softmax

  /** Tokens per page. */
  const BLOCK_SIZE: nat := 128

  /** One page of the KV cache; an entry that is not valid (or has no pointer) is skipped. */
  datatype Block = Block(valid: bool, keys: seq<seq<real>>, values: seq<seq<real>>)

  ghost predicate BlockOk(b: Block, dim: nat) {
    && |b.keys| == |b.values| == BLOCK_SIZE
    && (forall t | 0 <= t < BLOCK_SIZE :: |b.keys[t]| == dim && |b.values[t]| == dim)
  }

  /** A key and a value vector. */
  datatype KvToken = KvToken(key: seq<real>, value: seq<real>)

  ghost predicate TokensOk(ts: seq<KvToken>, dim: nat) {
    forall i | 0 <= i < |ts| :: |ts[i].key| == dim && |ts[i].value| == dim
  }

  /** How many tokens of block `b` belong to the sequence. */
  function BlockTokens(seqLen: nat, b: nat): nat
    requires b * 128 <= seqLen
  {
    if seqLen - b * 128 < 128 then seqLen - b * 128 else 128
  }

  function NumBlocks(seqLen: nat): nat { (seqLen + 127) / 128 }

  /** The tokens the first `n` blocks contribute, skipping invalid ones. */
  ghost function Scored(blocks: seq<Block>, seqLen: nat, n: nat): (ts: seq<KvToken>)
    requires n <= NumBlocks(seqLen) <= |blocks|
    requires forall b | 0 <= b < |blocks| :: |blocks[b].keys| == |blocks[b].values| == BLOCK_SIZE
  {
    if n == 0 then []
    else
      var before := Scored(blocks, seqLen, n - 1);
      if !blocks[n - 1].valid then before
      else before + Page(blocks[n - 1], BlockTokens(seqLen, n - 1))
  }

  /** The first `count` tokens of a block. */
  ghost function Page(b: Block, count: nat): (ts: seq<KvToken>)
    requires count <= |b.keys| == |b.values|
    ensures |ts| == count
    ensures forall t | 0 <= t < count :: ts[t] == KvToken(b.keys[t], b.values[t])
  {
    if count == 0 then [] else Page(b, count - 1) + [KvToken(b.keys[count - 1], b.values[count - 1])]
  }

  function Score(q: seq<real>, key: seq<real>, scale: real): real
    requires |q| == |key|
  {
    Times(Dot(q, key, 0), scale)
  }

  /** The scaled scores. */
  ghost function Scores(q: seq<real>, ts: seq<KvToken>, scale: real): (xs: seq<real>)
    requires TokensOk(ts, |q|)
    ensures |xs| == |ts|
  {
    if ts == [] then []
    else
      var n := |ts| - 1;
      Scores(q, ts[..n], scale) + [Score(q, ts[n].key, scale)]
  }

  /** Component `d` of every value. */
  ghost function Column(ts: seq<KvToken>, dim: nat, d: nat): (vs: seq<real>)
    requires TokensOk(ts, dim) && d < dim
    ensures |vs| == |ts|
  {
    if ts == [] then []
    else
      var n := |ts| - 1;
      Column(ts[..n], dim, d) + [ts[n].value[d]]
  }

  lemma {:induction false} ScoresAppend(q: seq<real>, ts: seq<KvToken>, t: KvToken, scale: real)
    requires TokensOk(ts, |q|) && |t.key| == |q| && |t.value| == |q|
    ensures TokensOk(ts + [t], |q|)
    ensures Scores(q, ts + [t], scale) == Scores(q, ts, scale) + [Score(q, t.key, scale)]
  {
    assert (ts + [t])[..|ts|] == ts;
    assert (ts + [t])[|ts|] == t;
  }

  lemma {:induction false} ColumnAppend(ts: seq<KvToken>, t: KvToken, dim: nat, d: nat)
    requires TokensOk(ts, dim) && |t.key| == dim && |t.value| == dim && d < dim
    ensures TokensOk(ts + [t], dim)
    ensures Column(ts + [t], dim, d) == Column(ts, dim, d) + [t.value[d]]
  {
    assert (ts + [t])[..|ts|] == ts;
  }

  lemma {:induction false} ScoresAt(q: seq<real>, ts: seq<KvToken>, scale: real, i: nat)
    requires TokensOk(ts, |q|) && i < |ts|
    ensures Scores(q, ts, scale)[i] == Score(q, ts[i].key, scale)
  {
    var n := |ts| - 1;
    if i < n {
      ScoresAt(q, ts[..n], scale, i);
    }
  }

  lemma {:induction false} ColumnAt(ts: seq<KvToken>, dim: nat, d: nat, i: nat)
    requires TokensOk(ts, dim) && d < dim && i < |ts|
    ensures Column(ts, dim, d)[i] == ts[i].value[d]
  {
    var n := |ts| - 1;
    if i < n {
      ColumnAt(ts[..n], dim, d, i);
    }
  }

  // ---- What attention is ----------------------------------------------------

  /** The inner product of the first `n` components. */
  function InnerProduct(q: seq<real>, key: seq<real>, n: nat): real
    requires n <= |q| == |key|
  {
    if n == 0 then 0.0 else InnerProduct(q, key, n - 1) + q[n - 1] * key[n - 1]
  }

  lemma {:induction false} DotSplits(q: seq<real>, key: seq<real>, n: nat)
    requires n <= |q| == |key|
    ensures InnerProduct(q, key, n) + Dot(q, key, n) == Dot(q, key, 0)
  {
    if n > 0 {
      DotSplits(q, key, n - 1);
    }
  }

  function ScaledProduct(q: seq<real>, key: seq<real>, scale: real): real
    requires |q| == |key|
  {
    scale * InnerProduct(q, key, |q|)
  }

  /** Every score is the scale times the inner product of query and key. */
  lemma {:induction false} ScoreIs(q: seq<real>, ts: seq<KvToken>, scale: real, i: nat)
    requires TokensOk(ts, |q|) && i < |ts|
    ensures Scores(q, ts, scale)[i] == scale * InnerProduct(q, ts[i].key, |q|)
    ensures Scores(q, ts, scale)[i] == ScaledProduct(q, ts[i].key, scale)
  {
    ScoresAt(q, ts, scale, i);
    DotSplits(q, ts[i].key, |q|);
  }

  lemma {:induction false} ScoresAre(q: seq<real>, ts: seq<KvToken>, scale: real)
    requires TokensOk(ts, |q|)
    ensures forall i | 0 <= i < |ts| :: Scores(q, ts, scale)[i] == ScaledProduct(q, ts[i].key, scale)
  {
    forall i | 0 <= i < |ts| ensures Scores(q, ts, scale)[i] == ScaledProduct(q, ts[i].key, scale) {
      ScoreIs(q, ts, scale, i);
    }
  }

  /** The sum of `exp(scale * q . k)` over the tokens from `i` on. */
  ghost function Weights(exp: real -> real, q: seq<real>, ts: seq<KvToken>, scale: real, i: nat): real
    requires TokensOk(ts, |q|)
    decreases |ts| - i
  {
    if i >= |ts| then 0.0
    else exp(ScaledProduct(q, ts[i].key, scale)) + Weights(exp, q, ts, scale, i + 1)
  }

  /** The same sum with each term times component `d` of the token's value. */
  ghost function WeightedValues(exp: real -> real, q: seq<real>, ts: seq<KvToken>, scale: real, d: nat, i: nat): real
    requires TokensOk(ts, |q|) && d < |q|
    decreases |ts| - i
  {
    if i >= |ts| then 0.0
    else
      exp(ScaledProduct(q, ts[i].key, scale)) * ts[i].value[d] + WeightedValues(exp, q, ts, scale, d, i + 1)
  }

  /** Component `d` of the attention of `q` to the tokens. */
  ghost predicate IsAttention(exp: real -> real, q: seq<real>, ts: seq<KvToken>, scale: real, d: nat, out: real)
    requires TokensOk(ts, |q|) && d < |q|
  {
    && (ts == [] ==> out == 0.0)
    && (ts != [] ==> && Weights(exp, q, ts, scale, 0) > 0.0
                     && out == WeightedValues(exp, q, ts, scale, d, 0) / Weights(exp, q, ts, scale, 0))
  }

  lemma {:induction false} WeightsAreMass(exp: real -> real, q: seq<real>, ts: seq<KvToken>, scale: real, i: nat)
    requires TokensOk(ts, |q|) && i <= |ts|
    ensures Weights(exp, q, ts, scale, i) == Mass(exp, Scores(q, ts, scale), i)
    decreases |ts| - i
  {
    if i < |ts| {
      ScoreIs(q, ts, scale, i);
      WeightsAreMass(exp, q, ts, scale, i + 1);
    }
  }

  lemma {:induction false} ValuesAreMoment(exp: real -> real, q: seq<real>, ts: seq<KvToken>, scale: real, d: nat,
                                           i: nat)
    requires TokensOk(ts, |q|) && i <= |ts| && d < |q|
    ensures WeightedValues(exp, q, ts, scale, d, i) == Moment(exp, Scores(q, ts, scale), Column(ts, |q|, d), i)
    decreases |ts| - i
  {
    if i < |ts| {
      ScoreIs(q, ts, scale, i);
      ColumnAt(ts, |q|, d, i);
      ValuesAreMoment(exp, q, ts, scale, d, i + 1);
    }
  }

  /** Two-pass attention over the scores is attention. */
  lemma {:induction false} TwoPassIsAttention(exp: real -> real, q: seq<real>, ts: seq<KvToken>, scale: real, d: nat)
    requires IsExp(exp) && TokensOk(ts, |q|) && d < |q|
    ensures IsAttention(exp, q, ts, scale, d, TwoPass(exp, Scores(q, ts, scale), Column(ts, |q|, d)))
  {
    if ts != [] {
      WeightsAreMass(exp, q, ts, scale, 0);
      ValuesAreMoment(exp, q, ts, scale, d, 0);
      TwoPassIsSoftmax(exp, Scores(q, ts, scale), Column(ts, |q|, d));
    }
  }

  /** The component that lane `lane` keeps in register `i`. */
  function Component(lane: nat, i: nat, w: nat): nat { i * w + lane }

  lemma {:induction false} ComponentOf(d: nat, lane: nat, i: nat, w: nat)
    requires lane < w && d == Component(lane, i, w)
    ensures d % w == lane && d / w == i
  {
    ModUnique(d, w, i, lane);
  }

  /** Lane 0 scales its registers. */
  method Rescale(regs: seq<real>, correction: real) returns (r: seq<real>)
    ensures |r| == |regs| && forall i | 0 <= i < |r| :: r[i] == regs[i] * correction
  {
    r := [];
    for i := 0 to |regs|
      invariant |r| == i && forall j | 0 <= j < i :: r[j] == regs[j] * correction
    {
      r := r + [regs[i] * correction];
    }
  }

  /** What lane `tid` adds to register `i`. */
  function Share(tid: nat, i: nat, w: nat, weight: real, v: seq<real>, old_: real): real {
    if Component(tid, i, w) < |v| then old_ + weight * v[Component(tid, i, w)] else old_
  }

  /** Lane `tid` adds the weighted value to the components it keeps. */
  method AddValue(regs: seq<real>, tid: nat, w: nat, weight: real, v: seq<real>) returns (r: seq<real>)
    requires tid < w
    ensures |r| == |regs| && forall i | 0 <= i < |r| :: r[i] == Share(tid, i, w, weight, v, regs[i])
  {
    r := regs;
    var d := tid;
    ghost var n: nat := 0;
    while d < |v|
      invariant d == Component(tid, n, w) && |r| == |regs|
      invariant forall i | 0 <= i < |r| :: r[i] == if i < n then Share(tid, i, w, weight, v, regs[i]) else regs[i]
      invariant forall i | 0 <= i < n :: Component(tid, i, w) < |v|
      decreases |v| - d
    {
      ComponentOf(d, tid, n, w);
      var idx := d / w;
      if idx < |r| {
        r := r[idx := r[idx] + weight * v[d]];
      }
      d := d + w;
      n := n + 1;
    }
    BeyondEnd(tid, n, w, |r|, |v|);
  }

  lemma {:induction false} BeyondEnd(tid: nat, n: nat, w: nat, regs: nat, dim: nat)
    requires Component(tid, n, w) >= dim
    ensures forall i | n <= i < regs :: Component(tid, i, w) >= dim
  {
    forall i | n <= i < regs ensures Component(tid, i, w) >= dim {
      assert (i - n) * w >= 0;
    }
  }

  /** After the tokens `ts`, the warp holds the online recurrence of every component it
      keeps: the broadcast maximum `m`, lane 0's sum `z`, and each lane's registers. */
  ghost predicate WarpHolds(exp: real -> real, q: seq<real>, ts: seq<KvToken>, scale: real,
                            acc: seq<seq<real>>, regs: nat, m: real, z: real)
    requires TokensOk(ts, |q|)
  {
    var xs := Scores(q, ts, scale);
    && m == RunMax(xs)
    && z == OnlineSum(exp, xs)
    && (forall l | 0 <= l < |acc| :: |acc[l]| == regs)
    && forall l, i | 0 <= l < |acc| && 0 <= i < |acc[l]| :: RegisterHolds(exp, q, ts, xs, l, i, |acc|, acc[l][i])
  }

  ghost predicate RegisterHolds(exp: real -> real, q: seq<real>, ts: seq<KvToken>, xs: seq<real>,
                                l: nat, i: nat, w: nat, a: real)
    requires TokensOk(ts, |q|) && |xs| == |ts|
  {
    var d := Component(l, i, w);
    d < |q| ==> a == OnlineAcc(exp, xs, Column(ts, |q|, d), l == 0)
  }

  lemma {:induction false} RegisterStep(exp: real -> real, q: seq<real>, ts: seq<KvToken>, t: KvToken, xs: seq<real>,
                                        x: real,
                                        l: nat, i: nat, w: nat, a: real, a': real)
    requires TokensOk(ts, |q|) && |t.key| == |q| && |t.value| == |q| && |xs| == |ts| && l < w
    requires RegisterHolds(exp, q, ts, xs, l, i, w, a)
    requires var m, m' := RunMax(xs), RunMax(xs + [x]);
             var c := Component(l, i, w);
             c < |q| ==> a' == NextAcc(exp, a, m, m', x, t.value[c], l == 0)
    ensures TokensOk(ts + [t], |q|)
    ensures RegisterHolds(exp, q, ts + [t], xs + [x], l, i, w, a')
  {
    var c := Component(l, i, w);
    if c < |q| {
      ColumnAppend(ts, t, |q|, c);
      OnlineAppend(exp, xs, Column(ts, |q|, c), x, t.value[c], l == 0);
    }
  }

  /** What one lane does with a scored token: lane 0 rescales, every lane adds its share. */
  method UpdateLane(exp: real -> real, regs: seq<real>, tid: nat, w: nat, m: real, m': real, x: real, v: seq<real>)
    returns (r: seq<real>)
    requires tid < w
    ensures |r| == |regs|
    ensures forall i | 0 <= i < |r| :: Component(tid, i, w) < |v| ==>
              r[i] == NextAcc(exp, regs[i], m, m', x, v[Component(tid, i, w)], tid == 0)
  {
    r := regs;
    if tid == 0 {
      var correction := exp(m - m');
      r := Rescale(r, correction);
    }
    var weight := exp(x - m');
    r := AddValue(r, tid, w, weight, v);
  }

  /** The body of the token loop. */
  method ScoreToken(exp: real -> real, q: seq<real>, ghost ts: seq<KvToken>, t: KvToken, scale: real, k: nat,
                    acc: seq<seq<real>>, regs: nat, m: real, z: real)
    returns (acc': seq<seq<real>>, m': real, z': real)
    requires TokensOk(ts, |q|) && |t.key| == |q| && |t.value| == |q| && |acc| == Pow2(k)
    requires WarpHolds(exp, q, ts, scale, acc, regs, m, z)
    ensures TokensOk(ts + [t], |q|) && |acc'| == |acc|
    ensures WarpHolds(exp, q, ts + [t], scale, acc', regs, m', z')
  {
    ghost var xs := Scores(q, ts, scale);
    var dot := WarpDotProduct(q, t.key, k);
    var score := Times(dot, scale);
    ScoresAppend(q, ts, t, scale);
    OnlineAppend(exp, xs, xs, score, score, true);

    m' := Max(m, score);
    z' := NextSum(exp, z, m, m', score);
    acc' := UpdateLanes(exp, q, ts, t, xs, acc, regs, m, m', score);
  }

  /** All lanes, in lockstep, with the broadcast maximum and weight. */
  method UpdateLanes(exp: real -> real, ghost q: seq<real>, ghost ts: seq<KvToken>, t: KvToken, ghost xs: seq<real>,
                     acc: seq<seq<real>>, regs: nat, m: real, m': real, x: real)
    returns (acc': seq<seq<real>>)
    requires TokensOk(ts, |q|) && |t.key| == |q| && |t.value| == |q| && |xs| == |ts|
    requires m == RunMax(xs) && m' == RunMax(xs + [x])
    requires forall l | 0 <= l < |acc| :: |acc[l]| == regs
    requires forall l, i | 0 <= l < |acc| && 0 <= i < |acc[l]| :: RegisterHolds(exp, q, ts, xs, l, i, |acc|, acc[l][i])
    ensures |acc'| == |acc| && (forall l | 0 <= l < |acc'| :: |acc'[l]| == regs)
    ensures TokensOk(ts + [t], |q|)
    ensures forall l, i | 0 <= l < |acc'| && 0 <= i < |acc'[l]| ::
              RegisterHolds(exp, q, ts + [t], xs + [x], l, i, |acc'|, acc'[l][i])
  {
    acc' := [];
    var tid := 0;
    while tid < |acc|
      invariant 0 <= tid == |acc'| <= |acc|
      invariant forall l | 0 <= l < tid :: |acc'[l]| == regs
      invariant forall l, i | 0 <= l < tid && 0 <= i < |acc'[l]| ::
                  RegisterHolds(exp, q, ts + [t], xs + [x], l, i, |acc|, acc'[l][i])
    {
      var r := UpdateLane(exp, acc[tid], tid, |acc|, m, m', x, t.value);
      forall i | 0 <= i < |r| ensures RegisterHolds(exp, q, ts + [t], xs + [x], tid, i, |acc|, r[i]) {
        RegisterStep(exp, q, ts, t, xs, x, tid, i, |acc|, acc[tid][i], r[i]);
      }
      acc' := acc' + [r];
      tid := tid + 1;
    }
  }

  ghost predicate BlocksOk(blocks: seq<Block>, dim: nat) {
    forall b | 0 <= b < |blocks| :: BlockOk(blocks[b], dim)
  }

  lemma {:induction false} ScoredStep(blocks: seq<Block>, seqLen: nat, b: nat)
    requires b < NumBlocks(seqLen) <= |blocks|
    requires forall i | 0 <= i < |blocks| :: |blocks[i].keys| == |blocks[i].values| == BLOCK_SIZE
    ensures b * 128 <= seqLen && BlockTokens(seqLen, b) <= BLOCK_SIZE
    ensures Scored(blocks, seqLen, b + 1) ==
            if blocks[b].valid then Scored(blocks, seqLen, b) + Page(blocks[b], BlockTokens(seqLen, b))
            else Scored(blocks, seqLen, b)
  {
  }

  /** All registers start at zero. */
  method FreshWarp(ghost exp: real -> real, ghost q: seq<real>, ghost scale: real, k: nat, regs: nat)
    returns (acc: seq<seq<real>>)
    ensures |acc| == Pow2(k) && WarpHolds(exp, q, [], scale, acc, regs, FLOOR, 0.0)
  {
    acc := seq(Pow2(k), _ => seq(regs, _ => 0.0));
  }

  lemma {:induction false} PageStep(before: seq<KvToken>, b: Block, t: nat)
    requires t < |b.keys| == |b.values|
    ensures before + Page(b, t) + [KvToken(b.keys[t], b.values[t])] == before + Page(b, t + 1)
  {
  }

  /** The token loop over one valid page. */
  method ScorePage(exp: real -> real, q: seq<real>, ghost before: seq<KvToken>, b: Block, count: nat, scale: real,
                   k: nat,
                   acc: seq<seq<real>>, regs: nat, m: real, z: real)
    returns (acc': seq<seq<real>>, m': real, z': real)
    requires BlockOk(b, |q|) && count <= BLOCK_SIZE && TokensOk(before, |q|) && |acc| == Pow2(k)
    requires WarpHolds(exp, q, before, scale, acc, regs, m, z)
    ensures TokensOk(before + Page(b, count), |q|) && |acc'| == |acc|
    ensures WarpHolds(exp, q, before + Page(b, count), scale, acc', regs, m', z')
  {
    acc', m', z' := acc, m, z;
    var t := 0;
    assert before + Page(b, 0) == before;
    while t < count
      invariant 0 <= t <= count && |acc'| == |acc|
      invariant TokensOk(before + Page(b, t), |q|)
      invariant WarpHolds(exp, q, before + Page(b, t), scale, acc', regs, m', z')
    {
      var token := KvToken(b.keys[t], b.values[t]);
      acc', m', z' := ScoreToken(exp, q, before + Page(b, t), token, scale, k, acc', regs, m', z');
      PageStep(before, b, t);
      t := t + 1;
    }
  }

  /** The body of the block loop: an invalid page is skipped. */
  method ScoreBlock(exp: real -> real, q: seq<real>, ghost before: seq<KvToken>, b: Block, count: nat, scale: real,
                    k: nat,
                    acc: seq<seq<real>>, regs: nat, m: real, z: real)
    returns (acc': seq<seq<real>>, m': real, z': real, ghost ts: seq<KvToken>)
    requires BlockOk(b, |q|) && count <= BLOCK_SIZE && TokensOk(before, |q|) && |acc| == Pow2(k)
    requires WarpHolds(exp, q, before, scale, acc, regs, m, z)
    ensures ts == if b.valid then before + Page(b, count) else before
    ensures TokensOk(ts, |q|) && |acc'| == |acc| && WarpHolds(exp, q, ts, scale, acc', regs, m', z')
  {
    if !b.valid {
      return acc, m, z, before;
    }
    acc', m', z' := ScorePage(exp, q, before, b, count, scale, k, acc, regs, m, z);
    ts := before + Page(b, count);
  }

  /** What the warp writes for component `d`. */
  ghost function KernelOut(exp: real -> real, q: seq<real>, ts: seq<KvToken>, scale: real, w: nat, regs: nat,
                           d: nat): real
    requires TokensOk(ts, |q|) && d < |q| && w > 0
  {
    if d / w < regs then OnlineOut(exp, Scores(q, ts, scale), Column(ts, |q|, d), d % w == 0) else 0.0
  }

  /** paged_attention_kernel_cuda for one sequence and head: every component is the online
      softmax of the tokens in the valid pages; only lane 0's components are rescaled. */
  method PagedAttentionKernel(exp: real -> real, q: seq<real>, blocks: seq<Block>, seqLen: nat, scale: real,
                              k: nat, regs: nat)
    returns (out: seq<real>, ghost ts: seq<KvToken>)
    requires NumBlocks(seqLen) <= |blocks| && BlocksOk(blocks, |q|)
    ensures |out| == |q| && ts == Scored(blocks, seqLen, NumBlocks(seqLen)) && TokensOk(ts, |q|)
    ensures forall d | 0 <= d < |q| :: out[d] == KernelOut(exp, q, ts, scale, Pow2(k), regs, d)
    ensures IsExp(exp) ==> forall d | 0 <= d < |q| && d % Pow2(k) == 0 && d / Pow2(k) < regs ::
              IsAttention(exp, q, ts, scale, d, out[d])
  {
    var acc := FreshWarp(exp, q, scale, k, regs);
    var m, z := FLOOR, 0.0;
    ts := [];
    var b := 0;
    while b < NumBlocks(seqLen)
      invariant 0 <= b <= NumBlocks(seqLen) && |acc| == Pow2(k)
      invariant ts == Scored(blocks, seqLen, b) && TokensOk(ts, |q|)
      invariant WarpHolds(exp, q, ts, scale, acc, regs, m, z)
    {
      ScoredStep(blocks, seqLen, b);
      acc, m, z, ts := ScoreBlock(exp, q, ts, blocks[b], BlockTokens(seqLen, b), scale, k, acc, regs, m, z);
      b := b + 1;
    }
    out := WriteOut(exp, q, ts, scale, acc, regs, m, z);
    LaneZeroIsRight(exp, q, ts, scale, Pow2(k), regs, out);
  }

  lemma {:induction false} LaneZeroIsRight(exp: real -> real, q: seq<real>, ts: seq<KvToken>, scale: real, w: nat,
                                           regs: nat, out: seq<real>)
    requires TokensOk(ts, |q|) && w > 0 && |out| == |q|
    requires forall d | 0 <= d < |q| :: out[d] == KernelOut(exp, q, ts, scale, w, regs, d)
    ensures IsExp(exp) ==> forall d | 0 <= d < |q| && d % w == 0 && d / w < regs ::
              IsAttention(exp, q, ts, scale, d, out[d])
  {
    if IsExp(exp) {
      forall d | 0 <= d < |q| && d % w == 0 && d / w < regs ensures IsAttention(exp, q, ts, scale, d, out[d]) {
        KernelMatchesScalar(exp, q, ts, scale, w, regs, d);
      }
    }
  }

  /** Normalise and write; a component beyond the registers is written as zero. */
  method WriteOut(ghost exp: real -> real, q: seq<real>, ghost ts: seq<KvToken>, ghost scale: real,
                  acc: seq<seq<real>>, regs: nat, ghost m: real, z: real)
    returns (out: seq<real>)
    requires TokensOk(ts, |q|) && |acc| > 0 && WarpHolds(exp, q, ts, scale, acc, regs, m, z)
    ensures |out| == |q|
    ensures forall d | 0 <= d < |q| :: out[d] == KernelOut(exp, q, ts, scale, |acc|, regs, d)
  {
    out := [];
    var d := 0;
    while d < |q|
      invariant 0 <= d == |out| <= |q|
      invariant forall e | 0 <= e < d :: out[e] == KernelOut(exp, q, ts, scale, |acc|, regs, e)
    {
      var lane, idx := d % |acc|, d / |acc|;
      assert Component(lane, idx, |acc|) == d;
      if idx < regs {
        assert RegisterHolds(exp, q, ts, Scores(q, ts, scale), lane, idx, |acc|, acc[lane][idx]);
        out := out + [Normalise(acc[lane][idx], z)];
      } else {
        out := out + [0.0];
      }
      d := d + 1;
    }
  }

  // ---- Paging ---------------------------------------------------------------

  /** With every page valid, the kernel sees exactly the tokens of the sequence, in order,
      wherever the pages are. */
  lemma {:induction false} PagesInOrder(blocks: seq<Block>, seqLen: nat, n: nat, j: nat)
    requires n <= NumBlocks(seqLen) <= |blocks|
    requires forall b | 0 <= b < |blocks| :: blocks[b].valid && |blocks[b].keys| == |blocks[b].values| == 128
    ensures var ts := Scored(blocks, seqLen, n);
            && |ts| == (if n * 128 < seqLen then n * 128 else seqLen)
            && (j < |ts| ==> ts[j] == KvToken(blocks[j / 128].keys[j % 128],
                                            blocks[j / 128].values[j % 128]))
  {
    if n > 0 {
      PagesInOrder(blocks, seqLen, n - 1, j);
    }
  }

  /** With invalid pages among them, the tokens of a valid page follow those of the valid pages
      before it, and an invalid page adds none. */
  lemma {:induction false} ScoredAt(blocks: seq<Block>, seqLen: nat, n: nat, b: nat, t: nat)
    requires b < n <= NumBlocks(seqLen) <= |blocks| && t < 128 && b * 128 + t < seqLen
    requires forall i | 0 <= i < |blocks| :: |blocks[i].keys| == |blocks[i].values| == 128
    ensures var before := |Scored(blocks, seqLen, b)|;
            var ts := Scored(blocks, seqLen, n);
            && (!blocks[b].valid ==> |Scored(blocks, seqLen, b + 1)| == before)
            && (blocks[b].valid ==>
                  && |Scored(blocks, seqLen, b + 1)| - before ==
                     (if seqLen < b * 128 + 128 then seqLen - b * 128 else 128)
                  && before + t < |ts| && ts[before + t] == KvToken(blocks[b].keys[t], blocks[b].values[t]))
  {
    ScoredStep(blocks, seqLen, n - 1);
    if b < n - 1 {
      ScoredAt(blocks, seqLen, n - 1, b, t);
    }
  }

  // ---- The scalar reference -------------------------------------------------

  /** First pass: the scores and the largest of them. */
  method ScorePass(q: seq<real>, ts: seq<KvToken>, scale: real) returns (scores: array<real>, maxScore: real)
    requires TokensOk(ts, |q|)
    ensures fresh(scores) && scores[..] == Scores(q, ts, scale)
    ensures forall i | 0 <= i < |ts| :: scores[i] == ScaledProduct(q, ts[i].key, scale)
    ensures ts != [] ==> maxScore == MaxScore(scores[..]) && maxScore in scores[..]
    ensures forall i | 0 <= i < scores.Length :: scores[i] <= maxScore
  {
    ghost var xs := Scores(q, ts, scale);
    scores := new real[|ts|];
    maxScore := 0.0;  // stands for minus infinity until the first score
    var si := 0;
    while si < |ts|
      invariant 0 <= si <= |ts|
      invariant forall i | 0 <= i < si :: scores[i] == xs[i]
      invariant si > 0 ==> maxScore == MaxScore(xs[..si])
    {
      var dot := ScalarDot(q, ts[si].key);
      scores[si] := Times(dot, scale);
      ScoresAt(q, ts, scale, si);
      MaxScoreAppend(xs[..si], xs[si]);
      assert xs[..si] + [xs[si]] == xs[..si + 1];
      if si == 0 || scores[si] > maxScore {
        maxScore := scores[si];
      }
      si := si + 1;
    }
    assert xs[..si] == xs;
    ScoresAre(q, ts, scale);
    forall i | 0 <= i < |xs| ensures xs[i] <= MaxScore(xs) && MaxScore(xs) in xs {
      MaxScoreIsLargest(xs, i);
    }
  }

  method ScalarDot(q: seq<real>, key: seq<real>) returns (dot: real)
    requires |q| == |key|
    ensures dot == Dot(q, key, 0)
  {
    dot := 0.0;
    var d := 0;
    while d < |q|
      invariant 0 <= d <= |q| && Dot(q, key, 0) == dot + Dot(q, key, d)
    {
      dot := dot + q[d] * key[d];
      d := d + 1;
    }
  }

  /** The exponentials, in place, and their sum. */
  method ExpPass(exp: real -> real, scores: array<real>, m: real, ghost xs: seq<real>) returns (sum: real)
    requires scores[..] == xs
    modifies scores
    ensures sum == ExpSum(exp, xs, m)
    ensures forall i | 0 <= i < |xs| :: scores[i] == exp(xs[i] - m)
  {
    sum := 0.0;
    var si := 0;
    while si < scores.Length
      invariant 0 <= si <= scores.Length && sum == ExpSum(exp, xs[..si], m)
      invariant forall i | 0 <= i < si :: scores[i] == exp(xs[i] - m)
      invariant forall i | si <= i < scores.Length :: scores[i] == xs[i]
    {
      scores[si] := exp(scores[si] - m);
      sum := sum + scores[si];
      assert xs[..si + 1][..si] == xs[..si];
      si := si + 1;
    }
    assert xs[..si] == xs;
  }

  /** Divides by the sum, in place. */
  method DividePass(scores: array<real>, sum: real)
    requires sum != 0.0
    modifies scores
    ensures forall i | 0 <= i < scores.Length :: scores[i] == old(scores[i]) / sum
  {
    var si := 0;
    while si < scores.Length
      invariant 0 <= si <= scores.Length
      invariant forall i | 0 <= i < si :: scores[i] == old(scores[i]) / sum
      invariant forall i | si <= i < scores.Length :: scores[i] == old(scores[i])
    {
      scores[si] := scores[si] / sum;
      si := si + 1;
    }
  }

  /** Second pass: exponentials, their sum, and the normalised weights. */
  method SoftmaxPass(exp: real -> real, scores: array<real>, m: real, ghost xs: seq<real>) returns (ghost z: real)
    requires IsExp(exp) && scores[..] == xs
    modifies scores
    ensures z == ExpSum(exp, xs, m)
    ensures xs != [] ==> z > 0.0
    ensures forall i | 0 <= i < |xs| :: z != 0.0 && scores[i] == Weight(exp, xs[i], m, z)
  {
    var sum := ExpPass(exp, scores, m, xs);
    ExpSumPositive(exp, xs, m);
    z := sum;
    if scores.Length > 0 {
      DividePass(scores, sum);
    }
  }

  /** One component of the weighted sum of values. */
  method WeightedSum(ghost exp: real -> real, weights: array<real>, ts: seq<KvToken>, dim: nat, d: nat,
                     ghost xs: seq<real>, ghost m: real, ghost z: real)
    returns (acc: real)
    requires TokensOk(ts, dim) && d < dim && weights.Length == |ts| == |xs| && z != 0.0
    requires forall i | 0 <= i < |xs| :: weights[i] == Weight(exp, xs[i], m, z)
    ensures acc == Weighted(exp, xs, Column(ts, dim, d), m, z)
  {
    ghost var vs := Column(ts, dim, d);
    acc := 0.0;
    var si := 0;
    while si < |ts|
      invariant 0 <= si <= |ts|
      invariant acc == Weighted(exp, xs[..si], vs[..si], m, z)
    {
      acc := acc + Times(weights[si], ts[si].value[d]);
      ColumnAt(ts, dim, d, si);
      assert xs[..si + 1][..si] == xs[..si] && vs[..si + 1][..si] == vs[..si];
      si := si + 1;
    }
    assert xs[..si] == xs && vs[..si] == vs;
  }

  /** One turn of the component loop. */
  method ComponentOut(exp: real -> real, weights: array<real>, ts: seq<KvToken>, dim: nat, d: nat,
                      ghost xs: seq<real>, ghost m: real, ghost z: real)
    returns (acc: real)
    requires IsExp(exp) && TokensOk(ts, dim) && d < dim && weights.Length == |ts| == |xs|
    requires xs != [] ==> m == MaxScore(xs) && z == ExpSum(exp, xs, m) && z > 0.0
    requires forall i | 0 <= i < |xs| :: z != 0.0 && weights[i] == Weight(exp, xs[i], m, z)
    ensures acc == TwoPass(exp, xs, Column(ts, dim, d))
  {
    acc := 0.0;
    if ts != [] {
      TwoPassUnfold(exp, xs, Column(ts, dim, d));
      acc := WeightedSum(exp, weights, ts, dim, d, xs, m, z);
    }
  }

  /** attention_scalar for one head and one query. */
  method AttentionScalar(exp: real -> real, q: seq<real>, ts: seq<KvToken>, scale: real) returns (out: seq<real>)
    requires IsExp(exp) && TokensOk(ts, |q|)
    ensures |out| == |q|
    ensures forall d | 0 <= d < |q| :: out[d] == TwoPass(exp, Scores(q, ts, scale), Column(ts, |q|, d))
    ensures forall d | 0 <= d < |q| :: IsAttention(exp, q, ts, scale, d, out[d])
  {
    ghost var xs := Scores(q, ts, scale);
    var scores, m := ScorePass(q, ts, scale);
    ghost var z := SoftmaxPass(exp, scores, m, xs);
    out := Components(exp, scores, ts, |q|, xs, m, z);
    forall d | 0 <= d < |q| ensures IsAttention(exp, q, ts, scale, d, out[d]) {
      TwoPassIsAttention(exp, q, ts, scale, d);
    }
  }

  /** The component loop. */
  method Components(exp: real -> real, weights: array<real>, ts: seq<KvToken>, dim: nat,
                    ghost xs: seq<real>, ghost m: real, ghost z: real)
    returns (out: seq<real>)
    requires IsExp(exp) && TokensOk(ts, dim) && weights.Length == |ts| == |xs|
    requires xs != [] ==> m == MaxScore(xs) && z == ExpSum(exp, xs, m) && z > 0.0
    requires forall i | 0 <= i < |xs| :: z != 0.0 && weights[i] == Weight(exp, xs[i], m, z)
    ensures |out| == dim
    ensures forall d | 0 <= d < dim :: out[d] == TwoPass(exp, xs, Column(ts, dim, d))
  {
    out := [];
    var d := 0;
    while d < dim
      invariant 0 <= d == |out| <= dim
      invariant forall e | 0 <= e < d :: out[e] == TwoPass(exp, xs, Column(ts, dim, e))
    {
      var acc := ComponentOut(exp, weights, ts, dim, d, xs, m, z);
      out := out + [acc];
      d := d + 1;
    }
  }

  /** For any sequence, paging and warp width, the components that lane 0 keeps are those of
      two-pass attention over the tokens in valid pages; so are all others when the first
      scored token has the largest score. */
  lemma {:induction false} KernelMatchesScalar(exp: real -> real, q: seq<real>, ts: seq<KvToken>, scale: real,
                                               w: nat, regs: nat, d: nat)
    requires IsExp(exp) && TokensOk(ts, |q|) && d < |q| && w > 0 && d / w < regs
    requires d % w == 0 || FirstIsLargest(Scores(q, ts, scale))
    ensures KernelOut(exp, q, ts, scale, w, regs, d) == TwoPass(exp, Scores(q, ts, scale), Column(ts, |q|, d))
    ensures IsAttention(exp, q, ts, scale, d, KernelOut(exp, q, ts, scale, w, regs, d))
  {
    TwoPassIsAttention(exp, q, ts, scale, d);
    var xs, vs := Scores(q, ts, scale), Column(ts, |q|, d);
    OnlineEqualsTwoPass(exp, xs, vs);
    if d % w != 0 {
      UnscaledAgrees(exp, xs, vs);
    }
  }

  lemma {:induction false} TwoScores(q: seq<real>, ts: seq<KvToken>, scale: real)
    requires |ts| == 2 && TokensOk(ts, |q|)
    ensures Scores(q, ts, scale) == [Score(q, ts[0].key, scale), Score(q, ts[1].key, scale)]
  {
    ScoresAt(q, ts, scale, 0);
    ScoresAt(q, ts, scale, 1);
  }

  lemma {:induction false} TwoValues(ts: seq<KvToken>, dim: nat, d: nat)
    requires |ts| == 2 && TokensOk(ts, dim) && d < dim
    ensures Column(ts, dim, d) == [ts[0].value[d], ts[1].value[d]]
  {
    ColumnAt(ts, dim, d, 0);
    ColumnAt(ts, dim, d, 1);
  }

  /** With the query (1, 0) the score is the first component of the key. */
  lemma {:induction false} UnitScore(q: seq<real>, key: seq<real>)
    requires q == [1.0, 0.0] && |key| == 2
    ensures Score(q, key, 1.0) == key[0]
  {
    assert Dot(q, key, 2) == 0.0;
    assert Dot(q, key, 1) == 0.0;
    assert Dot(q, key, 0) == key[0];
  }

  /** A sequence of two tokens whose second scores higher: the component that lane 1 of a warp
      of two writes is not that of two-pass attention. */
  lemma {:induction false} KernelDiffersFromScalar(exp: real -> real, q: seq<real>, ts: seq<KvToken>, regs: nat)
    requires IsExp(exp) && Separates(exp) && regs > 0 && q == [1.0, 0.0]
    requires ts == [KvToken([0.0, 0.0], [0.0, 1.0]), KvToken([1.0, 0.0], [0.0, 0.0])]
    ensures TokensOk(ts, |q|)
    ensures KernelOut(exp, q, ts, 1.0, 2, regs, 1) != TwoPass(exp, Scores(q, ts, 1.0), Column(ts, |q|, 1))
  {
    TwoScores(q, ts, 1.0);
    TwoValues(ts, 2, 1);
    UnitScore(q, ts[0].key);
    UnitScore(q, ts[1].key);
    UnscaledWrong(exp, Scores(q, ts, 1.0), Column(ts, 2, 1));
  }
}
