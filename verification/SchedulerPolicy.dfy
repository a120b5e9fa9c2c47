/** What one iteration does to each slot: which prefills run and which requests decode. */
module SchedulerPolicy {
  import opened Bits
  import opened SchedulerSpec

  /** The prompt tokens of the first `p` queued requests. */
  function PromptSum(reqs: seq<Request>, queue: seq<nat>, p: nat): nat
    requires p <= |queue| && Within(queue, |reqs|)
  {
    if p == 0 then 0 else PromptSum(reqs, queue, p - 1) + |reqs[queue[p - 1]].prompt|
  }

  lemma {:induction false} PromptSumFromSecond(reqs: seq<Request>, queue: seq<nat>, p: nat, r: Request)
    requires queue != [] && p < |queue| && Within(queue, |reqs|) && |r.prompt| == |reqs[queue[0]].prompt|
    ensures Within(queue[1..], |reqs|)
    ensures PromptSum(reqs, queue, p + 1) == |reqs[queue[0]].prompt| + PromptSum(reqs[queue[0] := r], queue[1..], p)
    decreases p
  {
    if p > 0 {
      PromptSumFromSecond(reqs, queue, p - 1, r);
    }
  }

  /** With `spent` already used, the first `p` prompts fit the budget and one more does not. */
  predicate Fills(reqs: seq<Request>, queue: seq<nat>, spent: nat, budget: nat, p: nat)
    requires p <= |queue| && Within(queue, |reqs|)
  {
    && spent + PromptSum(reqs, queue, p) <= budget
    && (p < |queue| ==> spent + PromptSum(reqs, queue, p + 1) > budget)
  }

  lemma {:induction false} FillsFromSecond(reqs: seq<Request>, queue: seq<nat>, spent: nat, budget: nat, p: nat,
                                           r: Request)
    requires p < |queue| && Within(queue, |reqs|) && |r.prompt| == |reqs[queue[0]].prompt|
    ensures Within(queue[1..], |reqs|)
    ensures Fills(reqs[queue[0] := r], queue[1..], spent + |r.prompt|, budget, p) <==>
            Fills(reqs, queue, spent, budget, p + 1)
    ensures NoWrap(reqs[queue[0] := r], queue[1..], spent + |r.prompt|, p) <==> NoWrap(reqs, queue, spent, p + 1)
  {
    PromptSumFromSecond(reqs, queue, p, r);
    if p + 1 < |queue| {
      PromptSumFromSecond(reqs, queue, p + 1, r);
    }
  }

  predicate PromptsFit(reqs: seq<Request>, queue: seq<nat>) {
    Within(queue, |reqs|) && forall a | 0 <= a < |queue| :: |reqs[queue[a]].prompt| <= MAX_SEQ_LEN
  }

  /** The pool after the first `p` queued slots, and no others, have been prefilled. */
  function Prefilled(reqs: seq<Request>, queue: seq<nat>, p: nat, o: Oracle): (r: seq<Request>)
    requires p <= |queue| && Within(queue, |reqs|)
    ensures |r| == |reqs|
    decreases p
  {
    if p == 0 then reqs
    else
      var i := queue[0];
      Prefilled(reqs[i := reqs[i].(phase := Decode, target := o.target(i))], queue[1..], p - 1, o)
  }

  lemma {:induction false} PrefilledAt(reqs: seq<Request>, queue: seq<nat>, p: nat, o: Oracle, j: nat)
    requires p <= |queue| && Within(queue, |reqs|) && j < |reqs|
    requires forall a, b | 0 <= a < b < |queue| :: queue[a] < queue[b]
    ensures Prefilled(reqs, queue, p, o)[j] ==
            if j in queue[..p] then reqs[j].(phase := Decode, target := o.target(j)) else reqs[j]
    decreases p
  {
    if p > 0 {
      var i := queue[0];
      PrefilledAt(reqs[i := reqs[i].(phase := Decode, target := o.target(i))], queue[1..], p - 1, o, j);
      assert queue[..p] == [i] + queue[1..][..p - 1];
      assert i !in queue[1..][..p - 1];
      assert j in queue[..p] <==> j == i || j in queue[1..][..p - 1];
    }
  }

  /** Slots outside the queue are not prefilled. */
  lemma {:induction false} PrefillsKeepOthers(cfg: Config, s: Sched, queue: seq<nat>, spent: nat, o: Oracle, j: nat)
    requires QueueOk(s.reqs, Prefill, queue) && Within(queue, |s.reqs|) && j < |s.reqs| && j !in queue
    ensures Prefills(cfg, s, queue, spent, o).reqs[j] == s.reqs[j]
    decreases |queue|
  {
    if queue != [] {
      var i := queue[0];
      var s' := PrefillSlot(s, i, o.target(i));
      QueueTail(s.reqs, Prefill, queue, s'.reqs[i]);
      PrefillsKeepOthers(cfg, s', queue[1..], Wrap32(spent + |s.reqs[i].prompt|), o, j);
    }
  }

  /** The running sum does not wrap around at the first prompt that does not fit. */
  predicate NoWrap(reqs: seq<Request>, queue: seq<nat>, spent: nat, p: nat)
    requires p <= |queue| && Within(queue, |reqs|)
  {
    p < |queue| ==> spent + PromptSum(reqs, queue, p + 1) < TWO_32
  }

  /** There is exactly one longest fitting prefix. */
  lemma {:induction false} LongestFit(reqs: seq<Request>, queue: seq<nat>, budget: nat) returns (p: nat)
    requires Within(queue, |reqs|)
    ensures p <= |queue| && Fills(reqs, queue, 0, budget, p)
  {
    p := 0;
    while p < |queue| && PromptSum(reqs, queue, p + 1) <= budget
      invariant 0 <= p <= |queue| && PromptSum(reqs, queue, p) <= budget
    {
      p := p + 1;
    }
  }

  /** One turn of the loop at a prompt that does not fit: it stops, unless the sum wraps. */
  lemma {:induction false} StopsOrWraps(cfg: Config, s: Sched, queue: seq<nat>, spent: nat, o: Oracle)
    requires queue != [] && QueueOk(s.reqs, Prefill, queue) && PromptsFit(s.reqs, queue)
    requires spent <= cfg.prefillBudget < TWO_32 && spent + |s.reqs[queue[0]].prompt| > cfg.prefillBudget
    ensures Prefills(cfg, s, queue, spent, o).reqs == Prefilled(s.reqs, queue, 0, o) <==>
            spent + |s.reqs[queue[0]].prompt| < TWO_32
  {
    var i := queue[0];
    assert Waits(s.reqs, Prefill, i);
    var sum := spent + |s.reqs[i].prompt|;
    if sum < TWO_32 {
      assert Wrap32(sum) == sum;
    } else {
      assert Wrap32(sum) == sum - TWO_32 <= cfg.prefillBudget;
      var s' := PrefillSlot(s, i, o.target(i));
      QueueTail(s.reqs, Prefill, queue, s'.reqs[i]);
      PrefillsKeepOthers(cfg, s', queue[1..], Wrap32(sum), o, i);
    }
  }

  /** The prefill phase runs exactly the longest prefix of the queue whose prompts fit the
      budget, if and only if the 32-bit sum does not wrap around at the prompt behind it. */
  lemma {:induction false} PrefillsLongestFittingPrefix(cfg: Config, s: Sched, queue: seq<nat>, spent: nat, o: Oracle,
                                                        p: nat)
    requires QueueOk(s.reqs, Prefill, queue) && PromptsFit(s.reqs, queue)
    requires spent <= cfg.prefillBudget < TWO_32
    requires p <= |queue| && Fills(s.reqs, queue, spent, cfg.prefillBudget, p)
    ensures Prefills(cfg, s, queue, spent, o).reqs == Prefilled(s.reqs, queue, p, o) <==>
            NoWrap(s.reqs, queue, spent, p)
    decreases |queue|
  {
    if p == 0 {
      NothingFits(cfg, s, queue, spent, o);
    } else {
      var i := queue[0];
      var s' := PrefillSlot(s, i, o.target(i));
      FirstFits(cfg, s, queue, spent, o, p);
      FillsFromSecond(s.reqs, queue, spent, cfg.prefillBudget, p - 1, s'.reqs[i]);
      PrefillsLongestFittingPrefix(cfg, s', queue[1..], spent + |s.reqs[i].prompt|, o, p - 1);
    }
  }

  lemma {:induction false} NothingFits(cfg: Config, s: Sched, queue: seq<nat>, spent: nat, o: Oracle)
    requires QueueOk(s.reqs, Prefill, queue) && PromptsFit(s.reqs, queue)
    requires spent <= cfg.prefillBudget < TWO_32 && Fills(s.reqs, queue, spent, cfg.prefillBudget, 0)
    ensures Prefills(cfg, s, queue, spent, o).reqs == Prefilled(s.reqs, queue, 0, o) <==>
            NoWrap(s.reqs, queue, spent, 0)
  {
    if queue != [] {
      SumGrows(s.reqs, queue, 1, 1);
      StopsOrWraps(cfg, s, queue, spent, o);
    }
  }

  lemma {:induction false} EqualPrompts(reqs: seq<Request>, queue: seq<nat>, n: nat, p: nat)
    requires Within(queue, |reqs|) && p <= |queue| && forall a | 0 <= a < |queue| :: |reqs[queue[a]].prompt| == n
    ensures PromptSum(reqs, queue, p) == p * n
  {
    if p > 0 {
      EqualPrompts(reqs, queue, n, p - 1);
      assert p * n == (p - 1) * n + n;
    }
  }

  /** A queue on which the sum wraps: the budget is all of 32 bits and 131072 prompts of maximum
      length add up to 2^32. */
  lemma {:induction false} SumWraps(cfg: Config, s: Sched, queue: seq<nat>, o: Oracle)
    requires cfg.prefillBudget == TWO_32 - 1 && QueueOk(s.reqs, Prefill, queue) && |queue| >= 131072
    requires forall a | 0 <= a < |queue| :: |s.reqs[queue[a]].prompt| == MAX_SEQ_LEN
    ensures Within(queue, |s.reqs|) && Fills(s.reqs, queue, 0, cfg.prefillBudget, 131071)
    ensures Prefills(cfg, s, queue, 0, o).reqs != Prefilled(s.reqs, queue, 131071, o)
  {
    EqualPrompts(s.reqs, queue, MAX_SEQ_LEN, 131071);
    EqualPrompts(s.reqs, queue, MAX_SEQ_LEN, 131072);
    PrefillsLongestFittingPrefix(cfg, s, queue, 0, o, 131071);
  }

  /** A first prompt that fits is prefilled and the loop goes on. */
  lemma {:induction false} FirstFits(cfg: Config, s: Sched, queue: seq<nat>, spent: nat, o: Oracle, p: nat)
    requires queue != [] && QueueOk(s.reqs, Prefill, queue) && PromptsFit(s.reqs, queue)
    requires 0 < p <= |queue| && cfg.prefillBudget < TWO_32 && Fills(s.reqs, queue, spent, cfg.prefillBudget, p)
    ensures var i := queue[0];
            var s' := PrefillSlot(s, i, o.target(i));
            var sum := spent + |s.reqs[i].prompt|;
            && sum <= cfg.prefillBudget
            && QueueOk(s'.reqs, Prefill, queue[1..]) && PromptsFit(s'.reqs, queue[1..])
            && Prefills(cfg, s, queue, spent, o) == Prefills(cfg, s', queue[1..], sum, o)
  {
    var i := queue[0];
    SumGrows(s.reqs, queue, 1, p);
    assert Wrap32(spent + |s.reqs[i].prompt|) == spent + |s.reqs[i].prompt|;
    QueueTail(s.reqs, Prefill, queue, s.reqs[i].(phase := Decode, target := o.target(i)));
  }

  lemma {:induction false} SumGrows(reqs: seq<Request>, queue: seq<nat>, a: nat, b: nat)
    requires a <= b <= |queue| && Within(queue, |reqs|)
    ensures PromptSum(reqs, queue, a) <= PromptSum(reqs, queue, b)
    ensures a == 1 ==> PromptSum(reqs, queue, a) == |reqs[queue[0]].prompt|
    decreases b
  {
    if a < b {
      SumGrows(reqs, queue, a, b - 1);
    }
  }

  /** What a decode step makes of one slot, which depends on that slot alone. */
  function DecodedSlot(cfg: Config, r: Request, inf: Infer): Request {
    var (target, next) := Inferred(cfg, r.target, inf);
    if next.None? || next.value == cfg.eos || SeqLen(r) >= MAX_SEQ_LEN then r.(phase := Done, target := target)
    else r.(generated := r.generated + [next.value], target := target)
  }

  /** The decode phase takes every request of the batch exactly one step and leaves the
      other slots alone. */
  lemma {:induction false} DecodesEachOnce(cfg: Config, s: Sched, queue: seq<nat>, o: Oracle, j: nat)
    requires QueueOk(s.reqs, Decode, queue) && Within(queue, |s.reqs|) && j < |s.reqs|
    ensures Decodes(cfg, s, queue, o).reqs[j] ==
            if j in queue then DecodedSlot(cfg, s.reqs[j], o.infer(j)) else s.reqs[j]
    decreases |queue|
  {
    if queue != [] {
      var i := queue[0];
      var s' := DecodeSlot(cfg, s, i, o.infer(i));
      DecodeTouchesOneSlot(cfg, s, i, o.infer(i));
      QueueTail(s.reqs, Decode, queue, s'.reqs[i]);
      DecodesEachOnce(cfg, s', queue[1..], o, j);
      assert i !in queue[1..];
      assert j in queue <==> j == i || j in queue[1..];
    }
  }

  lemma {:induction false} WaitingPromptsFit(s: Sched)
    requires Inv(s)
    ensures PromptsFit(s.reqs, Queue(s.reqs, Prefill, |s.reqs|))
  {
    var q := Queue(s.reqs, Prefill, |s.reqs|);
    forall a | 0 <= a < |q| ensures |s.reqs[q[a]].prompt| <= MAX_SEQ_LEN {
      assert Waits(s.reqs, Prefill, q[a]) && SlotOk(s, q[a]);
    }
  }

  /** One iteration in every run: the prefills of the longest fitting prefix of the waiting
      requests, in slot order, unless the 32-bit sum wraps; then one decode step for at most
      `maxBatch` requests. It cannot wrap for budgets below 2^32 - 32768. */
  lemma {:induction false} IterationPolicy(cfg: Config, run: seq<Sched>, calls: seq<Call>, i: nat, o: Oracle)
    returns (p: nat)
    requires IsRun(cfg, run, calls) && i < |run| && cfg.prefillBudget < TWO_32
    ensures var s := run[i];
            var waiting := Queue(s.reqs, Prefill, |s.reqs|);
            var s1 := AfterPrefills(cfg, s, o);
            var s2 := AfterDecodes(cfg, s1, o);
            && p <= |waiting| && Fills(s.reqs, waiting, 0, cfg.prefillBudget, p)
            && (s1.reqs == Prefilled(s.reqs, waiting, p, o) <==> NoWrap(s.reqs, waiting, 0, p))
            && (cfg.prefillBudget + MAX_SEQ_LEN < TWO_32 ==> NoWrap(s.reqs, waiting, 0, p))
            && |Batch(cfg, s1.reqs)| <= cfg.maxBatch
            && (forall j | 0 <= j < |s1.reqs| ::
                  s2.reqs[j] ==
                  if j in Batch(cfg, s1.reqs) then DecodedSlot(cfg, s1.reqs[j], o.infer(j)) else s1.reqs[j])
  {
    var s := run[i];
    RunKeepsInv(cfg, run, calls, i);
    WaitingPromptsFit(s);
    var waiting := Queue(s.reqs, Prefill, |s.reqs|);
    assert Within(waiting, |s.reqs|) && QueueOk(s.reqs, Prefill, waiting);
    p := LongestFit(s.reqs, waiting, cfg.prefillBudget);
    PrefillsLongestFittingPrefix(cfg, s, waiting, 0, o, p);
    var s1 := AfterPrefills(cfg, s, o);
    forall j | 0 <= j < |s1.reqs|
      ensures AfterDecodes(cfg, s1, o).reqs[j] ==
              if j in Batch(cfg, s1.reqs) then DecodedSlot(cfg, s1.reqs[j], o.infer(j)) else s1.reqs[j]
    {
      DecodesEachOnce(cfg, s1, Batch(cfg, s1.reqs), o, j);
    }
  }
}
