/** Runs in which the scheduler passes over a request, and the exact condition for serving every
    request of a pool. */
module SchedulerStarvation {
  import opened Bits
  import opened Common
  import opened SchedulerSpec
  import opened SchedulerLiveness
  import opened SchedulerPolicy
  import opened SchedulerProgress

  // ---- Building runs --------------------------------------------------------

  lemma {:induction false} StepsInPrefix(calls: seq<Call>, more: seq<Call>, i: nat, l: nat)
    requires i <= l <= |calls|
    ensures StepsIn(calls + more, i, l) == StepsIn(calls, i, l)
    decreases l
  {
    if i < l {
      StepsInPrefix(calls, more, i, l - 1);
    }
  }

  /** A run goes on with any call. */
  lemma {:induction false} Extended(cfg: Config, run: seq<Sched>, calls: seq<Call>, call: Call)
    requires IsRun(cfg, run, calls) && (call.DoSubmit? ==> |call.prompt| <= MAX_SEQ_LEN)
    ensures IsRun(cfg, run + [Apply(cfg, run[|calls|], call)], calls + [call])
  {
    var run', calls' := run + [Apply(cfg, run[|calls|], call)], calls + [call];
    forall i | 0 <= i < |calls'| ensures CallAt(cfg, run', calls', i) {
      if i < |calls| {
        assert CallAt(cfg, run, calls, i);
      }
    }
  }

  lemma {:induction false} StepsExtended(calls: seq<Call>, call: Call, i: nat)
    requires i <= |calls|
    ensures StepsIn(calls + [call], i, |calls| + 1) == StepsIn(calls, i, |calls|) + if call.DoStep? then 1 else 0
  {
    StepsInPrefix(calls, [call], i, |calls|);
  }

  /** A pool of `n` free slots. */
  function FreePool(n: nat): Sched {
    Sched(seq(n, _ => Request(0, Done, Cpu, [], [])), 0, 1, 0, 0, 0, 0, [], map[])
  }

  lemma {:induction false} FreePoolRun(cfg: Config, n: nat)
    ensures IsRun(cfg, [FreePool(n)], [])
  {
  }

  function Zeros(n: nat): (p: seq<Token>)
    ensures |p| == n
  {
    seq(n, _ => 0)
  }

  /** A submission takes the first idle slot. */
  lemma {:induction false} SubmitAt(s: Sched, a: nat, prompt: seq<Token>)
    requires Inv(s) && AtRest(s) && a < |s.reqs| && IsIdle(s.reqs[a]) && |prompt| <= MAX_SEQ_LEN
    requires forall i | 0 <= i < a :: s.reqs[i].phase != Done
    ensures var s' := Submit(s, prompt, true).0;
            && Inv(s') && AtRest(s')
            && s'.reqs == s.reqs[a := Request(s.nextId, Prefill, s.reqs[a].target, prompt, [])]
            && s'.nextId == s.nextId + 1 && s'.log == s.log && s'.failed == s.failed
  {
    SubmitKeepsInv(s, prompt, true);
    SlotsAddUp(s.reqs);
    assert a in IdleSlots(s.reqs);
    assert FirstDone(s.reqs, true, 0) == Some(a);
  }

  /** Slots below `a` wait for prefill with prompts of the given lengths; the others are idle. */
  ghost predicate Filling(s: Sched, lens: seq<nat>, a: nat) {
    && Inv(s) && AtRest(s) && |s.reqs| == |lens| && a <= |lens|
    && (forall i | 0 <= i < a :: Waits(s.reqs, Prefill, i) && |s.reqs[i].prompt| == lens[i])
    && (forall i | a <= i < |lens| :: IsIdle(s.reqs[i]))
  }

  /** `a` submissions to a free pool. */
  lemma {:induction false} FillPool(cfg: Config, lens: seq<nat>, a: nat) returns (run: seq<Sched>, calls: seq<Call>)
    requires a <= |lens| && forall i | 0 <= i < |lens| :: lens[i] <= MAX_SEQ_LEN
    ensures IsRun(cfg, run, calls) && |calls| == a && |run[0].reqs| == |lens| && Filling(run[a], lens, a)
  {
    if a == 0 {
      run, calls := [FreePool(|lens|)], [];
      FreePoolRun(cfg, |lens|);
      FreshInv(run[0]);
    } else {
      run, calls := FillPool(cfg, lens, a - 1);
      var call := DoSubmit(Zeros(lens[a - 1]), true);
      SubmitAt(run[a - 1], a - 1, call.prompt);
      Extended(cfg, run, calls, call);
      run, calls := run + [Apply(cfg, run[a - 1], call)], calls + [call];
    }
  }

  // ---- The jam --------------------------------------------------------------

  function UpTo(q: nat): (r: seq<nat>)
    ensures |r| == q && forall i | 0 <= i < q :: r[i] == i
  {
    if q == 0 then [] else UpTo(q - 1) + [q - 1]
  }

  lemma {:induction false} QueueIsUpTo(reqs: seq<Request>, ph: Phase, n: nat, q: nat)
    requires q <= n <= |reqs| && forall i | 0 <= i < n :: Waits(reqs, ph, i) <==> i < q
    ensures Queue(reqs, ph, n) == UpTo(q)
    decreases n
  {
    if n > 0 {
      QueueGrows(reqs, ph, n);
      QueueIsUpTo(reqs, ph, n - 1, if q == n then q - 1 else q);
    }
  }

  /** If exactly the first `all` slots are decoding, the batch is the first of them that fit. */
  lemma {:induction false} BatchIsUpTo(cfg: Config, reqs: seq<Request>, all: nat)
    requires all <= |reqs| && forall i | 0 <= i < |reqs| :: Waits(reqs, Decode, i) <==> i < all
    ensures Batch(cfg, reqs) == UpTo(Least(all, cfg.maxBatch))
  {
    QueueIsUpTo(reqs, Decode, |reqs|, all);
    UpToPrefix(all, Least(all, cfg.maxBatch));
  }

  lemma {:induction false} UpToPrefix(n: nat, q: nat)
    requires q <= n
    ensures UpTo(n)[..q] == UpTo(q)
  {
  }

  /** Every inference call returns the end-of-sequence token. */
  function AllEos(cfg: Config): Oracle { Oracle(_ => Cpu, _ => Infer(Some(cfg.eos), Some(cfg.eos))) }

  /** In a pool of `n`, the first `q` slots hold prompts of `lo` tokens, the others of `hi`. */
  datatype Plan = Plan(n: nat, q: nat, lo: nat, hi: nat)

  /** Either the first `q` slots fill the batch, with empty prompts; or they use up the budget, so
      that the next prompt exceeds it by one token. */
  predicate Jams(cfg: Config, p: Plan) {
    && p.q < p.n && p.lo <= 32768 && p.hi <= 32768 && cfg.prefillBudget < TWO_32
    && (if p.lo == 0 then p.hi == 0 && p.q == cfg.maxBatch
        else && p.lo == 32768 && p.hi >= 1 && p.q <= cfg.maxBatch
             && p.q * 32768 + p.hi == cfg.prefillBudget + 1 < TWO_32)
  }

  /** A request behind the first `q`, not yet served. */
  predicate Behind(p: Plan, r: Request) {
    Live(r) && |r.prompt| == p.hi && (p.lo != 0 ==> r.phase == Prefill)
  }

  /** The first `a` of the first `q` slots are filled again, the rest of them is idle. */
  ghost predicate Refilled(p: Plan, s: Sched, a: nat) {
    && Inv(s) && AtRest(s) && |s.reqs| == p.n && a <= p.q <= p.n
    && (forall i | 0 <= i < a :: Waits(s.reqs, Prefill, i) && |s.reqs[i].prompt| == p.lo)
    && (forall i | a <= i < p.q :: IsIdle(s.reqs[i]))
    && (forall i | p.q <= i < p.n :: Behind(p, s.reqs[i]))
  }

  /** The first `q` slots are decoding, and no slot behind them is in the batch. */
  ghost predicate HeadServed(cfg: Config, p: Plan, s: Sched, s1: Sched) {
    && |s1.reqs| == |s.reqs| == p.n && p.q <= p.n
    && Batch(cfg, s1.reqs) == UpTo(p.q)
    && (forall i | 0 <= i < p.q :: Waits(s1.reqs, Decode, i) && s1.reqs[i].target == Cpu)
    && (forall i | p.q <= i < p.n :: Behind(p, s1.reqs[i]) && s1.reqs[i].id == s.reqs[i].id)
  }

  lemma {:induction false} PrefilledEmpty(cfg: Config, p: Plan, s: Sched, i: nat)
    requires Jams(cfg, p) && p.lo == 0 && Refilled(p, s, p.q) && i < p.n
    ensures var r := AfterPrefills(cfg, s, AllEos(cfg)).reqs[i];
            && Waits(AfterPrefills(cfg, s, AllEos(cfg)).reqs, Decode, i) && |r.prompt| == 0
            && r.id == s.reqs[i].id && (i < p.q ==> r.target == Cpu)
  {
    var q := Queue(s.reqs, Prefill, i + 1);
    forall a | 0 <= a < |q| ensures |s.reqs[q[a]].prompt| == 0 {
      assert Waits(s.reqs, Prefill, q[a]);
    }
    EqualPrompts(s.reqs, q, 0, |q|);
    PrefilledIfReached(cfg, s, AllEos(cfg), i);
  }

  lemma {:induction false} BatchJam(cfg: Config, p: Plan, s: Sched)
    requires Jams(cfg, p) && p.lo == 0 && Refilled(p, s, p.q)
    ensures HeadServed(cfg, p, s, AfterPrefills(cfg, s, AllEos(cfg)))
  {
    var s1 := AfterPrefills(cfg, s, AllEos(cfg));
    forall i | 0 <= i < p.n
      ensures Waits(s1.reqs, Decode, i) && |s1.reqs[i].prompt| == 0 && s1.reqs[i].id == s.reqs[i].id
      ensures i < p.q ==> s1.reqs[i].target == Cpu
    {
      PrefilledEmpty(cfg, p, s, i);
    }
    BatchIsUpTo(cfg, s1.reqs, p.n);
  }

  /** The prompts of the first `a` slots. */
  lemma {:induction false} PlanSum(p: Plan, s: Sched, a: nat)
    requires Refilled(p, s, p.q) && a <= p.q
    ensures Within(UpTo(p.n), |s.reqs|) && PromptSum(s.reqs, UpTo(p.n), a) == a * p.lo
  {
    if a > 0 {
      PlanSum(p, s, a - 1);
      assert Waits(s.reqs, Prefill, a - 1);
      assert a * p.lo == (a - 1) * p.lo + p.lo;
    }
  }

  lemma {:induction false} BudgetFills(cfg: Config, p: Plan, s: Sched)
    requires Jams(cfg, p) && p.lo != 0 && Refilled(p, s, p.q)
    ensures Within(UpTo(p.n), |s.reqs|) && PromptsFit(s.reqs, UpTo(p.n))
    ensures Fills(s.reqs, UpTo(p.n), 0, cfg.prefillBudget, p.q) && NoWrap(s.reqs, UpTo(p.n), 0, p.q)
  {
    PlanSum(p, s, p.q);
    assert Behind(p, s.reqs[p.q]);
    forall a | 0 <= a < p.n ensures |s.reqs[a].prompt| <= MAX_SEQ_LEN {
      assert SlotOk(s, a);
      assert a < p.q ==> Waits(s.reqs, Prefill, a);
      assert a >= p.q ==> Behind(p, s.reqs[a]);
    }
  }

  lemma {:induction false} AllWaiting(cfg: Config, p: Plan, s: Sched)
    requires Jams(cfg, p) && p.lo != 0 && Refilled(p, s, p.q)
    ensures Queue(s.reqs, Prefill, p.n) == UpTo(p.n)
  {
    forall i | 0 <= i < p.n ensures Waits(s.reqs, Prefill, i) {
      assert i >= p.q ==> Behind(p, s.reqs[i]);
    }
    QueueIsUpTo(s.reqs, Prefill, p.n, p.n);
  }

  /** The prefill phase stops behind slot `q`. */
  lemma {:induction false} BudgetPrefills(cfg: Config, p: Plan, s: Sched, i: nat)
    requires Jams(cfg, p) && p.lo != 0 && Refilled(p, s, p.q) && i < p.n
    ensures AfterPrefills(cfg, s, AllEos(cfg)).reqs[i] ==
            if i < p.q then s.reqs[i].(phase := Decode, target := Cpu) else s.reqs[i]
  {
    var o, queue := AllEos(cfg), UpTo(p.n);
    AllWaiting(cfg, p, s);
    BudgetFills(cfg, p, s);
    PrefillsLongestFittingPrefix(cfg, s, queue, 0, o, p.q);
    PrefilledAt(s.reqs, queue, p.q, o, i);
    assert i < p.q ==> queue[..p.q][i] == i;
  }

  lemma {:induction false} BudgetJam(cfg: Config, p: Plan, s: Sched)
    requires Jams(cfg, p) && p.lo != 0 && Refilled(p, s, p.q)
    ensures HeadServed(cfg, p, s, AfterPrefills(cfg, s, AllEos(cfg)))
  {
    var s1 := AfterPrefills(cfg, s, AllEos(cfg));
    forall i | 0 <= i < p.n
      ensures s1.reqs[i] == if i < p.q then s.reqs[i].(phase := Decode, target := Cpu) else s.reqs[i]
    {
      BudgetPrefills(cfg, p, s, i);
    }
    StoppedBehind(cfg, p, s, s1);
  }

  lemma {:induction false} StoppedBehind(cfg: Config, p: Plan, s: Sched, s1: Sched)
    requires Jams(cfg, p) && p.lo != 0 && Refilled(p, s, p.q) && |s1.reqs| == p.n
    requires forall i | 0 <= i < p.n ::
               s1.reqs[i] == if i < p.q then s.reqs[i].(phase := Decode, target := Cpu) else s.reqs[i]
    ensures HeadServed(cfg, p, s, s1)
  {
    forall i | 0 <= i < p.n ensures Waits(s1.reqs, Decode, i) <==> i < p.q {
      assert i < p.q ==> Waits(s.reqs, Prefill, i);
      assert i >= p.q ==> Behind(p, s.reqs[i]);
    }
    BatchIsUpTo(cfg, s1.reqs, p.q);
  }

  lemma {:induction false} JamPrefills(cfg: Config, p: Plan, s: Sched)
    requires Jams(cfg, p) && Refilled(p, s, p.q)
    ensures HeadServed(cfg, p, s, AfterPrefills(cfg, s, AllEos(cfg)))
  {
    if p.lo == 0 {
      BatchJam(cfg, p, s);
    } else {
      BudgetJam(cfg, p, s);
    }
  }

  /** One slot after the iteration: the first `q` are idle, the others as after the prefills. */
  lemma {:induction false} SlotAfterJam(cfg: Config, p: Plan, s: Sched, i: nat)
    requires HeadServed(cfg, p, s, AfterPrefills(cfg, s, AllEos(cfg))) && i < p.n
    ensures var r := Step(cfg, s, AllEos(cfg)).reqs[i];
            if i < p.q then IsIdle(r) else Behind(p, r) && r.id == s.reqs[i].id
  {
    var o := AllEos(cfg);
    var s1 := AfterPrefills(cfg, s, o);
    DecodesEachOnce(cfg, s1, Batch(cfg, s1.reqs), o, i);
    assert i < p.q ==> UpTo(p.q)[i] == i && Waits(s1.reqs, Decode, i);
    assert i >= p.q ==> Behind(p, s1.reqs[i]);
    RetiresAt(AfterDecodes(cfg, s1, o), 0, i);
  }

  /** An iteration of the jam ends the first `q` requests and serves no other. */
  lemma {:induction false} StepInJam(cfg: Config, p: Plan, s: Sched)
    requires Jams(cfg, p) && Refilled(p, s, p.q)
    ensures var s' := Step(cfg, s, AllEos(cfg));
            Refilled(p, s', 0) && s'.reqs[p.n - 1].id == s.reqs[p.n - 1].id
  {
    JamPrefills(cfg, p, s);
    StepKeepsInv(cfg, s, AllEos(cfg));
    SameSize(cfg, s, DoStep(AllEos(cfg)));
    forall i | 0 <= i < p.n
      ensures var r := Step(cfg, s, AllEos(cfg)).reqs[i];
              if i < p.q then IsIdle(r) else Behind(p, r) && r.id == s.reqs[i].id
    {
      SlotAfterJam(cfg, p, s, i);
    }
  }

  /** The next prompt goes to the next of the freed slots. */
  lemma {:induction false} SubmitInJam(p: Plan, s: Sched, a: nat)
    requires Refilled(p, s, a) && a < p.q < p.n && p.lo <= MAX_SEQ_LEN
    ensures var s' := Submit(s, Zeros(p.lo), true).0;
            Refilled(p, s', a + 1) && s'.reqs[p.n - 1].id == s.reqs[p.n - 1].id
  {
    forall i | 0 <= i < a ensures s.reqs[i].phase != Done {
      assert Waits(s.reqs, Prefill, i);
    }
    SubmitAt(s, a, Zeros(p.lo));
    var s' := Submit(s, Zeros(p.lo), true).0;
    forall i | 0 <= i < a ensures Waits(s'.reqs, Prefill, i) && |s'.reqs[i].prompt| == p.lo {
      assert Waits(s.reqs, Prefill, i);
    }
  }

  // ---- Starving runs --------------------------------------------------------

  /** After the first `n` submissions and `k` iterations, the request in the last slot is still
      waiting for its first decode step. */
  ghost predicate PassedOver(cfg: Config, p: Plan, run: seq<Sched>, calls: seq<Call>, a: nat, k: nat) {
    && IsRun(cfg, run, calls) && 0 < p.n <= |calls| && |run[0].reqs| == p.n
    && StepsIn(calls, p.n, |calls|) == k
    && Refilled(p, run[|calls|], a) && p.q < p.n
    && |run[p.n].reqs| == p.n && Live(run[p.n].reqs[p.n - 1])
    && run[|calls|].reqs[p.n - 1].id == run[p.n].reqs[p.n - 1].id
  }

  lemma {:induction false} PassedOverNext(cfg: Config, p: Plan, run: seq<Sched>, calls: seq<Call>, a: nat, k: nat,
                                          call: Call, a': nat)
    requires PassedOver(cfg, p, run, calls, a, k) && (call.DoSubmit? ==> |call.prompt| <= MAX_SEQ_LEN)
    requires var s' := Apply(cfg, run[|calls|], call);
             Refilled(p, s', a') && s'.reqs[p.n - 1].id == run[|calls|].reqs[p.n - 1].id
    ensures PassedOver(cfg, p, run + [Apply(cfg, run[|calls|], call)], calls + [call], a',
                       if call.DoStep? then k + 1 else k)
  {
    Extended(cfg, run, calls, call);
    StepsExtended(calls, call, p.n);
  }

  /** The freed slots are filled again. */
  lemma {:induction false} Refill(cfg: Config, p: Plan, run: seq<Sched>, calls: seq<Call>, a: nat, k: nat)
    returns (run': seq<Sched>, calls': seq<Call>)
    requires Jams(cfg, p) && PassedOver(cfg, p, run, calls, a, k)
    ensures PassedOver(cfg, p, run', calls', p.q, k)
    decreases p.q - a
  {
    run', calls' := run, calls;
    if a < p.q {
      var call := DoSubmit(Zeros(p.lo), true);
      SubmitInJam(p, run[|calls|], a);
      PassedOverNext(cfg, p, run, calls, a, k, call, a + 1);
      run', calls' := Refill(cfg, p, run + [Apply(cfg, run[|calls|], call)], calls + [call], a + 1, k);
    }
  }

  lemma {:induction false} JamStarts(cfg: Config, p: Plan) returns (run: seq<Sched>, calls: seq<Call>)
    requires Jams(cfg, p)
    ensures PassedOver(cfg, p, run, calls, p.q, 0)
  {
    var lens := seq(p.n, i => if i < p.q then p.lo else p.hi);
    run, calls := FillPool(cfg, lens, p.n);
    var s := run[p.n];
    forall i | 0 <= i < p.n ensures Waits(s.reqs, Prefill, i) && |s.reqs[i].prompt| == lens[i] {
    }
  }

  lemma {:induction false} JamLasts(cfg: Config, p: Plan, k: nat) returns (run: seq<Sched>, calls: seq<Call>)
    requires Jams(cfg, p)
    ensures PassedOver(cfg, p, run, calls, p.q, k)
  {
    if k == 0 {
      run, calls := JamStarts(cfg, p);
    } else {
      run, calls := JamLasts(cfg, p, k - 1);
      var call := DoStep(AllEos(cfg));
      StepInJam(cfg, p, run[|calls|]);
      PassedOverNext(cfg, p, run, calls, p.q, k - 1, call, 0);
      run, calls := Refill(cfg, p, run + [Apply(cfg, run[|calls|], call)], calls + [call], 0, k);
    }
  }

  /** Where the pool is not ample, a jam is possible. */
  lemma {:induction false} JamExists(cfg: Config, n: nat) returns (p: Plan)
    requires !Ample(cfg, n) && cfg.prefillBudget < TWO_32
    ensures p.n == n && Jams(cfg, p)
  {
    if cfg.maxBatch < n {
      p := Plan(n, cfg.maxBatch, 0, 0);
    } else {
      var q := cfg.prefillBudget / 32768;
      p := Plan(n, q, 32768, cfg.prefillBudget + 1 - q * 32768);
    }
  }

  /** Whenever the pool is not ample, a request can starve: for every `k` there is a run on that
      pool in which the request in the last slot, live after the first `n` calls, has not ended
      after `k` more iterations. */
  lemma {:induction false} RequestStarves(cfg: Config, n: nat, k: nat) returns (run: seq<Sched>, calls: seq<Call>)
    requires !Ample(cfg, n) && cfg.prefillBudget < TWO_32
    ensures IsRun(cfg, run, calls) && |run[0].reqs| == n && 0 < n <= |calls| && StepsIn(calls, n, |calls|) == k
    ensures |run[n].reqs| == n && Live(run[n].reqs[n - 1]) && run[n].reqs[n - 1].id !in run[|calls|].finals
  {
    var p := JamExists(cfg, n);
    run, calls := JamLasts(cfg, p, k);
    var s := run[|calls|];
    assert Behind(p, s.reqs[n - 1]) && SlotOk(s, n - 1);
  }

  /** Every request of every run on a pool of `n` slots ends within the steps it has left, whatever
      is submitted meanwhile and whatever inference returns, if and only if the pool is ample. */
  lemma {:induction false} ServesAllIff(cfg: Config, n: nat)
    requires cfg.prefillBudget < TWO_32
    ensures (forall run: seq<Sched>, calls: seq<Call>, i: nat, l: nat, j: nat |
               IsRun(cfg, run, calls) && |run[0].reqs| == n && i <= l <= |calls| ::
                    Served(cfg, run, calls, i, l, j)) <==>
            Ample(cfg, n)
  {
    if Ample(cfg, n) {
      forall run: seq<Sched>, calls: seq<Call>, i: nat, l: nat, j: nat |
        IsRun(cfg, run, calls) && |run[0].reqs| == n && i <= l <= |calls|
        ensures Served(cfg, run, calls, i, l, j)
      {
        AmplePoolServesAll(cfg, run, calls, i, l, j);
      }
    } else {
      var run, calls := RequestStarves(cfg, n, MAX_SEQ_LEN + 2);
      assert !Served(cfg, run, calls, n, |calls|, n - 1);
    }
  }

  // ---- More runs that fail --------------------------------------------------

  /** A run that never drains: one prompt longer than the budget, in a pool of one slot. */
  lemma {:induction false} LongPromptBlocks(cfg: Config) returns (run: seq<Sched>, calls: seq<Call>)
    requires cfg.prefillBudget < MAX_SEQ_LEN
    ensures IsRun(cfg, run, calls) && |calls| == 1 && !Fits(cfg, run[1].reqs)
    ensures forall os: seq<Oracle> :: Steps(cfg, run[1], os).active > 0
  {
    run, calls := FillPool(cfg, [cfg.prefillBudget + 1], 1);
    assert Waits(run[1].reqs, Prefill, 0);
    assert Blocked(cfg, run[1].reqs, 0);
    forall os: seq<Oracle> ensures Steps(cfg, run[1], os).active > 0 {
      NeverIdle(cfg, run[1], os, 0);
    }
  }

  /** A run in which the prefill sum wraps around: the budget is all of 32 bits, and 131072
      prompts of maximum length are submitted to a pool of as many slots. */
  lemma {:induction false} SumWrapsInRun(cfg: Config, o: Oracle) returns (run: seq<Sched>, calls: seq<Call>)
    requires cfg.prefillBudget == TWO_32 - 1
    ensures IsRun(cfg, run, calls) && |calls| == 131072 && |run[131072].reqs| == 131072
    ensures var s := run[131072];
            var waiting := Queue(s.reqs, Prefill, 131072);
            && |waiting| == 131072 && Within(waiting, |s.reqs|)
            && Fills(s.reqs, waiting, 0, cfg.prefillBudget, 131071)
            && AfterPrefills(cfg, s, o).reqs != Prefilled(s.reqs, waiting, 131071, o)
  {
    var lens := seq(131072, _ => 32768);
    run, calls := FillPool(cfg, lens, 131072);
    var s := run[131072];
    QueueIsUpTo(s.reqs, Prefill, 131072, 131072);
    var waiting := Queue(s.reqs, Prefill, 131072);
    forall a | 0 <= a < |waiting| ensures |s.reqs[waiting[a]].prompt| == MAX_SEQ_LEN {
      assert Waits(s.reqs, Prefill, a);
    }
    SumWraps(cfg, s, waiting, o);
  }
}
