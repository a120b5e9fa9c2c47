/** Progress of a single request while other requests keep coming, and where it fails. */
module SchedulerProgress {
  import opened Bits
  import opened Common
  import opened SchedulerSpec
  import opened SchedulerLiveness
  import opened SchedulerPolicy

  // ---- One iteration serves a request ---------------------------------------

  function ActiveUpTo(reqs: seq<Request>, j: nat): set<nat> {
    set i | 0 <= i <= j && i < |reqs| && reqs[i].id != 0
  }

  /** The prefill loop gets as far as slot `j`: the waiting prompts up to it fit the budget, or the
      budget is all of 32 bits and stops nothing. */
  predicate Reached(cfg: Config, reqs: seq<Request>, j: nat)
    requires j < |reqs|
  {
    var q := Queue(reqs, Prefill, j + 1);
    PromptSum(reqs, q, |q|) <= cfg.prefillBudget || cfg.prefillBudget == TWO_32 - 1
  }

  /** There is room for the request in slot `j`: service is in slot order, so only the requests up
      to it count. */
  predicate RoomFor(cfg: Config, s: Sched, j: nat)
    requires j < |s.reqs|
  {
    && |ActiveUpTo(s.reqs, j)| <= cfg.maxBatch && cfg.prefillBudget < TWO_32
    && (Waits(s.reqs, Prefill, j) ==> Reached(cfg, s.reqs, j))
  }

  lemma {:induction false} QueueGrows(reqs: seq<Request>, ph: Phase, n: nat)
    requires 0 < n <= |reqs|
    ensures Queue(reqs, ph, n) ==
            if Waits(reqs, ph, n - 1) then Queue(reqs, ph, n - 1) + [n - 1] else Queue(reqs, ph, n - 1)
  {
  }

  /** The scan of the first `m` slots begins the scan of the first `n`. */
  lemma {:induction false} ScanPrefix(reqs: seq<Request>, ph: Phase, m: nat, n: nat)
    requires m <= n <= |reqs|
    ensures Scan(reqs, ph, m) <= Scan(reqs, ph, n)
    decreases n
  {
    if m < n {
      ScanPrefix(reqs, ph, m, n - 1);
    }
  }

  lemma {:induction false} QueuePrefix(reqs: seq<Request>, ph: Phase, m: nat, n: nat, k: nat)
    requires m <= n <= |reqs| && k < |Queue(reqs, ph, m)|
    ensures k < |Queue(reqs, ph, n)| && Queue(reqs, ph, n)[k] == Queue(reqs, ph, m)[k]
  {
    ScanPrefix(reqs, ph, m, n);
  }

  /** Where a waiting slot stands in the queue. */
  lemma {:induction false} PlaceInQueue(reqs: seq<Request>, ph: Phase, j: nat) returns (a: nat)
    requires Waits(reqs, ph, j)
    ensures |Queue(reqs, ph, j + 1)| == a + 1
    ensures a < |Queue(reqs, ph, |reqs|)| && Queue(reqs, ph, |reqs|)[a] == j
  {
    QueueGrows(reqs, ph, j + 1);
    a := |Queue(reqs, ph, j)|;
    QueuePrefix(reqs, ph, j + 1, |reqs|, a);
  }

  lemma {:induction false} SumOfPrefix(reqs: seq<Request>, q: seq<nat>, q': seq<nat>, p: nat)
    requires p <= |q| && p <= |q'| && Within(q, |reqs|) && Within(q', |reqs|)
    requires forall k | 0 <= k < p :: q[k] == q'[k]
    ensures PromptSum(reqs, q, p) == PromptSum(reqs, q', p)
  {
    if p > 0 {
      SumOfPrefix(reqs, q, q', p - 1);
    }
  }

  /** The loop prefills the `a`-th queued slot if the prompts up to it fit. */
  lemma {:induction false} PrefillsReach(cfg: Config, s: Sched, queue: seq<nat>, spent: nat, o: Oracle, a: nat)
    requires QueueOk(s.reqs, Prefill, queue) && Within(queue, |s.reqs|) && a < |queue|
    requires cfg.prefillBudget < TWO_32
    requires spent + PromptSum(s.reqs, queue, a + 1) <= cfg.prefillBudget || cfg.prefillBudget == TWO_32 - 1
    ensures var j := queue[a];
            Prefills(cfg, s, queue, spent, o).reqs[j] == s.reqs[j].(phase := Decode, target := o.target(j))
    decreases |queue|
  {
    var i := queue[0];
    var s' := PrefillSlot(s, i, o.target(i));
    var sum := Wrap32(spent + |s.reqs[i].prompt|);
    SumGrows(s.reqs, queue, 1, a + 1);
    QueueTail(s.reqs, Prefill, queue, s'.reqs[i]);
    assert sum <= cfg.prefillBudget;
    if a == 0 {
      PrefillsKeepOthers(cfg, s', queue[1..], sum, o, i);
    } else {
      PromptSumFromSecond(s.reqs, queue, a, s'.reqs[i]);
      assert queue[1..][a - 1] == queue[a] && queue[a] != i;
      PrefillsReach(cfg, s', queue[1..], sum, o, a - 1);
    }
  }

  /** The place in the queue of a slot the loop gets to. */
  lemma {:induction false} ReachedInQueue(cfg: Config, reqs: seq<Request>, j: nat) returns (a: nat)
    requires Waits(reqs, Prefill, j) && Reached(cfg, reqs, j)
    ensures var queue := Queue(reqs, Prefill, |reqs|);
            && a < |queue| && queue[a] == j && Within(queue, |reqs|)
            && (PromptSum(reqs, queue, a + 1) <= cfg.prefillBudget || cfg.prefillBudget == TWO_32 - 1)
  {
    a := PlaceInQueue(reqs, Prefill, j);
    var q, queue := Queue(reqs, Prefill, j + 1), Queue(reqs, Prefill, |reqs|);
    forall k | 0 <= k <= a ensures q[k] == queue[k] {
      QueuePrefix(reqs, Prefill, j + 1, |reqs|, k);
    }
    SumOfPrefix(reqs, q, queue, a + 1);
  }

  /** With room for it, a waiting request is prefilled; a slot that does not wait stays. */
  lemma {:induction false} PrefilledIfReached(cfg: Config, s: Sched, o: Oracle, j: nat)
    requires j < |s.reqs| && cfg.prefillBudget < TWO_32 && (Waits(s.reqs, Prefill, j) ==> Reached(cfg, s.reqs, j))
    ensures AfterPrefills(cfg, s, o).reqs[j] ==
            if Waits(s.reqs, Prefill, j) then s.reqs[j].(phase := Decode, target := o.target(j)) else s.reqs[j]
  {
    var queue := Queue(s.reqs, Prefill, |s.reqs|);
    if Waits(s.reqs, Prefill, j) {
      var a := ReachedInQueue(cfg, s.reqs, j);
      PrefillsReach(cfg, s, queue, 0, o, a);
    } else {
      PrefillsKeepOthers(cfg, s, queue, 0, o, j);
    }
  }

  lemma {:induction false} PrefillsKeepIds(cfg: Config, s: Sched, queue: seq<nat>, spent: nat, o: Oracle, j: nat)
    requires Within(queue, |s.reqs|) && j < |s.reqs|
    ensures Prefills(cfg, s, queue, spent, o).reqs[j].id == s.reqs[j].id
    decreases |queue|
  {
    if queue != [] {
      var i := queue[0];
      PrefillsKeepIds(cfg, PrefillSlot(s, i, o.target(i)), queue[1..], Wrap32(spent + |s.reqs[i].prompt|), o, j);
    }
  }

  /** The elements of a strictly increasing sequence. */
  function Members(q: seq<nat>): set<nat> { set i | i in q }

  lemma {:induction false} IncreasingLength(q: seq<nat>)
    requires forall a, b | 0 <= a < b < |q| :: q[a] < q[b]
    ensures |Members(q)| == |q|
  {
    if q != [] {
      var n := |q| - 1;
      IncreasingLength(q[..n]);
      assert Members(q) == Members(q[..n]) + {q[n]};
    }
  }

  /** A batch with room for the active requests up to slot `j` takes that slot. */
  lemma {:induction false} InBatch(cfg: Config, reqs: seq<Request>, j: nat)
    requires Waits(reqs, Decode, j) && |ActiveUpTo(reqs, j)| <= cfg.maxBatch
    ensures j in Batch(cfg, reqs)
  {
    var a := PlaceInQueue(reqs, Decode, j);
    QueueSize(reqs, Decode, j);
    assert Batch(cfg, reqs)[a] == j;
  }

  lemma {:induction false} QueueSize(reqs: seq<Request>, ph: Phase, j: nat)
    requires j < |reqs|
    ensures |Queue(reqs, ph, j + 1)| <= |ActiveUpTo(reqs, j)|
  {
    var q := Queue(reqs, ph, j + 1);
    IncreasingLength(q);
    SubsetSize(Members(q), ActiveUpTo(reqs, j));
  }

  lemma {:induction false} SubsetSize(a: set<nat>, b: set<nat>)
    requires a <= b
    ensures |a| <= |b|
  {
    assert b == a + (b - a);
  }

  /** What the retire loop makes of one slot. */
  lemma {:induction false} RetiresAt(s: Sched, i: nat, j: nat)
    requires i <= |s.reqs| && j < |s.reqs|
    ensures var r := s.reqs[j];
            Retires(s, i).reqs[j] ==
            if i <= j && r.phase == Done && r.id != 0 then r.(id := 0, prompt := [], generated := []) else r
    decreases |s.reqs| - i
  {
    if i < |s.reqs| {
      RetiresAt(RetireSlot(s, i), i + 1, j);
    }
  }

  /** After the two phases, before retiring: the request was decoded once. */
  lemma {:induction false} DecodedOnce(cfg: Config, s: Sched, o: Oracle, j: nat)
    requires j < |s.reqs| && RoomFor(cfg, s, j) && Live(s.reqs[j])
    ensures var s2 := AfterDecodes(cfg, AfterPrefills(cfg, s, o), o);
            var target := if s.reqs[j].phase == Prefill then o.target(j) else s.reqs[j].target;
            s2.reqs[j] == DecodedSlot(cfg, s.reqs[j].(phase := Decode, target := target), o.infer(j))
  {
    var s1 := AfterPrefills(cfg, s, o);
    PrefilledIfReached(cfg, s, o, j);
    forall i | 0 <= i < |s.reqs| ensures s1.reqs[i].id == s.reqs[i].id {
      PrefillsKeepIds(cfg, s, Queue(s.reqs, Prefill, |s.reqs|), 0, o, i);
    }
    assert ActiveUpTo(s1.reqs, j) == ActiveUpTo(s.reqs, j);
    InBatch(cfg, s1.reqs, j);
    DecodesEachOnce(cfg, s1, Batch(cfg, s1.reqs), o, j);
  }

  lemma {:induction false} InvAfterDecodes(cfg: Config, s: Sched, o: Oracle)
    requires Inv(s)
    ensures Inv(AfterDecodes(cfg, AfterPrefills(cfg, s, o), o))
  {
    PrefillsKeepInv(cfg, s, Queue(s.reqs, Prefill, |s.reqs|), 0, o);
    var s1 := AfterPrefills(cfg, s, o);
    DecodesKeepInv(cfg, s1, Batch(cfg, s1.reqs), o);
  }

  /** An iteration with room for the request ends it or brings it one step closer to its end,
      whatever the other slots hold and whatever inference returns. */
  lemma {:induction false} StepServes(cfg: Config, s: Sched, o: Oracle, j: nat)
    requires Inv(s) && j < |s.reqs| && RoomFor(cfg, s, j) && Live(s.reqs[j])
    ensures var s', r := Step(cfg, s, o), s.reqs[j];
            || r.id in s'.finals
            || (Live(s'.reqs[j]) && s'.reqs[j].id == r.id && Cost(s'.reqs[j]) < Cost(r))
  {
    DecodedOnce(cfg, s, o, j);
    InvAfterDecodes(cfg, s, o);
    var s2 := AfterDecodes(cfg, AfterPrefills(cfg, s, o), o);
    assert SlotOk(s, j) && SlotOk(s2, j);
    RetiresAt(s2, 0, j);
    RetiresKeepHistory(s2, 0);
  }

  // ---- What has ended stays ended -------------------------------------------

  lemma {:induction false} DecodesKeepFinals(cfg: Config, s: Sched, queue: seq<nat>, o: Oracle, id: nat)
    requires Within(queue, |s.reqs|) && id in s.finals
    ensures id in Decodes(cfg, s, queue, o).finals
    decreases |queue|
  {
    if queue != [] {
      DecodesKeepFinals(cfg, DecodeSlot(cfg, s, queue[0], o.infer(queue[0])), queue[1..], o, id);
    }
  }

  lemma {:induction false} StaysFinal(cfg: Config, s: Sched, call: Call, id: nat)
    requires id in s.finals
    ensures id in Apply(cfg, s, call).finals
  {
    if call.DoStep? {
      var o := call.oracle;
      var s1 := AfterPrefills(cfg, s, o);
      PrefillsKeepHistory(cfg, s, Queue(s.reqs, Prefill, |s.reqs|), 0, o);
      DecodesKeepFinals(cfg, s1, Batch(cfg, s1.reqs), o, id);
      RetiresKeepHistory(AfterDecodes(cfg, s1, o), 0);
    }
  }

  // ---- A bound for every request --------------------------------------------

  /** The iterations among calls `i..l`. */
  function StepsIn(calls: seq<Call>, i: nat, l: nat): nat
    requires i <= l <= |calls|
  {
    if i == l then 0 else StepsIn(calls, i, l - 1) + (if calls[l - 1].DoStep? then 1 else 0)
  }

  /** A submission leaves a live slot alone. */
  lemma {:induction false} SubmitKeepsLive(s: Sched, prompt: seq<Token>, memOk: bool, j: nat)
    requires j < |s.reqs| && Live(s.reqs[j])
    ensures Submit(s, prompt, memOk).0.reqs[j] == s.reqs[j]
  {
  }

  /** One call on the way: the request has ended, or it keeps its slot and the cost left. */
  lemma {:induction false} CallServes(cfg: Config, s: Sched, call: Call, j: nat)
    requires Inv(s) && j < |s.reqs| && Live(s.reqs[j]) && (call.DoStep? ==> RoomFor(cfg, s, j))
    ensures var s', r := Apply(cfg, s, call), s.reqs[j];
            && |s'.reqs| == |s.reqs|
            && (|| r.id in s'.finals
                || (Live(s'.reqs[j]) && s'.reqs[j].id == r.id
                    && Cost(s'.reqs[j]) + (if call.DoStep? then 1 else 0) <= Cost(r)))
  {
    match call
    case DoSubmit(prompt, memOk) => SubmitKeepsLive(s, prompt, memOk, j);
    case DoStep(o) => StepServes(cfg, s, o, j);
  }

  /** From step `i` to step `l`, with room for slot `j` at every iteration. */
  ghost predicate RoomBetween(cfg: Config, run: seq<Sched>, calls: seq<Call>, i: nat, l: nat, j: nat)
    requires i <= l <= |calls| < |run|
  {
    forall m | i <= m < l :: calls[m].DoStep? ==> j < |run[m].reqs| && RoomFor(cfg, run[m], j)
  }

  lemma {:induction false} ServedSoFar(cfg: Config, run: seq<Sched>, calls: seq<Call>, i: nat, l: nat, j: nat)
    requires IsRun(cfg, run, calls) && i <= l <= |calls| && RoomBetween(cfg, run, calls, i, l, j)
    requires j < |run[i].reqs| && Live(run[i].reqs[j])
    ensures |run[l].reqs| == |run[i].reqs|
    ensures var r := run[i].reqs[j];
            || r.id in run[l].finals
            || (Live(run[l].reqs[j]) && run[l].reqs[j].id == r.id
                && Cost(run[l].reqs[j]) + StepsIn(calls, i, l) <= Cost(r))
    decreases l
  {
    if i < l {
      ServedSoFar(cfg, run, calls, i, l - 1, j);
      RunKeepsInv(cfg, run, calls, l - 1);
      assert CallAt(cfg, run, calls, l - 1);
      if run[i].reqs[j].id in run[l - 1].finals {
        StaysFinal(cfg, run[l - 1], calls[l - 1], run[i].reqs[j].id);
        SameSize(cfg, run[l - 1], calls[l - 1]);
      } else {
        CallServes(cfg, run[l - 1], calls[l - 1], j);
      }
    }
  }

  lemma {:induction false} SameSize(cfg: Config, s: Sched, call: Call)
    ensures |Apply(cfg, s, call).reqs| == |s.reqs|
  {
  }

  /** In every run, whatever is submitted meanwhile: if at every iteration the requests up to slot
      `j` fit one batch and the prompts waiting up to it one budget, the request in slot `j` has
      ended after as many iterations as it had steps left. */
  lemma {:induction false} RequestEnds(cfg: Config, run: seq<Sched>, calls: seq<Call>, i: nat, l: nat, j: nat)
    requires IsRun(cfg, run, calls) && i <= l <= |calls| && RoomBetween(cfg, run, calls, i, l, j)
    requires j < |run[i].reqs| && Live(run[i].reqs[j])
    requires StepsIn(calls, i, l) >= Cost(run[i].reqs[j])
    ensures run[i].reqs[j].id in run[l].finals
  {
    ServedSoFar(cfg, run, calls, i, l, j);
    RunKeepsInv(cfg, run, calls, l);
    assert SlotOk(run[l], j);
  }

  lemma {:induction false} SumBound(reqs: seq<Request>, queue: seq<nat>, p: nat)
    requires PromptsFit(reqs, queue) && p <= |queue|
    ensures PromptSum(reqs, queue, p) <= p * 32768
  {
    if p > 0 {
      SumBound(reqs, queue, p - 1);
    }
  }

  /** Every request of every run on a pool of `n` slots gets served in time only if this holds;
      and it is enough: the pool fits one batch, and as many prompts of maximum length fit the
      budget, or the budget is all of 32 bits. */
  predicate Ample(cfg: Config, n: nat) {
    n <= cfg.maxBatch && (n * 32768 <= cfg.prefillBudget || cfg.prefillBudget == TWO_32 - 1)
  }

  lemma {:induction false} AmplePoolHasRoom(cfg: Config, s: Sched, j: nat)
    requires Inv(s) && Ample(cfg, |s.reqs|) && cfg.prefillBudget < TWO_32 && j < |s.reqs|
    ensures RoomFor(cfg, s, j)
  {
    var q := Queue(s.reqs, Prefill, j + 1);
    forall a | 0 <= a < |q| ensures |s.reqs[q[a]].prompt| <= MAX_SEQ_LEN {
      assert Waits(s.reqs, Prefill, q[a]) && SlotOk(s, q[a]);
    }
    SumBound(s.reqs, q, |q|);
    SubsetSize(ActiveUpTo(s.reqs, j), Indices(|s.reqs|));
  }

  /** The request in slot `j` at step `i` has ended by step `l`, if that is as many iterations
      later as it had steps left. */
  ghost predicate Served(cfg: Config, run: seq<Sched>, calls: seq<Call>, i: nat, l: nat, j: nat)
    requires i <= l <= |calls| < |run|
  {
    j < |run[i].reqs| && Live(run[i].reqs[j]) && StepsIn(calls, i, l) >= Cost(run[i].reqs[j]) ==>
      run[i].reqs[j].id in run[l].finals
  }

  /** In an ample pool every request ends, whatever else is submitted. */
  lemma {:induction false} AmplePoolServesAll(cfg: Config, run: seq<Sched>, calls: seq<Call>, i: nat, l: nat, j: nat)
    requires IsRun(cfg, run, calls) && i <= l <= |calls|
    requires Ample(cfg, |run[0].reqs|) && cfg.prefillBudget < TWO_32
    ensures Served(cfg, run, calls, i, l, j)
  {
    DeadStaysDead(cfg, run, calls, i);
    if j < |run[i].reqs| && Live(run[i].reqs[j]) && StepsIn(calls, i, l) >= Cost(run[i].reqs[j]) {
      forall m | i <= m < l && calls[m].DoStep? ensures j < |run[m].reqs| && RoomFor(cfg, run[m], j) {
        RunKeepsInv(cfg, run, calls, m);
        DeadStaysDead(cfg, run, calls, m);
        AmplePoolHasRoom(cfg, run[m], j);
      }
      RequestEnds(cfg, run, calls, i, l, j);
    }
  }
}
