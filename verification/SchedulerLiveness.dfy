/** When the scheduler accepts requests, and when it runs dry. */
module SchedulerLiveness {
  import opened Bits
  import opened Common
  import opened SchedulerSpec

  // ---- Which submissions are accepted ---------------------------------------

  /** A slot without a request that is not DONE: find_free_slot never returns it. */
  predicate IsDead(r: Request) { r.id == 0 && r.phase != Done }

  predicate IsIdle(r: Request) { r.id == 0 && r.phase == Done }

  function DeadSlots(reqs: seq<Request>): set<nat> { set i | 0 <= i < |reqs| && IsDead(reqs[i]) }

  function IdleSlots(reqs: seq<Request>): set<nat> { set i | 0 <= i < |reqs| && IsIdle(reqs[i]) }

  /** Slot by slot: dead stays dead and usable stays usable, and a request that waits for
      prefill afterwards was waiting before. */
  ghost predicate Evolved(reqs: seq<Request>, reqs': seq<Request>) {
    && |reqs| == |reqs'|
    && forall i | 0 <= i < |reqs| ::
         && (IsDead(reqs[i]) <==> IsDead(reqs'[i]))
         && (Waits(reqs', Prefill, i) ==> reqs'[i] == reqs[i])
  }

  /** The same slots are dead. */
  ghost predicate SameDead(reqs: seq<Request>, reqs': seq<Request>) {
    |reqs| == |reqs'| && forall i | 0 <= i < |reqs| :: IsDead(reqs[i]) <==> IsDead(reqs'[i])
  }

  lemma {:induction false} PrefillsEvolve(cfg: Config, s: Sched, queue: seq<nat>, spent: nat, o: Oracle)
    requires QueueOk(s.reqs, Prefill, queue)
    ensures Evolved(s.reqs, Prefills(cfg, s, queue, spent, o).reqs)
    decreases |queue|
  {
    if queue != [] {
      var i := queue[0];
      assert Waits(s.reqs, Prefill, i);
      var s' := PrefillSlot(s, i, o.target(i));
      QueueTail(s.reqs, Prefill, queue, s'.reqs[i]);
      PrefillsEvolve(cfg, s', queue[1..], Wrap32(spent + |s.reqs[i].prompt|), o);
    }
  }

  lemma {:induction false} DecodesEvolve(cfg: Config, s: Sched, queue: seq<nat>, o: Oracle)
    requires QueueOk(s.reqs, Decode, queue)
    ensures Evolved(s.reqs, Decodes(cfg, s, queue, o).reqs)
    decreases |queue|
  {
    if queue != [] {
      var i := queue[0];
      assert Waits(s.reqs, Decode, i);
      var s' := DecodeSlot(cfg, s, i, o.infer(i));
      DecodeTouchesOneSlot(cfg, s, i, o.infer(i));
      QueueTail(s.reqs, Decode, queue, s'.reqs[i]);
      DecodesEvolve(cfg, s', queue[1..], o);
    }
  }

  lemma {:induction false} RetiresEvolve(s: Sched, i: nat)
    requires i <= |s.reqs|
    ensures Evolved(s.reqs, Retires(s, i).reqs)
    decreases |s.reqs| - i
  {
    if i < |s.reqs| {
      RetiresEvolve(RetireSlot(s, i), i + 1);
    }
  }

  lemma {:induction false} StepEvolves(cfg: Config, s: Sched, o: Oracle)
    ensures Evolved(s.reqs, Step(cfg, s, o).reqs)
  {
    PrefillsEvolve(cfg, s, Queue(s.reqs, Prefill, |s.reqs|), 0, o);
    var s1 := AfterPrefills(cfg, s, o);
    DecodesEvolve(cfg, s1, Batch(cfg, s1.reqs), o);
    RetiresEvolve(AfterDecodes(cfg, s1, o), 0);
  }

  lemma {:induction false} SubmitEvolves(s: Sched, prompt: seq<Token>, memOk: bool)
    requires Inv(s) && AtRest(s)
    ensures SameDead(s.reqs, Submit(s, prompt, memOk).0.reqs)
  {
    if FindFree(s.reqs).Some? {
      FreeIsIdle(s);
    }
  }

  /** No call ever brings a dead slot back, nor makes a usable one dead. */
  lemma {:induction false} DeadStaysDead(cfg: Config, run: seq<Sched>, calls: seq<Call>, i: nat)
    requires IsRun(cfg, run, calls) && i < |run|
    ensures SameDead(run[0].reqs, run[i].reqs)
  {
    if i > 0 {
      DeadStaysDead(cfg, run, calls, i - 1);
      RunKeepsInv(cfg, run, calls, i - 1);
      assert CallAt(cfg, run, calls, i - 1);
      match calls[i - 1]
      case DoSubmit(prompt, memOk) => SubmitEvolves(run[i - 1], prompt, memOk);
      case DoStep(o) => StepEvolves(cfg, run[i - 1], o);
    }
  }

  function Indices(n: nat): (r: set<nat>)
    ensures |r| == n
    ensures forall i :: i in r <==> 0 <= i < n
  {
    if n == 0 then {} else Indices(n - 1) + {n - 1}
  }

  /** Every slot is active, dead or idle. */
  lemma {:induction false} SlotsAddUp(reqs: seq<Request>)
    ensures |Active(reqs)| + |DeadSlots(reqs)| + |IdleSlots(reqs)| == |reqs|
  {
    var a, d, i := Active(reqs), DeadSlots(reqs), IdleSlots(reqs);
    assert a !! d && (a + d) !! i;
    assert a + d + i == Indices(|reqs|);
  }

  /** In every run, from every initial pool, a submission is accepted exactly when the
      requests in flight and the initially dead slots leave one slot over and its buffer can be
      allocated. An accepted prompt waits for prefill in the lowest idle slot, under the next id;
      every other slot is untouched. */
  lemma {:induction false} AcceptedIff(cfg: Config, run: seq<Sched>, calls: seq<Call>, i: nat, prompt: seq<Token>,
                                       memOk: bool)
    requires IsRun(cfg, run, calls) && i < |run|
    ensures var (s', id) := Submit(run[i], prompt, memOk);
            && (id != 0 <==> memOk && run[i].active + |DeadSlots(run[0].reqs)| < |run[i].reqs|)
            && (id == 0 ==> s' == run[i])
            && (id != 0 ==> id == run[i].nextId && exists j ::
                  && 0 <= j < |s'.reqs| && IsIdle(run[i].reqs[j])
                  && (forall l | 0 <= l < j :: !IsIdle(run[i].reqs[l]))
                  && s'.reqs == run[i].reqs[j := Request(id, Prefill, run[i].reqs[j].target, prompt, [])]
                  && s' == run[i].(reqs := s'.reqs, nextId := id + 1, active := run[i].active + 1,
                                   total := run[i].total + 1))
  {
    var s := run[i];
    RunKeepsInv(cfg, run, calls, i);
    DeadStaysDead(cfg, run, calls, i);
    assert DeadSlots(run[0].reqs) == DeadSlots(s.reqs);
    SlotsAddUp(s.reqs);
    var slot := FindFree(s.reqs);
    if slot.Some? {
      FreeIsIdle(s);
      assert slot.value in IdleSlots(s.reqs);
    } else {
      assert IdleSlots(s.reqs) == {};
    }
  }

  /** kllm_batch_create zeroes the pool, and zero means PREFILL: such a scheduler never
      accepts a request, whatever calls are made. */
  lemma {:induction false} ZeroedPoolNeverAccepts(cfg: Config, run: seq<Sched>, calls: seq<Call>, i: nat,
                                                  prompt: seq<Token>, memOk: bool)
    requires IsRun(cfg, run, calls) && i < |run|
    requires forall j | 0 <= j < |run[0].reqs| :: run[0].reqs[j].phase == Prefill
    ensures Submit(run[i], prompt, memOk) == (run[i], 0)
  {
    AcceptedIff(cfg, run, calls, i, prompt, memOk);
    RunKeepsInv(cfg, run, calls, i);
    DeadStaysDead(cfg, run, calls, i);
    assert IdleSlots(run[0].reqs) == {} && Active(run[0].reqs) == {};
    SlotsAddUp(run[0].reqs);
  }

  /** A pool that starts with every slot DONE accepts while fewer requests are in flight
      than it has slots. */
  lemma {:induction false} DonePoolAcceptsWhileRoom(cfg: Config, run: seq<Sched>, calls: seq<Call>, i: nat,
                                                    prompt: seq<Token>)
    requires IsRun(cfg, run, calls) && i < |run|
    requires forall j | 0 <= j < |run[0].reqs| :: run[0].reqs[j].phase == Done
    ensures Submit(run[i], prompt, true).1 != 0 <==> run[i].active < |run[i].reqs|
  {
    AcceptedIff(cfg, run, calls, i, prompt, true);
    assert DeadSlots(run[0].reqs) == {};
  }

  // ---- When the scheduler runs dry ------------------------------------------

  /** What a request may still cost: one iteration per token it can append and one to end,
      and one for its prefill. */
  function Cost(r: Request): nat {
    if !Live(r) || SeqLen(r) > MAX_SEQ_LEN then 0
    else MAX_SEQ_LEN - SeqLen(r) + 1 + (if r.phase == Prefill then 1 else 0)
  }

  function Measure(reqs: seq<Request>): nat {
    if reqs == [] then 0 else Cost(reqs[0]) + Measure(reqs[1..])
  }

  lemma {:induction false} MeasureUpdate(reqs: seq<Request>, i: nat, r: Request)
    requires i < |reqs|
    ensures Measure(reqs[i := r]) == Measure(reqs) - Cost(reqs[i]) + Cost(r)
  {
    if i == 0 {
      assert reqs[i := r][1..] == reqs[1..];
    } else {
      MeasureUpdate(reqs[1..], i - 1, r);
      assert reqs[i := r][1..] == reqs[1..][i - 1 := r];
    }
  }

  lemma {:induction false} LiveCosts(reqs: seq<Request>, i: nat)
    requires i < |reqs|
    ensures Cost(reqs[i]) <= Measure(reqs)
  {
    if i > 0 {
      LiveCosts(reqs[1..], i - 1);
    }
  }

  predicate LensOk(reqs: seq<Request>) {
    forall i | 0 <= i < |reqs| :: Live(reqs[i]) ==> SeqLen(reqs[i]) <= MAX_SEQ_LEN
  }

  lemma {:induction false} PrefillsLower(cfg: Config, s: Sched, queue: seq<nat>, spent: nat, o: Oracle)
    requires QueueOk(s.reqs, Prefill, queue) && LensOk(s.reqs)
    ensures var s' := Prefills(cfg, s, queue, spent, o);
            && LensOk(s'.reqs) && Measure(s'.reqs) <= Measure(s.reqs)
            && (queue != [] && Wrap32(spent + |s.reqs[queue[0]].prompt|) <= cfg.prefillBudget ==>
                  Measure(s'.reqs) < Measure(s.reqs))
    decreases |queue|
  {
    if queue != [] {
      var i := queue[0];
      assert Waits(s.reqs, Prefill, i);
      var s' := PrefillSlot(s, i, o.target(i));
      MeasureUpdate(s.reqs, i, s'.reqs[i]);
      QueueTail(s.reqs, Prefill, queue, s'.reqs[i]);
      PrefillsLower(cfg, s', queue[1..], Wrap32(spent + |s.reqs[i].prompt|), o);
    }
  }

  lemma {:induction false} DecodeSlotLowers(cfg: Config, s: Sched, i: nat, inf: Infer)
    requires Waits(s.reqs, Decode, i) && LensOk(s.reqs)
    ensures var s' := DecodeSlot(cfg, s, i, inf); LensOk(s'.reqs) && Measure(s'.reqs) < Measure(s.reqs)
  {
    var s' := DecodeSlot(cfg, s, i, inf);
    DecodeTouchesOneSlot(cfg, s, i, inf);
    MeasureUpdate(s.reqs, i, s'.reqs[i]);
  }

  lemma {:induction false} DecodesLower(cfg: Config, s: Sched, queue: seq<nat>, o: Oracle)
    requires QueueOk(s.reqs, Decode, queue) && LensOk(s.reqs)
    ensures Measure(Decodes(cfg, s, queue, o).reqs) <= Measure(s.reqs)
    ensures queue != [] ==> Measure(Decodes(cfg, s, queue, o).reqs) < Measure(s.reqs)
    decreases |queue|
  {
    if queue != [] {
      var i := queue[0];
      assert Waits(s.reqs, Decode, i);
      var s' := DecodeSlot(cfg, s, i, o.infer(i));
      DecodeSlotLowers(cfg, s, i, o.infer(i));
      DecodeTouchesOneSlot(cfg, s, i, o.infer(i));
      QueueTail(s.reqs, Decode, queue, s'.reqs[i]);
      DecodesLower(cfg, s', queue[1..], o);
    }
  }

  lemma {:induction false} RetiresCostNothing(s: Sched, i: nat)
    requires i <= |s.reqs|
    ensures Measure(Retires(s, i).reqs) == Measure(s.reqs)
    decreases |s.reqs| - i
  {
    if i < |s.reqs| {
      var s' := RetireSlot(s, i);
      MeasureUpdate(s.reqs, i, s'.reqs[i]);
      assert s'.reqs == s.reqs[i := s'.reqs[i]];
      RetiresCostNothing(s', i + 1);
    }
  }

  /** Every request waiting for prefill fits the budget. */
  predicate Fits(cfg: Config, reqs: seq<Request>) {
    forall i | 0 <= i < |reqs| :: Waits(reqs, Prefill, i) ==> |reqs[i].prompt| <= cfg.prefillBudget
  }

  /** An iteration with work to do brings the scheduler strictly closer to idle, whatever
      inference and dispatch return. */
  lemma {:induction false} StepLowersMeasure(cfg: Config, s: Sched, o: Oracle)
    requires Inv(s) && AtRest(s) && s.active > 0 && cfg.maxBatch >= 1 && Fits(cfg, s.reqs)
    ensures Measure(Step(cfg, s, o).reqs) < Measure(s.reqs)
  {
    InvLens(s);
    var s1 := AfterPrefills(cfg, s, o);
    PrefillsLower(cfg, s, Queue(s.reqs, Prefill, |s.reqs|), 0, o);
    DecodesLower(cfg, s1, Batch(cfg, s1.reqs), o);
    RetiresCostNothing(AfterDecodes(cfg, s1, o), 0);
    SomethingToDo(cfg, s);
  }

  lemma {:induction false} InvLens(s: Sched)
    requires Inv(s)
    ensures LensOk(s.reqs)
  {
    forall i | 0 <= i < |s.reqs| && Live(s.reqs[i]) ensures SeqLen(s.reqs[i]) <= MAX_SEQ_LEN {
      assert SlotOk(s, i);
    }
  }

  /** With a request in flight, a prefill that fits heads the prefill queue, or that queue is
      empty and the decode batch is not. */
  lemma {:induction false} SomethingToDo(cfg: Config, s: Sched)
    requires Inv(s) && AtRest(s) && s.active > 0 && cfg.maxBatch >= 1 && Fits(cfg, s.reqs)
    ensures Measure(s.reqs) > 0
    ensures var q := Queue(s.reqs, Prefill, |s.reqs|);
            if q != [] then Wrap32(|s.reqs[q[0]].prompt|) <= cfg.prefillBudget else Batch(cfg, s.reqs) != []
  {
    var i := SomeLive(s);
    LiveCosts(s.reqs, i);
    var q := Queue(s.reqs, Prefill, |s.reqs|);
    if q != [] {
      assert Waits(s.reqs, Prefill, q[0]);
    } else {
      assert i !in q;
      assert Waits(s.reqs, Decode, i);
    }
  }

  lemma {:induction false} SomeLive(s: Sched) returns (i: nat)
    requires Inv(s) && AtRest(s) && s.active > 0
    ensures i < |s.reqs| && Live(s.reqs[i]) && Cost(s.reqs[i]) > 0
  {
    assert Active(s.reqs) != {};
    i :| i in Active(s.reqs);
    assert SlotOk(s, i);
  }

  /** Iterations without submissions in between. */
  function Steps(cfg: Config, s: Sched, os: seq<Oracle>): Sched
    decreases |os|
  {
    if os == [] then s else Steps(cfg, Step(cfg, s, os[0]), os[1..])
  }

  lemma {:induction false} GoesIdle(cfg: Config, s: Sched, os: seq<Oracle>)
    requires Inv(s) && AtRest(s) && cfg.maxBatch >= 1 && Fits(cfg, s.reqs)
    requires |os| >= Measure(s.reqs)
    ensures Steps(cfg, s, os).active == 0
    decreases |os|
  {
    if s.active == 0 {
      StaysIdle(cfg, s, os);
    } else {
      SomethingToDo(cfg, s);
      StepLowersMeasure(cfg, s, os[0]);
      StepKeepsInv(cfg, s, os[0]);
      StepEvolves(cfg, s, os[0]);
      GoesIdle(cfg, Step(cfg, s, os[0]), os[1..]);
    }
  }

  lemma {:induction false} StaysIdle(cfg: Config, s: Sched, os: seq<Oracle>)
    requires Inv(s) && s.active == 0
    ensures Steps(cfg, s, os).active == 0
    decreases |os|
  {
    if os != [] {
      var s' := Step(cfg, s, os[0]);
      StepKeepsInv(cfg, s, os[0]);
      NothingToDo(cfg, s, os[0]);
      StaysIdle(cfg, s', os[1..]);
    }
  }

  lemma {:induction false} NothingToDo(cfg: Config, s: Sched, o: Oracle)
    requires Inv(s) && s.active == 0
    ensures Step(cfg, s, o) == s
  {
    forall i | 0 <= i < |s.reqs| ensures s.reqs[i].id == 0 {
      assert i !in Active(s.reqs);
    }
    NothingToRetire(s, 0);
  }

  lemma {:induction false} NothingToRetire(s: Sched, i: nat)
    requires i <= |s.reqs| && AtRest(s)
    ensures Retires(s, i) == s
    decreases |s.reqs| - i
  {
    if i < |s.reqs| {
      NothingToRetire(s, i + 1);
    }
  }

  /** A prompt larger than the budget is never prefilled. */
  predicate Blocked(cfg: Config, reqs: seq<Request>, j: nat) {
    Waits(reqs, Prefill, j) && cfg.prefillBudget < |reqs[j].prompt| <= MAX_SEQ_LEN
  }

  lemma {:induction false} PrefillsKeepBlocked(cfg: Config, s: Sched, queue: seq<nat>, spent: nat, o: Oracle, j: nat)
    requires QueueOk(s.reqs, Prefill, queue) && Blocked(cfg, s.reqs, j)
    requires spent <= cfg.prefillBudget
    ensures Prefills(cfg, s, queue, spent, o).reqs[j] == s.reqs[j]
    decreases |queue|
  {
    if queue != [] {
      var i := queue[0];
      assert Waits(s.reqs, Prefill, i);
      var sum := Wrap32(spent + |s.reqs[i].prompt|);
      if sum <= cfg.prefillBudget {
        var s' := PrefillSlot(s, i, o.target(i));
        QueueTail(s.reqs, Prefill, queue, s'.reqs[i]);
        PrefillsKeepBlocked(cfg, s', queue[1..], sum, o, j);
      }
    }
  }

  lemma {:induction false} DecodesKeepOthers(cfg: Config, s: Sched, queue: seq<nat>, o: Oracle, j: nat)
    requires QueueOk(s.reqs, Decode, queue) && j < |s.reqs| && j !in queue
    ensures Decodes(cfg, s, queue, o).reqs[j] == s.reqs[j]
    decreases |queue|
  {
    if queue != [] {
      var i := queue[0];
      assert Waits(s.reqs, Decode, i);
      var s' := DecodeSlot(cfg, s, i, o.infer(i));
      DecodeTouchesOneSlot(cfg, s, i, o.infer(i));
      QueueTail(s.reqs, Decode, queue, s'.reqs[i]);
      DecodesKeepOthers(cfg, s', queue[1..], o, j);
    }
  }

  lemma {:induction false} RetiresKeepLive(s: Sched, i: nat, j: nat)
    requires i <= |s.reqs| && j < |s.reqs| && s.reqs[j].phase != Done
    ensures Retires(s, i).reqs[j] == s.reqs[j]
    decreases |s.reqs| - i
  {
    if i < |s.reqs| {
      RetiresKeepLive(RetireSlot(s, i), i + 1, j);
    }
  }

  lemma {:induction false} PrefillsKeepLive(cfg: Config, s: Sched, queue: seq<nat>, spent: nat, o: Oracle, j: nat)
    requires QueueOk(s.reqs, Prefill, queue) && j < |s.reqs| && Live(s.reqs[j])
    ensures Live(Prefills(cfg, s, queue, spent, o).reqs[j])
    decreases |queue|
  {
    if queue != [] {
      var i := queue[0];
      assert Waits(s.reqs, Prefill, i);
      var s' := PrefillSlot(s, i, o.target(i));
      QueueTail(s.reqs, Prefill, queue, s'.reqs[i]);
      PrefillsKeepLive(cfg, s', queue[1..], Wrap32(spent + |s.reqs[i].prompt|), o, j);
    }
  }

  /** Slot `j` can never become idle: its prompt exceeds the budget, or nothing is ever
      decoded. */
  predicate Starved(cfg: Config, reqs: seq<Request>, j: nat) {
    j < |reqs| && (Blocked(cfg, reqs, j) || (cfg.maxBatch == 0 && Live(reqs[j])))
  }

  lemma {:induction false} StepKeepsStarved(cfg: Config, s: Sched, o: Oracle, j: nat)
    requires Starved(cfg, s.reqs, j)
    ensures Starved(cfg, Step(cfg, s, o).reqs, j)
  {
    var q1 := Queue(s.reqs, Prefill, |s.reqs|);
    PrefillsKeepLive(cfg, s, q1, 0, o, j);
    if Blocked(cfg, s.reqs, j) {
      PrefillsKeepBlocked(cfg, s, q1, 0, o, j);
    }
    var s1 := AfterPrefills(cfg, s, o);
    assert j !in Batch(cfg, s1.reqs);
    DecodesKeepOthers(cfg, s1, Batch(cfg, s1.reqs), o, j);
    RetiresKeepLive(AfterDecodes(cfg, s1, o), 0, j);
  }

  lemma {:induction false} NeverIdle(cfg: Config, s: Sched, os: seq<Oracle>, j: nat)
    requires Inv(s) && Starved(cfg, s.reqs, j)
    ensures Steps(cfg, s, os).active > 0
    decreases |os|
  {
    if os == [] {
      assert j in Active(s.reqs);
    } else {
      StepKeepsStarved(cfg, s, os[0], j);
      StepKeepsInv(cfg, s, os[0]);
      NeverIdle(cfg, Step(cfg, s, os[0]), os[1..], j);
    }
  }

  /** Left alone, the scheduler goes idle within `Measure` iterations whatever inference and
      dispatch return, if and only if it is idle already, or it decodes at least one request
      per iteration and every prompt waiting for prefill fits the budget. */
  lemma {:induction false} GoesIdleIff(cfg: Config, run: seq<Sched>, calls: seq<Call>, i: nat)
    requires IsRun(cfg, run, calls) && i < |run|
    ensures var s := run[i];
            (forall os: seq<Oracle> | |os| >= Measure(s.reqs) :: Steps(cfg, s, os).active == 0) <==>
            s.active == 0 || (cfg.maxBatch >= 1 && Fits(cfg, s.reqs))
  {
    var s := run[i];
    RunKeepsInv(cfg, run, calls, i);
    if s.active == 0 || (cfg.maxBatch >= 1 && Fits(cfg, s.reqs)) {
      forall os: seq<Oracle> | |os| >= Measure(s.reqs) ensures Steps(cfg, s, os).active == 0 {
        AlwaysDrains(cfg, s, os);
      }
    } else {
      var os := NeverDrains(cfg, s, Measure(s.reqs));
    }
  }

  lemma {:induction false} AlwaysDrains(cfg: Config, s: Sched, os: seq<Oracle>)
    requires Inv(s) && AtRest(s) && |os| >= Measure(s.reqs)
    requires s.active == 0 || (cfg.maxBatch >= 1 && Fits(cfg, s.reqs))
    ensures Steps(cfg, s, os).active == 0
  {
    if s.active == 0 {
      StaysIdle(cfg, s, os);
    } else {
      GoesIdle(cfg, s, os);
    }
  }

  lemma {:induction false} NeverDrains(cfg: Config, s: Sched, n: nat) returns (os: seq<Oracle>)
    requires Inv(s) && AtRest(s) && s.active > 0 && !(cfg.maxBatch >= 1 && Fits(cfg, s.reqs))
    ensures |os| == n && Steps(cfg, s, os).active > 0
  {
    var j := StarvedSlot(cfg, s);
    os := seq(n, _ => Oracle(_ => Cpu, _ => Infer(None, None)));
    NeverIdle(cfg, s, os, j);
  }

  lemma {:induction false} StarvedSlot(cfg: Config, s: Sched) returns (j: nat)
    requires Inv(s) && AtRest(s) && s.active > 0 && !(cfg.maxBatch >= 1 && Fits(cfg, s.reqs))
    ensures Starved(cfg, s.reqs, j)
  {
    if cfg.maxBatch == 0 {
      assert Active(s.reqs) != {};
      j :| j in Active(s.reqs);
    } else {
      j :| 0 <= j < |s.reqs| && Waits(s.reqs, Prefill, j) && |s.reqs[j].prompt| > cfg.prefillBudget;
      assert SlotOk(s, j);
    }
  }
}
