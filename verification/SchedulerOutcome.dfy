/** What one decode step and one whole iteration do to a request, by the results of the two
    inference paths: the slot left, the replies sent and the tokens counted. */
module SchedulerOutcome {
  import opened Bits
  import opened Common
  import opened SchedulerSpec
  import opened SchedulerPolicy
  import opened SchedulerProgress

  // ---- One decode step ------------------------------------------------------

  /** A request that runs on the GPU takes the GPU's result, or fails without a GPU. One that
      runs on the CPU takes the CPU's, unless that is an error and there is a GPU: then it takes
      the GPU's and stays there. No result fails the request; the EOS token ends it; any other
      token is sent, and appended or, at 32768 tokens, followed by the end of the request. */
  lemma {:induction false} DecodeOutcome(cfg: Config, s: Sched, i: nat, inf: Infer)
    returns (target: Target, next: Option<Token>)
    requires i < |s.reqs|
    ensures s.reqs[i].target == Gpu ==> target == Gpu && next == if cfg.hasGpu then inf.gpu else None
    ensures s.reqs[i].target == Cpu && inf.cpu.Some? ==> target == Cpu && next == inf.cpu
    ensures s.reqs[i].target == Cpu && inf.cpu.None? && cfg.hasGpu ==> target == Gpu && next == inf.gpu
    ensures s.reqs[i].target == Cpu && inf.cpu.None? && !cfg.hasGpu ==> target == Cpu && next == None
    ensures var r := s.reqs[i];
            var s' := DecodeSlot(cfg, s, i, inf);
            var ended := r.(phase := Done, target := target);
            && s'.active == s.active && s'.nextId == s.nextId && s'.total == s.total
            && (next == None ==>
                  && s'.reqs == s.reqs[i := ended] && s'.log == s.log && s'.generated == s.generated
                  && s'.completed == s.completed && s'.failed == s.failed + 1
                  && s'.finals == s.finals[r.id := Final(r.prompt, r.generated, None, false)])
            && (next == Some(cfg.eos) ==>
                  && s'.reqs == s.reqs[i := ended] && s'.log == s.log + [Eos(r.id)] && s'.generated == s.generated
                  && s'.completed == s.completed + 1 && s'.failed == s.failed
                  && s'.finals == s.finals[r.id := Final(r.prompt, r.generated, None, true)])
            && (next.Some? && next.value != cfg.eos && |r.prompt| + |r.generated| < 32768 ==>
                  && s'.reqs == s.reqs[i := r.(generated := r.generated + [next.value], target := target)]
                  && s'.log == s.log + [Emit(r.id, next.value)] && s'.generated == s.generated + 1
                  && s'.completed == s.completed && s'.failed == s.failed && s'.finals == s.finals)
            && (next.Some? && next.value != cfg.eos && |r.prompt| + |r.generated| >= 32768 ==>
                  && s'.reqs == s.reqs[i := ended]
                  && s'.log == s.log + [Emit(r.id, next.value), Eos(r.id)] && s'.generated == s.generated + 1
                  && s'.completed == s.completed + 1 && s'.failed == s.failed
                  && s'.finals == s.finals[r.id := Final(r.prompt, r.generated, next, true)])
  {
    var (t, n) := Inferred(cfg, s.reqs[i].target, inf);
    target, next := t, n;
  }

  /** What the client of a decoded request is sent. */
  function Replies(cfg: Config, r: Request, next: Option<Token>): seq<Reply> {
    if next.None? then []
    else if next.value == cfg.eos then [End]
    else if SeqLen(r) < 32768 then [Tok(next.value)]
    else [Tok(next.value), End]
  }

  lemma {:induction false} ResponseAppendTwo(log: seq<Event>, e: Event, f: Event, id: nat)
    requires e.id == f.id
    ensures Response(log + [e, f], id) == if e.id != id then Response(log, id) else
              Response(log, id) + [if e.Emit? then Tok(e.token) else End, if f.Emit? then Tok(f.token) else End]
  {
    assert log + [e, f] == log + [e] + [f];
    ResponseAppend(log, e, id);
    ResponseAppend(log + [e], f, id);
  }

  lemma {:induction false} DecodeReplies(cfg: Config, s: Sched, i: nat, inf: Infer, id: nat)
    requires i < |s.reqs|
    ensures var r := s.reqs[i];
            Response(DecodeSlot(cfg, s, i, inf).log, id) ==
            if id == r.id then Response(s.log, id) + Replies(cfg, r, Inferred(cfg, r.target, inf).1)
            else Response(s.log, id)
  {
    var r := s.reqs[i];
    var next := Inferred(cfg, r.target, inf).1;
    if next.Some? {
      ResponseAppend(s.log, Eos(r.id), id);
      ResponseAppend(s.log, Emit(r.id, next.value), id);
      ResponseAppendTwo(s.log, Emit(r.id, next.value), Eos(r.id), id);
    }
  }

  // ---- One iteration --------------------------------------------------------

  /** The decode loop sends nothing to the client of a request outside the batch. */
  lemma {:induction false} DecodesSilent(cfg: Config, s: Sched, queue: seq<nat>, o: Oracle, id: nat)
    requires Within(queue, |s.reqs|) && forall a | 0 <= a < |queue| :: s.reqs[queue[a]].id != id
    ensures Response(Decodes(cfg, s, queue, o).log, id) == Response(s.log, id)
    decreases |queue|
  {
    if queue != [] {
      var i := queue[0];
      var s' := DecodeSlot(cfg, s, i, o.infer(i));
      DecodeReplies(cfg, s, i, o.infer(i), id);
      DecodeTouchesOneSlot(cfg, s, i, o.infer(i));
      forall a | 0 <= a < |queue[1..]| ensures s'.reqs[queue[1..][a]].id != id {
        assert s.reqs[queue[a + 1]].id != id;
      }
      DecodesSilent(cfg, s', queue[1..], o, id);
    }
  }

  ghost predicate DistinctIds(reqs: seq<Request>) {
    forall i, j | 0 <= i < j < |reqs| && reqs[i].id != 0 :: reqs[i].id != reqs[j].id
  }

  /** It sends to the client of a request in the batch what that request's one step sends. */
  lemma {:induction false} DecodesReply(cfg: Config, s: Sched, queue: seq<nat>, o: Oracle, j: nat)
    requires DistinctIds(s.reqs) && QueueOk(s.reqs, Decode, queue) && Within(queue, |s.reqs|) && j in queue
    ensures var r := s.reqs[j];
            Response(Decodes(cfg, s, queue, o).log, r.id) ==
            Response(s.log, r.id) + Replies(cfg, r, Inferred(cfg, r.target, o.infer(j)).1)
    decreases |queue|
  {
    var i := queue[0];
    var s' := DecodeSlot(cfg, s, i, o.infer(i));
    var id := s.reqs[j].id;
    assert Waits(s.reqs, Decode, i);
    DecodeReplies(cfg, s, i, o.infer(i), id);
    DecodeTouchesOneSlot(cfg, s, i, o.infer(i));
    QueueTail(s.reqs, Decode, queue, s'.reqs[i]);
    if i == j {
      forall a | 0 <= a < |queue[1..]| ensures s'.reqs[queue[1..][a]].id != id {
        assert queue[0] < queue[a + 1];
      }
      DecodesSilent(cfg, s', queue[1..], o, id);
    } else {
      assert j in queue[1..];
      assert Waits(s.reqs, Decode, j);
      DecodesReply(cfg, s', queue[1..], o, j);
    }
  }

  /** The prefill loop leaves a slot alone or moves it from prefill to decode. */
  lemma {:induction false} PrefillsAt(cfg: Config, s: Sched, queue: seq<nat>, spent: nat, o: Oracle, j: nat)
    requires QueueOk(s.reqs, Prefill, queue) && Within(queue, |s.reqs|) && j < |s.reqs|
    ensures var r := Prefills(cfg, s, queue, spent, o).reqs[j];
            || r == s.reqs[j]
            || (s.reqs[j].phase == Prefill && r == s.reqs[j].(phase := Decode, target := o.target(j)))
    decreases |queue|
  {
    if queue != [] {
      var i := queue[0];
      assert Waits(s.reqs, Prefill, i);
      var s' := PrefillSlot(s, i, o.target(i));
      QueueTail(s.reqs, Prefill, queue, s'.reqs[i]);
      PrefillsAt(cfg, s', queue[1..], Wrap32(spent + |s.reqs[i].prompt|), o, j);
    }
  }

  /** A batched slot after the three phases. */
  lemma {:induction false} StepSlot(cfg: Config, s: Sched, o: Oracle, j: nat)
    requires Inv(s) && j in Batch(cfg, AfterPrefills(cfg, s, o).reqs)
    ensures var r := AfterPrefills(cfg, s, o).reqs[j];
            var d := DecodedSlot(cfg, r, o.infer(j));
            Step(cfg, s, o).reqs[j] == if d.phase == Done then d.(id := 0, prompt := [], generated := []) else d
  {
    var s1 := AfterPrefills(cfg, s, o);
    assert Waits(s1.reqs, Decode, j);
    DecodesEachOnce(cfg, s1, Batch(cfg, s1.reqs), o, j);
    RetiresAt(AfterDecodes(cfg, s1, o), 0, j);
  }

  /** What its client is sent in the iteration. */
  lemma {:induction false} StepReplies(cfg: Config, s: Sched, o: Oracle, j: nat)
    requires Inv(s) && j in Batch(cfg, AfterPrefills(cfg, s, o).reqs)
    ensures var r := AfterPrefills(cfg, s, o).reqs[j];
            Response(Step(cfg, s, o).log, r.id) ==
            Response(s.log, r.id) + Replies(cfg, r, Inferred(cfg, r.target, o.infer(j)).1)
  {
    var queue := Queue(s.reqs, Prefill, |s.reqs|);
    var s1 := AfterPrefills(cfg, s, o);
    PrefillsKeepInv(cfg, s, queue, 0, o);
    PrefillsKeepHistory(cfg, s, queue, 0, o);
    DecodesReply(cfg, s1, Batch(cfg, s1.reqs), o, j);
    RetiresKeepHistory(AfterDecodes(cfg, s1, o), 0);
  }

  /** What one step makes of a request that runs at `place` and takes the result `next`. */
  function SlotAfter(cfg: Config, r: Request, target: Target, next: Option<Token>): Request {
    if next.Some? && next.value != cfg.eos && SeqLen(r) < 32768
    then Request(r.id, Decode, target, r.prompt, r.generated + [next.value])
    else Request(0, Done, target, [], [])
  }

  /** A batched request, its place, and what becomes of it. */
  lemma {:induction false} StepTakes(cfg: Config, s: Sched, o: Oracle, j: nat)
    returns (place: Target, target: Target, next: Option<Token>)
    requires Inv(s) && j in Batch(cfg, AfterPrefills(cfg, s, o).reqs)
    ensures j < |s.reqs| && Live(s.reqs[j])
    ensures place == if s.reqs[j].phase == Prefill then o.target(j) else s.reqs[j].target
    ensures (target, next) == Inferred(cfg, place, o.infer(j))
    ensures Step(cfg, s, o).reqs[j] == SlotAfter(cfg, s.reqs[j], target, next)
    ensures Response(Step(cfg, s, o).log, s.reqs[j].id) ==
            Response(s.log, s.reqs[j].id) + Replies(cfg, s.reqs[j], next)
  {
    var s1 := AfterPrefills(cfg, s, o);
    assert Waits(s1.reqs, Decode, j);
    PrefillsAt(cfg, s, Queue(s.reqs, Prefill, |s.reqs|), 0, o, j);
    StepSlot(cfg, s, o, j);
    StepReplies(cfg, s, o, j);
    place := s1.reqs[j].target;
    var (t, n) := Inferred(cfg, place, o.infer(j));
    target, next := t, n;
  }

  /** One iteration for a request of its batch, whatever the other requests do. `place` is where
      it runs: the dispatch decision if it is prefilled in this iteration, else where it ran
      before. */
  lemma {:induction false} StepOutcome(cfg: Config, s: Sched, o: Oracle, j: nat)
    returns (place: Target, target: Target, next: Option<Token>)
    requires Inv(s) && j in Batch(cfg, AfterPrefills(cfg, s, o).reqs)
    ensures j < |s.reqs| && Live(s.reqs[j])
    ensures place == if s.reqs[j].phase == Prefill then o.target(j) else s.reqs[j].target
    ensures var inf := o.infer(j);
            && (place == Gpu ==> target == Gpu && next == if cfg.hasGpu then inf.gpu else None)
            && (place == Cpu && inf.cpu.Some? ==> target == Cpu && next == inf.cpu)
            && (place == Cpu && inf.cpu.None? && cfg.hasGpu ==> target == Gpu && next == inf.gpu)
            && (place == Cpu && inf.cpu.None? && !cfg.hasGpu ==> target == Cpu && next == None)
    ensures var r := s.reqs[j];
            var s' := Step(cfg, s, o);
            var full := |r.prompt| + |r.generated| >= 32768;
            && (next == None ==>
                  s'.reqs[j].id == 0 && Response(s'.log, r.id) == Response(s.log, r.id))
            && (next == Some(cfg.eos) ==>
                  s'.reqs[j].id == 0 && Response(s'.log, r.id) == Response(s.log, r.id) + [End])
            && (next.Some? && next.value != cfg.eos && !full ==>
                  && s'.reqs[j] == Request(r.id, Decode, target, r.prompt, r.generated + [next.value])
                  && Response(s'.log, r.id) == Response(s.log, r.id) + [Tok(next.value)])
            && (next.Some? && next.value != cfg.eos && full ==>
                  s'.reqs[j].id == 0 && Response(s'.log, r.id) == Response(s.log, r.id) + [Tok(next.value), End])
  {
    place, target, next := StepTakes(cfg, s, o, j);
  }

  // ---- Every run counts what it sends ---------------------------------------

  /** The tokens among the events sent. */
  function Emits(log: seq<Event>): nat {
    if log == [] then 0 else Emits(log[1..]) + if log[0].Emit? then 1 else 0
  }

  lemma {:induction false} EmitsConcat(log: seq<Event>, more: seq<Event>)
    ensures Emits(log + more) == Emits(log) + Emits(more)
  {
    if log == [] {
      assert log + more == more;
    } else {
      assert (log + more)[1..] == log[1..] + more;
      EmitsConcat(log[1..], more);
    }
  }

  /** The counter of generated tokens has grown as much as the tokens sent. */
  predicate Counted(s: Sched, s': Sched) { s'.generated - s.generated == Emits(s'.log) - Emits(s.log) }

  lemma {:induction false} DecodeCounts(cfg: Config, s: Sched, i: nat, inf: Infer)
    requires i < |s.reqs|
    ensures Counted(s, DecodeSlot(cfg, s, i, inf))
  {
    var r := s.reqs[i];
    var _, next := DecodeOutcome(cfg, s, i, inf);
    EmitsConcat(s.log, [Eos(r.id)]);
    if next.Some? {
      EmitsConcat(s.log, [Emit(r.id, next.value)]);
      EmitsConcat(s.log, [Emit(r.id, next.value), Eos(r.id)]);
      assert [Emit(r.id, next.value), Eos(r.id)][1..] == [Eos(r.id)];
    }
  }

  lemma {:induction false} DecodesCount(cfg: Config, s: Sched, queue: seq<nat>, o: Oracle)
    requires Within(queue, |s.reqs|)
    ensures Counted(s, Decodes(cfg, s, queue, o))
    decreases |queue|
  {
    if queue != [] {
      DecodeCounts(cfg, s, queue[0], o.infer(queue[0]));
      DecodesCount(cfg, DecodeSlot(cfg, s, queue[0], o.infer(queue[0])), queue[1..], o);
    }
  }

  lemma {:induction false} PrefillsKeepGenerated(cfg: Config, s: Sched, queue: seq<nat>, spent: nat, o: Oracle)
    requires Within(queue, |s.reqs|)
    ensures Prefills(cfg, s, queue, spent, o).generated == s.generated
    decreases |queue|
  {
    if queue != [] {
      var i := queue[0];
      PrefillsKeepGenerated(cfg, PrefillSlot(s, i, o.target(i)), queue[1..], Wrap32(spent + |s.reqs[i].prompt|), o);
    }
  }

  lemma {:induction false} RetiresKeepGenerated(s: Sched, i: nat)
    requires i <= |s.reqs|
    ensures Retires(s, i).generated == s.generated
    decreases |s.reqs| - i
  {
    if i < |s.reqs| {
      RetiresKeepGenerated(RetireSlot(s, i), i + 1);
    }
  }

  /** What kllm_batch_step adds to its counter is the number of tokens it sends. */
  lemma {:induction false} StepCounts(cfg: Config, s: Sched, o: Oracle)
    ensures Step(cfg, s, o).generated - s.generated == Emits(Step(cfg, s, o).log) - Emits(s.log)
  {
    var queue := Queue(s.reqs, Prefill, |s.reqs|);
    var s1 := AfterPrefills(cfg, s, o);
    PrefillsKeepHistory(cfg, s, queue, 0, o);
    PrefillsKeepGenerated(cfg, s, queue, 0, o);
    DecodesCount(cfg, s1, Batch(cfg, s1.reqs), o);
    RetiresKeepHistory(AfterDecodes(cfg, s1, o), 0);
    RetiresKeepGenerated(AfterDecodes(cfg, s1, o), 0);
  }

  /** In every run the counter of generated tokens is the number of tokens sent. */
  lemma {:induction false} GeneratedIsSent(cfg: Config, run: seq<Sched>, calls: seq<Call>, i: nat)
    requires IsRun(cfg, run, calls) && i < |run|
    ensures run[i].generated == run[0].generated + Emits(run[i].log)
  {
    if i > 0 {
      GeneratedIsSent(cfg, run, calls, i - 1);
      assert CallAt(cfg, run, calls, i - 1);
      match calls[i - 1]
      case DoSubmit(prompt, memOk) =>
      case DoStep(o) => StepCounts(cfg, run[i - 1], o);
    }
  }

  // ---- Ids ------------------------------------------------------------------

  predicate SameTotals(s: Sched, s': Sched) { s'.nextId == s.nextId && s'.total == s.total }

  lemma {:induction false} PrefillsKeepTotals(cfg: Config, s: Sched, queue: seq<nat>, spent: nat, o: Oracle)
    requires Within(queue, |s.reqs|)
    ensures SameTotals(s, Prefills(cfg, s, queue, spent, o))
    decreases |queue|
  {
    if queue != [] {
      var i := queue[0];
      PrefillsKeepTotals(cfg, PrefillSlot(s, i, o.target(i)), queue[1..], Wrap32(spent + |s.reqs[i].prompt|), o);
    }
  }

  lemma {:induction false} DecodesKeepTotals(cfg: Config, s: Sched, queue: seq<nat>, o: Oracle)
    requires Within(queue, |s.reqs|)
    ensures SameTotals(s, Decodes(cfg, s, queue, o))
    decreases |queue|
  {
    if queue != [] {
      DecodesKeepTotals(cfg, DecodeSlot(cfg, s, queue[0], o.infer(queue[0])), queue[1..], o);
    }
  }

  lemma {:induction false} RetiresKeepTotals(s: Sched, i: nat)
    requires i <= |s.reqs|
    ensures SameTotals(s, Retires(s, i))
    decreases |s.reqs| - i
  {
    if i < |s.reqs| {
      RetiresKeepTotals(RetireSlot(s, i), i + 1);
    }
  }

  lemma {:induction false} StepKeepsTotals(cfg: Config, s: Sched, o: Oracle)
    ensures SameTotals(s, Step(cfg, s, o))
  {
    var s1 := AfterPrefills(cfg, s, o);
    PrefillsKeepTotals(cfg, s, Queue(s.reqs, Prefill, |s.reqs|), 0, o);
    DecodesKeepTotals(cfg, s1, Batch(cfg, s1.reqs), o);
    RetiresKeepTotals(AfterDecodes(cfg, s1, o), 0);
  }

  /** Ids are handed out in order: the n-th accepted request of a run has id n. */
  lemma {:induction false} IdsInOrder(cfg: Config, run: seq<Sched>, calls: seq<Call>, i: nat, prompt: seq<Token>,
                                      memOk: bool)
    requires IsRun(cfg, run, calls) && i < |run|
    ensures run[i].nextId == run[i].total + 1
    ensures Submit(run[i], prompt, memOk).1 in {0, run[i].total + 1}
  {
    if i > 0 {
      IdsInOrder(cfg, run, calls, i - 1, prompt, memOk);
      assert CallAt(cfg, run, calls, i - 1);
      match calls[i - 1]
      case DoSubmit(_, _) =>
      case DoStep(o) => StepKeepsTotals(cfg, run[i - 1], o);
    }
  }
}
