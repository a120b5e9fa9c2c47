/** The continuous-batching scheduler as a state machine over a fixed pool of request
    slots. Inference and dispatch are arbitrary oracles. */
module SchedulerSpec {
  import opened Bits
  import opened Common

  const MAX_SEQ_LEN: nat := 32768

  datatype Phase = Prefill | Decode | Done

  datatype Target = Cpu | Gpu

  /** The request's token buffer holds the prompt followed by what was generated. */
  datatype Request = Request(id: nat, phase: Phase, target: Target, prompt: seq<Token>, generated: seq<Token>)

  datatype Config = Config(maxBatch: nat, prefillBudget: nat, eos: Token, hasGpu: bool)

  /** What the two inference paths return for one decode step; None is an error. */
  datatype Infer = Infer(cpu: Option<Token>, gpu: Option<Token>)

  /** The dispatch decision and the inference results of one iteration, by slot. */
  datatype Oracle = Oracle(target: nat -> Target, infer: nat -> Infer)

  /** What is sent back for request `id`. */
  datatype Event = Emit(id: nat, token: Token) | Eos(id: nat)

  /** How a request ended. `extra` is a last token that was sent but not appended. */
  datatype Final = Final(prompt: seq<Token>, generated: seq<Token>, extra: Option<Token>, completed: bool)

  /** `failed`, `log` and `finals` are history: they record what the source does not keep. */
  datatype Sched = Sched(
    reqs: seq<Request>,
    active: int,
    nextId: nat,
    total: nat,
    completed: nat,
    failed: nat,
    generated: nat,
    log: seq<Event>,
    finals: map<nat, Final>)

  function SeqLen(r: Request): nat { |r.prompt| + |r.generated| }

  predicate Live(r: Request) { r.id != 0 && r.phase != Done }

  // ---- Submission -----------------------------------------------------------

  /** The first slot from `i` on that is DONE, with id 0 if `idle`. */
  function FirstDone(reqs: seq<Request>, idle: bool, i: nat): (r: Option<nat>)
    requires i <= |reqs|
    ensures r.Some? ==> i <= r.value < |reqs| && reqs[r.value].phase == Done && (idle ==> reqs[r.value].id == 0)
    ensures forall j | i <= j < (if r.Some? then r.value else |reqs|) ::
              !(reqs[j].phase == Done && (idle ==> reqs[j].id == 0))
    decreases |reqs| - i
  {
    if i == |reqs| then None
    else if reqs[i].phase == Done && (idle ==> reqs[i].id == 0) then Some(i)
    else FirstDone(reqs, idle, i + 1)
  }

  /** find_free_slot: an idle DONE slot, else any DONE slot. */
  function FindFree(reqs: seq<Request>): Option<nat> {
    var idle := FirstDone(reqs, true, 0);
    if idle.Some? then idle else FirstDone(reqs, false, 0)
  }

  const ZEROED: Request := Request(0, Prefill, Cpu, [], [])

  /** What find_free_slot leaves in the slot it returns: an idle slot as it is, a reclaimed one
      zeroed. */
  function Claimed(r: Request): Request { if r.id == 0 then r else ZEROED }

  /** kllm_batch_submit: the new state and the request id, or 0. `memOk` says whether the token
      buffer could be allocated. */
  function Submit(s: Sched, prompt: seq<Token>, memOk: bool): (Sched, nat) {
    if s.active >= |s.reqs| then (s, 0)
    else
      var slot := FindFree(s.reqs);
      if slot.None? then (s, 0)
      else
        var r := Claimed(s.reqs[slot.value]);
        if !memOk then (s.(reqs := s.reqs[slot.value := r]), 0)
        else
          (s.(reqs := s.reqs[slot.value := Request(s.nextId, Prefill, r.target, prompt, [])],
              nextId := s.nextId + 1,
              active := s.active + 1,
              total := s.total + 1),
           s.nextId)
  }

  // ---- One iteration, slot by slot ------------------------------------------

  /** run_prefill */
  function PrefillSlot(s: Sched, i: nat, target: Target): Sched
    requires i < |s.reqs|
  {
    s.(reqs := s.reqs[i := s.reqs[i].(phase := Decode, target := target)])
  }

  /** The result of one inference call, after a possible escalation from CPU to GPU. */
  function Inferred(cfg: Config, target: Target, inf: Infer): (Target, Option<Token>) {
    match target
    case Cpu => if inf.cpu.None? && cfg.hasGpu then (Gpu, inf.gpu) else (Cpu, inf.cpu)
    case Gpu => (Gpu, if cfg.hasGpu then inf.gpu else None)
  }

  /** Marks slot `i` DONE and records how its request ended. */
  function Finish(s: Sched, i: nat, target: Target, extra: Option<Token>, completed: bool): Sched
    requires i < |s.reqs|
  {
    var r := s.reqs[i];
    var f := Final(r.prompt, r.generated, extra, completed);
    s.(reqs := s.reqs[i := r.(phase := Done, target := target)],
       completed := if completed then s.completed + 1 else s.completed,
       failed := if completed then s.failed else s.failed + 1,
       finals := s.finals[r.id := f])
  }

  /** run_decode_step */
  function DecodeSlot(cfg: Config, s: Sched, i: nat, inf: Infer): Sched
    requires i < |s.reqs|
  {
    var r := s.reqs[i];
    var (target, next) := Inferred(cfg, r.target, inf);
    if next.None? then
      Finish(s, i, target, None, false)
    else if next.value == cfg.eos then
      Finish(s, i, target, None, true).(log := s.log + [Eos(r.id)])
    else if SeqLen(r) < MAX_SEQ_LEN then
      s.(reqs := s.reqs[i := r.(generated := r.generated + [next.value], target := target)],
         log := s.log + [Emit(r.id, next.value)],
         generated := s.generated + 1)
    else
      Finish(s, i, target, next, true).(log := s.log + [Emit(r.id, next.value), Eos(r.id)],
                                        generated := s.generated + 1)
  }

  /** One turn of the retire loop. */
  function RetireSlot(s: Sched, i: nat): Sched
    requires i < |s.reqs|
  {
    var r := s.reqs[i];
    if r.phase == Done && r.id != 0 then
      s.(reqs := s.reqs[i := r.(id := 0, prompt := [], generated := [])], active := s.active - 1)
    else s
  }

  // ---- One iteration --------------------------------------------------------

  /** Slot `i` holds a request in phase `ph`. */
  predicate Waits(reqs: seq<Request>, ph: Phase, i: int) {
    0 <= i < |reqs| && reqs[i].id != 0 && reqs[i].phase == ph
  }

  /** rebuild_queues: the slots below `n` holding a request in phase `ph`, in slot order. */
  function Scan(reqs: seq<Request>, ph: Phase, n: nat): seq<nat>
    requires n <= |reqs|
  {
    if n == 0 then []
    else if Waits(reqs, ph, n - 1) then Scan(reqs, ph, n - 1) + [n - 1]
    else Scan(reqs, ph, n - 1)
  }

  lemma {:induction false} ScanFindsAll(reqs: seq<Request>, ph: Phase, n: nat)
    requires n <= |reqs|
    ensures var q := Scan(reqs, ph, n);
            && |q| <= n
            && (forall j | 0 <= j < |q| :: q[j] < n && Waits(reqs, ph, q[j]))
            && (forall i | i < n && Waits(reqs, ph, i) :: i in q)
            && (forall j, l | 0 <= j < l < |q| :: q[j] < q[l])
  {
    if n > 0 {
      ScanFindsAll(reqs, ph, n - 1);
    }
  }

  /** The queue: exactly those slots, in order. */
  function Queue(reqs: seq<Request>, ph: Phase, n: nat): (q: seq<nat>)
    requires n <= |reqs|
    ensures forall j | 0 <= j < |q| :: q[j] < n && Waits(reqs, ph, q[j])
    ensures forall i | i < n && Waits(reqs, ph, i) :: i in q
    ensures |q| <= n
    ensures forall j, l | 0 <= j < l < |q| :: q[j] < q[l]
  {
    ScanFindsAll(reqs, ph, n);
    Scan(reqs, ph, n)
  }

  predicate Within(queue: seq<nat>, n: nat) {
    forall j | 0 <= j < |queue| :: queue[j] < n
  }

  /** The prefill loop: stops at the first request that does not fit the budget. The sum is
      a 32-bit one. */
  function Prefills(cfg: Config, s: Sched, queue: seq<nat>, spent: nat, o: Oracle): (s': Sched)
    requires Within(queue, |s.reqs|)
    ensures |s'.reqs| == |s.reqs|
    decreases |queue|
  {
    if queue == [] then s
    else
      var i := queue[0];
      var sum := Wrap32(spent + |s.reqs[i].prompt|);
      if sum > cfg.prefillBudget then s
      else Prefills(cfg, PrefillSlot(s, i, o.target(i)), queue[1..], sum, o)
  }

  /** The decode loop. */
  function Decodes(cfg: Config, s: Sched, queue: seq<nat>, o: Oracle): (s': Sched)
    requires Within(queue, |s.reqs|)
    ensures |s'.reqs| == |s.reqs|
    decreases |queue|
  {
    if queue == [] then s
    else Decodes(cfg, DecodeSlot(cfg, s, queue[0], o.infer(queue[0])), queue[1..], o)
  }

  /** The retire loop over the slots from `i` on. */
  function Retires(s: Sched, i: nat): (s': Sched)
    requires i <= |s.reqs|
    ensures |s'.reqs| == |s.reqs|
    decreases |s.reqs| - i
  {
    if i == |s.reqs| then s else Retires(RetireSlot(s, i), i + 1)
  }

  /** The decode batch: the first `maxBatch` slots of the decode queue. */
  function Batch(cfg: Config, reqs: seq<Request>): (q: seq<nat>)
    ensures Within(q, |reqs|)
  {
    var q := Queue(reqs, Decode, |reqs|);
    q[..if |q| < cfg.maxBatch then |q| else cfg.maxBatch]
  }

  function AfterPrefills(cfg: Config, s: Sched, o: Oracle): (s': Sched)
    ensures |s'.reqs| == |s.reqs|
  {
    Prefills(cfg, s, Queue(s.reqs, Prefill, |s.reqs|), 0, o)
  }

  function AfterDecodes(cfg: Config, s: Sched, o: Oracle): (s': Sched)
    ensures |s'.reqs| == |s.reqs|
  {
    Decodes(cfg, s, Batch(cfg, s.reqs), o)
  }

  /** kllm_batch_step */
  function Step(cfg: Config, s: Sched, o: Oracle): Sched {
    Retires(AfterDecodes(cfg, AfterPrefills(cfg, s, o), o), 0)
  }

  // ---- Responses ------------------------------------------------------------

  datatype Reply = Tok(token: Token) | End

  /** Everything sent back for request `id`, in order. */
  function Response(log: seq<Event>, id: nat): seq<Reply> {
    if log == [] then []
    else
      var e := log[|log| - 1];
      var before := Response(log[..|log| - 1], id);
      if e.id != id then before
      else before + [if e.Emit? then Tok(e.token) else End]
  }

  function Toks(ts: seq<Token>): (r: seq<Reply>)
    ensures |r| == |ts|
  {
    seq(|ts|, i requires 0 <= i < |ts| => Tok(ts[i]))
  }

  lemma {:induction false} ResponseAppend(log: seq<Event>, e: Event, id: nat)
    ensures Response(log + [e], id) ==
            if e.id != id then Response(log, id) else Response(log, id) + [if e.Emit? then Tok(e.token) else End]
  {
    assert (log + [e])[..|log|] == log;
  }

  lemma {:induction false} ToksAppend(ts: seq<Token>, t: Token)
    ensures Toks(ts + [t]) == Toks(ts) + [Tok(t)]
  {
  }

  /** What a finished request's client has received: the generated tokens in order, then,
      if it completed, exactly one end mark; at maximum length one token that was not
      appended comes before the mark. */
  predicate Answered(f: Final, reply: seq<Reply>) {
    if f.completed then
      && reply == Toks(f.generated) + (if f.extra.Some? then [Tok(f.extra.value)] else []) + [End]
      && (f.extra.Some? ==> |f.prompt| + |f.generated| == MAX_SEQ_LEN)
    else reply == Toks(f.generated) && f.extra.None?
  }

  // ---- The invariant --------------------------------------------------------

  function Active(reqs: seq<Request>): set<nat> { set i | 0 <= i < |reqs| && reqs[i].id != 0 }

  function LiveSlots(reqs: seq<Request>): set<nat> { set i | 0 <= i < |reqs| && Live(reqs[i]) }

  function CompletedIds(finals: map<nat, Final>): set<nat> { set id | id in finals && finals[id].completed }

  function FailedIds(finals: map<nat, Final>): set<nat> { set id | id in finals && !finals[id].completed }

  /** What is true of each slot, also in the middle of an iteration. */
  predicate SlotOk(s: Sched, i: nat)
    requires i < |s.reqs|
  {
    var r := s.reqs[i];
    r.id != 0 ==>
      && r.id < s.nextId
      && SeqLen(r) <= MAX_SEQ_LEN
      && (r.phase == Done <==> r.id in s.finals)
      && (r.phase != Done ==> Response(s.log, r.id) == Toks(r.generated))
  }

  ghost predicate SlotsOk(s: Sched) {
    && (forall i | 0 <= i < |s.reqs| :: SlotOk(s, i))
    && (forall i, j | 0 <= i < j < |s.reqs| && s.reqs[i].id != 0 :: s.reqs[i].id != s.reqs[j].id)
  }

  ghost predicate HistoryOk(s: Sched) {
    && (forall id | id in s.finals :: id < s.nextId && Answered(s.finals[id], Response(s.log, id)))
    && (forall k | 0 <= k < |s.log| :: s.log[k].id < s.nextId)
  }

  ghost predicate CountsOk(s: Sched) {
    && s.active == |Active(s.reqs)|
    && s.completed == |CompletedIds(s.finals)|
    && s.failed == |FailedIds(s.finals)|
    && s.total == s.completed + s.failed + |LiveSlots(s.reqs)|
  }

  ghost predicate Inv(s: Sched) {
    s.nextId > 0 && SlotsOk(s) && HistoryOk(s) && CountsOk(s)
  }

  /** Between iterations no slot holds a finished request. */
  predicate AtRest(s: Sched) {
    forall i | 0 <= i < |s.reqs| :: s.reqs[i].phase == Done ==> s.reqs[i].id == 0
  }

  // ---- Every slot operation keeps the invariant -----------------------------

  lemma {:induction false} PrefillSlotKeepsInv(s: Sched, i: nat, target: Target)
    requires Inv(s) && Waits(s.reqs, Prefill, i)
    ensures Inv(PrefillSlot(s, i, target))
  {
    var s' := PrefillSlot(s, i, target);
    assert Active(s'.reqs) == Active(s.reqs);
    assert LiveSlots(s'.reqs) == LiveSlots(s.reqs);
    forall j | 0 <= j < |s'.reqs| ensures SlotOk(s', j) {
      assert SlotOk(s, j);
    }
  }

  lemma {:induction false} RetireSlotKeepsInv(s: Sched, i: nat)
    requires Inv(s) && i < |s.reqs|
    ensures Inv(RetireSlot(s, i))
  {
    var s' := RetireSlot(s, i);
    if s' != s {
      assert Active(s'.reqs) == Active(s.reqs) - {i};
      assert LiveSlots(s'.reqs) == LiveSlots(s.reqs);
      forall j | 0 <= j < |s'.reqs| ensures SlotOk(s', j) {
        assert SlotOk(s, j);
      }
    }
  }

  lemma {:induction false} NoResponseYet(log: seq<Event>, id: nat)
    requires forall k | 0 <= k < |log| :: log[k].id != id
    ensures Response(log, id) == []
  {
    if log != [] {
      NoResponseYet(log[..|log| - 1], id);
    }
  }

  /** Putting a new request into an idle slot. */
  function Filled(s: Sched, i: nat, r: Request): Sched
    requires i < |s.reqs|
  {
    s.(reqs := s.reqs[i := r], nextId := s.nextId + 1, active := s.active + 1, total := s.total + 1)
  }

  lemma {:induction false} FilledSets(reqs: seq<Request>, i: nat, r: Request)
    requires i < |reqs| && reqs[i].id == 0 && Live(r)
    ensures Active(reqs[i := r]) == Active(reqs) + {i} && i !in Active(reqs)
    ensures LiveSlots(reqs[i := r]) == LiveSlots(reqs) + {i} && i !in LiveSlots(reqs)
  {
  }

  lemma {:induction false} FilledKeepsCounts(s: Sched, i: nat, r: Request)
    requires CountsOk(s) && i < |s.reqs| && s.reqs[i].id == 0 && Live(r)
    ensures CountsOk(Filled(s, i, r))
  {
    FilledSets(s.reqs, i, r);
  }

  lemma {:induction false} FilledKeepsSlots(s: Sched, i: nat, r: Request)
    requires s.nextId > 0 && SlotsOk(s) && HistoryOk(s) && i < |s.reqs|
    requires r.id == s.nextId && r.phase == Prefill && r.generated == [] && SeqLen(r) <= MAX_SEQ_LEN
    ensures SlotsOk(Filled(s, i, r))
  {
    var s' := Filled(s, i, r);
    NoResponseYet(s.log, s.nextId);
    assert Toks([]) == [];
    forall j | 0 <= j < |s'.reqs| ensures SlotOk(s', j) && (j != i ==> s'.reqs[j].id != s.nextId) {
      assert SlotOk(s, j);
    }
  }

  /** At rest only idle slots are free. */
  lemma {:induction false} FreeIsIdle(s: Sched)
    requires AtRest(s) && FindFree(s.reqs).Some?
    ensures s.reqs[FindFree(s.reqs).value].id == 0
    ensures s.reqs[FindFree(s.reqs).value := Claimed(s.reqs[FindFree(s.reqs).value])] == s.reqs
  {
  }

  lemma {:induction false} SubmitKeepsInv(s: Sched, prompt: seq<Token>, memOk: bool)
    requires Inv(s) && AtRest(s) && |prompt| <= MAX_SEQ_LEN
    ensures Inv(Submit(s, prompt, memOk).0) && AtRest(Submit(s, prompt, memOk).0)
    ensures Submit(s, prompt, memOk).1 == 0 ==> Submit(s, prompt, memOk).0 == s
  {
    var (s', id) := Submit(s, prompt, memOk);
    if FindFree(s.reqs).Some? {
      FreeIsIdle(s);
    }
    if id != 0 {
      var i := FindFree(s.reqs).value;
      var r := Request(s.nextId, Prefill, s.reqs[i].target, prompt, []);
      assert s' == Filled(s, i, r);
      FilledKeepsCounts(s, i, r);
      FilledKeepsSlots(s, i, r);
    }
  }

  /** Sending one event for a live request changes no other client's response. */
  lemma {:induction false} AppendTokenKeepsInv(s: Sched, i: nat, t: Token, target: Target)
    requires Inv(s) && Waits(s.reqs, Decode, i) && SeqLen(s.reqs[i]) < MAX_SEQ_LEN
    ensures var r := s.reqs[i];
            Inv(s.(reqs := s.reqs[i := r.(generated := r.generated + [t], target := target)],
                   log := s.log + [Emit(r.id, t)],
                   generated := s.generated + 1))
  {
    var r := s.reqs[i];
    var s' := s.(reqs := s.reqs[i := r.(generated := r.generated + [t], target := target)],
                 log := s.log + [Emit(r.id, t)],
                 generated := s.generated + 1);
    assert SlotOk(s, i);
    assert Active(s'.reqs) == Active(s.reqs);
    assert LiveSlots(s'.reqs) == LiveSlots(s.reqs);
    forall j | 0 <= j < |s'.reqs| ensures SlotOk(s', j) {
      assert SlotOk(s, j);
      ResponseAppend(s.log, Emit(r.id, t), s.reqs[j].id);
      ToksAppend(r.generated, t);
    }
    forall id | id in s'.finals ensures Answered(s'.finals[id], Response(s'.log, id)) {
      ResponseAppend(s.log, Emit(r.id, t), id);
    }
  }

  /** Ending a request keeps the invariant if its client has been answered accordingly. */
  lemma {:induction false} FinishKeepsInv(s: Sched, i: nat, target: Target, extra: Option<Token>, completed: bool,
                                          log: seq<Event>, generated: nat)
    requires Inv(s) && Waits(s.reqs, Decode, i)
    requires forall k | 0 <= k < |log| :: log[k].id < s.nextId
    requires forall id | id != s.reqs[i].id :: Response(log, id) == Response(s.log, id)
    requires Answered(Final(s.reqs[i].prompt, s.reqs[i].generated, extra, completed), Response(log, s.reqs[i].id))
    ensures Inv(Finish(s, i, target, extra, completed).(log := log, generated := generated))
  {
    var s' := Finish(s, i, target, extra, completed).(log := log, generated := generated);
    assert SlotOk(s, i);
    FinishKeepsCounts(s, i, target, extra, completed);
    assert SlotsOk(s') by {
      forall j | 0 <= j < |s'.reqs| ensures SlotOk(s', j) {
        assert SlotOk(s, j);
      }
    }
    assert HistoryOk(s');
  }

  lemma {:induction false} FinishKeepsCounts(s: Sched, i: nat, target: Target, extra: Option<Token>, completed: bool)
    requires CountsOk(s) && Waits(s.reqs, Decode, i) && s.reqs[i].id !in s.finals
    ensures CountsOk(Finish(s, i, target, extra, completed))
  {
    var s' := Finish(s, i, target, extra, completed);
    assert Active(s'.reqs) == Active(s.reqs);
    assert LiveSlots(s'.reqs) == LiveSlots(s.reqs) - {i};
    FinalsGrow(s.finals, s.reqs[i].id, s'.finals[s.reqs[i].id]);
  }

  lemma {:induction false} CompletedGrow(finals: map<nat, Final>, id: nat, f: Final)
    requires id !in finals
    ensures CompletedIds(finals[id := f]) == if f.completed then CompletedIds(finals) + {id} else CompletedIds(finals)
  {
  }

  lemma {:induction false} FailedGrow(finals: map<nat, Final>, id: nat, f: Final)
    requires id !in finals
    ensures FailedIds(finals[id := f]) == if f.completed then FailedIds(finals) else FailedIds(finals) + {id}
  {
  }

  lemma {:induction false} FinalsGrow(finals: map<nat, Final>, id: nat, f: Final)
    requires id !in finals
    ensures |CompletedIds(finals[id := f])| == |CompletedIds(finals)| + if f.completed then 1 else 0
    ensures |FailedIds(finals[id := f])| == |FailedIds(finals)| + if f.completed then 0 else 1
  {
    CompletedGrow(finals, id, f);
    FailedGrow(finals, id, f);
  }

  lemma {:induction false} EndMarkKeepsInv(s: Sched, i: nat, target: Target)
    requires Inv(s) && Waits(s.reqs, Decode, i)
    ensures Inv(Finish(s, i, target, None, true).(log := s.log + [Eos(s.reqs[i].id)]))
  {
    var r := s.reqs[i];
    assert SlotOk(s, i);
    forall id ensures Response(s.log + [Eos(r.id)], id) ==
                      if id == r.id then Toks(r.generated) + [End] else Response(s.log, id)
    {
      ResponseAppend(s.log, Eos(r.id), id);
    }
    FinishKeepsInv(s, i, target, None, true, s.log + [Eos(r.id)], s.generated);
  }

  lemma {:induction false} MaxLengthKeepsInv(s: Sched, i: nat, target: Target, t: Token)
    requires Inv(s) && Waits(s.reqs, Decode, i) && SeqLen(s.reqs[i]) == MAX_SEQ_LEN
    ensures Inv(Finish(s, i, target, Some(t), true).(log := s.log + [Emit(s.reqs[i].id, t), Eos(s.reqs[i].id)],
                                                     generated := s.generated + 1))
  {
    var r := s.reqs[i];
    assert SlotOk(s, i);
    var log1, log := s.log + [Emit(r.id, t)], s.log + [Emit(r.id, t), Eos(r.id)];
    assert log == log1 + [Eos(r.id)];
    forall id ensures Response(log, id) ==
                      if id == r.id then Toks(r.generated) + [Tok(t)] + [End] else Response(s.log, id)
    {
      ResponseAppend(s.log, Emit(r.id, t), id);
      ResponseAppend(log1, Eos(r.id), id);
    }
    FinishKeepsInv(s, i, target, Some(t), true, log, s.generated + 1);
  }

  lemma {:induction false} DecodeSlotKeepsInv(cfg: Config, s: Sched, i: nat, inf: Infer)
    requires Inv(s) && Waits(s.reqs, Decode, i)
    ensures Inv(DecodeSlot(cfg, s, i, inf))
  {
    var (target, next) := Inferred(cfg, s.reqs[i].target, inf);
    assert SlotOk(s, i);
    if next.None? {
      FinishKeepsInv(s, i, target, None, false, s.log, s.generated);
    } else if next.value == cfg.eos {
      EndMarkKeepsInv(s, i, target);
    } else if SeqLen(s.reqs[i]) < MAX_SEQ_LEN {
      AppendTokenKeepsInv(s, i, next.value, target);
    } else {
      MaxLengthKeepsInv(s, i, target, next.value);
    }
  }

  // ---- So does a whole iteration --------------------------------------------

  ghost predicate QueueOk(reqs: seq<Request>, ph: Phase, queue: seq<nat>) {
    && (forall j | 0 <= j < |queue| :: Waits(reqs, ph, queue[j]))
    && (forall j, l | 0 <= j < l < |queue| :: queue[j] < queue[l])
  }

  /** Changing the first queued slot leaves the rest of the queue as it was. */
  lemma {:induction false} QueueTail(reqs: seq<Request>, ph: Phase, queue: seq<nat>, r: Request)
    requires QueueOk(reqs, ph, queue) && queue != []
    ensures QueueOk(reqs[queue[0] := r], ph, queue[1..])
  {
    forall j | 0 <= j < |queue[1..]| ensures Waits(reqs[queue[0] := r], ph, queue[1..][j]) {
      assert queue[0] < queue[j + 1];
      assert Waits(reqs, ph, queue[j + 1]);
    }
  }

  lemma {:induction false} PrefillsKeepInv(cfg: Config, s: Sched, queue: seq<nat>, spent: nat, o: Oracle)
    requires Inv(s) && QueueOk(s.reqs, Prefill, queue)
    ensures Inv(Prefills(cfg, s, queue, spent, o))
    decreases |queue|
  {
    if queue != [] {
      var i := queue[0];
      assert Waits(s.reqs, Prefill, i);
      PrefillSlotKeepsInv(s, i, o.target(i));
      QueueTail(s.reqs, Prefill, queue, s.reqs[i].(phase := Decode, target := o.target(i)));
      PrefillsKeepInv(cfg, PrefillSlot(s, i, o.target(i)), queue[1..], Wrap32(spent + |s.reqs[i].prompt|), o);
    }
  }

  lemma {:induction false} DecodeTouchesOneSlot(cfg: Config, s: Sched, i: nat, inf: Infer)
    requires i < |s.reqs|
    ensures var reqs' := DecodeSlot(cfg, s, i, inf).reqs;
            |reqs'| == |s.reqs| && reqs' == s.reqs[i := reqs'[i]] && reqs'[i].id == s.reqs[i].id
  {
  }

  lemma {:induction false} DecodesKeepInv(cfg: Config, s: Sched, queue: seq<nat>, o: Oracle)
    requires Inv(s) && QueueOk(s.reqs, Decode, queue)
    ensures Inv(Decodes(cfg, s, queue, o))
    decreases |queue|
  {
    if queue != [] {
      var i := queue[0];
      assert Waits(s.reqs, Decode, i);
      DecodeSlotKeepsInv(cfg, s, i, o.infer(i));
      var s' := DecodeSlot(cfg, s, i, o.infer(i));
      DecodeTouchesOneSlot(cfg, s, i, o.infer(i));
      QueueTail(s.reqs, Decode, queue, s'.reqs[i]);
      DecodesKeepInv(cfg, s', queue[1..], o);
    }
  }

  lemma {:induction false} RetiresKeepInv(s: Sched, i: nat)
    requires Inv(s) && i <= |s.reqs|
    requires forall j | 0 <= j < i :: s.reqs[j].phase == Done ==> s.reqs[j].id == 0
    ensures Inv(Retires(s, i)) && AtRest(Retires(s, i))
    decreases |s.reqs| - i
  {
    if i < |s.reqs| {
      RetireSlotKeepsInv(s, i);
      RetiresKeepInv(RetireSlot(s, i), i + 1);
    }
  }

  lemma {:induction false} StepKeepsInv(cfg: Config, s: Sched, o: Oracle)
    requires Inv(s)
    ensures Inv(Step(cfg, s, o)) && AtRest(Step(cfg, s, o))
  {
    PrefillsKeepInv(cfg, s, Queue(s.reqs, Prefill, |s.reqs|), 0, o);
    var s1 := AfterPrefills(cfg, s, o);
    DecodesKeepInv(cfg, s1, Batch(cfg, s1.reqs), o);
    RetiresKeepInv(AfterDecodes(cfg, s1, o), 0);
  }

  /** Prefill and retirement send nothing and end nothing. */
  predicate SameHistory(s: Sched, s': Sched) {
    s'.log == s.log && s'.finals == s.finals && s'.failed == s.failed && s'.nextId == s.nextId
  }

  lemma {:induction false} PrefillsKeepHistory(cfg: Config, s: Sched, queue: seq<nat>, spent: nat, o: Oracle)
    requires Within(queue, |s.reqs|)
    ensures SameHistory(s, Prefills(cfg, s, queue, spent, o))
    decreases |queue|
  {
    if queue != [] {
      var i := queue[0];
      PrefillsKeepHistory(cfg, PrefillSlot(s, i, o.target(i)), queue[1..], Wrap32(spent + |s.reqs[i].prompt|), o);
    }
  }

  lemma {:induction false} RetiresKeepHistory(s: Sched, i: nat)
    requires i <= |s.reqs|
    ensures SameHistory(s, Retires(s, i))
    decreases |s.reqs| - i
  {
    if i < |s.reqs| {
      RetiresKeepHistory(RetireSlot(s, i), i + 1);
    }
  }

  // ---- Whole runs -----------------------------------------------------------

  datatype Call = DoSubmit(prompt: seq<Token>, memOk: bool) | DoStep(oracle: Oracle)

  function Apply(cfg: Config, s: Sched, call: Call): Sched {
    match call
    case DoSubmit(prompt, memOk) => Submit(s, prompt, memOk).0
    case DoStep(o) => Step(cfg, s, o)
  }

  /** A pool that no request has entered; its slots may be in any phase. */
  predicate Fresh(s: Sched) {
    && (forall i | 0 <= i < |s.reqs| :: s.reqs[i].id == 0)
    && s.active == 0 && s.nextId == 1 && s.total == 0 && s.completed == 0 && s.failed == 0
    && s.log == [] && s.finals == map[]
  }

  /** Any calls in any order; a prompt fits the token buffer it is copied into. */
  ghost predicate IsRun(cfg: Config, run: seq<Sched>, calls: seq<Call>) {
    && |run| == |calls| + 1
    && Fresh(run[0])
    && (forall i | 0 <= i < |calls| :: calls[i].DoSubmit? ==> |calls[i].prompt| <= MAX_SEQ_LEN)
    && forall i | 0 <= i < |calls| :: CallAt(cfg, run, calls, i)
  }

  predicate CallAt(cfg: Config, run: seq<Sched>, calls: seq<Call>, i: nat)
    requires i < |calls| && i + 1 < |run|
  {
    run[i + 1] == Apply(cfg, run[i], calls[i])
  }

  lemma {:induction false} FreshInv(s: Sched)
    requires Fresh(s)
    ensures Inv(s) && AtRest(s)
  {
    assert Active(s.reqs) == {} && LiveSlots(s.reqs) == {};
    assert CompletedIds(s.finals) == {} && FailedIds(s.finals) == {};
  }

  lemma {:induction false} RunKeepsInv(cfg: Config, run: seq<Sched>, calls: seq<Call>, i: nat)
    requires IsRun(cfg, run, calls) && i < |run|
    ensures Inv(run[i]) && AtRest(run[i])
  {
    if i == 0 {
      FreshInv(run[0]);
    } else {
      RunKeepsInv(cfg, run, calls, i - 1);
      assert CallAt(cfg, run, calls, i - 1);
      match calls[i - 1]
      case DoSubmit(prompt, memOk) => SubmitKeepsInv(run[i - 1], prompt, memOk);
      case DoStep(o) => StepKeepsInv(cfg, run[i - 1], o);
    }
  }

  /** In every run: the active count is the number of slots with an id, ids are distinct,
      and every submitted request is completed, failed or active. */
  lemma {:induction false} Conservation(cfg: Config, run: seq<Sched>, calls: seq<Call>, i: nat)
    requires IsRun(cfg, run, calls) && i < |run|
    ensures var s := run[i];
            && s.active == |Active(s.reqs)|
            && s.total == s.completed + s.failed + s.active
            && s.completed == |CompletedIds(s.finals)|
            && forall j, l | 0 <= j < l < |s.reqs| && s.reqs[j].id != 0 :: s.reqs[j].id != s.reqs[l].id
  {
    RunKeepsInv(cfg, run, calls, i);
    assert LiveSlots(run[i].reqs) == Active(run[i].reqs);
  }

  /** In every run: the client of a completed request has received the generated tokens in
      order and exactly one end mark, preceded at maximum length by one unappended token;
      the client of a failed request the tokens only; the client of an active request what
      has been generated so far. */
  lemma {:induction false} ResponsesAreFaithful(cfg: Config, run: seq<Sched>, calls: seq<Call>, i: nat)
    requires IsRun(cfg, run, calls) && i < |run|
    ensures var s := run[i];
            && (forall id | id in s.finals :: Answered(s.finals[id], Response(s.log, id)))
            && (forall j | 0 <= j < |s.reqs| && s.reqs[j].id != 0 ::
                  Response(s.log, s.reqs[j].id) == Toks(s.reqs[j].generated))
  {
    RunKeepsInv(cfg, run, calls, i);
    var s := run[i];
    forall j | 0 <= j < |s.reqs| && s.reqs[j].id != 0
      ensures Response(s.log, s.reqs[j].id) == Toks(s.reqs[j].generated)
    {
      assert SlotOk(s, j);
    }
  }
}
