/** The scheduler as it runs: a request pool, two phase queues and counters, updated in
    place by the loops of an iteration. */
module Scheduler {
  import opened Bits
  import opened Common
  import opened SchedulerSpec

  lemma {:induction false} PrefillsUnfold(cfg: Config, s: Sched, q: seq<nat>, i: nat, spent: nat, o: Oracle)
    requires Within(q, |s.reqs|) && i < |q|
    ensures Within(q[i..], |s.reqs|) && Within(q[i + 1..], |s.reqs|)
    ensures var sum := Wrap32(spent + |s.reqs[q[i]].prompt|);
            Prefills(cfg, s, q[i..], spent, o) ==
            if sum > cfg.prefillBudget then s
            else Prefills(cfg, PrefillSlot(s, q[i], o.target(q[i])), q[i + 1..], sum, o)
  {
    assert q[i..][1..] == q[i + 1..];
  }

  lemma {:induction false} DecodesUnfold(cfg: Config, s: Sched, q: seq<nat>, i: nat, o: Oracle)
    requires Within(q, |s.reqs|) && i < |q|
    ensures Within(q[i..], |s.reqs|) && Within(q[i + 1..], |s.reqs|)
    ensures |DecodeSlot(cfg, s, q[i], o.infer(q[i])).reqs| == |s.reqs|
    ensures Decodes(cfg, s, q[i..], o) == Decodes(cfg, DecodeSlot(cfg, s, q[i], o.infer(q[i])), q[i + 1..], o)
  {
    assert q[i..][1..] == q[i + 1..];
  }

  class Scheduler {
    const cfg: Config
    const requests: array<Request>
    const prefillQueue: array<nat>
    const decodeQueue: array<nat>
    var prefillCount: nat
    var decodeCount: nat
    var activeCount: int
    var nextRequestId: nat
    var totalRequests: nat
    var completedRequests: nat
    var tokensGenerated: nat
    var sent: seq<Event>          // what went out on the response paths
    ghost var failed: nat
    ghost var finals: map<nat, Final>

    ghost function State(): Sched
      reads this, requests
    {
      Sched(requests[..], activeCount, nextRequestId, totalRequests, completedRequests, failed,
            tokensGenerated, sent, finals)
    }

    ghost predicate Shaped()
      reads this
    {
      requests.Length == prefillQueue.Length == decodeQueue.Length && prefillQueue != decodeQueue
    }

    ghost predicate Valid()
      reads this, requests
    {
      Shaped() && Inv(State()) && AtRest(State())
    }

    /** A pool in the given initial condition, with no request in it. */
    constructor (cfg: Config, pool: seq<Request>)
      requires forall i | 0 <= i < |pool| :: pool[i].id == 0
      ensures Valid() && Fresh(State()) && requests[..] == pool && this.cfg == cfg
      ensures fresh(requests) && fresh(prefillQueue) && fresh(decodeQueue)
    {
      this.cfg := cfg;
      requests := new Request[|pool|](i requires 0 <= i < |pool| => pool[i]);
      prefillQueue := new nat[|pool|];
      decodeQueue := new nat[|pool|];
      prefillCount, decodeCount, activeCount, nextRequestId := 0, 0, 0, 1;
      totalRequests, completedRequests, tokensGenerated, sent := 0, 0, 0, [];
      failed, finals := 0, map[];
      new;
      FreshInv(State());
    }

    /** find_free_slot */
    method FindFreeSlot() returns (r: Option<nat>)
      modifies requests
      ensures r == FindFree(old(requests[..]))
      ensures requests[..] == if r.None? then old(requests[..])
                              else old(requests[..])[r.value := Claimed(old(requests[..])[r.value])]
      ensures r.Some? ==> requests[r.value] == if old(requests[r.value]).id == 0 then old(requests[r.value])
                                               else Request(0, Prefill, Cpu, [], [])
    {
      var i := 0;
      while i < requests.Length
        invariant 0 <= i <= requests.Length && requests[..] == old(requests[..])
        invariant FirstDone(requests[..], true, 0) == FirstDone(requests[..], true, i)
      {
        if requests[i].phase == Done && requests[i].id == 0 {
          return Some(i);
        }
        i := i + 1;
      }
      i := 0;
      while i < requests.Length
        invariant 0 <= i <= requests.Length && requests[..] == old(requests[..])
        invariant FirstDone(requests[..], false, 0) == FirstDone(requests[..], false, i)
      {
        if requests[i].phase == Done {
          requests[i] := ZEROED;
          return Some(i);
        }
        i := i + 1;
      }
      return None;
    }

    /** The part of kllm_batch_submit that fills the claimed slot. */
    method FillSlot(i: nat, prompt: seq<Token>) returns (id: nat)
      requires i < requests.Length
      modifies this`activeCount, this`nextRequestId, this`totalRequests, requests
      ensures id == old(nextRequestId)
      ensures State() == Filled(old(State()), i, Request(id, Prefill, old(requests[i]).target, prompt, []))
    {
      requests[i] := requests[i].(prompt := prompt, generated := []);
      requests[i] := requests[i].(id := nextRequestId);
      id := nextRequestId;
      nextRequestId := nextRequestId + 1;
      requests[i] := requests[i].(phase := Prefill);
      activeCount := activeCount + 1;
      totalRequests := totalRequests + 1;
    }

    /** kllm_batch_submit, for a prompt that fits the buffer and an id counter that does not
        wrap around */
    method Submit(prompt: seq<Token>, memOk: bool) returns (id: nat)
      requires Valid() && |prompt| <= MAX_SEQ_LEN && nextRequestId + 1 < TWO_32
      modifies this`activeCount, this`nextRequestId, this`totalRequests, requests
      ensures Valid()
      ensures (State(), id) == SchedulerSpec.Submit(old(State()), prompt, memOk)
    {
      SubmitKeepsInv(State(), prompt, memOk);
      id := ClaimAndFill(prompt, memOk);
    }

    /** Its body, which keeps to the state machine in any state. */
    method ClaimAndFill(prompt: seq<Token>, memOk: bool) returns (id: nat)
      modifies this`activeCount, this`nextRequestId, this`totalRequests, requests
      ensures (State(), id) == SchedulerSpec.Submit(old(State()), prompt, memOk)
    {
      ghost var before := requests[..];
      if activeCount >= requests.Length {
        return 0;
      }
      var slot := FindFreeSlot();
      if slot.None? {
        return 0;
      }
      if !memOk {
        return 0;
      }
      id := FillSlot(slot.value, prompt);
      assert requests[..] == before[slot.value := requests[slot.value]];
    }

    /** One turn of rebuild_queues. */
    method Enqueue(i: nat)
      requires Shaped() && i < requests.Length && prefillCount <= i && decodeCount <= i
      modifies this`prefillCount, this`decodeCount, prefillQueue, decodeQueue
      ensures prefillCount <= i + 1 && decodeCount <= i + 1
      ensures prefillQueue[..prefillCount] ==
              old(prefillQueue[..prefillCount]) + if Waits(requests[..], Prefill, i) then [i] else []
      ensures decodeQueue[..decodeCount] ==
              old(decodeQueue[..decodeCount]) + if Waits(requests[..], Decode, i) then [i] else []
    {
      var r := requests[i];
      if r.id != 0 && r.phase != Done {
        if r.phase == Prefill {
          prefillQueue[prefillCount] := i;
          prefillCount := prefillCount + 1;
        } else if r.phase == Decode {
          decodeQueue[decodeCount] := i;
          decodeCount := decodeCount + 1;
        }
      }
    }

    /** rebuild_queues */
    method RebuildQueues()
      requires Shaped()
      modifies this`prefillCount, this`decodeCount, prefillQueue, decodeQueue
      ensures prefillCount <= requests.Length && decodeCount <= requests.Length
      ensures prefillQueue[..prefillCount] == Queue(requests[..], Prefill, requests.Length)
      ensures decodeQueue[..decodeCount] == Queue(requests[..], Decode, requests.Length)
    {
      prefillCount := 0;
      decodeCount := 0;
      var i := 0;
      while i < requests.Length
        invariant 0 <= i <= requests.Length && prefillCount <= i && decodeCount <= i
        invariant prefillQueue[..prefillCount] == Queue(requests[..], Prefill, i)
        invariant decodeQueue[..decodeCount] == Queue(requests[..], Decode, i)
      {
        Enqueue(i);
        i := i + 1;
      }
    }

    /** run_prefill */
    method RunPrefill(i: nat, target: Target)
      requires i < requests.Length
      modifies requests
      ensures State() == PrefillSlot(old(State()), i, target)
    {
      requests[i] := requests[i].(target := target);
      requests[i] := requests[i].(phase := Decode);
    }

    /** run_decode_step: -1 on failure, 1 if a token was generated, else 0 */
    method RunDecodeStep(i: nat, inf: Infer) returns (rc: int)
      requires i < requests.Length
      modifies this`sent, this`completedRequests, this`tokensGenerated, this`failed, this`finals, requests
      ensures State() == DecodeSlot(cfg, old(State()), i, inf)
      ensures (if rc > 0 then rc else 0) == tokensGenerated - old(tokensGenerated)
    {
      var r := requests[i];
      var next: Option<Token>;
      if r.target == Cpu {
        next := inf.cpu;
        if next.None? && cfg.hasGpu {
          next := inf.gpu;
          requests[i] := requests[i].(target := Gpu);
        }
      } else {
        if !cfg.hasGpu {
          requests[i] := requests[i].(phase := Done);
          failed := failed + 1;
          finals := finals[r.id := Final(r.prompt, r.generated, None, false)];
          return -1;
        }
        next := inf.gpu;
      }
      if next.None? {
        requests[i] := requests[i].(phase := Done);
        failed := failed + 1;
        finals := finals[r.id := Final(r.prompt, r.generated, None, false)];
        return -1;
      }
      var token := next.value;
      if token == cfg.eos {
        sent := sent + [Eos(r.id)];
        requests[i] := requests[i].(phase := Done);
        completedRequests := completedRequests + 1;
        finals := finals[r.id := Final(r.prompt, r.generated, None, true)];
        return 0;
      }
      sent := sent + [Emit(r.id, token)];
      if SeqLen(r) < MAX_SEQ_LEN {
        requests[i] := requests[i].(generated := r.generated + [token]);
      } else {
        sent := sent + [Eos(r.id)];
        requests[i] := requests[i].(phase := Done);
        completedRequests := completedRequests + 1;
        finals := finals[r.id := Final(r.prompt, r.generated, Some(token), true)];
      }
      tokensGenerated := tokensGenerated + 1;
      return 1;
    }

    /** The prefill loop over the prefill queue, up to the budget. */
    method PrefillLoop(o: Oracle, ghost q: seq<nat>)
      requires prefillCount <= prefillQueue.Length && prefillQueue[..prefillCount] == q
      requires Within(q, requests.Length)
      modifies requests
      ensures State() == Prefills(cfg, old(State()), q, 0, o)
    {
      var spent: nat := 0;
      var i := 0;
      assert q[i..] == q;
      ghost var target := Prefills(cfg, State(), q, 0, o);
      while i < prefillCount
        invariant 0 <= i <= prefillCount && Within(q[i..], requests.Length)
        invariant target == Prefills(cfg, State(), q[i..], spent, o)
      {
        var slot := prefillQueue[i];
        assert slot == q[i];
        PrefillsUnfold(cfg, State(), q, i, spent, o);
        var sum := Wrap32(spent + |requests[slot].prompt|);
        if sum > cfg.prefillBudget {
          return;
        }
        RunPrefill(slot, o.target(slot));
        spent := sum;
        i := i + 1;
      }
    }

    /** Phase 1 of an iteration. */
    method PrefillPhase(o: Oracle)
      requires Shaped()
      modifies this`prefillCount, this`decodeCount, prefillQueue, decodeQueue, requests
      ensures State() == AfterPrefills(cfg, old(State()), o)
    {
      RebuildQueues();
      PrefillLoop(o, Queue(requests[..], Prefill, requests.Length));
    }

    /** The decode loop over the batch. */
    method DecodeLoop(o: Oracle, batchLimit: nat, ghost q: seq<nat>) returns (tokens: int)
      requires batchLimit <= decodeQueue.Length && decodeQueue[..batchLimit] == q
      requires Within(q, requests.Length)
      modifies this`sent, this`completedRequests, this`tokensGenerated, this`failed, this`finals, requests
      ensures State() == Decodes(cfg, old(State()), q, o)
      ensures tokens == tokensGenerated - old(tokensGenerated)
    {
      ghost var target := Decodes(cfg, State(), q, o);
      tokens := 0;
      var i := 0;
      assert q[i..] == q;
      while i < batchLimit
        invariant 0 <= i <= batchLimit && Within(q[i..], requests.Length)
        invariant target == Decodes(cfg, State(), q[i..], o)
        invariant tokens == tokensGenerated - old(tokensGenerated)
      {
        var slot := decodeQueue[i];
        assert slot == q[i];
        DecodesUnfold(cfg, State(), q, i, o);
        var rc := RunDecodeStep(slot, o.infer(slot));
        if rc > 0 {
          tokens := tokens + rc;
        }
        i := i + 1;
      }
    }

    /** Phase 2: one decode step for each request of the batch. */
    method DecodePhase(o: Oracle) returns (tokens: int)
      requires Shaped()
      modifies this`prefillCount, this`decodeCount, prefillQueue, decodeQueue, requests
      modifies this`sent, this`completedRequests, this`tokensGenerated, this`failed, this`finals
      ensures State() == AfterDecodes(cfg, old(State()), o)
      ensures tokens == tokensGenerated - old(tokensGenerated)
    {
      RebuildQueues();
      var batchLimit := cfg.maxBatch;
      if decodeCount < batchLimit {
        batchLimit := decodeCount;
      }
      assert decodeQueue[..batchLimit] == decodeQueue[..decodeCount][..batchLimit];
      tokens := DecodeLoop(o, batchLimit, Batch(cfg, requests[..]));
    }

    /** One turn of the retire loop. */
    method RetireOne(i: nat)
      requires i < requests.Length
      modifies this`activeCount, requests
      ensures State() == RetireSlot(old(State()), i)
    {
      if requests[i].phase == Done && requests[i].id != 0 {
        requests[i] := requests[i].(prompt := [], generated := []);
        requests[i] := requests[i].(id := 0);
        activeCount := activeCount - 1;
      }
    }

    /** The retire loop. */
    method RetirePhase()
      modifies this`activeCount, requests
      ensures State() == Retires(old(State()), 0)
    {
      ghost var s := State();
      var i := 0;
      while i < requests.Length
        invariant 0 <= i <= requests.Length
        invariant Retires(s, 0) == Retires(State(), i)
      {
        RetireOne(i);
        i := i + 1;
      }
    }

    /** kllm_batch_step: the number of tokens generated */
    method Step(o: Oracle) returns (tokens: int)
      requires Valid()
      modifies this`prefillCount, this`decodeCount, prefillQueue, decodeQueue, requests, this`activeCount
      modifies this`sent, this`completedRequests, this`tokensGenerated, this`failed, this`finals
      ensures Valid()
      ensures State() == SchedulerSpec.Step(cfg, old(State()), o)
      ensures tokens == tokensGenerated - old(tokensGenerated)
    {
      StepKeepsInv(cfg, State(), o);
      PrefillPhase(o);
      tokens := DecodePhase(o);
      RetirePhase();
    }
  }
}
