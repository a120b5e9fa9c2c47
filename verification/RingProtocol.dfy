/** The token ring as a concurrent protocol. Producer and consumer take interleaved
    atomic steps under sequential consistency; each works on values it read earlier,
    which the other side may have made stale meanwhile. */
module RingProtocol {
  import opened Bits
  import opened RingIndex
  import opened Common

  /** The producer writes `batch` slot by slot and publishes the head once. A single
      kllm_ring_produce is a batch of one token; finding the ring full, it publishes the
      head it has read. */
  datatype Producer =
    | ProducerIdle
    | Checking(batch: seq<Token>, done: nat, head: nat)  // about to read the tail
    | Writing(batch: seq<Token>, done: nat, head: nat)   // has seen a free slot
    | Publishing(batch: seq<Token>, done: nat, head: nat)

  /** The consumer reads the head once, copies `count` slots and publishes the tail. */
  datatype Consumer =
    | ConsumerIdle
    | Copying(count: nat, out: seq<Token>)

  /** The shared ring, both control states, and the history of what was published and
      what was delivered. */
  datatype State = State(
    slots: seq<Token>,
    head: nat,
    tail: nat,
    producer: Producer,
    consumer: Consumer,
    produced: seq<Token>,
    consumed: seq<Token>)

  predicate Init(k: nat, s: State) {
    && |s.slots| == Pow2(k)
    && s.head == 0 && s.tail == 0
    && s.producer == ProducerIdle && s.consumer == ConsumerIdle
    && s.produced == [] && s.consumed == []
  }

  // ---- Producer steps -------------------------------------------------------

  ghost predicate StartBatch(s: State, s': State, batch: seq<Token>) {
    && s.producer.ProducerIdle?
    && s' == s.(producer := Checking(batch, 0, s.head))
  }

  /** Reads the tail and decides: write the next token, or stop at a full ring or at
      the end of the batch. */
  ghost predicate CheckFull(k: nat, s: State, s': State)
    requires k <= 32
  {
    && s.producer.Checking?
    && var Checking(batch, done, head) := s.producer;
       s' == s.(producer :=
                  if done < |batch| && Next(head, k) != s.tail
                  then Writing(batch, done, head)
                  else Publishing(batch, done, head))
  }

  ghost predicate WriteSlot(k: nat, s: State, s': State)
    requires k <= 32
  {
    && s.producer.Writing?
    && var Writing(batch, done, head) := s.producer;
       && head < |s.slots| && done < |batch|
       && s' == s.(slots := s.slots[head := batch[done]],
                   producer := Checking(batch, done + 1, Next(head, k)))
  }

  ghost predicate PublishHead(s: State, s': State) {
    && s.producer.Publishing?
    && var Publishing(batch, done, head) := s.producer;
       && done <= |batch|
       && s' == s.(head := head, produced := s.produced + batch[..done], producer := ProducerIdle)
  }

  // ---- Consumer steps -------------------------------------------------------

  ghost predicate ReadHead(k: nat, s: State, s': State, maxTokens: nat)
    requires k <= 32
  {
    && s.consumer.ConsumerIdle?
    && s' == s.(consumer := Copying(Least(Available(s.head, s.tail, k), maxTokens), []))
  }

  ghost predicate CopySlot(k: nat, s: State, s': State)
    requires k <= 32
  {
    && s.consumer.Copying?
    && |s.slots| == Pow2(k)
    && var Copying(count, out) := s.consumer;
       && |out| < count
       && s' == s.(consumer := Copying(count, out + [s.slots[Slot(s.tail + |out|, k)]]))
  }

  ghost predicate PublishTail(k: nat, s: State, s': State)
    requires k <= 32
  {
    && s.consumer.Copying?
    && var Copying(count, out) := s.consumer;
       && |out| == count
       && s' == s.(tail := Slot(s.tail + count, k), consumed := s.consumed + out, consumer := ConsumerIdle)
  }

  ghost predicate Step(k: nat, s: State, s': State)
    requires k <= 32
  {
    || (exists batch :: StartBatch(s, s', batch))
    || CheckFull(k, s, s')
    || WriteSlot(k, s, s')
    || PublishHead(s, s')
    || (exists maxTokens :: ReadHead(k, s, s', maxTokens))
    || CopySlot(k, s, s')
    || PublishTail(k, s, s')
  }

  /** Any interleaving of the two sides. */
  ghost predicate IsRun(k: nat, run: seq<State>)
    requires k <= 32
  {
    && |run| > 0
    && Init(k, run[0])
    && forall i | 0 <= i < |run| - 1 :: StepAt(k, run, i)
  }

  ghost predicate StepAt(k: nat, run: seq<State>, i: nat)
    requires k <= 32 && i + 1 < |run|
  {
    Step(k, run[i], run[i + 1])
  }

  // ---- The invariant --------------------------------------------------------

  /** What the producer has put into slots, published or not. */
  function Written(s: State): seq<Token> {
    match s.producer
    case ProducerIdle => s.produced
    case _ =>
      if s.producer.done > |s.producer.batch| then s.produced
      else s.produced + s.producer.batch[..s.producer.done]
  }

  ghost predicate Inv(k: nat, s: State) {
    var n := Pow2(k);
    var w := |Written(s)|;
    var c := |s.consumed|;
    && |s.slots| == n
    && s.head == |s.produced| % n
    && s.tail == c % n
    && c <= |s.produced|
    && w < c + n
    && s.consumed == s.produced[..c]
    && Holds(s.slots, Written(s), c, w)
    && (!s.producer.ProducerIdle? ==> s.producer.done <= |s.producer.batch| && s.producer.head == w % n)
    && (s.producer.Writing? ==> s.producer.done < |s.producer.batch| && w + 1 < c + n)
    && (s.consumer.Copying? ==>
          && |s.consumer.out| <= s.consumer.count
          && c + s.consumer.count <= |s.produced|
          && s.consumer.out == s.produced[c..c + |s.consumer.out|])
  }

  lemma {:induction false} InitEstablishesInv(k: nat, s: State)
    requires Init(k, s)
    ensures Inv(k, s)
  {
    ModUnique(0, Pow2(k), 0, 0);
  }

  lemma {:induction false} StartBatchKeepsInv(k: nat, s: State, s': State, batch: seq<Token>)
    requires Inv(k, s) && StartBatch(s, s', batch)
    ensures Inv(k, s')
  {
    assert Written(s') == Written(s);
  }

  lemma {:induction false} CheckFullKeepsInv(k: nat, s: State, s': State)
    requires k <= 32 && Inv(k, s) && CheckFull(k, s, s')
    ensures Inv(k, s')
  {
    CountsAreExact(|Written(s)|, |s.consumed|, k);
    assert Written(s') == Written(s);
  }

  lemma {:induction false} WriteSlotKeepsInv(k: nat, s: State, s': State)
    requires k <= 32 && Inv(k, s) && WriteSlot(k, s, s')
    ensures Inv(k, s')
  {
    var w, c, x := |Written(s)|, |s.consumed|, s.producer.batch[s.producer.done];
    CountsAreExact(w, c, k);
    assert s.producer.batch[..s.producer.done + 1] == s.producer.batch[..s.producer.done] + [x];
    assert Written(s') == Written(s)[..w] + [x];
    HoldsAfterWrite(s.slots, Written(s), c, w, x);
  }

  lemma {:induction false} PublishHeadKeepsInv(k: nat, s: State, s': State)
    requires Inv(k, s) && PublishHead(s, s')
    ensures Inv(k, s')
  {
    assert Written(s') == Written(s);
  }

  lemma {:induction false} ReadHeadKeepsInv(k: nat, s: State, s': State, maxTokens: nat)
    requires k <= 32 && Inv(k, s) && ReadHead(k, s, s', maxTokens)
    ensures Inv(k, s')
  {
    CountsAreExact(|s.produced|, |s.consumed|, k);
    assert Written(s') == Written(s);
  }

  lemma {:induction false} CopySlotKeepsInv(k: nat, s: State, s': State)
    requires k <= 32 && Inv(k, s) && CopySlot(k, s, s')
    ensures Inv(k, s')
  {
    var c, i := |s.consumed|, |s.consumer.out|;
    assert Written(s') == Written(s);
    assert s.slots[Slot(s.tail + i, k)] == s.produced[c + i] by {
      MaskedSum(c, i, Pow2(k));
      assert Written(s)[c + i] == s.produced[c + i];
    }
    assert s'.consumer.out == s.produced[c..c + i + 1];
  }

  lemma {:induction false} PublishTailKeepsInv(k: nat, s: State, s': State)
    requires k <= 32 && Inv(k, s) && PublishTail(k, s, s')
    ensures Inv(k, s')
  {
    var c := |s.consumed|;
    assert Written(s') == Written(s);
    MaskedSum(c, s.consumer.count, Pow2(k));
    assert s'.consumed == s.produced[..c + s.consumer.count];
  }

  lemma {:induction false} StepKeepsInv(k: nat, s: State, s': State)
    requires k <= 32 && Inv(k, s) && Step(k, s, s')
    ensures Inv(k, s')
  {
    if maxTokens :| ReadHead(k, s, s', maxTokens) {
      ReadHeadKeepsInv(k, s, s', maxTokens);
    } else if CopySlot(k, s, s') {
      CopySlotKeepsInv(k, s, s');
    } else if PublishTail(k, s, s') {
      PublishTailKeepsInv(k, s, s');
    } else if batch :| StartBatch(s, s', batch) {
      StartBatchKeepsInv(k, s, s', batch);
    } else if CheckFull(k, s, s') {
      CheckFullKeepsInv(k, s, s');
    } else if WriteSlot(k, s, s') {
      WriteSlotKeepsInv(k, s, s');
    } else {
      PublishHeadKeepsInv(k, s, s');
    }
  }

  lemma {:induction false} RunKeepsInv(k: nat, run: seq<State>, i: nat)
    requires k <= 32 && IsRun(k, run) && i < |run|
    ensures Inv(k, run[i])
  {
    if i == 0 {
      InitEstablishesInv(k, run[0]);
    } else {
      RunKeepsInv(k, run, i - 1);
      assert StepAt(k, run, i - 1);
      StepKeepsInv(k, run[i - 1], run[i]);
    }
  }

  // ---- What every interleaving guarantees -----------------------------------

  /** In every interleaving the tokens delivered are a prefix of the tokens published,
      so are the tokens being copied, and the ring never holds more than it has room for. */
  lemma {:induction false} DeliveredIsPrefix(k: nat, run: seq<State>, i: nat)
    requires k <= 32 && IsRun(k, run) && i < |run|
    ensures var s := run[i];
            && s.consumed <= s.produced
            && (s.consumer.Copying? ==> s.consumed + s.consumer.out <= s.produced)
            && |Written(s)| - |s.consumed| < Pow2(k)
  {
    RunKeepsInv(k, run, i);
  }

  /** In every interleaving no step changes a slot that holds an unread token. */
  lemma {:induction false} UnreadSlotsUntouched(k: nat, run: seq<State>, i: nat, j: nat)
    requires k <= 32 && IsRun(k, run) && i + 1 < |run|
    requires |run[i + 1].consumed| <= j < |Written(run[i])|
    ensures |run[i].slots| == |run[i + 1].slots| == Pow2(k)
    ensures run[i].slots[j % Pow2(k)] == run[i + 1].slots[j % Pow2(k)] == Written(run[i])[j]
  {
    WrittenInRun(k, run, i);
    SlotInRun(k, run, i, j);
    SlotInRun(k, run, i + 1, j);
  }

  lemma {:induction false} WrittenInRun(k: nat, run: seq<State>, i: nat)
    requires k <= 32 && IsRun(k, run) && i + 1 < |run|
    ensures Written(run[i]) <= Written(run[i + 1]) && |run[i].consumed| <= |run[i + 1].consumed|
  {
    RunKeepsInv(k, run, i);
    assert StepAt(k, run, i);
    WrittenGrows(k, run[i], run[i + 1]);
  }

  lemma {:induction false} SlotInRun(k: nat, run: seq<State>, i: nat, j: nat)
    requires k <= 32 && IsRun(k, run) && i < |run| && |run[i].consumed| <= j < |Written(run[i])|
    ensures |run[i].slots| == Pow2(k) && run[i].slots[j % Pow2(k)] == Written(run[i])[j]
  {
    RunKeepsInv(k, run, i);
    SlotHolds(k, run[i], j);
  }

  lemma {:induction false} WrittenGrows(k: nat, s: State, s': State)
    requires k <= 32 && Inv(k, s) && Step(k, s, s')
    ensures Written(s) <= Written(s') && |s.consumed| <= |s'.consumed|
  {
    if WriteSlot(k, s, s') {
      assert s.producer.batch[..s.producer.done] <= s'.producer.batch[..s'.producer.done];
    }
  }

  lemma {:induction false} SlotHolds(k: nat, s: State, j: nat)
    requires Inv(k, s) && |s.consumed| <= j < |Written(s)|
    ensures |s.slots| == Pow2(k) && s.slots[j % Pow2(k)] == Written(s)[j]
  {
  }

  /** The producer stops early exactly when all but one slot hold undelivered tokens at
      the moment it reads the tail. */
  lemma {:induction false} StopsOnlyWhenFull(k: nat, run: seq<State>, i: nat)
    requires k <= 32 && IsRun(k, run) && i + 1 < |run| && CheckFull(k, run[i], run[i + 1])
    requires run[i].producer.done < |run[i].producer.batch|
    ensures run[i + 1].producer.Publishing? <==> |Written(run[i])| - |run[i].consumed| == Pow2(k) - 1
  {
    RunKeepsInv(k, run, i);
    CountsAreExact(|Written(run[i])|, |run[i].consumed|, k);
  }

  /** When both sides are at rest the indices count exactly the undelivered tokens. */
  lemma {:induction false} AtRest(k: nat, run: seq<State>, i: nat)
    requires k <= 32 && IsRun(k, run) && i < |run|
    requires run[i].producer.ProducerIdle? && run[i].consumer.ConsumerIdle?
    ensures var s := run[i];
            && Available(s.head, s.tail, k) == |s.produced| - |s.consumed|
            && Free(s.head, s.tail, k) + Available(s.head, s.tail, k) == Pow2(k) - 1
  {
    RunKeepsInv(k, run, i);
    CountsAreExact(|run[i].produced|, |run[i].consumed|, k);
  }

  // ---- Batch consumption against single consumption -------------------------

  /** The consumer idle, the ring consistent. */
  ghost predicate Quiet(k: nat, s: State) {
    var p, c := |s.produced|, |s.consumed|;
    && |s.slots| == Pow2(k)
    && s.head == p % Pow2(k) && s.tail == c % Pow2(k)
    && c <= p < c + Pow2(k)
    && s.consumed == s.produced[..c]
    && Holds(s.slots, s.produced, c, p)
  }

  lemma {:induction false} InvGivesQuiet(k: nat, s: State)
    requires Inv(k, s)
    ensures Quiet(k, s)
  {
    assert s.produced <= Written(s);
    forall i | |s.consumed| <= i < |s.produced|
      ensures s.slots[i % |s.slots|] == s.produced[i]
    {
      assert Written(s)[i] == s.produced[i];
    }
  }

  /** `times` single reads, one after the other. */
  function AfterSingles(k: nat, s: State, times: nat): State
    requires k <= 32 && |s.slots| == Pow2(k)
    decreases times
  {
    if times == 0 then s else AfterSingles(k, AfterOne(k, s), times - 1)
  }

  /** One kllm_ring_consume. */
  function AfterOne(k: nat, s: State): State
    requires k <= 32 && |s.slots| == Pow2(k)
  {
    s.(tail := Slot(s.tail + 1, k), consumed := s.consumed + [s.slots[Slot(s.tail, k)]])
  }

  /** The consumer `count` tokens further along the published sequence. */
  ghost function Advanced(k: nat, s: State, count: nat): State
    requires |s.consumed| + count <= |s.produced|
  {
    s.(tail := (|s.consumed| + count) % Pow2(k), consumed := s.produced[..|s.consumed| + count])
  }

  lemma {:induction false} TailMoves(k: nat, s: State, count: nat)
    requires k <= 32 && Quiet(k, s)
    ensures Slot(s.tail + count, k) == (|s.consumed| + count) % Pow2(k)
  {
    MaskedSum(|s.consumed|, count, Pow2(k));
  }

  lemma {:induction false} OneSingle(k: nat, s: State)
    requires k <= 32 && Quiet(k, s) && |s.consumed| < |s.produced|
    ensures AfterOne(k, s) == Advanced(k, s, 1)
  {
    TailMoves(k, s, 1);
    TailMoves(k, s, 0);
    assert s.slots[|s.consumed| % |s.slots|] == s.produced[|s.consumed|];
  }

  lemma {:induction false} StaysQuiet(k: nat, s: State)
    requires Quiet(k, s) && |s.consumed| < |s.produced|
    ensures Quiet(k, Advanced(k, s, 1))
  {
    var s' := Advanced(k, s, 1);
    assert |s'.consumed| == |s.consumed| + 1;
  }

  lemma {:induction false} AdvancedFurther(k: nat, s: State, times: nat)
    requires 0 < times && |s.consumed| + times <= |s.produced|
    ensures Advanced(k, Advanced(k, s, 1), times - 1) == Advanced(k, s, times)
  {
    var c := |s.consumed|;
    assert (c + 1) + (times - 1) == c + times;
  }

  lemma {:induction false} SinglesAdvance(k: nat, s: State, times: nat)
    requires k <= 32 && Quiet(k, s) && |s.consumed| + times <= |s.produced|
    ensures AfterSingles(k, s, times) == Advanced(k, s, times)
    decreases times
  {
    if times == 0 {
      assert s.produced[..|s.consumed|] == s.consumed;
    } else {
      OneSingle(k, s);
      StaysQuiet(k, s);
      SinglesAdvance(k, Advanced(k, s, 1), times - 1);
      AdvancedFurther(k, s, times);
    }
  }

  /** A single read is a batch read of one token: it reads the head, copies, publishes. */
  lemma {:induction false} SingleReadSteps(k: nat, s: State)
    requires k <= 32 && |s.slots| == Pow2(k) && s.consumer.ConsumerIdle? && Available(s.head, s.tail, k) > 0
    ensures exists s1, s2 :: ReadHead(k, s, s1, 1) && CopySlot(k, s1, s2) && PublishTail(k, s2, AfterOne(k, s))
  {
    var s1 := s.(consumer := Copying(1, []));
    var s2 := s1.(consumer := Copying(1, [] + [s.slots[Slot(s.tail + 0, k)]]));
    assert s.tail + 0 == s.tail && [] + [s.slots[Slot(s.tail, k)]] == [s.slots[Slot(s.tail, k)]];
    assert ReadHead(k, s, s1, 1) && CopySlot(k, s1, s2) && PublishTail(k, s2, AfterOne(k, s));
  }

  /** While the consumer copies, only the producer and the copy move. */
  lemma {:induction false} StepWhileCopying(k: nat, s: State, s': State)
    requires k <= 32 && Inv(k, s) && Step(k, s, s') && s.consumer.Copying? && s'.consumer.Copying?
    ensures s'.consumer.count == s.consumer.count && s'.consumed == s.consumed && s.produced <= s'.produced
  {
  }

  /** From the head read at step `i` to step `l`, still copying: the count stands, nothing is
      delivered, and what was published stays published. */
  lemma {:induction false} RunWhileCopying(k: nat, run: seq<State>, i: nat, l: nat)
    requires k <= 32 && IsRun(k, run) && i < l < |run|
    requires forall m | i < m <= l :: run[m].consumer.Copying?
    ensures run[l].consumer.count == run[i + 1].consumer.count
    ensures run[l].consumed == run[i + 1].consumed && run[i + 1].produced <= run[l].produced
  {
    if i + 1 < l {
      RunWhileCopying(k, run, i, l - 1);
      RunKeepsInv(k, run, l - 1);
      assert StepAt(k, run, l - 1);
      StepWhileCopying(k, run[l - 1], run[l]);
    }
  }

  lemma {:induction false} HeadReadCounts(k: nat, run: seq<State>, i: nat, maxTokens: nat)
    requires k <= 32 && IsRun(k, run) && i + 1 < |run| && ReadHead(k, run[i], run[i + 1], maxTokens)
    ensures |run[i].consumed| <= |run[i].produced|
    ensures run[i + 1].consumer.count == Least(|run[i].produced| - |run[i].consumed|, maxTokens)
    ensures run[i + 1].produced == run[i].produced && run[i + 1].consumed == run[i].consumed
  {
    RunKeepsInv(k, run, i);
    CountsAreExact(|run[i].produced|, |run[i].consumed|, k);
  }

  lemma {:induction false} PublishDelivers(k: nat, run: seq<State>, j: nat)
    requires k <= 32 && IsRun(k, run) && j + 1 < |run| && PublishTail(k, run[j], run[j + 1])
    ensures var n := |run[j].consumed| + run[j].consumer.count;
            && n <= |run[j].produced|
            && run[j + 1].consumed == run[j].produced[..n] && run[j + 1].tail == n % Pow2(k)
  {
    RunKeepsInv(k, run, j);
    TailDelivers(k, run[j], run[j + 1]);
  }

  lemma {:induction false} TailDelivers(k: nat, s: State, s': State)
    requires k <= 32 && PublishTail(k, s, s') && s.tail == |s.consumed| % Pow2(k)
    requires |s.consumed| + s.consumer.count <= |s.produced| && s.consumed == s.produced[..|s.consumed|]
    requires s.consumer.out == s.produced[|s.consumed|..|s.consumed| + |s.consumer.out|]
    ensures s'.consumed == s.produced[..|s.consumed| + s.consumer.count]
    ensures s'.tail == (|s.consumed| + s.consumer.count) % Pow2(k)
  {
    MaskedSum(|s.consumed|, s.consumer.count, Pow2(k));
  }

  /** The batch read between steps `i` and `j` delivers the oldest `count` tokens published at
      step `i`. */
  lemma {:induction false} BatchDelivers(k: nat, run: seq<State>, i: nat, j: nat, maxTokens: nat)
    requires k <= 32 && IsRun(k, run) && i + 1 < j < |run|
    requires ReadHead(k, run[i], run[i + 1], maxTokens) && PublishTail(k, run[j - 1], run[j])
    requires forall l | i < l < j :: run[l].consumer.Copying?
    ensures |run[i].consumed| <= |run[i].produced|
    ensures var n := |run[i].consumed| + Least(|run[i].produced| - |run[i].consumed|, maxTokens);
            run[j].consumed == run[i].produced[..n] && run[j].tail == n % Pow2(k)
  {
    HeadReadCounts(k, run, i, maxTokens);
    RunWhileCopying(k, run, i, j - 1);
    PublishDelivers(k, run, j - 1);
    SamePrefix(run[i].produced, run[j - 1].produced,
               |run[i].consumed| + Least(|run[i].produced| - |run[i].consumed|, maxTokens));
  }

  lemma {:induction false} SamePrefix(a: seq<Token>, b: seq<Token>, n: nat)
    requires a <= b && n <= |a|
    ensures a[..n] == b[..n]
  {
  }

  /** A batch read that starts at step `i` and ends at step `j`, with any producer steps in
      between, delivers the tokens and leaves the tail of as many single reads made at step
      `i`; how many is decided by what was published then. */
  lemma {:induction false} BatchEqualsSingles(k: nat, run: seq<State>, i: nat, j: nat, maxTokens: nat)
    requires k <= 32 && IsRun(k, run) && i + 1 < j < |run|
    requires ReadHead(k, run[i], run[i + 1], maxTokens) && PublishTail(k, run[j - 1], run[j])
    requires forall l | i < l < j :: run[l].consumer.Copying?
    ensures |run[i].slots| == Pow2(k) && |run[i].consumed| <= |run[i].produced|
    ensures var singles := AfterSingles(k, run[i], Least(|run[i].produced| - |run[i].consumed|, maxTokens));
            run[j].consumed == singles.consumed && run[j].tail == singles.tail
  {
    RunKeepsInv(k, run, i);
    InvGivesQuiet(k, run[i]);
    BatchDelivers(k, run, i, j, maxTokens);
    SinglesAdvance(k, run[i], Least(|run[i].produced| - |run[i].consumed|, maxTokens));
  }
}
