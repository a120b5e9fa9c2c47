/** The response ring as a concurrent protocol: producers append under the lock; one reader
    measures under the lock, copies without it, and advances the tail under it again. */
module ResponseProtocol {
  import opened Bits
  import opened RingIndex
  import opened Common

  datatype Reader = Idle | Copying(count: nat, out: seq<Token>)

  /** `offered`, `accepted` and `delivered` are histories: what producers offered, what went
      into the ring, and what read() calls returned. */
  datatype State = State(
    slots: seq<Token>,
    head: nat,
    tail: nat,
    reader: Reader,
    offered: seq<Token>,
    accepted: seq<Token>,
    delivered: seq<Token>)

  predicate Init(k: nat, s: State) {
    && |s.slots| == Pow2(k)
    && s.head == 0 && s.tail == 0 && s.reader == Idle
    && s.offered == [] && s.accepted == [] && s.delivered == []
  }

  /** CIRC_SPACE */
  function Space(head: nat, tail: nat, k: nat): nat
    requires k <= 32
  {
    Slot(tail - (head + 1), k)
  }

  /** The token goes into the slot at the head. */
  function Stored(k: nat, s: State, token: Token): State
    requires k <= 32 && s.head < |s.slots|
  {
    s.(slots := s.slots[s.head := token],
       head := Slot(s.head + 1, k),
       offered := s.offered + [token],
       accepted := s.accepted + [token])
  }

  /** kllm_resp_produce, atomic under the lock: a full ring drops the token. */
  function Produced(k: nat, s: State, token: Token): State
    requires k <= 32
  {
    if Space(s.head, s.tail, k) > 0 && s.head < |s.slots| then Stored(k, s, token)
    else s.(offered := s.offered + [token])
  }

  ghost predicate Produce(k: nat, s: State, s': State, token: Token)
    requires k <= 32
  {
    s' == Produced(k, s, token)
  }

  /** The reader measures what is there, under the lock. */
  ghost predicate BeginRead(k: nat, s: State, s': State, maxTokens: nat)
    requires k <= 32
  {
    && s.reader.Idle?
    && var available := Available(s.head, s.tail, k);
       s' == s.(reader := Copying(if available < maxTokens then available else maxTokens, []))
  }

  /** The slot of the `i`-th token of a read: one stretch, or two when it wraps around. */
  function CopyIndex(n: nat, tail: nat, count: nat, i: nat): nat
    requires tail < n
  {
    if tail + count <= n then tail + i
    else
      var first := n - tail;
      if i < first then tail + i else i - first
  }

  /** One token copied out, without the lock. */
  ghost predicate CopyOne(s: State, s': State) {
    && s.reader.Copying?
    && var Copying(count, out) := s.reader;
       && |out| < count && s.tail < |s.slots|
       && CopyIndex(|s.slots|, s.tail, count, |out|) < |s.slots|
       && s' == s.(reader := Copying(count, out + [s.slots[CopyIndex(|s.slots|, s.tail, count, |out|)]]))
  }

  /** A copy that faults gives up: nothing is consumed. */
  ghost predicate Fault(s: State, s': State) {
    s.reader.Copying? && s' == s.(reader := Idle)
  }

  /** The tail advances, under the lock. */
  ghost predicate Commit(k: nat, s: State, s': State)
    requires k <= 32
  {
    && s.reader.Copying?
    && var Copying(count, out) := s.reader;
       && |out| == count
       && s' == s.(tail := Slot(s.tail + count, k), delivered := s.delivered + out, reader := Idle)
  }

  ghost predicate Step(k: nat, s: State, s': State)
    requires k <= 32
  {
    || (exists token :: Produce(k, s, s', token))
    || (exists maxTokens :: BeginRead(k, s, s', maxTokens))
    || CopyOne(s, s')
    || Fault(s, s')
    || Commit(k, s, s')
  }

  ghost predicate IsRun(k: nat, run: seq<State>)
    requires k <= 32
  {
    && |run| > 0
    && Init(k, run[0])
    && forall i | 0 <= i < |run| - 1 :: StepAt(k, run, i)
  }

  ghost predicate StepAt(k: nat, run: seq<State>, i: nat)
    requires k <= 32 && i + 1 < |run|
  {
    Step(k, run[i], run[i + 1])
  }

  // ---- The invariant --------------------------------------------------------

  ghost predicate Inv(k: nat, s: State) {
    var n, a, d := Pow2(k), |s.accepted|, |s.delivered|;
    && |s.slots| == n
    && s.head == a % n && s.tail == d % n
    && d <= a < d + n
    && s.delivered == s.accepted[..d]
    && Holds(s.slots, s.accepted, d, a)
    && (s.reader.Copying? ==>
          && |s.reader.out| <= s.reader.count
          && d + s.reader.count <= a
          && s.reader.out == s.accepted[d..d + |s.reader.out|])
  }

  lemma {:induction false} SpaceIsExact(written: nat, taken: nat, k: nat)
    requires k <= 32 && taken <= written < taken + Pow2(k)
    ensures Space(written % Pow2(k), taken % Pow2(k), k) == Pow2(k) - 1 - (written - taken)
  {
    CountsAreExact(written, taken, k);
    var h, t := written % Pow2(k), taken % Pow2(k);
    assert t - (h + 1) == t - h - 1;
  }

  lemma {:induction false} SpaceLeft(k: nat, s: State)
    requires k <= 32 && Inv(k, s)
    ensures s.head < |s.slots| && Space(s.head, s.tail, k) == Pow2(k) - 1 - (|s.accepted| - |s.delivered|)
  {
    SpaceIsExact(|s.accepted|, |s.delivered|, k);
  }

  lemma {:induction false} StoredKeepsInv(k: nat, s: State, token: Token)
    requires k <= 32 && Inv(k, s) && s.head < |s.slots| && |s.accepted| - |s.delivered| < Pow2(k) - 1
    ensures Inv(k, Stored(k, s, token))
  {
    var a, d := |s.accepted|, |s.delivered|;
    MaskedSum(a, 1, Pow2(k));
    assert s.accepted[..a] == s.accepted;
    HoldsAfterWrite(s.slots, s.accepted, d, a, token);
  }

  lemma {:induction false} ProducedKeepsInv(k: nat, s: State, token: Token)
    requires k <= 32 && Inv(k, s)
    ensures Inv(k, Produced(k, s, token))
    ensures Produced(k, s, token).accepted == s.accepted <==> |s.accepted| - |s.delivered| == Pow2(k) - 1
  {
    SpaceLeft(k, s);
    if |s.accepted| - |s.delivered| < Pow2(k) - 1 {
      StoredKeepsInv(k, s, token);
    }
  }

  lemma {:induction false} BeginReadKeepsInv(k: nat, s: State, s': State, maxTokens: nat)
    requires k <= 32 && Inv(k, s) && BeginRead(k, s, s', maxTokens)
    ensures Inv(k, s')
  {
    CountsAreExact(|s.accepted|, |s.delivered|, k);
  }

  /** The two stretches together are the ring positions after the tail. */
  lemma {:induction false} CopyIndexWraps(n: nat, d: nat, count: nat, i: nat)
    requires n > 0 && i < count < n
    ensures CopyIndex(n, d % n, count, i) == (d + i) % n < n
  {
    ModShift(d, i, n);
  }

  lemma {:induction false} CopyOneKeepsInv(k: nat, s: State, s': State)
    requires k <= 32 && Inv(k, s) && CopyOne(s, s')
    ensures Inv(k, s')
  {
    var d, i := |s.delivered|, |s.reader.out|;
    CopyIndexWraps(Pow2(k), d, s.reader.count, i);
    assert s.slots[(d + i) % |s.slots|] == s.accepted[d + i];
    assert s'.reader.out == s.accepted[d..d + i + 1];
  }

  lemma {:induction false} CommitKeepsInv(k: nat, s: State, s': State)
    requires k <= 32 && Inv(k, s) && Commit(k, s, s')
    ensures Inv(k, s')
  {
    var d, count := |s.delivered|, s.reader.count;
    MaskedSum(d, count, Pow2(k));
    assert s'.delivered == s.accepted[..d + count];
  }

  lemma {:induction false} StepKeepsInv(k: nat, s: State, s': State)
    requires k <= 32 && Inv(k, s) && Step(k, s, s')
    ensures Inv(k, s')
  {
    if token :| Produce(k, s, s', token) {
      ProducedKeepsInv(k, s, token);
    } else if maxTokens :| BeginRead(k, s, s', maxTokens) {
      BeginReadKeepsInv(k, s, s', maxTokens);
    } else if CopyOne(s, s') {
      CopyOneKeepsInv(k, s, s');
    } else if Commit(k, s, s') {
      CommitKeepsInv(k, s, s');
    }
  }

  lemma {:induction false} RunKeepsInv(k: nat, run: seq<State>, i: nat)
    requires k <= 32 && IsRun(k, run) && i < |run|
    ensures Inv(k, run[i])
  {
    if i == 0 {
      ModUnique(0, Pow2(k), 0, 0);
    } else {
      RunKeepsInv(k, run, i - 1);
      assert StepAt(k, run, i - 1);
      StepKeepsInv(k, run[i - 1], run[i]);
    }
  }

  /** In every interleaving of producers with the reader's unlocked copying, what the reader
      has received and is receiving is a prefix of what was accepted. */
  lemma {:induction false} ReadIsPrefix(k: nat, run: seq<State>, i: nat)
    requires k <= 32 && IsRun(k, run) && i < |run|
    ensures run[i].delivered <= run[i].accepted
    ensures run[i].reader.Copying? ==> run[i].delivered + run[i].reader.out <= run[i].accepted
  {
    RunKeepsInv(k, run, i);
  }

  /** A token is dropped exactly when all but one slot are unread (4095 of 4096). */
  lemma {:induction false} DroppedOnlyWhenFull(k: nat, run: seq<State>, i: nat, token: Token)
    requires k <= 32 && IsRun(k, run) && i + 1 < |run| && run[i + 1] == Produced(k, run[i], token)
    ensures if |run[i].accepted| - |run[i].delivered| == Pow2(k) - 1
            then run[i + 1].accepted == run[i].accepted
            else run[i + 1].accepted == run[i].accepted + [token]
  {
    RunKeepsInv(k, run, i);
    ProducedKeepsInv(k, run[i], token);
  }

  /** Step `j` offers a token to a ring with all but one slot unread. */
  ghost predicate DropsAt(k: nat, run: seq<State>, j: nat)
    requires j + 1 < |run|
  {
    && run[j + 1].offered != run[j].offered
    && |run[j].accepted| - |run[j].delivered| == Pow2(k) - 1
  }

  lemma {:induction false} StepAccepts(k: nat, s: State, s': State)
    requires k <= 32 && Inv(k, s) && Step(k, s, s')
    ensures if s'.offered == s.offered then s'.accepted == s.accepted
            else && |s'.offered| == |s.offered| + 1
                 && (|s.accepted| - |s.delivered| == Pow2(k) - 1 ==> s'.accepted == s.accepted)
                 && (|s.accepted| - |s.delivered| != Pow2(k) - 1 ==>
                       s'.offered == s.offered + s'.accepted[|s.accepted|..] && |s'.accepted| == |s.accepted| + 1
                       && s.accepted <= s'.accepted)
  {
    if token :| Produce(k, s, s', token) {
      ProducedKeepsInv(k, s, token);
    }
  }

  /** In every interleaving, everything offered was accepted if and only if no token was offered
      to a full ring; and then the reader has received a prefix of everything offered. */
  lemma {:induction false} NothingLostIff(k: nat, run: seq<State>, i: nat)
    requires k <= 32 && IsRun(k, run) && i < |run|
    ensures |run[i].accepted| <= |run[i].offered|
    ensures |run[i].accepted| == |run[i].offered| ==> run[i].accepted == run[i].offered
    ensures run[i].accepted == run[i].offered <==> forall j | 0 <= j < i :: !DropsAt(k, run, j)
    ensures run[i].accepted == run[i].offered ==> run[i].delivered <= run[i].offered
  {
    ReadIsPrefix(k, run, i);
    if i > 0 {
      NothingLostIff(k, run, i - 1);
      RunKeepsInv(k, run, i - 1);
      assert StepAt(k, run, i - 1);
      StepAccepts(k, run[i - 1], run[i]);
      assert (forall j | 0 <= j < i :: !DropsAt(k, run, j)) <==>
             (forall j | 0 <= j < i - 1 :: !DropsAt(k, run, j)) && !DropsAt(k, run, i - 1);
    }
  }
}
