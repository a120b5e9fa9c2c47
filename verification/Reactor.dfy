/** The reactor's side of the token ring: what its poller makes of a tokenized prompt. */
module Reactor {
  import opened Bpe
  import opened TokenRing
  import opened Tokenizer
  import opened Common

  const POLL_BATCH: nat := 256

  /** `s` cut into batches of 256 tokens; the last may be shorter. */
  function Batches(s: seq<Token>): seq<seq<Token>>
    decreases |s|
  {
    if s == [] then [] else [s[..Least(|s|, POLL_BATCH)]] + Batches(s[Least(|s|, POLL_BATCH)..])
  }

  function Joined(bs: seq<seq<Token>>): seq<Token> {
    if bs == [] then [] else bs[0] + Joined(bs[1..])
  }

  /** The batches lose and reorder nothing, and there is one per started 256 tokens. */
  lemma {:induction false} BatchesJoin(s: seq<Token>)
    ensures Joined(Batches(s)) == s
    ensures |Batches(s)| == (|s| + 255) / 256
    decreases |s|
  {
    if s != [] {
      var n := Least(|s|, POLL_BATCH);
      BatchesJoin(s[n..]);
      assert Batches(s)[1..] == Batches(s[n..]);
      assert s[..n] + s[n..] == s;
    }
  }

  class Reactor {
    const ring: Ring
    var tokensConsumed: nat
    var promptsDispatched: nat
    /** Every batch treated as a prompt so far. */
    ghost var dispatched: seq<seq<Token>>

    constructor (ring: Ring)
      ensures this.ring == ring && tokensConsumed == promptsDispatched == 0 && dispatched == []
    {
      this.ring := ring;
      tokensConsumed, promptsDispatched, dispatched := 0, 0, [];
    }

    /** kllm_ring_poll: takes up to 256 tokens and treats them as a complete prompt. */
    method Poll() returns (busy: bool)
      requires ring.Valid()
      modifies this`tokensConsumed, this`promptsDispatched, this`dispatched, ring`tail, ring`taken
      ensures ring.Valid()
      ensures var n := Least(|old(ring.Contents())|, 256);
              && (busy <==> n > 0)
              && ring.Contents() == old(ring.Contents())[n..]
              && tokensConsumed == old(tokensConsumed) + n
              && promptsDispatched == old(promptsDispatched) + (if n > 0 then 1 else 0)
              && dispatched == old(dispatched) + if n > 0 then [old(ring.Contents())[..n]] else []
    {
      var batch := new Token[POLL_BATCH];
      var count := ring.ConsumeBatch(batch, POLL_BATCH);
      if count == 0 {
        return false;
      }
      tokensConsumed := tokensConsumed + count;
      promptsDispatched := promptsDispatched + 1;
      dispatched := dispatched + [batch[..count]];
      return true;
    }

    /** The poller called again and again while nothing is published. */
    method PollUntilIdle()
      requires ring.Valid()
      modifies this`tokensConsumed, this`promptsDispatched, this`dispatched, ring`tail, ring`taken
      ensures ring.Valid() && ring.Contents() == []
      ensures dispatched == old(dispatched) + Batches(old(ring.Contents()))
      ensures tokensConsumed == old(tokensConsumed) + |old(ring.Contents())|
      ensures promptsDispatched == old(promptsDispatched) + |Batches(old(ring.Contents()))|
    {
      ghost var all := dispatched + Batches(ring.Contents());
      ghost var tokens := tokensConsumed + |ring.Contents()|;
      ghost var prompts := promptsDispatched + |Batches(ring.Contents())|;
      var busy := true;
      while busy
        invariant ring.Valid() && (!busy ==> ring.Contents() == [])
        invariant all == dispatched + Batches(ring.Contents())
        invariant tokens == tokensConsumed + |ring.Contents()|
        invariant prompts == promptsDispatched + |Batches(ring.Contents())|
        decreases busy, |ring.Contents()|
      {
        busy := Poll();
      }
    }
  }

  /** What a prompt adds to a ring with the given room. */
  ghost function Published(t: MergeTable, bytes: ByteTable, prompt: seq<Byte>, room: nat): seq<Token> {
    if 0 < |prompt| <= 4096 then
      KernelTokens(t, bytes, prompt)[..Least(|KernelTokens(t, bytes, prompt)|, room)]
    else []
  }

  method TokenizeInto(scratch: Scratch, ring: Ring, t: MergeTable, bytes: ByteTable, prompt: seq<Byte>)
    requires scratch.Valid() && ring.Valid() && ring.slots != scratch.tokens
    modifies scratch`len, scratch.tokens, ring, ring.slots
    ensures ring.Valid() && |old(ring.Contents())| < ring.slotCount
    ensures ring.Contents() ==
            old(ring.Contents()) + Published(t, bytes, prompt, ring.slotCount - 1 - |old(ring.Contents())|)
  {
    ghost var waiting := ring.Contents();
    var r := scratch.Tokenize(t, bytes, prompt, ring);
    assert waiting + [] == waiting;
  }

  /** A prompt tokenized into the ring and polled out of it: the reactor sees what was waiting
      and then the prompt's tokens that fit, cut into batches. */
  method ServePrompt(scratch: Scratch, reactor: Reactor, t: MergeTable, bytes: ByteTable, prompt: seq<Byte>)
    requires scratch.Valid() && reactor.ring.Valid() && reactor.ring.slots != scratch.tokens
    modifies scratch`len, scratch.tokens, reactor, reactor.ring, reactor.ring.slots
    ensures reactor.ring.Valid() && reactor.ring.Contents() == []
    ensures |old(reactor.ring.Contents())| < reactor.ring.slotCount
    ensures var waiting := old(reactor.ring.Contents());
            var all := waiting + Published(t, bytes, prompt, reactor.ring.slotCount - 1 - |waiting|);
            && reactor.dispatched == old(reactor.dispatched) + Batches(all)
            && reactor.promptsDispatched == old(reactor.promptsDispatched) + |Batches(all)|
  {
    TokenizeInto(scratch, reactor.ring, t, bytes, prompt);
    reactor.PollUntilIdle();
  }

  /** How many tokens a prompt leaves: one per byte up to 2048, less one per merge, of which
      there are at most 128. */
  lemma {:induction false} TokenCount(t: MergeTable, bytes: ByteTable, prompt: seq<Byte>)
    requires prompt != []
    ensures var n := Least(|prompt|, 2048);
            var needed := MergesNeeded(t, Initial(bytes, prompt, 2048));
            && needed < n
            && |KernelTokens(t, bytes, prompt)| == n - Least(needed, 128)
  {
    var s := Initial(bytes, prompt, 2048);
    PassesOrStuck(t, s, 128);
    FewerMergesThanTokens(t, s);
  }

  /** The polls of an idle ring that holds one prompt: together they yield exactly its tokens,
      which stand for its first `min(len, 2048)` bytes. */
  lemma {:induction false} PollsYieldPrompt(t: MergeTable, bytes: ByteTable, prompt: seq<Byte>,
                                            expansion: Token -> seq<nat>)
    requires TableAgrees(t, expansion) && forall b: Byte :: expansion(bytes[b]) == [b]
    ensures var polled := Joined(Batches(KernelTokens(t, bytes, prompt)));
            && polled == KernelTokens(t, bytes, prompt)
            && Expand(expansion, polled) == prompt[..Least(|prompt|, 2048)]
  {
    BatchesJoin(KernelTokens(t, bytes, prompt));
    KernelTokensDecode(t, bytes, prompt, expansion);
  }

  /** The poller treats each batch as a complete prompt. One poll is the whole prompt if and
      only if the prompt leaves at most 256 tokens: always up to 256 bytes, never above 384. */
  lemma {:induction false} OnePollIsPromptIff(t: MergeTable, bytes: ByteTable, prompt: seq<Byte>)
    requires prompt != []
    ensures var tokens := KernelTokens(t, bytes, prompt);
            var needed := MergesNeeded(t, Initial(bytes, prompt, 2048));
            && (Batches(tokens) == [tokens] <==> Least(|prompt|, 2048) - Least(needed, 128) <= 256)
            && (|prompt| <= 256 ==> Batches(tokens) == [tokens])
            && (|prompt| > 384 ==> Batches(tokens) != [tokens])
  {
    var tokens := KernelTokens(t, bytes, prompt);
    TokenCount(t, bytes, prompt);
    BatchesJoin(tokens);
    if |tokens| <= POLL_BATCH {
      assert tokens[..|tokens|] == tokens && tokens[|tokens|..] == [];
    }
  }

  /** A prompt that fails: 385 equal bytes are dispatched as two prompts, whatever the table. */
  lemma {:induction false} PromptSplitInTwo(t: MergeTable, bytes: ByteTable, b: Byte)
    ensures |Batches(KernelTokens(t, bytes, seq(385, _ => b)))| == 2
  {
    var prompt: seq<Byte> := seq(385, _ => b);
    TokenCount(t, bytes, prompt);
    BatchesJoin(KernelTokens(t, bytes, prompt));
  }
}
