/** The eBPF tokenizer and the reference tokenizer, on the buffers they work in. */
module Tokenizer {
  import opened Bpe
  import opened TokenRing
  import opened Common
  import Bits

  const MAX_PROMPT_LEN: nat := 4096
  const MAX_MERGE_PASSES: nat := 128
  const MAX_SEQ_LEN: nat := 2048

  /** The byte-to-token array has an entry for every byte. */
  type ByteTable = b: seq<Token> | |b| == 256 witness seq(256, i => 0)

  /** The first `limit` bytes as tokens. */
  function Initial(bytes: ByteTable, text: seq<Byte>, limit: nat): (r: seq<Token>)
    ensures |r| == if |text| < limit then |text| else limit
  {
    if text == [] || limit == 0 then [] else [bytes[text[0]]] + Initial(bytes, text[1..], limit - 1)
  }

  lemma {:induction false} InitialAt(bytes: ByteTable, text: seq<Byte>, limit: nat, i: nat)
    requires i < |text| && i < limit
    ensures Initial(bytes, text, limit)[i] == bytes[text[i]]
  {
    if i > 0 { InitialAt(bytes, text[1..], limit - 1, i - 1); }
  }

  lemma {:induction false} InitialExpands(bytes: ByteTable, text: seq<Byte>, limit: nat, expansion: Token -> seq<nat>)
    requires forall b: Byte :: expansion(bytes[b]) == [b]
    ensures Expand(expansion, Initial(bytes, text, limit)) == text[..if |text| < limit then |text| else limit]
  {
    if text != [] && limit > 0 {
      InitialExpands(bytes, text[1..], limit - 1, expansion);
      assert expansion(bytes[text[0]]) == [text[0]];
    }
  }

  /** What the eBPF program leaves in its scratch buffer. */
  ghost function KernelTokens(t: MergeTable, bytes: ByteTable, prompt: seq<Byte>): seq<Token> {
    Merged(t, Initial(bytes, prompt, MAX_SEQ_LEN), MAX_MERGE_PASSES)
  }

  /** What the reference tokenizer returns for a buffer of `maxTokens` tokens. */
  function ReferenceTokens(ms: seq<Merge>, bytes: ByteTable, text: seq<Byte>, maxTokens: nat): seq<Token> {
    SweepFrom(ms, 0, Initial(bytes, text, maxTokens))
  }

  class Scratch {
    const tokens: array<Token>
    var len: nat

    ghost predicate Valid()
      reads this
    {
      tokens.Length == MAX_SEQ_LEN && len <= MAX_SEQ_LEN
    }

    ghost function Contents(): seq<Token>
      reads this, tokens
      requires Valid()
    {
      tokens[..len]
    }

    /** The scan of one pass: the leftmost pair of lowest rank. */
    method FindBest(t: MergeTable) returns (found: bool, bestPos: nat, bestMerged: Token)
      requires Valid() && len >= 2
      ensures found <==> !Stuck(t, Contents())
      ensures found ==> && bestPos == Best(t, Contents(), len)
                        && Mergeable(t, Contents(), bestPos)
                        && bestMerged == t[(tokens[bestPos], tokens[bestPos + 1])].merged
    {
      ghost var s := Contents();
      var bestPriority := NO_PRIORITY;
      found, bestPos, bestMerged := false, 0, 0;
      var i := 0;
      while i < len - 1 && i < MAX_SEQ_LEN - 1
        invariant 0 <= i <= len - 1
        invariant found <==> Best(t, s, i) >= 0
        invariant !found ==> bestPriority == NO_PRIORITY
        invariant found ==> && bestPos == Best(t, s, i)
                            && bestPriority == Rank(t, s, bestPos)
                            && bestMerged == t[(s[bestPos], s[bestPos + 1])].merged
      {
        var key := (tokens[i], tokens[i + 1]);
        if key in t && t[key].priority < bestPriority {
          bestPriority := t[key].priority;
          bestMerged := t[key].merged;
          bestPos := i;
          found := true;
        }
        i := i + 1;
      }
      assert Best(t, s, |s|) == Best(t, s, i);
    }

    /** The rest of the pass: store the merged token and shift the tail left by one. */
    method ReplacePair(p: nat, merged: Token)
      requires Valid() && p + 1 < len
      modifies this`len, tokens
      ensures Valid() && var s := old(Contents()); Contents() == s[..p] + [merged] + s[p + 2..]
    {
      ghost var s := Contents();
      tokens[p] := merged;
      var i := p + 1;
      while i < len - 1 && i < MAX_SEQ_LEN - 1
        modifies tokens
        invariant p < i <= len - 1
        invariant tokens[p] == merged
        invariant forall j | 0 <= j < p :: tokens[j] == s[j]
        invariant forall j | p < j < i :: tokens[j] == s[j + 1]
        invariant forall j | i <= j < len :: tokens[j] == s[j]
      {
        tokens[i] := tokens[i + 1];
        i := i + 1;
      }
      len := len - 1;
    }

    /** do_merge_pass */
    method MergePass(t: MergeTable) returns (stop: bool)
      requires Valid()
      modifies this`len, tokens
      ensures Valid()
      ensures stop <==> Stuck(t, old(Contents()))
      ensures stop ==> Contents() == old(Contents())
      ensures !stop ==> var s := old(Contents());
                        var p := Best(t, s, |s|);
                        p >= 0 && Contents() == MergeAt(t, s, p)
    {
      if len < 2 {
        return true;
      }
      var found, p, merged := FindBest(t);
      if !found {
        return true;
      }
      ReplacePair(p, merged);
      return false;
    }

    /** Phase 1: one token per byte until the buffer is full. */
    method LoadBytes(bytes: ByteTable, prompt: seq<Byte>)
      requires Valid()
      modifies this`len, tokens
      ensures Valid() && Contents() == Initial(bytes, prompt, 2048)
    {
      len := 0;
      var i := 0;
      while i < |prompt| && i < MAX_PROMPT_LEN
        invariant 0 <= i <= |prompt|
        invariant len <= MAX_SEQ_LEN && len == i
        invariant forall j | 0 <= j < len :: tokens[j] == bytes[prompt[j]]
      {
        if len >= MAX_SEQ_LEN {
          break;
        }
        tokens[len] := bytes[prompt[i]];
        len := len + 1;
        i := i + 1;
      }
      forall j | 0 <= j < len ensures tokens[j] == Initial(bytes, prompt, MAX_SEQ_LEN)[j] {
        InitialAt(bytes, prompt, MAX_SEQ_LEN, j);
      }
    }

    /** Phase 2: at most 128 merge passes. */
    method MergeLoop(t: MergeTable)
      requires Valid()
      modifies this`len, tokens
      ensures Valid() && Contents() == Merged(t, old(Contents()), 128)
    {
      ghost var s := Contents();
      var pass := 0;
      while pass < MAX_MERGE_PASSES
        invariant 0 <= pass <= MAX_MERGE_PASSES && Valid()
        invariant Merged(t, s, MAX_MERGE_PASSES) == Merged(t, Contents(), MAX_MERGE_PASSES - pass)
      {
        var stop := MergePass(t);
        if stop {
          break;
        }
        pass := pass + 1;
      }
    }

    /** kllm_tokenize: the token count, or -1; the tokens that fit are published. */
    method Tokenize(t: MergeTable, bytes: ByteTable, prompt: seq<Byte>, ring: Ring?) returns (r: int)
      requires Valid()
      requires ring != null ==> ring.slots != tokens && (ring.slotCount != 0 ==> ring.Valid())
      modifies this`len, tokens
      modifies if ring != null then {ring, ring.slots} else {}
      ensures Valid()
      ensures var rejected := |prompt| == 0 || |prompt| > 4096;
              && (rejected ==> r == -1 && Contents() == old(Contents()))
              && (!rejected ==> Contents() == KernelTokens(t, bytes, prompt))
              && (!rejected ==> r == if ring != null && ring.slotCount == 0 then -1 else len)
              && (rejected && ring != null && ring.slotCount != 0 ==>
                    ring.Valid() && ring.Contents() == old(ring.Contents()) && ring.seqId == old(ring.seqId))
              && (!rejected && ring != null && ring.slotCount != 0 ==>
                    && ring.Valid()
                    && ring.seqId == Bits.Wrap32(old(ring.seqId) + 1)
                    && var room := ring.slotCount - 1 - |old(ring.Contents())|;
                       ring.Contents() == old(ring.Contents()) + Contents()[..if len < room then len else room])
    {
      if |prompt| == 0 || |prompt| > MAX_PROMPT_LEN {
        return -1;
      }
      LoadBytes(bytes, prompt);
      MergeLoop(t);
      if ring == null {
        return len;
      }
      if ring.slotCount == 0 {
        return -1;
      }
      ring.PublishBatch(tokens, len);
      return len;
    }
  }

  /** What a sweep does at position `i`, with `done` written so far. */
  lemma {:induction false} SweepStep(m: Merge, s: seq<Token>, i: nat, done: seq<Token>)
    requires i < |s|
    ensures done + Sweep(m, s[i..]) == if Occurs(m, s, i) then (done + [m.result]) + Sweep(m, s[i + 2..])
                                       else (done + [s[i]]) + Sweep(m, s[i + 1..])
  {
    assert s[i..][1..] == s[i + 1..];
    if Occurs(m, s, i) {
      assert s[i..][2..] == s[i + 2..];
    }
  }

  /** One turn of the sweep loop: writes one token and returns where to read on. */
  method SweepTurn(m: Merge, buf: array<Token>, tokLen: nat, i: nat, writePos: nat) returns (next: nat)
    requires writePos <= i < tokLen <= buf.Length
    modifies buf
    ensures var pair := i + 1 < tokLen && IsPair(m, old(buf[i]), old(buf[i + 1]));
            && next == (if pair then i + 2 else i + 1)
            && buf[writePos] == (if pair then m.result else old(buf[i]))
    ensures forall j | 0 <= j < buf.Length && j != writePos :: buf[j] == old(buf[j])
  {
    next := i;
    if i + 1 < tokLen && buf[i] == m.left && buf[i + 1] == m.right {
      buf[writePos] := m.result;
      next := next + 1;
    } else {
      buf[writePos] := buf[i];
    }
    next := next + 1;
  }

  /** `done` has been written to the front, the buffer is untouched from `i` on, and sweeping the
      rest of `s` completes the sweep. */
  ghost predicate SweptTo(m: Merge, s: seq<Token>, buf: seq<Token>, i: nat, done: seq<Token>) {
    && |done| <= i <= |s| <= |buf|
    && (forall j | i <= j < |s| :: buf[j] == s[j])
    && (forall j | 0 <= j < |done| :: buf[j] == done[j])
    && Sweep(m, s) == done + Sweep(m, s[i..])
  }

  lemma {:induction false} SweptFurther(m: Merge, s: seq<Token>, buf: seq<Token>, i: nat, done: seq<Token>,
                                        buf': seq<Token>, next: nat, x: Token)
    requires SweptTo(m, s, buf, i, done) && i < |s| && |buf'| == |buf|
    requires forall j | 0 <= j < |buf| :: buf'[j] == if j == |done| then x else buf[j]
    requires var pair := i + 1 < |s| && IsPair(m, buf[i], buf[i + 1]);
             && next == (if pair then i + 2 else i + 1)
             && x == (if pair then m.result else buf[i])
    ensures SweptTo(m, s, buf', next, done + [x])
  {
    SweepStep(m, s, i, done);
  }

  /** One sweep in place: compacts `buf[..tokLen]` and returns the new length. */
  method SweepInPlace(m: Merge, buf: array<Token>, tokLen: nat) returns (writePos: nat)
    requires tokLen <= buf.Length
    modifies buf
    ensures writePos <= tokLen
    ensures buf[..writePos] == Sweep(m, old(buf[..tokLen]))
  {
    ghost var s, done := buf[..tokLen], [];
    writePos := 0;
    var i := 0;
    assert s[i..] == s;
    while i < tokLen
      invariant 0 <= writePos == |done| && i <= tokLen
      invariant SweptTo(m, s, buf[..], i, done)
    {
      ghost var before := buf[..];
      var next := SweepTurn(m, buf, tokLen, i, writePos);
      SweptFurther(m, s, before, i, done, buf[..], next, buf[writePos]);
      done := done + [buf[writePos]];
      i, writePos := next, writePos + 1;
    }
    assert buf[..writePos] == done;
  }

  /** userspace_tokenize. `allocOk` says whether the buffer could be allocated. */
  method UserspaceTokenize(bytes: ByteTable, ms: seq<Merge>, text: seq<Byte>, out: array<Token>, maxTokens: nat,
                           allocOk: bool)
    returns (count: nat)
    requires maxTokens <= out.Length
    modifies out
    ensures allocOk ==> count == |ReferenceTokens(ms, bytes, text, maxTokens)| <= maxTokens
    ensures allocOk ==> out[..count] == ReferenceTokens(ms, bytes, text, maxTokens)
    ensures !allocOk ==> count == 0 && out[..] == old(out[..])
  {
    if !allocOk {
      return 0;
    }
    var buf := new Token[|text|];
    var tokLen: nat := 0;
    while tokLen < |text| && tokLen < maxTokens
      invariant 0 <= tokLen <= |text| && tokLen <= maxTokens
      invariant forall j | 0 <= j < tokLen :: buf[j] == bytes[text[j]]
    {
      buf[tokLen] := bytes[text[tokLen]];
      tokLen := tokLen + 1;
    }
    forall j | 0 <= j < tokLen ensures buf[j] == Initial(bytes, text, maxTokens)[j] {
      InitialAt(bytes, text, maxTokens, j);
    }
    assert buf[..tokLen] == Initial(bytes, text, maxTokens);
    var m := 0;
    while m < |ms|
      invariant 0 <= m <= |ms| && tokLen <= |text| && tokLen <= maxTokens
      invariant SweepFrom(ms, m, buf[..tokLen]) == ReferenceTokens(ms, bytes, text, maxTokens)
    {
      tokLen := SweepInPlace(ms[m], buf, tokLen);
      m := m + 1;
    }
    count := if tokLen < maxTokens then tokLen else maxTokens;
    forall i | 0 <= i < count {
      out[i] := buf[i];
    }
  }

  /** The eBPF program and the reference tokenizer, given the same merges and room for
      the same number of tokens, return the same tokens exactly for the prompts that need
      at most 128 merges; prompts of at most 129 bytes always do. */
  lemma {:induction false} KernelEqualsReferenceIff(t: MergeTable, ms: seq<Merge>, bytes: ByteTable, prompt: seq<Byte>)
    requires WellFormed(t, ms)
    ensures KernelTokens(t, bytes, prompt) == ReferenceTokens(ms, bytes, prompt, 2048) <==>
            Least(|prompt|, 2048) - |ReferenceTokens(ms, bytes, prompt, 2048)| <= 128
    ensures |prompt| <= 129 ==> KernelTokens(t, bytes, prompt) == ReferenceTokens(ms, bytes, prompt, 2048)
  {
    var s := Initial(bytes, prompt, 2048);
    MergedEqualsSweepIff(t, ms, s, 128);
    FewerMergesThanTokens(t, s);
  }

  function Letters(b: Byte, n: nat): seq<Byte> { seq(n, _ => b) }

  lemma {:induction false} InitialOfLetters(bytes: ByteTable, b: Byte, n: nat)
    ensures Initial(bytes, Letters(b, n), 2048) == Repeated(bytes[b], Least(n, 2048))
  {
    forall i | 0 <= i < Least(n, 2048) ensures Initial(bytes, Letters(b, n), 2048)[i] == bytes[b] {
      InitialAt(bytes, Letters(b, n), 2048, i);
    }
  }

  /** With the benchmark's table, an even run of up to 256 letters l becomes as many tokens "ll" as
      there are pairs; from 258 letters on the 128 merges are not enough. */
  lemma {:induction false} KernelTokensOfL(t: MergeTable, ms: seq<Merge>, bytes: ByteTable, n: nat)
    requires IsBenchmarkTable(t, ms) && bytes[108] == 108
    ensures n <= 128 ==> KernelTokens(t, bytes, Letters(108, 2 * n)) == Repeated(257, n)
    ensures n > 128 ==> |KernelTokens(t, bytes, Letters(108, 2 * n))| == Least(2 * n, 2048) - 128
  {
    var prompt := Letters(108, 2 * n);
    var s := Initial(bytes, prompt, 2048);
    InitialOfLetters(bytes, 108, 2 * n);
    BenchmarkSweepsOfL(t, ms, Least(n, 1024));
    BenchmarkTableIsWellFormed(t, ms);
    KernelEqualsReferenceIff(t, ms, bytes, prompt);
    MergedEqualsSweepIff(t, ms, s, 128);
    PassesOrStuck(t, s, 128);
  }

  /** A prompt on which they differ: with the benchmark's own table, 258 letters l need 129
      merges, and 130 tokens are left. */
  lemma {:induction false} TokenizersDiffer(t: MergeTable, ms: seq<Merge>, bytes: ByteTable, prompt: seq<Byte>, n: nat)
    requires IsBenchmarkTable(t, ms) && bytes[108] == 108 && prompt == Letters(108, 2 * n) && n == 129
    ensures |prompt| == 258 && |KernelTokens(t, bytes, prompt)| == 130
    ensures ReferenceTokens(ms, bytes, prompt, 2048) == Repeated(257, n)
  {
    KernelTokensOfL(t, ms, bytes, n);
    InitialOfLetters(bytes, 108, 2 * n);
    BenchmarkSweepsOfL(t, ms, n);
  }

  /** The tokens stand for the first `min(len, 2048)` bytes of the prompt, and merging
      ended with nothing left to merge or after exactly 128 merges. */
  lemma {:induction false} KernelTokensDecode(t: MergeTable, bytes: ByteTable, prompt: seq<Byte>,
                                              expansion: Token -> seq<nat>)
    requires TableAgrees(t, expansion)
    requires forall b: Byte :: expansion(bytes[b]) == [b]
    ensures var n := Least(|prompt|, 2048);
            && Expand(expansion, KernelTokens(t, bytes, prompt)) == prompt[..n]
            && (Stuck(t, KernelTokens(t, bytes, prompt)) || |KernelTokens(t, bytes, prompt)| == n - 128)
  {
    var s := Initial(bytes, prompt, MAX_SEQ_LEN);
    InitialExpands(bytes, prompt, MAX_SEQ_LEN, expansion);
    MergedPreservesBytes(t, expansion, s, MAX_MERGE_PASSES);
    PassesOrStuck(t, s, MAX_MERGE_PASSES);
  }

  /** So does the reference tokenizer, for every well-formed merge list. */
  lemma {:induction false} ReferenceTokensDecode(t: MergeTable, ms: seq<Merge>, bytes: ByteTable, text: seq<Byte>,
                                                 maxTokens: nat,
                              expansion: Token -> seq<nat>)
    requires WellFormed(t, ms) && TableAgrees(t, expansion)
    requires forall b: Byte :: expansion(bytes[b]) == [b]
    ensures Expand(expansion, ReferenceTokens(ms, bytes, text, maxTokens)) ==
            text[..if |text| < maxTokens then |text| else maxTokens]
  {
    var s := Initial(bytes, text, maxTokens);
    InitialExpands(bytes, text, maxTokens, expansion);
    MergedEqualsSweepFrom(t, ms, 0, s);
    MergedPreservesBytes(t, expansion, s, MergesNeeded(t, s));
  }
}
