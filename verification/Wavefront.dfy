/** Fetching the KV blocks of a sequence: content keys, wavefront batching, and the two
    builders of fetch descriptors. SHA-256 is an arbitrary function of the token prefix. */
module Wavefront {
  import opened Common

  type Key = nat

  const MAX_BLOCKS: nat := 64
  const DEFAULT_TOKENS_PER_BLOCK: nat := 128

  datatype Desc = Desc(key: Key, addr: nat, size: nat, layerStart: nat, layerCount: nat)

  /** The number of blocks that cover `len` tokens. */
  function BlocksFor(len: nat, perBlock: nat): nat
    requires perBlock > 0
  {
    (len + perBlock - 1) / perBlock
  }

  /** The length of the prefix that block `b` stands for. */
  function PrefixLen(len: nat, perBlock: nat, b: nat): (n: nat)
    ensures n <= len
  {
    if (b + 1) * perBlock > len then len else (b + 1) * perBlock
  }

  function BlockKey(hash: seq<Token> -> Key, tokens: seq<Token>, perBlock: nat, b: nat): Key {
    hash(tokens[..PrefixLen(|tokens|, perBlock, b)])
  }

  /** The block table: block `b` lives `b` block sizes behind the region's start. */
  function BlockAddr(base: nat, blockBytes: nat, b: nat): nat { base + b * blockBytes }

  /** The transfer size is a 32-bit field. */
  function Size32(blockBytes: nat): nat { blockBytes % 0x1_0000_0000 }

  function DescOf(hash: seq<Token> -> Key, tokens: seq<Token>, perBlock: nat, base: nat, blockBytes: nat,
                  layers: nat, b: nat): Desc
  {
    Desc(BlockKey(hash, tokens, perBlock, b), BlockAddr(base, blockBytes, b), Size32(blockBytes), 0, layers)
  }

  /** The descriptors of blocks `0..n`, in order. */
  function Descs(hash: seq<Token> -> Key, tokens: seq<Token>, perBlock: nat, base: nat, blockBytes: nat,
                 layers: nat, n: nat): (ds: seq<Desc>)
    ensures |ds| == n
  {
    if n == 0 then []
    else
      Descs(hash, tokens, perBlock, base, blockBytes, layers, n - 1) +
      [DescOf(hash, tokens, perBlock, base, blockBytes, layers, n - 1)]
  }

  lemma {:induction false} DescsAt(hash: seq<Token> -> Key, tokens: seq<Token>, perBlock: nat, base: nat,
                                   blockBytes: nat,
                                   layers: nat, n: nat, b: nat)
    requires b < n
    ensures Descs(hash, tokens, perBlock, base, blockBytes, layers, n)[b] ==
            DescOf(hash, tokens, perBlock, base, blockBytes, layers, b)
  {
    if b < n - 1 {
      DescsAt(hash, tokens, perBlock, base, blockBytes, layers, n - 1, b);
    }
  }

  function Concat(ws: seq<seq<Desc>>): seq<Desc> {
    if ws == [] then [] else Concat(ws[..|ws| - 1]) + ws[|ws| - 1]
  }

  lemma {:induction false} ConcatAppend(ws: seq<seq<Desc>>, w: seq<Desc>)
    ensures Concat(ws + [w]) == Concat(ws) + w
  {
    assert (ws + [w])[..|ws|] == ws;
  }

  /** Every wavefront but the last is full, none is empty and none is over 64 blocks. */
  ghost predicate WellBatched(ws: seq<seq<Desc>>) {
    forall i | 0 <= i < |ws| :: 0 < |ws[i]| <= 64 && (i < |ws| - 1 ==> |ws[i]| == 64)
  }

  /** The loop that initialises the block table in kllm_infer_gpu_create. */
  method InitBlockTable(base: nat, blockBytes: nat, blocksNeeded: nat) returns (table: array<nat>)
    ensures table.Length == blocksNeeded
    ensures forall b | 0 <= b < blocksNeeded :: table[b] == BlockAddr(base, blockBytes, b)
    ensures blocksNeeded > 0 ==> table[0] == base
    ensures forall b | 0 < b < blocksNeeded :: table[b] == table[b - 1] + blockBytes
    ensures forall b | 0 <= b < blocksNeeded ::
              base <= table[b] && table[b] + blockBytes <= base + blockBytes * blocksNeeded
  {
    table := new nat[blocksNeeded];
    for i := 0 to blocksNeeded
      invariant forall b | 0 <= b < i :: table[b] == BlockAddr(base, blockBytes, b)
    {
      table[i] := base + i * blockBytes;
    }
    AddressesStep(base, blockBytes, blocksNeeded);
  }

  /** Blocks follow one another without gap or overlap and stay inside the region. */
  lemma {:induction false} AddressesStep(base: nat, blockBytes: nat, n: nat)
    ensures BlockAddr(base, blockBytes, 0) == base
    ensures forall b: nat | b < n :: base <= BlockAddr(base, blockBytes, b)
    ensures forall b: nat | b < n :: BlockAddr(base, blockBytes, b) + blockBytes <= base + blockBytes * n
    ensures forall b: nat | 0 < b < n ::
              BlockAddr(base, blockBytes, b) == BlockAddr(base, blockBytes, b - 1) + blockBytes
  {
    forall b: nat | b < n
      ensures base <= BlockAddr(base, blockBytes, b)
      ensures BlockAddr(base, blockBytes, b) + blockBytes <= base + blockBytes * n
      ensures b > 0 ==> BlockAddr(base, blockBytes, b) == BlockAddr(base, blockBytes, b - 1) + blockBytes
    {
      Multiples(b + 1, n, blockBytes);
      assert (b + 1) * blockBytes == b * blockBytes + blockBytes;
      assert b > 0 ==> b * blockBytes == (b - 1) * blockBytes + blockBytes;
    }
  }

  /** What the descriptors say: block after block from the base on, the key of everything up to
      the block's end, and all layers. */
  lemma {:induction false} DescriptorFields(hash: seq<Token> -> Key, tokens: seq<Token>, perBlock: nat, base: nat,
                                            blockBytes: nat, layers: nat, n: nat, b: nat)
    requires b < n
    ensures var ds := Descs(hash, tokens, perBlock, base, blockBytes, layers, n);
            && (b == 0 ==> ds[b].addr == base)
            && (b > 0 ==> ds[b].addr == ds[b - 1].addr + blockBytes)
            && base <= ds[b].addr && ds[b].addr + blockBytes <= base + blockBytes * n
            && ds[b].key == hash(tokens[..Least((b + 1) * perBlock, |tokens|)])
            && ds[b].size == blockBytes % 0x1_0000_0000 && ds[b].layerStart == 0 && ds[b].layerCount == layers
  {
    DescsAt(hash, tokens, perBlock, base, blockBytes, layers, n, b);
    if b > 0 {
      DescsAt(hash, tokens, perBlock, base, blockBytes, layers, n, b - 1);
    }
    AddressesStep(base, blockBytes, n);
  }

  /** Hashes the prefix up to the block's boundary and fills the descriptor. */
  method FillDesc(hash: seq<Token> -> Key, tokens: seq<Token>, perBlock: nat, table: array<nat>,
                  ghost base: nat, blockBytes: nat, layers: nat, b: nat)
    returns (desc: Desc)
    requires b < table.Length && table[b] == BlockAddr(base, blockBytes, b)
    ensures desc == DescOf(hash, tokens, perBlock, base, blockBytes, layers, b)
  {
    var prefixLen := (b + 1) * perBlock;
    if prefixLen > |tokens| {
      prefixLen := |tokens|;
    }
    desc := Desc(hash(tokens[..prefixLen]), table[b], Size32(blockBytes), 0, layers);
  }

  /** The building part of fetch_kv_blocks. The submitted wavefronts, in order, hold one
      descriptor for each block of the sequence, in order. `submitOk(i)` says whether the
      `i`-th submission succeeds; the first failure ends the fetch. */
  method FetchKvBlocks(hash: seq<Token> -> Key, tokens: seq<Token>, perBlock: nat, table: array<nat>,
                       ghost base: nat, blockBytes: nat, layers: nat, submitOk: nat -> bool)
    returns (ok: bool, submitted: seq<seq<Desc>>)
    requires perBlock > 0 && BlocksFor(|tokens|, perBlock) <= table.Length
    requires forall b | 0 <= b < table.Length :: table[b] == BlockAddr(base, blockBytes, b)
    ensures forall i | 0 <= i < |submitted| :: submitOk(i)
    ensures WellBatched(submitted)
    ensures ok ==> Concat(submitted) ==
                   Descs(hash, tokens, perBlock, base, blockBytes, layers, BlocksFor(|tokens|, perBlock))
    ensures !ok ==> && !submitOk(|submitted|) && 64 * |submitted| < BlocksFor(|tokens|, perBlock)
                    && Concat(submitted) == Descs(hash, tokens, perBlock, base, blockBytes, layers,
                                                  BlocksFor(|tokens|, perBlock))[..64 * |submitted|]
  {
    var numBlocks := BlocksFor(|tokens|, perBlock);
    ghost var ds := Descs(hash, tokens, perBlock, base, blockBytes, layers, numBlocks);
    var wf: seq<Desc> := [];
    submitted := [];
    var b := 0;
    while b < numBlocks
      invariant 0 <= b <= numBlocks && |wf| < MAX_BLOCKS
      invariant Built(ds, submitted, wf, b)
      invariant forall i | 0 <= i < |submitted| :: submitOk(i)
    {
      var desc := FillDesc(hash, tokens, perBlock, table, base, blockBytes, layers, b);
      DescsAt(hash, tokens, perBlock, base, blockBytes, layers, numBlocks, b);
      BuiltOne(ds, submitted, wf, b);
      ok, submitted, wf := AddBlock(ds, submitted, wf + [desc], b + 1, submitOk);
      if !ok {
        BuiltPrefix(ds, submitted, wf, b + 1);
        return;
      }
      b := b + 1;
    }
    if |wf| > 0 {
      if !submitOk(|submitted|) {
        BuiltPrefix(ds, submitted, wf, b);
        return false, submitted;
      }
      BuiltLast(ds, submitted, wf, b);
      submitted := submitted + [wf];
    } else {
      BuiltPrefix(ds, submitted, wf, b);
    }
    assert ds[..b] == ds;
    return true, submitted;
  }

  /** Submits the wavefront when it is full. */
  method AddBlock(ghost ds: seq<Desc>, submitted: seq<seq<Desc>>, wf: seq<Desc>, ghost b: nat, submitOk: nat -> bool)
    returns (ok: bool, submitted': seq<seq<Desc>>, wf': seq<Desc>)
    requires Built(ds, submitted, wf, b) && 0 < |wf| <= MAX_BLOCKS
    requires forall i | 0 <= i < |submitted| :: submitOk(i)
    ensures Built(ds, submitted', wf', b)
    ensures forall i | 0 <= i < |submitted'| :: submitOk(i)
    ensures ok ==> |wf'| < MAX_BLOCKS
    ensures !ok ==> wf' != [] && !submitOk(|submitted'|)
  {
    if |wf| < MAX_BLOCKS {
      return true, submitted, wf;
    }
    if !submitOk(|submitted|) {
      return false, submitted, wf;
    }
    BuiltFull(ds, submitted, wf, b);
    return true, submitted + [wf], [];
  }

  /** What has been submitted is well batched and a prefix of all descriptors. */
  lemma {:induction false} BuiltPrefix(ds: seq<Desc>, submitted: seq<seq<Desc>>, wf: seq<Desc>, b: nat)
    requires Built(ds, submitted, wf, b)
    ensures WellBatched(submitted)
    ensures 64 * |submitted| <= |ds| && Concat(submitted) == ds[..64 * |submitted|]
    ensures wf != [] ==> 64 * |submitted| < |ds|
    ensures wf == [] ==> Concat(submitted) == ds[..b]
  {
  }

  /** The first `b` descriptors: full wavefronts submitted, and the one being filled. */
  ghost predicate Built(ds: seq<Desc>, submitted: seq<seq<Desc>>, wf: seq<Desc>, b: nat) {
    && b == 64 * |submitted| + |wf| <= |ds|
    && (forall i | 0 <= i < |submitted| :: |submitted[i]| == MAX_BLOCKS)
    && Concat(submitted) == ds[..64 * |submitted|]
    && wf == ds[64 * |submitted|..b]
  }

  lemma {:induction false} BuiltOne(ds: seq<Desc>, submitted: seq<seq<Desc>>, wf: seq<Desc>, b: nat)
    requires Built(ds, submitted, wf, b) && b < |ds|
    ensures Built(ds, submitted, wf + [ds[b]], b + 1)
  {
  }

  lemma {:induction false} SliceJoin(ds: seq<Desc>, a: nat, b: nat)
    requires a <= b <= |ds|
    ensures ds[..a] + ds[a..b] == ds[..b]
  {
  }

  lemma {:induction false} BuiltFull(ds: seq<Desc>, submitted: seq<seq<Desc>>, wf: seq<Desc>, b: nat)
    requires Built(ds, submitted, wf, b) && |wf| == MAX_BLOCKS
    ensures Built(ds, submitted + [wf], [], b)
  {
    ConcatAppend(submitted, wf);
    SliceJoin(ds, 64 * |submitted|, b);
  }

  lemma {:induction false} BuiltLast(ds: seq<Desc>, submitted: seq<seq<Desc>>, wf: seq<Desc>, b: nat)
    requires Built(ds, submitted, wf, b) && 0 < |wf| <= MAX_BLOCKS
    ensures Concat(submitted + [wf]) == ds[..b] && WellBatched(submitted + [wf])
  {
    ConcatAppend(submitted, wf);
    SliceJoin(ds, 64 * |submitted|, b);
    LastBatched(submitted, wf);
  }

  lemma {:induction false} LastBatched(submitted: seq<seq<Desc>>, wf: seq<Desc>)
    requires forall i | 0 <= i < |submitted| :: |submitted[i]| == 64
    requires 0 < |wf| <= 64
    ensures WellBatched(submitted + [wf])
  {
  }

  /** kllm_wavefront_build_kv_fetch: one wavefront, cut off at 64 blocks, for 128-token
      blocks. */
  method BuildKvFetch(hash: seq<Token> -> Key, tokens: seq<Token>, base: nat, blockSize: nat)
    returns (blocks: seq<Desc>)
    requires blockSize < 0x1_0000_0000
    ensures blocks == Descs(hash, tokens, 128, base, blockSize, 0, Least((|tokens| + 127) / 128, 64))
  {
    var needed := BlocksFor(|tokens|, DEFAULT_TOKENS_PER_BLOCK);
    if needed > MAX_BLOCKS {
      needed := MAX_BLOCKS;
    }
    blocks := [];
    var i := 0;
    while i < needed
      invariant 0 <= i <= needed
      invariant blocks == Descs(hash, tokens, DEFAULT_TOKENS_PER_BLOCK, base, blockSize, 0, i)
    {
      var prefixEnd := (i + 1) * DEFAULT_TOKENS_PER_BLOCK;
      if prefixEnd > |tokens| {
        prefixEnd := |tokens|;
      }
      blocks := blocks + [Desc(hash(tokens[..prefixEnd]), base + i * blockSize, blockSize, 0, 0)];
      i := i + 1;
    }
  }

  /** Both builders on one sequence, given the same block table: block by block they describe
      the same key, address and size, and differ in the layer count only. The single wavefront
      holds the first 64 blocks of what the batched fetch submits. */
  method BuildersAgree(hash: seq<Token> -> Key, tokens: seq<Token>, table: array<nat>, base: nat, blockBytes: nat,
                       layers: nat, submitOk: nat -> bool)
    returns (ok: bool, submitted: seq<seq<Desc>>, blocks: seq<Desc>)
    requires BlocksFor(|tokens|, 128) <= table.Length && blockBytes < 0x1_0000_0000
    requires forall b | 0 <= b < table.Length :: table[b] == BlockAddr(base, blockBytes, b)
    ensures forall b | 0 <= b < |blocks| && b < |Concat(submitted)| ::
            blocks[b] == Concat(submitted)[b].(layerCount := 0)
    ensures ok ==> |Concat(submitted)| == BlocksFor(|tokens|, 128)
    ensures ok ==> |blocks| == if |Concat(submitted)| < 64 then |Concat(submitted)| else 64
  {
    ok, submitted := FetchKvBlocks(hash, tokens, DEFAULT_TOKENS_PER_BLOCK, table, base, blockBytes, layers, submitOk);
    blocks := BuildKvFetch(hash, tokens, base, blockBytes);
    ghost var n := BlocksFor(|tokens|, DEFAULT_TOKENS_PER_BLOCK);
    forall b | 0 <= b < |blocks| && b < |Concat(submitted)|
         ensures blocks[b] == Concat(submitted)[b].(layerCount := 0) {
      DescsAt(hash, tokens, DEFAULT_TOKENS_PER_BLOCK, base, blockBytes, 0, |blocks|, b);
      DescsAt(hash, tokens, DEFAULT_TOKENS_PER_BLOCK, base, blockBytes, layers, n, b);
    }
  }

  lemma {:induction false} BlockCount(len: nat, perBlock: nat)
    requires perBlock > 0
    ensures BlocksFor(len, perBlock) * perBlock >= len
    ensures len > 0 ==> BlocksFor(len, perBlock) > 0 && (BlocksFor(len, perBlock) - 1) * perBlock < len
    ensures len == 0 ==> BlocksFor(len, perBlock) == 0
  {
    var n := BlocksFor(len, perBlock);
    var r := (len + perBlock - 1) % perBlock;
    assert len + perBlock - 1 == n * perBlock + r;
    assert (n - 1) * perBlock == n * perBlock - perBlock;
  }

  /** The key of the last block is the key the CPU path looks up: the hash of the whole
      sequence. */
  lemma {:induction false} LastKeyIsLookupKey(hash: seq<Token> -> Key, tokens: seq<Token>, perBlock: nat)
    requires perBlock > 0 && tokens != []
    ensures BlocksFor(|tokens|, perBlock) > 0
    ensures BlockKey(hash, tokens, perBlock, BlocksFor(|tokens|, perBlock) - 1) == hash(tokens)
  {
    BlockCount(|tokens|, perBlock);
    assert tokens[..|tokens|] == tokens;
  }

  // ---- Which blocks two sequences share -------------------------------------

  ghost predicate Injective(hash: seq<Token> -> Key) {
    forall x, y :: hash(x) == hash(y) ==> x == y
  }

  /** The length of the longest common prefix. */
  function SharedLen(s: seq<Token>, t: seq<Token>): (n: nat)
    ensures n <= |s| && n <= |t|
  {
    if s == [] || t == [] || s[0] != t[0] then 0 else 1 + SharedLen(s[1..], t[1..])
  }

  lemma {:induction false} SharedLenIs(s: seq<Token>, t: seq<Token>, n: nat)
    requires n <= |s| && n <= |t|
    ensures s[..n] == t[..n] <==> n <= SharedLen(s, t)
  {
    if n > 0 {
      SharedLenIs(s[1..], t[1..], n - 1);
      assert s[..n] == [s[0]] + s[1..][..n - 1];
      assert t[..n] == [t[0]] + t[1..][..n - 1];
      assert s[..n] == t[..n] ==> s[..n][0] == t[..n][0] && s[..n][1..] == t[..n][1..];
      assert s[..n][1..] == s[1..][..n - 1] && t[..n][1..] == t[1..][..n - 1];
    }
  }

  /** Block `b` of a sequence covers more than `b` and at most `b + 1` blocks' worth of it. */
  lemma {:induction false} BlockSpan(len: nat, perBlock: nat, b: nat)
    requires perBlock > 0 && b < BlocksFor(len, perBlock)
    ensures b * perBlock < PrefixLen(len, perBlock, b) <= (b + 1) * perBlock
    ensures PrefixLen(len, perBlock, b) < (b + 1) * perBlock ==> PrefixLen(len, perBlock, b) == len
  {
    BlockCount(len, perBlock);
    Multiples(b, BlocksFor(len, perBlock) - 1, perBlock);
    assert (b + 1) * perBlock == b * perBlock + perBlock;
  }

  /** Blocks that cover equally long prefixes are the same block of both sequences. */
  lemma {:induction false} SpansDecide(m: nat, n: nat, perBlock: nat, b: nat, c: nat)
    requires perBlock > 0 && b < BlocksFor(m, perBlock) && c < BlocksFor(n, perBlock)
    requires PrefixLen(m, perBlock, b) == PrefixLen(n, perBlock, c)
    ensures b == c
  {
    BlockSpan(m, perBlock, b);
    BlockSpan(n, perBlock, c);
    if b < c {
      Multiples(b + 1, c, perBlock);
    } else if c < b {
      Multiples(c + 1, b, perBlock);
    }
  }

  lemma {:induction false} FullBlocks(common: nat, perBlock: nat, b: nat)
    requires perBlock > 0
    ensures b < common / perBlock <==> (b + 1) * perBlock <= common
  {
    var q := common / perBlock;
    assert common == q * perBlock + common % perBlock;
    if b < q {
      Multiples(b + 1, q, perBlock);
    } else {
      Multiples(q + 1, b + 1, perBlock);
      assert (q + 1) * perBlock == q * perBlock + perBlock;
    }
  }

  /** Block `b` covers the same tokens in both sequences exactly when it lies inside the common
      prefix, or the sequences are equal. */
  lemma {:induction false} SameBlockIff(s: seq<Token>, t: seq<Token>, perBlock: nat, b: nat)
    requires perBlock > 0 && b < BlocksFor(|s|, perBlock) && b < BlocksFor(|t|, perBlock)
    ensures s[..PrefixLen(|s|, perBlock, b)] == t[..PrefixLen(|t|, perBlock, b)] <==>
            b < SharedLen(s, t) / perBlock || s == t
  {
    var m, n := PrefixLen(|s|, perBlock, b), PrefixLen(|t|, perBlock, b);
    FullBlocks(SharedLen(s, t), perBlock, b);
    BlockSpan(|s|, perBlock, b);
    BlockSpan(|t|, perBlock, b);
    if m == n {
      SharedLenIs(s, t, m);
      if m < (b + 1) * perBlock {
        assert s[..m] == s && t[..m] == t;
      }
    } else {
      assert |s[..m]| != |t[..n]|;
    }
  }

  /** Two sequences share a key exactly for the same block of both: one of the first
      `common / perBlock`, or, if the sequences are equal, any block, a partial last one
      included. One direction holds for every hash, the other for an injective one. */
  lemma {:induction false} SharedKeysIff(hash: seq<Token> -> Key, s: seq<Token>, t: seq<Token>, perBlock: nat, b: nat,
                                         c: nat)
    requires perBlock > 0 && b < BlocksFor(|s|, perBlock) && c < BlocksFor(|t|, perBlock)
    ensures b == c && (b < SharedLen(s, t) / perBlock || s == t) ==>
              BlockKey(hash, s, perBlock, b) == BlockKey(hash, t, perBlock, c)
    ensures Injective(hash) && BlockKey(hash, s, perBlock, b) == BlockKey(hash, t, perBlock, c) ==>
              b == c && (b < SharedLen(s, t) / perBlock || s == t)
  {
    var x, y := s[..PrefixLen(|s|, perBlock, b)], t[..PrefixLen(|t|, perBlock, c)];
    if b == c {
      SameBlockIff(s, t, perBlock, b);
    } else if x == y {
      assert |x| == |y|;
      SpansDecide(|s|, |t|, perBlock, b, c);
    }
  }

  lemma {:induction false} Multiples(i: nat, j: nat, m: nat)
    requires i <= j
    ensures i * m <= j * m
    decreases j
  {
    if i < j {
      Multiples(i, j - 1, m);
      assert j * m == (j - 1) * m + m;
    }
  }

  /** With an injective hash no two blocks of a sequence have the same key. */
  lemma {:induction false} KeysDistinct(hash: seq<Token> -> Key, tokens: seq<Token>, perBlock: nat, b: nat, c: nat)
    requires perBlock > 0 && b < c < BlocksFor(|tokens|, perBlock)
    requires Injective(hash)
    ensures BlockKey(hash, tokens, perBlock, b) != BlockKey(hash, tokens, perBlock, c)
  {
    SharedKeysIff(hash, tokens, tokens, perBlock, b, c);
  }
}
