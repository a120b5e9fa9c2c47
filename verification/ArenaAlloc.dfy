/** The slab allocator for KV cache blocks: a bitmap of free slots with a search hint. */
module ArenaAlloc {
  import opened Bits
  import opened Common

  const WORD: nat := 64
  const ALL_ONES: nat := 0xFFFF_FFFF_FFFF_FFFF

  /** Bit `s % 64` of word `s / 64` is set: slot `s` is free. */
  predicate FreeSlot(bitmap: seq<nat>, s: nat) {
    s / WORD < |bitmap| && Bit(bitmap[s / WORD], s % WORD)
  }

  predicate IsWord(w: nat) { w <= ALL_ONES }

  /** Slot `s` is the first free slot of all. */
  ghost predicate LowestFree(bitmap: seq<nat>, s: nat) {
    FreeSlot(bitmap, s) && forall x: nat | x < s :: !FreeSlot(bitmap, x)
  }

  lemma {:induction false} ZeroWordHasNoFreeSlot(bitmap: seq<nat>, s: nat)
    requires s / WORD < |bitmap| && bitmap[s / WORD] == 0
    ensures !FreeSlot(bitmap, s)
  {
    ZeroHasNoBits(s % WORD);
  }

  lemma {:induction false} LowestBitInWord(word: nat)
    requires IsWord(word) && word != 0
    ensures Ctz(word) < WORD
  {
    Pow2Of64();
    BitBelow(word, WORD, Ctz(word));
  }

  lemma {:induction false} LowestOfWord(bitmap: seq<nat>, w: nat, bit: nat)
    requires w < |bitmap| && IsWord(bitmap[w]) && bitmap[w] != 0 && bit == Ctz(bitmap[w])
    ensures bit < WORD
    ensures FreeSlot(bitmap, w * WORD + bit)
    ensures forall x: nat | x / WORD == w && x < w * WORD + bit :: !FreeSlot(bitmap, x)
  {
    LowestBitInWord(bitmap[w]);
  }

  /** `bitmap[w] &= ~(1 << bit)` takes exactly one slot out of the free ones. */
  lemma {:induction false} ClearTakesOneSlot(bitmap: seq<nat>, w: nat, bit: nat, x: nat)
    requires w < |bitmap| && bit < WORD
    ensures FreeSlot(bitmap[w := AndNot(bitmap[w], Pow2(bit))], x) <==> x != w * WORD + bit && FreeSlot(bitmap, x)
  {
    if x / WORD == w {
      BitOfAndNot(bitmap[w], Pow2(bit), x % WORD);
      BitOfPow2(bit, x % WORD);
    }
  }

  /** `bitmap[w] |= 1 << bit` adds exactly one slot to the free ones. */
  lemma {:induction false} SetAddsOneSlot(bitmap: seq<nat>, w: nat, bit: nat, x: nat)
    requires w < |bitmap| && bit < WORD
    ensures FreeSlot(bitmap[w := Or(bitmap[w], Pow2(bit))], x) <==> x == w * WORD + bit || FreeSlot(bitmap, x)
  {
    if x / WORD == w {
      BitOfOr(bitmap[w], Pow2(bit), x % WORD);
      BitOfPow2(bit, x % WORD);
    }
  }

  /** align_up, for a power-of-two alignment: the least multiple that is large enough. */
  function AlignUp(val: nat, k: nat): (r: nat)
    ensures r % Pow2(k) == 0 && val <= r < val + Pow2(k)
  {
    var x := val + Pow2(k) - 1;
    MaskIsMod(x, k);
    AndPlusAndNot(x, Pow2(k) - 1);
    RoundedDown(x, Pow2(k));
    AndNot(x, Pow2(k) - 1)
  }

  lemma {:induction false} RoundedDown(x: nat, m: nat)
    requires m > 0
    ensures (x - x % m) % m == 0 && 0 <= x % m < m
  {
    ModUnique(x - x % m, m, x / m, 0);
  }

  /** The least slot from `from` on that is not in use. */
  function FirstFree(used: set<nat>, total: nat, from: nat): (r: Option<nat>)
    requires from <= total
    ensures r.None? ==> forall s | from <= s < total :: s in used
    ensures r.Some? ==> && from <= r.value < total && r.value !in used
                        && forall s | from <= s < r.value :: s in used
    decreases total - from
  {
    if from == total then None
    else if from !in used then Some(from)
    else FirstFree(used, total, from + 1)
  }

  /** The slots in use: those whose bit is clear. */
  ghost function Used(bitmap: seq<nat>, total: nat): set<nat> {
    set s: nat | s < total && !FreeSlot(bitmap, s)
  }

  /** Only slots below `total` have their bit set, and every word before the hint is full. */
  ghost predicate Consistent(bitmap: seq<nat>, total: nat, hint: nat) {
    && |bitmap| == (total + WORD - 1) / WORD
    && (forall w | 0 <= w < |bitmap| :: IsWord(bitmap[w]))
    && (forall s: nat | FreeSlot(bitmap, s) :: s < total)
    && hint <= |bitmap|
    && (forall w | 0 <= w < hint :: bitmap[w] == 0)
  }

  lemma {:induction false} NothingBeforeHint(bitmap: seq<nat>, total: nat, hint: nat, x: nat)
    requires Consistent(bitmap, total, hint) && x / WORD < hint
    ensures !FreeSlot(bitmap, x)
  {
    ZeroWordHasNoFreeSlot(bitmap, x);
  }

  lemma {:induction false} TakenIsLowest(bitmap: seq<nat>, total: nat, s: nat)
    requires LowestFree(bitmap, s) && s < total
    ensures FirstFree(Used(bitmap, total), total, 0) == Some(s)
  {
    assert s !in Used(bitmap, total);
  }

  lemma {:induction false} UsedAfterTake(bitmap: seq<nat>, bitmap': seq<nat>, total: nat, s: nat)
    requires s < total && FreeSlot(bitmap, s)
    requires forall x: nat :: FreeSlot(bitmap', x) <==> x != s && FreeSlot(bitmap, x)
    ensures Used(bitmap', total) == Used(bitmap, total) + {s}
    ensures |Used(bitmap', total)| == |Used(bitmap, total)| + 1
  {
    assert Used(bitmap', total) == Used(bitmap, total) + {s};
  }

  lemma {:induction false} ConsistentAfterTake(bitmap: seq<nat>, bitmap': seq<nat>, total: nat, hint: nat, s: nat)
    requires Consistent(bitmap, total, hint) && hint <= s / WORD < |bitmap| && |bitmap'| == |bitmap|
    requires forall x: nat | hint <= x / WORD && x < s :: !FreeSlot(bitmap, x)
    requires forall x: nat :: FreeSlot(bitmap', x) <==> x != s && FreeSlot(bitmap, x)
    requires forall w | 0 <= w < |bitmap| :: bitmap'[w] <= bitmap[w]
    requires forall w | 0 <= w < |bitmap| && w != s / WORD :: bitmap'[w] == bitmap[w]
    ensures Consistent(bitmap', total, s / WORD)
  {
    forall w | 0 <= w < s / WORD ensures bitmap[w] == 0 {
      if w >= hint && bitmap[w] != 0 {
        LowestOfWord(bitmap, w, Ctz(bitmap[w]));
      }
    }
  }

  lemma {:induction false} NothingFree(bitmap: seq<nat>, total: nat)
    requires forall x: nat | x / WORD < |bitmap| :: !FreeSlot(bitmap, x)
    ensures FirstFree(Used(bitmap, total), total, 0) == None
  {
    assert forall s: nat | s < total :: s in Used(bitmap, total);
  }

  lemma {:induction false} UsedAfterFree(bitmap: seq<nat>, bitmap': seq<nat>, total: nat, s: nat)
    requires s < total
    requires forall x: nat :: FreeSlot(bitmap', x) <==> x == s || FreeSlot(bitmap, x)
    ensures Used(bitmap', total) == Used(bitmap, total) - {s}
    ensures s in Used(bitmap, total) ==> |Used(bitmap', total)| == |Used(bitmap, total)| - 1
  {
    assert Used(bitmap', total) == Used(bitmap, total) - {s};
  }

  /** The initial bitmap: full words of ones, then the remainder. */
  ghost predicate AllOnes(bitmap: seq<nat>, total: nat) {
    && |bitmap| == (total + WORD - 1) / WORD
    && forall w | 0 <= w < |bitmap| ::
         bitmap[w] == if w == |bitmap| - 1 && total % WORD > 0 then Pow2(total % WORD) - 1 else ALL_ONES
  }

  lemma {:induction false} AllOnesIsAllFree(bitmap: seq<nat>, total: nat)
    requires AllOnes(bitmap, total)
    ensures Consistent(bitmap, total, 0) && Used(bitmap, total) == {}
  {
    Pow2Of64();
    forall s: nat ensures FreeSlot(bitmap, s) <==> s < total {
      if s / WORD < |bitmap| {
        BitOfOnes(WORD, s % WORD);
        BitOfOnes(total % WORD, s % WORD);
      }
    }
    Pow2Monotone(total % WORD, WORD);
  }

  /** The address of a slot determines the slot. */
  lemma {:induction false} SlotOfAddress(slotSize: nat, s: nat)
    requires slotSize > 0
    ensures (s * slotSize) / slotSize == s
  {
    ModUnique(s * slotSize, slotSize, s, 0);
  }

  datatype Scan = Taken(slot: nat) | PastEnd | Nothing

  class Arena {
    const base: nat
    const slotSize: nat
    const totalSlots: nat
    const bitmap: array<nat>
    var hint: nat
    var usedSlots: int
    var allocCount: nat
    var freeCount: nat

    ghost predicate Valid()
      reads this, bitmap
    {
      && slotSize > 0
      && Consistent(bitmap[..], totalSlots, hint)
    }

    ghost function Allocated(): set<nat>
      reads this, bitmap
    {
      Used(bitmap[..], totalSlots)
    }

    /** The counters agree with the bitmap. */
    ghost predicate Balanced()
      reads this, bitmap
    {
      usedSlots == |Allocated()| && usedSlots == allocCount - freeCount
    }

    function Address(s: nat): nat { base + s * slotSize }

    /** Every bit below `totalSlots` set, every other bit clear. */
    constructor (base: nat, slotSize: nat, totalSlots: nat)
      requires slotSize > 0
      ensures Valid() && Balanced() && Allocated() == {} && fresh(bitmap)
      ensures this.base == base && this.slotSize == slotSize && this.totalSlots == totalSlots
    {
      this.base, this.slotSize, this.totalSlots := base, slotSize, totalSlots;
      bitmap := new nat[(totalSlots + WORD - 1) / WORD](_ => 0);
      hint, usedSlots, allocCount, freeCount := 0, 0, 0, 0;
      new;
      var i := 0;
      while i < bitmap.Length
        modifies bitmap
        invariant 0 <= i <= bitmap.Length
        invariant forall w | 0 <= w < i :: bitmap[w] == ALL_ONES
      {
        bitmap[i] := ALL_ONES;
        i := i + 1;
      }
      var remainder := totalSlots % WORD;
      if remainder > 0 {
        bitmap[bitmap.Length - 1] := Pow2(remainder) - 1;
      }
      AllOnesIsAllFree(bitmap[..], totalSlots);
    }

    /** One of the two scan loops of kllm_arena_alloc: takes the first free bit of the
        first non-zero word in `lo..hi`. */
    method TakeFirst(lo: nat, hi: nat) returns (r: Scan)
      requires hi <= bitmap.Length && slotSize > 0
      requires forall w | 0 <= w < bitmap.Length :: IsWord(bitmap[w])
      modifies this`hint, this`usedSlots, this`allocCount, bitmap
      ensures r.Taken? ==>
                && lo <= r.slot / WORD < hi && r.slot < totalSlots
                && hint == r.slot / WORD && usedSlots == old(usedSlots) + 1 && allocCount == old(allocCount) + 1
                && FreeSlot(old(bitmap[..]), r.slot)
                && (forall x: nat :: FreeSlot(bitmap[..], x) <==> x != r.slot && FreeSlot(old(bitmap[..]), x))
                && (forall x: nat | lo <= x / WORD && x < r.slot :: !FreeSlot(old(bitmap[..]), x))
                && (forall w | 0 <= w < bitmap.Length :: bitmap[w] <= old(bitmap[w]))
                && (forall w | 0 <= w < bitmap.Length && w != hint :: bitmap[w] == old(bitmap[w]))
      ensures !r.Taken? ==> bitmap[..] == old(bitmap[..]) && unchanged(this)
      ensures r.PastEnd? ==> exists x: nat :: x >= totalSlots && FreeSlot(bitmap[..], x)
      ensures r.Nothing? ==> forall x: nat | lo <= x / WORD < hi :: !FreeSlot(bitmap[..], x)
    {
      ghost var b := bitmap[..];
      var w := lo;
      while w < hi
        invariant lo <= w
        invariant forall x: nat | lo <= x / WORD < w && x / WORD < hi :: !FreeSlot(b, x)
        invariant bitmap[..] == b && unchanged(this)
      {
        if bitmap[w] != 0 {
          var bit := Ctz(bitmap[w]);
          LowestOfWord(b, w, bit);
          var slot := w * WORD + bit;
          if slot >= totalSlots {
            return PastEnd;
          }
          AndNotAtMost(bitmap[w], Pow2(bit));
          bitmap[w] := AndNot(bitmap[w], Pow2(bit));
          hint := w;
          usedSlots := usedSlots + 1;
          allocCount := allocCount + 1;
          assert bitmap[..] == b[w := AndNot(b[w], Pow2(bit))];
          forall x: nat ensures FreeSlot(bitmap[..], x) <==> x != slot && FreeSlot(b, x) {
            ClearTakesOneSlot(b, w, bit, x);
          }
          return Taken(slot);
        }
        forall x: nat | x / WORD == w ensures !FreeSlot(b, x) {
          ZeroWordHasNoFreeSlot(b, x);
        }
        w := w + 1;
      }
      return Nothing;
    }

    /** kllm_arena_alloc: the lowest-numbered free slot, or nothing exactly when none is
        free. It is never found by the wrap-around scan. */
    method Alloc() returns (r: Option<nat>)
      requires Valid()
      modifies this`hint, this`usedSlots, this`allocCount, bitmap
      ensures Valid() && (old(Balanced()) ==> Balanced())
      ensures var lowest := FirstFree(old(Allocated()), totalSlots, 0);
              && (lowest.None? ==> r.None? && unchanged(this) && Allocated() == old(Allocated()))
              && (lowest.Some? ==>
                    && r == Some(Address(lowest.value))
                    && lowest.value / WORD >= old(hint)
                    && Allocated() == old(Allocated()) + {lowest.value}
                    && allocCount == old(allocCount) + 1 && usedSlots == old(usedSlots) + 1)
    {
      ghost var b := bitmap[..];
      forall x: nat | x / WORD < hint ensures !FreeSlot(b, x) {
        NothingBeforeHint(b, totalSlots, hint, x);
      }
      var scan := TakeFirst(hint, bitmap.Length);
      if scan.Taken? {
        TakenIsLowest(b, totalSlots, scan.slot);
        UsedAfterTake(b, bitmap[..], totalSlots, scan.slot);
        ConsistentAfterTake(b, bitmap[..], totalSlots, old(hint), scan.slot);
        return Some(Address(scan.slot));
      }
      if scan.PastEnd? {
        return None;
      }
      NothingFree(b, totalSlots);
      scan := TakeFirst(0, hint);  // the wrap-around scan
      assert scan.Nothing?;
      return None;
    }

    /** kllm_arena_free, for any pointer into the block of slot `s` */
    method Release(block: nat, ghost s: nat)
      requires Valid() && s < totalSlots && base <= block && (block - base) / slotSize == s
      modifies this`hint, this`usedSlots, this`freeCount, bitmap
      ensures Valid()
      ensures Allocated() == old(Allocated()) - {s}
      ensures s in old(Allocated()) && old(Balanced()) ==> Balanced()
      ensures usedSlots == old(usedSlots) - 1 && freeCount == old(freeCount) + 1
    {
      ghost var b := bitmap[..];
      var offset := block - base;
      var slot := offset / slotSize;
      var w := slot / WORD;
      var bit := slot % WORD;
      bitmap[w] := Or(bitmap[w], Pow2(bit));
      usedSlots := usedSlots - 1;
      freeCount := freeCount + 1;
      if w < hint {
        hint := w;
      }
      assert bitmap[..] == b[w := Or(b[w], Pow2(bit))];
      Pow2Monotone(bit, WORD);
      Pow2Of64();
      OrBelow(b[w], Pow2(bit), WORD);
      forall x: nat ensures FreeSlot(bitmap[..], x) <==> x == s || FreeSlot(b, x) {
        SetAddsOneSlot(b, w, bit, x);
      }
      UsedAfterFree(b, bitmap[..], totalSlots, s);
    }

    /** kllm_arena_slot_index, for up to 2^32 - 1 slots */
    method SlotIndex(block: nat, ghost s: nat) returns (r: nat)
      requires slotSize > 0 && block == Address(s) && s < TWO_32
      ensures r == s
    {
      SlotOfAddress(slotSize, s);
      r := Wrap32((block - base) / slotSize);
    }

    /** kllm_arena_slot_ptr */
    function SlotPtr(index: nat): Option<nat> {
      if index >= totalSlots then None else Some(Address(index))
    }
  }

  lemma {:induction false} Pow2Of12()
    ensures Pow2(12) == 4096
  {
    assert Pow2(4) == 16;
    assert Pow2(8) == 256;
  }

  lemma {:induction false} QuotientZero(a: nat, m: nat)
    requires m > 0
    ensures a / m == 0 <==> a < m
  {
  }

  /** Every slot's address is whole slots behind `base`, with room for a block before the next
      slot's address and before the end of the region. */
  ghost predicate BlocksFit(arena: Arena, base: nat, totalBytes: nat, blockBytes: nat) {
    && arena.slotSize > 0 && (arena.totalSlots > 0 ==> arena.Address(0) == base)
    && (forall s | 0 <= s < arena.totalSlots ::
          && base <= arena.Address(s) && (arena.Address(s) - base) % arena.slotSize == 0
          && arena.Address(s) + blockBytes <= base + totalBytes)
    && (forall s, t | 0 <= s < t < arena.totalSlots :: arena.Address(s) + blockBytes <= arena.Address(t))
  }

  lemma {:induction false} AllBlocksFit(arena: Arena, totalBytes: nat, blockBytes: nat)
    requires 0 < blockBytes <= arena.slotSize && arena.totalSlots == totalBytes / arena.slotSize
    ensures BlocksFit(arena, arena.base, totalBytes, blockBytes)
  {
    forall s | 0 <= s < arena.totalSlots
      ensures && arena.base <= arena.Address(s) && (arena.Address(s) - arena.base) % arena.slotSize == 0
              && arena.Address(s) + blockBytes <= arena.base + totalBytes && arena.Address(0) == arena.base
    {
      BlocksDisjoint(arena, totalBytes, blockBytes, s, s);
    }
    forall s, t | 0 <= s < t < arena.totalSlots ensures arena.Address(s) + blockBytes <= arena.Address(t) {
      BlocksDisjoint(arena, totalBytes, blockBytes, s, t);
    }
  }

  /** kllm_arena_create. `mapOk` says whether the region could be mapped, at `base`; `memOk`
      whether the two small allocations succeed. No arena exactly when one of these fails or
      not even one block, rounded up to whole pages, fits. */
  method Create(base: nat, totalBytes: nat, blockBytes: nat, mapOk: bool, memOk: bool) returns (arena: Arena?)
    requires blockBytes > 0
    ensures var slotSize := AlignUp(blockBytes, 12);
            && slotSize % 4096 == 0 && blockBytes <= slotSize < blockBytes + 4096
            && (arena == null <==> totalBytes < slotSize || !mapOk || !memOk)
            && (arena != null ==> && fresh(arena) && fresh(arena.bitmap) && arena.Valid() && arena.Balanced()
                                  && arena.Allocated() == {} && arena.base == base && arena.slotSize == slotSize
                                  && arena.totalSlots == totalBytes / slotSize
                                  && arena.bitmap.Length == (arena.totalSlots + 63) / 64)
    ensures arena != null ==> BlocksFit(arena, base, totalBytes, blockBytes)
  {
    if !memOk {
      return null;
    }
    var slotSize := AlignUp(blockBytes, 12);
    Pow2Of12();
    QuotientZero(totalBytes, slotSize);
    var totalSlots := totalBytes / slotSize;
    if totalSlots == 0 {
      return null;
    }
    if !mapOk {
      return null;
    }
    arena := new Arena(base, slotSize, totalSlots);
    AllBlocksFit(arena, totalBytes, blockBytes);
  }

  lemma {:induction false} OneSlotFurther(a: nat, b: nat, m: nat)
    requires a < b
    ensures a * m + m <= b * m
    decreases b
  {
    assert b * m == (b - 1) * m + m;
    if a + 1 < b {
      OneSlotFurther(a, b - 1, m);
    }
  }

  /** The addresses handed out: whole slots from the base on, each with room for a block that no
      other slot's block overlaps, and all inside the mapped region. */
  lemma {:induction false} BlocksDisjoint(arena: Arena, totalBytes: nat, blockBytes: nat, s: nat, t: nat)
    requires 0 < blockBytes <= arena.slotSize && arena.totalSlots == totalBytes / arena.slotSize
    requires s <= t < arena.totalSlots
    ensures arena.SlotPtr(s) == Some(arena.Address(s)) && arena.SlotPtr(arena.totalSlots) == None
    ensures arena.Address(0) == arena.base
    ensures arena.Address(s) >= arena.base && (arena.Address(s) - arena.base) % arena.slotSize == 0
    ensures s < t ==> arena.Address(s) + blockBytes <= arena.Address(t)
    ensures arena.Address(t) + blockBytes <= arena.base + totalBytes
  {
    var m := arena.slotSize;
    ModUnique(s * m, m, s, 0);
    if s < t {
      OneSlotFurther(s, t, m);
    }
    OneSlotFurther(t, arena.totalSlots, m);
    assert arena.totalSlots * m <= totalBytes;
  }
}
