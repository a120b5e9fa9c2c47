/** Ring positions: unbounded counters behind masked 32-bit indices. */
module RingIndex {
  import opened Bits

  /** `x & (slot_count - 1)` in 32-bit arithmetic, for `slot_count == 2^k`. */
  function Slot(x: int, k: nat): (r: nat)
    requires k <= 32
    ensures r == x % Pow2(k)
    ensures r < Pow2(k)
  {
    MaskOfWrap(x, k);
    And(Wrap32(x), Pow2(k) - 1)
  }

  lemma {:induction false} ModShift(b: int, d: int, n: int)
    requires n > 0 && 0 <= d <= n
    ensures (b + d) % n == if b % n + d < n then b % n + d else b % n + d - n
  {
    var q, r := b / n, b % n;
    if r + d < n {
      ModUnique(b + d, n, q, r + d);
    } else {
      assert b + d == (q + 1) * n + (r + d - n);
      ModUnique(b + d, n, q + 1, r + d - n);
    }
  }

  /** Within one lap of the ring, two counters share a slot only if they are equal or
      exactly one lap apart. */
  lemma {:induction false} SameSlot(a: int, b: int, n: int)
    requires n > 0 && b <= a <= b + n
    ensures a % n == b % n <==> a == b || a == b + n
  {
    ModShift(b, a - b, n);
  }

  /** Masking a sum may use the masked operand. */
  lemma {:induction false} MaskedSum(a: int, d: int, n: int)
    requires n > 0
    ensures (a % n + d) % n == (a + d) % n
  {
    var q, r := (a % n + d) / n, (a % n + d) % n;
    assert a + d == (a / n + q) * n + r;
    ModUnique(a + d, n, a / n + q, r);
  }

  /** The masked difference of two masked counters less than a lap apart is the
      difference of the counters. */
  lemma {:induction false} MaskedDifference(a: int, b: int, n: int)
    requires n > 0 && b <= a < b + n
    ensures (a % n - b % n) % n == a - b
  {
    ModShift(b, a - b, n);
    if a % n < b % n {
      ModUnique(a % n - b % n, n, -1, a - b);
    } else {
      ModUnique(a % n - b % n, n, 0, a - b);
    }
  }

  // ---- The quantities both sides compute from head and tail -----------------

  /** kllm_ring_available */
  function Available(head: nat, tail: nat, k: nat): nat
    requires k <= 32
  {
    Slot(head - tail, k)
  }

  /** kllm_ring_free */
  function Free(head: nat, tail: nat, k: nat): nat
    requires k <= 32
  {
    Slot(tail - head - 1, k)
  }

  /** The slot after `i`. */
  function Next(i: nat, k: nat): nat
    requires k <= 32
  {
    Slot(i + 1, k)
  }

  /** With `written` tokens put in and `taken` taken out, the masked arithmetic counts
      exactly the tokens in the ring and the places left, and the producer's full test
      succeeds exactly when all but one slot are in use. */
  lemma {:induction false} CountsAreExact(written: nat, taken: nat, k: nat)
    requires k <= 32 && taken <= written < taken + Pow2(k)
    ensures var n := Pow2(k);
            && Available(written % n, taken % n, k) == written - taken
            && Free(written % n, taken % n, k) == n - 1 - (written - taken)
            && (Next(written % n, k) == taken % n <==> written - taken == n - 1)
            && Next(written % n, k) == (written + 1) % n
  {
    var n := Pow2(k);
    MaskedDifference(written, taken, n);
    MaskedSum(written, 1, n);
    SameSlot(written + 1, taken, n);
    FreeIsExact(written, taken, n);
  }

  lemma {:induction false} FreeIsExact(written: nat, taken: nat, n: nat)
    requires taken <= written < taken + n
    ensures (taken % n - written % n - 1) % n == n - 1 - (written - taken)
  {
    var h, t, d := written % n, taken % n, written - taken;
    ModShift(taken, d, n);
    if h >= t {
      ModUnique(t - h - 1, n, -1, n - 1 - d);
    } else {
      ModUnique(t - h - 1, n, 0, n - 1 - d);
    }
  }

  /** At rest, free and available places add up to one less than the slot count. */
  lemma {:induction false} FreePlusAvailable(head: nat, tail: nat, k: nat)
    requires k <= 32 && head < Pow2(k) && tail < Pow2(k)
    ensures Free(head, tail, k) + Available(head, tail, k) == Pow2(k) - 1
  {
    var n := Pow2(k);
    var lap := if head >= tail then 0 else 1;
    var written := lap * n + head;
    ModUnique(written, n, lap, head);
    ModUnique(tail, n, 0, tail);
    CountsAreExact(written, tail, k);
  }

  // ---- Slots against history ------------------------------------------------

  /** The slots hold positions `lo..hi` of `history`. */
  ghost predicate Holds<T>(slots: seq<T>, history: seq<T>, lo: nat, hi: nat) {
    && |slots| > 0
    && hi <= |history|
    && forall i | lo <= i < hi :: slots[i % |slots|] == history[i]
  }

  /** Writing the next token leaves the tokens already there alone. */
  lemma {:induction false} HoldsAfterWrite<T>(slots: seq<T>, history: seq<T>, lo: nat, hi: nat, x: T)
    requires Holds(slots, history, lo, hi) && lo <= hi < lo + |slots|
    ensures Holds(slots[hi % |slots| := x], history[..hi] + [x], lo, hi + 1)
    ensures forall i | lo <= i < hi :: i % |slots| != hi % |slots|
  {
    forall i | lo <= i < hi
      ensures i % |slots| != hi % |slots|
    {
      SameSlot(hi, i, |slots|);
    }
  }
}
