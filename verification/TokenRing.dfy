/** The hugepage token ring as the producer and the consumer use it, one call at a time. */
module TokenRing {
  import opened Bits
  import opened RingIndex
  import opened Common

  class Ring {
    const slotCount: nat
    const k: nat                 // slot_count == 2^k in a ring that is in use
    const slots: array<Token>
    var head: nat
    var tail: nat
    var seqId: nat

    /** Everything ever published, and how much of it has been consumed. */
    ghost var produced: seq<Token>
    ghost var taken: nat

    ghost predicate Valid()
      reads this, slots
    {
      && k <= 31
      && slotCount == slots.Length == Pow2(k)
      && taken <= |produced| < taken + Pow2(k)
      && head == |produced| % Pow2(k)
      && tail == taken % Pow2(k)
      && Holds(slots[..], produced, taken, |produced|)
    }

    /** The tokens waiting to be consumed. */
    ghost function Contents(): seq<Token>
      reads this, slots
      requires Valid()
    {
      produced[taken..]
    }

    constructor (k: nat)
      requires k <= 31
      ensures Valid() && Contents() == [] && this.k == k && seqId == 0
      ensures fresh(slots)
    {
      this.k := k;
      slotCount := Pow2(k);
      slots := new Token[Pow2(k)](_ => 0);
      head, tail, seqId, produced, taken := 0, 0, 0, [], 0;
      new;
      ModUnique(0, Pow2(k), 0, 0);
    }

    method FreeSlots() returns (r: nat)
      requires Valid()
      ensures r == Pow2(k) - 1 - |Contents()|
    {
      CountsAreExact(|produced|, taken, k);
      r := Free(head, tail, k);
    }

    method AvailableTokens() returns (r: nat)
      requires Valid()
      ensures r == |Contents()|
    {
      CountsAreExact(|produced|, taken, k);
      r := Available(head, tail, k);
    }

    /** Stores one token behind the `written` ones without publishing it. */
    method WriteSlot(h: nat, token: Token, ghost written: seq<Token>)
      requires slots.Length == Pow2(k) && taken <= |written| < taken + Pow2(k) && h == |written| % Pow2(k)
      requires Holds(slots[..], written, taken, |written|)
      modifies slots
      ensures Holds(slots[..], written + [token], taken, |written| + 1)
      ensures slots[..] == old(slots[..])[h := token]
    {
      HoldsAfterWrite(slots[..], written, taken, |written|, token);
      assert written[..|written|] == written;
      slots[h] := token;
    }

    method Produce(token: Token) returns (ok: bool)
      requires Valid()
      modifies this`head, this`produced, slots
      ensures Valid()
      ensures ok <==> |old(Contents())| < Pow2(k) - 1
      ensures Contents() == if ok then old(Contents()) + [token] else old(Contents())
    {
      CountsAreExact(|produced|, taken, k);
      var next := Next(head, k);
      if next == tail {
        return false;
      }
      WriteSlot(head, token, produced);
      head := next;
      produced := produced + [token];
      return true;
    }

    /** Does not look at the head. With a token waiting it removes the oldest one; on an empty
        ring it returns a stale slot, and the indices then claim a full ring. */
    method Consume() returns (token: Token)
      requires Valid()
      modifies this`tail, this`taken
      ensures old(Contents()) != [] ==>
                Valid() && token == old(Contents())[0] && Contents() == old(Contents())[1..]
      ensures old(Contents()) == [] ==> token == slots[old(tail)] && Available(head, tail, k) == Pow2(k) - 1
    {
      MaskedSum(taken, 1, Pow2(k));
      EmptyLap(taken, Pow2(k));
      assert taken < |produced| ==> slots[..][taken % Pow2(k)] == produced[taken];
      token := slots[tail];
      tail := Slot(tail + 1, k);
      if taken < |produced| {
        taken := taken + 1;
      }
    }

    /** The token `i` places behind the tail. */
    method ReadSlot(i: nat) returns (token: Token)
      requires Valid() && i < |Contents()|
      ensures token == Contents()[i]
    {
      MaskedSum(taken, i, Pow2(k));
      assert slots[..][(taken + i) % Pow2(k)] == produced[taken + i];
      token := slots[Slot(tail + i, k)];
    }

    method ConsumeBatch(out: array<Token>, maxTokens: nat) returns (count: nat)
      requires Valid() && out != slots && maxTokens <= out.Length
      modifies this`tail, this`taken, out
      ensures Valid()
      ensures count == if |old(Contents())| < maxTokens then |old(Contents())| else maxTokens
      ensures out[..count] == old(Contents())[..count] && Contents() == old(Contents())[count..]
      ensures forall i | count <= i < out.Length :: out[i] == old(out[i])
    {
      var available := AvailableTokens();
      count := if available < maxTokens then available else maxTokens;
      var i := 0;
      while i < count
        modifies out
        invariant 0 <= i <= count && Valid()
        invariant out[..i] == Contents()[..i]
        invariant forall j | count <= j < out.Length :: out[j] == old(out[j])
      {
        var token := ReadSlot(i);
        out[i] := token;
        i := i + 1;
      }
      MaskedSum(taken, count, Pow2(k));
      tail := Slot(tail + count, k);
      taken := taken + count;
    }

    /** The tokenizer's last phase: writes slot by slot with a local head, stops at a full
        ring, publishes the head once and announces the prompt. */
    method PublishBatch(tokens: array<Token>, len: nat)
      requires Valid() && len <= tokens.Length && tokens != slots
      modifies this`head, this`seqId, this`produced, slots
      ensures Valid()
      ensures var room := Pow2(k) - 1 - |old(Contents())|;
              Contents() == old(Contents()) + tokens[..if len < room then len else room]
      ensures seqId == Wrap32(old(seqId) + 1)
    {
      ghost var written;
      head, written := WriteBatch(tokens, len);
      produced := written;
      seqId := Wrap32(seqId + 1);
    }

    /** The slot loop, with its local head: nothing is visible to the consumer yet. */
    method WriteBatch(tokens: array<Token>, len: nat) returns (h: nat, ghost written: seq<Token>)
      requires Valid() && len <= tokens.Length && tokens != slots
      modifies slots
      ensures taken <= |written| < taken + Pow2(k) && h == |written| % Pow2(k)
      ensures Holds(slots[..], written, taken, |written|)
      ensures var room := Pow2(k) - 1 - (|produced| - taken);
              written == produced + tokens[..if len < room then len else room]
    {
      h := head;
      written := produced;
      ghost var room := Pow2(k) - 1 - (|produced| - taken);
      var i := 0;
      while i < len
        modifies slots
        invariant 0 <= i <= len && i <= room
        invariant written == produced + tokens[..i]
        invariant taken <= |written| < taken + Pow2(k) && h == |written| % Pow2(k)
        invariant Holds(slots[..], written, taken, |written|)
      {
        CountsAreExact(|written|, taken, k);
        var next := Next(h, k);
        if next == tail {
          break;
        }
        WriteSlot(h, tokens[i], written);
        h := next;
        written := written + [tokens[i]];
        i := i + 1;
      }
    }
  }

  /** A tail one past an equal head is a whole lap behind it, but for one slot. */
  lemma {:induction false} EmptyLap(taken: nat, n: nat)
    requires n > 0
    ensures (taken % n - (taken + 1) % n) % n == n - 1
  {
    SameSlot(taken + n, taken, n);
    MaskedDifference(taken + n, taken + 1, n);
  }
}
