/** The response path: the device's ring, its ioctl and read(), and the chunked emission of
    the reactor. */
module ResponsePath {
  import opened Bits
  import opened RingIndex
  import opened Common
  import opened ResponseProtocol

  const MAX_EMIT: nat := 256
  const EOS_SENTINEL: Token := 0xFFFF_FFFF

  datatype Command = EmitTokens(count: nat, tokens: seq<Token>) | Eos | Unknown

  /** The tokens `tokens[..n]` have been offered to a ring of `size` slots that held `unread`: all
      are recorded in `offered'`, and those that fit are now unread too. */
  ghost predicate Sent(offered: seq<Token>, unread: seq<Token>, tokens: seq<Token>, n: nat, size: nat,
                       offered': seq<Token>, unread': seq<Token>)
    requires n <= |tokens| && |unread| < size
  {
    && offered' == offered + tokens[..n]
    && unread' == unread + tokens[..Least(n, size - 1 - |unread|)]
  }

  lemma {:induction false} SentNone(offered: seq<Token>, unread: seq<Token>, tokens: seq<Token>, size: nat)
    requires |unread| < size
    ensures Sent(offered, unread, tokens, 0, size, offered, unread)
  {
  }

  /** One more token offered: the ring has kept one more, unless it was full. */
  lemma {:induction false} SentOne(offered: seq<Token>, unread: seq<Token>, tokens: seq<Token>, n: nat, size: nat,
                                   offered': seq<Token>, unread': seq<Token>)
    requires n < |tokens| && |unread| < size && Sent(offered, unread, tokens, n, size, offered', unread')
    ensures Sent(offered, unread, tokens, n + 1, size, offered' + [tokens[n]],
                 if |unread'| < size - 1 then unread' + [tokens[n]] else unread')
  {
    assert tokens[..n] + [tokens[n]] == tokens[..n + 1];
  }

  /** Two batches one after the other are one. */
  lemma {:induction false} SentMore(offered: seq<Token>, unread: seq<Token>, tokens: seq<Token>, n: nat, batch: nat,
                                    size: nat, offered': seq<Token>, unread': seq<Token>, offered'': seq<Token>,
                                    unread'': seq<Token>)
    requires n + batch <= |tokens| && |unread| < size && Sent(offered, unread, tokens, n, size, offered', unread')
    requires |unread'| < size && Sent(offered', unread', tokens[n..n + batch], batch, size, offered'', unread'')
    ensures Sent(offered, unread, tokens, n + batch, size, offered'', unread'')
  {
    var first, second := Least(n, size - 1 - |unread|), Least(batch, size - 1 - |unread'|);
    assert tokens[..n] + tokens[n..n + batch][..batch] == tokens[..n + batch];
    assert tokens[..first] + tokens[n..n + batch][..second] == tokens[..Least(n + batch, size - 1 - |unread|)];
  }

  class Device {
    const k: nat                 // resp_mask + 1 == 2^k
    const ring: array<Token>
    var head: nat
    var tail: nat

    ghost var offered: seq<Token>
    ghost var accepted: seq<Token>
    ghost var delivered: nat

    ghost predicate Valid()
      reads this, ring
    {
      && k <= 31
      && ring.Length == Pow2(k)
      && delivered <= |accepted| < delivered + Pow2(k)
      && head == |accepted| % Pow2(k)
      && tail == delivered % Pow2(k)
      && Holds(ring[..], accepted, delivered, |accepted|)
    }

    /** The tokens waiting for a reader. */
    ghost function Unread(): seq<Token>
      reads this, ring
      requires Valid()
    {
      accepted[delivered..]
    }

    constructor (k: nat)
      requires k <= 31
      ensures Valid() && Unread() == [] && offered == [] && this.k == k && fresh(ring)
    {
      this.k := k;
      ring := new Token[Pow2(k)](_ => 0);
      head, tail := 0, 0;
      offered, accepted, delivered := [], [], 0;
      new;
      ModUnique(0, Pow2(k), 0, 0);
    }

    /** kllm_resp_produce */
    method Produce(token: Token)
      requires Valid()
      modifies this`head, this`offered, this`accepted, ring
      ensures Valid() && offered == old(offered) + [token]
      ensures Unread() == if |old(Unread())| < Pow2(k) - 1 then old(Unread()) + [token] else old(Unread())
    {
      SpaceIsExact(|accepted|, delivered, k);
      if Space(head, tail, k) > 0 {
        HoldsAfterWrite(ring[..], accepted, delivered, |accepted|, token);
        assert accepted[..|accepted|] == accepted;
        MaskedSum(|accepted|, 1, Pow2(k));
        ring[head] := token;
        head := Slot(head + 1, k);
        accepted := accepted + [token];
      }
      offered := offered + [token];
    }

    /** kllm_ioctl. `copyOk` says whether the argument could be copied in. */
    method Ioctl(cmd: Command, copyOk: bool) returns (rc: int)
      requires Valid() && (cmd.EmitTokens? ==> cmd.count <= |cmd.tokens| || cmd.count > 256)
      modifies this`head, this`offered, this`accepted, ring
      ensures Valid()
      ensures rc == (match cmd
                     case EmitTokens(count, _) => if !copyOk then -14 else if count > 256 then -22 else 0
                     case Eos => 0
                     case Unknown => -25)
      ensures var sent := if rc != 0 then [] else if cmd.Eos? then [0xFFFF_FFFF] else cmd.tokens[..cmd.count];
              Sent(old(offered), old(Unread()), sent, |sent|, Pow2(k), offered, Unread())
    {
      match cmd
      case EmitTokens(count, tokens) =>
        if !copyOk {
          return -14;
        }
        if count > MAX_EMIT {
          return -22;
        }
        EmitAll(count, tokens);
        return 0;
      case Eos =>
        Produce(EOS_SENTINEL);
        return 0;
      case Unknown =>
        return -25;
    }

    /** The loop of the EMIT_TOKENS command. */
    method EmitAll(count: nat, tokens: seq<Token>)
      requires Valid() && count <= |tokens|
      modifies this`head, this`offered, this`accepted, ring
      ensures Valid()
      ensures Sent(old(offered), old(Unread()), tokens, count, Pow2(k), offered, Unread())
    {
      ghost var was, unread := offered, Unread();
      SentNone(was, unread, tokens, Pow2(k));
      var i := 0;
      while i < count
        invariant 0 <= i <= count && Valid()
        invariant Sent(was, unread, tokens, i, Pow2(k), offered, Unread())
      {
        SentOne(was, unread, tokens, i, Pow2(k), offered, Unread());
        Produce(tokens[i]);
        i := i + 1;
      }
    }

    /** kllm_read without blocking. `firstOk` and `secondOk` say whether copying the one or two
        stretches succeeds; a fault leaves everything unread. */
    method Read(buf: array<Token>, maxBytes: nat, firstOk: bool, secondOk: bool) returns (rc: int)
      requires Valid() && maxBytes / 4 <= buf.Length && buf != ring
      modifies this`tail, this`delivered, buf
      ensures Valid()
      ensures var unread := old(Unread());
              var n := if |unread| < maxBytes / 4 then |unread| else maxBytes / 4;
              if maxBytes < 4 then rc == 0 && Unread() == unread
              else if unread == [] then rc == -11 && Unread() == unread
              else if !firstOk || (old(tail) + n > ring.Length && !secondOk) then rc == -14 && Unread() == unread
              else rc == 4 * n && buf[..n] == unread[..n] && Unread() == unread[n..]
    {
      var maxTokens := maxBytes / 4;
      if maxTokens == 0 {
        return 0;
      }
      CountsAreExact(|accepted|, delivered, k);
      var available := Available(head, tail, k);
      if available == 0 {
        return -11;
      }
      var toCopy := if available < maxTokens then available else maxTokens;
      var ok := CopyWrapped(buf, toCopy, firstOk, secondOk);
      if !ok {
        return -14;
      }
      Advance(toCopy, buf[..toCopy]);
      return 4 * toCopy;
    }

    /** The tail moves past what was copied. */
    method Advance(toCopy: nat, ghost copy: seq<Token>)
      requires Valid() && |copy| == toCopy <= |Unread()|
      requires forall i | 0 <= i < toCopy ::
                 var j := CopyIndex(ring.Length, tail, toCopy, i); j < ring.Length && copy[i] == ring[j]
      modifies this`tail, this`delivered
      ensures Valid() && copy == old(Unread())[..toCopy] && Unread() == old(Unread())[toCopy..]
    {
      WrappedWindow(ring[..], accepted, delivered, copy);
      MaskedSum(delivered, toCopy, Pow2(k));
      tail := Slot(tail + toCopy, k);
      delivered := delivered + toCopy;
    }

    /** One stretch, or two when the read wraps around. */
    method CopyWrapped(buf: array<Token>, toCopy: nat, firstOk: bool, secondOk: bool) returns (ok: bool)
      requires tail < ring.Length && toCopy < ring.Length && toCopy <= buf.Length && buf != ring
      modifies buf
      ensures ok <==> firstOk && (tail + toCopy > ring.Length ==> secondOk)
      ensures ok ==> forall i | 0 <= i < toCopy ::
                var j := CopyIndex(ring.Length, tail, toCopy, i); j < ring.Length && buf[i] == ring[j]
    {
      if !firstOk {
        return false;
      }
      if tail + toCopy <= ring.Length {
        CopyOut(buf, 0, tail, toCopy);
      } else {
        var first := ring.Length - tail;
        CopyOut(buf, 0, tail, first);
        if !secondOk {
          return false;
        }
        CopyOut(buf, first, 0, toCopy - first);
      }
      return true;
    }

    /** copy_to_user of one stretch of the ring. */
    method CopyOut(buf: array<Token>, at: nat, from: nat, count: nat)
      requires from + count <= ring.Length && at + count <= buf.Length && buf != ring
      modifies buf
      ensures forall i | 0 <= i < buf.Length ::
                buf[i] == if at <= i < at + count then ring[from + i - at] else old(buf[i])
    {
      var i := 0;
      while i < count
        invariant 0 <= i <= count
        invariant forall j | 0 <= j < buf.Length ::
                    buf[j] == if at <= j < at + i then ring[from + j - at] else old(buf[j])
      {
        buf[at + i] := ring[from + i];
        i := i + 1;
      }
    }
  }

  /** A copy taken at the wrapped indices is the next stretch of the accepted tokens. */
  lemma {:induction false} WrappedWindow(slots: seq<Token>, accepted: seq<Token>, delivered: nat, copy: seq<Token>)
    requires |copy| < |slots| && delivered + |copy| <= |accepted| <= delivered + |slots|
    requires Holds(slots, accepted, delivered, |accepted|)
    requires forall i | 0 <= i < |copy| ::
               var j := CopyIndex(|slots|, delivered % |slots|, |copy|, i); j < |slots| && copy[i] == slots[j]
    ensures copy == accepted[delivered..delivered + |copy|]
  {
    forall i | 0 <= i < |copy| ensures copy[i] == accepted[delivered + i] {
      CopyIndexWraps(|slots|, delivered, |copy|, i);
      assert slots[(delivered + i) % |slots|] == accepted[delivered + i];
    }
  }

  /** Of the next 256 positions only the first is a multiple of 256. */
  lemma {:induction false} ChunkStarts(done: nat, batch: nat)
    requires done % 256 == 0 && batch <= 256
    ensures forall i | done <= i < done + batch && i % 256 == 0 :: i == done
    ensures batch == 256 ==> (done + batch) % 256 == 0
  {
  }

  /** The body of the loop: one ioctl with the next chunk of at most 256 tokens. */
  method EmitChunk(dev: Device, tokens: seq<Token>, done: nat, copyOk: bool, ghost offered: seq<Token>,
                   ghost unread: seq<Token>)
    returns (rc: int, done': nat)
    requires dev.Valid() && done < |tokens| && |unread| < Pow2(dev.k)
    requires Sent(offered, unread, tokens, done, Pow2(dev.k), dev.offered, dev.Unread())
    modifies dev`head, dev`offered, dev`accepted, dev.ring
    ensures dev.Valid() && rc == if copyOk then 0 else -14
    ensures done' == if copyOk then Least(done + 256, |tokens|) else done
    ensures Sent(offered, unread, tokens, done', Pow2(dev.k), dev.offered, dev.Unread())
  {
    var batch := |tokens| - done;
    if batch > MAX_EMIT {
      batch := MAX_EMIT;
    }
    var chunk := tokens[done..done + batch];
    assert chunk[..batch] == chunk;
    ghost var offered', unread' := dev.offered, dev.Unread();
    rc := dev.Ioctl(EmitTokens(batch, chunk), copyOk);
    if rc < 0 {
      SentSame(offered', unread', Pow2(dev.k), dev.offered, dev.Unread());
      return rc, done;
    }
    SentMore(offered, unread, tokens, done, batch, Pow2(dev.k), offered', unread', dev.offered, dev.Unread());
    done' := done + batch;
  }

  lemma {:induction false} SentSame(offered: seq<Token>, unread: seq<Token>, size: nat, offered': seq<Token>,
                                    unread': seq<Token>)
    requires |unread| < size && Sent(offered, unread, [], 0, size, offered', unread')
    ensures offered' == offered && unread' == unread
  {
  }

  /** kllm_response_emit: sends `tokens` in chunks of at most 256. `copyOk(i)` says whether
      the ioctl that starts at token `i` can copy its argument. */
  method ResponseEmit(dev: Device, tokens: seq<Token>, copyOk: nat -> bool) returns (rc: int, ghost sent: nat)
    requires dev.Valid()
    modifies dev`head, dev`offered, dev`accepted, dev.ring
    ensures dev.Valid() && sent <= |tokens|
    ensures Sent(old(dev.offered), old(dev.Unread()), tokens, sent, Pow2(dev.k), dev.offered, dev.Unread())
    ensures rc == if sent == |tokens| then 0 else -14
    ensures rc != 0 ==> sent % 256 == 0 && !copyOk(sent)
    ensures forall i | 0 <= i < sent && i % 256 == 0 :: copyOk(i)
  {
    ghost var offered, unread := dev.offered, dev.Unread();
    SentNone(offered, unread, tokens, Pow2(dev.k));
    sent := 0;
    var done := 0;
    while done < |tokens|
      invariant dev.Valid() && 0 <= done == sent <= |tokens|
      invariant Sent(offered, unread, tokens, done, Pow2(dev.k), dev.offered, dev.Unread())
      invariant done < |tokens| ==> done % 256 == 0
      invariant forall i | 0 <= i < done && i % 256 == 0 :: copyOk(i)
    {
      ChunkStarts(done, Least(256, |tokens| - done));
      var next;
      rc, next := EmitChunk(dev, tokens, done, copyOk(done), offered, unread);
      if rc < 0 {
        return;
      }
      done := next;
      sent := done;
    }
    rc := 0;
  }
}
