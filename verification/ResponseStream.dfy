/** What a reader of the device can make of the words it receives: the response ring carries
    untagged words, and the end of a response is the word 0xFFFFFFFF. */
module ResponseStream {
  import opened Bits
  import opened Common
  import opened SchedulerSpec
  import SchedulerPolicy
  import opened SchedulerProgress
  import opened SchedulerStarvation
  import ResponsePath
  import ResponseProtocol

  const EOS_SENTINEL: Token := ResponsePath.EOS_SENTINEL

  /** The word that goes into the ring for an event. */
  function Word(e: Event): Token { if e.Emit? then e.token else 0xFFFF_FFFF }

  function Words(log: seq<Event>): (ws: seq<Token>)
    ensures |ws| == |log|
  {
    if log == [] then [] else Words(log[..|log| - 1]) + [Word(log[|log| - 1])]
  }

  /** The reader's cut: the finished responses and the tokens since the last end mark. */
  function Cut(words: seq<Token>): (seq<seq<Token>>, seq<Token>) {
    if words == [] then ([], [])
    else
      var n := |words| - 1;
      var (finished, rest) := Cut(words[..n]);
      if words[n] == EOS_SENTINEL then (finished + [rest], []) else (finished, rest + [words[n]])
  }

  /** The requests whose end mark has been sent, in that order. */
  function Ended(log: seq<Event>): seq<nat> {
    if log == [] then []
    else
      var n := |log| - 1;
      Ended(log[..n]) + if log[n].Eos? then [log[n].id] else []
  }

  /** The tokens sent for request `id`. */
  function Sent(log: seq<Event>, id: nat): seq<Token> {
    if log == [] then []
    else
      var n := |log| - 1;
      Sent(log[..n], id) + if log[n].Emit? && log[n].id == id then [log[n].token] else []
  }

  /** The responses of the given requests. */
  function Replies(log: seq<Event>, ids: seq<nat>): (rs: seq<seq<Token>>)
    ensures |rs| == |ids|
  {
    seq(|ids|, i requires 0 <= i < |ids| => Sent(log, ids[i]))
  }

  /** The stream splits back into the clients' responses. */
  predicate Splits(log: seq<Event>) {
    Cut(Words(log)).0 == Replies(log, Ended(log))
  }

  // ---- When it does ---------------------------------------------------------

  /** Nothing follows a request's end mark. */
  ghost predicate Orderly(log: seq<Event>) {
    forall a, b | 0 <= a < b < |log| && log[a].Eos? :: log[b].id != log[a].id
  }

  predicate NoSentinel(log: seq<Event>) {
    forall a | 0 <= a < |log| && log[a].Emit? :: log[a].token != 0xFFFF_FFFF
  }

  /** The events since the last end mark. */
  function Open(log: seq<Event>): (es: seq<Event>)
    ensures forall a | 0 <= a < |es| :: es[a].Emit?
  {
    if log == [] then []
    else
      var n := |log| - 1;
      if log[n].Eos? then [] else Open(log[..n]) + [log[n]]
  }

  /** Up to each end mark, only the request that ends there has sent since the mark before. */
  predicate Serial(log: seq<Event>) {
    log == [] ||
    var n := |log| - 1;
    Serial(log[..n]) && (log[n].Eos? ==> AllOf(Open(log[..n]), log[n].id))
  }

  predicate AllOf(es: seq<Event>, id: int) {
    forall a | 0 <= a < |es| :: es[a].id == id
  }

  lemma {:induction false} WordsAppend(log: seq<Event>, e: Event)
    ensures Words(log + [e]) == Words(log) + [Word(e)]
    ensures Cut(Words(log + [e])) ==
            var (finished, rest) := Cut(Words(log));
            if Word(e) == EOS_SENTINEL then (finished + [rest], []) else (finished, rest + [Word(e)])
  {
    assert (log + [e])[..|log|] == log;
    assert (Words(log) + [Word(e)])[..|log|] == Words(log);
  }

  lemma {:induction false} LogAppend(log: seq<Event>, e: Event)
    ensures Ended(log + [e]) == Ended(log) + if e.Eos? then [e.id] else []
    ensures Open(log + [e]) == if e.Eos? then [] else Open(log) + [e]
    ensures Serial(log + [e]) <==> Serial(log) && (e.Eos? ==> AllOf(Open(log), e.id))
  {
    assert (log + [e])[..|log|] == log;
  }

  lemma {:induction false} SentAppend(log: seq<Event>, e: Event, id: nat)
    ensures Sent(log + [e], id) == Sent(log, id) + if e.Emit? && e.id == id then [e.token] else []
  {
    assert (log + [e])[..|log|] == log;
  }

  /** There is at least one sentinel word per end mark. */
  lemma {:induction false} CutCount(log: seq<Event>)
    ensures |Cut(Words(log)).0| >= |Ended(log)|
  {
    if log != [] {
      var n := |log| - 1;
      CutCount(log[..n]);
      assert log == log[..n] + [log[n]];
      WordsAppend(log[..n], log[n]);
    }
  }

  function Tokens(es: seq<Event>): (ts: seq<Token>)
    requires forall a | 0 <= a < |es| :: es[a].Emit?
    ensures |ts| == |es|
  {
    if es == [] then [] else Tokens(es[..|es| - 1]) + [es[|es| - 1].token]
  }

  /** Without sentinel tokens the reader's rest is what was sent since the last end mark. */
  lemma {:induction false} RestIsOpen(log: seq<Event>)
    requires NoSentinel(log)
    ensures Cut(Words(log)).1 == Tokens(Open(log))
  {
    if log != [] {
      var n := |log| - 1;
      var l, e := log[..n], log[n];
      RestIsOpen(l);
      assert log == l + [e];
      WordsAppend(l, e);
      LogAppend(l, e);
      if e.Emit? {
        assert (Open(l) + [e])[..|Open(l)|] == Open(l);
      }
    }
  }

  /** In a serial log, a request that has not ended has sent only since the last end mark. */
  lemma {:induction false} SentWhileOpen(log: seq<Event>, id: nat)
    requires Serial(log) && id !in Ended(log)
    ensures Sent(log, id) == Sent(Open(log), id)
  {
    if log != [] {
      var n := |log| - 1;
      var l, e := log[..n], log[n];
      assert log == l + [e];
      LogAppend(l, e);
      SentWhileOpen(l, id);
      if e.Eos? {
        SentByOthers(Open(l), e.id, id);
      } else {
        SentAppend(Open(l), e, id);
      }
    }
  }

  lemma {:induction false} SentByOthers(es: seq<Event>, other: nat, id: nat)
    requires AllOf(es, other) && other != id
    ensures Sent(es, id) == []
  {
    if es != [] {
      SentByOthers(es[..|es| - 1], other, id);
    }
  }

  /** One request has sent all of them exactly when all of them carry its id. */
  lemma {:induction false} AllSentIff(es: seq<Event>, id: nat)
    requires forall a | 0 <= a < |es| :: es[a].Emit?
    ensures |Sent(es, id)| <= |es|
    ensures Sent(es, id) == Tokens(es) <==> AllOf(es, id)
  {
    if es != [] {
      var n := |es| - 1;
      var l, e := es[..n], es[n];
      AllSentIff(l, id);
      if e.id == id {
        assert AllOf(es, id) <==> AllOf(l, id);
        SnocEqual(Sent(l, id), Tokens(l), e.token);
      }
    }
  }

  lemma {:induction false} SnocEqual(a: seq<Token>, b: seq<Token>, t: Token)
    ensures a + [t] == b + [t] <==> a == b
  {
    if a + [t] == b + [t] {
      assert a == (a + [t])[..|a|] && b == (b + [t])[..|b|];
    }
  }

  lemma {:induction false} RepliesKept(log: seq<Event>, e: Event, ids: seq<nat>)
    requires e.id !in ids
    ensures Replies(log + [e], ids) == Replies(log, ids)
  {
    forall i | 0 <= i < |ids| ensures Sent(log + [e], ids[i]) == Sent(log, ids[i]) {
      SentAppend(log, e, ids[i]);
    }
  }

  lemma {:induction false} EndedBefore(log: seq<Event>, id: nat)
    requires id in Ended(log)
    ensures exists a :: 0 <= a < |log| && log[a].Eos? && log[a].id == id
  {
    var n := |log| - 1;
    if log[n].Eos? && log[n].id == id {
    } else {
      EndedBefore(log[..n], id);
      var a :| 0 <= a < n && log[..n][a].Eos? && log[..n][a].id == id;
      assert log[a].Eos? && log[a].id == id;
    }
  }

  lemma {:induction false} LastNotEnded(log: seq<Event>, e: Event)
    requires Orderly(log + [e])
    ensures Orderly(log) && e.id !in Ended(log)
  {
    forall a, b | 0 <= a < b < |log| && log[a].Eos? ensures log[b].id != log[a].id {
      assert (log + [e])[a] == log[a] && (log + [e])[b] == log[b];
    }
    forall a | 0 <= a < |log| && log[a].Eos? ensures log[a].id != e.id {
      assert (log + [e])[a] == log[a] && (log + [e])[|log|] == e;
    }
    if e.id in Ended(log) {
      EndedBefore(log, e.id);
    }
  }

  /** A further token does not change the finished responses, unless it is the sentinel. */
  lemma {:induction false} SplitsAfterToken(log: seq<Event>, e: Event)
    requires e.Emit? && e.id !in Ended(log)
    ensures Splits(log + [e]) <==> Splits(log) && e.token != EOS_SENTINEL
  {
    WordsAppend(log, e);
    LogAppend(log, e);
    RepliesKept(log, e, Ended(log));
    CutCount(log);
    assert Ended(log) + [] == Ended(log);
  }

  /** An end mark closes the request's response exactly when nothing else was sent since the
      last one. */
  lemma {:induction false} SplitsAfterEnd(log: seq<Event>, e: Event)
    requires e.Eos? && e.id !in Ended(log) && NoSentinel(log) && Serial(log)
    ensures Splits(log + [e]) <==> Splits(log) && AllOf(Open(log), e.id)
  {
    WordsAppend(log, e);
    LogAppend(log, e);
    RestIsOpen(log);
    SentWhileOpen(log, e.id);
    AllSentIff(Open(log), e.id);
    RepliesAfterEnd(log, e);
    SnocSplit(Cut(Words(log)).0, Replies(log, Ended(log)), Cut(Words(log)).1, Sent(log, e.id));
  }

  lemma {:induction false} RepliesAfterEnd(log: seq<Event>, e: Event)
    requires e.Eos? && e.id !in Ended(log)
    ensures Replies(log + [e], Ended(log) + [e.id]) == Replies(log, Ended(log)) + [Sent(log, e.id)]
  {
    var ids := Ended(log);
    var a, b := Replies(log + [e], ids + [e.id]), Replies(log, ids) + [Sent(log, e.id)];
    assert |a| == |b|;
    forall i | 0 <= i < |a| ensures a[i] == b[i] {
      SentAppend(log, e, (ids + [e.id])[i]);
      assert i < |ids| ==> b[i] == Sent(log, ids[i]) && e.id != ids[i];
    }
  }

  lemma {:induction false} SnocSplit(a: seq<seq<Token>>, b: seq<seq<Token>>, x: seq<Token>, y: seq<Token>)
    ensures a + [x] == b + [y] <==> a == b && x == y
  {
    if a + [x] == b + [y] {
      assert |a| == |b|;
      assert a == (a + [x])[..|a|] && b == (b + [y])[..|b|];
      assert x == (a + [x])[|a|] && y == (b + [y])[|b|];
    }
  }

  /** An end mark that does not split right leaves the stream wrong for good. */
  lemma {:induction false} StaysWrong(log: seq<Event>, e: Event)
    requires e.id !in Ended(log) && !Splits(log)
    ensures !Splits(log + [e])
  {
    if e.Emit? {
      SplitsAfterToken(log, e);
    } else {
      WordsAppend(log, e);
      LogAppend(log, e);
      RepliesAfterEnd(log, e);
      SnocSplit(Cut(Words(log)).0, Replies(log, Ended(log)), Cut(Words(log)).1, Sent(log, e.id));
    }
  }

  /** The stream splits back into the responses, in the order in which they ended, if and only
      if no token sent is the sentinel and no two requests have sent between two end marks. */
  lemma {:induction false} SplitsIff(log: seq<Event>)
    requires Orderly(log)
    ensures Splits(log) <==> NoSentinel(log) && Serial(log)
  {
    if log != [] {
      var n := |log| - 1;
      var l, e := log[..n], log[n];
      assert log == l + [e];
      LastNotEnded(l, e);
      SplitsIff(l);
      LogAppend(l, e);
      assert NoSentinel(log) <==> NoSentinel(l) && (e.Emit? ==> e.token != EOS_SENTINEL);
      if !Splits(l) {
        StaysWrong(l, e);
      } else if e.Emit? {
        SplitsAfterToken(l, e);
      } else {
        SplitsAfterEnd(l, e);
      }
    }
  }

  // ---- In every run ---------------------------------------------------------

  /** End marks are the last word on completed requests. */
  ghost predicate MarksOk(s: Sched) {
    && Orderly(s.log)
    && forall a | 0 <= a < |s.log| && s.log[a].Eos? :: s.log[a].id in s.finals && s.finals[s.log[a].id].completed
  }

  lemma {:induction false} OrderlyAppend(log: seq<Event>, e: Event)
    requires Orderly(log) && forall a | 0 <= a < |log| && log[a].Eos? :: log[a].id != e.id
    ensures Orderly(log + [e])
  {
  }

  /** Whatever a decode step sends for a request without an end mark. */
  lemma {:induction false} OrderlyEvents(log: seq<Event>, id: nat, t: Token)
    requires Orderly(log) && forall a | 0 <= a < |log| && log[a].Eos? :: log[a].id != id
    ensures Orderly(log + [Eos(id)]) && Orderly(log + [Emit(id, t)]) && Orderly(log + [Emit(id, t), Eos(id)])
  {
    OrderlyAppend(log, Eos(id));
    OrderlyAppend(log, Emit(id, t));
    OrderlyAppend(log + [Emit(id, t)], Eos(id));
    assert log + [Emit(id, t)] + [Eos(id)] == log + [Emit(id, t), Eos(id)];
  }

  lemma {:induction false} DecodeKeepsMarks(cfg: Config, s: Sched, i: nat, inf: Infer)
    requires MarksOk(s) && i < |s.reqs| && s.reqs[i].id !in s.finals
    ensures MarksOk(DecodeSlot(cfg, s, i, inf))
  {
    var next := Inferred(cfg, s.reqs[i].target, inf).1;
    if next.Some? {
      OrderlyEvents(s.log, s.reqs[i].id, next.value);
    }
  }

  lemma {:induction false} DecodesKeepMarks(cfg: Config, s: Sched, queue: seq<nat>, o: Oracle)
    requires Inv(s) && MarksOk(s) && QueueOk(s.reqs, Decode, queue)
    ensures MarksOk(Decodes(cfg, s, queue, o))
    decreases |queue|
  {
    if queue != [] {
      var i := queue[0];
      assert Waits(s.reqs, Decode, i);
      var s' := DecodeSlot(cfg, s, i, o.infer(i));
      assert SlotOk(s, i);
      DecodeKeepsMarks(cfg, s, i, o.infer(i));
      DecodeSlotKeepsInv(cfg, s, i, o.infer(i));
      DecodeTouchesOneSlot(cfg, s, i, o.infer(i));
      QueueTail(s.reqs, Decode, queue, s'.reqs[i]);
      DecodesKeepMarks(cfg, s', queue[1..], o);
    }
  }

  lemma {:induction false} StepKeepsMarks(cfg: Config, s: Sched, o: Oracle)
    requires Inv(s) && MarksOk(s)
    ensures MarksOk(Step(cfg, s, o))
  {
    var waiting := Queue(s.reqs, Prefill, |s.reqs|);
    PrefillsKeepInv(cfg, s, waiting, 0, o);
    PrefillsKeepHistory(cfg, s, waiting, 0, o);
    var s1 := AfterPrefills(cfg, s, o);
    DecodesKeepMarks(cfg, s1, Batch(cfg, s1.reqs), o);
    RetiresKeepHistory(AfterDecodes(cfg, s1, o), 0);
  }

  lemma {:induction false} RunKeepsMarks(cfg: Config, run: seq<Sched>, calls: seq<Call>, i: nat)
    requires IsRun(cfg, run, calls) && i < |run|
    ensures MarksOk(run[i])
  {
    if i > 0 {
      RunKeepsMarks(cfg, run, calls, i - 1);
      RunKeepsInv(cfg, run, calls, i - 1);
      assert CallAt(cfg, run, calls, i - 1);
      match calls[i - 1]
      case DoSubmit(_, _) =>
      case DoStep(o) => StepKeepsMarks(cfg, run[i - 1], o);
    }
  }

  /** What a completed request's client was to receive. */
  function FinalTokens(f: Final): seq<Token> {
    f.generated + if f.extra.Some? then [f.extra.value] else []
  }

  /** What the given completed requests generated. */
  function Generated(finals: map<nat, Final>, ids: seq<nat>): (rs: seq<seq<Token>>)
    requires forall k | 0 <= k < |ids| :: ids[k] in finals
    ensures |rs| == |ids|
  {
    seq(|ids|, k requires 0 <= k < |ids| => FinalTokens(finals[ids[k]]))
  }

  function TokensIn(reply: seq<Reply>): seq<Token> {
    if reply == [] then []
    else
      var n := |reply| - 1;
      TokensIn(reply[..n]) + if reply[n].Tok? then [reply[n].token] else []
  }

  lemma {:induction false} TokensInAppend(reply: seq<Reply>, r: Reply)
    ensures TokensIn(reply + [r]) == TokensIn(reply) + if r.Tok? then [r.token] else []
  {
    assert (reply + [r])[..|reply|] == reply;
  }

  lemma {:induction false} SentIsResponse(log: seq<Event>, id: nat)
    ensures Sent(log, id) == TokensIn(Response(log, id))
  {
    if log != [] {
      var n := |log| - 1;
      SentIsResponse(log[..n], id);
      if log[n].id == id {
        TokensInAppend(Response(log[..n], id), if log[n].Emit? then Tok(log[n].token) else End);
      }
    }
  }

  lemma {:induction false} TokensInToks(ts: seq<Token>)
    ensures TokensIn(Toks(ts)) == ts
  {
    if ts != [] {
      var n := |ts| - 1;
      TokensInToks(ts[..n]);
      assert Toks(ts)[..n] == Toks(ts[..n]);
    }
  }

  lemma {:induction false} AnsweredTokens(f: Final, reply: seq<Reply>)
    requires Answered(f, reply) && f.completed
    ensures TokensIn(reply) == FinalTokens(f)
  {
    TokensInToks(f.generated);
    if f.extra.Some? {
      var t := f.extra.value;
      assert reply == (Toks(f.generated) + [Tok(t)]) + [End];
      TokensInAppend(Toks(f.generated), Tok(t));
      TokensInAppend(Toks(f.generated) + [Tok(t)], End);
    } else {
      assert reply == Toks(f.generated) + [End];
      TokensInAppend(Toks(f.generated), End);
    }
  }

  /** In every run a request whose end mark was sent has completed, and what was sent for it is
      what it generated. */
  lemma {:induction false} EndedIsCompleted(cfg: Config, run: seq<Sched>, calls: seq<Call>, i: nat, id: nat)
    requires IsRun(cfg, run, calls) && i < |run| && id in Ended(run[i].log)
    ensures id in run[i].finals && run[i].finals[id].completed
    ensures Sent(run[i].log, id) == FinalTokens(run[i].finals[id])
  {
    RunKeepsMarks(cfg, run, calls, i);
    RunKeepsInv(cfg, run, calls, i);
    EndedBefore(run[i].log, id);
    SentIsResponse(run[i].log, id);
    AnsweredTokens(run[i].finals[id], Response(run[i].log, id));
  }

  /** In every run, the words offered to the device split back into what the completed requests
      generated, in the order in which they completed, if and only if no token sent is the
      sentinel and no two requests have sent between two end marks. */
  lemma {:induction false} StreamSplitsIff(cfg: Config, run: seq<Sched>, calls: seq<Call>, i: nat)
    requires IsRun(cfg, run, calls) && i < |run|
    ensures var s := run[i];
            var ids := Ended(s.log);
            && (forall k | 0 <= k < |ids| :: ids[k] in s.finals && s.finals[ids[k]].completed)
            && (Cut(Words(s.log)).0 == Generated(s.finals, ids) <==> NoSentinel(s.log) && Serial(s.log))
  {
    var s := run[i];
    var ids := Ended(s.log);
    RunKeepsMarks(cfg, run, calls, i);
    SplitsIff(s.log);
    forall k | 0 <= k < |ids|
      ensures ids[k] in s.finals && s.finals[ids[k]].completed && Sent(s.log, ids[k]) == FinalTokens(s.finals[ids[k]])
    {
      EndedIsCompleted(cfg, run, calls, i, ids[k]);
    }
    assert Replies(s.log, ids) == Generated(s.finals, ids);
  }

  // ---- One request at a time ------------------------------------------------

  /** Only the newest request is in flight. */
  predicate Solo(s: Sched) {
    forall j | 0 <= j < |s.reqs| :: s.reqs[j].id != 0 ==> s.reqs[j].id == s.nextId - 1
  }

  /** Unless a request has failed, what was sent since the last end mark is the newest request's,
      and that one is still in flight. */
  ghost predicate SerialSoFar(s: Sched) {
    s.failed == 0 ==>
      && Serial(s.log)
      && AllOf(Open(s.log), s.nextId - 1)
      && (Open(s.log) != [] ==> HasLive(s.reqs))
  }

  ghost predicate HasLive(reqs: seq<Request>) {
    exists j :: 0 <= j < |reqs| && Live(reqs[j])
  }

  lemma {:induction false} SerialEvents(log: seq<Event>, id: nat, t: Token)
    requires Serial(log) && AllOf(Open(log), id)
    ensures Serial(log + [Eos(id)]) && Open(log + [Eos(id)]) == []
    ensures Serial(log + [Emit(id, t)]) && AllOf(Open(log + [Emit(id, t)]), id)
    ensures Serial(log + [Emit(id, t), Eos(id)]) && Open(log + [Emit(id, t), Eos(id)]) == []
  {
    LogAppend(log, Eos(id));
    LogAppend(log, Emit(id, t));
    LogAppend(log + [Emit(id, t)], Eos(id));
    assert log + [Emit(id, t)] + [Eos(id)] == log + [Emit(id, t), Eos(id)];
  }

  lemma {:induction false} DecodeKeepsSerial(cfg: Config, s: Sched, i: nat, inf: Infer)
    requires Solo(s) && SerialSoFar(s) && Waits(s.reqs, Decode, i)
    ensures var s' := DecodeSlot(cfg, s, i, inf); Solo(s') && SerialSoFar(s')
  {
    var s' := DecodeSlot(cfg, s, i, inf);
    var next := Inferred(cfg, s.reqs[i].target, inf).1;
    if next.Some? && s.failed == 0 {
      SerialEvents(s.log, s.reqs[i].id, next.value);
    }
    assert s'.reqs[i].phase != Done ==> Live(s'.reqs[i]);
  }

  lemma {:induction false} DecodesKeepSerial(cfg: Config, s: Sched, queue: seq<nat>, o: Oracle)
    requires Solo(s) && SerialSoFar(s) && QueueOk(s.reqs, Decode, queue)
    ensures var s' := Decodes(cfg, s, queue, o); Solo(s') && SerialSoFar(s')
    decreases |queue|
  {
    if queue != [] {
      var i := queue[0];
      assert Waits(s.reqs, Decode, i);
      var s' := DecodeSlot(cfg, s, i, o.infer(i));
      DecodeKeepsSerial(cfg, s, i, o.infer(i));
      DecodeTouchesOneSlot(cfg, s, i, o.infer(i));
      QueueTail(s.reqs, Decode, queue, s'.reqs[i]);
      DecodesKeepSerial(cfg, s', queue[1..], o);
    }
  }

  lemma {:induction false} PrefillsKeepSerial(cfg: Config, s: Sched, queue: seq<nat>, spent: nat, o: Oracle)
    requires Solo(s) && SerialSoFar(s) && QueueOk(s.reqs, Prefill, queue)
    ensures var s' := Prefills(cfg, s, queue, spent, o); Solo(s') && SerialSoFar(s')
    decreases |queue|
  {
    if queue != [] {
      var i := queue[0];
      assert Waits(s.reqs, Prefill, i);
      var s' := PrefillSlot(s, i, o.target(i));
      assert Live(s'.reqs[i]);
      QueueTail(s.reqs, Prefill, queue, s'.reqs[i]);
      PrefillsKeepSerial(cfg, s', queue[1..], Wrap32(spent + |s.reqs[i].prompt|), o);
    }
  }

  lemma {:induction false} RetiresKeepSerial(s: Sched, i: nat)
    requires Solo(s) && SerialSoFar(s) && i <= |s.reqs|
    ensures var s' := Retires(s, i); Solo(s') && SerialSoFar(s')
    decreases |s.reqs| - i
  {
    if i < |s.reqs| {
      var s' := RetireSlot(s, i);
      if j :| 0 <= j < |s.reqs| && Live(s.reqs[j]) {
        assert Live(s'.reqs[j]);
      }
      RetiresKeepSerial(s', i + 1);
    }
  }

  lemma {:induction false} StepKeepsSerial(cfg: Config, s: Sched, o: Oracle)
    requires Solo(s) && SerialSoFar(s)
    ensures Solo(Step(cfg, s, o)) && SerialSoFar(Step(cfg, s, o))
  {
    PrefillsKeepSerial(cfg, s, Queue(s.reqs, Prefill, |s.reqs|), 0, o);
    var s1 := AfterPrefills(cfg, s, o);
    DecodesKeepSerial(cfg, s1, Batch(cfg, s1.reqs), o);
    RetiresKeepSerial(AfterDecodes(cfg, s1, o), 0);
  }

  lemma {:induction false} SubmitKeepsSerial(s: Sched, prompt: seq<Token>, memOk: bool)
    requires Inv(s) && AtRest(s) && s.active == 0 && Solo(s) && SerialSoFar(s) && |prompt| <= MAX_SEQ_LEN
    ensures var s' := Submit(s, prompt, memOk).0; Solo(s') && SerialSoFar(s')
  {
    SubmitKeepsInv(s, prompt, memOk);
    forall j | 0 <= j < |s.reqs| ensures s.reqs[j].id == 0 {
      assert j !in Active(s.reqs);
    }
  }

  /** A request is submitted only when none is in flight. */
  ghost predicate OneAtATime(run: seq<Sched>, calls: seq<Call>, i: nat)
    requires i <= |calls| < |run|
  {
    forall m | 0 <= m < i :: calls[m].DoSubmit? ==> run[m].active == 0
  }

  lemma {:induction false} RunKeepsSerial(cfg: Config, run: seq<Sched>, calls: seq<Call>, i: nat)
    requires IsRun(cfg, run, calls) && i <= |calls| && OneAtATime(run, calls, i)
    ensures Solo(run[i]) && SerialSoFar(run[i])
  {
    if i > 0 {
      RunKeepsSerial(cfg, run, calls, i - 1);
      RunKeepsInv(cfg, run, calls, i - 1);
      assert CallAt(cfg, run, calls, i - 1);
      match calls[i - 1]
      case DoSubmit(prompt, memOk) => SubmitKeepsSerial(run[i - 1], prompt, memOk);
      case DoStep(o) => StepKeepsSerial(cfg, run[i - 1], o);
    }
  }

  /** With one request in flight at a time, none failed, and no sentinel among the tokens, the
      reader recovers every response. */
  lemma {:induction false} OneAtATimeSplits(cfg: Config, run: seq<Sched>, calls: seq<Call>, i: nat)
    requires IsRun(cfg, run, calls) && i <= |calls| && OneAtATime(run, calls, i)
    requires run[i].failed == 0 && NoSentinel(run[i].log)
    ensures Splits(run[i].log)
  {
    RunKeepsSerial(cfg, run, calls, i);
    RunKeepsMarks(cfg, run, calls, i);
    SplitsIff(run[i].log);
  }

  /** A reader who has received only a prefix has recovered a prefix of the responses. */
  lemma {:induction false} CutOfPrefix(words: seq<Token>, n: nat)
    requires n <= |words|
    ensures Cut(words[..n]).0 <= Cut(words).0
    decreases |words|
  {
    if n == |words| {
      assert words[..n] == words;
    } else {
      CutOfPrefix(words[..|words| - 1], n);
      assert words[..|words| - 1][..n] == words[..n];
    }
  }

  /** From the scheduler to the reader: if the words of a run went through a response ring that
      was never full when one was offered, and the run's stream splits, then the reader, whatever
      it has received so far, has recovered the first responses in full. */
  lemma {:induction false} ReaderRecovers(k: nat, dev: seq<ResponseProtocol.State>, d: nat, log: seq<Event>)
    requires k <= 32 && ResponseProtocol.IsRun(k, dev) && d < |dev| && dev[d].offered == Words(log)
    requires forall j | 0 <= j < d :: !ResponseProtocol.DropsAt(k, dev, j)
    requires Splits(log)
    ensures Cut(dev[d].delivered).0 <= Replies(log, Ended(log))
  {
    ResponseProtocol.NothingLostIff(k, dev, d);
    var n := |dev[d].delivered|;
    CutOfPrefix(Words(log), n);
    assert dev[d].delivered == Words(log)[..n];
  }

  // ---- Runs that do not split -----------------------------------------------

  lemma {:induction false} DecodesOfTwo(cfg: Config, s: Sched, o: Oracle)
    requires |s.reqs| == 2
    ensures Decodes(cfg, s, [0, 1], o) == DecodeSlot(cfg, DecodeSlot(cfg, s, 0, o.infer(0)), 1, o.infer(1))
  {
    var s' := DecodeSlot(cfg, s, 0, o.infer(0));
    assert [0, 1][1..] == [1] && [1][1..] == [];
    assert Decodes(cfg, s, [0, 1], o) == Decodes(cfg, s', [1], o);
    assert Decodes(cfg, s', [1], o) == DecodeSlot(cfg, s', 1, o.infer(1));
  }

  /** Both of two live requests have room. */
  predicate RoomForBoth(cfg: Config, s: Sched) {
    |s.reqs| == 2 && Live(s.reqs[0]) && Live(s.reqs[1]) && RoomFor(cfg, s, 0) && RoomFor(cfg, s, 1)
  }

  lemma {:induction false} StepOfTwo(cfg: Config, s: Sched, o: Oracle)
    requires RoomForBoth(cfg, s) && cfg.maxBatch >= 2
    ensures var s1 := AfterPrefills(cfg, s, o);
            && |s1.reqs| == 2 && s1.log == s.log
            && Step(cfg, s, o).log == DecodeSlot(cfg, DecodeSlot(cfg, s1, 0, o.infer(0)), 1, o.infer(1)).log
            && s1.reqs[0].phase == Decode && s1.reqs[1].phase == Decode
  {
    var s1 := AfterPrefills(cfg, s, o);
    PrefillsKeepHistory(cfg, s, Queue(s.reqs, Prefill, 2), 0, o);
    PrefilledIfReached(cfg, s, o, 0);
    PrefilledIfReached(cfg, s, o, 1);
    BothInBatch(cfg, s1.reqs);
    DecodesOfTwo(cfg, s1, o);
    RetiresKeepHistory(AfterDecodes(cfg, s1, o), 0);
  }

  lemma {:induction false} BothInBatch(cfg: Config, reqs: seq<Request>)
    requires |reqs| == 2 && Waits(reqs, Decode, 0) && Waits(reqs, Decode, 1) && cfg.maxBatch >= 2
    ensures Batch(cfg, reqs) == [0, 1]
  {
    QueueIsUpTo(reqs, Decode, 2, 2);
    assert UpTo(2) == [0, 1];
  }

  function Answering(a: Token, b: Token): Oracle {
    Oracle(_ => Cpu, j => var t := if j == 0 then a else b; Infer(Some(t), Some(t)))
  }

  /** An iteration that appends token `t` to the request in slot `j`. */
  lemma {:induction false} SlotSends(cfg: Config, s: Sched, o: Oracle, j: nat, t: Token)
    requires j < |s.reqs| && RoomFor(cfg, s, j) && Waits(s.reqs, Prefill, j)
    requires o.target(j) == Cpu && o.infer(j) == Infer(Some(t), Some(t)) && t != cfg.eos
             && SeqLen(s.reqs[j]) < MAX_SEQ_LEN
    ensures Step(cfg, s, o).reqs[j] ==
            s.reqs[j].(phase := Decode, target := Cpu, generated := s.reqs[j].generated + [t])
  {
    DecodedOnce(cfg, s, o, j);
    RetiresAt(AfterDecodes(cfg, AfterPrefills(cfg, s, o), o), 0, j);
  }

  /** The first iteration sends one token for each request. */
  lemma {:induction false} BothSend(cfg: Config, s: Sched)
    requires Inv(s) && cfg.maxBatch >= 2 && 2 <= cfg.prefillBudget < TWO_32 && cfg.eos != 7 && cfg.eos != 8
    requires s.reqs == [Request(1, Prefill, Cpu, [0], []), Request(2, Prefill, Cpu, [0], [])] && s.log == []
    ensures var s' := Step(cfg, s, Answering(7, 8));
            && s'.log == [Emit(1, 7), Emit(2, 8)]
            && s'.reqs == [Request(1, Decode, Cpu, [0], [7]), Request(2, Decode, Cpu, [0], [8])]
  {
    TwoHaveRoom(cfg, s);
    BothSendLog(cfg, s);
    SlotSends(cfg, s, Answering(7, 8), 0, 7);
    SlotSends(cfg, s, Answering(7, 8), 1, 8);
    SameSize(cfg, s, DoStep(Answering(7, 8)));
    assert [] + [7] == [7] && [] + [8] == [8];
  }

  lemma {:induction false} BothSendLog(cfg: Config, s: Sched)
    requires RoomForBoth(cfg, s) && cfg.maxBatch >= 2 && cfg.eos != 7 && cfg.eos != 8
    requires s.reqs == [Request(1, Prefill, Cpu, [0], []), Request(2, Prefill, Cpu, [0], [])] && s.log == []
    ensures Step(cfg, s, Answering(7, 8)).log == [Emit(1, 7), Emit(2, 8)]
  {
    var o := Answering(7, 8);
    StepOfTwo(cfg, s, o);
    var s1 := AfterPrefills(cfg, s, o);
    PrefilledIfReached(cfg, s, o, 0);
    PrefilledIfReached(cfg, s, o, 1);
    var s2 := DecodeSlot(cfg, s1, 0, o.infer(0));
    assert s2.log == s.log + [Emit(1, 7)] && s2.reqs[1] == s1.reqs[1];
    assert DecodeSlot(cfg, s2, 1, o.infer(1)).log == s2.log + [Emit(2, 8)];
  }

  lemma {:induction false} OneOfTwoHasRoom(cfg: Config, s: Sched, j: nat)
    requires |s.reqs| == 2 && j < 2 && cfg.maxBatch >= 2 && 2 <= cfg.prefillBudget < TWO_32
    requires |s.reqs[0].prompt| == 1 && |s.reqs[1].prompt| == 1
    ensures RoomFor(cfg, s, j)
  {
    var q := Queue(s.reqs, Prefill, j + 1);
    SchedulerPolicy.EqualPrompts(s.reqs, q, 1, |q|);
    SubsetSize(ActiveUpTo(s.reqs, j), {0, 1});
  }

  lemma {:induction false} TwoHaveRoom(cfg: Config, s: Sched)
    requires |s.reqs| == 2 && Live(s.reqs[0]) && Live(s.reqs[1])
    requires cfg.maxBatch >= 2 && 2 <= cfg.prefillBudget < TWO_32
    requires |s.reqs[0].prompt| == 1 && |s.reqs[1].prompt| == 1
    ensures RoomForBoth(cfg, s)
  {
    OneOfTwoHasRoom(cfg, s, 0);
    OneOfTwoHasRoom(cfg, s, 1);
  }

  /** The second iteration ends both: the words are 7, 8 and two sentinels. */
  lemma {:induction false} BothEnd(cfg: Config, s: Sched)
    requires Inv(s) && cfg.maxBatch >= 2 && 2 <= cfg.prefillBudget < TWO_32
    requires s.reqs == [Request(1, Decode, Cpu, [0], [7]), Request(2, Decode, Cpu, [0], [8])]
    requires s.log == [Emit(1, 7), Emit(2, 8)]
    ensures Step(cfg, s, AllEos(cfg)).log == [Emit(1, 7), Emit(2, 8), Eos(1), Eos(2)]
  {
    var o := AllEos(cfg);
    TwoHaveRoom(cfg, s);
    StepOfTwo(cfg, s, o);
    var s1 := AfterPrefills(cfg, s, o);
    PrefilledIfReached(cfg, s, o, 0);
    PrefilledIfReached(cfg, s, o, 1);
    var s2 := DecodeSlot(cfg, s1, 0, o.infer(0));
    assert s2.log == s.log + [Eos(1)] && s2.reqs[1] == s1.reqs[1];
    assert DecodeSlot(cfg, s2, 1, o.infer(1)).log == s2.log + [Eos(2)];
  }

  /** Two one-token prompts, submitted to a pool of two slots. */
  lemma {:induction false} TwoSubmitted(cfg: Config) returns (run: seq<Sched>, calls: seq<Call>)
    ensures IsRun(cfg, run, calls) && |calls| == 2 && run[2].log == []
    ensures run[2].reqs == [Request(1, Prefill, Cpu, [0], []), Request(2, Prefill, Cpu, [0], [])]
  {
    var s0 := FreePool(2);
    var call := DoSubmit([0], true);
    FreePoolRun(cfg, 2);
    FreshInv(s0);
    SubmitAt(s0, 0, [0]);
    Extended(cfg, [s0], [], call);
    run, calls := [s0] + [Apply(cfg, s0, call)], [] + [call];
    SubmitAt(run[1], 1, [0]);
    Extended(cfg, run, calls, call);
    run, calls := run + [Apply(cfg, run[1], call)], calls + [call];
  }

  /** Two requests in flight: one iteration sends a token for each, the next ends both. The
      reader sees a response of two tokens and an empty one. */
  lemma {:induction false} InterleavedDoesNotSplit(cfg: Config) returns (run: seq<Sched>, calls: seq<Call>)
    requires cfg.maxBatch >= 2 && 2 <= cfg.prefillBudget < TWO_32 && cfg.eos != 7 && cfg.eos != 8
    ensures IsRun(cfg, run, calls) && |calls| == 4 && run[4].log == [Emit(1, 7), Emit(2, 8), Eos(1), Eos(2)]
    ensures !Splits(run[4].log)
  {
    run, calls := TwoSubmitted(cfg);
    RunKeepsInv(cfg, run, calls, 2);
    BothSend(cfg, run[2]);
    Extended(cfg, run, calls, DoStep(Answering(7, 8)));
    run, calls := run + [Step(cfg, run[2], Answering(7, 8))], calls + [DoStep(Answering(7, 8))];
    RunKeepsInv(cfg, run, calls, 3);
    BothEnd(cfg, run[3]);
    Extended(cfg, run, calls, DoStep(AllEos(cfg)));
    run, calls := run + [Step(cfg, run[3], AllEos(cfg))], calls + [DoStep(AllEos(cfg))];
    RunKeepsMarks(cfg, run, calls, 4);
    NotSerial();
    SplitsIff(run[4].log);
  }

  lemma {:induction false} NotSerial()
    ensures !Serial([Emit(1, 7), Emit(2, 8), Eos(1), Eos(2)])
  {
    var l2 := [Emit(1, 7), Emit(2, 8)];
    LogAppend([], Emit(1, 7));
    LogAppend([Emit(1, 7)], Emit(2, 8));
    assert [] + [Emit(1, 7)] == [Emit(1, 7)] && [Emit(1, 7)] + [Emit(2, 8)] == l2;
    assert Open(l2)[1] == Emit(2, 8);
    LogAppend(l2, Eos(1));
    LogAppend(l2 + [Eos(1)], Eos(2));
    assert l2 + [Eos(1)] + [Eos(2)] == [Emit(1, 7), Emit(2, 8), Eos(1), Eos(2)];
  }
}
