/** A reachable run in which the index loses a key that was inserted and never evicted. */
module CacheLoss {
  import opened Bits
  import opened ArenaAlloc
  import opened Common
  import opened ProbeTable
  import opened CacheSpec
  import opened CacheAnswers

  /** A digest that starts with byte `b`; in a table of 8 cells its bucket is `b % 8`. */
  function Digest(b: Byte, i: Byte): Key { [b, 0, 0, 0, i] + seq(27, _ => 0) }

  lemma {:induction false} FirstByteOnly(b: Byte)
    ensures LittleEndian([b, 0, 0, 0]) == b
  {
    var zeros: seq<Byte> := [0, 0, 0];
    assert [b, 0, 0, 0][1..] == zeros;
    assert zeros[1..] == [0, 0] && zeros[1..][1..] == [0] && zeros[1..][1..][1..] == [];
    assert LittleEndian(zeros[1..][1..]) == 0;
    assert LittleEndian(zeros[1..]) == 0;
    assert LittleEndian(zeros) == 0;
  }

  lemma {:induction false} DigestBucket(b: Byte, i: Byte)
    requires b < 8
    ensures Bucket(Digest(b, i), 3) == b
  {
    assert Digest(b, i)[..4] == [b, 0, 0, 0];
    FirstByteOnly(b);
    assert Pow2(3) == 8;
    ModUnique(b, 8, 0, b);
  }

  /** Cells `0..n` hold the digests of bucket 0 in the order they came, one time unit apart. */
  function Row(n: nat): (es: seq<Entry>)
    requires n <= 7
    ensures |es| == 8
    ensures forall p | 0 <= p < 8 ::
            es[p] == if p < n then Entry(Digest(0, p), p, p, 0) else Entry(Digest(0, 0), EMPTY_SLOT, 0, 0)
  {
    seq(8, p requires 0 <= p < 8 =>
             if p < n then Entry(Digest(0, p), p, p, 0) else Entry(Digest(0, 0), EMPTY_SLOT, 0, 0))
  }

  function Below(n: nat): (r: set<nat>)
    ensures forall i :: i in r <==> 0 <= i < n
  {
    if n == 0 then {} else Below(n - 1) + {n - 1}
  }

  function Stage(n: nat, total: nat): Cache
    requires n <= 7
  {
    Cache(3, Row(n), n, Below(n), total, Stats(0, 0, 0, n))
  }

  lemma {:induction false} FirstFreeIs(used: set<nat>, total: nat, i: nat, s: nat)
    requires i <= s < total && s !in used && forall x | i <= x < s :: x in used
    ensures FirstFree(used, total, i) == Some(s)
  {
  }

  lemma {:induction false} RowCells(es: seq<Entry>, j: nat)
    requires |es| == 8 && j < 8
    ensures Cell(es, 0, j) == es[j]
  {
    ModUnique(j, 8, 0, j);
  }

  lemma {:induction false} RowTarget(n: nat)
    requires n < 7
    ensures FirstEmpty(Row(n), 0, 0) == Some(n)
  {
    forall j | 0 <= j <= n ensures Cell(Row(n), 0, j) == Row(n)[j] {
      RowCells(Row(n), j);
    }
    FirstEmptyIs(Row(n), 0, 0, n);
  }

  lemma {:induction false} FilledStage(n: nat, total: nat)
    requires n < 7
    ensures FillCell(Stage(n, total), n, Digest(0, n), n, n) == Stage(n + 1, total)
  {
    assert Row(n)[n := Entry(Digest(0, n), n, n, 0)] == Row(n + 1);
    assert Below(n) + {n} == Below(n + 1);
  }

  /** The insert of digest `n` fills cell `n` with block `n`. */
  lemma {:induction false} NextStage(n: nat, total: nat)
    requires n < 7 <= total <= 0xFFFF_FFFF
    ensures WellSized(Stage(n, total)) && Insert(Stage(n, total), Digest(0, n), n).0 == Stage(n + 1, total)
  {
    var c := Stage(n, total);
    assert Pow2(3) == 8;
    DigestBucket(0, n);
    FirstFreeIs(Below(n), total, 0, n);
    RowTarget(n);
    ModUnique(n, 8, 0, n);
    assert Pos(0, n, 8) == n;
    assert AfterEviction(c) == c;
    assert Store(c, Digest(0, n), n).0 == FillCell(c, n, Digest(0, n), n, n);
    FilledStage(n, total);
  }

  /** After the seven inserts, the first block is used once more. */
  function Reused(total: nat): Cache {
    var c := Stage(7, total);
    c.(entries := Row(7)[0 := Row(7)[0].(lastAccess := 7)], stats := Stats(1, 0, 0, 7))
  }

  lemma {:induction false} ReuseFirst(total: nat)
    requires 7 <= total <= 0xFFFF_FFFF
    ensures WellSized(Stage(7, total)) && WellSized(Reused(total))
    ensures Lookup(Stage(7, total), Digest(0, 0), 7).0 == Reused(total)
  {
    assert Pow2(3) == 8;
    DigestBucket(0, 0);
    assert Pos(0, 0, 8) == 0;
    assert Cell(Row(7), 0, 0) == Row(7)[0];
    assert Probe(Row(7), 0, Digest(0, 0), 0) == Some(0);
  }

  /** The second digest is now the least recently used, and the third lies behind it. */
  lemma {:induction false} SecondIsVictim(total: nat)
    requires 7 <= total <= 0xFFFF_FFFF
    ensures WellSized(Reused(total)) && Crowded(Reused(total).occupied, Capacity(Reused(total)))
    ensures Victim(Reused(total)) == 1
  {
    assert Pow2(3) == 8;
    var es := Reused(total).entries;
    var r := Lru(es, 8);
    assert Occ(es[1]) && es[1].lastAccess == 1;
    assert r.1 <= 1 && es[r.0].lastAccess == r.1;
  }

  lemma {:induction false} ThirdFoundBefore(total: nat)
    requires 7 <= total <= 0xFFFF_FFFF
    ensures Probe(Reused(total).entries, 0, Digest(0, 2), 0) == Some(2)
  {
    var es := Reused(total).entries;
    RowCells(es, 0);
    RowCells(es, 1);
    RowCells(es, 2);
    assert Digest(0, 0)[4] != Digest(0, 2)[4] && Digest(0, 1)[4] != Digest(0, 2)[4];
    assert HitFrom(es, 0, Digest(0, 2), 0, 2);
  }

  /** The new digest goes to cell 7, not to the victim's cell. */
  lemma {:induction false} LastCellIsTarget(total: nat)
    requires 7 <= total <= 0xFFFF_FFFF
    ensures WellSized(Reused(total)) && Target(AfterEviction(Reused(total)), Digest(7, 0)) == Some(7)
  {
    assert Pow2(3) == 8;
    SecondIsVictim(total);
    DigestBucket(7, 0);
    var es := AfterEviction(Reused(total)).entries;
    assert Pos(7, 0, 8) == 7;
    FirstEmptyIs(es, 7, 0, 0);
  }

  /** The table before the last insert: full to the load factor, the second digest next to be
      evicted, the third found behind it, and the new digest bound for the last cell. */
  ghost predicate AboutToLose(c: Cache) {
    && c.k == 3 && WellSized(c) && Crowded(c.occupied, Capacity(c)) && Victim(c) == 1
    && Probe(c.entries, Bucket(Digest(0, 2), 3), Digest(0, 2), 0) == Some(2)
    && PathCrosses(c.entries, Bucket(Digest(0, 2), 3), 2, 1)
    && Occ(c.entries[2]) && c.entries[2].hash == Digest(0, 2)
    && Target(AfterEviction(c), Digest(7, 0)) == Some(7)
  }

  lemma {:induction false} ReusedIsAboutToLose(total: nat)
    requires 7 <= total <= 0xFFFF_FFFF
    ensures AboutToLose(Reused(total))
  {
    assert Pow2(3) == 8;
    SecondIsVictim(total);
    DigestBucket(0, 2);
    ThirdFoundBefore(total);
    assert Pos(0, 1, 8) == 1;
    DistUnique(0, 1, 8, 1);
    LastCellIsTarget(total);
  }

  lemma {:induction false} ThirdIsLost(c: Cache)
    requires Inv(c) && AboutToLose(c)
    ensures WellSized(Insert(c, Digest(7, 0), 8).0) && Answer(Insert(c, Digest(7, 0), 8).0, Digest(0, 2)) == None
  {
    assert Digest(7, 0)[0] != Digest(0, 2)[0];
    EvictingInsertLoses(c, Digest(7, 0), 8, Digest(0, 2), 2);
  }

  lemma {:induction false} ThirdIsResident(c: Cache)
    requires Inv(c) && AboutToLose(c)
    ensures Resident(Insert(c, Digest(7, 0), 8).0.entries, Digest(0, 2))
  {
    InsertOutcome(c, Digest(7, 0), 8);
    assert Insert(c, Digest(7, 0), 8).0.entries[2] == c.entries[2];
  }

  /** The nine calls: seven inserts, a lookup, an insert. */
  function LossOp(i: nat): Op {
    if i < 7 then DoInsert(Digest(0, i)) else if i == 7 then DoLookup(Digest(0, 0)) else DoInsert(Digest(7, 0))
  }

  function LossState(total: nat, i: nat): Cache
    requires 7 <= total <= 0xFFFF_FFFF
  {
    ReuseFirst(total);
    if i < 8 then Stage(i, total) else if i == 8 then Reused(total) else Insert(Reused(total), Digest(7, 0), 8).0
  }

  lemma {:induction false} LossStep(total: nat, i: nat)
    requires 7 <= total <= 0xFFFF_FFFF && i < 9
    ensures WellSized(LossState(total, i)) && LossState(total, i + 1) == Apply(LossState(total, i), LossOp(i), i)
  {
    ReuseFirst(total);
    if i < 7 {
      NextStage(i, total);
    }
  }

  ghost predicate FollowsAt(total: nat, run: seq<Cache>, ops: seq<Op>, times: seq<nat>, i: nat)
    requires 7 <= total <= 0xFFFF_FFFF && |run| == 10 && |ops| == |times| == 9 && i < 9
  {
    && run[i] == LossState(total, i) && run[i + 1] == LossState(total, i + 1)
    && ops[i] == LossOp(i) && times[i] == i
  }

  lemma {:induction false} LossCall(total: nat, run: seq<Cache>, ops: seq<Op>, times: seq<nat>, i: nat)
    requires 7 <= total <= 0xFFFF_FFFF && |run| == 10 && |ops| == |times| == 9 && i < 9
    requires FollowsAt(total, run, ops, times, i)
    ensures WellSized(run[i]) && times[i] < 0xFFFF_FFFF_FFFF_FFFF && CallAt(run, ops, times, i)
  {
    LossStep(total, i);
  }

  lemma {:induction false} IsLossRun(total: nat, run: seq<Cache>, ops: seq<Op>, times: seq<nat>)
    requires 7 <= total <= 0xFFFF_FFFF && |run| == 10 && |ops| == |times| == 9 && EmptyCache(run[0])
    requires forall i | 0 <= i < 9 :: FollowsAt(total, run, ops, times, i)
    ensures IsRun(run, ops, times)
  {
    forall i | 0 <= i < 9 ensures WellSized(run[i]) && times[i] < 0xFFFF_FFFF_FFFF_FFFF {
      LossCall(total, run, ops, times, i);
    }
    forall i | 0 <= i < 9 ensures CallAt(run, ops, times, i) {
      LossCall(total, run, ops, times, i);
    }
  }

  lemma {:induction false} EmptyStage(total: nat)
    requires total <= 0xFFFF_FFFF
    ensures EmptyCache(Stage(0, total))
  {
    assert Pow2(3) == 8;
  }

  lemma {:induction false} LastCallLoses(run: seq<Cache>, ops: seq<Op>, times: seq<nat>)
    requires IsRun(run, ops, times) && |ops| == 9 && ops[8] == DoInsert(Digest(7, 0)) && times[8] == 8
    requires AboutToLose(run[8])
    ensures WellSized(run[8]) && Answer(run[8], Digest(0, 2)).Some?
    ensures WellSized(run[9]) && Answer(run[9], Digest(0, 2)) == None && Resident(run[9].entries, Digest(0, 2))
  {
    RunKeepsInv(run, ops, times, 8);
    assert CallAt(run, ops, times, 8);
    ThirdIsLost(run[8]);
    ThirdIsResident(run[8]);
  }

  lemma {:induction false} LossRun(total: nat) returns (run: seq<Cache>, ops: seq<Op>, times: seq<nat>)
    requires 7 <= total <= 0xFFFF_FFFF
    ensures IsRun(run, ops, times) && |ops| == 9 && run[8] == Reused(total)
    ensures forall i | 0 <= i < 9 :: ops[i] == LossOp(i) && times[i] == i
  {
    run := seq(10, i requires 0 <= i < 10 => LossState(total, i));
    ops := seq(9, i requires 0 <= i < 9 => LossOp(i));
    times := seq(9, i requires 0 <= i < 9 => i);
    EmptyStage(total);
    IsLossRun(total, run, ops, times);
  }

  /** Capacity 8: seven digests of bucket 0, the first looked up again, then one of bucket 7.
      The last insert evicts the second digest; the third was inserted and never evicted, is
      still in its cell, and is no longer found. */
  lemma {:induction false} ResidentKeyLost(total: nat) returns (run: seq<Cache>, ops: seq<Op>, times: seq<nat>)
    requires 7 <= total <= 0xFFFF_FFFF
    ensures IsRun(run, ops, times) && |ops| == 9 && Increasing(times)
    ensures forall i | 0 <= i < 9 :: ops[i] == LossOp(i)
    ensures WellSized(run[8]) && Answer(run[8], Digest(0, 2)).Some?
    ensures WellSized(run[9]) && Answer(run[9], Digest(0, 2)) == None && Resident(run[9].entries, Digest(0, 2))
  {
    run, ops, times := LossRun(total);
    ReusedIsAboutToLose(total);
    LastCallLoses(run, ops, times);
  }

  /** Two copies of one digest around an empty cell. */
  function Doubled(): (es: seq<Entry>)
    ensures |es| == 8 && Occ(es[0]) && Occ(es[2]) && es[0].hash == es[2].hash == Digest(0, 0)
    ensures forall p | 0 <= p < 8 && p != 0 && p != 2 :: !Occ(es[p])
  {
    Row(0)[0 := Entry(Digest(0, 0), 0, 0, 0)][2 := Entry(Digest(0, 0), 2, 2, 0)]
  }

  lemma {:induction false} DoubledHasHole()
    ensures Pow2(3) == 8 && !NoHoles(Doubled(), 3)
  {
    DigestBucket(0, 0);
    ModUnique(1, 8, 0, 1);
    ModUnique(2, 8, 0, 2);
    DistUnique(0, 1, 8, 1);
    DistUnique(0, 2, 8, 2);
    assert Pow2(3) == 8;
    GapIsHole(Doubled(), 3, 1, 2);
  }

  lemma {:induction false} DoubledFinds(key: Key)
    requires Resident(Doubled(), key)
    ensures Bucket(key, 3) == 0 && Probe(Doubled(), 0, key, 0) == Some(0)
  {
    assert key == Digest(0, 0);
    DigestBucket(0, 0);
    RowCells(Doubled(), 0);
  }

  /** A hole need not lose a key: the copy in front of it is found. */
  lemma {:induction false} HoleWithoutLoss()
    ensures Pow2(3) == 8 && !NoHoles(Doubled(), 3) && FindsAll(Doubled(), 3)
  {
    DoubledHasHole();
    forall key: Key | Resident(Doubled(), key) ensures Probe(Doubled(), Bucket(key, 3), key, 0).Some? {
      DoubledFinds(key);
    }
  }
}
