/** What lookup answers after any call in any run, evictions included. */
module CacheAnswers {
  import opened Bits
  import opened Common
  import opened ProbeTable
  import opened CacheSpec

  /** The block `d` steps along the path of `key`. */
  function BlockAt(c: Cache, key: Key, d: Option<nat>): Option<nat>
    requires WellSized(c)
  {
    if d.None? then None else Some(Cell(c.entries, Bucket(key, c.k), d.value).slot)
  }

  /** After cell `v` is cleared: the keys whose path crosses it are lost. */
  function AnswerAfterClear(c: Cache, v: nat, key: Key): Option<nat>
    requires WellSized(c) && v < |c.entries|
  {
    var b := Bucket(key, c.k);
    var d := Probe(c.entries, b, key, 0);
    if d.Some? && !PathCrosses(c.entries, b, d.value, v) then Answer(c, key) else None
  }

  lemma {:induction false} ClearAnswers(c: Cache, v: nat, key: Key)
    requires WellSized(c) && v < |c.entries|
    ensures Answer(ClearCell(c, v), key) == AnswerAfterClear(c, v, key)
  {
    ClearLosesCrossingKeys(c.entries, Bucket(key, c.k), key, v);
  }

  /** After empty cell `q` is filled with `stored` and block `s`: a key found before keeps its
      block; any other is affected only if `q` was the first gap of its path. */
  function AnswerAfterFill(c: Cache, q: nat, stored: Key, s: nat, key: Key): Option<nat>
    requires WellSized(c) && q < |c.entries|
  {
    var b := Bucket(key, c.k);
    var d := Dist(b, q, |c.entries|);
    if Answer(c, key).Some? then Answer(c, key)
    else if FirstEmpty(c.entries, b, 0) != Some(d) then None
    else if key == stored then Some(s)
    else BlockAt(c, key, Probe(c.entries, b, key, d + 1))
  }

  lemma {:induction false} FilledAnswers(c: Cache, q: nat, stored: Key, s: nat, now: nat, key: Key)
    requires WellSized(c) && q < |c.entries| && !Occ(c.entries[q]) && s != EMPTY_SLOT
    ensures Answer(FillCell(c, q, stored, s, now), key) == AnswerAfterFill(c, q, stored, s, key)
  {
    var es, b, e := c.entries, Bucket(key, c.k), Entry(stored, s, now, 0);
    FillAnswers(es, b, key, q, e);
    var after := Probe(es[q := e], b, key, 0);
    if after.Some? {
      FilledCells(es, b, q, e, after.value);
    }
  }

  /** The cell an insert of `key` fills. */
  function Target(c: Cache, key: Key): Option<nat>
    requires WellSized(c)
  {
    var b := Bucket(key, c.k);
    var d := FirstEmpty(c.entries, b, 0);
    if d.None? then None else Some(Pos(b, d.value, |c.entries|))
  }

  function Victim(c: Cache): nat { Lru(c.entries, |c.entries|).0 }

  function AnswerAfterInsert(c: Cache, stored: Key, now: nat, key: Key): Option<nat>
    requires WellSized(c)
  {
    var c1 := AfterEviction(c);
    var r := Insert(c, stored, now).1;
    var q := Target(c1, stored);
    if r.None? || q.None? then Answer(c1, key) else AnswerAfterFill(c1, q.value, stored, r.value, key)
  }

  lemma {:induction false} InsertAnswersAll(c: Cache, stored: Key, now: nat, key: Key)
    requires Inv(c)
    ensures Answer(Insert(c, stored, now).0, key) == AnswerAfterInsert(c, stored, now, key)
    ensures Answer(AfterEviction(c), key) ==
            if Crowded(c.occupied, Capacity(c)) then AnswerAfterClear(c, Victim(c), key) else Answer(c, key)
  {
    var c1, r := AfterEviction(c), Insert(c, stored, now).1;
    EvictionKeepsInv(c);
    if Crowded(c.occupied, Capacity(c)) {
      VictimIsOccupied(c);
      ClearAnswers(c, Victim(c), key);
    }
    if r.Some? {
      FilledAnswers(c1, Target(c1, stored).value, stored, r.value, now, key);
    }
  }

  /** What lookup of `key` answers after a call, in terms of the state before it. */
  function NextAnswer(c: Cache, op: Op, now: nat, key: Key): Option<nat>
    requires WellSized(c)
  {
    match op
    case DoLookup(_) => Answer(c, key)
    case DoEvict(gone) =>
      var p := FoundAt(c, gone);
      if p.None? then Answer(c, key) else AnswerAfterClear(c, p.value, key)
    case DoInsert(stored) => AnswerAfterInsert(c, stored, now, key)
  }

  lemma {:induction false} NextAnswerIs(c: Cache, op: Op, now: nat, key: Key)
    requires Inv(c) && WellSized(Apply(c, op, now))
    ensures Answer(Apply(c, op, now), key) == NextAnswer(c, op, now, key)
  {
    match op
    case DoInsert(stored) => InsertAnswersAll(c, stored, now, key);
    case DoLookup(sought) => LookupChangesNoAnswer(c, sought, now, key);
    case DoEvict(gone) =>
      if FoundAt(c, gone).Some? {
        ClearAnswers(c, FoundAt(c, gone).value, key);
      }
  }

  /** In every run, after every call, lookup of every key answers exactly that. */
  lemma {:induction false} RunAnswers(run: seq<Cache>, ops: seq<Op>, times: seq<nat>, i: nat, key: Key)
    requires IsRun(run, ops, times) && i < |ops|
    ensures WellSized(run[i]) && WellSized(run[i + 1])
    ensures Answer(run[i + 1], key) == NextAnswer(run[i], ops[i], times[i], key)
    ensures Lookup(run[i], key, times[i]).1 == Answer(run[i], key)
  {
    RunKeepsInv(run, ops, times, i);
    RunKeepsInv(run, ops, times, i + 1);
    assert CallAt(run, ops, times, i);
    NextAnswerIs(run[i], ops[i], times[i], key);
  }

  // ---- Which keys an evicting insert loses ----------------------------------

  /** Clearing a cell on the way to a found key makes it the first gap of that path. */
  lemma {:induction false} GapAfterClear(es: seq<Entry>, b: nat, key: Key, d: nat, v: nat)
    requires v < |es| && Probe(es, b, key, 0) == Some(d) && PathCrosses(es, b, d, v)
    ensures FirstEmpty(Cleared(es, v), b, 0) == Some(Dist(b, v, |es|))
  {
    var es', dv := Cleared(es, v), Dist(b, v, |es|);
    forall j: nat | j < dv ensures Occ(Cell(es', b, j)) {
      FilledCells(es, b, v, es'[v], j);
    }
    FirstEmptyIs(es', b, 0, dv);
  }

  /** Behind the cleared cell everything is as before. */
  lemma {:induction false} ProbeBehindClear(es: seq<Entry>, b: nat, key: Key, d: nat, v: nat)
    requires v < |es| && Probe(es, b, key, 0) == Some(d) && PathCrosses(es, b, d, v)
    ensures var dv := Dist(b, v, |es|);
            var r := Probe(Cleared(es, v), b, key, dv + 1);
            && Probe(es, b, key, dv + 1) == r
            && (dv < d ==> r == Some(d))
            && (r.Some? ==> r.value > dv && Cell(Cleared(es, v), b, r.value) == Cell(es, b, r.value))
  {
    var es', dv := Cleared(es, v), Dist(b, v, |es|);
    forall j: nat | dv < j < |es| ensures Cell(es', b, j) == Cell(es, b, j) {
      FilledCells(es, b, v, es'[v], j);
    }
    ProbeLooksAhead(es, es', b, key, dv + 1);
    if dv < d {
      ProbeSkips(es, b, key, 0, dv + 1);
    }
  }

  lemma {:induction false} OtherCopyOtherBlock(c: Cache, key: Key, d: nat, e: nat)
    requires Inv(c) && d < e < |c.entries|
    requires Match(c.entries, Bucket(key, c.k), key, d) && Match(c.entries, Bucket(key, c.k), key, e)
    ensures Cell(c.entries, Bucket(key, c.k), d).slot != Cell(c.entries, Bucket(key, c.k), e).slot
  {
    var b, n := Bucket(key, c.k), |c.entries|;
    var p, q := Pos(b, d, n), Pos(b, e, n);
    DistUnique(b, p, n, d);
    DistUnique(b, q, n, e);
    if p < q {
      assert c.entries[p].slot != c.entries[q].slot;
    } else {
      assert c.entries[q].slot != c.entries[p].slot;
    }
  }

  /** The block of `key` after the victim's cell `v`, which its path crosses, is cleared and
      cell `q` is filled under another key. */
  lemma {:induction false} CrossingKey(c: Cache, v: nat, q: nat, stored: Key, s: nat, key: Key, d: nat)
    requires Inv(c) && v < |c.entries| && q < |c.entries| && key != stored
    requires Probe(c.entries, Bucket(key, c.k), key, 0) == Some(d)
    requires PathCrosses(c.entries, Bucket(key, c.k), d, v)
    ensures AnswerAfterFill(ClearCell(c, v), q, stored, s, key) == Answer(c, key) <==>
            q == v && Dist(Bucket(key, c.k), v, |c.entries|) < d
  {
    var es, b, c1 := c.entries, Bucket(key, c.k), ClearCell(c, v);
    var dv := Dist(b, v, |es|);
    ClearAnswers(c, v, key);
    GapAfterClear(es, b, key, d, v);
    if q == v {
      ProbeBehindClear(es, b, key, d, v);
      var r := Probe(c1.entries, b, key, dv + 1);
      if dv == d && r.Some? {
        OtherCopyOtherBlock(c, key, d, r.value);
      }
    }
  }

  /** A found key whose path crosses the victim's cell is lost when the new entry goes into a
      different cell. */
  lemma {:induction false} EvictingInsertLoses(c: Cache, stored: Key, now: nat, key: Key, d: nat)
    requires Inv(c) && Crowded(c.occupied, Capacity(c)) && Victim(c) < |c.entries|
    requires Probe(c.entries, Bucket(key, c.k), key, 0) == Some(d)
    requires PathCrosses(c.entries, Bucket(key, c.k), d, Victim(c))
    requires Target(AfterEviction(c), stored) != Some(Victim(c)) && key != stored
    ensures WellSized(Insert(c, stored, now).0) && Answer(Insert(c, stored, now).0, key) == None
  {
    InsertOutcome(c, stored, now);
    InsertAnswersAll(c, stored, now, key);
    GapAfterClear(c.entries, Bucket(key, c.k), key, d, Victim(c));
  }

  /** An insert that evicts cell `v` and fills cell `q` keeps the block of another key that was
      found `d` steps along its path if and only if the path does not reach `v`, or runs
      through `v` and the new entry closes the gap there. Every other such key is lost, or, if
      its own entry was the victim, at most an older copy of it can be left. */
  lemma {:induction false} EvictingInsertKeepsIff(run: seq<Cache>, ops: seq<Op>, times: seq<nat>, i: nat, key: Key,
                                                  d: nat)
    requires IsRun(run, ops, times) && i < |ops|
    requires ops[i].DoInsert? && key != ops[i].key && Crowded(run[i].occupied, Capacity(run[i]))
    requires |run[i].entries| > 0 && WellSized(run[i])
    requires Probe(run[i].entries, Bucket(key, run[i].k), key, 0) == Some(d)
    ensures WellSized(run[i + 1]) && Victim(run[i]) < |run[i].entries|
    ensures var dv := Dist(Bucket(key, run[i].k), Victim(run[i]), |run[i].entries|);
            Answer(run[i + 1], key) == Answer(run[i], key) <==>
            dv > d || (dv < d && Target(AfterEviction(run[i]), ops[i].key) == Some(Victim(run[i])))
  {
    var c, stored, now := run[i], ops[i].key, times[i];
    RunKeepsInv(run, ops, times, i);
    RunAnswers(run, ops, times, i, key);
    VictimIsOccupied(c);
    InsertOutcome(c, stored, now);
    InsertAnswersAll(c, stored, now, key);
    var v, c1 := Victim(c), AfterEviction(c);
    var q, s := Target(c1, stored).value, Insert(c, stored, now).1.value;
    if PathCrosses(c.entries, Bucket(key, c.k), d, v) {
      CrossingKey(c, v, q, stored, s, key, d);
    }
  }

  // ---- When all residents stay findable -------------------------------------

  /** The path to some other resident runs through cell `v`. */
  ghost predicate Crossed(es: seq<Entry>, k: nat, v: nat)
    requires k <= 32 && |es| == Pow2(k) && v < |es|
  {
    exists p :: 0 <= p < |es| && p != v && Occ(es[p]) && Through(es, k, v, p)
  }

  predicate Through(es: seq<Entry>, k: nat, v: nat, p: nat)
    requires k <= 32 && |es| == Pow2(k) && v < |es| && p < |es|
  {
    var b := Bucket(es[p].hash, k);
    Dist(b, v, |es|) < Dist(b, p, |es|)
  }

  /** An empty cell on the path to a resident is a hole. */
  lemma {:induction false} GapIsHole(es: seq<Entry>, k: nat, v: nat, p: nat)
    requires k <= 32 && |es| == Pow2(k) && v < |es| && p < |es|
    requires !Occ(es[v]) && Occ(es[p]) && Through(es, k, v, p)
    ensures !NoHoles(es, k)
  {
    var b := Bucket(es[p].hash, k);
    assert !Occ(Cell(es, b, Dist(b, v, |es|)));
  }

  lemma {:induction false} ClearKeepsNoHolesIff(es: seq<Entry>, k: nat, v: nat)
    requires k <= 32 && |es| == Pow2(k) && v < |es| && NoHoles(es, k)
    ensures NoHoles(Cleared(es, v), k) <==> !Crossed(es, k, v)
  {
    var es' := Cleared(es, v);
    if p :| 0 <= p < |es| && p != v && Occ(es[p]) && Through(es, k, v, p) {
      GapIsHole(es', k, v, p);
    } else {
      forall p, j | 0 <= p < |es'| && Occ(es'[p]) && 0 <= j < Dist(Bucket(es'[p].hash, k), p, |es'|)
        ensures Occ(Cell(es', Bucket(es'[p].hash, k), j))
      {
        var b := Bucket(es[p].hash, k);
        assert !Through(es, k, v, p);
        assert Occ(Cell(es, b, j));
        FilledCells(es, b, v, es'[v], j);
      }
    }
  }

  /** Storing the new entry in the cleared cell itself leaves no hole. */
  lemma {:induction false} RefillKeepsNoHoles(es: seq<Entry>, k: nat, v: nat, e: Entry)
    requires k <= 32 && |es| == Pow2(k) && v < |es| && NoHoles(es, k) && Occ(e)
    requires FirstEmpty(Cleared(es, v), Bucket(e.hash, k), 0) == Some(Dist(Bucket(e.hash, k), v, |es|))
    ensures NoHoles(es[v := e], k)
  {
    var es', c := es[v := e], Cleared(es, v);
    forall p, j | 0 <= p < |es'| && Occ(es'[p]) && 0 <= j < Dist(Bucket(es'[p].hash, k), p, |es'|)
      ensures Occ(Cell(es', Bucket(es'[p].hash, k), j))
    {
      var b := Bucket(es'[p].hash, k);
      FilledCells(es, b, v, e, j);
      if p == v {
        assert Occ(Cell(c, b, j));
        FilledCells(es, b, v, c[v], j);
      } else {
        assert Occ(Cell(es, b, j));
      }
    }
  }

  /** After an insert that evicts cell `v`, a table without holes still has none if and only if
      the new entry goes into `v`, or no other resident's path runs through `v`. */
  lemma {:induction false} EvictingInsertKeepsNoHolesIff(c: Cache, stored: Key, now: nat)
    requires Inv(c) && NoHoles(c.entries, c.k) && Crowded(c.occupied, Capacity(c))
    ensures Victim(c) < |c.entries| && |Insert(c, stored, now).0.entries| == |c.entries|
    ensures NoHoles(Insert(c, stored, now).0.entries, c.k) <==>
            Target(AfterEviction(c), stored) == Some(Victim(c)) || !Crossed(c.entries, c.k, Victim(c))
  {
    VictimIsOccupied(c);
    InsertOutcome(c, stored, now);
    EvictionKeepsInv(c);
    var es, v, b := c.entries, Victim(c), Bucket(stored, c.k);
    var d, s := FirstEmpty(Cleared(es, v), b, 0).value, Insert(c, stored, now).1.value;
    EvictThenFillNoHolesIff(es, c.k, v, d, Entry(stored, s, now, 0));
  }

  lemma {:induction false} EvictThenFillNoHolesIff(es: seq<Entry>, k: nat, v: nat, d: nat, e: Entry)
    requires k <= 32 && |es| == Pow2(k) && v < |es| && NoHoles(es, k) && Occ(e)
    requires FirstEmpty(Cleared(es, v), Bucket(e.hash, k), 0) == Some(d)
    ensures var q := Pos(Bucket(e.hash, k), d, |es|);
            NoHoles(Cleared(es, v)[q := e], k) <==> q == v || !Crossed(es, k, v)
  {
    var b := Bucket(e.hash, k);
    var q, c := Pos(b, d, |es|), Cleared(es, v);
    if q == v {
      DistUnique(b, v, |es|, d);
      RefillKeepsNoHoles(es, k, v, e);
      assert c[q := e] == es[v := e];
    } else if p :| 0 <= p < |es| && p != v && Occ(es[p]) && Through(es, k, v, p) {
      assert !Occ(c[q]);
      GapIsHole(c[q := e], k, v, p);
    } else {
      ClearKeepsNoHolesIff(es, k, v);
      FillKeepsNoHoles(c, k, d, e);
    }
  }

  /** Every key in the table is found. */
  ghost predicate FindsAll(es: seq<Entry>, k: nat)
    requires k <= 32 && |es| == Pow2(k)
  {
    forall key: Key | Resident(es, key) :: Probe(es, Bucket(key, k), key, 0).Some?
  }

  /** Every copy of the key in cell `p`, apart from one in `v` itself, lies behind `v`. */
  ghost predicate AllThrough(es: seq<Entry>, k: nat, v: nat, p: nat)
    requires k <= 32 && |es| == Pow2(k) && v < |es| && p < |es|
  {
    forall c | 0 <= c < |es| && c != v && Occ(es[c]) && es[c].hash == es[p].hash :: Through(es, k, v, c)
  }

  /** Some resident other than the one in `v` can be reached only through `v`. */
  ghost predicate Hidden(es: seq<Entry>, k: nat, v: nat)
    requires k <= 32 && |es| == Pow2(k) && v < |es|
  {
    exists p :: 0 <= p < |es| && p != v && Occ(es[p]) && AllThrough(es, k, v, p)
  }

  /** The first gap on a path through the cleared cell is that cell. */
  lemma {:induction false} ThroughMeansGap(es: seq<Entry>, k: nat, v: nat, p: nat)
    requires k <= 32 && |es| == Pow2(k) && v < |es| && p < |es| && NoHoles(es, k) && Occ(es[p]) && Through(es, k, v, p)
    ensures FirstEmpty(Cleared(es, v), Bucket(es[p].hash, k), 0) == Some(Dist(Bucket(es[p].hash, k), v, |es|))
  {
    var es', b := Cleared(es, v), Bucket(es[p].hash, k);
    var dv := Dist(b, v, |es|);
    forall j: nat | j < dv ensures Occ(Cell(es', b, j)) {
      assert Occ(Cell(es, b, j));
      FilledCells(es, b, v, es'[v], j);
    }
    FirstEmptyIs(es', b, 0, dv);
  }

  /** A copy whose path does not run through the cleared cell is reached as before. */
  lemma {:induction false} StillReached(es: seq<Entry>, k: nat, v: nat, q: nat, e: Entry, c: nat)
    requires k <= 32 && |es| == Pow2(k) && v < |es| && q < |es| && NoHoles(es, k) && Occ(e)
    requires c < |es| && c != v && c != q && Occ(es[c]) && !Through(es, k, v, c)
    ensures Probe(Cleared(es, v)[q := e], Bucket(es[c].hash, k), es[c].hash, 0).Some?
  {
    var es', b, d := Cleared(es, v)[q := e], Bucket(es[c].hash, k), Dist(Bucket(es[c].hash, k), c, |es|);
    forall j: nat | j < d ensures Occ(Cell(es', b, j)) {
      assert Occ(Cell(es, b, j));
      FilledCells(es, b, v, Cleared(es, v)[v], j);
      FilledCells(Cleared(es, v), b, q, e, j);
    }
    ProbeReaches(es', b, es[c].hash, 0, d);
  }

  /** The new entry itself is always found. */
  lemma {:induction false} NewIsReached(es1: seq<Entry>, k: nat, d: nat, e: Entry)
    requires k <= 32 && |es1| == Pow2(k) && Occ(e) && FirstEmpty(es1, Bucket(e.hash, k), 0) == Some(d)
    ensures Probe(es1[Pos(Bucket(e.hash, k), d, |es1|) := e], Bucket(e.hash, k), e.hash, 0).Some?
  {
    var b := Bucket(e.hash, k);
    var q := Pos(b, d, |es1|);
    DistUnique(b, q, |es1|, d);
    FillAnswers(es1, b, e.hash, q, e);
  }

  /** With the new entry elsewhere, a key whose copies all lie behind the cleared cell is lost. */
  lemma {:induction false} HiddenIsLost(es: seq<Entry>, k: nat, v: nat, d: nat, e: Entry, p: nat)
    requires k <= 32 && |es| == Pow2(k) && v < |es| && NoHoles(es, k) && Occ(e)
    requires FirstEmpty(Cleared(es, v), Bucket(e.hash, k), 0) == Some(d) && Pos(Bucket(e.hash, k), d, |es|) != v
    requires p < |es| && p != v && Occ(es[p]) && AllThrough(es, k, v, p)
    ensures Probe(Cleared(es, v)[Pos(Bucket(e.hash, k), d, |es|) := e], Bucket(es[p].hash, k), es[p].hash, 0) == None
  {
    var key, q, es1 := es[p].hash, Pos(Bucket(e.hash, k), d, |es|), Cleared(es, v);
    var b, es' := Bucket(key, k), es1[q := e];
    var dv := Dist(b, v, |es|);
    assert Through(es, k, v, p);
    ThroughMeansGap(es, k, v, p);
    assert key != e.hash;
    FilledCells(es1, b, q, e, dv);
    assert !Occ(Cell(es', b, dv));
    forall f: nat | f < |es| && Match(es', b, key, f) ensures dv < f {
      var c := Pos(b, f, |es|);
      DistUnique(b, c, |es|, f);
      assert c != v && es'[c] == es[c];
      assert Through(es, k, v, c);
    }
  }

  lemma {:induction false} FindsAllIff(es: seq<Entry>, k: nat, v: nat, d: nat, e: Entry)
    requires k <= 32 && |es| == Pow2(k) && v < |es| && NoHoles(es, k) && Occ(e)
    requires FirstEmpty(Cleared(es, v), Bucket(e.hash, k), 0) == Some(d)
    ensures var q := Pos(Bucket(e.hash, k), d, |es|);
            FindsAll(Cleared(es, v)[q := e], k) <==> q == v || !Hidden(es, k, v)
  {
    var q, es1 := Pos(Bucket(e.hash, k), d, |es|), Cleared(es, v);
    var es' := es1[q := e];
    assert !Occ(es1[q]);
    if q == v {
      EvictThenFillNoHolesIff(es, k, v, d, e);
      forall key: Key | Resident(es', key) ensures Probe(es', Bucket(key, k), key, 0).Some? {
        FoundIffResident(es', k, key);
      }
    } else if p :| 0 <= p < |es| && p != v && Occ(es[p]) && AllThrough(es, k, v, p) {
      HiddenIsLost(es, k, v, d, e, p);
      assert es'[p] == es[p];
      assert Resident(es', es[p].hash);
    } else {
      forall key: Key | Resident(es', key) ensures Probe(es', Bucket(key, k), key, 0).Some? {
        ResidentReached(es, k, v, d, e, key);
      }
    }
  }

  lemma {:induction false} ResidentReached(es: seq<Entry>, k: nat, v: nat, d: nat, e: Entry, key: Key)
    requires k <= 32 && |es| == Pow2(k) && v < |es| && NoHoles(es, k) && Occ(e)
    requires FirstEmpty(Cleared(es, v), Bucket(e.hash, k), 0) == Some(d) && Pos(Bucket(e.hash, k), d, |es|) != v
    requires !Hidden(es, k, v) && Resident(Cleared(es, v)[Pos(Bucket(e.hash, k), d, |es|) := e], key)
    ensures Probe(Cleared(es, v)[Pos(Bucket(e.hash, k), d, |es|) := e], Bucket(key, k), key, 0).Some?
  {
    var q, es1 := Pos(Bucket(e.hash, k), d, |es|), Cleared(es, v);
    if key == e.hash {
      NewIsReached(es1, k, d, e);
    } else {
      var p :| 0 <= p < |es| && Occ(es1[q := e][p]) && es1[q := e][p].hash == key;
      assert p != q && p != v && Occ(es[p]) && !AllThrough(es, k, v, p);
      var c :| 0 <= c < |es| && c != v && Occ(es[c]) && es[c].hash == es[p].hash && !Through(es, k, v, c);
      assert !Occ(es1[q]);
      StillReached(es, k, v, q, e, c);
    }
  }

  /** From a table without holes, every resident key is still found after an insert that evicts
      cell `v`, if and only if the new entry goes into `v`, or no other resident has all its
      copies behind `v`. */
  lemma {:induction false} EvictingInsertFindsAllIff(c: Cache, stored: Key, now: nat)
    requires Inv(c) && NoHoles(c.entries, c.k) && Crowded(c.occupied, Capacity(c))
    ensures Victim(c) < |c.entries| && |Insert(c, stored, now).0.entries| == |c.entries|
    ensures FindsAll(Insert(c, stored, now).0.entries, c.k) <==>
            Target(AfterEviction(c), stored) == Some(Victim(c)) || !Hidden(c.entries, c.k, Victim(c))
  {
    VictimIsOccupied(c);
    InsertOutcome(c, stored, now);
    EvictionKeepsInv(c);
    var es, v, b := c.entries, Victim(c), Bucket(stored, c.k);
    var d, s := FirstEmpty(Cleared(es, v), b, 0).value, Insert(c, stored, now).1.value;
    FindsAllIff(es, c.k, v, d, Entry(stored, s, now, 0));
  }
}
