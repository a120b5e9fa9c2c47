/** What the counters of the cache count, in every run. */
module CacheStats {
  import opened CacheSpec
  import opened ProbeTable

  /** What a call can be counted as. */
  datatype Count = Hit | Miss | Insertion | Eviction

  /** A lookup that answered, one that did not, an insert that returned a block, and a call that
      took an entry out: an insert at the load factor or an evict of a key that is found. */
  ghost predicate Counts(c: Cache, op: Op, now: nat, what: Count)
    requires WellSized(c)
  {
    match what
    case Hit => op.DoLookup? && Answer(c, op.key).Some?
    case Miss => op.DoLookup? && Answer(c, op.key).None?
    case Insertion => op.DoInsert? && Insert(c, op.key, now).1.Some?
    case Eviction => || (op.DoInsert? && 20 * c.occupied >= 17 * |c.entries|)
                     || (op.DoEvict? && Answer(c, op.key).Some?)
  }

  ghost predicate CountsAt(run: seq<Cache>, ops: seq<Op>, times: seq<nat>, j: nat, what: Count) {
    j < |run| && j < |ops| && j < |times| && WellSized(run[j]) && Counts(run[j], ops[j], times[j], what)
  }

  /** Which calls count. */
  ghost function Marks(run: seq<Cache>, ops: seq<Op>, times: seq<nat>, what: Count): (marks: seq<bool>)
    ensures |marks| == |ops| && forall j | 0 <= j < |ops| :: marks[j] == CountsAt(run, ops, times, j, what)
  {
    seq(|ops|, j requires 0 <= j < |ops| => CountsAt(run, ops, times, j, what))
  }

  function MarkedBelow(marks: seq<bool>, i: nat): set<nat> { set j: nat | j < i && j < |marks| && marks[j] }

  /** The calls before step `i` that count. */
  ghost function Calls(run: seq<Cache>, ops: seq<Op>, times: seq<nat>, i: nat, what: Count): set<nat> {
    MarkedBelow(Marks(run, ops, times, what), i)
  }

  function Counter(stats: Stats, what: Count): nat {
    match what
    case Hit => stats.hits
    case Miss => stats.misses
    case Insertion => stats.insertions
    case Eviction => stats.evictions
  }

  predicate CountedOnce(c: Cache, c': Cache, what: Count, counts: bool) {
    Counter(c'.stats, what) == Counter(c.stats, what) + if counts then 1 else 0
  }

  lemma {:induction false} InsertCounts(c: Cache, key: Key, now: nat, what: Count)
    requires Inv(c)
    ensures CountedOnce(c, Insert(c, key, now).0, what, Counts(c, DoInsert(key), now, what))
    ensures Insert(c, key, now).0.occupied ==
            c.occupied + (if Insert(c, key, now).1.Some? then 1 else 0)
            - (if 20 * c.occupied >= 17 * |c.entries| then 1 else 0)
  {
    InsertOutcome(c, key, now);
  }

  lemma {:induction false} LookupCounts(c: Cache, key: Key, now: nat, what: Count)
    requires WellSized(c)
    ensures CountedOnce(c, Lookup(c, key, now).0, what, Counts(c, DoLookup(key), now, what))
    ensures Lookup(c, key, now).0.occupied == c.occupied
  {
  }

  lemma {:induction false} EvictCounts(c: Cache, key: Key, now: nat, what: Count)
    requires WellSized(c)
    ensures CountedOnce(c, Evict(c, key).0, what, Counts(c, DoEvict(key), now, what))
    ensures Evict(c, key).0.occupied == c.occupied - if Answer(c, key).Some? then 1 else 0
  {
  }

  lemma {:induction false} CallCounts(c: Cache, op: Op, now: nat, what: Count)
    requires Inv(c)
    ensures CountedOnce(c, Apply(c, op, now), what, Counts(c, op, now, what))
    ensures Apply(c, op, now).occupied ==
            c.occupied + (if Counts(c, op, now, Insertion) then 1 else 0)
            - (if Counts(c, op, now, Eviction) then 1 else 0)
  {
    match op
    case DoInsert(key) => InsertCounts(c, key, now, what);
    case DoLookup(key) => LookupCounts(c, key, now, what);
    case DoEvict(key) => EvictCounts(c, key, now, what);
  }

  lemma {:induction false} MarkedGrow(marks: seq<bool>, i: nat)
    requires i < |marks|
    ensures |MarkedBelow(marks, i + 1)| == |MarkedBelow(marks, i)| + if marks[i] then 1 else 0
  {
    var before := MarkedBelow(marks, i);
    assert MarkedBelow(marks, i + 1) == if marks[i] then before + {i} else before;
  }

  lemma {:induction false} CallsGrow(run: seq<Cache>, ops: seq<Op>, times: seq<nat>, i: nat, what: Count)
    requires i < |ops|
    ensures |Calls(run, ops, times, i + 1, what)| ==
            |Calls(run, ops, times, i, what)| + if CountsAt(run, ops, times, i, what) then 1 else 0
  {
    MarkedGrow(Marks(run, ops, times, what), i);
  }

  /** One call of a run moves a counter and the calls it stands for alike. */
  lemma {:induction false} CounterFollows(run: seq<Cache>, ops: seq<Op>, times: seq<nat>, i: nat, what: Count)
    requires IsRun(run, ops, times) && i < |ops|
    ensures Counter(run[i + 1].stats, what) - Counter(run[i].stats, what) ==
            |Calls(run, ops, times, i + 1, what)| - |Calls(run, ops, times, i, what)|
  {
    RunKeepsInv(run, ops, times, i);
    assert CallAt(run, ops, times, i);
    CallCounts(run[i], ops[i], times[i], what);
    CallsGrow(run, ops, times, i, what);
  }

  lemma {:induction false} NoneYet(run: seq<Cache>, ops: seq<Op>, times: seq<nat>, what: Count)
    ensures |Calls(run, ops, times, 0, what)| == 0
  {
    assert MarkedBelow(Marks(run, ops, times, what), 0) == {};
  }

  lemma {:induction false} CounterIs(run: seq<Cache>, ops: seq<Op>, times: seq<nat>, i: nat, what: Count)
    requires IsRun(run, ops, times) && i <= |ops|
    ensures Counter(run[i].stats, what) == Counter(run[0].stats, what) + |Calls(run, ops, times, i, what)|
  {
    if i > 0 {
      CounterIs(run, ops, times, i - 1, what);
      CounterFollows(run, ops, times, i - 1, what);
    } else {
      NoneYet(run, ops, times, what);
    }
  }

  lemma {:induction false} CallBalances(c: Cache, op: Op, now: nat)
    requires Inv(c)
    ensures var c' := Apply(c, op, now);
            c'.occupied - c.occupied ==
            c'.stats.insertions - c.stats.insertions - (c'.stats.evictions - c.stats.evictions)
  {
    CallCounts(c, op, now, Insertion);
    CallCounts(c, op, now, Eviction);
  }

  /** The occupied cells are what has been inserted and not evicted. */
  lemma {:induction false} OccupiedIs(run: seq<Cache>, ops: seq<Op>, times: seq<nat>, i: nat)
    requires IsRun(run, ops, times) && i <= |ops|
    ensures run[i].occupied == run[i].stats.insertions - run[0].stats.insertions
                               - (run[i].stats.evictions - run[0].stats.evictions)
  {
    if i > 0 {
      OccupiedIs(run, ops, times, i - 1);
      RunKeepsInv(run, ops, times, i - 1);
      assert CallAt(run, ops, times, i - 1);
      CallBalances(run[i - 1], ops[i - 1], times[i - 1]);
    }
  }

  /** In every run each counter has grown by exactly the calls it stands for, and the occupied
      cells are the insertions less the evictions. */
  lemma {:induction false} RunCounts(run: seq<Cache>, ops: seq<Op>, times: seq<nat>, i: nat)
    requires IsRun(run, ops, times) && i <= |ops|
    ensures var was, now := run[0].stats, run[i].stats;
            && now.hits == was.hits + |Calls(run, ops, times, i, Hit)|
            && now.misses == was.misses + |Calls(run, ops, times, i, Miss)|
            && now.insertions == was.insertions + |Calls(run, ops, times, i, Insertion)|
            && now.evictions == was.evictions + |Calls(run, ops, times, i, Eviction)|
            && run[i].occupied == |Calls(run, ops, times, i, Insertion)| - |Calls(run, ops, times, i, Eviction)|
  {
    CounterIs(run, ops, times, i, Hit);
    CounterIs(run, ops, times, i, Miss);
    CounterIs(run, ops, times, i, Insertion);
    CounterIs(run, ops, times, i, Eviction);
    OccupiedIs(run, ops, times, i);
  }
}
