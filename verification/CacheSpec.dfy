/** The content-addressed KV cache as a state machine on values: the probe table owns the
    arena's slots. */
module CacheSpec {
  import opened Bits
  import opened ArenaAlloc
  import opened Common
  import opened ProbeTable

  /** Timestamps are 64-bit; the eviction scan starts from the largest one. */
  const CLOCK_MAX: nat := 0xFFFF_FFFF_FFFF_FFFF

  datatype Stats = Stats(hits: nat, misses: nat, evictions: nat, insertions: nat)

  /** `k` is the binary logarithm of the capacity; `used` is the set of allocated slots of
      an arena of `total` slots. */
  datatype Cache = Cache(k: nat, entries: seq<Entry>, occupied: int, used: set<nat>, total: nat, stats: Stats)

  predicate WellSized(c: Cache) {
    c.k <= 31 && |c.entries| == Pow2(c.k) && c.total <= 0xFFFF_FFFF
  }

  function Capacity(c: Cache): nat { |c.entries| }

  /** `occupied / capacity >= 0.85` in exact arithmetic. */
  predicate Crowded(occupied: int, capacity: nat) { 20 * occupied >= 17 * capacity }

  /** The C test compares an exact quotient (the capacity is a power of two) with the
      double nearest to 0.85, which is 7656119366529843 / 2^53; it decides the same. */
  lemma {:induction false} LoadTestIsExact(occupied: nat, capacity: nat)
    requires 0 < capacity <= 0x8000_0000
    ensures occupied * 0x20_0000_0000_0000 >= 7656119366529843 * capacity <==> Crowded(occupied, capacity)
  {
  }

  // ---- Operations -----------------------------------------------------------

  /** find_lru_entry over the first `n` cells: the victim and its timestamp. */
  function Lru(es: seq<Entry>, n: nat): (r: (nat, nat))
    requires n <= |es|
    ensures r.1 <= CLOCK_MAX
    ensures r.1 == CLOCK_MAX ==> r.0 == 0
    ensures r.1 < CLOCK_MAX ==> r.0 < n && Occ(es[r.0]) && es[r.0].lastAccess == r.1
    ensures forall i | 0 <= i < n && Occ(es[i]) :: r.1 <= es[i].lastAccess || r.1 == CLOCK_MAX
    ensures forall i | 0 <= i < n && Occ(es[i]) && es[i].lastAccess < CLOCK_MAX :: r.1 <= es[i].lastAccess
    ensures forall i | 0 <= i < r.0 && Occ(es[i]) :: r.1 < es[i].lastAccess
  {
    if n == 0 then (0, CLOCK_MAX)
    else
      var r := Lru(es, n - 1);
      if Occ(es[n - 1]) && es[n - 1].lastAccess < r.1 then (n - 1, es[n - 1].lastAccess) else r
  }

  /** Frees the slot of cell `p` and marks the cell empty, leaving no tombstone. */
  function ClearCell(c: Cache, p: nat): Cache
    requires p < |c.entries|
  {
    c.(entries := Cleared(c.entries, p),
       occupied := c.occupied - 1,
       used := c.used - {c.entries[p].slot},
       stats := c.stats.(evictions := c.stats.evictions + 1))
  }

  function AfterEviction(c: Cache): Cache
    requires WellSized(c)
  {
    if Crowded(c.occupied, Capacity(c)) then ClearCell(c, Lru(c.entries, |c.entries|).0) else c
  }

  /** Stores `key` with arena slot `s` in cell `p`. */
  function FillCell(c: Cache, p: nat, key: Key, s: nat, now: nat): Cache
    requires p < |c.entries|
  {
    c.(entries := c.entries[p := Entry(key, s, now, 0)],
       occupied := c.occupied + 1,
       used := c.used + {s},
       stats := c.stats.(insertions := c.stats.insertions + 1))
  }

  /** Takes the lowest free slot and stores it in the first empty cell of the key's path. */
  function Store(c: Cache, key: Key, now: nat): (Cache, Option<nat>)
    requires WellSized(c)
  {
    var s := FirstFree(c.used, c.total, 0);
    var d := FirstEmpty(c.entries, Bucket(key, c.k), 0);
    if s.None? || d.None? then (c, None)
    else (FillCell(c, Pos(Bucket(key, c.k), d.value, Capacity(c)), key, s.value, now), s)
  }

  /** kllm_index_insert: the new state and the slot of the new block, if any. */
  function Insert(c: Cache, key: Key, now: nat): (Cache, Option<nat>)
    requires WellSized(c)
  {
    Store(AfterEviction(c), key, now)
  }

  /** The cell a lookup of `key` ends at. */
  function FoundAt(c: Cache, key: Key): (r: Option<nat>)
    requires WellSized(c)
    ensures r.Some? ==> r.value < |c.entries| && Occ(c.entries[r.value]) && c.entries[r.value].hash == key
  {
    var d := Probe(c.entries, Bucket(key, c.k), key, 0);
    if d.None? then None else Some(Pos(Bucket(key, c.k), d.value, Capacity(c)))
  }

  /** kllm_index_lookup: the new state and the slot found, if any. */
  function Lookup(c: Cache, key: Key, now: nat): (Cache, Option<nat>)
    requires WellSized(c)
  {
    var p := FoundAt(c, key);
    if p.None? then (c.(stats := c.stats.(misses := c.stats.misses + 1)), None)
    else
      (c.(entries := c.entries[p.value := c.entries[p.value].(lastAccess := now)],
          stats := c.stats.(hits := c.stats.hits + 1)),
       Some(c.entries[p.value].slot))
  }

  /** kllm_index_evict */
  function Evict(c: Cache, key: Key): (Cache, bool)
    requires WellSized(c)
  {
    var p := FoundAt(c, key);
    if p.None? then (c, false) else (ClearCell(c, p.value), true)
  }

  // ---- The ownership invariant ----------------------------------------------

  function OccupiedCells(es: seq<Entry>): set<nat> {
    set p | 0 <= p < |es| && Occ(es[p])
  }

  /** Occupied cells and allocated slots are in one-to-one correspondence. */
  ghost predicate Owns(es: seq<Entry>, used: set<nat>) {
    && (forall p | 0 <= p < |es| && Occ(es[p]) :: es[p].slot in used)
    && (forall p, q | 0 <= p < q < |es| && Occ(es[p]) && Occ(es[q]) :: es[p].slot != es[q].slot)
    && (forall s | s in used :: HasOwner(es, s))
  }

  ghost predicate HasOwner(es: seq<Entry>, s: nat) {
    exists p :: 0 <= p < |es| && Occ(es[p]) && es[p].slot == s
  }

  ghost predicate Inv(c: Cache) {
    && WellSized(c)
    && Owns(c.entries, c.used)
    && (forall s | s in c.used :: s < c.total)
    && c.occupied == |OccupiedCells(c.entries)|
    && (forall p | 0 <= p < |c.entries| && Occ(c.entries[p]) :: c.entries[p].lastAccess < CLOCK_MAX)
    && 20 * (c.occupied - 1) < 17 * Capacity(c)
  }

  predicate EmptyCache(c: Cache) {
    && WellSized(c)
    && (forall p | 0 <= p < |c.entries| :: !Occ(c.entries[p]))
    && c.occupied == 0 && c.used == {}
  }

  lemma {:induction false} EmptyCacheInv(c: Cache)
    requires EmptyCache(c)
    ensures Inv(c)
  {
    assert OccupiedCells(c.entries) == {};
  }

  lemma {:induction false} ClearKeepsOwns(es: seq<Entry>, used: set<nat>, p: nat)
    requires Owns(es, used) && p < |es| && Occ(es[p])
    ensures Owns(Cleared(es, p), used - {es[p].slot})
    ensures |OccupiedCells(Cleared(es, p))| == |OccupiedCells(es)| - 1
  {
    var es', used' := Cleared(es, p), used - {es[p].slot};
    assert OccupiedCells(es') == OccupiedCells(es) - {p};
    forall s | s in used' ensures HasOwner(es', s) {
      var q :| 0 <= q < |es| && Occ(es[q]) && es[q].slot == s;
      assert es'[q] == es[q];
    }
  }

  lemma {:induction false} FillKeepsOwns(es: seq<Entry>, used: set<nat>, p: nat, e: Entry)
    requires Owns(es, used) && p < |es| && !Occ(es[p]) && Occ(e) && e.slot !in used
    ensures Owns(es[p := e], used + {e.slot})
    ensures |OccupiedCells(es[p := e])| == |OccupiedCells(es)| + 1
  {
    var es', used' := es[p := e], used + {e.slot};
    assert OccupiedCells(es') == OccupiedCells(es) + {p};
    forall s | s in used' ensures HasOwner(es', s) {
      if s == e.slot {
        assert es'[p].slot == s;
      } else {
        assert HasOwner(es, s);
        var q :| 0 <= q < |es| && Occ(es[q]) && es[q].slot == s;
        assert es'[q] == es[q];
      }
    }
  }

  lemma {:induction false} TouchKeepsOwns(es: seq<Entry>, used: set<nat>, p: nat, now: nat)
    requires Owns(es, used) && p < |es| && Occ(es[p])
    ensures Owns(es[p := es[p].(lastAccess := now)], used)
    ensures OccupiedCells(es[p := es[p].(lastAccess := now)]) == OccupiedCells(es)
  {
    var es' := es[p := es[p].(lastAccess := now)];
    forall s | s in used ensures HasOwner(es', s) {
      var q :| 0 <= q < |es| && Occ(es[q]) && es[q].slot == s;
      assert es'[q].slot == s;
    }
  }

  lemma {:induction false} ClearKeepsInv(c: Cache, p: nat)
    requires Inv(c) && p < |c.entries| && Occ(c.entries[p])
    ensures Inv(ClearCell(c, p))
    ensures c.entries[p].slot in c.used
  {
    ClearKeepsOwns(c.entries, c.used, p);
  }

  /** A crowded table has a resident, and the scan's victim is one. */
  lemma {:induction false} VictimIsOccupied(c: Cache)
    requires Inv(c) && Crowded(c.occupied, Capacity(c))
    ensures var v := Lru(c.entries, |c.entries|).0;
            && v < |c.entries| && Occ(c.entries[v]) && c.entries[v].slot in c.used
            && forall p | 0 <= p < |c.entries| && Occ(c.entries[p]) ::
                 c.entries[v].lastAccess <= c.entries[p].lastAccess
  {
    assert OccupiedCells(c.entries) != {};
    var p :| p in OccupiedCells(c.entries);
    assert Occ(c.entries[p]);
  }

  lemma {:induction false} EvictionKeepsInv(c: Cache)
    requires Inv(c)
    ensures Inv(AfterEviction(c))
    ensures !Crowded(AfterEviction(c).occupied, Capacity(c))
    ensures Crowded(c.occupied, Capacity(c)) ==> FirstFree(AfterEviction(c).used, c.total, 0).Some?
  {
    if Crowded(c.occupied, Capacity(c)) {
      VictimIsOccupied(c);
      var v := Lru(c.entries, |c.entries|).0;
      ClearKeepsInv(c, v);
      assert c.entries[v].slot !in AfterEviction(c).used;
    }
  }

  /** A table that is not crowded has an empty cell on every probe path. */
  lemma {:induction false} RoomOnEveryPath(c: Cache, b: nat)
    requires Inv(c) && !Crowded(c.occupied, Capacity(c))
    ensures FirstEmpty(c.entries, b, 0).Some?
  {
    var n := |c.entries|;
    if FirstEmpty(c.entries, b, 0).None? {
      forall p | 0 <= p < n ensures Occ(c.entries[p]) {
        assert Occ(Cell(c.entries, b, Dist(b, p, n)));
      }
      FullTableCount(c.entries);
    }
  }

  lemma {:induction false} FullTableCount(es: seq<Entry>)
    requires forall p | 0 <= p < |es| :: Occ(es[p])
    ensures |OccupiedCells(es)| == |es|
  {
    if es == [] {
      assert OccupiedCells(es) == {};
    } else {
      var n := |es| - 1;
      FullTableCount(es[..n]);
      assert OccupiedCells(es) == OccupiedCells(es[..n]) + {n};
    }
  }

  /** What an insert does, in every reachable state: one that evicts never fails; one that
      does not evict fails only when the arena is full, and then changes nothing; a full
      probe path is never met. */
  lemma {:induction false} InsertOutcome(c: Cache, key: Key, now: nat)
    requires Inv(c)
    ensures var (c', r) := Insert(c, key, now);
            && FirstEmpty(AfterEviction(c).entries, Bucket(key, c.k), 0).Some?
            && (Crowded(c.occupied, Capacity(c)) ==> r.Some?)
            && (r.None? <==> !Crowded(c.occupied, Capacity(c)) && forall s | 0 <= s < c.total :: s in c.used)
            && (r.None? ==> c' == c)
  {
    EvictionKeepsInv(c);
    RoomOnEveryPath(AfterEviction(c), Bucket(key, c.k));
  }

  /** A successful insert writes one cell, an empty one, with the key, the time and the lowest
      slot that is free then; nothing else has changed but for the evicted entry. */
  lemma {:induction false} InsertStores(c: Cache, key: Key, now: nat) returns (p: nat)
    requires Inv(c) && Insert(c, key, now).1.Some?
    ensures var (c', r) := Insert(c, key, now);
            var c1 := AfterEviction(c);
            && p < |c.entries| && !Occ(c1.entries[p])
            && c'.entries == c1.entries[p := Entry(key, r.value, now, 0)]
            && r.value !in c1.used && r.value < c.total && (forall s | 0 <= s < r.value :: s in c1.used)
            && c'.used == c1.used + {r.value} && c'.k == c.k && c'.total == c.total
  {
    EvictionKeepsInv(c);
    var c1 := AfterEviction(c);
    var b := Bucket(key, c.k);
    RoomOnEveryPath(c1, b);
    p := Pos(b, FirstEmpty(c1.entries, b, 0).value, Capacity(c1));
  }

  lemma {:induction false} StoreKeepsInv(c: Cache, key: Key, now: nat)
    requires Inv(c) && now < CLOCK_MAX && !Crowded(c.occupied, Capacity(c))
    ensures Inv(Store(c, key, now).0)
  {
    RoomOnEveryPath(c, Bucket(key, c.k));
    var (c', r) := Store(c, key, now);
    if r.Some? {
      var b := Bucket(key, c.k);
      var p := Pos(b, FirstEmpty(c.entries, b, 0).value, Capacity(c));
      FillKeepsOwns(c.entries, c.used, p, Entry(key, r.value, now, 0));
    }
  }

  lemma {:induction false} InsertKeepsInv(c: Cache, key: Key, now: nat)
    requires Inv(c) && now < CLOCK_MAX
    ensures Inv(Insert(c, key, now).0)
  {
    EvictionKeepsInv(c);
    StoreKeepsInv(AfterEviction(c), key, now);
  }

  lemma {:induction false} LookupKeepsInv(c: Cache, key: Key, now: nat)
    requires Inv(c) && now < CLOCK_MAX
    ensures Inv(Lookup(c, key, now).0)
  {
    var p := FoundAt(c, key);
    if p.Some? {
      TouchKeepsOwns(c.entries, c.used, p.value, now);
    }
  }

  lemma {:induction false} EvictKeepsInv(c: Cache, key: Key)
    requires Inv(c)
    ensures Inv(Evict(c, key).0)
    ensures Evict(c, key).1 <==> Answer(c, key).Some?
    ensures !Evict(c, key).1 ==> Evict(c, key).0 == c
    ensures Evict(c, key).1 ==> Evict(c, key).0.used == c.used - {Answer(c, key).value}
    ensures Evict(c, key).1 ==> c.entries[FoundAt(c, key).value].slot in c.used
  {
    var p := FoundAt(c, key);
    if p.Some? {
      ClearKeepsInv(c, p.value);
    }
  }

  /** Every occupied entry names a slot of the arena. */
  predicate HitsLive(c: Cache) {
    forall p | 0 <= p < |c.entries| && Occ(c.entries[p]) :: c.entries[p].slot < c.total
  }

  lemma {:induction false} InvHitsLive(c: Cache)
    requires Inv(c)
    ensures WellSized(c) && HitsLive(c)
  {
  }

  /** A hit yields a live block that is stored under exactly the hash asked for. */
  lemma {:induction false} HitIsLive(c: Cache, key: Key, now: nat)
    requires Inv(c)
    ensures var r := Lookup(c, key, now).1;
            r.Some? ==> && r.value in c.used && r.value < c.total
                        && exists p :: 0 <= p < |c.entries| && c.entries[p].slot == r.value && c.entries[p].hash == key
  {
    var p := FoundAt(c, key);
    if p.Some? {
      assert c.entries[p.value].slot in c.used;
    }
  }

  /** With capacity 8 or more there is always an empty cell. */
  lemma {:induction false} AlwaysAnEmptyCell(c: Cache)
    requires Inv(c) && Capacity(c) >= 8
    ensures exists p :: 0 <= p < |c.entries| && !Occ(c.entries[p])
  {
    var n := |c.entries|;
    if forall p | 0 <= p < n :: Occ(c.entries[p]) {
      FullTableCount(c.entries);
    }
  }

  // ---- Whole runs -----------------------------------------------------------

  datatype Op = DoInsert(key: Key) | DoLookup(key: Key) | DoEvict(key: Key)

  /** One call, made at time `now`. */
  function Apply(c: Cache, op: Op, now: nat): Cache
    requires WellSized(c)
  {
    match op
    case DoInsert(key) => Insert(c, key, now).0
    case DoLookup(key) => Lookup(c, key, now).0
    case DoEvict(key) => Evict(c, key).0
  }

  /** Any sequence of calls on an empty cache, at any times the clock can show. */
  ghost predicate IsRun(run: seq<Cache>, ops: seq<Op>, times: seq<nat>) {
    && |run| == |ops| + 1 == |times| + 1
    && EmptyCache(run[0])
    && (forall i | 0 <= i < |times| :: times[i] < 0xFFFF_FFFF_FFFF_FFFF)
    && (forall i | 0 <= i < |ops| :: WellSized(run[i]))
    && forall i | 0 <= i < |ops| :: CallAt(run, ops, times, i)
  }

  predicate CallAt(run: seq<Cache>, ops: seq<Op>, times: seq<nat>, i: nat)
    requires i < |ops| == |times| && i + 1 < |run| && WellSized(run[i])
  {
    run[i + 1] == Apply(run[i], ops[i], times[i])
  }

  /** In every run, occupied cells and allocated slots stay in one-to-one correspondence,
      `occupied` is their number, and the load stays bounded. */
  lemma {:induction false} RunKeepsInv(run: seq<Cache>, ops: seq<Op>, times: seq<nat>, i: nat)
    requires IsRun(run, ops, times) && i < |run|
    ensures Inv(run[i])
  {
    if i == 0 {
      EmptyCacheInv(run[0]);
    } else {
      RunKeepsInv(run, ops, times, i - 1);
      assert CallAt(run, ops, times, i - 1);
      match ops[i - 1]
      case DoInsert(key) => InsertKeepsInv(run[i - 1], key, times[i - 1]);
      case DoLookup(key) => LookupKeepsInv(run[i - 1], key, times[i - 1]);
      case DoEvict(key) => EvictKeepsInv(run[i - 1], key);
    }
  }

  /** The number of slots in use is the number of occupied cells. */
  lemma {:induction false} OwnsCount(es: seq<Entry>, used: set<nat>)
    requires Owns(es, used)
    ensures |used| == |OccupiedCells(es)|
    decreases |used|
  {
    if used == {} {
      assert OccupiedCells(es) == {};
    } else {
      var s :| s in used;
      assert HasOwner(es, s);
      var p :| 0 <= p < |es| && Occ(es[p]) && es[p].slot == s;
      ClearKeepsOwns(es, used, p);
      OwnsCount(Cleared(es, p), used - {s});
    }
  }

  // ---- Runs without eviction are a map --------------------------------------

  /** What lookup answers, as a function of the state. */
  function Answer(c: Cache, key: Key): Option<nat>
    requires WellSized(c)
  {
    var p := FoundAt(c, key);
    if p.None? then None else Some(c.entries[p.value].slot)
  }

  /** The table has no holes and answers like the map `m`. */
  ghost predicate ActsAs(c: Cache, m: map<Key, nat>) {
    && WellSized(c)
    && NoHoles(c.entries, c.k)
    && forall key: Key :: Answer(c, key) == InMap(m, key)
  }

  function InMap(m: map<Key, nat>, key: Key): Option<nat> {
    if key in m then Some(m[key]) else None
  }

  /** Inserting records only the first block of a key. */
  function Recorded(m: map<Key, nat>, key: Key, r: Option<nat>): map<Key, nat> {
    if r.None? || key in m then m else m[key := r.value]
  }

  lemma {:induction false} EmptyActsAsEmptyMap(c: Cache)
    requires EmptyCache(c)
    ensures ActsAs(c, map[])
  {
  }

  lemma {:induction false} TouchKeepsProbe(es: seq<Entry>, b: nat, key: Key, p: nat, now: nat, i: nat)
    requires p < |es| && i <= |es|
    ensures Probe(es[p := es[p].(lastAccess := now)], b, key, i) == Probe(es, b, key, i)
    decreases |es| - i
  {
    if i < |es| {
      TouchKeepsProbe(es, b, key, p, now, i + 1);
    }
  }

  lemma {:induction false} LookupActs(c: Cache, m: map<Key, nat>, key: Key, now: nat)
    requires ActsAs(c, m)
    ensures ActsAs(Lookup(c, key, now).0, m)
    ensures Lookup(c, key, now).1 == InMap(m, key)
  {
    var p := FoundAt(c, key);
    if p.Some? {
      TouchKeepsNoHoles(c.entries, c.k, p.value, now);
    }
    forall other: Key ensures Answer(Lookup(c, key, now).0, other) == InMap(m, other) {
      LookupChangesNoAnswer(c, key, now, other);
    }
    assert Answer(c, key) == InMap(m, key);
  }

  /** Lookup changes no answer. */
  lemma {:induction false} LookupChangesNoAnswer(c: Cache, sought: Key, now: nat, key: Key)
    requires WellSized(c)
    ensures WellSized(Lookup(c, sought, now).0)
    ensures Answer(Lookup(c, sought, now).0, key) == Answer(c, key)
  {
    var p := FoundAt(c, sought);
    if p.Some? {
      TouchKeepsAnswer(c, p.value, now, key);
    }
  }

  lemma {:induction false} TouchKeepsAnswer(c: Cache, p: nat, now: nat, key: Key)
    requires WellSized(c) && p < |c.entries|
    ensures Answer(c.(entries := c.entries[p := c.entries[p].(lastAccess := now)]), key) == Answer(c, key)
  {
    TouchKeepsProbe(c.entries, Bucket(key, c.k), key, p, now, 0);
  }

  lemma {:induction false} TouchKeepsNoHoles(es: seq<Entry>, k: nat, p: nat, now: nat)
    requires k <= 32 && |es| == Pow2(k) && NoHoles(es, k) && p < |es|
    ensures NoHoles(es[p := es[p].(lastAccess := now)], k)
  {
    var es' := es[p := es[p].(lastAccess := now)];
    forall q, j | 0 <= q < |es'| && Occ(es'[q]) && 0 <= j < Dist(Bucket(es'[q].hash, k), q, |es'|)
      ensures Occ(Cell(es', Bucket(es'[q].hash, k), j))
    {
      assert Occ(Cell(es, Bucket(es[q].hash, k), j));
    }
  }

  /** What an insert that evicts nothing stores, and where. */
  lemma {:induction false} InsertFills(c: Cache, key: Key, now: nat)
    requires Inv(c) && !Crowded(c.occupied, Capacity(c)) && NoHoles(c.entries, c.k)
    requires Insert(c, key, now).1.Some?
    ensures var (c', r) := Insert(c, key, now);
            && NoHoles(c'.entries, c.k)
            && exists q :: && 0 <= q < |c.entries| && !Occ(c.entries[q])
                           && Occ(Entry(key, r.value, now, 0))
                           && c'.entries == c.entries[q := Entry(key, r.value, now, 0)]
  {
    var (c', r) := Insert(c, key, now);
    var b := Bucket(key, c.k);
    var d := FirstEmpty(c.entries, b, 0).value;
    var q := Pos(b, d, |c.entries|);
    FillKeepsNoHoles(c.entries, c.k, d, Entry(key, r.value, now, 0));
    assert !Occ(c.entries[q]);
  }

  lemma {:induction false} InsertAnswers(c: Cache, key: Key, now: nat, other: Key)
    requires Inv(c) && !Crowded(c.occupied, Capacity(c)) && NoHoles(c.entries, c.k)
    requires Insert(c, key, now).1.Some?
    ensures Answer(Insert(c, key, now).0, other) ==
            if Answer(c, other).Some? then Answer(c, other)
            else if other == key then Insert(c, key, now).1 else None
  {
    InsertFills(c, key, now);
    var (c', r) := Insert(c, key, now);
    var e := Entry(key, r.value, now, 0);
    var q :| 0 <= q < |c.entries| && !Occ(c.entries[q]) && c'.entries == c.entries[q := e];
    AnswerAfterFill(c, other, q, e);
  }

  /** An insert that evicts nothing adds the key to the map, unless it is there already. */
  lemma {:induction false} InsertActs(c: Cache, m: map<Key, nat>, key: Key, now: nat)
    requires Inv(c) && ActsAs(c, m) && !Crowded(c.occupied, Capacity(c))
    ensures ActsAs(Insert(c, key, now).0, Recorded(m, key, Insert(c, key, now).1))
  {
    InsertOutcome(c, key, now);
    if Insert(c, key, now).1.Some? {
      InsertFills(c, key, now);
      StoredActs(c, Insert(c, key, now).0, m, key, now);
    }
  }

  lemma {:induction false} StoredActs(c: Cache, c': Cache, m: map<Key, nat>, key: Key, now: nat)
    requires Inv(c) && ActsAs(c, m) && !Crowded(c.occupied, Capacity(c))
    requires Insert(c, key, now).1.Some? && c' == Insert(c, key, now).0
    requires WellSized(c') && NoHoles(c'.entries, c'.k)
    ensures ActsAs(c', Recorded(m, key, Insert(c, key, now).1))
  {
    var r := Insert(c, key, now).1;
    forall other: Key ensures Answer(c', other) == InMap(Recorded(m, key, r), other) {
      InsertAnswers(c, key, now, other);
      assert Answer(c, other) == InMap(m, other);
      RecordedIn(m, key, r, other);
    }
  }

  lemma {:induction false} RecordedIn(m: map<Key, nat>, key: Key, r: Option<nat>, other: Key)
    requires r.Some?
    ensures InMap(Recorded(m, key, r), other) ==
            if InMap(m, other).Some? then InMap(m, other) else if other == key then r else None
  {
  }

  lemma {:induction false} AnswerAfterFill(c: Cache, key: Key, q: nat, e: Entry)
    requires WellSized(c) && NoHoles(c.entries, c.k) && q < |c.entries| && !Occ(c.entries[q]) && Occ(e)
    requires NoHoles(c.entries[q := e], c.k)
    ensures Answer(c.(entries := c.entries[q := e]), key) ==
            if Answer(c, key).Some? then Answer(c, key) else if key == e.hash then Some(e.slot) else None
  {
    var es, es', b := c.entries, c.entries[q := e], Bucket(key, c.k);
    FoundIffResident(es, c.k, key);
    FoundIffResident(es', c.k, key);
    if Answer(c, key).Some? {
      FillKeepsFound(es, b, key, q, e);
    } else {
      assert forall p | 0 <= p < |es| && p != q :: es'[p] == es[p];
      assert key == e.hash ==> es'[q].hash == key;
    }
  }

  /** No call of the run up to step `i` takes anything out of the table. */
  ghost predicate EvictsNothing(run: seq<Cache>, ops: seq<Op>, i: nat)
    requires i <= |ops| < |run|
  {
    forall j | 0 <= j < i ::
      && (ops[j].DoEvict? ==> WellSized(run[j]) && FoundAt(run[j], ops[j].key).None?)
      && (ops[j].DoInsert? ==> !Crowded(run[j].occupied, Capacity(run[j])))
  }

  /** The first block of every key inserted before step `i`. */
  ghost function FirstBlocks(run: seq<Cache>, ops: seq<Op>, times: seq<nat>, i: nat): map<Key, nat>
    requires IsRun(run, ops, times) && i <= |ops|
  {
    if i == 0 then map[]
    else
      var m := FirstBlocks(run, ops, times, i - 1);
      if ops[i - 1].DoInsert? then
        Recorded(m, ops[i - 1].key, Insert(run[i - 1], ops[i - 1].key, times[i - 1]).1)
      else m
  }

  /** In every run that evicts nothing, the index is the map from each inserted key to its
      first block: lookup finds a key if and only if it was inserted. */
  lemma {:induction false} RunActsAsMap(run: seq<Cache>, ops: seq<Op>, times: seq<nat>, i: nat)
    requires IsRun(run, ops, times) && i <= |ops| && EvictsNothing(run, ops, i)
    ensures ActsAs(run[i], FirstBlocks(run, ops, times, i))
  {
    if i == 0 {
      EmptyActsAsEmptyMap(run[0]);
    } else {
      RunActsAsMap(run, ops, times, i - 1);
      RunKeepsInv(run, ops, times, i - 1);
      var m := FirstBlocks(run, ops, times, i - 1);
      assert CallAt(run, ops, times, i - 1);
      match ops[i - 1]
      case DoInsert(key) => InsertActs(run[i - 1], m, key, times[i - 1]);
      case DoLookup(key) => LookupActs(run[i - 1], m, key, times[i - 1]);
      case DoEvict(key) => assert FoundAt(run[i - 1], key).None?;
    }
  }

  /** In any state of any run, an eviction by key loses exactly the keys whose probe path
      crosses the cleared cell, and no other key changes its block. */
  lemma {:induction false} EvictAnswers(c: Cache, key: Key, other: Key)
    requires WellSized(c) && FoundAt(c, key).Some?
    ensures var p := FoundAt(c, key).value;
            var b := Bucket(other, c.k);
            var d := Probe(c.entries, b, other, 0);
            Answer(Evict(c, key).0, other) ==
            if d.Some? && !PathCrosses(c.entries, b, d.value, p) then Answer(c, other) else None
  {
    var p, b := FoundAt(c, key).value, Bucket(other, c.k);
    ClearLosesCrossingKeys(c.entries, b, other, p);
  }

  // ---- Least recently used --------------------------------------------------

  /** The slot a call inserts or hits. */
  function Touched(c: Cache, op: Op, now: nat): Option<nat>
    requires WellSized(c)
  {
    match op
    case DoInsert(key) => Insert(c, key, now).1
    case DoLookup(key) => Lookup(c, key, now).1
    case DoEvict(_) => None
  }

  /** What each call of a run touches. */
  ghost function Touches(run: seq<Cache>, ops: seq<Op>, times: seq<nat>): (ts: seq<Option<nat>>)
    requires IsRun(run, ops, times)
    ensures |ts| == |ops| && forall j | 0 <= j < |ops| :: ts[j] == Touched(run[j], ops[j], times[j])
  {
    seq(|ops|, j requires 0 <= j < |ops| => Touched(run[j], ops[j], times[j]))
  }

  /** The last of the first `i` touches that is of slot `s`, or -1. */
  function LastIn(ts: seq<Option<nat>>, i: nat, s: nat): (j: int)
    requires i <= |ts|
    ensures -1 <= j < i && (j >= 0 ==> ts[j] == Some(s))
    ensures forall l | j < l < i :: ts[l] != Some(s)
  {
    if i == 0 then -1
    else if ts[i - 1] == Some(s) then i - 1
    else LastIn(ts, i - 1, s)
  }

  /** The last call before step `i` that inserted or hit slot `s`, or -1. */
  ghost function LastTouch(run: seq<Cache>, ops: seq<Op>, times: seq<nat>, i: nat, s: nat): (j: int)
    requires IsRun(run, ops, times) && i <= |ops|
    ensures -1 <= j < i
  {
    LastIn(Touches(run, ops, times), i, s)
  }

  /** After a call, an occupied cell either was touched by it and is stamped with its
      time, or is as before and holds another slot than the one touched. */
  lemma {:induction false} CellAfterCall(c: Cache, op: Op, now: nat, p: nat)
    requires Inv(c) && now < CLOCK_MAX && p < |c.entries|
    ensures var c' := Apply(c, op, now);
            && |c'.entries| == |c.entries|
            && (Occ(c'.entries[p]) ==>
                  || (Touched(c, op, now) == Some(c'.entries[p].slot) && c'.entries[p].lastAccess == now)
                  || (c'.entries[p] == c.entries[p] && Touched(c, op, now) != Some(c.entries[p].slot)))
  {
    match op
    case DoInsert(key) => CellAfterInsert(c, key, now, p);
    case DoLookup(key) =>
    case DoEvict(key) =>
  }

  lemma {:induction false} CellAfterInsert(c: Cache, key: Key, now: nat, p: nat)
    requires Inv(c) && p < |c.entries|
    ensures var (c', r) := Insert(c, key, now);
            && |c'.entries| == |c.entries|
            && (Occ(c'.entries[p]) ==>
                  || (r == Some(c'.entries[p].slot) && c'.entries[p].lastAccess == now)
                  || (c'.entries[p] == c.entries[p] && r != Some(c.entries[p].slot)))
  {
    InsertOutcome(c, key, now);
    EvictionKeepsInv(c);
    var c1 := AfterEviction(c);
    assert Occ(c1.entries[p]) ==> c1.entries[p].slot in c1.used && c1.entries[p] == c.entries[p];
  }

  /** One call seen from one cell: if it holds `e'` afterwards, that was touched and stamped by
      the call, or is what it held before. */
  predicate CellStep(e: Entry, e': Entry, touched: Option<nat>, now: nat) {
    Occ(e') ==> if touched == Some(e'.slot) then e'.lastAccess == now else e' == e
  }

  /** A cell that starts empty and changes by such steps carries the time of the last touch. */
  lemma {:induction false} StampFollowsTouches(es: seq<Entry>, ts: seq<Option<nat>>, times: seq<nat>, i: nat)
    requires i <= |ts| == |times| && |es| == |ts| + 1 && !Occ(es[0]) && Occ(es[i])
    requires forall l | 0 <= l < |ts| :: CellStep(es[l], es[l + 1], ts[l], times[l])
    ensures var j := LastIn(ts, i, es[i].slot);
            j >= 0 && es[i].lastAccess == times[j]
  {
    if i > 0 {
      assert CellStep(es[i - 1], es[i], ts[i - 1], times[i - 1]);
      if ts[i - 1] != Some(es[i].slot) {
        StampFollowsTouches(es, ts, times, i - 1);
      }
    }
  }

  lemma {:induction false} SameSizeInRun(run: seq<Cache>, ops: seq<Op>, times: seq<nat>, i: nat)
    requires IsRun(run, ops, times) && i <= |ops|
    ensures |run[i].entries| == |run[0].entries|
  {
    if i > 0 {
      SameSizeInRun(run, ops, times, i - 1);
      assert CallAt(run, ops, times, i - 1);
      SameCells(run[i - 1], ops[i - 1], times[i - 1]);
    }
  }

  /** What a cell holds before each call and at the end. */
  ghost function CellHistory(run: seq<Cache>, ops: seq<Op>, times: seq<nat>, p: nat): (es: seq<Entry>)
    requires IsRun(run, ops, times) && p < |run[0].entries|
    ensures |es| == |ops| + 1
    ensures forall l | 0 <= l <= |ops| :: p < |run[l].entries| && es[l] == run[l].entries[p]
  {
    assert forall l | 0 <= l <= |ops| :: p < |run[l].entries| by {
      forall l | 0 <= l <= |ops| ensures p < |run[l].entries| {
        SameSizeInRun(run, ops, times, l);
      }
    }
    seq(|ops| + 1, l requires 0 <= l <= |ops| => run[l].entries[p])
  }

  /** Every occupied cell carries the time of its slot's last touch. */
  lemma {:induction false} StampedWithLastTouch(run: seq<Cache>, ops: seq<Op>, times: seq<nat>, i: nat, p: nat)
    requires IsRun(run, ops, times) && i <= |ops| && p < |run[i].entries| && Occ(run[i].entries[p])
    ensures var j := LastTouch(run, ops, times, i, run[i].entries[p].slot);
            j >= 0 && run[i].entries[p].lastAccess == times[j]
  {
    SameSizeInRun(run, ops, times, i);
    var es, ts := CellHistory(run, ops, times, p), Touches(run, ops, times);
    forall l | 0 <= l < |ts| ensures CellStep(es[l], es[l + 1], ts[l], times[l]) {
      if Occ(es[l + 1]) {
        CellInRun(run, ops, times, l, p);
      }
    }
    StampFollowsTouches(es, ts, times, i);
  }

  lemma {:induction false} CellInRun(run: seq<Cache>, ops: seq<Op>, times: seq<nat>, i: nat, p: nat)
    requires IsRun(run, ops, times) && i < |ops| && p < |run[i + 1].entries| && Occ(run[i + 1].entries[p])
    ensures var e, touched := run[i + 1].entries[p], Touched(run[i], ops[i], times[i]);
            && p < |run[i].entries|
            && (if touched == Some(e.slot) then e.lastAccess == times[i] else e == run[i].entries[p])
  {
    RunKeepsInv(run, ops, times, i);
    assert CallAt(run, ops, times, i);
    SameCells(run[i], ops[i], times[i]);
    CellAfterCall(run[i], ops[i], times[i], p);
  }

  lemma {:induction false} SameCells(c: Cache, op: Op, now: nat)
    requires WellSized(c)
    ensures |Apply(c, op, now).entries| == |c.entries|
  {
  }

  lemma {:induction false} VictimInRun(run: seq<Cache>, ops: seq<Op>, times: seq<nat>, i: nat, p: nat)
    requires IsRun(run, ops, times) && i < |ops| && Crowded(run[i].occupied, Capacity(run[i]))
    requires p < |run[i].entries| && Occ(run[i].entries[p]) && p != Lru(run[i].entries, |run[i].entries|).0
    ensures var es := run[i].entries;
            var v := Lru(es, |es|).0;
            && v < |es| && Occ(es[v]) && es[v].slot != es[p].slot
            && es[v].lastAccess <= es[p].lastAccess
  {
    RunKeepsInv(run, ops, times, i);
    VictimIsOccupied(run[i]);
  }

  ghost predicate Increasing(times: seq<nat>) {
    forall j, l | 0 <= j < l < |times| :: times[j] < times[l]
  }

  lemma {:induction false} EarlierOrSame(times: seq<nat>, j: nat, l: nat)
    requires Increasing(times) && j < |times| && l < |times| && times[j] <= times[l]
    ensures j <= l
  {
  }

  lemma {:induction false} TouchesDiffer(run: seq<Cache>, ops: seq<Op>, times: seq<nat>, i: nat, s: nat, t: nat)
    requires IsRun(run, ops, times) && i <= |ops| && s != t
    ensures LastTouch(run, ops, times, i, s) >= 0 ==>
              LastTouch(run, ops, times, i, s) != LastTouch(run, ops, times, i, t)
  {
    var ts := Touches(run, ops, times);
    assert LastIn(ts, i, s) >= 0 ==> ts[LastIn(ts, i, s)] == Some(s);
  }

  /** Of two occupied cells, the one with the older stamp was touched earlier. */
  lemma {:induction false} OlderTouch(run: seq<Cache>, ops: seq<Op>, times: seq<nat>, i: nat, v: nat, p: nat)
    requires IsRun(run, ops, times) && i <= |ops| && Increasing(times) && v < |run[i].entries| && p < |run[i].entries|
    requires Occ(run[i].entries[v]) && Occ(run[i].entries[p]) && run[i].entries[v].slot != run[i].entries[p].slot
    requires run[i].entries[v].lastAccess <= run[i].entries[p].lastAccess
    ensures LastTouch(run, ops, times, i, run[i].entries[v].slot) <
            LastTouch(run, ops, times, i, run[i].entries[p].slot)
  {
    var s, t := run[i].entries[v].slot, run[i].entries[p].slot;
    StampedWithLastTouch(run, ops, times, i, v);
    StampedWithLastTouch(run, ops, times, i, p);
    EarlierOrSame(times, LastTouch(run, ops, times, i, s), LastTouch(run, ops, times, i, t));
    TouchesDiffer(run, ops, times, i, s, t);
  }

  /** With a strictly increasing clock, the block an insert evicts is the one whose latest
      insert-or-hit in the whole run is oldest. */
  lemma {:induction false} EvictsLeastRecentlyUsed(run: seq<Cache>, ops: seq<Op>, times: seq<nat>, i: nat, p: nat)
    requires IsRun(run, ops, times) && i < |ops|
    requires Increasing(times)
    requires ops[i].DoInsert? && Crowded(run[i].occupied, Capacity(run[i]))
    requires p < |run[i].entries| && Occ(run[i].entries[p]) && p != Lru(run[i].entries, |run[i].entries|).0
    ensures var es := run[i].entries;
            var v := Lru(es, |es|).0;
            && v < |es| && Occ(es[v])
            && LastTouch(run, ops, times, i, es[v].slot) < LastTouch(run, ops, times, i, es[p].slot)
  {
    VictimInRun(run, ops, times, i, p);
    OlderTouch(run, ops, times, i, Lru(run[i].entries, |run[i].entries|).0, p);
  }
}
