/** The cache index as it runs: an entry array updated in place, over an arena object. */
module CacheIndex {
  import opened Bits
  import opened RingIndex
  import opened ArenaAlloc
  import opened Common
  import opened ProbeTable
  import CacheSpec

  class Index {
    const k: nat                  // capacity == 2^k
    const entries: array<Entry>
    const arena: Arena
    var occupied: int
    var stats: CacheSpec.Stats

    ghost function State(): CacheSpec.Cache
      reads this, entries, arena, arena.bitmap
    {
      CacheSpec.Cache(k, entries[..], occupied, arena.Allocated(), arena.totalSlots, stats)
    }

    /** The ownership invariant holds and the arena's counters are right. */
    ghost predicate Valid()
      reads this, entries, arena, arena.bitmap
    {
      arena.Valid() && arena.Balanced() && CacheSpec.Inv(State())
    }

    /** kllm_index_create, for a power-of-two capacity and an arena nobody else uses */
    constructor (k: nat, arena: Arena)
      requires k <= 31 && arena.Valid() && arena.Balanced() && arena.Allocated() == {}
      requires arena.totalSlots <= 0xFFFF_FFFF
      ensures Valid() && CacheSpec.EmptyCache(State())
      ensures this.k == k && this.arena == arena && fresh(entries)
    {
      this.k := k;
      this.arena := arena;
      entries := new Entry[Pow2(k)](_ => Entry(seq(32, _ => 0), EMPTY_SLOT, 0, 0));
      occupied := 0;
      stats := CacheSpec.Stats(0, 0, 0, 0);
      new;
      CacheSpec.EmptyCacheInv(State());
    }

    /** The probe loop shared by lookup and evict. */
    method Find(key: Key) returns (r: Option<nat>)
      requires CacheSpec.WellSized(State())
      ensures r == CacheSpec.FoundAt(State(), key)
    {
      var b := Bucket(key, k);
      var i := 0;
      while i < entries.Length
        invariant 0 <= i <= entries.Length
        invariant Probe(entries[..], b, key, 0) == Probe(entries[..], b, key, i)
      {
        var pos := Slot(b + i, k);
        assert entries[pos] == Cell(entries[..], b, i);
        if entries[pos].slot == EMPTY_SLOT {
          return None;
        }
        if entries[pos].hash == key {
          return Some(pos);
        }
        i := i + 1;
      }
      return None;
    }

    /** A hit stamps the cell. */
    method Touch(p: nat, now: nat)
      requires p < entries.Length
      modifies this`stats, entries
      ensures State() == old(State()).(entries := old(entries[..])[p := old(entries[p]).(lastAccess := now)],
                                       stats := old(stats).(hits := old(stats).hits + 1))
    {
      entries[p] := entries[p].(lastAccess := now);
      stats := stats.(hits := stats.hits + 1);
    }

    /** The body of kllm_index_lookup, for entries that own slots of the arena. */
    method ProbeAndTouch(key: Key, now: nat) returns (block: Option<nat>)
      requires CacheSpec.WellSized(State()) && CacheSpec.HitsLive(State())
      modifies this`stats, entries
      ensures var (c', r) := CacheSpec.Lookup(old(State()), key, now);
              State() == c' && block == if r.Some? then Some(arena.Address(r.value)) else None
    {
      var p := Find(key);
      if p.None? {
        stats := stats.(misses := stats.misses + 1);
        block := None;
      } else {
        block := arena.SlotPtr(entries[p.value].slot);
        Touch(p.value, now);
      }
    }

    /** kllm_index_lookup */
    method Lookup(key: Key, now: nat) returns (block: Option<nat>)
      requires Valid() && now < 0xFFFF_FFFF_FFFF_FFFF
      modifies this`stats, entries
      ensures Valid()
      ensures var (c', r) := CacheSpec.Lookup(old(State()), key, now);
              State() == c' && block == if r.Some? then Some(arena.Address(r.value)) else None
    {
      CacheSpec.LookupKeepsInv(State(), key, now);
      CacheSpec.InvHitsLive(State());
      block := ProbeAndTouch(key, now);
    }

    /** find_lru_entry */
    method FindLru() returns (victim: nat)
      ensures victim == CacheSpec.Lru(entries[..], entries.Length).0
    {
      var oldest := CacheSpec.CLOCK_MAX;
      victim := 0;
      var i := 0;
      while i < entries.Length
        invariant 0 <= i <= entries.Length
        invariant (victim, oldest) == CacheSpec.Lru(entries[..], i)
      {
        if entries[i].slot != EMPTY_SLOT && entries[i].lastAccess < oldest {
          oldest := entries[i].lastAccess;
          victim := i;
        }
        i := i + 1;
      }
    }

    /** Frees the block of an occupied cell and marks the cell empty. */
    method Clear(p: nat)
      requires arena.Valid() && arena.Balanced() && p < entries.Length
      requires entries[p].slot in arena.Allocated()
      modifies this`occupied, this`stats, entries, arena, arena.bitmap
      ensures arena.Valid() && arena.Balanced() && State() == CacheSpec.ClearCell(old(State()), p)
    {
      var e := entries[p];
      var block := arena.SlotPtr(e.slot);
      SlotOfAddress(arena.slotSize, e.slot);
      arena.Release(block.value, e.slot);
      entries[p] := e.(slot := EMPTY_SLOT);
      occupied := occupied - 1;
      stats := stats.(evictions := stats.evictions + 1);
    }

    /** kllm_index_evict */
    method Evict(key: Key) returns (found: bool)
      requires Valid()
      modifies this`occupied, this`stats, entries, arena, arena.bitmap
      ensures Valid()
      ensures (State(), found) == CacheSpec.Evict(old(State()), key)
    {
      CacheSpec.EvictKeepsInv(State(), key);
      var p := Find(key);
      if p.None? {
        return false;
      }
      Clear(p.value);
      return true;
    }

    /** The insertion loop: the first empty cell from the key's bucket on. */
    method FindEmpty(b: nat) returns (r: Option<nat>)
      requires CacheSpec.WellSized(State())
      ensures var d := FirstEmpty(entries[..], b, 0);
              r == if d.None? then None else Some(Pos(b, d.value, entries.Length))
    {
      var i := 0;
      while i < entries.Length
        invariant 0 <= i <= entries.Length
        invariant FirstEmpty(entries[..], b, 0) == FirstEmpty(entries[..], b, i)
      {
        var pos := Slot(b + i, k);
        assert entries[pos] == Cell(entries[..], b, i);
        if entries[pos].slot == EMPTY_SLOT {
          return Some(pos);
        }
        i := i + 1;
      }
      return None;
    }

    /** The first part of kllm_index_insert: evict when the load factor is reached. */
    method MakeRoom()
      requires Valid()
      modifies this`occupied, this`stats, entries, arena, arena.bitmap
      ensures Valid() && State() == CacheSpec.AfterEviction(old(State()))
    {
      if 20 * occupied >= 17 * entries.Length {
        CacheSpec.VictimIsOccupied(State());
        CacheSpec.EvictionKeepsInv(State());
        var victim := FindLru();
        Clear(victim);
      }
    }

    /** The rest: allocate a block and store it in the first empty cell. */
    method Store(key: Key, now: nat) returns (block: Option<nat>)
      requires arena.Valid() && arena.Balanced() && CacheSpec.WellSized(State())
      requires FirstEmpty(entries[..], Bucket(key, k), 0).Some?
      modifies this`occupied, this`stats, entries, arena, arena.bitmap
      ensures arena.Valid() && arena.Balanced()
      ensures var (c', r) := CacheSpec.Store(old(State()), key, now);
              State() == c' && block == if r.Some? then Some(arena.Address(r.value)) else None
    {
      ghost var s := FirstFree(arena.Allocated(), arena.totalSlots, 0);
      block := arena.Alloc();
      if block.None? {
        return;
      }
      var slot := arena.SlotIndex(block.value, s.value);
      var pos := FindEmpty(Bucket(key, k));
      if pos.None? {
        assert false;  // excluded by the load bound, see RoomOnEveryPath
      }
      entries[pos.value] := Entry(key, slot, now, 0);
      occupied := occupied + 1;
      stats := stats.(insertions := stats.insertions + 1);
    }

    /** kllm_index_insert */
    method Insert(key: Key, now: nat) returns (block: Option<nat>)
      requires Valid() && now < 0xFFFF_FFFF_FFFF_FFFF
      modifies this`occupied, this`stats, entries, arena, arena.bitmap
      ensures Valid()
      ensures var (c', r) := CacheSpec.Insert(old(State()), key, now);
              State() == c' && block == if r.Some? then Some(arena.Address(r.value)) else None
    {
      CacheSpec.InsertKeepsInv(State(), key, now);
      CacheSpec.InsertOutcome(State(), key, now);
      MakeRoom();
      block := Store(key, now);
    }

    /** kllm_index_get_stats and kllm_arena_get_stats agree in every reachable state. */
    method Occupancy() returns (cells: int, slots: int)
      requires Valid()
      ensures cells == occupied == slots == arena.usedSlots
    {
      CacheSpec.OwnsCount(entries[..], arena.Allocated());
      cells, slots := occupied, arena.usedSlots;
    }
  }

  /** kllm_index_create for a positive capacity: refuses one that is not a power of two. `memOk`
      says whether its allocations succeed. */
  method Create(capacity: nat, arena: Arena, memOk: bool) returns (idx: Index?)
    requires 0 < capacity < TWO_32
    requires arena.Valid() && arena.Balanced() && arena.Allocated() == {} && arena.totalSlots <= 0xFFFF_FFFF
    ensures idx == null <==> !IsPowerOfTwo(capacity) || !memOk
    ensures idx != null ==> && fresh(idx) && idx.Valid() && CacheSpec.EmptyCache(idx.State())
                            && idx.arena == arena && idx.entries.Length == capacity
  {
    PowerOfTwoTest(capacity);
    if And(capacity, capacity - 1) != 0 {
      return null;
    }
    if !memOk {
      return null;
    }
    Pow2Of32();
    Pow2Reflects(Log2(capacity), 32);
    idx := new Index(Log2(capacity), arena);
  }
}
