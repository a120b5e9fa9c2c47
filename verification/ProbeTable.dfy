/** Open addressing with linear probing: what a probe finds, and what inserting into and
    clearing a cell does to it. */
module ProbeTable {
  import opened Bits
  import opened RingIndex
  import opened Common

  /** A SHA-256 digest. */
  type Key = k: seq<Byte> | |k| == 32 witness seq(32, i => 0)

  const EMPTY_SLOT: nat := 0xFFFF_FFFF

  datatype Entry = Entry(hash: Key, slot: nat, lastAccess: nat, flags: nat)

  predicate Occ(e: Entry) { e.slot != EMPTY_SLOT }

  function LittleEndian(bytes: seq<Byte>): nat {
    if bytes == [] then 0 else bytes[0] as nat + 256 * LittleEndian(bytes[1..])
  }

  /** hash_to_bucket: the first four bytes, little-endian, masked; for capacity `2^k`. */
  function Bucket(key: Key, k: nat): (r: nat)
    requires k <= 32
    ensures r == LittleEndian(key[..4]) % Pow2(k)
    ensures r < Pow2(k)
  {
    Slot(LittleEndian(key[..4]), k)
  }

  lemma {:induction false} FirstFour(key: Key)
    ensures LittleEndian(key[..4]) ==
            key[0] as nat + 256 * key[1] as nat + 65536 * key[2] as nat + 16777216 * key[3] as nat
  {
    var s := key[..4];
    assert s[1..][1..][1..][1..] == [];
    assert LittleEndian(s[1..][1..][1..]) == key[3] as nat;
    assert LittleEndian(s[1..][1..]) == key[2] as nat + 256 * key[3] as nat;
  }

  /** The bucket from the first four bytes, lowest first. */
  lemma {:induction false} BucketOfBytes(key: Key, k: nat)
    requires k <= 32
    ensures Bucket(key, k) ==
            (key[0] as nat + 256 * key[1] as nat + 65536 * key[2] as nat + 16777216 * key[3] as nat) % Pow2(k)
  {
    FirstFour(key);
  }

  /** The index of the cell `j` steps along the probe path from bucket `b`. */
  function Pos(b: nat, j: nat, n: nat): nat
    requires n > 0
  {
    (b + j) % n
  }

  /** The cell `j` steps along the probe path from bucket `b`. */
  function Cell(es: seq<Entry>, b: nat, j: nat): Entry
    requires |es| > 0
  {
    es[Pos(b, j, |es|)]
  }

  predicate Match(es: seq<Entry>, b: nat, key: Key, j: nat)
    requires |es| > 0
  {
    Occ(Cell(es, b, j)) && Cell(es, b, j).hash == key
  }

  /** The first cell holding `key` on the path from step `i` on is at step `d`, and no
      cell in between is empty. */
  ghost predicate HitFrom(es: seq<Entry>, b: nat, key: Key, i: nat, d: nat)
    requires |es| > 0
  {
    && i <= d < |es|
    && Match(es, b, key, d)
    && forall j | i <= j < d :: Occ(Cell(es, b, j)) && Cell(es, b, j).hash != key
  }

  /** The probe loop of lookup and evict: stops at an empty cell, at the key, or after a
      whole lap. It succeeds exactly when some copy of the key has an unbroken path, and
      returns the nearest one. */
  function Probe(es: seq<Entry>, b: nat, key: Key, i: nat): (r: Option<nat>)
    requires |es| > 0 && i <= |es|
    ensures r.Some? ==> HitFrom(es, b, key, i, r.value)
    ensures forall d: nat | HitFrom(es, b, key, i, d) :: r == Some(d)
    decreases |es| - i
  {
    if i == |es| then None
    else if !Occ(Cell(es, b, i)) then None
    else if Cell(es, b, i).hash == key then Some(i)
    else Probe(es, b, key, i + 1)
  }

  /** The insertion loop: the first empty cell on the path. */
  function FirstEmpty(es: seq<Entry>, b: nat, i: nat): (r: Option<nat>)
    requires |es| > 0 && i <= |es|
    ensures r.Some? ==> && i <= r.value < |es| && !Occ(Cell(es, b, r.value))
                        && forall j | i <= j < r.value :: Occ(Cell(es, b, j))
    ensures r.None? ==> forall j | i <= j < |es| :: Occ(Cell(es, b, j))
    decreases |es| - i
  {
    if i == |es| then None
    else if !Occ(Cell(es, b, i)) then Some(i)
    else FirstEmpty(es, b, i + 1)
  }

  lemma {:induction false} FirstEmptyIs(es: seq<Entry>, b: nat, i: nat, d: nat)
    requires i <= d < |es| && !Occ(Cell(es, b, d))
    requires forall j | i <= j < d :: Occ(Cell(es, b, j))
    ensures FirstEmpty(es, b, i) == Some(d)
    decreases d - i
  {
    if i < d {
      FirstEmptyIs(es, b, i + 1, d);
    }
  }

  /** How many steps from bucket `b` to cell `p`. */
  function Dist(b: nat, p: nat, n: nat): (d: nat)
    requires p < n
    ensures d < n && Pos(b, d, n) == p
  {
    MaskedSum(p - b, b, n);
    ModUnique(p, n, 0, p);
    (p - b) % n
  }

  lemma {:induction false} DistUnique(b: nat, p: nat, n: nat, d: nat)
    requires p < n && d < n && Pos(b, d, n) == p
    ensures d == Dist(b, p, n)
  {
    var e := Dist(b, p, n);
    if d <= e {
      SameSlot(b + e, b + d, n);
    } else {
      SameSlot(b + d, b + e, n);
    }
  }

  // ---- Runs without eviction: no holes --------------------------------------

  /** Every occupied cell can be reached from its own bucket without crossing an empty
      one. */
  ghost predicate NoHoles(es: seq<Entry>, k: nat)
    requires k <= 32 && |es| == Pow2(k)
  {
    forall p, j | 0 <= p < |es| && Occ(es[p]) && 0 <= j < Dist(Bucket(es[p].hash, k), p, |es|) ::
      Occ(Cell(es, Bucket(es[p].hash, k), j))
  }

  /** Some occupied cell holds `key`. */
  ghost predicate Resident(es: seq<Entry>, key: Key) {
    exists p :: 0 <= p < |es| && Occ(es[p]) && es[p].hash == key
  }

  /** A copy of the key with an occupied path up to it makes the probe succeed. */
  lemma {:induction false} ProbeReaches(es: seq<Entry>, b: nat, key: Key, i: nat, d: nat)
    requires |es| > 0 && i <= d < |es| && Match(es, b, key, d)
    requires forall j | i <= j < d :: Occ(Cell(es, b, j))
    ensures Probe(es, b, key, i).Some?
    decreases d - i
  {
    if i < d && Cell(es, b, i).hash != key {
      ProbeReaches(es, b, key, i + 1, d);
    }
  }

  /** Without holes, a probe finds exactly the resident keys. */
  lemma {:induction false} FoundIffResident(es: seq<Entry>, k: nat, key: Key)
    requires k <= 32 && |es| == Pow2(k) && NoHoles(es, k)
    ensures Probe(es, Bucket(key, k), key, 0).Some? <==> Resident(es, key)
  {
    var b := Bucket(key, k);
    if p :| 0 <= p < |es| && Occ(es[p]) && es[p].hash == key {
      ProbeReaches(es, b, key, 0, Dist(b, p, |es|));
    }
  }

  /** Filling the first empty cell of the key's own path leaves no hole. */
  lemma {:induction false} FillKeepsNoHoles(es: seq<Entry>, k: nat, d: nat, e: Entry)
    requires k <= 32 && |es| == Pow2(k) && NoHoles(es, k) && Occ(e)
    requires FirstEmpty(es, Bucket(e.hash, k), 0) == Some(d)
    ensures NoHoles(es[Pos(Bucket(e.hash, k), d, |es|) := e], k)
  {
    var b := Bucket(e.hash, k);
    var q := Pos(b, d, |es|);
    var es' := es[q := e];
    forall p, j | 0 <= p < |es'| && Occ(es'[p]) && 0 <= j < Dist(Bucket(es'[p].hash, k), p, |es'|)
      ensures Occ(Cell(es', Bucket(es'[p].hash, k), j))
    {
      if p == q {
        DistUnique(b, q, |es|, d);
        assert Occ(Cell(es, b, j));
      } else {
        assert Occ(Cell(es, Bucket(es[p].hash, k), j));
      }
    }
  }

  /** A key that was found stays where it was found when an empty cell is filled. */
  lemma {:induction false} FillKeepsFound(es: seq<Entry>, b: nat, key: Key, q: nat, e: Entry)
    requires |es| > 0 && q < |es| && !Occ(es[q])
    requires Probe(es, b, key, 0).Some?
    ensures Probe(es[q := e], b, key, 0) == Probe(es, b, key, 0)
    ensures Cell(es[q := e], b, Probe(es, b, key, 0).value) == Cell(es, b, Probe(es, b, key, 0).value)
  {
    var d := Probe(es, b, key, 0).value;
    var es' := es[q := e];
    forall j: nat | j <= d ensures Cell(es', b, j) == Cell(es, b, j) {
      assert Occ(Cell(es, b, j));
    }
    assert HitFrom(es', b, key, 0, d);
  }

  // ---- Filling a cell in any table ------------------------------------------

  /** A probe passes over occupied cells with other keys. */
  lemma {:induction false} ProbeSkips(es: seq<Entry>, b: nat, key: Key, i: nat, d: nat)
    requires |es| > 0 && i <= d <= |es|
    requires forall j | i <= j < d :: Occ(Cell(es, b, j)) && Cell(es, b, j).hash != key
    ensures Probe(es, b, key, i) == Probe(es, b, key, d)
    decreases d - i
  {
    if i < d {
      ProbeSkips(es, b, key, i + 1, d);
    }
  }

  /** A probe depends only on the cells it may still visit. */
  lemma {:induction false} ProbeLooksAhead(es: seq<Entry>, es': seq<Entry>, b: nat, key: Key, i: nat)
    requires 0 < |es| == |es'| && i <= |es|
    requires forall j | i <= j < |es| :: Cell(es', b, j) == Cell(es, b, j)
    ensures Probe(es', b, key, i) == Probe(es, b, key, i)
    decreases |es| - i
  {
    if i < |es| {
      ProbeLooksAhead(es, es', b, key, i + 1);
    }
  }

  /** Where a probe ends after empty cell `q` is filled with `e`, in terms of the table before:
      what was found stays; otherwise the new cell matters only if it was the first gap of the
      path. Then it is the answer for its own key, and for another key the probe goes on behind
      it, where it may find a copy that was out of reach. */
  function ProbeAfterFill(es: seq<Entry>, b: nat, key: Key, q: nat, e: Entry): Option<nat>
    requires q < |es|
  {
    var before := Probe(es, b, key, 0);
    var d := Dist(b, q, |es|);
    if before.Some? then before
    else if FirstEmpty(es, b, 0) != Some(d) then None
    else if e.hash == key then Some(d)
    else Probe(es, b, key, d + 1)
  }

  lemma {:induction false} FilledCells(es: seq<Entry>, b: nat, q: nat, e: Entry, j: nat)
    requires q < |es| && j < |es|
    ensures Cell(es[q := e], b, j) == if j == Dist(b, q, |es|) then e else Cell(es, b, j)
  {
    if Pos(b, j, |es|) == q {
      DistUnique(b, q, |es|, j);
    }
  }

  lemma {:induction false} FillBehindGap(es: seq<Entry>, b: nat, key: Key, q: nat, e: Entry)
    requires q < |es| && !Occ(es[q]) && Occ(e)
    requires Probe(es, b, key, 0).None? && FirstEmpty(es, b, 0) != Some(Dist(b, q, |es|))
    ensures Probe(es[q := e], b, key, 0) == None
  {
    var es', f := es[q := e], FirstEmpty(es, b, 0).value;
    forall j: nat | j <= f ensures Cell(es', b, j) == Cell(es, b, j) {
      FilledCells(es, b, q, e, j);
    }
    if Probe(es', b, key, 0).Some? {
      assert HitFrom(es, b, key, 0, Probe(es', b, key, 0).value);
    }
  }

  lemma {:induction false} FillClosesGap(es: seq<Entry>, b: nat, key: Key, q: nat, e: Entry)
    requires q < |es| && !Occ(es[q]) && Occ(e)
    requires Probe(es, b, key, 0).None? && FirstEmpty(es, b, 0) == Some(Dist(b, q, |es|))
    ensures Probe(es[q := e], b, key, 0) == if e.hash == key then Some(Dist(b, q, |es|))
                                            else Probe(es, b, key, Dist(b, q, |es|) + 1)
  {
    var es', d := es[q := e], Dist(b, q, |es|);
    forall j: nat | j < |es| ensures Cell(es', b, j) == if j == d then e else Cell(es, b, j) {
      FilledCells(es, b, q, e, j);
    }
    forall j: nat | j < d ensures Cell(es, b, j).hash != key {
      if Cell(es, b, j).hash == key {
        ProbeReaches(es, b, key, 0, j);
      }
    }
    ProbeSkips(es', b, key, 0, d);
    ProbeLooksAhead(es, es', b, key, d + 1);
  }

  lemma {:induction false} FillAnswers(es: seq<Entry>, b: nat, key: Key, q: nat, e: Entry)
    requires q < |es| && !Occ(es[q]) && Occ(e)
    ensures Probe(es[q := e], b, key, 0) == ProbeAfterFill(es, b, key, q, e)
  {
    if Probe(es, b, key, 0).Some? {
      FillKeepsFound(es, b, key, q, e);
    } else if FirstEmpty(es, b, 0) != Some(Dist(b, q, |es|)) {
      FillBehindGap(es, b, key, q, e);
    } else {
      FillClosesGap(es, b, key, q, e);
    }
  }

  // ---- Clearing a cell ------------------------------------------------------

  /** The path to the probe's answer crosses cell `c`. */
  predicate PathCrosses(es: seq<Entry>, b: nat, d: nat, c: nat)
    requires c < |es|
  {
    Dist(b, c, |es|) <= d
  }

  function Cleared(es: seq<Entry>, c: nat): seq<Entry>
    requires c < |es|
  {
    es[c := es[c].(slot := EMPTY_SLOT)]
  }

  /** Clearing a cell in place loses exactly the keys whose probe path crosses it; every
      other key is found at the same cell as before, and nothing new is found. */
  lemma {:induction false} ClearLosesCrossingKeys(es: seq<Entry>, b: nat, key: Key, c: nat)
    requires |es| > 0 && c < |es|
    ensures var before := Probe(es, b, key, 0);
            Probe(Cleared(es, c), b, key, 0) ==
            if before.Some? && !PathCrosses(es, b, before.value, c) then before else None
  {
    var es' := Cleared(es, c);
    var dc := Dist(b, c, |es|);
    forall j: nat | j < |es| && j != dc ensures Cell(es', b, j) == Cell(es, b, j) {
      if Pos(b, j, |es|) == c { DistUnique(b, c, |es|, j); }
    }
    assert !Occ(Cell(es', b, dc));
    var before, after := Probe(es, b, key, 0), Probe(es', b, key, 0);
    if after.Some? {
      assert after.value < dc;
      assert HitFrom(es, b, key, 0, after.value);
    } else if before.Some? && before.value < dc {
      assert HitFrom(es', b, key, 0, before.value);
    }
  }
}
