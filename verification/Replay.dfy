/** Replay of accepted records into slots, in batches.

  A batch writes only the last version of each unit, then the discard bits, and
  makes both durable. `Applied` is what a batch establishes: every unit with a
  replayed record reads, after any crash, as if the records had been applied
  one by one.
 */
module Replay {
  import opened Records
  import opened Slots

  const BATCH_BYTES: nat := 0x10_0000

  function VersionOf(r: Record): Version {
    Version(r.sequence, r.payload)
  }

  function UnitsOf(batch: seq<Record>): set<nat> {
    set r | r in batch :: r.unit
  }

  function BytesOf(batch: seq<Record>): nat {
    if batch == [] then 0 else BytesOf(batch[..|batch| - 1]) + 32 + |batch[|batch| - 1].payload|
  }

  lemma BytesGrow(batch: seq<Record>, r: Record)
    ensures BytesOf(batch + [r]) == BytesOf(batch) + 32 + |r.payload|
  {
    assert (batch + [r])[..|batch|] == batch;
  }

  /** The last sequence of each unit in the batch: later records win. */
  function LatestSequences(batch: seq<Record>): (m: map<nat, nat>)
    ensures m.Keys == UnitsOf(batch)
  {
    if batch == [] then map[]
    else
      var r := batch[|batch| - 1];
      assert forall s :: s in batch <==> s in batch[..|batch| - 1] || s == r;
      LatestSequences(batch[..|batch| - 1])[r.unit := r.sequence]
  }

  /** The batch is records `k + 1 .. k + |batch|` of the history. */
  ghost predicate IsBatch(log: seq<Record>, k: nat, batch: seq<Record>) {
    && Numbered(log)
    && k + |batch| <= |log|
    && forall i :: 0 <= i < |batch| ==> batch[i] == log[k + i]
  }

  lemma BatchGrows(log: seq<Record>, ck: nat, replay: seq<Record>, i: nat, batch: seq<Record>)
    requires IsBatch(log, ck, replay) && i < |replay| && |batch| <= i
    requires IsBatch(log, ck + i - |batch|, batch)
    ensures IsBatch(log, ck + i - |batch|, batch + [replay[i]])
    ensures BytesOf([]) == 0
  {
  }

  lemma BatchEnds(log: seq<Record>, ck: nat, replay: seq<Record>)
    requires IsBatch(log, ck, replay)
    ensures forall k: nat :: k <= |log| ==> IsBatch(log, k, [])
    ensures BytesOf([]) == 0 && ck + |replay| <= |log|
  {
  }

  lemma {:induction false} LatestIsNewest(log: seq<Record>, k: nat, batch: seq<Record>, u: nat)
    requires IsBatch(log, k, batch)
    ensures u in UnitsOf(batch) ==> LatestSequences(batch)[u] == Newest(log, k + |batch|, u) > k
    ensures u !in UnitsOf(batch) ==> Newest(log, k + |batch|, u) == Newest(log, k, u)
  {
    hide Newest, LatestSequences, UnitsOf;
    if batch == [] {
      NoUnits();
    } else {
      var rest := batch[..|batch| - 1];
      var r := batch[|batch| - 1];
      LatestIsNewest(log, k, rest, u);
      assert r == log[k + |rest|];
      assert rest + [r] == batch;
      UnitsGrow(rest, r);
      LatestGrows(rest, r);
      NewestStep(log, k + |rest|, u);
    }
  }

  lemma NoUnits()
    ensures UnitsOf([]) == {}
  {
  }

  lemma NewestStep(log: seq<Record>, m: nat, u: nat)
    requires m < |log|
    ensures Newest(log, m + 1, u) == if log[m].unit == u then m + 1 else Newest(log, m, u)
  {
  }

  lemma LatestGrows(batch: seq<Record>, r: Record)
    ensures LatestSequences(batch + [r]) == LatestSequences(batch)[r.unit := r.sequence]
  {
    assert (batch + [r])[..|batch|] == batch;
  }

  lemma UnitsGrow(batch: seq<Record>, r: Record)
    ensures UnitsOf(batch + [r]) == UnitsOf(batch) + {r.unit}
  {
    assert forall s :: s in batch + [r] <==> s in batch || s == r;
  }

  /** Whether record `i` of the batch is written to its slot. */
  predicate Writes(batch: seq<Record>, i: nat, discard: bool)
    requires i < |batch|
  {
    && batch[i].unit in LatestSequences(batch)
    && LatestSequences(batch)[batch[i].unit] == batch[i].sequence
    && !(discard && batch[i].payload == [])
  }

  /** A written record is the item the replay horizon asks for. */
  lemma WritesItem(log: seq<Record>, k: nat, batch: seq<Record>, i: nat, discard: bool)
    requires IsBatch(log, k, batch) && i < |batch| && Writes(batch, i, discard)
    ensures IsItem(log, k + |batch|, batch[i].unit, VersionOf(batch[i]))
    ensures batch[i].unit in UnitsOf(batch) && Newest(log, k + |batch|, batch[i].unit) == k + i + 1
  {
    assert batch[i] in batch;
    LatestIsNewest(log, k, batch, batch[i].unit);
    assert batch[i].sequence == k + i + 1;
  }

  /** Units with a record above the checkpoint are settled at their newest one. */
  ghost predicate Applied(st: Store, log: seq<Record>, ck: nat, k: nat, discard: bool)
    requires k <= |log|
  {
    forall u :: Newest(log, k, u) > ck ==> ItemCertain(st, u, VersionOfNewest(log, k, u), discard)
  }

  ghost function VersionOfNewest(log: seq<Record>, k: nat, u: nat): Version
    requires k <= |log|
  {
    var n := Newest(log, k, u);
    if n == 0 then Version(0, []) else Version(n, log[n - 1].payload)
  }

  /** Slots written so far hold their version in the cache, dirty unless certain. */
  ghost predicate Staged(st: Store, batch: seq<Record>, j: nat, discard: bool)
    requires j <= |batch|
  {
    forall i :: 0 <= i < j && Writes(batch, i, discard) ==> StagedSlot(At(st, batch[i].unit), VersionOf(batch[i]))
  }

  predicate StagedSlot(s: Slot, v: Version) {
    s.cache == Full(v) && (s.dirty || s.poss == {Full(v)})
  }

  /** Units outside the batch show what they showed. */
  ghost predicate Aside(a: Store, b: Store, units: set<nat>) {
    forall u :: u !in units ==> At(b, u).cache == At(a, u).cache && At(b, u).poss <= At(a, u).poss
  }

  /** Two writing records of a batch name different units. */
  lemma DistinctWrites(log: seq<Record>, k: nat, batch: seq<Record>, i: nat, j: nat, discard: bool)
    requires IsBatch(log, k, batch) && i < j < |batch| && Writes(batch, i, discard) && Writes(batch, j, discard)
    ensures batch[i].unit != batch[j].unit
  {
    WritesItem(log, k, batch, i, discard);
    WritesItem(log, k, batch, j, discard);
  }

  lemma StageNext(a: Store, st: Store, log: seq<Record>, k: nat, batch: seq<Record>, j: nat, discard: bool)
    requires IsBatch(log, k, batch) && j < |batch| && Writes(batch, j, discard)
    requires Staged(st, batch, j, discard) && Aside(a, st, UnitsOf(batch))
    ensures
      var b := WriteSlotPayload(WriteSlotHeader(st, batch[j].unit, VersionOf(batch[j])), batch[j].unit, VersionOf(batch[j]));
      Staged(b, batch, j + 1, discard) && Aside(a, b, UnitsOf(batch)) && SameBits(st, b)
    ensures Aside(a, WriteSlotHeader(st, batch[j].unit, VersionOf(batch[j])), UnitsOf(batch))
  {
    var u := batch[j].unit;
    assert batch[j] in batch;
    var b := WriteSlotPayload(WriteSlotHeader(st, u, VersionOf(batch[j])), u, VersionOf(batch[j]));
    forall i | 0 <= i < j + 1 && Writes(batch, i, discard)
      ensures StagedSlot(At(b, batch[i].unit), VersionOf(batch[i]))
    {
      if i < j { DistinctWrites(log, k, batch, i, j, discard); }
    }
  }

  lemma StageStarts(st: Store, batch: seq<Record>, discard: bool)
    ensures Staged(st, batch, 0, discard) && Aside(st, st, UnitsOf(batch))
  {
  }

  lemma StageSkip(st: Store, batch: seq<Record>, j: nat, discard: bool)
    requires j < |batch| && !Writes(batch, j, discard) && Staged(st, batch, j, discard)
    ensures Staged(st, batch, j + 1, discard)
  {
  }

  function ShardUnits(st: Store, unitsPerShard: nat, shard: nat): set<nat>
    requires unitsPerShard > 0
  {
    set u | u in st.slots && u / unitsPerShard == shard
  }

  /** The shards the batch writes to. */
  function ShardsOf(batch: seq<Record>, unitsPerShard: nat, discard: bool): set<nat>
    requires unitsPerShard > 0
  {
    set i | 0 <= i < |batch| && Writes(batch, i, discard) :: batch[i].unit / unitsPerShard
  }

  /** Written slots outside the pending shards are synced. */
  ghost predicate Flushed(st: Store, batch: seq<Record>, pending: set<nat>, unitsPerShard: nat, discard: bool)
    requires unitsPerShard > 0
  {
    forall i :: 0 <= i < |batch| && Writes(batch, i, discard) && batch[i].unit / unitsPerShard !in pending ==>
      At(st, batch[i].unit).poss == {Full(VersionOf(batch[i]))}
  }

  lemma FlushStarts(st: Store, batch: seq<Record>, unitsPerShard: nat, discard: bool)
    requires unitsPerShard > 0
    ensures Flushed(st, batch, ShardsOf(batch, unitsPerShard, discard), unitsPerShard, discard)
  {
    hide Writes;
  }

  lemma FlushShard(a: Store, st: Store, batch: seq<Record>, pending: set<nat>, shard: nat, unitsPerShard: nat, discard: bool)
    requires unitsPerShard > 0
    requires Staged(st, batch, |batch|, discard) && Flushed(st, batch, pending, unitsPerShard, discard)
    requires Aside(a, st, UnitsOf(batch)) && StoreOk(st)
    ensures
      var b := SyncShard(st, ShardUnits(st, unitsPerShard, shard), true);
      && Staged(b, batch, |batch|, discard) && Flushed(b, batch, pending - {shard}, unitsPerShard, discard)
      && Aside(a, b, UnitsOf(batch)) && SameBits(st, b)
  {
    hide Writes;
    var units := ShardUnits(st, unitsPerShard, shard);
    var b := SyncShard(st, units, true);
    forall u ensures At(b, u).cache == At(st, u).cache && At(b, u).poss <= At(st, u).poss {}
    forall i | 0 <= i < |batch| && Writes(batch, i, discard)
      ensures StagedSlot(At(b, batch[i].unit), VersionOf(batch[i]))
      ensures batch[i].unit / unitsPerShard !in pending - {shard} ==> At(b, batch[i].unit).poss == {Full(VersionOf(batch[i]))}
    {
      var u := batch[i].unit;
      assert StagedSlot(At(st, u), VersionOf(batch[i]));
      assert u in st.slots;
      assert u / unitsPerShard == shard ==> u in units;
    }
  }

  /** Discard bits once the first `j` records of the batch have set theirs. */
  ghost predicate BitsMarked(a: Store, b: Store, batch: seq<Record>, j: nat)
    requires j <= |batch|
  {
    && b.slots == a.slots && b.failures == a.failures
    && (forall u :: u !in UnitsOf(batch) ==> ((u in b.discarded) <==> (u in a.discarded)))
    && (forall i :: 0 <= i < j && (forall m :: i < m < j ==> batch[m].unit != batch[i].unit) ==>
          ((batch[i].unit in b.discarded) <==> batch[i].payload == []))
  }

  lemma MarkStarts(st: Store, batch: seq<Record>)
    ensures BitsMarked(st, st, batch, 0)
  {
  }

  lemma MarkNext(a: Store, b: Store, batch: seq<Record>, j: nat)
    requires j < |batch| && BitsMarked(a, b, batch, j)
    ensures BitsMarked(a, SetDiscarded(b, batch[j].unit, batch[j].payload == []), batch, j + 1)
  {
    var c := SetDiscarded(b, batch[j].unit, batch[j].payload == []);
    assert batch[j] in batch;
    forall w ensures w in c.discarded <==> (if w == batch[j].unit then batch[j].payload == [] else w in b.discarded) {}
    forall i | 0 <= i < j + 1 && (forall m :: i < m < j + 1 ==> batch[m].unit != batch[i].unit)
      ensures (batch[i].unit in c.discarded) <==> batch[i].payload == []
    {
      if i < j {
        assert forall m :: i < m < j ==> batch[m].unit != batch[i].unit;
        assert batch[j].unit != batch[i].unit;
      }
    }
  }

  /** A finished batch has moved the replay on by its length. */
  lemma BatchApplied(a: Store, b: Store, c: Store, log: seq<Record>, ck: nat, k: nat, batch: seq<Record>, unitsPerShard: nat, discard: bool)
    requires IsBatch(log, k, batch) && ck <= k && unitsPerShard > 0 && StoreOk(a) && StoreOk(b)
    requires Applied(a, log, ck, k, discard)
    requires Aside(a, b, UnitsOf(batch)) && SameBits(a, b)
    requires Flushed(b, batch, {}, unitsPerShard, discard)
    requires c.slots == b.slots && (forall u :: MayBits(c, u) == {u in c.discarded})
    requires if discard then BitsMarked(b, c, batch, |batch|) else c.discarded == {}
    ensures Applied(c, log, ck, k + |batch|, discard)
  {
    hide Writes, Newest, BitsMarked, Flushed, StoreOk, Aside, MayBits;
    var end := k + |batch|;
    forall u | Newest(log, end, u) > ck
      ensures ItemCertain(c, u, VersionOfNewest(log, end, u), discard)
    {
      LatestIsNewest(log, k, batch, u);
      if u in UnitsOf(batch) {
        UnitApplied(b, c, log, k, batch, u, unitsPerShard, discard);
      } else {
        UnitKept(a, b, c, log, k, batch, u, discard);
      }
    }
  }

  lemma UnitApplied(b: Store, c: Store, log: seq<Record>, k: nat, batch: seq<Record>, u: nat, unitsPerShard: nat, discard: bool)
    requires IsBatch(log, k, batch) && u in UnitsOf(batch) && unitsPerShard > 0
    requires Flushed(b, batch, {}, unitsPerShard, discard) && c.slots == b.slots
    requires MayBits(c, u) == {u in c.discarded}
    requires if discard then BitsMarked(b, c, batch, |batch|) else c.discarded == {}
    ensures ItemCertain(c, u, VersionOfNewest(log, k + |batch|, u), discard)
  {
    hide MayBits;
    LatestIsNewest(log, k, batch, u);
    var n := Newest(log, k + |batch|, u);
    var i := n - k - 1;
    assert batch[i] == log[n - 1];
    assert batch[i] in batch;
    forall m | i < m < |batch|
      ensures batch[m].unit != batch[i].unit
    {
      assert batch[m] == log[k + m];
    }
    if !(discard && batch[i].payload == []) {
      assert Writes(batch, i, discard);
    }
  }

  lemma UnitKept(a: Store, b: Store, c: Store, log: seq<Record>, k: nat, batch: seq<Record>, u: nat, discard: bool)
    requires k <= k + |batch| <= |log| && Newest(log, k + |batch|, u) == Newest(log, k, u)
    requires u !in UnitsOf(batch) && StoreOk(a) && StoreOk(b)
    requires ItemCertain(a, u, VersionOfNewest(log, k, u), discard)
    requires Aside(a, b, UnitsOf(batch)) && SameBits(a, b) && c.slots == b.slots
    requires MayBits(c, u) == {u in c.discarded}
    requires if discard then BitsMarked(b, c, batch, |batch|) else c.discarded == {}
    ensures ItemCertain(c, u, VersionOfNewest(log, k + |batch|, u), discard)
  {
    hide Newest, LatestSequences;
    assert At(b, u).cache in At(b, u).poss;
    BitShown(a, u);
    BitShown(b, u);
    assert discard ==> ((u in c.discarded) <==> (u in b.discarded));
  }

  /** The bit in memory is among those a store would make durable. */
  lemma BitShown(st: Store, u: nat)
    requires StoreOk(st)
    ensures (u in st.discarded) in MayBits(st, u)
  {
  }
}
