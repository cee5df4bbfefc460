/** Admission of writes and the cached read path of the engine.

  A request is admitted against what the overlay may come to weigh; the bound
  then holds in every later state. Reads are served from the plaintext cache
  only at the unit's current sequence, and decrypt what the volume holds
  otherwise; a slow reader may put its plaintext long after the unit changed.
 */
module Engine {
  import opened Records
  import opened JournalDisk
  import opened Journal
  import opened Overlay
  import opened Volume
  import opened Cache

  datatype CiphertextUnit = CiphertextUnit(unit: nat, data: Bytes)

  type Decrypt = (nat, Bytes) -> Bytes

  function SatAdd(a: nat, b: nat): nat {
    if a + b > U64_MAX then U64_MAX else a + b
  }

  function SatDouble(a: nat): nat {
    if 2 * a > U64_MAX then U64_MAX else 2 * a
  }

  function PayloadBytes(cts: seq<CiphertextUnit>): nat {
    if cts == [] then 0 else |cts[0].data| + PayloadBytes(cts[1..])
  }

  /** The overlay part of admission; a limit of 0 is no limit. */
  predicate Admits(bytes: nat, latest: nat, entries: nat, payload: nat, records: nat, maxBytes: nat, maxEntries: nat) {
    && (maxBytes > 0 ==> SatAdd(Max(bytes, SatDouble(latest)), SatDouble(payload)) <= maxBytes)
    && (maxEntries > 0 ==> SatAdd(entries, records) <= maxEntries)
  }

  /** Saturation does not matter below the largest limit; at it, nothing is refused. */
  lemma AdmitsExactly(bytes: nat, latest: nat, entries: nat, payload: nat, records: nat, maxBytes: nat, maxEntries: nat)
    requires maxBytes <= U64_MAX && maxEntries <= U64_MAX
    ensures Admits(bytes, latest, entries, payload, records, maxBytes, maxEntries) <==>
      && (0 < maxBytes < U64_MAX ==> Max(bytes, 2 * latest) + 2 * payload <= maxBytes)
      && (0 < maxEntries < U64_MAX ==> entries + records <= maxEntries)
  {
  }

  /** The limits in force: a limit of 0 or of the largest counter value is none. */
  ghost predicate WithinLimits(units: Units, extra: nat, more: nat, maxBytes: nat, maxEntries: nat) {
    && (0 < maxBytes < U64_MAX ==> Peak(units) + 2 * extra <= maxBytes)
    && (0 < maxEntries < U64_MAX ==> |units| + more <= maxEntries)
  }

  /** `data` is the plaintext of record `sequence`, which wrote the unit. */
  ghost predicate TrueEntry(log: seq<Record>, u: nat, sequence: nat, data: Bytes, decrypt: Decrypt, unitSize: nat) {
    && 1 <= sequence <= |log|
    && log[sequence - 1].unit == u
    && data == decrypt(u, log[sequence - 1].payload)
    && |data| == unitSize
  }

  ghost predicate CacheTrue(entries: Entries, log: seq<Record>, decrypt: Decrypt, unitSize: nat) {
    forall u :: u in entries ==> TrueEntry(log, u, entries[u].sequence, entries[u].data, decrypt, unitSize)
  }

  lemma CacheGrows(entries: Entries, log: seq<Record>, log': seq<Record>, decrypt: Decrypt, unitSize: nat)
    requires CacheTrue(entries, log, decrypt, unitSize) && Agree(log, log', |log|)
    ensures CacheTrue(entries, log', decrypt, unitSize)
  {
    forall u | u in entries
      ensures TrueEntry(log', u, entries[u].sequence, entries[u].data, decrypt, unitSize)
    {
      assert TrueEntry(log, u, entries[u].sequence, entries[u].data, decrypt, unitSize);
    }
  }

  /** The plaintext of a unit: zeros where nothing was written. */
  ghost function Plain(log: seq<Record>, u: nat, discard: bool, decrypt: Decrypt, unitSize: nat): Bytes {
    match Reading(log, |log|, u, discard)
    case None => seq(unitSize, _ => 0)
    case Some(v) => decrypt(u, v.data)
  }

  class Engine {
    const volume: Volume
    const cache: VersionedCache
    const cached: bool
    const verifyOnHit: bool
    const unitSize: nat
    const decrypt: Decrypt
    const maxOverlayBytes: nat
    const maxOverlayEntries: nat
    const maxPendingBytes: nat

    ghost predicate Valid()
      reads this, volume, volume.journal, volume.overlay, cache
    {
      && volume.Valid()
      && cache.Valid()
      && CacheTrue(cache.entries, volume.Log(), decrypt, unitSize)
      && WithinLimits(volume.overlay.units, 0, 0, maxOverlayBytes, maxOverlayEntries)
      && maxOverlayBytes <= U64_MAX && maxOverlayEntries <= U64_MAX
      && volume.journal.PendingBytes() <= PendingLimit()
    }

    /** The unsynced tail exceeds the configured limit only when one record does. */
    ghost function PendingLimit(): nat {
      Max(maxPendingBytes, RECORD_HEADER_BYTES + volume.geometry.maxPayload)
    }

    constructor (volume: Volume, cache: VersionedCache, cached: bool, verifyOnHit: bool, unitSize: nat, decrypt: Decrypt,
                 maxOverlayBytes: nat, maxOverlayEntries: nat, maxPendingBytes: nat)
      requires volume.Valid() && cache.Valid() && cache.entries == map[]
      requires volume.overlay.units == map[] && volume.journal.PendingBytes() == 0
      requires maxOverlayBytes <= U64_MAX && maxOverlayEntries <= U64_MAX
      ensures Valid() && this.volume == volume && this.cache == cache
    {
      this.volume, this.cache, this.cached, this.verifyOnHit := volume, cache, cached, verifyOnHit;
      this.unitSize, this.decrypt := unitSize, decrypt;
      this.maxOverlayBytes, this.maxOverlayEntries, this.maxPendingBytes := maxOverlayBytes, maxOverlayEntries, maxPendingBytes;
      new;
      hide VolumeOk, CrashSafe, WriterOk, PointSafe, Tracks;
      EmptyPeak();
    }

    /** Whether a request may append now; if not, the caller reclaims and retries.
        The free-space check and the journal's size limit answer from outside. */
    method AdmitJournal(cts: seq<CiphertextUnit>, exhausted: bool, spaceRefused: bool, journalFull: bool)
        returns (ok: bool, admitted: bool)
      requires Valid()
      modifies volume.journal, volume.overlay, volume`crashes
      ensures Valid() && volume.Log() == old(volume.Log())
      ensures ok && admitted <==>
        && !spaceRefused && !journalFull
        && WithinLimits(old(volume.overlay.units), PayloadBytes(cts), |cts|, maxOverlayBytes, maxOverlayEntries)
      ensures ok && admitted ==> volume.overlay.units == old(volume.overlay.units)
      ensures ok && !admitted ==> volume.journal.history.durable == |volume.Log()|
      ensures exhausted && !admitted ==> !ok
    {
      hide Peak, VolumeOk, CrashSafe, WriterOk, PointSafe, Tracks, CacheTrue, PayloadBytes;
      ok, admitted := true, false;
      if spaceRefused {
        return false, false;
      }
      var overlay := volume.overlay;
      AdmittedRoom(overlay, PayloadBytes(cts), |cts|, maxOverlayBytes, maxOverlayEntries);
      if !Admits(overlay.bytes, overlay.latestBytes, |overlay.units|, PayloadBytes(cts), |cts|, maxOverlayBytes, maxOverlayEntries) {
        if exhausted {
          return false, false;
        }
        ok := volume.Flush();
        return;
      }
      if journalFull {
        if exhausted {
          return false, false;
        }
        ok := volume.Flush();
        return;
      }
      admitted := true;
    }

    /** Tombstones of units that already read zero are not journaled. */
    method FilterTrims(cts: seq<CiphertextUnit>) returns (ok: bool, kept: seq<CiphertextUnit>)
      requires Valid()
      modifies volume`store
      ensures Valid() && PayloadBytes(kept) == 0 && NoData(kept) && Named(cts, kept)
      ensures ok && volume.discard ==> Awaiting(volume.Log(), cts, kept)
      ensures ok ==> forall j :: 0 <= j < |kept| ==> volume.Content(kept[j].unit).Some?
    {
      hide Volume.Valid, VersionedCache.Valid, CacheTrue, WithinLimits, PayloadBytes, Newest, NoData, Named, Awaiting;
      ok, kept := true, [];
      NothingKept(volume.Log(), cts);
      for i := 0 to |cts|
        invariant ok && Valid() && NoData(kept) && Named(cts, kept)
        invariant volume.discard ==> Awaiting(volume.Log(), cts[..i], kept)
        invariant forall j :: 0 <= j < |kept| ==> volume.Content(kept[j].unit).Some?
      {
        var skipped;
        ok, skipped := volume.ReclaimUnwritten(cts[i].unit);
        NoPayload(kept);
        if !ok { return; }
        KeptNext(volume.Log(), cts, i, kept, volume.discard, skipped);
        if !skipped {
          kept := kept + [CiphertextUnit(cts[i].unit, [])];
        }
      }
      NoPayload(kept);
      assert cts[..|cts|] == cts;
    }

    /** Append one record of an admitted request, syncing first if too much waits. */
    method AppendOne(ct: CiphertextUnit, ghost extra: nat, ghost more: nat) returns (ok: bool)
      requires Valid()
      requires WithinLimits(volume.overlay.units, |ct.data| + extra, 1 + more, maxOverlayBytes, maxOverlayEntries)
      modifies volume`store, volume`cks, volume`crashes, volume`requested, volume`plan, volume`checkpoint, volume`retired
      modifies volume.journal, volume.overlay, cache
      ensures Valid()
      ensures WithinLimits(volume.overlay.units, extra, more, maxOverlayBytes, maxOverlayEntries)
      ensures Agree(old(volume.Log()), volume.Log(), |old(volume.Log())|)
      ensures ok && ct.data != [] ==>
        volume.Log() == old(volume.Log()) + [Record(|old(volume.Log())| + 1, ct.unit, ct.data)]
      ensures ct.data == [] ==> Tombstoned(old(volume.Log()), volume.Log(), ct.unit)
      ensures ok && ct.data == [] ==> volume.discard && volume.Content(ct.unit) == None
      ensures ok && cached ==> ct.unit !in cache.entries
    {
      hide Volume.Valid, VersionedCache.Valid, CacheTrue, TookIn, WithinLimits;
      ghost var units := volume.overlay.units;
      ok := AppendRecord(ct);
      CacheGrows(cache.entries, old(volume.Log()), volume.Log(), decrypt, unitSize);
      RoomUsed(units, volume.overlay.units, |ct.data|, extra, more, maxOverlayBytes, maxOverlayEntries);
      if ok && cached {
        cache.Invalidate(ct.unit);
        CacheShrinks(old(cache.entries), cache.entries, volume.Log(), decrypt, unitSize);
      }
    }

    method AppendRecord(ct: CiphertextUnit) returns (ok: bool)
      requires volume.Valid() && volume.journal.PendingBytes() <= PendingLimit()
      modifies volume`store, volume`cks, volume`crashes, volume`requested, volume`plan, volume`checkpoint, volume`retired
      modifies volume.journal, volume.overlay
      ensures volume.Valid() && volume.journal.PendingBytes() <= PendingLimit()
      ensures TookIn(old(volume.overlay.units), volume.overlay.units, |ct.data|, 1)
      ensures Agree(old(volume.Log()), volume.Log(), |old(volume.Log())|)
      ensures ok && ct.data != [] ==>
        volume.Log() == old(volume.Log()) + [Record(|old(volume.Log())| + 1, ct.unit, ct.data)]
      ensures ct.data == [] ==> Tombstoned(old(volume.Log()), volume.Log(), ct.unit)
      ensures ok && ct.data == [] ==> volume.discard && volume.Content(ct.unit) == None
    {
      hide Volume.Valid, Peak, Newest;
      if volume.journal.PendingBytes() + RECORD_HEADER_BYTES + |ct.data| > maxPendingBytes {
        ok := volume.Flush();
        if !ok { return; }
      }
      var sequence;
      if ct.data == [] {
        sequence := volume.DiscardCt(ct.unit, false);
      } else {
        sequence := volume.WriteCt(ct.unit, ct.data, false);
      }
      ok := sequence.Some?;
    }

    /** Append the records of an admitted request, in order. */
    method AppendAll(records: seq<CiphertextUnit>, ghost cts: seq<CiphertextUnit>) returns (ok: bool)
      requires Valid()
      requires WithinLimits(volume.overlay.units, PayloadBytes(records), |records|, maxOverlayBytes, maxOverlayEntries)
      modifies volume`store, volume`cks, volume`crashes, volume`requested, volume`plan, volume`checkpoint, volume`retired
      modifies volume.journal, volume.overlay, cache
      ensures Valid() && Agree(old(volume.Log()), volume.Log(), |old(volume.Log())|)
      ensures ok && AllData(records) ==> volume.Log() == old(volume.Log()) + Appended(|old(volume.Log())|, records)
      ensures ok && NoData(records) && Awaiting(old(volume.Log()), cts, records) ==> Awaiting(volume.Log(), cts, [])
    {
      hide Volume.Valid, VersionedCache.Valid, CacheTrue, TookIn, WithinLimits, PayloadBytes, Appended, Newest, Tombstoned, Awaiting;
      PayloadEnds(records);
      AppendedNone(|old(volume.Log())|, records);
      ok := true;
      for i := 0 to |records|
        invariant ok && Valid()
        invariant WithinLimits(volume.overlay.units, PayloadBytes(records[i..]), |records| - i, maxOverlayBytes, maxOverlayEntries)
        invariant Agree(old(volume.Log()), volume.Log(), |old(volume.Log())|)
        invariant AllData(records) ==> volume.Log() == old(volume.Log()) + Appended(|old(volume.Log())|, records[..i])
        invariant NoData(records) && Awaiting(old(volume.Log()), cts, records) ==> Awaiting(volume.Log(), cts, records[i..])
      {
        ghost var log := volume.Log();
        PayloadNext(records, i);
        ok := AppendOne(records[i], PayloadBytes(records[i + 1..]), |records| - i - 1);
        if !ok { return; }
        StaysZero(log, volume.Log(), cts, records, i, volume.discard);
        AppendedNext(|old(volume.Log())|, records, i);
      }
      assert records[..|records|] == records && records[|records|..] == [];
    }

    /** Admit, append and publish one request; with `fua`, sync it. The overlay
        stays within its limits whatever fails in between. */
    method JournalRequest(cts: seq<CiphertextUnit>, fua: bool, exhausted: bool, spaceRefused: bool, journalFull: bool)
        returns (ok: bool, written: bool)
      requires Valid()
      modifies volume`store, volume`cks, volume`crashes, volume`requested, volume`plan, volume`checkpoint, volume`retired
      modifies volume.journal, volume.overlay, cache
      ensures Valid() && Agree(old(volume.Log()), volume.Log(), |old(volume.Log())|)
      ensures ok && written && fua ==> volume.journal.history.durable == |volume.Log()|
      ensures ok && !written ==> volume.Log() == old(volume.Log()) && volume.journal.history.durable == |volume.Log()|
      ensures ok && AllData(cts) && |cts| > 0 ==>
        (written <==> volume.Log() == old(volume.Log()) + Appended(|old(volume.Log())|, cts))
      ensures ok && AllData(cts) && |cts| > 0 ==>
        (written <==>
          && !spaceRefused && !journalFull
          && WithinLimits(old(volume.overlay.units), PayloadBytes(cts), |cts|, maxOverlayBytes, maxOverlayEntries))
      ensures ok && written && volume.discard && |cts| > 0 && cts[0].data == [] ==>
        forall i :: 0 <= i < |cts| ==> volume.Content(cts[i].unit) == None
    {
      hide Volume.Valid, VersionedCache.Valid, CacheTrue, TookIn, WithinLimits, PayloadBytes, Appended, Newest, Awaiting;
      written := false;
      AppendedNext(|volume.Log()|, cts, |cts|);
      assert cts[..|cts|] == cts;
      var records := cts;
      if |cts| > 0 && cts[0].data == [] {
        ok, records := FilterTrims(cts);
        if !ok { return; }
      }
      if |records| > 0 {
        ok, written := AdmitJournal(records, exhausted, spaceRefused, journalFull);
        if !ok || !written { return; }
      }
      RoomAtRest(volume.overlay.units, maxOverlayBytes, maxOverlayEntries);
      ok := AppendAll(records, cts);
      if !ok { return; }
      if fua {
        ghost var units := volume.overlay.units;
        ok := volume.Flush();
        RoomKept(units, volume.overlay.units, maxOverlayBytes, maxOverlayEntries);
        if !ok { return; }
      }
      NothingAwaits(volume.Log(), cts, volume.discard);
      return true, true;
    }

    /** FLUSH and the checkpoint worker, one step at a time. */
    method Maintain(step: Maintenance)
      requires Valid()
      modifies volume`store, volume`cks, volume`crashes, volume`plan, volume`checkpoint, volume`retired
      modifies volume.journal, volume.overlay
      ensures Valid() && volume.Log() == old(volume.Log())
    {
      hide Volume.Valid, VersionedCache.Valid, CacheTrue, TookIn, WithinLimits;
      ghost var units := volume.overlay.units;
      volume.Maintain(step);
      RoomKept(units, volume.overlay.units, maxOverlayBytes, maxOverlayEntries);
    }

    /** `configure_cache`: what stays cached stays true. */
    method ConfigureCache(maxBytes: nat, ttl: Option<nat>) returns (applied: bool)
      requires Valid()
      modifies cache
      ensures Valid() && applied == cached
      ensures EvictedOldest(old(cache.entries), cache.entries)
      ensures cache.maxBytes == if applied then maxBytes else old(cache.maxBytes)
    {
      hide Volume.Valid, VersionedCache.Valid, CacheTrue, WithinLimits, EvictedNoMore;
      if cached {
        cache.Reconfigure(maxBytes, ttl);
        CacheShrinks(old(cache.entries), cache.entries, volume.Log(), decrypt, unitSize);
      }
      applied := cached;
    }

    /** First half of a read, under the volume lock: which units are cached at
        their current sequence, and the ciphertext of the others. */
    method Snapshot(first: nat, end: nat) returns (hits: map<nat, Bytes>, cts: map<nat, Version>)
      requires Valid() && first <= end
      modifies cache
      ensures Valid()
      ensures forall u :: u in hits || u in cts ==> first <= u < end
      ensures forall u :: first <= u < end ==> Snapped(volume.Log(), u, volume.discard, hits, cts, decrypt, unitSize)
    {
      hide Volume.Valid, VersionedCache.Valid, CacheTrue, WithinLimits, Snapped;
      hits, cts := map[], map[];
      for unit := first to end
        invariant Valid()
        invariant forall u :: u in hits || u in cts ==> first <= u < unit
        invariant forall u :: first <= u < unit ==> Snapped(volume.Log(), u, volume.discard, hits, cts, decrypt, unitSize)
      {
        var now: nat := *;
        var hit, ct := SnapshotUnit(unit, now);
        SnapGrows(volume.Log(), first, unit, volume.discard, hits, cts, hit, ct, decrypt, unitSize);
        if hit.Some? {
          hits := hits[unit := hit.value];
        } else if ct.Some? {
          cts := cts[unit := ct.value];
        }
      }
    }

    /** One unit of a read: a cache hit at the current sequence returns exactly
        what decrypting the volume's ciphertext would. */
    method SnapshotUnit(unit: nat, now: nat) returns (hit: Option<Bytes>, ct: Option<Version>)
      requires Valid()
      modifies cache
      ensures Valid()
      ensures SnappedUnit(volume.Content(unit), unit, hit, ct, decrypt, unitSize)
      ensures hit.Some? <==> cached && CachedNow(old(cache.entries), unit, volume.Content(unit), cache.ttl, now)
    {
      hide Volume.Valid, VersionedCache.Valid, CacheTrue, WithinLimits;
      hit, ct := None, None;
      if cached && !verifyOnHit {
        var _, sequence := volume.CurrentSequence(unit);
        if sequence.None? {
          return;
        }
        hit := CacheLookup(unit, sequence.value, now);
        if hit.Some? {
          HitIsCurrent(volume.Log(), unit, volume.discard, sequence.value, hit.value, decrypt, unitSize);
          return;
        }
      }
      var _, v := volume.ReadCt(unit);
      if v.None? {
        return;
      }
      if cached && verifyOnHit {
        hit := CacheLookup(unit, v.value.sequence, now);
        if hit.Some? {
          HitIsCurrent(volume.Log(), unit, volume.discard, v.value.sequence, hit.value, decrypt, unitSize);
          return;
        }
      }
      ct := v;
    }

    method CacheLookup(unit: nat, sequence: nat, now: nat) returns (hit: Option<Bytes>)
      requires Valid()
      modifies cache
      ensures Valid() && cache.ttl == old(cache.ttl)
      ensures hit.Some? <==> (unit in old(cache.entries) && Usable(old(cache.entries)[unit], sequence, cache.ttl, now))
      ensures hit.Some? ==> TrueEntry(volume.Log(), unit, sequence, hit.value, decrypt, unitSize)
    {
      hide Volume.Valid, WithinLimits, VersionedCache.Indexed;
      hit := cache.Lookup(unit, sequence, now);
      CacheShrinks(old(cache.entries), cache.entries, volume.Log(), decrypt, unitSize);
    }

    /** A reader puts what it decrypted, however long after its snapshot. */
    method CachePut(unit: nat, v: Version, data: Bytes, ghost log: seq<Record>)
      requires Valid() && Agree(log, volume.Log(), |log|)
      requires TrueEntry(log, unit, v.sequence, data, decrypt, unitSize)
      modifies cache
      ensures Valid()
    {
      hide Volume.Valid, WithinLimits, VersionedCache.Indexed, EvictedNoMore, CacheTrue;
      var now: nat := *;
      cache.Put(unit, v.sequence, data, now);
      PutTrue(old(cache.entries), cache.entries, volume.Log(), unit, v.sequence, data, decrypt, unitSize);
    }

    /** Decrypt what the snapshot found, and offer it to the cache. */
    method DecryptUnits(cts: map<nat, Version>, hits: map<nat, Bytes>, ghost log: seq<Record>, ghost first: nat, ghost end: nat)
        returns (ok: bool, plain: map<nat, Bytes>)
      requires Valid() && Agree(log, volume.Log(), |log|)
      requires forall u :: u in hits || u in cts ==> first <= u < end
      requires forall u :: first <= u < end ==> Snapped(log, u, volume.discard, hits, cts, decrypt, unitSize)
      modifies cache
      ensures Valid()
      ensures ok ==> plain.Keys == cts.Keys
      ensures ok ==> forall u :: u in cts ==> plain[u] == decrypt(u, cts[u].data) && |plain[u]| == unitSize
    {
      hide Volume.Valid, VersionedCache.Valid, CacheTrue, WithinLimits, TrueEntry;
      ok, plain := true, map[];
      var rest := cts.Keys;
      while rest != {}
        invariant ok && Valid() && rest <= cts.Keys && plain.Keys == cts.Keys - rest
        invariant forall u :: u in plain ==> plain[u] == decrypt(u, cts[u].data) && |plain[u]| == unitSize
        decreases rest
      {
        var unit :| unit in rest;
        var data := decrypt(unit, cts[unit].data);
        if |data| != unitSize {
          return false, plain;
        }
        plain := plain[unit := data];
        rest := rest - {unit};
        if cached {
          SnappedIsTrue(log, unit, volume.discard, hits, cts, decrypt, unitSize);
          CachePut(unit, cts[unit], data, log);
        }
      }
    }

    /** Second half of a read, without the lock: whatever was written meanwhile,
        the bytes are those of the snapshot. */
    method CompleteRead(offset: nat, len: nat, hits: map<nat, Bytes>, cts: map<nat, Version>, ghost log: seq<Record>)
        returns (ok: bool, out: Bytes)
      requires Valid() && Agree(log, volume.Log(), |log|) && unitSize > 0 && len > 0
      requires SnapshotOf(log, FirstUnit(offset, unitSize), EndUnit(offset, len, unitSize), volume.discard, hits, cts, decrypt, unitSize)
      modifies cache
      ensures Valid()
      ensures ok ==> |out| == len && ReadsAs(log, offset, out, volume.discard, decrypt, unitSize)
    {
      hide Volume.Valid, VersionedCache.Valid, CacheTrue, WithinLimits, TrueEntry, Snapped, ByteAt, FirstUnit, EndUnit, Reach;
      var first, end := FirstUnit(offset, unitSize), EndUnit(offset, len, unitSize);
      var plain;
      ok, plain := DecryptUnits(cts, hits, log, first, end);
      out := [];
      if !ok { return; }
      RangeStarts(offset, len, unitSize);
      for unit := first to end
        invariant Valid() && |out| == Reach(offset, len, unitSize, unit) - offset
        invariant ReadsAs(log, offset, out, volume.discard, decrypt, unitSize)
      {
        RangeStep(offset, len, unitSize, unit);
        var start := unit * unitSize;
        var from := Max(offset, start) - start;
        var to := Reach(offset, len, unitSize, unit + 1) - start;
        HitSized(log, unit, volume.discard, hits, cts, decrypt, unitSize);
        var piece :=
          if unit in plain then plain[unit][from..to]
          else if unit in hits then hits[unit][from..to]
          else seq(to - from, _ => 0);
        PieceReads(log, unit, volume.discard, hits, cts, plain, from, to, piece, decrypt, unitSize);
        ReadExtends(log, offset, start + from, out, piece, volume.discard, decrypt, unitSize);
        out := out + piece;
      }
    }

    /** A whole read: every byte is the plaintext of the current history. */
    method ReadSecret(offset: nat, len: nat) returns (ok: bool, out: Bytes)
      requires Valid() && unitSize > 0
      modifies cache
      ensures Valid()
      ensures ok ==> |out| == len && ReadsAs(volume.Log(), offset, out, volume.discard, decrypt, unitSize)
    {
      hide Volume.Valid, VersionedCache.Valid, CacheTrue, WithinLimits, Snapped, ByteAt, FirstUnit, EndUnit;
      if len == 0 {
        return false, [];
      }
      RangeStarts(offset, len, unitSize);
      var hits, cts := Snapshot(FirstUnit(offset, unitSize), EndUnit(offset, len, unitSize));
      ok, out := CompleteRead(offset, len, hits, cts, volume.Log());
    }
  }

  lemma AdmittedRoom(overlay: Overlay, payload: nat, records: nat, maxBytes: nat, maxEntries: nat)
    requires overlay.Accounted() && maxBytes <= U64_MAX && maxEntries <= U64_MAX
    ensures Admits(overlay.bytes, overlay.latestBytes, |overlay.units|, payload, records, maxBytes, maxEntries) <==>
      WithinLimits(overlay.units, payload, records, maxBytes, maxEntries)
  {
  }

  /** The records a write request appends after a history of `n` records. */
  function Appended(n: nat, cts: seq<CiphertextUnit>): seq<Record> {
    seq(|cts|, i requires 0 <= i < |cts| => Record(n + i + 1, cts[i].unit, cts[i].data))
  }

  lemma AppendedNext(n: nat, cts: seq<CiphertextUnit>, i: nat)
    ensures i <= |cts| ==> |Appended(n, cts[..i])| == i
    ensures i < |cts| ==> Appended(n, cts[..i + 1]) == Appended(n, cts[..i]) + [Record(n + i + 1, cts[i].unit, cts[i].data)]
  {
  }

  lemma PayloadNext(cts: seq<CiphertextUnit>, i: nat)
    requires i < |cts|
    ensures PayloadBytes(cts[i..]) == |cts[i].data| + PayloadBytes(cts[i + 1..])
  {
    assert cts[i..][1..] == cts[i + 1..];
  }

  lemma PayloadEnds(cts: seq<CiphertextUnit>)
    ensures cts[0..] == cts && (cts == [] ==> PayloadBytes(cts) == 0)
  {
  }

  lemma {:induction false} NoPayload(cts: seq<CiphertextUnit>)
    requires NoData(cts)
    ensures PayloadBytes(cts) == 0
  {
    if cts != [] { NoPayload(cts[1..]); }
  }

  lemma EmptyPeak()
    ensures Peak(map[]) == 0
  {
    assert TotalWeights(map[]) == map[] && LatestWeights(map[]) == map[];
  }

  lemma CacheShrinks(entries: Entries, fewer: Entries, log: seq<Record>, decrypt: Decrypt, unitSize: nat)
    requires CacheTrue(entries, log, decrypt, unitSize)
    requires forall u :: u in fewer ==> u in entries && fewer[u].sequence == entries[u].sequence && fewer[u].data == entries[u].data
    ensures CacheTrue(fewer, log, decrypt, unitSize)
  {
  }

  lemma RoomUsed(a: Units, b: Units, bytes: nat, extra: nat, more: nat, maxBytes: nat, maxEntries: nat)
    requires WithinLimits(a, bytes + extra, 1 + more, maxBytes, maxEntries) && TookIn(a, b, bytes, 1)
    ensures WithinLimits(b, extra, more, maxBytes, maxEntries) && WithinLimits(b, 0, 0, maxBytes, maxEntries)
  {
    hide Peak;
  }

  lemma RoomKept(a: Units, b: Units, maxBytes: nat, maxEntries: nat)
    requires WithinLimits(a, 0, 0, maxBytes, maxEntries) && TookIn(a, b, 0, 0)
    ensures WithinLimits(b, 0, 0, maxBytes, maxEntries)
  {
    hide Peak;
  }

  lemma RoomAtRest(units: Units, maxBytes: nat, maxEntries: nat)
    requires WithinLimits(units, 0, 0, maxBytes, maxEntries)
    ensures forall cts: seq<CiphertextUnit> :: cts == [] ==> WithinLimits(units, PayloadBytes(cts), |cts|, maxBytes, maxEntries)
  {
    hide Peak;
  }

  /** At most a tombstone of `unit` was appended. */
  ghost predicate Tombstoned(log: seq<Record>, log': seq<Record>, unit: nat) {
    log' == log || log' == log + [Record(|log| + 1, unit, [])]
  }

  ghost predicate AllData(cts: seq<CiphertextUnit>) {
    forall i :: 0 <= i < |cts| ==> cts[i].data != []
  }

  ghost predicate NoData(cts: seq<CiphertextUnit>) {
    forall i :: 0 <= i < |cts| ==> cts[i].data == []
  }

  /** Every unit of a trim that still holds data has a tombstone among `rest`. */
  ghost predicate Awaiting(log: seq<Record>, cts: seq<CiphertextUnit>, rest: seq<CiphertextUnit>) {
    forall j :: 0 <= j < |cts| && Reading(log, |log|, cts[j].unit, true).Some? ==> CiphertextUnit(cts[j].unit, []) in rest
  }

  /** `kept` names only units of the request. */
  ghost predicate Named(cts: seq<CiphertextUnit>, kept: seq<CiphertextUnit>) {
    forall j :: 0 <= j < |kept| ==> exists i :: 0 <= i < |cts| && cts[i].unit == kept[j].unit
  }

  lemma NothingKept(log: seq<Record>, cts: seq<CiphertextUnit>)
    ensures NoData([]) && Named(cts, []) && Awaiting(log, cts[..0], [])
  {
  }

  lemma KeptNext(log: seq<Record>, cts: seq<CiphertextUnit>, i: nat, kept: seq<CiphertextUnit>, discard: bool, skipped: bool)
    requires i < |cts| && NoData(kept) && Named(cts, kept) && (discard ==> Awaiting(log, cts[..i], kept))
    requires skipped && discard ==> Reading(log, |log|, cts[i].unit, discard) == None
    ensures skipped && discard ==> Awaiting(log, cts[..i + 1], kept)
    ensures
      var more := kept + [CiphertextUnit(cts[i].unit, [])];
      NoData(more) && Named(cts, more) && (discard ==> Awaiting(log, cts[..i + 1], more))
  {
    hide Newest;
  }

  lemma NothingAwaits(log: seq<Record>, cts: seq<CiphertextUnit>, discard: bool)
    ensures Awaiting(log, cts, []) && discard ==>
      forall i :: 0 <= i < |cts| ==> Reading(log, |log|, cts[i].unit, discard) == None
  {
  }

  /** A tombstone makes no unit that reads zero read anything else. */
  lemma StaysZero(log: seq<Record>, log': seq<Record>, cts: seq<CiphertextUnit>, records: seq<CiphertextUnit>, i: nat, discard: bool)
    requires i < |records|
    requires records[i].data == [] ==>
      Tombstoned(log, log', records[i].unit) && discard && Reading(log', |log'|, records[i].unit, discard) == None
    ensures records[i].data == [] && Awaiting(log, cts, records[i..]) ==> Awaiting(log', cts, records[i + 1..])
  {
    if records[i].data == [] && Awaiting(log, cts, records[i..]) {
      forall j | 0 <= j < |cts| && Reading(log', |log'|, cts[j].unit, true).Some?
        ensures CiphertextUnit(cts[j].unit, []) in records[i + 1..]
      {
        var u := cts[j].unit;
        ReadingPrefix(log, log', |log|, u, true);
        ReadingSkips(log', |log|, |log'|, u, true);
        assert records[i..] == [records[i]] + records[i + 1..];
      }
    }
  }

  lemma AppendedNone(n: nat, cts: seq<CiphertextUnit>)
    ensures Appended(n, cts[..0]) == []
  {
  }

  /** An entry of the right version that has not outlived its time. */
  ghost predicate Usable(entry: Entry, sequence: nat, ttl: nat, now: nat) {
    entry.sequence == sequence && 0 < ttl && now < entry.insertedAt + ttl
  }

  ghost predicate CachedNow(entries: Entries, u: nat, content: Option<Version>, ttl: nat, now: nat) {
    content.Some? && u in entries && Usable(entries[u], content.value.sequence, ttl, now)
  }

  /** What a read's first half holds for a unit whose content was `content`. */
  ghost predicate SnappedUnit(content: Option<Version>, u: nat, hit: Option<Bytes>, ct: Option<Version>,
                              decrypt: Decrypt, unitSize: nat) {
    match content
    case None => hit == None && ct == None
    case Some(v) =>
      || (hit == Some(decrypt(u, v.data)) && |decrypt(u, v.data)| == unitSize && ct == None)
      || (hit == None && ct == Some(v))
  }

  ghost predicate Snapped(log: seq<Record>, u: nat, discard: bool, hits: map<nat, Bytes>, cts: map<nat, Version>,
                          decrypt: Decrypt, unitSize: nat) {
    SnappedUnit(Reading(log, |log|, u, discard), u,
      if u in hits then Some(hits[u]) else None, if u in cts then Some(cts[u]) else None, decrypt, unitSize)
  }

  lemma SnapGrows(log: seq<Record>, first: nat, unit: nat, discard: bool, hits: map<nat, Bytes>, cts: map<nat, Version>,
                  hit: Option<Bytes>, ct: Option<Version>, decrypt: Decrypt, unitSize: nat)
    requires forall u :: u in hits || u in cts ==> first <= u < unit
    requires forall u :: first <= u < unit ==> Snapped(log, u, discard, hits, cts, decrypt, unitSize)
    requires SnappedUnit(Reading(log, |log|, unit, discard), unit, hit, ct, decrypt, unitSize)
    ensures
      var hits' := if hit.Some? then hits[unit := hit.value] else hits;
      var cts' := if hit.None? && ct.Some? then cts[unit := ct.value] else cts;
      forall u :: first <= u < unit + 1 ==> Snapped(log, u, discard, hits', cts', decrypt, unitSize)
  {
    hide Reading;
    var hits' := if hit.Some? then hits[unit := hit.value] else hits;
    var cts' := if hit.None? && ct.Some? then cts[unit := ct.value] else cts;
    forall u | first <= u < unit + 1
      ensures Snapped(log, u, discard, hits', cts', decrypt, unitSize)
    {
      if u < unit {
        assert Snapped(log, u, discard, hits, cts, decrypt, unitSize);
      }
    }
  }

  lemma HitIsCurrent(log: seq<Record>, u: nat, discard: bool, sequence: nat, data: Bytes, decrypt: Decrypt, unitSize: nat)
    requires TrueEntry(log, u, sequence, data, decrypt, unitSize)
    requires
      var v := Reading(log, |log|, u, discard);
      v.Some? && v.value.sequence == sequence
    ensures SnappedUnit(Reading(log, |log|, u, discard), u, Some(data), None, decrypt, unitSize)
  {
  }

  lemma PutTrue(before: Entries, after: Entries, log: seq<Record>, u: nat, sequence: nat, data: Bytes,
                decrypt: Decrypt, unitSize: nat)
    requires CacheTrue(before, log, decrypt, unitSize) && TrueEntry(log, u, sequence, data, decrypt, unitSize)
    requires
      || after == before || after == before - {u}
      || (u in after && after[u].sequence == sequence && after[u].data == data && EvictedOldest(before - {u}, after - {u}))
    ensures CacheTrue(after, log, decrypt, unitSize)
  {
    forall w | w in after
      ensures TrueEntry(log, w, after[w].sequence, after[w].data, decrypt, unitSize)
    {
      if w != u {
        assert w in after - {u};
      }
    }
  }

  ghost predicate SnapshotOf(log: seq<Record>, first: nat, end: nat, discard: bool, hits: map<nat, Bytes>, cts: map<nat, Version>,
                             decrypt: Decrypt, unitSize: nat) {
    && (forall u :: u in hits || u in cts ==> first <= u < end)
    && (forall u :: first <= u < end ==> Snapped(log, u, discard, hits, cts, decrypt, unitSize))
  }

  // Byte ranges. ----------------------------------------------------------------

  /** Byte `b` is what the device holds at `position`. */
  ghost predicate ByteAt(log: seq<Record>, position: nat, b: Byte, discard: bool, decrypt: Decrypt, unitSize: nat)
    requires unitSize > 0
  {
    var plain, i := Plain(log, position / unitSize, discard, decrypt, unitSize), position % unitSize;
    i < |plain| && plain[i] == b
  }

  ghost predicate ReadsAs(log: seq<Record>, offset: nat, out: Bytes, discard: bool, decrypt: Decrypt, unitSize: nat)
    requires unitSize > 0
  {
    forall k :: 0 <= k < |out| ==> ByteAt(log, offset + k, out[k], discard, decrypt, unitSize)
  }

  function FirstUnit(offset: nat, unitSize: nat): nat
    requires unitSize > 0
  {
    offset / unitSize
  }

  function EndUnit(offset: nat, len: nat, unitSize: nat): nat
    requires unitSize > 0 && len > 0
  {
    (offset + len - 1) / unitSize + 1
  }

  /** Where the bytes of units below `unit` end within the request. */
  function Reach(offset: nat, len: nat, unitSize: nat, unit: nat): (r: nat)
    ensures offset <= r <= offset + len
  {
    if unit * unitSize <= offset then offset
    else if unit * unitSize < offset + len then unit * unitSize
    else offset + len
  }

  lemma RangeStarts(offset: nat, len: nat, unitSize: nat)
    requires unitSize > 0 && len > 0
    ensures FirstUnit(offset, unitSize) < EndUnit(offset, len, unitSize)
    ensures Reach(offset, len, unitSize, FirstUnit(offset, unitSize)) == offset
    ensures Reach(offset, len, unitSize, EndUnit(offset, len, unitSize)) == offset + len
  {
    var first, last := offset / unitSize, (offset + len - 1) / unitSize;
    Floor(offset, unitSize);
    Floor(offset + len - 1, unitSize);
    if last < first {
      Scale(last + 1, first, unitSize);
      assert false;
    }
  }

  lemma Floor(x: nat, n: nat)
    requires n > 0
    ensures (x / n) * n <= x < (x / n + 1) * n
    ensures x == (x / n) * n + x % n
  {
  }

  lemma Scale(a: nat, b: nat, n: nat)
    requires a <= b
    ensures a * n <= b * n
    ensures (a + 1) * n == a * n + n
  {
  }

  lemma RangeStep(offset: nat, len: nat, unitSize: nat, unit: nat)
    requires unitSize > 0 && len > 0
    requires FirstUnit(offset, unitSize) <= unit < EndUnit(offset, len, unitSize)
    ensures
      var start := unit * unitSize;
      && start < offset + len && offset < start + unitSize
      && Reach(offset, len, unitSize, unit) == Max(offset, start)
      && Max(offset, start) < Reach(offset, len, unitSize, unit + 1) <= start + unitSize
  {
    Floor(offset, unitSize);
    Floor(offset + len - 1, unitSize);
    Scale(unit, (offset + len - 1) / unitSize, unitSize);
    Scale(offset / unitSize + 1, unit + 1, unitSize);
  }

  lemma Locate(unit: nat, unitSize: nat, r: nat)
    requires r < unitSize
    ensures (unit * unitSize + r) / unitSize == unit && (unit * unitSize + r) % unitSize == r
  {
    var x := unit * unitSize + r;
    var q := x / unitSize;
    Floor(x, unitSize);
    Scale(unit, unit, unitSize);
    if q < unit {
      Scale(q + 1, unit, unitSize);
    } else if q > unit {
      Scale(unit + 1, q, unitSize);
    }
    assert q == unit;
  }

  lemma SnappedIsTrue(log: seq<Record>, u: nat, discard: bool, hits: map<nat, Bytes>, cts: map<nat, Version>,
                      decrypt: Decrypt, unitSize: nat)
    requires Snapped(log, u, discard, hits, cts, decrypt, unitSize) && u in cts
    requires |decrypt(u, cts[u].data)| == unitSize
    ensures TrueEntry(log, u, cts[u].sequence, decrypt(u, cts[u].data), decrypt, unitSize)
  {
  }

  lemma HitSized(log: seq<Record>, u: nat, discard: bool, hits: map<nat, Bytes>, cts: map<nat, Version>,
                 decrypt: Decrypt, unitSize: nat)
    requires Snapped(log, u, discard, hits, cts, decrypt, unitSize)
    ensures u in hits ==> |hits[u]| == unitSize
  {
    hide Reading;
  }

  /** The slice taken for a unit holds the device's bytes there. */
  lemma PieceReads(log: seq<Record>, u: nat, discard: bool, hits: map<nat, Bytes>, cts: map<nat, Version>, plain: map<nat, Bytes>,
                   from: nat, to: nat, piece: Bytes, decrypt: Decrypt, unitSize: nat)
    requires Snapped(log, u, discard, hits, cts, decrypt, unitSize) && from <= to <= unitSize && unitSize > 0
    requires plain.Keys == cts.Keys && forall w :: w in cts ==> plain[w] == decrypt(w, cts[w].data) && |plain[w]| == unitSize
    requires u in hits ==> |hits[u]| == unitSize
    requires piece ==
      if u in plain then plain[u][from..to] else if u in hits then hits[u][from..to] else seq(to - from, _ => 0)
    ensures |piece| == to - from
    ensures forall j :: 0 <= j < |piece| ==> ByteAt(log, u * unitSize + from + j, piece[j], discard, decrypt, unitSize)
  {
    hide Reading;
    forall j | 0 <= j < |piece|
      ensures ByteAt(log, u * unitSize + from + j, piece[j], discard, decrypt, unitSize)
    {
      Locate(u, unitSize, from + j);
    }
  }

  lemma ReadExtends(log: seq<Record>, offset: nat, next: nat, out: Bytes, piece: Bytes, discard: bool, decrypt: Decrypt, unitSize: nat)
    requires unitSize > 0 && ReadsAs(log, offset, out, discard, decrypt, unitSize) && next == offset + |out|
    requires forall j :: 0 <= j < |piece| ==> ByteAt(log, next + j, piece[j], discard, decrypt, unitSize)
    ensures ReadsAs(log, offset, out + piece, discard, decrypt, unitSize)
  {
    hide ByteAt;
    var both := out + piece;
    forall k | 0 <= k < |both|
      ensures ByteAt(log, offset + k, both[k], discard, decrypt, unitSize)
    {
      if k >= |out| {
        assert next + (k - |out|) == offset + k && both[k] == piece[k - |out|];
      }
    }
  }
}
