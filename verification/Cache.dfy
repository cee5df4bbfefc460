/** The versioned plaintext read cache.

  Entries are keyed by unit and carry the write sequence they were decrypted
  from. `recency` maps a use tick to the unit used then: it is the inverse of
  the entries' own ticks, and eviction takes its smallest key.
 */
module Cache {
  import opened Records
  import opened Sums

  datatype Entry = Entry(sequence: nat, data: Bytes, insertedAt: nat, lastUsed: nat)

  type Entries = map<nat, Entry>

  function Sizes(entries: Entries): map<nat, nat> {
    map u | u in entries :: |entries[u].data|
  }

  ghost predicate Inverse(entries: Entries, recency: map<nat, nat>) {
    && (forall u :: u in entries ==> entries[u].lastUsed in recency && recency[entries[u].lastUsed] == u)
    && (forall t :: t in recency ==> recency[t] in entries && entries[recency[t]].lastUsed == t)
  }

  ghost predicate IndexOk(entries: Entries, recency: map<nat, nat>, tick: nat) {
    && Inverse(entries, recency)
    && (forall t :: t in recency ==> t <= tick)
    && (forall u :: u in entries ==> entries[u].data != [])
  }

  /** `after` is `before` less its least recently used entries. */
  ghost predicate EvictedOldest(before: Entries, after: Entries) {
    && (forall u :: u in after ==> u in before && after[u] == before[u])
    && (forall u, w :: u in before && u !in after && w in after ==> before[u].lastUsed < before[w].lastUsed)
  }

  ghost predicate LastEvicted(before: Entries, after: Entries, u: nat) {
    && u in before && u !in after
    && forall w :: w in before && w !in after ==> before[w].lastUsed <= before[u].lastUsed
  }

  /** No more was evicted than needed: one entry more would not have fitted. */
  ghost predicate EvictedNoMore(before: Entries, after: Entries, need: nat, maxBytes: nat) {
    forall u :: LastEvicted(before, after, u) ==> Sum(Sizes(after)) + |before[u].data| + need > maxBytes
  }

  class VersionedCache {
    var entries: Entries
    /** last-used tick -> unit, oldest first. */
    var recency: map<nat, nat>
    var bytes: nat
    var maxBytes: nat
    var tick: nat
    var ttl: nat
    var hits: nat
    var misses: nat

    ghost predicate Indexed()
      reads this`entries, this`recency, this`bytes, this`tick
    {
      IndexOk(entries, recency, tick) && bytes == Sum(Sizes(entries))
    }

    ghost predicate Valid()
      reads this`entries, this`recency, this`bytes, this`tick, this`maxBytes
    {
      Indexed() && bytes <= maxBytes
    }

    constructor (maxBytes: nat, ttl: nat)
      ensures Valid() && entries == map[] && this.maxBytes == maxBytes && this.ttl == ttl
    {
      entries, recency, bytes, tick, hits, misses := map[], map[], 0, 0, 0, 0;
      this.maxBytes, this.ttl := maxBytes, ttl;
    }

    method Remove(unit: nat)
      requires Indexed()
      modifies this`entries, this`recency, this`bytes
      ensures Indexed() && entries == old(entries) - {unit} && bytes <= old(bytes)
    {
      hide Sum, Sizes, IndexOk;
      if unit in entries {
        var entry := entries[unit];
        RemoveWeight(entries, unit);
        RemoveIndex(entries, recency, tick, unit);
        recency := recency - {entry.lastUsed};
        bytes := bytes - |entry.data|;
        entries := entries - {unit};
      } else {
        assert entries - {unit} == entries;
      }
    }

    /** Mark a unit most recently used. */
    method Touch(unit: nat)
      requires Indexed()
      modifies this`entries, this`recency, this`tick
      ensures Indexed() && tick == old(tick) + 1
      ensures entries == if unit in old(entries) then old(entries)[unit := old(entries)[unit].(lastUsed := tick)] else old(entries)
    {
      hide Sum, Sizes, IndexOk;
      LaterTick(entries, recency, tick);
      tick := tick + 1;
      if unit in entries {
        TouchIndex(entries, recency, tick, unit);
        recency := (recency - {entries[unit].lastUsed})[tick := unit];
        SameWeight(entries, unit, entries[unit].(lastUsed := tick));
        entries := entries[unit := entries[unit].(lastUsed := tick)];
      }
    }

    /** Evict the least recently used entries until `need` bytes fit. */
    method MakeRoom(need: nat)
      requires Indexed()
      modifies this`entries, this`recency, this`bytes
      ensures Indexed()
      ensures bytes + need <= maxBytes || entries == map[]
      ensures EvictedOldest(old(entries), entries) && EvictedNoMore(old(entries), entries, need, maxBytes)
    {
      hide Sum, Sizes, IndexOk, EvictedOldest, EvictedNoMore;
      NothingEvicted(entries, need, maxBytes);
      while bytes + need > maxBytes
        invariant Indexed() && EvictedOldest(old(entries), entries)
        invariant EvictedNoMore(old(entries), entries, need, maxBytes)
        decreases entries.Keys
      {
        IndexFacts(entries, recency, tick);
        if recency == map[] {
          return;
        }
        ghost var least := LeastTick(recency);
        var t :| t in recency && forall j :: j in recency ==> t <= j;
        EvictNext(old(entries), entries, recency, tick, t, need, maxBytes);
        Remove(recency[t]);
      }
    }

    /** Cache the plaintext of `(unit, sequence)`. A newer cached version stays;
        anything older goes, even when the new one cannot be cached. */
    method Put(unit: nat, sequence: nat, data: Bytes, now: nat)
      requires Valid()
      modifies this`entries, this`recency, this`bytes, this`tick
      ensures Valid()
      ensures unit in old(entries) && old(entries)[unit].sequence > sequence ==> entries == old(entries)
      ensures !(unit in old(entries) && old(entries)[unit].sequence > sequence) ==>
        if 0 < |data| <= maxBytes then
          unit in entries && entries[unit] == Entry(sequence, data, now, tick)
          && tick == old(tick) + 1
          && EvictedOldest(old(entries) - {unit}, entries - {unit})
          && EvictedNoMore(old(entries) - {unit}, entries - {unit}, |data|, maxBytes)
        else entries == old(entries) - {unit}
    {
      hide Sum, Sizes, IndexOk, EvictedOldest, EvictedNoMore;
      if unit in entries && entries[unit].sequence > sequence {
        return;
      }
      Remove(unit);
      if |data| == 0 || |data| > maxBytes {
        return;
      }
      MakeRoom(|data|);
      EvictedSubset(old(entries) - {unit}, entries, unit);
      LaterTick(entries, recency, tick);
      tick := tick + 1;
      var entry := Entry(sequence, data, now, tick);
      AddWeight(entries, unit, entry);
      AddIndex(entries, recency, tick, unit, entry);
      EmptyWeight(entries);
      assert entries[unit := entry] - {unit} == entries;
      entries := entries[unit := entry];
      recency := recency[tick := unit];
      bytes := bytes + |data|;
    }

    /** Plaintext of exactly `(unit, sequence)`. A stale or expired entry is
        evicted; a lookup for an older version leaves a newer entry alone. */
    method Lookup(unit: nat, sequence: nat, now: nat) returns (data: Option<Bytes>)
      requires Valid()
      modifies this`entries, this`recency, this`bytes, this`tick, this`hits, this`misses
      ensures Valid()
      ensures data.Some? <==>
        (unit in old(entries) && old(entries)[unit].sequence == sequence && 0 < ttl && now < old(entries)[unit].insertedAt + ttl)
      ensures data.Some? ==> data.value == old(entries)[unit].data
      ensures data.Some? ==>
        unit in entries && entries == old(entries)[unit := old(entries)[unit].(lastUsed := tick)] && tick == old(tick) + 1
      ensures data.None? ==>
        var kept := unit in old(entries) && old(entries)[unit].sequence > sequence && 0 < ttl && now < old(entries)[unit].insertedAt + ttl;
        entries == if kept then old(entries) else old(entries) - {unit}
      ensures if data.Some? then hits == old(hits) + 1 && misses == old(misses) else misses == old(misses) + 1 && hits == old(hits)
    {
      hide Sum, Sizes, IndexOk;
      data := None;
      if unit in entries {
        var entry := entries[unit];
        if entry.sequence == sequence && Alive(entry, now, ttl) {
          data := Some(entry.data);
        } else if !(entry.sequence > sequence && Alive(entry, now, ttl)) {
          Remove(unit);
        }
      }
      if data.Some? {
        Touch(unit);
        hits := hits + 1;
      } else {
        misses := misses + 1;
      }
    }

    /** Write path: older plaintext of the unit is dead. */
    method Invalidate(unit: nat)
      requires Valid()
      modifies this`entries, this`recency, this`bytes
      ensures Valid() && entries == old(entries) - {unit}
    {
      hide Sum, Sizes, IndexOk;
      Remove(unit);
    }

    method Clear()
      modifies this`entries, this`recency, this`bytes
      ensures Indexed() && entries == map[] && bytes == 0
    {
      entries, recency, bytes := map[], map[], 0;
    }

    /** Runtime resize: shrinking evicts at once, zero disables. */
    method Reconfigure(maxBytes: nat, ttl: Option<nat>)
      requires Valid()
      modifies this`entries, this`recency, this`bytes, this`maxBytes, this`ttl
      ensures Valid() && this.maxBytes == maxBytes
      ensures this.ttl == if ttl.Some? then ttl.value else old(this.ttl)
      ensures EvictedOldest(old(entries), entries)
      ensures maxBytes > 0 ==> EvictedNoMore(old(entries), entries, 0, maxBytes)
    {
      hide Sum, Sizes, IndexOk, EvictedNoMore;
      if ttl.Some? {
        this.ttl := ttl.value;
      }
      this.maxBytes := maxBytes;
      if maxBytes == 0 {
        Clear();
      } else {
        MakeRoom(0);
        EmptyWeight(entries);
      }
    }
  }

  /** The entry has not outlived its time; clock steps backwards count as no time. */
  predicate Alive(entry: Entry, now: nat, ttl: nat) {
    (if now >= entry.insertedAt then now - entry.insertedAt else 0) < ttl
  }

  lemma IndexFacts(entries: Entries, recency: map<nat, nat>, tick: nat)
    requires IndexOk(entries, recency, tick)
    ensures recency == map[] ==> entries == map[]
    ensures forall t :: t in recency ==> recency[t] in entries
  {
  }

  lemma RemoveIndex(entries: Entries, recency: map<nat, nat>, tick: nat, u: nat)
    requires IndexOk(entries, recency, tick) && u in entries
    ensures IndexOk(entries - {u}, recency - {entries[u].lastUsed}, tick)
  {
  }

  lemma LaterTick(entries: Entries, recency: map<nat, nat>, tick: nat)
    requires IndexOk(entries, recency, tick)
    ensures IndexOk(entries, recency, tick + 1) && tick + 1 !in recency
  {
  }

  lemma AddIndex(entries: Entries, recency: map<nat, nat>, tick: nat, u: nat, e: Entry)
    requires IndexOk(entries, recency, tick) && tick !in recency && u !in entries && e.data != [] && e.lastUsed == tick
    ensures IndexOk(entries[u := e], recency[tick := u], tick)
  {
  }

  lemma TouchIndex(entries: Entries, recency: map<nat, nat>, tick: nat, u: nat)
    requires IndexOk(entries, recency, tick) && tick !in recency && u in entries
    ensures IndexOk(entries[u := entries[u].(lastUsed := tick)], (recency - {entries[u].lastUsed})[tick := u], tick)
  {
    hide IndexOk;
    var e := entries[u].(lastUsed := tick);
    var rest, ticks := entries - {u}, recency - {entries[u].lastUsed};
    RemoveIndex(entries, recency, tick, u);
    assert e.data != [] by { NonEmpty(entries, recency, tick, u); }
    AddIndex(rest, ticks, tick, u, e);
    assert rest[u := e] == entries[u := e];
  }

  lemma NonEmpty(entries: Entries, recency: map<nat, nat>, tick: nat, u: nat)
    requires IndexOk(entries, recency, tick) && u in entries
    ensures entries[u].data != []
  {
  }

  lemma NothingEvicted(entries: Entries, need: nat, maxBytes: nat)
    ensures EvictedOldest(entries, entries) && EvictedNoMore(entries, entries, need, maxBytes)
  {
  }

  lemma EmptyWeight(entries: Entries)
    ensures entries == map[] ==> Sum(Sizes(entries)) == 0
  {
    if entries == map[] {
      assert Sizes(entries) == map[];
    }
  }

  lemma EvictedSubset(before: Entries, after: Entries, u: nat)
    requires EvictedOldest(before, after) && u !in before
    ensures u !in after
  {
  }

  lemma RemoveWeight(entries: Entries, u: nat)
    requires u in entries
    ensures Sum(Sizes(entries)) == |entries[u].data| + Sum(Sizes(entries - {u}))
  {
    SumRemove(Sizes(entries), u);
    assert Sizes(entries) - {u} == Sizes(entries - {u});
  }

  lemma SameWeight(entries: Entries, u: nat, e: Entry)
    requires u in entries && e.data == entries[u].data
    ensures Sum(Sizes(entries[u := e])) == Sum(Sizes(entries))
  {
    assert Sizes(entries[u := e]) == Sizes(entries);
  }

  lemma AddWeight(entries: Entries, u: nat, e: Entry)
    requires u !in entries
    ensures Sum(Sizes(entries[u := e])) == Sum(Sizes(entries)) + |e.data|
  {
    RemoveWeight(entries[u := e], u);
    assert entries[u := e] - {u} == entries;
  }

  lemma {:induction false} LeastTick(recency: map<nat, nat>) returns (t: nat)
    requires recency != map[]
    ensures t in recency && forall j :: j in recency ==> t <= j
    decreases |recency|
  {
    t :| t in recency;
    var rest := recency - {t};
    if rest != map[] {
      var l := LeastTick(rest);
      assert forall j :: j in recency ==> j == t || j in rest;
      if l < t { t := l; }
    }
  }

  /** Taking the smallest tick keeps the eviction in order, and needed. */
  lemma EvictNext(before: Entries, now: Entries, recency: map<nat, nat>, tick: nat, t: nat, need: nat, maxBytes: nat)
    requires IndexOk(now, recency, tick) && t in recency && (forall j :: j in recency ==> t <= j)
    requires EvictedOldest(before, now) && Sum(Sizes(now)) + need > maxBytes
    ensures recency[t] in now
    ensures
      var after := now - {recency[t]};
      EvictedOldest(before, after) && EvictedNoMore(before, after, need, maxBytes)
  {
    hide Sum;
    var u := recency[t];
    var after := now - {u};
    RemoveWeight(now, u);
    forall w | w in now && w != u
      ensures now[u].lastUsed < now[w].lastUsed
    {
      assert now[w].lastUsed in recency && recency[now[w].lastUsed] == w;
    }
    forall x | LastEvicted(before, after, x)
      ensures x == u
    {
      assert u in before && u !in after;
      assert before[u].lastUsed <= before[x].lastUsed;
    }
  }
}
