/** The ciphertext volume: journal, overlay, slots and checkpoint together.

  A checkpoint runs in three phases, with writes, discards and flushes in
  between. Any I/O step may fail. After every step that changes the disk the
  volume records what a crash would find; `Valid` says that all of it is safe.
 */
module Volume {
  import opened Records
  import opened SegmentFile
  import opened JournalScan
  import opened JournalDisk
  import opened Journal
  import opened Overlay
  import opened Slots
  import opened Sums

  /** What a crash finds: journal directory, slots and bits, checkpoint register. */
  datatype CrashPoint = CrashPoint(journal: Snapshot, store: Store, cks: set<nat>)

  ghost predicate PointSafe(p: CrashPoint, discard: bool, geometry: Geometry) {
    var h := p.journal.history;
    && CrashSafe(p.journal.disk, h, p.journal.open)
    && SlotsSafe(p.store, h.log, h.durable, p.cks, discard)
    && StoreOk(p.store)
    && p.cks != {}
    && (forall c :: c in p.cks ==> h.floor <= c <= h.durable)
    && (forall r :: r in h.issued ==> Fits(r, geometry))
  }

  /** A later history: nothing acknowledged is lost, and nothing was issued that
      nobody asked for. */
  ghost predicate Covers(a: History, asked: set<Record>, b: History) {
    Agree(a.log, b.log, a.durable) && a.durable <= b.durable && b.issued <= asked
  }

  lemma CoversExtended(a: History, asked: set<Record>, b: History, c: History, d: History)
    requires Covers(a, asked, b) && Extends(b, c) && b.durable <= |b.log|
    requires Extends(c, d) && d.issued <= asked
    ensures Covers(a, asked, c)
  {
  }

  lemma ExtendsItself(h: History)
    ensures Extends(h, h)
  {
  }

  /** A checkpoint under way: the versions it copies and how far it got. */
  datatype Plan = Plan(
    base: nat,
    horizon: nat,
    items: map<nat, Version>,
    todo: set<nat>,
    half: Option<nat>,
    unsynced: set<nat>,
    failures: nat)

  /** The plan `prepare_checkpoint` makes of the promoted overlay. */
  function Prepared(units: Units, durable: nat, checkpoint: nat, failures: nat, discard: bool): Plan {
    var items := if durable <= checkpoint then map[] else CollectDurable(units, durable);
    var targets := set u | u in items && !(discard && items[u].data == []);
    Plan(checkpoint, Max(durable, checkpoint), items, targets, None, targets, failures)
  }

  datatype Maintenance = Sync | Prepare | Header(unit: nat) | Payload | SyncSlots(unit: nat) | Abandon | Finish

  predicate IsTarget(plan: Plan, u: nat, discard: bool) {
    u in plan.items && !(discard && plan.items[u].data == [])
  }

  /** The slot of a copied item. While no reservation sync failed, the next
      successful shard sync settles it. */
  ghost predicate Copied(plan: Plan, st: Store, u: nat)
    requires u in plan.items
  {
    var v := plan.items[u];
    && At(st, u).cache == Full(v)
    && Full(v) in At(st, u).poss
    && (st.failures == plan.failures ==> (u in plan.unsynced && At(st, u).dirty) || At(st, u).poss == {Full(v)})
  }

  ghost predicate PlanOk(plan: Plan, st: Store, log: seq<Record>, durable: nat, retired: nat,
                         checkpoint: nat, cks: set<nat>, discard: bool) {
    && retired <= plan.base == checkpoint <= plan.horizon <= durable <= |log|
    && (forall c :: c in cks ==> c <= plan.horizon)
    && (forall u :: u in plan.items ==> IsItem(log, plan.horizon, u, plan.items[u]))
    && (plan.horizon > plan.base ==> forall u :: Newest(log, plan.horizon, u) > retired ==> u in plan.items)
    && (forall u :: u in plan.todo ==> IsTarget(plan, u, discard) && u in plan.unsynced)
    && (plan.half.Some? ==> plan.half.value in plan.todo)
    && (forall u :: IsTarget(plan, u, discard) && u !in plan.todo ==> Copied(plan, st, u))
    && st.failures >= plan.failures
  }

  /** Everything but the overlay: slots, checkpoint and plan agree with the history. */
  ghost predicate VolumeOk(h: History, st: Store, checkpoint: nat, cks: set<nat>, plan: Option<Plan>,
                           retired: nat, discard: bool, geometry: Geometry) {
    && h.durable <= |h.log|
    && StoreOk(st)
    && SlotsSafe(st, h.log, h.durable, cks, discard)
    && LiveOk(st, h.log, checkpoint, discard)
    && h.floor == checkpoint && checkpoint in cks
    && (forall c :: c in cks ==> checkpoint <= c <= h.durable)
    && retired <= checkpoint
    && (forall r :: r in h.issued ==> Fits(r, geometry))
    && (!discard ==> st.discarded == {} && st.dirtyBits == {} && st.bits == map[])
    && (plan.Some? ==> PlanOk(plan.value, st, h.log, h.durable, retired, checkpoint, cks, discard))
  }

  /** The history grew by at most one record, or its durable boundary moved. */
  lemma VolumeGrows(h: History, h': History, st: Store, checkpoint: nat, cks: set<nat>, plan: Option<Plan>,
                    retired: nat, discard: bool, geometry: Geometry)
    requires VolumeOk(h, st, checkpoint, cks, plan, retired, discard, geometry)
    requires Extends(h, h') && h'.durable <= |h'.log| <= |h.log| + 1
    requires forall r :: r in h'.issued ==> Fits(r, geometry)
    ensures VolumeOk(h', st, checkpoint, cks, plan, retired, discard, geometry)
  {
    hide PlanOk, SlotsSafe, LiveOk;
    GrowSafe(st, h.log, h.durable, h'.log, h'.durable, cks, discard);
    if |h'.log| == |h.log| {
      assert h'.log == h.log;
    } else {
      AppendLive(st, h.log, h'.log[|h.log|], checkpoint, discard);
      assert h'.log == h.log + [h'.log[|h.log|]];
    }
    if plan.Some? {
      PlanGrows(plan.value, st, h, h', retired, checkpoint, cks, discard);
    }
  }

  lemma PlanGrows(plan: Plan, st: Store, h: History, h': History, retired: nat, checkpoint: nat, cks: set<nat>, discard: bool)
    requires PlanOk(plan, st, h.log, h.durable, retired, checkpoint, cks, discard)
    requires Extends(h, h') && h'.durable <= |h'.log|
    ensures PlanOk(plan, st, h'.log, h'.durable, retired, checkpoint, cks, discard)
  {
    hide Copied, Newest, IsTarget;
    forall u
      ensures Newest(h'.log, plan.horizon, u) == Newest(h.log, plan.horizon, u)
      ensures u in plan.items ==> IsItem(h'.log, plan.horizon, u, plan.items[u])
    {
      ReadingPrefix(h.log, h'.log, plan.horizon, u, discard);
      NewestIsRecord(h.log, plan.horizon, u);
    }
  }

  lemma NewestIsRecord(log: seq<Record>, k: nat, u: nat)
    requires k <= |log|
    ensures Newest(log, k, u) <= k
  {
  }

  ghost function Points(since: seq<Snapshot>, st: Store, cks: set<nat>): (p: seq<CrashPoint>)
    ensures |p| == |since|
    ensures forall i :: 0 <= i < |p| ==> p[i] == CrashPoint(since[i], st, cks)
  {
    seq(|since|, i requires 0 <= i < |since| => CrashPoint(since[i], st, cks))
  }

  /** A crash inside a journal call finds the slots as the call found them. */
  lemma PointGrows(anchor: History, s: Snapshot, now: History, st: Store, checkpoint: nat, cks: set<nat>,
                   plan: Option<Plan>, retired: nat, discard: bool, geometry: Geometry)
    requires VolumeOk(anchor, st, checkpoint, cks, plan, retired, discard, geometry)
    requires CrashSafe(s.disk, s.history, s.open) && Extends(anchor, s.history) && Extends(s.history, now)
    requires forall r :: r in now.issued ==> Fits(r, geometry)
    ensures PointSafe(CrashPoint(s, st, cks), discard, geometry)
  {
    hide PlanOk, SlotsSafe, LiveOk, StoreOk, FileOk, Ordered, Stored, ProofOk, MarkOk;
    GrowSafe(st, anchor.log, anchor.durable, s.history.log, s.history.durable, cks, discard);
  }

  /** The proof a crash shows demands all that was acknowledged. */
  ghost predicate SnapshotVouched(s: Snapshot) {
    Vouched(s.disk, s.history.floor, s.history.durable)
  }

  /** An operation that appended `n` records of `len` bytes, one at most, leaves no
      more unsynced than that behind what was. */
  predicate PendsMore(before: nat, after: nat, n: int, len: nat, geometry: Geometry) {
    if n == 0 then after <= before else len <= geometry.maxPayload && after <= before + RECORD_HEADER_BYTES + len
  }

  /** No sealed segment is left that the checkpoint covers. */
  ghost predicate NoneCovered(sealed: seq<SegInfo>, checkpoint: nat) {
    forall i :: 0 <= i < |sealed| ==> LastSequence(sealed[i]) > checkpoint
  }

  class Volume {
    const journal: JournalWriter
    const overlay: Overlay
    const discard: bool
    const geometry: Geometry
    const unitsPerShard: nat
    var store: Store
    var checkpoint: nat
    /** Values of the checkpoint register a crash may find. */
    var cks: set<nat>
    /** The one checkpoint the gate admits. */
    var plan: Option<Plan>
    ghost var retired: nat
    ghost var crashes: seq<CrashPoint>
    /** Where the caller last looked: `crashes[since..]` are the crash points
        since, none of which lost anything acknowledged in `origin`. */
    ghost var origin: History
    ghost var since: nat
    /** Every record a request could have issued. */
    ghost var requested: set<Record>

    ghost predicate CrashesSafe()
      reads this`crashes, this`origin, this`since, this`requested
    {
      && (forall k :: 0 <= k < |crashes| ==> PointSafe(crashes[k], discard, geometry))
      && (forall k :: 0 <= k < |crashes| ==> SnapshotVouched(crashes[k].journal))
      && since <= |crashes|
      && (forall k :: since <= k < |crashes| ==> Covers(origin, requested, crashes[k].journal.history))
    }

    ghost predicate StoreValid()
      reads this, journal
    {
      && journal.Valid()
      && VolumeOk(journal.history, store, checkpoint, cks, plan, retired, discard, geometry)
      && Covers(origin, requested, journal.history)
      && CrashesSafe()
    }

    ghost predicate Valid()
      reads this, journal, overlay
    {
      && StoreValid()
      && overlay.Accounted()
      && Tracks(overlay.units, overlay.pending, journal.history.log, journal.history.durable, retired)
      && overlay.durableBoundary <= journal.history.durable
      && (overlay.units != map[] ==> overlay.durableBoundary == journal.history.durable)
    }

    /** A volume as recovery leaves it: everything durable is checkpointed. */
    constructor (journal: JournalWriter, overlay: Overlay, store: Store, checkpoint: nat,
                 discard: bool, geometry: Geometry, unitsPerShard: nat)
      requires journal.Valid() && checkpoint == journal.history.durable == |journal.history.log|
      requires overlay.Accounted() && overlay.units == map[] && overlay.pending == map[] && overlay.durableBoundary <= checkpoint
      requires VolumeOk(journal.history, store, checkpoint, {checkpoint}, None, checkpoint, discard, geometry)
      ensures Valid()
      ensures this.journal == journal && this.overlay == overlay && this.store == store
      ensures this.checkpoint == checkpoint && cks == {checkpoint} && plan == None
      ensures this.discard == discard && this.geometry == geometry && origin == journal.history
      ensures requested == journal.history.issued
    {
      this.journal, this.overlay, this.store, this.checkpoint := journal, overlay, store, checkpoint;
      this.discard, this.geometry, this.unitsPerShard := discard, geometry, unitsPerShard;
      cks, plan, retired, crashes := {checkpoint}, None, checkpoint, [];
      origin, since, requested := journal.history, 0, journal.history.issued;
      new;
      hide VolumeOk, WriterOk, CrashSafe, PointSafe, Newest;
    }

    /** Account for the crash points of the journal call that just ended. */
    ghost method Absorb()
      requires journal.Valid() && CrashesSafe()
      requires VolumeOk(journal.anchor, store, checkpoint, cks, plan, retired, discard, geometry)
      requires |journal.history.log| <= |journal.anchor.log| + 1 && Covers(origin, requested, journal.anchor)
      requires forall r :: r in journal.history.issued ==> Fits(r, geometry)
      requires journal.history.issued <= requested
      modifies this`crashes
      ensures StoreValid()
      ensures crashes == old(crashes) + Points(journal.trace[journal.mark..], store, cks)
    {
      hide VolumeOk, CrashSafe, WriterOk, PointSafe, Peak, Extends;
      VolumeFits(journal.anchor, store, checkpoint, cks, plan, retired, discard, geometry);
      var snaps := journal.trace[journal.mark..];
      var points := Points(snaps, store, cks);
      forall i | 0 <= i < |points|
        ensures PointSafe(points[i], discard, geometry) && Covers(origin, requested, points[i].journal.history)
        ensures SnapshotVouched(points[i].journal)
      {
        assert snaps[i] == journal.trace[journal.mark + i];
        CoversExtended(origin, requested, journal.anchor, snaps[i].history, journal.history);
        PointGrows(journal.anchor, snaps[i], journal.history, store, checkpoint, cks, plan, retired, discard, geometry);
      }
      HistoryBounds(journal);
      ExtendsItself(journal.history);
      CoversExtended(origin, requested, journal.anchor, journal.history, journal.history);
      VolumeGrows(journal.anchor, journal.history, store, checkpoint, cks, plan, retired, discard, geometry);
      crashes := crashes + points;
    }

    /** Start watching crash points from here. */
    ghost method Watch()
      requires Valid()
      modifies this`origin, this`since
      ensures Valid() && origin == journal.history && since == |crashes|
    {
      hide VolumeOk, CrashSafe, WriterOk, PointSafe, Peak, Tracks;
      VolumeFits(journal.history, store, checkpoint, cks, plan, retired, discard, geometry);
      origin, since := journal.history, |crashes|;
    }

    /** A request that may issue `r` begins. */
    ghost method Request(r: Record)
      requires Valid()
      modifies this`requested
      ensures Valid() && requested == old(requested) + {r}
    {
      hide VolumeOk, CrashSafe, WriterOk, PointSafe, Peak, Tracks;
      requested := requested + {r};
    }

    ghost function Log(): seq<Record>
      reads journal
    {
      journal.history.log
    }

    /** What a unit reads: the newest of all appended records that names it. */
    ghost function Content(unit: nat): Option<Version>
      reads journal
    {
      Reading(journal.history.log, |journal.history.log|, unit, discard)
    }

    /** The volume reads as the fold of its whole history. */
    lemma ReadsAsFold(unit: nat)
      requires Valid()
      ensures Content(unit) ==
        var m := Fold(Log(), |Log()|, discard);
        if unit in m then Some(m[unit]) else None
    {
      hide VolumeOk, CrashSafe, WriterOk, PointSafe, Peak, Tracks;
      HistoryBounds(journal);
      ReadingIsFold(Log(), |Log()|, unit, discard);
    }

    /** The volume's own audit, with those of the journal and the overlay. */
    lemma CheckInvariants()
      requires Valid()
      ensures checkpoint <= journal.durableSequence && Journal.Sane(journal)
      ensures overlay.bytes == Sum(TotalWeights(overlay.units)) && overlay.latestBytes == Sum(LatestWeights(overlay.units))
      ensures Audited(overlay.units, overlay.pending, overlay.durableBoundary)
      ensures forall u :: u in overlay.units ==> retired < overlay.units[u].latest.sequence <= journal.appendedSequence
    {
      hide VolumeOk, CrashSafe, WriterOk, PointSafe, Peak, Tracks, Covers, Sane, Audited;
      VolumeFits(journal.history, store, checkpoint, cks, plan, retired, discard, geometry);
      Journal.CheckInvariants(journal);
      OverlayAudit(overlay.units, overlay.pending, Log(), journal.history.durable, overlay.durableBoundary, retired);
    }

    /** The overlay holds exactly what is above the retired checkpoint: a unit's
        durable version is its newest record at or below the durable boundary. */
    lemma OverlayIsExact(unit: nat)
      requires Valid()
      ensures
        var n, m := Newest(Log(), |Log()|, unit), Newest(Log(), journal.history.durable, unit);
        && (unit in overlay.units <==> n > retired)
        && (unit in overlay.units ==>
              && overlay.units[unit].latest == Version(n, Log()[n - 1].payload)
              && overlay.units[unit].durable == if m > retired then Some(Version(m, Log()[m - 1].payload)) else None)
    {
      hide VolumeOk, CrashSafe, WriterOk, PointSafe, Peak, Newest, Covers, Sum, Tracks;
      TracksBounds(overlay.units, overlay.pending, Log(), journal.history.durable, retired);
      TracksExactly(overlay.units, overlay.pending, Log(), journal.history.durable, retired, unit);
    }

    /** The journal part of a write or discard. */
    method AppendRecord(unit: nat, payload: Bytes) returns (sequence: Option<nat>)
      requires StoreValid() && unit < geometry.units && |payload| <= geometry.maxPayload
      requires Record(|Log()| + 1, unit, payload) in requested
      modifies journal, this`crashes
      ensures StoreValid()
      ensures Log() == if sequence.Some? then old(Log()) + [Record(|old(Log())| + 1, unit, payload)] else old(Log())
      ensures sequence.Some? ==> sequence.value == |Log()|
      ensures journal.history.durable in {old(journal.history.durable), |old(Log())|}
      ensures journal.PendingBytes() <= old(journal.PendingBytes()) + if sequence.Some? then RECORD_HEADER_BYTES + |payload| else 0
    {
      hide VolumeOk, CrashSafe, WriterOk, PointSafe, Peak;
      journal.Watch();
      VolumeFits(journal.history, store, checkpoint, cks, plan, retired, discard, geometry);
      sequence := journal.Append(unit, payload);
      Absorb();
    }

    method SyncJournal() returns (ok: bool)
      requires StoreValid()
      modifies journal, this`crashes
      ensures StoreValid()
      ensures journal.history == old(journal.history).(durable := journal.durableSequence)
      ensures journal.durableSequence == if ok then |Log()| else old(journal.history.durable)
      ensures journal.PendingBytes() == if ok then 0 else old(journal.PendingBytes())
    {
      hide VolumeOk, CrashSafe, WriterOk, PointSafe, Peak;
      journal.Watch();
      VolumeFits(journal.history, store, checkpoint, cks, plan, retired, discard, geometry);
      ok := journal.Sync();
      Absorb();
    }

    /** One store I/O step: the only place where slots and registers change. */
    method StoreIo(st: Store, cs: set<nat>)
      requires CrashesSafe() && Covers(origin, requested, journal.history)
      requires PointSafe(CrashPoint(Now(), st, cs), discard, geometry) && SnapshotVouched(Now())
      modifies this`store, this`cks, this`crashes
      ensures store == st && cks == cs && CrashesSafe()
      ensures crashes == old(crashes) + [CrashPoint(Now(), st, cs)]
    {
      hide PointSafe;
      store, cks := st, cs;
      crashes := crashes + [CrashPoint(Now(), st, cs)];
    }

    /** The journal as a crash would find it now. */
    ghost function Now(): Snapshot
      reads journal
    {
      Snapshot(journal.disk, journal.history, OpenIndex(journal.View()))
    }

    function Shard(st: Store, unit: nat): set<nat>
      requires unitsPerShard > 0
    {
      set u | u in st.slots && u / unitsPerShard == unit / unitsPerShard
    }

    /** Reserve the slot a later checkpoint will need. A failed barrier may have
        cleared the dirty bits of a checkpoint's slot writes: it is counted. */
    method ReserveSlot(unit: nat) returns (ok: bool)
      requires Valid()
      modifies this`store, this`cks, this`crashes
      ensures Valid() && (ok ==> unit < geometry.units && unitsPerShard > 0)
      ensures ok ==> store == SyncShard(old(store), Shard(old(store), unit), true)
      ensures store == old(store) || ok || store.failures == old(store).failures + 1
    {
      hide VolumeOk, CrashSafe, WriterOk, PointSafe, Peak, Tracks;
      if unit >= geometry.units || unitsPerShard == 0 {
        return false;
      }
      ok := *;
      if !ok { return; }
      ok := *;
      var st := SyncShard(store, Shard(store, unit), ok);
      if !ok {
        st := st.(failures := st.failures + 1);
      }
      ReserveSafe(journal.history, store, st, Shard(store, unit), ok, checkpoint, cks, plan, retired, discard, geometry);
      PointNow(Now(), st, checkpoint, cks, plan, retired, discard, geometry);
      StoreIo(st, cks);
    }

    /** Bring the overlay's boundary up to the journal's: always before a publish. */
    method PromoteOverlay(ghost log: seq<Record>, ghost durable: nat)
      requires StoreValid() && overlay.Accounted()
      requires Tracks(overlay.units, overlay.pending, log, durable, retired)
      requires journal.history.durable == durable || journal.history.durable == |log|
      requires overlay.durableBoundary <= journal.history.durable
      modifies overlay
      ensures overlay.Accounted() && overlay.durableBoundary == journal.history.durable
      ensures Tracks(overlay.units, overlay.pending, log, journal.history.durable, retired)
      ensures overlay.units == Promoted(old(overlay.units), old(overlay.pending), journal.history.durable)
      ensures TookIn(old(overlay.units), overlay.units, 0, 0)
    {
      hide VolumeOk, CrashSafe, WriterOk, PointSafe, Peak, Tracks;
      PromoteTracks(overlay.units, overlay.pending, log, durable, journal.history.durable, retired);
      PromoteTakesIn(overlay.units, overlay.pending, log, durable, journal.history.durable, retired);
      overlay.Promote(journal.durableSequence);
    }

    /** Make a FUA request's record durable, and see it in the overlay. */
    method Barrier(sequence: nat) returns (ok: bool)
      requires Valid() && sequence <= |Log()|
      modifies journal, overlay, this`crashes
      ensures Valid() && Log() == old(Log())
      ensures ok ==> sequence <= journal.history.durable
      ensures journal.history.durable >= old(journal.history.durable)
      ensures journal.PendingBytes() <= old(journal.PendingBytes())
      ensures TookIn(old(overlay.units), overlay.units, 0, 0)
    {
      hide VolumeOk, CrashSafe, WriterOk, PointSafe, Peak, Tracks;
      VolumeFits(journal.history, store, checkpoint, cks, plan, retired, discard, geometry);
      ok := SyncJournal();
      PromoteOverlay(Log(), old(journal.history.durable));
      if ok && journal.durableSequence < sequence {
        ok := false;
      }
    }

    /** Append one record and publish it: promote first, then publish. */
    method JournalAndPublish(unit: nat, payload: Bytes) returns (sequence: Option<nat>)
      requires Valid() && unit < geometry.units && |payload| <= geometry.maxPayload
      requires Record(|Log()| + 1, unit, payload) in requested
      modifies journal, overlay, this`crashes
      ensures Valid()
      ensures Log() == if sequence.Some? then old(Log()) + [Record(|old(Log())| + 1, unit, payload)] else old(Log())
      ensures sequence.Some? ==> sequence.value == |Log()|
      ensures journal.history.durable >= old(journal.history.durable)
      ensures journal.PendingBytes() <= old(journal.PendingBytes()) + if sequence.Some? then RECORD_HEADER_BYTES + |payload| else 0
      ensures TookIn(old(overlay.units), overlay.units, |payload|, 1)
    {
      hide VolumeOk, CrashSafe, WriterOk, PointSafe, Peak, Tracks;
      VolumeFits(journal.history, store, checkpoint, cks, plan, retired, discard, geometry);
      ghost var log := Log();
      sequence := AppendRecord(unit, payload);
      PromoteOverlay(log, old(journal.history.durable));
      if sequence.None? {
        return;
      }
      PublishRecord(unit, sequence.value, payload, log);
    }

    method PublishRecord(unit: nat, sequence: nat, payload: Bytes, ghost log: seq<Record>)
      requires StoreValid() && overlay.Accounted()
      requires Tracks(overlay.units, overlay.pending, log, journal.history.durable, retired)
      requires sequence == |log| + 1 && Log() == log + [Record(sequence, unit, payload)]
      requires overlay.durableBoundary <= journal.history.durable
      modifies overlay
      ensures Valid()
      ensures TookIn(old(overlay.units), overlay.units, |payload|, 1)
    {
      hide VolumeOk, CrashSafe, WriterOk, PointSafe, TookIn, Tracks, Promoted;
      ghost var before := overlay.units;
      PublishTracks(overlay.units, overlay.pending, log, Record(sequence, unit, payload), journal.history.durable, retired);
      LatestBelow(overlay.units, overlay.pending, log, journal.history.durable, retired, unit);
      PublishTakesIn(overlay.units, unit, Version(sequence, payload));
      overlay.Publish(unit, sequence, payload);
      ghost var published := overlay.units;
      PromoteOverlay(Log(), journal.history.durable);
      TookInBoth(before, published, overlay.units, |payload|, 1);
    }

    /** `write_ct`: on success the unit reads the new version; with `fua` it is
        durable. On failure the request's record may or may not be visible. */
    method WriteCt(unit: nat, ciphertext: Bytes, fua: bool) returns (sequence: Option<nat>)
      requires Valid()
      modifies this`store, this`cks, this`crashes, this`requested, journal, overlay
      ensures Valid()
      ensures requested == old(requested) + {Record(|old(Log())| + 1, unit, ciphertext)}
      ensures Log() == old(Log()) || Log() == old(Log()) + [Record(|old(Log())| + 1, unit, ciphertext)]
      ensures sequence.Some? ==> Log() == old(Log()) + [Record(|old(Log())| + 1, unit, ciphertext)]
      ensures sequence.Some? ==> sequence.value == |Log()| && (fua ==> sequence.value <= journal.history.durable)
      ensures journal.history.durable >= old(journal.history.durable)
      ensures sequence.Some? ==>
        unit < geometry.units && unitsPerShard > 0 && store == SyncShard(old(store), Shard(old(store), unit), true)
      ensures PendsMore(old(journal.PendingBytes()), journal.PendingBytes(), |Log()| - |old(Log())|, |ciphertext|, geometry)
      ensures TookIn(old(overlay.units), overlay.units, |ciphertext|, 1)
    {
      hide Volume.Valid, Peak;
      sequence := None;
      Request(Record(|Log()| + 1, unit, ciphertext));
      var refused: bool := *;
      if refused { return; }
      var ok, _ := journal.CheckAppend(|ciphertext|);
      if !ok || |ciphertext| > geometry.maxPayload {
        return;
      }
      ok := ReserveSlot(unit);
      if !ok { return; }
      var appended := JournalAndPublish(unit, ciphertext);
      if appended.None? { return; }
      if fua {
        ok := Barrier(appended.value);
        if !ok { return; }
      }
      sequence := appended;
    }

    /** FLUSH: on success every appended record is durable. */
    method Flush() returns (ok: bool)
      requires Valid()
      modifies journal, overlay, this`crashes
      ensures Valid() && Log() == old(Log())
      ensures ok ==> journal.history.durable == |Log()|
      ensures journal.history.durable >= old(journal.history.durable)
      ensures journal.PendingBytes() == if ok then 0 else old(journal.PendingBytes())
      ensures TookIn(old(overlay.units), overlay.units, 0, 0)
    {
      hide VolumeOk, CrashSafe, WriterOk, PointSafe, Peak, Tracks;
      VolumeFits(journal.history, store, checkpoint, cks, plan, retired, discard, geometry);
      var refused: bool := *;
      if refused { return false; }
      ok := SyncJournal();
      PromoteOverlay(Log(), old(journal.history.durable));
    }

    /** `read_ct`: overlay first, then the slot. The error branch is never taken. */
    method ReadCt(unit: nat) returns (ok: bool, v: Option<Version>)
      requires Valid()
      ensures ok && v == Content(unit)
    {
      hide VolumeOk, PointSafe, Peak, Tracks, JournalWriter.Valid, Volume.CrashesSafe;
      VolumeFits(journal.history, store, checkpoint, cks, plan, retired, discard, geometry);
      LiveFacts(journal.history, store, checkpoint, cks, plan, retired, discard, geometry, unit);
      OverlayReads(overlay.units, overlay.pending, Log(), journal.history.durable, retired, unit, discard);
      ok, v := true, None;
      var latest := overlay.Get(unit);
      if latest.Some? {
        if !(discard && latest.value.data == []) {
          v := latest;
        }
        return;
      }
      match ReadSlot(store, unit) {
        case Zero =>
        case Ciphertext(version) => v := Some(version);
        case Eio => ok := false;
      }
    }

    /** `current_sequence`: the sequence `read_ct` would return. */
    method CurrentSequence(unit: nat) returns (ok: bool, s: Option<nat>)
      requires Valid()
      ensures ok && s == (match Content(unit) case None => None case Some(v) => Some(v.sequence))
    {
      hide VolumeOk, PointSafe, Peak, Tracks, JournalWriter.Valid, Volume.CrashesSafe;
      VolumeFits(journal.history, store, checkpoint, cks, plan, retired, discard, geometry);
      LiveFacts(journal.history, store, checkpoint, cks, plan, retired, discard, geometry, unit);
      OverlayReads(overlay.units, overlay.pending, Log(), journal.history.durable, retired, unit, discard);
      ok, s := true, None;
      var latest := overlay.Get(unit);
      if latest.Some? {
        if !(discard && latest.value.data == []) {
          s := Some(latest.value.sequence);
        }
        return;
      }
      match ReadSlot(store, unit) {
        case Zero =>
        case Ciphertext(version) => s := Some(version.sequence);
        case Eio => ok := false;
      }
    }

    /** `reclaim_unwritten`: a discard of a unit that reads zero journals nothing;
        an existing shard remembers the hint as a discard bit. */
    method ReclaimUnwritten(unit: nat) returns (ok: bool, skipped: bool)
      requires Valid()
      modifies this`store
      ensures Valid()
      ensures ok && discard ==> (skipped <==> Content(unit) == None)
      ensures ok && !skipped ==> Content(unit).Some?
      ensures overlay.Get(unit).None? && ok && skipped ==> Newest(Log(), |Log()|, unit) <= journal.history.durable
    {
      hide VolumeOk, CrashSafe, WriterOk, PointSafe, Peak, Tracks, SetDiscarded;
      ok, skipped := *, false;
      if !ok { return; }
      VolumeFits(journal.history, store, checkpoint, cks, plan, retired, discard, geometry);
      LiveFacts(journal.history, store, checkpoint, cks, plan, retired, discard, geometry, unit);
      OverlayReads(overlay.units, overlay.pending, Log(), journal.history.durable, retired, unit, discard);
      var latest := overlay.Get(unit);
      if latest.Some? {
        skipped := latest.value.data == [];
        return;
      }
      if ReadSlot(store, unit) != Zero {
        return;
      }
      var shardExists: bool := *;
      if shardExists {
        if !discard {
          ok := false;
          return;
        }
        ReclaimSafe(journal.history, store, checkpoint, cks, plan, retired, discard, geometry, unit);
        store := SetDiscarded(store, unit, true);
      }
      skipped := true;
    }

    /** `discard_ct`: on success the unit reads zero; with `fua`, durably so. */
    method DiscardCt(unit: nat, fua: bool) returns (sequence: Option<nat>)
      requires Valid()
      modifies this`store, this`cks, this`crashes, this`requested, this`plan, this`checkpoint, this`retired, journal, overlay
      ensures Valid()
      ensures requested == old(requested) + {Record(|old(Log())| + 1, unit, [])}
      ensures Log() == old(Log()) || Log() == old(Log()) + [Record(|old(Log())| + 1, unit, [])]
      ensures sequence.Some? ==> discard && Content(unit) == None
      ensures sequence.Some? && fua ==> Newest(Log(), |Log()|, unit) <= journal.history.durable
      ensures journal.history.durable >= old(journal.history.durable)
      ensures PendsMore(old(journal.PendingBytes()), journal.PendingBytes(), |Log()| - |old(Log())|, 0, geometry)
      ensures TookIn(old(overlay.units), overlay.units, 0, 1)
    {
      hide VolumeOk, CrashSafe, WriterOk, PointSafe, Peak, Tracks, Newest;
      sequence := None;
      Request(Record(|Log()| + 1, unit, []));
      var refused: bool := *;
      if refused || !discard || unit >= geometry.units { return; }
      var latest := overlay.Get(unit);
      if latest.Some? && latest.value.data == [] {
        OverlayReads(overlay.units, overlay.pending, Log(), journal.history.durable, retired, unit, discard);
        if fua {
          var ok := Barrier(latest.value.sequence);
          if !ok { return; }
        }
        return Some(latest.value.sequence);
      }
      if latest.None? {
        var ok, skipped := ReclaimUnwritten(unit);
        if !ok { return; }
        if skipped { return Some(journal.appendedSequence); }
      }
      if journal.nextSequence == U64_MAX { return; }
      sequence := DiscardRecord(unit, fua);
    }

    /** The tombstone of a unit that holds data. */
    method DiscardRecord(unit: nat, fua: bool) returns (sequence: Option<nat>)
      requires Valid() && discard && unit < geometry.units && Record(|Log()| + 1, unit, []) in requested
      modifies journal, overlay, this`crashes
      ensures Valid()
      ensures Log() == old(Log()) || Log() == old(Log()) + [Record(|old(Log())| + 1, unit, [])]
      ensures sequence.Some? ==> Content(unit) == None
      ensures sequence.Some? && fua ==> Newest(Log(), |Log()|, unit) <= journal.history.durable
      ensures journal.history.durable >= old(journal.history.durable)
      ensures PendsMore(old(journal.PendingBytes()), journal.PendingBytes(), |Log()| - |old(Log())|, 0, geometry)
      ensures TookIn(old(overlay.units), overlay.units, 0, 1)
    {
      hide VolumeOk, CrashSafe, WriterOk, PointSafe, Peak, Tracks;
      sequence := None;
      var appended := JournalAndPublish(unit, []);
      if appended.None? { return; }
      if fua {
        var ok := Barrier(appended.value);
        if !ok { return; }
      }
      sequence := appended;
    }

    /** Phase one, under the lock: fix the durable horizon and what to copy. */
    method PrepareCheckpoint() returns (ok: bool)
      requires Valid() && plan.None?
      modifies overlay, this`plan
      ensures Valid() && ok == plan.Some?
      ensures ok ==> plan.value.base == checkpoint && plan.value.horizon == journal.history.durable
      ensures TookIn(old(overlay.units), overlay.units, 0, 0)
    {
      hide VolumeOk, CrashSafe, WriterOk, PointSafe, Peak, Tracks, Promoted, CollectDurable;
      VolumeFits(journal.history, store, checkpoint, cks, plan, retired, discard, geometry);
      var durable := journal.durableSequence;
      PromoteOverlay(Log(), durable);
      ok := *;
      if !ok { return; }
      PreparedOk(journal.history, overlay.units, overlay.pending, store, checkpoint, cks, retired, discard, geometry);
      plan := Some(Prepared(overlay.units, durable, checkpoint, store.failures, discard));
    }

    /** Phase two, without the lock: one slot header. */
    method WriteHeader(unit: nat)
      requires Valid() && plan.Some? && plan.value.half.None? && unit in plan.value.todo
      modifies this`store, this`cks, this`crashes, this`plan
      ensures Valid() && plan == Some(old(plan).value.(half := Some(unit)))
    {
      hide VolumeOk, CrashSafe, WriterOk, PointSafe, Peak, Tracks;
      var p := plan.value;
      CopySafe(journal.history, store, checkpoint, cks, p, retired, discard, geometry, unit);
      var st := WriteSlotHeader(store, unit, p.items[unit]);
      PointNow(Now(), st, checkpoint, cks, Some(p.(half := Some(unit))), retired, discard, geometry);
      StoreIo(st, cks);
      plan := Some(p.(half := Some(unit)));
    }

    /** Phase two: the payload of the slot whose header was just written. */
    method WritePayload()
      requires Valid() && plan.Some? && plan.value.half.Some?
      modifies this`store, this`cks, this`crashes, this`plan
      ensures Valid()
      ensures plan == Some(old(plan).value.(half := None, todo := old(plan).value.todo - {old(plan).value.half.value}))
    {
      hide VolumeOk, CrashSafe, WriterOk, PointSafe, Peak, Tracks;
      var p := plan.value;
      var unit := p.half.value;
      HalfIsTodo(journal.history, store, checkpoint, cks, p, retired, discard, geometry);
      CopySafe(journal.history, store, checkpoint, cks, p, retired, discard, geometry, unit);
      var st := WriteSlotPayload(store, unit, p.items[unit]);
      var q := p.(half := None, todo := p.todo - {unit});
      PointNow(Now(), st, checkpoint, cks, Some(q), retired, discard, geometry);
      StoreIo(st, cks);
      plan := Some(q);
    }

    /** Phase two: sync one shard's data file; a failure abandons the plan. */
    method SyncPlanShard(unit: nat) returns (ok: bool)
      requires Valid() && plan.Some? && plan.value.todo == {} && plan.value.half.None?
      modifies this`store, this`cks, this`crashes, this`plan
      ensures Valid()
      ensures !ok ==> plan == None
      ensures ok ==> plan.Some? && plan.value.todo == {} && plan.value.half.None? && unit !in plan.value.unsynced
      ensures ok ==> plan.value.unsynced <= old(plan).value.unsynced
    {
      hide VolumeOk, CrashSafe, WriterOk, PointSafe, Peak, Tracks;
      if unitsPerShard == 0 {
        DropPlan(journal.history, store, checkpoint, cks, plan, retired, discard, geometry);
        plan := None;
        return false;
      }
      var p := plan.value;
      ok := *;
      var shard := Shard(store, unit);
      var st := SyncShard(store, shard, ok);
      var q := p.(unsynced := p.unsynced - shard - {unit});
      PlanSyncSafe(journal.history, store, shard, ok, checkpoint, cks, p, retired, discard, geometry, unit);
      PointNow(Now(), st, checkpoint, cks, if ok then Some(q) else None, retired, discard, geometry);
      StoreIo(st, cks);
      plan := if ok then Some(q) else None;
    }

    /** A failed slot write, or a caller that gives up: nothing was published. */
    method AbandonPlan()
      requires Valid()
      modifies this`plan
      ensures Valid() && plan == None
    {
      hide VolumeOk, CrashSafe, WriterOk, PointSafe, Peak, Tracks;
      DropPlan(journal.history, store, checkpoint, cks, plan, retired, discard, geometry);
      plan := None;
    }

    /** Phase three, under the lock: publish what phase two made durable. No step
        changes what any unit reads, and slots of units with records above the
        horizon are left alone. */
    method FinishCheckpoint() returns (ok: bool)
      requires Valid() && plan.Some? && plan.value.todo == {} && plan.value.half.None? && plan.value.unsynced == {}
      modifies this`store, this`cks, this`crashes, this`plan, this`checkpoint, this`retired, journal, overlay
      ensures Valid() && plan == None
      ensures Log() == old(Log()) && journal.history.durable == old(journal.history.durable)
      ensures ok ==> checkpoint == retired == old(plan).value.horizon && NoneCovered(journal.sealed, checkpoint)
      ensures checkpoint in {old(checkpoint), old(plan).value.horizon} && old(checkpoint) <= checkpoint
      ensures SameSlots(old(store), store, Log(), old(plan).value.horizon)
      ensures journal.PendingBytes() == old(journal.PendingBytes())
      ensures TookIn(old(overlay.units), overlay.units, 0, 0)
    {
      hide VolumeOk, CrashSafe, WriterOk, PointSafe, Peak, Tracks, SameSlots;
      var p := plan.value;
      PlanBounds(journal.history, store, checkpoint, cks, p, retired, discard, geometry);
      if store.failures != p.failures || checkpoint != p.base {
        AbandonPlan();
        SlotsUntouched(old(store), store, Log(), p.horizon);
        return false;
      }
      if p.horizon <= p.base {
        ok := FinishIdle();
        return;
      }
      ok := PersistPlan(p);
      if !ok {
        AbandonPlan();
        SlotsUntouched(old(store), store, Log(), p.horizon);
        return;
      }
      ghost var before := store;
      ok := PublishPlan(p);
      SlotsUntouched(old(store), before, Log(), p.horizon);
      SlotsStay(old(store), before, store, Log(), p.horizon);
    }

    /** Make the discard bits of the plan's items durable. */
    method PersistPlan(p: Plan) returns (ok: bool)
      requires Valid() && plan == Some(p)
      modifies this`store, this`cks, this`crashes
      ensures Valid() && store.slots == old(store).slots && store.failures == old(store).failures
      ensures ok ==> Persisted(store, p, discard)
    {
      hide VolumeOk, CrashSafe, WriterOk, PointSafe, Peak, Tracks, MayBits;
      ok := MarkDiscards(p);
      if ok {
        ok := PersistDiscards();
      }
    }

    /** The plan's slots and bits are durable: move the checkpoint and clean up. */
    method PublishPlan(p: Plan) returns (ok: bool)
      requires Valid() && plan == Some(p) && p.todo == {} && p.unsynced == {} && store.failures == p.failures
      requires p.horizon > p.base && Persisted(store, p, discard)
      modifies this`store, this`cks, this`crashes, this`plan, this`checkpoint, this`retired, journal, overlay
      ensures Valid() && plan == None
      ensures Log() == old(Log()) && journal.history.durable == old(journal.history.durable)
      ensures ok ==> checkpoint == retired == p.horizon && NoneCovered(journal.sealed, checkpoint)
      ensures checkpoint in {old(checkpoint), p.horizon}
      ensures SameSlots(old(store), store, Log(), p.horizon)
      ensures journal.PendingBytes() == old(journal.PendingBytes())
      ensures TookIn(old(overlay.units), overlay.units, 0, 0)
    {
      hide VolumeOk, PointSafe, Peak, Tracks, SameSlots, Persisted, MayPunch, Punchable, NoneCovered, JournalWriter.Valid, Volume.CrashesSafe, Freed;
      PlanBounds(journal.history, store, checkpoint, cks, p, retired, discard, geometry);
      var punchable := if discard then Punchable(overlay.units, p) else {};
      PunchableOk(journal.history, overlay.units, overlay.pending, store, checkpoint, cks, p, retired, discard, geometry);
      SlotsUntouched(store, store, Log(), p.horizon);
      ok := StoreCheckpoint(p);
      if !ok { return; }
      var punched := PunchSlots(punchable, p.horizon);
      ok := ReclaimJournal(true);
      if !ok { return; }
      RetireOverlay();
      if punched {
        ghost var before := store;
        var _ := RetryReclamation();
        SlotsStay(old(store), before, store, Log(), p.horizon);
      }
    }

    /** One step of flushing or checkpointing, if it applies now. None of them
        changes what any unit reads. */
    method Maintain(step: Maintenance)
      requires Valid()
      modifies this`store, this`cks, this`crashes, this`plan, this`checkpoint, this`retired, journal, overlay
      ensures Valid() && Log() == old(Log())
      ensures checkpoint >= old(checkpoint) && journal.history.durable >= old(journal.history.durable)
      ensures journal.PendingBytes() <= old(journal.PendingBytes())
      ensures TookIn(old(overlay.units), overlay.units, 0, 0)
    {
      hide Volume.Valid, Peak, SameSlots;
      match step {
        case Sync =>
          var _ := Flush();
        case Prepare =>
          if plan.None? {
            var _ := PrepareCheckpoint();
          }
        case Header(unit) =>
          if plan.Some? && plan.value.half.None? && unit in plan.value.todo {
            WriteHeader(unit);
          }
        case Payload =>
          if plan.Some? && plan.value.half.Some? {
            WritePayload();
          }
        case SyncSlots(unit) =>
          if plan.Some? && plan.value.todo == {} && plan.value.half.None? {
            var _ := SyncPlanShard(unit);
          }
        case Abandon =>
          AbandonPlan();
        case Finish =>
          if plan.Some? && plan.value.todo == {} && plan.value.half.None? && plan.value.unsynced == {} {
            var _ := FinishCheckpoint();
          }
      }
    }

    /** Nothing new is durable: clean up after an earlier, interrupted checkpoint. */
    method FinishIdle() returns (ok: bool)
      requires Valid()
      modifies this`store, this`cks, this`crashes, this`plan, this`checkpoint, this`retired, journal, overlay
      ensures Valid() && plan == None && retired == checkpoint == old(checkpoint)
      ensures ok ==> NoneCovered(journal.sealed, checkpoint) && BitsSettled(store)
      ensures Log() == old(Log()) && journal.history.durable == old(journal.history.durable)
      ensures SameSlots(old(store), store, Log(), checkpoint)
      ensures journal.PendingBytes() == old(journal.PendingBytes())
      ensures TookIn(old(overlay.units), overlay.units, 0, 0)
    {
      hide VolumeOk, PointSafe, Peak, Tracks, SameSlots, BitsSettled, NoneCovered, JournalWriter.Valid, Volume.CrashesSafe;
      AbandonPlan();
      RetireOverlay();
      var repairs: bool := *;
      ok := true;
      if repairs || store.dirtyBits != {} {
        ok := PersistDiscards();
      } else {
        StoreFacts(journal.history, store, checkpoint, cks, plan, retired, discard, geometry);
        CleanBits(store);
      }
      SlotsUntouched(old(store), store, Log(), checkpoint);
      if !ok { return; }
      ok := ReclaimJournal(false);
      if !ok { return; }
      ghost var before := store;
      var _ := RetryReclamation();
      SlotsStay(old(store), before, store, Log(), checkpoint);
      SettledStay(before, store);
    }

    method RetireOverlay()
      requires Valid() && plan == None
      modifies overlay, this`retired
      ensures Valid() && retired == checkpoint
      ensures TookIn(old(overlay.units), overlay.units, 0, 0)
    {
      hide VolumeOk, CrashSafe, WriterOk, PointSafe, Peak, Tracks, Retired, Above;
      VolumeFits(journal.history, store, checkpoint, cks, plan, retired, discard, geometry);
      RetireTracks(overlay.units, overlay.pending, Log(), journal.history.durable, retired, checkpoint);
      RetireVolume(journal.history, store, checkpoint, cks, retired, discard, geometry);
      RetireTakesIn(overlay.units, checkpoint);
      overlay.Retire(checkpoint);
      retired := checkpoint;
    }

    /** Record in memory which copied units are now tombstones. */
    method MarkDiscards(p: Plan) returns (ok: bool)
      requires Valid() && plan == Some(p)
      modifies this`store
      ensures Valid() && store.slots == old(store).slots && store.failures == old(store).failures
      ensures ok && discard ==> forall u :: u in p.items ==> ((u in store.discarded) <==> p.items[u].data == [])
    {
      hide VolumeOk, CrashSafe, WriterOk, PointSafe, Peak, Tracks, SetDiscarded;
      ok := true;
      if !discard { return; }
      var rest := p.items.Keys;
      while rest != {}
        invariant rest <= p.items.Keys
        invariant Valid() && store.slots == old(store).slots && store.failures == old(store).failures
        invariant forall u :: u in p.items && u !in rest ==> ((u in store.discarded) <==> p.items[u].data == [])
        decreases rest
      {
        var unit :| unit in rest;
        ok := *;
        if !ok { return; }
        var bit := p.items[unit].data == [];
        BitFacts(store, unit, bit);
        MarkSafe(journal.history, store, checkpoint, cks, p, retired, discard, geometry, unit);
        store := SetDiscarded(store, unit, bit);
        rest := rest - {unit};
      }
    }

    /** Store the dirty discard maps; a crash may find either version until both
        copies and their directory entries are durable. */
    method PersistDiscards() returns (ok: bool)
      requires Valid()
      modifies this`store, this`cks, this`crashes
      ensures Valid() && store.slots == old(store).slots && store.failures == old(store).failures && cks == old(cks)
      ensures store.discarded == old(store).discarded
      ensures ok ==> BitsSettled(store)
    {
      hide VolumeOk, CrashSafe, WriterOk, PointSafe, Peak, Tracks, MayBits, StoreBits;
      BitsFacts(journal.history, store, checkpoint, cks, plan, retired, discard, geometry, false);
      PointNow(Now(), StoreBits(store, false), checkpoint, cks, plan, retired, discard, geometry);
      StoreIo(StoreBits(store, false), cks);
      ok := *;
      if ok {
        BitsFacts(journal.history, store, checkpoint, cks, plan, retired, discard, geometry, true);
        PointNow(Now(), StoreBits(store, true), checkpoint, cks, plan, retired, discard, geometry);
        StoreIo(StoreBits(store, true), cks);
      }
    }

    /** Move the checkpoint register to the plan's horizon. */
    method StoreCheckpoint(p: Plan) returns (ok: bool)
      requires Valid() && plan == Some(p) && p.todo == {} && p.unsynced == {} && store.failures == p.failures
      requires p.horizon > p.base
      requires Persisted(store, p, discard)
      modifies this`store, this`cks, this`crashes, this`checkpoint, this`plan, journal`history, journal`anchor, journal`mark
      ensures Valid() && plan == None && store == old(store)
      ensures Log() == old(Log()) && journal.history.durable == old(journal.history.durable)
      ensures checkpoint == if ok then p.horizon else old(checkpoint)
    {
      hide VolumeOk, CrashSafe, WriterOk, PointSafe, Peak, Tracks, Persisted;
      PublishSafe(journal.history, store, checkpoint, cks, p, retired, discard, geometry);
      PointNow(Now(), store, checkpoint, cks + {p.horizon}, None, retired, discard, geometry);
      PlanBounds(journal.history, store, checkpoint, cks, p, retired, discard, geometry);
      plan := None;
      StoreIo(store, cks + {p.horizon});
      ok := *;
      if ok {
        AdvancePoint(Now(), store, cks, {p.horizon}, discard, geometry);
        StoreIo(store, {p.horizon});
        journal.CheckpointStored(p.horizon);
        checkpoint := p.horizon;
      }
    }

    /** Give durably discarded slots back, shard by shard. */
    method PunchSlots(units: set<nat>, horizon: nat) returns (ok: bool)
      requires Valid() && plan == None && horizon <= |Log()|
      requires forall u :: u in units ==> MayPunch(store, Log(), horizon, u)
      modifies this`store, this`cks, this`crashes
      ensures Valid() && cks == old(cks) && SameSlots(old(store), store, Log(), horizon)
      ensures SameBits(old(store), store) && (ok ==> Freed(store, units))
    {
      hide VolumeOk, CrashSafe, WriterOk, PointSafe, Peak, Tracks, SameSlots, MayPunch, Freed, FreedStay;
      ok := unitsPerShard > 0;
      NoneFreed(store);
      SlotsUntouched(store, store, Log(), horizon);
      var rest := units;
      assert units - units == {};
      while ok && rest != {}
        invariant rest <= units && (ok ==> unitsPerShard > 0)
        invariant Valid() && cks == old(cks) && plan == None
        invariant forall u :: u in rest ==> MayPunch(store, Log(), horizon, u)
        invariant SameSlots(old(store), store, Log(), horizon)
        invariant SameBits(old(store), store) && (ok ==> Freed(store, units - rest))
        decreases rest
      {
        var unit :| unit in rest;
        var group := set u | u in rest && u / unitsPerShard == unit / unitsPerShard;
        ghost var before := store;
        ok := PunchShard(group, unit, horizon);
        SlotsStay(old(store), before, store, Log(), horizon);
        FreedBits(before, store, group);
        if ok { MoreFreed(before, store, units - rest, group); }
        assert units - rest + group == units - (rest - group);
        rest := rest - group;
      }
      assert units - {} == units;
    }

    /** Punch slots of one shard, then sync its data file. */
    method PunchShard(group: set<nat>, unit: nat, horizon: nat) returns (ok: bool)
      requires Valid() && plan == None && horizon <= |Log()| && unitsPerShard > 0
      requires forall u :: u in group ==> MayPunch(store, Log(), horizon, u)
      requires forall u :: u in group ==> u / unitsPerShard == unit / unitsPerShard
      modifies this`store, this`cks, this`crashes
      ensures Valid() && cks == old(cks) && SameSlots(old(store), store, Log(), horizon)
      ensures FreedStay(old(store), store, group) && (ok ==> Freed(store, group))
      ensures forall u :: MayPunch(old(store), Log(), horizon, u) ==> MayPunch(store, Log(), horizon, u)
    {
      hide VolumeOk, CrashSafe, WriterOk, PointSafe, Peak, Tracks, SameSlots, MayPunch, PunchSlot, SyncShard, Freed, FreedStay, Emptied;
      SlotsUntouched(store, store, Log(), horizon);
      EmptiedNone(store, group);
      var rest := group;
      while rest != {}
        invariant rest <= group
        invariant Valid() && cks == old(cks) && plan == None
        invariant forall u :: MayPunch(old(store), Log(), horizon, u) ==> MayPunch(store, Log(), horizon, u)
        invariant SameSlots(old(store), store, Log(), horizon)
        invariant FreedStay(old(store), store, group) && Emptied(store, group - rest)
        decreases rest
      {
        var u :| u in rest;
        ok := *;
        var effect: bool := *;
        if !ok && !effect { return; }
        PunchOk(journal.history, old(store), store, checkpoint, cks, retired, discard, geometry, horizon, u);
        PointNow(Now(), PunchSlot(store, u), checkpoint, cks, plan, retired, discard, geometry);
        EmptiedNext(old(store), store, group, rest, u);
        StoreIo(PunchSlot(store, u), cks);
        if !ok { return; }
        rest := rest - {u};
      }
      ok := *;
      var shard := Shard(store, unit);
      assert group - {} == group;
      EmptiedSynced(old(store), store, group, shard, ok);
      PunchSynced(journal.history, old(store), store, checkpoint, cks, retired, discard, geometry, horizon, shard, ok);
      PointNow(Now(), SyncShard(store, shard, ok), checkpoint, cks, plan, retired, discard, geometry);
      StoreIo(SyncShard(store, shard, ok), cks);
    }

    /** Punch a window of one shard's discarded slots that no overlay entry needs. */
    method RetryReclamation() returns (ok: bool)
      requires Valid() && plan == None
      modifies this`store, this`cks, this`crashes
      ensures Valid() && cks == old(cks) && SameSlots(old(store), store, Log(), checkpoint) && SameBits(old(store), store)
    {
      hide VolumeOk, CrashSafe, WriterOk, PointSafe, Peak, Tracks, SameSlots, MayBits, Newest;
      var shard: nat, start: nat, end: nat := *, *, *;
      VolumeFits(journal.history, store, checkpoint, cks, plan, retired, discard, geometry);
      SlotsUntouched(store, store, Log(), checkpoint);
      if unitsPerShard == 0 || exists u :: u in store.dirtyBits && u / unitsPerShard == shard {
        return false;
      }
      var units := set u | u in store.discarded && u / unitsPerShard == shard
        && start <= u % unitsPerShard < end && u !in overlay.units;
      forall u | u in units
        ensures MayPunch(store, Log(), checkpoint, u)
      {
        OverlayReads(overlay.units, overlay.pending, Log(), journal.history.durable, retired, u, discard);
        StableBit(journal.history, store, checkpoint, cks, plan, retired, discard, geometry, u);
      }
      ok := PunchSlots(units, checkpoint);
    }

    /** Delete covered segments and make the deletions durable. */
    method ReclaimJournal(always: bool) returns (ok: bool)
      requires Valid()
      modifies journal`disk, journal`trace, journal`creationCleanup, journal`sealed, journal`anchor, journal`mark, this`crashes
      ensures Valid()
      ensures ok ==> NoneCovered(journal.sealed, checkpoint)
      ensures ok ==> forall i :: 0 <= i < |old(journal.sealed)| && LastSequence(old(journal.sealed)[i]) <= checkpoint ==>
        old(journal.sealed)[i].index !in journal.disk.files
    {
      hide VolumeOk, PointSafe, Peak, Tracks, LastSequence, JournalWriter.Valid;
      VolumeFits(journal.history, store, checkpoint, cks, plan, retired, discard, geometry);
      journal.Watch();
      var deleted;
      ok, deleted := journal.DeleteCovered(checkpoint);
      Absorb();
      if !ok { return; }
      if always || deleted > 0 {
        journal.Watch();
        ok := journal.SyncJournalDir();
        Absorb();
      }
    }
  }

  lemma HistoryBounds(journal: JournalWriter)
    requires journal.Valid()
    ensures HistoryOk(journal.history)
  {
    hide WriterOk, FileOk, Ordered, Stored, ProofOk, MarkOk;
  }

  lemma VolumeFits(h: History, st: Store, checkpoint: nat, cks: set<nat>, plan: Option<Plan>,
                   retired: nat, discard: bool, geometry: Geometry)
    requires VolumeOk(h, st, checkpoint, cks, plan, retired, discard, geometry)
    ensures forall r :: r in h.issued ==> Fits(r, geometry)
    ensures checkpoint in cks && retired <= checkpoint <= h.durable <= |h.log| && h.floor == checkpoint
  {
  }

  lemma StoreFacts(h: History, st: Store, checkpoint: nat, cks: set<nat>, plan: Option<Plan>,
                   retired: nat, discard: bool, geometry: Geometry)
    requires VolumeOk(h, st, checkpoint, cks, plan, retired, discard, geometry)
    ensures StoreOk(st)
  {
  }

  lemma PointNow(s: Snapshot, st: Store, checkpoint: nat, cks: set<nat>, plan: Option<Plan>,
                 retired: nat, discard: bool, geometry: Geometry)
    requires CrashSafe(s.disk, s.history, s.open)
    requires VolumeOk(s.history, st, checkpoint, cks, plan, retired, discard, geometry)
    ensures PointSafe(CrashPoint(s, st, cks), discard, geometry)
  {
    hide PlanOk, SlotsSafe, LiveOk, StoreOk, CrashSafe;
  }

  lemma ReserveSafe(h: History, st: Store, st': Store, shard: set<nat>, ok: bool, checkpoint: nat, cks: set<nat>,
                    plan: Option<Plan>, retired: nat, discard: bool, geometry: Geometry)
    requires VolumeOk(h, st, checkpoint, cks, plan, retired, discard, geometry)
    requires st' == if ok then SyncShard(st, shard, true)
                    else SyncShard(st, shard, false).(failures := st.failures + 1)
    ensures VolumeOk(h, st', checkpoint, cks, plan, retired, discard, geometry)
  {
    hide Newest, IsItem, Expected;
    SyncShardSafe(st, h.log, h.durable, cks, discard, shard, ok);
    SameStore(SyncShard(st, shard, ok), st', h.log, h.durable, cks, checkpoint, discard);
    SyncShardLive(st, h.log, checkpoint, discard, shard, ok);
    if plan.Some? {
      SyncShardPlan(plan.value, st, st', shard, ok, h.log, h.durable, retired, checkpoint, cks, discard);
    }
  }

  /** The failure counter is not read by any reader. */
  lemma SameStore(st: Store, st': Store, log: seq<Record>, durable: nat, cks: set<nat>, checkpoint: nat, discard: bool)
    requires st' == st.(failures := st'.failures)
    ensures SlotsSafe(st, log, durable, cks, discard) ==> SlotsSafe(st', log, durable, cks, discard)
    ensures LiveOk(st, log, checkpoint, discard) ==> LiveOk(st', log, checkpoint, discard)
    ensures StoreOk(st) ==> StoreOk(st')
  {
    hide Newest, Expected;
    forall u, r ensures Certain(st', u, r) == Certain(st, u, r) {}
    forall u ensures ReadSlot(st', u) == ReadSlot(st, u) {}
  }

  lemma SyncShardLive(st: Store, log: seq<Record>, checkpoint: nat, discard: bool, shard: set<nat>, ok: bool)
    requires LiveOk(st, log, checkpoint, discard)
    ensures LiveOk(SyncShard(st, shard, ok), log, checkpoint, discard)
  {
    hide Newest, Expected;
    forall u ensures ReadSlot(SyncShard(st, shard, ok), u) == ReadSlot(st, u) {}
  }

  lemma SyncShardPlan(plan: Plan, st: Store, st': Store, shard: set<nat>, ok: bool, log: seq<Record>, durable: nat,
                      retired: nat, checkpoint: nat, cks: set<nat>, discard: bool)
    requires PlanOk(plan, st, log, durable, retired, checkpoint, cks, discard)
    requires st' == if ok then SyncShard(st, shard, true)
                    else SyncShard(st, shard, false).(failures := st.failures + 1)
    ensures PlanOk(plan, st', log, durable, retired, checkpoint, cks, discard)
  {
    hide Newest, IsItem, IsTarget;
    forall u | IsTarget(plan, u, discard) && u !in plan.todo
      ensures u in plan.items && Copied(plan, st', u)
    {
      TargetIsItem(plan, u, discard);
      assert Copied(plan, st, u);
    }
  }

  lemma TargetIsItem(plan: Plan, u: nat, discard: bool)
    requires IsTarget(plan, u, discard)
    ensures u in plan.items
  {
  }

  lemma TracksExactly(units: Units, pending: map<nat, nat>, log: seq<Record>, durable: nat, retired: nat, u: nat)
    requires Tracks(units, pending, log, durable, retired)
    ensures
      var n, m := Newest(log, |log|, u), Newest(log, durable, u);
      && (u in units <==> n > retired)
      && (u in units ==> units[u].latest == Version(n, log[n - 1].payload))
      && (u in units ==> units[u].durable == if m > retired then Some(Version(m, log[m - 1].payload)) else None)
  {
    hide Newest;
    assert u in units ==> TracksUnit(units[u], u, log, durable, retired);
  }

  /** What `Overlay::check_invariants` asserts of the versions. */
  ghost predicate Audited(units: Units, pending: map<nat, nat>, boundary: nat) {
    && (forall u :: u in units ==> AuditedUnit(units[u], boundary))
    && forall s :: s in pending ==> boundary < s && pending[s] in units && s <= units[pending[s]].latest.sequence
  }

  ghost predicate AuditedUnit(e: UnitOverlay, boundary: nat) {
    && e.latest.sequence != 0
    && (e.durable.Some? ==>
          && e.durable.value.sequence <= e.latest.sequence
          && e.durable.value.sequence <= boundary
          && (e.durable.value.sequence == e.latest.sequence ==> e.durable.value == e.latest))
    && (e.latest.sequence <= boundary ==> e.durable == Some(e.latest))
  }

  lemma OverlayAudit(units: Units, pending: map<nat, nat>, log: seq<Record>, durable: nat, boundary: nat, retired: nat)
    requires Tracks(units, pending, log, durable, retired)
    requires boundary <= durable && (units != map[] ==> boundary == durable)
    ensures Audited(units, pending, boundary)
    ensures forall u :: u in units ==> retired < units[u].latest.sequence <= |log|
  {
    hide Newest, AuditedUnit, Tracks;
    TracksBounds(units, pending, log, durable, retired);
    forall u | u in units ensures AuditedUnit(units[u], boundary) && retired < units[u].latest.sequence <= |log| {
      TracksExactly(units, pending, log, durable, retired, u);
      NewestGrows(log, durable, u);
      AuditUnit(units[u], u, log, durable, retired);
    }
    forall s | s in pending ensures boundary < s && pending[s] in units && s <= units[pending[s]].latest.sequence {
      PendingIs(units, pending, log, durable, retired, s);
      NewestCovers(log, s);
      TracksExactly(units, pending, log, durable, retired, pending[s]);
    }
  }

  lemma AuditUnit(e: UnitOverlay, u: nat, log: seq<Record>, durable: nat, retired: nat)
    requires retired <= durable <= |log| && Newest(log, |log|, u) > retired
    requires
      var n, m := Newest(log, |log|, u), Newest(log, durable, u);
      && e.latest == Version(n, log[n - 1].payload)
      && e.durable == if m > retired then Some(Version(m, log[m - 1].payload)) else None
    ensures AuditedUnit(e, durable)
  {
    hide Newest;
    NewestGrows(log, durable, u);
  }

  lemma PendingIs(units: Units, pending: map<nat, nat>, log: seq<Record>, durable: nat, retired: nat, s: nat)
    requires Tracks(units, pending, log, durable, retired) && s in pending
    ensures retired <= durable < s <= |log| && pending[s] == log[s - 1].unit
  {
    hide Newest;
  }

  lemma NewestGrows(log: seq<Record>, k: nat, u: nat)
    requires k <= |log|
    ensures Newest(log, k, u) <= Newest(log, |log|, u)
    ensures Newest(log, |log|, u) <= k ==> Newest(log, k, u) == Newest(log, |log|, u)
  {
    if Newest(log, |log|, u) <= k {
      ReadingSkips(log, k, |log|, u, false);
    }
  }

  lemma NewestCovers(log: seq<Record>, s: nat)
    requires 0 < s <= |log|
    ensures s <= Newest(log, |log|, log[s - 1].unit)
  {
    assert log[s - 1].unit == log[s - 1].unit;
  }

  lemma LatestBelow(units: Units, pending: map<nat, nat>, log: seq<Record>, durable: nat, retired: nat, u: nat)
    requires Tracks(units, pending, log, durable, retired)
    ensures u in units ==> units[u].latest.sequence <= |log|
  {
  }

  /** A unit without an overlay entry is served right by its slot. */
  lemma LiveFacts(h: History, st: Store, checkpoint: nat, cks: set<nat>, plan: Option<Plan>,
                  retired: nat, discard: bool, geometry: Geometry, u: nat)
    requires VolumeOk(h, st, checkpoint, cks, plan, retired, discard, geometry)
    ensures Newest(h.log, |h.log|, u) <= retired ==> ReadSlot(st, u) == Expected(h.log, |h.log|, u, discard)
  {
    hide PlanOk, SlotsSafe, StoreOk;
  }

  lemma OverlayReads(units: Units, pending: map<nat, nat>, log: seq<Record>, durable: nat, retired: nat, u: nat, discard: bool)
    requires Tracks(units, pending, log, durable, retired)
    ensures u in units <==> Newest(log, |log|, u) > retired
    ensures u in units ==> units[u].latest.sequence == Newest(log, |log|, u) <= |log|
    ensures u in units ==>
      Reading(log, |log|, u, discard) == if discard && units[u].latest.data == [] then None else Some(units[u].latest)
  {
    hide Newest;
    if u in units {
      assert TracksUnit(units[u], u, log, durable, retired);
    }
  }

  lemma ReclaimSafe(h: History, st: Store, checkpoint: nat, cks: set<nat>, plan: Option<Plan>,
                    retired: nat, discard: bool, geometry: Geometry, u: nat)
    requires VolumeOk(h, st, checkpoint, cks, plan, retired, discard, geometry) && discard
    requires Newest(h.log, |h.log|, u) <= retired && Expected(h.log, |h.log|, u, discard) == Zero
    ensures VolumeOk(h, SetDiscarded(st, u, true), checkpoint, cks, plan, retired, discard, geometry)
  {
    hide SlotsSafe, LiveOk, StoreOk, PlanOk;
    forall c | c in cks && c <= h.durable && Newest(h.log, h.durable, u) <= c
      ensures Expected(h.log, c, u, discard) == Zero
    {
      ReadingSkips(h.log, c, |h.log|, u, discard);
    }
    SetBitSafe(st, h.log, h.durable, cks, discard, u, true);
    SetBitLive(st, h.log, checkpoint, discard, u, true);
    if plan.Some? {
      BitPlan(plan.value, st, u, true, h.log, h.durable, retired, checkpoint, cks, discard);
    }
  }

  lemma BitPlan(plan: Plan, st: Store, u: nat, bit: bool, log: seq<Record>, durable: nat,
                retired: nat, checkpoint: nat, cks: set<nat>, discard: bool)
    requires PlanOk(plan, st, log, durable, retired, checkpoint, cks, discard)
    ensures PlanOk(plan, SetDiscarded(st, u, bit), log, durable, retired, checkpoint, cks, discard)
  {
    hide Newest, IsItem, IsTarget;
    var st' := SetDiscarded(st, u, bit);
    forall w | IsTarget(plan, w, discard) && w !in plan.todo
      ensures w in plan.items && Copied(plan, st', w)
    {
      TargetIsItem(plan, w, discard);
      assert Copied(plan, st, w);
    }
  }

  lemma DropPlan(h: History, st: Store, checkpoint: nat, cks: set<nat>, plan: Option<Plan>,
                 retired: nat, discard: bool, geometry: Geometry)
    requires VolumeOk(h, st, checkpoint, cks, plan, retired, discard, geometry)
    ensures VolumeOk(h, st, checkpoint, cks, None, retired, discard, geometry)
  {
    hide PlanOk, SlotsSafe, LiveOk, StoreOk;
  }

  lemma PreparedOk(h: History, units: Units, pending: map<nat, nat>, st: Store, checkpoint: nat, cks: set<nat>,
                   retired: nat, discard: bool, geometry: Geometry)
    requires VolumeOk(h, st, checkpoint, cks, None, retired, discard, geometry)
    requires Tracks(units, pending, h.log, h.durable, retired)
    ensures VolumeOk(h, st, checkpoint, cks, Some(Prepared(units, h.durable, checkpoint, st.failures, discard)),
              retired, discard, geometry)
  {
    var p := Prepared(units, h.durable, checkpoint, st.failures, discard);
    hide SlotsSafe, LiveOk, StoreOk, Newest, IsItem, Tracks, Copied;
    if h.durable > checkpoint {
      forall u
        ensures u in p.items ==> IsItem(h.log, h.durable, u, p.items[u])
        ensures Newest(h.log, h.durable, u) > retired ==> u in p.items
      {
        CollectedUnit(units, pending, h.log, h.durable, retired, u);
      }
    }
  }

  /** The plan collects exactly the units with a durable record to copy. */
  lemma CollectedUnit(units: Units, pending: map<nat, nat>, log: seq<Record>, durable: nat, retired: nat, u: nat)
    requires Tracks(units, pending, log, durable, retired)
    ensures u in CollectDurable(units, durable) <==> Newest(log, durable, u) > retired
    ensures u in CollectDurable(units, durable) ==> IsItem(log, durable, u, CollectDurable(units, durable)[u])
  {
    hide Newest;
    var n, m := Newest(log, |log|, u), Newest(log, durable, u);
    assert m > 0 ==> m <= n;
    if u in units {
      assert TracksUnit(units[u], u, log, durable, retired);
    }
  }

  lemma HalfIsTodo(h: History, st: Store, checkpoint: nat, cks: set<nat>, p: Plan,
                   retired: nat, discard: bool, geometry: Geometry)
    requires VolumeOk(h, st, checkpoint, cks, Some(p), retired, discard, geometry) && p.half.Some?
    ensures p.half.value in p.todo
  {
    hide SlotsSafe, LiveOk, StoreOk;
  }

  /** Copying an item of the plan keeps the volume, at both halves of the write. */
  lemma CopySafe(h: History, st: Store, checkpoint: nat, cks: set<nat>, p: Plan,
                 retired: nat, discard: bool, geometry: Geometry, u: nat)
    requires VolumeOk(h, st, checkpoint, cks, Some(p), retired, discard, geometry) && u in p.todo
    ensures u in p.items
    ensures VolumeOk(h, WriteSlotHeader(st, u, p.items[u]), checkpoint, cks, Some(p.(half := Some(u))), retired, discard, geometry)
    ensures VolumeOk(h, WriteSlotPayload(st, u, p.items[u]), checkpoint, cks,
              Some(p.(half := None, todo := p.todo - {u})), retired, discard, geometry)
  {
    hide SlotsSafe, LiveOk, StoreOk, Newest, IsItem;
    assert IsTarget(p, u, discard);
    var v := p.items[u];
    WriteSlotSafe(st, h.log, h.durable, cks, discard, p.horizon, u, v);
    WriteSlotLive(st, h.log, checkpoint, discard, p.horizon, u, v);
    CopyPlan(p, st, h.log, h.durable, retired, checkpoint, cks, discard, u);
  }

  lemma CopyPlan(p: Plan, st: Store, log: seq<Record>, durable: nat, retired: nat, checkpoint: nat,
                 cks: set<nat>, discard: bool, u: nat)
    requires PlanOk(p, st, log, durable, retired, checkpoint, cks, discard) && u in p.todo && u in p.items
    ensures PlanOk(p.(half := Some(u)), WriteSlotHeader(st, u, p.items[u]), log, durable, retired, checkpoint, cks, discard)
    ensures PlanOk(p.(half := None, todo := p.todo - {u}), WriteSlotPayload(st, u, p.items[u]), log, durable, retired, checkpoint, cks, discard)
  {
    hide Newest, IsItem;
    var a, b := WriteSlotHeader(st, u, p.items[u]), WriteSlotPayload(st, u, p.items[u]);
    var q, r := p.(half := Some(u)), p.(half := None, todo := p.todo - {u});
    forall w | IsTarget(p, w, discard) && w !in p.todo
      ensures Copied(q, a, w) && Copied(r, b, w)
    {
      assert Copied(p, st, w);
    }
  }

  lemma PlanSyncSafe(h: History, st: Store, shard: set<nat>, ok: bool, checkpoint: nat, cks: set<nat>, p: Plan,
                     retired: nat, discard: bool, geometry: Geometry, unit: nat)
    requires VolumeOk(h, st, checkpoint, cks, Some(p), retired, discard, geometry) && p.todo == {}
    requires unit in st.slots ==> unit in shard
    ensures VolumeOk(h, SyncShard(st, shard, ok), checkpoint, cks,
              if ok then Some(p.(unsynced := p.unsynced - shard - {unit})) else None, retired, discard, geometry)
  {
    hide SlotsSafe, LiveOk, Newest, IsItem, Expected;
    SyncShardSafe(st, h.log, h.durable, cks, discard, shard, ok);
    SyncShardLive(st, h.log, checkpoint, discard, shard, ok);
    if ok {
      PlanSynced(p, st, shard, h.log, h.durable, retired, checkpoint, cks, discard, unit);
    }
  }

  lemma PlanSynced(p: Plan, st: Store, shard: set<nat>, log: seq<Record>, durable: nat,
                   retired: nat, checkpoint: nat, cks: set<nat>, discard: bool, unit: nat)
    requires PlanOk(p, st, log, durable, retired, checkpoint, cks, discard) && p.todo == {}
    requires unit in st.slots ==> unit in shard
    ensures PlanOk(p.(unsynced := p.unsynced - shard - {unit}), SyncShard(st, shard, true), log, durable, retired, checkpoint, cks, discard)
  {
    hide Newest, IsItem;
    var q := p.(unsynced := p.unsynced - shard - {unit});
    var a := SyncShard(st, shard, true);
    forall w | IsTarget(q, w, discard)
      ensures Copied(q, a, w)
    {
      assert IsTarget(p, w, discard) && Copied(p, st, w);
      assert w in st.slots;
    }
  }

  // Finishing a checkpoint. ---------------------------------------------------

  /** Slots of units with records above the horizon show the same, and no more
      than before can come to light. */
  ghost predicate SameSlots(a: Store, b: Store, log: seq<Record>, horizon: nat) {
    forall u :: Newest(log, |log|, u) > horizon ==> At(b, u).cache == At(a, u).cache && At(b, u).poss <= At(a, u).poss
  }

  lemma SlotsUntouched(a: Store, b: Store, log: seq<Record>, horizon: nat)
    requires a.slots == b.slots
    ensures SameSlots(a, b, log, horizon)
  {
  }

  lemma SlotsStay(a: Store, b: Store, c: Store, log: seq<Record>, horizon: nat)
    requires SameSlots(a, b, log, horizon) && SameSlots(b, c, log, horizon)
    ensures SameSlots(a, c, log, horizon)
  {
  }

  /** A slot may be punched: durably discarded, and no newer record needs it. */
  ghost predicate MayPunch(st: Store, log: seq<Record>, horizon: nat, u: nat) {
    u in st.discarded && MayBits(st, u) == {true} && Newest(log, |log|, u) <= horizon
  }

  /** The discard bits of the plan's items are right, and nothing is dirty. */
  ghost predicate Persisted(st: Store, p: Plan, discard: bool) {
    && (forall u :: MayBits(st, u) == {u in st.discarded})
    && (discard ==> forall u :: u in p.items ==> ((u in st.discarded) <==> p.items[u].data == []))
  }

  lemma PlanBounds(h: History, st: Store, checkpoint: nat, cks: set<nat>, p: Plan,
                   retired: nat, discard: bool, geometry: Geometry)
    requires VolumeOk(h, st, checkpoint, cks, Some(p), retired, discard, geometry)
    ensures retired <= p.base == checkpoint <= p.horizon <= h.durable <= |h.log| && h.floor == checkpoint
  {
    hide SlotsSafe, LiveOk, StoreOk;
  }

  lemma RetireVolume(h: History, st: Store, checkpoint: nat, cks: set<nat>,
                     retired: nat, discard: bool, geometry: Geometry)
    requires VolumeOk(h, st, checkpoint, cks, None, retired, discard, geometry)
    ensures VolumeOk(h, st, checkpoint, cks, None, checkpoint, discard, geometry)
  {
    hide SlotsSafe, LiveOk, StoreOk;
  }

  lemma BitFacts(st: Store, u: nat, bit: bool)
    ensures
      var a := SetDiscarded(st, u, bit);
      && a.slots == st.slots && a.failures == st.failures
      && (forall w :: w in a.discarded <==> if w == u then bit else w in st.discarded)
  {
  }

  lemma MarkSafe(h: History, st: Store, checkpoint: nat, cks: set<nat>, p: Plan,
                 retired: nat, discard: bool, geometry: Geometry, u: nat)
    requires VolumeOk(h, st, checkpoint, cks, Some(p), retired, discard, geometry) && discard && u in p.items
    ensures VolumeOk(h, SetDiscarded(st, u, p.items[u].data == []), checkpoint, cks, Some(p), retired, discard, geometry)
  {
    hide SlotsSafe, LiveOk, StoreOk, Newest, Expected, IsItem, Copied;
    var v := p.items[u];
    var bit := v.data == [];
    forall c | c in cks && c <= h.durable && Newest(h.log, h.durable, u) <= c
      ensures if bit then Expected(h.log, c, u, discard) == Zero else Expected(h.log, c, u, discard).Ciphertext?
    {
      ItemExpected(h.log, h.durable, p.horizon, c, u, v, discard);
    }
    SetBitSafe(st, h.log, h.durable, cks, discard, u, bit);
    if Newest(h.log, |h.log|, u) <= checkpoint {
      ItemExpectedNow(h.log, p.horizon, u, v, discard);
    }
    SetBitLive(st, h.log, checkpoint, discard, u, bit);
    BitPlan(p, st, u, bit, h.log, h.durable, retired, checkpoint, cks, discard);
  }

  lemma BitsFacts(h: History, st: Store, checkpoint: nat, cks: set<nat>, plan: Option<Plan>,
                  retired: nat, discard: bool, geometry: Geometry, ok: bool)
    requires VolumeOk(h, st, checkpoint, cks, plan, retired, discard, geometry)
    ensures VolumeOk(h, StoreBits(st, ok), checkpoint, cks, plan, retired, discard, geometry)
    ensures
      var a := StoreBits(st, ok);
      a.slots == st.slots && a.failures == st.failures && a.discarded == st.discarded
    ensures ok ==> forall u :: MayBits(StoreBits(st, ok), u) == {u in StoreBits(st, ok).discarded}
  {
    hide SlotsSafe, Newest, Expected, IsItem;
    var a := StoreBits(st, ok);
    StoreBitsSafe(st, h.log, h.durable, cks, discard, ok);
    forall u ensures ReadSlot(a, u) == ReadSlot(st, u) {}
    if plan.Some? {
      SamePlan(plan.value, st, a, h.log, h.durable, retired, checkpoint, cks, discard);
    }
    if ok {
      forall u ensures MayBits(a, u) == {u in a.discarded} {
        assert u in st.discarded || u in st.bits ==> u in st.dirtyBits || Bits(st, u) == {u in st.discarded};
      }
    }
  }

  lemma SamePlan(plan: Plan, st: Store, st': Store, log: seq<Record>, durable: nat,
                 retired: nat, checkpoint: nat, cks: set<nat>, discard: bool)
    requires PlanOk(plan, st, log, durable, retired, checkpoint, cks, discard)
    requires st'.slots == st.slots && st'.failures == st.failures
    ensures PlanOk(plan, st', log, durable, retired, checkpoint, cks, discard)
  {
    hide Newest, IsItem, IsTarget;
    forall w | IsTarget(plan, w, discard) && w !in plan.todo
      ensures w in plan.items && Copied(plan, st', w)
    {
      TargetIsItem(plan, w, discard);
      assert Copied(plan, st, w);
    }
  }

  /** A plan whose every item is durable may be published: safe while the
      register is in flight, and safe with the new checkpoint alone. */
  lemma PublishSafe(h: History, st: Store, checkpoint: nat, cks: set<nat>, p: Plan,
                    retired: nat, discard: bool, geometry: Geometry)
    requires VolumeOk(h, st, checkpoint, cks, Some(p), retired, discard, geometry)
    requires p.todo == {} && p.unsynced == {} && st.failures == p.failures && p.horizon > p.base
    requires Persisted(st, p, discard)
    ensures VolumeOk(h, st, checkpoint, cks + {p.horizon}, None, retired, discard, geometry)
    ensures VolumeOk(h.(floor := p.horizon), st, p.horizon, {p.horizon}, None, retired, discard, geometry)
  {
    hide SlotsSafe, LiveOk, StoreOk, Newest, Expected, IsItem, MayBits;
    forall u | u in p.items
      ensures ItemCertain(st, u, p.items[u], discard) && ItemShown(st, u, p.items[u], discard)
    {
      assert IsTarget(p, u, discard) ==> Copied(p, st, u);
    }
    CheckpointSafe(st, h.log, h.durable, cks, discard, p.base, p.horizon, p.items);
    CheckpointLive(st, h.log, checkpoint, discard, p.horizon, p.items);
    FewerCheckpoints(st, h.log, h.durable, cks + {p.horizon}, {p.horizon}, discard);
  }

  lemma FewerCheckpoints(st: Store, log: seq<Record>, durable: nat, cks: set<nat>, fewer: set<nat>, discard: bool)
    requires SlotsSafe(st, log, durable, cks, discard) && fewer <= cks
    ensures SlotsSafe(st, log, durable, fewer, discard)
  {
    hide Newest, Expected, Certain;
  }

  lemma AdvancePoint(s: Snapshot, st: Store, cks: set<nat>, fewer: set<nat>, discard: bool, geometry: Geometry)
    requires PointSafe(CrashPoint(s, st, cks), discard, geometry) && fewer <= cks && fewer != {}
    ensures PointSafe(CrashPoint(s, st, fewer), discard, geometry)
  {
    hide CrashSafe, SlotsSafe, StoreOk;
    FewerCheckpoints(st, s.history.log, s.history.durable, cks, fewer, discard);
  }

  /** Tombstones the plan copied whose unit has seen no newer record. */
  function Punchable(units: Units, p: Plan): set<nat> {
    set u | u in p.items && p.items[u].data == [] && (u in units ==> units[u].latest.sequence <= p.items[u].sequence)
  }

  lemma PunchableOk(h: History, units: Units, pending: map<nat, nat>, st: Store, checkpoint: nat, cks: set<nat>, p: Plan,
                    retired: nat, discard: bool, geometry: Geometry)
    requires VolumeOk(h, st, checkpoint, cks, Some(p), retired, discard, geometry)
    requires Tracks(units, pending, h.log, h.durable, retired)
    requires Persisted(st, p, discard)
    ensures discard ==> forall u :: u in Punchable(units, p) ==> MayPunch(st, h.log, p.horizon, u)
  {
    hide SlotsSafe, LiveOk, StoreOk, Newest, Tracks, MayBits, Copied;
    forall u | u in Punchable(units, p)
      ensures Newest(h.log, |h.log|, u) <= p.horizon
    {
      assert IsItem(h.log, p.horizon, u, p.items[u]);
      OverlayReads(units, pending, h.log, h.durable, retired, u, discard);
    }
  }

  lemma PunchOk(h: History, before: Store, st: Store, checkpoint: nat, cks: set<nat>,
                retired: nat, discard: bool, geometry: Geometry, horizon: nat, u: nat)
    requires VolumeOk(h, st, checkpoint, cks, None, retired, discard, geometry)
    requires MayPunch(st, h.log, horizon, u) && SameSlots(before, st, h.log, horizon)
    ensures VolumeOk(h, PunchSlot(st, u), checkpoint, cks, None, retired, discard, geometry)
    ensures SameSlots(before, PunchSlot(st, u), h.log, horizon)
    ensures forall w :: MayPunch(st, h.log, horizon, w) ==> MayPunch(PunchSlot(st, u), h.log, horizon, w)
  {
    hide SlotsSafe, StoreOk, Newest, Expected;
    PunchSafe(st, h.log, h.durable, cks, discard, u);
    forall w ensures ReadSlot(PunchSlot(st, u), w) == ReadSlot(st, w) {}
  }

  lemma PunchSynced(h: History, before: Store, st: Store, checkpoint: nat, cks: set<nat>,
               retired: nat, discard: bool, geometry: Geometry, horizon: nat, shard: set<nat>, ok: bool)
    requires VolumeOk(h, st, checkpoint, cks, None, retired, discard, geometry)
    requires SameSlots(before, st, h.log, horizon)
    ensures VolumeOk(h, SyncShard(st, shard, ok), checkpoint, cks, None, retired, discard, geometry)
    ensures SameSlots(before, SyncShard(st, shard, ok), h.log, horizon)
    ensures forall w :: MayPunch(st, h.log, horizon, w) ==> MayPunch(SyncShard(st, shard, ok), h.log, horizon, w)
  {
    hide SlotsSafe, LiveOk, Newest;
    SyncShardSafe(st, h.log, h.durable, cks, discard, shard, ok);
    SyncShardLive(st, h.log, checkpoint, discard, shard, ok);
    forall w ensures At(SyncShard(st, shard, ok), w).poss <= At(st, w).poss {}
  }

  /** Nothing of these slots is left, whatever a crash shows. */
  ghost predicate Freed(st: Store, units: set<nat>) {
    forall u :: u in units ==> At(st, u).cache == Empty && At(st, u).poss == {Empty}
  }

  ghost predicate FreedStay(a: Store, b: Store, group: set<nat>) {
    && SameBits(a, b)
    && forall u :: u !in group && At(a, u).cache == Empty && At(a, u).poss == {Empty} ==>
      At(b, u).cache == Empty && At(b, u).poss == {Empty}
  }

  /** Punched, and not yet synced. */
  ghost predicate Emptied(st: Store, units: set<nat>) {
    forall u :: u in units ==> u in st.slots && st.slots[u].cache == Empty && st.slots[u].dirty
  }

  lemma NoneFreed(st: Store)
    ensures Freed(st, {})
  {
  }

  lemma MoreFreed(a: Store, b: Store, done: set<nat>, group: set<nat>)
    requires Freed(a, done) && FreedStay(a, b, group) && Freed(b, group)
    ensures Freed(b, done + group)
  {
  }

  lemma FreedBits(a: Store, b: Store, group: set<nat>)
    requires FreedStay(a, b, group)
    ensures SameBits(a, b)
  {
  }

  /** Bits that are not dirty are certain. */
  lemma CleanBits(st: Store)
    requires StoreOk(st) && st.dirtyBits == {}
    ensures BitsSettled(st)
  {
  }

  lemma SettledStay(a: Store, b: Store)
    requires SameBits(a, b) && BitsSettled(a)
    ensures BitsSettled(b)
  {
  }

  lemma EmptiedNone(st: Store, group: set<nat>)
    ensures FreedStay(st, st, group) && Emptied(st, group - group)
  {
  }

  lemma EmptiedNext(a: Store, st: Store, group: set<nat>, rest: set<nat>, u: nat)
    requires FreedStay(a, st, group) && Emptied(st, group - rest) && u in rest && u in group
    ensures FreedStay(a, PunchSlot(st, u), group) && Emptied(PunchSlot(st, u), group - (rest - {u}))
  {
  }

  lemma EmptiedSynced(a: Store, st: Store, group: set<nat>, shard: set<nat>, ok: bool)
    requires FreedStay(a, st, group) && Emptied(st, group)
    requires forall u :: u in group && u in st.slots ==> u in shard
    ensures FreedStay(a, SyncShard(st, shard, ok), group) && (ok ==> Freed(SyncShard(st, shard, ok), group))
  {
  }

  /** A discard bit that is not dirty is durable. */
  lemma StableBit(h: History, st: Store, checkpoint: nat, cks: set<nat>, plan: Option<Plan>,
                  retired: nat, discard: bool, geometry: Geometry, u: nat)
    requires VolumeOk(h, st, checkpoint, cks, plan, retired, discard, geometry)
    requires u in st.discarded && u !in st.dirtyBits
    ensures MayBits(st, u) == {true}
  {
    hide SlotsSafe, LiveOk, PlanOk;
  }
}
