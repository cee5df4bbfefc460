/** Whole runs: a volume in use, any number of crashes, recoveries in between.

  The run is driven from outside, one operation at a time; the invariant of the
  class is the statement about every run. `acknowledged` is everything that was
  durable when an operation returned: it stays the beginning of the history for
  good. `asked` is every unit and content some request named: the history holds
  nothing else.
 */
module System {
  import opened Records
  import opened JournalScan
  import opened JournalDisk
  import opened Journal
  import opened Overlay
  import opened Slots
  import opened Volume
  import opened JournalRecovery
  import opened Recovery

  datatype Op =
    | Write(unit: nat, data: Bytes, fua: bool)
    | Discard(unit: nat, fua: bool)
    | Flush
    | Maintain(step: Maintenance)

  /** `acked` is acknowledged in `h`: durable there, record for record. */
  ghost predicate Keeps(acked: seq<Record>, h: History) {
    |acked| <= h.durable && Agree(acked, h.log, |acked|)
  }

  lemma KeepsLength(acked: seq<Record>, h: History)
    requires Keeps(acked, h)
    ensures |acked| <= h.durable
  {
  }

  /** What an operation asks to be stored. */
  function Asks(op: Op): set<(nat, Bytes)> {
    match op
    case Write(unit, data, _) => {(unit, data)}
    case Discard(unit, _) => {(unit, [])}
    case Flush => {}
    case Maintain(_) => {}
  }

  ghost predicate OnlyAsked(records: set<Record>, asked: set<(nat, Bytes)>) {
    forall r :: r in records ==> (r.unit, r.payload) in asked
  }

  lemma CoversKeeps(acked: seq<Record>, a: History, requested: set<Record>, b: History, asked: set<(nat, Bytes)>)
    requires Keeps(acked, a) && Covers(a, requested, b) && OnlyAsked(requested, asked)
    ensures Keeps(acked, b) && OnlyAsked(b.issued, asked)
  {
  }

  method Format(discard: bool, geometry: Geometry, segmentSize: nat, unitsPerShard: nat) returns (v: Volume)
    ensures fresh(v) && fresh(v.journal) && fresh(v.overlay)
    ensures v.Valid() && v.discard == discard && v.geometry == geometry
    ensures v.origin == v.journal.history == History([], {}, 0, 0) && v.requested == {}
  {
    hide VolumeOk, CrashSafe, WriterOk, PointSafe, Tracks;
    ghost var h := History([], {}, 0, 0);
    var disk, st := JDisk(map[], {Proof(0, 0, 0)}, {}), Store(map[], {}, map[], {}, 0);
    FormattedOk(disk, st, h, discard, geometry);
    var journal := new JournalWriter.Resume(segmentSize, 0, 0, [], Proof(0, 0, 0), 0, disk, h);
    var overlay := new Overlay();
    v := new Volume(journal, overlay, st, 0, discard, geometry, unitsPerShard);
  }

  class Run {
    const discard: bool
    const geometry: Geometry
    const segmentSize: nat
    const unitsPerShard: nat
    /** The volume in use, if the system is up. */
    var volume: Option<Volume>
    /** What the last crash left behind, if it is down. */
    ghost var down: CrashPoint
    ghost var acknowledged: seq<Record>
    ghost var asked: set<(nat, Bytes)>

    ghost predicate Up()
      reads this, if volume.Some? then {volume.value, volume.value.journal, volume.value.overlay} else {}
    {
      && volume.Some?
      && volume.value.Valid()
      && volume.value.discard == discard && volume.value.geometry == geometry && unitsPerShard > 0
      && Keeps(acknowledged, volume.value.origin)
      && acknowledged == volume.value.origin.log[..volume.value.origin.durable]
      && OnlyAsked(volume.value.requested, asked)
    }

    /** A freshly formatted volume: empty journal, empty slots, checkpoint 0. */
    constructor (discard: bool, geometry: Geometry, segmentSize: nat, unitsPerShard: nat)
      requires unitsPerShard > 0
      ensures Up() && volume.value.Log() == [] && asked == {}
      ensures forall u :: volume.value.Content(u) == None
    {
      this.discard, this.geometry := discard, geometry;
      this.segmentSize, this.unitsPerShard := segmentSize, unitsPerShard;
      hide VolumeOk, CrashSafe, WriterOk, PointSafe, Tracks;
      var v := Format(discard, geometry, segmentSize, unitsPerShard);
      volume, acknowledged, asked := Some(v), [], {};
      new;
    }

    ghost predicate Down()
      reads this
    {
      && volume.None? && unitsPerShard > 0
      && PointSafe(down, discard, geometry)
      && Keeps(acknowledged, down.journal.history)
      && Vouched(down.journal.disk, down.journal.history.floor, |acknowledged|)
      && OnlyAsked(down.journal.history.issued, asked)
    }

    /** What a client sees in every reachable state: each unit reads as the fold of
        one history, which starts with all that was acknowledged and holds only
        what some request asked for. */
    lemma Promise(unit: nat)
      requires Up()
      ensures
        var v := volume.value;
        var m := Fold(v.Log(), |v.Log()|, discard);
        && v.Content(unit) == (if unit in m then Some(m[unit]) else None)
        && acknowledged <= v.Log()[..v.journal.durableSequence]
        && forall i :: 0 <= i < |v.Log()| ==> (v.Log()[i].unit, v.Log()[i].payload) in asked
    {
      hide VolumeOk, CrashSafe, WriterOk, PointSafe, Tracks, Newest;
      var v := volume.value;
      v.ReadsAsFold(unit);
      Watched(v);
      HistoryBounds(v.journal);
    }

    /** Any operation, in any order, failing or not. A crash inside it still finds
        all that was acknowledged when it began. */
    method Do(op: Op) returns (done: bool)
      requires Up()
      modifies this`acknowledged, this`asked, volume.value, volume.value.journal, volume.value.overlay
      ensures Up() && volume == old(volume)
      ensures old(acknowledged) <= acknowledged && asked == old(asked) + Asks(op)
      ensures old(volume.value.Log()) <= volume.value.Log()
      ensures done && op.Write? ==>
        volume.value.Log() == old(volume.value.Log()) + [Record(|old(volume.value.Log())| + 1, op.unit, op.data)]
      ensures done && op.Discard? ==> volume.value.Content(op.unit) == None
      ensures done && op.Discard? && op.fua ==>
        Newest(volume.value.Log(), |volume.value.Log()|, op.unit) <= volume.value.journal.history.durable
      ensures done && (op.Flush? || (op.Write? && op.fua)) ==> volume.value.journal.history.durable == |volume.value.Log()|
    {
      hide Volume.Valid, TookIn, Newest;
      var v := volume.value;
      Watched(v);
      v.Watch();
      acknowledged, asked := v.origin.log[..v.origin.durable], asked + Asks(op);
      done := true;
      match op {
        case Write(unit, data, fua) =>
          var sequence := v.WriteCt(unit, data, fua);
          done := sequence.Some?;
          Watched(v);
        case Discard(unit, fua) =>
          var sequence := v.DiscardCt(unit, fua);
          done := sequence.Some?;
        case Flush =>
          done := v.Flush();
        case Maintain(step) =>
          v.Maintain(step);
      }
    }

    /** The operation has returned: from here on all that is durable counts as
        acknowledged. */
    ghost method Return()
      requires Up()
      modifies this`acknowledged, volume.value`origin, volume.value`since
      ensures Up() && volume == old(volume) && old(acknowledged) <= acknowledged
      ensures acknowledged == volume.value.Log()[..volume.value.journal.durableSequence]
    {
      hide VolumeOk, CrashSafe, WriterOk, PointSafe, Tracks, Newest;
      var v := volume.value;
      Watched(v);
      v.Watch();
      acknowledged := v.origin.log[..v.origin.durable];
    }

    /** The machine stops: inside the last operation, or after it. */
    method Crash(ghost k: nat)
      requires Up()
      modifies this
      ensures Down() && acknowledged == old(acknowledged) && asked == old(asked)
    {
      hide VolumeOk, CrashSafe, WriterOk, PointSafe, Tracks, Newest;
      var v := volume.value;
      Interrupted(v, k, acknowledged, asked);
      down := PointOf(v, k);
      volume := None;
    }

    /** Recovery, on whatever disk the crash left. It may fail or be interrupted
        and tried again; it never refuses. */
    method Attach(img: JImage, disk: JDisk, store: Store, cks: set<nat>, ck: nat, ghost k: nat)
      requires Down() && Survivor(down, img, disk, store, cks, discard) && ck in cks
      modifies this
      ensures Up() || Down()
      ensures old(acknowledged) <= acknowledged && asked == old(asked)
    {
      hide VolumeOk, CrashSafe, WriterOk, PointSafe, Tracks, Newest, IsCrash, Shows, Survives, StoreSurvives, Recovers, Keeps, Covers, OpenIndex, OnlyAsked, Volume.Valid;
      SurvivorRegisters(down, img, disk);
      KeepsLength(acknowledged, down.journal.history);
      var recovery := new Recovery(down, |acknowledged|, img, disk, store, cks, discard, geometry, segmentSize, unitsPerShard);
      var attached, refused := recovery.Recover(img, ck);
      var interrupted: bool := *;
      if interrupted || attached.None? {
        RetriedFrom(recovery, k, acknowledged, down.journal.history, asked);
        down := if k < |recovery.crashes| then recovery.crashes[k] else recovery.Here();
        return;
      }
      var v := attached.value;
      RecoversKeeps(acknowledged, recovery.origin, v.origin, asked);
      volume := attached;
      acknowledged := v.origin.log[..v.origin.durable];
    }
  }

  /** Damage does not pass for an older state: whatever the media did to the rest of
      the journal, if an acknowledged record above the checkpoint is missing, the
      scan that recovery starts with refuses. */
  lemma LossNeverPasses(run: Run, img: JImage, ck: nat, q: nat)
    requires run.Down() && img.proof in run.down.journal.disk.proofs
    requires run.down.journal.history.floor <= ck < q <= |run.acknowledged|
    requires forall r :: OnImage(img, r) ==> r.sequence != q
    ensures !Acceptable(img, ck, run.geometry)
  {
    hide Acceptable, OnImage, PointSafe, Keeps;
    LossIsRefused(img, ck, run.geometry, q);
  }

  lemma FormattedOk(d: JDisk, st: Store, h: History, discard: bool, geometry: Geometry)
    requires d == JDisk(map[], {Proof(0, 0, 0)}, {}) && st == Store(map[], {}, map[], {}, 0) && h == History([], {}, 0, 0)
    ensures CrashSafe(d, h, None)
    ensures WriterOk(WriterView([], None, 0, None, Proof(0, 0, 0), 0), d, h)
    ensures VolumeOk(h, st, 0, {0}, None, 0, discard, geometry)
  {
  }

  /** The crash point `k`, or the present state. */
  ghost function PointOf(v: Volume, k: nat): CrashPoint
    reads v, v.journal
  {
    if v.since <= k < |v.crashes| then v.crashes[k] else CrashPoint(v.Now(), v.store, v.cks)
  }

  lemma Watched(v: Volume)
    requires v.Valid()
    ensures v.origin.durable <= |v.origin.log| && v.journal.history.durable <= |v.Log()|
    ensures v.origin.log[..v.origin.durable] <= v.Log()[..v.journal.history.durable]
  {
    hide CrashSafe, WriterOk, PointSafe, Tracks, Newest;
    VolumeFits(v.journal.history, v.store, v.checkpoint, v.cks, v.plan, v.retired, v.discard, v.geometry);
  }

  lemma Interrupted(v: Volume, k: nat, acked: seq<Record>, asked: set<(nat, Bytes)>)
    requires v.Valid() && Keeps(acked, v.origin) && OnlyAsked(v.requested, asked)
    ensures PointSafe(PointOf(v, k), v.discard, v.geometry)
    ensures Vouched(PointOf(v, k).journal.disk, PointOf(v, k).journal.history.floor, |acked|)
    ensures Keeps(acked, PointOf(v, k).journal.history) && OnlyAsked(PointOf(v, k).journal.history.issued, asked)
  {
    hide VolumeOk, CrashSafe, WriterOk, PointSafe, Tracks, Newest;
    PointNow(v.Now(), v.store, v.checkpoint, v.cks, v.plan, v.retired, v.discard, v.geometry);
    CoversKeeps(acked, v.origin, v.requested, PointOf(v, k).journal.history, asked);
  }

  lemma SurvivorRegisters(p: CrashPoint, img: JImage, disk: JDisk)
    requires Survives(p.journal.disk, img, disk)
    ensures img.proof in disk.proofs && disk.marks == (if img.mark.Some? then {img.mark.value} else {})
  {
    hide IsCrash;
  }

  lemma RecoversKeeps(acked: seq<Record>, p: CrashPoint, h: History, asked: set<(nat, Bytes)>)
    requires Keeps(acked, p.journal.history) && Recovers(p.journal.history, p.journal.open, h) && h.durable == |h.log|
    requires OnlyAsked(p.journal.history.issued, asked)
    ensures acked <= h.log[..h.durable] && Keeps(h.log[..h.durable], h) && OnlyAsked(h.issued, asked)
  {
  }

  lemma RetriedFrom(r: Recovery, k: nat, acked: seq<Record>, h: History, asked: set<(nat, Bytes)>)
    requires r.Safe() && r.acked == |acked| && r.origin.journal.history == h && Keeps(acked, h) && OnlyAsked(h.issued, asked)
    ensures
      var p := if k < |r.crashes| then r.crashes[k] else r.Here();
      && PointSafe(p, r.discard, r.geometry)
      && Vouched(p.journal.disk, p.journal.history.floor, |acked|)
      && Keeps(acked, p.journal.history)
      && OnlyAsked(p.journal.history.issued, asked)
  {
    hide PointSafe;
  }
}
