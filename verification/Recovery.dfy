/** Recovery: from whatever a crash left to a volume ready for use.

  Recovery runs on a disk that may still be volatile, and may itself be
  interrupted at any step. Every step keeps the disk in a state from which the
  next attempt recovers; the history it ends with is the acknowledged one,
  followed only by records some append issued.
 */
module Recovery {
  import opened Records
  import opened SegmentFile
  import opened JournalScan
  import opened JournalDisk
  import opened JournalSteps
  import opened JournalRecovery
  import opened Journal
  import opened Overlay
  import opened Slots
  import opened Volume
  import opened Replay

  /** Slots and discard bits as found after a crash. */
  ghost predicate StoreSurvives(st: Store, e: Store, discard: bool) {
    && StoreOk(e)
    && (forall u :: At(e, u).poss <= At(st, u).poss)
    && (forall u :: Bits(e, u) <= Bits(st, u) && (u in e.discarded) in Bits(st, u))
    && (!discard ==> NoBits(e))
  }

  ghost predicate NoBits(st: Store) {
    st.discarded == {} && st.dirtyBits == {} && st.bits == map[]
  }

  /** A disk that a crash at point `p` may leave, showing the journal `img`. */
  ghost predicate Survivor(p: CrashPoint, img: JImage, disk: JDisk, st: Store, cks: set<nat>, discard: bool) {
    && Survives(p.journal.disk, img, disk)
    && StoreSurvives(p.store, st, discard)
    && cks <= p.cks && cks != {}
  }

  /** The history recovery ends with, against the one it started from. A journal
      with no open segment has nothing left to decide. */
  ghost predicate Recovers(a: History, open: Option<nat>, b: History) {
    && Agree(a.log, b.log, a.durable)
    && a.durable <= b.durable
    && b.issued == a.issued
    && (open.None? && a.durable == |a.log| ==> b.log == a.log)
  }

  lemma StoreSurvivorSafe(st: Store, e: Store, log: seq<Record>, durable: nat, cks: set<nat>, fewer: set<nat>, discard: bool)
    requires SlotsSafe(st, log, durable, cks, discard) && StoreSurvives(st, e, discard) && fewer <= cks
    ensures SlotsSafe(e, log, durable, fewer, discard)
  {
    hide Newest, Expected, At, Bits, StoreOk;
    forall c, u | c in fewer && c <= durable && Newest(log, durable, u) <= c
      ensures Certain(e, u, Expected(log, c, u, discard))
    {
      assert Certain(st, u, Expected(log, c, u, discard));
      assert At(e, u).poss <= At(st, u).poss;
      assert MayBits(e, u) <= Bits(st, u) <= MayBits(st, u);
    }
  }

  /** A crash at a safe point leaves a safe point. */
  lemma SurvivorPoint(p: CrashPoint, img: JImage, disk: JDisk, st: Store, cks: set<nat>, discard: bool, geometry: Geometry)
    requires PointSafe(p, discard, geometry) && Survivor(p, img, disk, st, cks, discard)
    ensures PointSafe(CrashPoint(p.journal.(disk := disk), st, cks), discard, geometry)
    ensures IsCrash(disk, img)
  {
    hide CrashSafe, Survives, StoreSurvives, SlotsSafe;
    SurvivorSafe(p.journal.disk, p.journal.history, p.journal.open, img, disk);
    SurvivorShows(p.journal.disk, p.journal.history, p.journal.open, img, disk);
    StoreSurvivorSafe(p.store, st, p.journal.history.log, p.journal.history.durable, p.cks, cks, discard);
    assert StoreOk(st) by { SurvivorOk(p.store, st, discard); }
  }

  lemma SurvivorOk(st: Store, e: Store, discard: bool)
    requires StoreSurvives(st, e, discard)
    ensures StoreOk(e) && (!discard ==> NoBits(e))
  {
  }

  lemma PointDisk(p: CrashPoint, d: JDisk, discard: bool, geometry: Geometry)
    requires PointSafe(p, discard, geometry) && CrashSafe(d, p.journal.history, p.journal.open)
    ensures PointSafe(p.(journal := p.journal.(disk := d)), discard, geometry)
  {
    hide CrashSafe, SlotsSafe, StoreOk;
  }

  lemma PointFacts(p: CrashPoint, discard: bool, geometry: Geometry)
    requires PointSafe(p, discard, geometry)
    ensures CrashSafe(p.journal.disk, p.journal.history, p.journal.open)
    ensures StoreOk(p.store) && SlotsSafe(p.store, p.journal.history.log, p.journal.history.durable, p.cks, discard)
    ensures forall r :: r in p.journal.history.issued ==> Fits(r, geometry)
    ensures forall c :: c in p.cks ==> p.journal.history.floor <= c <= p.journal.history.durable
  {
    hide CrashSafe, SlotsSafe, StoreOk;
  }

  lemma PointFloor(p: CrashPoint, ck: nat, discard: bool, geometry: Geometry)
    requires PointSafe(p, discard, geometry) && p.cks == {ck}
    ensures PointSafe(p.(journal := p.journal.(history := p.journal.history.(floor := ck))), discard, geometry)
  {
    hide CrashSafe, SlotsSafe, StoreOk;
    RaiseFloor(p.journal.disk, p.journal.history, p.journal.open, ck);
  }

  /** The ghost end of the decision: the recovered log becomes the history. */
  lemma PointAdopts(p: CrashPoint, log: seq<Record>, discard: bool, geometry: Geometry)
    requires PointSafe(p, discard, geometry)
    requires
      var h, open, d := p.journal.history, p.journal.open, p.journal.disk;
      && Agree(h.log, log, h.durable) && h.durable <= |log| < U64_MAX && Numbered(log)
      && (forall i :: 0 <= i < |log| ==> log[i] in h.issued)
      && (open.Some? && open.value in d.files ==>
            Settled(d.files[open.value], log) && Firm(d.files[open.value]) && End(d.files[open.value]) == |log| + 1)
      && (open.None? || open.value !in d.files ==> |log| == h.durable)
    ensures PointSafe(p.(journal := Snapshot(p.journal.disk, p.journal.history.(log := log, durable := |log|), None)), discard, geometry)
  {
    hide CrashSafe, SlotsSafe, StoreOk, Settled, Firm;
    var h := p.journal.history;
    Adopt(p.journal.disk, h, p.journal.open, log);
    GrowSafe(p.store, h.log, h.durable, log, |log|, p.cks, discard);
  }

  /** What the scan promised about the segments, while they are being rewritten. */
  ghost predicate Ready(d: JDisk, segments: seq<SegInfo>, h: History, open: Option<nat>) {
    forall p :: 0 <= p < |segments| ==> ReadySegment(d, segments[p], h, open)
  }

  ghost predicate ReadySegment(d: JDisk, s: SegInfo, h: History, open: Option<nat>) {
    && s.index in d.files
    && d.files[s.index].base == s.base
    && Firm(d.files[s.index])
    && Keepable(d.files[s.index], s.count, h, open == Some(s.index))
  }

  /** Every crash shows exactly these cells. */
  ghost predicate Exactly(f: SegFile, cells: seq<Cell>) {
    && f.base >= 1
    && f.header == {true}
    && f.cache == cells
    && |f.poss| >= |cells|
    && (forall i :: 0 <= i < |cells| ==> f.poss[i] == {cells[i]})
    && f.lens == {|cells|}
  }

  class Recovery {
    const discard: bool
    const geometry: Geometry
    const segmentSize: nat
    const unitsPerShard: nat
    var disk: JDisk
    var store: Store
    var cks: set<nat>
    ghost var history: History
    ghost var open: Option<nat>
    /** Where this recovery started. */
    ghost const origin: CrashPoint
    /** How many records were acknowledged before the crash. */
    ghost const acked: nat
    ghost var crashes: seq<CrashPoint>

    ghost function Here(): CrashPoint
      reads this
    {
      CrashPoint(Snapshot(disk, history, open), store, cks)
    }

    ghost predicate CrashesSafe()
      reads this`crashes
    {
      forall k :: 0 <= k < |crashes| ==>
        && PointSafe(crashes[k], discard, geometry)
        && Recovers(origin.journal.history, origin.journal.open, crashes[k].journal.history)
        && Vouched(crashes[k].journal.disk, crashes[k].journal.history.floor, acked)
    }

    ghost predicate Safe()
      reads this
    {
      && PointSafe(Here(), discard, geometry)
      && Recovers(origin.journal.history, origin.journal.open, history)
      && acked <= history.durable && Vouched(disk, history.floor, acked)
      && (!discard ==> NoBits(store))
      && CrashesSafe()
    }

    /** Start on what a crash at `p` left. */
    constructor (ghost p: CrashPoint, ghost acked: nat, ghost img: JImage, disk: JDisk, store: Store, cks: set<nat>,
                 discard: bool, geometry: Geometry, segmentSize: nat, unitsPerShard: nat)
      requires PointSafe(p, discard, geometry) && Survivor(p, img, disk, store, cks, discard)
      requires acked <= p.journal.history.durable && Vouched(p.journal.disk, p.journal.history.floor, acked)
      ensures Safe() && IsCrash(disk, img) && Shows(disk, img)
      ensures origin == Here() == CrashPoint(p.journal.(disk := disk), store, cks)
      ensures this.discard == discard && this.geometry == geometry && this.unitsPerShard == unitsPerShard
      ensures this.acked == acked
    {
      this.disk, this.store, this.cks := disk, store, cks;
      this.discard, this.geometry, this.segmentSize, this.unitsPerShard := discard, geometry, segmentSize, unitsPerShard;
      history, open, crashes := p.journal.history, p.journal.open, [];
      this.acked := acked;
      origin := CrashPoint(p.journal.(disk := disk), store, cks);
      new;
      hide PointSafe, Survives;
      SurvivorPoint(p, img, disk, store, cks, discard, geometry);
      SurvivorIsShown(p.journal.disk, img, disk);
      SurvivorProofs(p.journal.disk, img, disk);
      SurvivorOk(p.store, store, discard);
      OriginBounds(origin, discard, geometry);
    }

    /** One I/O step on the journal directory. */
    method Io(d: JDisk)
      requires Safe() && CrashSafe(d, history, open) && Vouched(d, history.floor, acked)
      modifies this`disk, this`crashes
      ensures Safe() && disk == d
    {
      hide PointSafe, CrashSafe, Recovers;
      PointDisk(Here(), d, discard, geometry);
      disk := d;
      crashes := crashes + [Here()];
    }

    /** One I/O step on slots, bits or the checkpoint register. */
    method StoreIo(st: Store, cs: set<nat>)
      requires Safe() && PointSafe(CrashPoint(Snapshot(disk, history, open), st, cs), discard, geometry)
      requires !discard ==> NoBits(st)
      modifies this`store, this`cks, this`crashes
      ensures Safe() && store == st && cks == cs
    {
      hide PointSafe, Recovers;
      store, cks := st, cs;
      crashes := crashes + [Here()];
    }

    /** Make the selected checkpoint state durable before anything relies on it. */
    method RestoreCheckpoint(ck: nat) returns (ok: bool)
      requires Safe() && ck in cks
      modifies this`store, this`cks, this`crashes, this`history
      ensures Safe() && store == old(store)
      ensures ok ==> cks == {ck} && history == old(history).(floor := ck)
      ensures !ok ==> cks == old(cks) && history == old(history)
    {
      hide PointSafe, Vouched, CrashSafe, SlotsSafe;
      PointFacts(Here(), discard, geometry);
      VouchedRaised(disk, history.floor, ck, acked);
      ok := *;
      if ok {
        AdvancePoint(Snapshot(disk, history, open), store, cks, {ck}, discard, geometry);
        StoreIo(store, {ck});
        PointFloor(Here(), ck, discard, geometry);
        history := history.(floor := ck);
      }
    }

    /** Remove a final segment whose creation never finished. */
    method DiscardSegment(x: nat) returns (ok: bool)
      requires Safe() && open == Some(x) && x in disk.files && false in disk.files[x].header
      requires forall y :: y in disk.files ==> Firm(disk.files[y])
      modifies this`disk, this`crashes, this`open
      ensures Safe() && disk.proofs == old(disk).proofs && disk.marks == old(disk).marks
      ensures ok ==> open == None && disk.files == old(disk).files - {x}
    {
      hide PointSafe, CrashSafe, Recovers;
      ok := *;
      if !ok { return; }
      PointFacts(Here(), discard, geometry);
      UnlinkOpen(disk, history, x);
      Io(disk.(files := disk.files[x := Unlink(disk.files[x])]));
      ok := *;
      if !ok { return; }
      PointFacts(Here(), discard, geometry);
      SyncDirectory(disk, history, open);
      Io(DirSynced(disk));
      assert disk.files == old(disk).files - {x};
      PointFacts(Here(), discard, geometry);
      OpenGone(disk, history, x);
      PointClosed(Here(), discard, geometry);
      open := None;
    }

    /** Cut a torn tail behind the accepted records. */
    method CutSegment(x: nat, k: nat) returns (ok: bool)
      requires Safe() && x in disk.files && Keepable(disk.files[x], k, history, open == Some(x))
      modifies this`disk, this`crashes
      ensures Safe() && OneFile(old(disk), disk, x)
      ensures Keepable(disk.files[x], k, history, open == Some(x))
    {
      hide PointSafe, CrashSafe, Recovers, Step, Solid, Honest;
      ok := *;
      if !ok { return; }
      CutStep(disk.files[x], k, history, open == Some(x));
      KeepFile(x, Truncate(disk.files[x], k));
      ok := *;
      SyncStep(disk.files[x], k, history, open == Some(x), ok);
      KeepFile(x, if ok then SyncOk(disk.files[x]) else SyncFailed(disk.files[x]));
    }

    /** Rewrite an accepted prefix and sync it: `cells` is what the scan read, and
        the fingerprint it took stands for it. A clean page may read back as
        anything it ever held; then the rewrite is refused. */
    method RewriteSegment(x: nat, cells: seq<Cell>) returns (ok: bool)
      requires Safe() && x in disk.files && Keepable(disk.files[x], |cells|, history, open == Some(x))
      modifies this`disk, this`crashes
      ensures Safe() && OneFile(old(disk), disk, x)
      ensures Keepable(disk.files[x], |cells|, history, open == Some(x))
      ensures ok ==> Exactly(disk.files[x], cells)
    {
      hide PointSafe, CrashSafe, Recovers, Step, Solid, Honest, Settled;
      var k := |cells|;
      ok := *;
      if !ok { return; }
      CutStep(disk.files[x], k, history, open == Some(x));
      KeepFile(x, Truncate(disk.files[x], k));
      HeaderStep(disk.files[x], k, history, open == Some(x));
      KeepFile(x, WriteHeader(disk.files[x]));
      var seen: seq<Cell> := [];
      for i := 0 to k
        invariant Safe() && OneFile(old(disk), disk, x)
        invariant Keepable(disk.files[x], k, history, open == Some(x)) && Trim(disk.files[x], k)
        invariant disk.files[x].headerDirty && |seen| == i && Redirtied(disk.files[x], seen)
      {
        ok := *;
        if !ok { return; }
        var f := disk.files[x];
        var v := f.cache[i];
        if i !in f.dirty {
          v :| v in f.poss[i];
        }
        PutStep(f, k, history, open == Some(x), i, v);
        KeepFile(x, Put(f, i, v));
        seen := seen + [v];
      }
      if seen != cells {
        return false;
      }
      ok := *;
      var f := disk.files[x];
      SyncStep(f, k, history, open == Some(x), ok);
      if ok { RewrittenExactly(f, cells); }
      KeepFile(x, if ok then SyncOk(f) else SyncFailed(f));
    }

    method KeepFile(x: nat, g: SegFile)
      requires Safe() && x in disk.files && Step(disk.files[x], g, history, open == Some(x))
      modifies this`disk, this`crashes
      ensures Safe() && disk == old(disk).(files := old(disk).files[x := g]) && OneFile(old(disk), disk, x)
    {
      hide PointSafe, CrashSafe, Recovers, Improves, Settled, Honest, WellFormed;
      PointFacts(Here(), discard, geometry);
      FileStep(disk, history, open, x, g);
      Io(disk.(files := disk.files[x := g]));
    }

    /** One repair the scan decided on. */
    method Repair(img: JImage, ghost ck: nat, r: Scanned, i: nat) returns (ok: bool)
      requires Safe() && IsCrash(disk, img) && Shows(disk, img)
      requires Acceptable(img, ck, geometry) && ScanFacts(img, ck, r) && r.repairs == AllRepairs(img, |img.segs|)
      requires Ready(disk, r.segments, history, open) && i < |r.repairs|
      modifies this`disk, this`crashes, this`open
      ensures Safe() && disk.proofs == old(disk).proofs && disk.marks == old(disk).marks
      ensures ok ==> i + 1 == |r.repairs| && Ready(disk, r.segments, history, open)
      ensures ok ==> KeysAre(disk, r.segments) && OpenAfter(old(open), open, img, disk)
    {
      hide PointSafe, CrashSafe, Recovers, Ready, ReadySegment, IsCrash, Shows, Acceptable, Kept, Gapless, FromImage, Keepable, OpenAfter, KeysAre;
      PointFacts(Here(), discard, geometry);
      CrashSorted(disk, img);
      RepairFacts(disk, history, open, img, ck, geometry, r);
      ghost var last := |img.segs| - 1;
      match r.repairs[i] {
        case Discard(x) =>
          DiscardedIsOpen(disk, history, open, img, last);
          ok := DiscardSegment(x);
          if ok {
            AfterDiscard(old(disk), history, img, r, x, disk);
          }
        case Cut(x, k) =>
          ReadyIs(disk, r.segments, last, history, open);
          ok := CutSegment(x, k);
          if ok {
            AfterCut(old(disk), history, open, img, r, disk);
          }
      }
    }

    /** Rewrite and sync every accepted prefix, in order. */
    method RewriteAll(img: JImage, r: Scanned) returns (ok: bool)
      requires Safe() && r.Accepted? && Kept(img, r.segments) && Sorted(img)
      requires Ready(disk, r.segments, history, open)
      modifies this`disk, this`crashes
      ensures Safe() && disk.proofs == old(disk).proofs && disk.marks == old(disk).marks
      ensures disk.files.Keys == old(disk).files.Keys
      ensures ok ==> Restored(disk, img, r.segments, |r.segments|) && Ready(disk, r.segments, history, open)
    {
      hide PointSafe, CrashSafe, Recovers, Exactly, Keepable;
      ok := true;
      for p := 0 to |r.segments|
        invariant ok && Safe() && disk.proofs == old(disk).proofs && disk.marks == old(disk).marks
        invariant disk.files.Keys == old(disk).files.Keys
        invariant Ready(disk, r.segments, history, open)
        invariant Restored(disk, img, r.segments, p)
      {
        var s := r.segments[p];
        assert ReadySegment(disk, s, history, open);
        assert s == Info(img.segs[p]);
        ghost var before := disk;
        ok := RewriteSegment(s.index, img.segs[p].cells[..s.count]);
        if !ok { return; }
        RestoredNext(before, disk, history, open, img, r.segments, p);
      }
    }

    /** Repairs, then the rewrite of every accepted segment. */
    method AcceptJournal(img: JImage, ck: nat, r: Scanned) returns (ok: bool)
      requires Safe() && history.floor <= ck <= history.durable
      requires open == origin.journal.open && history == origin.journal.history.(floor := history.floor)
      requires IsCrash(disk, img) && Shows(disk, img)
      requires Acceptable(img, ck, geometry) && ScanFacts(img, ck, r) && r.repairs == AllRepairs(img, |img.segs|)
      modifies this`disk, this`crashes, this`open, this`history
      ensures Safe() && disk.proofs == old(disk).proofs && disk.marks == old(disk).marks
      ensures ok ==> open == None && ck <= |old(history).log|
      ensures ok ==> Adopted(old(history), ck, r, history)
      ensures ok ==> Sealed(disk, r.segments) && KeysAre(disk, r.segments)
    {
      hide PointSafe, CrashSafe, Recovers, Ready, IsCrash, Shows, Acceptable, Kept, Gapless, FromImage, Restored, OpenAfter, KeysAre;
      PointFacts(Here(), discard, geometry);
      CrashSorted(disk, img);
      ReadyAtStart(disk, history, open, img, ck, geometry, r);
      for i := 0 to |r.repairs|
        invariant Safe() && history == old(history)
        invariant disk.proofs == old(disk).proofs && disk.marks == old(disk).marks
        invariant Ready(disk, r.segments, history, open)
        invariant i == 0 ==> disk == old(disk) && open == old(open)
        invariant i == 0 || i == |r.repairs|
        invariant i == |r.repairs| ==> KeysAre(disk, r.segments) && OpenAfter(old(open), open, img, disk)
      {
        ok := Repair(img, ck, r, i);
        if !ok { return; }
      }
      ghost var repaired := disk;
      ok := RewriteAll(img, r);
      if !ok { return; }
      SameKeys(repaired, disk, r.segments, old(open), open, img);
      ghost var log := RecoveredLog(old(history), ck, r.replay);
      RecoveredIsHistory(old(disk), old(history), old(open), img, ck, r);
      AdoptReady(old(disk), history, old(open), img, ck, geometry, r, disk, open);
      PointAdopts(Here(), log, discard, geometry);
      AdoptRecovers(origin, open, img, disk, history, log);
      RestoredSealed(disk, img, r.segments, history, open);
      history, open := history.(log := log, durable := |log|), None;
    }

    /** Sync the directory and point the advisory mark at the last segment. */
    method PublishMark(segments: seq<SegInfo>) returns (ok: bool)
      requires Safe() && open == None && Sealed(disk, segments) && KeysAre(disk, segments) && |segments| > 0
      modifies this`disk, this`crashes
      ensures Safe() && disk.files == old(disk).files && disk.proofs == old(disk).proofs
      ensures ok ==> disk.marks == {Mark(segments[|segments| - 1].index, segments[|segments| - 1].count)}
    {
      hide PointSafe, CrashSafe, Recovers, SealedOk, KeysAre;
      PointFacts(Here(), discard, geometry);
      ok := *;
      if !ok { return; }
      SyncDirectory(disk, history, open);
      DirUnchanged(disk, segments);
      Io(DirSynced(disk));
      var last := segments[|segments| - 1];
      var mark := Mark(last.index, last.count);
      PointFacts(Here(), discard, geometry);
      SealedVouches(disk, history, last);
      Vouch(disk, history, open, disk.proofs, disk.marks + {mark});
      Io(disk.(marks := disk.marks + {mark}));
      ok := *;
      if !ok { return; }
      PointFacts(Here(), discard, geometry);
      Vouch(disk, history, open, disk.proofs, {mark});
      Io(disk.(marks := {mark}));
    }

    /** Publish the recovered horizon as the required proof. A horizon that no
        segment ends at would be refused; that never happens. */
    method AdvanceProof(img: JImage, ck: nat, r: Scanned) returns (ok: bool, refused: bool, next: Proof)
      requires Safe() && open == None && r.Accepted? && ScanFacts(img, ck, r) && Sealed(disk, r.segments)
      requires img.proof in disk.proofs && history.durable == |history.log| == r.durable
      requires img.proof.sequence <= r.durable && (img.proof.sequence > 0 ==> img.proof.index < r.nextIndex)
      requires forall p :: 0 <= p < |r.segments| ==> r.segments[p].index < r.nextIndex
      modifies this`disk, this`crashes
      ensures Safe() && disk.files == old(disk).files && disk.marks == old(disk).marks
      ensures !refused
      ensures ok ==> disk.proofs == {next} && next.sequence <= r.durable && (next.sequence > 0 ==> next.index < r.nextIndex)
      ensures ok ==> Vouched(disk, ck, r.durable)
    {
      hide PointSafe, CrashSafe, Recovers, SealedOk, ScanFacts;
      next, refused, ok := img.proof, false, false;
      PointFacts(Here(), discard, geometry);
      if r.durable > next.sequence {
        var found := FindBoundary(r.segments, r.durable);
        if found.Some? {
          next := Proof(r.durable, found.value.index, found.value.count);
          SealedVouches(disk, history, found.value);
        } else if r.durable > ck {
          BoundaryExists(img, ck, r);
          refused := true;
          return;
        }
      }
      Vouch(disk, history, open, disk.proofs + {next}, disk.marks);
      Io(disk.(proofs := disk.proofs + {next}));
      ok := *;
      if !ok { return; }
      PointFacts(Here(), discard, geometry);
      Vouch(disk, history, open, {next}, disk.marks);
      Io(disk.(proofs := {next}));
    }

    /** What replay may assume at any point of its run. */
    ghost predicate Replaying(ck: nat)
      reads this
    {
      Safe() && open == None && cks == {ck} && history.durable == |history.log| && unitsPerShard > 0
    }

    /** Write the last version of each unit in the batch to its slot. */
    method WriteLatest(batch: seq<Record>, ghost ck: nat, ghost k: nat) returns (ok: bool)
      requires Replaying(ck) && ck <= k && IsBatch(history.log, k, batch)
      modifies this`store, this`cks, this`crashes
      ensures Replaying(ck) && SameBits(old(store), store) && Aside(old(store), store, UnitsOf(batch))
      ensures ok ==> Staged(store, batch, |batch|, discard)
    {
      hide PointSafe, Recovers, Writes, Newest, IsItem, UnitsOf, WriteSlotHeader, WriteSlotPayload, Aside, Staged;
      ok := true;
      StageStarts(store, batch, discard);
      for j := 0 to |batch|
        invariant ok && Replaying(ck) && SameBits(old(store), store) && Aside(old(store), store, UnitsOf(batch))
        invariant Staged(store, batch, j, discard)
      {
        if Writes(batch, j, discard) {
          ok := WriteOne(batch, j, old(store), ck, k);
          if !ok { return; }
        } else {
          StageSkip(store, batch, j, discard);
        }
      }
    }

    /** One slot write of replay: header, then payload. */
    method WriteOne(batch: seq<Record>, j: nat, ghost before: Store, ghost ck: nat, ghost k: nat) returns (ok: bool)
      requires Replaying(ck) && ck <= k && IsBatch(history.log, k, batch) && j < |batch| && Writes(batch, j, discard)
      requires Staged(store, batch, j, discard) && SameBits(before, store) && Aside(before, store, UnitsOf(batch))
      modifies this`store, this`cks, this`crashes
      ensures Replaying(ck) && SameBits(before, store) && Aside(before, store, UnitsOf(batch))
      ensures ok ==> Staged(store, batch, j + 1, discard)
    {
      hide PointSafe, Recovers, Writes, Newest, IsItem, UnitsOf, Aside, Staged;
      var u, v := batch[j].unit, VersionOf(batch[j]);
      ok := *;
      if !ok { return; }
      StageNext(before, store, history.log, k, batch, j, discard);
      var a := WriteSlotHeader(store, u, v);
      var b := WriteSlotPayload(a, u, v);
      WritePoint(Here(), k, batch, j, discard, geometry);
      StoreIo(a, cks);
      ok := *;
      if !ok { return; }
      WritePoint(Here(), k, batch, j, discard, geometry);
      StoreIo(b, cks);
    }

    /** Sync every shard the batch wrote to. */
    method SyncLatest(batch: seq<Record>, ghost before: Store, ghost ck: nat) returns (ok: bool)
      requires Replaying(ck) && Staged(store, batch, |batch|, discard)
      requires SameBits(before, store) && Aside(before, store, UnitsOf(batch))
      modifies this`store, this`cks, this`crashes
      ensures Replaying(ck) && SameBits(before, store)
      ensures ok ==> Flushed(store, batch, {}, unitsPerShard, discard) && Aside(before, store, UnitsOf(batch))
    {
      hide PointSafe, Recovers, Writes, UnitsOf, Aside, Staged, Flushed, ShardsOf, SyncShard;
      ok := true;
      var pending := ShardsOf(batch, unitsPerShard, discard);
      FlushStarts(store, batch, unitsPerShard, discard);
      while pending != {}
        invariant ok && Replaying(ck) && SameBits(before, store) && Aside(before, store, UnitsOf(batch))
        invariant Staged(store, batch, |batch|, discard) && Flushed(store, batch, pending, unitsPerShard, discard)
        decreases pending
      {
        var shard :| shard in pending;
        ok := *;
        var units := ShardUnits(store, unitsPerShard, shard);
        SyncPoint(Here(), units, ok, discard, geometry);
        if ok {
          FlushShard(before, store, batch, pending, shard, unitsPerShard, discard);
        }
        StoreIo(SyncShard(store, units, ok), cks);
        if !ok { return; }
        pending := pending - {shard};
      }
    }

    /** Set the discard bits of the batch in memory, record by record. */
    method MarkBatch(batch: seq<Record>, ghost ck: nat, ghost k: nat) returns (ok: bool)
      requires Replaying(ck) && ck <= k && IsBatch(history.log, k, batch) && discard
      modifies this`store
      ensures Replaying(ck)
      ensures ok ==> BitsMarked(old(store), store, batch, |batch|)
    {
      hide PointSafe, Recovers, UnitsOf, SetDiscarded, BitsMarked;
      ok := true;
      MarkStarts(store, batch);
      for j := 0 to |batch|
        invariant ok && Replaying(ck) && BitsMarked(old(store), store, batch, j)
      {
        ok := *;
        if !ok { return; }
        MarkNext(old(store), store, batch, j);
        MarkPoint(Here(), k, batch, j, discard, geometry);
        store := SetDiscarded(store, batch[j].unit, batch[j].payload == []);
      }
    }

    method PersistDiscards() returns (ok: bool)
      requires Safe()
      modifies this`store, this`cks, this`crashes
      ensures Safe() && cks == old(cks)
      ensures store.slots == old(store).slots && store.failures == old(store).failures
      ensures store.discarded == old(store).discarded
      ensures ok ==> BitsSettled(store)
    {
      hide PointSafe, Recovers, MayBits, StoreBits;
      BitsPoint(Here(), false, discard, geometry);
      StoreIo(StoreBits(store, false), cks);
      ok := *;
      if ok {
        BitsPoint(Here(), true, discard, geometry);
        StoreIo(StoreBits(store, true), cks);
      }
    }

    /** One batch: slots, then bits, each durable before the next batch. */
    method ApplyBatch(batch: seq<Record>, ghost ck: nat, ghost k: nat) returns (ok: bool)
      requires Replaying(ck) && ck <= k && IsBatch(history.log, k, batch)
      requires Applied(store, history.log, ck, k, discard)
      requires |batch| > 1 ==> BytesOf(batch) <= BATCH_BYTES
      modifies this`store, this`cks, this`crashes
      ensures Replaying(ck)
      ensures ok ==> Applied(store, history.log, ck, k + |batch|, discard)
    {
      hide PointSafe, Recovers, Writes, UnitsOf, Aside, Staged, Flushed, BitsMarked, Applied, MayBits, SameBits, IsBatch, StoreOk;
      if batch == [] {
        return true;
      }
      ghost var before := store;
      PointFacts(Here(), discard, geometry);
      ok := WriteLatest(batch, ck, k);
      if !ok { return; }
      ok := SyncLatest(batch, before, ck);
      if !ok { return; }
      ghost var flushed := store;
      PointFacts(Here(), discard, geometry);
      if discard {
        ok := MarkBatch(batch, ck, k);
        if !ok { return; }
        ghost var marked := store;
        ok := PersistDiscards();
        if !ok { return; }
        BitsSame(flushed, marked, store, batch);
      } else {
        PlainBits(store);
      }
      BatchApplied(before, flushed, store, history.log, ck, k, batch, unitsPerShard, discard);
    }

    /** Apply the accepted records in byte-bounded batches: a batch exceeds the
        target only when a single record does. */
    method ReplayAll(replay: seq<Record>, ghost ck: nat) returns (ok: bool)
      requires Replaying(ck) && IsBatch(history.log, ck, replay) && ck + |replay| == |history.log|
      modifies this`store, this`cks, this`crashes
      ensures Replaying(ck)
      ensures ok ==> Applied(store, history.log, ck, |history.log|, discard)
    {
      hide PointSafe, Recovers, Applied, IsBatch, BytesOf;
      var batch: seq<Record>, bytes: nat := [], 0;
      ok := true;
      BatchEnds(history.log, ck, replay);
      AppliedStarts(store, history.log, ck, discard);
      for i := 0 to |replay|
        invariant ok && Replaying(ck) && |batch| <= i
        invariant IsBatch(history.log, ck + i - |batch|, batch)
        invariant Applied(store, history.log, ck, ck + i - |batch|, discard)
        invariant bytes == BytesOf(batch) && (batch == [] || bytes < BATCH_BYTES)
      {
        var r := replay[i];
        var size := RECORD_HEADER_BYTES + |r.payload|;
        if batch != [] && bytes + size > BATCH_BYTES {
          ok := ApplyBatch(batch, ck, ck + i - |batch|);
          if !ok { return; }
          batch, bytes := [], 0;
        }
        BatchGrows(history.log, ck, replay, i, batch);
        BytesGrow(batch, r);
        batch, bytes := batch + [r], bytes + size;
        if bytes >= BATCH_BYTES {
          ok := ApplyBatch(batch, ck, ck + i + 1 - |batch|);
          if !ok { return; }
          batch, bytes := [], 0;
        }
      }
      ok := ApplyBatch(batch, ck, ck + |replay| - |batch|);
    }

    /** The replayed records are in their slots: move the checkpoint over them. */
    method StoreCheckpoint(ghost ck: nat, n: nat) returns (ok: bool)
      requires Replaying(ck) && n == |history.log| && ck <= n && Applied(store, history.log, ck, n, discard)
      modifies this`store, this`cks, this`crashes, this`history
      ensures Safe() && store == old(store)
      ensures if ok then cks == {n} && history == old(history).(floor := n) else history == old(history)
    {
      hide PointSafe, Applied;
      ReplayedPoint(Here(), ck, discard, geometry);
      StoreIo(store, cks + {n});
      ok := *;
      if ok {
        AdvancePoint(Snapshot(disk, history, open), store, cks, {n}, discard, geometry);
        StoreIo(store, {n});
        PointFloor(Here(), n, discard, geometry);
        history := history.(floor := n);
      }
    }

    /** Remove the replayed segments. */
    method RemoveSegments(segments: seq<SegInfo>) returns (ok: bool)
      requires Safe() && open == None && history.floor == history.durable
      requires Sealed(disk, segments) && KeysAre(disk, segments)
      modifies this`disk, this`crashes
      ensures Safe() && disk.proofs == old(disk).proofs && disk.marks == old(disk).marks
      ensures ok ==> disk.files == map[]
    {
      hide PointSafe, CrashSafe, Recovers, SealedOk, KeysAre;
      ok := true;
      for i := 0 to |segments|
        invariant ok && Safe() && disk.proofs == old(disk).proofs && disk.marks == old(disk).marks
        invariant disk.files.Keys == old(disk).files.Keys
        invariant forall p :: 0 <= p < i ==> segments[p].index in disk.files && !disk.files[segments[p].index].visible
      {
        ok := *;
        var effect: bool := *;
        if !ok && !effect { return; }
        var x := segments[i].index;
        SealedListed(old(disk), segments[i]);
        PointFacts(Here(), discard, geometry);
        CoveredEnd(disk, history, x);
        RemoveCovered(disk, history, open, x);
        Io(disk.(files := disk.files[x := Unlink(disk.files[x])]));
        if !ok { return; }
      }
      ok := *;
      if !ok { return; }
      PointFacts(Here(), discard, geometry);
      SyncDirectory(disk, history, open);
      AllGone(old(disk), disk, segments);
      Io(DirSynced(disk));
    }

    /** Scan the journal, make what it accepts durable, and publish that. The scan
        never refuses a journal that a crash can leave. */
    method TakeJournal(img: JImage, ck: nat) returns (ok: bool, refused: bool, r: Scanned, next: Proof)
      requires Safe() && Here() == origin && IsCrash(disk, img) && Shows(disk, img) && ck in cks
      requires img.proof in disk.proofs && disk.marks == (if img.mark.Some? then {img.mark.value} else {})
      modifies this`disk, this`store, this`cks, this`crashes, this`history, this`open
      ensures Safe() && store == old(store) && !refused
      ensures ok ==> cks == {ck} && history.floor == ck && open == None
      ensures ok ==> r.Accepted? && Taken(history, disk, ck, r, next) && Vouched(disk, ck, history.durable)
      ensures ok && |r.segments| > 0 ==>
        disk.marks == {Mark(r.segments[|r.segments| - 1].index, r.segments[|r.segments| - 1].count)}
    {
      hide PointSafe, CrashSafe, IsCrash, Shows, Acceptable, Gapless, FromImage, Kept, Sealed, KeysAre;
      ok, refused, next := false, false, img.proof;
      PointFacts(Here(), discard, geometry);
      CrashAccepted(disk, history, open, img, ck, geometry);
      r := ScanJournal(img, ck, geometry);
      if r.Corrupt? {
        refused := true;
        return;
      }
      OriginBounds(Here(), discard, geometry);
      RecoveredIsHistory(disk, history, open, img, ck, r);
      SegmentsSorted(disk, img, r);
      ok := RestoreCheckpoint(ck);
      if !ok { return; }
      ok := AcceptJournal(img, ck, r);
      if !ok { return; }
      ReplayIsBatch(old(history), ck, r.replay);
      ghost var taken := disk;
      if |r.segments| > 0 {
        ok := PublishMark(r.segments);
        if !ok { return; }
      }
      SealedSame(taken, disk, r.segments);
      ok, refused, next := AdvanceProof(img, ck, r);
      SealedSame(taken, disk, r.segments);
    }

    /** Replay what the checkpoint does not cover, then settle the discard maps. */
    method TakeSlots(ck: nat, r: Scanned, ghost next: Proof) returns (ok: bool, sealed: seq<SegInfo>)
      requires Replaying(ck) && history.floor == ck && r.Accepted? && Taken(history, disk, ck, r, next)
      modifies this`disk, this`store, this`cks, this`crashes, this`history
      ensures Safe() && open == None && disk.proofs == old(disk).proofs && disk.marks == old(disk).marks
      ensures history == old(history).(floor := history.floor)
      ensures ok ==> cks == {r.durable} && history.floor == r.durable && BitsSettled(store)
      ensures ok ==> Sealed(disk, sealed) && KeysAre(disk, sealed) && (sealed == [] || sealed == r.segments)
    {
      hide PointSafe, Recovers, Sealed, KeysAre, IsBatch, BitsSettled, Applied;
      sealed := r.segments;
      if r.durable > ck {
        ok := ReplayAll(r.replay, ck);
        if !ok { return; }
        ok := StoreCheckpoint(ck, r.durable);
        if !ok { return; }
        ok := RemoveSegments(r.segments);
        if !ok { return; }
        sealed := [];
        NothingSealed(disk);
      }
      ok := PersistDiscards();
    }

    /** `recover`: from any disk a crash can leave. It may fail on an I/O error, and
        then another attempt may start from where this one stopped; it never
        refuses. The volume it returns has the acknowledged history. */
    method Recover(img: JImage, ck: nat) returns (volume: Option<Volume>, refused: bool)
      requires Safe() && Here() == origin && IsCrash(disk, img) && Shows(disk, img) && ck in cks
      requires img.proof in disk.proofs && disk.marks == (if img.mark.Some? then {img.mark.value} else {})
      requires unitsPerShard > 0
      modifies this`disk, this`store, this`cks, this`crashes, this`history, this`open
      ensures Safe() && !refused
      ensures volume.Some? ==>
        var v := volume.value;
        && fresh(v) && fresh(v.journal) && fresh(v.overlay) && v.Valid()
        && v.discard == discard && v.geometry == geometry && v.plan == None
        && Recovers(origin.journal.history, origin.journal.open, v.journal.history)
        && v.checkpoint == v.journal.history.durable == |v.Log()| && v.origin == v.journal.history
        && v.requested == v.journal.history.issued
        && v.overlay.units == map[] && v.journal.PendingBytes() == 0 && BitsSettled(v.store)
    {
      hide PointSafe, CrashSafe, Recovers, IsCrash, Shows, Sealed, KeysAre, IsBatch, WriterOk, VolumeOk, BitsSettled;
      volume := None;
      var ok, r, next;
      ok, refused, r, next := TakeJournal(img, ck);
      if !ok { return; }
      var sealed;
      ok, sealed := TakeSlots(ck, r, next);
      if !ok { return; }
      PointFacts(Here(), discard, geometry);
      ResumeOk(disk, history, sealed, r, next);
      ReadyVolume(Here(), discard, geometry);
      var journal := new JournalWriter.Resume(segmentSize, r.durable, r.nextIndex, sealed, next, r.durable, disk, history);
      var overlay := new Overlay();
      overlay.Promote(r.durable);
      NothingPromoted(r.durable);
      var v := new Volume(journal, overlay, store, r.durable, discard, geometry, unitsPerShard);
      volume := Some(v);
    }
  }

  /** Only file `x` changed, and neither its name nor its place. */
  ghost predicate OneFile(d: JDisk, e: JDisk, x: nat) {
    && x in d.files && x in e.files
    && e == d.(files := d.files[x := e.files[x]])
    && e.files[x].base == d.files[x].base
    && e.files[x].visible == d.files[x].visible && e.files[x].present == d.files[x].present
  }

  lemma OriginBounds(p: CrashPoint, discard: bool, geometry: Geometry)
    requires PointSafe(p, discard, geometry)
    ensures HistoryOk(p.journal.history)
  {
    hide SlotsSafe, StoreOk, FileOk, Ordered, Stored, ProofOk, MarkOk;
  }

  lemma PointClosed(p: CrashPoint, discard: bool, geometry: Geometry)
    requires PointSafe(p, discard, geometry) && CrashSafe(p.journal.disk, p.journal.history, None)
    ensures PointSafe(p.(journal := p.journal.(open := None)), discard, geometry)
  {
    hide CrashSafe, SlotsSafe, StoreOk;
  }

  lemma RewrittenExactly(f: SegFile, cells: seq<Cell>)
    requires WellFormed(f) && Trim(f, |cells|) && f.headerDirty && Redirtied(f, cells)
    ensures Exactly(SyncOk(f), cells)
  {
  }

  lemma ExactlySettled(f: SegFile, cells: seq<Cell>, log: seq<Record>)
    requires WellFormed(f) && Exactly(f, cells) && f.base + |cells| <= |log| + 1
    requires forall i :: 0 <= i < |cells| ==> cells[i] == Rec(log[f.base + i - 1])
    ensures Settled(f, log)
  {
  }

  /** The files are exactly the ones the scan listed, with the cells it read. */
  ghost predicate Shows(d: JDisk, img: JImage) {
    && (forall x :: x in d.files <==> Listed(img, x))
    && (forall i :: 0 <= i < |img.segs| ==> ShowsSegment(d, img.segs[i]))
  }

  ghost predicate ShowsSegment(d: JDisk, s: SegImage) {
    && s.index in d.files
    && d.files[s.index].cache == s.cells && d.files[s.index].base == s.base && Firm(d.files[s.index])
  }

  ghost predicate KeysAre(d: JDisk, segments: seq<SegInfo>) {
    forall x :: x in d.files ==> Among(segments, x)
  }

  ghost predicate Among(segments: seq<SegInfo>, x: nat) {
    exists p :: 0 <= p < |segments| && segments[p].index == x
  }

  ghost predicate Sealed(d: JDisk, segments: seq<SegInfo>) {
    forall p :: 0 <= p < |segments| ==> SealedOk(segments[p], d) && Firm(d.files[segments[p].index])
  }

  /** The open segment is still there, or it was discarded. */
  ghost predicate OpenAfter(before: Option<nat>, after: Option<nat>, img: JImage, d: JDisk) {
    || (after == before && forall p :: 0 <= p < |img.segs| ==> img.segs[p].index in d.files)
    || (after == None && exists p :: 0 <= p < |img.segs| && before == Some(img.segs[p].index) && !img.segs[p].header)
  }

  ghost predicate Adopted(a: History, ck: nat, r: Scanned, b: History)
    requires r.Accepted? && ck <= |a.log|
  {
    b == a.(log := RecoveredLog(a, ck, r.replay), durable := |RecoveredLog(a, ck, r.replay)|)
  }

  lemma SurvivorIsShown(d: JDisk, img: JImage, e: JDisk)
    requires Survives(d, img, e)
    ensures Shows(e, img)
  {
    hide IsImage;
    forall i | 0 <= i < |img.segs|
      ensures ShowsSegment(e, img.segs[i])
    {
      assert Listed(img, img.segs[i].index);
      assert Narrows(d.files[img.segs[i].index], e.files[img.segs[i].index], img.segs[i]);
      assert IsImage(d.files[img.segs[i].index], img.segs[i].index, img.segs[i]);
      ImageBase(d.files[img.segs[i].index], img.segs[i].index, img.segs[i]);
    }
  }

  lemma VouchedRaised(d: JDisk, floor: nat, higher: nat, n: nat)
    requires Vouched(d, floor, n) && floor <= higher
    ensures Vouched(d, higher, n)
  {
  }

  lemma SurvivorProofs(d: JDisk, img: JImage, e: JDisk)
    requires Survives(d, img, e)
    ensures e.proofs <= d.proofs
  {
    hide IsImage, IsCrash;
  }

  lemma ImageBase(f: SegFile, x: nat, im: SegImage)
    requires IsImage(f, x, im)
    ensures im.base == f.base && im.header in f.header
  {
  }

  lemma ReadyAtStart(d: JDisk, h: History, open: Option<nat>, img: JImage, ck: nat, geometry: Geometry, r: Scanned)
    requires CrashSafe(d, h, open) && IsCrash(d, img) && Shows(d, img)
    requires Acceptable(img, ck, geometry) && ScanFacts(img, ck, r)
    ensures Ready(d, r.segments, h, open)
    ensures AllRepairs(img, |img.segs|) == [] ==> KeysAre(d, r.segments) && OpenAfter(open, open, img, d)
  {
    hide CrashSafe, IsCrash, PositionOk, ReadySegment, FromImage, Gapless, ShowsSegment, Marked, Count, LastSequence;
    RepairsAtEnd(img, |img.segs|, ck, geometry);
    forall p | 0 <= p < |r.segments|
      ensures ReadySegment(d, r.segments[p], h, open)
    {
      ReadyOne(d, h, open, img, p);
    }
    if AllRepairs(img, |img.segs|) == [] {
      forall x | x in d.files
        ensures Among(r.segments, x)
      {
        assert Listed(img, x);
      }
    }
  }

  lemma ReadyOne(d: JDisk, h: History, open: Option<nat>, img: JImage, p: nat)
    requires CrashSafe(d, h, open) && IsCrash(d, img) && Shows(d, img) && p < |img.segs|
    ensures ReadySegment(d, Info(img.segs[p]), h, open)
  {
    hide CrashSafe, IsCrash, Honest, Solid;
    var s := img.segs[p];
    assert ShowsSegment(d, s);
    OpenIsLast(d, h, open, img, p);
    var f := d.files[s.index];
    if open == Some(s.index) {
      forall j: nat | Solid(f, j, h.log)
        ensures j <= Count(s)
      {
        SolidImage(f, s.index, s, j, h.log);
      }
    } else {
      ClosedImage(f, s.index, s, h.log);
    }
  }

  /** An unfinished segment can only be the open one. */
  lemma DiscardedIsOpen(d: JDisk, h: History, open: Option<nat>, img: JImage, p: nat)
    requires CrashSafe(d, h, open) && IsCrash(d, img) && p < |img.segs| && !img.segs[p].header
    ensures open == Some(img.segs[p].index) && img.segs[p].index in d.files && false in d.files[img.segs[p].index].header
  {
    hide CrashSafe, IsCrash, Honest, Solid;
    OpenIsLast(d, h, open, img, p);
    var s := img.segs[p];
    var f := d.files[s.index];
    ImageBase(f, s.index, s);
    if open != Some(s.index) {
      ClosedImage(f, s.index, s, h.log);
      assert false;
    }
  }

  /** The first `n` segments are, for every crash, what the scan accepted. */
  ghost predicate Restored(d: JDisk, img: JImage, segments: seq<SegInfo>, n: nat)
    requires n <= |segments| && Kept(img, segments)
  {
    forall p :: 0 <= p < n ==> RestoredSegment(d, img.segs[p], segments[p])
  }

  ghost predicate RestoredSegment(d: JDisk, im: SegImage, s: SegInfo)
    requires s == Info(im)
  {
    s.index in d.files && Exactly(d.files[s.index], im.cells[..s.count])
  }

  lemma RestoredNext(d: JDisk, e: JDisk, h: History, open: Option<nat>, img: JImage, segments: seq<SegInfo>, p: nat)
    requires Kept(img, segments) && Sorted(img) && p < |segments|
    requires Ready(d, segments, h, open) && Restored(d, img, segments, p)
    requires OneFile(d, e, segments[p].index) && Keepable(e.files[segments[p].index], segments[p].count, h, open == Some(segments[p].index))
    requires Exactly(e.files[segments[p].index], img.segs[p].cells[..segments[p].count])
    ensures Ready(e, segments, h, open) && Restored(e, img, segments, p + 1)
  {
    hide Keepable, Exactly;
    forall q | 0 <= q < |segments|
      ensures ReadySegment(e, segments[q], h, open)
      ensures q <= p ==> RestoredSegment(e, img.segs[q], segments[q])
    {
      assert ReadySegment(d, segments[q], h, open);
      assert q != p ==> img.segs[q].index != img.segs[p].index;
      assert q < p ==> RestoredSegment(d, img.segs[q], segments[q]);
    }
  }

  lemma ReadyIs(d: JDisk, segments: seq<SegInfo>, p: nat, h: History, open: Option<nat>)
    requires Ready(d, segments, h, open) && p < |segments|
    ensures
      var s := segments[p];
      s.index in d.files && Keepable(d.files[s.index], s.count, h, open == Some(s.index))
  {
    assert ReadySegment(d, segments[p], h, open);
  }

  lemma CrashSorted(d: JDisk, img: JImage)
    requires IsCrash(d, img)
    ensures Sorted(img)
  {
  }

  lemma RepairFacts(d: JDisk, h: History, open: Option<nat>, img: JImage, ck: nat, geometry: Geometry, r: Scanned)
    requires Acceptable(img, ck, geometry) && ScanFacts(img, ck, r) && r.repairs == AllRepairs(img, |img.segs|)
    requires |r.repairs| > 0 && Shows(d, img)
    ensures |r.repairs| == 1 && |img.segs| > 0
    ensures r.repairs[0].Discard? ==>
      Discarded(img, |img.segs| - 1) && !img.segs[|img.segs| - 1].header
      && r.repairs[0].index == img.segs[|img.segs| - 1].index && |r.segments| + 1 == |img.segs|
    ensures r.repairs[0].Cut? ==>
      |r.segments| == |img.segs| && r.segments[|img.segs| - 1] == Info(img.segs[|img.segs| - 1])
      && r.repairs[0].index == r.segments[|img.segs| - 1].index && r.repairs[0].cells == r.segments[|img.segs| - 1].count
    ensures forall y :: y in d.files ==> Firm(d.files[y])
  {
    hide PositionOk, FromImage;
    RepairsAtEnd(img, |img.segs|, ck, geometry);
    forall y | y in d.files
      ensures Firm(d.files[y])
    {
      assert Listed(img, y);
      var i :| 0 <= i < |img.segs| && img.segs[i].index == y;
      assert ShowsSegment(d, img.segs[i]);
    }
  }

  lemma AfterDiscard(d: JDisk, h: History, img: JImage, r: Scanned, x: nat, e: JDisk)
    requires r.Accepted? && Kept(img, r.segments) && Shows(d, img) && Sorted(img)
    requires |r.segments| + 1 == |img.segs| && x == img.segs[|img.segs| - 1].index && !img.segs[|img.segs| - 1].header
    requires Ready(d, r.segments, h, Some(x)) && e.files == d.files - {x}
    ensures Ready(e, r.segments, h, None) && KeysAre(e, r.segments) && OpenAfter(Some(x), None, img, e)
  {
    hide Keepable;
    forall p | 0 <= p < |r.segments|
      ensures ReadySegment(e, r.segments[p], h, None)
    {
      assert ReadySegment(d, r.segments[p], h, Some(x));
      assert img.segs[p].index < x;
    }
    forall y | y in e.files
      ensures Among(r.segments, y)
    {
      assert Listed(img, y);
      var i :| 0 <= i < |img.segs| && img.segs[i].index == y;
      assert i < |r.segments| && r.segments[i].index == y;
    }
  }

  lemma AfterCut(d: JDisk, h: History, open: Option<nat>, img: JImage, r: Scanned, e: JDisk)
    requires r.Accepted? && Kept(img, r.segments) && Shows(d, img) && Sorted(img)
    requires |r.segments| == |img.segs| > 0
    requires Ready(d, r.segments, h, open)
    requires
      var s := r.segments[|img.segs| - 1];
      OneFile(d, e, s.index) && Keepable(e.files[s.index], s.count, h, open == Some(s.index))
    ensures Ready(e, r.segments, h, open) && KeysAre(e, r.segments) && OpenAfter(open, open, img, e)
  {
    hide Keepable;
    forall p | 0 <= p < |r.segments|
      ensures ReadySegment(e, r.segments[p], h, open)
    {
      assert ReadySegment(d, r.segments[p], h, open);
    }
    forall y | y in e.files
      ensures Among(r.segments, y)
    {
      assert Listed(img, y);
      var i :| 0 <= i < |img.segs| && img.segs[i].index == y;
      assert r.segments[i].index == y;
    }
    forall p | 0 <= p < |img.segs|
      ensures img.segs[p].index in e.files
    {
      assert ShowsSegment(d, img.segs[p]);
    }
  }

  /** With everything rewritten, the recovered log may become the history. */
  lemma AdoptReady(d: JDisk, h: History, open: Option<nat>, img: JImage, ck: nat, geometry: Geometry, r: Scanned,
                   e: JDisk, now: Option<nat>)
    requires CrashSafe(d, h, open) && IsCrash(d, img) && h.floor <= ck <= h.durable <= |h.log|
    requires Acceptable(img, ck, geometry) && ScanFacts(img, ck, r)
    requires Ready(e, r.segments, h, now) && Restored(e, img, r.segments, |r.segments|) && KeysAre(e, r.segments)
    requires OpenAfter(open, now, img, e)
    requires
      var log := RecoveredLog(h, ck, r.replay);
      |log| == r.durable && h.durable <= |log| && Agree(h.log, log, h.durable)
    ensures
      var log := RecoveredLog(h, ck, r.replay);
      && (now.Some? && now.value in e.files ==>
            Settled(e.files[now.value], log) && Firm(e.files[now.value]) && End(e.files[now.value]) == |log| + 1)
      && (now.None? || now.value !in e.files ==> |log| == h.durable)
  {
    hide CrashSafe, IsCrash, Gapless, FromImage, Kept, Keepable, Settled, Exactly, Acceptable, IsImage;
    if now.Some? && now.value in e.files {
      assert Among(r.segments, now.value);
      var p :| 0 <= p < |r.segments| && r.segments[p].index == now.value;
      OpenSettles(d, h, open, img, ck, geometry, r, e, p);
    } else {
      NoneOpen(d, h, open, img, ck, geometry, r, e, now);
    }
  }

  lemma OpenSettles(d: JDisk, h: History, open: Option<nat>, img: JImage, ck: nat, geometry: Geometry, r: Scanned,
                    e: JDisk, p: nat)
    requires CrashSafe(d, h, open) && IsCrash(d, img) && h.floor <= ck <= h.durable <= |h.log|
    requires Acceptable(img, ck, geometry) && ScanFacts(img, ck, r)
    requires p < |r.segments| && open == Some(r.segments[p].index)
    requires ReadySegment(e, r.segments[p], h, open)
    requires Kept(img, r.segments) && RestoredSegment(e, img.segs[p], r.segments[p])
    requires
      var log := RecoveredLog(h, ck, r.replay);
      |log| == r.durable && h.durable <= |log| && Agree(h.log, log, h.durable)
    ensures
      var log, f := RecoveredLog(h, ck, r.replay), e.files[r.segments[p].index];
      Settled(f, log) && Firm(f) && End(f) == |log| + 1
  {
    hide CrashSafe, IsCrash, Honest, Solid, BodyOk, Linked;
    var s := img.segs[p];
    assert PositionOk(img, p, ck, geometry);
    if Discarded(img, p) {
      KeptIsFinished(img, r, p);
      assert false;
    }
    RecoveredTail(d, h, open, img, ck, r, p);
    var f := e.files[s.index];
    ExactlySettled(f, s.cells[..Count(s)], RecoveredLog(h, ck, r.replay));
  }

  lemma KeptIsFinished(img: JImage, r: Scanned, p: nat)
    requires r.Accepted? && Kept(img, r.segments) && p < |r.segments|
    ensures !Discarded(img, p)
  {
  }

  lemma NoneOpen(d: JDisk, h: History, open: Option<nat>, img: JImage, ck: nat, geometry: Geometry, r: Scanned,
                 e: JDisk, now: Option<nat>)
    requires CrashSafe(d, h, open) && IsCrash(d, img) && h.floor <= ck <= h.durable <= |h.log|
    requires ScanFacts(img, ck, r) && OpenAfter(open, now, img, e)
    requires now.None? || now.value !in e.files
    ensures r.durable <= h.durable
  {
    hide CrashSafe, ScanFacts;
    RecoveredEnds(d, h, open, img, ck, r);
  }

  lemma SameKeys(d: JDisk, e: JDisk, segments: seq<SegInfo>, before: Option<nat>, after: Option<nat>, img: JImage)
    requires KeysAre(d, segments) && OpenAfter(before, after, img, d) && e.files.Keys == d.files.Keys
    ensures KeysAre(e, segments) && OpenAfter(before, after, img, e)
  {
    forall x | x in e.files
      ensures Among(segments, x)
    {
      assert x in d.files;
    }
    if after == before && forall p :: 0 <= p < |img.segs| ==> img.segs[p].index in d.files {
      forall p | 0 <= p < |img.segs|
        ensures img.segs[p].index in e.files
      {
        assert img.segs[p].index in d.files;
      }
    }
  }

  lemma RestoredSealed(d: JDisk, img: JImage, segments: seq<SegInfo>, h: History, open: Option<nat>)
    requires Kept(img, segments) && Ready(d, segments, h, open) && Restored(d, img, segments, |segments|)
    ensures Sealed(d, segments)
  {
    hide Keepable;
    forall p | 0 <= p < |segments|
      ensures SealedOk(segments[p], d) && Firm(d.files[segments[p].index])
    {
      assert ReadySegment(d, segments[p], h, open);
      assert RestoredSegment(d, img.segs[p], segments[p]);
    }
  }

  lemma AdoptRecovers(origin: CrashPoint, now: Option<nat>, img: JImage, d: JDisk, h: History, log: seq<Record>)
    requires h == origin.journal.history.(floor := h.floor) && OpenAfter(origin.journal.open, now, img, d)
    requires Agree(h.log, log, h.durable) && h.durable <= |log|
    requires now.None? || now.value !in d.files ==> |log| == h.durable
    ensures Recovers(origin.journal.history, origin.journal.open, h.(log := log, durable := |log|))
  {
  }

  /** The last segment that ends with record `n`. */
  method FindBoundary(segments: seq<SegInfo>, n: nat) returns (found: Option<SegInfo>)
    ensures found.Some? ==> found.value in segments && found.value.count > 0 && LastSequence(found.value) == n
    ensures found.None? ==> forall p :: 0 <= p < |segments| ==> !(segments[p].count > 0 && LastSequence(segments[p]) == n)
  {
    var i := |segments|;
    while i > 0
      invariant 0 <= i <= |segments|
      invariant forall p :: i <= p < |segments| ==> !(segments[p].count > 0 && LastSequence(segments[p]) == n)
    {
      i := i - 1;
      if segments[i].count > 0 && LastSequence(segments[i]) == n {
        return Some(segments[i]);
      }
    }
    return None;
  }

  /** A horizon above the checkpoint is the end of some accepted segment. */
  lemma BoundaryExists(img: JImage, ck: nat, r: Scanned)
    requires ScanFacts(img, ck, r) && r.durable > ck
    ensures exists p :: 0 <= p < |r.segments| && r.segments[p].count > 0 && LastSequence(r.segments[p]) == r.durable
  {
    var last := r.replay[|r.replay| - 1];
    assert OnImage(img, last);
    var p, j :| 0 <= p < |img.segs| && 0 <= j < Count(img.segs[p]) && img.segs[p].header && img.segs[p].cells[j] == Rec(last);
    assert p < |r.segments|;
    assert r.segments[p] == Info(img.segs[p]);
  }

  lemma DirUnchanged(d: JDisk, segments: seq<SegInfo>)
    requires Sealed(d, segments) && KeysAre(d, segments)
    ensures DirSynced(d) == d
  {
    hide SealedOk;
    forall x | x in d.files
      ensures Firm(d.files[x])
    {
      assert Among(segments, x);
      var p :| 0 <= p < |segments| && segments[p].index == x;
    }
    var e := DirSynced(d);
    forall x | x in d.files
      ensures x in e.files && e.files[x] == d.files[x]
    {
      assert Firm(d.files[x]);
    }
    assert e.files == d.files;
  }

  /** A sealed segment backs a mark of its whole length, and a proof of its last record. */
  lemma SealedVouches(d: JDisk, h: History, s: SegInfo)
    requires CrashSafe(d, h, None) && SealedOk(s, d) && Firm(d.files[s.index])
    ensures MarkOk(d, Mark(s.index, s.count), h)
    ensures s.count > 0 ==> ProofOk(d, Proof(LastSequence(s), s.index, s.count), h)
  {
    hide Ordered, Stored, ProofOk;
    assert FileOk(d, s.index, h, None);
    var f := d.files[s.index];
    assert Settled(f, h.log);
    if s.count > 0 { ProofOf(d, h, s); }
  }

  lemma ProofOf(d: JDisk, h: History, s: SegInfo)
    requires s.index in d.files && s.index < U64_MAX && SealedOk(s, d) && Firm(d.files[s.index]) && s.count > 0
    requires Settled(d.files[s.index], h.log) && End(d.files[s.index]) <= h.durable + 1 && h.durable <= |h.log|
    ensures ProofOk(d, Proof(LastSequence(s), s.index, s.count), h)
  {
  }

  // Replay steps at a crash point. ----------------------------------------------

  lemma PointStore(p: CrashPoint, st: Store, discard: bool, geometry: Geometry)
    requires PointSafe(p, discard, geometry)
    requires SlotsSafe(st, p.journal.history.log, p.journal.history.durable, p.cks, discard) && StoreOk(st)
    ensures PointSafe(p.(store := st), discard, geometry)
  {
    hide CrashSafe, SlotsSafe, StoreOk;
  }

  lemma WritePoint(p: CrashPoint, k: nat, batch: seq<Record>, j: nat, discard: bool, geometry: Geometry)
    requires PointSafe(p, discard, geometry)
    requires
      var h := p.journal.history;
      IsBatch(h.log, k, batch) && h.durable == |h.log| && (forall c :: c in p.cks ==> c <= k)
    requires j < |batch| && Writes(batch, j, discard)
    ensures
      var u, v := batch[j].unit, VersionOf(batch[j]);
      && PointSafe(p.(store := WriteSlotHeader(p.store, u, v)), discard, geometry)
      && PointSafe(p.(store := WriteSlotPayload(p.store, u, v)), discard, geometry)
  {
    hide PointSafe, SlotsSafe, StoreOk, IsItem, Newest;
    var h := p.journal.history;
    var u, v := batch[j].unit, VersionOf(batch[j]);
    PointFacts(p, discard, geometry);
    WritesItem(h.log, k, batch, j, discard);
    assert !(discard && v.data == []);
    WriteSlotSafe(p.store, h.log, h.durable, p.cks, discard, k + |batch|, u, v);
    PointStore(p, WriteSlotHeader(p.store, u, v), discard, geometry);
    PointStore(p, WriteSlotPayload(p.store, u, v), discard, geometry);
  }

  lemma SyncPoint(p: CrashPoint, units: set<nat>, ok: bool, discard: bool, geometry: Geometry)
    requires PointSafe(p, discard, geometry)
    ensures PointSafe(p.(store := SyncShard(p.store, units, ok)), discard, geometry)
    ensures StoreOk(p.store) && SameBits(p.store, SyncShard(p.store, units, ok))
  {
    hide PointSafe, SlotsSafe;
    PointFacts(p, discard, geometry);
    SyncShardSafe(p.store, p.journal.history.log, p.journal.history.durable, p.cks, discard, units, ok);
    PointStore(p, SyncShard(p.store, units, ok), discard, geometry);
  }

  lemma MarkPoint(p: CrashPoint, k: nat, batch: seq<Record>, j: nat, discard: bool, geometry: Geometry)
    requires PointSafe(p, discard, geometry) && discard
    requires
      var h := p.journal.history;
      IsBatch(h.log, k, batch) && h.durable == |h.log| && (forall c :: c in p.cks ==> c <= k)
    requires j < |batch|
    ensures PointSafe(p.(store := SetDiscarded(p.store, batch[j].unit, batch[j].payload == [])), discard, geometry)
  {
    hide PointSafe, SlotsSafe, StoreOk, Expected, Newest;
    var h := p.journal.history;
    var u := batch[j].unit;
    PointFacts(p, discard, geometry);
    assert h.log[k + j].unit == u;
    assert Newest(h.log, h.durable, u) > k;
    SetBitSafe(p.store, h.log, h.durable, p.cks, discard, u, batch[j].payload == []);
    PointStore(p, SetDiscarded(p.store, u, batch[j].payload == []), discard, geometry);
  }

  lemma BitsPoint(p: CrashPoint, ok: bool, discard: bool, geometry: Geometry)
    requires PointSafe(p, discard, geometry) && (!discard ==> NoBits(p.store))
    ensures
      var st := StoreBits(p.store, ok);
      && PointSafe(p.(store := st), discard, geometry) && (!discard ==> NoBits(st))
      && st.slots == p.store.slots && st.failures == p.store.failures && st.discarded == p.store.discarded
      && (ok ==> forall u :: MayBits(st, u) == {u in st.discarded})
  {
    hide PointSafe, SlotsSafe;
    PointFacts(p, discard, geometry);
    StoreBitsSafe(p.store, p.journal.history.log, p.journal.history.durable, p.cks, discard, ok);
    PointStore(p, StoreBits(p.store, ok), discard, geometry);
    if ok { StoredBits(p.store); }
  }

  lemma StoredBits(st: Store)
    requires StoreOk(st)
    ensures forall u :: MayBits(StoreBits(st, true), u) == {u in StoreBits(st, true).discarded}
  {
    var a := StoreBits(st, true);
    forall u ensures MayBits(a, u) == {u in a.discarded} {
      assert u in st.discarded || u in st.bits ==> u in st.dirtyBits || Bits(st, u) == {u in st.discarded};
    }
  }

  lemma PlainBits(st: Store)
    ensures NoBits(st) ==> forall u :: MayBits(st, u) == {u in st.discarded}
  {
  }

  lemma BitsSame(a: Store, b: Store, c: Store, batch: seq<Record>)
    requires BitsMarked(a, b, batch, |batch|) && c.slots == b.slots && c.failures == b.failures && c.discarded == b.discarded
    ensures BitsMarked(a, c, batch, |batch|) && c.slots == a.slots
  {
  }

  lemma AppliedStarts(st: Store, log: seq<Record>, ck: nat, discard: bool)
    requires ck <= |log|
    ensures Applied(st, log, ck, ck, discard)
  {
    hide ItemCertain;
  }

  lemma ReplayedPoint(p: CrashPoint, ck: nat, discard: bool, geometry: Geometry)
    requires PointSafe(p, discard, geometry) && p.cks == {ck}
    requires
      var h := p.journal.history;
      h.durable == |h.log| && ck <= |h.log| && Applied(p.store, h.log, ck, |h.log|, discard)
    ensures PointSafe(p.(cks := p.cks + {|p.journal.history.log|}), discard, geometry)
  {
    hide CrashSafe, SlotsSafe, StoreOk, ItemCertain, Newest, Applied, VersionOfNewest, IsItem;
    var h := p.journal.history;
    var n := |h.log|;
    var items := map u | u in UnitsOf(h.log) && Newest(h.log, n, u) > ck :: VersionOfNewest(h.log, n, u);
    forall u | Newest(h.log, n, u) > ck
      ensures u in items && IsItem(h.log, n, u, items[u]) && ItemCertain(p.store, u, items[u], discard)
    {
      ReplayedItem(p.store, h.log, ck, u, discard);
    }
    CheckpointSafe(p.store, h.log, n, p.cks, discard, ck, n, items);
  }

  lemma ReplayedItem(st: Store, log: seq<Record>, ck: nat, u: nat, discard: bool)
    requires ck <= |log| && Applied(st, log, ck, |log|, discard) && Newest(log, |log|, u) > ck
    ensures u in UnitsOf(log)
    ensures IsItem(log, |log|, u, VersionOfNewest(log, |log|, u))
    ensures ItemCertain(st, u, VersionOfNewest(log, |log|, u), discard)
  {
    hide ItemCertain;
    assert log[Newest(log, |log|, u) - 1] in log;
  }

  lemma CoveredEnd(d: JDisk, h: History, x: nat)
    requires CrashSafe(d, h, None) && x in d.files && h.floor == h.durable
    ensures End(d.files[x]) <= h.floor + 1
  {
    hide Ordered, Stored, ProofOk, MarkOk, Settled;
    assert FileOk(d, x, h, None);
  }

  lemma SealedListed(d: JDisk, s: SegInfo)
    requires SealedOk(s, d)
    ensures s.index in d.files
  {
  }

  lemma AllGone(d: JDisk, e: JDisk, segments: seq<SegInfo>)
    requires KeysAre(d, segments) && e.files.Keys == d.files.Keys
    requires forall p :: 0 <= p < |segments| ==> segments[p].index in e.files && !e.files[segments[p].index].visible
    ensures DirSynced(e).files == map[]
  {
    forall x | x in e.files
      ensures !e.files[x].visible
    {
      assert x in d.files && Among(segments, x);
    }
  }

  /** The journal as recovery leaves it to the replay. */
  ghost predicate Taken(h: History, d: JDisk, ck: nat, r: Scanned, next: Proof)
    requires r.Accepted?
  {
    && h.durable == |h.log| == r.durable >= ck
    && IsBatch(h.log, ck, r.replay) && ck + |r.replay| == |h.log|
    && Sealed(d, r.segments) && KeysAre(d, r.segments)
    && d.proofs == {next} && next.sequence <= r.durable && (next.sequence > 0 ==> next.index < r.nextIndex)
    && (forall m :: m in d.marks ==> m.index < r.nextIndex)
    && (forall p :: 0 <= p < |r.segments| ==> r.segments[p].index < r.nextIndex)
    && (forall p, q :: 0 <= p < q < |r.segments| ==> r.segments[p].index < r.segments[q].index)
    && r.nextIndex <= U64_MAX
  }

  lemma SealedSame(d: JDisk, e: JDisk, segments: seq<SegInfo>)
    requires Sealed(d, segments) && KeysAre(d, segments) && e.files == d.files
    ensures Sealed(e, segments) && KeysAre(e, segments)
  {
    forall p | 0 <= p < |segments|
      ensures SealedOk(segments[p], e) && Firm(e.files[segments[p].index])
    {
      assert SealedOk(segments[p], d);
    }
  }

  lemma SegmentsSorted(d: JDisk, img: JImage, r: Scanned)
    requires IsCrash(d, img) && r.Accepted? && Kept(img, r.segments)
    ensures forall p, q :: 0 <= p < q < |r.segments| ==> r.segments[p].index < r.segments[q].index
  {
    hide IsImage, Discarded;
    CrashSorted(d, img);
    forall p, q | 0 <= p < q < |r.segments|
      ensures r.segments[p].index < r.segments[q].index
    {
      assert img.segs[p].index < img.segs[q].index;
    }
  }

  lemma ReplayIsBatch(h: History, ck: nat, replay: seq<Record>)
    requires ck <= |h.log| && Numbered(RecoveredLog(h, ck, replay))
    ensures IsBatch(RecoveredLog(h, ck, replay), ck, replay)
  {
  }

  lemma NothingSealed(d: JDisk)
    requires d.files == map[]
    ensures Sealed(d, []) && KeysAre(d, [])
  {
  }

  lemma ResumeOk(d: JDisk, h: History, sealed: seq<SegInfo>, r: Scanned, next: Proof)
    requires CrashSafe(d, h, None) && r.Accepted? && h.durable == |h.log| == r.durable
    requires Sealed(d, sealed) && KeysAre(d, sealed) && (sealed == [] || sealed == r.segments)
    requires d.proofs == {next} && next.sequence <= r.durable && (next.sequence > 0 ==> next.index < r.nextIndex)
    requires forall m :: m in d.marks ==> m.index < r.nextIndex
    requires forall p :: 0 <= p < |r.segments| ==> r.segments[p].index < r.nextIndex
    requires forall p, q :: 0 <= p < q < |r.segments| ==> r.segments[p].index < r.segments[q].index
    requires r.nextIndex <= U64_MAX
    ensures WriterOk(WriterView(sealed, None, r.nextIndex, None, next, r.durable), d, h)
  {
    hide Ordered, Stored, ProofOk, MarkOk, Settled;
    forall p | 0 <= p < |sealed|
      ensures sealed[p].base + sealed[p].count <= h.durable + 1
    {
      assert SealedOk(sealed[p], d) && FileOk(d, sealed[p].index, h, None);
    }
    forall x | x in d.files
      ensures x < r.nextIndex
    {
      assert Among(sealed, x);
    }
  }

  /** Everything is checkpointed: slots alone serve every unit. */
  lemma ReadyVolume(p: CrashPoint, discard: bool, geometry: Geometry)
    requires PointSafe(p, discard, geometry) && (!discard ==> NoBits(p.store))
    requires
      var h := p.journal.history;
      h.floor == h.durable == |h.log| && p.cks == {h.durable}
    ensures
      var h := p.journal.history;
      VolumeOk(h, p.store, h.durable, {h.durable}, None, h.durable, discard, geometry)
  {
    hide CrashSafe, SlotsSafe, StoreOk, LiveOk;
    CertainLive(p.store, p.journal.history.log, discard);
  }

  lemma CertainLive(st: Store, log: seq<Record>, discard: bool)
    requires StoreOk(st) && SlotsSafe(st, log, |log|, {|log|}, discard)
    ensures LiveOk(st, log, |log|, discard)
  {
    hide Expected;
    forall u | Newest(log, |log|, u) <= |log|
      ensures ReadSlot(st, u) == Expected(log, |log|, u, discard)
    {
      assert Certain(st, u, Expected(log, |log|, u, discard));
      assert At(st, u).cache in At(st, u).poss;
      BitShown(st, u);
    }
  }
}
