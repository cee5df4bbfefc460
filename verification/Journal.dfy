/** The ordered journal writer.

  Every I/O result is left open: any step may fail, with or without effect, and
  a failed sync may drop what it did not write. The writer records a snapshot of
  the disk after each of its I/O steps; `Valid` says every one of them is
  crash-safe, so nothing is lost wherever a crash interrupts a call.
 */
module Journal {
  import opened Records
  import opened SegmentFile
  import opened JournalScan
  import opened JournalDisk
  import opened JournalSteps

  const HEADER_BYTES: nat := 48
  const RECORD_HEADER_BYTES: nat := 32

  /** The segment being written. Positions are counted in records; `offset` and
      `syncedOffset` are the byte positions that decide when to roll. `pending`
      stands for the fingerprint of the records accepted since the last sync. */
  datatype Active = Active(
    info: SegInfo,
    offset: nat,
    synced: nat,
    syncedOffset: nat,
    unsynced: bool,
    needsTailCleanup: bool,
    needsRedirty: bool,
    pending: seq<Record>)

  datatype Snapshot = Snapshot(disk: JDisk, history: History, open: Option<nat>)

  datatype WriterView = WriterView(
    sealed: seq<SegInfo>,
    active: Option<Active>,
    nextIndex: nat,
    creationCleanup: Option<nat>,
    proof: Proof,
    holesAllowedBelow: nat)

  function Infos(v: WriterView): seq<SegInfo> {
    if v.active.Some? then v.sealed + [v.active.value.info] else v.sealed
  }

  function OpenIndex(v: WriterView): Option<nat> {
    if v.active.Some? then Some(v.active.value.info.index) else v.creationCleanup
  }

  /** The accepted records that await a sync are in the cache and dirty. */
  ghost predicate PendingDirty(a: Active, f: SegFile, log: seq<Record>) {
    && (f.lenDirty || f.lens == {|f.cache|})
    && a.info.count <= |f.cache|
    && 1 <= f.base && f.base + a.info.count <= |log| + 1
    && forall i :: a.synced <= i < a.info.count ==> i in f.dirty && f.cache[i] == Rec(log[f.base + i - 1])
  }

  ghost predicate Counters(a: Active, h: History) {
    && a.info.base >= 1
    && a.info.base + a.info.count == |h.log| + 1
    && a.synced <= a.info.count
    && h.durable + 1 == a.info.base + a.synced
    && (a.unsynced <==> a.synced < a.info.count)
    && HEADER_BYTES <= a.syncedOffset <= a.offset
    && (a.unsynced <==> a.syncedOffset < a.offset)
    && |a.pending| == a.info.count - a.synced
    && forall i :: 0 <= i < |a.pending| ==> a.pending[i] == h.log[h.durable + i]
  }

  ghost predicate ActiveOk(a: Active, f: SegFile, h: History) {
    && WellFormed(f)
    && f.base == a.info.base
    && Firm(f)
    && f.header == {true}
    && a.info.count <= |f.cache|
    && |f.poss| <= a.info.count + 1
    && (!a.needsTailCleanup ==> |f.cache| == a.info.count)
    && (!a.unsynced && !a.needsTailCleanup ==> f.lens == {|f.cache|})
    && (!a.needsRedirty ==> PendingDirty(a, f, h.log))
  }

  /** A sealed segment is as its description says, and still linked. */
  ghost predicate SealedOk(s: SegInfo, d: JDisk) {
    && s.index in d.files
    && d.files[s.index].base == s.base
    && |d.files[s.index].cache| == s.count
    && d.files[s.index].visible
  }

  /** Neighbouring segments: increasing index, contiguous unless both ends lie
      under a checkpoint that was already there when the writer resumed. */
  ghost predicate Chained(infos: seq<SegInfo>, holes: nat) {
    && (forall i, j :: 0 <= i < j < |infos| ==> infos[i].index < infos[j].index)
    && (forall i :: 0 < i < |infos| ==> Follows(infos[i - 1], infos[i], holes))
  }

  ghost predicate Follows(a: SegInfo, b: SegInfo, holes: nat) {
    b.base == a.base + a.count || (a.base + a.count <= holes + 1 && b.base <= holes + 1)
  }

  ghost predicate WriterOk(v: WriterView, d: JDisk, h: History) {
    && (v.creationCleanup.Some? ==> v.active.None? && v.creationCleanup.value == v.nextIndex)
    && v.nextIndex <= U64_MAX
    && (forall x :: x in d.files ==> x < v.nextIndex || v.creationCleanup == Some(x))
    && (forall p :: p in d.proofs && p.sequence > 0 ==> p.index < v.nextIndex)
    && (forall m :: m in d.marks ==> m.index < v.nextIndex)
    && (forall i :: 0 <= i < |v.sealed| ==> SealedOk(v.sealed[i], d) && v.sealed[i].index < v.nextIndex)
    && (v.active.None? && |v.sealed| > 0 ==>
          Follows(v.sealed[|v.sealed| - 1], SegInfo(v.nextIndex, h.durable + 1, 0), v.holesAllowedBelow))
    && Chained(Infos(v), v.holesAllowedBelow)
    && v.holesAllowedBelow <= h.durable
    && v.proof.sequence <= h.durable
    && (v.active.None? ==> h.durable == |h.log|)
    && (v.creationCleanup.Some? && v.nextIndex in d.files ==>
          d.files[v.nextIndex].base == h.durable + 1 && |d.files[v.nextIndex].poss| == 0 && v.nextIndex < U64_MAX)
    && (v.active.Some? ==>
          && v.active.value.info.index in d.files
          && Counters(v.active.value, h)
          && ActiveOk(v.active.value, d.files[v.active.value.info.index], h))
  }

  /** The active segment and its file change together. */
  lemma ActiveChanged(v: WriterView, d: JDisk, h: History, a: Active, g: SegFile, h': History)
    requires WriterOk(v, d, h) && v.active.Some?
    requires a.info.index == v.active.value.info.index && a.info.base == v.active.value.info.base
    requires Counters(a, h') && ActiveOk(a, g, h') && h.durable <= h'.durable
    ensures WriterOk(v.(active := Some(a)), d.(files := d.files[a.info.index := g]), h')
  {
    hide Counters, ActiveOk, Follows;
    var w := v.(active := Some(a));
    var e := d.(files := d.files[a.info.index := g]);
    var n := |v.sealed|;
    assert Infos(v)[n] == v.active.value.info && Infos(w)[n] == a.info;
    forall i | 0 <= i < n
      ensures Infos(w)[i] == Infos(v)[i] == v.sealed[i] && SealedOk(v.sealed[i], e)
    {
      assert SealedOk(v.sealed[i], d);
    }
    forall i | 0 < i < |Infos(w)|
      ensures Follows(Infos(w)[i - 1], Infos(w)[i], v.holesAllowedBelow)
    {
      assert Follows(Infos(v)[i - 1], Infos(v)[i], v.holesAllowedBelow);
      SameBase(Infos(v)[i - 1], Infos(v)[i], Infos(w)[i], v.holesAllowedBelow);
    }
  }

  lemma SameBase(a: SegInfo, b: SegInfo, c: SegInfo, holes: nat)
    requires Follows(a, b, holes) && b.base == c.base
    ensures Follows(a, c, holes)
  {
  }

  lemma ActiveFacts(v: WriterView, d: JDisk, h: History)
    requires WriterOk(v, d, h) && v.active.Some?
    ensures v.active.value.info.index in d.files
    ensures v.active.value.info.index < v.nextIndex <= U64_MAX
    ensures v.proof.sequence <= h.durable
    ensures Counters(v.active.value, h)
    ensures ActiveOk(v.active.value, d.files[v.active.value.info.index], h)
  {
  }

  /** The active segment after one more record. */
  ghost predicate Longer(a: Active, b: Active, r: Record) {
    && b.info == a.info.(count := a.info.count + 1)
    && b.offset == a.offset + RECORD_HEADER_BYTES + |r.payload|
    && b.unsynced && b.syncedOffset == a.syncedOffset
  }

  /** No name leads to the segment any more: the next directory sync frees it. */
  ghost predicate Hidden(d: JDisk, x: nat) {
    x in d.files ==> !d.files[x].visible
  }

  ghost predicate KeepsHidden(d: JDisk, e: JDisk) {
    forall x :: Hidden(d, x) ==> Hidden(e, x)
  }

  lemma HiddenStay(d: JDisk, e: JDisk, infos: seq<SegInfo>, n: nat)
    requires KeepsHidden(d, e) && n <= |infos| && forall j :: 0 <= j < n ==> Hidden(d, infos[j].index)
    ensures forall j :: 0 <= j < n ==> Hidden(e, infos[j].index)
  {
  }

  class JournalWriter {
    const segmentSize: nat
    var nextSequence: nat
    var appendedSequence: nat
    var durableSequence: nat
    var sealed: seq<SegInfo>
    var active: Option<Active>
    var nextIndex: nat
    var creationCleanup: Option<nat>
    var proof: Proof
    var holesAllowedBelow: nat
    var syncFailures: nat
    var disk: JDisk
    ghost var history: History
    ghost var trace: seq<Snapshot>
    /** Where the caller last looked: `trace[mark..]` are the crash points since,
        with histories between `anchor` and the present one. */
    ghost var anchor: History
    ghost var mark: nat

    ghost function View(): WriterView
      reads this
    {
      WriterView(sealed, active, nextIndex, creationCleanup, proof, holesAllowedBelow)
    }

    /** Bytes appended but not yet durable. */
    function PendingBytes(): nat
      reads this`active
    {
      if active.Some? && active.value.unsynced && active.value.offset >= active.value.syncedOffset
      then active.value.offset - active.value.syncedOffset else 0
    }

    /** Every disk state this writer ever left behind was crash-safe, and its proof
        demanded all that was acknowledged. */
    ghost predicate TraceSafe()
      reads this`trace, this`mark, this`anchor, this`history
    {
      && (forall k :: 0 <= k < |trace| ==> CrashSafe(trace[k].disk, trace[k].history, trace[k].open))
      && (forall k :: 0 <= k < |trace| ==> Vouched(trace[k].disk, trace[k].history.floor, trace[k].history.durable))
      && mark <= |trace|
      && (forall k :: mark <= k < |trace| ==> Extends(anchor, trace[k].history) && Extends(trace[k].history, history))
      && Extends(anchor, history)
    }

    ghost predicate Valid()
      reads this
    {
      && nextSequence == appendedSequence + 1
      && appendedSequence == |history.log|
      && durableSequence == history.durable
      && CrashSafe(disk, history, OpenIndex(View()))
      && Vouched(disk, history.floor, history.durable)
      && WriterOk(View(), disk, history)
      && TraceSafe()
    }

    /** The writer recovery hands over: every segment sealed, none active. */
    constructor Resume(segmentSize: nat, durable: nat, nextIndex: nat, sealed: seq<SegInfo>, proof: Proof,
                       holesAllowedBelow: nat, disk: JDisk, ghost history: History)
      requires CrashSafe(disk, history, None) && durable == history.durable == |history.log|
      requires WriterOk(WriterView(sealed, None, nextIndex, None, proof, holesAllowedBelow), disk, history)
      requires Vouched(disk, history.floor, history.durable)
      ensures Valid()
      ensures this.disk == disk && this.history == history && this.segmentSize == segmentSize && active.None?
    {
      this.segmentSize, this.nextIndex, this.sealed, this.proof := segmentSize, nextIndex, sealed, proof;
      this.holesAllowedBelow, this.disk, this.history := holesAllowedBelow, disk, history;
      nextSequence, appendedSequence, durableSequence := durable + 1, durable, durable;
      active, creationCleanup, syncFailures := None, None, 0;
      trace, anchor, mark := [], history, 0;
      new;
      hide CrashSafe, WriterOk;
    }

    /** Start watching crash points from here. */
    ghost method Watch()
      requires Valid()
      modifies this`anchor, this`mark
      ensures Valid() && anchor == history && mark == |trace|
    {
      hide CrashSafe, WriterOk;
      anchor, mark := history, |trace|;
    }

    /** The history moves on; the recorded ones stay behind it. */
    ghost method MoveOn(h: History)
      requires TraceSafe() && Extends(history, h)
      modifies this`history
      ensures TraceSafe() && history == h
    {
      hide CrashSafe, Extends;
      forall k | mark <= k < |trace|
        ensures Extends(trace[k].history, h)
      {
        ExtendsTransitive(trace[k].history, history, h);
      }
      ExtendsTransitive(anchor, history, h);
      history := h;
    }

    /** One I/O step: the only place where the disk changes. */
    method Io(d: JDisk, ghost open: Option<nat>)
      requires CrashSafe(d, history, open) && Vouched(d, history.floor, history.durable)
      requires TraceSafe()
      modifies this`disk, this`trace
      ensures disk == d && TraceSafe()
      ensures trace == old(trace) + [Snapshot(d, history, open)]
    {
      disk := d;
      trace := trace + [Snapshot(d, history, open)];
    }

    /** Cut whatever a failed append left behind the last accepted record. */
    method TruncateTail() returns (ok: bool)
      requires Valid() && active.Some?
      requires active.value.unsynced || active.value.needsTailCleanup
      modifies this`disk, this`trace
      ensures Valid()
      ensures active.Some? && active.value.info.index in disk.files
      ensures ok ==>
        var f := disk.files[active.value.info.index];
        |f.cache| == active.value.info.count && f.lenDirty
    {
      hide TraceSafe, CrashSafe, WriterOk;
      var a := active.value;
      var x := a.info.index;
      ActiveFacts(View(), disk, history);
      var f := disk.files[x];
      var applied: bool := *;
      ok := *;
      if ok || applied {
        var g := Truncate(f, a.info.count);
        TruncateSafe(disk, history, x, a.info.count);
        ActiveChanged(View(), disk, history, a, g, history);
        Io(disk.(files := disk.files[x := g]), Some(x));
      }
    }

    /** Redirty the accepted range, refusing bytes that are no longer the ones
        accepted: a clean page may have been dropped and read back stale. */
    method RewriteVerifiedRange() returns (ok: bool)
      requires Valid() && active.Some? && active.value.needsRedirty
      requires active.value.unsynced || active.value.needsTailCleanup
      requires active.value.info.index in disk.files
      requires Trimmed(active.value, disk)
      modifies this`disk, this`trace
      ensures Valid()
      ensures active.value.info.index in disk.files && Trimmed(active.value, disk)
      ensures ok ==> PendingDirty(active.value, disk.files[active.value.info.index], history.log)
    {
      hide TraceSafe, CrashSafe, WriterOk;
      var a := active.value;
      var x := a.info.index;
      var seen: seq<Cell> := [];
      ActiveFacts(View(), disk, history);
      for i := a.synced to a.info.count
        invariant Valid() && active == Some(a)
        invariant x in disk.files && Trimmed(a, disk)
        invariant |seen| == i - a.synced
        invariant Rewritten(disk.files[x], a.synced, seen)
      {
        ActiveFacts(View(), disk, history);
        var f := disk.files[x];
        var v := f.cache[i];
        if i !in f.dirty {
          v :| v in f.poss[i];
        }
        var failed: bool := *;
        if failed {
          return false;
        }
        var g := Put(f, i, v);
        RewriteSafe(disk, history, x, i, v);
        ActiveChanged(View(), disk, history, a, g, history);
        Io(disk.(files := disk.files[x := g]), Some(x));
        seen := seen + [v];
      }
      ok := |seen| == |a.pending| && forall j :: 0 <= j < |seen| ==> seen[j] == Rec(a.pending[j]);
      ActiveFacts(View(), disk, history);
      if ok {
        RewrittenIsPending(a, disk.files[x], history, seen);
      }
    }

    /** `sync_data` of the active segment. */
    method SyncData() returns (ok: bool)
      requires Valid() && active.Some?
      requires active.value.unsynced || active.value.needsTailCleanup
      requires active.value.info.index in disk.files
      requires |disk.files[active.value.info.index].cache| == active.value.info.count
      requires PendingDirty(active.value, disk.files[active.value.info.index], history.log)
      modifies this`disk, this`trace, this`active, this`syncFailures
      ensures Valid()
      ensures active == Some(old(active).value.(needsRedirty := true))
      ensures active.value.info.index in disk.files
      ensures ok ==> Settled(disk.files[active.value.info.index], history.log)
      ensures ok ==> |disk.files[active.value.info.index].cache| == active.value.info.count
    {
      hide TraceSafe, CrashSafe, WriterOk;
      var a := active.value;
      var x := a.info.index;
      ActiveFacts(View(), disk, history);
      var f := disk.files[x];
      ok := *;
      var g := if ok then SyncOk(f) else SyncFailed(f);
      SyncSafe(disk, history, x, a);
      var b := a.(needsRedirty := true);
      ActiveChanged(View(), disk, history, b, g, history);
      Io(disk.(files := disk.files[x := g]), Some(x));
      active := Some(b);
      if !ok {
        syncFailures := syncFailures + 1;
      }
    }

    /** Publish the required proof of the segment just synced. */
    method AdvanceProof() returns (ok: bool, next: Proof)
      requires Valid() && active.Some?
      requires active.value.info.index in disk.files
      requires Settled(disk.files[active.value.info.index], history.log)
      requires |disk.files[active.value.info.index].cache| == active.value.info.count
      modifies this`disk, this`trace, this`syncFailures
      ensures Valid() && disk.files == old(disk.files)
      ensures next.sequence <= |history.log|
      ensures ok ==> Vouched(disk, history.floor, |history.log|)
      ensures ok && next != proof ==> disk.proofs == {next} && next.sequence == appendedSequence
    {
      hide TraceSafe, CrashSafe, WriterOk;
      var a := active.value;
      ActiveFacts(View(), disk, history);
      ok, next := true, proof;
      if appendedSequence > proof.sequence && a.info.count > 0 {
        next := Proof(appendedSequence, a.info.index, a.info.count);
        CandidateOk(disk, history, a);
        RegistersChanged(View(), disk, history, disk.proofs + {next}, disk.marks);
        Io(disk.(proofs := disk.proofs + {next}), Some(a.info.index));
        ok := *;
        if !ok {
          syncFailures := syncFailures + 1;
          return;
        }
        RegistersChanged(View(), disk, history, {next}, disk.marks);
        Io(disk.(proofs := {next}), Some(a.info.index));
      }
    }

    /** Everything appended is synced and proven: acknowledge it. */
    method AcknowledgeActive(next: Proof)
      requires Valid() && active.Some? && next.sequence <= |history.log|
      requires Vouched(disk, history.floor, |history.log|)
      requires active.value.info.index in disk.files
      requires Settled(disk.files[active.value.info.index], history.log)
      requires |disk.files[active.value.info.index].cache| == active.value.info.count
      modifies this`disk, this`trace, this`active, this`proof, this`history, this`durableSequence
      ensures Valid()
      ensures active.Some? && active.value.info == old(active).value.info
      ensures history == old(history).(durable := appendedSequence)
      ensures !active.value.unsynced && !active.value.needsTailCleanup
      ensures Mark(active.value.info.index, active.value.info.count) in disk.marks && proof == next
    {
      hide TraceSafe, CrashSafe, WriterOk;
      var a := active.value;
      var x := a.info.index;
      ActiveFacts(View(), disk, history);
      var b := Active(a.info, a.offset, a.info.count, a.offset, false, false, false, []);
      ghost var h := history.(durable := |history.log|);
      Acknowledge(disk, history, x, |history.log|);
      ActiveChanged(View(), disk, history, b, disk.files[x], h);
      assert disk.files[x := disk.files[x]] == disk.files;
      NewProof(View().(active := Some(b)), disk, h, next);
      MoveOn(h);
      durableSequence, active, proof := appendedSequence, Some(b), next;
      WriteMark(a.info.count);
    }

    /** The advisory mark is written without a sync: a crash may show it or not. */
    method WriteMark(cells: nat)
      requires Valid() && active.Some?
      requires active.value.info.index in disk.files
      requires Solid(disk.files[active.value.info.index], cells, history.log)
      modifies this`disk, this`trace
      ensures Valid() && disk == old(disk).(marks := old(disk).marks + {Mark(active.value.info.index, cells)})
    {
      hide TraceSafe, CrashSafe, WriterOk, Solid;
      var x := active.value.info.index;
      var mark := Mark(x, cells);
      MarkIsOk(View(), disk, history, mark);
      RegistersChanged(View(), disk, history, disk.proofs, disk.marks + {mark});
      Io(disk.(marks := disk.marks + {mark}), Some(x));
    }

    /** `sync_active`: on success everything appended is durable; on failure the
        boundary stays and the records remain pending. */
    method SyncActive() returns (ok: bool)
      requires Valid()
      modifies this`disk, this`trace, this`active, this`syncFailures, this`proof, this`history, this`durableSequence
      ensures Valid()
      ensures history == old(history).(durable := durableSequence)
      ensures durableSequence == if ok then appendedSequence else old(durableSequence)
      ensures active.Some? == old(active).Some?
      ensures active.Some? ==> active.value.info == old(active).value.info
      ensures ok && active.Some? ==> !active.value.unsynced && !active.value.needsTailCleanup
      ensures PendingBytes() == if ok then 0 else old(PendingBytes())
    {
      hide TraceSafe, CrashSafe, WriterOk;
      if active.None? {
        IdleFacts(View(), disk, history);
        return true;
      }
      ActiveFacts(View(), disk, history);
      if !active.value.unsynced && !active.value.needsTailCleanup {
        return true;
      }
      if active.value.needsTailCleanup || active.value.needsRedirty {
        ok := TruncateTail();
        if !ok { return; }
      }
      ActiveFacts(View(), disk, history);
      if active.value.needsRedirty {
        ok := RewriteVerifiedRange();
        if !ok { return; }
      }
      ok := SyncData();
      if !ok { return; }
      var next;
      ok, next := AdvanceProof();
      if !ok { return; }
      AcknowledgeActive(next);
    }

    /** Sync the active segment and retire it to the sealed list. */
    method SealActive() returns (ok: bool)
      requires Valid()
      modifies this`disk, this`trace, this`active, this`syncFailures, this`proof, this`history, this`durableSequence, this`sealed
      ensures Valid()
      ensures history == old(history).(durable := durableSequence)
      ensures durableSequence == if ok then appendedSequence else old(durableSequence)
      ensures ok ==> active.None?
      ensures !ok ==> active.Some? == old(active).Some?
      ensures sealed == if ok && old(active).Some? then old(sealed) + [old(active).value.info] else old(sealed)
      ensures PendingBytes() == if ok then 0 else old(PendingBytes())
    {
      hide TraceSafe, CrashSafe, WriterOk;
      ok := SyncActive();
      if ok && active.Some? {
        SealWriter(View(), disk, history);
        sealed, active := sealed + [active.value.info], None;
      }
    }

    /** Make a failed creation's removal durable before a barrier or index reuse. */
    method CleanupFailedCreation() returns (ok: bool)
      requires Valid()
      modifies this`disk, this`trace, this`creationCleanup
      ensures Valid()
      ensures ok ==> creationCleanup.None?
      ensures !ok ==> creationCleanup == old(creationCleanup)
    {
      hide TraceSafe, CrashSafe, WriterOk, OpenOk;
      if creationCleanup.None? {
        return true;
      }
      var x := creationCleanup.value;
      CreationFacts(View(), disk, history);
      ok := *;
      var effect: bool := *;
      if x in disk.files && (ok || effect) {
        UnlinkCreation(View(), disk, history);
        Io(disk.(files := disk.files[x := Unlink(disk.files[x])]), Some(x));
      }
      if !ok { return; }
      ok := *;
      if !ok { return; }
      SyncWriter(View(), disk, history);
      Io(DirSynced(disk), Some(x));
      CreationGone(View(), disk, history);
      creationCleanup := None;
    }

    /** `sync_dir` of the journal directory. */
    method SyncJournalDir() returns (ok: bool)
      requires Valid()
      modifies this`disk, this`trace
      ensures Valid()
      ensures disk == if ok then DirSynced(old(disk)) else old(disk)
    {
      hide TraceSafe, CrashSafe, WriterOk;
      ok := *;
      if ok {
        SyncWriter(View(), disk, history);
        Io(DirSynced(disk), OpenIndex(View()));
      }
    }

    /** Create the next segment: file, header, data sync, directory sync. On
        failure its remains stay listed for cleanup. */
    method CreateSegment() returns (ok: bool)
      requires Valid() && active.None? && creationCleanup.None?
      requires nextIndex < U64_MAX
      modifies this`disk, this`trace, this`creationCleanup
      ensures Valid() && creationCleanup == Some(nextIndex)
      ensures ok ==> nextIndex in disk.files && CreationDone(disk.files[nextIndex], history)
    {
      hide TraceSafe, CrashSafe, WriterOk;
      var x := nextIndex;
      IdleFacts(View(), disk, history);
      CreationStarts(View(), disk, history);
      creationCleanup := Some(x);
      ok := *;
      if !ok { return; }
      var f := Created(nextSequence);
      CreationStep(View(), disk, history, f);
      Io(disk.(files := disk.files[x := f]), Some(x));
      ok := *;
      if !ok { return; }
      f := WriteHeader(f);
      CreationStep(View(), disk, history, f);
      Io(disk.(files := disk.files[x := f]), Some(x));
      ok := *;
      f := if ok then SyncOk(f) else SyncFailed(f);
      CreationStep(View(), disk, history, f);
      Io(disk.(files := disk.files[x := f]), Some(x));
      if !ok { return; }
      ok := SyncJournalDir();
    }

    /** Seal the active segment and start the next one. */
    method Roll() returns (ok: bool)
      requires Valid()
      modifies this
      ensures anchor == old(anchor) && mark == old(mark)
      ensures Valid() && nextSequence == old(nextSequence) && appendedSequence == old(appendedSequence)
      ensures history == old(history).(durable := durableSequence)
      ensures durableSequence in {old(durableSequence), appendedSequence}
      ensures ok ==> active.Some? && durableSequence == appendedSequence
      ensures ok ==> active.value.info == SegInfo(old(nextIndex), nextSequence, 0) && nextIndex == old(nextIndex) + 1
      ensures ok ==> active.value.offset == HEADER_BYTES
      ensures PendingBytes() <= if ok then 0 else old(PendingBytes())
      ensures ok ==> sealed == if old(active).Some? then old(sealed) + [old(active).value.info] else old(sealed)
    {
      hide JournalWriter.Valid;
      assert durableSequence == old(history).durable by { Durably(); }
      var index := nextIndex;
      if index + 1 > U64_MAX {
        return false;
      }
      ok := CleanupFailedCreation();
      if !ok { return; }
      ok := SealActive();
      if !ok { return; }
      ok := CreateSegment();
      if !ok {
        var cleaned := CleanupFailedCreation();
        return;
      }
      StartSegment(index);
    }

    /** The created segment becomes the active one, and the mark names it. */
    method StartSegment(index: nat)
      requires Valid() && active.None? && index == nextIndex < U64_MAX && creationCleanup == Some(index)
      requires index in disk.files && CreationDone(disk.files[index], history)
      modifies this`active, this`nextIndex, this`creationCleanup, this`disk, this`trace
      ensures Valid() && active.Some? && active.value.info == SegInfo(index, nextSequence, 0) && nextIndex == index + 1
      ensures active.value.offset == HEADER_BYTES && PendingBytes() == 0 && Mark(index, 0) in disk.marks
    {
      hide TraceSafe, CrashSafe, WriterOk;
      RollWriter(View(), disk, history);
      var info := SegInfo(index, nextSequence, 0);
      active := Some(Active(info, HEADER_BYTES, 0, HEADER_BYTES, false, false, false, []));
      nextIndex, creationCleanup := index + 1, None;
      WriteMark(0);
    }

    lemma Durably()
      requires Valid()
      ensures durableSequence == history.durable
    {
    }

    /** Sealed segments are in sequence order. */
    lemma SealedInOrder(i: nat, j: nat)
      requires Valid() && i < j < |sealed|
      ensures LastSequence(sealed[i]) <= LastSequence(sealed[j])
    {
      hide TraceSafe, CrashSafe, WriterOk;
      SealedOrdered(View(), disk, history, i, j);
    }

    /** Whether the counters allow one more record, and whether it must roll. */
    method CheckAppend(payloadLen: nat) returns (ok: bool, needsRoll: bool)
      ensures ok ==> nextSequence + 1 <= U64_MAX && (needsRoll ==> nextIndex != U64_MAX)
      ensures nextSequence + 1 <= U64_MAX && nextIndex != U64_MAX ==> ok
      ensures ok && !needsRoll ==>
        active.Some? && (active.value.info.count == 0 || active.value.offset + RECORD_HEADER_BYTES + payloadLen <= segmentSize)
    {
      ok, needsRoll := false, false;
      if nextSequence + 1 > U64_MAX {
        return;
      }
      needsRoll :=
        active.None? ||
        (active.value.info.count > 0 && active.value.offset + RECORD_HEADER_BYTES + payloadLen > segmentSize);
      ok := !(needsRoll && nextIndex == U64_MAX);
    }

    /** Write one framed record at the end of the active segment. */
    method WriteRecord(r: Record) returns (ok: bool)
      requires Valid() && active.Some?
      requires r.sequence == nextSequence < U64_MAX
      modifies this`disk, this`trace, this`history, this`active, this`nextSequence, this`appendedSequence
      ensures Valid()
      ensures history == old(history).(issued := old(history).issued + {r},
        log := if ok then old(history).log + [r] else old(history).log)
      ensures nextSequence == if ok then old(nextSequence) + 1 else old(nextSequence)
      ensures ok ==> active.Some? && Longer(old(active).value, active.value, r)
      ensures PendingBytes() == old(PendingBytes()) + if ok then RECORD_HEADER_BYTES + |r.payload| else 0
    {
      hide TraceSafe, CrashSafe, WriterOk;
      IssueWriter(View(), disk, history, r);
      MoveOn(history.(issued := history.issued + {r}));
      if active.value.needsTailCleanup {
        ok := TruncateTail();
        if !ok { return; }
      }
      ActiveFacts(View(), disk, history);
      ok := ExtendActive();
      if !ok { return; }
      ok := PutRecord(r);
      if !ok { return; }
      AcceptRecord(r);
    }

    /** Reserve room for one record; cleanup stays armed until it is written. */
    method ExtendActive() returns (ok: bool)
      requires Valid() && active.Some? && nextSequence < U64_MAX
      requires active.value.info.index in disk.files
      requires |disk.files[active.value.info.index].cache| == active.value.info.count
      modifies this`disk, this`trace, this`active
      ensures Valid()
      ensures active == Some(old(active).value.(needsTailCleanup := true))
      ensures ok ==> active.value.info.index in disk.files && Extended(active.value, disk.files[active.value.info.index])
    {
      hide TraceSafe, CrashSafe, WriterOk;
      var a := active.value.(needsTailCleanup := true);
      var x := a.info.index;
      ActiveFacts(View(), disk, history);
      var f := disk.files[x];
      var applied: bool := *;
      ok := *;
      var g := if ok || applied then Extend(f) else f;
      ExtendSafe(disk, history, x, a);
      ActiveChanged(View(), disk, history, a, g, history);
      Io(disk.(files := disk.files[x := g]), Some(x));
      active := Some(a);
    }

    /** `write_at`: a failure may leave a torn prefix, or even the whole record. */
    method PutRecord(r: Record) returns (ok: bool)
      requires Valid() && active.Some? && active.value.needsTailCleanup
      requires r.sequence == nextSequence && r in history.issued
      requires active.value.info.index in disk.files
      requires Extended(active.value, disk.files[active.value.info.index])
      modifies this`disk, this`trace
      ensures Valid()
      ensures active.value.info.index in disk.files && Extended(active.value, disk.files[active.value.info.index])
      ensures ok ==>
        var f := disk.files[active.value.info.index];
        f.cache[active.value.info.count] == Rec(r) && active.value.info.count in f.dirty
    {
      hide TraceSafe, CrashSafe, WriterOk;
      var a := active.value;
      var x := a.info.index;
      ActiveFacts(View(), disk, history);
      ok := *;
      var whole: bool := *;
      var c := if ok || whole then Rec(r) else Junk;
      var g := Put(disk.files[x], a.info.count, c);
      PutSafe(disk, history, x, a, c);
      ActiveChanged(View(), disk, history, a, g, history);
      Io(disk.(files := disk.files[x := g]), Some(x));
    }

    method AcceptRecord(r: Record)
      requires Valid() && active.Some?
      requires r.sequence == nextSequence < U64_MAX && r in history.issued
      requires active.value.info.index in disk.files
      requires
        var f := disk.files[active.value.info.index];
        Extended(active.value, f) && f.cache[active.value.info.count] == Rec(r) && active.value.info.count in f.dirty
      modifies this`history, this`active, this`nextSequence, this`appendedSequence
      ensures Valid()
      ensures history == old(history).(log := old(history).log + [r])
      ensures nextSequence == old(nextSequence) + 1
      ensures active.Some? && Longer(old(active).value, active.value, r)
    {
      hide TraceSafe, CrashSafe, WriterOk;
      var a := active.value;
      var x := a.info.index;
      ActiveFacts(View(), disk, history);
      var offset := a.offset + RECORD_HEADER_BYTES + |r.payload|;
      var b := a.(info := a.info.(count := a.info.count + 1), offset := offset, unsynced := true,
                  needsTailCleanup := false, pending := a.pending + [r]);
      ghost var h := history.(log := history.log + [r]);
      Accept(disk, history, Some(x), r);
      AcceptActive(disk.files[x], a, b, history, r);
      ActiveChanged(View(), disk, history, b, disk.files[x], h);
      assert disk.files[x := disk.files[x]] == disk.files;
      MoveOn(h);
      active, nextSequence, appendedSequence := Some(b), nextSequence + 1, nextSequence;
    }

    /** Append one record. A failure consumes no sequence, but the boundary may
        have moved all the same: a roll seals the previous segment first. */
    method Append(unit: nat, payload: Bytes) returns (sequence: Option<nat>)
      requires Valid()
      modifies this
      ensures anchor == old(anchor) && mark == old(mark)
      ensures Valid()
      ensures
        var r := Record(old(nextSequence), unit, payload);
        && history.log == (if sequence.Some? then old(history).log + [r] else old(history).log)
        && old(history).issued <= history.issued <= old(history).issued + {r}
      ensures sequence.Some? ==> sequence.value == old(nextSequence)
      ensures history.floor == old(history).floor
      ensures durableSequence in {old(durableSequence), old(appendedSequence)}
      ensures sequence.Some? ==> active.Some? && (active.value.offset <= segmentSize || active.value.info.count == 1)
      ensures PendingBytes() <= old(PendingBytes()) + if sequence.Some? then RECORD_HEADER_BYTES + |payload| else 0
    {
      hide TraceSafe, CrashSafe, WriterOk;
      var ok, needsRoll := CheckAppend(|payload|);
      if !ok {
        return None;
      }
      if needsRoll {
        ok := Roll();
        if !ok {
          return None;
        }
      }
      ok := WriteRecord(Record(nextSequence, unit, payload));
      return if ok then Some(appendedSequence) else None;
    }

    /** FLUSH: on success every appended record is durable. */
    method Sync() returns (ok: bool)
      requires Valid()
      modifies this
      ensures anchor == old(anchor) && mark == old(mark)
      ensures Valid() && nextSequence == old(nextSequence)
      ensures history == old(history).(durable := durableSequence)
      ensures durableSequence == if ok then appendedSequence else old(durableSequence)
      ensures ok ==> creationCleanup.None?
      ensures PendingBytes() == if ok then 0 else old(PendingBytes())
    {
      hide TraceSafe, CrashSafe, WriterOk;
      ok := CleanupFailedCreation();
      if !ok { return; }
      ok := SyncActive();
    }

    /** The checkpoint register can no longer show anything below `c`. */
    ghost method CheckpointStored(c: nat)
      requires Valid() && history.floor <= c <= durableSequence
      modifies this`history, this`anchor, this`mark
      ensures Valid() && history == old(history).(floor := c)
      ensures anchor == history && mark == |trace|
    {
      hide CrashSafe, WriterOk;
      RaiseFloor(disk, history, OpenIndex(View()), c);
      FloorWriter(View(), disk, history, c);
      history := history.(floor := c);
      anchor, mark := history, |trace|;
    }

    /** Unlink the oldest sealed segment. */
    method DeleteFirst(checkpoint: nat) returns (ok: bool)
      requires Valid() && checkpoint <= history.floor
      requires |sealed| > 0 && LastSequence(sealed[0]) <= checkpoint
      modifies this`disk, this`trace, this`sealed
      ensures Valid()
      ensures sealed == if ok then old(sealed)[1..] else old(sealed)
      ensures KeepsHidden(old(disk), disk) && (ok ==> Hidden(disk, old(sealed)[0].index))
    {
      hide TraceSafe, CrashSafe, WriterOk;
      ok := *;
      if ok {
        RemoveFirst(View(), disk, history, checkpoint);
        var x := sealed[0].index;
        Io(disk.(files := disk.files[x := Unlink(disk.files[x])]), OpenIndex(View()));
        sealed := sealed[1..];
      }
    }

    /** Delete the sealed segments the checkpoint covers, oldest first, stopping
        at the first failure. The caller syncs the directory. */
    method DeleteCovered(checkpoint: nat) returns (ok: bool, deleted: nat)
      requires Valid() && checkpoint <= history.floor
      modifies this`disk, this`trace, this`creationCleanup, this`sealed
      ensures Valid()
      ensures deleted <= |old(sealed)| && sealed == old(sealed)[deleted..]
      ensures ok ==> forall i :: deleted <= i < |old(sealed)| ==> LastSequence(old(sealed)[i]) > checkpoint
      ensures forall i :: 0 <= i < deleted ==> LastSequence(old(sealed)[i]) <= checkpoint
      ensures forall i :: 0 <= i < deleted ==> Hidden(disk, old(sealed)[i].index)
    {
      hide JournalWriter.Valid, LastSequence, Hidden, KeepsHidden;
      deleted := 0;
      assert sealed[0..] == sealed;
      ok := CleanupFailedCreation();
      if !ok { return; }
      var all := sealed;
      for i := 0 to |all|
        invariant deleted <= i && sealed == all[deleted..]
        invariant Valid()
        invariant forall j :: 0 <= j < deleted ==> LastSequence(all[j]) <= checkpoint && Hidden(disk, all[j].index)
        invariant ok ==> forall j :: deleted <= j < i ==> LastSequence(all[j]) > checkpoint
      {
        if LastSequence(all[i]) <= checkpoint && ok {
          if deleted < i {
            SealedInOrder(0, i - deleted);
            assert false;
          }
          assert all[deleted..][1..] == all[deleted + 1..];
          ghost var before := disk;
          ok := DeleteFirst(checkpoint);
          HiddenStay(before, disk, all, deleted);
          if ok {
            deleted := deleted + 1;
          }
        }
      }
    }
  }

  /** The writer's own audit of its counters and segments. */
  ghost predicate Sane(w: JournalWriter)
    reads w
  {
    var infos := Infos(w.View());
    && (w.creationCleanup.Some? ==> w.active.None? && w.creationCleanup.value == w.nextIndex)
    && w.durableSequence <= w.appendedSequence && w.nextSequence == w.appendedSequence + 1
    && (forall i :: 0 <= i < |infos| ==> infos[i].index < w.nextIndex)
    && (forall i, j :: 0 <= i < j < |infos| ==> infos[i].index < infos[j].index)
    && (forall i :: 0 < i < |infos| ==> Follows(infos[i - 1], infos[i], w.holesAllowedBelow))
    && (forall i :: 0 <= i < |w.sealed| && w.sealed[i].count > 0 ==> LastSequence(w.sealed[i]) <= w.durableSequence)
    && (w.active.None? ==> w.durableSequence == w.appendedSequence)
    && (w.active.Some? ==> SaneActive(w.active.value, w))
  }

  ghost predicate SaneActive(a: Active, w: JournalWriter)
    reads w
  {
    && a.info.base + a.info.count == w.nextSequence
    && a.syncedOffset <= a.offset
    && (!a.needsTailCleanup ==> a.info.index in w.disk.files && |w.disk.files[a.info.index].cache| == a.info.count)
    && (if a.unsynced then a.syncedOffset < a.offset
        else a.syncedOffset == a.offset && w.durableSequence == w.appendedSequence)
  }

  /** `check_invariants` never fires: every method keeps `Valid`. */
  lemma CheckInvariants(w: JournalWriter)
    requires w.Valid()
    ensures Sane(w)
  {
    hide Ordered, Stored, ProofOk, MarkOk, Solid, Honest;
    var v := w.View();
    forall i | 0 <= i < |w.sealed|
      ensures LastSequence(w.sealed[i]) <= w.durableSequence
    {
      SealedDurable(v, w.disk, w.history, i);
    }
  }

  lemma SealedDurable(v: WriterView, d: JDisk, h: History, i: nat)
    requires CrashSafe(d, h, OpenIndex(v)) && WriterOk(v, d, h) && i < |v.sealed|
    ensures LastSequence(v.sealed[i]) <= h.durable
  {
    hide Ordered, Stored, ProofOk, MarkOk, Solid, Honest, Counters, ActiveOk, Follows;
    var s := v.sealed[i];
    assert SealedOk(s, d);
    assert FileOk(d, s.index, h, OpenIndex(v));
    if v.active.Some? {
      assert Infos(v)[i] == s && Infos(v)[|v.sealed|] == v.active.value.info;
    }
  }

  lemma TruncateSafe(d: JDisk, h: History, x: nat, n: nat)
    requires CrashSafe(d, h, Some(x)) && x in d.files
    requires |h.log| + 1 <= d.files[x].base + n && n <= |d.files[x].cache|
    ensures CrashSafe(d.(files := d.files[x := Truncate(d.files[x], n)]), h, Some(x))
  {
    hide Ordered, Stored, ProofOk, MarkOk;
    var f := d.files[x];
    assert FileOk(d, x, h, Some(x));
    var g := Truncate(f, n);
    assert WellFormed(g) && Honest(g, h.issued);
    forall k: nat | Solid(f, k, h.log)
      ensures Solid(g, k, h.log)
    {
      TruncateKeeps(f, n, k, h.log, h.issued);
    }
    ReplaceOpen(d, h, x, g);
  }

  /** The file ends at the last accepted record and its length will be synced. */
  ghost predicate Trimmed(a: Active, d: JDisk)
    requires a.info.index in d.files
  {
    |d.files[a.info.index].cache| == a.info.count && d.files[a.info.index].lenDirty
  }

  ghost predicate Rewritten(f: SegFile, from: nat, seen: seq<Cell>) {
    && from + |seen| <= |f.cache|
    && forall i :: from <= i < from + |seen| ==> i in f.dirty && f.cache[i] == seen[i - from]
  }

  lemma RewrittenIsPending(a: Active, f: SegFile, h: History, seen: seq<Cell>)
    requires Counters(a, h) && f.base == a.info.base && |f.cache| == a.info.count && f.lenDirty
    requires Rewritten(f, a.synced, seen) && |seen| == |a.pending|
    requires forall j :: 0 <= j < |seen| ==> seen[j] == Rec(a.pending[j])
    ensures PendingDirty(a, f, h.log)
  {
    forall i | a.synced <= i < a.info.count
      ensures i in f.dirty && f.cache[i] == Rec(h.log[f.base + i - 1])
    {
      assert seen[i - a.synced] == Rec(a.pending[i - a.synced]);
    }
  }

  /** Writing back a value a crash may already show endangers nothing. */
  lemma RewriteSafe(d: JDisk, h: History, x: nat, i: nat, v: Cell)
    requires CrashSafe(d, h, Some(x)) && x in d.files
    requires i < |d.files[x].cache| <= |d.files[x].poss| && v in d.files[x].poss[i]
    ensures CrashSafe(d.(files := d.files[x := Put(d.files[x], i, v)]), h, Some(x))
  {
    hide Ordered, Stored, ProofOk, MarkOk;
    var f := d.files[x];
    assert FileOk(d, x, h, Some(x));
    var g := Put(f, i, v);
    forall k: nat | Solid(f, k, h.log)
      ensures Solid(g, k, h.log)
    {
      PutKeeps(f, i, v, k, h.log, h.issued);
    }
    HonestPut(f, i, v, h.issued);
    ReplaceOpen(d, h, x, g);
  }

  lemma HonestPut(f: SegFile, i: nat, v: Cell, issued: set<Record>)
    requires WellFormed(f) && Honest(f, issued) && i < |f.cache|
    requires v == Junk || (v.record in issued && v.record.sequence == f.base + i)
    ensures WellFormed(Put(f, i, v)) && Honest(Put(f, i, v), issued)
  {
  }

  lemma SyncSafe(d: JDisk, h: History, x: nat, a: Active)
    requires CrashSafe(d, h, Some(x)) && x in d.files && a.info.index == x
    requires Counters(a, h) && ActiveOk(a, d.files[x], h)
    requires |d.files[x].cache| == a.info.count && PendingDirty(a, d.files[x], h.log)
    ensures CrashSafe(d.(files := d.files[x := SyncFailed(d.files[x])]), h, Some(x))
    ensures CrashSafe(d.(files := d.files[x := SyncOk(d.files[x])]), h, Some(x))
    ensures Settled(SyncOk(d.files[x]), h.log)
    ensures ActiveOk(a.(needsRedirty := true), SyncOk(d.files[x]), h)
    ensures ActiveOk(a.(needsRedirty := true), SyncFailed(d.files[x]), h)
  {
    hide Ordered, Stored, ProofOk, MarkOk;
    var f := d.files[x];
    assert FileOk(d, x, h, Some(x));
    SyncSettles(f, a, h);
    forall k: nat | Solid(f, k, h.log)
      ensures Solid(SyncOk(f), k, h.log) && Solid(SyncFailed(f), k, h.log)
    {
      if k <= |f.cache| {
        SyncOkKeeps(f, k, h.log, h.issued);
      }
      SyncFailedKeeps(f, k, h.log, h.issued);
    }
    ReplaceOpen(d, h, x, SyncFailed(f));
    ReplaceOpen(d, h, x, SyncOk(f));
  }

  lemma SyncSettles(f: SegFile, a: Active, h: History)
    requires WellFormed(f) && Honest(f, h.issued) && f.header == {true}
    requires Counters(a, h) && f.base == a.info.base
    requires f.base <= h.durable ==> Solid(f, h.durable + 1 - f.base, h.log)
    requires |f.cache| == a.info.count && PendingDirty(a, f, h.log)
    ensures Settled(SyncOk(f), h.log) && Honest(SyncOk(f), h.issued)
    ensures WellFormed(SyncFailed(f)) && Honest(SyncFailed(f), h.issued)
  {
    SyncShape(f);
    SyncOkHonest(f, h.issued);
    var g := SyncOk(f);
    forall i | 0 <= i < a.info.count
      ensures g.poss[i] == {Rec(h.log[f.base + i - 1])}
    {
      if i < a.synced {
        assert f.poss[i] == {Rec(h.log[f.base + i - 1])};
      }
    }
  }

  lemma SyncShape(f: SegFile)
    requires WellFormed(f)
    ensures WellFormed(SyncOk(f)) && |f.cache| <= |SyncOk(f).poss|
    ensures forall i :: 0 <= i < |f.cache| ==> SyncOk(f).poss[i] == if i in f.dirty then {f.cache[i]} else f.poss[i]
  {
  }

  lemma SyncOkHonest(f: SegFile, issued: set<Record>)
    requires WellFormed(f) && Honest(f, issued)
    ensures Honest(SyncOk(f), issued)
  {
    var g := SyncOk(f);
    forall i, c | 0 <= i < |g.poss| && c in g.poss[i]
      ensures c in f.poss[i]
    {
    }
  }

  lemma RegistersChanged(v: WriterView, d: JDisk, h: History, proofs: set<Proof>, marks: set<Mark>)
    requires CrashSafe(d, h, OpenIndex(v)) && WriterOk(v, d, h)
    requires forall p :: p in proofs ==> p in d.proofs || (ProofOk(d, p, h) && (p.sequence > 0 ==> p.index < v.nextIndex))
    requires forall m :: m in marks ==> m in d.marks || (MarkOk(d, m, h) && m.index < v.nextIndex)
    ensures CrashSafe(d.(proofs := proofs, marks := marks), h, OpenIndex(v))
    ensures WriterOk(v, d.(proofs := proofs, marks := marks), h)
  {
    hide CrashSafe, Counters, ActiveOk, Chained, ProofOk, MarkOk;
    var e := d.(proofs := proofs, marks := marks);
    Vouch(d, h, OpenIndex(v), proofs, marks);
    forall i | 0 <= i < |v.sealed|
      ensures SealedOk(v.sealed[i], e)
    {
      assert SealedOk(v.sealed[i], d);
    }
  }

  lemma CandidateOk(d: JDisk, h: History, a: Active)
    requires a.info.index in d.files && Counters(a, h) && a.info.count > 0 && a.info.index < U64_MAX
    requires ActiveOk(a, d.files[a.info.index], h)
    requires Settled(d.files[a.info.index], h.log) && |d.files[a.info.index].cache| == a.info.count
    ensures ProofOk(d, Proof(|h.log|, a.info.index, a.info.count), h)
  {
  }

  lemma NewProof(v: WriterView, d: JDisk, h: History, p: Proof)
    requires WriterOk(v, d, h) && p.sequence <= h.durable
    ensures WriterOk(v.(proof := p), d, h)
  {
    hide Counters, ActiveOk, Chained;
  }

  lemma MarkIsOk(v: WriterView, d: JDisk, h: History, m: Mark)
    requires CrashSafe(d, h, OpenIndex(v)) && WriterOk(v, d, h)
    requires m.index in d.files && v.active.Some? && Solid(d.files[m.index], m.cells, h.log)
    ensures MarkOk(d, m, h) && m.index < v.nextIndex
  {
    hide Counters, ActiveOk, Chained, Solid, Ordered, Stored, Settled;
    assert FileOk(d, m.index, h, OpenIndex(v));
  }

  lemma IdleFacts(v: WriterView, d: JDisk, h: History)
    requires WriterOk(v, d, h) && v.active.None?
    ensures h.durable == |h.log|
  {
  }

  lemma SealWriter(v: WriterView, d: JDisk, h: History)
    requires CrashSafe(d, h, OpenIndex(v)) && WriterOk(v, d, h)
    requires v.active.Some? && !v.active.value.unsynced && !v.active.value.needsTailCleanup
    ensures
      var w := v.(sealed := v.sealed + [v.active.value.info], active := None);
      CrashSafe(d, h, OpenIndex(w)) && WriterOk(w, d, h)
  {
    hide Ordered, Stored, ProofOk, MarkOk, Chained, Honest;
    var a := v.active.value;
    var w := v.(sealed := v.sealed + [a.info], active := None);
    assert FileOk(d, a.info.index, h, OpenIndex(v));
    assert Infos(w) == Infos(v);
    SettledActive(d.files[a.info.index], a, h);
    Seal(d, h, a.info.index);
    forall i | 0 <= i < |w.sealed|
      ensures SealedOk(w.sealed[i], d)
    {
      if i < |v.sealed| { assert SealedOk(v.sealed[i], d); }
    }
  }

  lemma SettledActive(f: SegFile, a: Active, h: History)
    requires Counters(a, h) && ActiveOk(a, f, h) && OpenOk(f, h)
    requires !a.unsynced && !a.needsTailCleanup
    ensures ClosedOk(f, h)
  {
  }

  /** A segment whose creation completed: durable header and entry, no record. */
  ghost predicate CreationDone(f: SegFile, h: History) {
    f.base == |h.log| + 1 && Firm(f) && f.header == {true} && f.cache == [] && f.poss == [] && f.lens == {0}
  }

  lemma CreationFacts(v: WriterView, d: JDisk, h: History)
    requires WriterOk(v, d, h) && v.creationCleanup.Some?
    ensures v.active.None? && v.creationCleanup.value == v.nextIndex && h.durable == |h.log|
  {
  }

  lemma UnlinkCreation(v: WriterView, d: JDisk, h: History)
    requires CrashSafe(d, h, OpenIndex(v)) && WriterOk(v, d, h)
    requires v.creationCleanup.Some? && v.nextIndex in d.files
    ensures
      var e := d.(files := d.files[v.nextIndex := Unlink(d.files[v.nextIndex])]);
      CrashSafe(e, h, OpenIndex(v)) && WriterOk(v, e, h)
  {
    CreationStep(v, d, h, Unlink(d.files[v.nextIndex])) by {
      assert FileOk(d, v.nextIndex, h, OpenIndex(v));
      SameContent(d.files[v.nextIndex], Unlink(d.files[v.nextIndex]), h);
    }
  }

  lemma CreationStep(v: WriterView, d: JDisk, h: History, g: SegFile)
    requires CrashSafe(d, h, OpenIndex(v)) && WriterOk(v, d, h)
    requires v.creationCleanup.Some? && v.nextIndex < U64_MAX
    requires g.base == h.durable + 1 && WellFormed(g) && Honest(g, h.issued) && |g.poss| == 0
    ensures
      var e := d.(files := d.files[v.nextIndex := g]);
      CrashSafe(e, h, OpenIndex(v)) && WriterOk(v, e, h)
  {
    hide Chained, Follows, Counters, Stored, FileOk, ProofOk, MarkOk, Ordered;
    var e := d.(files := d.files[v.nextIndex := g]);
    assert OpenOk(g, h);
    Open(d, h, OpenIndex(v), v.nextIndex, g);
    forall i | 0 <= i < |v.sealed|
      ensures SealedOk(v.sealed[i], e)
    {
      assert SealedOk(v.sealed[i], d);
    }
  }

  lemma SyncWriter(v: WriterView, d: JDisk, h: History)
    requires CrashSafe(d, h, OpenIndex(v)) && WriterOk(v, d, h)
    ensures CrashSafe(DirSynced(d), h, OpenIndex(v)) && WriterOk(v, DirSynced(d), h)
  {
    hide CrashSafe, Chained, Follows, Counters;
    var e := DirSynced(d);
    SyncDirectory(d, h, OpenIndex(v));
    forall i | 0 <= i < |v.sealed|
      ensures SealedOk(v.sealed[i], e)
    {
      assert SealedOk(v.sealed[i], d);
    }
  }

  lemma CreationGone(v: WriterView, d: JDisk, h: History)
    requires CrashSafe(d, h, OpenIndex(v)) && WriterOk(v, d, h)
    requires v.creationCleanup.Some? && v.nextIndex !in d.files
    ensures CrashSafe(d, h, None) && WriterOk(v.(creationCleanup := None), d, h)
  {
    hide Settled, Stored, ProofOk, MarkOk, Chained, Follows, Counters;
    forall y | y in d.files
      ensures FileOk(d, y, h, None)
    {
      assert FileOk(d, y, h, OpenIndex(v));
    }
  }

  lemma CreationStarts(v: WriterView, d: JDisk, h: History)
    requires CrashSafe(d, h, OpenIndex(v)) && WriterOk(v, d, h)
    requires v.active.None? && v.creationCleanup.None?
    ensures CrashSafe(d, h, Some(v.nextIndex)) && WriterOk(v.(creationCleanup := Some(v.nextIndex)), d, h)
  {
    hide Settled, Stored, ProofOk, MarkOk, Chained, Follows, Counters;
    forall y | y in d.files
      ensures FileOk(d, y, h, Some(v.nextIndex))
    {
      assert FileOk(d, y, h, None);
    }
  }

  /** Room for one record past the accepted ones. */
  ghost predicate Extended(a: Active, f: SegFile) {
    |f.cache| == a.info.count + 1 && f.lenDirty
  }

  lemma RollWriter(v: WriterView, d: JDisk, h: History)
    requires CrashSafe(d, h, OpenIndex(v)) && WriterOk(v, d, h)
    requires v.creationCleanup.Some? && v.nextIndex < U64_MAX
    requires v.nextIndex in d.files && CreationDone(d.files[v.nextIndex], h)
    ensures
      var a := Active(SegInfo(v.nextIndex, |h.log| + 1, 0), HEADER_BYTES, 0, HEADER_BYTES, false, false, false, []);
      var w := v.(active := Some(a), nextIndex := v.nextIndex + 1, creationCleanup := None);
      && CrashSafe(d, h, OpenIndex(w)) && WriterOk(w, d, h)
      && Solid(d.files[v.nextIndex], 0, h.log)
  {
    var x := v.nextIndex;
    var a := Active(SegInfo(x, |h.log| + 1, 0), HEADER_BYTES, 0, HEADER_BYTES, false, false, false, []);
    var w := v.(active := Some(a), nextIndex := x + 1, creationCleanup := None);
    RollChain(v, w, d, h);
    FreshActive(d, h, v, a);
    hide Chained, Follows, CrashSafe, ActiveOk, Solid;
  }

  lemma RollChain(v: WriterView, w: WriterView, d: JDisk, h: History)
    requires WriterOk(v, d, h) && v.creationCleanup.Some? && w.active.Some?
    requires w.sealed == v.sealed && w.holesAllowedBelow == v.holesAllowedBelow
    requires w.active.value.info == SegInfo(v.nextIndex, |h.log| + 1, 0)
    ensures Chained(Infos(w), w.holesAllowedBelow)
  {
    hide SealedOk;
    var n := |v.sealed|;
    forall i | 0 < i < |Infos(w)|
      ensures Follows(Infos(w)[i - 1], Infos(w)[i], v.holesAllowedBelow)
    {
      if i < n {
        assert Follows(Infos(v)[i - 1], Infos(v)[i], v.holesAllowedBelow);
      }
    }
    forall i, j | 0 <= i < j < |Infos(w)|
      ensures Infos(w)[i].index < Infos(w)[j].index
    {
      assert v.sealed[i].index < v.nextIndex;
      if j < n {
        assert Infos(v)[i].index < Infos(v)[j].index;
      }
    }
  }

  lemma FreshActive(d: JDisk, h: History, v: WriterView, a: Active)
    requires CrashSafe(d, h, OpenIndex(v)) && WriterOk(v, d, h) && v.creationCleanup.Some?
    requires v.nextIndex in d.files && CreationDone(d.files[v.nextIndex], h)
    requires a == Active(SegInfo(v.nextIndex, |h.log| + 1, 0), HEADER_BYTES, 0, HEADER_BYTES, false, false, false, [])
    ensures Counters(a, h) && ActiveOk(a, d.files[v.nextIndex], h) && Solid(d.files[v.nextIndex], 0, h.log)
  {
    hide Chained, Follows, Ordered, Stored, ProofOk, MarkOk;
    assert FileOk(d, v.nextIndex, h, OpenIndex(v));
  }

  lemma IssueWriter(v: WriterView, d: JDisk, h: History, r: Record)
    requires CrashSafe(d, h, OpenIndex(v)) && WriterOk(v, d, h)
    ensures CrashSafe(d, h.(issued := h.issued + {r}), OpenIndex(v))
    ensures WriterOk(v, d, h.(issued := h.issued + {r}))
  {
    hide CrashSafe, Chained, Follows;
    Issue(d, h, OpenIndex(v), r);
  }

  lemma ExtendSafe(d: JDisk, h: History, x: nat, a: Active)
    requires CrashSafe(d, h, Some(x)) && x in d.files && a.info.index == x && a.needsTailCleanup
    requires Counters(a, h) && ActiveOk(a, d.files[x], h) && |d.files[x].cache| == a.info.count
    requires |h.log| + 1 < U64_MAX
    ensures CrashSafe(d.(files := d.files[x := Extend(d.files[x])]), h, Some(x))
    ensures ActiveOk(a, Extend(d.files[x]), h)
    ensures d.(files := d.files[x := d.files[x]]) == d
  {
    hide Ordered, Stored, ProofOk, MarkOk, Counters;
    var f := d.files[x];
    assert FileOk(d, x, h, Some(x));
    var g := Extend(f);
    HonestExtend(f, h.issued);
    forall k: nat | Solid(f, k, h.log)
      ensures Solid(g, k, h.log)
    {
      SolidEnd(f, k, h.log);
      ExtendKeeps(f, k, h.log, h.issued);
    }
    ExtendBound(a, f, h);
    ReplaceOpen(d, h, x, g);
  }

  lemma ExtendBound(a: Active, f: SegFile, h: History)
    requires Counters(a, h) && ActiveOk(a, f, h) && |f.cache| == a.info.count && |h.log| + 1 < U64_MAX
    ensures f.base + |Extend(f).poss| <= U64_MAX && |Extend(f).poss| <= a.info.count + 1
  {
  }

  lemma HonestExtend(f: SegFile, issued: set<Record>)
    requires WellFormed(f) && Honest(f, issued)
    ensures WellFormed(Extend(f)) && Honest(Extend(f), issued)
  {
  }

  lemma PutSafe(d: JDisk, h: History, x: nat, a: Active, c: Cell)
    requires CrashSafe(d, h, Some(x)) && x in d.files && a.info.index == x && a.needsTailCleanup
    requires Counters(a, h) && ActiveOk(a, d.files[x], h) && Extended(a, d.files[x])
    requires c == Junk || (c.record in h.issued && c.record.sequence == |h.log| + 1)
    ensures CrashSafe(d.(files := d.files[x := Put(d.files[x], a.info.count, c)]), h, Some(x))
    ensures ActiveOk(a, Put(d.files[x], a.info.count, c), h)
  {
    hide Ordered, Stored, ProofOk, MarkOk;
    var f := d.files[x];
    assert FileOk(d, x, h, Some(x));
    var g := Put(f, a.info.count, c);
    HonestPut(f, a.info.count, c, h.issued);
    forall k: nat | Solid(f, k, h.log)
      ensures Solid(g, k, h.log)
    {
      PutKeeps(f, a.info.count, c, k, h.log, h.issued);
    }
    ReplaceOpen(d, h, x, g);
  }

  lemma AcceptActive(f: SegFile, a: Active, b: Active, h: History, r: Record)
    requires Counters(a, h) && ActiveOk(a, f, h) && Extended(a, f)
    requires f.cache[a.info.count] == Rec(r) && a.info.count in f.dirty
    requires b == a.(info := a.info.(count := a.info.count + 1),
                     offset := a.offset + RECORD_HEADER_BYTES + |r.payload|, unsynced := true,
                     needsTailCleanup := false, pending := a.pending + [r])
    ensures Counters(b, h.(log := h.log + [r])) && ActiveOk(b, f, h.(log := h.log + [r]))
  {
  }

  lemma FloorWriter(v: WriterView, d: JDisk, h: History, c: nat)
    requires WriterOk(v, d, h)
    ensures WriterOk(v, d, h.(floor := c))
  {
    hide Chained, Follows;
  }

  /** Sealed segments end in the order they are listed. */
  lemma SealedOrdered(v: WriterView, d: JDisk, h: History, i: nat, j: nat)
    requires CrashSafe(d, h, OpenIndex(v)) && WriterOk(v, d, h)
    requires i < j < |v.sealed|
    ensures LastSequence(v.sealed[i]) <= LastSequence(v.sealed[j])
  {
    hide CrashSafe, Follows, Counters, ActiveOk;
    assert SealedOk(v.sealed[i], d) && SealedOk(v.sealed[j], d);
    assert Infos(v)[i].index < Infos(v)[j].index;
    SegmentsOrdered(d, h, OpenIndex(v), v.sealed[i].index, v.sealed[j].index);
  }

  lemma RemoveFirst(v: WriterView, d: JDisk, h: History, c: nat)
    requires CrashSafe(d, h, OpenIndex(v)) && WriterOk(v, d, h)
    requires |v.sealed| > 0 && LastSequence(v.sealed[0]) <= c <= h.floor
    ensures v.sealed[0].index in d.files
    ensures
      var x := v.sealed[0].index;
      var e := d.(files := d.files[x := Unlink(d.files[x])]);
      CrashSafe(e, h, OpenIndex(v)) && WriterOk(v.(sealed := v.sealed[1..]), e, h)
  {
    hide CrashSafe, Follows, Counters, ActiveOk, Chained;
    var s := v.sealed[0];
    assert SealedOk(s, d);
    var e := d.(files := d.files[s.index := Unlink(d.files[s.index])]);
    DropFirst(v, d, h);
    RemoveCovered(d, h, OpenIndex(v), s.index);
    forall i | 1 <= i < |v.sealed|
      ensures SealedOk(v.sealed[i], e)
    {
      assert SealedOk(v.sealed[i], d);
    }
  }

  lemma DropFirst(v: WriterView, d: JDisk, h: History)
    requires WriterOk(v, d, h) && |v.sealed| > 0
    ensures
      var w := v.(sealed := v.sealed[1..]);
      && Chained(Infos(w), w.holesAllowedBelow)
      && OpenIndex(w) == OpenIndex(v) != Some(v.sealed[0].index)
    ensures forall i :: 1 <= i < |v.sealed| ==> v.sealed[i].index != v.sealed[0].index
  {
    hide SealedOk, Counters, ActiveOk;
    var w := v.(sealed := v.sealed[1..]);
    var n := |Infos(v)|;
    assert forall i :: 0 <= i < n - 1 ==> Infos(w)[i] == Infos(v)[i + 1];
    assert forall i :: 0 <= i < |v.sealed| ==> Infos(v)[i] == v.sealed[i];
    if v.active.Some? { assert Infos(v)[n - 1] == v.active.value.info; }
  }
}
