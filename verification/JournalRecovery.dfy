/** What recovery does to the journal, and why a crash inside it loses nothing.

  A crash leaves one of the possible directory trees. The files in it may still
  be volatile: after a plain restart recovery reads page-cache bytes that no
  sync ever covered, so it rewrites and syncs everything it accepts before it
  declares it durable.
 */
module JournalRecovery {
  import opened Records
  import opened SegmentFile
  import opened JournalScan
  import opened JournalDisk
  import opened JournalSteps

  /** A file as found after a crash: it shows `im`, and a further crash may show
      no more than before. */
  ghost predicate Narrows(f: SegFile, g: SegFile, im: SegImage) {
    && WellFormed(g)
    && g.base == f.base && g.visible && g.present == {true}
    && g.header <= f.header && im.header in g.header
    && g.cache == im.cells
    && |g.poss| <= |f.poss| && (forall i :: 0 <= i < |g.poss| ==> g.poss[i] <= f.poss[i])
    && g.lens <= f.lens
  }

  ghost predicate Listed(img: JImage, x: nat) {
    exists i :: 0 <= i < |img.segs| && img.segs[i].index == x
  }

  /** `e` is the journal directory after a crash that shows `img`. */
  ghost predicate Survives(d: JDisk, img: JImage, e: JDisk) {
    && IsCrash(d, img)
    && (forall x :: x in e.files <==> Listed(img, x))
    && (forall i :: 0 <= i < |img.segs| ==> Narrows(d.files[img.segs[i].index], e.files[img.segs[i].index], img.segs[i]))
    && img.proof in e.proofs && e.proofs <= d.proofs
    && e.marks == (if img.mark.Some? then {img.mark.value} else {})
  }

  lemma NarrowsKeeps(f: SegFile, g: SegFile, x: nat, im: SegImage, log: seq<Record>, issued: set<Record>)
    requires Narrows(f, g, im) && IsImage(f, x, im)
    ensures IsImage(g, x, im)
    ensures forall k: nat :: Solid(f, k, log) ==> Solid(g, k, log)
    ensures Settled(f, log) ==> Settled(g, log) && |g.cache| == |f.cache|
    ensures Honest(f, issued) ==> Honest(g, issued)
  {
    forall k: nat | Solid(f, k, log)
      ensures Solid(g, k, log)
    {
      assert k <= |g.cache|;
      forall i | 0 <= i < k
        ensures g.poss[i] == {Rec(log[f.base + i - 1])}
      {
        assert g.cache[i] in g.poss[i] && g.poss[i] <= f.poss[i];
      }
    }
  }

  lemma SurvivorFile(d: JDisk, h: History, open: Option<nat>, img: JImage, e: JDisk, x: nat) returns (i: nat)
    requires CrashSafe(d, h, open) && Survives(d, img, e) && x in e.files
    ensures i < |img.segs| && img.segs[i].index == x && x in d.files
    ensures Narrows(d.files[x], e.files[x], img.segs[i]) && IsImage(d.files[x], x, img.segs[i])
    ensures FileOk(d, x, h, open)
  {
    hide Narrows, IsImage, FileOk, ProofOk, MarkOk, Ordered, Stored;
    assert Listed(img, x);
    i :| 0 <= i < |img.segs| && img.segs[i].index == x;
  }

  /** A crash of a crash-safe journal leaves a crash-safe journal. */
  lemma SurvivorSafe(d: JDisk, h: History, open: Option<nat>, img: JImage, e: JDisk)
    requires CrashSafe(d, h, open) && Survives(d, img, e)
    ensures CrashSafe(e, h, open)
  {
    hide Solid, Honest, WellFormed, Settled, Stored, Narrows, IsImage;
    forall x | x in e.files
      ensures FileOk(e, x, h, open)
    {
      SurvivorFileOk(d, h, open, img, e, x);
    }
    forall p | p in e.proofs
      ensures ProofOk(e, p, h)
    {
      assert ProofOk(d, p, h);
      if p.index in e.files {
        var i := SurvivorFile(d, h, open, img, e, p.index);
        NarrowsKeeps(d.files[p.index], e.files[p.index], p.index, img.segs[i], h.log, h.issued);
      }
      SurvivorFirm(d, h, open, img, e, p.index);
    }
    forall m | m in e.marks
      ensures MarkOk(e, m, h)
    {
      assert MarkOk(d, m, h);
      if m.index in e.files {
        var i := SurvivorFile(d, h, open, img, e, m.index);
        NarrowsKeeps(d.files[m.index], e.files[m.index], m.index, img.segs[i], h.log, h.issued);
      }
    }
    forall q | h.floor < q <= h.durable
      ensures Stored(e, q)
    {
      SurvivorStored(d, h, open, img, e, q);
    }
    SurvivorOrdered(d, h, open, img, e);
  }

  lemma SurvivorFileOk(d: JDisk, h: History, open: Option<nat>, img: JImage, e: JDisk, x: nat)
    requires CrashSafe(d, h, open) && Survives(d, img, e) && x in e.files
    ensures FileOk(e, x, h, open)
    ensures e.files[x].base == d.files[x].base && Firm(e.files[x])
    ensures open != Some(x) ==> End(e.files[x]) == End(d.files[x])
  {
    hide Solid, Honest, CrashSafe, Survives, IsImage;
    var i := SurvivorFile(d, h, open, img, e, x);
    NarrowsKeeps(d.files[x], e.files[x], x, img.segs[i], h.log, h.issued);
  }

  /** A file whose entry is certain survives, and its entry stays certain. */
  lemma SurvivorFirm(d: JDisk, h: History, open: Option<nat>, img: JImage, e: JDisk, x: nat)
    requires CrashSafe(d, h, open) && Survives(d, img, e)
    ensures x in d.files && Firm(d.files[x]) ==> x in e.files && Firm(e.files[x]) && e.files[x].base == d.files[x].base
  {
    hide CrashSafe, IsImage, FileOk;
    if x in d.files && Firm(d.files[x]) {
      assert Listed(img, x);
      SurvivorFileOk(d, h, open, img, e, x);
    }
  }

  lemma SurvivorStored(d: JDisk, h: History, open: Option<nat>, img: JImage, e: JDisk, q: nat)
    requires CrashSafe(d, h, open) && Survives(d, img, e) && h.floor < q <= h.durable
    ensures Stored(e, q)
  {
    hide CrashSafe, Solid, Honest, WellFormed, Settled, Narrows, IsImage, IsCrash;
    var i := MustSurvive(d, h, open, img, q);
    var x := img.segs[i].index;
    assert Listed(img, x);
    SurvivorFileOk(d, h, open, img, e, x);
    if open == Some(x) {
      SolidEnd(e.files[x], h.durable + 1 - e.files[x].base, h.log);
    }
    assert Contains(e.files[x], q);
  }

  lemma SurvivorOrdered(d: JDisk, h: History, open: Option<nat>, img: JImage, e: JDisk)
    requires CrashSafe(d, h, open) && Survives(d, img, e)
    ensures Ordered(e, open)
  {
    hide CrashSafe, FileOk, Narrows, IsImage;
    OrderedOf(d, h, open);
    forall a, b | a in e.files && b in e.files && a < b
      ensures End(e.files[a]) <= e.files[b].base
    {
      SurvivorFileOk(d, h, open, img, e, a);
      SurvivorFileOk(d, h, open, img, e, b);
      SegmentsOrdered(d, h, open, a, b);
    }
  }

  /** What recovery reads is itself one of the crashes of what it finds. */
  lemma SurvivorShows(d: JDisk, h: History, open: Option<nat>, img: JImage, e: JDisk)
    requires CrashSafe(d, h, open) && Survives(d, img, e)
    ensures IsCrash(e, img)
  {
    hide CrashSafe, FileOk, IsImage;
    forall i | 0 <= i < |img.segs|
      ensures img.segs[i].index in e.files && IsImage(e.files[img.segs[i].index], img.segs[i].index, img.segs[i])
    {
      assert Listed(img, img.segs[i].index);
      NarrowsKeeps(d.files[img.segs[i].index], e.files[img.segs[i].index], img.segs[i].index, img.segs[i], h.log, h.issued);
    }
    forall x | x in e.files && e.files[x].present == {true}
      ensures exists i :: 0 <= i < |img.segs| && img.segs[i].index == x
    {
      assert Listed(img, x);
    }
  }

  // Rewriting what the scan accepted. -----------------------------------------

  /** A closed file may be replaced by one with the same settled content. */
  lemma ReplaceClosed(d: JDisk, h: History, open: Option<nat>, x: nat, g: SegFile)
    requires CrashSafe(d, h, open) && x in d.files && open != Some(x)
    requires Settled(g, h.log) && g.base == d.files[x].base && |g.cache| == |d.files[x].cache|
    requires g.visible == d.files[x].visible && g.present == d.files[x].present
    ensures CrashSafe(d.(files := d.files[x := g]), h, open)
  {
    hide Honest, WellFormed, Stored, Settled, Solid, Ordered, ProofOk, MarkOk;
    var e := d.(files := d.files[x := g]);
    forall y | y in e.files
      ensures FileOk(e, y, h, open)
    {
      assert FileOk(d, y, h, open);
    }
    forall p | p in e.proofs
      ensures ProofOk(e, p, h)
    {
      ClosedVouched(d, h, open, x, g, p);
    }
    forall m | m in e.marks
      ensures MarkOk(e, m, h)
    {
      ClosedMarked(d, h, open, x, g, m);
    }
    forall q | h.floor < q <= h.durable
      ensures Stored(e, q)
    {
      ClosedStored(d, h, open, x, g, q);
    }
    ClosedOrdered(d, h, open, x, g);
  }

  lemma ClosedVouched(d: JDisk, h: History, open: Option<nat>, x: nat, g: SegFile, p: Proof)
    requires CrashSafe(d, h, open) && x in d.files && open != Some(x) && p in d.proofs
    requires Settled(g, h.log) && g.base == d.files[x].base && |g.cache| == |d.files[x].cache|
    requires g.visible == d.files[x].visible && g.present == d.files[x].present
    ensures ProofOk(d.(files := d.files[x := g]), p, h)
  {
    hide Honest, WellFormed, Stored, Settled, Solid, Ordered, MarkOk;
    assert ProofOk(d, p, h);
    if p.index == x && p.sequence > 0 {
      assert FileOk(d, x, h, open);
      SettledSolid(d.files[x], g, p.cells, h.log);
    }
  }

  lemma ClosedMarked(d: JDisk, h: History, open: Option<nat>, x: nat, g: SegFile, m: Mark)
    requires CrashSafe(d, h, open) && x in d.files && open != Some(x) && m in d.marks
    requires Settled(g, h.log) && |g.cache| == |d.files[x].cache|
    ensures MarkOk(d.(files := d.files[x := g]), m, h)
  {
    hide Honest, WellFormed, Stored, Settled, Solid, Ordered, ProofOk;
    assert MarkOk(d, m, h);
    if m.index == x {
      assert FileOk(d, x, h, open);
      SettledSolid(d.files[x], g, m.cells, h.log);
    }
  }

  lemma ClosedOrdered(d: JDisk, h: History, open: Option<nat>, x: nat, g: SegFile)
    requires CrashSafe(d, h, open) && x in d.files && open != Some(x)
    requires g.base == d.files[x].base && |g.cache| == |d.files[x].cache|
    ensures Ordered(d.(files := d.files[x := g]), open)
  {
    hide CrashSafe;
    var e := d.(files := d.files[x := g]);
    OrderedOf(d, h, open);
    forall a, b | a in e.files && b in e.files && a < b
      ensures End(e.files[a]) <= e.files[b].base
    {
      SegmentsOrdered(d, h, open, a, b);
    }
  }

  lemma SettledSolid(f: SegFile, g: SegFile, k: nat, log: seq<Record>)
    requires Settled(f, log) && Settled(g, log) && |g.cache| == |f.cache| && Solid(f, k, log)
    ensures Solid(g, k, log)
  {
  }

  lemma ClosedStored(d: JDisk, h: History, open: Option<nat>, x: nat, g: SegFile, q: nat)
    requires CrashSafe(d, h, open) && x in d.files && h.floor < q <= h.durable
    requires g.base == d.files[x].base && |g.cache| == |d.files[x].cache|
    ensures Stored(d.(files := d.files[x := g]), q)
  {
    hide FileOk, Ordered, ProofOk, MarkOk;
    var e := d.(files := d.files[x := g]);
    assert Stored(d, q);
    var y :| y in d.files && Contains(d.files[y], q);
    assert y in e.files && Contains(e.files[y], q);
  }

  /** A step on one file: what it must keep, whether or not the file is open. */
  ghost predicate Step(f: SegFile, g: SegFile, h: History, isOpen: bool) {
    && g.base == f.base && g.visible == f.visible && g.present == f.present
    && if isOpen then
         WellFormed(g) && Honest(g, h.issued) && |g.poss| <= |f.poss| && Improves(f, g, h.log)
       else
         Settled(g, h.log) && |g.cache| == |f.cache|
  }

  lemma FileStep(d: JDisk, h: History, open: Option<nat>, x: nat, g: SegFile)
    requires CrashSafe(d, h, open) && x in d.files
    requires Step(d.files[x], g, h, open == Some(x))
    ensures CrashSafe(d.(files := d.files[x := g]), h, open)
  {
    hide Improves, Solid, Honest, WellFormed, Settled, Ordered, Stored;
    assert FileOk(d, x, h, open);
    if open == Some(x) {
      ReplaceOpen(d, h, x, g);
    } else {
      ReplaceClosed(d, h, open, x, g);
    }
  }

  /** `k` cells are the prefix that recovery keeps of a file. */
  ghost predicate Keepable(f: SegFile, k: nat, h: History, isOpen: bool) {
    && WellFormed(f)
    && k <= |f.cache|
    && if isOpen then Honest(f, h.issued) && (forall j: nat :: Solid(f, j, h.log) ==> j <= k)
       else Settled(f, h.log) && k == |f.cache|
  }

  /** `set_len` to the accepted prefix. */
  lemma CutStep(f: SegFile, k: nat, h: History, isOpen: bool)
    requires Keepable(f, k, h, isOpen)
    ensures
      var g := Truncate(f, k);
      Step(f, g, h, isOpen) && Keepable(g, k, h, isOpen) && Trim(g, k)
  {
    var g := Truncate(f, k);
    if isOpen {
      forall j: nat | Solid(f, j, h.log)
        ensures Solid(g, j, h.log)
      {
      }
    } else {
      assert f.cache[..k] == f.cache;
    }
  }

  ghost predicate Trim(f: SegFile, k: nat) {
    |f.cache| == k && k in f.lens && f.lenDirty
  }

  lemma HeaderStep(f: SegFile, k: nat, h: History, isOpen: bool)
    requires Keepable(f, k, h, isOpen) && Trim(f, k)
    ensures
      var g := WriteHeader(f);
      Step(f, g, h, isOpen) && Keepable(g, k, h, isOpen) && Trim(g, k) && g.headerDirty
  {
    var g := WriteHeader(f);
    forall j: nat | Solid(f, j, h.log)
      ensures Solid(g, j, h.log)
    {
    }
  }

  /** Writing back what was read: any value the page could have held. */
  lemma PutStep(f: SegFile, k: nat, h: History, isOpen: bool, i: nat, v: Cell)
    requires Keepable(f, k, h, isOpen) && Trim(f, k) && f.headerDirty && i < k && v in f.poss[i]
    ensures
      var g := Put(f, i, v);
      Step(f, g, h, isOpen) && Keepable(g, k, h, isOpen) && Trim(g, k) && g.headerDirty
  {
    var g := Put(f, i, v);
    forall j: nat | Solid(f, j, h.log)
      ensures Solid(g, j, h.log)
    {
    }
  }

  lemma SyncStep(f: SegFile, k: nat, h: History, isOpen: bool, ok: bool)
    requires Keepable(f, k, h, isOpen) && Trim(f, k)
    ensures
      var g := if ok then SyncOk(f) else SyncFailed(f);
      Step(f, g, h, isOpen) && Keepable(g, k, h, isOpen)
  {
    hide Honest;
    var g := if ok then SyncOk(f) else SyncFailed(f);
    forall j: nat | Solid(f, j, h.log)
      ensures Solid(g, j, h.log)
    {
    }
    SyncHonest(f, h.issued, ok);
  }

  lemma SyncHonest(f: SegFile, issued: set<Record>, ok: bool)
    requires WellFormed(f)
    ensures
      var g := if ok then SyncOk(f) else SyncFailed(f);
      Honest(f, issued) ==> Honest(g, issued)
  {
    if ok && Honest(f, issued) {
      var g := SyncOk(f);
      forall i, c | 0 <= i < |g.poss| && c in g.poss[i]
        ensures c == Junk || (c.record in issued && c.record.sequence == f.base + i)
      {
        assert c in f.poss[i];
      }
    }
  }

  /** The first cells of the file were rewritten with `seen`, and are dirty. */
  ghost predicate Redirtied(f: SegFile, seen: seq<Cell>) {
    && |seen| <= |f.cache|
    && forall i :: 0 <= i < |seen| ==> i in f.dirty && f.cache[i] == seen[i]
  }

  // Discarding a segment whose creation never finished. ------------------------

  lemma UnlinkOpen(d: JDisk, h: History, x: nat)
    requires CrashSafe(d, h, Some(x)) && x in d.files && false in d.files[x].header
    ensures CrashSafe(d.(files := d.files[x := Unlink(d.files[x])]), h, Some(x))
  {
    hide Honest, Solid, Ordered, Stored;
    var g := Unlink(d.files[x]);
    var e := d.(files := d.files[x := g]);
    assert FileOk(d, x, h, Some(x));
    NeverSolid(d.files[x], h.log);
    SameContent(d.files[x], g, h);
    forall y | y in e.files
      ensures FileOk(e, y, h, Some(x))
    {
      assert FileOk(d, y, h, Some(x));
    }
    forall p | p in e.proofs
      ensures ProofOk(e, p, h)
    {
      assert ProofOk(d, p, h);
    }
    forall m | m in e.marks
      ensures MarkOk(e, m, h)
    {
      assert MarkOk(d, m, h);
    }
    forall q | h.floor < q <= h.durable
      ensures Stored(e, q)
    {
      RemovedStored(d, h, Some(x), x, q);
    }
    RemovedOrdered(d, h, Some(x), x);
  }

  lemma NeverSolid(f: SegFile, log: seq<Record>)
    requires false in f.header
    ensures forall k: nat :: !Solid(f, k, log)
  {
  }

  lemma OpenGone(d: JDisk, h: History, x: nat)
    requires CrashSafe(d, h, Some(x)) && x !in d.files
    ensures CrashSafe(d, h, None)
  {
    hide Settled, Stored, ProofOk, MarkOk;
    forall y | y in d.files
      ensures FileOk(d, y, h, None)
    {
      assert FileOk(d, y, h, Some(x));
    }
  }

  // Adopting the recovered history. --------------------------------------------

  /** Once everything accepted is settled, what recovery read is the history: the
      acknowledged records, and after them whatever else survived. */
  lemma Adopt(d: JDisk, h: History, open: Option<nat>, log: seq<Record>)
    requires CrashSafe(d, h, open)
    requires Agree(h.log, log, h.durable) && h.durable <= |log| < U64_MAX && Numbered(log)
    requires forall i :: 0 <= i < |log| ==> log[i] in h.issued
    requires open.Some? && open.value in d.files ==>
      Settled(d.files[open.value], log) && Firm(d.files[open.value]) && End(d.files[open.value]) == |log| + 1
    requires open.None? || open.value !in d.files ==> |log| == h.durable
    ensures CrashSafe(d, h.(log := log, durable := |log|), None)
  {
    hide Honest, WellFormed, Ordered, Solid, Settled;
    var g := h.(log := log, durable := |log|);
    forall y | y in d.files
      ensures FileOk(d, y, g, None)
    {
      assert FileOk(d, y, h, open);
      if open != Some(y) { ReLog(d.files[y], h, log); }
    }
    forall p | p in d.proofs
      ensures ProofOk(d, p, g)
    {
      AdoptProof(d, h, open, log, p);
    }
    forall m | m in d.marks
      ensures MarkOk(d, m, g)
    {
      assert MarkOk(d, m, h);
      if m.index in d.files { AdoptSolid(d, h, open, log, m.index, m.cells); }
    }
    forall q | g.floor < q <= g.durable
      ensures Stored(d, q)
    {
      AdoptStored(d, h, open, log, q);
    }
    AdoptOrdered(d, h, open);
  }

  lemma ReLog(f: SegFile, h: History, log: seq<Record>)
    requires ClosedOk(f, h) && Agree(h.log, log, h.durable)
    ensures Settled(f, log)
    ensures forall k: nat :: Solid(f, k, h.log) ==> Solid(f, k, log)
  {
  }

  lemma AdoptSolid(d: JDisk, h: History, open: Option<nat>, log: seq<Record>, x: nat, k: nat)
    requires CrashSafe(d, h, open) && Agree(h.log, log, h.durable) && x in d.files
    requires open == Some(x) ==> Settled(d.files[x], log)
    requires Solid(d.files[x], k, h.log)
    ensures Solid(d.files[x], k, log)
  {
    hide Honest, Ordered, Stored, ProofOk, MarkOk;
    assert FileOk(d, x, h, open);
    if open != Some(x) { ReLog(d.files[x], h, log); }
  }

  lemma AdoptProof(d: JDisk, h: History, open: Option<nat>, log: seq<Record>, p: Proof)
    requires CrashSafe(d, h, open) && p in d.proofs
    requires Agree(h.log, log, h.durable) && h.durable <= |log|
    requires open.Some? && open.value in d.files ==> Settled(d.files[open.value], log)
    ensures ProofOk(d, p, h.(log := log, durable := |log|))
  {
    hide Honest, Ordered, Stored, MarkOk, WellFormed, FileOk;
    assert ProofOk(d, p, h);
    if p.sequence > 0 && p.index in d.files {
      AdoptSolid(d, h, open, log, p.index, p.cells);
    }
  }

  lemma AdoptStored(d: JDisk, h: History, open: Option<nat>, log: seq<Record>, q: nat)
    requires CrashSafe(d, h, open) && h.floor < q <= |log| && h.durable <= |log|
    requires open.Some? && open.value in d.files ==> End(d.files[open.value]) == |log| + 1
    requires open.None? || open.value !in d.files ==> |log| == h.durable
    ensures Stored(d, q)
  {
    hide Honest, Ordered, MarkOk, ProofOk, WellFormed, Settled, Solid;
    if q <= h.durable {
      assert Stored(d, q);
    } else {
      assert FileOk(d, open.value, h, open);
      assert Contains(d.files[open.value], q);
    }
  }

  lemma AdoptOrdered(d: JDisk, h: History, open: Option<nat>)
    requires CrashSafe(d, h, open)
    ensures Ordered(d, None)
  {
    hide FileOk, Stored, ProofOk, MarkOk;
  }

  // What the scan found is a history. -------------------------------------------

  /** The checkpointed records, then what the scan replays. */
  ghost function RecoveredLog(h: History, ck: nat, replay: seq<Record>): seq<Record>
    requires ck <= |h.log|
  {
    h.log[..ck] + replay
  }

  /** The facts about an accepted scan that recovery relies on. */
  ghost predicate ScanFacts(img: JImage, ck: nat, r: Scanned) {
    && r.Accepted?
    && r.durable >= ck
    && Gapless(r.replay, ck, r.durable)
    && FromImage(img, r.replay)
    && Kept(img, r.segments)
    && (forall i :: 0 <= i < |r.segments| ==> LastSequence(r.segments[i]) <= r.durable)
  }

  /** A record past the durable boundary can only be in the open segment. */
  lemma OnOpen(d: JDisk, h: History, open: Option<nat>, img: JImage, r: Record) returns (p: nat)
    requires CrashSafe(d, h, open) && IsCrash(d, img) && OnImage(img, r) && r.sequence > h.durable
    ensures p + 1 == |img.segs| && open == Some(img.segs[p].index) && img.segs[p].header
    ensures
      var s := img.segs[p];
      s.base <= r.sequence < s.base + Count(s) && s.cells[r.sequence - s.base] == Rec(r)
    ensures r.sequence < U64_MAX
  {
    hide Ordered, Stored, CrashSafe, Marked, Honest, Solid;
    var q: nat, j: nat :| 0 <= q < |img.segs| && 0 <= j < Count(img.segs[q]) && img.segs[q].header && img.segs[q].cells[j] == Rec(r);
    p := q;
    var s := img.segs[p];
    OpenIsLast(d, h, open, img, p);
    var f := d.files[s.index];
    if open == Some(s.index) {
      HonestImage(f, s.index, s, h.issued);
    } else {
      ClosedImage(f, s.index, s, h.log);
      ClosedBelow(f, h);
      assert false;
    }
  }

  lemma ClosedBelow(f: SegFile, h: History)
    requires ClosedOk(f, h)
    ensures f.base + |f.cache| <= h.durable + 1
  {
  }

  /** The recovered history: contiguous, acknowledged records intact, nothing invented. */
  lemma RecoveredIsHistory(d: JDisk, h: History, open: Option<nat>, img: JImage, ck: nat, r: Scanned)
    requires CrashSafe(d, h, open) && IsCrash(d, img) && h.floor <= ck <= h.durable
    requires ScanFacts(img, ck, r)
    ensures HistoryOk(h)
    ensures
      var log := RecoveredLog(h, ck, r.replay);
      && |log| == r.durable && h.durable <= |log| < U64_MAX && Numbered(log)
      && Agree(h.log, log, h.durable)
      && forall i :: 0 <= i < |log| ==> log[i] in h.issued
  {
    hide FileOk, Ordered, Stored, ProofOk, MarkOk, IsCrash, Kept, OnImage;
    var log := RecoveredLog(h, ck, r.replay);
    CrashReaches(d, h, open, img, r.segments, ck, r.durable);
    forall i | 0 <= i < |log|
      ensures log[i].sequence == i + 1 && log[i] in h.issued && (i < h.durable ==> log[i] == h.log[i])
    {
      if i >= ck {
        assert OnImage(img, r.replay[i - ck]);
        CrashRecord(d, h, open, img, log[i]);
      }
    }
    if |log| > h.durable {
      var p := ReplayedOnOpen(d, h, open, img, ck, r, |log|);
    }
  }

  /** The accepted cells of the open segment are the tail of the recovered history. */
  lemma RecoveredTail(d: JDisk, h: History, open: Option<nat>, img: JImage, ck: nat, r: Scanned, pos: nat)
    requires CrashSafe(d, h, open) && IsCrash(d, img) && h.floor <= ck <= h.durable
    requires ScanFacts(img, ck, r) && |RecoveredLog(h, ck, r.replay)| == r.durable >= h.durable
    requires Agree(h.log, RecoveredLog(h, ck, r.replay), h.durable)
    requires pos < |r.segments| && open == Some(img.segs[pos].index) && img.segs[pos].header
    ensures
      var log, s := RecoveredLog(h, ck, r.replay), img.segs[pos];
      && s.base + Count(s) == |log| + 1
      && forall j :: 0 <= j < Count(s) ==> s.cells[j] == Rec(log[s.base + j - 1])
  {
    hide Ordered, Stored, CrashSafe, Marked, Honest, Solid, IsCrash, OnImage;
    var log, s := RecoveredLog(h, ck, r.replay), img.segs[pos];
    OpenIsLast(d, h, open, img, pos);
    var f := d.files[s.index];
    assert r.segments[pos] == Info(s);
    if s.base <= h.durable {
      SolidImage(f, s.index, s, h.durable + 1 - s.base, h.log);
    }
    if r.durable > h.durable {
      var p := ReplayedOnOpen(d, h, open, img, ck, r, r.durable);
    }
    forall j | 0 <= j < Count(s)
      ensures s.cells[j] == Rec(log[s.base + j - 1])
    {
      if s.base + j > h.durable {
        var p := ReplayedOnOpen(d, h, open, img, ck, r, s.base + j);
      }
    }
  }

  lemma ReplayedOnOpen(d: JDisk, h: History, open: Option<nat>, img: JImage, ck: nat, r: Scanned, q: nat) returns (p: nat)
    requires CrashSafe(d, h, open) && IsCrash(d, img) && h.floor <= ck <= h.durable <= |h.log|
    requires ScanFacts(img, ck, r) && h.durable < q <= r.durable
    ensures |RecoveredLog(h, ck, r.replay)| == r.durable
    ensures p + 1 == |img.segs| && open == Some(img.segs[p].index) && img.segs[p].header
    ensures
      var s := img.segs[p];
      s.base <= q < s.base + Count(s) && s.cells[q - s.base] == Rec(RecoveredLog(h, ck, r.replay)[q - 1])
    ensures q < U64_MAX
  {
    hide CrashSafe, IsCrash, OnImage, Kept;
    assert OnImage(img, r.replay[q - ck - 1]);
    p := OnOpen(d, h, open, img, r.replay[q - ck - 1]);
  }

  /** Without the open segment nothing is past the durable boundary. */
  lemma RecoveredEnds(d: JDisk, h: History, open: Option<nat>, img: JImage, ck: nat, r: Scanned)
    requires CrashSafe(d, h, open) && IsCrash(d, img) && h.floor <= ck <= h.durable <= |h.log|
    requires ScanFacts(img, ck, r)
    requires forall p :: 0 <= p < |img.segs| && img.segs[p].header ==> open != Some(img.segs[p].index)
    ensures r.durable <= h.durable
  {
    hide CrashSafe, IsCrash, OnImage, Kept;
    if r.durable > h.durable {
      var p := ReplayedOnOpen(d, h, open, img, ck, r, r.durable);
    }
  }
}
