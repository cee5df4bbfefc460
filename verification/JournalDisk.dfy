/** The journal directory on disk, and why every crash leaves it recoverable.

  `CrashSafe` is the invariant the journal writer keeps between any two of its
  I/O steps. The theorems of this module say what it is worth: whatever subset
  of the volatile effects a power loss keeps, the scan accepts the journal, and
  what it replays is the accepted history up to the durable boundary, followed
  only by records that some append wrote.
 */
module JournalDisk {
  import opened Records
  import opened SegmentFile
  import opened JournalScan

  datatype JDisk = JDisk(files: map<nat, SegFile>, proofs: set<Proof>, marks: set<Mark>)

  /** The accepted history and its boundaries: records up to `durable` are
      acknowledged, records up to `floor` no checkpoint can ever ask for again.
      `issued` also holds records whose append failed. */
  datatype History = History(log: seq<Record>, issued: set<Record>, durable: nat, floor: nat)

  ghost predicate HistoryOk(h: History) {
    && Numbered(h.log)
    && (forall i :: 0 <= i < |h.log| ==> h.log[i] in h.issued)
    && h.floor <= h.durable <= |h.log| < U64_MAX
  }

  /** A later history of the same volume, no crash between. */
  ghost predicate Extends(a: History, b: History) {
    && Agree(a.log, b.log, |a.log|)
    && a.issued <= b.issued
    && a.durable <= b.durable
    && a.floor == b.floor
  }

  lemma ExtendsTransitive(a: History, b: History, c: History)
    requires Extends(a, b) && Extends(b, c)
    ensures Extends(a, c)
  {
  }

  /** One of the directory trees a power loss may leave. */
  ghost predicate IsCrash(d: JDisk, img: JImage) {
    && Sorted(img)
    && (forall i :: 0 <= i < |img.segs| ==>
          && img.segs[i].index in d.files
          && true in d.files[img.segs[i].index].present
          && IsImage(d.files[img.segs[i].index], img.segs[i].index, img.segs[i]))
    && (forall x :: x in d.files && d.files[x].present == {true} ==>
          exists i :: 0 <= i < |img.segs| && img.segs[i].index == x)
    && img.proof in d.proofs
    && (img.mark.Some? ==> img.mark.value in d.marks)
  }

  /** End of the records a file shows, as a sequence number. */
  function End(f: SegFile): nat {
    f.base + |f.cache|
  }

  /** The directory entry is there, now and after every crash. */
  ghost predicate Firm(f: SegFile) {
    f.visible && f.present == {true}
  }

  /** A segment no longer written to. */
  ghost predicate ClosedOk(f: SegFile, h: History) {
    && Settled(f, h.log)
    && End(f) <= h.durable + 1
    && (End(f) > h.floor + 1 ==> Firm(f))
  }

  /** The segment being written, or the remains of a failed creation. */
  ghost predicate OpenOk(f: SegFile, h: History) {
    && WellFormed(f)
    && Honest(f, h.issued)
    && f.base <= h.durable + 1
    && f.base + |f.poss| <= U64_MAX
    && (f.base <= h.durable ==> Firm(f) && Solid(f, h.durable + 1 - f.base, h.log))
  }

  ghost predicate FileOk(d: JDisk, x: nat, h: History, open: Option<nat>)
    requires x in d.files
  {
    && x < U64_MAX
    && if open == Some(x) then OpenOk(d.files[x], h) else ClosedOk(d.files[x], h)
  }

  /** Segments are in sequence order, the open one last. */
  ghost predicate Ordered(d: JDisk, open: Option<nat>) {
    && (forall a, b :: a in d.files && b in d.files && a < b ==> End(d.files[a]) <= d.files[b].base)
    && (forall a :: a in d.files && open.Some? ==> a <= open.value)
  }

  ghost predicate Contains(f: SegFile, q: nat) {
    f.base <= q < End(f)
  }

  ghost predicate Stored(d: JDisk, q: nat) {
    exists x :: x in d.files && Contains(d.files[x], q)
  }

  ghost predicate ProofOk(d: JDisk, p: Proof, h: History) {
    && p.sequence <= |h.log|
    && (p.sequence > 0 ==> p.index < U64_MAX && (p.index in d.files ==> Solid(d.files[p.index], p.cells, h.log)))
    && (p.sequence > h.floor ==>
          && p.index in d.files
          && Firm(d.files[p.index])
          && p.cells >= 1
          && d.files[p.index].base + p.cells == p.sequence + 1)
  }

  ghost predicate MarkOk(d: JDisk, m: Mark, h: History) {
    m.index < U64_MAX && (m.index in d.files ==> Solid(d.files[m.index], m.cells, h.log))
  }

  ghost predicate CrashSafe(d: JDisk, h: History, open: Option<nat>) {
    && HistoryOk(h)
    && (forall x :: x in d.files ==> FileOk(d, x, h, open))
    && Ordered(d, open)
    && (forall q :: h.floor < q <= h.durable ==> Stored(d, q))
    && (forall p :: p in d.proofs ==> ProofOk(d, p, h))
    && (forall m :: m in d.marks ==> MarkOk(d, m, h))
  }

  /** Whichever proof a crash shows, it demands the records up to `n`, unless the
      checkpoint covers them. */
  ghost predicate Vouched(d: JDisk, floor: nat, n: nat) {
    floor < n ==> forall p :: p in d.proofs ==> p.sequence >= n
  }

  /** A settled segment reads back as exactly its records. */
  lemma ClosedImage(f: SegFile, x: nat, im: SegImage, log: seq<Record>)
    requires Numbered(log) && Settled(f, log) && IsImage(f, x, im)
    ensures im.header && |im.cells| == |f.cache| && Count(im) == |im.cells|
    ensures forall i :: 0 <= i < |im.cells| ==> im.cells[i] == Rec(log[im.base + i - 1])
  {
    forall i | 0 <= i < |im.cells|
      ensures im.cells[i] == Rec(log[im.base + i - 1])
    {
      assert im.cells[i] in f.poss[i];
    }
  }

  /** The certain prefix of a segment survives every crash. */
  lemma SolidImage(f: SegFile, x: nat, im: SegImage, k: nat, log: seq<Record>)
    requires Numbered(log) && Solid(f, k, log) && IsImage(f, x, im)
    ensures im.header && k <= |im.cells| && Count(im) >= k
    ensures forall i :: 0 <= i < k ==> im.cells[i] == Rec(log[im.base + i - 1])
  {
    forall i | 0 <= i < k
      ensures im.cells[i] == Rec(log[im.base + i - 1])
    {
      assert im.cells[i] in f.poss[i];
    }
  }

  /** What a crash shows of an honest segment is junk or issued, in position. */
  lemma HonestImage(f: SegFile, x: nat, im: SegImage, issued: set<Record>)
    requires Honest(f, issued) && IsImage(f, x, im)
    ensures Count(im) < |im.cells| ==> im.cells[Count(im)] == Junk
    ensures forall i :: 0 <= i < |im.cells| && im.cells[i].Rec? ==>
      im.cells[i].record in issued && im.cells[i].record.sequence == im.base + i
  {
    forall i | 0 <= i < |im.cells| && im.cells[i].Rec?
      ensures im.cells[i].record in issued && im.cells[i].record.sequence == im.base + i
    {
      assert im.cells[i] in f.poss[i];
    }
  }

  /** A record that must survive is in some segment every crash shows. */
  lemma MustSurvive(d: JDisk, h: History, open: Option<nat>, img: JImage, q: nat) returns (i: nat)
    requires CrashSafe(d, h, open) && IsCrash(d, img)
    requires h.floor < q <= h.durable
    ensures i < |img.segs| && img.segs[i].index in d.files && Contains(d.files[img.segs[i].index], q)
  {
    hide Settled, Solid, Honest, WellFormed, IsImage, ProofOk, MarkOk;
    assert Stored(d, q);
    var x :| x in d.files && Contains(d.files[x], q);
    assert FileOk(d, x, h, open);
    i :| 0 <= i < |img.segs| && img.segs[i].index == x;
  }

  lemma LinkSurvives(d: JDisk, h: History, open: Option<nat>, img: JImage, pos: nat, c: nat)
    requires CrashSafe(d, h, open) && IsCrash(d, img)
    requires pos < |img.segs| && h.floor <= c <= h.durable
    ensures Linked(img, pos, c)
  {
    hide Solid, Honest, ProofOk, MarkOk, CrashSafe;
    var b := img.segs[pos].index;
    OpenIsLast(d, h, open, img, pos);
    var base := img.segs[pos].base;
    if pos > 0 {
      var a := img.segs[pos - 1].index;
      OpenIsLast(d, h, open, img, pos - 1);
      ClosedImage(d.files[a], a, img.segs[pos - 1], h.log);
      SegmentsOrdered(d, h, open, a, b);
      assert LastSequence(Info(img.segs[pos - 1])) + 1 == End(d.files[a]) <= base;
      if base > c + 1 && End(d.files[a]) < base {
        var i := MustSurvive(d, h, open, img, base - 1);
        SegmentsOrdered(d, h, open, img.segs[i].index, a);
        SegmentsOrdered(d, h, open, img.segs[i].index, b);
        assert false;
      }
    } else if base > c + 1 {
      var i := MustSurvive(d, h, open, img, base - 1);
      SegmentsOrdered(d, h, open, img.segs[i].index, b);
      assert false;
    }
  }

  /** Two segments of one disk: the earlier ends before the later begins. */
  lemma SegmentsOrdered(d: JDisk, h: History, open: Option<nat>, a: nat, b: nat)
    requires CrashSafe(d, h, open) && a in d.files && b in d.files
    ensures a < b ==> End(d.files[a]) <= d.files[b].base
    ensures b < a ==> End(d.files[b]) <= d.files[a].base
  {
  }

  lemma OpenIsLast(d: JDisk, h: History, open: Option<nat>, img: JImage, pos: nat)
    requires CrashSafe(d, h, open) && IsCrash(d, img) && pos < |img.segs|
    ensures img.segs[pos].index in d.files
    ensures IsImage(d.files[img.segs[pos].index], img.segs[pos].index, img.segs[pos])
    ensures open == Some(img.segs[pos].index) ==> pos + 1 == |img.segs|
    ensures open == Some(img.segs[pos].index) ==> OpenOk(d.files[img.segs[pos].index], h)
    ensures open != Some(img.segs[pos].index) ==> ClosedOk(d.files[img.segs[pos].index], h)
    ensures d.files[img.segs[pos].index].base <= h.durable + 1
    ensures HistoryOk(h)
  {
    hide Solid, Honest, WellFormed, IsImage, ProofOk, MarkOk, Stored;
    var x := img.segs[pos].index;
    assert FileOk(d, x, h, open);
    if pos + 1 < |img.segs| {
      assert img.segs[pos + 1].index in d.files;
    }
  }

  /** What the mark and the proof of any crash vouch for is really there. */
  lemma VouchedSurvives(d: JDisk, h: History, open: Option<nat>, img: JImage, pos: nat)
    requires CrashSafe(d, h, open) && IsCrash(d, img) && pos < |img.segs|
    ensures MarkedLen(img, img.segs[pos].index) <= Count(img.segs[pos])
    ensures Marked(img, img.segs[pos].index).Some? ==> img.segs[pos].header
  {
    hide Solid, Honest, WellFormed, IsImage, Count, Ordered, Stored, FileOk;
    var s := img.segs[pos];
    OpenIsLast(d, h, open, img, pos);
    if img.mark.Some? && img.mark.value.index == s.index {
      assert MarkOk(d, img.mark.value, h);
      SolidImage(d.files[s.index], s.index, s, img.mark.value.cells, h.log);
    }
    if img.proof.sequence > 0 && img.proof.index == s.index {
      assert ProofOk(d, img.proof, h);
      SolidImage(d.files[s.index], s.index, s, img.proof.cells, h.log);
    }
  }

  lemma BodySurvives(d: JDisk, h: History, open: Option<nat>, img: JImage, pos: nat, c: nat, geometry: Geometry)
    requires CrashSafe(d, h, open) && IsCrash(d, img) && pos < |img.segs|
    requires h.floor <= c <= h.durable
    requires forall r :: r in h.issued ==> Fits(r, geometry)
    requires img.segs[pos].header
    ensures BodyOk(img, pos, c, geometry)
  {
    hide Solid, Ordered, Stored, CrashSafe, Marked;
    var s := img.segs[pos];
    var f := d.files[s.index];
    OpenIsLast(d, h, open, img, pos);
    VouchedSurvives(d, h, open, img, pos);
    if open == Some(s.index) {
      HonestImage(f, s.index, s, h.issued);
    } else {
      ClosedImage(f, s.index, s, h.log);
    }
    if Required(img, s.index, c) {
      RequiredSurvives(d, h, open, img, pos, c);
    }
  }

  lemma RequiredSurvives(d: JDisk, h: History, open: Option<nat>, img: JImage, pos: nat, c: nat)
    requires CrashSafe(d, h, open) && IsCrash(d, img) && pos < |img.segs|
    requires h.floor <= c && Required(img, img.segs[pos].index, c)
    ensures
      var s := img.segs[pos];
      s.base <= img.proof.sequence < s.base + Count(s) && img.proof.sequence + 1 == s.base + img.proof.cells
  {
    hide Solid, Honest, WellFormed, Count, Ordered, Stored, FileOk;
    var s := img.segs[pos];
    OpenIsLast(d, h, open, img, pos);
    assert ProofOk(d, img.proof, h);
    SolidImage(d.files[s.index], s.index, s, img.proof.cells, h.log);
  }

  /** Every crash of a crash-safe journal is accepted, at every checkpoint the
      disk may name. */
  lemma CrashAccepted(d: JDisk, h: History, open: Option<nat>, img: JImage, c: nat, geometry: Geometry)
    requires CrashSafe(d, h, open) && IsCrash(d, img)
    requires h.floor <= c <= h.durable
    requires forall r :: r in h.issued ==> Fits(r, geometry)
    ensures Acceptable(img, c, geometry)
  {
    hide Solid, Ordered, Stored, BodyOk, Linked, Honest, WellFormed, IsImage;
    forall pos | 0 <= pos < |img.segs|
      ensures PositionOk(img, pos, c, geometry)
    {
      LinkSurvives(d, h, open, img, pos, c);
      PositionSurvives(d, h, open, img, pos, c, geometry);
    }
    assert ProofOk(d, img.proof, h);
    if img.mark.Some? {
      assert MarkOk(d, img.mark.value, h);
    }
    forall pos | 0 <= pos < |img.segs|
      ensures img.segs[pos].index < U64_MAX
    {
      assert FileOk(d, img.segs[pos].index, h, open);
    }
  }

  lemma PositionSurvives(d: JDisk, h: History, open: Option<nat>, img: JImage, pos: nat, c: nat, geometry: Geometry)
    requires CrashSafe(d, h, open) && IsCrash(d, img) && pos < |img.segs|
    requires h.floor <= c <= h.durable
    requires forall r :: r in h.issued ==> Fits(r, geometry)
    ensures SegmentOk(img, pos, c, geometry)
  {
    hide Solid, Ordered, Stored, BodyOk, Honest, IsImage, CrashSafe, Marked;
    var s := img.segs[pos];
    OpenIsLast(d, h, open, img, pos);
    VouchedSurvives(d, h, open, img, pos);
    if s.header {
      BodySurvives(d, h, open, img, pos, c, geometry);
    } else if open != Some(s.index) {
      ClosedImage(d.files[s.index], s.index, s, h.log);
      assert false;
    }
  }

  /** A record read from an accepted position is the accepted one up to the
      durable boundary, and one that some append wrote above it. */
  lemma CrashRecord(d: JDisk, h: History, open: Option<nat>, img: JImage, r: Record)
    requires CrashSafe(d, h, open) && IsCrash(d, img) && OnImage(img, r)
    ensures r in h.issued && r.sequence >= 1
    ensures r.sequence <= h.durable ==> r == h.log[r.sequence - 1]
  {
    hide Ordered, Stored, CrashSafe, Marked, Honest;
    var p, j :| 0 <= p < |img.segs| && 0 <= j < Count(img.segs[p]) && img.segs[p].header && img.segs[p].cells[j] == Rec(r);
    var s := img.segs[p];
    OpenIsLast(d, h, open, img, p);
    if open == Some(s.index) {
      HonestImage(d.files[s.index], s.index, s, h.issued);
      if r.sequence <= h.durable {
        SolidImage(d.files[s.index], s.index, s, h.durable + 1 - s.base, h.log);
      }
    } else {
      ClosedImage(d.files[s.index], s.index, s, h.log);
    }
  }

  /** The scan of any crash reaches at least the durable boundary. */
  lemma CrashReaches(d: JDisk, h: History, open: Option<nat>, img: JImage, segments: seq<SegInfo>, c: nat, n: nat)
    requires CrashSafe(d, h, open) && IsCrash(d, img) && Kept(img, segments)
    requires h.floor <= c <= n
    requires forall i :: 0 <= i < |segments| ==> LastSequence(segments[i]) <= n
    ensures h.durable <= n
  {
    hide Stored, CrashSafe, Marked, Honest, WellFormed;
    if h.durable > c {
      var i := MustSurvive(d, h, open, img, h.durable);
      var s := img.segs[i];
      OpenIsLast(d, h, open, img, i);
      if open == Some(s.index) {
        SolidImage(d.files[s.index], s.index, s, h.durable + 1 - s.base, h.log);
      } else {
        ClosedImage(d.files[s.index], s.index, s, h.log);
      }
      assert segments[i] == Info(s);
    }
  }
}
