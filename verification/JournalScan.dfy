/** The read-only journal scan that decides what recovery replays.

  Segments arrive in index order. Damage is tolerated only where a crash can
  put it: behind the proven prefix of the last segment. Records above the
  checkpoint must be contiguous; segments at or below it may be missing or
  overlap, because deleting them is not atomic.
 */
module JournalScan {
  import opened Records
  import opened SegmentFile

  datatype SegInfo = SegInfo(index: nat, base: nat, count: nat)

  /** Sequence of the last record, or of the one before an empty segment. */
  function LastSequence(s: SegInfo): nat {
    if s.base + s.count == 0 then 0 else s.base + s.count - 1
  }

  datatype Geometry = Geometry(units: nat, maxPayload: nat)

  predicate Fits(r: Record, geometry: Geometry) {
    r.unit < geometry.units && |r.payload| <= geometry.maxPayload
  }

  /** Required acknowledgement horizon: `sequence` is the record that ends the
      first `cells` cells of segment `index`; sequence 0 promises nothing. */
  datatype Proof = Proof(sequence: nat, index: nat, cells: nat)

  /** Advisory lower bound: `cells` cells of segment `index` were synced. */
  datatype Mark = Mark(index: nat, cells: nat)

  datatype JImage = JImage(segs: seq<SegImage>, mark: Option<Mark>, proof: Proof)

  datatype Repair = Discard(index: nat) | Cut(index: nat, cells: nat)

  datatype Scanned =
    | Corrupt
    | Accepted(durable: nat, nextIndex: nat, segments: seq<SegInfo>, replay: seq<Record>, repairs: seq<Repair>)

  ghost predicate Sorted(img: JImage) {
    forall i, j :: 0 <= i < j < |img.segs| ==> img.segs[i].index < img.segs[j].index
  }

  /** Length of the longest prefix of correctly numbered records. */
  function PrefixLen(cells: seq<Cell>, base: nat, i: nat): (k: nat)
    requires i <= |cells|
    ensures i <= k <= |cells|
    ensures forall j :: i <= j < k ==> cells[j].Rec? && cells[j].record.sequence == base + j
    ensures k < |cells| ==> cells[k] == Junk || cells[k].record.sequence != base + k
    decreases |cells| - i
  {
    if i < |cells| && cells[i].Rec? && cells[i].record.sequence == base + i
    then PrefixLen(cells, base, i + 1)
    else i
  }

  function Count(s: SegImage): nat {
    PrefixLen(s.cells, s.base, 0)
  }

  function Info(s: SegImage): SegInfo {
    SegInfo(s.index, s.base, Count(s))
  }

  /** The longest prefix that the mark or the proof vouches for, if either does. */
  function Marked(img: JImage, index: nat): Option<nat> {
    var m := if img.mark.Some? && img.mark.value.index == index then Some(img.mark.value.cells) else None;
    if img.proof.sequence > 0 && img.proof.index == index
    then Some(Max(img.proof.cells, if m.Some? then m.value else 0))
    else m
  }

  function MarkedLen(img: JImage, index: nat): nat {
    match Marked(img, index) case Some(n) => n case None => 0
  }

  /** A final segment that never completed its creation. */
  predicate Discarded(img: JImage, pos: nat)
    requires pos < |img.segs|
  {
    pos + 1 == |img.segs| && !img.segs[pos].header && Marked(img, img.segs[pos].index).None?
  }

  function DurableLen(img: JImage, pos: nat): nat
    requires pos < |img.segs|
  {
    if pos + 1 == |img.segs| then MarkedLen(img, img.segs[pos].index) else |img.segs[pos].cells|
  }

  predicate Required(img: JImage, index: nat, ck: nat) {
    img.proof.sequence > ck && img.proof.index == index
  }

  /** The body checks of one segment, in the order the scanner makes them. */
  predicate BodyOk(img: JImage, pos: nat, ck: nat, geometry: Geometry)
    requires pos < |img.segs|
  {
    var s := img.segs[pos];
    var k := Count(s);
    && s.base + k <= U64_MAX
    && (k < |s.cells| ==> s.cells[k] == Junk)
    && DurableLen(img, pos) <= k
    && (forall j :: 0 <= j < k ==> Fits(s.cells[j].record, geometry))
    && (Required(img, s.index, ck) ==>
          s.base <= img.proof.sequence < s.base + k && img.proof.sequence + 1 == s.base + img.proof.cells)
  }

  predicate SegmentOk(img: JImage, pos: nat, ck: nat, geometry: Geometry)
    requires pos < |img.segs|
  {
    var s := img.segs[pos];
    && MarkedLen(img, s.index) <= |s.cells|
    && (Discarded(img, pos) || (s.header && BodyOk(img, pos, ck, geometry)))
  }

  /** Segment `pos` continues the one before it, or the gap lies under the checkpoint. */
  predicate Linked(img: JImage, pos: nat, ck: nat)
    requires pos < |img.segs|
  {
    var base := img.segs[pos].base;
    if pos == 0 then base <= ck + 1
    else
      var prev := LastSequence(Info(img.segs[pos - 1]));
      base == prev + 1 || (prev <= ck && base <= ck + 1)
  }

  ghost predicate PositionOk(img: JImage, pos: nat, ck: nat, geometry: Geometry)
    requires pos < |img.segs|
  {
    SegmentOk(img, pos, ck, geometry) && (Discarded(img, pos) || Linked(img, pos, ck))
  }

  /** What a journal must be like for recovery to accept it. */
  ghost predicate Acceptable(img: JImage, ck: nat, geometry: Geometry) {
    && ck < U64_MAX
    && (forall pos :: 0 <= pos < |img.segs| ==> PositionOk(img, pos, ck, geometry))
    && (img.proof.sequence > ck ==> exists pos :: 0 <= pos < |img.segs| && img.segs[pos].index == img.proof.index)
    && (forall pos :: 0 <= pos < |img.segs| ==> Discarded(img, pos) || img.segs[pos].index < U64_MAX)
    && (img.mark.Some? ==> img.mark.value.index < U64_MAX)
    && (img.proof.sequence > 0 ==> img.proof.index < U64_MAX)
  }

  function RecordsOf(cells: seq<Cell>, from: nat, to: nat): (r: seq<Record>)
    requires from <= to <= |cells|
    requires forall j :: from <= j < to ==> cells[j].Rec?
    ensures |r| == to - from
    ensures forall j :: 0 <= j < |r| ==> r[j] == cells[from + j].record
  {
    seq(to - from, j requires 0 <= j < to - from => cells[from + j].record)
  }

  /** How many leading records of a segment the checkpoint already covers. */
  function Covered(base: nat, count: nat, ck: nat): (n: nat)
    ensures n <= count
  {
    if ck < base then 0 else if ck + 1 - base <= count then ck + 1 - base else count
  }

  /** Records of a segment above the checkpoint. */
  function Uncovered(s: SegImage, ck: nat): (r: seq<Record>) {
    RecordsOf(s.cells, Covered(s.base, Count(s), ck), Count(s))
  }

  /** The replay is exactly the records ck+1, ck+2, ... up to `last`. */
  ghost predicate Gapless(replay: seq<Record>, ck: nat, last: nat) {
    && |replay| == (if last > ck then last - ck else 0)
    && forall i :: 0 <= i < |replay| ==> replay[i].sequence == ck + 1 + i
  }

  /** Every replayed record was read from an accepted position of some segment. */
  ghost predicate FromImage(img: JImage, replay: seq<Record>) {
    forall i :: 0 <= i < |replay| ==> OnImage(img, replay[i])
  }

  ghost predicate OnImage(img: JImage, r: Record) {
    exists p, j :: 0 <= p < |img.segs| && 0 <= j < Count(img.segs[p]) && img.segs[p].header && img.segs[p].cells[j] == Rec(r)
  }

  /** The count `summarize_journal` reports for one segment. */
  function UncoveredCount(s: SegInfo, ck: nat): nat {
    var last := LastSequence(s);
    if last <= ck then 0 else if last - ck < s.count then last - ck else s.count
  }

  function UncoveredRecords(segments: seq<SegInfo>, ck: nat): nat {
    if |segments| == 0 then 0
    else UncoveredRecords(segments[..|segments| - 1], ck) + UncoveredCount(segments[|segments| - 1], ck)
  }

  /** One accepted segment extends a gapless replay without a gap. */
  lemma ReplayGrows(img: JImage, pos: nat, ck: nat, replay: seq<Record>, prev: nat)
    requires pos < |img.segs| && Linked(img, pos, ck)
    requires pos > 0 ==> prev == LastSequence(Info(img.segs[pos - 1]))
    requires Gapless(replay, ck, if pos == 0 then 0 else prev)
    ensures Gapless(replay + Uncovered(img.segs[pos], ck), ck, LastSequence(Info(img.segs[pos])))
    ensures |Uncovered(img.segs[pos], ck)| == UncoveredCount(Info(img.segs[pos]), ck)
    ensures pos > 0 && prev > ck ==> LastSequence(Info(img.segs[pos])) >= prev
  {
    var s := img.segs[pos];
    var more := Uncovered(s, ck);
    forall j | 0 <= j < |more|
      ensures more[j].sequence == s.base + Covered(s.base, Count(s), ck) + j
    {
    }
  }

  function HighestIndex(segments: seq<SegInfo>, mark: Option<Mark>, proof: Proof): (h: Option<nat>)
    ensures forall i :: 0 <= i < |segments| ==> h.Some? && segments[i].index <= h.value
    ensures mark.Some? ==> h.Some? && mark.value.index <= h.value
    ensures proof.sequence > 0 ==> h.Some? && proof.index <= h.value
    ensures h.Some? ==> (
      || (exists i :: 0 <= i < |segments| && segments[i].index == h.value)
      || (mark.Some? && mark.value.index == h.value)
      || (proof.sequence > 0 && proof.index == h.value))
  {
    if |segments| > 0 then
      var h := HighestIndex(segments[..|segments| - 1], mark, proof);
      var last := segments[|segments| - 1].index;
      if h.Some? && h.value >= last then h else Some(last)
    else
      var m := if mark.Some? then Some(mark.value.index) else None;
      if proof.sequence > 0 then Some(Max(proof.index, if m.Some? then m.value else 0)) else m
  }

  /** The change recovery makes to segment `pos` once the scan accepts it. */
  function RepairsOf(img: JImage, pos: nat): seq<Repair>
    requires pos < |img.segs|
  {
    var s := img.segs[pos];
    if Discarded(img, pos) then [Discard(s.index)]
    else if Count(s) < |s.cells| then [Cut(s.index, Count(s))]
    else []
  }

  /** Repairs of the first `n` segments, in order. */
  function AllRepairs(img: JImage, n: nat): seq<Repair>
    requires n <= |img.segs|
  {
    if n == 0 then [] else AllRepairs(img, n - 1) + RepairsOf(img, n - 1)
  }

  /** Only the last segment is ever repaired. */
  lemma {:induction false} RepairsAtEnd(img: JImage, n: nat, ck: nat, geometry: Geometry)
    requires n <= |img.segs| && forall p :: 0 <= p < n ==> PositionOk(img, p, ck, geometry)
    ensures AllRepairs(img, n) == if n < |img.segs| || n == 0 then [] else RepairsOf(img, n - 1)
  {
    if n > 0 {
      RepairsAtEnd(img, n - 1, ck, geometry);
      assert PositionOk(img, n - 1, ck, geometry);
    }
  }

  /** The decision for one segment: kept, discarded, or the whole scan fails. */
  method ScanSegment(img: JImage, pos: nat, ck: nat, geometry: Geometry, prev: Option<nat>)
      returns (ok: bool, repairs: seq<Repair>)
    requires pos < |img.segs| && ck < U64_MAX
    requires prev == if pos == 0 then None else Some(LastSequence(Info(img.segs[pos - 1])))
    ensures ok <==> PositionOk(img, pos, ck, geometry)
    ensures ok ==> repairs == RepairsOf(img, pos)
  {
    var s := img.segs[pos];
    ok, repairs := false, [];
    if MarkedLen(img, s.index) > |s.cells| {
      return;
    }
    if !s.header {
      if pos + 1 == |img.segs| && Marked(img, s.index).None? {
        return true, [Discard(s.index)];
      }
      return;
    }
    if prev.None? && s.base > ck + 1 {
      return;
    }
    var k := Count(s);
    if !BodyOk(img, pos, ck, geometry) {
      return;
    }
    if k < |s.cells| {
      repairs := [Cut(s.index, k)];
    }
    if prev.Some? && s.base != prev.value + 1 {
      if !(prev.value <= ck && s.base <= ck + 1) {
        return;
      }
    }
    ok := true;
  }

  /** The segment loop of the scan. */
  method ScanSegments(img: JImage, ck: nat, geometry: Geometry)
      returns (ok: bool, segments: seq<SegInfo>, replay: seq<Record>, repairs: seq<Repair>, maxSeq: nat, requiredSeen: bool)
    requires ck < U64_MAX
    ensures ok <==> forall p :: 0 <= p < |img.segs| ==> PositionOk(img, p, ck, geometry)
    ensures ok ==> exists prev :: Progress(img, |img.segs|, ck, segments, replay, prev, maxSeq)
    ensures ok && img.proof.sequence > ck ==> (requiredSeen <==> Names(img, |img.segs|))
    ensures ok && requiredSeen ==> maxSeq >= img.proof.sequence
    ensures ok ==> repairs == AllRepairs(img, |img.segs|)
  {
    hide SegmentOk, Linked, Progress;
    ok, segments, replay, repairs, maxSeq, requiredSeen := true, [], [], [], 0, false;
    var prev: Option<nat> := None;
    ProgressStart(img, ck);
    for pos := 0 to |img.segs|
      invariant ok
      invariant forall p :: 0 <= p < pos ==> PositionOk(img, p, ck, geometry)
      invariant Progress(img, pos, ck, segments, replay, prev, maxSeq)
      invariant requiredSeen ==> maxSeq >= img.proof.sequence
      invariant repairs == AllRepairs(img, pos)
      invariant img.proof.sequence > ck ==> (requiredSeen <==> Names(img, pos))
    {
      var s := img.segs[pos];
      ProgressPrev(img, pos, ck, segments, replay, prev, maxSeq);
      var good, fixes := ScanSegment(img, pos, ck, geometry, prev);
      if !good {
        ok := false;
        return;
      }
      repairs := repairs + fixes;
      ProgressStep(img, pos, ck, geometry, segments, replay, prev, maxSeq);
      if Discarded(img, pos) {
        if Required(img, s.index, ck) {
          RequiredReached(img, pos, ck, geometry);
          assert false;
        }
        continue;
      }
      if Required(img, s.index, ck) {
        RequiredReached(img, pos, ck, geometry);
        requiredSeen := true;
      }
      replay := replay + Uncovered(s, ck);
      prev := Some(LastSequence(Info(s)));
      maxSeq := Max(maxSeq, LastSequence(Info(s)));
      segments := segments + [Info(s)];
    }
  }

  /** One of the first `pos` segments is the one the proof names. */
  ghost predicate Names(img: JImage, pos: nat)
    requires pos <= |img.segs|
  {
    exists p :: 0 <= p < pos && img.segs[p].index == img.proof.index
  }

  /** Cell `j` is the segment's record number `j`. */
  predicate Numbers(s: SegImage, j: nat)
    requires j < |s.cells|
  {
    s.cells[j].Rec? && s.cells[j].record.sequence == s.base + j
  }

  /** What acceptance says about a segment, cell by cell. Only the last segment may
      be unfinished or end in anything but records, and never inside what the mark
      or the proof vouches for; segments join without a gap above the checkpoint. */
  lemma AcceptedMeans(img: JImage, ck: nat, geometry: Geometry, pos: nat)
    requires Acceptable(img, ck, geometry) && pos < |img.segs|
    ensures
      var s := img.segs[pos];
      && (pos + 1 < |img.segs| ==> s.header && forall j :: 0 <= j < |s.cells| ==> Numbers(s, j))
      && (img.mark.Some? && img.mark.value.index == s.index ==>
            s.header && img.mark.value.cells <= |s.cells| && forall j :: 0 <= j < img.mark.value.cells ==> Numbers(s, j))
      && (img.proof.sequence > 0 && img.proof.index == s.index ==>
            s.header && img.proof.cells <= |s.cells| && forall j :: 0 <= j < img.proof.cells ==> Numbers(s, j))
      && (s.header && pos == 0 ==> s.base <= ck + 1)
      && (s.header && pos > 0 ==>
            var end := img.segs[pos - 1].base + |img.segs[pos - 1].cells|;
            s.base == (if end == 0 then 1 else end) || (end <= ck + 1 && s.base <= ck + 1))
  {
    hide Required;
    assert PositionOk(img, pos, ck, geometry);
    if pos > 0 {
      assert PositionOk(img, pos - 1, ck, geometry);
    }
  }

  /** A record behind nothing but records in sequence is one itself, and fits. */
  lemma AcceptedRecord(img: JImage, ck: nat, geometry: Geometry, pos: nat, j: nat)
    requires Acceptable(img, ck, geometry) && pos < |img.segs|
    requires img.segs[pos].header && j < |img.segs[pos].cells| && img.segs[pos].cells[j].Rec?
    requires forall i :: 0 <= i < j ==> Numbers(img.segs[pos], i)
    ensures
      var s, r := img.segs[pos], img.segs[pos].cells[j].record;
      r.sequence == s.base + j < U64_MAX && r.unit < geometry.units && |r.payload| <= geometry.maxPayload
  {
    hide Required;
    var s := img.segs[pos];
    assert PositionOk(img, pos, ck, geometry);
    assert Count(s) < j ==> Numbers(s, Count(s));
  }

  /** A journal that lost a record its proof demands is refused, whatever else
      became of it. */
  lemma LossIsRefused(img: JImage, ck: nat, geometry: Geometry, q: nat)
    requires ck < q <= img.proof.sequence
    requires forall r :: OnImage(img, r) ==> r.sequence != q
    ensures !Acceptable(img, ck, geometry)
  {
    if Acceptable(img, ck, geometry) {
      hide PositionOk, OnImage, Discarded, Uncovered, LastSequence, Info, Progress;
      var segments: seq<SegInfo>, replay: seq<Record>, prev: Option<nat>, maxSeq: nat := [], [], None, 0;
      ProgressStart(img, ck);
      for pos := 0 to |img.segs|
        invariant Progress(img, pos, ck, segments, replay, prev, maxSeq)
        invariant Names(img, pos) ==> maxSeq >= img.proof.sequence
      {
        ProgressStep(img, pos, ck, geometry, segments, replay, prev, maxSeq);
        if img.segs[pos].index == img.proof.index {
          RequiredReached(img, pos, ck, geometry);
        }
        if !Discarded(img, pos) {
          var s := img.segs[pos];
          replay, prev, segments := replay + Uncovered(s, ck), Some(LastSequence(Info(s))), segments + [Info(s)];
          maxSeq := Max(maxSeq, LastSequence(Info(s)));
        }
      }
      ReplayHolds(img, ck, segments, replay, prev, maxSeq, q);
      assert false;
    }
  }

  lemma ReplayHolds(img: JImage, ck: nat, segments: seq<SegInfo>, replay: seq<Record>, prev: Option<nat>, maxSeq: nat, q: nat)
    requires Progress(img, |img.segs|, ck, segments, replay, prev, maxSeq) && ck < q <= maxSeq
    ensures q - ck - 1 < |replay| && OnImage(img, replay[q - ck - 1]) && replay[q - ck - 1].sequence == q
  {
    hide OnImage;
  }

  /** `scan_journal_with_proof`. Acceptance is exactly `Acceptable`; an accepted
      journal replays every record above the checkpoint once, in order. */
  method ScanJournal(img: JImage, ck: nat, geometry: Geometry) returns (r: Scanned)
    ensures r.Accepted? <==> Acceptable(img, ck, geometry)
    ensures r.Accepted? ==> (
      && r.durable >= ck
      && Gapless(r.replay, ck, r.durable)
      && FromImage(img, r.replay)
      && UncoveredRecords(r.segments, ck) == |r.replay|)
    ensures r.Accepted? ==> (
      && (forall i :: 0 <= i < |r.segments| ==> r.segments[i].index < r.nextIndex)
      && (img.mark.Some? ==> img.mark.value.index < r.nextIndex)
      && (img.proof.sequence > 0 ==> img.proof.index < r.nextIndex)
      && r.nextIndex <= U64_MAX)
    ensures r.Accepted? ==> Kept(img, r.segments) && r.repairs == AllRepairs(img, |img.segs|)
    ensures r.Accepted? ==> forall i :: 0 <= i < |r.segments| ==> LastSequence(r.segments[i]) <= r.durable
    ensures r.Accepted? && img.proof.sequence > ck ==> r.durable >= img.proof.sequence
  {
    hide PositionOk, Progress, Gapless, FromImage, UncoveredRecords, LastSequence, Kept, AllRepairs, Discarded;
    if ck >= U64_MAX {
      return Corrupt;
    }
    var ok, segments, replay, repairs, maxSeq, requiredSeen := ScanSegments(img, ck, geometry);
    if !ok {
      return Corrupt;
    }
    ProgressEnds(img, ck, segments, replay, maxSeq);
    if img.proof.sequence > ck && !requiredSeen {
      return Corrupt;
    }
    var highest := HighestIndex(segments, img.mark, img.proof);
    if highest.Some? && highest.value >= U64_MAX {
      return Corrupt;
    }
    r := Accepted(Max(ck, maxSeq), if highest.Some? then highest.value + 1 else 0, segments, replay, repairs);
  }

  /** What the scan has accumulated once `pos` segments are accepted. */
  ghost predicate Progress(img: JImage, pos: nat, ck: nat, segments: seq<SegInfo>, replay: seq<Record>,
                           prev: Option<nat>, maxSeq: nat)
    requires pos <= |img.segs|
  {
    var last := if prev.None? then 0 else prev.value;
    && (|segments| == pos || (|segments| + 1 == pos == |img.segs| && Discarded(img, pos - 1)))
    && (forall p :: 0 <= p < |segments| ==> segments[p] == Info(img.segs[p]) && !Discarded(img, p))
    && prev == (if |segments| == 0 then None else Some(LastSequence(segments[|segments| - 1])))
    && Gapless(replay, ck, last)
    && UncoveredRecords(segments, ck) == |replay|
    && Max(ck, maxSeq) == Max(ck, last)
    && (forall p :: 0 <= p < |segments| ==> LastSequence(segments[p]) <= maxSeq)
    && FromImage(img, replay)
  }

  lemma ProgressStart(img: JImage, ck: nat)
    ensures Progress(img, 0, ck, [], [], None, 0)
  {
  }

  lemma ProgressEnds(img: JImage, ck: nat, segments: seq<SegInfo>, replay: seq<Record>, maxSeq: nat)
    requires exists prev :: Progress(img, |img.segs|, ck, segments, replay, prev, maxSeq)
    ensures Gapless(replay, ck, Max(ck, maxSeq)) && FromImage(img, replay) && Kept(img, segments)
    ensures UncoveredRecords(segments, ck) == |replay| && |segments| <= |img.segs|
    ensures forall i :: 0 <= i < |segments| ==> LastSequence(segments[i]) <= maxSeq && segments[i].index == img.segs[i].index
    ensures forall i :: 0 <= i < |segments| ==> !Discarded(img, i)
    ensures forall p :: |segments| <= p < |img.segs| ==> Discarded(img, p)
  {
    hide OnImage, Discarded;
  }

  lemma ProgressPrev(img: JImage, pos: nat, ck: nat, segments: seq<SegInfo>, replay: seq<Record>,
                     prev: Option<nat>, maxSeq: nat)
    requires pos < |img.segs| && Progress(img, pos, ck, segments, replay, prev, maxSeq)
    ensures prev == if pos == 0 then None else Some(LastSequence(Info(img.segs[pos - 1])))
  {
  }

  lemma ProgressStep(img: JImage, pos: nat, ck: nat, geometry: Geometry, segments: seq<SegInfo>,
                     replay: seq<Record>, prev: Option<nat>, maxSeq: nat)
    requires pos < |img.segs| && PositionOk(img, pos, ck, geometry)
    requires Progress(img, pos, ck, segments, replay, prev, maxSeq)
    ensures Discarded(img, pos) ==> Progress(img, pos + 1, ck, segments, replay, prev, maxSeq)
    ensures !Discarded(img, pos) ==>
      var s := img.segs[pos];
      var last := LastSequence(Info(s));
      Progress(img, pos + 1, ck, segments + [Info(s)], replay + Uncovered(s, ck), Some(last), Max(maxSeq, last))
  {
    hide BodyOk, UncoveredCount, Uncovered, Count, OnImage, Marked;
    if !Discarded(img, pos) {
      var s := img.segs[pos];
      var grown := segments + [Info(s)];
      assert grown[..|grown| - 1] == segments;
      ReplayGrows(img, pos, ck, replay, if prev.None? then 0 else prev.value);
      FromSegment(img, pos, ck);
    }
  }

  /** A segment the proof names is kept, and reaches the proven record. */
  lemma RequiredReached(img: JImage, pos: nat, ck: nat, geometry: Geometry)
    requires pos < |img.segs| && PositionOk(img, pos, ck, geometry)
    requires Required(img, img.segs[pos].index, ck)
    ensures !Discarded(img, pos) && LastSequence(Info(img.segs[pos])) >= img.proof.sequence
  {
  }

  /** Which segments survive: all but an unfinished last one, each at its valid length. */
  ghost predicate Kept(img: JImage, segments: seq<SegInfo>) {
    && (|segments| == |img.segs| || (|segments| + 1 == |img.segs| && Discarded(img, |segments|)))
    && forall p :: 0 <= p < |segments| ==> segments[p] == Info(img.segs[p]) && !Discarded(img, p)
  }

  lemma FromSegment(img: JImage, pos: nat, ck: nat)
    requires pos < |img.segs| && img.segs[pos].header
    ensures FromImage(img, Uncovered(img.segs[pos], ck))
  {
    var s := img.segs[pos];
    var from := Covered(s.base, Count(s), ck);
    var more := Uncovered(s, ck);
    forall i | 0 <= i < |more|
      ensures OnImage(img, more[i])
    {
      assert s.cells[from + i] == Rec(more[i]);
      assert img.segs[pos].cells[from + i] == Rec(more[i]);
    }
  }
}
