/** Segment bodies as bytes and as cells.

  Crashes and recovery are modelled on cells: a record, or bytes that frame none.
  Here a body of bytes is related to the cells it stands for, and the streaming
  scan of the bytes is shown to decide exactly what the scan of the cells decides.
 */
module Bodies {
  import opened Records
  import opened SegmentFile
  import opened JournalScan
  import opened Framing
  import opened ByteScan

  /** The records before the first cell that does not continue them. */
  function Leading(s: SegImage): seq<Record> {
    RecordsOf(s.cells, 0, Count(s))
  }

  /** Bytes that frame no record here, nor one that belongs elsewhere. */
  predicate Junky(body: Bytes, at: nat, sequence: nat, crc: Crc)
    requires at <= |body|
  {
    && at < |body|
    && Frame(body, at, sequence, crc).None?
    && match DecodeHeader(HeaderBytes(body, at), crc)
       case None => true
       case Some(h) => h.len <= MAX_PAYLOAD && h.sequence == sequence
  }

  /** The bytes `body` stand for the cells of `s`. What follows the first cell that does
      not continue the run is not looked at. */
  ghost predicate Pictures(body: Bytes, s: SegImage, crc: Crc) {
    var rs := Leading(s);
    && (forall i :: 0 <= i < |rs| ==> Encodable(rs[i]))
    && EncodeAll(rs, crc) <= body
    && |EncodeAll(rs, crc)| == Size(rs)
    && (Count(s) == |s.cells| ==> body == EncodeAll(rs, crc))
    && (Count(s) < |s.cells| && s.cells[Count(s)] == Junk ==> Junky(body, Size(rs), s.base + Count(s), crc))
    && (Count(s) < |s.cells| && s.cells[Count(s)].Rec? ==>
          Encodable(s.cells[Count(s)].record) && EncodeRecord(s.cells[Count(s)].record, crc) <= body[Size(rs)..])
  }

  /** A byte length that stands for `n` cells. */
  ghost predicate Reaches(body: Bytes, s: SegImage, n: nat, bytes: nat) {
    var rs := Leading(s);
    if n <= |rs| then bytes == Size(rs[..n]) else Size(rs) < bytes <= |body|
  }

  /** The boundary the proof requires, in bytes. */
  ghost predicate Demands(body: Bytes, img: JImage, s: SegImage, ck: nat, boundary: Option<(nat, nat)>) {
    if Required(img, s.index, ck)
    then boundary.Some? && boundary.value.0 == img.proof.sequence && Reaches(body, s, img.proof.cells, boundary.value.1)
    else boundary.None?
  }

  /** The streaming scan accepts a body if and only if the scan of its cells does; it
      then counts the same records and hands on the same ones for replay. */
  lemma ScanAgrees(img: JImage, pos: nat, ck: nat, geometry: Geometry, body: Bytes, durableLen: nat,
                   boundary: Option<(nat, nat)>, crc: Crc, r: BodyScan)
    requires CrcOk(crc) && pos < |img.segs| && Pictures(body, img.segs[pos], crc)
    requires Reaches(body, img.segs[pos], DurableLen(img, pos), durableLen) && Demands(body, img, img.segs[pos], ck, boundary)
    requires Size(ValidRecords(body, 0, img.segs[pos].base, crc)) <= |body|
    requires Reports(r, ValidRecords(body, 0, img.segs[pos].base, crc), body, img.segs[pos].base, durableLen, boundary, geometry, ck, crc)
    ensures
      var s := img.segs[pos];
      && (BodyOk(img, pos, ck, geometry) <==> s.base + Count(s) <= U64_MAX && r.Read? && !r.outcome.Damaged?)
      && (r.Read? ==> r.count == Count(s) && r.valid == Size(Leading(s)) && r.accepted == Uncovered(s, ck))
  {
    hide ValidRecords, Size, Frame, EncodeAll, DecodeHeader, RecordsOf, AboveCheckpoint;
    var s := img.segs[pos];
    var rs := Leading(s);
    PictureScans(body, s, crc);
    LeadingIs(s);
    AboveIs(s, ck);
    TailIs(body, s, durableLen, DurableLen(img, pos), crc);
    if Required(img, s.index, ck) {
      DemandIs(body, img, s, ck, boundary.value);
    }
  }

  lemma LeadingIs(s: SegImage)
    ensures |Leading(s)| == Count(s)
    ensures forall i :: 0 <= i < Count(s) ==> s.cells[i].Rec? && Leading(s)[i] == s.cells[i].record && Leading(s)[i].sequence == s.base + i
  {
  }

  lemma PictureScans(body: Bytes, s: SegImage, crc: Crc)
    requires CrcOk(crc) && Pictures(body, s, crc)
    ensures ValidRecords(body, 0, s.base, crc) == Leading(s) && Size(Leading(s)) <= |body|
  {
    hide ValidRecords, Frame, EncodeAll, EncodeRecord, Size, DecodeHeader;
    var rs := Leading(s);
    LeadingIs(s);
    var tail := body[Size(rs)..];
    assert body == [] + EncodeAll(rs, crc) + tail;
    ScanGoesOn([], rs, tail, s.base, crc);
    TailFramesNone(body, s, crc);
    RunEnds(body, Size(rs), s.base + |rs|, crc);
    assert rs + [] == rs;
  }

  lemma TailFramesNone(body: Bytes, s: SegImage, crc: Crc)
    requires CrcOk(crc) && Pictures(body, s, crc)
    ensures Size(Leading(s)) <= |body| && Frame(body, Size(Leading(s)), s.base + Count(s), crc).None?
    ensures Count(s) < |s.cells| && s.cells[Count(s)].Rec? ==>
      && Size(Leading(s)) < |body|
      && DecodeHeader(HeaderBytes(body, Size(Leading(s))), crc).Some?
      && DecodeHeader(HeaderBytes(body, Size(Leading(s))), crc).value.sequence != s.base + Count(s)
      && DecodeHeader(HeaderBytes(body, Size(Leading(s))), crc).value.len <= MAX_PAYLOAD
  {
    hide EncodeAll, Size, DecodeHeader, EncodeHeader;
    var rs := Leading(s);
    var at := Size(rs);
    if Count(s) == |s.cells| {
      assert HeaderBytes(body, at) == [];
      NoHeader(crc);
    } else if s.cells[Count(s)].Rec? {
      var w := s.cells[Count(s)].record;
      var h := Header(w.sequence, w.unit, |w.payload|, crc(w.payload));
      assert EncodeRecord(w, crc)[..RECORD_HEADER_SIZE] == EncodeHeader(h, crc);
      assert HeaderBytes(body, at) == body[at..][..RECORD_HEADER_SIZE] == EncodeHeader(h, crc);
      HeaderRoundTrip(h, crc);
    }
  }

  /** The outcome says damage exactly where the cells do. */
  lemma TailIs(body: Bytes, s: SegImage, durableLen: nat, n: nat, crc: Crc)
    requires CrcOk(crc) && Pictures(body, s, crc) && Reaches(body, s, n, durableLen) && Size(Leading(s)) <= |body|
    requires n <= |s.cells| || Count(s) < |s.cells|
    ensures s.base + Count(s) <= U64_MAX ==> !Overflows(body, Size(Leading(s)), s.base + Count(s), crc)
    ensures !Rest(body, Size(Leading(s)), s.base + Count(s), durableLen, crc).Damaged? <==>
      (Count(s) < |s.cells| ==> s.cells[Count(s)] == Junk) && n <= Count(s)
  {
    hide EncodeAll, DecodeHeader, Frame;
    LeadingIs(s);
    TailFramesNone(body, s, crc);
    PrefixSmaller(Leading(s), if n <= Count(s) then n else 0, Count(s));
    assert Leading(s)[..Count(s)] == Leading(s);
  }

  lemma {:induction false} PrefixSmaller(rs: seq<Record>, i: nat, j: nat)
    requires i <= j <= |rs|
    ensures Size(rs[..i]) <= Size(rs[..j]) && (i < j ==> Size(rs[..i]) < Size(rs[..j]))
    decreases j
  {
    if i < j {
      PrefixSmaller(rs, i, j - 1);
      assert rs[..j] == rs[..j - 1] + [rs[j - 1]];
      SizeAppend(rs[..j - 1], rs[j - 1]);
    }
  }

  lemma DemandIs(body: Bytes, img: JImage, s: SegImage, ck: nat, boundary: (nat, nat))
    requires boundary.0 == img.proof.sequence && Reaches(body, s, img.proof.cells, boundary.1)
    ensures EndsAt(Leading(s), s.base, boundary) <==>
      s.base <= img.proof.sequence < s.base + Count(s) && img.proof.sequence + 1 == s.base + img.proof.cells
  {
    hide Size;
    LeadingIs(s);
    var rs := Leading(s);
    if s.base <= boundary.0 < s.base + Count(s) {
      var n := boundary.0 - s.base + 1;
      assert rs[..|rs|] == rs;
      PrefixSmaller(rs, n, |rs|);
      if img.proof.cells <= |rs| {
        if img.proof.cells < n { PrefixSmaller(rs, img.proof.cells, n); }
        if n < img.proof.cells { PrefixSmaller(rs, n, img.proof.cells); }
      }
    }
  }

  lemma AboveIs(s: SegImage, ck: nat)
    ensures AboveCheckpoint(Leading(s), ck) == Uncovered(s, ck)
  {
    LeadingIs(s);
    var rs := Leading(s);
    AboveFrom(rs, s.base, ck);
    var n := Covered(s.base, Count(s), ck);
    assert rs[n..] == Uncovered(s, ck);
  }

  lemma {:induction false} AboveFrom(rs: seq<Record>, base: nat, ck: nat)
    requires forall i :: 0 <= i < |rs| ==> rs[i].sequence == base + i
    ensures AboveCheckpoint(rs, ck) == rs[Covered(base, |rs|, ck)..]
    decreases |rs|
  {
    hide AboveCheckpoint, Size;
    if rs == [] {
      AboveNone(ck);
    } else {
      var head, last := rs[..|rs| - 1], rs[|rs| - 1];
      AboveFrom(head, base, ck);
      Longer(head, last, ck);
      assert rs == head + [last];
      var n, m := Covered(base, |rs|, ck), Covered(base, |head|, ck);
      if last.sequence > ck {
        assert n == m <= |head|;
        assert rs[n..] == head[m..] + [last];
      } else {
        assert n == |rs| && m == |head|;
      }
    }
  }

  lemma AboveNone(ck: nat)
    ensures AboveCheckpoint([], ck) == []
  {
  }
}
