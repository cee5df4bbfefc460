/** The streaming scan of one segment's body.

  It accepts the longest run of valid records and then decides what the rest is:
  nothing or zeroes, a torn tail, or damage. Damage before `durableLen` is never
  taken for a torn tail.
 */
module ByteScan {
  import opened Records
  import opened JournalScan
  import opened Framing

  const READ_CHUNK: nat := 64 * 1024

  datatype Outcome = Clean | TornTail(at: nat) | Damaged(at: nat)

  /** The whole scan, or the refusal of a record that cannot belong to the volume. */
  datatype BodyScan = Refused | Read(count: nat, valid: nat, outcome: Outcome, accepted: seq<Record>)

  predicate AllZero(b: Bytes) {
    forall i :: 0 <= i < |b| ==> b[i] == 0
  }

  /** `range_is_zero`, a buffer at a time. */
  method RangeIsZero(body: Bytes, start: nat, end: nat) returns (zero: bool)
    requires start <= end <= |body|
    ensures zero <==> AllZero(body[start..end])
  {
    var offset := start;
    zero := true;
    while offset < end
      invariant start <= offset <= end
      invariant zero <==> AllZero(body[start..offset])
      decreases end - offset
    {
      var count := if end - offset <= READ_CHUNK then end - offset else READ_CHUNK;
      var buffer := body[offset..offset + count];
      assert body[start..offset + count] == body[start..offset] + buffer;
      if exists i :: 0 <= i < |buffer| && buffer[i] != 0 {
        zero := false;
      }
      ZeroParts(body[start..offset], buffer);
      offset := offset + count;
    }
  }

  lemma ZeroParts(a: Bytes, b: Bytes)
    ensures AllZero(a + b) <==> AllZero(a) && AllZero(b)
  {
    if AllZero(a + b) {
      forall i | 0 <= i < |a| ensures a[i] == 0 { assert (a + b)[i] == a[i]; }
      forall i | 0 <= i < |b| ensures b[i] == 0 { assert (a + b)[|a| + i] == b[i]; }
    }
  }

  /** Read a payload in chunks, as the checksum sees it. */
  method ReadPayload(body: Bytes, start: nat, len: nat) returns (payload: Bytes)
    requires start + len <= |body|
    ensures payload == body[start..start + len]
  {
    payload := [];
    while |payload| < len
      invariant |payload| <= len && payload == body[start..start + |payload|]
      decreases len - |payload|
    {
      var count := if len - |payload| <= READ_CHUNK then len - |payload| else READ_CHUNK;
      payload := payload + body[start + |payload|..start + |payload| + count];
    }
  }

  /** What the bytes behind the valid records are. */
  function Rest(body: Bytes, at: nat, sequence: nat, durableLen: nat, crc: Crc): Outcome
    requires at <= |body|
  {
    if at == |body| then Clean
    else
      match DecodeHeader(HeaderBytes(body, at), crc)
      case None =>
        if at < durableLen then Damaged(at) else if AllZero(body[at..]) then Clean else TornTail(at)
      case Some(h) =>
        if h.len > MAX_PAYLOAD || h.sequence != sequence then Damaged(at)
        else if at < durableLen then Damaged(at)
        else TornTail(at)
  }

  predicate AllFit(rs: seq<Record>, geometry: Geometry) {
    forall i :: 0 <= i < |rs| ==> Fits(rs[i], geometry)
  }

  /** A record of the run ends at exactly this byte. */
  ghost predicate EndsAt(rs: seq<Record>, first: nat, boundary: (nat, nat)) {
    && first <= boundary.0 < first + |rs|
    && Size(rs[..boundary.0 - first + 1]) == boundary.1
  }

  function AboveCheckpoint(rs: seq<Record>, checkpoint: nat): seq<Record> {
    if rs == [] then []
    else
      var head := AboveCheckpoint(rs[..|rs| - 1], checkpoint);
      if rs[|rs| - 1].sequence > checkpoint then head + [rs[|rs| - 1]] else head
  }

  /** A further record would have no representable sequence. */
  predicate Overflows(body: Bytes, at: nat, sequence: nat, crc: Crc)
    requires at <= |body|
  {
    sequence > U64_MAX && at < |body| &&
    match DecodeHeader(HeaderBytes(body, at), crc)
    case None => false
    case Some(h) => h.len <= MAX_PAYLOAD
  }

  /** What the scan of a body with these valid records is allowed to report. */
  ghost predicate Reports(r: BodyScan, rs: seq<Record>, body: Bytes, first: nat, durableLen: nat, boundary: Option<(nat, nat)>,
                          geometry: Geometry, checkpoint: nat, crc: Crc)
    requires Size(rs) <= |body|
  {
    if AllFit(rs, geometry) && !Overflows(body, Size(rs), first + |rs|, crc) && (boundary.Some? ==> EndsAt(rs, first, boundary.value))
    then r == Read(|rs|, Size(rs), Rest(body, Size(rs), first + |rs|, durableLen, crc), AboveCheckpoint(rs, checkpoint))
    else r == Refused
  }

  /** `SegmentScanner::scan`: the records it counts are the longest valid run, it refuses
      exactly the runs that cannot belong to the volume or miss the required boundary,
      and nothing before `durableLen` is ever cut. */
  method Scan(body: Bytes, first: nat, durableLen: nat, boundary: Option<(nat, nat)>, geometry: Geometry, checkpoint: nat, crc: Crc)
      returns (r: BodyScan)
    requires durableLen <= |body|
    ensures Size(ValidRecords(body, 0, first, crc)) <= |body|
    ensures Reports(r, ValidRecords(body, 0, first, crc), body, first, durableLen, boundary, geometry, checkpoint, crc)
    ensures r.Read? && !r.outcome.Damaged? ==> r.valid >= durableLen
  {
    hide Frame, ValidRecords, Size, AboveCheckpoint, Reports, Overflows;
    var position: nat, count: nat, accepted: seq<Record>, seen := 0, 0, [], false;
    ghost var rs: seq<Record> := [];
    ghost var all := ValidRecords(body, 0, first, crc);
    Start(body, first, checkpoint, crc);
    while true
      invariant position <= |body| && count == |rs| && position == Size(rs)
      invariant all == rs + ValidRecords(body, position, first + count, crc)
      invariant AllFit(rs, geometry) && accepted == AboveCheckpoint(rs, checkpoint)
      invariant seen ==> boundary.Some? && EndsAt(rs, first, boundary.value)
      invariant boundary.Some? && first <= boundary.value.0 < first + count ==> seen
      decreases |body| - position
    {
      var outcome, record := Examine(body, position, first + count, durableLen, crc);
      if record.None? {
        RunEnds(body, position, first + count, crc);
        assert rs + [] == rs;
        if outcome.None? || (boundary.Some? && !seen) {
          r := Refused;
        } else {
          r := Read(count, position, outcome.value, accepted);
        }
        ReportEnd(r, rs, body, first, durableLen, boundary, seen, geometry, checkpoint, crc, outcome);
        return;
      }
      RunGoesOn(body, position, first + count, crc, all, rs);
      var end := position + RECORD_HEADER_SIZE + |record.value.payload|;
      ghost var more := rs + [record.value];
      Longer(rs, record.value, checkpoint);
      if !Fits(record.value, geometry) {
        Misfit(all, |rs|, geometry);
        r := Refused;
        ReportRefused(all, body, first, durableLen, boundary, geometry, checkpoint, crc);
        return;
      }
      if boundary.Some? && boundary.value.0 == first + count {
        if end != boundary.value.1 {
          WrongEnd(all, more, first, boundary.value);
          r := Refused;
          ReportRefused(all, body, first, durableLen, boundary, geometry, checkpoint, crc);
          return;
        }
        seen := true;
      }
      if boundary.Some? { EndStays(rs, more, first, boundary.value); }
      if first + count > checkpoint {
        accepted := accepted + [record.value];
      }
      rs, position, count := more, end, count + 1;
    }
  }

  /** One step of the scan: a valid record, the outcome, or neither when the sequence
      would overflow. */
  method Examine(body: Bytes, at: nat, sequence: nat, durableLen: nat, crc: Crc) returns (outcome: Option<Outcome>, record: Option<Record>)
    requires at <= |body|
    ensures record == Frame(body, at, sequence, crc) || (outcome.None? && Overflows(body, at, sequence, crc))
    ensures record.None? ==> (outcome.None? <==> Overflows(body, at, sequence, crc))
    ensures record.None? && outcome.Some? ==> outcome.value == Rest(body, at, sequence, durableLen, crc)
    ensures record.Some? ==> !Overflows(body, at, sequence, crc)
  {
    hide DecodeHeader;
    outcome, record := None, None;
    if at == |body| {
      assert HeaderBytes(body, at) == [];
      NoHeader(crc);
      return Some(Clean), None;
    }
    var header := DecodeHeader(HeaderBytes(body, at), crc);
    if header.None? {
      var zero := RangeIsZero(body, at, |body|);
      assert body[at..|body|] == body[at..];
      return Some(if at < durableLen then Damaged(at) else if zero then Clean else TornTail(at)), None;
    }
    var h := header.value;
    if h.len > MAX_PAYLOAD {
      return Some(Damaged(at)), None;
    }
    if sequence > U64_MAX {
      return;
    }
    if h.sequence != sequence {
      return Some(Damaged(at)), None;
    }
    HeaderFits(body, at, crc);
    var start := at + RECORD_HEADER_SIZE;
    if h.len > |body| - start {
      return Some(if at < durableLen then Damaged(at) else TornTail(at)), None;
    }
    var payload := ReadPayload(body, start, h.len);
    if crc(payload) != h.crc {
      return Some(if at < durableLen then Damaged(at) else TornTail(at)), None;
    }
    record := Some(Record(sequence, h.unit, payload));
  }

  lemma NoHeader(crc: Crc)
    ensures DecodeHeader([], crc) == None
  {
  }

  lemma HeaderFits(body: Bytes, at: nat, crc: Crc)
    requires at <= |body| && DecodeHeader(HeaderBytes(body, at), crc).Some?
    ensures at + RECORD_HEADER_SIZE <= |body|
  {
  }

  lemma Start(body: Bytes, first: nat, checkpoint: nat, crc: Crc)
    ensures Size([]) == 0 && AboveCheckpoint([], checkpoint) == []
    ensures [] + ValidRecords(body, 0, first, crc) == ValidRecords(body, 0, first, crc)
    ensures Size(ValidRecords(body, 0, first, crc)) <= |body|
  {
    ValidSize(body, 0, first, crc);
  }

  lemma RunEnds(body: Bytes, at: nat, sequence: nat, crc: Crc)
    requires at <= |body| && (Frame(body, at, sequence, crc).None? || Overflows(body, at, sequence, crc))
    ensures ValidRecords(body, at, sequence, crc) == []
  {
    if Overflows(body, at, sequence, crc) {
      DecodedSequence(HeaderBytes(body, at), crc);
    }
  }

  /** A decoded sequence is a 64-bit number. */
  lemma DecodedSequence(b: Bytes, crc: Crc)
    requires DecodeHeader(b, crc).Some?
    ensures DecodeHeader(b, crc).value.sequence <= U64_MAX
  {
    hide Pow256;
    FromLeBound(b[4..12]);
    Widths();
  }

  lemma {:induction false} FromLeBound(b: Bytes)
    ensures FromLe(b) < Pow256(|b|)
  {
    if b != [] { FromLeBound(b[1..]); }
  }

  lemma RunGoesOn(body: Bytes, at: nat, sequence: nat, crc: Crc, all: seq<Record>, rs: seq<Record>)
    requires at <= |body| && Frame(body, at, sequence, crc).Some?
    requires all == rs + ValidRecords(body, at, sequence, crc)
    ensures
      var r := Frame(body, at, sequence, crc).value;
      && at + RECORD_HEADER_SIZE + |r.payload| <= |body| && r.sequence == sequence
      && all == rs + [r] + ValidRecords(body, at + RECORD_HEADER_SIZE + |r.payload|, sequence + 1, crc)
  {
    hide Frame, ValidRecords;
    ValidStep(body, at, sequence, crc);
  }

  lemma {:induction false} SizeAppend(rs: seq<Record>, r: Record)
    ensures Size(rs + [r]) == Size(rs) + RECORD_HEADER_SIZE + |r.payload|
  {
    if rs != [] {
      SizeAppend(rs[1..], r);
      assert (rs + [r])[1..] == rs[1..] + [r];
    } else {
      assert ([] + [r])[1..] == [];
      assert rs + [r] == [r];
    }
  }

  lemma Longer(rs: seq<Record>, r: Record, checkpoint: nat)
    ensures Size(rs + [r]) == Size(rs) + RECORD_HEADER_SIZE + |r.payload|
    ensures AboveCheckpoint(rs + [r], checkpoint) ==
      if r.sequence > checkpoint then AboveCheckpoint(rs, checkpoint) + [r] else AboveCheckpoint(rs, checkpoint)
  {
    SizeAppend(rs, r);
    assert (rs + [r])[..|rs|] == rs;
  }

  lemma Misfit(all: seq<Record>, i: nat, geometry: Geometry)
    requires i < |all| && !Fits(all[i], geometry)
    ensures !AllFit(all, geometry)
  {
  }

  lemma WrongEnd(all: seq<Record>, more: seq<Record>, first: nat, boundary: (nat, nat))
    requires more <= all && |more| > 0 && boundary.0 == first + |more| - 1 && Size(more) != boundary.1
    ensures !EndsAt(all, first, boundary)
  {
    assert all[..boundary.0 - first + 1] == more;
  }

  lemma EndStays(rs: seq<Record>, more: seq<Record>, first: nat, boundary: (nat, nat))
    requires |more| == |rs| + 1 && rs <= more
    ensures EndsAt(rs, first, boundary) ==> EndsAt(more, first, boundary)
    ensures boundary.0 == first + |rs| && Size(more) == boundary.1 ==> EndsAt(more, first, boundary)
  {
    if EndsAt(rs, first, boundary) {
      assert more[..boundary.0 - first + 1] == rs[..boundary.0 - first + 1];
    }
    assert more[..|more|] == more;
  }

  lemma ReportRefused(all: seq<Record>, body: Bytes, first: nat, durableLen: nat, boundary: Option<(nat, nat)>,
                      geometry: Geometry, checkpoint: nat, crc: Crc)
    requires Size(all) <= |body| && (!AllFit(all, geometry) || (boundary.Some? && !EndsAt(all, first, boundary.value)))
    ensures Reports(Refused, all, body, first, durableLen, boundary, geometry, checkpoint, crc)
  {
    hide Size, EndsAt, AboveCheckpoint, Rest, Overflows;
  }

  lemma ReportEnd(r: BodyScan, rs: seq<Record>, body: Bytes, first: nat, durableLen: nat, boundary: Option<(nat, nat)>, seen: bool,
                  geometry: Geometry, checkpoint: nat, crc: Crc, outcome: Option<Outcome>)
    requires Size(rs) <= |body| && AllFit(rs, geometry) && durableLen <= |body|
    requires seen ==> boundary.Some? && EndsAt(rs, first, boundary.value)
    requires boundary.Some? && first <= boundary.value.0 < first + |rs| ==> seen
    requires outcome.None? <==> Overflows(body, Size(rs), first + |rs|, crc)
    requires outcome.Some? ==> outcome.value == Rest(body, Size(rs), first + |rs|, durableLen, crc)
    requires r == if outcome.None? || (boundary.Some? && !seen) then Refused
                  else Read(|rs|, Size(rs), outcome.value, AboveCheckpoint(rs, checkpoint))
    ensures Reports(r, rs, body, first, durableLen, boundary, geometry, checkpoint, crc)
    ensures r.Read? && !r.outcome.Damaged? ==> r.valid >= durableLen
  {
    hide Size, AboveCheckpoint, Overflows, DecodeHeader;
  }

  /** Cut at the end of its n-th record, a body scans to exactly the first n records. */
  lemma {:induction false} CutScan(body: Bytes, at: nat, sequence: nat, n: nat, crc: Crc)
    requires at <= |body| && n <= |ValidRecords(body, at, sequence, crc)|
    ensures
      var rs := ValidRecords(body, at, sequence, crc);
      var end := at + Size(rs[..n]);
      end <= |body| && ValidRecords(body[..end], at, sequence, crc) == rs[..n]
    decreases n
  {
    hide Frame, ValidRecords;
    var rs := ValidRecords(body, at, sequence, crc);
    if n == 0 {
      NothingLeft(body[..at], sequence, crc);
    } else {
      NotEmpty(body, at, sequence, crc);
      ValidStep(body, at, sequence, crc);
      var r := Frame(body, at, sequence, crc).value;
      var next := at + RECORD_HEADER_SIZE + |r.payload|;
      CutScan(body, next, sequence + 1, n - 1, crc);
      var rest := ValidRecords(body, next, sequence + 1, crc);
      assert rs[..n] == [r] + rest[..n - 1] && ([r] + rest[..n - 1])[1..] == rest[..n - 1];
      var end := next + Size(rest[..n - 1]);
      CutFrame(body, at, sequence, end, crc);
      ValidStep(body[..end], at, sequence, crc);
    }
  }

  lemma NotEmpty(body: Bytes, at: nat, sequence: nat, crc: Crc)
    requires at <= |body| && ValidRecords(body, at, sequence, crc) != []
    ensures Frame(body, at, sequence, crc).Some?
  {
    hide Frame;
  }

  lemma CutFrame(body: Bytes, at: nat, sequence: nat, end: nat, crc: Crc)
    requires at <= |body| && Frame(body, at, sequence, crc).Some?
    requires at + RECORD_HEADER_SIZE + |Frame(body, at, sequence, crc).value.payload| <= end <= |body|
    ensures Frame(body[..end], at, sequence, crc) == Frame(body, at, sequence, crc)
  {
    hide DecodeHeader;
    var r := Frame(body, at, sequence, crc).value;
    HeaderFits(body, at, crc);
    assert HeaderBytes(body[..end], at) == HeaderBytes(body, at);
    var start := at + RECORD_HEADER_SIZE;
    assert body[..end][start..start + |r.payload|] == body[start..start + |r.payload|];
  }

  /** What an accepted boundary is worth: cut at exactly that byte, the body scans
      cleanly, and its last record is the one required. */
  lemma BoundaryHolds(r: BodyScan, body: Bytes, first: nat, durableLen: nat, boundary: (nat, nat),
                      geometry: Geometry, checkpoint: nat, crc: Crc)
    requires Size(ValidRecords(body, 0, first, crc)) <= |body|
    requires Reports(r, ValidRecords(body, 0, first, crc), body, first, durableLen, Some(boundary), geometry, checkpoint, crc)
    requires r.Read?
    ensures boundary.1 <= |body|
    ensures
      var cut := ValidRecords(body[..boundary.1], 0, first, crc);
      cut != [] && cut[|cut| - 1].sequence == boundary.0 && Size(cut) == boundary.1
  {
    hide ValidRecords, Size, Rest, AboveCheckpoint, Overflows;
    var rs := ValidRecords(body, 0, first, crc);
    var n := boundary.0 - first + 1;
    assert EndsAt(rs, first, boundary);
    CutScan(body, 0, first, n, crc);
    ValidSize(body, 0, first, crc);
    assert rs[..n][n - 1].sequence == boundary.0;
  }
}
