/** Journal records as bytes: a 32-byte header, then the payload.

  The header carries magic, sequence, unit, payload length and payload checksum,
  little-endian, and its own checksum. The checksum is any 32-bit function of the
  bytes; nothing here needs to know which.
 */
module Framing {
  import opened Records

  const RECORD_HEADER_SIZE: nat := 32
  const MAX_PAYLOAD: nat := 16 * 0x10_0000
  const MAGIC: Bytes := [0x4D, 0x4A, 0x52, 0x31]
  const U32_MAX: nat := 0xFFFF_FFFF

  type Crc = Bytes -> nat

  ghost predicate CrcOk(crc: Crc) {
    forall b: Bytes :: crc(b) <= U32_MAX
  }

  datatype Header = Header(sequence: nat, unit: nat, len: nat, crc: nat)

  function Pow256(w: nat): nat {
    if w == 0 then 1 else 256 * Pow256(w - 1)
  }

  /** `width` bytes, least significant first. */
  function Le(n: nat, width: nat): (b: Bytes)
    ensures |b| == width
  {
    if width == 0 then [] else [n % 256] + Le(n / 256, width - 1)
  }

  function FromLe(b: Bytes): nat {
    if b == [] then 0 else b[0] + 256 * FromLe(b[1..])
  }

  lemma {:induction false} LeRoundTrip(n: nat, width: nat)
    requires n < Pow256(width)
    ensures FromLe(Le(n, width)) == n
  {
    if width > 0 {
      LeRoundTrip(n / 256, width - 1);
      assert Le(n, width)[1..] == Le(n / 256, width - 1);
    }
  }

  lemma {:induction false} FromLeRoundTrip(b: Bytes)
    ensures Le(FromLe(b), |b|) == b
  {
    if b != [] {
      FromLeRoundTrip(b[1..]);
      assert FromLe(b) % 256 == b[0] && FromLe(b) / 256 == FromLe(b[1..]);
      assert b == [b[0]] + b[1..];
    }
  }

  lemma Widths()
    ensures Pow256(4) == U32_MAX + 1 && Pow256(8) == U64_MAX + 1
  {
    assert Pow256(2) == 0x1_0000;
    assert Pow256(4) == 0x1_0000_0000;
    assert Pow256(6) == 0x1_0000_0000_0000;
  }

  function EncodeFields(h: Header): (b: Bytes)
    ensures |b| == 28
  {
    MAGIC + Le(h.sequence, 8) + Le(h.unit, 8) + Le(h.len, 4) + Le(h.crc, 4)
  }

  function EncodeHeader(h: Header, crc: Crc): (b: Bytes)
    ensures |b| == RECORD_HEADER_SIZE
  {
    EncodeFields(h) + Le(crc(EncodeFields(h)), 4)
  }

  /** `RecordHeader::decode`: size, magic and checksum must be right. */
  function DecodeHeader(b: Bytes, crc: Crc): Option<Header> {
    if |b| != RECORD_HEADER_SIZE || b[..4] != MAGIC then None
    else if FromLe(b[28..]) != crc(b[..28]) then None
    else Some(Header(FromLe(b[4..12]), FromLe(b[12..20]), FromLe(b[20..24]), FromLe(b[24..28])))
  }

  lemma FieldParts(h: Header)
    ensures
      var b := EncodeFields(h);
      && b[..4] == MAGIC && b[4..12] == Le(h.sequence, 8) && b[12..20] == Le(h.unit, 8)
      && b[20..24] == Le(h.len, 4) && b[24..28] == Le(h.crc, 4)
  {
  }

  lemma HeaderRoundTrip(h: Header, crc: Crc)
    requires CrcOk(crc) && h.sequence <= U64_MAX && h.unit <= U64_MAX && h.len <= U32_MAX && h.crc <= U32_MAX
    ensures DecodeHeader(EncodeHeader(h, crc), crc) == Some(h)
  {
    hide Le, FromLe, EncodeFields, Pow256;
    var f, b := EncodeFields(h), EncodeHeader(h, crc);
    assert b[..28] == f && b[28..] == Le(crc(f), 4);
    assert b[..4] == f[..4] && b[4..12] == f[4..12] && b[12..20] == f[12..20] && b[20..24] == f[20..24] && b[24..28] == f[24..28];
    FieldParts(h);
    Widths();
    LeRoundTrip(h.sequence, 8);
    LeRoundTrip(h.unit, 8);
    LeRoundTrip(h.len, 4);
    LeRoundTrip(h.crc, 4);
    LeRoundTrip(crc(f), 4);
  }

  /** Nothing else decodes: the bytes of a header are its encoding. */
  lemma OnlyHeadersDecode(b: Bytes, crc: Crc)
    requires DecodeHeader(b, crc).Some?
    ensures EncodeHeader(DecodeHeader(b, crc).value, crc) == b
  {
    hide Le, FromLe;
    FromLeRoundTrip(b[4..12]);
    FromLeRoundTrip(b[12..20]);
    FromLeRoundTrip(b[20..24]);
    FromLeRoundTrip(b[24..28]);
    FromLeRoundTrip(b[28..]);
    assert b[..28] == b[..4] + b[4..12] + b[12..20] + b[20..24] + b[24..28];
    assert b == b[..28] + b[28..];
  }

  function EncodeRecord(r: Record, crc: Crc): (b: Bytes)
    ensures |b| == RECORD_HEADER_SIZE + |r.payload|
  {
    EncodeHeader(Header(r.sequence, r.unit, |r.payload|, crc(r.payload)), crc) + r.payload
  }

  predicate Encodable(r: Record) {
    r.sequence <= U64_MAX && r.unit <= U64_MAX && |r.payload| <= MAX_PAYLOAD
  }

  /** The header bytes at a position, as many as there are. */
  function HeaderBytes(body: Bytes, at: nat): Bytes
    requires at <= |body|
  {
    if at + RECORD_HEADER_SIZE <= |body| then body[at..at + RECORD_HEADER_SIZE] else body[at..]
  }

  /** The record with exactly this sequence that the bytes at `at` frame, if they do. */
  function Frame(body: Bytes, at: nat, sequence: nat, crc: Crc): (r: Option<Record>)
    requires at <= |body|
    ensures r.Some? ==> r.value.sequence == sequence && at + RECORD_HEADER_SIZE + |r.value.payload| <= |body|
  {
    match DecodeHeader(HeaderBytes(body, at), crc)
    case None => None
    case Some(h) =>
      var start := at + RECORD_HEADER_SIZE;
      if h.len > MAX_PAYLOAD || h.sequence != sequence || h.len > |body| - start then None
      else if crc(body[start..start + h.len]) != h.crc then None
      else Some(Record(sequence, h.unit, body[start..start + h.len]))
  }

  /** The longest run of valid, consecutively numbered records from `at` on. */
  function ValidRecords(body: Bytes, at: nat, sequence: nat, crc: Crc): (rs: seq<Record>)
    requires at <= |body|
    decreases |body| - at
  {
    match Frame(body, at, sequence, crc)
    case None => []
    case Some(r) => [r] + ValidRecords(body, at + RECORD_HEADER_SIZE + |r.payload|, sequence + 1, crc)
  }

  /** What the scan takes for a record is the encoding of that record. */
  lemma OnlyRecordsFrame(body: Bytes, at: nat, sequence: nat, crc: Crc)
    requires at <= |body| && Frame(body, at, sequence, crc).Some?
    ensures
      var r := Frame(body, at, sequence, crc).value;
      && r.sequence == sequence && |r.payload| <= MAX_PAYLOAD
      && at + RECORD_HEADER_SIZE + |r.payload| <= |body|
      && body[at..at + RECORD_HEADER_SIZE + |r.payload|] == EncodeRecord(r, crc)
  {
    hide DecodeHeader, EncodeHeader;
    assert at + RECORD_HEADER_SIZE <= |body| by { DecodedSize(HeaderBytes(body, at), crc); }
    OnlyHeadersDecode(HeaderBytes(body, at), crc);
    var r := Frame(body, at, sequence, crc).value;
    var start, end := at + RECORD_HEADER_SIZE, at + RECORD_HEADER_SIZE + |r.payload|;
    assert body[at..end] == body[at..start] + body[start..end];
  }

  lemma DecodedSize(b: Bytes, crc: Crc)
    requires DecodeHeader(b, crc).Some?
    ensures |b| == RECORD_HEADER_SIZE
  {
  }

  function Size(rs: seq<Record>): nat {
    if rs == [] then 0 else RECORD_HEADER_SIZE + |rs[0].payload| + Size(rs[1..])
  }

  lemma {:induction false} ValidSize(body: Bytes, at: nat, sequence: nat, crc: Crc)
    requires at <= |body|
    ensures at + Size(ValidRecords(body, at, sequence, crc)) <= |body|
    ensures forall i :: 0 <= i < |ValidRecords(body, at, sequence, crc)| ==>
      ValidRecords(body, at, sequence, crc)[i].sequence == sequence + i
    decreases |body| - at
  {
    hide Frame;
    var f := Frame(body, at, sequence, crc);
    if f.Some? {
      var next := at + RECORD_HEADER_SIZE + |f.value.payload|;
      ValidSize(body, next, sequence + 1, crc);
      var rest := ValidRecords(body, next, sequence + 1, crc);
      assert ([f.value] + rest)[1..] == rest;
    }
  }

  function EncodeAll(rs: seq<Record>, crc: Crc): Bytes {
    if rs == [] then [] else EncodeRecord(rs[0], crc) + EncodeAll(rs[1..], crc)
  }

  /** The accepted run is, byte for byte, the encoding of its records. */
  lemma {:induction false} OnlyRecordsScan(body: Bytes, at: nat, sequence: nat, crc: Crc)
    requires at <= |body|
    ensures
      var rs := ValidRecords(body, at, sequence, crc);
      at + Size(rs) <= |body| && body[at..at + Size(rs)] == EncodeAll(rs, crc)
    decreases |body| - at
  {
    hide Frame, EncodeRecord;
    var f := Frame(body, at, sequence, crc);
    if f.Some? {
      var next := at + RECORD_HEADER_SIZE + |f.value.payload|;
      OnlyRecordsFrame(body, at, sequence, crc);
      OnlyRecordsScan(body, next, sequence + 1, crc);
      var rest := ValidRecords(body, next, sequence + 1, crc);
      assert ([f.value] + rest)[1..] == rest;
      assert body[at..next + Size(rest)] == body[at..next] + body[next..next + Size(rest)];
    }
  }

  /** Writing records and scanning them gives them back, whatever follows. */
  lemma {:induction false} ScanRoundTrip(head: Bytes, rs: seq<Record>, tail: Bytes, sequence: nat, crc: Crc)
    requires CrcOk(crc) && forall i :: 0 <= i < |rs| ==> Encodable(rs[i]) && rs[i].sequence == sequence + i
    ensures
      var body := head + EncodeAll(rs, crc) + tail;
      && rs <= ValidRecords(body, |head|, sequence, crc)
      && (tail == [] ==> ValidRecords(body, |head|, sequence, crc) == rs)
    decreases |rs|
  {
    hide EncodeRecord, Frame, ValidRecords;
    var body := head + EncodeAll(rs, crc) + tail;
    if rs == [] {
      NothingLeft(body, sequence, crc);
      assert tail == [] ==> body == head;
    } else {
      var one, rest := EncodeRecord(rs[0], crc), EncodeAll(rs[1..], crc);
      assert body == head + one + (rest + tail);
      FrameRoundTrip(head, rs[0], rest + tail, crc);
      assert body == (head + one) + rest + tail;
      ScanRoundTrip(head + one, rs[1..], tail, sequence + 1, crc);
      ValidStep(body, |head|, sequence, crc);
      assert rs == [rs[0]] + rs[1..];
    }
  }

  lemma {:induction false} EncodedSize(rs: seq<Record>, crc: Crc)
    ensures |EncodeAll(rs, crc)| == Size(rs)
  {
    if rs != [] { EncodedSize(rs[1..], crc); }
  }

  /** Behind the written records the scan goes on with what follows. */
  lemma {:induction false} ScanGoesOn(head: Bytes, rs: seq<Record>, tail: Bytes, sequence: nat, crc: Crc)
    requires CrcOk(crc) && forall i :: 0 <= i < |rs| ==> Encodable(rs[i]) && rs[i].sequence == sequence + i
    ensures
      var body := head + EncodeAll(rs, crc) + tail;
      && |head| + Size(rs) <= |body|
      && ValidRecords(body, |head|, sequence, crc) == rs + ValidRecords(body, |head| + Size(rs), sequence + |rs|, crc)
    decreases |rs|
  {
    hide EncodeRecord, Frame, ValidRecords;
    var body := head + EncodeAll(rs, crc) + tail;
    EncodedSize(rs, crc);
    if rs != [] {
      var one, rest := EncodeRecord(rs[0], crc), EncodeAll(rs[1..], crc);
      assert body == head + one + (rest + tail);
      FrameRoundTrip(head, rs[0], rest + tail, crc);
      assert body == (head + one) + rest + tail;
      ScanGoesOn(head + one, rs[1..], tail, sequence + 1, crc);
      ValidStep(body, |head|, sequence, crc);
      assert rs == [rs[0]] + rs[1..];
    }
  }

  lemma NothingLeft(body: Bytes, sequence: nat, crc: Crc)
    ensures ValidRecords(body, |body|, sequence, crc) == []
  {
    assert HeaderBytes(body, |body|) == [];
  }

  lemma ValidStep(body: Bytes, at: nat, sequence: nat, crc: Crc)
    requires at <= |body| && Frame(body, at, sequence, crc).Some?
    ensures
      var r := Frame(body, at, sequence, crc).value;
      ValidRecords(body, at, sequence, crc) == [r] + ValidRecords(body, at + RECORD_HEADER_SIZE + |r.payload|, sequence + 1, crc)
  {
    hide Frame;
  }

  lemma FrameRoundTrip(head: Bytes, r: Record, tail: Bytes, crc: Crc)
    requires CrcOk(crc) && Encodable(r)
    ensures Frame(head + EncodeRecord(r, crc) + tail, |head|, r.sequence, crc) == Some(r)
  {
    hide EncodeHeader, DecodeHeader;
    var h := Header(r.sequence, r.unit, |r.payload|, crc(r.payload));
    var body := head + EncodeRecord(r, crc) + tail;
    var at := |head|;
    assert body[at..at + RECORD_HEADER_SIZE] == EncodeHeader(h, crc);
    assert body[at + RECORD_HEADER_SIZE..at + RECORD_HEADER_SIZE + |r.payload|] == r.payload;
    HeaderRoundTrip(h, crc);
  }
}
