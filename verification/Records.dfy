/** Journal records and the logical history of a volume.

  A volume's history is the sequence of every record its journal accepted, the
  record with sequence number n at position n - 1. What a unit reads is decided
  by the newest record that names it; an empty payload on a discard-enabled
  volume is a tombstone and reads as unwritten zeros.
 */
module Records {

  /** Largest value of the 64-bit counters the journal persists. */
  const U64_MAX: nat := 0xFFFF_FFFF_FFFF_FFFF

  type Byte = x: int | 0 <= x < 256

  type Bytes = seq<Byte>

  datatype Option<+T> = None | Some(value: T)

  function Max(a: nat, b: nat): (m: nat)
    ensures m >= a && m >= b && (m == a || m == b)
  {
    if a >= b then a else b
  }

  datatype Record = Record(sequence: nat, unit: nat, payload: Bytes)

  /** A version of one unit: what the overlay, the slots and readers exchange. */
  datatype Version = Version(sequence: nat, data: Bytes)

  /** A history numbers its records 1, 2, 3, ... without a gap. */
  ghost predicate Numbered(log: seq<Record>) {
    forall i :: 0 <= i < |log| ==> log[i].sequence == i + 1
  }

  /** Sequence of the newest of the first `k` records that names `unit`, or 0. */
  ghost function Newest(log: seq<Record>, k: nat, unit: nat): (n: nat)
    requires k <= |log|
    ensures n <= k
    ensures n > 0 ==> log[n - 1].unit == unit
    ensures forall j :: n <= j < k ==> log[j].unit != unit
  {
    if k == 0 then 0
    else if log[k - 1].unit == unit then k
    else Newest(log, k - 1, unit)
  }

  /** What a unit reads when exactly the first `k` records have been applied. */
  ghost function Reading(log: seq<Record>, k: nat, unit: nat, discard: bool): (v: Option<Version>)
    requires k <= |log|
  {
    var n := Newest(log, k, unit);
    if n == 0 || (discard && log[n - 1].payload == []) then None
    else Some(Version(n, log[n - 1].payload))
  }

  /** `k` records of one history are also the first `k` of another. */
  ghost predicate Agree(log: seq<Record>, other: seq<Record>, k: nat) {
    k <= |log| && k <= |other| && forall i :: 0 <= i < k ==> log[i] == other[i]
  }

  lemma ReadingPrefix(log: seq<Record>, other: seq<Record>, k: nat, unit: nat, discard: bool)
    requires Agree(log, other, k)
    ensures Newest(log, k, unit) == Newest(other, k, unit)
    ensures Reading(log, k, unit, discard) == Reading(other, k, unit, discard)
  {
  }

  /** Records of other units do not change what a unit reads. */
  lemma ReadingSkips(log: seq<Record>, a: nat, b: nat, unit: nat, discard: bool)
    requires a <= b <= |log|
    requires Newest(log, b, unit) <= a
    ensures Newest(log, a, unit) == Newest(log, b, unit)
    ensures Reading(log, a, unit, discard) == Reading(log, b, unit, discard)
  {
  }

  /** The volume's contents after applying the records one by one. */
  ghost function Fold(log: seq<Record>, k: nat, discard: bool): map<nat, Version>
    requires k <= |log|
  {
    if k == 0 then map[]
    else
      var m, r := Fold(log, k - 1, discard), log[k - 1];
      if discard && r.payload == [] then m - {r.unit} else m[r.unit := Version(r.sequence, r.payload)]
  }

  /** What a unit reads is the fold of the records, looked up. */
  lemma {:induction false} ReadingIsFold(log: seq<Record>, k: nat, unit: nat, discard: bool)
    requires k <= |log| && Numbered(log)
    ensures Reading(log, k, unit, discard) == if unit in Fold(log, k, discard) then Some(Fold(log, k, discard)[unit]) else None
  {
    if k > 0 {
      ReadingIsFold(log, k - 1, unit, discard);
    }
  }
}
