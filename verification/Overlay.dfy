/** The ciphertext overlay: journaled versions not yet checkpointed.

  Per unit it keeps the latest version, which serves reads, and the latest
  durable one, which a checkpoint may copy into a slot.
 */
module Overlay {
  import opened Records
  import opened Sums

  datatype UnitOverlay = UnitOverlay(latest: Version, durable: Option<Version>)

  type Units = map<nat, UnitOverlay>

  function LatestWeights(units: Units): map<nat, nat> {
    map u | u in units :: |units[u].latest.data|
  }

  function Weight(e: UnitOverlay): nat {
    |e.latest.data| + if e.durable.Some? then |e.durable.value.data| else 0
  }

  function TotalWeights(units: Units): map<nat, nat> {
    map u | u in units :: Weight(units[u])
  }

  /** Whether a queued promotion up to `durable` reaches this unit's latest version. */
  predicate Due(e: UnitOverlay, unit: nat, pending: map<nat, nat>, durable: nat) {
    && e.latest.sequence in pending
    && pending[e.latest.sequence] == unit
    && e.latest.sequence <= durable
    && (e.durable.None? || e.durable.value.sequence < e.latest.sequence)
  }

  function Promoted(units: Units, pending: map<nat, nat>, durable: nat): Units {
    map u | u in units ::
      if Due(units[u], u, pending, durable) then units[u].(durable := Some(units[u].latest)) else units[u]
  }

  function Above(pending: map<nat, nat>, boundary: nat): map<nat, nat> {
    map s | s in pending && s > boundary :: pending[s]
  }

  function RetiredUnit(e: UnitOverlay, checkpoint: nat): UnitOverlay {
    if e.durable.Some? && e.durable.value.sequence <= checkpoint then e.(durable := None) else e
  }

  function Retired(units: Units, checkpoint: nat): Units {
    map u | u in units && units[u].latest.sequence > checkpoint :: RetiredUnit(units[u], checkpoint)
  }

  /** The durable versions a checkpoint at `durable` copies into slots. */
  function CollectDurable(units: Units, durable: nat): map<nat, Version> {
    map u | u in units && units[u].durable.Some? && units[u].durable.value.sequence <= durable :: units[u].durable.value
  }

  function SatSub(a: nat, b: nat): nat {
    if a >= b then a - b else 0
  }

  lemma WeightMaps(units: Units, u: nat, e: UnitOverlay)
    ensures TotalWeights(units[u := e]) == TotalWeights(units)[u := Weight(e)]
    ensures TotalWeights(units - {u}) == TotalWeights(units) - {u}
    ensures LatestWeights(units[u := e]) == LatestWeights(units)[u := |e.latest.data|]
    ensures LatestWeights(units - {u}) == LatestWeights(units) - {u}
  {
    hide Weight;
  }

  /** How one unit contributes to the totals. */
  lemma Reweigh(units: Units, u: nat, e: UnitOverlay) returns (total: nat, latest: nat)
    ensures Sum(TotalWeights(units[u := e])) == total + Weight(e)
    ensures Sum(TotalWeights(units)) == total + (if u in units then Weight(units[u]) else 0)
    ensures Sum(TotalWeights(units - {u})) == total
    ensures Sum(LatestWeights(units[u := e])) == latest + |e.latest.data|
    ensures Sum(LatestWeights(units)) == latest + (if u in units then |units[u].latest.data| else 0)
    ensures Sum(LatestWeights(units - {u})) == latest
  {
    hide Sum, Weight;
    total, latest := Sum(TotalWeights(units) - {u}), Sum(LatestWeights(units) - {u});
    WeightMaps(units, u, e);
    SumUpdate(TotalWeights(units), u, Weight(e));
    SumUpdate(LatestWeights(units), u, |e.latest.data|);
  }

  lemma {:induction false} LeastKey(m: map<nat, nat>) returns (k: nat)
    requires m != map[]
    ensures k in m && forall j :: j in m ==> k <= j
    decreases |m|
  {
    k :| k in m;
    var rest := m - {k};
    if rest != map[] {
      var l := LeastKey(rest);
      if l < k {
        k := l;
      }
    }
    assert forall j :: j in m && j !in rest ==> k <= j;
  }

  class Overlay {
    var units: Units
    /** sequence -> unit, moved into `durable` once the sequence is durable. */
    var pending: map<nat, nat>
    var bytes: nat
    var latestBytes: nat
    var durableBoundary: nat

    /** The byte counters are exactly what the versions weigh. */
    ghost predicate Accounted()
      reads this`units, this`bytes, this`latestBytes
    {
      && bytes == Sum(TotalWeights(units))
      && latestBytes == Sum(LatestWeights(units))
      && forall u :: u in units ==> InOrder(units[u])
    }

    constructor ()
      ensures Accounted() && units == map[] && pending == map[] && durableBoundary == 0
    {
      units, pending, bytes, latestBytes, durableBoundary := map[], map[], 0, 0, 0;
    }

    /** Publish a freshly journaled version. */
    method Publish(unit: nat, sequence: nat, ciphertext: Bytes)
      requires Accounted() && sequence != 0
      requires unit in units ==> units[unit].latest.sequence < sequence
      modifies this
      ensures Accounted()
      ensures
        var durable := if unit in old(units) then old(units)[unit].durable else None;
        units == old(units)[unit := UnitOverlay(Version(sequence, ciphertext), durable)]
      ensures pending == old(pending)[sequence := unit]
      ensures durableBoundary == old(durableBoundary)
    {
      hide Sum, TotalWeights, LatestWeights;
      bytes := bytes + |ciphertext|;
      latestBytes := latestBytes + |ciphertext|;
      var durable := if unit in units then units[unit].durable else None;
      var entry := UnitOverlay(Version(sequence, ciphertext), durable);
      ghost var _, _ := Reweigh(units, unit, entry);
      if unit in units {
        bytes := SatSub(bytes, |units[unit].latest.data|);
        latestBytes := SatSub(latestBytes, |units[unit].latest.data|);
      }
      units := units[unit := entry];
      pending := pending[sequence := unit];
    }

    /** Latest version for reads. */
    function Get(unit: nat): (v: Option<Version>)
      reads this
    {
      if unit in units then Some(units[unit].latest) else None
    }

    /** Versions up to `durable` become what a checkpoint may apply. */
    method Promote(durable: nat)
      requires Accounted()
      modifies this
      ensures Accounted()
      ensures units == Promoted(old(units), old(pending), durable)
      ensures pending == Above(old(pending), durable)
      ensures durableBoundary == Max(old(durableBoundary), durable)
    {
      hide Accounted, PromotedSoFar;
      durableBoundary := Max(durableBoundary, durable);
      ghost var queue := pending;
      PromotedStart(units, queue);
      while pending != map[]
        invariant Accounted() && durableBoundary == Max(old(durableBoundary), durable)
        invariant pending.Keys <= queue.Keys && forall s :: s in pending ==> pending[s] == queue[s]
        invariant forall s :: s in queue && s !in pending ==> s <= durable
        invariant PromotedSoFar(old(units), units, queue, pending)
        decreases |pending|
      {
        ghost var least := LeastKey(pending);
        var s :| s in pending && forall j :: j in pending ==> s <= j;
        if s > durable {
          break;
        }
        PromotedStep(old(units), units, queue, pending, s);
        PromoteNext(s);
      }
      assert pending == Above(queue, durable);
      PromotedDone(old(units), units, queue, pending, durable);
    }

    /** Take one sequence off the promotion queue. */
    method PromoteNext(s: nat)
      requires Accounted() && s in pending
      modifies this`units, this`pending, this`bytes
      ensures Accounted()
      ensures pending == old(pending) - {s}
      ensures
        var u := old(pending)[s];
        units == if u in old(units) && old(units)[u].latest.sequence == s && Behind(old(units)[u])
          then old(units)[u := old(units)[u].(durable := Some(old(units)[u].latest))] else old(units)
    {
      hide Sum, TotalWeights, LatestWeights;
      var unit := pending[s];
      pending := pending - {s};
      if unit in units {
        var entry := units[unit];
        if entry.latest.sequence == s && Behind(entry) {
          var promoted := entry.(durable := Some(entry.latest));
          ghost var _, _ := Reweigh(units, unit, promoted);
          if entry.durable.Some? {
            bytes := SatSub(bytes, |entry.durable.value.data|);
          }
          bytes := bytes + |entry.latest.data|;
          units := units[unit := promoted];
        }
      }
    }

    /** Retire what a completed checkpoint covers. */
    method Retire(checkpoint: nat)
      requires Accounted()
      modifies this
      ensures Accounted()
      ensures units == Retired(old(units), checkpoint)
      ensures pending == Above(old(pending), checkpoint)
      ensures durableBoundary == old(durableBoundary)
    {
      hide Accounted;
      var todo := units.Keys;
      ghost var before := units;
      while todo != {}
        invariant Accounted() && pending == old(pending) && durableBoundary == old(durableBoundary)
        invariant todo <= units.Keys && todo <= before.Keys
        invariant RetiredSoFar(before, units, todo, checkpoint)
        decreases todo
      {
        var unit :| unit in todo;
        todo := todo - {unit};
        RetireUnit(unit, checkpoint);
      }
      assert units == Retired(before, checkpoint);
      pending := Above(pending, checkpoint);
    }

    method RetireUnit(unit: nat, checkpoint: nat)
      requires Accounted() && unit in units
      modifies this`units, this`bytes, this`latestBytes
      ensures Accounted()
      ensures
        var e := old(units)[unit];
        units == if e.latest.sequence <= checkpoint then old(units) - {unit}
          else old(units)[unit := RetiredUnit(e, checkpoint)]
    {
      hide Sum, TotalWeights, LatestWeights;
      var entry := units[unit];
      ghost var _, _ := Reweigh(units, unit, RetiredUnit(entry, checkpoint));
      if entry.durable.Some? && entry.durable.value.sequence <= checkpoint {
        bytes := SatSub(bytes, |entry.durable.value.data|);
      }
      if entry.latest.sequence <= checkpoint {
        bytes := SatSub(bytes, |entry.latest.data|);
        latestBytes := SatSub(latestBytes, |entry.latest.data|);
        units := units - {unit};
        assert bytes == Sum(TotalWeights(old(units) - {unit}));
      } else {
        units := units[unit := RetiredUnit(entry, checkpoint)];
      }
    }
  }

  /** A unit's durable version never leads its latest one. */
  predicate InOrder(e: UnitOverlay) {
    e.latest.sequence != 0 && (e.durable.Some? ==> e.durable.value.sequence <= e.latest.sequence)
  }

  predicate Behind(e: UnitOverlay) {
    e.durable.None? || e.durable.value.sequence < e.latest.sequence
  }

  ghost predicate PromotedSoFar(before: Units, now: Units, queue: map<nat, nat>, left: map<nat, nat>) {
    && now.Keys == before.Keys
    && forall u :: u in before ==>
         var e := before[u];
         now[u] ==
           if e.latest.sequence in queue && queue[e.latest.sequence] == u && e.latest.sequence !in left && Behind(e)
           then e.(durable := Some(e.latest)) else e
  }

  ghost predicate RetiredSoFar(before: Units, now: Units, todo: set<nat>, checkpoint: nat) {
    && now.Keys <= before.Keys
    && (forall u :: u in todo && u in before ==> u in now && now[u] == before[u])
    && (forall u :: u in before && u !in todo ==>
          (u in now <==> before[u].latest.sequence > checkpoint)
          && (u in now ==> now[u] == RetiredUnit(before[u], checkpoint)))
  }

  lemma NothingPromoted(durable: nat)
    ensures Promoted(map[], map[], durable) == map[] && Above(map[], durable) == map[]
  {
  }

  lemma PromotedStart(units: Units, queue: map<nat, nat>)
    ensures PromotedSoFar(units, units, queue, queue)
  {
  }

  lemma PromotedStep(before: Units, now: Units, queue: map<nat, nat>, left: map<nat, nat>, s: nat)
    requires PromotedSoFar(before, now, queue, left) && s in left && s in queue && left[s] == queue[s]
    ensures
      var u := left[s];
      var next := if u in now && now[u].latest.sequence == s && Behind(now[u])
        then now[u := now[u].(durable := Some(now[u].latest))] else now;
      PromotedSoFar(before, next, queue, left - {s})
  {
  }

  lemma PromotedDone(before: Units, now: Units, queue: map<nat, nat>, left: map<nat, nat>, durable: nat)
    requires PromotedSoFar(before, now, queue, left) && left == Above(queue, durable)
    ensures now == Promoted(before, queue, durable)
  {
  }

  // The overlay and the history. --------------------------------------------

  function VersionAt(log: seq<Record>, n: nat): Version
    requires 1 <= n <= |log|
  {
    Version(n, log[n - 1].payload)
  }

  /** The overlay of a history: a unit is held if and only if its newest record is
      above the retired checkpoint; its durable version is exactly its newest
      record at or below the durable boundary, if that is above it too. */
  ghost predicate Tracks(units: Units, pending: map<nat, nat>, log: seq<Record>, durable: nat, retired: nat) {
    && retired <= durable <= |log|
    && (forall u :: u in units <==> Newest(log, |log|, u) > retired)
    && (forall u :: u in units ==> TracksUnit(units[u], u, log, durable, retired))
    && (forall s :: s in pending <==> durable < s <= |log|)
    && (forall s :: s in pending ==> pending[s] == log[s - 1].unit)
  }

  ghost predicate TracksUnit(e: UnitOverlay, u: nat, log: seq<Record>, durable: nat, retired: nat)
    requires durable <= |log|
  {
    var n, m := Newest(log, |log|, u), Newest(log, durable, u);
    && n > 0
    && e.latest == VersionAt(log, n)
    && e.durable == if m > retired then Some(VersionAt(log, m)) else None
  }

  /** Publishing the record just appended keeps the overlay exact. */
  lemma PublishTracks(units: Units, pending: map<nat, nat>, log: seq<Record>, r: Record, durable: nat, retired: nat)
    requires Tracks(units, pending, log, durable, retired)
    ensures
      var e := UnitOverlay(Version(|log| + 1, r.payload), if r.unit in units then units[r.unit].durable else None);
      Tracks(units[r.unit := e], pending[|log| + 1 := r.unit], log + [r], durable, retired)
  {
    hide TracksUnit, Newest;
    var e := UnitOverlay(Version(|log| + 1, r.payload), if r.unit in units then units[r.unit].durable else None);
    var grown := log + [r];
    var next := units[r.unit := e];
    forall u
      ensures u in next <==> Newest(grown, |grown|, u) > retired
    {
      GrownNewest(log, r, u);
    }
    forall u | u in next
      ensures TracksUnit(next[u], u, grown, durable, retired)
    {
      PublishUnit(units, u, log, r, durable, retired);
    }
  }

  lemma GrownNewest(log: seq<Record>, r: Record, u: nat)
    ensures Newest(log + [r], |log| + 1, u) == if u == r.unit then |log| + 1 else Newest(log, |log|, u)
  {
    ReadingPrefix(log, log + [r], |log|, u, false);
  }

  lemma PublishUnit(units: Units, u: nat, log: seq<Record>, r: Record, durable: nat, retired: nat)
    requires retired <= durable <= |log| && (u == r.unit || u in units)
    requires u in units ==> TracksUnit(units[u], u, log, durable, retired)
    requires u !in units ==> Newest(log, |log|, u) <= retired
    ensures
      var e := UnitOverlay(Version(|log| + 1, r.payload), if r.unit in units then units[r.unit].durable else None);
      TracksUnit(units[r.unit := e][u], u, log + [r], durable, retired)
  {
    hide Newest;
    ReadingPrefix(log, log + [r], durable, u, false);
    GrownNewest(log, r, u);
  }

  /** No unit has been republished past the boundary it is being promoted to. */
  ghost predicate Promotable(log: seq<Record>, durable: nat, to: nat)
    requires durable <= to <= |log|
  {
    forall u :: Newest(log, to, u) == Newest(log, durable, u) || Newest(log, |log|, u) <= to
  }

  /** Promotion keeps the overlay exact if and only if it comes before the next
      publish of any unit it should promote. */
  lemma PromoteExactly(units: Units, pending: map<nat, nat>, log: seq<Record>, durable: nat, to: nat, retired: nat)
    requires Tracks(units, pending, log, durable, retired) && durable <= to <= |log|
    ensures Tracks(Promoted(units, pending, to), Above(pending, to), log, to, retired) <==> Promotable(log, durable, to)
  {
    hide TracksUnit, Newest, Due;
    var next := Promoted(units, pending, to);
    forall u
      ensures u in units ==>
        (TracksUnit(next[u], u, log, to, retired) <==>
          Newest(log, to, u) == Newest(log, durable, u) || Newest(log, |log|, u) <= to)
      ensures u !in units ==> Newest(log, |log|, u) <= to
    {
      if u in units {
        PromoteUnit(units[u], u, pending, log, durable, to, retired);
      }
    }
    if Tracks(next, Above(pending, to), log, to, retired) {
      forall u
        ensures Newest(log, to, u) == Newest(log, durable, u) || Newest(log, |log|, u) <= to
      {
        assert u in units ==> u in next && TracksUnit(next[u], u, log, to, retired);
      }
    }
  }

  lemma PromoteUnit(e: UnitOverlay, u: nat, pending: map<nat, nat>, log: seq<Record>, durable: nat, to: nat, retired: nat)
    requires retired <= durable <= to <= |log| && TracksUnit(e, u, log, durable, retired)
    requires forall s :: s in pending <==> durable < s <= |log|
    requires forall s :: s in pending ==> pending[s] == log[s - 1].unit
    requires Newest(log, |log|, u) > retired
    ensures
      var f := if Due(e, u, pending, to) then e.(durable := Some(e.latest)) else e;
      TracksUnit(f, u, log, to, retired) <==>
        Newest(log, to, u) == Newest(log, durable, u) || Newest(log, |log|, u) <= to
  {
    hide Newest;
    var n, m, t := Newest(log, |log|, u), Newest(log, durable, u), Newest(log, to, u);
    assert m <= t <= n;
    assert n <= to ==> t == n;
    assert t <= durable ==> t == m;
  }

  /** Promoting to the end of what was published keeps the overlay exact. It is
      this step that must come before the next publish. */
  lemma PromoteTracks(units: Units, pending: map<nat, nat>, log: seq<Record>, durable: nat, to: nat, retired: nat)
    requires Tracks(units, pending, log, durable, retired)
    requires to == durable || to == |log|
    ensures Tracks(Promoted(units, pending, to), Above(pending, to), log, to, retired)
  {
    hide Tracks;
    assert durable <= to <= |log| by { TracksBounds(units, pending, log, durable, retired); }
    PromoteExactly(units, pending, log, durable, to, retired);
  }

  lemma TracksBounds(units: Units, pending: map<nat, nat>, log: seq<Record>, durable: nat, retired: nat)
    requires Tracks(units, pending, log, durable, retired)
    ensures retired <= durable <= |log|
  {
  }

  /** Publishing first loses: the seal made record 1 durable, but record 2 took its
      place before the promotion, and a checkpoint at 1 would not copy it. */
  lemma PublishFirstLoses()
    ensures
      var log := [Record(1, 0, [7]), Record(2, 0, [8])];
      var published: Units := map[0 := UnitOverlay(Version(2, [8]), None)];
      var pending: map<nat, nat> := map[1 := 0, 2 := 0];
      && Tracks(published, pending, log, 0, 0)
      && Newest(log, 1, 0) == 1
      && 0 !in CollectDurable(Promoted(published, pending, 1), 1)
      && !Tracks(Promoted(published, pending, 1), Above(pending, 1), log, 1, 0)
  {
    var log := [Record(1, 0, [7]), Record(2, 0, [8])];
    var published: Units := map[0 := UnitOverlay(Version(2, [8]), None)];
    var pending: map<nat, nat> := map[1 := 0, 2 := 0];
    assert Newest(log, 2, 0) == 2 && Newest(log, 1, 0) == 1 && Newest(log, 0, 0) == 0;
    assert TracksUnit(published[0], 0, log, 0, 0);
    forall u
      ensures u in published <==> Newest(log, 2, u) > 0
    {
    }
    var next := Promoted(published, pending, 1);
    assert next[0].durable == None;
    assert !TracksUnit(next[0], 0, log, 1, 0);
  }

  /** Retiring a checkpoint at or below the durable boundary drops nothing above it. */
  lemma RetireTracks(units: Units, pending: map<nat, nat>, log: seq<Record>, durable: nat, retired: nat, to: nat)
    requires Tracks(units, pending, log, durable, retired) && retired <= to <= durable
    ensures Tracks(Retired(units, to), Above(pending, to), log, durable, to)
  {
    forall u | u in Retired(units, to)
      ensures TracksUnit(Retired(units, to)[u], u, log, durable, to)
    {
      assert TracksUnit(units[u], u, log, durable, retired);
    }
  }

  // What the overlay may come to weigh. ----------------------------------------

  /** The bytes held, or the bytes that will be held once everything is durable. */
  ghost function Peak(units: Units): nat {
    Max(Sum(TotalWeights(units)), 2 * Sum(LatestWeights(units)))
  }

  /** From `a` to `b` the overlay took in at most `bytes` of payload and `entries` units. */
  ghost predicate TookIn(a: Units, b: Units, bytes: nat, entries: nat) {
    Peak(b) <= Peak(a) + 2 * bytes && |b| <= |a| + entries
  }

  lemma TookInBoth(a: Units, b: Units, c: Units, bytes: nat, entries: nat)
    requires TookIn(a, b, bytes, entries) && TookIn(b, c, 0, 0)
    ensures TookIn(a, c, bytes, entries)
  {
  }

  lemma PublishTakesIn(units: Units, u: nat, v: Version)
    ensures
      var durable := if u in units then units[u].durable else None;
      TookIn(units, units[u := UnitOverlay(v, durable)], |v.data|, 1)
  {
    hide Sum, TotalWeights, LatestWeights;
    var durable := if u in units then units[u].durable else None;
    var e := UnitOverlay(v, durable);
    var _, _ := Reweigh(units, u, e);
    assert units[u := e].Keys == units.Keys + {u};
  }

  /** With everything durable each unit holds its latest version twice. */
  lemma PromoteTakesIn(units: Units, pending: map<nat, nat>, log: seq<Record>, durable: nat, to: nat, retired: nat)
    requires Tracks(units, pending, log, durable, retired) && (to == durable || to == |log|)
    ensures TookIn(units, Promoted(units, pending, to), 0, 0)
  {
    hide Sum, TotalWeights, LatestWeights, Tracks, Promoted, Newest;
    var next := Promoted(units, pending, to);
    PromotedShape(units, pending, to);
    SameLatest(units, next);
    assert |next.Keys| == |units.Keys| && |next| == |next.Keys| && |units| == |units.Keys|;
    if to == |log| {
      PromoteTracks(units, pending, log, durable, to, retired);
      AllDurable(next, Above(pending, to), log, retired);
    } else {
      NothingDue(units, pending, log, durable, retired);
    }
  }

  lemma PromotedShape(units: Units, pending: map<nat, nat>, to: nat)
    ensures
      var next := Promoted(units, pending, to);
      next.Keys == units.Keys && forall u :: u in units ==> next[u].latest == units[u].latest
  {
  }

  lemma NothingDue(units: Units, pending: map<nat, nat>, log: seq<Record>, durable: nat, retired: nat)
    requires Tracks(units, pending, log, durable, retired)
    ensures Promoted(units, pending, durable) == units
  {
    hide TracksUnit, Newest;
  }

  lemma SameLatest(units: Units, next: Units)
    requires next.Keys == units.Keys && forall u :: u in units ==> next[u].latest == units[u].latest
    ensures LatestWeights(next) == LatestWeights(units)
  {
  }

  lemma AllDurable(units: Units, pending: map<nat, nat>, log: seq<Record>, retired: nat)
    requires Tracks(units, pending, log, |log|, retired)
    ensures Sum(TotalWeights(units)) == 2 * Sum(LatestWeights(units))
  {
    hide Sum, Newest;
    var total, latest := TotalWeights(units), LatestWeights(units);
    forall u | u in units
      ensures total[u] == 2 * latest[u]
    {
      assert TracksUnit(units[u], u, log, |log|, retired);
    }
    SumDouble(latest, total);
  }

  lemma RetireTakesIn(units: Units, checkpoint: nat)
    ensures TookIn(units, Retired(units, checkpoint), 0, 0)
  {
    hide Sum;
    var next := Retired(units, checkpoint);
    SumMonotone(TotalWeights(next), TotalWeights(units));
    SumMonotone(LatestWeights(next), LatestWeights(units));
    FewerKeys(next.Keys, units.Keys);
    assert |next| == |next.Keys| && |units| == |units.Keys|;
  }

  lemma {:induction false} FewerKeys(a: set<nat>, b: set<nat>)
    requires a <= b
    ensures |a| <= |b|
  {
    if a != {} {
      var x :| x in a;
      FewerKeys(a - {x}, b - {x});
    }
  }
}
