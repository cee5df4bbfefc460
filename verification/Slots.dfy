/** Slot data and discard bits of a volume, as a crash may reveal them.

  A slot holds one version of one unit. It is written as a header and a payload,
  so a crash between the two, or a torn write, leaves a damaged slot; rewriting
  the version that is already certain changes nothing. Discard bits live in maps
  of which both copies are stored before the change counts as durable.
 */
module Slots {
  import opened Records

  datatype SlotCell = Empty | Full(version: Version) | Damaged

  datatype Slot = Slot(cache: SlotCell, poss: set<SlotCell>, dirty: bool)

  datatype SlotRead = Zero | Ciphertext(version: Version) | Eio

  datatype Store = Store(
    slots: map<nat, Slot>,
    discarded: set<nat>,
    bits: map<nat, set<bool>>,
    dirtyBits: set<nat>,
    failures: nat)

  function At(st: Store, u: nat): Slot {
    if u in st.slots then st.slots[u] else Slot(Empty, {Empty}, false)
  }

  function Bits(st: Store, u: nat): set<bool> {
    if u in st.bits then st.bits[u] else {false}
  }

  /** What the bit may become once the dirty maps are stored. */
  function MayBits(st: Store, u: nat): set<bool> {
    Bits(st, u) + if u in st.dirtyBits then {u in st.discarded} else {}
  }

  /** Read classification of a slot. */
  function Look(discarded: bool, cell: SlotCell): SlotRead {
    if discarded then Zero
    else match cell
      case Empty => Zero
      case Full(v) => Ciphertext(v)
      case Damaged => Eio
  }

  ghost predicate SameBits(a: Store, b: Store) {
    a.discarded == b.discarded && a.bits == b.bits && a.dirtyBits == b.dirtyBits
  }

  /** No crash shows a discard bit other than the one in memory. */
  ghost predicate BitsSettled(st: Store) {
    forall u :: MayBits(st, u) == {u in st.discarded}
  }

  function ReadSlot(st: Store, u: nat): SlotRead {
    Look(u in st.discarded, At(st, u).cache)
  }

  ghost predicate StoreOk(st: Store) {
    && (forall u :: u in st.slots ==> st.slots[u].cache in st.slots[u].poss)
    && (forall u :: u in st.bits ==> true in st.bits[u] || false in st.bits[u])
    && (forall u :: u in st.discarded || u in st.bits ==> u in st.dirtyBits || Bits(st, u) == {u in st.discarded})
  }

  /** What the slots should read when the first `c` records are applied. */
  ghost function Expected(log: seq<Record>, c: nat, u: nat, discard: bool): SlotRead
    requires c <= |log|
  {
    match Reading(log, c, u, discard)
    case None => Zero
    case Some(v) => Ciphertext(v)
  }

  /** Whatever a crash reveals of the unit's slot and bit reads as `r`. */
  ghost predicate Certain(st: Store, u: nat, r: SlotRead) {
    forall cell, bit :: cell in At(st, u).poss && bit in MayBits(st, u) ==> Look(bit, cell) == r
  }

  /** Slots are right for every checkpoint a crash may find: a unit without a
      durable record above that checkpoint reads as the checkpoint has it. */
  ghost predicate SlotsSafe(st: Store, log: seq<Record>, durable: nat, cks: set<nat>, discard: bool) {
    && durable <= |log|
    && forall c, u :: c in cks && c <= durable && Newest(log, durable, u) <= c ==> Certain(st, u, Expected(log, c, u, discard))
  }

  /** Units whose newest record the checkpoint covers read it from their slot. */
  ghost predicate LiveOk(st: Store, log: seq<Record>, ck: nat, discard: bool) {
    forall u :: Newest(log, |log|, u) <= ck ==> ReadSlot(st, u) == Expected(log, |log|, u, discard)
  }

  function MergeSlot(poss: set<SlotCell>, v: Version): set<SlotCell> {
    if poss == {Full(v)} then poss else poss + {Full(v), Damaged}
  }

  /** First half of a slot write: the header is new, the payload still old. */
  function WriteSlotHeader(st: Store, u: nat, v: Version): Store {
    var s := At(st, u);
    var cache := if s.cache == Full(v) then s.cache else Damaged;
    st.(slots := st.slots[u := Slot(cache, MergeSlot(s.poss, v), true)])
  }

  /** Second half: from here on a reader finds the version. */
  function WriteSlotPayload(st: Store, u: nat, v: Version): Store {
    st.(slots := st.slots[u := Slot(Full(v), MergeSlot(At(st, u).poss, v), true)])
  }

  function SyncSlot(s: Slot, ok: bool): Slot {
    if s.dirty then Slot(s.cache, if ok then {s.cache} else s.poss, false) else s
  }

  /** `sync` of one shard's data file. */
  function SyncShard(st: Store, shard: set<nat>, ok: bool): Store {
    st.(slots := map u | u in st.slots :: if u in shard then SyncSlot(st.slots[u], ok) else st.slots[u])
  }

  function SetDiscarded(st: Store, u: nat, discarded: bool): Store {
    if (u in st.discarded) == discarded then st
    else st.(discarded := if discarded then st.discarded + {u} else st.discarded - {u}, dirtyBits := st.dirtyBits + {u})
  }

  /** Storing the dirty discard maps: until both copies are synced, either value. */
  function StoreBits(st: Store, ok: bool): Store {
    st.(bits := map u | u in st.bits.Keys + st.dirtyBits ::
          if u in st.dirtyBits then (if ok then {} else Bits(st, u)) + {u in st.discarded} else st.bits[u],
        dirtyBits := if ok then {} else st.dirtyBits)
  }

  /** Punch a hole: the slot becomes zeroes, or something in between. */
  function PunchSlot(st: Store, u: nat): Store {
    var s := At(st, u);
    st.(slots := st.slots[u := Slot(Empty, s.poss + {Empty, Damaged}, true)])
  }

  /** The version the plan copies into a slot is the unit's newest durable one. */
  ghost predicate IsItem(log: seq<Record>, horizon: nat, u: nat, v: Version) {
    && horizon <= |log|
    && Newest(log, horizon, u) > 0
    && v == Version(Newest(log, horizon, u), log[Newest(log, horizon, u) - 1].payload)
  }

  /** Where the checkpoint already has the item, it is what the slot must hold. */
  lemma ItemExpected(log: seq<Record>, durable: nat, horizon: nat, c: nat, u: nat, v: Version, discard: bool)
    requires c <= horizon <= durable <= |log| && Newest(log, durable, u) <= c
    requires IsItem(log, horizon, u, v)
    ensures Expected(log, c, u, discard) == if discard && v.data == [] then Zero else Ciphertext(v)
  {
    ReadingSkips(log, c, durable, u, discard);
    ReadingSkips(log, horizon, durable, u, discard);
  }

  /** Copying a durable version into its slot is safe at every crash point. */
  lemma WriteSlotSafe(st: Store, log: seq<Record>, durable: nat, cks: set<nat>, discard: bool,
                      horizon: nat, u: nat, v: Version)
    requires SlotsSafe(st, log, durable, cks, discard) && StoreOk(st)
    requires horizon <= durable && (forall c :: c in cks ==> c <= horizon)
    requires IsItem(log, horizon, u, v) && !(discard && v.data == [])
    ensures SlotsSafe(WriteSlotHeader(st, u, v), log, durable, cks, discard) && StoreOk(WriteSlotHeader(st, u, v))
    ensures SlotsSafe(WriteSlotPayload(st, u, v), log, durable, cks, discard) && StoreOk(WriteSlotPayload(st, u, v))
  {
    hide Expected, IsItem;
    var a, b := WriteSlotHeader(st, u, v), WriteSlotPayload(st, u, v);
    forall c, w | c in cks && c <= durable && Newest(log, durable, w) <= c
      ensures Certain(a, w, Expected(log, c, w, discard)) && Certain(b, w, Expected(log, c, w, discard))
    {
      assert Certain(st, w, Expected(log, c, w, discard));
      if w == u {
        ItemExpected(log, durable, horizon, c, u, v, discard);
        CertainFull(st, u, v);
      }
    }
  }

  /** Setting a bit that agrees with what the unit must read. */
  lemma SetBitSafe(st: Store, log: seq<Record>, durable: nat, cks: set<nat>, discard: bool, u: nat, bit: bool)
    requires SlotsSafe(st, log, durable, cks, discard) && StoreOk(st)
    requires forall c :: c in cks && c <= durable && Newest(log, durable, u) <= c ==>
      if bit then Expected(log, c, u, discard) == Zero else Expected(log, c, u, discard).Ciphertext?
    ensures SlotsSafe(SetDiscarded(st, u, bit), log, durable, cks, discard) && StoreOk(SetDiscarded(st, u, bit))
  {
    hide Expected;
    var a := SetDiscarded(st, u, bit);
    forall c, w | c in cks && c <= durable && Newest(log, durable, w) <= c
      ensures Certain(a, w, Expected(log, c, w, discard))
    {
      assert Certain(st, w, Expected(log, c, w, discard));
      if w == u && !bit {
        CertainFull(st, u, Expected(log, c, u, discard).version);
      }
    }
  }

  /** Slot and bits hold exactly the item, whatever a crash keeps. */
  ghost predicate ItemCertain(st: Store, u: nat, v: Version, discard: bool) {
    if discard && v.data == [] then MayBits(st, u) == {true}
    else At(st, u).poss == {Full(v)} && MayBits(st, u) == {false}
  }

  /** Once every item of a plan is certain, the checkpoint may name its horizon. */
  lemma CheckpointSafe(st: Store, log: seq<Record>, durable: nat, cks: set<nat>, discard: bool,
                       base: nat, horizon: nat, items: map<nat, Version>)
    requires SlotsSafe(st, log, durable, cks, discard) && base in cks && base <= horizon <= durable
    requires forall u :: u in items ==> IsItem(log, horizon, u, items[u]) && ItemCertain(st, u, items[u], discard)
    requires forall u :: Newest(log, horizon, u) > base ==> u in items
    ensures SlotsSafe(st, log, durable, cks + {horizon}, discard)
  {
    hide IsItem, ItemCertain, Certain;
    forall u | Newest(log, durable, u) <= horizon
      ensures Certain(st, u, Expected(log, horizon, u, discard))
    {
      ReadingSkips(log, horizon, durable, u, discard);
      if u in items {
        ItemExpected(log, durable, horizon, horizon, u, items[u], discard);
        ItemCertainly(st, u, items[u], discard);
      } else {
        ReadingSkips(log, base, durable, u, discard);
        assert Certain(st, u, Expected(log, base, u, discard));
      }
    }
  }

  lemma ItemCertainly(st: Store, u: nat, v: Version, discard: bool)
    requires ItemCertain(st, u, v, discard)
    ensures Certain(st, u, if discard && v.data == [] then Zero else Ciphertext(v))
  {
  }

  /** A durably discarded slot may be punched. */
  lemma PunchSafe(st: Store, log: seq<Record>, durable: nat, cks: set<nat>, discard: bool, u: nat)
    requires SlotsSafe(st, log, durable, cks, discard) && StoreOk(st) && MayBits(st, u) == {true}
    ensures SlotsSafe(PunchSlot(st, u), log, durable, cks, discard) && StoreOk(PunchSlot(st, u))
  {
    hide Expected;
    var a := PunchSlot(st, u);
    forall c, w | c in cks && c <= durable && Newest(log, durable, w) <= c
      ensures Certain(a, w, Expected(log, c, w, discard))
    {
      assert Certain(st, w, Expected(log, c, w, discard));
      if w == u {
        assert At(st, u).cache in At(st, u).poss;
        assert Look(true, At(st, u).cache) == Expected(log, c, w, discard);
      }
    }
  }

  // Live reads. --------------------------------------------------------------

  lemma AppendLive(st: Store, log: seq<Record>, r: Record, ck: nat, discard: bool)
    requires LiveOk(st, log, ck, discard) && ck <= |log|
    ensures LiveOk(st, log + [r], ck, discard)
  {
    var grown := log + [r];
    forall u | Newest(grown, |grown|, u) <= ck
      ensures ReadSlot(st, u) == Expected(grown, |grown|, u, discard)
    {
      ReadingPrefix(log, grown, |log|, u, discard);
      ReadingSkips(grown, |log|, |grown|, u, discard);
    }
  }

  /** A half-written slot is one whose unit is still served from the overlay. */
  lemma WriteSlotLive(st: Store, log: seq<Record>, ck: nat, discard: bool, horizon: nat, u: nat, v: Version)
    requires LiveOk(st, log, ck, discard) && ck <= horizon <= |log|
    requires IsItem(log, horizon, u, v) && !(discard && v.data == [])
    ensures LiveOk(WriteSlotHeader(st, u, v), log, ck, discard)
    ensures LiveOk(WriteSlotPayload(st, u, v), log, ck, discard)
  {
    hide Expected, IsItem;
    forall w | Newest(log, |log|, w) <= ck
      ensures ReadSlot(WriteSlotHeader(st, u, v), w) == Expected(log, |log|, w, discard)
      ensures ReadSlot(WriteSlotPayload(st, u, v), w) == Expected(log, |log|, w, discard)
    {
      if w == u {
        ItemExpectedNow(log, horizon, u, v, discard);
      }
    }
  }

  lemma ItemExpectedNow(log: seq<Record>, horizon: nat, u: nat, v: Version, discard: bool)
    requires horizon <= |log| && Newest(log, |log|, u) <= horizon
    requires IsItem(log, horizon, u, v)
    ensures Expected(log, |log|, u, discard) == if discard && v.data == [] then Zero else Ciphertext(v)
  {
    ReadingSkips(log, horizon, |log|, u, discard);
  }

  lemma SetBitLive(st: Store, log: seq<Record>, ck: nat, discard: bool, u: nat, bit: bool)
    requires LiveOk(st, log, ck, discard)
    requires Newest(log, |log|, u) <= ck ==>
      if bit then Expected(log, |log|, u, discard) == Zero else Expected(log, |log|, u, discard).Ciphertext?
    ensures LiveOk(SetDiscarded(st, u, bit), log, ck, discard)
  {
    hide Expected;
    forall w | Newest(log, |log|, w) <= ck
      ensures ReadSlot(SetDiscarded(st, u, bit), w) == Expected(log, |log|, w, discard)
    {
      assert ReadSlot(st, w) == Expected(log, |log|, w, discard);
    }
  }

  ghost predicate ItemShown(st: Store, u: nat, v: Version, discard: bool) {
    ReadSlot(st, u) == if discard && v.data == [] then Zero else Ciphertext(v)
  }

  /** The slots of a finished plan serve every unit its horizon covers. */
  lemma CheckpointLive(st: Store, log: seq<Record>, ck: nat, discard: bool, horizon: nat, items: map<nat, Version>)
    requires LiveOk(st, log, ck, discard) && ck <= horizon <= |log|
    requires forall u :: u in items ==> IsItem(log, horizon, u, items[u]) && ItemShown(st, u, items[u], discard)
    requires forall u :: Newest(log, horizon, u) > ck ==> u in items
    ensures LiveOk(st, log, horizon, discard)
  {
    hide IsItem, Expected;
    forall u | Newest(log, |log|, u) <= horizon
      ensures ReadSlot(st, u) == Expected(log, |log|, u, discard)
    {
      ReadingSkips(log, horizon, |log|, u, discard);
      if u in items {
        ItemExpectedNow(log, horizon, u, items[u], discard);
      }
    }
  }

  lemma CertainFull(st: Store, u: nat, v: Version)
    requires Certain(st, u, Ciphertext(v)) && StoreOk(st)
    ensures At(st, u).poss == {Full(v)} && MayBits(st, u) == {false} && u !in st.discarded
  {
    var bit := if true in Bits(st, u) then true else false;
    assert bit in MayBits(st, u);
    assert At(st, u).cache in At(st, u).poss;
    forall cell | cell in At(st, u).poss
      ensures cell == Full(v)
    {
      assert Look(bit, cell) == Ciphertext(v);
    }
    forall b | b in MayBits(st, u)
      ensures !b
    {
      assert Look(b, At(st, u).cache) == Ciphertext(v);
    }
    assert false in MayBits(st, u);
  }

  lemma SyncShardSafe(st: Store, log: seq<Record>, durable: nat, cks: set<nat>, discard: bool, shard: set<nat>, ok: bool)
    requires SlotsSafe(st, log, durable, cks, discard) && StoreOk(st)
    ensures SlotsSafe(SyncShard(st, shard, ok), log, durable, cks, discard) && StoreOk(SyncShard(st, shard, ok))
  {
    var a := SyncShard(st, shard, ok);
    forall u ensures At(a, u).poss <= At(st, u).poss && MayBits(a, u) == MayBits(st, u) {}
    forall c, u | c in cks && c <= durable && Newest(log, durable, u) <= c
      ensures Certain(a, u, Expected(log, c, u, discard))
    {
      assert Certain(st, u, Expected(log, c, u, discard));
    }
  }

  lemma StoreBitsSafe(st: Store, log: seq<Record>, durable: nat, cks: set<nat>, discard: bool, ok: bool)
    requires SlotsSafe(st, log, durable, cks, discard) && StoreOk(st)
    ensures SlotsSafe(StoreBits(st, ok), log, durable, cks, discard) && StoreOk(StoreBits(st, ok))
  {
    var a := StoreBits(st, ok);
    forall u ensures At(a, u).poss == At(st, u).poss && MayBits(a, u) <= MayBits(st, u) {}
    forall c, u | c in cks && c <= durable && Newest(log, durable, u) <= c
      ensures Certain(a, u, Expected(log, c, u, discard))
    {
      assert Certain(st, u, Expected(log, c, u, discard));
    }
  }

  /** A longer history with a later boundary asks less of the slots. */
  lemma GrowSafe(st: Store, log: seq<Record>, durable: nat, log': seq<Record>, durable': nat, cks: set<nat>, discard: bool)
    requires SlotsSafe(st, log, durable, cks, discard)
    requires Agree(log, log', durable) && durable <= durable' <= |log'|
    requires forall c :: c in cks ==> c <= durable
    ensures SlotsSafe(st, log', durable', cks, discard)
  {
    forall c, u | c in cks && c <= durable' && Newest(log', durable', u) <= c
      ensures Certain(st, u, Expected(log', c, u, discard))
    {
      ReadingPrefix(log, log', durable, u, discard);
      ReadingPrefix(log, log', c, u, discard);
      ReadingSkips(log', durable, durable', u, discard);
      assert Certain(st, u, Expected(log, c, u, discard));
    }
  }
}
