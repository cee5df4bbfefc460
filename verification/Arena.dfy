/** The slot arena of the copy-on-write backing, and who may use which slot.

  Two views share the arena: the committed manifest and the working files. No
  slot serves two coordinates, and a slot the committed manifest uses is never
  written. Each reserved coordinate needs at most two slots, so an arena of
  twice the capacity always has one to give.
 */
module Arena {
  import opened Records
  import opened Pages

  /** What a crash may show of a slot. */
  datatype Image = Page(bytes: Bytes) | Torn

  datatype Arena = Arena(cache: map<nat, Bytes>, poss: map<nat, set<Image>>, dirty: set<nat>)

  type Files = map<nat, Node>

  function Poss(a: Arena, slot: nat): set<Image> {
    if slot in a.poss then a.poss[slot] else {Torn}
  }

  /** `write_at` of one slot; rewriting the only possible page changes nothing. */
  function WriteSlot(a: Arena, slot: nat, bytes: Bytes): Arena {
    var poss := if Poss(a, slot) == {Page(bytes)} then Poss(a, slot) else Poss(a, slot) + {Page(bytes), Torn};
    Arena(a.cache[slot := bytes], a.poss[slot := poss], a.dirty + {slot})
  }

  function SyncArena(a: Arena, ok: bool): Arena {
    if ok then
      Arena(a.cache, map s | s in a.poss :: if s in a.dirty && s in a.cache then {Page(a.cache[s])} else a.poss[s], {})
    else a.(dirty := {})
  }

  /** Reserved coordinates of a view. */
  function Coords(files: Files): set<(nat, nat)> {
    set id, i | id in files && i in files[id].reserved :: (id, i)
  }

  predicate Maps(files: Files, id: nat, i: nat) {
    id in files && i in files[id].pages
  }

  function Ref(files: Files, id: nat, i: nat): PageRef
    requires Maps(files, id, i)
  {
    files[id].pages[i]
  }

  function SlotsOf(files: Files): set<nat> {
    set id, i | id in files && i in files[id].pages :: files[id].pages[i].slot
  }

  /** No slot serves two coordinates of the views. */
  ghost predicate Apart(a: Files, b: Files) {
    forall id, i, id', i' :: Maps(a, id, i) && Maps(b, id', i') && Ref(a, id, i).slot == Ref(b, id', i').slot ==>
      id == id' && i == i'
  }

  ghost predicate FilesOk(files: Files) {
    forall id :: id in files ==> NodeOk(files[id])
  }

  /** The arena shows every page of the view, and will keep it at the next sync. */
  ghost predicate Held(a: Arena, files: Files) {
    forall id, i :: Maps(files, id, i) ==> HeldRef(a, Ref(files, id, i))
  }

  ghost predicate HeldRef(a: Arena, r: PageRef) {
    r.slot in a.cache && a.cache[r.slot] == r.digest && r.slot in a.poss
    && (r.slot in a.dirty || Poss(a, r.slot) == {Page(r.digest)})
  }

  /** Every crash shows every page of the view. */
  ghost predicate Durable(a: Arena, files: Files) {
    forall id, i :: Maps(files, id, i) ==> Poss(a, Ref(files, id, i).slot) == {Page(Ref(files, id, i).digest)}
  }

  lemma SlotListed(files: Files, id: nat, i: nat)
    requires Maps(files, id, i)
    ensures Ref(files, id, i).slot in SlotsOf(files)
  {
  }

  /** After a successful sync everything held is durable. */
  lemma SyncMakesDurable(a: Arena, files: Files)
    requires Held(a, files)
    ensures Durable(SyncArena(a, true), files) && Held(SyncArena(a, true), files)
  {
    forall id, i | Maps(files, id, i)
      ensures Poss(SyncArena(a, true), Ref(files, id, i).slot) == {Page(Ref(files, id, i).digest)}
      ensures HeldRef(SyncArena(a, true), Ref(files, id, i))
    {
      assert HeldRef(a, Ref(files, id, i));
    }
  }

  lemma SyncKeepsDurable(a: Arena, files: Files, ok: bool)
    requires Durable(a, files) && Held(a, files)
    ensures Durable(SyncArena(a, ok), files) && Held(SyncArena(a, ok), files)
  {
    forall id, i | Maps(files, id, i)
      ensures Poss(SyncArena(a, ok), Ref(files, id, i).slot) == {Page(Ref(files, id, i).digest)}
      ensures HeldRef(SyncArena(a, ok), Ref(files, id, i))
    {
      assert HeldRef(a, Ref(files, id, i));
    }
  }

  /** A view that does not use the slot does not notice the write. */
  lemma WriteElsewhere(a: Arena, files: Files, slot: nat, bytes: Bytes)
    requires slot !in SlotsOf(files)
    ensures Held(a, files) ==> Held(WriteSlot(a, slot, bytes), files)
    ensures Durable(a, files) ==> Durable(WriteSlot(a, slot, bytes), files)
  {
    var b := WriteSlot(a, slot, bytes);
    forall id, i | Maps(files, id, i)
      ensures Ref(files, id, i).slot != slot
      ensures HeldRef(a, Ref(files, id, i)) ==> HeldRef(b, Ref(files, id, i))
    {
      SlotListed(files, id, i);
    }
  }

  // Pigeonhole. -------------------------------------------------------------------

  lemma {:induction false} ValuesNoMore<K, V>(m: map<K, V>)
    ensures |m.Values| <= |m.Keys|
    decreases |m|
  {
    if m != map[] {
      var k :| k in m;
      var rest := m - {k};
      ValuesNoMore(rest);
      forall v | v in m.Values
        ensures v in rest.Values + {m[k]}
      {
        var j :| j in m && m[j] == v;
        assert j == k || (j in rest && rest[j] == v);
      }
      SubsetSmaller(m.Values, rest.Values + {m[k]});
      assert m.Keys == rest.Keys + {k};
    }
  }

  lemma {:induction false} SubsetSmaller<T>(a: set<T>, b: set<T>)
    requires a <= b
    ensures |a| <= |b|
  {
    if a != {} {
      var x :| x in a;
      SubsetSmaller(a - {x}, b - {x});
    }
  }

  /** Fewer slots than coordinates that use one. */
  lemma SlotsNoMore(files: Files, uses: set<(nat, nat)>, slots: set<nat>)
    requires forall c :: c in uses ==> Maps(files, c.0, c.1)
    requires forall s :: s in slots ==> exists c :: c in uses && Ref(files, c.0, c.1).slot == s
    ensures |slots| <= |uses|
  {
    var m := map c | c in uses :: Ref(files, c.0, c.1).slot;
    assert m.Keys == uses;
    forall s | s in slots
      ensures s in m.Values
    {
      var c :| c in uses && Ref(files, c.0, c.1).slot == s;
      assert m[c] == s && c in m;
    }
    ValuesNoMore(m);
    SubsetSmaller(slots, m.Values);
  }

  /** All slots in use: at most two per reserved coordinate, and at most one for a
      coordinate whose working page is the committed one, or absent. */
  lemma UsedSlots(committed: Files, files: Files, coords: set<(nat, nat)>, id: nat, i: nat)
    requires FilesOk(committed) && FilesOk(files)
    requires Coords(committed) <= coords && Coords(files) <= coords && (id, i) in coords
    requires Maps(files, id, i) ==> Ref(files, id, i).slot in SlotsOf(committed)
    ensures |SlotsOf(committed) + SlotsOf(files)| <= 2 * |coords| - 1
  {
    hide FilesOk, Coords, SlotsOf, Maps, Ref;
    var kept := SlotsOf(committed);
    var own := SlotsOf(files) - kept;
    ViewSlots(committed, {}, coords);
    var rest := coords - {(id, i)};
    OwnSlots(files, kept, coords, id, i);
    assert kept - {} == kept;
    assert kept + SlotsOf(files) == kept + own && kept !! own;
    assert |rest| == |coords| - 1;
  }

  lemma OwnSlots(files: Files, kept: set<nat>, coords: set<(nat, nat)>, id: nat, i: nat)
    requires FilesOk(files) && Coords(files) <= coords
    requires Maps(files, id, i) ==> Ref(files, id, i).slot in kept
    ensures |SlotsOf(files) - kept| <= |coords - {(id, i)}|
  {
    hide FilesOk, Coords;
    var uses := set c | c in coords && Maps(files, c.0, c.1) && Ref(files, c.0, c.1).slot !in kept;
    forall s | s in SlotsOf(files) - kept
      ensures exists c :: c in uses && Ref(files, c.0, c.1).slot == s
    {
      var x, k :| x in files && k in files[x].pages && files[x].pages[k].slot == s;
      Reserved(files, x, k);
      assert (x, k) in uses && Ref(files, (x, k).0, (x, k).1).slot == s;
    }
    SlotsNoMore(files, uses, SlotsOf(files) - kept);
    assert uses <= coords - {(id, i)};
    SubsetSmaller(uses, coords - {(id, i)});
  }

  lemma ViewSlots(files: Files, kept: set<nat>, coords: set<(nat, nat)>)
    requires FilesOk(files) && Coords(files) <= coords
    ensures |SlotsOf(files) - kept| <= |coords|
  {
    hide FilesOk, Coords;
    var uses := set c | c in coords && Maps(files, c.0, c.1);
    forall s | s in SlotsOf(files) - kept
      ensures exists c :: c in uses && Ref(files, c.0, c.1).slot == s
    {
      var x, k :| x in files && k in files[x].pages && files[x].pages[k].slot == s;
      Reserved(files, x, k);
      assert (x, k) in uses && Ref(files, (x, k).0, (x, k).1).slot == s;
    }
    SlotsNoMore(files, uses, SlotsOf(files) - kept);
    SubsetSmaller(uses, coords);
  }

  lemma Reserved(files: Files, id: nat, i: nat)
    requires FilesOk(files) && Maps(files, id, i)
    ensures (id, i) in Coords(files)
  {
    assert NodeOk(files[id]) && PageOk(files[id], i);
  }

  /** The first `n` numbers do not fit into a smaller set. */
  lemma {:induction false} FreeSlot(used: set<nat>, n: nat) returns (slot: nat)
    requires |used| < n
    ensures slot < n && slot !in used
  {
    if n - 1 !in used {
      slot := n - 1;
    } else {
      slot := FreeSlot(used - {n - 1}, n - 1);
    }
  }
}
