/** One journal segment file under a crash-prone page cache.

  The unit of storage is a cell: one framed record, or bytes that do not decode
  to one (a hole, a torn write). For every cell, for the file length, for the
  segment header and for the directory entry the model keeps the *set* of values
  a power loss may reveal:

  - a write adds the new value, and a torn mixture, to what a crash may reveal;
    rewriting the only possible value changes nothing;
  - a successful `sync_data` settles exactly what is dirty;
  - a failed `sync_data` settles nothing, yet leaves everything clean, so that
    a later successful sync no longer covers it;
  - a clean page may be dropped and read back as anything a crash may reveal.
 */
module SegmentFile {
  import opened Records

  datatype Cell = Junk | Rec(record: Record)

  datatype SegFile = SegFile(
    base: nat,
    visible: bool,
    present: set<bool>,
    header: set<bool>,
    headerDirty: bool,
    cache: seq<Cell>,
    poss: seq<set<Cell>>,
    dirty: set<nat>,
    lens: set<nat>,
    lenDirty: bool)

  /** What a reader of the file finds after a crash. */
  datatype SegImage = SegImage(index: nat, header: bool, base: nat, cells: seq<Cell>)

  ghost predicate WellFormed(f: SegFile) {
    && f.base >= 1
    && |f.cache| <= |f.poss|
    && (forall i :: 0 <= i < |f.cache| ==> f.cache[i] in f.poss[i])
    && (forall i :: i in f.dirty ==> i < |f.cache|)
    && |f.cache| in f.lens
    && (forall l :: l in f.lens ==> l <= |f.poss|)
  }

  ghost predicate IsImage(f: SegFile, index: nat, im: SegImage) {
    && im.index == index
    && im.base == f.base
    && im.header in f.header
    && |im.cells| in f.lens
    && |im.cells| <= |f.poss|
    && forall i :: 0 <= i < |im.cells| ==> im.cells[i] in f.poss[i]
  }

  /** Every crash reveals the first `k` cells as the accepted history has them. */
  ghost predicate Solid(f: SegFile, k: nat, log: seq<Record>) {
    && f.base >= 1
    && f.header == {true}
    && k <= |f.poss|
    && f.base + k <= |log| + 1
    && (forall l :: l in f.lens ==> k <= l)
    && (forall i :: 0 <= i < k ==> f.poss[i] == {Rec(log[f.base + i - 1])})
  }

  /** Every crash reveals exactly the file's records and nothing after them. */
  ghost predicate Settled(f: SegFile, log: seq<Record>) {
    && WellFormed(f)
    && Solid(f, |f.cache|, log)
    && f.lens == {|f.cache|}
  }

  /** No crash reveals a record that no append wrote at that position. */
  ghost predicate Honest(f: SegFile, issued: set<Record>) {
    forall i, c :: 0 <= i < |f.poss| && c in f.poss[i] ==>
      c == Junk || (c.record in issued && c.record.sequence == f.base + i)
  }

  /** A freshly created inode: nothing written, dirent not yet durable. */
  function Created(base: nat): SegFile {
    SegFile(base, true, {true, false}, {false}, false, [], [], {}, {0}, false)
  }

  function WriteHeader(f: SegFile): SegFile {
    f.(header := f.header + {true}, headerDirty := true)
  }

  /** `set_len` to no more than the visible length. */
  function Truncate(f: SegFile, n: nat): SegFile
    requires n <= |f.cache|
  {
    f.(cache := f.cache[..n], dirty := (set i | i in f.dirty && i < n),
       lens := f.lens + {n}, lenDirty := true)
  }

  function Merge(s: set<Cell>, c: Cell): set<Cell> {
    if s == {c} then s else s + {c, Junk}
  }

  /** `allocate_range` of one more cell: the file grows by zeroes. */
  function Extend(f: SegFile): SegFile
    requires |f.cache| <= |f.poss|
  {
    var k := |f.cache|;
    var poss := if k < |f.poss| then f.poss[k := f.poss[k] + {Junk}] else f.poss + [{Junk}];
    f.(cache := f.cache + [Junk], poss := poss, dirty := f.dirty + {k},
       lens := f.lens + {k + 1}, lenDirty := true)
  }

  /** `write_at` of one whole cell inside the visible length. */
  function Put(f: SegFile, i: nat, c: Cell): SegFile
    requires i < |f.cache| <= |f.poss|
  {
    f.(cache := f.cache[i := c], poss := f.poss[i := Merge(f.poss[i], c)], dirty := f.dirty + {i})
  }

  function SettledCells(f: SegFile): (p: seq<set<Cell>>)
    requires |f.cache| <= |f.poss|
    ensures |p| == |f.poss|
  {
    seq(|f.poss|, i requires 0 <= i < |f.poss| =>
      if i in f.dirty && i < |f.cache| then {f.cache[i]} else f.poss[i])
  }

  /** A successful `sync_data`: everything dirty is what a crash reveals. */
  function SyncOk(f: SegFile): SegFile
    requires |f.cache| <= |f.poss|
  {
    var cells := SettledCells(f);
    f.(header := if f.headerDirty then {true} else f.header, headerDirty := false,
       poss := if f.lenDirty then cells[..|f.cache|] else cells,
       dirty := {}, lens := if f.lenDirty then {|f.cache|} else f.lens, lenDirty := false)
  }

  /** A failed `sync_data`: nothing is settled, yet nothing is dirty any more. */
  function SyncFailed(f: SegFile): SegFile {
    f.(headerDirty := false, dirty := {}, lenDirty := false)
  }

  // What each file operation keeps: a well-formed file, the `k` records it
  // already holds for certain, and the honesty of every other cell.

  ghost predicate Keeps(f: SegFile, k: nat, log: seq<Record>, issued: set<Record>) {
    WellFormed(f) && Solid(f, k, log) && Honest(f, issued)
  }

  lemma TruncateKeeps(f: SegFile, n: nat, k: nat, log: seq<Record>, issued: set<Record>)
    requires Keeps(f, k, log, issued) && k <= n <= |f.cache|
    ensures Keeps(Truncate(f, n), k, log, issued)
  {
  }

  lemma ExtendKeeps(f: SegFile, k: nat, log: seq<Record>, issued: set<Record>)
    requires Keeps(f, k, log, issued) && k <= |f.cache|
    ensures Keeps(Extend(f), k, log, issued)
  {
    var g := Extend(f);
    assert forall i :: 0 <= i < |f.poss| && i != |f.cache| ==> g.poss[i] == f.poss[i];
    assert WellFormed(g);
    assert Solid(g, k, log);
  }

  lemma PutKeeps(f: SegFile, i: nat, c: Cell, k: nat, log: seq<Record>, issued: set<Record>)
    requires Keeps(f, k, log, issued) && i < |f.cache|
    requires i < k ==> f.poss[i] == {c}
    requires c == Junk || (c.record in issued && c.record.sequence == f.base + i)
    ensures Keeps(Put(f, i, c), k, log, issued)
  {
  }

  lemma SyncOkKeeps(f: SegFile, k: nat, log: seq<Record>, issued: set<Record>)
    requires Keeps(f, k, log, issued) && k <= |f.cache|
    ensures Keeps(SyncOk(f), k, log, issued)
  {
    var g := SyncOk(f);
    forall i | 0 <= i < |g.poss|
      ensures g.poss[i] == if i in f.dirty && i < |f.cache| then {f.cache[i]} else f.poss[i]
    {
    }
  }

  lemma SyncFailedKeeps(f: SegFile, k: nat, log: seq<Record>, issued: set<Record>)
    requires Keeps(f, k, log, issued)
    ensures Keeps(SyncFailed(f), k, log, issued)
  {
  }
}
