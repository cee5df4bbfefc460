/** The copy-on-write backing: two views over one arena, one independent witness.

  A commit syncs the arena, writes the manifest slot that is not in use, and
  then moves the witness. Only the witness decides which manifest counts, so a
  crash at any step leaves the last committed manifest or the one in flight.
  The manifest's hash is taken as injective: the witness names the manifest.
 */
module Rollback {
  import opened Records
  import opened Pages
  import opened Arena

  const MAX_ENTRIES: nat := 4096

  const MAX_CAPACITY: nat := 0x4000_0000

  /** A path as its components; the root directory is the empty path. */
  type Path = seq<string>

  datatype Entry = Directory | File(id: nat)

  type Entries = map<Path, Entry>

  datatype Manifest = Manifest(generation: nat, capacity: nat, nextId: nat, entries: Entries, files: Files)

  /** What is on stable storage, as far as a crash can tell. */
  datatype Disk = Disk(arena: Arena, manifests: seq<set<Option<Manifest>>>, anchors: set<Manifest>)

  function Parent(name: Path): Path
    requires name != []
  {
    name[..|name| - 1]
  }

  function IdsOf(entries: Entries): set<nat> {
    set n | n in entries && entries[n].File? :: entries[n].id
  }

  /** Every file entry has its node, and no node has two entries. */
  ghost predicate Linked(entries: Entries, files: Files) {
    && (forall n :: n in entries && entries[n].File? ==> entries[n].id in files)
    && (forall n, m :: n in entries && m in entries && entries[n].File? && entries[m] == entries[n] ==> n == m)
  }

  ghost predicate Parented(entries: Entries) {
    forall n :: n in entries ==> n != [] && (Parent(n) == [] || IsDirectory(entries, Parent(n)))
  }

  predicate IsDirectory(entries: Entries, name: Path) {
    name in entries && entries[name] == Directory
  }

  /** A file never changes directory, and directories are never removed. */
  ghost predicate Settles(committed: Entries, working: Entries) {
    && (forall n, m :: n in committed && m in working && committed[n].File? && working[m] == committed[n] && n != [] && m != [] ==>
          Parent(n) == Parent(m))
    && (forall n :: IsDirectory(committed, n) ==> IsDirectory(working, n))
  }

  ghost predicate InRange(files: Files, capacity: nat) {
    forall id, i :: Maps(files, id, i) ==> Ref(files, id, i).slot < 2 * (capacity / PAGE)
  }

  ghost predicate IdsBelow(files: Files, nextId: nat) {
    forall id :: id in files ==> 0 < id < nextId
  }

  /** What `Manifest::validate` checks, and what the page digests vouch for: bytes
      behind the end of a file are zero. */
  ghost predicate Validates(m: Manifest) {
    && 0 < m.capacity <= MAX_CAPACITY && m.capacity % PAGE == 0 && m.nextId > 0
    && |m.entries| <= MAX_ENTRIES && |m.files| <= MAX_ENTRIES
    && Parented(m.entries) && Linked(m.entries, m.files)
    && IdsBelow(m.files, m.nextId)
    && FilesOk(m.files) && Apart(m.files, m.files) && InRange(m.files, m.capacity)
    && |Coords(m.files)| <= m.capacity / PAGE
  }

  /** Every crash finds the manifest and all its pages. */
  ghost predicate Supported(d: Disk, m: Manifest) {
    && |d.manifests| == 2
    && (exists s :: 0 <= s < 2 && d.manifests[s] == {Some(m)})
    && Durable(d.arena, m.files)
  }

  /** A crash point: the manifest last committed, and the one in flight, if any. */
  datatype Point = Point(disk: Disk, last: Manifest, flying: Option<Manifest>)

  ghost predicate PointOk(p: Point) {
    && |p.disk.manifests| == 2
    && p.disk.anchors != {}
    && (forall m :: m in p.disk.anchors ==>
          (m == p.last || p.flying == Some(m)) && Validates(m) && Supported(p.disk, m))
  }

  /** The points `b` adds to `a`: `m` is committed and nothing is in flight. */
  ghost predicate Quiet(a: seq<Point>, b: seq<Point>, m: Manifest) {
    a <= b && forall k :: |a| <= k < |b| ==> b[k].last == m && b[k].flying == None
  }

  /** A commit that moves from `m` to `n`, at one point. */
  ghost predicate Between(m: Manifest, n: Manifest, p: Point) {
    (p.last == m && p.flying in {None, Some(n)}) || (p.last == n && p.flying == None)
  }

  ghost predicate Moves(a: seq<Point>, b: seq<Point>, m: Manifest, n: Manifest) {
    a <= b && forall k :: |a| <= k < |b| ==> Between(m, n, b[k])
  }

  /** `n` is `m`, or a later manifest with the same names and the same contents but for
      zeroes at the end of files and files that nothing could reach. */
  ghost predicate Padded(m: Manifest, n: Manifest) {
    n == m || (n.generation > m.generation && n.entries == m.entries && n.capacity == m.capacity && ZeroExtended(m.files, n.files))
  }

  ghost predicate PadsPoint(m: Manifest, p: Point) {
    Padded(m, p.last) && (p.flying.Some? ==> Padded(m, p.flying.value))
  }

  ghost predicate Pads(a: seq<Point>, b: seq<Point>, m: Manifest) {
    a <= b && forall k :: |a| <= k < |b| ==> PadsPoint(m, b[k])
  }

  /** The working view beside the committed one. */
  datatype Views = Views(committed: Manifest, entries: Entries, files: Files, handles: map<nat, nat>, nextId: nat)

  ghost predicate PagesOk(c: Files, w: Files, capacity: nat) {
    && FilesOk(c) && FilesOk(w)
    && Apart(c, c) && Apart(w, w) && Apart(c, w)
    && InRange(c, capacity) && InRange(w, capacity)
    && |Coords(c) + Coords(w)| <= capacity / PAGE
  }

  ghost predicate NamesOk(v: Views) {
    && Parented(v.committed.entries) && Parented(v.entries)
    && Linked(v.committed.entries, v.committed.files) && Linked(v.entries, v.files)
    && Settles(v.committed.entries, v.entries)
    && IdsBelow(v.committed.files, v.nextId) && IdsBelow(v.files, v.nextId)
    && v.handles.Keys <= v.files.Keys
    && v.nextId > 0
  }

  ghost predicate ViewsOk(v: Views) {
    && Validates(v.committed)
    && PagesOk(v.committed.files, v.files, v.committed.capacity)
    && NamesOk(v)
  }

  ghost predicate DiskOk(d: Disk, v: Views, manifestSlot: nat) {
    && |d.manifests| == 2 && manifestSlot < 2
    && d.anchors == {v.committed}
    && d.manifests[manifestSlot] == {Some(v.committed)}
    && Durable(d.arena, v.committed.files) && Held(d.arena, v.committed.files)
    && Held(d.arena, v.files)
  }

  function Keep(v: Views, candidate: Entries): set<nat> {
    IdsOf(candidate) + IdsOf(v.entries) + v.handles.Keys
  }

  function Retain(files: Files, keep: set<nat>): Files {
    map id | id in files && id in keep :: files[id]
  }

  /** The manifest `commit` publishes for a candidate. */
  function Committed(v: Views, entries: Entries, files: Files): Manifest {
    Manifest(v.committed.generation + 1, v.committed.capacity, v.nextId, entries, Retain(files, Keep(v, entries)))
  }

  /** The manifests `reclaim_closed_files`, `sync_data` and `sync_dir` commit. */
  function Recommitted(v: Views): Manifest {
    Committed(v, v.committed.entries, v.committed.files)
  }

  function Synced(v: Views, id: nat): Manifest
    requires id in v.files
  {
    Committed(v, v.committed.entries, v.committed.files[id := v.files[id]])
  }

  function SyncedNames(v: Views, dir: Path): Manifest {
    Committed(v, SyncedEntries(v.committed.entries, v.entries, dir), SyncedFiles(v.committed.files, v.entries, dir))
  }

  /** A candidate file takes its pages from one of the two views. */
  ghost predicate Drawn(files: Files, c: Files, w: Files) {
    forall id :: id in files ==> DrawnNode(files[id], id, c, w)
  }

  ghost predicate DrawnNode(node: Node, id: nat, c: Files, w: Files) {
    || (id in c && node.pages == c[id].pages)
    || (id in w && node.pages == w[id].pages)
    || node.pages == map[]
  }

  /** A candidate that `commit` may publish. */
  ghost predicate Committable(v: Views, entries: Entries, files: Files) {
    && Parented(entries) && Linked(entries, files) && Settles(entries, v.entries)
    && FilesOk(files) && IdsBelow(files, v.nextId)
    && Drawn(files, v.committed.files, v.files)
    && |Coords(files) + Coords(v.files)| <= v.committed.capacity / PAGE
  }

  /** `State` and the files opened over it. */
  class Backing {
    var disk: Disk
    var committed: Manifest
    var manifestSlot: nat
    var entries: Entries
    var files: Files
    var handles: map<nat, nat>
    var nextId: nat
    var poisoned: bool
    var committedSlots: set<nat>
    var usedSlots: Option<set<nat>>
    var freeHint: nat
    /** Every disk state this session left behind. */
    ghost var crashes: seq<Point>

    ghost function Now(): Views
      reads this`committed, this`entries, this`files, this`handles, this`nextId
    {
      Views(committed, entries, files, handles, nextId)
    }

    ghost predicate CrashesOk()
      reads this`crashes
    {
      forall k :: 0 <= k < |crashes| ==> PointOk(crashes[k])
    }

    ghost predicate SlotsKnown()
      reads this`committed, this`files, this`committedSlots, this`usedSlots
    {
      && committedSlots == SlotsOf(committed.files)
      && (usedSlots.Some? ==> usedSlots.value == committedSlots + SlotsOf(files))
    }

    /** A stopped session keeps nothing but what a crash would find. */
    ghost predicate Valid()
      reads this
    {
      && CrashesOk()
      && ViewsOk(Now())
      && (!poisoned ==> DiskOk(disk, Now(), manifestSlot) && SlotsKnown())
      && (poisoned ==> |crashes| > 0 && crashes[|crashes| - 1].disk == disk && crashes[|crashes| - 1].last == committed)
    }

    lemma InOrder()
      requires Valid()
      ensures ViewsOk(Now())
    {
    }

    /** A session over an authenticated manifest: the working view starts as its copy. */
    constructor (disk: Disk, manifest: Manifest, slot: nat)
      requires Validates(manifest) && DiskOk(disk, Fresh(manifest), slot)
      ensures Valid() && !poisoned && this.disk == disk && committed == manifest
      ensures entries == manifest.entries && files == manifest.files && handles == map[] && nextId == manifest.nextId && crashes == []
    {
      this.disk, committed, manifestSlot := disk, manifest, slot;
      entries, files, handles, nextId := manifest.entries, manifest.files, map[], manifest.nextId;
      poisoned, usedSlots, freeHint := false, None, 0;
      committedSlots := SlotsOf(manifest.files);
      crashes := [];
      new;
      hide DiskOk, SlotsOf, Validates;
      FreshOk(manifest);
    }

    /** One I/O step: the only place where the disk changes. */
    method Io(d: Disk, ghost last: Manifest, ghost flying: Option<Manifest>)
      requires CrashesOk() && PointOk(Point(d, last, flying))
      modifies this`disk, this`crashes
      ensures CrashesOk() && disk == d && crashes == old(crashes) + [Point(d, last, flying)]
    {
      hide PointOk;
      disk := d;
      crashes := crashes + [Point(d, last, flying)];
    }

    /** Stop the session: every later operation refuses. */
    method Poison()
      requires Valid()
      modifies this`poisoned, this`disk, this`crashes
      ensures Valid() && poisoned && disk == old(disk) && Quiet(old(crashes), crashes, committed)
      ensures if old(poisoned) then crashes == old(crashes) else |old(crashes)| < |crashes|
    {
      hide PointOk, ViewsOk, DiskOk;
      if !poisoned {
        StillSupported(disk, Now(), manifestSlot);
        Io(disk, committed, None);
        poisoned := true;
      }
    }

    /** `check`: refuse a stopped session; a witness that moved stops it. */
    method Check() returns (ok: bool)
      requires Valid()
      modifies this`poisoned, this`disk, this`crashes
      ensures Valid() && old(crashes) <= crashes && Quiet(old(crashes), crashes, committed)
      ensures old(poisoned) ==> !ok && poisoned && crashes == old(crashes)
      ensures ok ==> !poisoned && disk == old(disk) && crashes == old(crashes)
      ensures !old(poisoned) && poisoned ==> |old(crashes)| < |crashes| && disk.anchors == {committed}
    {
      hide PointOk, ViewsOk, DiskOk;
      if poisoned {
        return false;
      }
      ok := *;
      SlotBounds(disk, Now(), manifestSlot);
      if !ok {
        var stops: bool := *;
        if stops {
          Poison();
        }
      }
    }

    /** Publish a candidate. On success it is what every crash finds from now on;
        on failure the session stops, unless nothing was written. */
    method Commit(candidate: Entries, contents: Files) returns (ok: bool)
      requires Valid() && Committable(Now(), candidate, contents)
      modifies this
      ensures old(crashes) <= crashes && (poisoned && !old(poisoned) ==> |old(crashes)| < |crashes|)
      ensures Valid() && entries == old(entries) && handles == old(handles) && nextId == old(nextId)
      ensures ok ==> !poisoned && committed == Committed(old(Now()), candidate, contents)
      ensures ok ==> files == Retain(old(files), Keep(old(Now()), candidate))
      ensures !ok ==> committed == old(committed) && files == old(files)
      ensures Moves(old(crashes), crashes, old(committed), Committed(old(Now()), candidate, contents))
      ensures old(poisoned) ==> !ok && poisoned && crashes == old(crashes)
      ensures !old(poisoned) && poisoned ==> disk.anchors <= {committed, Committed(old(Now()), candidate, contents)}
    {
      hide PointOk, ViewsOk, DiskOk, Committable, Committed, Retain, Keep, Published, SlotsOf, IdsOf, Validates;
      ok := Check();
      if !ok { return; }
      ok := CommitChecked(candidate, contents);
    }

    /** `commit` of a session that is not stopped. */
    method CommitChecked(candidate: Entries, contents: Files) returns (ok: bool)
      requires Valid() && !poisoned && Committable(Now(), candidate, contents)
      modifies this
      ensures old(crashes) <= crashes && (poisoned && !old(poisoned) ==> |old(crashes)| < |crashes|)
      ensures Valid() && entries == old(entries) && handles == old(handles) && nextId == old(nextId)
      ensures ok ==> !poisoned && committed == Committed(old(Now()), candidate, contents)
      ensures ok ==> files == Retain(old(files), Keep(old(Now()), candidate))
      ensures !ok ==> committed == old(committed) && files == old(files)
      ensures Moves(old(crashes), crashes, old(committed), Committed(old(Now()), candidate, contents))
      ensures poisoned ==> disk.anchors <= {committed, Committed(old(Now()), candidate, contents)}
    {
      hide Moves, Backing.CrashesOk, PointOk, ViewsOk, DiskOk, Committable, Committed, Retain, Keep, Published, SlotsOf, IdsOf, Validates;
      ghost var v := Now();
      var keep := IdsOf(candidate) + IdsOf(entries) + handles.Keys;
      var m := Manifest(committed.generation + 1, committed.capacity, nextId, candidate, Retain(contents, keep));
      CommittedIs(v, candidate, contents);
      MovesNothing(crashes, committed, m);
      var encodable: bool := *;
      if !encodable || m.generation > U64_MAX || |m.entries| > MAX_ENTRIES || |m.files| > MAX_ENTRIES {
        return false;
      }
      CommitViews(v, candidate, contents);
      ok := PublishManifest(m, candidate, contents);
      if ok {
        Install(m, keep, candidate, contents);
      }
    }

    /** The published manifest becomes the committed view. */
    method Install(m: Manifest, keep: set<nat>, ghost candidate: Entries, ghost contents: Files)
      requires CrashesOk() && !poisoned && Published(disk, Now(), candidate, contents, manifestSlot)
      requires m == Committed(Now(), candidate, contents) && keep == Keep(Now(), candidate)
      requires ViewsOk(Now().(committed := m, files := Retain(files, keep)))
      modifies this`committed, this`manifestSlot, this`files, this`committedSlots, this`usedSlots
      ensures Valid() && committed == m && files == Retain(old(files), keep)
    {
      hide PointOk, ViewsOk, Committed, Retain, Keep, SlotsOf, Held, Durable;
      AfterCommit(disk, Now(), candidate, contents, 1 - manifestSlot);
      committed, manifestSlot := m, 1 - manifestSlot;
      files := Retain(files, keep);
      committedSlots := SlotsOf(committed.files);
      usedSlots := None;
    }

    /** The three ordered steps: arena, manifest slot, witness. */
    method PublishManifest(m: Manifest, ghost candidate: Entries, ghost contents: Files) returns (ok: bool)
      requires Valid() && !poisoned && Committable(Now(), candidate, contents) && m == Committed(Now(), candidate, contents)
      requires Validates(m)
      modifies this`disk, this`crashes, this`poisoned
      ensures CrashesOk() && (!ok ==> Valid() && poisoned)
      ensures ok ==> !poisoned && Published(disk, Now(), candidate, contents, manifestSlot)
      ensures old(crashes) < crashes && Moves(old(crashes), crashes, committed, m)
      ensures !ok ==> disk.anchors <= {committed, m}
    {
      hide PointOk, ViewsOk, DiskOk, Committable, Committed, Validates, Held, Durable, SlotsOf, SyncArena;
      SlotBounds(disk, Now(), manifestSlot);
      ok := SyncStep();
      if !ok { return; }
      CandidateDurable(old(disk), Now(), candidate, contents, manifestSlot);
      ok := ManifestStep(m);
      if !ok { return; }
      ok := WitnessStep(m);
    }


    method SyncStep() returns (ok: bool)
      requires Valid() && !poisoned
      modifies this`disk, this`crashes, this`poisoned
      ensures Valid() && poisoned == !ok && disk == old(disk).(arena := SyncArena(old(disk).arena, ok))
      ensures |old(crashes)| < |crashes| && Quiet(old(crashes), crashes, committed)
    {
      hide PointOk, ViewsOk, DiskOk, SlotsOf, SyncArena;
      ok := *;
      ArenaSynced(disk, Now(), manifestSlot, ok);
      Io(disk.(arena := SyncArena(disk.arena, ok)), committed, None);
      poisoned := !ok;
    }

    method ManifestStep(m: Manifest) returns (ok: bool)
      requires Valid() && !poisoned
      modifies this`disk, this`crashes, this`poisoned
      ensures Valid() && poisoned == !ok && manifestSlot < 2 == |disk.manifests|
      ensures disk == old(disk).(manifests := disk.manifests) && (ok ==> disk.manifests[1 - manifestSlot] == {Some(m)})
      ensures |old(crashes)| < |crashes| && Moves(old(crashes), crashes, committed, m)
    {
      hide PointOk, ViewsOk, DiskOk, SlotsOf;
      SlotBounds(disk, Now(), manifestSlot);
      var content := disk.manifests[1 - manifestSlot] + {None, Some(m)};
      ManifestWritten(disk, Now(), manifestSlot, m, content);
      Io(disk.(manifests := disk.manifests[1 - manifestSlot := content]), committed, Some(m));
      ok := *;
      if !ok {
        poisoned := true;
        return;
      }
      ManifestWritten(disk, Now(), manifestSlot, m, {Some(m)});
      Io(disk.(manifests := disk.manifests[1 - manifestSlot := {Some(m)}]), committed, Some(m));
    }

    method WitnessStep(m: Manifest) returns (ok: bool)
      requires Valid() && !poisoned && Validates(m) && manifestSlot < 2 == |disk.manifests|
      requires disk.manifests[1 - manifestSlot] == {Some(m)} && Durable(disk.arena, m.files)
      modifies this`disk, this`crashes, this`poisoned
      ensures CrashesOk() && poisoned == !ok && (!ok ==> Valid())
      ensures if ok then disk == old(disk).(anchors := {m}) else disk == old(disk).(anchors := {committed, m})
      ensures |old(crashes)| < |crashes| && Moves(old(crashes), crashes, committed, m)
    {
      hide PointOk, ViewsOk, DiskOk, Validates, Durable, SlotsOf;
      WitnessMoves(disk, Now(), manifestSlot, m);
      SlotBounds(disk, Now(), manifestSlot);
      assert disk.anchors + {m} == {committed, m};
      Io(disk.(anchors := disk.anchors + {m}), committed, Some(m));
      ok := *;
      if !ok {
        poisoned := true;
        return;
      }
      Io(disk.(anchors := {m}), m, None);
    }

    /** A slot that neither view uses. There always is one for a reserved coordinate
        whose working page is absent or still the committed one. */
    method AllocateSlot(ghost id: nat, ghost i: nat) returns (slot: nat)
      requires Valid() && !poisoned && id in files && i in files[id].reserved
      requires Maps(files, id, i) ==> Ref(files, id, i).slot in committedSlots
      modifies this`usedSlots, this`freeHint
      ensures slot < 2 * (committed.capacity / PAGE)
      ensures slot !in committedSlots && slot !in SlotsOf(files)
      ensures usedSlots == Some(committedSlots + SlotsOf(files) + {slot})
    {
      hide PointOk, ViewsOk, DiskOk, SlotsOf;
      var slots := 2 * (committed.capacity / PAGE);
      if usedSlots.None? {
        usedSlots, freeHint := Some(committedSlots + SlotsOf(files)), 0;
      }
      var used := usedSlots.value;
      ghost var free := RoomLeft(Now(), id, i);
      var start := if freeHint <= slots then freeHint else slots;
      slot := start;
      while slot < slots && slot in used
        invariant start <= slot <= slots
        invariant forall s :: start <= s < slot ==> s in used
      {
        slot := slot + 1;
      }
      if slot == slots {
        slot := 0;
        while slot < start && slot in used
          invariant 0 <= slot <= start
          invariant forall s :: 0 <= s < slot ==> s in used
        {
          slot := slot + 1;
        }
        assert free < start;
      }
      usedSlots, freeHint := Some(used + {slot}), slot + 1;
    }

    /** Write one page: in place if it was written since the last commit, else to a
        fresh slot. The committed manifest's pages are never touched. */
    method WritePage(id: nat, i: nat, bytes: Bytes) returns (ok: bool, slot: nat)
      requires Valid() && !poisoned && id in files && i in files[id].reserved
      requires NodeOk(SetPage(files[id], i, 0, bytes))
      modifies this`disk, this`files, this`poisoned, this`crashes, this`usedSlots, this`freeHint
      ensures old(crashes) <= crashes && (poisoned && !old(poisoned) ==> |old(crashes)| < |crashes|)
      ensures Valid() && poisoned == !ok
      ensures ok ==> files == old(files)[id := SetPage(old(files)[id], i, slot, bytes)]
      ensures !ok ==> files == old(files)
      ensures ok ==> SlotsOf(committed.files) * {slot} == {}
      ensures Quiet(old(crashes), crashes, committed)
    {
      hide PointOk, ViewsOk, DiskOk, SlotsOf, NodeOk, WriteSlot;
      ghost var v := Now();
      if i in files[id].pages && files[id].pages[i].slot !in committedSlots {
        slot := files[id].pages[i].slot;
        SlotListed(files, id, i);
        SlotInRange(v, id, i);
      } else {
        slot := AllocateSlot(id, i);
      }
      AnySlot(files[id], i, 0, slot, bytes);
      MapPage(v, id, i, slot, bytes);
      MapDisk(disk, v, id, i, slot, bytes, manifestSlot);
      MapSlots(files, id, i, slot, bytes, committedSlots);
      ok := *;
      Io(disk.(arena := WriteSlot(disk.arena, slot, bytes)), committed, None);
      if !ok {
        poisoned := true;
        return;
      }
      files := files[id := SetPage(files[id], i, slot, bytes)];
    }

    /** Read and authenticate one page; the working view never holds a page that
        does not match its reference. */
    method ReadOne(id: nat, i: nat) returns (ok: bool, bytes: Bytes)
      requires Valid() && !poisoned && id in files
      modifies this`poisoned, this`disk, this`crashes
      ensures old(crashes) <= crashes && (poisoned && !old(poisoned) ==> |old(crashes)| < |crashes|)
      ensures Valid() && disk == old(disk) && poisoned == !ok && Quiet(old(crashes), crashes, committed)
      ensures ok ==> bytes == PageBytes(files[id], i) && |bytes| == PAGE
    {
      hide PointOk, ViewsOk, Held, Durable;
      ok := true;
      PageIsSized(Now(), id, i);
      bytes := Zeros(PAGE);
      if i in files[id].pages {
        ok := *;
        if !ok {
          Poison();
          return;
        }
        PageIsHeld(disk, Now(), manifestSlot, id, i);
        bytes := disk.arena.cache[files[id].pages[i].slot];
      }
    }

    /** `read_at` is that part of the flat file. */
    method ReadAt(id: nat, offset: nat, len: nat) returns (ok: bool, out: Bytes)
      requires Valid() && id in handles
      modifies this`poisoned, this`disk, this`crashes
      ensures old(crashes) <= crashes && (poisoned && !old(poisoned) ==> |old(crashes)| < |crashes|)
      ensures Valid() && Quiet(old(crashes), crashes, committed) && (old(poisoned) ==> !ok && poisoned && crashes == old(crashes))
      ensures ok ==> id in files && NodeOk(files[id]) && offset + len <= files[id].len
      ensures ok ==> out == Flat(files[id])[offset..offset + len]
    {
      hide Backing.Valid, PointOk, ViewsOk, DiskOk, SlotsOf, NodeOk, PageBytes, Quiet, Flat, Least;
      out := [];
      InOrder();
      HandleOpen(Now(), id);
      ok := Check();
      if !ok { return; }
      var end := offset + len;
      if end > U64_MAX || end > files[id].len {
        return false, out;
      }
      ghost var flat := Flat(files[id]);
      var at := offset;
      while at < end
        invariant old(crashes) <= crashes && Valid() && !poisoned && offset <= at <= end && Quiet(old(crashes), crashes, committed)
        invariant out == flat[offset..at]
        decreases end - at
      {
        var page, start := at / PAGE, at % PAGE;
        var bytes;
        ghost var points := crashes;
        ok, bytes := ReadOne(id, page);
        QuietTwice(old(crashes), points, crashes, committed);
        if !ok { return; }
        ReadNext(files[id], offset, at, end);
        var count := Least(PAGE - start, end - at);
        out := out + bytes[start..start + count];
        at := at + count;
      }
    }

    /** Forget files that no view, entry or handle needs any more. */
    method ReclaimClosedFiles() returns (ok: bool)
      requires Valid()
      modifies this
      ensures old(crashes) <= crashes && (poisoned && !old(poisoned) ==> |old(crashes)| < |crashes|)
      ensures Valid() && entries == old(entries) && handles == old(handles) && nextId == old(nextId)
      ensures committed.entries == old(committed).entries && committed.capacity == old(committed).capacity
      ensures Trimmed(old(committed).files, committed.files) && Trimmed(old(files), files)
      ensures !ok ==> files == old(files) && committed == old(committed)
      ensures ok && !old(poisoned) ==> !poisoned
      ensures ok ==> NothingLoose(Now())
      ensures forall x :: x in handles && x in old(committed).files ==> x in committed.files
      ensures Moves(old(crashes), crashes, old(committed), Recommitted(old(Now()))) && committed in {old(committed), Recommitted(old(Now()))}
      ensures old(poisoned) ==> poisoned && crashes == old(crashes)
    {
      hide PointOk, ViewsOk, DiskOk, SlotsOf, Committable;
      ok := true;
      var retained := IdsOf(committed.entries) + IdsOf(entries) + handles.Keys;
      if !(committed.files.Keys + files.Keys <= retained) {
        CommittedAgain(Now());
        ok := Commit(committed.entries, committed.files);
      }
    }

    /** Promise room for a range in both views. The committed view gains nothing
        but zeroes; the working file grows to the end of the range. */
    method Reserve(id: nat, offset: nat, len: nat) returns (ok: bool)
      requires Valid() && !poisoned && id in handles
      modifies this
      ensures old(crashes) <= crashes && (poisoned && !old(poisoned) ==> |old(crashes)| < |crashes|)
      ensures Valid() && entries == old(entries) && handles == old(handles) && nextId == old(nextId)
      ensures committed.entries == old(committed).entries && committed.capacity == old(committed).capacity
      ensures ZeroExtended(old(committed).files, committed.files)
      ensures id in files && id in old(files) && (ok ==> !poisoned) && (ok && len > 0 ==> DivCeil(offset + len) <= LAST_PAGE)
      ensures files[id] == if ok then Grow(old(files)[id], offset, len) else old(files)[id]
      ensures ok && len > 0 ==> id in committed.files && PageRange(offset, offset + len) <= committed.files[id].reserved
      ensures forall x :: x in files && x != id ==> x in old(files) && files[x] == old(files)[x]
      ensures Pads(old(crashes), crashes, old(committed)) && Padded(old(committed), committed)
    {
      hide Backing.Valid, PointOk, ViewsOk, DiskOk, SlotsOf, Committable, Coords, ZeroExtended, Committed, Keep, PageRange, Pads, Padded, Moves, Recommitted, NothingLoose;
      InOrder();
      HandleOpen(Now(), id);
      SameFiles(Now());
      NoRange(files[id], offset);
      PadsNothing(crashes, committed);
      ok := false;
      var end := offset + len;
      if end > U64_MAX { return; }
      if len == 0 {
        return true;
      }
      var range := PageRange(offset, end);
      if DivCeil(end) > LAST_PAGE || |range| > committed.capacity / PAGE {
        return;
      }
      if id in committed.files && range <= committed.files[id].reserved && range <= files[id].reserved {
        GrowWorking(id, offset, len);
        return true;
      }
      ghost var v := Now();
      ok := ReclaimClosedFiles();
      InOrder();
      TrimmedZero(old(committed).files, committed.files, Now());
      HandleOpen(Now(), id);
      RecommitPads(v, old(crashes), crashes, committed);
      if !ok { return; }
      ghost var trimmed, points := committed, crashes;
      ok := ReserveCommitted(id, offset, len);
      ZeroTwice(old(committed).files, trimmed.files, committed.files, id);
      PadsTwice(v, old(crashes), points, crashes, trimmed, committed, id);
      if !ok { return; }
      GrowWorking(id, offset, len);
    }

    /** The committed half of a reservation. */
    method ReserveCommitted(id: nat, offset: nat, len: nat) returns (ok: bool)
      requires Valid() && !poisoned && id in handles && len > 0 && DivCeil(offset + len) <= LAST_PAGE
      modifies this
      ensures old(crashes) <= crashes && (poisoned && !old(poisoned) ==> |old(crashes)| < |crashes|)
      ensures Valid() && entries == old(entries) && handles == old(handles) && nextId == old(nextId)
      ensures committed.entries == old(committed).entries && committed.capacity == old(committed).capacity
      ensures ZeroExtended(old(committed).files, committed.files) && Trimmed(old(files), files) && id in files
      ensures forall x :: x in committed.files ==> x == id || x in old(committed).files
      ensures ok ==> !poisoned && id in committed.files && PageRange(offset, offset + len) <= committed.files[id].reserved
      ensures PadsBy(old(crashes), crashes, old(committed), id) && PaddedBy(old(committed), committed, id)
    {
      hide PointOk, ViewsOk, DiskOk, SlotsOf, Committable, Coords, ZeroExtended, Committed, Keep, PageRange, PadsBy, PaddedBy, Moves;
      PadsByNothing(crashes, committed, id);
      HandleOpen(Now(), id);
      SameFiles(Now());
      var range := PageRange(offset, offset + len);
      var coordinates := Coords(committed.files) + Coords(files) + (set i | i in range :: (id, i));
      if |coordinates| > committed.capacity / PAGE {
        return false;
      }
      var durable := if id in committed.files then committed.files[id] else Node(0, map[], {});
      if id in committed.files && range <= durable.reserved {
        return true;
      }
      ghost var v := Now();
      var candidate := committed.files[id := Grow(durable, offset, len)];
      ReserveCandidate(v, id, offset, len, coordinates);
      CommittedReservation(v, id, offset, len);
      ok := Commit(committed.entries, candidate);
      ReservationPads(v, id, offset, len, old(crashes), crashes);
      HandleOpen(Now(), id);
    }

    method GrowWorking(id: nat, offset: nat, len: nat)
      requires Valid() && !poisoned && id in files && id in committed.files && len > 0 && DivCeil(offset + len) <= LAST_PAGE
      requires PageRange(offset, offset + len) <= committed.files[id].reserved
      modifies this`files
      ensures Valid() && files == old(files)[id := Grow(old(files)[id], offset, len)]
    {
      hide PointOk, ViewsOk, DiskOk, SlotsOf, PageRange;
      var node := Grow(files[id], offset, len);
      WorkingReservation(Now(), id, offset, len);
      ReplaceDisk(disk, Now(), id, node, manifestSlot);
      SameSlotsOf(files, id, node);
      files := files[id := node];
    }

    /** Replace part of one page of a working file. */
    method PatchOne(id: nat, page: nat, start: nat, chunk: Bytes) returns (ok: bool)
      requires Valid() && !poisoned && id in files && NodeOk(files[id]) && page in files[id].reserved
      requires chunk != [] && start + |chunk| <= PAGE && page * PAGE + start + |chunk| <= files[id].len
      modifies this`disk, this`files, this`poisoned, this`crashes, this`usedSlots, this`freeHint
      ensures old(crashes) <= crashes && (poisoned && !old(poisoned) ==> |old(crashes)| < |crashes|)
      ensures Valid() && poisoned == !ok && id in files && NodeOk(files[id])
      ensures files == old(files)[id := files[id]] && files[id].len == old(files)[id].len && files[id].reserved == old(files)[id].reserved
      ensures ok ==> Flat(files[id]) == Splice(Flat(old(files)[id]), page * PAGE + start, chunk)
      ensures ok ==> page in files[id].pages && files[id].pages[page].digest == PatchedPage(PageBytes(old(files)[id], page), start, chunk)
      ensures !ok ==> files == old(files)
      ensures Quiet(old(crashes), crashes, committed)
    {
      hide PointOk, ViewsOk, DiskOk, SlotsOf, NodeOk, PatchedPage;
      var bytes;
      ok, bytes := ReadOne(id, page);
      if !ok { return; }
      bytes := PatchedPage(bytes, start, chunk);
      PatchNode(files[id], page, start, chunk, 0);
      var slot;
      ok, slot := WritePage(id, page, bytes);
      if ok {
        PatchNode(old(files)[id], page, start, chunk, slot);
      }
    }

    /** `write_at` writes the flat file. */
    method WriteAt(id: nat, offset: nat, data: Bytes) returns (ok: bool)
      requires Valid() && id in handles
      modifies this
      ensures old(crashes) <= crashes && (poisoned && !old(poisoned) ==> |old(crashes)| < |crashes|)
      ensures Valid() && entries == old(entries) && handles == old(handles) && nextId == old(nextId)
      ensures ZeroExtended(old(committed).files, committed.files) && committed.entries == old(committed).entries
      ensures forall x :: x in files && x != id ==> x in old(files) && files[x] == old(files)[x]
      ensures id in old(files) && NodeOk(old(files)[id]) && id in files && NodeOk(files[id])
      ensures ok && data == [] ==> Flat(files[id]) == Flat(old(files)[id])
      ensures ok && data != [] ==> Flat(files[id]) == FlatWrite(Flat(old(files)[id]), offset, data)
      ensures Pads(old(crashes), crashes, old(committed)) && Padded(old(committed), committed)
      ensures old(poisoned) ==> !ok && poisoned && crashes == old(crashes)
    {
      hide PointOk, ViewsOk, DiskOk, SlotsOf, NodeOk, ZeroExtended, PageRange, Splice, Pads, Padded, Quiet;
      HandleOpen(Now(), id);
      SameFiles(Now());
      ok := Check();
      PadsNothing(crashes, committed);
      QuietPads(old(crashes), crashes, committed, committed);
      if !ok { return; }
      ok := Reserve(id, offset, |data|);
      HandleOpen(Now(), id);
      if !ok { return; }
      GrowIsOk(old(files)[id], offset, |data|);
      NoRange(old(files)[id], offset);
      if data != [] {
        ghost var points := crashes;
        ok := WritePages(id, offset, data);
        PadsOn(old(crashes), points, crashes, old(committed), committed);
      }
    }

    /** The page loop of a write, inside reserved and existing bytes. */
    method WritePages(id: nat, offset: nat, data: Bytes) returns (ok: bool)
      requires Valid() && !poisoned && id in files && NodeOk(files[id]) && data != []
      requires offset + |data| <= files[id].len && PageRange(offset, offset + |data|) <= files[id].reserved
      modifies this`disk, this`files, this`poisoned, this`crashes, this`usedSlots, this`freeHint
      ensures old(crashes) <= crashes && (poisoned && !old(poisoned) ==> |old(crashes)| < |crashes|)
      ensures Valid() && id in files && NodeOk(files[id]) && files == old(files)[id := files[id]]
      ensures ok ==> !poisoned && Flat(files[id]) == Splice(Flat(old(files)[id]), offset, data)
      ensures Quiet(old(crashes), crashes, committed)
    {
      hide PointOk, ViewsOk, DiskOk, SlotsOf, NodeOk, PageRange, Splice;
      ghost var base := Flat(files[id]);
      var end := offset + |data|;
      var at := offset;
      ok := true;
      NoSplice(base, offset, data);
      while at < end
        invariant ok && Valid() && !poisoned && offset <= at <= end && Quiet(old(crashes), crashes, committed)
        invariant id in files && NodeOk(files[id]) && files == old(files)[id := files[id]]
        invariant files[id].len == |base| && files[id].reserved == old(files)[id].reserved
        invariant Flat(files[id]) == Splice(base, offset, data[..at - offset])
        decreases end - at
      {
        var page, start := at / PAGE, at % PAGE;
        var count := Least(PAGE - start, end - at);
        var chunk := data[at - offset..at - offset + count];
        PageInRange(offset, end, at);
        SpliceTwice(base, offset, data[..at - offset], chunk);
        assert data[..at - offset] + chunk == data[..at + count - offset];
        ok := PatchOne(id, page, start, chunk);
        if !ok { return; }
        at := at + count;
      }
      assert data[..|data|] == data;
    }

    method AllocateRange(id: nat, offset: nat, len: nat) returns (ok: bool)
      requires Valid() && id in handles
      modifies this
      ensures old(crashes) <= crashes && (poisoned && !old(poisoned) ==> |old(crashes)| < |crashes|)
      ensures Valid() && entries == old(entries) && handles == old(handles) && nextId == old(nextId)
      ensures ZeroExtended(old(committed).files, committed.files) && committed.entries == old(committed).entries
      ensures forall x :: x in files && x != id ==> x in old(files) && files[x] == old(files)[x]
      ensures id in old(files) && NodeOk(old(files)[id]) && id in files && NodeOk(files[id])
      ensures ok ==> Flat(files[id]) == if len == 0 then Flat(old(files)[id]) else Grown(Flat(old(files)[id]), offset + len)
      ensures ok ==> forall i :: i in files[id].reserved <==> i in old(files)[id].reserved || Touches(i, offset, len)
      ensures ok && len > 0 ==> id in committed.files && forall i :: Touches(i, offset, len) ==> i in committed.files[id].reserved
      ensures Pads(old(crashes), crashes, old(committed)) && Padded(old(committed), committed)
      ensures old(poisoned) ==> !ok && poisoned && crashes == old(crashes)
    {
      hide PointOk, ViewsOk, DiskOk, SlotsOf, NodeOk, ZeroExtended, PageRange, Pads, Padded, Quiet;
      HandleOpen(Now(), id);
      SameFiles(Now());
      ok := Check();
      PadsNothing(crashes, committed);
      QuietPads(old(crashes), crashes, committed, committed);
      if !ok { return; }
      ok := Reserve(id, offset, len);
      HandleOpen(Now(), id);
      if ok {
        GrowIsOk(old(files)[id], offset, len);
        RangeExactly(offset, len);
      }
    }

    /** `sync_data` copies this file, and only it, into the committed view. */
    method SyncData(id: nat) returns (ok: bool)
      requires Valid() && id in handles
      modifies this
      ensures old(crashes) <= crashes && (poisoned && !old(poisoned) ==> |old(crashes)| < |crashes|)
      ensures Valid() && entries == old(entries) && handles == old(handles) && nextId == old(nextId)
      ensures id in old(files) && Trimmed(old(files), files)
      ensures ok ==> id in files && id in committed.files && committed.files[id] == old(files)[id]
      ensures ok ==> committed.entries == old(committed).entries && Trimmed(old(committed).files[id := old(files)[id]], committed.files)
      ensures !ok ==> committed == old(committed) && files == old(files)
      ensures id in old(files) && Moves(old(crashes), crashes, old(committed), Synced(old(Now()), id))
      ensures ok ==> committed == Synced(old(Now()), id)
      ensures old(poisoned) ==> !ok && poisoned && crashes == old(crashes)
    {
      hide PointOk, ViewsOk, DiskOk, SlotsOf, NodeOk, Committable;
      HandleOpen(Now(), id);
      ok := Check();
      if !ok { return; }
      SyncCandidate(Now(), id);
      ok := Commit(committed.entries, committed.files[id := files[id]]);
    }

    /** Replace a working file by one with fewer pages and no more room. */
    method Shrink(id: nat, node: Node)
      requires Valid() && !poisoned && id in files && NodeOk(node) && Fewer(files[id], node)
      modifies this`files, this`usedSlots
      ensures Valid() && files == old(files)[id := node]
    {
      hide PointOk, ViewsOk, DiskOk, SlotsOf, NodeOk;
      ShrinkViews(Now(), id, node);
      ReplaceDisk(disk, Now(), id, node, manifestSlot);
      files := files[id := node];
      usedSlots := None;
    }

    /** `set_len` cuts the flat file, or grows it by zeroes. */
    method SetLen(id: nat, len: nat) returns (ok: bool)
      requires Valid() && id in handles
      modifies this`disk, this`files, this`poisoned, this`crashes, this`usedSlots, this`freeHint
      ensures old(crashes) <= crashes && (poisoned && !old(poisoned) ==> |old(crashes)| < |crashes|)
      ensures Valid() && id in files && id in old(files) && NodeOk(files[id]) && NodeOk(old(files)[id])
      ensures files == old(files)[id := files[id]]
      ensures ok ==> Flat(files[id]) == FlatSetLen(Flat(old(files)[id]), len)
      ensures ok ==> forall i :: i in files[id].reserved <==> i in old(files)[id].reserved && i * PAGE < len
      ensures Quiet(old(crashes), crashes, committed) && (old(poisoned) ==> !ok && poisoned && crashes == old(crashes))
    {
      hide Backing.Valid, PointOk, ViewsOk, DiskOk, SlotsOf, NodeOk, PatchedPage, Quiet;
      InOrder();
      HandleOpen(Now(), id);
      ok := Check();
      if !ok { return; }
      var page, start := len / PAGE, len % PAGE;
      if len < files[id].len && start != 0 && page in files[id].pages {
        var bytes;
        ok, bytes := ReadOne(id, page);
        if !ok { return; }
        bytes := PatchedPage(bytes, start, Zeros(PAGE - start));
        ZeroTail(files[id], len, 0);
        ReservedPage(files[id], page);
        ghost var points := crashes;
        var slot;
        ok, slot := WritePage(id, page, bytes);
        QuietTwice(old(crashes), points, crashes, committed);
        if !ok { return; }
        ZeroTail(old(files)[id], len, slot);
      }
      TailIsZero(files[id], len);
      ResizeNode(files[id], len);
      FewerResized(files[id], len);
      Shrink(id, Resized(files[id], len));
    }

    /** The part of a hole that lies in one page. */
    method PunchPage(id: nat, at: nat, count: nat) returns (ok: bool)
      requires Valid() && !poisoned && id in files && NodeOk(files[id])
      requires 0 < count <= PAGE - at % PAGE && at + count <= files[id].len
      modifies this`disk, this`files, this`poisoned, this`crashes, this`usedSlots, this`freeHint
      ensures old(crashes) <= crashes && (poisoned ==> |old(crashes)| < |crashes|)
      ensures Valid() && poisoned == !ok && id in files && NodeOk(files[id]) && files == old(files)[id := files[id]]
      ensures files[id].len == old(files)[id].len && Quiet(old(crashes), crashes, committed)
      ensures ok ==> Flat(files[id]) == Splice(Flat(old(files)[id]), at, Zeros(count))
      ensures ok ==> files[id].reserved == old(files)[id].reserved - if at % PAGE == 0 && count == PAGE then {at / PAGE} else {}
    {
      hide PointOk, ViewsOk, DiskOk, SlotsOf, NodeOk, Splice, Flat;
      ok := true;
      var page, start := at / PAGE, at % PAGE;
      assert page * PAGE + start == at;
      if start == 0 && count == PAGE {
        DropNode(files[id], page);
        FewerDropped(files[id], page);
        Shrink(id, DropPage(files[id], page));
      } else if page in files[id].pages {
        ReservedPage(files[id], page);
        ok := PatchOne(id, page, start, Zeros(count));
      } else {
        PunchAbsent(files[id], page, start, count);
      }
    }

    /** `punch_hole` zeroes the range, as far as the file goes. */
    method PunchHole(id: nat, offset: nat, len: nat) returns (ok: bool)
      requires Valid() && id in handles
      modifies this`disk, this`files, this`poisoned, this`crashes, this`usedSlots, this`freeHint
      ensures old(crashes) <= crashes && (poisoned && !old(poisoned) ==> |old(crashes)| < |crashes|)
      ensures Valid() && id in files && id in old(files) && NodeOk(files[id]) && NodeOk(old(files)[id])
      ensures files == old(files)[id := files[id]]
      ensures ok ==> Flat(files[id]) == FlatPunch(Flat(old(files)[id]), offset, offset + len)
      ensures ok ==> Released(old(files)[id].reserved, files[id].reserved, offset, Least(offset + len, old(files)[id].len))
      ensures Quiet(old(crashes), crashes, committed) && (old(poisoned) ==> !ok && poisoned && crashes == old(crashes))
    {
      hide Backing.Valid, PointOk, ViewsOk, DiskOk, SlotsOf, NodeOk, Splice, Released, Quiet, Zeros;
      InOrder();
      HandleOpen(Now(), id);
      ok := Check();
      if !ok { return; }
      if offset + len > U64_MAX {
        return false;
      }
      var end := Least(offset + len, files[id].len);
      if offset >= end {
        NoneReleased(files[id].reserved, offset, end);
        return;
      }
      ghost var base := Flat(files[id]);
      var at := offset;
      NoZeros(base, offset);
      NoneReleased(files[id].reserved, offset, offset);
      while at < end
        invariant old(crashes) <= crashes && ok && Valid() && !poisoned && offset <= at <= end && Quiet(old(crashes), crashes, committed)
        invariant id in files && NodeOk(files[id]) && files == old(files)[id := files[id]] && files[id].len == |base|
        invariant Flat(files[id]) == Splice(base, offset, Zeros(at - offset))
        invariant Released(old(files)[id].reserved, files[id].reserved, offset, at) && (at == offset || at % PAGE == 0 || at == end)
        decreases end - at
      {
        var count := Least(PAGE - at % PAGE, end - at);
        MoreZeros(base, offset, at - offset, count);
        MoreReleased(old(files)[id].reserved, files[id].reserved, offset, at, count);
        ghost var points := crashes;
        ok := PunchPage(id, at, count);
        QuietTwice(old(crashes), points, crashes, committed);
        if !ok { return; }
        at := at + count;
      }
    }

    /** Free capacity; the subtraction never underflows. */
    method FreeBytes() returns (ok: bool, free: nat)
      requires Valid()
      modifies this
      ensures old(crashes) <= crashes && (poisoned && !old(poisoned) ==> |old(crashes)| < |crashes|)
      ensures Valid() && Moves(old(crashes), crashes, old(committed), Recommitted(old(Now()))) && committed in {old(committed), Recommitted(old(Now()))}
      ensures old(poisoned) ==> !ok && poisoned && crashes == old(crashes)
      ensures ok ==> NothingLoose(Now())
      ensures ok ==> free + PAGE * |Coords(committed.files) + Coords(files)| == committed.capacity
    {
      hide PointOk, ViewsOk, DiskOk, SlotsOf, Coords;
      free := 0;
      ok := Check();
      if !ok { return; }
      ok := ReclaimClosedFiles();
      if !ok { return; }
      CapacityCovers(Now());
      free := committed.capacity - |Coords(committed.files) + Coords(files)| * PAGE;
    }

    /** `open`: an existing file, or a new and empty one. */
    method OpenFile(name: Path, create: bool) returns (ok: bool, id: nat)
      requires Valid() && name != []
      modifies this
      ensures old(crashes) <= crashes && (poisoned && !old(poisoned) ==> |old(crashes)| < |crashes|)
      ensures Valid() && committed.entries == old(committed).entries
      ensures ok ==> id in handles && id in files && name in entries && entries[name] == File(id)
      ensures ok && name !in old(entries) ==>
        create && files[id] == Node(0, map[], {}) && id == old(nextId) && entries == old(entries)[name := File(id)]
      ensures ok && name in old(entries) ==> entries == old(entries) && files == old(files)
      ensures ok && name !in old(entries) ==> Trimmed(old(files)[id := Node(0, map[], {})], files)
      ensures !ok ==> entries == old(entries) && Trimmed(old(files), files)
      ensures handles == if ok then old(handles)[id := (if id in old(handles) then old(handles)[id] else 0) + 1] else old(handles)
      ensures Moves(old(crashes), crashes, old(committed), Recommitted(old(Now()))) && committed in {old(committed), Recommitted(old(Now()))}
      ensures old(poisoned) ==> !ok && poisoned && crashes == old(crashes)
    {
      hide PointOk, ViewsOk, DiskOk, SlotsOf;
      id := 0;
      ok := Check();
      if !ok { return; }
      if !(Parent(name) == [] || IsDirectory(entries, Parent(name))) {
        return false, id;
      }
      if name in entries {
        if entries[name] == Directory {
          return false, id;
        }
        id := entries[name].id;
        LinkedFile(Now(), name);
      } else {
        if !create || |entries| >= MAX_ENTRIES {
          return false, id;
        }
        ok, id := CreateFile(name);
        if !ok { return; }
      }
      var count := (if id in handles then handles[id] else 0) + 1;
      AddHandle(Now(), id, count);
      SameDisk(disk, Now(), Now().(handles := handles[id := count]), manifestSlot);
      handles := handles[id := count];
    }

    method CreateFile(name: Path) returns (ok: bool, id: nat)
      requires Valid() && !poisoned && name != [] && name !in entries
      requires Parent(name) == [] || IsDirectory(entries, Parent(name))
      modifies this
      ensures old(crashes) <= crashes && (poisoned && !old(poisoned) ==> |old(crashes)| < |crashes|)
      ensures Valid() && committed.entries == old(committed).entries && handles == old(handles)
      ensures ok ==> !poisoned && id == old(nextId) && id in files && files[id] == Node(0, map[], {})
      ensures ok ==> entries == old(entries)[name := File(id)] && Trimmed(old(files)[id := Node(0, map[], {})], files)
      ensures !ok ==> entries == old(entries) && Trimmed(old(files), files)
      ensures Moves(old(crashes), crashes, old(committed), Recommitted(old(Now()))) && committed in {old(committed), Recommitted(old(Now()))}
    {
      hide PointOk, ViewsOk, DiskOk, SlotsOf, Recommitted, Between, NothingLoose, Trimmed, Moves;
      ok, id := true, 0;
      MovesNothing(crashes, committed, Recommitted(Now()));
      TrimmedSelf(files);
      if |files| >= MAX_ENTRIES {
        ok := ReclaimClosedFiles();
        if !ok { return; }
      }
      if |files| >= MAX_ENTRIES || nextId + 1 > U64_MAX {
        return false, id;
      }
      id := nextId;
      AddFile(Now(), name);
      AddFileDisk(disk, Now(), name, manifestSlot);
      TrimmedGrows(old(files), files, id, Node(0, map[], {}));
      nextId, files, entries := id + 1, files[id := Node(0, map[], {})], entries[name := File(id)];
    }

    /** Drop of a file handle. */
    method Close(id: nat)
      requires Valid() && id in handles
      modifies this`handles
      ensures Valid() && handles - {id} == old(handles) - {id}
      ensures if old(handles)[id] > 1 then id in handles && handles[id] == old(handles)[id] - 1 else id !in handles
    {
      hide PointOk, ViewsOk, DiskOk, SlotsOf;
      var rest := if handles[id] <= 1 then handles - {id} else handles[id := handles[id] - 1];
      DropHandle(Now(), rest);
      if !poisoned { SameDisk(disk, Now(), Now().(handles := rest), manifestSlot); }
      handles := rest;
    }

    method Remove(name: Path) returns (ok: bool)
      requires Valid() && name != []
      modifies this`entries, this`poisoned, this`disk, this`crashes
      ensures old(crashes) <= crashes && (poisoned && !old(poisoned) ==> |old(crashes)| < |crashes|)
      ensures Valid() && entries == if ok then old(entries) - {name} else old(entries)
      ensures Quiet(old(crashes), crashes, committed) && (old(poisoned) ==> !ok && poisoned && crashes == old(crashes))
    {
      hide PointOk, ViewsOk, DiskOk, SlotsOf;
      ok := Check();
      if !ok { return; }
      if name !in entries || entries[name] == Directory {
        return false;
      }
      RemoveName(Now(), name);
      SameDisk(disk, Now(), Now().(entries := entries - {name}), manifestSlot);
      entries := entries - {name};
    }

    method Rename(from: Path, to: Path) returns (ok: bool)
      requires Valid() && from != [] && to != []
      modifies this`entries, this`poisoned, this`disk, this`crashes
      ensures old(crashes) <= crashes && (poisoned && !old(poisoned) ==> |old(crashes)| < |crashes|)
      ensures Valid() && Quiet(old(crashes), crashes, committed) && (old(poisoned) ==> !ok && poisoned && crashes == old(crashes))
      ensures ok ==> from in old(entries) && entries == (old(entries) - {from})[to := old(entries)[from]]
      ensures !ok ==> entries == old(entries)
    {
      hide PointOk, ViewsOk, DiskOk, SlotsOf;
      ok := Check();
      if !ok { return; }
      if !(Parent(to) == [] || IsDirectory(entries, Parent(to))) || from !in entries {
        return false;
      }
      if entries[from] == Directory || IsDirectory(entries, to) || Parent(from) != Parent(to) {
        return false;
      }
      var renamed := (entries - {from})[to := entries[from]];
      RenameFile(Now(), from, to);
      SameDisk(disk, Now(), Now().(entries := renamed), manifestSlot);
      entries := renamed;
    }

    method CreateDirAll(name: Path) returns (ok: bool)
      requires Valid()
      modifies this`entries, this`poisoned, this`disk, this`crashes
      ensures old(crashes) <= crashes && (poisoned && !old(poisoned) ==> |old(crashes)| < |crashes|)
      ensures Valid() && Quiet(old(crashes), crashes, committed) && (old(poisoned) ==> !ok && poisoned && crashes == old(crashes))
      ensures ok ==> forall k :: 0 < k <= |name| ==> IsDirectory(entries, name[..k])
      ensures forall n :: n in old(entries) ==> n in entries && entries[n] == old(entries)[n]
      ensures forall n :: n in entries && n !in old(entries) ==> n in Prefixes(name) && entries[n] == Directory
    {
      hide PointOk, ViewsOk, DiskOk, SlotsOf;
      ok := Check();
      if !ok { return; }
      for j := 0 to |name|
        invariant ok && Valid() && !poisoned
        invariant forall k :: 0 < k <= j ==> IsDirectory(entries, name[..k])
        invariant forall n :: n in old(entries) ==> n in entries && entries[n] == old(entries)[n]
        invariant forall n :: n in entries && n !in old(entries) ==> n in Prefixes(name) && entries[n] == Directory
        invariant crashes == old(crashes)
      {
        var prefix := name[..j + 1];
        if prefix in entries {
          if entries[prefix] != Directory {
            return false;
          }
        } else {
          if |entries| >= MAX_ENTRIES {
            return false;
          }
          assert Parent(prefix) == name[..j];
          AddDirectory(Now(), prefix);
          SameDisk(disk, Now(), Now().(entries := entries[prefix := Directory]), manifestSlot);
          entries := entries[prefix := Directory];
        }
      }
    }

    /** `sync_dir` commits one directory's names and the way to it, nothing else. */
    method SyncDir(dir: Path) returns (ok: bool)
      requires Valid()
      modifies this
      ensures old(crashes) <= crashes && (poisoned && !old(poisoned) ==> |old(crashes)| < |crashes|)
      ensures Valid() && entries == old(entries)
      ensures ok ==> NamesSynced(old(committed).entries, entries, dir, committed.entries)
      ensures ok ==> NothingLoose(Now())
      ensures ok ==> forall id :: id in committed.files ==>
        if id in old(committed).files then committed.files[id] == old(committed).files[id] else committed.files[id] == Node(0, map[], {})
      ensures Trimmed(old(files), files)
      ensures Moves(old(crashes), crashes, old(committed), SyncedNames(old(Now()), dir))
      ensures committed == if ok then SyncedNames(old(Now()), dir) else old(committed)
      ensures old(poisoned) ==> !ok && poisoned && crashes == old(crashes)
    {
      hide PointOk, ViewsOk, DiskOk, SlotsOf, Committable, SyncedEntries;
      ok := Check();
      if !ok { return; }
      if !(dir == [] || IsDirectory(entries, dir)) {
        return false;
      }
      SyncDirCandidate(Now(), dir);
      SyncedExactly(committed.entries, entries, dir);
      ok := Commit(SyncedEntries(committed.entries, entries, dir), SyncedFiles(committed.files, entries, dir));
    }
  }

  // Which manifest a crash finds. ---------------------------------------------------

  /** Padding of one file beside dropping what nothing reaches. */
  ghost predicate PaddedBy(m: Manifest, n: Manifest, id: nat) {
    Padded(m, n) && forall x :: x in n.files ==> x == id || x in m.files
  }

  ghost predicate PadsBy(a: seq<Point>, b: seq<Point>, m: Manifest, id: nat) {
    && a <= b
    && forall k :: |a| <= k < |b| ==> PaddedBy(m, b[k].last, id) && (b[k].flying.Some? ==> PaddedBy(m, b[k].flying.value, id))
  }

  lemma MovesNothing(a: seq<Point>, m: Manifest, n: Manifest)
    ensures Moves(a, a, m, n)
  {
  }

  lemma QuietTwice(a: seq<Point>, b: seq<Point>, c: seq<Point>, m: Manifest)
    requires Quiet(a, b, m) && Quiet(b, c, m)
    ensures Quiet(a, c, m)
  {
    forall k | |a| <= k < |c| ensures c[k].last == m && c[k].flying == None {
      if k < |b| { assert c[k] == b[k]; }
    }
  }

  lemma PadsByNothing(a: seq<Point>, m: Manifest, id: nat)
    ensures PadsBy(a, a, m, id) && PaddedBy(m, m, id)
  {
  }

  lemma ReservationPads(v: Views, id: nat, offset: nat, len: nat, a: seq<Point>, b: seq<Point>)
    requires ViewsOk(v) && id in v.handles && len > 0 && DivCeil(offset + len) <= LAST_PAGE
    requires
      var durable := if id in v.committed.files then v.committed.files[id] else Node(0, map[], {});
      Moves(a, b, v.committed, Committed(v, v.committed.entries, v.committed.files[id := Grow(durable, offset, len)]))
    ensures
      var durable := if id in v.committed.files then v.committed.files[id] else Node(0, map[], {});
      && PadsBy(a, b, v.committed, id)
      && PaddedBy(v.committed, Committed(v, v.committed.entries, v.committed.files[id := Grow(durable, offset, len)]), id)
  {
    hide ViewsOk, ZeroExtended, Grow, Keep, Retain;
    CommittedReservation(v, id, offset, len);
    PadsByNothing(a, v.committed, id);
    var durable := if id in v.committed.files then v.committed.files[id] else Node(0, map[], {});
    var n := Committed(v, v.committed.entries, v.committed.files[id := Grow(durable, offset, len)]);
    assert PaddedBy(v.committed, n, id);
    forall k | |a| <= k < |b|
      ensures PaddedBy(v.committed, b[k].last, id) && (b[k].flying.Some? ==> PaddedBy(v.committed, b[k].flying.value, id))
    {
      assert Between(v.committed, n, b[k]);
    }
  }

  lemma PadsNothing(a: seq<Point>, m: Manifest)
    ensures Pads(a, a, m) && Padded(m, m)
  {
  }

  lemma QuietPads(a: seq<Point>, b: seq<Point>, m: Manifest, n: Manifest)
    requires Quiet(a, b, n) && Padded(m, n)
    ensures Pads(a, b, m)
  {
    hide Padded;
  }

  lemma PadsOn(a: seq<Point>, b: seq<Point>, c: seq<Point>, m: Manifest, n: Manifest)
    requires Pads(a, b, m) && Quiet(b, c, n) && Padded(m, n)
    ensures Pads(a, c, m)
  {
    hide Padded;
    forall k | |a| <= k < |c| ensures PadsPoint(m, c[k]) {
      if k < |b| { assert c[k] == b[k]; }
    }
  }

  /** What reclaiming commits drops only files that nothing reaches. */
  lemma RecommitPads(v: Views, a: seq<Point>, b: seq<Point>, m: Manifest)
    requires ViewsOk(v) && Moves(a, b, v.committed, Recommitted(v)) && m in {v.committed, Recommitted(v)}
    ensures Pads(a, b, v.committed) && Padded(v.committed, m)
  {
    hide ViewsOk, Padded, Recommitted;
    RecommitPadded(v);
    PadsNothing(a, v.committed);
    forall k | |a| <= k < |b| ensures PadsPoint(v.committed, b[k]) {
      assert Between(v.committed, Recommitted(v), b[k]);
    }
  }

  lemma RecommitPadded(v: Views)
    requires ViewsOk(v)
    ensures Padded(v.committed, Recommitted(v))
  {
    hide Validates, Apart, InRange, Coords, NodeOk, Linked, Settles, Parented, Keep;
    SameFiles(v);
    var m := Recommitted(v);
    forall id | id in m.files ensures ExtendsNode(v.committed.files, m.files[id], id) {
      assert ExtendsNode(v.committed.files, v.committed.files[id], id);
    }
  }

  lemma PadsTwice(v: Views, a: seq<Point>, b: seq<Point>, c: seq<Point>, m: Manifest, n: Manifest, id: nat)
    requires ViewsOk(v) && id in v.handles && Pads(a, b, v.committed) && m in {v.committed, Recommitted(v)}
    requires PadsBy(b, c, m, id) && PaddedBy(m, n, id)
    ensures Pads(a, c, v.committed) && Padded(v.committed, n)
  {
    hide ViewsOk, PaddedBy, Padded, Recommitted;
    PaddedTwice(v, m, n, id);
    forall k | |a| <= k < |c| ensures PadsPoint(v.committed, c[k]) {
      if k < |b| {
        assert c[k] == b[k];
      } else {
        PaddedTwice(v, m, c[k].last, id);
        if c[k].flying.Some? { PaddedTwice(v, m, c[k].flying.value, id); }
      }
    }
  }

  lemma PaddedTwice(v: Views, m: Manifest, n: Manifest, id: nat)
    requires ViewsOk(v) && id in v.handles && m in {v.committed, Recommitted(v)} && PaddedBy(m, n, id)
    ensures Padded(v.committed, n)
  {
    hide ViewsOk, ZeroExtended;
    RecommitPadded(v);
    if n != m && m != v.committed {
      ZeroTwice(v.committed.files, m.files, n.files, id);
    }
  }

  lemma RetainSubset(files: Files, keep: set<nat>)
    ensures forall id, i :: Maps(Retain(files, keep), id, i) ==> Maps(files, id, i) && Ref(Retain(files, keep), id, i) == Ref(files, id, i)
    ensures Coords(Retain(files, keep)) <= Coords(files)
    ensures FilesOk(files) ==> FilesOk(Retain(files, keep))
  {
  }

  /** Where a page of a candidate comes from. */
  lemma DrawnRef(files: Files, c: Files, w: Files, id: nat, i: nat)
    requires Drawn(files, c, w) && Maps(files, id, i)
    ensures (Maps(c, id, i) && Ref(c, id, i) == Ref(files, id, i)) || (Maps(w, id, i) && Ref(w, id, i) == Ref(files, id, i))
  {
    assert DrawnNode(files[id], id, c, w);
  }

  lemma DrawnPages(files: Files, c: Files, w: Files, capacity: nat)
    requires Drawn(files, c, w) && PagesOk(c, w, capacity) && FilesOk(files)
    ensures Apart(files, files) && Apart(files, w) && InRange(files, capacity)
  {
    hide FilesOk, Maps, Ref, Coords, Drawn;
    forall id, i | Maps(files, id, i)
      ensures Ref(files, id, i).slot < 2 * (capacity / PAGE)
    {
      DrawnRef(files, c, w, id, i);
    }
    forall id, i, id', i' | Maps(files, id, i) && Maps(files, id', i') && Ref(files, id, i).slot == Ref(files, id', i').slot
      ensures id == id' && i == i'
    {
      DrawnRef(files, c, w, id, i);
      DrawnRef(files, c, w, id', i');
    }
    forall id, i, id', i' | Maps(files, id, i) && Maps(w, id', i') && Ref(files, id, i).slot == Ref(w, id', i').slot
      ensures id == id' && i == i'
    {
      DrawnRef(files, c, w, id, i);
    }
  }

  lemma RetainApart(a: Files, b: Files, keep: set<nat>, capacity: nat)
    requires Apart(a, b) && InRange(a, capacity)
    ensures Apart(Retain(a, keep), Retain(b, keep)) && InRange(Retain(a, keep), capacity)
  {
    hide Maps, Ref;
    RetainSubset(a, keep);
    RetainSubset(b, keep);
  }

  /** A committable candidate leaves both views in order, and validates. */
  lemma CommitViews(v: Views, entries: Entries, files: Files)
    requires ViewsOk(v) && Committable(v, entries, files)
    requires |entries| <= MAX_ENTRIES && |Committed(v, entries, files).files| <= MAX_ENTRIES
    ensures
      var m := Committed(v, entries, files);
      && Validates(m)
      && ViewsOk(v.(committed := m, files := Retain(v.files, Keep(v, entries))))
  {
    hide FilesOk, Apart, InRange, Coords, Parented, Settles, Drawn, Linked, IdsBelow, IdsOf, Retain;
    var keep := Keep(v, entries);
    var m, w := Committed(v, entries, files), Retain(v.files, keep);
    DrawnPages(files, v.committed.files, v.files, v.committed.capacity);
    RetainApart(files, files, keep, v.committed.capacity);
    RetainApart(files, v.files, keep, v.committed.capacity);
    RetainApart(v.files, v.files, keep, v.committed.capacity);
    RetainSubset(files, keep);
    RetainSubset(v.files, keep);
    SubsetSmaller(Coords(m.files) + Coords(w), Coords(files) + Coords(v.files));
    SubsetSmaller(Coords(m.files), Coords(m.files) + Coords(w));
    KeptLinks(entries, files, keep);
    KeptLinks(v.entries, v.files, keep);
    KeptIds(files, keep, v.nextId);
    KeptIds(v.files, keep, v.nextId);
    KeptHandles(v, keep);
  }

  lemma KeptIds(files: Files, keep: set<nat>, nextId: nat)
    requires IdsBelow(files, nextId)
    ensures IdsBelow(Retain(files, keep), nextId)
  {
  }

  lemma KeptHandles(v: Views, keep: set<nat>)
    requires v.handles.Keys <= v.files.Keys && v.handles.Keys <= keep
    ensures v.handles.Keys <= Retain(v.files, keep).Keys
  {
  }

  lemma KeptLinks(entries: Entries, files: Files, keep: set<nat>)
    requires Linked(entries, files) && IdsOf(entries) <= keep
    ensures Linked(entries, Retain(files, keep))
  {
    forall n | n in entries && entries[n].File?
      ensures entries[n].id in Retain(files, keep)
    {
      assert entries[n].id in IdsOf(entries);
    }
  }

  lemma DrawnHeld(a: Arena, files: Files, c: Files, w: Files, keep: set<nat>)
    requires Drawn(files, c, w) && Held(a, c) && Held(a, w)
    ensures Held(a, Retain(files, keep)) && Held(a, Retain(w, keep))
  {
    hide HeldRef, Drawn;
    RetainSubset(files, keep);
    RetainSubset(w, keep);
    forall id, i | Maps(Retain(files, keep), id, i)
      ensures HeldRef(a, Ref(Retain(files, keep), id, i))
    {
      DrawnRef(files, c, w, id, i);
    }
  }

  /** Step one of a commit: the arena is synced, or the session ends. */
  lemma ArenaSynced(d: Disk, v: Views, slot: nat, ok: bool)
    requires DiskOk(d, v, slot) && ViewsOk(v)
    ensures
      var e := d.(arena := SyncArena(d.arena, ok));
      && PointOk(Point(e, v.committed, None))
      && (ok ==> DiskOk(e, v, slot))
  {
    hide Held, Durable, Validates, PagesOk, NamesOk;
    SyncKeepsDurable(d.arena, v.committed.files, ok);
    if ok {
      SyncMakesDurable(d.arena, v.files);
    }
  }

  /** Step two: the free manifest slot takes the candidate. */
  lemma ManifestWritten(d: Disk, v: Views, slot: nat, m: Manifest, content: set<Option<Manifest>>)
    requires DiskOk(d, v, slot) && ViewsOk(v)
    ensures
      var e := d.(manifests := d.manifests[1 - slot := content]);
      DiskOk(e, v, slot) && PointOk(Point(e, v.committed, Some(m)))
  {
    hide Held, Durable, Validates, PagesOk, NamesOk;
  }

  /** Step three: the witness moves, and either manifest would be found. */
  lemma WitnessMoves(d: Disk, v: Views, slot: nat, m: Manifest)
    requires DiskOk(d, v, slot) && ViewsOk(v) && Validates(m)
    requires d.manifests[1 - slot] == {Some(m)} && Durable(d.arena, m.files)
    ensures PointOk(Point(d.(anchors := {v.committed, m}), v.committed, Some(m)))
    ensures PointOk(Point(d.(anchors := {m}), m, None))
  {
    hide Held, Durable, Validates, PagesOk, NamesOk;
  }

  lemma StillSupported(d: Disk, v: Views, slot: nat)
    requires DiskOk(d, v, slot) && ViewsOk(v)
    ensures PointOk(Point(d, v.committed, None))
  {
    hide Held, Durable, Validates, PagesOk, NamesOk;
  }

  lemma SlotBounds(d: Disk, v: Views, slot: nat)
    requires DiskOk(d, v, slot)
    ensures slot < 2 && |d.manifests| == 2 && d.anchors == {v.committed}
  {
  }

  lemma CommittedIs(v: Views, entries: Entries, files: Files)
    ensures
      var keep := IdsOf(entries) + IdsOf(v.entries) + v.handles.Keys;
      && keep == Keep(v, entries)
      && Committed(v, entries, files) == Manifest(v.committed.generation + 1, v.committed.capacity, v.nextId, entries, Retain(files, keep))
  {
  }

  /** The disk once the witness has moved to the candidate. */
  ghost predicate Published(d: Disk, v: Views, entries: Entries, files: Files, slot: nat) {
    var m := Committed(v, entries, files);
    && |d.manifests| == 2 && slot < 2
    && d.anchors == {m} && d.manifests[1 - slot] == {Some(m)}
    && Durable(d.arena, m.files) && Held(d.arena, m.files)
    && Held(d.arena, Retain(v.files, Keep(v, entries)))
  }

  lemma CandidateDurable(d: Disk, v: Views, entries: Entries, files: Files, slot: nat)
    requires DiskOk(d, v, slot) && Committable(v, entries, files)
    ensures
      var a, m := SyncArena(d.arena, true), Committed(v, entries, files);
      Durable(a, m.files) && Held(a, m.files) && Held(a, Retain(v.files, Keep(v, entries)))
  {
    hide Held, Durable, Drawn;
    DrawnHeld(d.arena, files, v.committed.files, v.files, Keep(v, entries));
    SyncMakesDurable(d.arena, Committed(v, entries, files).files);
    SyncMakesDurable(d.arena, Retain(v.files, Keep(v, entries)));
  }

  lemma AfterCommit(d: Disk, v: Views, entries: Entries, files: Files, slot: nat)
    requires slot < 2 && Published(d, v, entries, files, 1 - slot)
    ensures DiskOk(d, v.(committed := Committed(v, entries, files), files := Retain(v.files, Keep(v, entries))), slot)
  {
    hide Held, Durable;
  }

  // Changes to one working file. ---------------------------------------------------

  /** Fewer pages, or the same ones, in a file that needs no more room. */
  lemma ReplaceNode(v: Views, id: nat, node: Node)
    requires ViewsOk(v) && id in v.files && NodeOk(node)
    requires forall i :: i in node.pages ==> i in v.files[id].pages && node.pages[i] == v.files[id].pages[i]
    requires |Coords(v.committed.files) + Coords(v.files[id := node])| <= v.committed.capacity / PAGE
    ensures ViewsOk(v.(files := v.files[id := node]))
  {
    hide Validates, Coords, NodeOk, Parented, Settles;
    var w := v.files[id := node];
    FewerRefs(v.files, w, id);
    assert FilesOk(w);
    assert Apart(w, w) && Apart(v.committed.files, w) && InRange(w, v.committed.capacity) by {
      hide FilesOk, Linked, IdsBelow;
    }
  }

  lemma FewerRefs(files: Files, w: Files, id: nat)
    requires id in files && id in w && w == files[id := w[id]]
    requires forall i :: i in w[id].pages ==> i in files[id].pages && w[id].pages[i] == files[id].pages[i]
    ensures forall x, i :: Maps(w, x, i) ==> Maps(files, x, i) && Ref(w, x, i) == Ref(files, x, i)
    ensures SlotsOf(w) <= SlotsOf(files)
  {
    forall s | s in SlotsOf(w)
      ensures s in SlotsOf(files)
    {
      var x, i :| x in w && i in w[x].pages && w[x].pages[i].slot == s;
      SlotListed(files, x, i);
    }
  }

  lemma ReplaceDisk(d: Disk, v: Views, id: nat, node: Node, slot: nat)
    requires DiskOk(d, v, slot) && id in v.files
    requires forall i :: i in node.pages ==> i in v.files[id].pages && node.pages[i] == v.files[id].pages[i]
    ensures DiskOk(d, v.(files := v.files[id := node]), slot)
  {
    hide HeldRef, Durable;
    FewerRefs(v.files, v.files[id := node], id);
  }

  /** A page of a reserved coordinate moves to a slot that is its own. */
  lemma MapPage(v: Views, id: nat, i: nat, slot: nat, bytes: Bytes)
    requires ViewsOk(v) && id in v.files && i in v.files[id].reserved && slot < 2 * (v.committed.capacity / PAGE)
    requires NodeOk(SetPage(v.files[id], i, slot, bytes))
    requires slot !in SlotsOf(v.committed.files)
    requires slot !in SlotsOf(v.files) || (Maps(v.files, id, i) && Ref(v.files, id, i).slot == slot)
    ensures ViewsOk(v.(files := v.files[id := SetPage(v.files[id], i, slot, bytes)]))
  {
    hide Validates, NodeOk, Parented, Settles;
    var w := v.files[id := SetPage(v.files[id], i, slot, bytes)];
    assert FilesOk(w);
    SameCoords(v.files, id, i, slot, bytes);
    MapApart(v.committed.files, v.files, v.committed.capacity, id, i, slot, bytes);
  }

  lemma SameCoords(files: Files, id: nat, i: nat, slot: nat, bytes: Bytes)
    requires id in files
    ensures Coords(files[id := SetPage(files[id], i, slot, bytes)]) == Coords(files)
  {
    var w := files[id := SetPage(files[id], i, slot, bytes)];
    forall x, k ensures (x, k) in Coords(w) <==> (x, k) in Coords(files) {}
  }

  lemma MapApart(c: Files, files: Files, capacity: nat, id: nat, i: nat, slot: nat, bytes: Bytes)
    requires PagesOk(c, files, capacity) && id in files && slot < 2 * (capacity / PAGE)
    requires slot !in SlotsOf(c)
    requires slot !in SlotsOf(files) || (Maps(files, id, i) && Ref(files, id, i).slot == slot)
    ensures
      var w := files[id := SetPage(files[id], i, slot, bytes)];
      Apart(w, w) && Apart(c, w) && InRange(w, capacity)
  {
    hide FilesOk, Coords;
    var w := files[id := SetPage(files[id], i, slot, bytes)];
    forall x, k | Maps(w, x, k)
      ensures (x == id && k == i && Ref(w, x, k).slot == slot)
        || (Maps(files, x, k) && Ref(w, x, k) == Ref(files, x, k) && Ref(w, x, k).slot != slot)
    {
      if !(x == id && k == i) {
        SlotListed(files, x, k);
      }
    }
    forall x, k | Maps(c, x, k)
      ensures Ref(c, x, k).slot != slot
    {
      SlotListed(c, x, k);
    }
  }

  lemma MapSlots(files: Files, id: nat, i: nat, slot: nat, bytes: Bytes, kept: set<nat>)
    requires id in files
    requires Maps(files, id, i) ==> Ref(files, id, i).slot == slot || Ref(files, id, i).slot in kept
    ensures kept + SlotsOf(files[id := SetPage(files[id], i, slot, bytes)]) == kept + SlotsOf(files) + {slot}
  {
    var w := files[id := SetPage(files[id], i, slot, bytes)];
    assert Maps(w, id, i);
    SlotListed(w, id, i);
    forall s | s in SlotsOf(w)
      ensures s in SlotsOf(files) + {slot}
    {
      var x, k :| x in w && k in w[x].pages && w[x].pages[k].slot == s;
      if !(x == id && k == i) { SlotListed(files, x, k); }
    }
    forall s | s in SlotsOf(files)
      ensures s in kept + SlotsOf(w)
    {
      var x, k :| x in files && k in files[x].pages && files[x].pages[k].slot == s;
      if !(x == id && k == i) { SlotListed(w, x, k); }
    }
  }

  lemma MapDisk(d: Disk, v: Views, id: nat, i: nat, slot: nat, bytes: Bytes, manifestSlot: nat)
    requires DiskOk(d, v, manifestSlot) && ViewsOk(v) && id in v.files
    requires slot !in SlotsOf(v.committed.files)
    requires slot !in SlotsOf(v.files) || (Maps(v.files, id, i) && Ref(v.files, id, i).slot == slot)
    ensures
      var e := d.(arena := WriteSlot(d.arena, slot, bytes));
      && DiskOk(e, v.(files := v.files[id := SetPage(v.files[id], i, slot, bytes)]), manifestSlot)
      && PointOk(Point(e, v.committed, None))
  {
    hide Validates, Durable, NamesOk, FilesOk, Coords;
    var e := d.(arena := WriteSlot(d.arena, slot, bytes));
    var w := v.files[id := SetPage(v.files[id], i, slot, bytes)];
    WriteElsewhere(d.arena, v.committed.files, slot, bytes);
    forall x, k | Maps(w, x, k)
      ensures HeldRef(e.arena, Ref(w, x, k))
    {
      if !(x == id && k == i) {
        SlotListed(v.files, x, k);
        assert HeldRef(d.arena, Ref(v.files, x, k));
      }
    }
  }

  /** The pigeonhole argument: the arena has a slot to give. */
  lemma RoomLeft(v: Views, id: nat, i: nat) returns (slot: nat)
    requires ViewsOk(v) && id in v.files && i in v.files[id].reserved
    requires Maps(v.files, id, i) ==> Ref(v.files, id, i).slot in SlotsOf(v.committed.files)
    ensures slot < 2 * (v.committed.capacity / PAGE) && slot !in SlotsOf(v.committed.files) + SlotsOf(v.files)
  {
    hide Validates, NamesOk, Apart, InRange, SlotsOf, FilesOk;
    var coords := Coords(v.committed.files) + Coords(v.files);
    assert (id, i) in coords;
    UsedSlots(v.committed.files, v.files, coords, id, i);
    slot := FreeSlot(SlotsOf(v.committed.files) + SlotsOf(v.files), 2 * (v.committed.capacity / PAGE));
  }

  lemma SlotInRange(v: Views, id: nat, i: nat)
    requires ViewsOk(v) && Maps(v.files, id, i)
    ensures Ref(v.files, id, i).slot < 2 * (v.committed.capacity / PAGE)
  {
    hide Validates, NamesOk, Apart, SlotsOf, FilesOk, Coords;
  }

  lemma AnySlot(node: Node, i: nat, a: nat, b: nat, bytes: Bytes)
    requires NodeOk(SetPage(node, i, a, bytes))
    ensures NodeOk(SetPage(node, i, b, bytes))
  {
    var x, y := SetPage(node, i, a, bytes), SetPage(node, i, b, bytes);
    forall k | k in y.pages
      ensures PageOk(y, k)
    {
      assert PageOk(x, k);
    }
  }

  lemma PageIsSized(v: Views, id: nat, i: nat)
    requires ViewsOk(v) && id in v.files
    ensures NodeOk(v.files[id]) && |PageBytes(v.files[id], i)| == PAGE
  {
    hide Validates, NamesOk, Apart, InRange, Coords;
    PageSized(v.files[id], i);
  }

  lemma PageIsHeld(d: Disk, v: Views, slot: nat, id: nat, i: nat)
    requires DiskOk(d, v, slot) && Maps(v.files, id, i)
    ensures Ref(v.files, id, i).slot in d.arena.cache && d.arena.cache[Ref(v.files, id, i).slot] == Ref(v.files, id, i).digest
  {
    hide Durable;
    assert HeldRef(d.arena, Ref(v.files, id, i));
  }

  function Least(a: nat, b: nat): nat {
    if a <= b then a else b
  }

  /** `b` is `a` without some of its files. */
  ghost predicate Trimmed(a: Files, b: Files) {
    forall id :: id in b ==> id in a && b[id] == a[id]
  }

  lemma TrimmedSelf(a: Files)
    ensures Trimmed(a, a)
  {
  }

  lemma TrimmedGrows(a: Files, b: Files, id: nat, node: Node)
    requires Trimmed(a, b)
    ensures Trimmed(a[id := node], b[id := node])
  {
  }

  /** Every file of either view has a name in one of them, or is open. */
  ghost predicate NothingLoose(v: Views) {
    v.committed.files.Keys + v.files.Keys <= IdsOf(v.committed.entries) + IdsOf(v.entries) + v.handles.Keys
  }

  /** One page further in a read. */
  lemma ReadNext(node: Node, offset: nat, at: nat, end: nat)
    requires NodeOk(node) && offset <= at < end <= node.len
    ensures
      var start, count := at % PAGE, Least(PAGE - at % PAGE, end - at);
      && 0 < count && start + count <= PAGE == |PageBytes(node, at / PAGE)| && at + count <= end
      && Flat(node)[offset..at + count] == Flat(node)[offset..at] + PageBytes(node, at / PAGE)[start..start + count]
  {
    hide NodeOk, PageBytes, Flat;
    var page, start, count := at / PAGE, at % PAGE, Least(PAGE - at % PAGE, end - at);
    assert page * PAGE + start == at;
    ReadPage(node, page, start, count);
    assert Flat(node)[offset..at + count] == Flat(node)[offset..at] + Flat(node)[at..at + count];
  }

  lemma HandleOpen(v: Views, id: nat)
    requires ViewsOk(v) && id in v.handles
    ensures id in v.files && NodeOk(v.files[id]) && 0 < id < v.nextId
  {
    hide Validates, Apart, InRange, Coords, Parented, Linked, Settles;
  }

  lemma CommittedAgain(v: Views)
    requires ViewsOk(v)
    ensures Committable(v, v.committed.entries, v.committed.files)
  {
    hide Validates, Apart, InRange, Coords, Parented, Linked, Settles;
  }

  /** The room of the pages that lie wholly inside the range is given back, no other. */
  ghost predicate Released(before: set<nat>, after: set<nat>, offset: nat, end: nat) {
    forall i :: i in after <==> i in before && !(offset <= i * PAGE && i * PAGE + PAGE <= end)
  }

  lemma NoneReleased(reserved: set<nat>, offset: nat, end: nat)
    requires end <= offset
    ensures Released(reserved, reserved, offset, end)
  {
  }

  lemma MoreReleased(before: set<nat>, after: set<nat>, offset: nat, at: nat, count: nat)
    requires Released(before, after, offset, at) && offset <= at && 0 < count <= PAGE - at % PAGE
    requires at == offset || at % PAGE == 0
    ensures count == PAGE - at % PAGE ==> (at + count) % PAGE == 0
    ensures Released(before, if at % PAGE == 0 && count == PAGE then after - {at / PAGE} else after - {}, offset, at + count)
  {
    var page := at / PAGE;
    var rest := if at % PAGE == 0 && count == PAGE then after - {page} else after;
    forall i: nat
      ensures i in rest <==> i in before && !(offset <= i * PAGE && i * PAGE + PAGE <= at + count)
    {
      if i > page { assert i * PAGE >= (page + 1) * PAGE; }
      if i < page { assert (i + 1) * PAGE <= page * PAGE; }
    }
  }

  // Reservations. ---------------------------------------------------------------------

  predicate Reaches(i: nat, offset: nat) {
    offset / PAGE <= i
  }

  /** The pages a byte range touches. */
  function PageRange(offset: nat, end: nat): set<nat> {
    set i | 0 <= i < DivCeil(end) && Reaches(i, offset)
  }

  /** Page `i` holds a byte of the range. */
  predicate Touches(i: nat, offset: nat, len: nat) {
    len > 0 && i * PAGE < offset + len && offset < (i + 1) * PAGE
  }

  lemma RangeExactly(offset: nat, len: nat)
    ensures forall i: nat :: Touches(i, offset, len) <==> len > 0 && i in PageRange(offset, offset + len)
  {
    var end := offset + len;
    forall i: nat
      ensures i < DivCeil(end) <==> i * PAGE < end
      ensures Reaches(i, offset) <==> offset < (i + 1) * PAGE
    {
      assert DivCeil(end) * PAGE == end + PAGE - 1 - (end + PAGE - 1) % PAGE;
      assert offset / PAGE * PAGE == offset - offset % PAGE;
    }
  }

  function Grow(node: Node, offset: nat, len: nat): Node {
    if len == 0 then node
    else node.(len := Max(node.len, offset + len), reserved := node.reserved + PageRange(offset, offset + len))
  }

  lemma GrowIsOk(node: Node, offset: nat, len: nat)
    requires NodeOk(node) && (len > 0 ==> DivCeil(offset + len) <= LAST_PAGE)
    ensures NodeOk(Grow(node, offset, len))
    ensures Flat(Grow(node, offset, len)) == if len == 0 then Flat(node) else Grown(Flat(node), offset + len)
  {
    if len > 0 { GrowNode(node, offset + len, PageRange(offset, offset + len)); }
  }

  lemma NoRange(node: Node, offset: nat)
    ensures Grow(node, offset, 0) == node
  {
  }

  /** `b` holds what `a` held, some files grown by zeroes, new ones all zero. */
  ghost predicate ZeroExtended(a: Files, b: Files) {
    forall id :: id in b ==> NodeOk(b[id]) && (id in a ==> NodeOk(a[id])) && ExtendsNode(a, b[id], id)
  }

  ghost predicate ExtendsNode(a: Files, node: Node, id: nat)
    requires NodeOk(node) && (id in a ==> NodeOk(a[id]))
  {
    if id in a then Flat(node) == Grown(Flat(a[id]), node.len) else Flat(node) == Zeros(node.len)
  }

  lemma SameFiles(v: Views)
    requires ViewsOk(v)
    ensures ZeroExtended(v.committed.files, v.committed.files) && Trimmed(v.files, v.files)
  {
    hide Validates, Apart, InRange, Coords, NodeOk;
    forall id | id in v.committed.files
      ensures ExtendsNode(v.committed.files, v.committed.files[id], id)
    {
    }
  }

  lemma TrimmedZero(a: Files, b: Files, v: Views)
    requires ViewsOk(v) && v.committed.files == b && Trimmed(a, b)
    ensures ZeroExtended(a, b)
  {
    hide Validates, Apart, InRange, Coords, NodeOk;
    forall id | id in b
      ensures ExtendsNode(a, b[id], id)
    {
    }
  }

  /** The candidate of a reservation: one committed file grown by zeroes. */
  lemma ReserveCandidate(v: Views, id: nat, offset: nat, len: nat, coordinates: set<(nat, nat)>)
    requires ViewsOk(v) && id in v.handles && len > 0 && DivCeil(offset + len) <= LAST_PAGE
    requires coordinates == Coords(v.committed.files) + Coords(v.files) + (set i | i in PageRange(offset, offset + len) :: (id, i))
    requires |coordinates| <= v.committed.capacity / PAGE
    ensures
      var durable := if id in v.committed.files then v.committed.files[id] else Node(0, map[], {});
      var files := v.committed.files[id := Grow(durable, offset, len)];
      && Committable(v, v.committed.entries, files)
      && ZeroExtended(v.committed.files, files)
  {
    hide Validates, Apart, InRange, PageRange, NodeOk, Coords, Parented, Settles, ExtendsNode;
    HandleOpen(v, id);
    var durable := if id in v.committed.files then v.committed.files[id] else Node(0, map[], {});
    var node := Grow(durable, offset, len);
    var files := v.committed.files[id := node];
    DurableNode(v, id, offset, len);
    forall x | x in files
      ensures NodeOk(files[x]) && DrawnNode(files[x], x, v.committed.files, v.files) && ExtendsNode(v.committed.files, files[x], x)
    {
      if x != id { SameNode(v.committed.files, x); }
    }
    CandidateCoords(v.committed.files, id, node, PageRange(offset, offset + len));
    SubsetSmaller(Coords(files) + Coords(v.files), coordinates);
  }

  lemma SameNode(files: Files, id: nat)
    requires id in files && NodeOk(files[id])
    ensures ExtendsNode(files, files[id], id)
  {
  }

  lemma DurableNode(v: Views, id: nat, offset: nat, len: nat)
    requires ViewsOk(v) && len > 0 && DivCeil(offset + len) <= LAST_PAGE
    ensures
      var durable := if id in v.committed.files then v.committed.files[id] else Node(0, map[], {});
      NodeOk(Grow(durable, offset, len)) && (id in v.committed.files ==> NodeOk(v.committed.files[id]))
        && ExtendsNode(v.committed.files, Grow(durable, offset, len), id)
  {
    hide Validates, Apart, InRange, Coords, PageRange;
    var durable := if id in v.committed.files then v.committed.files[id] else Node(0, map[], {});
    GrowIsOk(durable, offset, len);
    if id !in v.committed.files {
      assert Flat(durable) == [];
      assert Grown(Flat(durable), offset + len) == Zeros(offset + len);
    } else {
      assert Grown(Flat(durable), offset + len) == Grown(Flat(durable), Grow(durable, offset, len).len);
    }
  }

  lemma CandidateCoords(files: Files, id: nat, node: Node, range: set<nat>)
    requires node.reserved == (if id in files then files[id].reserved else {}) + range
    ensures Coords(files[id := node]) == Coords(files) + (set i | i in range :: (id, i))
  {
    var w := files[id := node];
    var all := Coords(files) + (set i | i in range :: (id, i));
    forall x, k ensures (x, k) in Coords(w) <==> (x, k) in all {}
  }

  lemma CommittedReservation(v: Views, id: nat, offset: nat, len: nat)
    requires ViewsOk(v) && id in v.handles && len > 0 && DivCeil(offset + len) <= LAST_PAGE
    ensures
      var durable := if id in v.committed.files then v.committed.files[id] else Node(0, map[], {});
      var files := v.committed.files[id := Grow(durable, offset, len)];
      var m := Committed(v, v.committed.entries, files);
      && id in m.files && PageRange(offset, offset + len) <= m.files[id].reserved
      && ZeroExtended(v.committed.files, m.files)
      && m.entries == v.committed.entries && m.capacity == v.committed.capacity
      && (forall x :: x in m.files ==> x == id || x in v.committed.files)
  {
    hide Validates, Apart, InRange, PageRange, NodeOk, Coords, Parented, Settles, ExtendsNode;
    DurableNode(v, id, offset, len);
    var durable := if id in v.committed.files then v.committed.files[id] else Node(0, map[], {});
    var files := v.committed.files[id := Grow(durable, offset, len)];
    var m := Committed(v, v.committed.entries, files);
    forall x | x in m.files
      ensures NodeOk(m.files[x]) && ExtendsNode(v.committed.files, m.files[x], x)
    {
      if x != id { SameNode(v.committed.files, x); }
    }
  }

  lemma WorkingReservation(v: Views, id: nat, offset: nat, len: nat)
    requires ViewsOk(v) && id in v.files && id in v.committed.files && len > 0 && DivCeil(offset + len) <= LAST_PAGE
    requires PageRange(offset, offset + len) <= v.committed.files[id].reserved
    ensures ViewsOk(v.(files := v.files[id := Grow(v.files[id], offset, len)]))
  {
    hide Validates, Apart, InRange, PageRange, Parented, Settles, NodeOk;
    var node := Grow(v.files[id], offset, len);
    GrowIsOk(v.files[id], offset, len);
    var range := PageRange(offset, offset + len);
    CandidateCoords(v.files, id, node, range);
    RangeReserved(v.committed.files, id, range);
    assert Coords(v.committed.files) + Coords(v.files[id := node]) == Coords(v.committed.files) + Coords(v.files);
    ReplaceNode(v, id, node);
  }

  lemma RangeReserved(files: Files, id: nat, range: set<nat>)
    requires id in files && range <= files[id].reserved
    ensures (set i | i in range :: (id, i)) <= Coords(files)
  {
  }

  /** Trimming a file that nobody holds, then reserving, still only adds zeroes. */
  lemma ZeroTwice(a: Files, b: Files, c: Files, id: nat)
    requires Trimmed(a, b) && ZeroExtended(b, c)
    requires forall x :: x in c ==> x == id || x in b
    requires id in a ==> id in b
    ensures ZeroExtended(a, c)
  {
    hide NodeOk;
    forall x | x in c
      ensures (x in a ==> NodeOk(a[x])) && ExtendsNode(a, c[x], x)
    {
      assert ExtendsNode(b, c[x], x);
    }
  }

  lemma SameSlotsOf(files: Files, id: nat, node: Node)
    requires id in files && node.pages == files[id].pages
    ensures SlotsOf(files[id := node]) == SlotsOf(files)
  {
    var w := files[id := node];
    FewerRefs(files, w, id);
    assert files == w[id := files[id]];
    FewerRefs(w, files, id);
  }

  lemma NoSplice(s: Bytes, at: nat, data: Bytes)
    requires at <= |s|
    ensures Splice(s, at, data[..0]) == s
  {
  }

  lemma SpliceTwice(s: Bytes, at: nat, a: Bytes, b: Bytes)
    requires at + |a| + |b| <= |s|
    ensures Splice(Splice(s, at, a), at + |a|, b) == Splice(s, at, a + b)
  {
  }

  lemma PageInRange(offset: nat, end: nat, at: nat)
    requires offset <= at < end
    ensures at / PAGE in PageRange(offset, end)
    ensures at == at / PAGE * PAGE + at % PAGE
  {
    CeilFacts(end, at / PAGE);
  }

  lemma SyncCandidate(v: Views, id: nat)
    requires ViewsOk(v) && id in v.handles
    ensures Committable(v, v.committed.entries, v.committed.files[id := v.files[id]])
  {
    hide Validates, Apart, InRange, Parented, Settles, NodeOk, Coords;
    HandleOpen(v, id);
    var files := v.committed.files[id := v.files[id]];
    MixedCoords(v.committed.files, v.files, id);
    SubsetSmaller(Coords(files) + Coords(v.files), Coords(v.committed.files) + Coords(v.files));
  }

  lemma MixedCoords(c: Files, w: Files, id: nat)
    requires id in w
    ensures Coords(c[id := w[id]]) <= Coords(c) + Coords(w)
  {
  }

  /** `b` has some of the pages and reservations of `a`. */
  ghost predicate Fewer(a: Node, b: Node) {
    && (forall i :: i in b.pages ==> i in a.pages && b.pages[i] == a.pages[i])
    && b.reserved <= a.reserved
  }

  lemma ShrinkViews(v: Views, id: nat, node: Node)
    requires ViewsOk(v) && id in v.files && NodeOk(node) && Fewer(v.files[id], node)
    ensures ViewsOk(v.(files := v.files[id := node]))
  {
    hide Validates, Apart, InRange, NodeOk, NamesOk, FilesOk;
    var w := v.files[id := node];
    FewerCoords(v.files, id, node);
    SubsetSmaller(Coords(v.committed.files) + Coords(w), Coords(v.committed.files) + Coords(v.files));
    ReplaceNode(v, id, node);
  }

  lemma FewerCoords(files: Files, id: nat, node: Node)
    requires id in files && node.reserved <= files[id].reserved
    ensures Coords(files[id := node]) <= Coords(files)
  {
  }

  lemma FewerResized(node: Node, n: nat)
    ensures Fewer(node, Resized(node, n))
  {
  }

  lemma FewerDropped(node: Node, p: nat)
    ensures Fewer(node, DropPage(node, p))
  {
  }

  lemma ReservedPage(node: Node, p: nat)
    requires NodeOk(node) && p in node.pages
    ensures p in node.reserved
  {
    assert PageOk(node, p);
  }

  /** Zeroing the tail page behind the new end, before the cut. */
  lemma ZeroTail(node: Node, n: nat, slot: nat)
    requires NodeOk(node) && n < node.len && n % PAGE != 0 && n / PAGE in node.pages && |PageBytes(node, n / PAGE)| == PAGE
    ensures
      var next := SetPage(node, n / PAGE, slot, PatchedPage(PageBytes(node, n / PAGE), n % PAGE, Zeros(PAGE - n % PAGE)));
      NodeOk(next) && TailZero(next, n) && FlatSetLen(Flat(next), n) == FlatSetLen(Flat(node), n)
  {
    var p, start := n / PAGE, n % PAGE;
    var next := SetPage(node, p, slot, PatchedPage(PageBytes(node, p), start, Zeros(PAGE - start)));
    forall i | i in next.pages
      ensures PageOk(next, i)
    {
      assert PageOk(node, i);
    }
    forall k | 0 <= k < n
      ensures Flat(next)[k] == Flat(node)[k]
    {
      assert k / PAGE == p ==> k % PAGE < start;
    }
  }

  lemma TailIsZero(node: Node, n: nat)
    requires NodeOk(node)
    ensures n % PAGE == 0 || n / PAGE !in node.pages ==> TailZero(node, n)
  {
    if n / PAGE in node.pages { assert PageOk(node, n / PAGE); }
  }

  lemma NoZeros(s: Bytes, at: nat)
    requires at <= |s|
    ensures Splice(s, at, Zeros(0)) == s
  {
  }

  lemma MoreZeros(s: Bytes, at: nat, n: nat, count: nat)
    requires at + n + count <= |s|
    ensures Splice(Splice(s, at, Zeros(n)), at + n, Zeros(count)) == Splice(s, at, Zeros(n + count))
  {
    assert Zeros(n) + Zeros(count) == Zeros(n + count);
    SpliceTwice(s, at, Zeros(n), Zeros(count));
  }

  lemma CapacityCovers(v: Views)
    requires ViewsOk(v)
    ensures |Coords(v.committed.files) + Coords(v.files)| * PAGE <= v.committed.capacity
  {
    hide Coords, Apart, InRange, NamesOk, FilesOk, Parented, Linked, IdsBelow;
  }

  // Names. ---------------------------------------------------------------------------

  lemma LinkedFile(v: Views, name: Path)
    requires ViewsOk(v) && name in v.entries && v.entries[name].File?
    ensures v.entries[name].id in v.files
  {
    hide Validates, PagesOk, Parented, Settles;
  }

  lemma SameDisk(d: Disk, v: Views, w: Views, slot: nat)
    requires DiskOk(d, v, slot) && w.committed == v.committed && w.files == v.files
    ensures DiskOk(d, w, slot)
  {
    hide Held, Durable;
  }

  lemma AddHandle(v: Views, id: nat, n: nat)
    requires ViewsOk(v) && id in v.files
    ensures ViewsOk(v.(handles := v.handles[id := n]))
  {
    hide Validates, PagesOk, Parented, Settles, Linked;
  }

  lemma DropHandle(v: Views, rest: map<nat, nat>)
    requires ViewsOk(v) && rest.Keys <= v.handles.Keys
    ensures ViewsOk(v.(handles := rest))
  {
    hide Validates, PagesOk, Parented, Settles, Linked;
  }

  function WithFile(v: Views, name: Path): Views {
    v.(nextId := v.nextId + 1, files := v.files[v.nextId := Node(0, map[], {})], entries := v.entries[name := File(v.nextId)])
  }

  lemma AddFile(v: Views, name: Path)
    requires ViewsOk(v) && name != [] && name !in v.entries
    requires Parent(name) == [] || IsDirectory(v.entries, Parent(name))
    ensures ViewsOk(WithFile(v, name))
  {
    hide Validates, PagesOk, NamesOk;
    AddFileNames(v, name);
    AddFilePages(v);
  }

  lemma AddFileNames(v: Views, name: Path)
    requires NamesOk(v) && name != [] && name !in v.entries
    requires Parent(name) == [] || IsDirectory(v.entries, Parent(name))
    ensures NamesOk(WithFile(v, name))
  {
    hide Parent;
    assert v.nextId !in v.files && v.nextId !in v.committed.files;
  }

  lemma AddFilePages(v: Views)
    requires ViewsOk(v)
    ensures PagesOk(v.committed.files, v.files[v.nextId := Node(0, map[], {})], v.committed.capacity)
  {
    hide Validates, Parented, Settles, Linked, Maps, Ref, Coords, FilesOk;
    EmptyNode(v.files, v.nextId);
  }

  lemma EmptyNode(files: Files, id: nat)
    requires id !in files
    ensures
      var w := files[id := Node(0, map[], {})];
      && Coords(w) == Coords(files)
      && (FilesOk(files) ==> FilesOk(w))
      && (forall x, i :: Maps(w, x, i) ==> Maps(files, x, i) && Ref(w, x, i) == Ref(files, x, i))
  {
    var w := files[id := Node(0, map[], {})];
    forall x, k ensures (x, k) in Coords(w) <==> (x, k) in Coords(files) {}
  }

  lemma AddFileDisk(d: Disk, v: Views, name: Path, slot: nat)
    requires DiskOk(d, v, slot) && ViewsOk(v)
    ensures DiskOk(d, WithFile(v, name), slot) && SlotsOf(WithFile(v, name).files) == SlotsOf(v.files)
  {
    hide Validates, PagesOk, Parented, Settles, Linked, Durable, HeldRef;
    var w := v.files[v.nextId := Node(0, map[], {})];
    assert forall id, i :: Maps(w, id, i) <==> Maps(v.files, id, i);
    forall s ensures s in SlotsOf(w) <==> s in SlotsOf(v.files) {
      if s in SlotsOf(w) {
        var x, i :| x in w && i in w[x].pages && w[x].pages[i].slot == s;
        SlotListed(v.files, x, i);
      }
      if s in SlotsOf(v.files) {
        var x, i :| x in v.files && i in v.files[x].pages && v.files[x].pages[i].slot == s;
        SlotListed(w, x, i);
      }
    }
  }

  lemma RemoveName(v: Views, name: Path)
    requires ViewsOk(v) && name in v.entries && v.entries[name].File?
    ensures ViewsOk(v.(entries := v.entries - {name}))
  {
    hide Validates, PagesOk, Parent;
  }

  lemma RenameFile(v: Views, from: Path, to: Path)
    requires ViewsOk(v) && from in v.entries && v.entries[from].File? && from != [] && to != []
    requires !IsDirectory(v.entries, to) && Parent(from) == Parent(to)
    ensures ViewsOk(v.(entries := (v.entries - {from})[to := v.entries[from]]))
  {
    hide Validates, PagesOk, Parent;
  }

  lemma AddDirectory(v: Views, name: Path)
    requires ViewsOk(v) && name != [] && name !in v.entries
    requires Parent(name) == [] || IsDirectory(v.entries, Parent(name))
    ensures ViewsOk(v.(entries := v.entries[name := Directory]))
  {
    hide Validates, PagesOk, Parent;
  }

  function Prefixes(dir: Path): set<Path> {
    set k | 0 < k <= |dir| :: dir[..k]
  }

  /** The names `sync_dir` commits: this directory from the working view, the way to
      it, and everything else as committed before. */
  function SyncedEntries(c: Entries, w: Entries, dir: Path): Entries {
    map n | n in c.Keys + w.Keys + Prefixes(dir)
      && n != [] && (n in Prefixes(dir) || (if Parent(n) == dir then n in w else n in c)) ::
      if n in Prefixes(dir) then Directory else if Parent(n) == dir then w[n] else c[n]
  }

  ghost predicate SameEntry(a: Entries, b: Entries, n: Path) {
    (n in a <==> n in b) && (n in a ==> a[n] == b[n])
  }

  /** What syncing a directory makes of the committed names `c`: the names in it are
      the working ones, the way to it is there, and no other name is touched. */
  ghost predicate NamesSynced(c: Entries, w: Entries, dir: Path, after: Entries) {
    && (forall n: Path :: n != [] && Parent(n) == dir ==> SameEntry(after, w, n))
    && (forall n: Path :: n != [] && n <= dir ==> IsDirectory(after, n))
    && (forall n: Path :: n != [] && Parent(n) != dir && !(n <= dir) ==> SameEntry(after, c, n))
  }

  lemma SyncedExactly(c: Entries, w: Entries, dir: Path)
    ensures NamesSynced(c, w, dir, SyncedEntries(c, w, dir))
  {
    forall n: Path
      ensures n in Prefixes(dir) <==> n != [] && n <= dir
    {
      if n != [] && n <= dir { assert n == dir[..|n|]; }
    }
  }

  function SyncedFiles(files: Files, w: Entries, dir: Path): Files {
    map id | id in files.Keys + IdsIn(w, dir) :: if id in files then files[id] else Node(0, map[], {})
  }

  function IdsIn(w: Entries, dir: Path): set<nat> {
    set n | n in w && n != [] && Parent(n) == dir && w[n].File? :: w[n].id
  }

  lemma {:induction false} PrefixesAreDirectories(w: Entries, dir: Path, k: nat)
    requires Parented(w) && IsDirectory(w, dir) && 0 < k <= |dir|
    ensures IsDirectory(w, dir[..k])
    decreases |dir| - k
  {
    if k < |dir| {
      PrefixesAreDirectories(w, dir, k + 1);
      assert Parent(dir[..k + 1]) == dir[..k];
    } else {
      assert dir[..k] == dir;
    }
  }

  lemma SyncDirCandidate(v: Views, dir: Path)
    requires ViewsOk(v) && (dir == [] || IsDirectory(v.entries, dir))
    ensures Committable(v, SyncedEntries(v.committed.entries, v.entries, dir), SyncedFiles(v.committed.files, v.entries, dir))
  {
    hide Validates, Apart, InRange, Linked, Parented, Settles, SyncedEntries, Coords;
    var files := SyncedFiles(v.committed.files, v.entries, dir);
    SyncedParented(v, dir);
    SyncedSettles(v, dir);
    SyncedLinked(v, dir);
    SyncedCoords(v.committed.files, v.entries, dir);
    assert FilesOk(files) && Drawn(files, v.committed.files, v.files);
    forall id | id in files
      ensures 0 < id < v.nextId
    {
      if id !in v.committed.files { SyncedId(v, dir, id); }
    }
  }

  lemma SyncedId(v: Views, dir: Path, id: nat)
    requires ViewsOk(v) && id in IdsIn(v.entries, dir)
    ensures id in v.files
  {
    hide Validates, PagesOk, Parented, Settles;
  }

  lemma SyncedCoords(files: Files, w: Entries, dir: Path)
    ensures Coords(SyncedFiles(files, w, dir)) == Coords(files)
  {
    var all := SyncedFiles(files, w, dir);
    forall x, k ensures (x, k) in Coords(all) <==> (x, k) in Coords(files) {}
  }

  lemma DirectoryPrefix(v: Views, dir: Path, n: Path)
    requires ViewsOk(v) && (dir == [] || IsDirectory(v.entries, dir)) && n in Prefixes(dir)
    ensures IsDirectory(v.entries, n)
  {
    hide Validates, PagesOk, Linked, Settles;
    var k :| 0 < k <= |dir| && n == dir[..k];
    PrefixesAreDirectories(v.entries, dir, k);
  }

  lemma PrefixParent(dir: Path, n: Path)
    requires n in Prefixes(dir)
    ensures n != [] && (Parent(n) == [] || Parent(n) in Prefixes(dir))
  {
    var k :| 0 < k <= |dir| && n == dir[..k];
    assert Parent(n) == dir[..k - 1];
  }

  lemma DirIsPrefix(dir: Path)
    ensures dir == [] || dir in Prefixes(dir)
  {
    assert dir == dir[..|dir|];
  }

  lemma SyncedParented(v: Views, dir: Path)
    requires ViewsOk(v) && (dir == [] || IsDirectory(v.entries, dir))
    ensures Parented(SyncedEntries(v.committed.entries, v.entries, dir))
  {
    hide Validates, PagesOk, Linked, Parent, Prefixes;
    var c, w := v.committed.entries, v.entries;
    var all := SyncedEntries(c, w, dir);
    DirIsPrefix(dir);
    forall n | n in all
      ensures n != [] && (Parent(n) == [] || IsDirectory(all, Parent(n)))
    {
      if n in Prefixes(dir) {
        PrefixParent(dir, n);
        if Parent(n) != [] { assert Parent(n) in all; }
      } else if Parent(n) == dir {
        if dir != [] { assert dir in all; }
      } else if Parent(n) != [] {
        var q := Parent(n);
        assert IsDirectory(c, q) && IsDirectory(w, q);
        assert q in all;
      }
    }
  }

  lemma SyncedSettles(v: Views, dir: Path)
    requires ViewsOk(v) && (dir == [] || IsDirectory(v.entries, dir))
    ensures Settles(SyncedEntries(v.committed.entries, v.entries, dir), v.entries)
  {
    hide Validates, PagesOk, Parent, Prefixes;
    var c, w := v.committed.entries, v.entries;
    var all := SyncedEntries(c, w, dir);
    forall n | IsDirectory(all, n)
      ensures IsDirectory(w, n)
    {
      if n in Prefixes(dir) { DirectoryPrefix(v, dir, n); }
    }
  }

  lemma SyncedLinked(v: Views, dir: Path)
    requires ViewsOk(v)
    ensures Linked(SyncedEntries(v.committed.entries, v.entries, dir), SyncedFiles(v.committed.files, v.entries, dir))
  {
    hide Validates, PagesOk, Parent, Prefixes;
  }

  // Reopening. ---------------------------------------------------------------------------

  function Fresh(m: Manifest): Views {
    Views(m, m.entries, m.files, map[], m.nextId)
  }

  lemma FreshOk(m: Manifest)
    requires Validates(m)
    ensures ViewsOk(Fresh(m))
  {
    hide Apart, InRange, Coords, FilesOk, Parent;
    assert Coords(m.files) + Coords(m.files) == Coords(m.files);
  }

  /** What a crash leaves of a disk: anything that was possible, and everything that
      was certain. */
  ghost predicate Survives(d: Disk, e: Disk) {
    && |d.manifests| == 2 && |e.manifests| == 2
    && (forall s :: 0 <= s < 2 ==> e.manifests[s] <= d.manifests[s] && e.manifests[s] != {})
    && e.anchors <= d.anchors && e.anchors != {}
    && ArenaSurvives(d.arena, e.arena)
  }

  ghost predicate ArenaSurvives(a: Arena, b: Arena) {
    forall s, bytes :: Poss(a, s) == {Page(bytes)} ==>
      Poss(b, s) == {Page(bytes)} && s in b.poss && s in b.cache && b.cache[s] == bytes
  }

  lemma SurvivorHolds(a: Arena, b: Arena, files: Files)
    requires ArenaSurvives(a, b) && Durable(a, files)
    ensures Durable(b, files) && Held(b, files)
  {
    forall id, i | Maps(files, id, i)
      ensures Poss(b, Ref(files, id, i).slot) == {Page(Ref(files, id, i).digest)} && HeldRef(b, Ref(files, id, i))
    {
      assert Poss(a, Ref(files, id, i).slot) == {Page(Ref(files, id, i).digest)};
    }
  }

  /** Every page reads back as its reference says. */
  ghost predicate Intact(a: Arena, files: Files) {
    forall id, i :: Maps(files, id, i) ==> Ref(files, id, i).slot in a.cache && a.cache[Ref(files, id, i).slot] == Ref(files, id, i).digest
  }

  lemma HeldReads(a: Arena, files: Files)
    requires Held(a, files)
    ensures Intact(a, files)
  {
    forall id, i | Maps(files, id, i)
      ensures Ref(files, id, i).slot in a.cache && a.cache[Ref(files, id, i).slot] == Ref(files, id, i).digest
    {
      assert HeldRef(a, Ref(files, id, i));
    }
  }

  /** Authenticate every page of the manifest. */
  method Authenticate(a: Arena, files: Files) returns (ok: bool)
    ensures ok <==> Intact(a, files)
  {
    var rest := set id, i | id in files && i in files[id].pages :: (id, i);
    while rest != {}
      invariant forall c :: c in rest ==> Maps(files, c.0, c.1)
      invariant forall id, i :: Maps(files, id, i) && (id, i) !in rest ==>
        Ref(files, id, i).slot in a.cache && a.cache[Ref(files, id, i).slot] == Ref(files, id, i).digest
      decreases rest
    {
      var c :| c in rest;
      var page := Ref(files, c.0, c.1);
      if page.slot !in a.cache || a.cache[page.slot] != page.digest {
        return false;
      }
      rest := rest - {c};
    }
    ok := true;
  }

  /** The decision to open, on any disk, whatever was done to it: only a manifest
      exactly as the witness names it, with every page intact, is opened. A backing
      rolled back to an older manifest, or with one page changed, is refused. */
  method Examine(disk: Disk, anchor: Manifest) returns (slot: Option<nat>)
    requires |disk.manifests| == 2 && (forall s :: 0 <= s < 2 ==> disk.manifests[s] != {})
    ensures slot.Some? ==> slot.value < 2 && Some(anchor) in disk.manifests[slot.value]
    ensures slot.Some? ==> Intact(disk.arena, anchor.files)
    ensures (exists s :: 0 <= s < 2 && disk.manifests[s] == {Some(anchor)}) && Intact(disk.arena, anchor.files) ==> slot.Some?
  {
    hide Intact;
    slot := SelectManifest(disk, anchor);
    if slot.Some? {
      var ok := Authenticate(disk.arena, anchor.files);
      if !ok {
        slot := None;
      }
    }
  }

  /** Rewriting a page with its own content changes nothing a crash can see. */
  lemma RewriteSame(a: Arena, files: Files, slot: nat)
    requires Durable(a, files) && Held(a, files) && slot in SlotsOf(files) && slot in a.cache
    ensures Durable(WriteSlot(a, slot, a.cache[slot]), files) && Held(WriteSlot(a, slot, a.cache[slot]), files)
  {
    var b := WriteSlot(a, slot, a.cache[slot]);
    var x, k :| x in files && k in files[x].pages && files[x].pages[k].slot == slot;
    assert Maps(files, x, k) && Poss(a, slot) == {Page(Ref(files, x, k).digest)} && HeldRef(a, Ref(files, x, k));
    forall id, i | Maps(files, id, i)
      ensures Poss(b, Ref(files, id, i).slot) == {Page(Ref(files, id, i).digest)} && HeldRef(b, Ref(files, id, i))
    {
      assert HeldRef(a, Ref(files, id, i));
    }
  }

  lemma SlotCached(a: Arena, files: Files, slot: nat)
    requires Held(a, files) && slot in SlotsOf(files)
    ensures slot in a.cache
  {
    var x, k :| x in files && k in files[x].pages && files[x].pages[k].slot == slot;
    assert Maps(files, x, k) && HeldRef(a, Ref(files, x, k));
  }

  /** A crash while reopening finds one of the manifests `p` may show. */
  ghost predicate ComesFrom(p: Point, q: Point) {
    (q.last == p.last || p.flying == Some(q.last)) && q.flying in {None, p.flying}
  }

  /** Opening against the witness. The witness is published again first; then exactly
      the manifest it names is selected, authenticated and rewritten. Any I/O error
      ends the attempt, and what it leaves can be opened again; nothing is refused. */
  method Open(ghost p: Point, found: Disk) returns (backing: Option<Backing>, refused: bool, ghost left: seq<Point>)
    requires PointOk(p) && Survives(p.disk, found)
    ensures !refused && forall k :: 0 <= k < |left| ==> PointOk(left[k]) && ComesFrom(p, left[k])
    ensures left != []
    ensures backing.Some? ==>
      var b := backing.value;
      && fresh(b) && b.Valid() && !b.poisoned
      && (b.committed == p.last || p.flying == Some(b.committed))
      && b.entries == b.committed.entries && b.files == b.committed.files && b.handles == map[] && b.nextId == b.committed.nextId
      && b.crashes == []
  {
    hide PointOk, Validates, Held, Durable, SlotsOf, Supported;
    backing, refused := None, false;
    SurvivorOk(p, found);
    left := [Point(found, p.last, p.flying)];
    var anchor :| anchor in found.anchors;
    var ok: bool := *;
    if !ok { return; }
    var disk := found.(anchors := {anchor});
    Narrowed(p, found, anchor);
    left := left + [Point(disk, anchor, None)];
    SlotCertain(disk, anchor);
    AnchorHeld(p, found, anchor);
    HeldReads(disk.arena, anchor.files);
    var slot := Examine(disk, anchor);
    if slot.None? {
      refused := true;
      return;
    }
    ghost var points;
    ok, disk, points := Rewrite(disk, anchor, slot.value);
    left := left + points;
    if !ok { return; }
    var b := new Backing(disk, anchor, slot.value);
    backing := Some(b);
  }

  /** The manifest slot that holds exactly what the witness names. */
  method SelectManifest(disk: Disk, anchor: Manifest) returns (slot: Option<nat>)
    requires |disk.manifests| == 2 && (forall s :: 0 <= s < 2 ==> disk.manifests[s] != {})
    ensures slot.Some? ==> slot.value < 2 && Some(anchor) in disk.manifests[slot.value]
    ensures slot.None? ==> forall s :: 0 <= s < 2 ==> disk.manifests[s] != {Some(anchor)}
  {
    for s := 0 to 2
      invariant forall t :: 0 <= t < s ==> disk.manifests[t] != {Some(anchor)}
    {
      var shown :| shown in disk.manifests[s];
      if shown == Some(anchor) {
        return Some(s);
      }
    }
    return None;
  }

  /** Make the selected pages and manifest durable again. */
  method Rewrite(found: Disk, m: Manifest, slot: nat) returns (ok: bool, disk: Disk, ghost left: seq<Point>)
    requires Validates(m) && Supported(found, m) && Held(found.arena, m.files) && found.anchors == {m} && slot < 2
    ensures forall k :: 0 <= k < |left| ==> PointOk(left[k]) && left[k].last == m && left[k].flying == None
    ensures ok ==> DiskOk(disk, Fresh(m), slot)
  {
    hide Validates, Held, Durable, SlotsOf, WriteSlot, SyncArena;
    disk, left, ok := found, [], false;
    ghost var certain :| 0 <= certain < 2 && found.manifests[certain] == {Some(m)};
    var rest := SlotsOf(m.files);
    while rest != {}
      invariant rest <= SlotsOf(m.files)
      invariant disk == found.(arena := disk.arena) && Durable(disk.arena, m.files) && Held(disk.arena, m.files)
      invariant forall k :: 0 <= k < |left| ==> PointOk(left[k]) && left[k].last == m && left[k].flying == None
      decreases rest
    {
      var s :| s in rest;
      ok := *;
      if !ok { return; }
      SlotCached(disk.arena, m.files, s);
      RewriteSame(disk.arena, m.files, s);
      disk := disk.(arena := WriteSlot(disk.arena, s, disk.arena.cache[s]));
      AnchorPoint(disk, m);
      left := left + [Point(disk, m, None)];
      rest := rest - {s};
    }
    ok := *;
    SyncKeepsDurable(disk.arena, m.files, ok);
    disk := disk.(arena := SyncArena(disk.arena, ok));
    AnchorPoint(disk, m);
    left := left + [Point(disk, m, None)];
    if !ok { return; }
    if disk.manifests[slot] != {Some(m)} {
      disk := disk.(manifests := disk.manifests[slot := disk.manifests[slot] + {None, Some(m)}]);
      assert disk.manifests[certain] == {Some(m)};
      AnchorPoint(disk, m);
      left := left + [Point(disk, m, None)];
      ok := *;
      if !ok { return; }
      disk := disk.(manifests := disk.manifests[slot := {Some(m)}]);
    }
    assert disk.manifests[slot] == {Some(m)};
    AnchorPoint(disk, m);
    left := left + [Point(disk, m, None)];
  }

  lemma AnchorPoint(d: Disk, m: Manifest)
    requires Validates(m) && Supported(d, m) && d.anchors == {m}
    ensures PointOk(Point(d, m, None))
  {
    hide Validates, Durable;
  }

  lemma SurvivorOk(p: Point, e: Disk)
    requires PointOk(p) && Survives(p.disk, e)
    ensures PointOk(Point(e, p.last, p.flying))
  {
    hide Validates, Durable, ArenaSurvives;
    forall m | m in e.anchors
      ensures Supported(e, m)
    {
      assert Supported(p.disk, m);
      SurvivorHolds(p.disk.arena, e.arena, m.files);
      var s :| 0 <= s < 2 && p.disk.manifests[s] == {Some(m)};
      assert e.manifests[s] == {Some(m)};
    }
  }

  lemma Narrowed(p: Point, e: Disk, m: Manifest)
    requires PointOk(Point(e, p.last, p.flying)) && m in e.anchors
    ensures Validates(m) && Supported(e.(anchors := {m}), m) && PointOk(Point(e.(anchors := {m}), m, None))
    ensures m == p.last || p.flying == Some(m)
  {
    hide Validates, Durable;
    assert Supported(e, m);
  }

  lemma SlotCertain(d: Disk, m: Manifest)
    requires Supported(d, m)
    ensures exists s :: 0 <= s < 2 && d.manifests[s] == {Some(m)}
  {
  }

  lemma AnchorHeld(p: Point, e: Disk, m: Manifest)
    requires PointOk(p) && Survives(p.disk, e) && m in e.anchors
    ensures Held(e.arena, m.files)
  {
    hide Validates, Durable, ArenaSurvives, Held;
    assert Supported(p.disk, m);
    SurvivorHolds(p.disk.arena, e.arena, m.files);
  }
}
