/** The files of a slot store's shards, as a crash may find them.

  A shard is a data file, a pair of allocation maps and, on volumes with discard,
  a pair of discard maps. Here are the promises the store keeps about them, and
  what each of its steps does to these promises. A step that fails may still have
  taken effect.
 */
module ShardFiles {
  /** What loading a pair of maps gives: nothing, no slot listed, or some. */
  datatype Copy = Missing | Empty | Used

  /** A pair of maps: what a crash may leave to be loaded, what would be loaded now,
      and whether this session stored what is shown, so that only its name may be
      volatile. */
  datatype Pair = Pair(poss: set<Copy>, shown: Copy, stored: bool)

  /** A shard's files: what a crash may leave of the data file's name and of its full
      size, and what both are now. */
  datatype ShardFile = ShardFile(names: set<bool>, named: bool, sizes: set<bool>, sized: bool, alloc: Pair, discard: Pair)

  datatype Disk = Disk(files: map<nat, ShardFile>, catalogs: set<set<nat>>)

  /** Whether a data file's size counts as proven; if it was found truncated, whether
      slots behind its end were marked as damaged. */
  datatype Short = Proven | Unproven | Truncated(marked: bool)

  /** A shard in memory: both map copies proven in this session, the size, the map
      changed, the map lists a slot. */
  datatype Shard = Shard(mapStored: bool, short: Short, dirty: bool, used: bool)

  type Shards = map<nat, Shard>

  const NONE: Pair := Pair({Missing}, Missing, false)

  const ABSENT: ShardFile := ShardFile({false}, false, {false}, false, NONE, NONE)

  function At(d: Disk, i: nat): ShardFile {
    if i in d.files then d.files[i] else ABSENT
  }

  function SetFile(d: Disk, i: nat, f: ShardFile): Disk {
    d.(files := d.files[i := f])
  }

  function Content(s: Shard): Copy {
    if s.used then Used else Empty
  }

  /** A store of one copy. The other copy stays, so nothing certain is lost. */
  function Stored(p: Pair, c: Copy, ok: bool, shows: bool): Pair {
    Pair(p.poss + {c}, if ok || shows then c else p.shown, ok)
  }

  function SyncedPair(p: Pair): Pair {
    if p.stored then p.(poss := {p.shown}) else p
  }

  function SyncedFile(f: ShardFile): ShardFile {
    f.(names := {f.named}, alloc := SyncedPair(f.alloc), discard := SyncedPair(f.discard))
  }

  /** `sync_dir` of the data directory: names are settled, and with them what this
      session stored. */
  function SyncDataDir(d: Disk): Disk {
    d.(files := map i | i in d.files :: SyncedFile(d.files[i]))
  }

  ghost predicate PairOk(p: Pair) {
    p.shown in p.poss && (p.stored ==> p.shown != Missing)
  }

  /** Data files are neither removed nor cut. */
  ghost predicate FileOk(f: ShardFile) {
    && f.named in f.names && (!f.named ==> f.names == {false})
    && f.sized in f.sizes && (!f.sized ==> f.sizes == {false}) && (!f.named ==> !f.sized)
    && PairOk(f.alloc) && PairOk(f.discard)
  }

  /** Where a data file may be found, its discard maps are. */
  ghost predicate FilesOk(d: Disk, discards: bool) {
    forall i :: FileOk(At(d, i)) && (discards && true in At(d, i).names ==> Missing !in At(d, i).discard.poss)
  }

  /** The data file and a copy of its allocation map survive every crash. */
  ghost predicate Complete(d: Disk, i: nat) {
    At(d, i).names == {true} && Missing !in At(d, i).alloc.poss
  }

  /** Every catalog a crash may show names complete shards only. */
  ghost predicate CatalogSafe(d: Disk, discards: bool) {
    && d.catalogs != {}
    && FilesOk(d, discards)
    && forall c, i :: c in d.catalogs && i in c ==> Complete(d, i)
  }

  /** Every catalog a crash may show names only shards whose data file then has its
      full size. */
  ghost predicate Sized(d: Disk) {
    forall c, i :: c in d.catalogs && i in c ==> At(d, i).sizes == {true}
  }

  /** A map that lists a slot comes with a durable data file of full size. */
  ghost predicate UsedProven(d: Disk) {
    forall i :: Used in At(d, i).alloc.poss ==> At(d, i).names == {true} && At(d, i).sizes == {true}
  }

  /** A shard whose maps count as stored while its size is still unproven. */
  predicate Waits(s: Shard) {
    s.mapStored && s.short != Proven
  }

  /** No shard waits. */
  predicate NoneWaiting(shards: Shards) {
    forall i :: i in shards ==> !Waits(shards[i])
  }

  /** The shards that wait happen to have their full size for certain. */
  ghost predicate WaitingSized(d: Disk, shards: Shards) {
    forall i :: i in shards && Waits(shards[i]) ==> At(d, i).sizes == {true}
  }

  /** What memory claims of one shard is so on disk. Damage marks are certain before
      any crash can show the file at full size. */
  ghost predicate ShardOk(f: ShardFile, s: Shard, catalogDirty: bool) {
    && f.named
    && (s.mapStored ==> f.names == {true} && Missing !in f.alloc.poss)
    && (s.short == Unproven ==> catalogDirty && !s.used)
    && (s.short == Truncated(true) ==> s.used && (true in f.sizes ==> f.alloc.poss == {Used}))
  }

  ghost predicate StoreOk(d: Disk, catalog: set<nat>, catalogDirty: bool, shards: Shards, discards: bool) {
    && CatalogSafe(d, discards)
    && catalog == shards.Keys
    && forall i :: i in shards ==> ShardOk(At(d, i), shards[i], catalogDirty)
  }

  /** What a size counts as proven for is certain. */
  ghost predicate SoundShard(f: ShardFile, s: Shard) {
    && (s.short == Proven ==> f.sizes == {true})
    && !s.short.Truncated?
    && (s.used ==> s.short == Proven && f.names == {true})
  }

  ghost predicate Sound(d: Disk, shards: Shards) {
    UsedProven(d) && forall i :: i in shards ==> SoundShard(At(d, i), shards[i])
  }

  /** What no step undoes. */
  ghost predicate KeepsFile(f: ShardFile, g: ShardFile) {
    && (f.named ==> g.named)
    && (f.names == {true} ==> g.names == {true})
    && (f.names == {true} && Missing !in f.alloc.poss ==> Missing !in g.alloc.poss)
    && (f.sizes == {true} ==> g.sizes == {true})
  }

  ghost predicate KeepsFiles(a: Disk, b: Disk) {
    forall i :: KeepsFile(At(a, i), At(b, i))
  }

  /** The points `b` adds to `a`, and the disk `e` they end in, keep what `d` held. */
  ghost predicate Goes(a: seq<Disk>, b: seq<Disk>, d: Disk, e: Disk) {
    && a <= b
    && KeepsFiles(d, e)
    && forall k :: |a| <= k < |b| ==> KeepsFiles(d, b[k])
  }

  /** The same, and the catalogs a crash may show stay as they are. */
  ghost predicate Quiet(a: seq<Disk>, b: seq<Disk>, d: Disk, e: Disk) {
    && Goes(a, b, d, e)
    && e.catalogs == d.catalogs
    && forall k :: |a| <= k < |b| ==> b[k].catalogs == d.catalogs
  }

  /** A file beside the one a step works on: at most what it holds has settled. */
  ghost predicate Beside(f: ShardFile, g: ShardFile) {
    g.named == f.named && g.sizes == f.sizes && g.sized == f.sized && g.alloc.stored == f.alloc.stored && g.alloc.shown == f.alloc.shown
  }

  /** A crash may show the new catalog `next`. It names shards of full size, and those
      that waited in `shards` as they were on `d`. */
  ghost predicate Named(d: Disk, shards: Shards, next: set<nat>, p: Disk) {
    && next in p.catalogs && p.catalogs <= d.catalogs + {next}
    && forall j :: j in next ==>
         At(p, j).sizes == if j in shards && Waits(shards[j]) then At(d, j).sizes else {true}
  }

  predicate AllTrue(results: seq<bool>, n: nat) {
    forall k :: 0 <= k < n && k < |results| ==> results[k]
  }

  function Rest(results: seq<bool>, n: nat): seq<bool> {
    if n <= |results| then results[n..] else []
  }

  function DirtyShards(shards: Shards): set<nat> {
    set i | i in shards && (shards[i].dirty || !shards[i].mapStored)
  }

  function Pending(shards: Shards): set<nat> {
    set i | i in shards && !shards[i].mapStored
  }

  /** The I/O steps that storing all dirty maps takes. */
  function MapSteps(shards: Shards): nat {
    if DirtyShards(shards) == {} then 0 else |DirtyShards(shards)| + |Pending(shards)| + 1
  }

  function MapsSettled(shards: Shards, done: set<nat>): Shards {
    map i | i in shards :: if i in done then shards[i].(mapStored := true, dirty := false) else shards[i]
  }

  // Results of I/O steps, and sequences of crash points. ------------------------------------

  lemma RestTwice(results: seq<bool>, n: nat, m: nat)
    ensures Rest(Rest(results, n), m) == Rest(results, n + m)
    ensures AllTrue(results, n + m) <==> AllTrue(results, n) && AllTrue(Rest(results, n), m)
  {
    if AllTrue(results, n) && AllTrue(Rest(results, n), m) {
      forall k | 0 <= k < n + m && k < |results| ensures results[k] {
        if k >= n { assert results[k] == Rest(results, n)[k - n]; }
      }
    }
  }

  lemma RestNone()
    ensures forall n: nat :: Rest([], n) == [] && AllTrue([], n)
  {
  }

  lemma QuietSelf(a: seq<Disk>, d: Disk)
    ensures Quiet(a, a, d, d)
  {
  }

  lemma KeepsTwice(a: Disk, b: Disk, c: Disk)
    requires KeepsFiles(a, b) && KeepsFiles(b, c)
    ensures KeepsFiles(a, c)
  {
    hide At;
    forall i ensures KeepsFile(At(a, i), At(c, i)) {
      assert KeepsFile(At(a, i), At(b, i)) && KeepsFile(At(b, i), At(c, i));
    }
  }

  lemma GoesTwice(a: seq<Disk>, b: seq<Disk>, c: seq<Disk>, d: Disk, e: Disk, f: Disk)
    requires Goes(a, b, d, e) && Goes(b, c, e, f)
    ensures Goes(a, c, d, f)
  {
    hide KeepsFiles;
    KeepsTwice(d, e, f);
    forall k | |a| <= k < |c| ensures KeepsFiles(d, c[k]) {
      if k < |b| {
        assert c[k] == b[k];
      } else {
        KeepsTwice(d, e, c[k]);
      }
    }
  }

  lemma QuietTwice(a: seq<Disk>, b: seq<Disk>, c: seq<Disk>, d: Disk, e: Disk, f: Disk)
    requires Quiet(a, b, d, e) && Quiet(b, c, e, f)
    ensures Quiet(a, c, d, f)
  {
    hide KeepsFiles, Goes;
    GoesTwice(a, b, c, d, e, f);
    assert forall k :: |a| <= k < |b| ==> c[k] == b[k] by { assert b <= c by { GoesOn(b, c, e, f); } }
  }

  lemma GoesOn(a: seq<Disk>, b: seq<Disk>, d: Disk, e: Disk)
    requires Goes(a, b, d, e)
    ensures a <= b
  {
  }

  lemma FileIs(d: Disk, discards: bool, i: nat)
    requires CatalogSafe(d, discards)
    ensures FileOk(At(d, i)) && (discards && true in At(d, i).names ==> Missing !in At(d, i).discard.poss)
  {
    hide At;
  }

  lemma UsedIs(d: Disk, i: nat)
    requires UsedProven(d)
    ensures Used in At(d, i).alloc.poss ==> At(d, i).names == {true} && At(d, i).sizes == {true}
  {
    hide At;
  }

  lemma ShardIs(d: Disk, catalog: set<nat>, catalogDirty: bool, shards: Shards, discards: bool, i: nat)
    requires StoreOk(d, catalog, catalogDirty, shards, discards) && i in shards
    ensures ShardOk(At(d, i), shards[i], catalogDirty) && FileOk(At(d, i))
  {
    hide At, ShardOk, FileOk;
    FileIs(d, discards, i);
  }

  lemma SyncAt(d: Disk)
    ensures SyncDataDir(d).catalogs == d.catalogs
    ensures forall i :: At(SyncDataDir(d), i) == SyncedFile(At(d, i))
  {
    assert SyncedFile(ABSENT) == ABSENT;
  }

  lemma SyncFile(f: ShardFile, discards: bool)
    requires FileOk(f) && (discards && true in f.names ==> Missing !in f.discard.poss)
    ensures FileStep(f, SyncedFile(f), discards)
  {
  }

  lemma SyncOk(d: Disk, catalog: set<nat>, catalogDirty: bool, shards: Shards, discards: bool)
    requires StoreOk(d, catalog, catalogDirty, shards, discards)
    ensures StoreOk(SyncDataDir(d), catalog, catalogDirty, shards, discards) && KeepsFiles(d, SyncDataDir(d))
  {
    hide At, FileOk, SyncDataDir, SyncedFile, ShardOk, KeepsFile;
    SyncAt(d);
    forall i ensures FileStep(At(d, i), At(SyncDataDir(d), i), discards) {
      FileIs(d, discards, i);
      SyncFile(At(d, i), discards);
    }
    forall c, i | c in d.catalogs && i in c ensures Complete(SyncDataDir(d), i) {
      assert Complete(d, i);
      assert KeepsFile(At(d, i), At(SyncDataDir(d), i));
      KeepsComplete(d, SyncDataDir(d), i);
    }
    forall i | i in shards ensures ShardOk(At(SyncDataDir(d), i), shards[i], catalogDirty) {
      ShardIs(d, catalog, catalogDirty, shards, discards, i);
      SyncShard(At(d, i), shards[i], catalogDirty);
    }
  }

  lemma KeepsComplete(a: Disk, b: Disk, i: nat)
    requires KeepsFile(At(a, i), At(b, i)) && Complete(a, i)
    ensures Complete(b, i)
  {
    hide At;
  }

  lemma SyncShard(f: ShardFile, s: Shard, catalogDirty: bool)
    requires FileOk(f) && ShardOk(f, s, catalogDirty)
    ensures ShardOk(SyncedFile(f), s, catalogDirty)
  {
  }

  lemma SyncSound(d: Disk, catalog: set<nat>, catalogDirty: bool, shards: Shards, discards: bool)
    requires Sound(d, shards) && StoreOk(d, catalog, catalogDirty, shards, discards)
    ensures Sound(SyncDataDir(d), shards)
  {
    hide At, SyncDataDir, ShardOk;
    SyncAt(d);
    forall i | Used in At(SyncDataDir(d), i).alloc.poss
      ensures At(SyncDataDir(d), i).names == {true} && At(SyncDataDir(d), i).sizes == {true}
    {
      FileIs(d, discards, i);
      UsedIs(d, i);
    }
    forall i | i in shards ensures SoundShard(At(SyncDataDir(d), i), shards[i]) {
      FileIs(d, discards, i);
      assert SoundShard(At(d, i), shards[i]);
    }
  }

  lemma ProvenOk(d: Disk, catalog: set<nat>, catalogDirty: bool, shards: Shards, discards: bool, i: nat)
    requires StoreOk(d, catalog, catalogDirty, shards, discards) && i in shards
    ensures StoreOk(d, catalog, catalogDirty, shards[i := shards[i].(short := Proven)], discards)
  {
    hide At, CatalogSafe;
    assert ShardOk(At(d, i), shards[i], catalogDirty);
  }

  lemma ProvenSound(d: Disk, shards: Shards, i: nat)
    requires Sound(d, shards) && i in shards && At(d, i).sizes == {true}
    ensures Sound(d, shards[i := shards[i].(short := Proven)])
  {
    hide At, UsedProven;
    assert SoundShard(At(d, i), shards[i]);
  }

  lemma SyncedDone(d: Disk, catalog: set<nat>, catalogDirty: bool, shards: Shards, discards: bool, done: set<nat>)
    requires StoreOk(d, catalog, catalogDirty, shards, discards) && done <= shards.Keys
    requires forall i :: i in done ==> At(d, i).alloc.stored && At(d, i).alloc.shown == Content(shards[i])
    ensures forall i :: i in done ==>
      At(SyncDataDir(d), i).names == {true} && At(SyncDataDir(d), i).alloc.poss == {Content(shards[i])}
  {
    hide At, SyncDataDir, CatalogSafe;
    SyncAt(d);
    forall i | i in done ensures At(d, i).named {
      assert ShardOk(At(d, i), shards[i], catalogDirty);
    }
  }

  lemma SettledOk(d: Disk, catalog: set<nat>, catalogDirty: bool, shards: Shards, discards: bool, done: set<nat>)
    requires StoreOk(d, catalog, catalogDirty, shards, discards)
    requires forall i :: i in done && i in shards ==> At(d, i).names == {true} && At(d, i).alloc.poss == {Content(shards[i])}
    ensures StoreOk(d, catalog, catalogDirty, MapsSettled(shards, done), discards)
  {
    hide At, CatalogSafe;
    forall i | i in shards ensures ShardOk(At(d, i), MapsSettled(shards, done)[i], catalogDirty) {
      assert ShardOk(At(d, i), shards[i], catalogDirty);
    }
  }

  lemma SettledSound(d: Disk, shards: Shards, done: set<nat>)
    requires Sound(d, shards)
    ensures Sound(d, MapsSettled(shards, done))
  {
    hide At, UsedProven;
    forall i | i in shards ensures SoundShard(At(d, i), MapsSettled(shards, done)[i]) {
      assert SoundShard(At(d, i), shards[i]);
    }
  }

  // One step. -------------------------------------------------------------------------------

  /** A change of one shard's files that undoes nothing. */
  ghost predicate FileStep(f: ShardFile, g: ShardFile, discards: bool) {
    KeepsFile(f, g) && FileOk(g) && (discards && true in g.names ==> Missing !in g.discard.poss)
  }

  lemma SetFileAt(d: Disk, i: nat, f: ShardFile)
    ensures forall j :: At(SetFile(d, i, f), j) == if j == i then f else At(d, j)
  {
  }

  lemma FileStepOk(d: Disk, catalog: set<nat>, catalogDirty: bool, shards: Shards, discards: bool, i: nat, f: ShardFile)
    requires StoreOk(d, catalog, catalogDirty, shards, discards) && FileStep(At(d, i), f, discards)
    requires i in shards ==> ShardOk(f, shards[i], catalogDirty)
    ensures StoreOk(SetFile(d, i, f), catalog, catalogDirty, shards, discards) && KeepsFiles(d, SetFile(d, i, f))
  {
    hide At, FileOk, ShardOk;
    SetFileAt(d, i, f);
    forall c, j | c in d.catalogs && j in c ensures Complete(SetFile(d, i, f), j) {
      assert Complete(d, j);
    }
  }

  lemma FileStepSound(d: Disk, shards: Shards, i: nat, f: ShardFile)
    requires Sound(d, shards) && (i in shards ==> SoundShard(f, shards[i]))
    requires Used in f.alloc.poss ==> f.names == {true} && f.sizes == {true}
    ensures Sound(SetFile(d, i, f), shards)
  {
    hide At, SoundShard;
    SetFileAt(d, i, f);
  }

  // Loops over shards. ----------------------------------------------------------------------

  /** `commit_adopted_maps` with `rest` of the pending shards still to do. */
  ghost predicate Adopting(before: Shards, now: Shards, pending: set<nat>, rest: set<nat>, d: Disk, e: Disk) {
    && now.Keys == before.Keys && pending == Pending(before)
    && (forall i :: i in now ==> now[i] == if i in pending && i !in rest then before[i].(short := Proven) else before[i])
    && (forall i :: i in pending && i !in rest ==> At(e, i).alloc.stored && At(e, i).alloc.shown == Content(now[i]))
    && (forall j :: j !in pending ==> Beside(At(d, j), At(e, j)))
  }

  lemma AdoptStarts(shards: Shards, d: Disk)
    ensures Adopting(shards, shards, Pending(shards), Pending(shards), d, d)
  {
    hide At;
  }

  lemma AdoptKeys(before: Shards, now: Shards, pending: set<nat>, rest: set<nat>, d: Disk, e: Disk)
    requires Adopting(before, now, pending, rest, d, e)
    ensures now.Keys == before.Keys && pending <= now.Keys
    ensures forall i :: i in pending && i !in rest ==> At(e, i).alloc.stored && At(e, i).alloc.shown == Content(now[i])
  {
    hide At, Content, Beside;
  }

  lemma AdoptNext(before: Shards, now: Shards, next: Shards, pending: set<nat>, rest: set<nat>, i: nat, d: Disk, e: Disk, f: Disk)
    requires Adopting(before, now, pending, rest, d, e) && i in rest && rest <= pending && i in now
    requires next == now[i := now[i].(short := Proven)]
    requires At(f, i).alloc.stored && At(f, i).alloc.shown == Content(next[i])
    requires forall j :: j != i ==> Beside(At(e, j), At(f, j))
    ensures Adopting(before, next, pending, rest - {i}, d, f)
  {
    hide At, Content, Pending;
    forall j | j !in pending ensures Beside(At(d, j), At(f, j)) {
      BesideTwice(At(d, j), At(e, j), At(f, j));
    }
  }

  lemma AdoptFails(before: Shards, now: Shards, next: Shards, pending: set<nat>, rest: set<nat>, i: nat, d: Disk, e: Disk, f: Disk)
    requires Adopting(before, now, pending, rest, d, e) && i in rest && rest <= pending && i in now
    requires i in next && next == now[i := now[i].(short := next[i].short)] && next[i].short in {now[i].short, Proven}
    requires forall j :: j != i ==> Beside(At(e, j), At(f, j))
    ensures next.Keys == before.Keys
    ensures forall j :: j in next ==> next[j].used == before[j].used && next[j].short in {before[j].short, Proven}
    ensures forall j :: j in next && before[j].mapStored ==> next[j] == before[j]
    ensures forall j :: j !in pending ==> Beside(At(d, j), At(f, j))
  {
    hide At, Content;
  }

  lemma AdoptEnds(before: Shards, now: Shards, pending: set<nat>, d: Disk, e: Disk)
    requires Adopting(before, now, pending, {}, d, e)
    ensures now.Keys == before.Keys
    ensures forall j :: j in now ==> now[j].used == before[j].used && now[j].short in {before[j].short, Proven}
    ensures forall j :: j in now && before[j].mapStored ==> now[j] == before[j]
    ensures forall j :: j in now && !before[j].mapStored ==> now[j] == before[j].(short := Proven)
    ensures forall j :: j !in pending ==> Beside(At(d, j), At(e, j))
  {
    hide At, Content;
  }

  lemma AdoptSettles(before: Shards, now: Shards, pending: set<nat>, d: Disk, e: Disk, f: Disk)
    requires Adopting(before, now, pending, {}, d, e) && forall j :: Beside(At(e, j), At(f, j))
    ensures now.Keys == before.Keys
    ensures forall j :: j in now ==> now[j].used == before[j].used && now[j].short in {before[j].short, Proven}
    ensures forall j :: j in now && before[j].mapStored ==> now[j] == before[j]
    ensures forall j :: j !in pending ==> Beside(At(d, j), At(f, j))
    ensures
      var done := MapsSettled(now, pending);
      && done.Keys == before.Keys
      && forall j :: j in done ==>
           done[j] == if before[j].mapStored then before[j] else before[j].(mapStored := true, dirty := false, short := Proven)
  {
    hide At, Content, Beside;
    AdoptEnds(before, now, pending, d, e);
    forall j | j !in pending ensures Beside(At(d, j), At(f, j)) {
      BesideTwice(At(d, j), At(e, j), At(f, j));
    }
  }

  lemma BesideTwice(f: ShardFile, g: ShardFile, h: ShardFile)
    requires Beside(f, g) && Beside(g, h)
    ensures Beside(f, h)
  {
  }

  lemma DirtyIs(shards: Shards)
    ensures forall i :: i in DirtyShards(shards) <==> i in shards && (shards[i].dirty || !shards[i].mapStored)
    ensures forall i :: i in Pending(shards) <==> i in shards && !shards[i].mapStored
    ensures Pending(shards) * DirtyShards(shards) == Pending(shards)
  {
  }

  /** `persist_allocations` with `rest` of the dirty maps still to store. */
  ghost predicate Storing(shards: Shards, dirty: set<nat>, rest: set<nat>, d: Disk, e: Disk) {
    && (forall i :: i in dirty && i !in rest && i in shards ==> At(e, i).alloc.stored && At(e, i).alloc.shown == Content(shards[i]))
    && (forall j :: At(e, j).sizes == At(d, j).sizes)
  }

  lemma StoringStarts(shards: Shards, dirty: set<nat>, d: Disk)
    ensures Storing(shards, dirty, dirty, d, d)
    ensures dirty == DirtyShards(shards) ==>
      MapSteps(shards) == if dirty == {} then 0 else |dirty| + |Pending(shards) * dirty| + 1
  {
    hide At;
    DirtyIs(shards);
  }

  lemma StoringNext(shards: Shards, dirty: set<nat>, rest: set<nat>, i: nat, d: Disk, e: Disk, f: Disk)
    requires Storing(shards, dirty, rest, d, e) && i in shards
    requires forall j :: j != i ==> At(f, j) == At(e, j)
    requires At(f, i).sizes == At(e, i).sizes && At(f, i).alloc.stored && At(f, i).alloc.shown == Content(shards[i])
    ensures Storing(shards, dirty, rest - {i}, d, f)
  {
    hide At, Content;
  }

  lemma StoringFails(shards: Shards, dirty: set<nat>, rest: set<nat>, i: nat, d: Disk, e: Disk, f: Disk)
    requires Storing(shards, dirty, rest, d, e)
    requires forall j :: j != i ==> At(f, j) == At(e, j)
    requires At(f, i).sizes == At(e, i).sizes
    ensures forall j :: At(f, j).sizes == At(d, j).sizes
  {
    hide At, Content;
  }

  lemma StoringEnds(shards: Shards, dirty: set<nat>, d: Disk, e: Disk)
    requires Storing(shards, dirty, {}, d, e)
    ensures forall i :: i in dirty && i in shards ==> At(e, i).alloc.stored && At(e, i).alloc.shown == Content(shards[i])
    ensures forall j :: At(e, j).sizes == At(d, j).sizes
  {
    hide At, Content;
  }

  lemma OneLess(rest: set<nat>, pending: set<nat>, i: nat)
    requires i in rest
    ensures |rest| == |rest - {i}| + 1
    ensures |pending * rest| == |pending * (rest - {i})| + if i in pending then 1 else 0
  {
    assert rest == (rest - {i}) + {i};
    assert pending * rest == (pending * (rest - {i})) + (if i in pending then {i} else {});
  }

  lemma NoSteps(results: seq<bool>)
    ensures AllTrue(results, 0) && Rest(results, 0) == results
  {
  }

  lemma NoneSettled(shards: Shards, done: set<nat>)
    ensures done == {} ==> MapsSettled(shards, done) == shards
  {
  }

  lemma StepsFail(results: seq<bool>, n: nat, k: nat, m: nat)
    requires !AllTrue(results, n + k) && n + k <= m
    ensures !AllTrue(results, m)
  {
  }

  // Storing a catalog. ----------------------------------------------------------------------

  /** A crash while `next` is being stored. */
  ghost predicate Stores(d: Disk, next: set<nat>, p: Disk) {
    p.files == d.files && next in p.catalogs && p.catalogs <= d.catalogs + {next}
  }

  lemma SameFiles(a: Disk, b: Disk)
    requires b.files == a.files
    ensures KeepsFiles(a, b) && forall i :: At(b, i) == At(a, i) && (Complete(b, i) <==> Complete(a, i))
    ensures UsedProven(a) ==> UsedProven(b)
    ensures forall discards :: FilesOk(a, discards) ==> FilesOk(b, discards)
  {
  }

  lemma NothingRests()
    ensures forall n: nat :: Rest([], n) == []
  {
  }

  lemma QuietSized(a: seq<Disk>, b: seq<Disk>, d: Disk, e: Disk)
    requires Quiet(a, b, d, e)
    ensures Goes(a, b, d, e) && e.catalogs == d.catalogs
    ensures Sized(d) ==> Sized(e) && forall k :: |a| <= k < |b| ==> Sized(b[k])
  {
    hide KeepsFiles, Sized;
    if Sized(d) {
      KeepsSized(d, e);
      forall k | |a| <= k < |b| ensures Sized(b[k]) {
        KeepsSized(d, b[k]);
      }
    }
  }

  lemma KeepsSized(d: Disk, e: Disk)
    requires KeepsFiles(d, e) && e.catalogs == d.catalogs && Sized(d)
    ensures Sized(e)
  {
    hide At;
    forall c, i | c in e.catalogs && i in c ensures At(e, i).sizes == {true} {
      assert KeepsFile(At(d, i), At(e, i));
    }
  }

  lemma AllComplete(d: Disk, catalog: set<nat>, catalogDirty: bool, shards: Shards, discards: bool)
    requires StoreOk(d, catalog, catalogDirty, shards, discards) && forall i :: i in shards ==> shards[i].mapStored
    ensures catalog == shards.Keys && forall i :: i in catalog ==> Complete(d, i)
  {
    hide At, CatalogSafe;
    forall i | i in catalog ensures Complete(d, i) {
      assert ShardOk(At(d, i), shards[i], catalogDirty);
    }
  }

  lemma NoneUnproven(d: Disk, catalog: set<nat>, catalogDirty: bool, shards: Shards, discards: bool)
    requires StoreOk(d, catalog, catalogDirty, shards, discards) && forall i :: i in shards ==> shards[i].short == Proven
    ensures StoreOk(d, catalog, false, shards, discards)
  {
    hide At, CatalogSafe;
    forall i | i in shards ensures ShardOk(At(d, i), shards[i], false) {
      assert ShardOk(At(d, i), shards[i], catalogDirty);
    }
  }

  lemma StoresSized(d: Disk, shards: Shards, next: set<nat>, a: seq<Disk>, b: seq<Disk>, e: Disk)
    requires Sound(d, shards) && next == shards.Keys && forall i :: i in shards ==> shards[i].short == Proven
    requires (forall k :: |a| <= k < |b| ==> Stores(d, next, b[k])) && Stores(d, next, e)
    ensures Sized(d) ==> Sized(e) && forall k :: |a| <= k < |b| ==> Sized(b[k])
  {
    hide At, Sized, Sound, Stores;
    if Sized(d) {
      StoreSized(d, shards, next, e);
      forall k | |a| <= k < |b| ensures Sized(b[k]) {
        StoreSized(d, shards, next, b[k]);
      }
    }
  }

  lemma StoreSized(d: Disk, shards: Shards, next: set<nat>, p: Disk)
    requires Sound(d, shards) && next == shards.Keys && forall i :: i in shards ==> shards[i].short == Proven
    requires Stores(d, next, p) && Sized(d)
    ensures Sized(p)
  {
    hide At, UsedProven;
    SameFiles(d, p);
    forall c, i | c in p.catalogs && i in c ensures At(p, i).sizes == {true} {
      assert i in shards ==> SoundShard(At(d, i), shards[i]);
    }
  }

  lemma GoesSized(a: seq<Disk>, b: seq<Disk>, c: seq<Disk>, d: Disk, e: Disk, f: Disk)
    requires Goes(a, b, d, e) && Goes(b, c, e, f)
    ensures Goes(a, c, d, f) && b <= c
    ensures (forall k :: |a| <= k < |b| ==> Sized(b[k])) && (forall k :: |b| <= k < |c| ==> Sized(c[k])) ==>
      forall k :: |a| <= k < |c| ==> Sized(c[k])
  {
    hide KeepsFiles, Sized;
    GoesTwice(a, b, c, d, e, f);
    assert forall k :: |a| <= k < |b| ==> c[k] == b[k];
  }

  lemma SettledIs(shards: Shards)
    ensures
      var done := MapsSettled(shards, DirtyShards(shards));
      done.Keys == shards.Keys && forall i :: i in done ==> done[i] == shards[i].(mapStored := true, dirty := false)
  {
  }

  lemma SettledShort(shards: Shards, done: Shards)
    requires done == MapsSettled(shards, DirtyShards(shards))
    ensures (exists i :: i in shards && shards[i].short != Proven) ==> exists i :: i in done && done[i].short != Proven
  {
    SettledIs(shards);
    if exists i :: i in shards && shards[i].short != Proven {
      var i :| i in shards && shards[i].short != Proven;
      assert i in done && done[i].short != Proven;
    }
  }

  // Naming a new shard. ---------------------------------------------------------------------

  /** A crash that finds the catalogs of `d`, or the new one. */
  ghost predicate MayName(d: Disk, shards: Shards, next: set<nat>, p: Disk) {
    p.catalogs == d.catalogs || Named(d, shards, next, p)
  }

  /** Every adopted shard has been proven and stored; the others are as they were. */
  ghost predicate AllAdopted(before: Shards, now: Shards) {
    && now.Keys == before.Keys
    && forall j :: j in now ==>
         now[j] == if before[j].mapStored then before[j] else before[j].(mapStored := true, dirty := false, short := Proven)
  }

  lemma QuietNames(a: seq<Disk>, b: seq<Disk>, d: Disk, e: Disk, shards: Shards, next: set<nat>)
    requires Quiet(a, b, d, e)
    ensures Goes(a, b, d, e) && MayName(d, shards, next, e)
    ensures forall k :: |a| <= k < |b| ==> MayName(d, shards, next, b[k])
  {
    hide KeepsFiles, Named;
  }

  lemma QuietSizes(a: seq<Disk>, b: seq<Disk>, d: Disk, e: Disk, i: nat)
    requires Quiet(a, b, d, e) && At(d, i).sizes == {true}
    ensures At(e, i).sizes == {true} && e.catalogs == d.catalogs
  {
    hide At;
    assert KeepsFile(At(d, i), At(e, i));
  }

  lemma AdoptedComplete(d: Disk, catalog: set<nat>, catalogDirty: bool, before: Shards, shards: Shards, discards: bool, i: nat)
    requires StoreOk(d, catalog, catalogDirty, shards, discards) && AllAdopted(before, shards)
    requires At(d, i).names == {true} && At(d, i).alloc.poss == {Empty}
    ensures catalog == shards.Keys && forall j :: j in catalog + {i} ==> Complete(d, j)
  {
    hide At, CatalogSafe;
    AllComplete(d, catalog, catalogDirty, shards, discards);
  }

  lemma NamesAll(d: Disk, before: Shards, e: Disk, now: Shards, i: nat, catalog: set<nat>)
    requires Sound(e, now) && AllAdopted(before, now) && At(e, i).sizes == {true} && i !in before && catalog == now.Keys
    requires forall j :: j in before && before[j].mapStored ==> At(e, j).sizes == At(d, j).sizes
    ensures forall j :: j in catalog + {i} ==>
      At(e, j).sizes == if j in before && Waits(before[j]) then At(d, j).sizes else {true}
  {
    hide At, UsedProven;
    forall j | j in catalog ensures SoundShard(At(e, j), now[j]) {
    }
  }

  lemma StoresNames(d: Disk, before: Shards, e: Disk, next: set<nat>, b: seq<Disk>, c: seq<Disk>, f: Disk)
    requires e.catalogs == d.catalogs
    requires forall j :: j in next ==> At(e, j).sizes == if j in before && Waits(before[j]) then At(d, j).sizes else {true}
    requires (forall k :: |b| <= k < |c| ==> Stores(e, next, c[k])) && Stores(e, next, f)
    ensures Named(d, before, next, f) && forall k :: |b| <= k < |c| ==> Named(d, before, next, c[k])
  {
    hide At;
    SameFiles(e, f);
    forall k | |b| <= k < |c| ensures Named(d, before, next, c[k]) {
      SameFiles(e, c[k]);
    }
  }

  lemma NamesGoOn(a: seq<Disk>, b: seq<Disk>, c: seq<Disk>, d: Disk, e: Disk, f: Disk, before: Shards, next: set<nat>, sound: bool)
    requires Quiet(a, b, d, e) && Goes(b, c, e, f)
    requires sound ==> forall k :: |b| <= k < |c| ==> Named(d, before, next, c[k])
    ensures Goes(a, c, d, f)
    ensures sound ==> forall k :: |a| <= k < |c| ==> MayName(d, before, next, c[k])
  {
    hide KeepsFiles, Named;
    QuietNames(a, b, d, e, before, next);
    GoesTwice(a, b, c, d, e, f);
    assert forall k :: |a| <= k < |b| ==> c[k] == b[k];
  }

  lemma NamesTwice(a: seq<Disk>, b: seq<Disk>, c: seq<Disk>, d: Disk, e: Disk, f: Disk, before: Shards, next: set<nat>, i: nat, sound: bool)
    requires Quiet(a, b, d, e) && Goes(b, c, e, f)
    requires i !in before && forall j :: j != i ==> Beside(At(d, j), At(e, j))
    requires sound ==> MayName(e, before, next, f) && forall k :: |b| <= k < |c| ==> MayName(e, before, next, c[k])
    ensures Goes(a, c, d, f)
    ensures sound ==> MayName(d, before, next, f) && forall k :: |a| <= k < |c| ==> MayName(d, before, next, c[k])
  {
    hide KeepsFiles, At;
    QuietNames(a, b, d, e, before, next);
    GoesTwice(a, b, c, d, e, f);
    assert forall k :: |a| <= k < |b| ==> c[k] == b[k];
  }

  lemma AddShard(d: Disk, catalog: set<nat>, catalogDirty: bool, shards: Shards, discards: bool, i: nat)
    requires StoreOk(d, catalog, catalogDirty, shards, discards) && Complete(d, i) && At(d, i).named
    ensures StoreOk(d, catalog + {i}, catalogDirty, shards[i := Shard(true, Proven, false, false)], discards)
  {
    hide At, CatalogSafe;
  }

  lemma AddSound(d: Disk, shards: Shards, i: nat)
    requires Sound(d, shards) && At(d, i).sizes == {true}
    ensures Sound(d, shards[i := Shard(true, Proven, false, false)])
  {
    hide At, UsedProven;
  }

  // The promise about sizes. ----------------------------------------------------------------

  /** The condition of `ensure_shard` for a crash point `p`. */
  ghost predicate Promised(i: nat, d: Disk, shards: Shards, p: Disk) {
    i in shards || p.catalogs == d.catalogs || WaitingSized(d, shards)
  }

  lemma NamedExactly(a: seq<Disk>, b: seq<Disk>, d: Disk, e: Disk, shards: Shards, next: set<nat>, i: nat)
    requires Sized(d) && shards.Keys <= next && i !in shards && Goes(a, b, d, e)
    requires MayName(d, shards, next, e) && forall k :: |a| <= k < |b| ==> MayName(d, shards, next, b[k])
    ensures Sized(e) <==> Promised(i, d, shards, e)
    ensures forall k :: |a| <= k < |b| ==> (Sized(b[k]) <==> Promised(i, d, shards, b[k]))
  {
    hide Sized, WaitingSized, Named, KeepsFiles;
    NamedSized(d, shards, next, e);
    forall k | |a| <= k < |b| ensures Sized(b[k]) <==> Promised(i, d, shards, b[k]) {
      NamedSized(d, shards, next, b[k]);
    }
  }

  /** A crash point of a catalog publication, exactly. */
  lemma NamedSized(d: Disk, shards: Shards, next: set<nat>, p: Disk)
    requires Sized(d) && shards.Keys <= next && KeepsFiles(d, p) && MayName(d, shards, next, p)
    ensures Sized(p) <==> p.catalogs == d.catalogs || WaitingSized(d, shards)
  {
    hide At, KeepsFiles;
    if p.catalogs == d.catalogs {
      KeepsSized(d, p);
    } else if WaitingSized(d, shards) {
      forall c, j | c in p.catalogs && j in c ensures At(p, j).sizes == {true} {
        if c != next {
          KeepsAt(d, p, j);
          assert c in d.catalogs && At(d, j).sizes == {true};
        }
      }
    } else {
      var w :| w in shards && Waits(shards[w]) && At(d, w).sizes != {true};
      assert next in p.catalogs && w in next && At(p, w).sizes == At(d, w).sizes;
    }
  }

  lemma KeepsAt(d: Disk, e: Disk, i: nat)
    requires KeepsFiles(d, e)
    ensures KeepsFile(At(d, i), At(e, i))
  {
  }

  /** The guard a caller can test is exact: no shard waits if and only if on every disk
      that agrees with memory the shards that wait have their full size. */
  lemma GuardIsExact(d: Disk, catalog: set<nat>, catalogDirty: bool, shards: Shards, discards: bool)
    requires StoreOk(d, catalog, catalogDirty, shards, discards) && Sound(d, shards)
    ensures NoneWaiting(shards) <==>
      forall e :: StoreOk(e, catalog, catalogDirty, shards, discards) && Sound(e, shards) && Sized(e) ==> WaitingSized(e, shards)
  {
    if !NoneWaiting(shards) {
      var w :| w in shards && Waits(shards[w]);
      var e := Doubtful(d, w);
      DoubtfulOk(d, catalog, catalogDirty, shards, discards, w);
      assert Sized(e) && !WaitingSized(e, shards);
    }
  }

  /** The disk on which only the size of `w` is in doubt, and no shard is cataloged. */
  function Doubtful(d: Disk, w: nat): Disk {
    Disk(d.files[w := At(d, w).(sizes := {false, true}, sized := true, alloc := Pair({Empty}, Empty, false))], {{}})
  }

  lemma DoubtfulOk(d: Disk, catalog: set<nat>, catalogDirty: bool, shards: Shards, discards: bool, w: nat)
    requires StoreOk(d, catalog, catalogDirty, shards, discards) && Sound(d, shards) && w in shards && Waits(shards[w])
    ensures
      var e := Doubtful(d, w);
      && StoreOk(e, catalog, catalogDirty, shards, discards) && Sound(e, shards)
      && At(e, w).sizes == {false, true} && Sized(e)
  {
    hide At;
    var e := Doubtful(d, w);
    DoubtfulAt(d, w);
    assert ShardOk(At(d, w), shards[w], catalogDirty) && SoundShard(At(d, w), shards[w]);
    forall i ensures FileOk(At(e, i)) && (discards && true in At(e, i).names ==> Missing !in At(e, i).discard.poss) {
      FileIs(d, discards, i);
    }
    forall i | i in shards ensures ShardOk(At(e, i), shards[i], catalogDirty) && SoundShard(At(e, i), shards[i]) {
      assert ShardOk(At(d, i), shards[i], catalogDirty) && SoundShard(At(d, i), shards[i]);
    }
    assert e.catalogs == {{}};
  }

  lemma DoubtfulAt(d: Disk, w: nat)
    ensures At(Doubtful(d, w), w) == At(d, w).(sizes := {false, true}, sized := true, alloc := Pair({Empty}, Empty, false))
    ensures forall i :: i != w ==> At(Doubtful(d, w), i) == At(d, i)
  {
  }

  lemma UsedOk(d: Disk, catalog: set<nat>, catalogDirty: bool, shards: Shards, discards: bool, i: nat)
    requires StoreOk(d, catalog, catalogDirty, shards, discards) && i in shards && shards[i].short != Unproven
    ensures StoreOk(d, catalog, catalogDirty, shards[i := shards[i].(used := true, dirty := true)], discards)
  {
    hide At, CatalogSafe;
    assert ShardOk(At(d, i), shards[i], catalogDirty);
  }

  lemma UsedSound(d: Disk, shards: Shards, i: nat)
    requires Sound(d, shards) && i in shards && shards[i].short == Proven && Complete(d, i)
    ensures Sound(d, shards[i := shards[i].(used := true, dirty := true)])
  {
    hide At, UsedProven;
    assert SoundShard(At(d, i), shards[i]);
  }

  /** What a crash leaves of one shard's files. After a mere restart it may still be
      volatile; nothing counts as stored by the new session. */
  ghost predicate SurvivesFile(f: ShardFile, g: ShardFile) {
    && FileOk(g)
    && g.names <= f.names && (g.named ==> g.sizes <= f.sizes)
    && g.alloc.poss <= f.alloc.poss && g.discard.poss <= f.discard.poss
    && !g.alloc.stored && !g.discard.stored
  }

  ghost predicate Survives(d: Disk, e: Disk, catalog: set<nat>) {
    && catalog in e.catalogs && e.catalogs <= d.catalogs
    && forall i :: SurvivesFile(At(d, i), At(e, i))
  }

  function Orphans(d: Disk, catalog: set<nat>): set<nat> {
    set i | i in d.files && d.files[i].named && i !in catalog
  }

  /** How a shard is loaded. Without a catalog entry and with no slot listed nothing
      proves the size; else a short file was truncated, and if slots lie `beyond` its
      end they are marked as damaged. */
  function Loaded(f: ShardFile, cataloged: bool, beyond: bool): Shard {
    var used, missing := f.alloc.shown == Used, f.alloc.shown == Missing;
    if !cataloged && !used then Shard(false, Unproven, missing, false)
    else if f.sized then Shard(false, Proven, missing, used)
    else Shard(false, Truncated(beyond), missing || beyond, used || beyond)
  }

  /** The size of a shard is in doubt exactly when neither the catalog nor a listed
      slot vouches for it; otherwise a short file is a truncated one. The map is to be
      stored again when it was missing or got damage marks. */
  lemma LoadedMeans(f: ShardFile, cataloged: bool, beyond: bool)
    ensures
      var s := Loaded(f, cataloged, beyond);
      && (s.short == Unproven <==> !cataloged && f.alloc.shown != Used)
      && (s.short.Truncated? <==> !f.sized && (cataloged || f.alloc.shown == Used))
      && (s.short.Truncated? ==> s.short == Truncated(beyond))
      && !s.mapStored
      && (s.used <==> f.alloc.shown == Used || s.short == Truncated(true))
      && (s.dirty <==> f.alloc.shown == Missing || s.short == Truncated(true))
  {
  }

  lemma SurvivorSafe(d: Disk, e: Disk, catalog: set<nat>, discards: bool)
    requires CatalogSafe(d, discards) && Survives(d, e, catalog)
    ensures CatalogSafe(e, discards) && forall i :: Complete(d, i) ==> Complete(e, i) && At(e, i).named
    ensures Sized(d) ==> Sized(e)
    ensures UsedProven(d) ==> UsedProven(e)
  {
    hide At;
    forall i ensures SurvivesFile(At(d, i), At(e, i)) && FileOk(At(d, i)) {
      FileIs(d, discards, i);
    }
    forall c, i | c in e.catalogs && i in c ensures Complete(e, i) && At(e, i).named {
      assert Complete(d, i);
    }
  }

  lemma SurvivorLoads(d: Disk, e: Disk, catalog: set<nat>, discards: bool, i: nat)
    requires CatalogSafe(d, discards) && Survives(d, e, catalog) && i in catalog + Orphans(e, catalog)
    ensures At(e, i).named && (i in catalog ==> At(e, i).alloc.shown != Missing)
    ensures discards ==> At(e, i).discard.shown != Missing
  {
    SurvivorSafe(d, e, catalog, discards);
    FileIs(e, discards, i);
    assert i in catalog ==> Complete(e, i);
  }

  lemma LoadedOk(d: Disk, e: Disk, catalog: set<nat>, beyond: set<nat>, shards: Shards, discards: bool)
    requires CatalogSafe(d, discards) && Survives(d, e, catalog)
    requires shards.Keys == catalog + Orphans(e, catalog)
    requires forall i :: i in shards ==> shards[i] == Loaded(At(e, i), i in catalog, i in beyond)
    ensures StoreOk(e, shards.Keys, shards.Keys != catalog, shards, discards)
    ensures Orphans(e, catalog) != {} <==> shards.Keys != catalog
    ensures forall i :: Complete(d, i) ==> i in shards
    ensures Sized(d) && UsedProven(d) ==> Sound(e, shards) && Sized(e)
  {
    hide CatalogSafe, Survives, Sized, UsedProven, Complete;
    SurvivorSafe(d, e, catalog, discards);
    forall i | i in shards ensures ShardOk(At(e, i), shards[i], shards.Keys != catalog) {
      SurvivorLoads(d, e, catalog, discards, i);
      FileIs(e, discards, i);
    }
    if Sized(d) && UsedProven(d) {
      forall i | i in shards ensures SoundShard(At(e, i), shards[i]) {
        LoadedSound(d, e, catalog, discards, i, i in beyond);
      }
    }
  }

  lemma LoadedSound(d: Disk, e: Disk, catalog: set<nat>, discards: bool, i: nat, beyond: bool)
    requires CatalogSafe(d, discards) && Survives(d, e, catalog) && Sized(d) && UsedProven(d) && i in catalog + Orphans(e, catalog)
    ensures SoundShard(At(e, i), Loaded(At(e, i), i in catalog, beyond))
  {
    hide At, Orphans;
    SurvivorSafe(d, e, catalog, discards);
    FileIs(e, discards, i);
    UsedIs(e, i);
    assert i in catalog ==> At(e, i).sizes == {true} && Complete(e, i);
  }

  // The run that breaks it. -----------------------------------------------------------------

  /** What a crash left of a shard whose creation stopped: a data file, but not its size. */
  const UNFINISHED: ShardFile := ShardFile({true}, true, {false}, false, NONE, Pair({Empty}, Empty, false))

  lemma LostOk(d: Disk)
    requires d == Disk(map[0 := UNFINISHED], {{}})
    ensures CatalogSafe(d, true) && Survives(d, d, {}) && Sized(d) && UsedProven(d)
    ensures Orphans(d, {}) == {0}
  {
  }

  lemma LostLoads(d: Disk, shards: Shards)
    requires d == Disk(map[0 := UNFINISHED], {{}}) && shards.Keys == {0}
    requires forall i :: i in shards ==> shards[i] == Loaded(At(d, i), false, false)
    ensures shards == map[0 := Shard(false, Unproven, true, false)]
  {
    assert 0 in shards;
  }

  lemma ScriptFails(shards: Shards, script: seq<bool>)
    requires shards == map[0 := Shard(false, Unproven, true, false)] && script == [true, true, true, false]
    ensures MapSteps(shards) == 3 && AllTrue(script, 3) && !AllTrue(script, 4) && Rest(script, 4) == []
    ensures MapsSettled(shards, DirtyShards(shards)) == map[0 := Shard(true, Unproven, false, false)]
    ensures exists i :: i in shards && shards[i].short != Proven
  {
    assert DirtyShards(shards) == {0} && Pending(shards) == {0};
    assert !script[3];
    assert 0 in shards && shards[0].short != Proven;
  }

  lemma StillWaits(d: Disk, shards: Shards, e: Disk)
    requires shards == map[0 := Shard(true, Unproven, false, false)] && false in At(d, 0).sizes
    requires e.catalogs == {{0, 1}} && d.catalogs == {{}} && MayName(d, shards, {0} + {1}, e)
    ensures At(e, 0).sizes == At(d, 0).sizes && !Sized(e)
  {
    hide At;
    assert {0, 1} in e.catalogs && {0, 1} !in d.catalogs by { assert {0, 1} != {}; }
    assert {0} + {1} == {0, 1};
    assert At(e, 0).sizes != {true};
  }

  /** A crash after which shard 0 is short; the other files are as they were. */
  function Restarted(d: Disk): Disk {
    d.(files := map i | i in d.files :: Unstored(d.files[i], i == 0))
  }

  function Unstored(f: ShardFile, cut: bool): ShardFile {
    f.(sizes := if cut then {false} else f.sizes, sized := if cut then false else f.sized,
       alloc := f.alloc.(stored := false), discard := f.discard.(stored := false))
  }

  lemma RestartSurvives(d: Disk, discards: bool)
    requires CatalogSafe(d, discards) && d.catalogs == {{0, 1}} && false in At(d, 0).sizes
    ensures Survives(d, Restarted(d), {0, 1}) && !At(Restarted(d), 0).sized
  {
    forall i ensures SurvivesFile(At(d, i), At(Restarted(d), i)) {
      FileIs(d, discards, i);
    }
  }
}
