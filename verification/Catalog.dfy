/** Which shards the durable catalog may name.

  Maps and names must be durable before a catalog that lists the shard is stored.
  The catalog is stored whole: it also names shards that were adopted at open
  because their data file was found without an entry.

  `results` are the outcomes of the I/O steps to come, in order; behind their end
  every step succeeds.
 */
module Catalog {
  import opened ShardFiles

  class SlotStore {
    const discards: bool
    /** The session began on a disk that keeps the promise about sizes. */
    ghost const sound: bool
    var results: seq<bool>
    var disk: Disk
    var catalog: set<nat>
    var catalogDirty: bool
    var shards: Shards
    /** Every disk state this session left behind. */
    ghost var crashes: seq<Disk>

    ghost predicate Valid()
      reads this`disk, this`catalog, this`catalogDirty, this`shards, this`crashes
    {
      && StoreOk(disk, catalog, catalogDirty, shards, discards)
      && (forall k :: 0 <= k < |crashes| ==> CatalogSafe(crashes[k], discards))
      && (sound ==> Sound(disk, shards))
      && (sound ==> forall k :: 0 <= k < |crashes| ==> UsedProven(crashes[k]))
    }

    constructor (disk: Disk, catalog: set<nat>, catalogDirty: bool, shards: Shards, discards: bool, results: seq<bool>)
      requires StoreOk(disk, catalog, catalogDirty, shards, discards)
      ensures Valid() && this.disk == disk && this.catalog == catalog && this.shards == shards && this.catalogDirty == catalogDirty
      ensures this.discards == discards && this.results == results && crashes == [] && sound == Sound(disk, shards)
    {
      this.disk, this.catalog, this.catalogDirty, this.shards := disk, catalog, catalogDirty, shards;
      this.discards, this.results := discards, results;
      sound, crashes := Sound(disk, shards), [];
    }

    /** The outcome of the next I/O step. */
    method Step() returns (ok: bool)
      modifies this`results
      ensures ok == AllTrue(old(results), 1) && results == Rest(old(results), 1)
    {
      ok := results == [] || results[0];
      results := if results == [] then [] else results[1..];
    }

    /** The disk moves; a crash may find it so. */
    method Io(d: Disk)
      requires Valid() && KeepsFiles(disk, d) && d.catalogs == disk.catalogs
      requires StoreOk(d, catalog, catalogDirty, shards, discards) && (sound ==> Sound(d, shards))
      modifies this`disk, this`crashes
      ensures Valid() && disk == d && crashes == old(crashes) + [d] && Quiet(old(crashes), crashes, old(disk), disk)
    {
      hide CatalogSafe, ShardOk, UsedProven, SoundShard, KeepsFile, At;
      disk := d;
      crashes := crashes + [d];
    }

    /** One file of one shard changes. */
    method SetShard(i: nat, f: ShardFile)
      requires Valid() && FileStep(At(disk, i), f, discards)
      requires i in shards ==> ShardOk(f, shards[i], catalogDirty) && (sound ==> SoundShard(f, shards[i]))
      requires sound && Used in f.alloc.poss ==> f.names == {true} && f.sizes == {true}
      modifies this`disk, this`crashes
      ensures Valid() && crashes == old(crashes) + [disk] && Quiet(old(crashes), crashes, old(disk), disk)
      ensures At(disk, i) == f && forall j :: j != i ==> At(disk, j) == At(old(disk), j)
    {
      hide Quiet, CatalogSafe, ShardOk, SoundShard, FileStep;
      FileStepOk(disk, catalog, catalogDirty, shards, discards, i, f);
      if sound { FileStepSound(disk, shards, i, f); }
      SetFileAt(disk, i, f);
      Io(SetFile(disk, i, f));
    }

    method SyncDir() returns (ok: bool)
      requires Valid()
      modifies this`results, this`disk, this`crashes
      ensures Valid() && Quiet(old(crashes), crashes, old(disk), disk)
      ensures ok == AllTrue(old(results), 1) && results == Rest(old(results), 1)
      ensures disk == if ok then SyncDataDir(old(disk)) else old(disk)
      ensures crashes == if ok then old(crashes) + [disk] else old(crashes)
    {
      hide Quiet, StoreOk, Sound, CatalogSafe, UsedProven, KeepsFiles, SyncDataDir;
      QuietSelf(crashes, disk);
      ok := Step();
      if ok {
        SyncOk(disk, catalog, catalogDirty, shards, discards);
        if sound { SyncSound(disk, catalog, catalogDirty, shards, discards); }
        SyncAt(disk);
        Io(SyncDataDir(disk));
      }
    }

    /** Store one copy of a shard's allocation map. */
    method StoreCopy(i: nat, c: Copy) returns (ok: bool)
      requires Valid() && c != Missing && (i in shards && shards[i].short == Truncated(true) ==> c == Used)
      requires sound && c == Used ==> At(disk, i).names == {true} && At(disk, i).sizes == {true}
      modifies this`results, this`disk, this`crashes
      ensures Valid() && crashes == old(crashes) + [disk] && Quiet(old(crashes), crashes, old(disk), disk)
      ensures ok == AllTrue(old(results), 1) && results == Rest(old(results), 1)
      ensures forall j :: j != i ==> At(disk, j) == At(old(disk), j)
      ensures At(disk, i) == At(old(disk), i).(alloc := At(disk, i).alloc)
      ensures At(disk, i).alloc.poss == At(old(disk), i).alloc.poss + {c}
      ensures ok ==> At(disk, i).alloc.stored && At(disk, i).alloc.shown == c
    {
      hide Quiet, At, CatalogSafe, UsedProven, KeepsFiles;
      ok := Step();
      var shows: bool := *;
      FileIs(disk, discards, i);
      var f := At(disk, i).(alloc := Stored(At(disk, i).alloc, c, ok, shows));
      if sound { UsedIs(disk, i); }
      SetShard(i, f);
    }

    /** Extend a data file to its full size and sync it. Only a size change of this
        session that is synced proves anything. */
    method ExtendFile(i: nat) returns (ok: bool)
      requires Valid() && At(disk, i).named
      requires i in shards && shards[i].short == Truncated(true) ==> At(disk, i).alloc.poss == {Used}
      modifies this`results, this`disk, this`crashes
      ensures Valid() && Quiet(old(crashes), crashes, old(disk), disk)
      ensures ok == AllTrue(old(results), 2) && (ok ==> results == Rest(old(results), 2))
      ensures old(crashes) <= crashes && (!AllTrue(old(results), 1) ==> results == Rest(old(results), 1))
      ensures forall j :: j != i ==> At(disk, j) == At(old(disk), j)
      ensures At(disk, i) == At(old(disk), i).(sizes := At(disk, i).sizes, sized := At(disk, i).sized)
      ensures if ok then At(disk, i).sizes == {true} else At(old(disk), i).sizes <= At(disk, i).sizes
      ensures forall k :: |old(crashes)| <= k < |crashes| ==> At(crashes[k], i).alloc == At(old(disk), i).alloc
    {
      hide Quiet, At, CatalogSafe, UsedProven, KeepsFiles, StoreOk, Sound;
      QuietSelf(crashes, disk);
      RestTwice(results, 1, 1);
      ok := Step();
      var effect: bool := *;
      if ok || effect {
        Resize(i, At(disk, i).sizes + {true});
      }
      if !ok { return; }
      ok := Step();
      if ok {
        ghost var a, b := disk, crashes;
        Resize(i, {true});
        QuietTwice(old(crashes), b, crashes, old(disk), a, disk);
      }
    }

    /** What a crash may show of a size that was just extended. */
    method Resize(i: nat, sizes: set<bool>)
      requires Valid() && At(disk, i).named && (sizes == {true} || sizes == At(disk, i).sizes + {true})
      requires i in shards && shards[i].short == Truncated(true) ==> At(disk, i).alloc.poss == {Used}
      modifies this`disk, this`crashes
      ensures Valid() && crashes == old(crashes) + [disk] && Quiet(old(crashes), crashes, old(disk), disk)
      ensures forall j :: j != i ==> At(disk, j) == At(old(disk), j)
      ensures At(disk, i) == At(old(disk), i).(sizes := sizes, sized := true)
    {
      hide Quiet, At, CatalogSafe, UsedProven, KeepsFiles;
      FileIs(disk, discards, i);
      if sound { UsedIs(disk, i); }
      SetShard(i, At(disk, i).(sizes := sizes, sized := true));
    }

    /** `prove_data_file`: the size of one data file. The damage marks of a truncated
        file are certain before any crash can show it at full size. */
    method ProveDataFile(i: nat) returns (ok: bool)
      requires Valid() && i in shards
      modifies this`results, this`disk, this`crashes, this`shards
      ensures Valid() && Quiet(old(crashes), crashes, old(disk), disk)
      ensures shards == if ok then old(shards)[i := old(shards)[i].(short := Proven)] else old(shards)
      ensures forall j :: j != i ==> Beside(At(old(disk), j), At(disk, j))
      ensures ok && old(shards)[i].short != Proven ==> At(disk, i).sizes == {true}
      ensures !ok ==> At(old(disk), i).sizes <= At(disk, i).sizes
      ensures old(shards)[i].short == Truncated(true) ==>
        forall k :: |old(crashes)| <= k < |crashes| && true in At(crashes[k], i).sizes ==> At(crashes[k], i).alloc.poss == {Used}
      ensures old(results) == [] ==> ok && results == []
      ensures old(shards)[i].short != Proven && !AllTrue(old(results), 1) ==> !ok && results == Rest(old(results), 1)
    {
      hide Quiet, At, CatalogSafe, UsedProven, KeepsFiles, Sound, StoreOk;
      QuietSelf(crashes, disk);
      ok := true;
      if shards[i].short == Proven {
        assert shards[i := shards[i].(short := Proven)] == shards;
        return;
      }
      ShardIs(disk, catalog, catalogDirty, shards, discards, i);
      RestNone();
      if shards[i].short.Truncated? {
        ok := StoreMarks(i);
        if !ok { return; }
      }
      ShardIs(disk, catalog, catalogDirty, shards, discards, i);
      ghost var a, b := disk, crashes;
      ok := ExtendFile(i);
      QuietTwice(old(crashes), b, crashes, old(disk), a, disk);
      if !ok { return; }
      ProvenOk(disk, catalog, catalogDirty, shards, discards, i);
      if sound { ProvenSound(disk, shards, i); }
      shards := shards[i := shards[i].(short := Proven)];
    }

    /** The damage marks of a truncated file, name included. */
    method StoreMarks(i: nat) returns (ok: bool)
      requires Valid() && i in shards && shards[i].short.Truncated?
      modifies this`results, this`disk, this`crashes
      ensures Valid() && Quiet(old(crashes), crashes, old(disk), disk)
      ensures old(crashes) <= crashes && forall j :: j != i ==> Beside(At(old(disk), j), At(disk, j))
      ensures At(disk, i).sizes == At(old(disk), i).sizes
      ensures ok ==> At(disk, i).alloc.poss == {Content(shards[i])}
      ensures forall k :: |old(crashes)| <= k < |crashes| && shards[i].short == Truncated(true) && true in At(crashes[k], i).sizes ==>
        At(crashes[k], i).alloc.poss == {Used}
      ensures old(results) == [] ==> ok && results == []
      ensures !AllTrue(old(results), 1) ==> !ok && results == Rest(old(results), 1)
    {
      hide Quiet, At, CatalogSafe, UsedProven, KeepsFiles, SyncDataDir;
      ShardIs(disk, catalog, catalogDirty, shards, discards, i);
      assert sound ==> SoundShard(At(disk, i), shards[i]);
      ok := StoreCopy(i, Content(shards[i]));
      if !ok { return; }
      ghost var a, b := disk, crashes;
      SyncAt(disk);
      ok := SyncDir();
      QuietTwice(old(crashes), b, crashes, old(disk), a, disk);
    }

    /** `sync_dir`, then the maps of `done` count as stored. */
    method SettleMaps(done: set<nat>) returns (ok: bool)
      requires Valid() && done <= shards.Keys
      requires forall i :: i in done ==> At(disk, i).alloc.stored && At(disk, i).alloc.shown == Content(shards[i])
      modifies this`results, this`disk, this`crashes, this`shards
      ensures Valid() && Quiet(old(crashes), crashes, old(disk), disk)
      ensures ok == AllTrue(old(results), 1) && results == Rest(old(results), 1)
      ensures shards == if ok then MapsSettled(old(shards), done) else old(shards)
      ensures forall j :: Beside(At(old(disk), j), At(disk, j))
      ensures ok ==> forall i :: i in done ==> At(disk, i).alloc.poss == {Content(shards[i])}
    {
      hide Quiet, At, CatalogSafe, UsedProven, KeepsFiles, SyncDataDir, Sound, StoreOk;
      SyncAt(disk);
      SyncedDone(disk, catalog, catalogDirty, shards, discards, done);
      ok := SyncDir();
      if ok {
        SettledOk(disk, catalog, catalogDirty, shards, discards, done);
        if sound { SettledSound(disk, shards, done); }
        shards := MapsSettled(shards, done);
      }
    }

    /** The size of one adopted shard, then both copies of its map. */
    method StoreAdopted(i: nat) returns (ok: bool)
      requires Valid() && i in shards
      modifies this`results, this`disk, this`crashes, this`shards
      ensures Valid() && Quiet(old(crashes), crashes, old(disk), disk)
      ensures shards == old(shards)[i := old(shards)[i].(short := if ok then Proven else shards[i].short)]
      ensures shards[i].short in {old(shards)[i].short, Proven}
      ensures ok ==> At(disk, i).alloc.stored && At(disk, i).alloc.shown == Content(shards[i])
      ensures forall j :: j != i ==> Beside(At(old(disk), j), At(disk, j))
      ensures old(results) == [] ==> ok && results == []
    {
      hide Quiet, At, CatalogSafe, UsedProven, KeepsFiles, StoreOk;
      RestNone();
      ok := ProveDataFile(i);
      if !ok {
        assert old(shards)[i := old(shards)[i].(short := old(shards)[i].short)] == old(shards);
        return;
      }
      var c := Content(shards[i]);
      ghost var a, b := disk, crashes;
      assert sound ==> SoundShard(At(disk, i), shards[i]);
      ok := StoreCopy(i, c);
      QuietTwice(old(crashes), b, crashes, old(disk), a, disk);
      if !ok { return; }
      a, b := disk, crashes;
      ok := StoreCopy(i, c);
      QuietTwice(old(crashes), b, crashes, old(disk), a, disk);
    }

    /** `commit_adopted_maps`: the size and both map copies of every shard whose maps
        are not yet stored, and of no other. */
    method CommitAdoptedMaps() returns (ok: bool)
      requires Valid()
      modifies this`results, this`disk, this`crashes, this`shards
      ensures Valid() && Quiet(old(crashes), crashes, old(disk), disk) && shards.Keys == old(shards).Keys
      ensures ok ==> forall i :: i in shards ==>
        shards[i] == if old(shards)[i].mapStored then old(shards)[i] else old(shards)[i].(mapStored := true, dirty := false, short := Proven)
      ensures forall i :: i in shards ==> shards[i].used == old(shards)[i].used && shards[i].short in {old(shards)[i].short, Proven}
      ensures forall i :: i in shards && old(shards)[i].mapStored ==> shards[i] == old(shards)[i]
      ensures forall j :: j !in Pending(old(shards)) ==> Beside(At(old(disk), j), At(disk, j))
      ensures old(results) == [] ==> ok && results == []
    {
      hide SlotStore.Valid, Quiet, At, Content, Adopting, Beside, MapsSettled;
      QuietSelf(crashes, disk);
      RestNone();
      var pending := Pending(shards);
      AdoptStarts(shards, disk);
      if pending == {} {
        AdoptEnds(shards, shards, pending, disk, disk);
        assert forall i :: i in shards && !shards[i].mapStored ==> i in pending;
        return true;
      }
      var rest := pending;
      while rest != {}
        invariant Valid() && Quiet(old(crashes), crashes, old(disk), disk) && rest <= pending
        invariant Adopting(old(shards), shards, pending, rest, old(disk), disk)
        invariant old(results) == [] ==> results == []
        decreases rest
      {
        var i :| i in rest;
        ghost var a, b, c := disk, crashes, shards;
        AdoptKeys(old(shards), shards, pending, rest, old(disk), disk);
        ok := StoreAdopted(i);
        QuietTwice(old(crashes), b, crashes, old(disk), a, disk);
        if !ok {
          AdoptFails(old(shards), c, shards, pending, rest, i, old(disk), a, disk);
          return;
        }
        AdoptNext(old(shards), c, shards, pending, rest, i, old(disk), a, disk);
        rest := rest - {i};
      }
      ghost var a, b, c := disk, crashes, shards;
      AdoptKeys(old(shards), shards, pending, rest, old(disk), disk);
      ok := SettleMaps(pending);
      QuietTwice(old(crashes), b, crashes, old(disk), a, disk);
      AdoptSettles(old(shards), c, pending, old(disk), a, disk);
    }

    /** Store every dirty map, and both copies where neither is proven; then the
        directory. Sizes play no part. */
    method PersistMaps() returns (ok: bool)
      requires Valid()
      modifies this`results, this`disk, this`crashes, this`shards
      ensures Valid() && Quiet(old(crashes), crashes, old(disk), disk)
      ensures shards == if ok then MapsSettled(old(shards), DirtyShards(old(shards))) else old(shards)
      ensures ok ==> forall i :: i in DirtyShards(old(shards)) ==> At(disk, i).alloc.poss == {Content(shards[i])}
      ensures forall j :: At(disk, j).sizes == At(old(disk), j).sizes
      ensures ok <==> AllTrue(old(results), MapSteps(old(shards)))
      ensures ok ==> results == Rest(old(results), MapSteps(old(shards)))
    {
      hide SlotStore.Valid, Quiet, At, Content, AllTrue, Rest, DirtyShards, Pending, MapSteps, Storing, MapsSettled;
      QuietSelf(crashes, disk);
      var dirty, pending := DirtyShards(shards), Pending(shards);
      DirtyIs(shards);
      NoSteps(results);
      StoringStarts(shards, dirty, disk);
      if dirty == {} {
        NoneSettled(shards, dirty);
        return true;
      }
      var rest := dirty;
      ghost var n: nat := 0;
      while rest != {}
        invariant Valid() && Quiet(old(crashes), crashes, old(disk), disk) && rest <= dirty && shards == old(shards)
        invariant Storing(shards, dirty, rest, old(disk), disk)
        invariant AllTrue(old(results), n) && results == Rest(old(results), n)
        invariant n + |rest| + |pending * rest| + 1 == MapSteps(old(shards))
        decreases rest
      {
        var i :| i in rest;
        ghost var a, b := disk, crashes;
        OneLess(rest, pending, i);
        ok := StoreMap(i, shards[i].mapStored, n, old(results));
        QuietTwice(old(crashes), b, crashes, old(disk), a, disk);
        if !ok {
          StepsFail(old(results), n, if i in pending then 2 else 1, MapSteps(old(shards)));
          StoringFails(shards, dirty, rest, i, old(disk), a, disk);
          return;
        }
        StoringNext(shards, dirty, rest, i, old(disk), a, disk);
        n := n + if i in pending then 2 else 1;
        rest := rest - {i};
      }
      ghost var a, b := disk, crashes;
      RestTwice(old(results), n, 1);
      StoringEnds(shards, dirty, old(disk), disk);
      ok := SettleMaps(dirty);
      QuietTwice(old(crashes), b, crashes, old(disk), a, disk);
    }

    /** One copy of a dirty map, or both. */
    method StoreMap(i: nat, once: bool, ghost n: nat, ghost before: seq<bool>) returns (ok: bool)
      requires Valid() && i in shards && AllTrue(before, n) && results == Rest(before, n)
      modifies this`results, this`disk, this`crashes
      ensures Valid() && Quiet(old(crashes), crashes, old(disk), disk)
      ensures forall j :: j != i ==> At(disk, j) == At(old(disk), j)
      ensures At(disk, i).sizes == At(old(disk), i).sizes
      ensures ok <==> AllTrue(before, n + if once then 1 else 2)
      ensures ok ==> results == Rest(before, n + if once then 1 else 2)
      ensures ok ==> At(disk, i).alloc.stored && At(disk, i).alloc.shown == Content(shards[i])
    {
      hide Quiet, At, CatalogSafe, UsedProven, KeepsFiles, Rest, AllTrue;
      ShardIs(disk, catalog, catalogDirty, shards, discards, i);
      assert sound ==> SoundShard(At(disk, i), shards[i]);
      RestTwice(before, n, 1);
      RestTwice(before, n + 1, 1);
      ok := StoreCopy(i, Content(shards[i]));
      if ok && !once {
        ghost var a, b := disk, crashes;
        ok := StoreCopy(i, Content(shards[i]));
        QuietTwice(old(crashes), b, crashes, old(disk), a, disk);
      }
    }

    /** The size of every shard still unproven. */
    method ProveAll() returns (ok: bool)
      requires Valid()
      modifies this`results, this`disk, this`crashes, this`shards
      ensures Valid() && Quiet(old(crashes), crashes, old(disk), disk) && shards.Keys == old(shards).Keys
      ensures forall i :: i in shards ==> shards[i] == old(shards)[i].(short := if ok then Proven else shards[i].short)
      ensures forall i :: i in shards ==> shards[i].short in {old(shards)[i].short, Proven}
      ensures !AllTrue(old(results), 1) && (exists i :: i in shards && old(shards)[i].short != Proven) ==>
        !ok && shards == old(shards) && results == Rest(old(results), 1) && forall j :: At(old(disk), j).sizes <= At(disk, j).sizes
      ensures old(results) == [] ==> ok && results == []
    {
      hide SlotStore.Valid, Quiet, At, AllTrue, Rest;
      QuietSelf(crashes, disk);
      ok := true;
      var unproven := set i | i in shards && shards[i].short != Proven;
      assert forall i :: i in shards && shards[i].short != Proven ==> i in unproven;
      while unproven != {}
        invariant ok && Valid() && Quiet(old(crashes), crashes, old(disk), disk) && shards.Keys == old(shards).Keys && unproven <= shards.Keys
        invariant forall i :: i in unproven ==> shards[i] == old(shards)[i] && shards[i].short != Proven
        invariant forall i :: i in shards && i !in unproven ==> shards[i] == old(shards)[i].(short := Proven)
        invariant !AllTrue(old(results), 1) && (exists i :: i in shards && old(shards)[i].short != Proven) ==>
          unproven != {} && shards == old(shards) && results == old(results) && disk == old(disk)
        invariant old(results) == [] ==> results == []
        decreases unproven
      {
        var i :| i in unproven;
        ghost var a, b := disk, crashes;
        ok := ProveDataFile(i);
        QuietTwice(old(crashes), b, crashes, old(disk), a, disk);
        if !ok { return; }
        unproven := unproven - {i};
      }
    }

    /** Store a catalog. Until it is durable, a crash may show an old one or the new. */
    method StoreCatalog(next: set<nat>) returns (ok: bool)
      requires Valid() && forall i :: i in next ==> Complete(disk, i)
      modifies this`results, this`disk, this`crashes
      ensures Valid() && Goes(old(crashes), crashes, old(disk), disk)
      ensures disk == old(disk).(catalogs := if ok then {next} else old(disk).catalogs + {next})
      ensures forall k :: |old(crashes)| <= k < |crashes| ==> Stores(old(disk), next, crashes[k])
      ensures old(results) == [] ==> ok && results == []
    {
      hide At, Complete, FilesOk, UsedProven, SoundShard, ShardOk, KeepsFiles;
      RestNone();
      ghost var d := disk;
      disk := disk.(catalogs := disk.catalogs + {next});
      SameFiles(d, disk);
      crashes := crashes + [disk];
      ok := Step();
      if !ok { return; }
      ok := Step();
      if !ok { return; }
      disk := disk.(catalogs := {next});
      SameFiles(d, disk);
      crashes := crashes + [disk];
    }

    /** `persist_allocations`: dirty maps, then, if shards were adopted, the sizes and
        the catalog that names them. It never names a shard of unproven size; but when a
        size cannot be proven, the maps already count as stored. */
    method PersistAllocations() returns (ok: bool)
      requires Valid()
      modifies this`results, this`disk, this`crashes, this`shards, this`catalogDirty
      ensures Valid() && Goes(old(crashes), crashes, old(disk), disk) && shards.Keys == old(shards).Keys
      ensures ok ==> !catalogDirty && forall i :: i in shards ==> shards[i].mapStored && !shards[i].dirty
      ensures ok && old(catalogDirty) ==> disk.catalogs == {catalog} && forall i :: i in shards ==> shards[i].short == Proven
      ensures sound && Sized(old(disk)) ==> Sized(disk) && forall k :: |old(crashes)| <= k < |crashes| ==> Sized(crashes[k])
      ensures
        var n := MapSteps(old(shards));
        old(catalogDirty) && AllTrue(old(results), n) && !AllTrue(old(results), n + 1) && (exists i :: i in old(shards) && old(shards)[i].short != Proven) ==>
          && !ok && shards == MapsSettled(old(shards), DirtyShards(old(shards))) && results == Rest(old(results), n + 1)
          && catalogDirty && disk.catalogs == old(disk).catalogs && forall j :: At(old(disk), j).sizes <= At(disk, j).sizes
      ensures old(results) == [] ==> ok && results == []
    {
      hide SlotStore.Valid, Quiet, Goes, At, Sized, AllTrue, Rest, MapSteps;
      RestNone();
      NothingRests();
      RestTwice(results, MapSteps(shards), 1);
      ok := PersistMaps();
      QuietSized(old(crashes), crashes, old(disk), disk);
      SettledIs(old(shards));
      if !ok || !catalogDirty { return; }
      ghost var a, b, c := disk, crashes, shards;
      ok := ProveAll();
      SettledShort(old(shards), c);
      QuietTwice(old(crashes), b, crashes, old(disk), a, disk);
      QuietSized(old(crashes), crashes, old(disk), disk);
      if !ok { return; }
      a, b := disk, crashes;
      ok := PublishCatalog();
      GoesSized(old(crashes), b, crashes, old(disk), a, disk);
    }

    /** The catalog of memory, once every map is stored and every size proven. */
    method PublishCatalog() returns (ok: bool)
      requires Valid() && forall i :: i in shards ==> shards[i].mapStored && shards[i].short == Proven
      modifies this`results, this`disk, this`crashes, this`catalogDirty
      ensures Valid() && Goes(old(crashes), crashes, old(disk), disk)
      ensures if ok then !catalogDirty && disk.catalogs == {catalog} else catalogDirty == old(catalogDirty)
      ensures sound && Sized(old(disk)) ==> Sized(disk) && forall k :: |old(crashes)| <= k < |crashes| ==> Sized(crashes[k])
      ensures old(results) == [] ==> ok && results == []
    {
      hide Goes, At, Sized, CatalogSafe, UsedProven, SoundShard, ShardOk;
      AllComplete(disk, catalog, catalogDirty, shards, discards);
      ok := StoreCatalog(catalog);
      if sound {
        StoresSized(old(disk), shards, catalog, old(crashes), crashes, disk);
      }
      if ok {
        NoneUnproven(disk, catalog, catalogDirty, shards, discards);
        catalogDirty := false;
      }
    }

    /** One copy of an empty discard map. */
    method StoreDiscard(i: nat) returns (ok: bool)
      requires Valid() && i !in shards
      modifies this`results, this`disk, this`crashes
      ensures Valid() && Quiet(old(crashes), crashes, old(disk), disk)
      ensures ok == AllTrue(old(results), 1) && results == Rest(old(results), 1)
      ensures forall j :: j != i ==> At(disk, j) == At(old(disk), j)
      ensures At(disk, i) == At(old(disk), i).(discard := At(disk, i).discard)
      ensures ok ==> At(disk, i).discard.stored && At(disk, i).discard.shown == Empty
    {
      hide Quiet, At, CatalogSafe, UsedProven, KeepsFiles;
      ok := Step();
      var shows: bool := *;
      FileIs(disk, discards, i);
      if sound { UsedIs(disk, i); }
      SetShard(i, At(disk, i).(discard := Stored(At(disk, i).discard, Empty, ok, shows)));
    }

    /** Both discard maps are durable before the data file exists: a data file found
        without them could not be interpreted. */
    method CreateDiscards(i: nat) returns (ok: bool)
      requires Valid() && i !in shards
      modifies this`results, this`disk, this`crashes
      ensures Valid() && Quiet(old(crashes), crashes, old(disk), disk)
      ensures forall j :: Beside(At(old(disk), j), At(disk, j))
      ensures ok && discards ==> Missing !in At(disk, i).discard.poss
      ensures old(results) == [] ==> ok && results == []
    {
      hide SlotStore.Valid, Quiet, At, SyncDataDir;
      QuietSelf(crashes, disk);
      RestNone();
      ok := true;
      if !discards { return; }
      ok := StoreDiscard(i);
      if !ok { return; }
      ghost var a, b := disk, crashes;
      ok := StoreDiscard(i);
      QuietTwice(old(crashes), b, crashes, old(disk), a, disk);
      if !ok { return; }
      a, b := disk, crashes;
      SyncAt(disk);
      ok := SyncDir();
      QuietTwice(old(crashes), b, crashes, old(disk), a, disk);
    }

    /** The data file, created empty if it is not there. */
    method CreateFile(i: nat) returns (ok: bool)
      requires Valid() && i !in shards && (discards ==> Missing !in At(disk, i).discard.poss)
      modifies this`results, this`disk, this`crashes
      ensures Valid() && Quiet(old(crashes), crashes, old(disk), disk)
      ensures ok == AllTrue(old(results), 1) && results == Rest(old(results), 1)
      ensures forall j :: j != i ==> At(disk, j) == At(old(disk), j)
      ensures ok ==> At(disk, i).named
    {
      hide Quiet, At, CatalogSafe, UsedProven, KeepsFiles;
      QuietSelf(crashes, disk);
      ok := Step();
      FileIs(disk, discards, i);
      if sound { UsedIs(disk, i); }
      var effect: bool := *;
      if (ok || effect) && !At(disk, i).named {
        SetShard(i, At(disk, i).(names := {false, true}, named := true));
      }
    }

    /** `ensure_shard` for a shard that is not there: discard maps, data file, both
        allocation maps, then what was adopted, and last the catalog. */
    method CreateShard(i: nat) returns (ok: bool)
      requires Valid() && i !in shards
      modifies this`results, this`disk, this`crashes, this`shards, this`catalog
      ensures Valid() && Goes(old(crashes), crashes, old(disk), disk)
      ensures if ok then i in shards && shards[i] == Shard(true, Proven, false, false) && catalog == old(catalog) + {i} && disk.catalogs == {catalog}
        else catalog == old(catalog)
      ensures sound ==> MayName(old(disk), old(shards), old(catalog) + {i}, disk)
      ensures sound ==> forall k :: |old(crashes)| <= k < |crashes| ==> MayName(old(disk), old(shards), old(catalog) + {i}, crashes[k])
      ensures old(results) == [] ==> ok && results == []
    {
      hide SlotStore.Valid, Quiet, Goes, At, Named;
      RestNone();
      ok := CreateDiscards(i);
      QuietNames(old(crashes), crashes, old(disk), disk, shards, catalog + {i});
      if !ok { return; }
      ghost var a, b := disk, crashes;
      ok := CreateFile(i);
      QuietTwice(old(crashes), b, crashes, old(disk), a, disk);
      QuietNames(old(crashes), crashes, old(disk), disk, shards, catalog + {i});
      if !ok { return; }
      a, b := disk, crashes;
      ok := ExtendFile(i);
      QuietTwice(old(crashes), b, crashes, old(disk), a, disk);
      QuietNames(old(crashes), crashes, old(disk), disk, shards, catalog + {i});
      if !ok { return; }
      a, b := disk, crashes;
      forall j | j != i ensures Beside(At(old(disk), j), At(disk, j)) {
      }
      ok := PublishShard(i);
      NamesTwice(old(crashes), b, crashes, old(disk), a, disk, old(shards), old(catalog) + {i}, i, sound);
    }

    /** Both allocation maps of the new shard, the maps of every adopted one, names,
        and the catalog. */
    method PublishShard(i: nat) returns (ok: bool)
      requires Valid() && i !in shards && At(disk, i).named && At(disk, i).sizes == {true}
      modifies this`results, this`disk, this`crashes, this`shards, this`catalog
      ensures Valid() && Goes(old(crashes), crashes, old(disk), disk)
      ensures if ok then i in shards && shards[i] == Shard(true, Proven, false, false) && catalog == old(catalog) + {i} && disk.catalogs == {catalog}
        else catalog == old(catalog)
      ensures sound ==> MayName(old(disk), old(shards), old(catalog) + {i}, disk)
      ensures sound ==> forall k :: |old(crashes)| <= k < |crashes| ==> MayName(old(disk), old(shards), old(catalog) + {i}, crashes[k])
      ensures old(results) == [] ==> ok && results == []
    {
      hide SlotStore.Valid, Quiet, Goes, At, Named;
      RestNone();
      ghost var next := catalog + {i};
      QuietSelf(crashes, disk);
      ok := StoreCopy(i, Empty);
      QuietNames(old(crashes), crashes, old(disk), disk, old(shards), next);
      if !ok { return; }
      ghost var a, b := disk, crashes;
      ok := StoreCopy(i, Empty);
      QuietTwice(old(crashes), b, crashes, old(disk), a, disk);
      QuietNames(old(crashes), crashes, old(disk), disk, old(shards), next);
      if !ok { return; }
      a, b := disk, crashes;
      ok := CommitAdoptedMaps();
      QuietTwice(old(crashes), b, crashes, old(disk), a, disk);
      QuietNames(old(crashes), crashes, old(disk), disk, old(shards), next);
      if !ok { return; }
      if discards {
        ok := Step();
        if !ok { return; }
      }
      ok := NameShard(i, old(disk), old(shards), old(crashes));
    }

    /** The last steps: `sync_dir`, then the catalog that names the shard too. */
    method NameShard(i: nat, ghost d: Disk, ghost before: Shards, ghost points: seq<Disk>) returns (ok: bool)
      requires Valid() && i !in shards && i !in before && At(disk, i).named && At(d, i).sizes == {true}
      requires At(disk, i).alloc.stored && At(disk, i).alloc.shown == Empty
      requires Quiet(points, crashes, d, disk) && AllAdopted(before, shards)
      requires forall j :: j in before && before[j].mapStored ==> At(disk, j).sizes == At(d, j).sizes
      modifies this`results, this`disk, this`crashes, this`shards, this`catalog
      ensures Valid() && Goes(points, crashes, d, disk)
      ensures if ok then i in shards && shards[i] == Shard(true, Proven, false, false) && catalog == old(catalog) + {i} && disk.catalogs == {catalog}
        else catalog == old(catalog)
      ensures sound ==> MayName(d, before, old(catalog) + {i}, disk)
      ensures sound ==> forall k :: |points| <= k < |crashes| ==> MayName(d, before, old(catalog) + {i}, crashes[k])
      ensures old(results) == [] ==> ok && results == []
    {
      hide Quiet, Goes, At, Named, Sound, StoreOk, CatalogSafe, UsedProven, Complete, SyncDataDir, AllAdopted;
      RestNone();
      var next := catalog + {i};
      QuietNames(points, crashes, d, disk, before, next);
      ghost var a, b := disk, crashes;
      SyncAt(disk);
      ok := SyncDir();
      QuietTwice(points, b, crashes, d, a, disk);
      QuietNames(points, crashes, d, disk, before, next);
      if !ok { return; }
      AdoptedComplete(disk, catalog, catalogDirty, before, shards, discards, i);
      QuietSizes(points, crashes, d, disk, i);
      a, b := disk, crashes;
      if sound { NamesAll(d, before, a, shards, i, catalog); }
      ok := StoreCatalog(next);
      SameFiles(a, disk);
      if sound {
        StoresNames(d, before, a, next, b, crashes, disk);
      }
      NamesGoOn(points, b, crashes, d, a, disk, before, next, sound);
      if ok {
        AddShard(disk, catalog, catalogDirty, shards, discards, i);
        if sound { AddSound(disk, shards, i); }
        catalog, shards := next, shards[i := Shard(true, Proven, false, false)];
      }
    }

    /** `ensure_shard`: store what is pending, or create the shard. Whatever fails, and
        wherever a crash stops it, the promise about sizes holds if and only if the
        shard was there, or no new catalog can be found, or every shard that waited
        happens to have its full size. */
    method EnsureShard(i: nat) returns (ok: bool)
      requires Valid()
      modifies this`results, this`disk, this`crashes, this`shards, this`catalog, this`catalogDirty
      ensures Valid() && Goes(old(crashes), crashes, old(disk), disk) && old(shards).Keys <= shards.Keys
      ensures ok ==> i in shards && shards[i].mapStored && Complete(disk, i) && shards[i].short != Unproven
      ensures ok && sound ==> shards[i].short == Proven && At(disk, i).sizes == {true}
      ensures ok && i !in old(shards) ==> catalog == old(catalog) + {i} && disk.catalogs == {catalog}
      ensures sound && i !in old(shards) ==> MayName(old(disk), old(shards), old(catalog) + {i}, disk)
      ensures sound && Sized(old(disk)) ==>
        && (Sized(disk) <==> Promised(i, old(disk), old(shards), disk))
        && forall k :: |old(crashes)| <= k < |crashes| ==> (Sized(crashes[k]) <==> Promised(i, old(disk), old(shards), crashes[k]))
      ensures old(results) == [] ==> ok && results == []
    {
      hide SlotStore.Valid, Quiet, Goes, At, Sized, Complete, MayName, WaitingSized;
      if i in shards {
        ok := KeepShard(i);
        return;
      }
      ShardKeys();
      ok := CreateShard(i);
      if sound && Sized(old(disk)) {
        NamedExactly(old(crashes), crashes, old(disk), disk, old(shards), old(catalog) + {i}, i);
      }
      ShardKeys();
      if ok { ShardFacts(i); }
    }

    lemma DiskSafe()
      requires Valid()
      ensures CatalogSafe(disk, discards)
    {
    }

    lemma ShardKeys()
      requires Valid()
      ensures catalog == shards.Keys
    {
    }

    lemma ShardFacts(i: nat)
      requires Valid() && i in shards
      ensures shards[i].mapStored ==> Complete(disk, i)
      ensures shards[i].short == Unproven ==> catalogDirty
      ensures sound && shards[i].short != Unproven ==> shards[i].short == Proven && At(disk, i).sizes == {true} && At(disk, i).named
    {
      hide CatalogSafe, UsedProven, At;
      assert ShardOk(At(disk, i), shards[i], catalogDirty);
      assert sound ==> SoundShard(At(disk, i), shards[i]);
    }

    /** `ensure_shard` for a shard that is there. */
    method KeepShard(i: nat) returns (ok: bool)
      requires Valid() && i in shards
      modifies this`results, this`disk, this`crashes, this`shards, this`catalogDirty
      ensures Valid() && Goes(old(crashes), crashes, old(disk), disk) && old(shards).Keys == shards.Keys
      ensures ok ==> i in shards && shards[i].mapStored && Complete(disk, i) && shards[i].short != Unproven
      ensures ok && sound ==> shards[i].short == Proven && At(disk, i).sizes == {true}
      ensures sound && Sized(old(disk)) ==> Sized(disk) && forall k :: |old(crashes)| <= k < |crashes| ==> Sized(crashes[k])
      ensures old(results) == [] ==> ok && results == []
    {
      hide SlotStore.Valid, Quiet, Goes, At, Sized, Complete;
      ok := true;
      QuietSelf(crashes, disk);
      QuietSized(crashes, crashes, disk, disk);
      if !shards[i].mapStored || catalogDirty {
        ok := CommitAdoptedMaps();
        QuietSized(old(crashes), crashes, old(disk), disk);
        if !ok { return; }
        ghost var a, b := disk, crashes;
        ok := PersistAllocations();
        GoesSized(old(crashes), b, crashes, old(disk), a, disk);
        if !ok { return; }
      }
      ShardFacts(i);
    }

    /** What a slot reservation asks of the shard: it is there for good, and its data
        file has its full size. */
    method PrepareShard(i: nat) returns (ok: bool)
      requires Valid()
      modifies this`results, this`disk, this`crashes, this`shards, this`catalog, this`catalogDirty
      ensures Valid() && Goes(old(crashes), crashes, old(disk), disk) && old(shards).Keys <= shards.Keys
      ensures ok ==> i in shards && shards[i].short == Proven && Complete(disk, i) && (sound ==> At(disk, i).sizes == {true})
    {
      hide SlotStore.Valid, Quiet, Goes, At, Sized, Complete, MayName, Promised;
      ok := EnsureShard(i);
      if !ok { return; }
      ghost var a, b := disk, crashes;
      ok := ProveDataFile(i);
      QuietSized(b, crashes, a, disk);
      GoesTwice(old(crashes), b, crashes, old(disk), a, disk);
      if ok { ShardFacts(i); }
    }

    /** `mark_allocated`. A map that lists a slot belongs to a shard of proven size. */
    method MarkAllocated(i: nat, listed: bool) returns (ok: bool)
      requires Valid()
      modifies this`results, this`disk, this`crashes, this`shards, this`catalog, this`catalogDirty
      ensures Valid() && Goes(old(crashes), crashes, old(disk), disk) && old(shards).Keys <= shards.Keys
      ensures ok ==> i in shards && (!listed ==> shards[i].used && shards[i].dirty)
    {
      hide Quiet, Goes, At, Sized, MayName, Promised, CatalogSafe, UsedProven, StoreOk, Sound;
      ok := EnsureShard(i);
      if ok && !listed {
        UsedOk(disk, catalog, catalogDirty, shards, discards, i);
        if sound { UsedSound(disk, shards, i); }
        shards := shards[i := shards[i].(used := true, dirty := true)];
      }
    }
  }

  /** `open`: every cataloged shard loads, and data files without an entry are adopted.
      A shard without a loadable map would be refused; none ever is. */
  method Open(ghost d: Disk, found: Disk, catalog: set<nat>, beyond: set<nat>, discards: bool, results: seq<bool>)
      returns (store: SlotStore?, refused: bool)
    requires CatalogSafe(d, discards) && Survives(d, found, catalog)
    ensures !refused && store != null && fresh(store) && store.Valid() && store.discards == discards && store.results == results
    ensures store.disk == found && store.catalog == catalog + Orphans(found, catalog)
    ensures store.catalogDirty == (Orphans(found, catalog) != {})
    ensures forall i :: i in store.shards ==> store.shards[i] == Loaded(At(found, i), i in catalog, i in beyond)
    ensures forall i :: Complete(d, i) ==> i in store.shards
    ensures Sized(d) && UsedProven(d) ==> store.sound && Sized(found)
  {
    hide CatalogSafe, Survives, Sized, UsedProven, At, Sound, Loaded, ShardOk;
    SurvivorSafe(d, found, catalog, discards);
    store, refused := null, false;
    var named := catalog + Orphans(found, catalog);
    var shards: Shards := map[];
    var rest := named;
    while rest != {}
      invariant rest <= named && shards.Keys == named - rest
      invariant forall i :: i in shards ==> shards[i] == Loaded(At(found, i), i in catalog, i in beyond)
      decreases rest
    {
      var i :| i in rest;
      SurvivorLoads(d, found, catalog, discards, i);
      if i in catalog && (At(found, i).alloc.shown == Missing || !At(found, i).named) {
        refused := true;
        return;
      }
      if discards && At(found, i).discard.shown == Missing {
        refused := true;
        return;
      }
      shards := shards[i := Loaded(At(found, i), i in catalog, i in beyond)];
      rest := rest - {i};
    }
    LoadedOk(d, found, catalog, beyond, shards, discards);
    store := new SlotStore(found, named, named != catalog, shards, discards, results);
  }

  /** Shard 0 is adopted; its maps are stored, then the proof of its size fails. */
  method StopAtProof() returns (store: SlotStore)
    ensures fresh(store) && store.Valid() && store.sound && store.discards && store.results == []
    ensures store.shards == map[0 := Shard(true, Unproven, false, false)] && store.catalog == {0}
    ensures store.disk.catalogs == {{}} && Sized(store.disk) && false in At(store.disk, 0).sizes
  {
    hide SlotStore.Valid, Goes, UsedProven, Complete, AllTrue, Rest, MapsSettled, DirtyShards, MapSteps, Loaded, CatalogSafe, Survives, Orphans;
    var lost := Disk(map[0 := UNFINISHED], {{}});
    var script := [true, true, true, false];
    LostOk(lost);
    var first, _ := Open(lost, lost, {}, {}, true, script);
    store := first;
    store.ShardKeys();
    LostLoads(lost, store.shards);
    ScriptFails(store.shards, script);
    var ok := store.PersistAllocations();
  }

  /** The run that breaks the promise. After the failed proof, creating shard 1 stores a
      catalog that names both shards. The next crash leaves shard 0 cataloged and short,
      and it is loaded as damaged. */
  method UnprovenShardIsNamed() returns (store: SlotStore, found: Disk, reopened: SlotStore)
    ensures store.Valid() && store.sound && store.disk.catalogs == {{0, 1}}
    ensures false in At(store.disk, 0).sizes && !Sized(store.disk)
    ensures Survives(store.disk, found, {0, 1}) && reopened.Valid() && reopened.disk == found
    ensures 0 in reopened.shards && reopened.shards[0].short == Truncated(true)
  {
    hide SlotStore.Valid, Goes, UsedProven, Complete, Sized, MayName, Promised, Survives, CatalogSafe, Restarted, At, Orphans;
    store := StopAtProof();
    ghost var d, waiting := store.disk, store.shards;
    var ok := store.EnsureShard(1);
    assert {0} + {1} == {0, 1};
    StillWaits(d, waiting, store.disk);
    found := Restarted(store.disk);
    store.DiskSafe();
    RestartSurvives(store.disk, true);
    var again, _ := Open(store.disk, found, {0, 1}, {0}, true, []);
    again.ShardKeys();
    reopened := again;
  }
}
