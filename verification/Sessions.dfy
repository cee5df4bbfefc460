/** Whole runs of the rollback backing: operations, crashes, and reopening.

  The run is driven from outside, one operation at a time; the invariant of the
  class is the statement about every run. `before` is what both views were when
  the last operation began, so everything earlier operations committed is in it.
  A crash, inside that operation or after it, finds the manifest committed then,
  or one that this operation put in flight.
 */
module Sessions {
  import opened Records
  import opened Pages
  import opened Arena
  import opened Rollback

  datatype Op =
    | Idle
    | ReadAt(id: nat, offset: nat, len: nat)
    | WriteAt(id: nat, offset: nat, data: Bytes)
    | AllocateRange(id: nat, offset: nat, len: nat)
    | SetLen(id: nat, len: nat)
    | PunchHole(id: nat, offset: nat, len: nat)
    | SyncData(id: nat)
    | OpenFile(name: Path, create: bool)
    | Close(id: nat)
    | Remove(name: Path)
    | Rename(from: Path, to: Path)
    | CreateDirAll(name: Path)
    | SyncDir(dir: Path)
    | FreeBytes

  /** The manifests an operation may commit that finds the views `v`: one file, one
      directory, zeroes behind what is there, or the same without what nothing reaches. */
  ghost predicate MayCommit(op: Op, v: Views, m: Manifest) {
    match op
    case SyncData(id) => id in v.files && m == Synced(v, id)
    case SyncDir(dir) => m == SyncedNames(v, dir)
    case WriteAt(_, _, _) => Padded(v.committed, m)
    case AllocateRange(_, _, _) => Padded(v.committed, m)
    case OpenFile(_, _) => m == Recommitted(v)
    case FreeBytes => m == Recommitted(v)
    case Idle => false
    case ReadAt(_, _, _) => false
    case SetLen(_, _) => false
    case PunchHole(_, _, _) => false
    case Close(_) => false
    case Remove(_) => false
    case Rename(_, _) => false
    case CreateDirAll(_) => false
  }

  ghost predicate IsOne(op: Op, v: Views, m: Manifest) {
    m == v.committed || MayCommit(op, v, m)
  }

  /** The manifest committed before the operation, or one of its own. */
  ghost predicate Shown(op: Op, v: Views, p: Point) {
    IsOne(op, v, p.last) && (p.flying.Some? ==> IsOne(op, v, p.flying.value))
  }

  ghost predicate AllShown(op: Op, v: Views, points: seq<Point>, since: nat) {
    since <= |points| && forall k :: since <= k < |points| ==> Shown(op, v, points[k])
  }

  lemma QuietShown(op: Op, v: Views, a: seq<Point>, b: seq<Point>)
    requires Quiet(a, b, v.committed)
    ensures AllShown(op, v, b, |a|)
  {
  }

  lemma MovesShown(op: Op, v: Views, a: seq<Point>, b: seq<Point>, n: Manifest)
    requires Moves(a, b, v.committed, n) && MayCommit(op, v, n)
    ensures AllShown(op, v, b, |a|)
  {
    hide MayCommit;
    forall k | |a| <= k < |b| ensures Shown(op, v, b[k]) {
      assert Between(v.committed, n, b[k]);
    }
  }

  lemma PadsShown(op: Op, v: Views, a: seq<Point>, b: seq<Point>)
    requires Pads(a, b, v.committed) && (op.WriteAt? || op.AllocateRange?)
    ensures AllShown(op, v, b, |a|)
  {
    hide Padded;
    forall k | |a| <= k < |b| ensures Shown(op, v, b[k]) {
      assert PadsPoint(v.committed, b[k]);
    }
  }

  /** Nothing an operation commits is older than what was committed. */
  lemma NeverOlder(op: Op, v: Views, m: Manifest)
    requires IsOne(op, v, m)
    ensures m == v.committed || m.generation > v.committed.generation
  {
    hide ZeroExtended, Keep, Retain, SyncedEntries, SyncedFiles;
  }

  /** One operation on a session that is not stopped. A handle that is not open or an
      empty name is refused before anything else. */
  method Perform(b: Backing, op: Op) returns (done: bool)
    requires b.Valid() && !b.poisoned
    modifies b
    ensures b.Valid() && old(b.crashes) <= b.crashes && (b.poisoned ==> |old(b.crashes)| < |b.crashes|)
    ensures AllShown(op, old(b.Now()), b.crashes, |old(b.crashes)|) && IsOne(op, old(b.Now()), b.committed)
    ensures done && op.SyncData? ==> op.id in old(b.files) && b.committed == Synced(old(b.Now()), op.id)
    ensures done && op.SyncDir? ==> b.committed == SyncedNames(old(b.Now()), op.dir)
    ensures done && op.SyncDir? ==> NamesSynced(old(b.committed.entries), old(b.entries), op.dir, b.committed.entries)
  {
    hide Backing.Valid, AllShown, Quiet, Moves, Pads, Padded, Recommitted, Synced, SyncedNames, NamesSynced, Trimmed, ZeroExtended, Flat, NodeOk;
    done := false;
    ghost var v := b.Now();
    ShownAlready(op, v, b.crashes);
    match op {
      case Idle =>
      case ReadAt(id, offset, len) =>
        if id in b.handles {
          var out;
          done, out := b.ReadAt(id, offset, len);
          QuietShown(op, v, old(b.crashes), b.crashes);
        }
      case WriteAt(id, offset, data) =>
        if id in b.handles {
          done := b.WriteAt(id, offset, data);
          PadsShown(op, v, old(b.crashes), b.crashes);
        }
      case AllocateRange(id, offset, len) =>
        if id in b.handles {
          done := b.AllocateRange(id, offset, len);
          PadsShown(op, v, old(b.crashes), b.crashes);
        }
      case SetLen(id, len) =>
        if id in b.handles {
          done := b.SetLen(id, len);
          QuietShown(op, v, old(b.crashes), b.crashes);
        }
      case PunchHole(id, offset, len) =>
        if id in b.handles {
          done := b.PunchHole(id, offset, len);
          QuietShown(op, v, old(b.crashes), b.crashes);
        }
      case SyncData(id) =>
        if id in b.handles {
          done := b.SyncData(id);
          MovesShown(op, v, old(b.crashes), b.crashes, Synced(v, id));
        }
      case OpenFile(name, create) =>
        if name != [] {
          var id;
          done, id := b.OpenFile(name, create);
          MovesShown(op, v, old(b.crashes), b.crashes, Recommitted(v));
        }
      case Close(id) =>
        if id in b.handles {
          b.Close(id);
          done := true;
        }
      case Remove(name) =>
        if name != [] {
          done := b.Remove(name);
          QuietShown(op, v, old(b.crashes), b.crashes);
        }
      case Rename(from, to) =>
        if from != [] && to != [] {
          done := b.Rename(from, to);
          QuietShown(op, v, old(b.crashes), b.crashes);
        }
      case CreateDirAll(name) =>
        done := b.CreateDirAll(name);
        QuietShown(op, v, old(b.crashes), b.crashes);
      case SyncDir(dir) =>
        done := b.SyncDir(dir);
        MovesShown(op, v, old(b.crashes), b.crashes, SyncedNames(v, dir));
      case FreeBytes =>
        var free;
        done, free := b.FreeBytes();
        MovesShown(op, v, old(b.crashes), b.crashes, Recommitted(v));
    }
  }

  lemma ShownAlready(op: Op, v: Views, a: seq<Point>)
    ensures AllShown(op, v, a, |a|)
  {
  }

  class Run {
    /** The session in use, if the system is up. */
    var backing: Option<Backing>
    ghost var before: Views
    ghost var op: Op
    /** The crash points from here on belong to `op`. */
    ghost var since: nat
    /** What the last crash left behind, if it is down. */
    ghost var down: Point

    ghost predicate Up()
      reads this, if backing.Some? then {backing.value} else {}
    {
      && backing.Some?
      && backing.value.Valid()
      && AllShown(op, before, backing.value.crashes, since)
      && (backing.value.poisoned ==> since < |backing.value.crashes|)
      && IsOne(op, before, backing.value.committed)
    }

    ghost predicate Down()
      reads this
    {
      backing.None? && PointOk(down) && Shown(op, before, down)
    }

    /** An empty backing, as `create` leaves it. */
    constructor (capacity: nat)
      requires 0 < capacity <= MAX_CAPACITY && capacity % PAGE == 0
      ensures Up() && before.committed == Manifest(0, capacity, 1, map[], map[]) && backing.value.committed == before.committed
    {
      hide PointOk;
      var m := Manifest(0, capacity, 1, map[], map[]);
      var disk := Disk(Arena(map[], map[], {}), [{Some(m)}, {None}], {m});
      CreatedOk(m, disk);
      var b := new Backing(disk, m, 0);
      backing, before, op, since := Some(b), Fresh(m), Idle, 0;
      new;
    }

    /** Any operation, failing or not. What earlier operations committed stays; a
        stopped session does nothing any more. */
    method Do(next: Op) returns (done: bool)
      requires Up()
      modifies this`before, this`op, this`since, backing.value
      ensures Up() && backing == old(backing)
      ensures if old(backing.value.poisoned) then !done && before == old(before) && op == old(op)
        else before == old(backing.value.Now()) && op == next
      ensures before.committed == old(before.committed) || before.committed.generation > old(before.committed.generation)
      ensures done && next.SyncData? ==> next.id in before.files && backing.value.committed == Synced(before, next.id)
      ensures done && next.SyncDir? ==> backing.value.committed == SyncedNames(before, next.dir)
      ensures done && next.SyncDir? ==>
        NamesSynced(before.committed.entries, before.entries, next.dir, backing.value.committed.entries)
    {
      hide Backing.Valid, AllShown, MayCommit, Synced, SyncedNames, NamesSynced;
      done := false;
      var b := backing.value;
      if !b.poisoned {
        NeverOlder(op, before, b.committed);
        before, op, since := b.Now(), next, |b.crashes|;
        done := Perform(b, next);
      }
    }

    /** The last operation has returned: nothing of it is in flight any more, and
        what it committed is what any later crash finds. */
    ghost method Return()
      requires Up() && !backing.value.poisoned
      modifies this`before, this`op, this`since
      ensures Up() && op == Idle && before == backing.value.Now()
    {
      hide Backing.Valid, MayCommit;
      before, op, since := backing.value.Now(), Idle, |backing.value.crashes|;
    }

    /** The machine stops: inside the last operation, or after it. */
    method Crash(ghost k: nat)
      requires Up()
      modifies this`backing, this`down
      ensures Down() && backing.None?
    {
      hide PointOk, ViewsOk, DiskOk, MayCommit, SlotsOf;
      var b := backing.value;
      if !b.poisoned {
        StillSupported(b.disk, b.Now(), b.manifestSlot);
      }
      down :=
        if since <= k < |b.crashes| then b.crashes[k]
        else if b.poisoned then b.crashes[|b.crashes| - 1]
        else Point(b.disk, b.committed, None);
      backing := None;
    }

    /** Reopening, on whatever disk the crash left. It may be interrupted and tried
        again; it never refuses. What it opens is the manifest committed before the last
        operation, or one that operation put in flight. */
    method Attach(found: Disk, ghost k: nat)
      requires Down() && Survives(down.disk, found)
      modifies this
      ensures Up() || (Down() && before == old(before) && op == old(op))
      ensures Up() ==>
        && IsOne(old(op), old(before), backing.value.committed)
        && before == Fresh(backing.value.committed) && op == Idle
        && backing.value.Now() == before && !backing.value.poisoned
      ensures Up() && old(op).Idle? ==>
        backing.value.committed == old(before).committed && backing.value.entries == old(before).committed.entries
      ensures before.committed == old(before.committed) || before.committed.generation > old(before.committed.generation)
    {
      hide PointOk, ViewsOk, DiskOk, Survives, SlotsOf, Validates, Backing.CrashesOk;
      ghost var p, left := down, [];
      var session, refused;
      session, refused, left := Open(down, found);
      ghost var q := left[if k < |left| then k else |left| - 1];
      ComesShown(op, before, p, q);
      var interrupted: bool := *;
      if interrupted || session.None? {
        down := q;
        return;
      }
      var b := session.value;
      NeverOlder(op, before, b.committed);
      backing, before, op, since := session, Fresh(b.committed), Idle, 0;
    }
  }

  lemma ComesShown(op: Op, v: Views, p: Point, q: Point)
    requires Shown(op, v, p) && ComesFrom(p, q)
    ensures Shown(op, v, q)
  {
    hide MayCommit;
  }

  lemma CreatedOk(m: Manifest, d: Disk)
    requires 0 < m.capacity <= MAX_CAPACITY && m.capacity % PAGE == 0
    requires m == Manifest(0, m.capacity, 1, map[], map[]) && d == Disk(Arena(map[], map[], {}), [{Some(m)}, {None}], {m})
    ensures Validates(m) && DiskOk(d, Fresh(m), 0)
  {
    assert Coords(m.files) == {};
  }
}
