/** The ways the journal directory and the history may change.

  Each lemma is one kind of step; together they are everything the writer and
  recovery do between two crash points.
 */
module JournalSteps {
  import opened Records
  import opened SegmentFile
  import opened JournalScan
  import opened JournalDisk

  /** A change to one file that keeps every record it held for certain. */
  ghost predicate Improves(f: SegFile, g: SegFile, log: seq<Record>) {
    && g.base == f.base
    && (Firm(f) ==> Firm(g))
    && forall k: nat :: Solid(f, k, log) ==> Solid(g, k, log)
  }

  lemma ReplaceOpen(d: JDisk, h: History, x: nat, g: SegFile)
    requires CrashSafe(d, h, Some(x)) && x in d.files
    requires WellFormed(g) && Honest(g, h.issued) && g.base + |g.poss| <= U64_MAX
    requires Improves(d.files[x], g, h.log)
    ensures CrashSafe(d.(files := d.files[x := g]), h, Some(x))
  {
    hide Solid, Honest, WellFormed, Settled;
    var e := d.(files := d.files[x := g]);
    assert FileOk(d, x, h, Some(x));
    forall y | y in e.files
      ensures FileOk(e, y, h, Some(x))
    {
      assert FileOk(d, y, h, Some(x));
    }
    forall p | p in e.proofs
      ensures ProofOk(e, p, h)
    {
      assert ProofOk(d, p, h);
    }
    forall m | m in e.marks
      ensures MarkOk(e, m, h)
    {
      assert MarkOk(d, m, h);
    }
    forall q | h.floor < q <= h.durable
      ensures Stored(e, q)
    {
      ReplaceStored(d, h, x, g, q);
    }
    forall a, b | a in e.files && b in e.files && a < b
      ensures End(e.files[a]) <= e.files[b].base
    {
      SegmentsOrdered(d, h, Some(x), a, b);
    }
  }

  lemma ReplaceStored(d: JDisk, h: History, x: nat, g: SegFile, q: nat)
    requires CrashSafe(d, h, Some(x)) && x in d.files && WellFormed(g)
    requires Improves(d.files[x], g, h.log)
    requires h.floor < q <= h.durable
    ensures Stored(d.(files := d.files[x := g]), q)
  {
    hide Solid, Honest, WellFormed, Settled, Ordered, ProofOk, MarkOk;
    var e := d.(files := d.files[x := g]);
    assert Stored(d, q);
    var y :| y in d.files && Contains(d.files[y], q);
    assert FileOk(d, y, h, Some(x));
    if y == x {
      SolidEnd(g, h.durable + 1 - g.base, h.log);
    }
    assert y in e.files && Contains(e.files[y], q);
  }

  lemma SolidEnd(f: SegFile, k: nat, log: seq<Record>)
    requires WellFormed(f) && Solid(f, k, log)
    ensures k <= |f.cache|
  {
  }

  /** An append is about to write `r`: from now on a crash may show it. */
  lemma Issue(d: JDisk, h: History, open: Option<nat>, r: Record)
    requires CrashSafe(d, h, open)
    ensures CrashSafe(d, h.(issued := h.issued + {r}), open)
  {
    hide Solid, WellFormed, Settled, Ordered, Stored;
    var g := h.(issued := h.issued + {r});
    forall y | y in d.files
      ensures FileOk(d, y, g, open)
    {
      assert FileOk(d, y, h, open);
    }
    forall p | p in d.proofs
      ensures ProofOk(d, p, g)
    {
      assert ProofOk(d, p, h);
    }
    forall m | m in d.marks
      ensures MarkOk(d, m, g)
    {
      assert MarkOk(d, m, h);
    }
  }

  /** The record is accepted: the history grows by one. */
  lemma Accept(d: JDisk, h: History, open: Option<nat>, r: Record)
    requires CrashSafe(d, h, open)
    requires r in h.issued && r.sequence == |h.log| + 1 < U64_MAX
    ensures CrashSafe(d, h.(log := h.log + [r]), open)
  {
    hide WellFormed, Honest, Ordered, Stored, Solid;
    var g := h.(log := h.log + [r]);
    forall y | y in d.files
      ensures FileOk(d, y, g, open)
    {
      assert FileOk(d, y, h, open);
      LongerLog(d.files[y], h.log, r);
    }
    forall p | p in d.proofs
      ensures ProofOk(d, p, g)
    {
      assert ProofOk(d, p, h);
      if p.index in d.files { LongerLog(d.files[p.index], h.log, r); }
    }
    forall m | m in d.marks
      ensures MarkOk(d, m, g)
    {
      assert MarkOk(d, m, h);
      if m.index in d.files { LongerLog(d.files[m.index], h.log, r); }
    }
  }

  lemma LongerLog(f: SegFile, log: seq<Record>, r: Record)
    ensures forall k: nat :: Solid(f, k, log) ==> Solid(f, k, log + [r])
  {
  }

  /** A sync settled the open segment: its records are acknowledged. */
  lemma Acknowledge(d: JDisk, h: History, x: nat, n: nat)
    requires CrashSafe(d, h, Some(x)) && x in d.files
    requires h.durable <= n <= |h.log|
    requires Firm(d.files[x]) && d.files[x].base <= n + 1 && Solid(d.files[x], n + 1 - d.files[x].base, h.log)
    ensures CrashSafe(d, h.(durable := n), Some(x))
  {
    hide WellFormed, Honest, Ordered, Settled;
    var g := h.(durable := n);
    forall y | y in d.files
      ensures FileOk(d, y, g, Some(x))
    {
      assert FileOk(d, y, h, Some(x));
    }
    forall p | p in d.proofs
      ensures ProofOk(d, p, g)
    {
      assert ProofOk(d, p, h);
    }
    forall m | m in d.marks
      ensures MarkOk(d, m, g)
    {
      assert MarkOk(d, m, h);
    }
    assert FileOk(d, x, h, Some(x));
    SolidEnd(d.files[x], n + 1 - d.files[x].base, h.log);
    forall q | g.floor < q <= g.durable
      ensures Stored(d, q)
    {
      if q > h.durable {
        assert Contains(d.files[x], q);
      }
    }
  }

  /** No checkpoint the disk may name is below `c` any more. */
  lemma RaiseFloor(d: JDisk, h: History, open: Option<nat>, c: nat)
    requires CrashSafe(d, h, open) && h.floor <= c <= h.durable
    ensures CrashSafe(d, h.(floor := c), open)
  {
    hide WellFormed, Honest, Ordered, Settled, Solid, Stored;
    var g := h.(floor := c);
    forall y | y in d.files
      ensures FileOk(d, y, g, open)
    {
      assert FileOk(d, y, h, open);
    }
    forall p | p in d.proofs
      ensures ProofOk(d, p, g)
    {
      assert ProofOk(d, p, h);
    }
    forall m | m in d.marks
      ensures MarkOk(d, m, g)
    {
      assert MarkOk(d, m, h);
    }
  }

  /** Registers: a proof or mark that tells the truth may be stored, and a
      finished store leaves some of the values that were possible. */
  lemma Vouch(d: JDisk, h: History, open: Option<nat>, proofs: set<Proof>, marks: set<Mark>)
    requires CrashSafe(d, h, open)
    requires forall p :: p in proofs ==> p in d.proofs || ProofOk(d, p, h)
    requires forall m :: m in marks ==> m in d.marks || MarkOk(d, m, h)
    ensures CrashSafe(d.(proofs := proofs, marks := marks), h, open)
  {
    hide WellFormed, Honest, Settled, Solid;
    var e := d.(proofs := proofs, marks := marks);
    forall y | y in e.files
      ensures FileOk(e, y, h, open)
    {
      assert FileOk(d, y, h, open);
    }
    forall p | p in e.proofs
      ensures ProofOk(e, p, h)
    {
      assert ProofOk(d, p, h);
    }
    forall m | m in e.marks
      ensures MarkOk(e, m, h)
    {
      assert MarkOk(d, m, h);
    }
    forall q | h.floor < q <= h.durable
      ensures Stored(e, q)
    {
      assert Stored(d, q);
      var y :| y in d.files && Contains(d.files[y], q);
      assert y in e.files && Contains(e.files[y], q);
    }
  }

  /** The open segment is sealed. */
  lemma Seal(d: JDisk, h: History, x: nat)
    requires CrashSafe(d, h, Some(x)) && x in d.files
    requires ClosedOk(d.files[x], h)
    ensures CrashSafe(d, h, None)
  {
    hide WellFormed, Honest, Settled, Solid, Stored;
    forall y | y in d.files
      ensures FileOk(d, y, h, None)
    {
      assert FileOk(d, y, h, Some(x));
    }
  }

  /** A new file appears above every other, or a segment's creation moves on. */
  lemma Open(d: JDisk, h: History, open: Option<nat>, x: nat, g: SegFile)
    requires CrashSafe(d, h, open) && (open.None? || open == Some(x))
    requires x < U64_MAX && (forall y :: y in d.files ==> y <= x) && (x in d.files ==> open == Some(x) && d.files[x].base == g.base)
    requires forall p :: p in d.proofs && p.sequence > 0 ==> p.index != x
    requires forall m :: m in d.marks ==> m.index != x
    requires g.base == h.durable + 1 && OpenOk(g, h)
    ensures CrashSafe(d.(files := d.files[x := g]), h, Some(x))
  {
    hide WellFormed, Honest, Settled, Solid;
    var e := d.(files := d.files[x := g]);
    forall y | y in e.files
      ensures FileOk(e, y, h, Some(x))
    {
      if y != x { assert FileOk(d, y, h, open); }
    }
    forall p | p in e.proofs
      ensures ProofOk(e, p, h)
    {
      assert ProofOk(d, p, h);
    }
    forall m | m in e.marks
      ensures MarkOk(e, m, h)
    {
      assert MarkOk(d, m, h);
    }
    forall q | h.floor < q <= h.durable
      ensures Stored(e, q)
    {
      OpenStored(d, h, open, x, g, q);
    }
    forall a, b | a in e.files && b in e.files && a < b
      ensures End(e.files[a]) <= e.files[b].base
    {
      SegmentsOrdered(d, h, open, a, if b == x then a else b);
    }
  }

  lemma OpenStored(d: JDisk, h: History, open: Option<nat>, x: nat, g: SegFile, q: nat)
    requires CrashSafe(d, h, open) && (x in d.files ==> d.files[x].base == h.durable + 1)
    requires h.floor < q <= h.durable
    ensures Stored(d.(files := d.files[x := g]), q)
  {
    hide WellFormed, Honest, Settled, Solid, Ordered, FileOk, ProofOk, MarkOk;
    var e := d.(files := d.files[x := g]);
    assert Stored(d, q);
    var y :| y in d.files && Contains(d.files[y], q);
    assert y in e.files && Contains(e.files[y], q);
  }

  /** `sync_dir` of the journal directory. */
  function DirSynced(d: JDisk): JDisk {
    d.(files := map x | x in d.files && d.files[x].visible :: d.files[x].(present := {true}))
  }

  lemma SyncDirectory(d: JDisk, h: History, open: Option<nat>)
    requires CrashSafe(d, h, open)
    ensures CrashSafe(DirSynced(d), h, open)
  {
    hide Honest, Solid, Ordered;
    var e := DirSynced(d);
    forall y | y in e.files
      ensures FileOk(e, y, h, open)
    {
      assert FileOk(d, y, h, open);
      SameContent(d.files[y], e.files[y], h);
    }
    forall p | p in e.proofs
      ensures ProofOk(e, p, h)
    {
      assert ProofOk(d, p, h);
      if p.index in e.files { SameContent(d.files[p.index], e.files[p.index], h); }
    }
    forall m | m in e.marks
      ensures MarkOk(e, m, h)
    {
      assert MarkOk(d, m, h);
      if m.index in e.files { SameContent(d.files[m.index], e.files[m.index], h); }
    }
    forall q | h.floor < q <= h.durable
      ensures Stored(e, q)
    {
      SyncedStored(d, h, open, q);
    }
    SyncedOrdered(d, h, open);
  }

  lemma SameContent(f: SegFile, g: SegFile, h: History)
    requires g == f.(present := g.present, visible := g.visible)
    ensures WellFormed(f) ==> WellFormed(g)
    ensures forall k: nat :: Solid(f, k, h.log) ==> Solid(g, k, h.log)
    ensures Honest(f, h.issued) ==> Honest(g, h.issued)
  {
  }

  lemma SyncedStored(d: JDisk, h: History, open: Option<nat>, q: nat)
    requires CrashSafe(d, h, open) && h.floor < q <= h.durable
    ensures Stored(DirSynced(d), q)
  {
    hide WellFormed, Honest, Settled, Solid, Ordered, ProofOk, MarkOk;
    var e := DirSynced(d);
    assert Stored(d, q);
    var y :| y in d.files && Contains(d.files[y], q);
    assert FileOk(d, y, h, open);
    assert y in e.files && Contains(e.files[y], q);
  }

  lemma SyncedOrdered(d: JDisk, h: History, open: Option<nat>)
    requires CrashSafe(d, h, open)
    ensures Ordered(DirSynced(d), open)
  {
    hide CrashSafe;
    var e := DirSynced(d);
    forall a, b | a in e.files && b in e.files && a < b
      ensures End(e.files[a]) <= e.files[b].base
    {
      SegmentsOrdered(d, h, open, a, b);
    }
    assert Ordered(d, open) by { OrderedOf(d, h, open); }
  }

  lemma OrderedOf(d: JDisk, h: History, open: Option<nat>)
    requires CrashSafe(d, h, open)
    ensures Ordered(d, open)
  {
  }

  function Unlink(f: SegFile): SegFile {
    f.(visible := false, present := f.present + {false})
  }

  /** A covered segment is unlinked; a crash may still show it. */
  lemma RemoveCovered(d: JDisk, h: History, open: Option<nat>, x: nat)
    requires CrashSafe(d, h, open) && x in d.files && open != Some(x)
    requires End(d.files[x]) <= h.floor + 1
    ensures CrashSafe(d.(files := d.files[x := Unlink(d.files[x])]), h, open)
  {
    hide Honest, Solid, Ordered;
    var g := Unlink(d.files[x]);
    var e := d.(files := d.files[x := g]);
    assert FileOk(d, x, h, open);
    SameContent(d.files[x], g, h);
    forall y | y in e.files
      ensures FileOk(e, y, h, open)
    {
      assert FileOk(d, y, h, open);
    }
    forall p | p in e.proofs
      ensures ProofOk(e, p, h)
    {
      assert ProofOk(d, p, h);
      if p.sequence > h.floor && p.index == x {
        SolidEnd(d.files[x], p.cells, h.log);
      }
    }
    forall m | m in e.marks
      ensures MarkOk(e, m, h)
    {
      assert MarkOk(d, m, h);
    }
    forall q | h.floor < q <= h.durable
      ensures Stored(e, q)
    {
      RemovedStored(d, h, open, x, q);
    }
    RemovedOrdered(d, h, open, x);
  }

  lemma RemovedStored(d: JDisk, h: History, open: Option<nat>, x: nat, q: nat)
    requires CrashSafe(d, h, open) && x in d.files && h.floor < q <= h.durable
    ensures Stored(d.(files := d.files[x := Unlink(d.files[x])]), q)
  {
    hide WellFormed, Honest, Settled, Solid, Ordered, ProofOk, MarkOk, FileOk;
    var e := d.(files := d.files[x := Unlink(d.files[x])]);
    assert Stored(d, q);
    var y :| y in d.files && Contains(d.files[y], q);
    assert y in e.files && Contains(e.files[y], q);
  }

  lemma RemovedOrdered(d: JDisk, h: History, open: Option<nat>, x: nat)
    requires CrashSafe(d, h, open) && x in d.files
    ensures Ordered(d.(files := d.files[x := Unlink(d.files[x])]), open)
  {
    hide CrashSafe;
    var e := d.(files := d.files[x := Unlink(d.files[x])]);
    OrderedOf(d, h, open);
    forall a, b | a in e.files && b in e.files && a < b
      ensures End(e.files[a]) <= e.files[b].base
    {
      SegmentsOrdered(d, h, open, a, b);
    }
  }
}
