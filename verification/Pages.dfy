/** Paged files, and the flat byte arrays they stand for.

  A node maps page indices to arena slots; a page that is not mapped reads as
  zeroes. The hash of a page is taken as injective: a reference carries the
  content it authenticates. Bytes of a mapped page behind the end of the file
  are zero, so growing a file reveals nothing.
 */
module Pages {
  import opened Records

  const PAGE: nat := 4096

  /** The last page whose bytes all have a 64-bit offset. */
  const LAST_PAGE: nat := (U64_MAX - PAGE) / PAGE

  datatype PageRef = PageRef(slot: nat, digest: Bytes)

  datatype Node = Node(len: nat, pages: map<nat, PageRef>, reserved: set<nat>)

  function Zeros(n: nat): (z: Bytes)
    ensures |z| == n && forall i :: 0 <= i < n ==> z[i] == 0
  {
    seq(n, _ => 0)
  }

  function DivCeil(n: nat): nat {
    (n + PAGE - 1) / PAGE
  }

  /** Every mapped page is reserved, inside the file, and zero behind its end. */
  ghost predicate NodeOk(node: Node) {
    && (forall i :: i in node.pages ==> PageOk(node, i))
    && (forall i :: i in node.reserved ==> i <= LAST_PAGE)
  }

  ghost predicate PageOk(node: Node, i: nat)
    requires i in node.pages
  {
    var bytes := node.pages[i].digest;
    && |bytes| == PAGE
    && i in node.reserved
    && i * PAGE < node.len
    && forall j :: 0 <= j < PAGE && i * PAGE + j >= node.len ==> bytes[j] == 0
  }

  function PageBytes(node: Node, i: nat): Bytes {
    if i in node.pages then node.pages[i].digest else Zeros(PAGE)
  }

  ghost function ByteOf(node: Node, k: nat): Byte
    requires NodeOk(node)
  {
    if k / PAGE in node.pages then
      assert PageOk(node, k / PAGE);
      node.pages[k / PAGE].digest[k % PAGE]
    else 0
  }

  /** The file as a flat array. */
  ghost function Flat(node: Node): (s: Bytes)
    requires NodeOk(node)
    ensures |s| == node.len && forall k :: 0 <= k < |s| ==> s[k] == ByteOf(node, k)
  {
    seq(node.len, k requires 0 <= k < node.len => ByteOf(node, k))
  }

  function Splice(s: Bytes, at: nat, chunk: Bytes): (t: Bytes)
    requires at + |chunk| <= |s|
    ensures |t| == |s|
  {
    s[..at] + chunk + s[at + |chunk|..]
  }

  /** The flat file grown with zeroes to at least `n` bytes. */
  function Grown(s: Bytes, n: nat): (t: Bytes)
    ensures |t| == Max(|s|, n)
  {
    if n <= |s| then s else s + Zeros(n - |s|)
  }

  function FlatWrite(s: Bytes, at: nat, data: Bytes): Bytes {
    Splice(Grown(s, at + |data|), at, data)
  }

  function FlatSetLen(s: Bytes, n: nat): Bytes {
    if n <= |s| then s[..n] else Grown(s, n)
  }

  /** Zeroes over `[at, end)`, as far as the file goes. */
  function FlatPunch(s: Bytes, at: nat, end: nat): Bytes {
    var stop := if end <= |s| then end else |s|;
    if at >= stop then s else Splice(s, at, Zeros(stop - at))
  }

  lemma Cell(p: nat, j: nat)
    requires j < PAGE
    ensures (p * PAGE + j) / PAGE == p && (p * PAGE + j) % PAGE == j
  {
  }

  /** Reserving only grows the file, with zeroes. */
  lemma GrowNode(node: Node, n: nat, more: set<nat>)
    requires NodeOk(node) && forall i :: i in more ==> i <= LAST_PAGE
    ensures
      var next := node.(len := Max(node.len, n), reserved := node.reserved + more);
      NodeOk(next) && Flat(next) == Grown(Flat(node), n)
  {
    var next := node.(len := Max(node.len, n), reserved := node.reserved + more);
    forall i | i in next.pages
      ensures PageOk(next, i)
    {
      assert PageOk(node, i);
    }
    forall k | 0 <= k < next.len
      ensures Flat(next)[k] == Grown(Flat(node), n)[k]
    {
      if k >= node.len && k / PAGE in node.pages {
        assert PageOk(node, k / PAGE);
        Cell(k / PAGE, k % PAGE);
      }
    }
  }

  function PatchedPage(bytes: Bytes, start: nat, chunk: Bytes): (b: Bytes)
    requires |bytes| == PAGE && start + |chunk| <= PAGE
    ensures |b| == PAGE
  {
    Splice(bytes, start, chunk)
  }

  function SetPage(node: Node, p: nat, slot: nat, bytes: Bytes): Node {
    node.(pages := node.pages[p := PageRef(slot, bytes)])
  }

  lemma PageSized(node: Node, p: nat)
    requires NodeOk(node)
    ensures |PageBytes(node, p)| == PAGE
  {
    if p in node.pages { assert PageOk(node, p); }
  }

  /** Rewriting part of one page is a splice of the flat file. */
  lemma PatchNode(node: Node, p: nat, start: nat, chunk: Bytes, slot: nat)
    requires NodeOk(node) && p in node.reserved && start + |chunk| <= PAGE && chunk != []
    requires p * PAGE + start + |chunk| <= node.len
    requires |PageBytes(node, p)| == PAGE
    ensures
      var next := SetPage(node, p, slot, PatchedPage(PageBytes(node, p), start, chunk));
      NodeOk(next) && Flat(next) == Splice(Flat(node), p * PAGE + start, chunk)
  {
    var bytes := PatchedPage(PageBytes(node, p), start, chunk);
    var next := SetPage(node, p, slot, bytes);
    forall i | i in next.pages
      ensures PageOk(next, i)
    {
      if i in node.pages { assert PageOk(node, i); }
    }
    var at := p * PAGE + start;
    forall k | 0 <= k < next.len
      ensures Flat(next)[k] == Splice(Flat(node), at, chunk)[k]
    {
      PatchByte(node, p, start, chunk, slot, k);
    }
  }

  lemma PatchByte(node: Node, p: nat, start: nat, chunk: Bytes, slot: nat, k: nat)
    requires NodeOk(node) && start + |chunk| <= PAGE
    requires p * PAGE + start + |chunk| <= node.len && k < node.len
    requires |PageBytes(node, p)| == PAGE
    requires NodeOk(SetPage(node, p, slot, PatchedPage(PageBytes(node, p), start, chunk)))
    ensures
      var next := SetPage(node, p, slot, PatchedPage(PageBytes(node, p), start, chunk));
      ByteOf(next, k) == Splice(Flat(node), p * PAGE + start, chunk)[k]
  {
    hide NodeOk;
    var q, j := k / PAGE, k % PAGE;
    assert k == q * PAGE + j;
    var s := Flat(node);
    var at := p * PAGE + start;
    assert s[k] == ByteOf(node, k);
    if q == p {
      assert at <= k < at + |chunk| <==> start <= j < start + |chunk|;
    } else {
      assert k < at || k >= at + |chunk|;
    }
  }

  function DropPage(node: Node, p: nat): Node {
    node.(pages := node.pages - {p}, reserved := node.reserved - {p})
  }

  /** Unmapping a whole page zeroes it. */
  lemma DropNode(node: Node, p: nat)
    requires NodeOk(node) && p * PAGE + PAGE <= node.len
    ensures NodeOk(DropPage(node, p)) && Flat(DropPage(node, p)) == Splice(Flat(node), p * PAGE, Zeros(PAGE))
  {
    var next := DropPage(node, p);
    forall i | i in next.pages
      ensures PageOk(next, i)
    {
      assert PageOk(node, i);
    }
    forall k | 0 <= k < next.len
      ensures Flat(next)[k] == Splice(Flat(node), p * PAGE, Zeros(PAGE))[k]
    {
      assert k / PAGE == p <==> p * PAGE <= k < p * PAGE + PAGE;
    }
  }

  /** Punching where nothing is mapped changes nothing. */
  lemma PunchAbsent(node: Node, p: nat, start: nat, count: nat)
    requires NodeOk(node) && p !in node.pages && start + count <= PAGE && p * PAGE + start + count <= node.len
    ensures Splice(Flat(node), p * PAGE + start, Zeros(count)) == Flat(node)
  {
    forall k | 0 <= k < node.len
      ensures Splice(Flat(node), p * PAGE + start, Zeros(count))[k] == Flat(node)[k]
    {
      if p * PAGE + start <= k < p * PAGE + start + count {
        assert k / PAGE == p;
      }
    }
  }

  /** `set_len` once the tail page, if any, is zero behind the new end. */
  function Resized(node: Node, n: nat): Node {
    Node(n, map i | i in node.pages && i < DivCeil(n) :: node.pages[i], set i | i in node.reserved && i < DivCeil(n))
  }

  ghost predicate TailZero(node: Node, n: nat) {
    n / PAGE in node.pages ==>
      |node.pages[n / PAGE].digest| == PAGE
      && forall j :: n % PAGE <= j < PAGE && n % PAGE != 0 ==> node.pages[n / PAGE].digest[j] == 0
  }

  lemma ResizeNode(node: Node, n: nat)
    requires NodeOk(node) && (n < node.len ==> TailZero(node, n))
    ensures NodeOk(Resized(node, n)) && Flat(Resized(node, n)) == FlatSetLen(Flat(node), n)
  {
    var next := Resized(node, n);
    forall i | i in next.pages
      ensures PageOk(next, i)
    {
      assert PageOk(node, i);
      CeilFacts(n, i);
    }
    forall k | 0 <= k < n
      ensures Flat(next)[k] == FlatSetLen(Flat(node), n)[k]
    {
      CeilFacts(n, k / PAGE);
      if k / PAGE in node.pages { assert PageOk(node, k / PAGE); }
    }
  }

  lemma CeilFacts(n: nat, i: nat)
    ensures i < DivCeil(n) <==> i * PAGE < n
    ensures i * PAGE < n && n < i * PAGE + PAGE ==> n / PAGE == i && n % PAGE == n - i * PAGE
  {
  }

  /** A read is that part of the flat file. */
  lemma ReadPage(node: Node, p: nat, start: nat, count: nat)
    requires NodeOk(node) && start + count <= PAGE && p * PAGE + start + count <= node.len
    ensures |PageBytes(node, p)| == PAGE
    ensures PageBytes(node, p)[start..start + count] == Flat(node)[p * PAGE + start..p * PAGE + start + count]
  {
    PageSized(node, p);
    var part := PageBytes(node, p)[start..start + count];
    var flat := Flat(node)[p * PAGE + start..p * PAGE + start + count];
    forall j | 0 <= j < count
      ensures part[j] == flat[j]
    {
      Cell(p, start + j);
      assert flat[j] == Flat(node)[p * PAGE + start + j];
    }
  }
}
