/** Loading a program's segments into a process (src/process.rs:917-987) and reading
    them back the way the process does: page walk, then physical memory. */
module Loader {
  import opened Wrappers
  import opened Bytes
  import opened Elf
  import opened Image
  import opened Pmm
  import opened PageTable
  import opened Paging
  import opened ProcessMemory
  import opened Process

  const RAM_BYTES: nat := 0x1000_0000

  /** Physical memory. */
  class Ram {
    var bytes: seq<Byte>

    constructor ()
      ensures |bytes| == RAM_BYTES
    {
      bytes := seq(RAM_BYTES, _ => 0);
    }

    /** `copy_nonoverlapping` or `write_bytes`. */
    method Store(at: nat, data: seq<Byte>)
      requires at + |data| <= |bytes|
      modifies this
      ensures bytes == Write(old(bytes), at, data)
    {
      bytes := Write(bytes, at, data);
    }
  }

  /** The byte a process with this page table finds at virtual address `a`. */
  ghost function ReadVirtual(w: Words, root: nat, ram: seq<Byte>, a: nat): Option<Byte> {
    var page := Walk(w, root, a / 4096);
    if page.None? || 4096 * page.value.pfn + a % 4096 >= |ram| then None else Some(ram[4096 * page.value.pfn + a % 4096])
  }

  /** Virtual addresses from page `v` on read the block at frame `f`. */
  ghost predicate Window(w: Words, root: nat, v: nat, f: nat, n: nat) {
    forall q: nat :: v <= q < v + n ==> Walk(w, root, q).Some? && Walk(w, root, q).value.pfn == f + (q - v)
  }

  lemma WindowRead(w: Words, root: nat, ram: seq<Byte>, v: nat, f: nat, n: nat, a: nat, o: nat)
    requires Window(w, root, v, f, n) && a == 4096 * v + o && o < 4096 * n && 4096 * f + 4096 * n <= |ram|
    ensures ReadVirtual(w, root, ram, a) == Some(ram[4096 * f + o])
  {
    var q, r := a / 4096, a % 4096;
    assert a == 4096 * q + r;
    assert v <= q < v + n;
    assert 4096 * (f + (q - v)) + r == 4096 * f + o;
  }

  /** The permissions `load_segments` gives a page. */
  ghost predicate PermFor(segs: seq<Segment>, page: nat, perm: Perm) {
    perm.user && (perm.writable <==> SomeWritable(segs, page)) && (perm.nx <==> !SomeExecutable(segs, page))
  }

  ghost predicate PermsFor(segs: seq<Segment>, start: nat, perms: seq<Perm>) {
    forall i :: 0 <= i < |perms| ==> PermFor(segs, start + 4096 * i, perms[i])
  }

  method PagePerms(segs: seq<Segment>, start: nat, pages: nat) returns (perms: seq<Perm>)
    ensures |perms| == pages && PermsFor(segs, start, perms)
  {
    perms := [];
    var i: nat := 0;
    while i < pages
      invariant i == |perms| <= pages && PermsFor(segs, start, perms)
    {
      var writable, executable := PageFlags(segs, start + 4096 * i);
      perms := perms + [Perm(writable, true, !executable)];
      i := i + 1;
    }
  }

  /** Zeros the block at `base`, then copies every segment's file bytes to its place. */
  method CopySegments(ram: Ram, base: nat, segs: seq<Segment>, data: seq<Byte>, start: nat, n: nat)
    requires SegmentsOk(data, segs) && Holds(segs, start, n) && base + n <= |ram.bytes|
    modifies ram
    ensures ram.bytes == Write(old(ram.bytes), base, Loaded(data, segs, start, n))
  {
    ghost var ram0 := ram.bytes;
    ram.Store(base, seq(n, _ => 0));
    var i: nat := 0;
    while i < |segs|
      invariant i <= |segs| && Copying(ram0, ram.bytes, base, segs[..i], data, start, n)
    {
      CopyOne(ram, ram0, base, segs, i, data, start, n);
      i := i + 1;
    }
    assert segs[..|segs|] == segs;
  }

  /** The block at `base` holds the segments `segs`; the rest of memory is as in `ram0`. */
  ghost predicate Copying(ram0: seq<Byte>, ram: seq<Byte>, base: nat, segs: seq<Segment>, data: seq<Byte>, start: nat, n: nat) {
    && SegmentsOk(data, segs) && Holds(segs, start, n) && base + n <= |ram0|
    && ram == Write(ram0, base, Loaded(data, segs, start, n))
  }

  method CopyOne(ram: Ram, ghost ram0: seq<Byte>, base: nat, segs: seq<Segment>, i: nat, data: seq<Byte>, start: nat, n: nat)
    requires i < |segs| && SegmentsOk(data, segs) && Holds(segs, start, n) && Copying(ram0, ram.bytes, base, segs[..i], data, start, n)
    modifies ram
    ensures Copying(ram0, ram.bytes, base, segs[..i + 1], data, start, n)
  {
    var s := segs[i];
    var at, part := s.vaddr - start, data[s.offset..s.offset + s.filesz];
    CopyStep(ram0, ram.bytes, base, segs, i, data, start, n, at, part);
    if s.filesz != 0 {
      ram.Store(base + at, part);
    }
  }

  lemma CopyStep(ram0: seq<Byte>, ram: seq<Byte>, base: nat, segs: seq<Segment>, i: nat, data: seq<Byte>, start: nat, n: nat, at: nat, part: seq<Byte>)
    requires i < |segs| && SegmentsOk(data, segs) && Holds(segs, start, n) && Copying(ram0, ram, base, segs[..i], data, start, n)
    requires at == segs[i].vaddr - start && part == data[segs[i].offset..segs[i].offset + segs[i].filesz]
    ensures at + |part| <= n && Copying(ram0, Write(ram, base + at, part), base, segs[..i + 1], data, start, n)
    ensures part == [] ==> Copying(ram0, ram, base, segs[..i + 1], data, start, n)
  {
    assert SegmentOk(data, segs[i]);
    var all, block := segs[..i + 1], Loaded(data, segs[..i], start, n);
    assert all[..i] == segs[..i] && all[i] == segs[i];
    WriteInside(ram0, base, block, at, part);
  }

  /** Writing into a written block. */
  lemma WriteInside(ram: seq<Byte>, base: nat, block: seq<Byte>, at: nat, part: seq<Byte>)
    requires base + |block| <= |ram| && at + |part| <= |block|
    ensures Write(Write(ram, base, block), base + at, part) == Write(ram, base, Write(block, at, part))
    ensures part == [] ==> Write(block, at, part) == block
  {
    var x, y := Write(Write(ram, base, block), base + at, part), Write(ram, base, Write(block, at, part));
    forall i: nat | i < |ram| ensures x[i] == y[i] {
    }
  }

  /** Every segment can be read at its addresses. */
  ghost predicate Readable(w: Words, root: nat, ram: seq<Byte>, segs: seq<Segment>, data: seq<Byte>)
    requires SegmentsOk(data, segs)
  {
    forall i, o: nat :: 0 <= i < |segs| && o < segs[i].memsz ==>
      ReadVirtual(w, root, ram, segs[i].vaddr + o) == Some(Expected(data, segs[i], o))
  }

  /** Every page of the image has the permissions of the segments that touch it. */
  ghost predicate Protected(w: Words, root: nat, segs: seq<Segment>, v: nat, n: nat) {
    forall q: nat :: v <= q < v + n ==> ProtectedPage(w, root, segs, q)
  }

  ghost predicate ProtectedPage(w: Words, root: nat, segs: seq<Segment>, q: nat) {
    var page := Walk(w, root, q);
    page.Some? && page.value.user && (page.value.writable <==> SomeWritable(segs, 4096 * q)) && (page.value.nx <==> !SomeExecutable(segs, 4096 * q))
  }

  lemma ImageReadable(w: Words, root: nat, ram0: seq<Byte>, ram: seq<Byte>, segs: seq<Segment>, data: seq<Byte>, v: nat, f: nat, n: nat)
    requires Window(w, root, v, f, n) && 4096 * f + 4096 * n <= |ram0|
    requires Copying(ram0, ram, 4096 * f, segs, data, 4096 * v, 4096 * n) && Disjoint(segs)
    ensures Readable(w, root, ram, segs, data)
  {
    forall i, o: nat | 0 <= i < |segs| && o < segs[i].memsz
      ensures ReadVirtual(w, root, ram, segs[i].vaddr + o) == Some(Expected(data, segs[i], o))
    {
      ByteReadable(w, root, ram0, ram, segs, data, v, f, n, i, o, segs[i].vaddr + o);
    }
  }

  lemma ByteReadable(w: Words, root: nat, ram0: seq<Byte>, ram: seq<Byte>, segs: seq<Segment>, data: seq<Byte>, v: nat, f: nat, n: nat, i: nat, o: nat, a: nat)
    requires Window(w, root, v, f, n) && 4096 * f + 4096 * n <= |ram0|
    requires Copying(ram0, ram, 4096 * f, segs, data, 4096 * v, 4096 * n) && Disjoint(segs)
    requires i < |segs| && o < segs[i].memsz && a == segs[i].vaddr + o
    ensures ReadVirtual(w, root, ram, a) == Some(Expected(data, segs[i], o))
  {
    SegmentBytes(data, segs, 4096 * v, 4096 * n, i, o, a);
    var at := a - 4096 * v;
    assert ram[4096 * f + at] == Loaded(data, segs, 4096 * v, 4096 * n)[at];
    WindowRead(w, root, ram, v, f, n, a, at);
  }

  lemma ImageProtected(w0: Words, w: Words, root: nat, segs: seq<Segment>, v: nat, f: nat, perms: seq<Perm>)
    requires Proc.ImageMapped(w0, w, root, v, f, perms) && v + |perms| <= PAGES && PermsFor(segs, 4096 * v, perms)
    ensures Window(w, root, v, f, |perms|) && Protected(w, root, segs, v, |perms|)
  {
    forall q: nat | v <= q < v + |perms| ensures ProtectedPage(w, root, segs, q) && Walk(w, root, q).value.pfn == f + (q - v) {
      var i := q - v;
      assert PermFor(segs, 4096 * v + 4096 * i, perms[i]) && 4096 * v + 4096 * i == 4096 * q;
      assert Walk(w, root, q) == Proc.PageWith(f + (q - v), perms[q - v]);
    }
  }

  lemma RunFits(free: set<nat>, f: nat, n: nat)
    requires Range(f, n) <= free && n > 0 && forall x :: x in free ==> x < FRAME_COUNT
    ensures 4096 * f + 4096 * n <= RAM_BYTES
  {
    assert InRun(f + n - 1, f, n);
    assert f + n - 1 in Range(f, n);
  }

  /** `load_segments`: on success every byte of every segment reads as the file says,
      and every page is writable or executable exactly when such a segment touches it.
      No other page translates differently. */
  method LoadSegments(p: Proc, pt: PageTables, ram: Ram, segs: seq<Segment>, data: seq<Byte>, ghost live: set<nat>)
    returns (ok: bool, ghost f: nat)
    requires p.Ok(pt, live) && SegmentsOk(data, segs) && |ram.bytes| == RAM_BYTES
    modifies p`frames, p`role, p`maps, pt, pt.pmm.bits, ram
    ensures p.Ok(pt, live) && |ram.bytes| == RAM_BYTES
    ensures Local(old(pt.words), old(pt.pmm.Free()), old(p.Mem()), pt.words, pt.pmm.Free(), p.Mem())
    ensures !ok ==> ram.bytes == old(ram.bytes)
    ensures ok && Disjoint(segs) ==> Readable(pt.words, p.root, ram.bytes, segs, data)
    ensures ok && segs != [] ==> var v, n := Lowest(segs) / 4096, (Highest(segs) - Lowest(segs)) / 4096;
                                 && v + n <= PAGES && Protected(pt.words, p.root, segs, v, n)
                                 && (forall q: nat :: q < ALL_PAGES && !(v <= q < v + n) ==> Walk(pt.words, p.root, q) == Walk(old(pt.words), p.root, q))
    ensures forall x: nat :: x < |ram.bytes| && x / 4096 !in old(pt.pmm.Free()) ==> ram.bytes[x] == old(ram.bytes)[x]
  {
    f := 0;
    LocalRefl(pt.words, pt.pmm.Free(), p.Mem());
    if segs == [] {
      return true, f;
    }
    SpanHolds(segs);
    var start, end := Overall(segs);
    ok, f := LoadBlock(p, pt, ram, segs, data, start / 4096, (end - start) / 4096, live);
  }

  method LoadBlock(p: Proc, pt: PageTables, ram: Ram, segs: seq<Segment>, data: seq<Byte>, v: nat, n: nat, ghost live: set<nat>)
    returns (ok: bool, f: nat)
    requires p.Ok(pt, live) && SegmentsOk(data, segs) && |ram.bytes| == RAM_BYTES && Holds(segs, 4096 * v, 4096 * n)
    modifies p`frames, p`role, p`maps, pt, pt.pmm.bits, ram
    ensures p.Ok(pt, live) && |ram.bytes| == RAM_BYTES
    ensures Local(old(pt.words), old(pt.pmm.Free()), old(p.Mem()), pt.words, pt.pmm.Free(), p.Mem())
    ensures !ok ==> ram.bytes == old(ram.bytes)
    ensures ok && Disjoint(segs) ==> Readable(pt.words, p.root, ram.bytes, segs, data)
    ensures ok ==> v + n <= PAGES && Protected(pt.words, p.root, segs, v, n)
    ensures ok ==> forall q: nat :: q < ALL_PAGES && !(v <= q < v + n) ==> Walk(pt.words, p.root, q) == Walk(old(pt.words), p.root, q)
    ensures forall x: nat :: x < |ram.bytes| && x / 4096 !in old(pt.pmm.Free()) ==> ram.bytes[x] == old(ram.bytes)[x]
  {
    ghost var w0, free0, ram0 := pt.words, pt.pmm.Free(), ram.bytes;
    var perms := PagePerms(segs, 4096 * v, n);
    ok, f := p.LoadImage(pt, v, perms, live);
    if ok {
      RunFits(free0, f, n);
      ImageProtected(w0, pt.words, p.root, segs, v, f, perms);
      CopySegments(ram, 4096 * f, segs, data, 4096 * v, 4096 * n);
      if Disjoint(segs) {
        ImageReadable(pt.words, p.root, ram0, ram.bytes, segs, data, v, f, n);
      }
      OnlyNew(free0, ram0, ram.bytes, f, n, Loaded(data, segs, 4096 * v, 4096 * n));
    }
  }

  lemma OnlyNew(free: set<nat>, ram0: seq<Byte>, ram: seq<Byte>, f: nat, n: nat, block: seq<Byte>)
    requires Range(f, n) <= free && |block| == 4096 * n && 4096 * f + 4096 * n <= |ram0| && ram == Write(ram0, 4096 * f, block)
    ensures forall x: nat :: x < |ram0| && x / 4096 !in free ==> ram[x] == ram0[x]
  {
    forall x: nat | x < |ram0| && x / 4096 !in free ensures ram[x] == ram0[x] {
      var q := x / 4096;
      assert 4096 * f <= x < 4096 * f + 4096 * n ==> InRun(q, f, n);
      assert InRun(q, f, n) ==> q in Range(f, n);
    }
  }
}
