/** The initial stack in a process's memory (src/process.rs:1099-1273): the layout is
    written into the reserved stack frames and read back through the page table, next to
    the program's segments. */
module LinuxStack {
  import opened Wrappers
  import opened Bytes
  import opened Elf
  import opened Image
  import opened Pmm
  import opened PageTable
  import opened Paging
  import opened ProcessMemory
  import opened Process
  import opened Loader
  import S = StackLayout

  /** Virtual memory from `a` on reads as `bytes`. */
  ghost predicate Shows(w: Words, root: nat, ram: seq<Byte>, a: nat, bytes: seq<Byte>) {
    forall o: nat :: o < |bytes| ==> ReadVirtual(w, root, ram, a + o) == Some(bytes[o])
  }

  lemma StackWindow(w0: Words, w: Words, root: nat, low: nat, f: nat, n: nat)
    requires Mapped(w0, w, root, low, f, n, UserPerm(true, false)) && low + n <= STACK_TOP_PAGE
    ensures Window(w, root, low, f, n)
  {
    forall q: nat | low <= q < low + n ensures Walk(w, root, q).Some? && Walk(w, root, q).value.pfn == f + (q - low) {
      assert 0 <= q < ALL_PAGES;
    }
  }

  /** Two adjacent writes into a window show as their concatenation. */
  lemma WindowShows(w: Words, root: nat, ram0: seq<Byte>, ram: seq<Byte>, low: nat, f: nat, n: nat, rsp: nat, at: nat, table: seq<Byte>, data: seq<Byte>)
    requires Window(w, root, low, f, n) && 4096 * f + 4096 * n <= |ram0|
    requires 4096 * low <= rsp && rsp + |table| + |data| <= 4096 * (low + n) && at == 4096 * f + (rsp - 4096 * low)
    requires ram == Write(Write(ram0, at, table), at + |table|, data)
    ensures Shows(w, root, ram, rsp, table + data)
  {
    var mem := table + data;
    forall o: nat | o < |mem| ensures ReadVirtual(w, root, ram, rsp + o) == Some(mem[o]) {
      WindowRead(w, root, ram, low, f, n, rsp + o, rsp + o - 4096 * low);
      assert ram[at + o] == mem[o];
    }
  }

  /** `setup_linux_stack`: on success the layout is what the process reads from its stack
      pointer on. Only frames that were free are written, and only stack pages translate
      differently. */
  method SetupLinuxStack(p: Proc, pt: PageTables, ram: Ram, f: S.Facts, argv: seq<S.Text>, envp: seq<S.Text>, phdrs: seq<Byte>, random: seq<Byte>, ghost live: set<nat>)
    returns (r: Option<nat>)
    requires p.Ok(pt, live) && |ram.bytes| == RAM_BYTES
    modifies p`frames, p`role, p`maps, p`stackLow, p`stackBase, pt, pt.pmm.bits, ram
    ensures |ram.bytes| == RAM_BYTES
    ensures !S.FitsStack(argv, envp, S.Copied(f, phdrs), random) ==> r.None?
    ensures r.Some? ==> p.Ok(pt, live) && S.FitsStack(argv, envp, S.Copied(f, phdrs), random)
    ensures r.Some? ==> var l := S.LayoutFor(f, argv, envp, S.Copied(f, phdrs), random);
                        r.value == l.rsp && Shows(pt.words, p.root, ram.bytes, l.rsp, l.table + l.data)
    ensures r.Some? ==> forall q: nat :: q < ALL_PAGES && !(STACK_LOW_PAGE <= q < STACK_TOP_PAGE) ==> Walk(pt.words, p.root, q) == Walk(old(pt.words), p.root, q)
    ensures forall x: nat :: x < |ram.bytes| && x / 4096 !in old(pt.pmm.Free()) ==> ram.bytes[x] == old(ram.bytes)[x]
  {
    var built := S.BuildLayout(f, argv, envp, phdrs, random);
    r := None;
    if built.Some? {
      var l := built.value;
      var low := l.rsp / 4096;
      RspRange(f, argv, envp, S.Copied(f, phdrs), random);
      var ok := p.SetupStack(pt, low, live);
      if ok {
        WriteStack(p, pt, ram, l, low, old(pt.words), old(pt.pmm.Free()));
        r := Some(l.rsp);
      }
    }
  }

  lemma RspRange(f: S.Facts, argv: seq<S.Text>, envp: seq<S.Text>, copied: seq<Byte>, random: seq<Byte>)
    requires S.FitsStack(argv, envp, copied, random)
    ensures var l := S.LayoutFor(f, argv, envp, copied, random);
            STACK_LOW_PAGE <= l.rsp / 4096 < STACK_TOP_PAGE && l.rsp + |l.table + l.data| <= 4096 * STACK_TOP_PAGE
  {
    var l := S.LayoutFor(f, argv, envp, copied, random);
    assert |l.table| == S.TableLen(argv, envp) > 0;
    assert |l.table + l.data| == S.TotalLen(argv, envp, copied, random);
  }

  /** Both copies, through the physical addresses of the stack frames. */
  method WriteStack(p: Proc, pt: PageTables, ram: Ram, l: S.Layout, low: nat, ghost w0: Words, ghost free0: set<nat>)
    requires |ram.bytes| == RAM_BYTES && STACK_LOW_PAGE <= low < STACK_TOP_PAGE && low == l.rsp / 4096
    requires l.rsp + |l.table + l.data| <= 4096 * STACK_TOP_PAGE
    requires Range(p.stackBase, STACK_MAX_PAGES) <= free0 && (forall x :: x in free0 ==> x < FRAME_COUNT)
    requires Mapped(w0, pt.words, p.root, low, Proc.StackFrame(p.stackBase, low), STACK_TOP_PAGE - low, UserPerm(true, false))
    modifies ram
    ensures |ram.bytes| == RAM_BYTES && Shows(pt.words, p.root, ram.bytes, l.rsp, l.table + l.data)
    ensures forall x: nat :: x < |ram.bytes| && x / 4096 !in free0 ==> ram.bytes[x] == old(ram.bytes)[x]
  {
    ghost var ram0 := ram.bytes;
    var f, start := Proc.StackFrame(p.stackBase, low), 4096 * low;
    RunFits(free0, p.stackBase, STACK_MAX_PAGES);
    var at := 4096 * f + (l.rsp - start);
    ram.Store(at, l.table);
    ram.Store(at + |l.table|, l.data);
    StackWindow(w0, pt.words, p.root, low, f, STACK_TOP_PAGE - low);
    WindowShows(pt.words, p.root, ram0, ram.bytes, low, f, STACK_TOP_PAGE - low, l.rsp, at, l.table, l.data);
    OnlyStack(free0, ram0, ram.bytes, p.stackBase, at, l.table, l.data);
  }

  lemma OnlyStack(free: set<nat>, ram0: seq<Byte>, ram: seq<Byte>, base: nat, at: nat, table: seq<Byte>, data: seq<Byte>)
    requires Range(base, STACK_MAX_PAGES) <= free && at + |table| + |data| <= |ram0| && ram == Write(Write(ram0, at, table), at + |table|, data)
    requires 4096 * base <= at && at + |table| + |data| <= 4096 * base + 4096 * STACK_MAX_PAGES
    ensures forall x: nat :: x < |ram0| && x / 4096 !in free ==> ram[x] == ram0[x]
  {
    forall x: nat | x < |ram0| && x / 4096 !in free ensures ram[x] == ram0[x] {
      var q := x / 4096;
      assert at <= x < at + |table| + |data| ==> InRun(q, base, STACK_MAX_PAGES);
      assert InRun(q, base, STACK_MAX_PAGES) ==> q in Range(base, STACK_MAX_PAGES);
    }
  }

  // ---- the program headers in memory ----------------------------------------------------------

  /** The segment holds the file bytes [phoff, phoff + len). */
  predicate HoldsTable(s: Segment, phoff: nat, len: nat) { s.offset <= phoff && phoff + len <= s.offset + s.filesz }

  /** The address of the program header table in the first segment that holds it. */
  method FindTable(segs: seq<Segment>, phoff: nat, len: nat) returns (r: Option<nat>, ghost i: nat)
    ensures r.Some? ==> i < |segs| && HoldsTable(segs[i], phoff, len) && r.value == segs[i].vaddr + (phoff - segs[i].offset)
    ensures r.None? ==> forall j :: 0 <= j < |segs| ==> !HoldsTable(segs[j], phoff, len)
  {
    i := 0;
    var k: nat := 0;
    while k < |segs|
      invariant k <= |segs| && forall j :: 0 <= j < k ==> !HoldsTable(segs[j], phoff, len)
    {
      if HoldsTable(segs[k], phoff, len) {
        return Some(segs[k].vaddr + (phoff - segs[k].offset)), k;
      }
      k := k + 1;
    }
    r := None;
  }

  /** In a readable image that address shows the file's program header table. */
  lemma TableShows(w: Words, root: nat, ram: seq<Byte>, segs: seq<Segment>, data: seq<Byte>, i: nat, phoff: nat, len: nat, a: nat)
    requires SegmentsOk(data, segs) && Readable(w, root, ram, segs, data)
    requires i < |segs| && HoldsTable(segs[i], phoff, len) && a == segs[i].vaddr + (phoff - segs[i].offset)
    ensures phoff + len <= |data| && Shows(w, root, ram, a, data[phoff..phoff + len])
  {
    var s := segs[i];
    assert SegmentOk(data, s);
    var bytes := data[phoff..phoff + len];
    forall o: nat | o < |bytes| ensures ReadVirtual(w, root, ram, a + o) == Some(bytes[o]) {
      var k := phoff - s.offset + o;
      assert s.vaddr + k == a + o && k < s.filesz;
      assert ReadVirtual(w, root, ram, s.vaddr + k) == Some(Expected(data, s, k));
    }
  }

  /** No byte of the segment lies in the reserved stack region. */
  ghost predicate OffStack(s: Segment) { s.vaddr + s.memsz <= 4096 * STACK_LOW_PAGE || s.vaddr >= 4096 * STACK_TOP_PAGE }

  /** Setting up the stack leaves the image readable. */
  lemma ImageStays(w: Words, w2: Words, root: nat, ram: seq<Byte>, ram2: seq<Byte>, free: set<nat>, segs: seq<Segment>, data: seq<Byte>, v: nat, n: nat)
    requires SegmentsOk(data, segs) && Readable(w, root, ram, segs, data) && Holds(segs, 4096 * v, 4096 * n) && v + n <= PAGES
    requires forall i :: 0 <= i < |segs| ==> OffStack(segs[i])
    requires forall q: nat :: v <= q < v + n ==> Walk(w, root, q).Some? && Walk(w, root, q).value.pfn !in free
    requires forall q: nat :: q < ALL_PAGES && !(STACK_LOW_PAGE <= q < STACK_TOP_PAGE) ==> Walk(w2, root, q) == Walk(w, root, q)
    requires |ram2| == |ram| && forall x: nat :: x < |ram| && x / 4096 !in free ==> ram2[x] == ram[x]
    ensures Readable(w2, root, ram2, segs, data)
  {
    forall i, o: nat | 0 <= i < |segs| && o < segs[i].memsz
      ensures ReadVirtual(w2, root, ram2, segs[i].vaddr + o) == Some(Expected(data, segs[i], o))
    {
      var a := segs[i].vaddr + o;
      assert OffStack(segs[i]) && ReadVirtual(w, root, ram, a) == Some(Expected(data, segs[i], o));
      SameRead(w, w2, root, ram, ram2, free, a, v, n);
    }
  }

  lemma SameRead(w: Words, w2: Words, root: nat, ram: seq<Byte>, ram2: seq<Byte>, free: set<nat>, a: nat, v: nat, n: nat)
    requires 4096 * v <= a < 4096 * (v + n) && v + n <= PAGES && !(4096 * STACK_LOW_PAGE <= a < 4096 * STACK_TOP_PAGE)
    requires forall q: nat :: v <= q < v + n ==> Walk(w, root, q).Some? && Walk(w, root, q).value.pfn !in free
    requires forall q: nat :: q < ALL_PAGES && !(STACK_LOW_PAGE <= q < STACK_TOP_PAGE) ==> Walk(w2, root, q) == Walk(w, root, q)
    requires |ram2| == |ram| && forall x: nat :: x < |ram| && x / 4096 !in free ==> ram2[x] == ram[x]
    ensures ReadVirtual(w2, root, ram2, a) == ReadVirtual(w, root, ram, a)
  {
    var q, r := a / 4096, a % 4096;
    assert v <= q < v + n && Walk(w2, root, q) == Walk(w, root, q);
    var x := 4096 * Walk(w, root, q).value.pfn + r;
    assert x / 4096 == Walk(w, root, q).value.pfn;
  }

  /** Image pages are backed by frames in use. */
  lemma ImageInUse(p: Proc, pt: PageTables, live: set<nat>, segs: seq<Segment>, v: nat, n: nat)
    requires p.Ok(pt, live) && v + n <= PAGES && Protected(pt.words, p.root, segs, v, n)
    ensures forall q: nat :: v <= q < v + n ==> Walk(pt.words, p.root, q).Some? && Walk(pt.words, p.root, q).value.pfn !in pt.pmm.Free()
  {
    forall q: nat | v <= q < v + n ensures Walk(pt.words, p.root, q).Some? && Walk(pt.words, p.root, q).value.pfn !in pt.pmm.Free() {
      assert ProtectedPage(pt.words, p.root, segs, q);
      assert UserPage(pt.words, p.root, q) && Backed(p.Mem(), live, q, FrameOf(pt.words, p.root, q));
    }
  }

  /** Every byte of an image without overlaps is readable, and comes from frames in use. */
  ghost predicate ImageReady(w: Words, root: nat, ram: seq<Byte>, free: set<nat>, segs: seq<Segment>, data: seq<Byte>, v: nat, n: nat) {
    && SegmentsOk(data, segs) && (Disjoint(segs) ==> Readable(w, root, ram, segs, data)) && Holds(segs, 4096 * v, 4096 * n) && v + n <= PAGES
    && forall q: nat :: v <= q < v + n ==> Walk(w, root, q).Some? && Walk(w, root, q).value.pfn !in free
  }

  method LoadReady(p: Proc, pt: PageTables, ram: Ram, segs: seq<Segment>, data: seq<Byte>, ghost live: set<nat>) returns (ok: bool, ghost v: nat, ghost n: nat)
    requires p.Ok(pt, live) && |ram.bytes| == RAM_BYTES && segs != [] && SegmentsOk(data, segs)
    modifies p`frames, p`role, p`maps, pt, pt.pmm.bits, ram
    ensures p.Ok(pt, live) && |ram.bytes| == RAM_BYTES
    ensures ok ==> ImageReady(pt.words, p.root, ram.bytes, pt.pmm.Free(), segs, data, v, n)
  {
    SpanHolds(segs);
    v, n := Lowest(segs) / 4096, (Highest(segs) - Lowest(segs)) / 4096;
    SpanPages(segs, v, n);
    ghost var f;
    ok, f := LoadSegments(p, pt, ram, segs, data, live);
    if ok {
      ImageInUse(p, pt, live, segs, v, n);
    }
  }

  /** The program's facts for the auxiliary vector. */
  function FactsOf(program: Program, base: nat, mapped: Option<nat>): S.Facts {
    S.Facts(program.entry, program.phentsize, program.phnum, base, mapped)
  }

  function TableLength(program: Program): nat { program.phentsize * program.phnum }

  /** Loads a program and builds its stack, as `spawn_linux` does. The process then reads
      every segment as the file says, its initial stack as the psABI says, and at AT_PHDR
      the file's program header table, whether a segment holds it or not. */
  method LoadProgram(p: Proc, pt: PageTables, ram: Ram, program: Program, data: seq<Byte>, base: nat, argv: seq<S.Text>, envp: seq<S.Text>, random: seq<Byte>, ghost live: set<nat>)
    returns (r: Option<nat>, ghost f: S.Facts)
    requires p.Ok(pt, live) && |ram.bytes| == RAM_BYTES && program.segments != []
    requires SegmentsOk(data, program.segments) && forall i :: 0 <= i < |program.segments| ==> OffStack(program.segments[i])
    requires program.phoff + TableLength(program) <= |data|
    modifies p`frames, p`role, p`maps, p`stackLow, p`stackBase, pt, pt.pmm.bits, ram
    ensures f == FactsOf(program, base, f.mapped)
    ensures r.Some? ==> p.Ok(pt, live) && (Disjoint(program.segments) ==> Readable(pt.words, p.root, ram.bytes, program.segments, data))
    ensures r.Some? ==> Started(pt.words, p.root, ram.bytes, f, argv, envp, data[program.phoff..program.phoff + TableLength(program)], random, r.value,
                                Disjoint(program.segments))
  {
    var segs, phoff, len := program.segments, program.phoff, TableLength(program);
    var mapped, i := FindTable(segs, phoff, len);
    var facts := FactsOf(program, base, mapped);
    f := facts;
    r := LoadBoth(p, pt, ram, facts, argv, envp, segs, data, phoff, len, random, live, i);
  }

  method LoadBoth(p: Proc, pt: PageTables, ram: Ram, f: S.Facts, argv: seq<S.Text>, envp: seq<S.Text>, segs: seq<Segment>, data: seq<Byte>, phoff: nat, len: nat,
                  random: seq<Byte>, ghost live: set<nat>, ghost i: nat)
    returns (r: Option<nat>)
    requires p.Ok(pt, live) && |ram.bytes| == RAM_BYTES && segs != [] && SegmentsOk(data, segs) && phoff + len <= |data|
    requires forall j :: 0 <= j < |segs| ==> OffStack(segs[j])
    requires f.mapped.Some? ==> i < |segs| && HoldsTable(segs[i], phoff, len) && f.mapped.value == segs[i].vaddr + (phoff - segs[i].offset)
    modifies p`frames, p`role, p`maps, p`stackLow, p`stackBase, pt, pt.pmm.bits, ram
    ensures r.Some? ==> p.Ok(pt, live) && (Disjoint(segs) ==> Readable(pt.words, p.root, ram.bytes, segs, data))
    ensures r.Some? ==> Started(pt.words, p.root, ram.bytes, f, argv, envp, data[phoff..phoff + len], random, r.value, Disjoint(segs))
  {
    r := None;
    var ok;
    ghost var v, n;
    ok, v, n := LoadReady(p, pt, ram, segs, data, live);
    if ok {
      r := StackBeside(p, pt, ram, f, argv, envp, segs, data, phoff, len, random, live, v, n, i);
    }
  }

  /** The stack is in place, and in a program whose segments do not overlap the program
      header table is readable where AT_PHDR says. */
  ghost predicate Started(w: Words, root: nat, ram: seq<Byte>, f: S.Facts, argv: seq<S.Text>, envp: seq<S.Text>, phdrs: seq<Byte>, random: seq<Byte>, rsp: nat,
                          apart: bool) {
    && S.FitsStack(argv, envp, S.Copied(f, phdrs), random)
    && (var l := S.LayoutFor(f, argv, envp, S.Copied(f, phdrs), random); rsp == l.rsp && Shows(w, root, ram, l.rsp, l.table + l.data))
    && (f.mapped.Some? && apart ==> Shows(w, root, ram, f.mapped.value, phdrs))
  }

  method StackBeside(p: Proc, pt: PageTables, ram: Ram, f: S.Facts, argv: seq<S.Text>, envp: seq<S.Text>, segs: seq<Segment>, data: seq<Byte>, phoff: nat, len: nat,
                     random: seq<Byte>, ghost live: set<nat>, ghost v: nat, ghost n: nat, ghost i: nat)
    returns (r: Option<nat>)
    requires p.Ok(pt, live) && |ram.bytes| == RAM_BYTES && ImageReady(pt.words, p.root, ram.bytes, pt.pmm.Free(), segs, data, v, n) && phoff + len <= |data|
    requires forall j :: 0 <= j < |segs| ==> OffStack(segs[j])
    requires f.mapped.Some? ==> i < |segs| && HoldsTable(segs[i], phoff, len) && f.mapped.value == segs[i].vaddr + (phoff - segs[i].offset)
    modifies p`frames, p`role, p`maps, p`stackLow, p`stackBase, pt, pt.pmm.bits, ram
    ensures r.Some? ==> p.Ok(pt, live) && (Disjoint(segs) ==> Readable(pt.words, p.root, ram.bytes, segs, data))
    ensures r.Some? ==> Started(pt.words, p.root, ram.bytes, f, argv, envp, data[phoff..phoff + len], random, r.value, Disjoint(segs))
  {
    ghost var w, free, bytes := pt.words, pt.pmm.Free(), ram.bytes;
    r := SetupLinuxStack(p, pt, ram, f, argv, envp, data[phoff..phoff + len], random, live);
    if r.Some? {
      if Disjoint(segs) {
        ImageStays(w, pt.words, p.root, bytes, ram.bytes, free, segs, data, v, n);
        if f.mapped.Some? {
          TableShows(pt.words, p.root, ram.bytes, segs, data, i, phoff, len, f.mapped.value);
        }
      }
    }
  }
}
