/** From the bytes of an ELF file to a program in memory (src/process.rs:632-793, 799-830),
    for files that name no interpreter. */
module Exec {
  import opened Wrappers
  import opened Bytes
  import opened Elf
  import opened Image
  import opened Pmm
  import opened PageTable
  import opened Paging
  import opened ProcessMemory
  import opened Process
  import opened Loader
  import opened LinuxStack
  import S = StackLayout

  const PIE_LOAD_BASE: nat := 0x2000_0000
  const MIN_SEGMENT_VADDR: nat := 0x20_0000
  const MIB: nat := 0x10_0000
  const ADDRESSES: nat := 0x1_0000_0000_0000_0000

  /** The `u64` sum. */
  function Shifted(a: nat): nat { (a + PIE_LOAD_BASE) % ADDRESSES }

  function Moved(segs: seq<Segment>): (r: seq<Segment>)
    ensures |r| == |segs| && forall i :: 0 <= i < |r| ==> r[i] == segs[i].(vaddr := Shifted(segs[i].vaddr))
  {
    seq(|segs|, i requires 0 <= i < |segs| => segs[i].(vaddr := Shifted(segs[i].vaddr)))
  }

  /** What the file describes, at the addresses it is to have. */
  function ProgramOf(data: seq<Byte>): Program
    requires HeaderOk(data)
  {
    var phoff, phnum, pie := Num(data, 32, 8), Num(data, 56, 2), Num(data, 16, 2) == 3;
    var segs, entry := Loads(data, phoff, phnum), Num(data, 24, 8);
    Program(if pie then Shifted(entry) else entry, if pie then Moved(segs) else segs, pie, phoff, ENTRY_SIZE, phnum, InterpOf(data, phoff, phnum))
  }

  /** `apply_pie_bias`. */
  method ApplyBias(program: Program) returns (r: Program)
    ensures r == if program.isPie then program.(entry := Shifted(program.entry), segments := Moved(program.segments)) else program
  {
    r := program;
    if program.isPie {
      var segs, i := program.segments, 0;
      while i < |segs|
        invariant 0 <= i <= |segs| == |program.segments|
        invariant forall j :: 0 <= j < |segs| ==> segs[j] == if j < i then Moved(program.segments)[j] else program.segments[j]
      {
        segs := segs[i := segs[i].(vaddr := Shifted(segs[i].vaddr))];
        i := i + 1;
      }
      r := program.(entry := Shifted(program.entry), segments := segs);
    }
  }

  // ---- which segments are let in ---------------------------------------------------------------

  /** `heap_start.saturating_sub(1 MiB)`. */
  function Margin(heapStart: nat): nat { if heapStart < MIB then 0 else heapStart - MIB }

  /** A segment clear of the low 2 MiB, the kernel heap with its margin, everything from 4 GiB
      on, and the pages reserved for stack and exit stub. */
  predicate SegmentValid(s: Segment, heapStart: nat, heapEnd: nat) {
    var end := s.vaddr + s.memsz;
    && end < ADDRESSES && s.vaddr < end <= IDENTITY_MAP_END && s.vaddr >= MIN_SEGMENT_VADDR
    && (s.vaddr >= heapEnd + MIB || end <= Margin(heapStart))
    && (s.vaddr >= 4096 * (STACK_TOP_PAGE + 1) || end <= 4096 * STACK_LOW_PAGE)
  }

  ghost predicate SegmentsValid(segs: seq<Segment>, heapStart: nat, heapEnd: nat) {
    forall i :: 0 <= i < |segs| ==> SegmentValid(segs[i], heapStart, heapEnd)
  }

  /** `validate_segments`. */
  method ValidateSegments(segs: seq<Segment>, heapStart: nat, heapEnd: nat) returns (ok: bool)
    ensures ok <==> SegmentsValid(segs, heapStart, heapEnd)
  {
    var i := 0;
    while i < |segs|
      invariant 0 <= i <= |segs| && forall j :: 0 <= j < i ==> SegmentValid(segs[j], heapStart, heapEnd)
    {
      var start, end := segs[i].vaddr, segs[i].vaddr + segs[i].memsz;
      if end >= ADDRESSES || end <= start || start < MIN_SEGMENT_VADDR
         || (start < heapEnd + MIB && end > Margin(heapStart))
         || end > IDENTITY_MAP_END
         || (start < 4096 * (STACK_TOP_PAGE + 1) && end > 4096 * STACK_LOW_PAGE) {
        assert !SegmentValid(segs[i], heapStart, heapEnd);
        return false;
      }
      i := i + 1;
    }
    ok := true;
  }

  /** Rounding to pages does not cross a page boundary `limit`. */
  lemma WithinLimit(a: nat, limit: nat)
    requires limit % PAGE == 0
    ensures (a <= limit <==> AlignUp(a, PAGE) <= limit) && (limit <= a <==> limit <= AlignDown(a))
  {
    AlignIs(a);
    var m := limit / PAGE;
    assert limit == PAGE * m && AlignUp(a, PAGE) == (a + 4095) / 4096 * 4096;
  }

  /** The image ends at or below a page boundary exactly when every segment does. */
  lemma {:induction false} SpanBelow(segs: seq<Segment>, limit: nat)
    requires segs != [] && limit % PAGE == 0
    ensures Highest(segs) <= limit <==> forall i :: 0 <= i < |segs| ==> segs[i].vaddr + segs[i].memsz <= limit
    decreases |segs|
  {
    var k := |segs| - 1;
    WithinLimit(segs[k].vaddr + segs[k].memsz, limit);
    if k > 0 {
      SpanBelow(segs[..k], limit);
      assert forall i :: 0 <= i < k ==> segs[..k][i] == segs[i];
    }
  }

  lemma {:induction false} SpanAbove(segs: seq<Segment>, limit: nat)
    requires segs != [] && limit % PAGE == 0
    ensures limit <= Lowest(segs) <==> forall i :: 0 <= i < |segs| ==> limit <= segs[i].vaddr
    decreases |segs|
  {
    var k := |segs| - 1;
    WithinLimit(segs[k].vaddr, limit);
    if k > 0 {
      SpanAbove(segs[..k], limit);
      assert forall i :: 0 <= i < k ==> segs[..k][i] == segs[i];
    }
  }

  /** The image of valid segments starts above the low 2 MiB and ends within 4 GiB. It is one
      block over all of them, and stays clear of the reserved stack pages exactly when all
      segments lie on the same side. */
  lemma ImageSpan(segs: seq<Segment>, heapStart: nat, heapEnd: nat)
    requires segs != [] && SegmentsValid(segs, heapStart, heapEnd)
    ensures MIN_SEGMENT_VADDR <= Lowest(segs) && Highest(segs) <= IDENTITY_MAP_END
    ensures Highest(segs) <= 4096 * STACK_LOW_PAGE || Lowest(segs) >= 4096 * (STACK_TOP_PAGE + 1)
            <==> forall i, j :: 0 <= i < |segs| && 0 <= j < |segs| ==> (BelowStack(segs[i]) <==> BelowStack(segs[j]))
  {
    SpanAbove(segs, MIN_SEGMENT_VADDR);
    SpanBelow(segs, IDENTITY_MAP_END);
    SpanBelow(segs, 4096 * STACK_LOW_PAGE);
    SpanAbove(segs, 4096 * (STACK_TOP_PAGE + 1));
    assert forall i :: 0 <= i < |segs| ==> SegmentValid(segs[i], heapStart, heapEnd);
  }

  predicate BelowStack(s: Segment) { s.vaddr + s.memsz <= 4096 * STACK_LOW_PAGE }

  /** Two valid segments, one on each side: their image covers the stack. */
  lemma SpanCrosses()
    ensures var segs := [Segment(0xF00_0000, 0, 0, 4096, false, true), Segment(0x1000_1000, 0, 0, 4096, true, false)];
            SegmentsValid(segs, 0x400_0000, 0x680_0000) && Lowest(segs) < 4096 * STACK_LOW_PAGE && Highest(segs) > 4096 * STACK_TOP_PAGE
  {
    var segs := [Segment(0xF00_0000, 0, 0, 4096, false, true), Segment(0x1000_1000, 0, 0, 4096, true, false)];
    SpanCovers(segs, 0);
    SpanCovers(segs, 1);
    AlignIs(segs[0].vaddr);
    AlignIs(segs[1].vaddr + segs[1].memsz);
  }

  // ---- the whole way ----------------------------------------------------------------------------

  datatype ExecError = BadElf(e: ElfError) | BadSegments | NeedsInterpreter | NotLoaded

  /** The file is one `parse` accepts. */
  ghost predicate Accepted(data: seq<Byte>, utf8: seq<Byte> -> bool) {
    HeaderOk(data) && EntriesOk(data, Num(data, 32, 8), Num(data, 56, 2), utf8) && Loads(data, Num(data, 32, 8), Num(data, 56, 2)) != []
  }

  /** What the parsed file gives the loader. */
  lemma AcceptedProgram(data: seq<Byte>, utf8: seq<Byte> -> bool)
    requires Accepted(data, utf8)
    ensures var program := ProgramOf(data);
            && program.segments != [] && SegmentsOk(data, program.segments) && program.phoff + TableLength(program) <= |data|
  {
    LoadsOk(data, Num(data, 32, 8), Num(data, 56, 2), utf8);
  }

  /** An accepted program is in memory: every byte of its segments, if they do not overlap,
      and its initial stack. */
  ghost predicate InMemory(w: Words, root: nat, ram: seq<Byte>, data: seq<Byte>, program: Program, f: S.Facts, argv: seq<S.Text>, envp: seq<S.Text>, random: seq<Byte>, rsp: nat)
    requires SegmentsOk(data, program.segments) && program.phoff + TableLength(program) <= |data|
  {
    && f == FactsOf(program, 0, f.mapped)
    && (Disjoint(program.segments) ==> Readable(w, root, ram, program.segments, data))
    && Started(w, root, ram, f, argv, envp, data[program.phoff..program.phoff + TableLength(program)], random, rsp, Disjoint(program.segments))
  }

  /** `spawn_linux` from the bytes of the file to the stack pointer, in an address space that
      was built: it succeeds only for an accepted file with valid segments, and then the
      process reads that file's segments, moved by the load base if the file asks for it,
      with its stack beside them. */
  method Exec(p: Proc, pt: PageTables, ram: Ram, data: seq<Byte>, utf8: seq<Byte> -> bool, heapStart: nat, heapEnd: nat,
              argv: seq<S.Text>, envp: seq<S.Text>, random: seq<Byte>, ghost live: set<nat>)
    returns (r: Result<nat, ExecError>, ghost f: S.Facts)
    requires p.Ok(pt, live) && |ram.bytes| == RAM_BYTES
    modifies p`frames, p`role, p`maps, p`stackLow, p`stackBase, pt, pt.pmm.bits, ram
    ensures r.Err? && r.error.BadElf? <==> !Accepted(data, utf8)
    ensures Accepted(data, utf8) ==>
              && (r == Err(BadSegments) <==> !SegmentsValid(ProgramOf(data).segments, heapStart, heapEnd))
              && (SegmentsValid(ProgramOf(data).segments, heapStart, heapEnd) ==> (r == Err(NeedsInterpreter) <==> ProgramOf(data).interp.Some?))
    ensures r.Err? && r.error != NotLoaded ==> pt.words == old(pt.words) && ram.bytes == old(ram.bytes) && p.Mem() == old(p.Mem())
    ensures r.Ok? ==> Accepted(data, utf8) && p.Ok(pt, live)
    ensures r.Ok? ==> SegmentsOk(data, ProgramOf(data).segments) && ProgramOf(data).phoff + TableLength(ProgramOf(data)) <= |data|
                      && InMemory(pt.words, p.root, ram.bytes, data, ProgramOf(data), f, argv, envp, random, r.value)
  {
    f := S.Facts(0, 0, 0, 0, None);
    var parsed := Parse(data, utf8);
    if parsed.Err? {
      return Err(BadElf(parsed.error)), f;
    }
    var program := ApplyBias(parsed.value);
    assert program == ProgramOf(data);
    var valid := ValidateSegments(program.segments, heapStart, heapEnd);
    if !valid {
      return Err(BadSegments), f;
    }
    if program.interp.Some? {
      return Err(NeedsInterpreter), f;
    }
    AcceptedProgram(data, utf8);
    r, f := LoadAccepted(p, pt, ram, data, program, heapStart, heapEnd, argv, envp, random, live);
  }

  method LoadAccepted(p: Proc, pt: PageTables, ram: Ram, data: seq<Byte>, program: Program, ghost heapStart: nat, ghost heapEnd: nat,
                      argv: seq<S.Text>, envp: seq<S.Text>, random: seq<Byte>, ghost live: set<nat>)
    returns (r: Result<nat, ExecError>, ghost f: S.Facts)
    requires p.Ok(pt, live) && |ram.bytes| == RAM_BYTES && SegmentsValid(program.segments, heapStart, heapEnd)
    requires program.segments != [] && SegmentsOk(data, program.segments) && program.phoff + TableLength(program) <= |data|
    modifies p`frames, p`role, p`maps, p`stackLow, p`stackBase, pt, pt.pmm.bits, ram
    ensures r.Err? ==> r.error == NotLoaded
    ensures r.Ok? ==> p.Ok(pt, live) && InMemory(pt.words, p.root, ram.bytes, data, program, f, argv, envp, random, r.value)
  {
    forall i | 0 <= i < |program.segments| ensures OffStack(program.segments[i]) {
      assert SegmentValid(program.segments[i], heapStart, heapEnd);
    }
    var rsp;
    rsp, f := LoadProgram(p, pt, ram, program, data, 0, argv, envp, random, live);
    r := if rsp.Some? then Ok(rsp.value) else Err(NotLoaded);
  }
}
