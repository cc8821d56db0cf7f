/** ELF64 parsing (src/elf.rs:23-186). Whether bytes are valid UTF-8 is a parameter;
    an interpreter path is kept as its bytes. */
module Elf {
  import opened Wrappers
  import opened Bytes

  datatype ElfError = TruncatedHeader | NotElf | WrongClass | WrongData | NotExecutable | WrongMachine | WrongEntrySize
                    | TableOverflow | TableOutside | InterpOverflow | InterpOutside | InterpInvalid
                    | SegmentOverflow | SegmentOutside | FileExceedsMemory | NoSegments

  /** One loadable segment. */
  datatype Segment = Segment(vaddr: nat, offset: nat, filesz: nat, memsz: nat, writable: bool, executable: bool)

  datatype Program = Program(entry: nat, segments: seq<Segment>, isPie: bool, phoff: nat, phentsize: nat, phnum: nat, interp: Option<seq<Byte>>)

  const HEADER_SIZE: nat := 64
  const ENTRY_SIZE: nat := 56
  const PT_LOAD: nat := 1
  const PT_INTERP: nat := 3

  /** The `n`-byte number at `off`. */
  function Num(data: seq<Byte>, off: nat, n: nat): nat
    requires off + n <= |data|
  {
    FromLe(data[off..off + n])
  }

  /** Magic, class, byte order, type, machine, entry size, and the table inside the file. */
  predicate HeaderOk(data: seq<Byte>) {
    && |data| >= HEADER_SIZE && data[0] == 0x7F && data[1] == 0x45 && data[2] == 0x4C && data[3] == 0x46
    && data[4] == 2 && data[5] == 1 && (Num(data, 16, 2) == 2 || Num(data, 16, 2) == 3) && Num(data, 18, 2) == 0x3E
    && Num(data, 54, 2) == ENTRY_SIZE && Num(data, 32, 8) + Num(data, 56, 2) * ENTRY_SIZE <= |data|
  }

  /** Offset of program header `i`. */
  function EntryAt(phoff: nat, i: nat): nat { phoff + i * ENTRY_SIZE }

  /** The loadable segment of the program header at `off`. */
  function SegmentAt(data: seq<Byte>, off: nat): Segment
    requires off + ENTRY_SIZE <= |data|
  {
    var flags := Num(data, off + 4, 4);
    Segment(Num(data, off + 16, 8), Num(data, off + 8, 8), Num(data, off + 32, 8), Num(data, off + 40, 8), flags / 2 % 2 == 1, flags % 2 == 1)
  }

  predicate IsLoad(data: seq<Byte>, off: nat)
    requires off + ENTRY_SIZE <= |data|
  {
    Num(data, off, 4) == PT_LOAD && Num(data, off + 40, 8) != 0
  }

  predicate IsInterp(data: seq<Byte>, off: nat)
    requires off + ENTRY_SIZE <= |data|
  {
    Num(data, off, 4) == PT_INTERP
  }

  /** A segment whose file bytes exist and fit its memory. */
  predicate SegmentOk(data: seq<Byte>, s: Segment) {
    s.memsz > 0 && s.offset + s.filesz <= |data| && s.filesz <= s.memsz
  }

  /** The program header at `off` is acceptable. */
  predicate EntryOk(data: seq<Byte>, off: nat, utf8: seq<Byte> -> bool)
    requires off + ENTRY_SIZE <= |data|
  {
    && (IsLoad(data, off) ==> SegmentOk(data, SegmentAt(data, off)))
    && (IsInterp(data, off) ==> var from, n := Num(data, off + 8, 8), Num(data, off + 32, 8);
                                from + n <= |data| && utf8(data[from..from + n]))
  }

  /** The loadable segments among the first `n` program headers, in order. */
  function Loads(data: seq<Byte>, phoff: nat, n: nat): seq<Segment>
    requires phoff + n * ENTRY_SIZE <= |data|
  {
    if n == 0 then []
    else
      var off := EntryAt(phoff, n - 1);
      Loads(data, phoff, n - 1) + (if IsLoad(data, off) then [SegmentAt(data, off)] else [])
  }

  function TrimNul(s: seq<Byte>): seq<Byte> {
    if s == [] || s[|s| - 1] != 0 then s else TrimNul(s[..|s| - 1])
  }

  /** The interpreter path of the last such header. */
  function InterpOf(data: seq<Byte>, phoff: nat, n: nat): Option<seq<Byte>>
    requires phoff + n * ENTRY_SIZE <= |data|
  {
    if n == 0 then None
    else
      var off := EntryAt(phoff, n - 1);
      if IsInterp(data, off) && Num(data, off + 8, 8) + Num(data, off + 32, 8) <= |data|
      then Some(TrimNul(data[Num(data, off + 8, 8)..Num(data, off + 8, 8) + Num(data, off + 32, 8)]))
      else InterpOf(data, phoff, n - 1)
  }

  ghost predicate EntriesOk(data: seq<Byte>, phoff: nat, n: nat, utf8: seq<Byte> -> bool)
    requires phoff + n * ENTRY_SIZE <= |data|
  {
    forall i: nat :: i < n ==> EntryOk(data, EntryAt(phoff, i), utf8)
  }

  /** Every loaded segment has its bytes in the file and fits its memory. */
  lemma {:induction false} LoadsOk(data: seq<Byte>, phoff: nat, n: nat, utf8: seq<Byte> -> bool)
    requires phoff + n * ENTRY_SIZE <= |data| && EntriesOk(data, phoff, n, utf8)
    ensures forall i :: 0 <= i < |Loads(data, phoff, n)| ==> SegmentOk(data, Loads(data, phoff, n)[i])
  {
    if n > 0 {
      LoadsOk(data, phoff, n - 1, utf8);
      assert EntryOk(data, EntryAt(phoff, n - 1), utf8);
    }
  }

  /** The checks before the table is walked. */
  method CheckHeader(data: seq<Byte>) returns (r: Result<(), ElfError>)
    ensures r.Ok? <==> HeaderOk(data)
  {
    if |data| < HEADER_SIZE {
      return Err(TruncatedHeader);
    }
    if data[0..4] != [0x7F, 0x45, 0x4C, 0x46] {
      return Err(NotElf);
    }
    if data[4] != 2 {
      return Err(WrongClass);
    }
    if data[5] != 1 {
      return Err(WrongData);
    }
    var kind := Num(data, 16, 2);
    if kind != 2 && kind != 3 {
      return Err(NotExecutable);
    }
    if Num(data, 18, 2) != 0x3E {
      return Err(WrongMachine);
    }
    if Num(data, 54, 2) != ENTRY_SIZE {
      return Err(WrongEntrySize);
    }
    var end := Num(data, 32, 8) + Num(data, 56, 2) * ENTRY_SIZE;
    if end > |data| {
      return Err(if end >= WORD_LIMIT then TableOverflow else TableOutside);
    }
    r := Ok(());
  }

  /** One program header: its segment or interpreter path, if it has one. */
  method ReadEntry(data: seq<Byte>, off: nat, utf8: seq<Byte> -> bool) returns (r: Result<(Option<Segment>, Option<seq<Byte>>), ElfError>)
    requires off + ENTRY_SIZE <= |data|
    ensures r.Ok? <==> EntryOk(data, off, utf8)
    ensures r.Ok? ==> r.value.0 == if IsLoad(data, off) then Some(SegmentAt(data, off)) else None
    ensures r.Ok? ==> (r.value.1.Some? <==> IsInterp(data, off))
    ensures r.Ok? && IsInterp(data, off) ==> r.value.1.value == TrimNul(data[Num(data, off + 8, 8)..Num(data, off + 8, 8) + Num(data, off + 32, 8)])
  {
    var kind := Num(data, off, 4);
    if kind == PT_INTERP {
      var from, n := Num(data, off + 8, 8), Num(data, off + 32, 8);
      if from + n > |data| {
        return Err(if from + n >= WORD_LIMIT then InterpOverflow else InterpOutside);
      }
      if !utf8(data[from..from + n]) {
        return Err(InterpInvalid);
      }
      return Ok((None, Some(TrimNul(data[from..from + n]))));
    }
    if kind != PT_LOAD || Num(data, off + 40, 8) == 0 {
      return Ok((None, None));
    }
    var s := SegmentAt(data, off);
    if s.offset + s.filesz > |data| {
      return Err(if s.offset + s.filesz >= WORD_LIMIT then SegmentOverflow else SegmentOutside);
    }
    if s.filesz > s.memsz {
      return Err(FileExceedsMemory);
    }
    r := Ok((Some(s), None));
  }

  /** Accepts exactly the files with a good header, good program headers and something
      to load, and returns exactly their loadable segments. */
  method Parse(data: seq<Byte>, utf8: seq<Byte> -> bool) returns (r: Result<Program, ElfError>)
    ensures r.Ok? <==> HeaderOk(data) && EntriesOk(data, Num(data, 32, 8), Num(data, 56, 2), utf8) && Loads(data, Num(data, 32, 8), Num(data, 56, 2)) != []
    ensures r.Ok? ==> var phoff, phnum := Num(data, 32, 8), Num(data, 56, 2);
                      r.value == Program(Num(data, 24, 8), Loads(data, phoff, phnum), Num(data, 16, 2) == 3, phoff, ENTRY_SIZE, phnum,
                                         InterpOf(data, phoff, phnum))
    ensures r.Ok? ==> forall i :: 0 <= i < |r.value.segments| ==> SegmentOk(data, r.value.segments[i])
  {
    var header := CheckHeader(data);
    if header.Err? {
      return Err(header.error);
    }
    var phoff, phnum := Num(data, 32, 8), Num(data, 56, 2);
    var walked := WalkTable(data, phoff, phnum, utf8);
    if walked.Err? {
      return Err(walked.error);
    }
    LoadsOk(data, phoff, phnum, utf8);
    if walked.value.0 == [] {
      return Err(NoSegments);
    }
    r := Ok(Program(Num(data, 24, 8), walked.value.0, Num(data, 16, 2) == 3, phoff, Num(data, 54, 2), phnum, walked.value.1));
  }

  lemma {:induction false} WalkStep(data: seq<Byte>, phoff: nat, i: nat, i2: nat, off: nat, utf8: seq<Byte> -> bool)
    requires i2 == i + 1 && phoff + i2 * ENTRY_SIZE <= |data| && off == EntryAt(phoff, i)
    requires EntriesOk(data, phoff, i, utf8) && EntryOk(data, off, utf8)
    ensures EntriesOk(data, phoff, i2, utf8)
  {
  }

  lemma {:induction false} LoadsStep(data: seq<Byte>, phoff: nat, i: nat, i2: nat, off: nat)
    requires i2 == i + 1 && phoff + i2 * ENTRY_SIZE <= |data| && off == EntryAt(phoff, i)
    ensures Loads(data, phoff, i2) == Loads(data, phoff, i) + (if IsLoad(data, off) then [SegmentAt(data, off)] else [])
  {
  }

  lemma {:induction false} InterpStep(data: seq<Byte>, phoff: nat, i: nat, i2: nat, off: nat, utf8: seq<Byte> -> bool)
    requires i2 == i + 1 && phoff + i2 * ENTRY_SIZE <= |data| && off == EntryAt(phoff, i) && EntryOk(data, off, utf8)
    ensures InterpOf(data, phoff, i2)
            == if IsInterp(data, off) then Some(TrimNul(data[Num(data, off + 8, 8)..Num(data, off + 8, 8) + Num(data, off + 32, 8)]))
               else InterpOf(data, phoff, i)
  {
  }

  /** The loop over the program headers. */
  method WalkTable(data: seq<Byte>, phoff: nat, phnum: nat, utf8: seq<Byte> -> bool) returns (r: Result<(seq<Segment>, Option<seq<Byte>>), ElfError>)
    requires phoff + phnum * ENTRY_SIZE <= |data|
    ensures r.Ok? <==> EntriesOk(data, phoff, phnum, utf8)
    ensures r.Ok? ==> r.value == (Loads(data, phoff, phnum), InterpOf(data, phoff, phnum))
  {
    var segments: seq<Segment>, interp: Option<seq<Byte>> := [], None;
    var i: nat := 0;
    while i < phnum
      invariant i <= phnum && EntriesOk(data, phoff, i, utf8)
      invariant segments == Loads(data, phoff, i) && interp == InterpOf(data, phoff, i)
    {
      var off := EntryAt(phoff, i);
      assert off + ENTRY_SIZE <= |data|;
      var entry := ReadEntry(data, off, utf8);
      if entry.Err? {
        assert !EntryOk(data, EntryAt(phoff, i), utf8);
        return Err(entry.error);
      }
      WalkStep(data, phoff, i, i + 1, off, utf8);
      LoadsStep(data, phoff, i, i + 1, off);
      InterpStep(data, phoff, i, i + 1, off, utf8);
      if entry.value.0.Some? {
        segments := segments + [entry.value.0.value];
      }
      if entry.value.1.Some? {
        interp := entry.value.1;
      }
      i := i + 1;
    }
    r := Ok((segments, interp));
  }
}
