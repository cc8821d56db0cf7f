/** The bytes and page permissions of a loaded program (src/process.rs:796-830, 917-991):
    segments copied into one zeroed block, read back through the page table. */
module Image {
  import opened Wrappers
  import opened Bytes
  import opened Elf

  const PAGE: nat := 4096

  function AlignDown(a: nat): nat { a / PAGE * PAGE }

  /** The block with `bytes` written at `at`. */
  function Write(block: seq<Byte>, at: nat, bytes: seq<Byte>): (r: seq<Byte>)
    requires at + |bytes| <= |block|
    ensures |r| == |block|
    ensures forall i: nat :: i < |block| ==> r[i] == if at <= i < at + |bytes| then bytes[i - at] else block[i]
  {
    block[..at] + bytes + block[at + |bytes|..]
  }

  ghost predicate SegmentsOk(data: seq<Byte>, segs: seq<Segment>) {
    forall i :: 0 <= i < |segs| ==> SegmentOk(data, segs[i])
  }

  /** The block [start, start + n) holds every segment. */
  ghost predicate Holds(segs: seq<Segment>, start: nat, n: nat) {
    forall i :: 0 <= i < |segs| ==> start <= segs[i].vaddr && segs[i].vaddr + segs[i].memsz <= start + n
  }

  /** No two segments share an address. */
  ghost predicate Disjoint(segs: seq<Segment>) {
    forall i, j :: 0 <= i < |segs| && 0 <= j < |segs| && i != j ==>
      segs[i].vaddr + segs[i].memsz <= segs[j].vaddr || segs[j].vaddr + segs[j].memsz <= segs[i].vaddr
  }

  /** The block after the file bytes of all segments were copied into zeros, in order. */
  ghost function Loaded(data: seq<Byte>, segs: seq<Segment>, start: nat, n: nat): (r: seq<Byte>)
    requires SegmentsOk(data, segs) && Holds(segs, start, n)
    ensures |r| == n
    decreases |segs|
  {
    if segs == [] then seq(n, _ => 0)
    else
      var k := |segs| - 1;
      Write(Loaded(data, segs[..k], start, n), segs[k].vaddr - start, data[segs[k].offset..segs[k].offset + segs[k].filesz])
  }

  /** What the ELF specification says is at offset `o` of a segment. */
  function Expected(data: seq<Byte>, s: Segment, o: nat): Byte
    requires SegmentOk(data, s) && o < s.memsz
  {
    if o < s.filesz then data[s.offset + o] else 0
  }

  /** The segment has a file byte for address `a`. */
  ghost predicate Covers(s: Segment, a: nat) { s.vaddr <= a < s.vaddr + s.filesz }

  ghost predicate Uncovered(segs: seq<Segment>, a: nat) { forall i :: 0 <= i < |segs| ==> !Covers(segs[i], a) }

  /** The last segment's file bytes lie over what was loaded before. */
  lemma LoadedLast(data: seq<Byte>, segs: seq<Segment>, k: nat, start: nat, n: nat, a: nat)
    requires |segs| == k + 1 && SegmentsOk(data, segs) && Holds(segs, start, n) && start <= a < start + n
    ensures Loaded(data, segs, start, n)[a - start]
            == if Covers(segs[k], a) then data[segs[k].offset + (a - segs[k].vaddr)] else Loaded(data, segs[..k], start, n)[a - start]
  {
    assert SegmentOk(data, segs[k]);
  }

  /** Addresses no segment has file bytes for stay zero. */
  lemma {:induction false} UncoveredZero(data: seq<Byte>, segs: seq<Segment>, start: nat, n: nat, a: nat)
    requires SegmentsOk(data, segs) && Holds(segs, start, n) && start <= a < start + n && Uncovered(segs, a)
    ensures Loaded(data, segs, start, n)[a - start] == 0
    decreases |segs|
  {
    if segs != [] {
      var k := |segs| - 1;
      UncoveredZero(data, segs[..k], start, n, a);
      assert !Covers(segs[k], a);
    }
  }

  /** No other segment covers an address of segment `i`. */
  lemma OnlyOwn(data: seq<Byte>, segs: seq<Segment>, i: nat, j: nat, a: nat)
    requires SegmentsOk(data, segs) && Disjoint(segs) && i < |segs| && j < |segs| && i != j
    requires segs[i].vaddr <= a < segs[i].vaddr + segs[i].memsz
    ensures !Covers(segs[j], a)
  {
    assert SegmentOk(data, segs[j]);
  }

  lemma FrontOk(data: seq<Byte>, segs: seq<Segment>, k: nat, start: nat, n: nat)
    requires SegmentsOk(data, segs) && Holds(segs, start, n) && Disjoint(segs) && k <= |segs|
    ensures SegmentsOk(data, segs[..k]) && Holds(segs[..k], start, n) && Disjoint(segs[..k])
  {
  }

  /** Before segment `k` is copied its memory is zero. */
  lemma ZeroBefore(data: seq<Byte>, segs: seq<Segment>, k: nat, start: nat, n: nat, a: nat)
    requires SegmentsOk(data, segs) && Holds(segs, start, n) && Disjoint(segs) && k < |segs|
    requires segs[k].vaddr <= a < segs[k].vaddr + segs[k].memsz
    ensures start <= a < start + n && Loaded(data, segs[..k], start, n)[a - start] == 0
  {
    var front := segs[..k];
    forall j | 0 <= j < |front| ensures !Covers(front[j], a) {
      OnlyOwn(data, segs, k, j, a);
    }
    UncoveredZero(data, front, start, n, a);
  }

  lemma LastBytes(data: seq<Byte>, segs: seq<Segment>, k: nat, start: nat, n: nat, o: nat, a: nat)
    requires SegmentsOk(data, segs) && Holds(segs, start, n) && Disjoint(segs) && |segs| == k + 1 && o < segs[k].memsz && a == segs[k].vaddr + o
    ensures start <= a < start + n && Loaded(data, segs, start, n)[a - start] == Expected(data, segs[k], o)
  {
    LoadedLast(data, segs, k, start, n, a);
    ZeroBefore(data, segs, k, start, n, a);
  }

  /** Every byte of every segment is its file byte, or zero beyond the file part. */
  lemma {:induction false} SegmentBytes(data: seq<Byte>, segs: seq<Segment>, start: nat, n: nat, i: nat, o: nat, a: nat)
    requires SegmentsOk(data, segs) && Holds(segs, start, n) && Disjoint(segs) && i < |segs| && o < segs[i].memsz && a == segs[i].vaddr + o
    ensures start <= a < start + n && Loaded(data, segs, start, n)[a - start] == Expected(data, segs[i], o)
    decreases |segs|
  {
    var k := |segs| - 1;
    if i < k {
      FrontOk(data, segs, k, start, n);
      SegmentBytes(data, segs[..k], start, n, i, o, a);
      OnlyOwn(data, segs, i, k, a);
      LoadedLast(data, segs, k, start, n, a);
    } else {
      LastBytes(data, segs, k, start, n, o, a);
    }
  }

  // ---- page permissions ---------------------------------------------------------------------

  /** The segment touches the page that starts at `page`. */
  predicate Touches(s: Segment, page: nat) { s.vaddr < page + PAGE && s.vaddr + s.memsz > page }

  ghost predicate SomeWritable(segs: seq<Segment>, page: nat) { exists i :: 0 <= i < |segs| && segs[i].writable && Touches(segs[i], page) }

  ghost predicate SomeExecutable(segs: seq<Segment>, page: nat) { exists i :: 0 <= i < |segs| && segs[i].executable && Touches(segs[i], page) }

  /** `segments.iter().any(..)` for both flags. */
  method PageFlags(segs: seq<Segment>, page: nat) returns (writable: bool, executable: bool)
    ensures writable <==> SomeWritable(segs, page)
    ensures executable <==> SomeExecutable(segs, page)
  {
    writable, executable := false, false;
    var i := 0;
    while i < |segs|
      invariant 0 <= i <= |segs|
      invariant writable <==> exists j :: 0 <= j < i && segs[j].writable && Touches(segs[j], page)
      invariant executable <==> exists j :: 0 <= j < i && segs[j].executable && Touches(segs[j], page)
    {
      if segs[i].writable && Touches(segs[i], page) {
        writable := true;
      }
      if segs[i].executable && Touches(segs[i], page) {
        executable := true;
      }
      i := i + 1;
    }
  }

  /** The lowest page start and the highest page end of the segments. */
  function Lowest(segs: seq<Segment>): nat
    requires segs != []
  {
    var k := |segs| - 1;
    var lo := AlignDown(segs[k].vaddr);
    if k == 0 || lo < Lowest(segs[..k]) then lo else Lowest(segs[..k])
  }

  function Highest(segs: seq<Segment>): nat
    requires segs != []
  {
    var k := |segs| - 1;
    var hi := AlignUp(segs[k].vaddr + segs[k].memsz, PAGE);
    if k == 0 || hi > Highest(segs[..k]) then hi else Highest(segs[..k])
  }

  method Overall(segs: seq<Segment>) returns (start: nat, end: nat)
    requires segs != []
    ensures start == Lowest(segs) && end == Highest(segs)
  {
    start, end := AlignDown(segs[0].vaddr), AlignUp(segs[0].vaddr + segs[0].memsz, PAGE);
    var i: nat := 1;
    assert segs[..1] == [segs[0]];
    while i < |segs|
      invariant 1 <= i <= |segs| && start == Lowest(segs[..i]) && end == Highest(segs[..i])
    {
      var lo, hi := AlignDown(segs[i].vaddr), AlignUp(segs[i].vaddr + segs[i].memsz, PAGE);
      assert segs[..i + 1][..i] == segs[..i];
      start, end := if lo < start then lo else start, if hi > end then hi else end;
      i := i + 1;
    }
    assert segs[..|segs|] == segs;
  }

  lemma AlignIs(a: nat)
    ensures AlignDown(a) <= a <= AlignUp(a, PAGE) && AlignDown(a) % PAGE == 0 && AlignUp(a, PAGE) % PAGE == 0
  {
    assert AlignUp(a, PAGE) == (a + 4095) / 4096 * 4096;
  }

  lemma {:induction false} SpanAligned(segs: seq<Segment>)
    requires segs != []
    ensures Lowest(segs) % PAGE == 0 && Highest(segs) % PAGE == 0
  {
    var k := |segs| - 1;
    AlignIs(segs[k].vaddr);
    AlignIs(segs[k].vaddr + segs[k].memsz);
    if k > 0 {
      SpanAligned(segs[..k]);
    }
  }

  lemma {:induction false} SpanCovers(segs: seq<Segment>, i: nat)
    requires i < |segs|
    ensures Lowest(segs) <= AlignDown(segs[i].vaddr) && AlignUp(segs[i].vaddr + segs[i].memsz, PAGE) <= Highest(segs)
    decreases |segs|
  {
    var k := |segs| - 1;
    if i < k {
      SpanCovers(segs[..k], i);
    }
  }

  /** The block between them is whole pages and holds every segment. */
  lemma SpanHolds(segs: seq<Segment>)
    requires segs != []
    ensures Lowest(segs) % PAGE == 0 && Highest(segs) % PAGE == 0 && Lowest(segs) <= Highest(segs)
    ensures Holds(segs, Lowest(segs), Highest(segs) - Lowest(segs))
  {
    SpanAligned(segs);
    forall i | 0 <= i < |segs| ensures Lowest(segs) <= segs[i].vaddr && segs[i].vaddr + segs[i].memsz <= Highest(segs) {
      SpanCovers(segs, i);
      AlignIs(segs[i].vaddr);
      AlignIs(segs[i].vaddr + segs[i].memsz);
    }
    assert segs[0].vaddr <= segs[0].vaddr + segs[0].memsz;
  }

  /** The same in pages. */
  lemma SpanPages(segs: seq<Segment>, v: nat, n: nat)
    requires segs != [] && v == Lowest(segs) / 4096 && (Highest(segs) < Lowest(segs) || n == (Highest(segs) - Lowest(segs)) / 4096)
    ensures Lowest(segs) <= Highest(segs) && Lowest(segs) == 4096 * v && Highest(segs) - Lowest(segs) == 4096 * n && Holds(segs, 4096 * v, 4096 * n)
  {
    SpanHolds(segs);
  }
}
